/** The active entry and the history of every account. `T` is a snapshot, possibly with notes
    on how it was obtained. */
module Stores {
  import opened Options
  import opened Histories

  datatype Store<T> = Store(entries: map<string, T>, history: map<string, seq<T>>)

  function HistoryOf<T>(s: Store<T>, id: string): seq<T> { if id in s.history then s.history[id] else [] }

  function Put<T>(s: Store<T>, id: string, x: T): Store<T> {
    if id == "" then s
    else Store(s.entries[id := x], s.history[id := Capped([x] + HistoryOf(s, id))])
  }

  function Delete<T>(s: Store<T>, id: string): Store<T> {
    if id == "" then s else Store(s.entries - {id}, s.history - {id})
  }

  function RemoveActive<T>(s: Store<T>, id: string): Store<T> {
    if id == "" then s else s.(entries := s.entries - {id})
  }

  function Prune<T>(s: Store<T>, keep: set<string>): Store<T> {
    s.(entries := s.entries - (s.entries.Keys - keep))
  }

  predicate Bounded<T>(s: Store<T>) { forall id | id in s.history :: |s.history[id]| <= HISTORY_LIMIT }

  /** Everything the store holds under an id. */
  predicate Holds<T(==)>(s: Store<T>, id: string, x: T) {
    (id in s.entries && s.entries[id] == x) || (id in s.history && x in s.history[id])
  }

  /** A stored snapshot is the entry of its account and stands in front of its history, whose
      older entries stay until there are fifty; nothing else changes. */
  lemma PutStandsInFront<T>(s: Store<T>, id: string, x: T)
    requires id != ""
    ensures var s' := Put(s, id, x);
            && s'.entries == s.entries[id := x] && s'.history - {id} == s.history - {id} && id in s'.history
            && var was, now := HistoryOf(s, id), s'.history[id];
               && now != [] && now[0] == x && now[1..] <= was
               && |now| == (if |was| < 50 then |was| + 1 else 50)
  {
  }

  /** Storing a snapshot adds nothing else. */
  lemma OnlyPutAdds<T>(s: Store<T>, id: string, x: T)
    ensures forall k, y | Holds(Put(s, id, x), k, y) :: Holds(s, k, y) || (k == id && y == x)
  {
    var h := Capped([x] + HistoryOf(s, id));
    assert forall y | y in h :: y == x || y in HistoryOf(s, id);
  }

  /** Removing adds nothing, and a deleted account holds nothing. */
  lemma RemovalAddsNothing<T>(s: Store<T>, id: string, keep: set<string>)
    ensures forall k, y | Holds(Delete(s, id), k, y) :: Holds(s, k, y) && (k != id || id == "")
    ensures forall k, y | Holds(RemoveActive(s, id), k, y) :: Holds(s, k, y)
    ensures forall k, y | Holds(Prune(s, keep), k, y) :: Holds(s, k, y)
  {
  }

  function Found<T>(m: map<string, T>, id: string): Option<T> { if id in m then Some(m[id]) else None }

  /** Deleting an account takes its entry and history, removing its active entry takes only that,
      pruning takes exactly the entries not kept; everything else stays. */
  lemma RemovalIsExact<T>(s: Store<T>, id: string, keep: set<string>, k: string)
    requires id != ""
    ensures Found(Delete(s, id).entries, k) == (if k == id then None else Found(s.entries, k))
    ensures Found(Delete(s, id).history, k) == (if k == id then None else Found(s.history, k))
    ensures Found(RemoveActive(s, id).entries, k) == (if k == id then None else Found(s.entries, k))
    ensures RemoveActive(s, id).history == s.history
    ensures Found(Prune(s, keep).entries, k) == (if k in keep then Found(s.entries, k) else None)
    ensures Prune(s, keep).history == s.history
  {
  }
}
