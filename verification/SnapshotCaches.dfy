/** The snapshot store: its operations, migrating one account into another, and keeping the
    store in a file. */
module SnapshotCaches {
  import opened Options
  import opened Text
  import opened Storage
  import opened Snapshots
  import opened Histories
  import opened Stores
  import P = Preferences
  import T = ThresholdRules

  const FORMAT_VERSION := 2

  /* ---------- operations on the store ---------- */

  /** Changes the name of an account's active entry and of its whole history. */
  function Rename(s: Store<Snapshot>, id: string, name: string): Store<Snapshot> {
    if id == "" then s
    else
      Store(if id in s.entries then s.entries[id := s.entries[id].(name := name)] else s.entries,
            if id in s.history then s.history[id := Named(s.history[id], name)] else s.history)
  }

  function Named(xs: seq<Snapshot>, name: string): (r: seq<Snapshot>)
    ensures |r| == |xs| && forall i | 0 <= i < |xs| :: r[i] == xs[i].(name := name)
  {
    seq(|xs|, i requires 0 <= i < |xs| => xs[i].(name := name))
  }

  /** Changes every active entry. */
  function Reapply(s: Store<Snapshot>, f: Snapshot -> Snapshot): Store<Snapshot> {
    s.(entries := map id | id in s.entries :: f(s.entries[id]))
  }

  /** What changed thresholds do to the store. */
  function Reevaluated(s: Store<Snapshot>, t: P.Thresholds, num: Reader): Store<Snapshot> {
    Reapply(s, x => T.Apply(x, t, num))
  }

  predicate Newer(left: Snapshot, right: Snapshot) { SortTime(left) > SortTime(right) }

  /** The active entries after moving one id to another: the strictly newer one wins. */
  function MovedEntries(entries: map<string, Snapshot>, o: string, n: string): map<string, Snapshot> {
    if o !in entries then entries
    else
      var moved := entries[o].(accountId := n);
      if n !in entries || Newer(moved, entries[n]) then entries[n := moved] - {o} else entries - {o}
  }

  function Moves(s: Store<Snapshot>, oldId: string, newId: string): bool {
    var o, n := Trim(oldId), Trim(newId);
    o != "" && n != "" && o != n && (o in s.entries || o in s.history)
  }

  function Migrate(s: Store<Snapshot>, oldId: string, newId: string, key: Encoder): Store<Snapshot> {
    if !Moves(s, oldId, newId) then s
    else
      var o, n := Trim(oldId), Trim(newId);
      var history := s.history - {o};
      Store(MovedEntries(s.entries, o, n),
            if HistoryOf(s, n) + HistoryOf(s, o) == [] then history
            else history[n := Merged(HistoryOf(s, n), HistoryOf(s, o), n, key)])
  }

  /** A migration leaves nothing under the old id, touches no third account, keeps the later
      of the two active entries under the new id (the present one on a tie), merges the
      histories, and does nothing when it is made again. */
  lemma MigrationIsExact(s: Store<Snapshot>, oldId: string, newId: string, key: Encoder)
    requires Moves(s, oldId, newId)
    ensures var o, n := Trim(oldId), Trim(newId); var s' := Migrate(s, oldId, newId, key);
            && o !in s'.entries && o !in s'.history
            && (forall id | id != o && id != n ::
                  P.Lookup(s'.entries, id) == P.Lookup(s.entries, id)
                      && P.Lookup(s'.history, id) == P.Lookup(s.history, id))
            && P.Lookup(s'.entries, n) ==
                 (if o in s.entries && (n in s.entries ==> SortTime(s.entries[o]) > SortTime(s.entries[n]))
                  then Some(s.entries[o].(accountId := n)) else P.Lookup(s.entries, n))
            && HistoryOf(s', n) == Merged(HistoryOf(s, n), HistoryOf(s, o), n, key)
            && !Moves(s', oldId, newId)
  {
    hide Trim, Merged;
    var o, n := Trim(oldId), Trim(newId);
    if HistoryOf(s, n) + HistoryOf(s, o) == [] {
      assert HistoryOf(s, n) == [] && HistoryOf(s, o) == [];
      EmptyMerge(n, key);
    }
  }

  lemma EmptyMerge(id: string, key: Encoder)
    ensures Merged([], [], id, key) == []
  {
    assert Renamed([] + [], id) == [];
  }

  /* ---------- the file ---------- */

  /** A decoded cache file: the current form, the form without histories, or neither. */
  datatype CacheDocument =
    | Versioned(version: int, entries: map<string, Snapshot>, history: map<string, seq<Snapshot>>)
    | Legacy(entries: map<string, Snapshot>)
    | Malformed

  /** None when a cached snapshot cannot be used. */
  function NormalizeCached(key: string, s: Snapshot): Option<Snapshot> {
    var id := Trim(key);
    if id == "" || (s.accountId != "" && s.accountId != id) || (s.checkedAt == P.ZERO_TIME && s.lastSuccessAt.None?)
    then None
    else Some(s.(accountId := id, kind := if s.kind == OtherKind("") then InferKind(s) else s.kind))
  }

  function ValidEntries(values: map<string, Snapshot>): Option<map<string, Snapshot>> {
    if forall id | id in values :: NormalizeCached(id, values[id]).Some?
    then Some(map id | id in values :: NormalizeCached(id, values[id]).value)
    else None
  }

  function ValidList(id: string, xs: seq<Snapshot>): Option<seq<Snapshot>> {
    if xs == [] then Some([])
    else
      match (ValidList(id, xs[..|xs| - 1]), NormalizeCached(id, xs[|xs| - 1]))
      case (Some(before), Some(last)) => Some(before + [last])
      case _ => None
  }

  function ValidHistory(values: map<string, seq<Snapshot>>): Option<map<string, seq<Snapshot>>> {
    if forall id | id in values :: ValidList(id, Capped(values[id])).Some?
    then Some(map id | id in values :: ValidList(id, Capped(values[id])).value)
    else None
  }

  function Decode(doc: CacheDocument): Option<Store<Snapshot>> {
    match doc
    case Malformed => None
    case Versioned(version, values, lists) =>
      if version > FORMAT_VERSION || version < 0 then None
      else
        (match (ValidEntries(values), ValidHistory(lists))
         case (Some(entries), Some(history)) => Some(Store(entries, history))
         case _ => None)
    case Legacy(values) =>
      match ValidEntries(values)
      case None => None
      case Some(entries) => Some(Store(entries, map id | id in entries :: [entries[id]]))
  }

  method ValidateEntries(values: map<string, Snapshot>) returns (r: Option<map<string, Snapshot>>)
    ensures r == ValidEntries(values)
  {
    hide NormalizeCached;
    var entries: map<string, Snapshot> := map[];
    var rest := values.Keys;
    while rest != {}
      invariant rest <= values.Keys
      invariant entries.Keys == values.Keys - rest
      invariant forall id | id in entries :: NormalizeCached(id, values[id]) == Some(entries[id])
      decreases |rest|
    {
      var id :| id in rest;
      rest := rest - {id};
      var normal := NormalizeCached(id, values[id]);
      if normal.None? { return None; }
      entries := entries[id := normal.value];
    }
    assert ValidEntries(values).value == entries;
    r := Some(entries);
  }

  method ValidateList(id: string, xs: seq<Snapshot>) returns (r: Option<seq<Snapshot>>)
    ensures r == ValidList(id, xs)
  {
    hide NormalizeCached;
    var normal: seq<Snapshot> := [];
    for i := 0 to |xs|
      invariant ValidList(id, xs[..i]) == Some(normal)
    {
      assert xs[..i + 1][..i] == xs[..i];
      var value := NormalizeCached(id, xs[i]);
      if value.None? {
        InvalidStays(id, xs, i + 1);
        return None;
      }
      normal := normal + [value.value];
    }
    assert xs[..|xs|] == xs;
    r := Some(normal);
  }

  lemma {:induction false} InvalidStays(id: string, xs: seq<Snapshot>, i: nat)
    requires i <= |xs| && ValidList(id, xs[..i]).None?
    ensures ValidList(id, xs).None?
    decreases |xs| - i
  {
    hide NormalizeCached;
    if i == |xs| {
      assert xs[..i] == xs;
    } else {
      assert xs[..i + 1][..i] == xs[..i];
      InvalidStays(id, xs, i + 1);
    }
  }

  method ValidateHistory(values: map<string, seq<Snapshot>>) returns (r: Option<map<string, seq<Snapshot>>>)
    ensures r == ValidHistory(values)
  {
    hide NormalizeCached, ValidList;
    var history: map<string, seq<Snapshot>> := map[];
    var rest := values.Keys;
    while rest != {}
      invariant rest <= values.Keys
      invariant history.Keys == values.Keys - rest
      invariant forall id | id in history :: ValidList(id, Capped(values[id])) == Some(history[id])
      decreases |rest|
    {
      var id :| id in rest;
      rest := rest - {id};
      var snapshots := values[id];
      if |snapshots| > HISTORY_LIMIT { snapshots := snapshots[..HISTORY_LIMIT]; }
      var normal := ValidateList(id, snapshots);
      if normal.None? { return None; }
      history := history[id := normal.value];
    }
    assert ValidHistory(values).value == history;
    r := Some(history);
  }

  method DecodeCache(doc: CacheDocument) returns (r: Option<Store<Snapshot>>)
    ensures r == Decode(doc)
  {
    hide ValidEntries, ValidHistory;
    match doc {
      case Malformed => return None;
      case Versioned(version, values, lists) =>
        if version > FORMAT_VERSION || version < 0 { return None; }
        var entries := ValidateEntries(values);
        if entries.None? { return None; }
        var history := ValidateHistory(lists);
        if history.None? { return None; }
        return Some(Store(entries.value, history.value));
      case Legacy(values) =>
        var entries := ValidateEntries(values);
        if entries.None? { return None; }
        var history: map<string, seq<Snapshot>> := map id | id in entries.value :: [entries.value[id]];
        return Some(Store(entries.value, history));
    }
  }

  /** What is read from the file: a usable snapshot is filed under its key without surrounding
      spaces, keeps everything, and gets the kind of its data when it has none. */
  lemma NormalizedExactly(key: string, s: Snapshot)
    ensures var r := NormalizeCached(key, s);
            && (r.Some? <==>
                  Trim(key) != "" && s.accountId in {"", Trim(key)} && (s.checkedAt != 0 || s.lastSuccessAt.Some?))
            && (r.Some? ==>
                  && r.value == s.(accountId := Trim(key), kind := r.value.kind)
                  && (s.kind != OtherKind("") ==> r.value.kind == s.kind)
                  && (s.kind == OtherKind("") ==>
                        && (r.value.kind == BalanceKind <==> s.balances != [])
                        && (r.value.kind == PeriodQuota <==> s.balances == [] && s.windows != [])
                        && (r.value.kind == Quota <==> s.balances == [] && s.windows == [] && s.quantities != [])
                        && (r.value.kind == Unsupported <==>
                           s.balances == [] && s.windows == [] && s.quantities == [])))
  {
    hide Trim;
  }

  /** A file of the form without histories is usable exactly when all its snapshots are; each of
      them then is its account's entry and whole history. */
  lemma LegacyExactly(values: map<string, Snapshot>)
    ensures var r := Decode(Legacy(values));
            && (r.Some? <==> forall id | id in values :: NormalizeCached(id, values[id]).Some?)
            && (r.Some? ==>
                  && r.value.entries.Keys == r.value.history.Keys == values.Keys
                  && forall id | id in values ::
                       && Some(r.value.entries[id]) == NormalizeCached(id, values[id])
                       && r.value.history[id] == [r.value.entries[id]])
  {
    hide NormalizeCached;
  }

  /** A file of the present form or an older one with histories is usable exactly when all its
      entries and the first fifty snapshots of every history are; newer and negative versions are
      not. */
  lemma VersionedExactly(version: int, values: map<string, Snapshot>, lists: map<string, seq<Snapshot>>)
    ensures var r := Decode(Versioned(version, values, lists));
            && (r.Some? <==>
                  && 0 <= version <= 2
                  && (forall id | id in values :: NormalizeCached(id, values[id]).Some?)
                  && forall id, i | id in lists && 0 <= i < |lists[id]| && i < 50 ::
                       NormalizeCached(id, lists[id][i]).Some?)
            && (r.Some? ==>
                  && r.value.entries.Keys == values.Keys && r.value.history.Keys == lists.Keys
                  && (forall id | id in values :: Some(r.value.entries[id]) == NormalizeCached(id, values[id]))
                  && (forall id | id in lists ::
                        && |r.value.history[id]| == (if |lists[id]| < 50 then |lists[id]| else 50)
                        && forall i | 0 <= i < |r.value.history[id]| ::
                             Some(r.value.history[id][i]) == NormalizeCached(id, lists[id][i])))
    ensures Decode(Malformed).None?
  {
    hide NormalizeCached, ValidList;
    forall id | id in lists
      ensures ValidList(id, Capped(lists[id])).Some? <==>
                forall i | 0 <= i < |Capped(lists[id])| :: NormalizeCached(id, Capped(lists[id])[i]).Some?
      ensures var r := ValidList(id, Capped(lists[id]));
              r.Some? ==>
                && |r.value| == |Capped(lists[id])|
                && forall i | 0 <= i < |r.value| :: Some(r.value[i]) == NormalizeCached(id, lists[id][i])
    {
      ValidListExactly(id, Capped(lists[id]));
    }
  }

  lemma {:induction false} ValidListExactly(id: string, xs: seq<Snapshot>)
    ensures ValidList(id, xs).Some? <==> forall i | 0 <= i < |xs| :: NormalizeCached(id, xs[i]).Some?
    ensures var r := ValidList(id, xs);
            r.Some? ==> |r.value| == |xs| && forall i | 0 <= i < |xs| :: Some(r.value[i]) == NormalizeCached(id, xs[i])
  {
    hide NormalizeCached;
    if xs == [] {
    } else {
      ValidListExactly(id, xs[..|xs| - 1]);
    }
  }

  /** Renaming an account names its entry and its whole history, and changes nothing else. */
  lemma RenamedExactly(s: Store<Snapshot>, id: string, name: string, k: string)
    requires id != ""
    ensures var r := Rename(s, id, name);
            && r.entries.Keys == s.entries.Keys && r.history.Keys == s.history.Keys
            && (k in s.entries ==> r.entries[k] == if k == id then s.entries[k].(name := name) else s.entries[k])
            && (k in s.history ==>
                  && |r.history[k]| == |s.history[k]|
                  && forall i | 0 <= i < |s.history[k]| ::
                       r.history[k][i] == if k == id then s.history[k][i].(name := name) else s.history[k][i])
  {
  }

  /* ---------- round trip ---------- */

  /** What a snapshot is after encoding: the base status is not part of the file. */
  function Erased(s: Snapshot): Snapshot { s.(base := UNSET) }

  function ErasedAll(xs: seq<Snapshot>): (r: seq<Snapshot>)
    ensures |r| == |xs| && forall i | 0 <= i < |xs| :: r[i] == Erased(xs[i])
  {
    seq(|xs|, i requires 0 <= i < |xs| => Erased(xs[i]))
  }

  function ErasedStore(s: Store<Snapshot>): Store<Snapshot> {
    Store(map id | id in s.entries :: Erased(s.entries[id]), map id | id in s.history :: ErasedAll(s.history[id]))
  }

  function Encode(s: Store<Snapshot>): CacheDocument {
    Versioned(FORMAT_VERSION, ErasedStore(s).entries, ErasedStore(s).history)
  }

  predicate Encodable(s: Store<Snapshot>, key: Encoder) {
    && (forall id | id in s.entries :: key(s.entries[id]).Some?)
    && (forall id | id in s.history :: forall x | x in s.history[id] :: key(x).Some?)
  }

  /** A snapshot that belongs under its id: the id is trimmed into it, it has a usable time
      and a kind. */
  predicate Fits(id: string, s: Snapshot) {
    && Trim(id) != "" && s.accountId == Trim(id)
    && (s.checkedAt != P.ZERO_TIME || s.lastSuccessAt.Some?) && s.kind != OtherKind("")
  }

  predicate WellFormed(s: Store<Snapshot>) {
    && (forall id | id in s.entries :: Fits(id, s.entries[id]))
    && (forall id | id in s.history :: |s.history[id]| <= HISTORY_LIMIT && forall x | x in s.history[id] :: Fits(id, x))
  }

  lemma FitsExactly(id: string, s: Snapshot)
    ensures NormalizeCached(id, Erased(s)) == Some(Erased(s)) <==> Fits(id, s)
  {
    hide Trim;
  }

  lemma {:induction false} ListFitsExactly(id: string, xs: seq<Snapshot>)
    ensures ValidList(id, ErasedAll(xs)) == Some(ErasedAll(xs)) <==> forall x | x in xs :: Fits(id, x)
    ensures ValidList(id, ErasedAll(xs)).Some? ==> |ValidList(id, ErasedAll(xs)).value| == |xs|
  {
    hide NormalizeCached, Fits, Erased;
    if xs == [] {
    } else {
      var before, last := xs[..|xs| - 1], xs[|xs| - 1];
      ListFitsExactly(id, before);
      FitsExactly(id, last);
      assert ErasedAll(xs)[..|xs| - 1] == ErasedAll(before);
      assert ErasedAll(xs) == ErasedAll(before) + [Erased(last)];
      assert forall x :: x in xs <==> x in before || x == last;
    }
  }

  lemma EntriesFitExactly(values: map<string, Snapshot>)
    ensures var erased := map id | id in values :: Erased(values[id]);
            ValidEntries(erased) == Some(erased) <==> forall id | id in values :: Fits(id, values[id])
  {
    hide NormalizeCached, Fits;
    var erased := map id | id in values :: Erased(values[id]);
    forall id | id in values ensures NormalizeCached(id, erased[id]) == Some(erased[id]) <==> Fits(id, values[id]) {
      FitsExactly(id, values[id]);
    }
    if ValidEntries(erased) == Some(erased) {
      forall id | id in values ensures Fits(id, values[id]) {
        assert ValidEntries(erased).value[id] == NormalizeCached(id, erased[id]).value;
      }
    }
    if forall id | id in values :: Fits(id, values[id]) {
      assert ValidEntries(erased).value == erased;
    }
  }

  lemma HistoryFitsExactly(values: map<string, seq<Snapshot>>)
    ensures var erased := map id | id in values :: ErasedAll(values[id]);
            ValidHistory(erased) == Some(erased) <==>
              forall id | id in values :: |values[id]| <= HISTORY_LIMIT && forall x | x in values[id] :: Fits(id, x)
  {
    hide NormalizeCached, Fits, ValidList;
    var erased := map id | id in values :: ErasedAll(values[id]);
    forall id | id in values
      ensures ValidList(id, Capped(erased[id])) == Some(erased[id]) <==>
                |values[id]| <= HISTORY_LIMIT && forall x | x in values[id] :: Fits(id, x)
    {
      ListFitsExactly(id, values[id]);
      if |values[id]| > HISTORY_LIMIT {
        ListFitsExactly(id, values[id][..HISTORY_LIMIT]);
        assert Capped(erased[id]) == ErasedAll(values[id][..HISTORY_LIMIT]);
      }
    }
    if ValidHistory(erased) == Some(erased) {
      forall id | id in values ensures ValidList(id, Capped(erased[id])) == Some(erased[id]) {
        assert ValidHistory(erased).value[id] == ValidList(id, Capped(erased[id])).value;
      }
    }
    if forall id | id in values :: ValidList(id, Capped(erased[id])) == Some(erased[id]) {
      assert ValidHistory(erased).value == erased;
    }
  }

  /** Saving and loading gives a store back, apart from the base status, exactly when the
      store is well formed. */
  lemma RoundTripExactly(s: Store<Snapshot>)
    ensures Decode(Encode(s)) == Some(ErasedStore(s)) <==> WellFormed(s)
  {
    hide ValidEntries, ValidHistory, Fits;
    EntriesFitExactly(s.entries);
    HistoryFitsExactly(s.history);
  }

  lemma {:induction false} ValidListLength(id: string, xs: seq<Snapshot>)
    ensures ValidList(id, xs).Some? ==> |ValidList(id, xs).value| == |xs|
  {
    hide NormalizeCached;
    if xs == [] {
    } else {
      ValidListLength(id, xs[..|xs| - 1]);
    }
  }

  /** Whatever a file holds, the store read from it keeps at most fifty entries an account. */
  lemma DecodedIsBounded(doc: CacheDocument)
    ensures Decode(doc).Some? ==> Bounded(Decode(doc).value)
  {
    hide NormalizeCached, ValidList, ValidEntries;
    if doc.Versioned? {
      forall id | id in doc.history
        ensures ValidList(id, Capped(doc.history[id])).Some? ==>
                |ValidList(id, Capped(doc.history[id])).value| <= HISTORY_LIMIT
      {
        ValidListLength(id, Capped(doc.history[id]));
      }
    }
  }

  /* ---------- every reachable store is bounded and well formed ---------- */

  datatype StoreOp =
    | PutOp(snapshot: Snapshot)
    | DeleteOp(id: string)
    | RemoveActiveOp(id: string)
    | PruneOp(keep: set<string>)
    | RenameOp(id: string, name: string)
    | ReapplyOp(limits: P.Thresholds, num: Reader)
    | MigrateOp(oldId: string, newId: string)

  function Operate(s: Store<Snapshot>, op: StoreOp, key: Encoder): Store<Snapshot> {
    match op
    case PutOp(x) => Put(s, x.accountId, x)
    case DeleteOp(id) => Delete(s, id)
    case RemoveActiveOp(id) => RemoveActive(s, id)
    case PruneOp(keep) => Prune(s, keep)
    case RenameOp(id, name) => Rename(s, id, name)
    case ReapplyOp(t, num) => Reevaluated(s, t, num)
    case MigrateOp(o, n) => Migrate(s, o, n, key)
  }

  function OperateAll(s: Store<Snapshot>, ops: seq<StoreOp>, key: Encoder): Store<Snapshot> {
    if ops == [] then s else Operate(OperateAll(s, ops[..|ops| - 1], key), ops[|ops| - 1], key)
  }

  /** Only well-formed snapshots are put. */
  predicate GoodOp(op: StoreOp) { op.PutOp? ==> Fits(op.snapshot.accountId, op.snapshot) }

  lemma MigrationKeepsWellFormed(s: Store<Snapshot>, oldId: string, newId: string, key: Encoder)
    requires WellFormed(s)
    ensures WellFormed(Migrate(s, oldId, newId, key))
  {
    hide Trim, Merged, Renamed;
    var o, n := Trim(oldId), Trim(newId);
    TrimIdempotent(oldId);
    TrimIdempotent(newId);
    var own, moved := HistoryOf(s, n), HistoryOf(s, o);
    var r := Merged(own, moved, n, key);
    if Moves(s, oldId, newId) {
      MergeIsExact(own, moved, n, key);
      forall x | x in r ensures Fits(n, x) {
        RenamedFits(own + moved, x, n);
      }
    }
  }

  lemma RenamedFits(xs: seq<Snapshot>, x: Snapshot, n: string)
    requires x in Renamed(xs, n) && n != "" && Trim(n) == n
    requires forall y | y in xs :: exists id :: Fits(id, y)
    ensures Fits(n, x)
  {
    hide Trim;
    var i :| 0 <= i < |xs| && Renamed(xs, n)[i] == x;
    assert xs[i] in xs;
  }

  lemma OperateKeepsWellFormed(s: Store<Snapshot>, op: StoreOp, key: Encoder)
    requires WellFormed(s) && GoodOp(op)
    ensures WellFormed(Operate(s, op, key))
  {
    hide Fits, Migrate, Put, Rename, Reevaluated;
    match op {
      case PutOp(x) => PutKeepsWellFormed(s, x);
      case RenameOp(id, name) => RenameKeepsWellFormed(s, id, name);
      case ReapplyOp(t, num) => ReapplyKeepsWellFormed(s, t, num);
      case MigrateOp(o, n) => MigrationKeepsWellFormed(s, o, n, key);
      case _ =>
    }
  }

  lemma RenameKeepsWellFormed(s: Store<Snapshot>, id: string, name: string)
    requires WellFormed(s)
    ensures WellFormed(Rename(s, id, name))
  {
    hide Trim;
    if id in s.history {
      var h := Named(s.history[id], name);
      forall x | x in h ensures Fits(id, x) {
        var i :| 0 <= i < |h| && h[i] == x;
        assert s.history[id][i] in s.history[id];
      }
    }
  }

  lemma PutKeepsWellFormed(s: Store<Snapshot>, x: Snapshot)
    requires WellFormed(s) && Fits(x.accountId, x)
    ensures WellFormed(Put(s, x.accountId, x))
  {
    hide Fits;
    var h := Capped([x] + HistoryOf(s, x.accountId));
    assert forall y | y in h :: y == x || y in HistoryOf(s, x.accountId);
  }

  lemma ReapplyKeepsWellFormed(s: Store<Snapshot>, t: P.Thresholds, num: Reader)
    requires WellFormed(s)
    ensures WellFormed(Reevaluated(s, t, num))
  {
    hide T.Evaluate, T.Infer;
  }

  /** Whatever is done to a store, every history holds at most fifty entries; and as long as
      only well-formed snapshots are put, the store always survives a save and a load. */
  lemma {:induction false} ReachableStores(s: Store<Snapshot>, ops: seq<StoreOp>, key: Encoder)
    ensures Bounded(s) ==> Bounded(OperateAll(s, ops, key))
    ensures WellFormed(s) && (forall op | op in ops :: GoodOp(op)) ==>
              var r := OperateAll(s, ops, key); WellFormed(r) && Decode(Encode(r)) == Some(ErasedStore(r))
  {
    hide Operate, GoodOp, Decode, Encode, WellFormed, Bounded;
    if ops != [] {
      var before := ops[..|ops| - 1];
      ReachableStores(s, before, key);
      var last := ops[|ops| - 1];
      assert last in ops;
      var r := OperateAll(s, before, key);
      if Bounded(r) { OperateKeepsBounded(r, last, key); }
      if WellFormed(r) && GoodOp(last) { OperateKeepsWellFormed(r, last, key); }
    }
    RoundTripExactly(OperateAll(s, ops, key));
  }

  lemma OperateKeepsBounded(s: Store<Snapshot>, op: StoreOp, key: Encoder)
    requires Bounded(s)
    ensures Bounded(Operate(s, op, key))
  {
    hide Trim, Merged, MovedEntries;
  }
}
