/** An account's history of snapshots, and merging two histories into one. */
module Histories {
  import opened Options
  import opened Text
  import opened Snapshots
  import opened Sequences
  import P = Preferences

  const HISTORY_LIMIT := 50

  function StatusText(s: Status): string {
    match s
    case Ok => "ok"
    case Warning => "warning"
    case Critical => "critical"
    case Error => "error"
    case Unknown => "unknown"
    case Disabled => "disabled"
    case Other(text) => text
  }

  function SortTime(s: Snapshot): int { if s.checkedAt != P.ZERO_TIME then s.checkedAt else s.lastAttemptAt }

  /** Later snapshots come first; at the same time the greater status text does. */
  predicate Before(a: Snapshot, b: Snapshot) {
    if SortTime(a) != SortTime(b) then SortTime(a) > SortTime(b)
    else Less(StatusText(b.status), StatusText(a.status))
  }

  predicate Tied(a: Snapshot, b: Snapshot) { !Before(a, b) && !Before(b, a) }

  lemma BeforeIsWeakOrder(a: Snapshot, b: Snapshot, c: Snapshot)
    ensures !Before(a, a) && !(Before(a, b) && Before(b, a))
    ensures Before(a, c) ==> Before(a, b) || Before(b, c)
    ensures Tied(a, b) <==> SortTime(a) == SortTime(b) && StatusText(a.status) == StatusText(b.status)
  {
    hide StatusText, Less;
    var x, y, z := StatusText(a.status), StatusText(b.status), StatusText(c.status);
    LessIsTotal(x, y);
    LessIsTotal(y, z);
    LessIsTotal(x, x);
    if Less(z, x) && !Less(y, x) && !Less(z, y) {
      if Less(x, y) && Less(y, z) {
        LessTransitive(x, y, z);
      }
      LessIsTotal(x, z);
    }
  }

  /* ---------- stable sorting ---------- */

  ghost predicate Sorted(xs: seq<Snapshot>) { forall i, j | 0 <= i < j < |xs| :: !Before(xs[j], xs[i]) }

  /** Where x goes among sorted entries: behind every entry it is not before. */
  function Position(xs: seq<Snapshot>, x: Snapshot): (p: nat)
    ensures p <= |xs|
    ensures forall i | p <= i < |xs| :: Before(x, xs[i])
    ensures p > 0 ==> !Before(x, xs[p - 1])
  {
    if xs == [] || !Before(x, xs[|xs| - 1]) then |xs| else Position(xs[..|xs| - 1], x)
  }

  function Inserted(xs: seq<Snapshot>, x: Snapshot): (r: seq<Snapshot>)
    ensures |r| == |xs| + 1
  {
    xs[..Position(xs, x)] + [x] + xs[Position(xs, x)..]
  }

  function StableSort(xs: seq<Snapshot>): (r: seq<Snapshot>)
    ensures |r| == |xs|
  {
    if xs == [] then [] else Inserted(StableSort(xs[..|xs| - 1]), xs[|xs| - 1])
  }

  lemma PositionSplits(xs: seq<Snapshot>, x: Snapshot)
    requires Sorted(xs)
    ensures forall i | 0 <= i < |xs| :: !Before(x, xs[i]) <==> i < Position(xs, x)
  {
    hide Before, Position;
    var p := Position(xs, x);
    forall i | 0 <= i < p ensures !Before(x, xs[i]) {
      BeforeIsWeakOrder(x, xs[p - 1], xs[i]);
    }
  }

  lemma InsertedIsSorted(xs: seq<Snapshot>, x: Snapshot)
    requires Sorted(xs)
    ensures Sorted(Inserted(xs, x)) && multiset(Inserted(xs, x)) == multiset(xs) + multiset{x}
  {
    hide Before, Position;
    PositionSplits(xs, x);
    var p := Position(xs, x);
    forall i | p <= i < |xs| ensures !Before(xs[i], x) {
      BeforeIsWeakOrder(x, xs[i], x);
    }
    assert xs == xs[..p] + xs[p..];
  }

  /** Sorting sorts, and is a permutation. */
  lemma {:induction false} SortIsSorted(xs: seq<Snapshot>)
    ensures Sorted(StableSort(xs)) && multiset(StableSort(xs)) == multiset(xs)
  {
    hide Sorted, Inserted;
    if xs == [] {
      NothingSorted();
    } else {
      var before, x := xs[..|xs| - 1], xs[|xs| - 1];
      SortIsSorted(before);
      InsertedIsSorted(StableSort(before), x);
      assert xs == before + [x];
    }
  }

  lemma NothingSorted()
    ensures Sorted([])
  {
  }

  function TiedWith(x: Snapshot, xs: seq<Snapshot>): seq<Snapshot> {
    if xs == [] then []
    else if Tied(x, xs[|xs| - 1]) then TiedWith(x, xs[..|xs| - 1]) + [xs[|xs| - 1]]
    else TiedWith(x, xs[..|xs| - 1])
  }

  lemma {:induction false} TiedWithConcat(x: Snapshot, xs: seq<Snapshot>, ys: seq<Snapshot>)
    ensures TiedWith(x, xs + ys) == TiedWith(x, xs) + TiedWith(x, ys)
  {
    hide Tied;
    if ys == [] {
      assert xs + ys == xs;
    } else {
      assert (xs + ys)[..|xs + ys| - 1] == xs + ys[..|ys| - 1];
      TiedWithConcat(x, xs, ys[..|ys| - 1]);
    }
  }

  lemma {:induction false} NoneTied(x: Snapshot, xs: seq<Snapshot>)
    requires forall i | 0 <= i < |xs| :: !Tied(x, xs[i])
    ensures TiedWith(x, xs) == []
  {
    if xs == [] {
    } else {
      NoneTied(x, xs[..|xs| - 1]);
    }
  }

  lemma InsertedLast(xs: seq<Snapshot>, y: Snapshot, x: Snapshot)
    requires Sorted(xs)
    ensures TiedWith(x, Inserted(xs, y)) == TiedWith(x, xs) + TiedWith(x, [y])
  {
    hide Tied, Before, TiedWith, Position, Sorted;
    var p := Position(xs, y);
    var front, back := xs[..p], xs[p..];
    assert front + back == xs;
    TiedWithConcat(x, front, back);
    TiedWithConcat(x, front + [y], back);
    TiedWithConcat(x, front, [y]);
    if Tied(x, y) {
      forall i | 0 <= i < |back| ensures !Tied(x, back[i]) {
        BeforeAllTied(x, y, back[i]);
      }
      NoneTied(x, back);
    } else {
      OneUntied(x, y);
    }
  }

  /** Sorting keeps entries that tie in the order they came in. */
  lemma {:induction false} SortIsStable(xs: seq<Snapshot>, x: Snapshot)
    ensures TiedWith(x, StableSort(xs)) == TiedWith(x, xs)
  {
    hide TiedWith, Inserted, Sorted;
    if xs == [] {
      assert StableSort(xs) == xs;
    } else {
      var before, last := xs[..|xs| - 1], xs[|xs| - 1];
      SortIsStable(before, x);
      SortIsSorted(before);
      InsertedLast(StableSort(before), last, x);
      TiedWithConcat(x, before, [last]);
      assert before + [last] == xs;
    }
  }

  lemma BeforeAllTied(x: Snapshot, y: Snapshot, z: Snapshot)
    requires Tied(x, y) && Before(y, z)
    ensures !Tied(x, z)
  {
    hide Before;
    BeforeIsWeakOrder(y, x, z);
  }

  lemma OneUntied(x: Snapshot, y: Snapshot)
    requires !Tied(x, y)
    ensures TiedWith(x, [y]) == []
  {
    assert [y][..0] == [];
  }

  /* ---------- dropping duplicates ---------- */

  /** The text a snapshot is stored as; None when it cannot be encoded. */
  type Encoder = Snapshot -> Option<string>

  function Keys(xs: seq<Snapshot>, key: Encoder): set<Option<string>> { set x | x in xs :: key(x) }

  /** The first entry of every text. */
  function Distinct(xs: seq<Snapshot>, key: Encoder): (r: seq<Snapshot>)
    ensures |r| <= |xs|
    ensures forall x | x in r :: x in xs && key(x).Some?
  {
    if xs == [] then []
    else
      var r := Distinct(xs[..|xs| - 1], key);
      var x := xs[|xs| - 1];
      if key(x).None? || key(x) in Keys(r, key) then r else r + [x]
  }

  ghost predicate DistinctKeys(xs: seq<Snapshot>, key: Encoder) {
    && (forall x | x in xs :: key(x).Some?)
    && forall i, j | 0 <= i < j < |xs| :: key(xs[i]) != key(xs[j])
  }

  ghost predicate Seen(seen: set<string>, kept: seq<Snapshot>, key: Encoder) {
    forall s :: s in seen <==> Some(s) in Keys(kept, key)
  }

  lemma SeenStep(seen: set<string>, kept: seq<Snapshot>, x: Snapshot, key: Encoder)
    requires Seen(seen, kept, key) && key(x).Some?
    ensures Seen(seen + {key(x).value}, kept + [x], key)
    ensures key(x).value in seen <==> key(x) in Keys(kept, key)
  {
    KeysStep(kept, x, key);
  }

  lemma NoneSeen(key: Encoder)
    ensures Seen({}, [], key)
  {
  }

  lemma DistinctStep(xs: seq<Snapshot>, i: nat, key: Encoder)
    requires i < |xs|
    ensures var r := Distinct(xs[..i], key);
            Distinct(xs[..i + 1], key) == if key(xs[i]).None? || key(xs[i]) in Keys(r, key) then r else r + [xs[i]]
  {
    hide Keys;
    assert xs[..i + 1][..i] == xs[..i];
  }

  /** Filters into the front of the same array. */
  method DropDuplicates(a: array<Snapshot>, key: Encoder) returns (n: nat)
    modifies a
    ensures n <= a.Length && a[..n] == Distinct(old(a[..]), key)
  {
    hide Keys, Seen, Distinct;
    ghost var was := a[..];
    var seen: set<string> := {};
    n := 0;
    NoneSeen(key);
    ghost var kept: seq<Snapshot> := [];
    assert Distinct(was[..0], key) == [];
    for i := 0 to a.Length
      invariant n <= i && a[..n] == kept == Distinct(was[..i], key)
      invariant forall k | i <= k < a.Length :: a[k] == was[k]
      invariant Seen(seen, kept, key)
    {
      DistinctStep(was, i, key);
      var x := a[i];
      var text := key(x);
      if text.None? { continue; }
      SeenStep(seen, kept, x, key);
      if text.value in seen { continue; }
      seen := seen + {text.value};
      a[n] := x;
      n := n + 1;
      kept := kept + [x];
    }
    assert was[..a.Length] == was;
  }

  lemma KeysStep(xs: seq<Snapshot>, x: Snapshot, key: Encoder)
    ensures Keys(xs + [x], key) == Keys(xs, key) + {key(x)}
  {
    assert forall y :: y in xs + [x] <==> y in xs || y == x;
  }

  lemma {:induction false} DistinctIsDistinct(xs: seq<Snapshot>, key: Encoder)
    ensures DistinctKeys(Distinct(xs, key), key)
  {
    if xs == [] {
    } else {
      var r := Distinct(xs[..|xs| - 1], key);
      DistinctIsDistinct(xs[..|xs| - 1], key);
      assert forall i | 0 <= i < |r| :: r[i] in r && key(r[i]) in Keys(r, key);
    }
  }

  /** Everything encodable is represented. */
  lemma {:induction false} DistinctKeepsKeys(xs: seq<Snapshot>, key: Encoder)
    ensures forall x | x in xs && key(x).Some? :: key(x) in Keys(Distinct(xs, key), key)
  {
    if xs == [] {
    } else {
      var before, x := xs[..|xs| - 1], xs[|xs| - 1];
      DistinctKeepsKeys(before, key);
      KeysStep(Distinct(before, key), x, key);
      assert forall y :: y in xs <==> y in before || y == x;
    }
  }

  lemma {:induction false} DistinctPrefix(xs: seq<Snapshot>, ys: seq<Snapshot>, key: Encoder)
    ensures Distinct(xs, key) <= Distinct(xs + ys, key)
  {
    hide Keys;
    if ys == [] {
      assert xs + ys == xs;
    } else {
      assert (xs + ys)[..|xs + ys| - 1] == xs + ys[..|ys| - 1];
      DistinctPrefix(xs, ys[..|ys| - 1], key);
    }
  }

  lemma LastIsNew(xs: seq<Snapshot>, key: Encoder)
    requires xs != [] && DistinctKeys(xs, key)
    ensures key(xs[|xs| - 1]).Some? && key(xs[|xs| - 1]) !in Keys(xs[..|xs| - 1], key)
    ensures DistinctKeys(xs[..|xs| - 1], key)
  {
    var before := xs[..|xs| - 1];
    assert forall i | 0 <= i < |before| :: before[i] == xs[i];
    assert xs[|xs| - 1] in xs;
  }

  lemma {:induction false} DistinctOfDistinct(xs: seq<Snapshot>, key: Encoder)
    requires DistinctKeys(xs, key)
    ensures Distinct(xs, key) == xs
  {
    hide Keys, DistinctKeys;
    if xs == [] {
    } else {
      LastIsNew(xs, key);
      DistinctOfDistinct(xs[..|xs| - 1], key);
      assert xs == xs[..|xs| - 1] + [xs[|xs| - 1]];
    }
  }

  /** Dropping duplicates keeps the order. */
  lemma {:induction false} DistinctSorted(xs: seq<Snapshot>, key: Encoder)
    requires Sorted(xs)
    ensures Sorted(Distinct(xs, key))
  {
    hide Before, Keys;
    if xs == [] {
    } else {
      var before := xs[..|xs| - 1];
      assert Sorted(before);
      DistinctSorted(before, key);
      var r := Distinct(before, key);
      forall i | 0 <= i < |r| ensures !Before(xs[|xs| - 1], r[i]) {
        assert r[i] in before;
      }
    }
  }

  /** An entry whose text is missing or already represented makes no difference. */
  lemma {:induction false} DuplicateIsDropped(a: seq<Snapshot>, y: Snapshot, b: seq<Snapshot>, key: Encoder)
    requires key(y).None? || key(y) in Keys(a, key)
    ensures Distinct(a + [y] + b, key) == Distinct(a + b, key)
  {
    if b == [] {
      assert (a + [y] + b)[..|a|] == a && a + b == a;
      DistinctKeepsKeys(a, key);
    } else {
      var b' := b[..|b| - 1];
      DuplicateIsDropped(a, y, b', key);
      assert (a + [y] + b)[..|a + [y] + b| - 1] == a + [y] + b';
      assert (a + b)[..|a + b| - 1] == a + b';
    }
  }

  /* ---------- merging ---------- */

  function Capped<T>(xs: seq<T>): (r: seq<T>)
    ensures r <= xs && |r| <= HISTORY_LIMIT && (|xs| <= HISTORY_LIMIT ==> r == xs)
  {
    if |xs| > HISTORY_LIMIT then xs[..HISTORY_LIMIT] else xs
  }

  function Renamed(xs: seq<Snapshot>, id: string): (r: seq<Snapshot>)
    ensures |r| == |xs| && forall i | 0 <= i < |xs| :: r[i] == xs[i].(accountId := id)
  {
    seq(|xs|, i requires 0 <= i < |xs| => xs[i].(accountId := id))
  }

  /** The history of `id` after the entries of `moved` joined the entries of `own`. */
  function Merged(own: seq<Snapshot>, moved: seq<Snapshot>, id: string, key: Encoder): (r: seq<Snapshot>)
    ensures |r| <= HISTORY_LIMIT
  {
    Capped(Distinct(StableSort(Renamed(own + moved, id)), key))
  }

  method MergeHistories(own: seq<Snapshot>, moved: seq<Snapshot>, id: string, key: Encoder)
    returns (merged: seq<Snapshot>)
    ensures merged == Merged(own, moved, id, key)
  {
    var combined := own + moved;
    for i := 0 to |combined|
      invariant |combined| == |own + moved|
      invariant forall k | 0 <= k < |combined| ::
                  combined[k] == if k < i then (own + moved)[k].(accountId := id) else (own + moved)[k]
    {
      combined := combined[i := combined[i].(accountId := id)];
    }
    assert combined == Renamed(own + moved, id);
    var sorted := StableSort(combined);
    var a := new Snapshot[|sorted|](i requires 0 <= i < |sorted| => sorted[i]);
    assert a[..] == sorted;
    var n := DropDuplicates(a, key);
    if n > HISTORY_LIMIT { n := HISTORY_LIMIT; }
    merged := a[..n];
  }

  /** An entry is at or before another in the order of the history. */
  predicate AtOrBefore(z: Snapshot, y: Snapshot) { !Before(y, z) }

  /** What merging does with each input: kept, or it cannot be encoded, or an entry with the
      same text is kept, or the history is full of entries at or before it. */
  ghost predicate Accounted(y: Snapshot, r: seq<Snapshot>, key: Encoder) {
    || key(y).None?
    || (exists z | z in r :: key(z) == key(y))
    || (|r| == HISTORY_LIMIT && forall z | z in r :: AtOrBefore(z, y))
  }

  lemma {:induction false} FirstOfKeyIsEarlier(xs: seq<Snapshot>, y: Snapshot, key: Encoder)
    requires Sorted(xs) && y in xs && key(y).Some?
    ensures exists z | z in Distinct(xs, key) :: key(z) == key(y) && AtOrBefore(z, y)
  {
    hide Before;
    var before, last := xs[..|xs| - 1], xs[|xs| - 1];
    assert Sorted(before);
    if y in before {
      FirstOfKeyIsEarlier(before, y, key);
      var z :| z in Distinct(before, key) && key(z) == key(y) && AtOrBefore(z, y);
      assert z in Distinct(xs, key);
    } else {
      assert y == last;
      BeforeIsWeakOrder(y, y, y);
      var r := Distinct(before, key);
      if key(y) in Keys(r, key) {
        var z :| z in r && key(z) == key(y);
        assert z in before && AtOrBefore(z, y);
        assert z in Distinct(xs, key);
      } else {
        assert y in Distinct(xs, key);
      }
    }
  }

  lemma CappedAccounts(d: seq<Snapshot>, y: Snapshot, z: Snapshot, key: Encoder)
    requires Sorted(d) && z in d && key(z) == key(y) && AtOrBefore(z, y)
    ensures Accounted(y, Capped(d), key)
  {
    hide Before;
    var r := Capped(d);
    if z !in r {
      var k :| 0 <= k < |d| && d[k] == z;
      assert k >= HISTORY_LIMIT && |r| == HISTORY_LIMIT by {
        assert forall i | 0 <= i < |r| :: r[i] == d[i] && r[i] in r;
      }
      forall w | w in r ensures AtOrBefore(w, y) {
        var i :| 0 <= i < |r| && r[i] == w;
        assert d[i] == w && !Before(d[k], d[i]);
        BeforeIsWeakOrder(y, z, w);
      }
    }
  }

  /** Merging is exact: the result is sorted, holds at most fifty entries with different
      texts, each of them a renamed input, and every input is accounted for. */
  lemma MergeIsExact(own: seq<Snapshot>, moved: seq<Snapshot>, id: string, key: Encoder)
    ensures var r := Merged(own, moved, id, key);
            && Sorted(r) && DistinctKeys(r, key) && |r| <= HISTORY_LIMIT
            && (forall z | z in r :: z in Renamed(own + moved, id))
            && (forall y | y in Renamed(own + moved, id) :: Accounted(y, r, key))
  {
    hide Before, StableSort, Distinct, Accounted, AtOrBefore, Renamed;
    var xs := Renamed(own + moved, id);
    var sorted := StableSort(xs);
    SortIsSorted(xs);
    SameMembers(sorted, xs);
    var d := Distinct(sorted, key);
    DistinctSorted(sorted, key);
    DistinctIsDistinct(sorted, key);
    var r := Capped(d);
    assert forall z | z in r :: z in d;
    forall y | y in xs ensures Accounted(y, r, key) {
      if key(y).Some? {
        FirstOfKeyIsEarlier(sorted, y, key);
        var z :| z in d && key(z) == key(y) && AtOrBefore(z, y);
        CappedAccounts(d, y, z, key);
      } else {
        UnencodableAccounted(y, r, key);
      }
    }
    assert forall i | 0 <= i < |r| :: r[i] == d[i];
  }

  /** The merged history is newest first: by the time of the check, or of the last attempt when
      there was no check, and at equal times the later status text first. */
  lemma MergedNewestFirst(own: seq<Snapshot>, moved: seq<Snapshot>, id: string, key: Encoder, i: nat, j: nat)
    requires i < j < |Merged(own, moved, id, key)|
    ensures var a, b := Merged(own, moved, id, key)[i], Merged(own, moved, id, key)[j];
            var ta := if a.checkedAt != 0 then a.checkedAt else a.lastAttemptAt;
            var tb := if b.checkedAt != 0 then b.checkedAt else b.lastAttemptAt;
            ta > tb || (ta == tb && !Less(StatusText(a.status), StatusText(b.status)))
  {
    hide Merged, StatusText, Less, DistinctKeys, Accounted, Renamed;
    MergeIsExact(own, moved, id, key);
  }

  /** Of two entries of the same time the one with the later status text comes first. */
  lemma TiesGoByStatus(own: seq<Snapshot>, moved: seq<Snapshot>, id: string, key: Encoder, i: nat, j: nat)
    requires i < j < |Merged(own, moved, id, key)|
    requires var r := Merged(own, moved, id, key); r[i].checkedAt == r[j].checkedAt != 0
    ensures var later := [Warning, Unknown, Ok, Error, Disabled, Critical];
            var a, b := Merged(own, moved, id, key)[i], Merged(own, moved, id, key)[j];
            forall k, l | 0 <= k < 6 && 0 <= l < 6 && a.status == later[k] && b.status == later[l] :: k <= l
  {
    hide Merged;
    MergedNewestFirst(own, moved, id, key, i, j);
    StatusTextOrder();
  }

  lemma StatusTextOrder()
    ensures var later := [Warning, Unknown, Ok, Error, Disabled, Critical];
            forall k, l | 0 <= l < k < 6 :: Less(StatusText(later[k]), StatusText(later[l]))
  {
  }

  /** Every encodable entry that does not fit is at least as old as all fifty that are kept. */
  lemma NewestAreKept(own: seq<Snapshot>, moved: seq<Snapshot>, id: string, key: Encoder, y: Snapshot)
    requires y in own + moved && key(y.(accountId := id)).Some?
    ensures var r := Merged(own, moved, id, key);
            var ty := if y.checkedAt != 0 then y.checkedAt else y.lastAttemptAt;
            || (exists z | z in r :: key(z) == key(y.(accountId := id)))
            || (|r| == 50 && forall z | z in r :: (if z.checkedAt != 0 then z.checkedAt else z.lastAttemptAt) >= ty)
  {
    hide Merged, StatusText, Less, DistinctKeys, Sorted;
    MergeIsExact(own, moved, id, key);
    var i :| 0 <= i < |own + moved| && (own + moved)[i] == y;
    var y' := Renamed(own + moved, id)[i];
    assert y' == y.(accountId := id) && y' in Renamed(own + moved, id);
    var r := Merged(own, moved, id, key);
    assert Accounted(y', r, key);
    forall z | z in r && AtOrBefore(z, y') ensures SortTime(z) >= SortTime(y) {
    }
  }

  lemma UnencodableAccounted(y: Snapshot, r: seq<Snapshot>, key: Encoder)
    requires key(y).None?
    ensures Accounted(y, r, key)
  {
  }

  /** A snapshot's text shows its times and its status. */
  ghost predicate TextShowsOrder(key: Encoder) {
    forall x, y :: key(x).Some? && key(x) == key(y) ==> Tied(x, y)
  }

  lemma {:induction false} SortOfSorted(xs: seq<Snapshot>)
    requires Sorted(xs)
    ensures StableSort(xs) == xs
  {
    hide Before;
    if xs == [] {
    } else {
      var before, x := xs[..|xs| - 1], xs[|xs| - 1];
      assert Sorted(before);
      SortOfSorted(before);
      PositionSplits(before, x);
      assert forall i | 0 <= i < |before| :: xs[i] == before[i] && !Before(x, before[i]);
      assert Position(before, x) == |before|;
    }
  }

  /** `front` stays in front when y, which is accounted for in it, is sorted in. */
  lemma FrontStays(front: seq<Snapshot>, s: seq<Snapshot>, y: Snapshot, key: Encoder)
    requires Sorted(s) && TextShowsOrder(key) && DistinctKeys(front, key)
    requires front <= Distinct(s, key) && Accounted(y, front, key)
    requires |front| < HISTORY_LIMIT ==> front == Distinct(s, key)
    ensures var d := Distinct(Inserted(s, y), key);
            front <= d && (|front| < HISTORY_LIMIT ==> front == d)
  {
    hide Before, Tied, Distinct, Position, DistinctKeys, Keys, Sorted;
    var p := Position(s, y);
    var a, b := s[..p], s[p..];
    assert a + b == s;
    PositionSplits(s, y);
    if key(y).None? {
      DuplicateIsDropped(a, y, b, key);
    } else if z :| z in front && key(z) == key(y) {
      RepresentedBefore(front, s, y, z, key);
      DuplicateIsDropped(a, y, b, key);
    } else {
      FullFront(front, s, y, key);
      DistinctPrefix(a, [y] + b, key);
      assert a + ([y] + b) == a + [y] + b;
    }
  }

  lemma RepresentedBefore(front: seq<Snapshot>, s: seq<Snapshot>, y: Snapshot, z: Snapshot, key: Encoder)
    requires Sorted(s) && TextShowsOrder(key) && front <= Distinct(s, key)
    requires z in front && key(z) == key(y) && key(y).Some?
    ensures key(y) in Keys(s[..Position(s, y)], key)
  {
    hide Before, Distinct, Position, Sorted;
    var p := Position(s, y);
    PositionSplits(s, y);
    assert z in Distinct(s, key);
    var k :| 0 <= k < |s| && s[k] == z;
    assert Tied(z, y) && !Before(y, s[k]);
    assert s[..p][k] == z;
  }

  lemma Holder(xs: seq<Snapshot>, k: Option<string>, key: Encoder) returns (w: Snapshot)
    requires k in Keys(xs, key)
    ensures w in xs && key(w) == k
  {
    w :| w in xs && key(w) == k;
  }

  /** When every entry of `front` is at or before y, the part of s in front of y already
      yields `front`. */
  lemma FullFront(front: seq<Snapshot>, s: seq<Snapshot>, y: Snapshot, key: Encoder)
    requires Sorted(s) && DistinctKeys(front, key) && front <= Distinct(s, key)
    requires forall z | z in front :: AtOrBefore(z, y)
    ensures front <= Distinct(s[..Position(s, y)], key)
  {
    hide Before, Distinct, Position, Sorted, Keys;
    var p := Position(s, y);
    var a := s[..p];
    PositionSplits(s, y);
    assert a + s[p..] == s;
    DistinctPrefix(a, s[p..], key);
    var d, all := Distinct(a, key), Distinct(s, key);
    if front != [] {
      var z := front[|front| - 1];
      assert z in front && z == all[|front| - 1] && z in all && z in s;
      var k :| 0 <= k < |s| && s[k] == z;
      assert !Before(y, s[k]) && a[k] == z && z in a;
      DistinctKeepsKeys(a, key);
      DistinctIsDistinct(s, key);
      var w := Holder(d, key(z), key);
      var i :| 0 <= i < |d| && d[i] == w;
      assert all[i] == w && i == |front| - 1;
      assert front == all[..|front|] && d == all[..|d|];
    }
  }

  lemma {:induction false} FrontStaysThroughout(front: seq<Snapshot>, rest: seq<Snapshot>, key: Encoder)
    requires Sorted(front) && TextShowsOrder(key) && DistinctKeys(front, key)
    requires forall y | y in rest :: Accounted(y, front, key)
    ensures var d := Distinct(StableSort(front + rest), key);
            front <= d && (|front| < HISTORY_LIMIT ==> front == d)
  {
    hide Before, Tied, Distinct, Position, DistinctKeys, Accounted, Sorted, TextShowsOrder;
    if rest == [] {
      assert front + rest == front;
      SortOfSorted(front);
      DistinctOfDistinct(front, key);
    } else {
      var before, y := rest[..|rest| - 1], rest[|rest| - 1];
      FrontStaysThroughout(front, before, key);
      assert (front + rest)[..|front + rest| - 1] == front + before;
      var s := StableSort(front + before);
      SortIsSorted(front + before);
      assert y in rest;
      FrontStays(front, s, y, key);
    }
  }

  /** Merging the same entries again changes nothing, so an event that was already migrated
      is not duplicated. */
  lemma MergeIsIdempotent(own: seq<Snapshot>, moved: seq<Snapshot>, id: string, key: Encoder)
    requires TextShowsOrder(key)
    ensures Merged(Merged(own, moved, id, key), moved, id, key) == Merged(own, moved, id, key)
  {
    hide StableSort, Distinct, Accounted, Sorted, DistinctKeys, TextShowsOrder;
    var r := Merged(own, moved, id, key);
    MergeIsExact(own, moved, id, key);
    var rest := Renamed(moved, id);
    forall y | y in rest ensures Accounted(y, r, key) {
      var i :| 0 <= i < |rest| && rest[i] == y;
      assert Renamed(own + moved, id)[|own| + i] == y;
    }
    FrontStaysThroughout(r, rest, key);
    forall i | 0 <= i < |r| ensures r[i].accountId == id {
      assert r[i] in r && r[i] in Renamed(own + moved, id);
    }
    assert Renamed(r + moved, id) == r + rest;
  }
}
