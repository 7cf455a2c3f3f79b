/** Saving the snapshot store to its file and loading it back, while other operations on the
    store go on. Saves and loads exclude each other, but the store itself is free while the
    file is read or written, so each of them is several steps. */
module CacheFiles {
  import opened Options
  import opened Storage
  import opened Snapshots
  import opened Histories
  import opened Stores
  import opened SnapshotCaches

  /** The fields of the store. `dirty` means that a migration still has to reach the file. */
  datatype Cache = Cache(
    store: Store<Snapshot>, loadFailed: bool, migrationRevision: nat, dirty: bool, migrationFailed: bool)

  datatype Found = Absent | Unreadable | Document(doc: CacheDocument)

  datatype Phase =
    | Idle
    | Saving(doc: CacheDocument, revision: nat)
    | Wrote(revision: nat, ok: bool)
    | Loading(found: Found)

  /** `lastWritten` records the migration revision of the last write that reported success. */
  datatype Machine = Machine(cache: Cache, disk: Option<CacheDocument>, phase: Phase, lastWritten: nat)

  datatype Event =
    | Do(op: StoreOp)
    | BeginSave
    | WriteFile(outcome: WriteOutcome)
    | EndSave
    | BeginLoad(readable: bool)
    | EndLoad
    | Replaced(content: Option<CacheDocument>)

  function OperateCache(c: Cache, op: StoreOp, key: Encoder): Cache {
    if op.MigrateOp? && Moves(c.store, op.oldId, op.newId)
    then c.(store := Operate(c.store, op, key), migrationRevision := c.migrationRevision + 1, dirty := true)
    else c.(store := Operate(c.store, op, key))
  }

  predicate MaySave(c: Cache, key: Encoder) { !c.loadFailed && Encodable(c.store, key) }

  function Finished(c: Cache, revision: nat, ok: bool): Cache {
    if !ok then c.(migrationFailed := c.migrationFailed || c.dirty)
    else if c.migrationRevision == revision then c.(dirty := false, migrationFailed := false)
    else c
  }

  function Find(disk: Option<CacheDocument>, readable: bool): Found {
    if disk.None? then Absent else if readable then Document(disk.value) else Unreadable
  }

  predicate Usable(found: Found) { found.Absent? || (found.Document? && Decode(found.doc).Some?) }

  function Adopted(c: Cache, found: Found): Cache {
    if !Usable(found) then c.(loadFailed := true)
    else if found.Absent? then c.(loadFailed := false)
    else c.(loadFailed := false, store := Decode(found.doc).value)
  }

  function Step(m: Machine, e: Event, key: Encoder): Machine {
    match e
    case Do(op) => m.(cache := OperateCache(m.cache, op, key))
    case BeginSave =>
      if m.phase.Idle? && MaySave(m.cache, key)
      then m.(phase := Saving(Encode(m.cache.store), m.cache.migrationRevision))
      else m
    case WriteFile(outcome) =>
      if m.phase.Saving? then
        m.(phase := Wrote(m.phase.revision, outcome.Written?),
           disk := if outcome.FailedBeforeRename? then m.disk else Some(m.phase.doc),
           lastWritten := if outcome.Written? then m.phase.revision else m.lastWritten)
      else m
    case EndSave =>
      if m.phase.Wrote? then m.(phase := Idle, cache := Finished(m.cache, m.phase.revision, m.phase.ok)) else m
    case BeginLoad(readable) =>
      if m.phase.Idle? then m.(phase := Loading(Find(m.disk, readable))) else m
    case EndLoad =>
      if m.phase.Loading? then m.(phase := Idle, cache := Adopted(m.cache, m.phase.found)) else m
    case Replaced(content) => m.(disk := content)
  }

  function After(m: Machine, events: seq<Event>, key: Encoder): Machine {
    if events == [] then m else Step(After(m, events[..|events| - 1], key), events[|events| - 1], key)
  }

  /* ---------- a failed load ---------- */

  /** The load that event e ends gives the store up to saves again. */
  predicate Reopens(m: Machine, e: Event) { e.EndLoad? && m.phase.Loading? && Usable(m.phase.found) }

  ghost predicate NeverReopens(m: Machine, events: seq<Event>, key: Encoder) {
    forall i | 0 <= i < |events| :: !Reopens(After(m, events[..i], key), events[i])
  }

  lemma NeverReopensPrefix(m: Machine, events: seq<Event>, key: Encoder)
    requires events != [] && NeverReopens(m, events, key)
    ensures var n := |events| - 1;
            NeverReopens(m, events[..n], key) && !Reopens(After(m, events[..n], key), events[n])
  {
    hide Reopens, After;
    var n := |events| - 1;
    forall i | 0 <= i < n ensures !Reopens(After(m, events[..n][..i], key), events[..n][i]) {
      assert events[..n][..i] == events[..i];
    }
  }

  /** After a failed load nothing is written, whatever else happens, until a load succeeds or
      finds no file. */
  lemma {:induction false} FailedLoadBlocksSaves(m: Machine, events: seq<Event>, key: Encoder)
    requires m.cache.loadFailed && (m.phase.Idle? || m.phase.Loading?) && NeverReopens(m, events, key)
    ensures var m' := After(m, events, key);
            && m'.cache.loadFailed && (m'.phase.Idle? || m'.phase.Loading?)
            && m'.lastWritten == m.lastWritten
            && ((forall e | e in events :: !e.Replaced?) ==> m'.disk == m.disk)
  {
    hide Operate, Encodable, Decode, NeverReopens;
    if events == [] {
    } else {
      NeverReopensPrefix(m, events, key);
      FailedLoadBlocksSaves(m, events[..|events| - 1], key);
      assert events[|events| - 1] in events;
    }
  }

  function Ops(ops: seq<StoreOp>): (r: seq<Event>)
    ensures |r| == |ops| && forall i | 0 <= i < |ops| :: r[i] == Do(ops[i])
  {
    seq(|ops|, i requires 0 <= i < |ops| => Do(ops[i]))
  }

  lemma {:induction false} OpsOnly(m: Machine, ops: seq<StoreOp>, key: Encoder)
    ensures var m' := After(m, Ops(ops), key);
            && m'.cache.store == OperateAll(m.cache.store, ops, key)
            && m'.phase == m.phase && m'.disk == m.disk
            && m'.cache.loadFailed == m.cache.loadFailed
  {
    hide Operate;
    if ops == [] {
    } else {
      OpsOnly(m, ops[..|ops| - 1], key);
      assert Ops(ops)[..|ops| - 1] == Ops(ops[..|ops| - 1]);
    }
  }

  /** A load, with other operations before it is done: when the file cannot be used, the
      store is what those operations made of it; when it can, they are overwritten. */
  lemma LoadWithInterference(m: Machine, readable: bool, ops: seq<StoreOp>, key: Encoder)
    requires m.phase.Idle?
    ensures var m' := After(m, [BeginLoad(readable)] + Ops(ops) + [EndLoad], key);
            && m'.phase.Idle? && m'.disk == m.disk
            && (m'.cache.loadFailed <==> m.disk.Some? && (!readable || Decode(m.disk.value).None?))
            && m'.cache.store == if m.disk.Some? && !m'.cache.loadFailed then Decode(m.disk.value).value
                                 else OperateAll(m.cache.store, ops, key)
  {
    hide OperateAll, Decode, Ops, After;
    var begin, middle := [BeginLoad(readable)], Ops(ops);
    var all := begin + middle + [EndLoad];
    AfterConcat(m, begin + middle, [EndLoad], key);
    AfterConcat(m, begin, middle, key);
    AfterOne(m, BeginLoad(readable), key);
    AfterOne(After(m, begin + middle, key), EndLoad, key);
    OpsOnly(After(m, begin, key), ops, key);
  }

  lemma AfterOne(m: Machine, e: Event, key: Encoder)
    ensures After(m, [e], key) == Step(m, e, key)
  {
    hide Step;
    assert [e][..0] == [];
  }

  lemma {:induction false} AfterConcat(m: Machine, xs: seq<Event>, ys: seq<Event>, key: Encoder)
    ensures After(m, xs + ys, key) == After(After(m, xs, key), ys, key)
  {
    hide Step;
    if ys == [] {
      assert xs + ys == xs;
    } else {
      assert (xs + ys)[..|xs + ys| - 1] == xs + ys[..|ys| - 1];
      AfterConcat(m, xs, ys[..|ys| - 1], key);
    }
  }

  /** In every reachable state, whatever the file held, each history has at most fifty entries. */
  lemma {:induction false} RunKeepsBounded(m: Machine, events: seq<Event>, key: Encoder)
    requires Bounded(m.cache.store)
    ensures Bounded(After(m, events, key).cache.store)
  {
    hide Operate, Moves, Encode, Encodable, Decode, Bounded;
    if events == [] {
    } else {
      var before, e := After(m, events[..|events| - 1], key), events[|events| - 1];
      RunKeepsBounded(m, events[..|events| - 1], key);
      if e.Do? { OperateKeepsBounded(before.cache.store, e.op, key); }
      if e.EndLoad? && before.phase.Loading? && before.phase.found.Document? {
        DecodedIsBounded(before.phase.found.doc);
      }
    }
  }

  /** A save that nothing disturbs, and a load after it: the file holds the store as it was, and
      the store comes back without base statuses; nothing is pending any more. */
  lemma SaveThenLoad(m: Machine, key: Encoder)
    requires m.phase.Idle? && !m.cache.loadFailed && Encodable(m.cache.store, key) && WellFormed(m.cache.store)
    ensures var saved := After(m, [BeginSave, WriteFile(Written), EndSave], key);
            && saved.phase.Idle? && saved.disk == Some(Encode(m.cache.store)) && saved.cache.store == m.cache.store
            && !saved.cache.dirty && !saved.cache.migrationFailed
            && var back := After(saved, [BeginLoad(true), EndLoad], key).cache;
               && back == saved.cache.(store := back.store)
               && back.store.entries.Keys == m.cache.store.entries.Keys
               && back.store.history.Keys == m.cache.store.history.Keys
               && (forall id | id in m.cache.store.entries ::
                     back.store.entries[id] == m.cache.store.entries[id].(base := UNSET))
               && (forall id | id in m.cache.store.history ::
                     && |back.store.history[id]| == |m.cache.store.history[id]|
                     && forall i | 0 <= i < |m.cache.store.history[id]| ::
                          back.store.history[id][i] == m.cache.store.history[id][i].(base := UNSET))
  {
    hide Encodable, WellFormed, Encode, Decode, Operate, After;
    RoundTripExactly(m.cache.store);
    var m1 := Step(m, BeginSave, key);
    var m2 := Step(m1, WriteFile(Written), key);
    ThreeSteps(m, BeginSave, WriteFile(Written), EndSave, key);
    TwoSteps(Step(m2, EndSave, key), BeginLoad(true), EndLoad, key);
  }

  lemma TwoSteps(m: Machine, e: Event, e': Event, key: Encoder)
    ensures After(m, [e, e'], key) == Step(Step(m, e, key), e', key)
  {
    hide Step;
    assert [e, e'][..1] == [e];
    AfterOne(m, e, key);
  }

  lemma ThreeSteps(m: Machine, e: Event, e': Event, e'': Event, key: Encoder)
    ensures After(m, [e, e', e''], key) == Step(Step(Step(m, e, key), e', key), e'', key)
  {
    hide Step;
    assert [e, e', e''][..2] == [e, e'];
    TwoSteps(m, e, e', key);
  }

  /** A save begins exactly when the last load was usable and everything can be encoded. One whose
      write fails leaves the store and says so when a migration was waiting for it; a migration
      that landed during the write still waits afterwards. */
  lemma SaveExactly(m: Machine, op: StoreOp, outcome: WriteOutcome, key: Encoder)
    requires m.phase.Idle?
    ensures Step(m, BeginSave, key).phase.Saving? <==> !m.cache.loadFailed && Encodable(m.cache.store, key)
    ensures !Step(m, BeginSave, key).phase.Saving? ==> Step(m, BeginSave, key) == m
    ensures Step(m, BeginSave, key).phase.Saving? ==>
              var end := After(m, [BeginSave, Do(op), WriteFile(outcome), EndSave], key).cache;
              var lands := op.MigrateOp? && Moves(m.cache.store, op.oldId, op.newId);
              && end.store == Operate(m.cache.store, op, key) && !end.loadFailed
              && (end.dirty <==> lands || (m.cache.dirty && !outcome.Written?))
              && (end.migrationFailed <==>
                    if outcome.Written? then lands && m.cache.migrationFailed
                    else m.cache.migrationFailed || m.cache.dirty || lands)
  {
    hide Encodable, Encode, Decode, Operate, Moves, After;
    var m1 := Step(m, BeginSave, key);
    var m2 := Step(m1, Do(op), key);
    FourSteps(m, BeginSave, Do(op), WriteFile(outcome), EndSave, key);
  }

  lemma FourSteps(m: Machine, a: Event, b: Event, c: Event, d: Event, key: Encoder)
    ensures After(m, [a, b, c, d], key) == Step(Step(Step(Step(m, a, key), b, key), c, key), d, key)
  {
    hide Step;
    assert [a, b, c, d][..3] == [a, b, c];
    ThreeSteps(m, a, b, c, key);
  }

  /* ---------- migrations reach the file ---------- */

  /** What every step keeps. */
  ghost predicate Inv(m: Machine) {
    && (m.cache.dirty || m.lastWritten == m.cache.migrationRevision)
    && m.lastWritten <= m.cache.migrationRevision
    && (m.phase.Saving? ==> m.lastWritten <= m.phase.revision <= m.cache.migrationRevision)
    && (m.phase.Wrote? ==>
       m.phase.revision <= m.cache.migrationRevision && (m.phase.ok ==> m.lastWritten == m.phase.revision))
  }

  lemma StepKeepsInv(m: Machine, e: Event, key: Encoder)
    requires Inv(m)
    ensures Inv(Step(m, e, key))
    ensures Step(m, e, key).cache.migrationRevision >= m.cache.migrationRevision
  {
    hide Operate, Encodable, Decode, Encode;
  }

  /** In every reachable state: when no migration is pending, the last successful write was
      taken at the present migration revision, even if a migration landed during a write. */
  lemma {:induction false} RunKeepsInv(m: Machine, events: seq<Event>, key: Encoder)
    requires Inv(m)
    ensures Inv(After(m, events, key))
  {
    hide Step, Inv;
    if events == [] {
    } else {
      RunKeepsInv(m, events[..|events| - 1], key);
      StepKeepsInv(After(m, events[..|events| - 1], key), events[|events| - 1], key);
    }
  }

  lemma {:induction false} RevisionGrows(m: Machine, events: seq<Event>, i: nat, j: nat, key: Encoder)
    requires Inv(m) && i <= j <= |events|
    ensures After(m, events[..i], key).cache.migrationRevision <= After(m, events[..j], key).cache.migrationRevision
    decreases j
  {
    hide Step, Inv;
    if i == j {
    } else {
      RevisionGrows(m, events, i, j - 1, key);
      RunKeepsInv(m, events[..j - 1], key);
      assert events[..j][..j - 1] == events[..j - 1];
      StepKeepsInv(After(m, events[..j - 1], key), events[j - 1], key);
    }
  }

  /** The save in progress after a prefix captured the store at event b. */
  ghost predicate CapturedAt(m: Machine, events: seq<Event>, b: nat, phase: Phase, key: Encoder)
    requires b < |events|
  {
    var before := After(m, events[..b], key);
    && events[b].BeginSave? && phase.Saving?
    && phase.doc == Encode(before.cache.store) && phase.revision == before.cache.migrationRevision
  }

  lemma {:induction false} SavingCaptures(m: Machine, events: seq<Event>, n: nat, key: Encoder) returns (b: nat)
    requires !m.phase.Saving? && n <= |events| && After(m, events[..n], key).phase.Saving?
    ensures b < n && CapturedAt(m, events, b, After(m, events[..n], key).phase, key)
    decreases n
  {
    hide OperateCache, Encode, Encodable, Finished, Adopted;
    assert n > 0;
    var before := After(m, events[..n - 1], key);
    assert events[..n][..n - 1] == events[..n - 1];
    if before.phase.Saving? {
      b := SavingCaptures(m, events, n - 1, key);
    } else {
      b := n - 1;
    }
  }

  lemma {:induction false} LastWriteExists(m: Machine, events: seq<Event>, n: nat, key: Encoder) returns (w: nat)
    requires n <= |events| && After(m, events[..n], key).lastWritten != m.lastWritten
    ensures w < n && events[w] == WriteFile(Written)
    ensures After(m, events[..w], key).phase.Saving?
    ensures After(m, events[..w], key).phase.revision == After(m, events[..n], key).lastWritten
    decreases n
  {
    hide OperateCache, Encode, Encodable, Finished, Adopted;
    assert n > 0;
    var before := After(m, events[..n - 1], key);
    assert events[..n][..n - 1] == events[..n - 1];
    if before.lastWritten == After(m, events[..n], key).lastWritten {
      w := LastWriteExists(m, events, n - 1, key);
    } else {
      w := n - 1;
    }
  }

  /** Event i is a migration that moves something. */
  ghost predicate Migrates(m: Machine, events: seq<Event>, i: nat, key: Encoder)
    requires i < |events|
  {
    events[i].Do? && events[i].op.MigrateOp?
    && Moves(After(m, events[..i], key).cache.store, events[i].op.oldId, events[i].op.newId)
  }

  lemma MigrationRaisesRevision(m: Machine, events: seq<Event>, i: nat, key: Encoder)
    requires i < |events| && Migrates(m, events, i, key)
    ensures After(m, events[..i + 1], key).cache.migrationRevision ==
            After(m, events[..i], key).cache.migrationRevision + 1
  {
    hide Operate, Moves;
    assert events[..i + 1][..i] == events[..i];
  }

  /** When no migration is pending at the end of a run, every migration of the run is in a
      document that was captured after it and whose write succeeded. */
  lemma CleanMeansWritten(m: Machine, events: seq<Event>, i: nat, key: Encoder) returns (b: nat, w: nat)
    requires Inv(m) && m.phase.Idle? && i < |events|
    requires Migrates(m, events, i, key) && !After(m, events, key).cache.dirty
    ensures i < b < w < |events| && events[w] == WriteFile(Written)
    ensures CapturedAt(m, events, b, After(m, events[..w], key).phase, key)
  {
    hide After, Step, Inv, Migrates, CapturedAt;
    var n := |events|;
    assert events[..n] == events;
    MigrationRaisesRevision(m, events, i, key);
    RunKeepsInv(m, events, key);
    CleanRevision(m, After(m, events, key));
    RevisionGrows(m, events, i + 1, n, key);
    RevisionGrows(m, events, 0, i, key);
    FromStart(m, events, key);
    w := LastWriteExists(m, events, n, key);
    b := SavingCaptures(m, events, w, key);
    CapturedRevision(m, events, b, w, key);
    if b <= i {
      RevisionGrows(m, events, b, i, key);
    }
  }

  lemma CleanRevision(m: Machine, m': Machine)
    requires Inv(m) && Inv(m') && !m'.cache.dirty
    ensures m'.lastWritten == m'.cache.migrationRevision && m.lastWritten <= m.cache.migrationRevision
  {
  }

  lemma FromStart(m: Machine, events: seq<Event>, key: Encoder)
    ensures After(m, events[..0], key) == m
  {
  }

  lemma CapturedRevision(m: Machine, events: seq<Event>, b: nat, w: nat, key: Encoder)
    requires b < |events| && w <= |events| && CapturedAt(m, events, b, After(m, events[..w], key).phase, key)
    ensures After(m, events[..w], key).phase.Saving?
    ensures After(m, events[..w], key).phase.revision == After(m, events[..b], key).cache.migrationRevision
  {
  }
}
