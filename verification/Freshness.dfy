/** What the refresh protocol guarantees about stored snapshots: data that carries the account's
    present query revision and is not stale was read under the present settings. */
module Freshness {
  import opened Options
  import opened Text
  import opened Preferences
  import Commits
  import opened QueryRevisions
  import opened Stores
  import opened Refresh
  import S = Snapshots
  import T = ThresholdRules

  ghost predicate AllCurrent(d: Prefs, key: Option<nat>, id: string, seen: seq<Read>) {
    forall r | r in seen :: Current(d, key, id, r)
  }

  /** Reads made by a query of a revision: still current as long as that is the revision. */
  ghost predicate Fresh(d: Prefs, key: Option<nat>, id: string, revision: int, seen: seq<Read>) {
    revision <= Revision(d, id) && (revision == Revision(d, id) ==> AllCurrent(d, key, id, seen))
  }

  /** Data that is not marked stale is fresh for the revision it carries. */
  ghost predicate Sound(d: Prefs, key: Option<nat>, id: string, x: Tracked) {
    && x.snapshot.configRevision <= Revision(d, id)
    && (!x.snapshot.stale ==> Fresh(d, key, id, x.snapshot.configRevision, x.seen))
  }

  ghost predicate CallSound(d: Prefs, key: Option<nat>, c: Call) {
    && Fresh(d, key, c.key.id, c.key.revision, c.seen)
    && (c.result.Some? && c.result.value.Success? ==> c.result.value.snapshot.accountId == c.key.id)
  }

  ghost predicate CallsSound(d: Prefs, key: Option<nat>, calls: seq<Call>) {
    forall c | 0 <= c < |calls| :: CallSound(d, key, calls[c])
  }

  ghost predicate WorkerSound(d: Prefs, key: Option<nat>, w: Worker) {
    && (HasRevision(w.phase) ==> w.phase.revision <= Revision(d, w.id))
    && (w.phase.Ready? ==> w.phase.item.snapshot.accountId == w.id && Sound(d, key, w.id, w.phase.item))
  }

  ghost predicate WorkersSound(d: Prefs, key: Option<nat>, workers: map<nat, Worker>) {
    forall n | n in workers :: WorkerSound(d, key, workers[n])
  }

  ghost predicate StoreSound(d: Prefs, key: Option<nat>, s: Store<Tracked>) {
    && (forall id, x | Holds(s, id, x) :: Sound(d, key, id, x))
    && (forall id | id in s.entries :: s.entries[id].snapshot.accountId == id)
  }

  ghost predicate StateSound(s: State, key: Option<nat>) {
    && CallsSound(s.cell.memory, key, s.group.calls)
    && WorkersSound(s.cell.memory, key, s.workers)
    && StoreSound(s.cell.memory, key, s.store)
    && StoreSound(s.cell.memory, key, s.captured)
    && StoreSound(s.cell.memory, key, s.saved)
  }

  /* ---------- commits ---------- */

  lemma AdvanceKeepsFresh(d: Prefs, d': Prefs, key: Option<nat>, id: string, revision: int, seen: seq<Read>)
    requires Fresh(d, key, id, revision, seen) && Advances(d, d', id)
    ensures Fresh(d', key, id, revision, seen)
  {
    hide ReadAdapter, ReadPat, Settings;
    if Revision(d, id) == Revision(d', id) { SettingsDecideReads(d, d', key, id); }
  }

  lemma AdvanceKeepsSound(d: Prefs, d': Prefs, key: Option<nat>, id: string, x: Tracked)
    requires Sound(d, key, id, x) && Advances(d, d', id)
    ensures Sound(d', key, id, x)
  {
    hide Fresh, Settings;
    if !x.snapshot.stale { AdvanceKeepsFresh(d, d', key, id, x.snapshot.configRevision, x.seen); }
  }

  lemma AdvanceKeepsStore(d: Prefs, d': Prefs, key: Option<nat>, s: Store<Tracked>)
    requires StoreSound(d, key, s) && forall id :: Advances(d, d', id)
    ensures StoreSound(d', key, s)
  {
    hide Advances, Sound, Revision, Holds;
    forall id, x | Holds(s, id, x) ensures Sound(d', key, id, x) {
      AdvanceKeepsSound(d, d', key, id, x);
    }
  }

  lemma CommitKeepsSound(s: State, d': Prefs, key: Option<nat>)
    requires StateSound(s, key) && forall id :: Advances(s.cell.memory, d', id)
    ensures CallsSound(d', key, s.group.calls) && WorkersSound(d', key, s.workers)
    ensures StoreSound(d', key, s.store) && StoreSound(d', key, s.captured) && StoreSound(d', key, s.saved)
  {
    hide Advances, Fresh, Sound, Revision, StoreSound;
    var d, calls := s.cell.memory, s.group.calls;
    forall c | 0 <= c < |calls| ensures CallSound(d', key, calls[c]) {
      assert CallSound(d, key, calls[c]);
      AdvanceKeepsFresh(d, d', key, calls[c].key.id, calls[c].key.revision, calls[c].seen);
    }
    forall n | n in s.workers ensures WorkerSound(d', key, s.workers[n]) {
      var w := s.workers[n];
      assert WorkerSound(d, key, w);
      AdvanceKeepsOrder(d, d', w.id);
      if w.phase.Ready? { AdvanceKeepsSound(d, d', key, w.id, w.phase.item); }
    }
    AdvanceKeepsStore(d, d', key, s.store);
    AdvanceKeepsStore(d, d', key, s.captured);
    AdvanceKeepsStore(d, d', key, s.saved);
  }

  lemma AdvanceKeepsOrder(d: Prefs, d': Prefs, id: string)
    requires Advances(d, d', id)
    ensures Revision(d, id) <= Revision(d', id)
  {
  }

  /* ---------- one worker event ---------- */

  lemma MoveKeepsWorkers(d: Prefs, key: Option<nat>, workers: map<nat, Worker>, n: nat, w: Worker)
    requires WorkersSound(d, key, workers) && WorkerSound(d, key, w)
    ensures WorkersSound(d, key, workers[n := w])
  {
    hide WorkerSound;
  }

  lemma CallKeepsCalls(d: Prefs, key: Option<nat>, calls: seq<Call>, i: nat, c: Call)
    requires CallsSound(d, key, calls) && CallSound(d, key, c) && i < |calls|
    ensures CallsSound(d, key, calls[i := c])
  {
    hide CallSound;
  }

  /** A read under the present settings keeps its call fresh. */
  lemma ReadKeepsSound(s: State, w: nat, r: Read, key: Option<nat>)
    requires Consistent(s) && StateSound(s, key) && w in s.workers && Current(s.cell.memory, key, s.workers[w].id, r)
    ensures StateSound(ReadStep(s, w, r), key)
  {
    hide StoreSound, WorkersSound, Revision, Current, FlightsMatch, LeadersMatch, LockMatches;
    var d, p := s.cell.memory, s.workers[w].phase;
    assert PhaseMatches(s.group, w, s.workers[w]);
    if p.Leading? {
      var call := s.group.calls[p.call];
      assert CallSound(d, key, call);
      CallKeepsCalls(d, key, s.group.calls, p.call, call.(seen := call.seen + [r]));
    }
  }

  lemma JoinKeepsSound(s: State, w: nat, key: Option<nat>)
    requires StateSound(s, key) && w in s.workers
    ensures StateSound(JoinStep(s, w), key)
  {
    hide StoreSound, Revision, WorkersSound, Sound;
    var worker := s.workers[w];
    if worker.phase.Keyed? {
      var d, k := s.cell.memory, KeyOf(worker, worker.phase.revision);
      assert WorkerSound(d, key, worker) by { WorkerIsSound(s, w, key); }
      assert CallSound(d, key, Call(k, w, [], None, false));
      var (group, leads, call) := Enter(s.group, k, w);
      var p := if leads then Leading(worker.phase.revision, call) else Following(worker.phase.revision, call);
      MoveKeepsWorkers(d, key, s.workers, w, worker.(phase := p));
    }
  }

  lemma WorkerIsSound(s: State, w: nat, key: Option<nat>)
    requires StateSound(s, key) && w in s.workers
    ensures WorkerSound(s.cell.memory, key, s.workers[w])
  {
    hide WorkerSound, StoreSound, CallsSound;
  }

  /** A phase that only passes the revision on. */
  lemma PhaseKeepsSound(s: State, w: nat, p: Phase, key: Option<nat>)
    requires StateSound(s, key) && w in s.workers && !p.Ready?
    requires HasRevision(p) ==> p.revision <= Revision(s.cell.memory, s.workers[w].id)
    ensures StateSound(WithPhase(s, w, p), key)
  {
    hide StoreSound, CallsSound, Revision, WorkersSound;
    MoveKeepsWorkers(s.cell.memory, key, s.workers, w, s.workers[w].(phase := p));
  }

  lemma ReturnKeepsSound(s: State, w: nat, r: Result, key: Option<nat>)
    requires Consistent(s) && StateSound(s, key) && w in s.workers
    ensures StateSound(ReturnStep(s, w, r), key)
  {
    hide StoreSound, Revision, WorkersSound, Fresh, FlightsMatch, LeadersMatch, LockMatches;
    WorkerIsSound(s, w, key);
    var d, p := s.cell.memory, s.workers[w].phase;
    assert PhaseMatches(s.group, w, s.workers[w]);
    if p.Leading? {
      var call := s.group.calls[p.call];
      assert CallSound(d, key, call);
      CallKeepsCalls(d, key, s.group.calls, p.call, call.(result := Some(Owned(r, s.workers[w].id))));
      MoveKeepsWorkers(d, key, s.workers, w, s.workers[w].(phase := Returned(p.revision, p.call)));
    }
  }

  lemma CompleteKeepsSound(s: State, w: nat, key: Option<nat>)
    requires StateSound(s, key) && w in s.workers
    ensures StateSound(CompleteStep(s, w), key)
  {
    hide StoreSound, Revision, WorkersSound, Fresh;
    WorkerIsSound(s, w, key);
    var d, p := s.cell.memory, s.workers[w].phase;
    if p.Returned? && p.call < |s.group.calls| {
      assert CallSound(d, key, s.group.calls[p.call]);
      CallKeepsCalls(d, key, s.group.calls, p.call, s.group.calls[p.call].(done := true));
      MoveKeepsWorkers(d, key, s.workers, w, s.workers[w].(phase := Answered(p.revision, p.call)));
    }
  }

  /** A success is fresh because its call is; a failure re-tags the previous data but marks
      it stale, or has nothing but its own call to go by. */
  lemma ItemIsSound(s: State, id: string, revision: int, call: Call, name: string, adapter: string, now: int,
      key: Option<nat>)
    requires StoreSound(s.cell.memory, key, s.store) && CallSound(s.cell.memory, key, call) && call.result.Some?
    requires call.key.id == id && call.key.revision == revision
    ensures var x := Item(s, id, revision, call, name, adapter, now);
            x.snapshot.accountId == id && Sound(s.cell.memory, key, id, x)
  {
    hide Revision, AllCurrent, FirstNonEmpty, Holds;
  }

  lemma BuildKeepsSound(s: State, w: nat, name: string, adapter: string, now: int, key: Option<nat>)
    requires Consistent(s) && StateSound(s, key) && w in s.workers
    ensures StateSound(BuildStep(s, w, name, adapter, now), key)
  {
    hide StoreSound, Revision, WorkersSound, Fresh, Sound, Item, FlightsMatch, LeadersMatch, LockMatches;
    WorkerIsSound(s, w, key);
    var d, p := s.cell.memory, s.workers[w].phase;
    assert PhaseMatches(s.group, w, s.workers[w]);
    if p.Approved? && p.call < |s.group.calls| && s.group.calls[p.call].result.Some? {
      var call := s.group.calls[p.call];
      assert CallSound(d, key, call);
      ItemIsSound(s, s.workers[w].id, p.revision, call, name, adapter, now, key);
      var item := Item(s, s.workers[w].id, p.revision, call, name, adapter, now);
      MoveKeepsWorkers(d, key, s.workers, w, s.workers[w].(phase := Ready(p.revision, p.call, item)));
    }
  }

  lemma PutKeepsStore(d: Prefs, key: Option<nat>, s: Store<Tracked>, id: string, x: Tracked)
    requires StoreSound(d, key, s) && Sound(d, key, id, x) && x.snapshot.accountId == id
    ensures StoreSound(d, key, Put(s, id, x))
  {
    hide Sound, Holds;
    OnlyPutAdds(s, id, x);
  }

  lemma PutKeepsSound(s: State, w: nat, key: Option<nat>)
    requires StateSound(s, key) && w in s.workers
    ensures StateSound(PutStep(s, w), key)
  {
    hide StoreSound, CallsSound, Revision, WorkersSound, Sound, Put;
    WorkerIsSound(s, w, key);
    var p := s.workers[w].phase;
    if p.Ready? {
      PutKeepsStore(s.cell.memory, key, s.store, s.workers[w].id, p.item);
      MoveKeepsWorkers(s.cell.memory, key, s.workers, w, s.workers[w].(phase := Stored(p.revision, p.call)));
    }
  }

  /* ---------- cleanups and thresholds ---------- */

  lemma RemovalKeepsStore(d: Prefs, key: Option<nat>, s: Store<Tracked>, id: string, keep: set<string>)
    requires StoreSound(d, key, s)
    ensures StoreSound(d, key, Delete(s, id)) && StoreSound(d, key, RemoveActive(s, id))
            && StoreSound(d, key, Prune(s, keep))
  {
    hide Sound;
    RemovalAddsNothing(s, id, keep);
  }

  lemma ReevaluationKeepsStore(d: Prefs, key: Option<nat>, s: Store<Tracked>, t: Thresholds, num: S.Reader)
    requires StoreSound(d, key, s)
    ensures StoreSound(d, key, Reevaluated(s, t, num))
  {
    hide T.Apply, Revision, Fresh;
    var s' := Reevaluated(s, t, num);
    forall id, x | Holds(s', id, x) ensures Sound(d, key, id, x) {
      if id in s'.entries && s'.entries[id] == x {
        assert Holds(s, id, s.entries[id]);
        ApplyKeepsOrigin(s.entries[id].snapshot, t, num);
      } else {
        assert Holds(s, id, x);
      }
    }
    forall id | id in s'.entries ensures s'.entries[id].snapshot.accountId == id {
      ApplyKeepsOrigin(s.entries[id].snapshot, t, num);
    }
  }

  /** Reading snapshots back keeps what they are about. */
  lemma RereadKeepsStore(d: Prefs, key: Option<nat>, s: Store<Tracked>)
    requires StoreSound(d, key, s)
    ensures StoreSound(d, key, RereadAll(s))
  {
    hide Revision, Fresh;
    var s' := RereadAll(s);
    forall id, y | Holds(s', id, y) ensures Sound(d, key, id, y) {
      if id in s'.entries && s'.entries[id] == y {
        assert Holds(s, id, s.entries[id]);
      } else {
        var i :| 0 <= i < |s'.history[id]| && s'.history[id][i] == y;
        assert Holds(s, id, s.history[id][i]);
      }
    }
  }

  lemma RestartKeepsSound(s: State, readable: bool, key: Option<nat>)
    requires StateSound(s, key) && DiskAdvances(s.cell)
    ensures StateSound(Restarted(s, readable), key)
  {
    hide Advances, StoreSound, Commits.Loaded, Sound, RereadAll;
    var d' := Commits.Loaded(s.cell.disk);
    AdvanceKeepsStore(s.cell.memory, d', key, s.saved);
    RereadKeepsStore(d', key, s.saved);
    NothingStored(d', key);
  }

  lemma NothingStored(d: Prefs, key: Option<nat>)
    ensures StoreSound(d, key, EMPTY_STORE)
  {
  }

  lemma ApplyKeepsOrigin(x: S.Snapshot, t: Thresholds, num: S.Reader)
    ensures var y := T.Apply(x, t, num);
            y.accountId == x.accountId && y.configRevision == x.configRevision && y.stale == x.stale
  {
    hide T.Infer, T.Evaluate;
  }

  /* ---------- every run ---------- */

  lemma WorkerStepKeepsSound(s: State, e: Event, key: Option<nat>)
    requires Consistent(s) && StateSound(s, key) && IsWorkerEvent(e) && e.worker in s.workers
    ensures StateSound(WorkerStep(s, e), key)
  {
    hide StateSound, Consistent, JoinStep, ReadStep, ReturnStep, CompleteStep, BuildStep, PutStep, WithPhase,
      CanCommitQueryResult,
      ReadAdapter, Revision;
    var w := e.worker;
    WorkerIsSound(s, w, key);
    var p := s.workers[w].phase;
    match e {
      case ReadRevision(_) =>
        if p.Started? { PhaseKeepsSound(s, w, Keyed(Revision(s.cell.memory, s.workers[w].id)), key); }
      case Join(_) => JoinKeepsSound(s, w, key);
      case ReadAdapterFor(_) => ReadKeepsSound(s, w, AdapterRead(ReadAdapter(s.cell.memory, s.workers[w].id)), key);
      case Return(_, r) => ReturnKeepsSound(s, w, r, key);
      case Complete(_) => CompleteKeepsSound(s, w, key);
      case Receive(_) =>
        if p.Following? { PhaseKeepsSound(s, w, Answered(p.revision, p.call), key); }
      case Cancel(_) => PhaseKeepsSound(s, w, Skipped, key);
      case Check(_) =>
        if p.Answered? {
          PhaseKeepsSound(s, w, Approved(p.revision, p.call), key);
          LockKeepsSound(WithPhase(s, w, Approved(p.revision, p.call)), Some(w), key);
          PhaseKeepsSound(s, w, Skipped, key);
        }
      case Build(_, name, adapter, now) => BuildKeepsSound(s, w, name, adapter, now, key);
      case PutItem(_) => PutKeepsSound(s, w, key);
    }
  }

  lemma LockKeepsSound(s: State, lock: Option<nat>, key: Option<nat>)
    requires StateSound(s, key)
    ensures StateSound(s.(lock := lock), key)
  {
    hide CallsSound, WorkersSound, StoreSound;
  }

  lemma StepKeepsSound(s: State, vault: Vault, e: Event)
    requires Consistent(s) && StateSound(s, vault.key) && DiskAdvances(s.cell)
    ensures StateSound(Next(s, vault, e), vault.key)
  {
    hide Consistent, CallsSound, WorkersSound, StoreSound, WorkerStep, ReadStep, Commits.Commit, Commits.Mutate,
      Reevaluated, Delete, RemoveActive, Prune,
      Advances, ReadPat;
    var d, key := s.cell.memory, vault.key;
    if IsWorkerEvent(e) {
      if e.worker in s.workers { WorkerStepKeepsSound(s, e, key); }
    } else {
      match e {
        case CommitOp(op, expected, write) =>
          if Refreshable(op) {
            var d' := Commits.Commit(s.cell, expected, Commits.Mutate(op, vault, d), write).0.memory;
            forall id ensures Advances(d, d', id) { CommitAdvances(s.cell, vault, op, expected, write, id); }
            CommitKeepsSound(s, d', key);
          }
        case Spawn(n, id, signature) => SpawnedIsSound(d, key, s.workers, n, id, signature);
        case ReadPatFor(w) =>
          if w in s.workers { ReadKeepsSound(s, w, PatRead(ReadPat(d, key, s.workers[w].id)), key); }
        case DeleteAccount(id) => RemovalKeepsStore(d, key, s.store, id, {});
        case RemoveActiveEntry(id) => RemovalKeepsStore(d, key, s.store, id, {});
        case PruneEntries(keep) => RemovalKeepsStore(d, key, s.store, "", keep);
        case Reevaluate(t, num) => ReevaluationKeepsStore(d, key, s.store, t, num);
        case CaptureStore =>
        case WriteStore =>
        case Reload(readable) => RereadKeepsStore(d, key, s.saved);
        case Restart(readable) => RestartKeepsSound(s, readable, key);
      }
    }
  }

  lemma SpawnedIsSound(d: Prefs, key: Option<nat>, workers: map<nat, Worker>, n: nat, id: string, signature: string)
    requires WorkersSound(d, key, workers)
    ensures WorkersSound(d, key, workers[n := Worker(id, signature, Started)])
  {
  }

  lemma CellUntouched(s: State, vault: Vault, e: Event)
    requires !(e.CommitOp? && Refreshable(e.op)) && !e.Restart?
    ensures Next(s, vault, e).cell == s.cell
  {
    hide Reevaluated, CanCommitQueryResult, Item, Put, Delete, Prune;
  }

  lemma StepKeepsDisk(s: State, vault: Vault, e: Event)
    requires DiskAdvances(s.cell)
    ensures DiskAdvances(Next(s, vault, e).cell)
  {
    hide Commits.Commit, Commits.Mutate, WorkerStep, Reevaluated, Commits.Loaded, Advances;
    if e.CommitOp? && Refreshable(e.op) {
      CommitKeepsDisk(s.cell, vault, e.op, e.expected, e.write);
    } else if e.Restart? {
      forall id { AdvancesItself(Commits.Loaded(s.cell.disk), id); }
    } else {
      CellUntouched(s, vault, e);
    }
  }

  lemma {:induction false} RunKeepsDisk(s: State, vault: Vault, events: seq<Event>)
    requires DiskAdvances(s.cell)
    ensures DiskAdvances(After(s, vault, events).cell)
  {
    hide Next, DiskAdvances;
    if events == [] {
    } else {
      var before := events[..|events| - 1];
      RunKeepsDisk(s, vault, before);
      StepKeepsDisk(After(s, vault, before), vault, events[|events| - 1]);
    }
  }

  lemma {:induction false} RunKeepsSound(s: State, vault: Vault, events: seq<Event>)
    requires Consistent(s) && StateSound(s, vault.key) && DiskAdvances(s.cell)
    ensures StateSound(After(s, vault, events), vault.key)
  {
    hide Next, Consistent, StateSound, DiskAdvances;
    if events == [] {
    } else {
      var before := events[..|events| - 1];
      RunKeepsSound(s, vault, before);
      RunKeepsConsistent(s, vault, before);
      RunKeepsDisk(s, vault, before);
      StepKeepsSound(After(s, vault, before), vault, events[|events| - 1]);
    }
  }

  lemma StartIsSound(s: State, key: Option<nat>)
    requires Start(s)
    ensures Consistent(s) && StateSound(s, key) && DiskAdvances(s.cell)
  {
    hide Commits.Loaded, Advances;
    StartIsConsistent(s);
    forall id { AdvancesItself(s.cell.memory, id); }
  }

  /** In every interleaving of workers, commits, cleanups, threshold changes, saves, reloads
      and restarts: whatever is stored for an account, in its entry or its history, not marked stale and carrying the
      account's present query revision, came from a query every read of which saw the adapter
      and the credential stored now, also when another worker made that query. */
  lemma StoredDataIsCurrent(s: State, vault: Vault, events: seq<Event>, id: string, x: Tracked)
    requires Start(s)
    requires Holds(After(s, vault, events).store, id, x) && !x.snapshot.stale
    requires x.snapshot.configRevision == Revision(After(s, vault, events).cell.memory, id)
    ensures forall r | r in x.seen :: Current(After(s, vault, events).cell.memory, vault.key, id, r)
  {
    hide After, Consistent, CallsSound, WorkersSound, Revision, Current, Holds;
    StartIsSound(s, vault.key);
    RunKeepsSound(s, vault, events);
  }

  /* ---------- which accounts a refresh skips ---------- */

  /** Whether an unforced refresh queries the account. */
  predicate NeedsRefresh(d: Prefs, store: Store<Tracked>, id: string, ttl: int, now: int) {
    || id !in store.entries
    || store.entries[id].snapshot.lastSuccessAt.None?
    || store.entries[id].snapshot.configRevision != Revision(d, id)
    || now - store.entries[id].snapshot.lastSuccessAt.value >= ttl
  }

  /** An account that is skipped shows data that is stale or read under the present settings. */
  lemma SkippedIsStaleOrCurrent(s: State, vault: Vault, events: seq<Event>, id: string, ttl: int, now: int)
    requires Start(s) && !NeedsRefresh(After(s, vault, events).cell.memory, After(s, vault, events).store, id, ttl, now)
    ensures var s' := After(s, vault, events);
            && id in s'.store.entries
            && (s'.store.entries[id].snapshot.stale
               || AllCurrent(s'.cell.memory, vault.key, id, s'.store.entries[id].seen))
  {
    hide After, Current, Revision;
    var s' := After(s, vault, events);
    var x := s'.store.entries[id];
    assert Holds(s'.store, id, x);
    if !x.snapshot.stale { StoredDataIsCurrent(s, vault, events, id, x); }
  }

  /** A failed query carries the present revision onto the previous data, so the account is
      tried again exactly when its last success is missing or older than the lifetime: data
      read under former settings can be skipped, marked stale. */
  lemma FailureIsRetriedExactly(s: State, id: string, revision: int, call: Call, name: string, adapter: string,
      at: int, ttl: int, now: int)
    requires call.result.Some? && call.result.value.Failure? && id in s.store.entries && id != ""
    requires revision == Revision(s.cell.memory, id)
    ensures var x := Item(s, id, revision, call, name, adapter, at); var previous := s.store.entries[id].snapshot;
            && x.snapshot.stale
            && (NeedsRefresh(s.cell.memory, Put(s.store, id, x), id, ttl, now) <==>
                  previous.lastSuccessAt.None? || now - previous.lastSuccessAt.value >= ttl)
  {
    hide Revision;
  }
}
