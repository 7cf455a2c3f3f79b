/** Refreshing accounts concurrently: workers read the account's query revision, query through
    the single-flight group, check that the result may still be stored, and store it, while
    configuration commits and cleanups go on between any two of these steps. */
module Refresh {
  import opened Options
  import opened Storage
  import opened Preferences
  import opened Commits
  import opened QueryRevisions
  import opened Stores
  import S = Snapshots
  import T = ThresholdRules

  /** A setting a query has read. */
  datatype Read = AdapterRead(adapter: string) | PatRead(pat: string)

  ghost predicate Current(d: Prefs, key: Option<nat>, id: string, r: Read) {
    match r
    case AdapterRead(v) => v == ReadAdapter(d, id)
    case PatRead(v) => v == ReadPat(d, key, id)
  }

  datatype Result = Success(snapshot: S.Snapshot) | Failure(error: S.Failure)

  /** A stored snapshot with what the query behind its data has read. */
  datatype Tracked = Tracked(snapshot: S.Snapshot, seen: seq<Read>)

  /* ---------- the single-flight group ---------- */

  datatype FlightKey = FlightKey(id: string, revision: int, signature: string)

  datatype Call = Call(key: FlightKey, leader: nat, seen: seq<Read>, result: Option<Result>, done: bool)

  /** `flights` is the shared map; `calls` remembers every call ever made. */
  datatype Group = Group(flights: map<FlightKey, nat>, calls: seq<Call>)

  /** Joins the call in flight for the key, or starts one. */
  function Enter(g: Group, k: FlightKey, worker: nat): (Group, bool, nat) {
    if k in g.flights then (g, false, g.flights[k])
    else (Group(g.flights[k := |g.calls|], g.calls + [Call(k, worker, [], None, false)]), true, |g.calls|)
  }

  function WithCall(g: Group, c: nat, call: Call): Group
    requires c < |g.calls|
  {
    g.(calls := g.calls[c := call])
  }

  function Leave(g: Group, c: nat): Group
    requires c < |g.calls|
  {
    Group(g.flights - {g.calls[c].key}, g.calls[c := g.calls[c].(done := true)])
  }

  /** The group's two critical sections on its shared map. */
  class RefreshGroup {
    var flights: map<FlightKey, nat>
    var calls: seq<Call>

    function View(): Group
      reads this
    {
      Group(flights, calls)
    }

    constructor ()
      ensures View() == Group(map[], [])
    {
      flights, calls := map[], [];
    }

    method Begin(k: FlightKey, worker: nat) returns (leads: bool, call: nat)
      modifies this
      ensures (View(), leads, call) == Enter(old(View()), k, worker)
    {
      if k in flights { return false, flights[k]; }
      call := |calls|;
      calls := calls + [Call(k, worker, [], None, false)];
      flights := flights[k := call];
      leads := true;
    }

    method End(call: nat, result: Result)
      requires call < |calls| && calls[call].result.None?
      modifies this
      ensures View() == Leave(WithCall(old(View()), call, old(calls)[call].(result := Some(result))), call)
    {
      calls := calls[call := calls[call].(result := Some(result))];
      flights := flights - {calls[call].key};
      calls := calls[call := calls[call].(done := true)];
    }
  }

  /* ---------- workers ---------- */

  datatype Phase =
    | Started
    | Keyed(revision: int)
    | Leading(revision: int, call: nat)
    | Returned(revision: int, call: nat)
    | Following(revision: int, call: nat)
    | Answered(revision: int, call: nat)
    | Approved(revision: int, call: nat)
    | Ready(revision: int, call: nat, item: Tracked)
    | Stored(revision: int, call: nat)
    | Skipped

  datatype Worker = Worker(id: string, signature: string, phase: Phase)

  /** `lock` is the worker inside the section that checks and stores; `captured` is the copy of
      the store that a save is writing, `saved` what the snapshot file holds. */
  datatype State = State(
    cell: Cell, store: Store<Tracked>, workers: map<nat, Worker>, group: Group, lock: Option<nat>,
    captured: Store<Tracked>, saved: Store<Tracked>)

  datatype Event =
    | CommitOp(op: Op, expected: Option<int>, write: WriteOutcome)
    | Spawn(worker: nat, id: string, signature: string)
    | ReadRevision(worker: nat)
    | Join(worker: nat)
    | ReadAdapterFor(worker: nat)
    | ReadPatFor(worker: nat)
    | Return(worker: nat, result: Result)
    | Complete(worker: nat)
    | Receive(worker: nat)
    | Cancel(worker: nat)
    | Check(worker: nat)
    | Build(worker: nat, name: string, adapter: string, now: int)
    | PutItem(worker: nat)
    | DeleteAccount(id: string)
    | RemoveActiveEntry(id: string)
    | PruneEntries(keep: set<string>)
    | Reevaluate(limits: Thresholds, num: S.Reader)
    | CaptureStore
    | WriteStore
    | Reload(readable: bool)
    | Restart(readable: bool)

  function KeyOf(w: Worker, revision: int): FlightKey { FlightKey(w.id, revision, w.signature) }

  function WithPhase(s: State, w: nat, phase: Phase): State
    requires w in s.workers
  {
    s.(workers := s.workers[w := s.workers[w].(phase := phase)])
  }

  /** A query's snapshot is filed under the account that was queried. */
  function Owned(r: Result, id: string): Result {
    match r
    case Success(x) => Success(x.(accountId := id))
    case Failure(e) => Failure(e)
  }

  /** What a worker stores: the answer, or the previous entry marked stale. */
  function Item(s: State, id: string, revision: int, call: Call, name: string, adapter: string, now: int): Tracked
    requires call.result.Some?
  {
    match call.result.value
    case Success(x) => Tracked(x.(configRevision := revision), call.seen)
    case Failure(e) =>
      var previous := Lookup(s.store.entries, id);
      var snapshot := S.ErrorSnapshot(match previous case None => None
          case Some(p) => Some(p.snapshot), id, name, adapter, e, now);
      Tracked(snapshot.(configRevision := revision), if previous.Some? then previous.value.seen else call.seen)
  }

  function ReadStep(s: State, w: nat, r: Read): State
    requires w in s.workers
  {
    var p := s.workers[w].phase;
    if p.Leading? && p.call < |s.group.calls| then
      var call := s.group.calls[p.call];
      s.(group := WithCall(s.group, p.call, call.(seen := call.seen + [r])))
    else s
  }

  function JoinStep(s: State, w: nat): State
    requires w in s.workers
  {
    var p := s.workers[w].phase;
    if p.Keyed? then
      var (group, leads, call) := Enter(s.group, KeyOf(s.workers[w], p.revision), w);
      WithPhase(s.(group := group), w, if leads then Leading(p.revision, call) else Following(p.revision, call))
    else s
  }

  function ReturnStep(s: State, w: nat, r: Result): State
    requires w in s.workers
  {
    var p := s.workers[w].phase;
    if p.Leading? && p.call < |s.group.calls| then
      var call := s.group.calls[p.call].(result := Some(Owned(r, s.workers[w].id)));
      WithPhase(s.(group := WithCall(s.group, p.call, call)), w, Returned(p.revision, p.call))
    else s
  }

  function CompleteStep(s: State, w: nat): State
    requires w in s.workers
  {
    var p := s.workers[w].phase;
    if p.Returned? && p.call < |s.group.calls|
    then WithPhase(s.(group := Leave(s.group, p.call)), w, Answered(p.revision, p.call))
    else s
  }

  function ReceiveStep(s: State, w: nat): State
    requires w in s.workers
  {
    var p := s.workers[w].phase;
    if p.Following? && p.call < |s.group.calls| && s.group.calls[p.call].done
    then WithPhase(s, w, Answered(p.revision, p.call))
    else s
  }

  function CheckStep(s: State, w: nat): State
    requires w in s.workers
  {
    var p := s.workers[w].phase;
    if p.Answered? && s.lock.None? then
      if CanCommitQueryResult(s.cell.memory, s.workers[w].id, p.revision)
      then WithPhase(s, w, Approved(p.revision, p.call)).(lock := Some(w))
      else WithPhase(s, w, Skipped)
    else s
  }

  function BuildStep(s: State, w: nat, name: string, adapter: string, now: int): State
    requires w in s.workers
  {
    var p := s.workers[w].phase;
    if p.Approved? && p.call < |s.group.calls| && s.group.calls[p.call].result.Some?
    then WithPhase(s, w, Ready(p.revision, p.call,
         Item(s, s.workers[w].id, p.revision, s.group.calls[p.call], name, adapter, now)))
    else s
  }

  function PutStep(s: State, w: nat): State
    requires w in s.workers
  {
    var p := s.workers[w].phase;
    if p.Ready?
    then WithPhase(s, w, Stored(p.revision, p.call)).(store := Put(s.store, p.item.snapshot.accountId, p.item),
         lock := None)
    else s
  }

  function Reevaluated(s: Store<Tracked>, t: Thresholds, num: S.Reader): Store<Tracked> {
    s.(entries := map id | id in s.entries :: s.entries[id].(snapshot := T.Apply(s.entries[id].snapshot, t, num)))
  }

  const EMPTY_STORE: Store<Tracked> := Store(map[], map[])

  /** A snapshot read back from the file has lost its base status. */
  function Reread(x: Tracked): Tracked { x.(snapshot := T.Reloaded(x.snapshot)) }

  function RereadAll(s: Store<Tracked>): Store<Tracked> {
    Store(map id | id in s.entries :: Reread(s.entries[id]),
          map id | id in s.history ::
              seq(|s.history[id]|, i requires 0 <= i < |s.history[id]| => Reread(s.history[id][i])))
  }

  /** The program stops at any point and starts again: preferences and snapshots come from their
      files, and no worker of before does anything more. */
  function Restarted(s: State, readable: bool): State {
    State(s.cell.(memory := Loaded(s.cell.disk)), if readable then RereadAll(s.saved) else EMPTY_STORE,
          map n | n in s.workers :: s.workers[n].(phase := Skipped), Group(map[], []), None,
          EMPTY_STORE, s.saved)
  }

  function WorkerStep(s: State, e: Event): State
    requires IsWorkerEvent(e) && e.worker in s.workers
  {
    var w := e.worker;
    match e
    case ReadRevision(_) =>
      if s.workers[w].phase.Started? then WithPhase(s, w, Keyed(Revision(s.cell.memory, s.workers[w].id))) else s
    case Join(_) => JoinStep(s, w)
    case ReadAdapterFor(_) => ReadStep(s, w, AdapterRead(ReadAdapter(s.cell.memory, s.workers[w].id)))
    case Return(_, r) => ReturnStep(s, w, r)
    case Complete(_) => CompleteStep(s, w)
    case Receive(_) => ReceiveStep(s, w)
    case Cancel(_) =>
      if s.workers[w].phase.Following? || s.workers[w].phase.Answered? then WithPhase(s, w, Skipped) else s
    case Check(_) => CheckStep(s, w)
    case Build(_, name, adapter, now) => BuildStep(s, w, name, adapter, now)
    case PutItem(_) => PutStep(s, w)
  }

  predicate IsWorkerEvent(e: Event) {
    e.ReadRevision? || e.Join? || e.ReadAdapterFor? || e.Return? || e.Complete? || e.Receive? || e.Cancel? || e.Check?
    || e.Build? || e.PutItem?
  }

  /** An event that is not possible in the state leaves it unchanged. */
  ghost function Next(s: State, vault: Vault, e: Event): State {
    if IsWorkerEvent(e) then (if e.worker in s.workers then WorkerStep(s, e) else s)
    else
      match e
      case CommitOp(op, expected, write) =>
        if Refreshable(op) then s.(cell := Commit(s.cell, expected, Mutate(op, vault, s.cell.memory), write).0) else s
      case Spawn(w, id, signature) =>
        if w in s.workers then s else s.(workers := s.workers[w := Worker(id, signature, Started)])
      case ReadPatFor(w) =>
        if w in s.workers then ReadStep(s, w, PatRead(ReadPat(s.cell.memory, vault.key, s.workers[w].id))) else s
      case DeleteAccount(id) => s.(store := Delete(s.store, id))
      case RemoveActiveEntry(id) => s.(store := RemoveActive(s.store, id))
      case PruneEntries(keep) => s.(store := Prune(s.store, keep))
      case Reevaluate(t, num) => s.(store := Reevaluated(s.store, t, num))
      case CaptureStore => s.(captured := s.store)
      case WriteStore => s.(saved := s.captured)
      case Reload(readable) => if readable then s.(store := RereadAll(s.saved)) else s
      case Restart(readable) => Restarted(s, readable)
  }

  ghost function After(s: State, vault: Vault, events: seq<Event>): State {
    if events == [] then s else Next(After(s, vault, events[..|events| - 1]), vault, events[|events| - 1])
  }

  /** Nothing is in flight and nothing is stored, and the preferences are those of their file. */
  predicate Start(s: State) {
    && s.store == s.captured == s.saved == EMPTY_STORE && s.workers == map[] && s.group == Group(map[], [])
    && s.lock.None?
    && s.cell.hasPath && Settled(s.cell)
  }

  /* ---------- the group and the workers agree ---------- */

  /** The calls not done are exactly those in the map. */
  predicate FlightsMatch(g: Group) {
    && (forall k | k in g.flights ::
          g.flights[k] < |g.calls| && g.calls[g.flights[k]].key == k && !g.calls[g.flights[k]].done)
    && (forall c | 0 <= c < |g.calls| && !g.calls[c].done ::
          g.calls[c].key in g.flights && g.flights[g.calls[c].key] == c)
    && (forall c | 0 <= c < |g.calls| && g.calls[c].done :: g.calls[c].result.Some?)
  }

  predicate HasCall(p: Phase) {
    p.Leading? || p.Returned? || p.Following? || p.Answered? || p.Approved? || p.Ready? || p.Stored?
  }

  predicate HasRevision(p: Phase) { p.Keyed? || HasCall(p) }

  /** A worker's call is for its own key and as far along as the worker believes. */
  predicate PhaseMatches(g: Group, n: nat, w: Worker) {
    HasCall(w.phase) ==>
      && w.phase.call < |g.calls|
      && g.calls[w.phase.call].key == KeyOf(w, w.phase.revision)
      && (w.phase.Leading? ==>
         g.calls[w.phase.call].leader == n && g.calls[w.phase.call].result.None? && !g.calls[w.phase.call].done)
      && (w.phase.Returned? ==>
         g.calls[w.phase.call].leader == n && g.calls[w.phase.call].result.Some? && !g.calls[w.phase.call].done)
      && (w.phase.Answered? || w.phase.Approved? || w.phase.Ready? || w.phase.Stored? ==> g.calls[w.phase.call].done)
  }

  predicate PhasesMatch(s: State) { forall n | n in s.workers :: PhaseMatches(s.group, n, s.workers[n]) }

  /** The leader of call c is still in its query or about to leave. */
  predicate Led(s: State, c: nat)
    requires c < |s.group.calls|
  {
    var n := s.group.calls[c].leader;
    n in s.workers && (s.workers[n].phase.Leading? || s.workers[n].phase.Returned?) && s.workers[n].phase.call == c
  }

  predicate LeadersMatch(s: State) { forall c | 0 <= c < |s.group.calls| && !s.group.calls[c].done :: Led(s, c) }

  /** Between check and store. */
  predicate InSection(p: Phase) { p.Approved? || p.Ready? }

  /** The lock is held exactly by the worker in the section. */
  predicate LockMatches(s: State) {
    && (s.lock.Some? ==> s.lock.value in s.workers && InSection(s.workers[s.lock.value].phase))
    && forall n | n in s.workers :: InSection(s.workers[n].phase) ==> s.lock == Some(n)
  }

  predicate Consistent(s: State) { FlightsMatch(s.group) && PhasesMatch(s) && LeadersMatch(s) && LockMatches(s) }

  /** Events that touch neither the group nor the workers. */
  lemma QuietStep(s: State, vault: Vault, e: Event)
    requires !IsWorkerEvent(e) && !e.Spawn? && !e.ReadPatFor? && !e.Restart?
    ensures var s' := Next(s, vault, e); s'.workers == s.workers && s'.group == s.group && s'.lock == s.lock
  {
    hide Commit, Mutate, Reevaluated;
  }

  lemma ReadKeepsConsistent(s: State, w: nat, r: Read)
    requires Consistent(s) && w in s.workers
    ensures Consistent(ReadStep(s, w, r))
  {
  }

  lemma EnterKeepsFlights(g: Group, k: FlightKey, n: nat)
    requires FlightsMatch(g)
    ensures FlightsMatch(Enter(g, k, n).0)
  {
  }

  /** Starting a call leaves every other worker's call alone. */
  lemma EnterKeepsPhases(g: Group, k: FlightKey, n: nat, m: nat, w: Worker)
    requires PhaseMatches(g, m, w)
    ensures PhaseMatches(Enter(g, k, n).0, m, w)
  {
  }

  lemma EnterFits(g: Group, n: nat, w: Worker, revision: int)
    requires FlightsMatch(g)
    ensures var (g', leads, call) := Enter(g, KeyOf(w, revision), n);
            PhaseMatches(g', n, w.(phase := if leads then Leading(revision, call) else Following(revision, call)))
  {
  }

  lemma EnterKeepsLeaders(s: State, w: nat)
    requires Consistent(s) && w in s.workers && s.workers[w].phase.Keyed?
    ensures LeadersMatch(JoinStep(s, w))
  {
    hide PhaseMatches, LockMatches;
  }

  lemma JoinKeepsConsistent(s: State, w: nat)
    requires Consistent(s) && w in s.workers
    ensures Consistent(JoinStep(s, w))
  {
    hide FlightsMatch, PhaseMatches, LeadersMatch, Enter;
    var worker := s.workers[w];
    if worker.phase.Keyed? {
      var k := KeyOf(worker, worker.phase.revision);
      EnterKeepsFlights(s.group, k, w);
      EnterFits(s.group, w, worker, worker.phase.revision);
      forall n | n in s.workers ensures PhaseMatches(Enter(s.group, k, w).0, n, s.workers[n]) {
        EnterKeepsPhases(s.group, k, w, n, s.workers[n]);
      }
      EnterKeepsLeaders(s, w);
    }
  }

  /** A leader's result changes nothing for any other worker. */
  lemma ResultKeepsPhases(g: Group, c: nat, r: Result, m: nat, w: Worker)
    requires c < |g.calls| && PhaseMatches(g, m, w) && m != g.calls[c].leader
    ensures PhaseMatches(WithCall(g, c, g.calls[c].(result := Some(r))), m, w)
  {
  }

  lemma ResultKeepsFlights(g: Group, c: nat, r: Result)
    requires c < |g.calls| && FlightsMatch(g)
    ensures FlightsMatch(WithCall(g, c, g.calls[c].(result := Some(r))))
  {
  }

  lemma ReturnKeepsConsistent(s: State, w: nat, r: Result)
    requires Consistent(s) && w in s.workers
    ensures Consistent(ReturnStep(s, w, r))
  {
    hide Owned, FlightsMatch, KeyOf;
    var p := s.workers[w].phase;
    assert PhaseMatches(s.group, w, s.workers[w]);
    if p.Leading? {
      hide PhaseMatches;
      ResultKeepsFlights(s.group, p.call, Owned(r, s.workers[w].id));
      forall m | m in s.workers && m != w
        ensures PhaseMatches(ReturnStep(s, w, r).group, m, s.workers[m])
      {
        ResultKeepsPhases(s.group, p.call, Owned(r, s.workers[w].id), m, s.workers[m]);
      }
      LeaderReturns(s.group, w, s.workers[w], Owned(r, s.workers[w].id));
    }
  }

  lemma LeaderReturns(g: Group, n: nat, w: Worker, r: Result)
    requires PhaseMatches(g, n, w) && w.phase.Leading?
    ensures var c := w.phase.call;
            PhaseMatches(WithCall(g, c, g.calls[c].(result := Some(r))), n, w.(phase := Returned(w.phase.revision, c)))
  {
  }

  /** Leaving takes the call out of the map and finishes it; workers other than its leader
      see at most that it is finished. */
  lemma LeaveKeepsPhases(g: Group, c: nat, m: nat, w: Worker)
    requires c < |g.calls| && PhaseMatches(g, m, w) && m != g.calls[c].leader
    ensures PhaseMatches(Leave(g, c), m, w)
  {
  }

  lemma LeaveKeepsFlights(g: Group, c: nat)
    requires c < |g.calls| && FlightsMatch(g) && !g.calls[c].done && g.calls[c].result.Some?
    ensures FlightsMatch(Leave(g, c))
  {
  }

  lemma LeaderLeaves(g: Group, n: nat, w: Worker)
    requires PhaseMatches(g, n, w) && w.phase.Returned?
    ensures PhaseMatches(Leave(g, w.phase.call), n, w.(phase := Answered(w.phase.revision, w.phase.call)))
  {
  }

  lemma CompleteKeepsConsistent(s: State, w: nat)
    requires Consistent(s) && w in s.workers
    ensures Consistent(CompleteStep(s, w))
  {
    hide FlightsMatch, KeyOf;
    var p := s.workers[w].phase;
    assert PhaseMatches(s.group, w, s.workers[w]);
    if p.Returned? {
      hide PhaseMatches;
      LeaveKeepsFlights(s.group, p.call);
      forall m | m in s.workers && m != w ensures PhaseMatches(CompleteStep(s, w).group, m, s.workers[m]) {
        LeaveKeepsPhases(s.group, p.call, m, s.workers[m]);
      }
      LeaderLeaves(s.group, w, s.workers[w]);
    }
  }

  lemma CheckKeepsConsistent(s: State, w: nat)
    requires Consistent(s) && w in s.workers
    ensures Consistent(CheckStep(s, w))
  {
    hide CanCommitQueryResult, FlightsMatch;
  }

  lemma StorePhasesKeepConsistent(s: State, w: nat, name: string, adapter: string, now: int)
    requires Consistent(s) && w in s.workers
    ensures Consistent(BuildStep(s, w, name, adapter, now)) && Consistent(PutStep(s, w))
            && Consistent(ReceiveStep(s, w))
  {
    hide Item, Put, FlightsMatch;
  }

  lemma MoveKeepsConsistent(s: State, w: nat, p: Phase)
    requires Consistent(s) && w in s.workers && !HasCall(p)
    requires !s.workers[w].phase.Leading? && !s.workers[w].phase.Returned? && !InSection(s.workers[w].phase)
    ensures Consistent(WithPhase(s, w, p))
  {
    hide FlightsMatch;
  }

  lemma SpawnKeepsConsistent(s: State, vault: Vault, e: Event)
    requires Consistent(s) && e.Spawn?
    ensures Consistent(Next(s, vault, e))
  {
    hide FlightsMatch;
  }

  lemma StepKeepsConsistent(s: State, vault: Vault, e: Event)
    requires Consistent(s)
    ensures Consistent(Next(s, vault, e))
  {
    hide FlightsMatch, PhasesMatch, LeadersMatch, LockMatches, Commit, Mutate, Reevaluated, JoinStep, ReadStep,
      ReturnStep, CompleteStep,
      ReceiveStep, CheckStep, BuildStep, PutStep, WithPhase;
    if IsWorkerEvent(e) {
      if e.worker in s.workers {
        hide Consistent;
        var w := e.worker;
        match e {
          case ReadRevision(_) =>
            if s.workers[w].phase.Started? {
              MoveKeepsConsistent(s, w, Keyed(Revision(s.cell.memory, s.workers[w].id)));
            }
          case Join(_) => JoinKeepsConsistent(s, w);
          case ReadAdapterFor(_) => ReadKeepsConsistent(s, w, AdapterRead(ReadAdapter(s.cell.memory, s.workers[w].id)));
          case Return(_, r) => ReturnKeepsConsistent(s, w, r);
          case Complete(_) => CompleteKeepsConsistent(s, w);
          case Cancel(_) =>
            if s.workers[w].phase.Following? || s.workers[w].phase.Answered? { MoveKeepsConsistent(s, w, Skipped); }
          case Check(_) => CheckKeepsConsistent(s, w);
          case Build(_, name, adapter, now) => StorePhasesKeepConsistent(s, w, name, adapter, now);
          case _ => StorePhasesKeepConsistent(s, w, "", "", 0);
        }
      }
    } else if e.Spawn? {
      SpawnKeepsConsistent(s, vault, e);
    } else if e.ReadPatFor? {
      if e.worker in s.workers {
        ReadKeepsConsistent(s, e.worker, PatRead(ReadPat(s.cell.memory, vault.key, s.workers[e.worker].id)));
      }
    } else if e.Restart? {
      RestartIsConsistent(s, e.readable);
    } else {
      QuietStep(s, vault, e);
      SameMachinery(s, Next(s, vault, e));
    }
  }

  lemma RestartIsConsistent(s: State, readable: bool)
    ensures Consistent(Restarted(s, readable))
  {
  }

  lemma SameMachinery(s: State, s': State)
    requires Consistent(s) && s'.workers == s.workers && s'.group == s.group && s'.lock == s.lock
    ensures Consistent(s')
  {
    hide FlightsMatch, PhaseMatches;
  }

  lemma {:induction false} RunKeepsConsistent(s: State, vault: Vault, events: seq<Event>)
    requires Consistent(s)
    ensures Consistent(After(s, vault, events))
  {
    hide Next, Consistent;
    if events == [] {
    } else {
      RunKeepsConsistent(s, vault, events[..|events| - 1]);
      StepKeepsConsistent(After(s, vault, events[..|events| - 1]), vault, events[|events| - 1]);
    }
  }

  lemma StartIsConsistent(s: State)
    requires Start(s)
    ensures Consistent(s)
  {
  }

  /** Single flight, at every point of every run. Per key at most one call is under way; the
      key is in the map exactly then, and that call's leader is still working on it. A worker
      has the result only of a finished call for its own account, revision and signature, so
      workers with different revisions never share one. At most one worker is between its
      check and its store, and when there is none the lock is free. */
  lemma SingleFlight(s: State, vault: Vault, events: seq<Event>)
    requires Start(s)
    ensures var s' := After(s, vault, events); var calls := s'.group.calls;
            && (forall c, c' | 0 <= c < |calls| && 0 <= c' < |calls| && !calls[c].done && !calls[c'].done
                               && calls[c].key == calls[c'].key :: c == c')
            && (forall k :: k in s'.group.flights <==>
               exists c :: 0 <= c < |calls| && !calls[c].done && calls[c].key == k)
            && (forall c | 0 <= c < |calls| && !calls[c].done :: Led(s', c))
            && (forall n | n in s'.workers && s'.workers[n].phase.Answered? ::
                  var p := s'.workers[n].phase;
                  p.call < |calls| && calls[p.call].done && calls[p.call].result.Some?
                  && calls[p.call].key == KeyOf(s'.workers[n], p.revision))
            && (forall n, n' | n in s'.workers && n' in s'.workers
                               && s'.workers[n].phase.Answered? && s'.workers[n'].phase.Answered?
                               && s'.workers[n].phase.call == s'.workers[n'].phase.call ::
                  s'.workers[n].phase.revision == s'.workers[n'].phase.revision
                  && s'.workers[n].id == s'.workers[n'].id)
            && (forall n, n' | n in s'.workers && n' in s'.workers
                               && InSection(s'.workers[n].phase) && InSection(s'.workers[n'].phase) :: n == n')
            && (s'.lock.None? <==> forall n | n in s'.workers :: !InSection(s'.workers[n].phase))
  {
    hide After, Led;
    StartIsConsistent(s);
    RunKeepsConsistent(s, vault, events);
  }

  /* ---------- whose result it is ---------- */

  /** A call's result is written once, by its leader. */
  lemma CallChanges(s: State, vault: Vault, e: Event, c: nat)
    requires Consistent(s) && c < |Next(s, vault, e).group.calls| && Next(s, vault, e).group.calls[c].result.Some?
    ensures c < |s.group.calls|
    ensures var before, after := s.group.calls[c], Next(s, vault, e).group.calls[c];
            && after.leader == before.leader && after.key == before.key
            && (if before.result.Some? then after.result == before.result
                else e.Return? && e.worker == before.leader && after.result == Some(Owned(e.result, before.key.id)))
  {
    hide Commit, Mutate, Reevaluated, Item, Put, CanCommitQueryResult, ReadAdapter, ReadPat, Owned, FlightsMatch,
      LeadersMatch, LockMatches;
    if IsWorkerEvent(e) && e.worker in s.workers {
      assert PhaseMatches(s.group, e.worker, s.workers[e.worker]);
    } else if e.ReadPatFor? && e.worker in s.workers {
      assert PhaseMatches(s.group, e.worker, s.workers[e.worker]);
    }
  }

  /** The result every follower of a call returns is the one its leader returned. */
  lemma {:induction false} LeaderReturned(s: State, vault: Vault, events: seq<Event>, k: nat, c: nat) returns (r: nat)
    requires Start(s) && k <= |events|
    requires c < |After(s, vault, events[..k]).group.calls| && After(s, vault, events[..k]).group.calls[c].result.Some?
    ensures var call := After(s, vault, events[..k]).group.calls[c];
            && r < k && events[r].Return? && events[r].worker == call.leader
            && call.result == Some(Owned(events[r].result, call.key.id))
    decreases k
  {
    hide Next, Consistent, Owned;
    assert k > 0;
    var before := After(s, vault, events[..k - 1]);
    assert events[..k][..k - 1] == events[..k - 1];
    StartIsConsistent(s);
    RunKeepsConsistent(s, vault, events[..k - 1]);
    CallChanges(before, vault, events[k - 1], c);
    if before.group.calls[c].result.Some? {
      r := LeaderReturned(s, vault, events, k - 1, c);
    } else {
      r := k - 1;
    }
  }

  lemma FollowingChanges(s: State, vault: Vault, e: Event, n: nat)
    requires n in Next(s, vault, e).workers && Next(s, vault, e).workers[n].phase.Following?
    ensures n in s.workers && s.workers[n].id == Next(s, vault, e).workers[n].id
            && s.workers[n].signature == Next(s, vault, e).workers[n].signature
    ensures var w, p' := s.workers[n], Next(s, vault, e).workers[n].phase;
            w.phase == p'
            || (e == Join(n) && w.phase == Keyed(p'.revision)
                && KeyOf(w, p'.revision) in s.group.flights && s.group.flights[KeyOf(w, p'.revision)] == p'.call)
  {
    hide Commit, Mutate, Reevaluated, Item, Put, CanCommitQueryResult, ReadAdapter, ReadPat, Owned, KeyOf;
  }

  /** When a follower joined, its leader was still working on the call. */
  lemma {:induction false} FollowerJoinedLive(s: State, vault: Vault, events: seq<Event>, k: nat, n: nat)
    returns (j: nat)
    requires Start(s) && k <= |events|
    requires n in After(s, vault, events[..k]).workers && After(s, vault, events[..k]).workers[n].phase.Following?
    ensures j < k && events[j] == Join(n)
    ensures var c, at := After(s, vault, events[..k]).workers[n].phase.call, After(s, vault, events[..j]);
            c < |at.group.calls| && !at.group.calls[c].done && Led(at, c)
    decreases k
  {
    hide Next, FlightsMatch, PhaseMatches, Led, LockMatches;
    assert k > 0;
    var before := After(s, vault, events[..k - 1]);
    assert events[..k][..k - 1] == events[..k - 1];
    FollowingChanges(before, vault, events[k - 1], n);
    if before.workers[n].phase.Following? {
      j := FollowerJoinedLive(s, vault, events, k - 1, n);
    } else {
      j := k - 1;
      StartIsConsistent(s);
      RunKeepsConsistent(s, vault, events[..k - 1]);
      FlightIsLive(before.group, KeyOf(before.workers[n], before.workers[n].phase.revision));
    }
  }

  lemma FlightIsLive(g: Group, k: FlightKey)
    requires FlightsMatch(g) && k in g.flights
    ensures g.flights[k] < |g.calls| && !g.calls[g.flights[k]].done
  {
  }
}
