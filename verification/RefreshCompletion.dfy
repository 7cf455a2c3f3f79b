/** A refresh that nothing disturbs runs to its end and stores what it queried, or marks the data
    of before as stale. */
module RefreshCompletion {
  import opened Options
  import opened Text
  import opened Preferences
  import Commits
  import opened QueryRevisions
  import opened Stores
  import opened Refresh
  import Freshness
  import S = Snapshots
  import T = ThresholdRules

  /** What a worker builds its item with. */
  datatype Making = Making(name: string, adapter: string, now: int)

  function FullRefresh(n: nat, id: string, signature: string, r: Result, m: Making): seq<Event> {
    [Spawn(n, id, signature), ReadRevision(n), Join(n), ReadAdapterFor(n), ReadPatFor(n),
     Return(n, r), Complete(n), Check(n), Build(n, m.name, m.adapter, m.now), PutItem(n)]
  }

  lemma RefreshEvents(n: nat, id: string, signature: string, r: Result, m: Making)
    ensures var e := FullRefresh(n, id, signature, r, m);
            && |e| == 10 && e[0] == Spawn(n, id, signature) && e[1] == ReadRevision(n) && e[2] == Join(n)
            && e[3] == ReadAdapterFor(n) && e[4] == ReadPatFor(n) && e[5] == Return(n, r)
            && e[6] == Complete(n)
            && e[7] == Check(n) && e[8] == Build(n, m.name, m.adapter, m.now) && e[9] == PutItem(n)
  {
  }

  lemma OneMore(s: State, vault: Vault, events: seq<Event>, k: nat)
    requires k < |events|
    ensures After(s, vault, events[..k + 1]) == Next(After(s, vault, events[..k]), vault, events[k])
  {
    hide Next;
    assert events[..k + 1][..k] == events[..k];
  }

  /** The worker leads call c, the last one made, which has read `seen`. */
  predicate Querying(s: State, was: State, n: nat, w: Worker, c: nat, seen: seq<Read>) {
    && s.cell == was.cell && s.store == was.store && s.lock == was.lock
    && n in s.workers && s.workers[n] == w.(phase := Leading(Revision(was.cell.memory, w.id), c))
    && c < |s.group.calls|
    && s.group.calls[c] == Call(KeyOf(w, Revision(was.cell.memory, w.id)), n, seen, None, false)
  }

  lemma JoinQueries(s: State, was: State, n: nat, w: Worker)
    requires s.cell == was.cell && s.store == was.store && s.lock == was.lock
    requires n in s.workers && s.workers[n] == w.(phase := Keyed(Revision(was.cell.memory, w.id)))
    requires KeyOf(w, Revision(was.cell.memory, w.id)) !in s.group.flights
    ensures Querying(JoinStep(s, n), was, n, w, |s.group.calls|, [])
  {
    hide Revision;
  }

  lemma ReadQueries(s: State, was: State, n: nat, w: Worker, c: nat, seen: seq<Read>, r: Read)
    requires Querying(s, was, n, w, c, seen)
    ensures Querying(ReadStep(s, n, r), was, n, w, c, seen + [r])
  {
    hide Revision, KeyOf;
  }

  /** The worker has the answer of the query it led. */
  predicate Answering(s: State, was: State, n: nat, w: Worker, c: nat, seen: seq<Read>, r: Result) {
    && s.cell == was.cell && s.store == was.store && s.lock == was.lock
    && n in s.workers && s.workers[n] == w.(phase := Answered(Revision(was.cell.memory, w.id), c))
    && c < |s.group.calls| && s.group.calls[c].seen == seen
    && s.group.calls[c].result == Some(Owned(r, w.id))
  }

  lemma QueryAnswers(s: State, was: State, n: nat, w: Worker, c: nat, seen: seq<Read>, r: Result)
    requires Querying(s, was, n, w, c, seen)
    ensures n in ReturnStep(s, n, r).workers
    ensures Answering(CompleteStep(ReturnStep(s, n, r), n), was, n, w, c, seen, r)
  {
    hide Revision, KeyOf, Owned;
  }

  /** What the worker stores. */
  function Made(was: State, id: string, r: Result, seen: seq<Read>, m: Making): Tracked {
    var call := Call(FlightKey(id, 0, ""), 0, seen, Some(Owned(r, id)), true);
    Item(was, id, Revision(was.cell.memory, id), call, m.name, m.adapter, m.now)
  }

  lemma ItemIsMade(s: State, was: State, w: Worker, c: nat, seen: seq<Read>, r: Result, m: Making)
    requires s.store == was.store && c < |s.group.calls|
    requires s.group.calls[c].seen == seen && s.group.calls[c].result == Some(Owned(r, w.id))
    ensures Item(s, w.id, Revision(was.cell.memory, w.id), s.group.calls[c], m.name, m.adapter, m.now) ==
            Made(was, w.id, r, seen, m)
  {
    hide Revision, Owned, S.ErrorSnapshot;
  }

  lemma AnswerIsStored(s: State, was: State, n: nat, w: Worker, c: nat, seen: seq<Read>, r: Result, m: Making)
    requires Answering(s, was, n, w, c, seen, r) && was.lock.None?
    requires CanCommitQueryResult(was.cell.memory, w.id, Revision(was.cell.memory, w.id))
    ensures n in CheckStep(s, n).workers && n in BuildStep(CheckStep(s, n), n, m.name, m.adapter, m.now).workers
    ensures var x := Made(was, w.id, r, seen, m);
            PutStep(BuildStep(CheckStep(s, n), n, m.name, m.adapter, m.now), n).store
            == Put(was.store, x.snapshot.accountId, x)
  {
    hide Revision, Put, Item, Made, Owned;
    ItemIsMade(CheckStep(s, n), was, w, c, seen, r, m);
  }

  lemma SpawnedReads(s: State, vault: Vault, n: nat, id: string, signature: string)
    requires n !in s.workers
    ensures var s' := Next(Next(s, vault, Spawn(n, id, signature)), vault, ReadRevision(n));
            && s'.cell == s.cell && s'.store == s.store && s'.lock == s.lock && s'.group == s.group
            && n in s'.workers && s'.workers[n] == Worker(id, signature, Keyed(Revision(s.cell.memory, id)))
  {
    hide Revision;
  }

  /* What each event of a refresh does, by its step function. */

  lemma NextJoins(s: State, vault: Vault, n: nat)
    requires n in s.workers
    ensures Next(s, vault, Join(n)) == JoinStep(s, n)
  {
    hide JoinStep;
  }

  lemma NextReadsAdapter(s: State, vault: Vault, n: nat)
    requires n in s.workers
    ensures Next(s, vault, ReadAdapterFor(n)) ==
            ReadStep(s, n, AdapterRead(ReadAdapter(s.cell.memory, s.workers[n].id)))
  {
    hide ReadStep, ReadAdapter;
  }

  lemma NextReadsPat(s: State, vault: Vault, n: nat)
    requires n in s.workers
    ensures Next(s, vault, ReadPatFor(n)) == ReadStep(s, n, PatRead(ReadPat(s.cell.memory, vault.key, s.workers[n].id)))
  {
    hide ReadStep, ReadPat;
  }

  lemma NextReturns(s: State, vault: Vault, n: nat, r: Result)
    requires n in s.workers
    ensures Next(s, vault, Return(n, r)) == ReturnStep(s, n, r)
  {
    hide ReturnStep;
  }

  lemma NextCompletes(s: State, vault: Vault, n: nat)
    requires n in s.workers
    ensures Next(s, vault, Complete(n)) == CompleteStep(s, n)
  {
    hide CompleteStep;
  }

  lemma NextChecks(s: State, vault: Vault, n: nat)
    requires n in s.workers
    ensures Next(s, vault, Check(n)) == CheckStep(s, n)
  {
    hide CheckStep;
  }

  lemma NextBuilds(s: State, vault: Vault, n: nat, m: Making)
    requires n in s.workers
    ensures Next(s, vault, Build(n, m.name, m.adapter, m.now)) == BuildStep(s, n, m.name, m.adapter, m.now)
  {
    hide BuildStep;
  }

  lemma NextPuts(s: State, vault: Vault, n: nat)
    requires n in s.workers
    ensures Next(s, vault, PutItem(n)) == PutStep(s, n)
  {
    hide PutStep;
  }

  /** The settings a refresh reads, in order. */
  function BothReads(d: Prefs, key: Option<nat>, id: string): seq<Read> {
    [AdapterRead(ReadAdapter(d, id)), PatRead(ReadPat(d, key, id))]
  }

  lemma RefreshJoins(s: State, vault: Vault, n: nat, w: Worker, events: seq<Event>)
    requires n !in s.workers && w.phase.Started? && KeyOf(w, Revision(s.cell.memory, w.id)) !in s.group.flights
    requires |events| >= 3
    requires events[0] == Spawn(n, w.id, w.signature) && events[1] == ReadRevision(n) && events[2] == Join(n)
    ensures Querying(After(s, vault, events[..3]), s, n, w, |s.group.calls|, [])
  {
    hide After, Next, Revision, JoinStep, KeyOf, Querying;
    Beginning(s, vault, events);
    OneMore(s, vault, events, 0);
    OneMore(s, vault, events, 1);
    SpawnedReads(s, vault, n, w.id, w.signature);
    OneMore(s, vault, events, 2);
    NextJoins(After(s, vault, events[..2]), vault, n);
    JoinQueries(After(s, vault, events[..2]), s, n, w);
  }

  lemma RefreshReads(s: State, vault: Vault, n: nat, w: Worker, c: nat, events: seq<Event>)
    requires |events| >= 5 && events[3] == ReadAdapterFor(n) && events[4] == ReadPatFor(n)
    requires Querying(After(s, vault, events[..3]), s, n, w, c, [])
    ensures Querying(After(s, vault, events[..5]), s, n, w, c, BothReads(s.cell.memory, vault.key, w.id))
  {
    hide After, Next, Revision, ReadStep, ReadAdapter, ReadPat, KeyOf;
    var d := s.cell.memory;
    var first, second := AdapterRead(ReadAdapter(d, w.id)), PatRead(ReadPat(d, vault.key, w.id));
    OneMore(s, vault, events, 3);
    NextReadsAdapter(After(s, vault, events[..3]), vault, n);
    ReadQueries(After(s, vault, events[..3]), s, n, w, c, [], first);
    OneMore(s, vault, events, 4);
    NextReadsPat(After(s, vault, events[..4]), vault, n);
    ReadQueries(After(s, vault, events[..4]), s, n, w, c, [] + [first], second);
    assert [] + [first] + [second] == BothReads(d, vault.key, w.id);
  }

  lemma RefreshAnswers(s: State, vault: Vault, n: nat, w: Worker, r: Result, c: nat, seen: seq<Read>,
      events: seq<Event>)
    requires |events| >= 7 && events[5] == Return(n, r) && events[6] == Complete(n)
    requires Querying(After(s, vault, events[..5]), s, n, w, c, seen)
    ensures Answering(After(s, vault, events[..7]), s, n, w, c, seen, r)
  {
    hide After, Next, Revision, ReturnStep, CompleteStep, KeyOf;
    var s5 := After(s, vault, events[..5]);
    OneMore(s, vault, events, 5);
    OneMore(s, vault, events, 6);
    NextReturns(s5, vault, n, r);
    QueryAnswers(s5, s, n, w, c, seen, r);
    NextCompletes(After(s, vault, events[..6]), vault, n);
  }

  lemma AnswerGoesIn(s: State, vault: Vault, n: nat, w: Worker, r: Result, c: nat, seen: seq<Read>, m: Making,
      events: seq<Event>)
    requires |events| >= 10
    requires events[7] == Check(n) && events[8] == Build(n, m.name, m.adapter, m.now) && events[9] == PutItem(n)
    requires Answering(After(s, vault, events[..7]), s, n, w, c, seen, r) && s.lock.None?
    requires CanCommitQueryResult(s.cell.memory, w.id, Revision(s.cell.memory, w.id))
    ensures var x := Made(s, w.id, r, seen, m);
            After(s, vault, events[..10]).store == Put(s.store, x.snapshot.accountId, x)
  {
    hide After, Next, Revision, CheckStep, BuildStep, PutStep, Put, CanCommitQueryResult, Made;
    var s7 := After(s, vault, events[..7]);
    AnswerIsStored(s7, s, n, w, c, seen, r, m);
    OneMore(s, vault, events, 7);
    NextChecks(s7, vault, n);
    OneMore(s, vault, events, 8);
    NextBuilds(After(s, vault, events[..8]), vault, n, m);
    OneMore(s, vault, events, 9);
    NextPuts(After(s, vault, events[..9]), vault, n);
  }

  /** The precondition of an undisturbed refresh: the worker is new, nobody is in the section or
      queries with the same key, and the account is known and monitored. */
  predicate Undisturbed(s: State, n: nat, id: string, signature: string) {
    && n !in s.workers && s.lock.None? && FlightKey(id, Revision(s.cell.memory, id), signature) !in s.group.flights
    && BoolAt(s.cell.memory.known, id) && BoolAt(s.cell.memory.monitored, id)
  }

  lemma RefreshRuns(s: State, vault: Vault, n: nat, id: string, signature: string, r: Result, m: Making)
    requires Undisturbed(s, n, id, signature)
    ensures var x := Made(s, id, r, BothReads(s.cell.memory, vault.key, id), m);
            After(s, vault, FullRefresh(n, id, signature, r, m)).store == Put(s.store, x.snapshot.accountId, x)
  {
    hide After, Next, Revision, BothReads, Put, Querying, Answering, CanCommitQueryResult, FullRefresh, Made;
    var events := FullRefresh(n, id, signature, r, m);
    var d, c, w := s.cell.memory, |s.group.calls|, Worker(id, signature, Started);
    var seen := BothReads(d, vault.key, id);
    RefreshEvents(n, id, signature, r, m);
    RefreshJoins(s, vault, n, w, events);
    RefreshReads(s, vault, n, w, c, events);
    RefreshAnswers(s, vault, n, w, r, c, seen, events);
    Permitted(d, id);
    AnswerGoesIn(s, vault, n, w, r, c, seen, m, events);
    assert events[..10] == events;
  }

  /** A refresh that nothing disturbs, of a known and monitored account, makes the answer of the
      query the account's entry and puts it in front of its history, under the present revision,
      with both settings read and otherwise as it was answered. */
  lemma UndisturbedRefreshStores(s: State, vault: Vault, n: nat, id: string, signature: string, x: S.Snapshot,
      m: Making)
    requires Undisturbed(s, n, id, signature) && id != ""
    ensures var d := s.cell.memory; var s' := After(s, vault, FullRefresh(n, id, signature, Success(x), m));
            var item := Tracked(x.(accountId := id, configRevision := Revision(d, id)),
                                [AdapterRead(ReadAdapter(d, id)), PatRead(ReadPat(d, vault.key, id))]);
            && s'.store.entries == s.store.entries[id := item]
            && id in s'.store.history && s'.store.history[id] != [] && s'.store.history[id][0] == item
            && s'.store.history[id][1..] <= HistoryOf(s.store, id)
            && s'.store.history - {id} == s.store.history - {id}
  {
    hide After, Revision, FullRefresh, ReadAdapter, ReadPat, Put;
    RefreshRuns(s, vault, n, id, signature, Success(x), m);
    PutStandsInFront(s.store, id, Made(s, id, Success(x), BothReads(s.cell.memory, vault.key, id), m));
  }

  /** The same refresh, in any reachable state, with a query that fails: the entry keeps all its
      data and its last success, is marked stale and in error, and carries the new failure, the
      new time of attempt and the present revision. */
  lemma UndisturbedFailureKeepsData(s0: State, vault: Vault, run: seq<Event>, n: nat, id: string, signature: string,
      failure: S.Failure, m: Making)
    requires Start(s0) && id != ""
    requires var s := After(s0, vault, run); Undisturbed(s, n, id, signature) && id in s.store.entries
    ensures var s := After(s0, vault, run);
            var s' := After(s, vault, FullRefresh(n, id, signature, Failure(failure), m));
            var was := s.store.entries[id].snapshot;
            && id in s'.store.entries && s'.store.entries.Keys == s.store.entries.Keys
            && s'.store.entries[id].seen == s.store.entries[id].seen
            && var x := s'.store.entries[id].snapshot;
               && x.accountId == id && x.name == was.name && x.adapter == was.adapter && x.kind == was.kind
               && x.balances == was.balances && x.windows == was.windows && x.quantities == was.quantities
               && x.sections == was.sections && x.base == was.base && x.lastSuccessAt == was.lastSuccessAt
               && x.checkedAt == (if was.checkedAt == 0 then m.now else was.checkedAt)
               && x.stale && x.status == S.Error && x.error == Some(failure)
               && x.lastAttemptAt == m.now && x.configRevision == Revision(s.cell.memory, id)
  {
    hide After, Revision, FullRefresh, ReadAdapter, ReadPat, Put, Undisturbed, Consistent, Freshness.CallsSound,
      Freshness.WorkersSound;
    var s := After(s0, vault, run);
    Freshness.StartIsSound(s0, vault.key);
    Freshness.RunKeepsSound(s0, vault, run);
    RefreshRuns(s, vault, n, id, signature, Failure(failure), m);
    PutStandsInFront(s.store, id, Made(s, id, Failure(failure), BothReads(s.cell.memory, vault.key, id), m));
  }

  /** Without an entry before, a failed query stores a bare failure that is not stale and has
      never succeeded. */
  lemma UndisturbedFirstFailure(s: State, vault: Vault, n: nat, id: string, signature: string, failure: S.Failure,
      m: Making)
    requires Undisturbed(s, n, id, signature) && id != "" && id !in s.store.entries
    ensures var s' := After(s, vault, FullRefresh(n, id, signature, Failure(failure), m));
            && id in s'.store.entries
            && var x := s'.store.entries[id].snapshot;
               && x.accountId == id && x.name == m.name
               && x.adapter == (if IsBlank(m.adapter) then "unknown" else Trim(m.adapter))
               && x.kind == S.Unsupported && x.status == S.Error
               && x.error == Some(failure) && !x.stale && x.lastSuccessAt.None?
               && x.balances == [] && x.windows == [] && x.quantities == [] && x.sections == map[]
               && x.checkedAt == x.lastAttemptAt == m.now && x.configRevision == Revision(s.cell.memory, id)
  {
    hide After, Revision, FullRefresh, ReadAdapter, ReadPat, Put, Undisturbed, FirstNonEmpty, Trim;
    FirstOrUnknown(m.adapter);
    RefreshRuns(s, vault, n, id, signature, Failure(failure), m);
    PutStandsInFront(s.store, id, Made(s, id, Failure(failure), BothReads(s.cell.memory, vault.key, id), m));
  }

  /** A worker that joined a call stores what the call's leader got, once the call is done and
      the account's revision is still the one they asked for. */
  lemma FollowerStores(s: State, vault: Vault, n: nat, c: nat, r: Result, m: Making)
    requires n in s.workers && s.lock.None? && c < |s.group.calls| && s.group.calls[c].done
    requires s.group.calls[c].result == Some(Owned(r, s.workers[n].id))
    requires s.workers[n].phase == Following(Revision(s.cell.memory, s.workers[n].id), c)
    requires BoolAt(s.cell.memory.known, s.workers[n].id) && BoolAt(s.cell.memory.monitored, s.workers[n].id)
    ensures var x := Made(s, s.workers[n].id, r, s.group.calls[c].seen, m);
            After(s, vault, [Receive(n), Check(n), Build(n, m.name, m.adapter, m.now), PutItem(n)]).store ==
            Put(s.store, x.snapshot.accountId, x)
  {
    hide After, Next, Revision, CheckStep, BuildStep, PutStep, Put, CanCommitQueryResult, Made, Owned;
    var events := [Receive(n), Check(n), Build(n, m.name, m.adapter, m.now), PutItem(n)];
    var w, seen := s.workers[n], s.group.calls[c].seen;
    Beginning(s, vault, events);
    OneMore(s, vault, events, 0);
    var s1 := After(s, vault, events[..1]);
    NextReceives(s, vault, n);
    Permitted(s.cell.memory, w.id);
    AnswerIsStored(s1, s, n, w, c, seen, r, m);
    OneMore(s, vault, events, 1);
    NextChecks(s1, vault, n);
    OneMore(s, vault, events, 2);
    NextBuilds(After(s, vault, events[..2]), vault, n, m);
    OneMore(s, vault, events, 3);
    NextPuts(After(s, vault, events[..3]), vault, n);
    assert events[..4] == events;
  }

  lemma NextReceives(s: State, vault: Vault, n: nat)
    requires n in s.workers
    ensures Next(s, vault, Receive(n)) == ReceiveStep(s, n)
  {
    hide ReceiveStep;
  }

  /** What was saved is there again after a restart or a reload, with the preferences of their
      file, without base statuses and without any worker; a file that cannot be read gives an
      empty store. */
  lemma SavedStoreReturns(s: State, vault: Vault, id: string)
    ensures var saved := After(s, vault, [CaptureStore, WriteStore]);
            var again, reloaded := Next(saved, vault, Restart(true)), Next(saved, vault, Reload(true));
            && saved.store == s.store && again.store == reloaded.store
            && again.store.entries.Keys == s.store.entries.Keys && again.store.history.Keys == s.store.history.Keys
            && (id in s.store.entries ==>
                  again.store.entries[id] ==
                  s.store.entries[id].(snapshot := s.store.entries[id].snapshot.(base := S.UNSET)))
            && (id in s.store.history ==>
                  && |again.store.history[id]| == |s.store.history[id]|
                  && forall i | 0 <= i < |s.store.history[id]| ::
                       again.store.history[id][i] ==
                       s.store.history[id][i].(snapshot := s.store.history[id][i].snapshot.(base := S.UNSET)))
            && again.cell == s.cell.(memory := Commits.Loaded(s.cell.disk)) && again.lock.None?
            && (forall n | n in again.workers :: again.workers[n].phase.Skipped?)
            && Next(saved, vault, Restart(false)).store == Store(map[], map[])
  {
    hide Commits.Loaded, After, Next;
    SavesTwice(s, vault);
    Restarts(s.(captured := s.store, saved := s.store), vault);
  }

  /** Changed thresholds evaluate every entry again and touch nothing else; removing and deleting
      an account and pruning are as the store has them. */
  lemma StoreEventsExactly(s: State, vault: Vault, t: Thresholds, num: S.Reader, id: string, keep: set<string>,
      k: string)
    requires id != ""
    ensures var r := Next(s, vault, Reevaluate(t, num));
            && r == s.(store := r.store) && r.store.history == s.store.history
            && r.store.entries.Keys == s.store.entries.Keys
            && (k in s.store.entries ==>
                  r.store.entries[k].seen == s.store.entries[k].seen
                  && r.store.entries[k].snapshot == T.Apply(s.store.entries[k].snapshot, t, num))
    ensures var r := Next(s, vault, DeleteAccount(id));
            && r == s.(store := r.store)
            && Found(r.store.entries, k) == (if k == id then None else Found(s.store.entries, k))
            && Found(r.store.history, k) == (if k == id then None else Found(s.store.history, k))
    ensures var r := Next(s, vault, RemoveActiveEntry(id));
            && r == s.(store := r.store) && r.store.history == s.store.history
            && Found(r.store.entries, k) == (if k == id then None else Found(s.store.entries, k))
    ensures var r := Next(s, vault, PruneEntries(keep));
            && r == s.(store := r.store) && r.store.history == s.store.history
            && Found(r.store.entries, k) == (if k in keep then Found(s.store.entries, k) else None)
  {
    hide T.Apply, Next, Delete, RemoveActive, Prune;
    NextReevaluates(s, vault, t, num);
    NextDeletes(s, vault, id);
    NextRemoves(s, vault, id);
    NextPrunes(s, vault, keep);
    RemovalIsExact(s.store, id, keep, k);
  }

  lemma NextReevaluates(s: State, vault: Vault, t: Thresholds, num: S.Reader)
    ensures Next(s, vault, Reevaluate(t, num)) == s.(store := Refresh.Reevaluated(s.store, t, num))
  {
    hide Refresh.Reevaluated;
  }

  lemma NextDeletes(s: State, vault: Vault, id: string)
    ensures Next(s, vault, DeleteAccount(id)) == s.(store := Delete(s.store, id))
  {
    hide Delete;
  }

  lemma NextRemoves(s: State, vault: Vault, id: string)
    ensures Next(s, vault, RemoveActiveEntry(id)) == s.(store := RemoveActive(s.store, id))
  {
    hide RemoveActive;
  }

  lemma NextPrunes(s: State, vault: Vault, keep: set<string>)
    ensures Next(s, vault, PruneEntries(keep)) == s.(store := Prune(s.store, keep))
  {
    hide Prune;
  }

  lemma SavesTwice(s: State, vault: Vault)
    ensures After(s, vault, [CaptureStore, WriteStore]) == s.(captured := s.store, saved := s.store)
  {
    var events := [CaptureStore, WriteStore];
    hide After, Next;
    Beginning(s, vault, events);
    OneMore(s, vault, events, 0);
    OneMore(s, vault, events, 1);
    Saves(s, vault);
    Saves(s.(captured := s.store), vault);
    assert events[..2] == events;
  }

  lemma Saves(s: State, vault: Vault)
    ensures Next(s, vault, CaptureStore) == s.(captured := s.store)
    ensures Next(s, vault, WriteStore) == s.(saved := s.captured)
  {
  }

  lemma Restarts(s: State, vault: Vault)
    ensures Next(s, vault, Restart(true)) == Restarted(s, true) && Next(s, vault, Restart(false)) == Restarted(s, false)
    ensures Next(s, vault, Reload(true)) == s.(store := RereadAll(s.saved))
  {
    hide Restarted, RereadAll;
  }

  lemma FirstOrUnknown(adapter: string)
    ensures FirstNonEmpty([adapter, "unknown"]) == if IsBlank(adapter) then "unknown" else Trim(adapter)
  {
    TrimUnchanged("unknown");
    assert [adapter, "unknown"][0] == adapter && [adapter, "unknown"][1] == "unknown";
  }

  lemma Beginning(s: State, vault: Vault, events: seq<Event>)
    ensures After(s, vault, events[..0]) == s
  {
  }

  lemma Permitted(d: Prefs, id: string)
    requires BoolAt(d.known, id) && BoolAt(d.monitored, id)
    ensures CanCommitQueryResult(d, id, Revision(d, id))
  {
  }
}
