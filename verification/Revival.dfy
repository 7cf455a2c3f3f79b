/** Nothing is revived: a worker overtaken by a configuration change or a cleanup of its account
    stores nothing, and everything stored is backed by a check. */
module Revival {
  import opened Options
  import opened Text
  import opened Preferences
  import Commits
  import opened Batches
  import Storage
  import opened QueryRevisions
  import opened Stores
  import opened Refresh
  import opened Freshness
  import S = Snapshots
  import T = ThresholdRules

  lemma StepAdvances(s: State, vault: Vault, e: Event, id: string)
    requires DiskAdvances(s.cell)
    ensures Advances(s.cell.memory, Next(s, vault, e).cell.memory, id)
  {
    hide Commits.Commit, Commits.Mutate, WorkerStep, Settings, Reevaluated, Commits.Loaded;
    if e.CommitOp? && Refreshable(e.op) {
      CommitAdvances(s.cell, vault, e.op, e.expected, e.write, id);
    } else if !e.Restart? {
      CellUntouched(s, vault, e);
    }
  }

  /** No account's query revision ever decreases, restarts included. */
  lemma {:induction false} QueryRevisionsGrow(s: State, vault: Vault, events: seq<Event>, i: nat, j: nat, id: string)
    requires DiskAdvances(s.cell) && i <= j <= |events|
    ensures Revision(After(s, vault, events[..i]).cell.memory, id)
         <= Revision(After(s, vault, events[..j]).cell.memory, id)
    decreases j
  {
    hide Next, Revision, DiskAdvances;
    if i == j {
    } else {
      QueryRevisionsGrow(s, vault, events, i, j - 1, id);
      assert events[..j][..j - 1] == events[..j - 1];
      RunKeepsDisk(s, vault, events[..j - 1]);
      StepAdvances(After(s, vault, events[..j - 1]), vault, events[j - 1], id);
      AdvanceKeepsOrder(After(s, vault, events[..j - 1]).cell.memory, After(s, vault, events[..j]).cell.memory, id);
    }
  }

  /** How one event may change one worker. */
  lemma WorkerChanges(s: State, vault: Vault, e: Event, n: nat)
    requires n in Next(s, vault, e).workers && HasRevision(Next(s, vault, e).workers[n].phase)
    ensures n in s.workers && Next(s, vault, e).workers[n].id == s.workers[n].id
    ensures var p, p' := s.workers[n].phase, Next(s, vault, e).workers[n].phase;
            && (if HasRevision(p) then p'.revision == p.revision
                else e == ReadRevision(n) && p.Started? && p'.revision == Revision(s.cell.memory, s.workers[n].id))
            && (p'.Approved? && !p.Approved? ==>
                  e == Check(n) && p.Answered? && CanCommitQueryResult(s.cell.memory, s.workers[n].id, p.revision))
            && (p'.Ready? && !p.Ready? ==> p.Approved?)
            && (p'.Stored? && !p.Stored? ==> p.Ready? && e == PutItem(n))
  {
    hide Commits.Commit, Commits.Mutate, Reevaluated, Item, Put, Revision, CanCommitQueryResult, ReadAdapter, ReadPat,
      Owned, KeyOf;
  }

  /** Where a worker's revision comes from. */
  lemma {:induction false} RevisionWasRead(s: State, vault: Vault, events: seq<Event>, k: nat, n: nat) returns (i: nat)
    requires Start(s) && k <= |events|
    requires n in After(s, vault, events[..k]).workers && HasRevision(After(s, vault, events[..k]).workers[n].phase)
    ensures i < k && events[i] == ReadRevision(n)
    ensures var w := After(s, vault, events[..k]).workers[n];
            w.phase.revision == Revision(After(s, vault, events[..i]).cell.memory, w.id)
    decreases k
  {
    hide Next, Revision;
    assert k > 0;
    var before := After(s, vault, events[..k - 1]);
    assert events[..k][..k - 1] == events[..k - 1];
    WorkerChanges(before, vault, events[k - 1], n);
    if HasRevision(before.workers[n].phase) {
      i := RevisionWasRead(s, vault, events, k - 1, n);
    } else {
      i := k - 1;
    }
  }

  /** Where an approval comes from. */
  lemma {:induction false} CheckWasPassed(s: State, vault: Vault, events: seq<Event>, k: nat, n: nat) returns (j: nat)
    requires Start(s) && k <= |events| && n in After(s, vault, events[..k]).workers
    requires var p := After(s, vault, events[..k]).workers[n].phase; p.Approved? || p.Ready? || p.Stored?
    ensures j < k && events[j] == Check(n) && n in After(s, vault, events[..j]).workers
    ensures var w, at := After(s, vault, events[..k]).workers[n], After(s, vault, events[..j]);
            && at.workers[n].phase.Answered? && at.workers[n].phase.revision == w.phase.revision
            && at.workers[n].id == w.id
            && CanCommitQueryResult(at.cell.memory, w.id, w.phase.revision)
    ensures var next := After(s, vault, events[..j + 1]); n in next.workers && next.workers[n].phase.Approved?
    decreases k
  {
    hide Next, CanCommitQueryResult;
    assert k > 0;
    var before := After(s, vault, events[..k - 1]);
    assert events[..k][..k - 1] == events[..k - 1];
    WorkerChanges(before, vault, events[k - 1], n);
    var p := before.workers[n].phase;
    if p.Approved? || p.Ready? || p.Stored? {
      j := CheckWasPassed(s, vault, events, k - 1, n);
    } else {
      j := k - 1;
    }
  }

  /** Every worker past its check was approved by a check at which the account was known and
      monitored, and from the worker's reading of the query revision up to that check the
      revision never changed. */
  lemma StoreIsBacked(s: State, vault: Vault, events: seq<Event>, k: nat, n: nat) returns (i: nat, j: nat)
    requires Start(s) && k <= |events|
    requires n in After(s, vault, events[..k]).workers && PastCheck(After(s, vault, events[..k]).workers[n].phase)
    ensures i < j < k && events[i] == ReadRevision(n) && events[j] == Check(n)
    ensures var w, d := After(s, vault, events[..k]).workers[n], After(s, vault, events[..j]).cell.memory;
            && BoolAt(d.known, w.id) && BoolAt(d.monitored, w.id)
            && forall m | i <= m <= j :: Revision(After(s, vault, events[..m]).cell.memory, w.id) == w.phase.revision
  {
    hide After, Revision;
    var w := After(s, vault, events[..k]).workers[n];
    j := CheckWasPassed(s, vault, events, k, n);
    i := RevisionWasRead(s, vault, events, j, n);
    CommittedRevision(After(s, vault, events[..j]).cell.memory, w.id, w.phase.revision);
    forall m | i <= m <= j ensures Revision(After(s, vault, events[..m]).cell.memory, w.id) == w.phase.revision {
      QueryRevisionsGrow(s, vault, events, i, m, w.id);
      QueryRevisionsGrow(s, vault, events, m, j, w.id);
    }
  }

  /* ---------- what the store holds ---------- */

  /** The same data, evaluated again or read back from the file. */
  predicate StemsFrom(x: Tracked, y: Tracked) {
    x.seen == y.seen && x.snapshot == y.snapshot.(status := x.snapshot.status, base := x.snapshot.base)
  }

  /** Event k is a worker storing, under the id, what x stems from. */
  ghost predicate PutAt(s: State, vault: Vault, events: seq<Event>, k: nat, id: string, x: Tracked)
    requires k < |events|
  {
    var at := After(s, vault, events[..k]);
    && events[k].PutItem? && events[k].worker in at.workers && at.workers[events[k].worker].phase.Ready?
    && at.workers[events[k].worker].id == id && StemsFrom(x, at.workers[events[k].worker].phase.item)
  }

  /** Everything held comes from a worker that stored it. */
  ghost predicate Traced(s: State, vault: Vault, events: seq<Event>, held: Store<Tracked>) {
    forall id, x | Holds(held, id, x) :: exists k :: 0 <= k < |events| && PutAt(s, vault, events, k, id, x)
  }

  lemma TracedLater(s: State, vault: Vault, events: seq<Event>, held: Store<Tracked>)
    requires events != [] && Traced(s, vault, events[..|events| - 1], held)
    ensures Traced(s, vault, events, held)
  {
    hide After, StemsFrom, Holds;
    var before := events[..|events| - 1];
    forall id, x | Holds(held, id, x) ensures exists k :: 0 <= k < |events| && PutAt(s, vault, events, k, id, x) {
      var k :| 0 <= k < |before| && PutAt(s, vault, before, k, id, x);
      assert before[..k] == events[..k];
      assert PutAt(s, vault, events, k, id, x);
    }
  }

  /** Every item of one store stems from an item of the other, under the same id. */
  ghost predicate From(held: Store<Tracked>, was: Store<Tracked>) {
    forall id, x | Holds(held, id, x) :: exists y :: Holds(was, id, y) && StemsFrom(x, y)
  }

  lemma TracedFrom(s: State, vault: Vault, events: seq<Event>, held: Store<Tracked>, was: Store<Tracked>)
    requires Traced(s, vault, events, was) && From(held, was)
    ensures Traced(s, vault, events, held)
  {
    hide After, Holds;
    forall id, x | Holds(held, id, x) ensures exists k :: 0 <= k < |events| && PutAt(s, vault, events, k, id, x) {
      var y :| Holds(was, id, y) && StemsFrom(x, y);
      var k :| 0 <= k < |events| && PutAt(s, vault, events, k, id, y);
      assert PutAt(s, vault, events, k, id, x);
    }
  }

  lemma RereadStems(was: Store<Tracked>)
    ensures From(RereadAll(was), was)
  {
    var held := RereadAll(was);
    forall id, x | Holds(held, id, x) ensures exists y :: Holds(was, id, y) && StemsFrom(x, y) {
      if id in held.entries && held.entries[id] == x {
        assert Holds(was, id, was.entries[id]) && StemsFrom(x, was.entries[id]);
      } else {
        var i :| 0 <= i < |held.history[id]| && held.history[id][i] == x;
        assert Holds(was, id, was.history[id][i]) && StemsFrom(x, was.history[id][i]);
      }
    }
  }

  lemma ReevaluationStems(was: Store<Tracked>, t: Thresholds, num: S.Reader)
    ensures From(Reevaluated(was, t, num), was)
  {
    hide T.Infer, T.Evaluate;
    var held := Reevaluated(was, t, num);
    forall id, x | Holds(held, id, x) ensures exists y :: Holds(was, id, y) && StemsFrom(x, y) {
      if id in held.entries && held.entries[id] == x {
        assert Holds(was, id, was.entries[id]) && StemsFrom(x, was.entries[id]);
      } else {
        assert Holds(was, id, x) && StemsFrom(x, x);
      }
    }
  }

  lemma RemovalStems(was: Store<Tracked>, id: string, keep: set<string>)
    ensures From(Delete(was, id), was) && From(RemoveActive(was, id), was) && From(Prune(was, keep), was)
  {
    hide Holds, Delete, RemoveActive, Prune;
    RemovalAddsNothing(was, id, keep);
    assert forall x :: StemsFrom(x, x);
  }

  /** What one event does to the store, apart from a worker storing. */
  lemma StoreStems(s: State, vault: Vault, e: Event)
    requires !e.PutItem?
    ensures var s' := Next(s, vault, e);
            From(s'.store, s.store) || From(s'.store, s.saved) || s'.store == EMPTY_STORE
  {
    hide From, Commits.Commit, Commits.Mutate, Reevaluated, RereadAll, Delete, RemoveActive, Prune, Item,
      Commits.Loaded, CanCommitQueryResult, ReadAdapter, ReadPat;
    StoreStemsFromItself(s.store);
    RereadStems(s.saved);
    match e {
      case DeleteAccount(id) => RemovalStems(s.store, id, {});
      case RemoveActiveEntry(id) => RemovalStems(s.store, id, {});
      case PruneEntries(keep) => RemovalStems(s.store, "", keep);
      case Reevaluate(t, num) => ReevaluationStems(s.store, t, num);
      case _ =>
    }
  }

  lemma StoreStemsFromItself(was: Store<Tracked>)
    ensures From(was, was)
  {
    hide Holds;
    assert forall x :: StemsFrom(x, x);
  }

  lemma NothingTraced(s: State, vault: Vault, events: seq<Event>)
    ensures Traced(s, vault, events, EMPTY_STORE)
  {
  }

  lemma FilesStem(s: State, vault: Vault, e: Event)
    ensures var s' := Next(s, vault, e);
            && (s'.captured == s.captured || s'.captured == s.store || s'.captured == EMPTY_STORE)
            && (s'.saved == s.saved || s'.saved == s.captured)
  {
    hide Commits.Commit, Commits.Mutate, Reevaluated, RereadAll, Item, Commits.Loaded, CanCommitQueryResult,
      ReadAdapter, ReadPat, Put;
  }

  lemma PutIsTraced(s: State, vault: Vault, events: seq<Event>)
    requires events != [] && events[|events| - 1].PutItem?
    requires StateSound(After(s, vault, events[..|events| - 1]), vault.key)
    requires Traced(s, vault, events, After(s, vault, events[..|events| - 1]).store)
    ensures Traced(s, vault, events, After(s, vault, events).store)
  {
    hide Holds, StoreSound, CallsSound, Sound, Put, Revision;
    var k := |events| - 1;
    var at, n := After(s, vault, events[..k]), events[k].worker;
    if n in at.workers && at.workers[n].phase.Ready? {
      WorkerIsSound(at, n, vault.key);
      var w := at.workers[n];
      OnlyPutAdds(at.store, w.id, w.phase.item);
      assert PutAt(s, vault, events, k, w.id, w.phase.item);
    }
  }

  /** In every reachable state everything in the store, in the copy being saved and in the file
      was stored by some worker's PutItem. */
  lemma {:induction false} AllIsTraced(s: State, vault: Vault, events: seq<Event>)
    requires Start(s)
    ensures var s' := After(s, vault, events);
            Traced(s, vault, events, s'.store) && Traced(s, vault, events, s'.captured)
                && Traced(s, vault, events, s'.saved)
  {
    hide Next, Traced, StateSound, Consistent, DiskAdvances, From, Start;
    NothingTraced(s, vault, events);
    if events == [] {
      StartIsEmpty(s);
    } else {
      var before := events[..|events| - 1];
      var was, e := After(s, vault, before), events[|events| - 1];
      AllIsTraced(s, vault, before);
      TracedLater(s, vault, events, was.store);
      TracedLater(s, vault, events, was.captured);
      TracedLater(s, vault, events, was.saved);
      FilesStem(was, vault, e);
      if e.PutItem? {
        StartIsSound(s, vault.key);
        RunKeepsSound(s, vault, before);
        PutIsTraced(s, vault, events);
      } else {
        StoreStems(was, vault, e);
        var held := After(s, vault, events).store;
        if From(held, was.store) { TracedFrom(s, vault, events, held, was.store); }
        if From(held, was.saved) { TracedFrom(s, vault, events, held, was.saved); }
      }
    }
  }

  lemma StartIsEmpty(s: State)
    requires Start(s)
    ensures s.store == s.captured == s.saved == EMPTY_STORE
  {
  }

  /** Whatever the store holds for an account was stored by a worker whose check found the
      account known and monitored and its query revision the same as ever since the worker read
      it. */
  lemma HeldIsBacked(s: State, vault: Vault, events: seq<Event>, id: string, x: Tracked)
    returns (i: nat, j: nat, k: nat)
    requires Start(s) && Holds(After(s, vault, events).store, id, x)
    ensures i < j < k < |events| && PutAt(s, vault, events, k, id, x)
    ensures events[i] == ReadRevision(events[k].worker) && events[j] == Check(events[k].worker)
    ensures var d := After(s, vault, events[..j]).cell.memory; BoolAt(d.known, id) && BoolAt(d.monitored, id)
    ensures forall m | i <= m <= j ::
              Revision(After(s, vault, events[..m]).cell.memory, id) ==
                  Revision(After(s, vault, events[..i]).cell.memory, id)
  {
    hide After, Revision, Holds, Start, StemsFrom;
    AllIsTraced(s, vault, events);
    k :| 0 <= k < |events| && PutAt(s, vault, events, k, id, x);
    i, j := StoreIsBacked(s, vault, events, k, events[k].worker);
  }

  lemma CommittedRevision(d: Prefs, id: string, revision: int)
    requires CanCommitQueryResult(d, id, revision)
    ensures Revision(d, id) == revision
  {
  }

  predicate PastCheck(p: Phase) { p.Approved? || p.Ready? || p.Stored? }

  lemma NoRestart(s: State, vault: Vault, e: Event, n: nat)
    requires n in s.workers && !s.workers[n].phase.Started?
    ensures n in Next(s, vault, e).workers && !Next(s, vault, e).workers[n].phase.Started?
  {
    hide Commits.Commit, Commits.Mutate, Reevaluated, Item, Put, Revision, CanCommitQueryResult, ReadAdapter, ReadPat,
      Owned, KeyOf;
  }

  lemma {:induction false} NeverRestarts(s: State, vault: Vault, events: seq<Event>, m: nat, k: nat, n: nat)
    requires m <= k <= |events|
    requires n in After(s, vault, events[..m]).workers && !After(s, vault, events[..m]).workers[n].phase.Started?
    ensures n in After(s, vault, events[..k]).workers && !After(s, vault, events[..k]).workers[n].phase.Started?
    decreases k
  {
    hide Next;
    if m == k {
    } else {
      assert events[..k][..k - 1] == events[..k - 1];
      NeverRestarts(s, vault, events, m, k - 1, n);
      NoRestart(After(s, vault, events[..k - 1]), vault, events[k - 1], n);
    }
  }

  /** Once read, a worker's revision and account stay the same as long as it has one, and a
      check once passed stays passed. */
  lemma {:induction false} SameWorker(s: State, vault: Vault, events: seq<Event>, m: nat, k: nat, n: nat)
    requires m <= k <= |events|
    requires n in After(s, vault, events[..m]).workers && HasRevision(After(s, vault, events[..m]).workers[n].phase)
    requires n in After(s, vault, events[..k]).workers && HasRevision(After(s, vault, events[..k]).workers[n].phase)
    ensures var w, w' := After(s, vault, events[..m]).workers[n], After(s, vault, events[..k]).workers[n];
            && w.id == w'.id && w.phase.revision == w'.phase.revision
            && (PastCheck(w.phase) ==> PastCheck(w'.phase))
    decreases k
  {
    hide Next;
    if m == k {
    } else {
      assert events[..k][..k - 1] == events[..k - 1];
      var before := After(s, vault, events[..k - 1]);
      NeverRestarts(s, vault, events, m, k - 1, n);
      WorkerChanges(before, vault, events[k - 1], n);
      SameWorker(s, vault, events, m, k - 1, n);
      if PastCheck(before.workers[n].phase) { CheckStaysPassed(before, vault, events[k - 1], n); }
    }
  }

  /** The worker gives up at this event: its refresh is cancelled while it waits for somebody else's
      call or for its own check, or its check finds the account unknown, not monitored or raised. */
  ghost predicate GivesUp(s: State, e: Event, n: nat) {
    && n in s.workers
    && var w, d := s.workers[n], s.cell.memory;
       || (e == Cancel(n) && (w.phase.Following? || w.phase.Answered?))
       || (e == Check(n) && w.phase.Answered? && s.lock.None?
           && (|| !BoolAt(d.known, w.id) || !BoolAt(d.monitored, w.id)
               || IntAt(d.queryRevisions, w.id) != w.phase.revision))
  }

  lemma GivingUpSkips(s: State, vault: Vault, e: Event, n: nat)
    requires GivesUp(s, e, n) || (n in s.workers && s.workers[n].phase.Skipped?)
    ensures n in Next(s, vault, e).workers && Next(s, vault, e).workers[n].phase.Skipped?
  {
    hide Commits.Commit, Commits.Mutate, Reevaluated, Item, Put, Revision, ReadAdapter, ReadPat, Owned, KeyOf;
  }

  /** A worker that gives up is out for good, whatever happens later: it never enters the section
      again and never stores. */
  lemma {:induction false} GaveUpNeverStores(s: State, vault: Vault, events: seq<Event>, m: nat, k: nat, n: nat)
    requires m < k <= |events| && GivesUp(After(s, vault, events[..m]), events[m], n)
    ensures var s' := After(s, vault, events[..k]); n in s'.workers && s'.workers[n].phase.Skipped?
    decreases k
  {
    hide Next, GivesUp;
    assert events[..k][..k - 1] == events[..k - 1];
    if k == m + 1 {
      var before := After(s, vault, events[..m]);
      GivingUpSkips(before, vault, events[m], n);
    } else {
      GaveUpNeverStores(s, vault, events, m, k - 1, n);
      GivingUpSkips(After(s, vault, events[..k - 1]), vault, events[k - 1], n);
    }
  }

  lemma CheckStaysPassed(s: State, vault: Vault, e: Event, n: nat)
    requires n in s.workers && PastCheck(s.workers[n].phase)
    ensures n in Next(s, vault, e).workers
    ensures PastCheck(Next(s, vault, e).workers[n].phase) || Next(s, vault, e).workers[n].phase.Skipped?
  {
    hide Commits.Commit, Commits.Mutate, Reevaluated, Item, Put, Revision, CanCommitQueryResult, ReadAdapter, ReadPat,
      Owned, KeyOf;
  }

  /** A worker that has its revision at m and has passed its check by k either had passed it
      at m already, or event m did not raise the revision. */
  lemma PassedMeansNotRaised(s: State, vault: Vault, events: seq<Event>, m: nat, k: nat, n: nat)
    requires Start(s) && m < k <= |events|
    requires n in After(s, vault, events[..m]).workers && HasRevision(After(s, vault, events[..m]).workers[n].phase)
    requires n in After(s, vault, events[..k]).workers && PastCheck(After(s, vault, events[..k]).workers[n].phase)
    ensures var w := After(s, vault, events[..m]).workers[n];
            || PastCheck(w.phase)
            || Revision(After(s, vault, events[..m + 1]).cell.memory, w.id) <= w.phase.revision
  {
    hide Next, Revision, CanCommitQueryResult;
    SameWorker(s, vault, events, m, k, n);
    var w := After(s, vault, events[..m]).workers[n];
    var j := CheckWasPassed(s, vault, events, k, n);
    CommittedRevision(After(s, vault, events[..j]).cell.memory, w.id, w.phase.revision);
    if j < m {
      SameWorker(s, vault, events, j + 1, m, n);
    } else {
      if j == m {
        assert events[..m + 1][..m] == events[..m];
        CellUntouched(After(s, vault, events[..m]), vault, events[m]);
      } else {
        QueryRevisionsGrow(s, vault, events, m + 1, j, w.id);
      }
    }
  }

  /** A worker that has read its revision when that revision is raised, and has not passed its
      check by then, never stores anything. */
  lemma OvertakenNeverStores(s: State, vault: Vault, events: seq<Event>, m: nat, k: nat, n: nat)
    requires Start(s) && m < k <= |events|
    requires var at := After(s, vault, events[..m]);
             && n in at.workers && HasRevision(at.workers[n].phase) && !PastCheck(at.workers[n].phase)
             && Revision(After(s, vault, events[..m + 1]).cell.memory, at.workers[n].id) > Revision(at.cell.memory,
                at.workers[n].id)
    ensures n in After(s, vault, events[..k]).workers && !PastCheck(After(s, vault, events[..k]).workers[n].phase)
  {
    hide After, Revision, Consistent, CallsSound, StoreSound, Sound;
    var at := After(s, vault, events[..m]);
    StartIsSound(s, vault.key);
    RunKeepsSound(s, vault, events[..m]);
    WorkerIsSound(at, n, vault.key);
    NeverRestarts(s, vault, events, m, k, n);
    if PastCheck(After(s, vault, events[..k]).workers[n].phase) {
      PassedMeansNotRaised(s, vault, events, m, k, n);
    }
  }

  lemma PublishedAt(s: State, vault: Vault, events: seq<Event>, m: nat, op: Commits.Op, expected: Option<int>,
      write: Storage.WriteOutcome)
    requires m < |events| && events[m] == CommitOp(op, expected, write) && Refreshable(op)
    ensures var before := After(s, vault, events[..m]).cell;
            After(s, vault, events[..m + 1]).cell
            == Commits.Commit(before, expected, Commits.Mutate(op, vault, before.memory), write).0
  {
    hide Commits.Commit, Commits.Mutate;
    assert events[..m + 1][..m] == events[..m];
  }

  /** A cleanup that is written stops every worker of the accounts it names that has read its
      revision and not passed its check. */
  lemma CleanupStopsWorker(s: State, vault: Vault, events: seq<Event>, m: nat, k: nat, n: nat, ids: seq<string>,
      write: Storage.WriteOutcome)
    requires Start(s) && m < k <= |events| && events[m] == CommitOp(Commits.Invalidate(ids), None, write)
    requires var at := After(s, vault, events[..m]);
             && n in at.workers && HasRevision(at.workers[n].phase) && !PastCheck(at.workers[n].phase)
             && (at.cell.hasPath ==> write.Written?)
             && at.workers[n].id != "" && exists raw | raw in ids :: Trim(raw) == at.workers[n].id
    ensures n in After(s, vault, events[..k]).workers && !PastCheck(After(s, vault, events[..k]).workers[n].phase)
  {
    hide After, Trim, Commits.Commit, Commits.Mutate, Revision;
    var at := After(s, vault, events[..m]);
    var op := Commits.Invalidate(ids);
    PublishedAt(s, vault, events, m, op, None, write);
    Commits.CommitRaisesRevisionByOne(at.cell, vault, op, None, write);
    CleanupChanges(at.cell.memory, vault, ids, at.workers[n].id);
    CleanupRaises(at.cell, vault, ids, write, at.workers[n].id);
    OvertakenNeverStores(s, vault, events, m, k, n);
  }

  lemma CleanupChanges(d: Prefs, vault: Vault, ids: seq<string>, id: string)
    requires id != "" && exists raw | raw in ids :: Trim(raw) == id
    ensures var m := Commits.Mutate(Commits.Invalidate(ids), vault, d); m.Done? && m.changed
  {
    hide Trim, NormalOrder;
    Commits.NormalOrderMembers(ids, id);
  }

  /** Event m is a batch that is published: mutations, thresholds and expected revision as the
      caller gives them. */
  ghost predicate BatchPublished(s: State, vault: Vault, events: seq<Event>, m: nat, ms: seq<Mutation>,
      wanted: Option<Thresholds>, now: int)
  {
    && m < |events| && events[m].CommitOp? && events[m].op == Commits.Batch(ms, wanted, now)
    && var at := After(s, vault, events[..m]).cell;
       Commits.Commit(at, events[m].expected, Commits.Mutate(events[m].op, vault, at.memory),
           events[m].write).1.Published?
  }

  /** A published batch stops every worker that has read its revision and not passed its check
      and whose account one of its mutations raises when its turn comes. */
  lemma BatchStopsWorker(s: State, vault: Vault, events: seq<Event>, m: nat, k: nat, n: nat,
      ms: seq<Mutation>, wanted: Option<Thresholds>, now: int, i: nat)
    requires Start(s) && m < k <= |events| && BatchPublished(s, vault, events, m, ms, wanted, now) && i < |ms|
    requires var at := After(s, vault, events[..m]);
             && n in at.workers && HasRevision(at.workers[n].phase) && !PastCheck(at.workers[n].phase)
             && at.workers[n].id == ms[i].id && RaisesAt(at.cell.memory, ms, i, now, vault.key)
    ensures n in After(s, vault, events[..k]).workers && !PastCheck(After(s, vault, events[..k]).workers[n].phase)
  {
    hide After, Commits.Commit, Commits.Mutate, Revision, RaisesAt;
    var at := After(s, vault, events[..m]);
    PublishedAt(s, vault, events, m, events[m].op, events[m].expected, events[m].write);
    BatchRaises(at.cell, vault, ms, wanted, now, events[m].expected, events[m].write, i);
    OvertakenNeverStores(s, vault, events, m, k, n);
  }

  /** In particular, switching an account's monitoring, as in unmonitoring it, stops its waiting
      workers, wherever in the batch the switch stands. */
  lemma SwitchingStopsWorker(s: State, vault: Vault, events: seq<Event>, m: nat, k: nat, n: nat,
      ms: seq<Mutation>, wanted: Option<Thresholds>, now: int, i: nat)
    requires Start(s) && m < k <= |events| && BatchPublished(s, vault, events, m, ms, wanted, now) && i < |ms|
    requires var at := After(s, vault, events[..m]);
             && n in at.workers && HasRevision(at.workers[n].phase) && !PastCheck(at.workers[n].phase)
             && at.workers[n].id == ms[i].id && SwitchesAt(at.cell.memory, ms, i, now, vault.key)
    ensures n in After(s, vault, events[..k]).workers && !PastCheck(After(s, vault, events[..k]).workers[n].phase)
  {
    hide After, Commits.Commit, Commits.Mutate, Revision, SwitchesAt;
    var at := After(s, vault, events[..m]);
    PublishedAt(s, vault, events, m, events[m].op, events[m].expected, events[m].write);
    SwitchingRaises(at.cell, vault, ms, wanted, now, events[m].expected, events[m].write, i);
    OvertakenNeverStores(s, vault, events, m, k, n);
  }

  /** The check is the line: a worker past it still stores after the account was cleaned up. */
  lemma ApprovedWorkerStillStores(s: State, vault: Vault, n: nat)
    requires n in s.workers && s.workers[n].phase.Ready? && s.workers[n].id != ""
    requires s.workers[n].phase.item.snapshot.accountId == s.workers[n].id
    ensures var w := s.workers[n];
            var s' := After(s, vault, [DeleteAccount(w.id), PutItem(n)]);
            w.id in s'.store.entries && s'.store.entries[w.id] == w.phase.item
                && HistoryOf(s'.store, w.id) == [w.phase.item]
  {
    var w := s.workers[n];
    var events := [DeleteAccount(w.id), PutItem(n)];
    assert events[..1] == [events[0]] && [events[0]][..0] == [];
    assert After(s, vault, events[..1]) == Next(After(s, vault, []), vault, events[0]);
    assert HistoryOf(Delete(s.store, w.id), w.id) == [];
  }
}
