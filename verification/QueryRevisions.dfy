/** An account's query revision as a lock on what a query of it reads: as long as the revision
    stays the same, so do the adapter and the credential. */
module QueryRevisions {
  import opened Options
  import opened Text
  import opened Storage
  import opened Preferences
  import opened Commits
  import opened Batches

  function Revision(d: Prefs, id: string): int { IntAt(d.queryRevisions, id) }

  /** The stored settings behind what a query reads. */
  ghost function Settings(d: Prefs, id: string): (Option<string>, Option<Cipher>, bool) {
    (Lookup(d.adapters, id), Lookup(d.pats, id), BoolAt(d.relink, id))
  }

  /** Going from d to d' never lowers the account's revision and leaves its settings alone
      unless it raises it. */
  ghost predicate Advances(d: Prefs, d': Prefs, id: string) {
    Revision(d, id) <= Revision(d', id) && (Revision(d, id) == Revision(d', id) ==> Settings(d, id) == Settings(d', id))
  }

  /** Equal settings are read as equal adapters and credentials. */
  lemma SettingsDecideReads(d: Prefs, d': Prefs, key: Option<nat>, id: string)
    requires Settings(d, id) == Settings(d', id)
    ensures ReadAdapter(d, id) == ReadAdapter(d', id) && ReadPat(d, key, id) == ReadPat(d', key, id)
  {
    assert TextAt(d.adapters, id) == TextAt(d'.adapters, id);
    assert CipherAt(d.pats, id) == CipherAt(d'.pats, id);
  }

  lemma EnsureKnownKeepsSettings(d: Prefs, id: string, value: bool, now: int, k: string)
    ensures Settings(EnsureKnown(d, id, value, now).0, k) == Settings(d, k)
  {
    hide EnsureKnown;
  }

  lemma OtherAccountsUntouched(d: Prefs, m: Mutation, now: int, key: Option<nat>, id: string)
    requires id != m.id
    ensures var r := ApplyMutation(d, m, now, key); r.Done? ==> Settings(r.data, id) == Settings(d, id)
  {
    hide EnsureKnown, SetMonitored, SetName, Trim, ToLower;
  }

  lemma MutationAdvances(d: Prefs, m: Mutation, now: int, key: Option<nat>, id: string)
    ensures var r := ApplyMutation(d, m, now, key); r.Done? ==> Advances(d, r.data, id)
  {
    MutationRaisesExactly(d, m, now, key, id);
    EnsureKnownKeepsSettings(d, m.id, true, now, id);
    if id != m.id { OtherAccountsUntouched(d, m, now, key, id); }
    hide ApplyMutation, EnsureKnown, Replaces;
  }

  lemma {:induction false} MutationsAdvance(d: Prefs, ms: seq<Mutation>, now: int, key: Option<nat>, id: string)
    ensures var r := ApplyMutations(d, ms, now, key); r.Done? ==> Advances(d, r.data, id)
  {
    hide ApplyMutation, Settings;
    if ms == [] {
    } else {
      var n := |ms| - 1;
      MutationsAdvance(d, ms[..n], now, key, id);
      var before := ApplyMutations(d, ms[..n], now, key);
      if before.Done? { MutationAdvances(before.data, ms[n], now, key, id); }
    }
  }

  lemma {:induction false} InvalidateRaisesExactly(d: Prefs, ids: seq<string>, id: string)
    ensures Revision(InvalidateIds(d, ids), id) == Revision(d, id) + if id in NormalOrder(ids) then 1 else 0
  {
    hide Trim;
    if ids == [] {
    } else {
      InvalidateRaisesExactly(d, ids[..|ids| - 1], id);
    }
  }

  lemma {:induction false} ReconcileKeepsSettings(d: Prefs, defaults: seq<(string, bool)>, now: int, id: string)
    ensures var d' := ReconcileKnown(d, defaults, now).0;
            Settings(d', id) == Settings(d, id) && Revision(d', id) == Revision(d, id)
  {
    hide EnsureKnown;
    if defaults == [] {
    } else {
      var before := ReconcileKnown(d, defaults[..|defaults| - 1], now).0;
      ReconcileKeepsSettings(d, defaults[..|defaults| - 1], now, id);
      var (last, value) := defaults[|defaults| - 1];
      EnsureKnownKeepsSettings(before, last, value, now, id);
    }
  }

  lemma ThresholdsKeepSettings(d: Prefs, wanted: Option<Thresholds>, id: string)
    ensures var d' := SetThresholdsTo(d, wanted).0;
            Settings(d', id) == Settings(d, id) && Revision(d', id) == Revision(d, id)
  {
    hide ThresholdsLookEqual;
  }

  /** Identity resolution and legacy credential moves are meant for ids not queried yet. */
  predicate Refreshable(op: Op) { !op.Resolve? && !op.MigratePat? }

  lemma MutateAdvances(op: Op, vault: Vault, d: Prefs, id: string)
    requires Refreshable(op)
    ensures var m := Mutate(op, vault, d); m.Done? ==> Advances(d, m.data, id)
  {
    hide ApplyMutations, InvalidateIds, ReconcileKnown, NormalOrder, Trim, SetThresholdsTo, DismissAlert,
      ReconcileDismissed, FirstError;
    match op {
      case Batch(ms, wanted, now) => MutationsAdvance(d, ms, now, vault.key, id);
      case UpdateThresholds(t) => ThresholdsKeepSettings(d, Some(t), id);
      case Invalidate(ids) =>
        InvalidateKeepsRevision(d, ids);
        InvalidateRaisesExactly(d, ids, id);
      case Reconcile(defaults, now) => ReconcileKeepsSettings(d, defaults, now, id);
      case _ =>
    }
  }

  /** Committing keeps the lock, whatever happens to the write. */
  lemma CommitAdvances(c: Cell, vault: Vault, op: Op, expected: Option<int>, w: WriteOutcome, id: string)
    requires Refreshable(op)
    ensures Advances(c.memory, Commit(c, expected, Mutate(op, vault, c.memory), w).0.memory, id)
  {
    hide Mutate, NormalOrder;
    MutateAdvances(op, vault, c.memory, id);
  }

  /** Reading the file instead of what is published would keep the lock. */
  ghost predicate DiskAdvances(c: Cell) { c.hasPath && forall id :: Advances(c.memory, Loaded(c.disk), id) }

  lemma SuccessorAdvances(d: Prefs, data: Prefs, id: string)
    requires Advances(d, data, id)
    ensures Advances(d, Successor(data), id)
  {
    hide NormalOrder;
  }

  /** The file never falls behind, even when a commit's write failed half-way. */
  lemma CommitKeepsDisk(c: Cell, vault: Vault, op: Op, expected: Option<int>, w: WriteOutcome)
    requires Refreshable(op) && DiskAdvances(c)
    ensures DiskAdvances(Commit(c, expected, Mutate(op, vault, c.memory), w).0)
  {
    hide Mutate, Advances, Loaded, Successor;
    var m := Mutate(op, vault, c.memory);
    if m.Done? {
      SuccessorLoads(m.data);
      forall id ensures Advances(c.memory, Successor(m.data), id)
          && Advances(Successor(m.data), Successor(m.data), id) {
        MutateAdvances(op, vault, c.memory, id);
        SuccessorAdvances(c.memory, m.data, id);
        AdvancesItself(Successor(m.data), id);
      }
    }
  }

  lemma AdvancesItself(d: Prefs, id: string)
    ensures Advances(d, d, id)
  {
  }

  /** A cleanup that is published raises the revision of every account it names. */
  lemma CleanupRaises(c: Cell, vault: Vault, ids: seq<string>, w: WriteOutcome, id: string)
    requires id != "" && exists raw | raw in ids :: Trim(raw) == id
    ensures var (c', reply) := Commit(c, None, Mutate(Invalidate(ids), vault, c.memory), w);
            reply.Published? ==> Revision(c'.memory, id) == Revision(c.memory, id) + 1
  {
    hide Trim, NormalOrder;
    InvalidateRaisesExactly(c.memory, ids, id);
    NormalOrderMembers(ids, id);
  }

  /** A published batch raises the account of every mutation that raises it when its turn
      comes, whatever else the batch holds. */
  lemma BatchRaises(c: Cell, vault: Vault, ms: seq<Mutation>, wanted: Option<Thresholds>, now: int,
      expected: Option<int>, w: WriteOutcome, k: nat)
    requires k < |ms| && RaisesAt(c.memory, ms, k, now, vault.key)
    ensures var (c', reply) := Commit(c, expected, Mutate(Batch(ms, wanted, now), vault, c.memory), w);
            reply.Published? ==> Revision(c'.memory, ms[k].id) > Revision(c.memory, ms[k].id)
  {
    hide ApplyMutations, SetThresholdsTo, NormalOrder, Raises, FirstError, RaisesAt;
    RaiseIsCounted(c.memory, ms, k, now, vault.key);
    BatchRaisesExactly(c.memory, ms, now, vault.key, ms[k].id);
  }

  /** So does every mutation that switches its account's monitoring. */
  lemma SwitchingRaises(c: Cell, vault: Vault, ms: seq<Mutation>, wanted: Option<Thresholds>, now: int,
      expected: Option<int>, w: WriteOutcome, k: nat)
    requires k < |ms| && SwitchesAt(c.memory, ms, k, now, vault.key)
    ensures var (c', reply) := Commit(c, expected, Mutate(Batch(ms, wanted, now), vault, c.memory), w);
            reply.Published? ==> Revision(c'.memory, ms[k].id) > Revision(c.memory, ms[k].id)
  {
    hide ApplyMutations, SetThresholdsTo, NormalOrder, Raises, RaisesAt, SwitchesAt, FirstError;
    if Commit(c, expected, Mutate(Batch(ms, wanted, now), vault, c.memory), w).1.Published? {
      SwitchingRaisesAt(c.memory, ms, k, now, vault.key);
      BatchRaises(c, vault, ms, wanted, now, expected, w, k);
    }
  }
}
