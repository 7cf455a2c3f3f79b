/** What a provider batch means: all or nothing, the same as its mutations one by one,
    and exact about which accounts' query revisions it raises. */
module Batches {
  import opened Options
  import opened Text
  import opened Storage
  import opened Preferences
  import opened Commits

  predicate Replaces(m: Mutation) { ToLower(Trim(m.patAction)) == "replace" }

  /** A batch is accepted. */
  predicate ValidBatch(ms: seq<Mutation>, key: Option<nat>) {
    forall m | m in ms :: MutationError(m).None? && (Replaces(m) ==> key.Some?)
  }

  lemma {:induction false} FirstErrorFindsAny(ms: seq<Mutation>)
    ensures FirstError(ms).None? <==> forall m | m in ms :: MutationError(m).None?
  {
    hide MutationError;
    if ms == [] {
    } else {
      var n := |ms| - 1;
      FirstErrorFindsAny(ms[..n]);
      assert forall m :: m in ms <==> m in ms[..n] || m == ms[n];
    }
  }

  /** The first invalid mutation decides the error, and the batch fails with it. */
  lemma {:induction false} FirstErrorExactly(d: Prefs, ms: seq<Mutation>, wanted: Option<Thresholds>, now: int,
      key: Option<nat>, k: nat)
    requires k < |ms| && MutationError(ms[k]).Some? && forall i | 0 <= i < k :: MutationError(ms[i]).None?
    ensures FirstError(ms) == MutationError(ms[k])
    ensures ApplyBatch(d, ms, wanted, now, key) == Failed(MutationError(ms[k]).value)
  {
    hide MutationError, ApplyMutations;
    var n := |ms| - 1;
    if k == n {
      FirstErrorFindsAny(ms[..n]);
      assert FirstError(ms[..n]).None?;
    } else {
      FirstErrorExactly(d, ms[..n], wanted, now, key, k);
    }
  }

  /** What a valid mutation is: it names an account; its credential action, whatever its case and
      spaces, is one of the three or none; a custom name has at most eighty characters and no
      control character; the adapter is not both cleared and set; a replaced credential is given,
      and none is given to be cleared. */
  lemma ValidExactly(m: Mutation)
    ensures MutationError(m).None? <==>
              var action := ToLower(Trim(m.patAction));
              && Trim(m.id) != "" && action in {"", "keep", "replace", "clear"}
              && (m.customName.Some? ==>
                    && |Trim(m.customName.value)| <= 80
                    && forall c | c in Trim(m.customName.value) :: 32 <= c as int != 127)
              && (m.clearAdapter ==> Trim(m.adapter) == "")
              && (action == "replace" ==> Trim(m.pat) != "") && (action == "clear" ==> Trim(m.pat) == "")
  {
    hide Trim, ToLower;
  }

  /** The errors, in the order in which they are looked for. */
  lemma ErrorsExactly(m: Mutation)
    ensures var action, e := ToLower(Trim(m.patAction)), MutationError(m);
            && (e == Some(IdRequired) <==> Trim(m.id) == "")
            && (e == Some(UnsupportedPatAction) <==>
                  e != Some(IdRequired) && action !in {"", "keep", "replace", "clear"})
            && (e == Some(NameTooLong) <==>
                  e !in {Some(IdRequired), Some(UnsupportedPatAction)}
                  && m.customName.Some? && |Trim(m.customName.value)| > 80)
            && (e == Some(NameHasControl) ==>
               exists c | c in Trim(m.customName.value) :: c as int < 32 || c as int == 127)
            && (e == Some(AdapterConflict) ==> m.clearAdapter && Trim(m.adapter) != "")
            && (e == Some(PatRequired) ==> action == "replace" && Trim(m.pat) == "")
            && (e == Some(PatConflict) ==> action == "clear" && Trim(m.pat) != "")
  {
    hide Trim, ToLower;
  }

  lemma MutationFailsOnlyOnSealing(d: Prefs, m: Mutation, now: int, key: Option<nat>)
    ensures ApplyMutation(d, m, now, key).Done? <==> (Replaces(m) ==> key.Some?)
  {
    hide EnsureKnown, SetMonitored, SetAdapter, SetName;
  }

  lemma {:induction false} MutationsFailOnlyOnSealing(d: Prefs, ms: seq<Mutation>, now: int, key: Option<nat>)
    ensures ApplyMutations(d, ms, now, key).Done? <==> forall m | m in ms :: Replaces(m) ==> key.Some?
  {
    hide ApplyMutation, Replaces;
    if ms == [] {
    } else {
      var n := |ms| - 1;
      MutationsFailOnlyOnSealing(d, ms[..n], now, key);
      var before := ApplyMutations(d, ms[..n], now, key);
      if before.Done? { MutationFailsOnlyOnSealing(before.data, ms[n], now, key); }
      assert forall m :: m in ms <==> m in ms[..n] || m == ms[n];
    }
  }

  /** A batch fails exactly when one of its mutations is invalid or one replaces a
      credential while the key is unavailable; a commit of it then changes nothing. */
  lemma BatchAllOrNothing(c: Cell, vault: Vault, expected: Option<int>, ms: seq<Mutation>, wanted: Option<Thresholds>,
      now: int, w: WriteOutcome)
    ensures ApplyBatch(c.memory, ms, wanted, now, vault.key).Done? <==> ValidBatch(ms, vault.key)
    ensures !ValidBatch(ms, vault.key) ==>
              Commit(c, expected, Mutate(Batch(ms, wanted, now), vault, c.memory), w).0 == c
  {
    FirstErrorFindsAny(ms);
    MutationsFailOnlyOnSealing(c.memory, ms, now, vault.key);
  }

  /* ---------- "unchanged" ---------- */

  lemma EnsureKnownUnchanged(d: Prefs, id: string, value: bool, now: int)
    ensures var (d', changed) := EnsureKnown(d, id, value, now); !changed ==> d' == d
  {
  }

  lemma SettersUnchanged(d: Prefs, m: Mutation)
    ensures !SetMonitored(d.monitored, m.id, m.monitored).1 ==>
            SetMonitored(d.monitored, m.id, m.monitored).0 == d.monitored
    ensures !SetAdapter(d.adapters, m).1 ==> SetAdapter(d.adapters, m).0 == d.adapters
    ensures !SetName(d.names, m.id, m.customName).1 ==> SetName(d.names, m.id, m.customName).0 == d.names
  {
    hide Trim, ToLower;
    assert m.id !in d.adapters ==> d.adapters - {m.id} == d.adapters;
    assert m.id !in d.names ==> d.names - {m.id} == d.names;
  }

  lemma SetPatUnchanged(pats: map<string, Cipher>, relink: map<string, bool>, m: Mutation, key: Option<nat>)
    ensures var r := SetPat(pats, relink, m, key);
            r.Some? && !r.value.2 ==> r.value.0 == pats && r.value.1 == relink
  {
    hide Trim, ToLower;
    assert m.id !in pats ==> pats - {m.id} == pats;
  }

  lemma OneUnchangedMeansEqual(d: Prefs, m: Mutation, now: int, key: Option<nat>)
    ensures var r := ApplyMutation(d, m, now, key); r.Done? && !r.changed ==> r.data == d
  {
    var d0 := EnsureKnown(d, m.id, true, now).0;
    EnsureKnownUnchanged(d, m.id, true, now);
    SettersUnchanged(d0, m);
    SetPatUnchanged(d0.pats, d0.relink, m, key);
    hide EnsureKnown, SetMonitored, SetAdapter, SetPat, SetName;
  }

  lemma {:induction false} MutationsUnchangedMeansEqual(d: Prefs, ms: seq<Mutation>, now: int, key: Option<nat>)
    ensures var r := ApplyMutations(d, ms, now, key); r.Done? && !r.changed ==> r.data == d
  {
    hide ApplyMutation;
    if ms == [] {
    } else {
      var n := |ms| - 1;
      MutationsUnchangedMeansEqual(d, ms[..n], now, key);
      var before := ApplyMutations(d, ms[..n], now, key);
      if before.Done? { OneUnchangedMeansEqual(before.data, ms[n], now, key); }
    }
  }

  /** A batch reported as unchanged really left every preference as it was. */
  lemma UnchangedBatchIsEqual(d: Prefs, ms: seq<Mutation>, wanted: Option<Thresholds>, now: int, key: Option<nat>)
    ensures var r := ApplyBatch(d, ms, wanted, now, key); r.Done? && !r.changed ==> r.data == d
  {
    MutationsUnchangedMeansEqual(d, ms, now, key);
  }

  /* ---------- the threshold comparison ---------- */

  lemma SubsetOfSameSize<T>(a: set<T>, b: set<T>)
    requires a <= b && |a| == |b|
    ensures a == b
  {
    assert |b - a| == |b| - |a|;
    assert b - a == {};
  }

  ghost function Longest(keys: set<string>): (n: nat)
    ensures forall k | k in keys :: |k| <= n
  {
    if keys == {} then 0
    else
      var k :| k in keys;
      var n := Longest(keys - {k});
      if |k| > n then |k| else n
  }

  /** A key outside a finite set. */
  lemma FreshKey(keys: set<string>) returns (k: string)
    ensures k !in keys
  {
    k := seq(Longest(keys) + 1, i => 'x');
  }

  /** The stored rules are told apart from every other request exactly when none of them is
      the zero rule: a request that drops a zero rule and adds a new key looks equal, and is
      then silently not saved. */
  lemma RuleComparisonExact(stored: map<string, CashRule>)
    ensures (forall wanted :: RulesLookEqual(stored, wanted) <==> stored == wanted)
            <==> (forall k | k in stored :: stored[k] != ZERO_RULE)
  {
    if forall k | k in stored :: stored[k] != ZERO_RULE {
      forall wanted ensures RulesLookEqual(stored, wanted) <==> stored == wanted {
        if RulesLookEqual(stored, wanted) {
          assert forall k | k in stored :: RuleAt(wanted, k) == stored[k];
          assert stored.Keys <= wanted.Keys;
          assert |stored.Keys| == |stored| && |wanted.Keys| == |wanted|;
          SubsetOfSameSize(stored.Keys, wanted.Keys);
          assert forall k | k in stored :: wanted[k] == RuleAt(wanted, k);
        }
      }
    } else {
      var k :| k in stored && stored[k] == ZERO_RULE;
      var k' := FreshKey(stored.Keys);
      var rest := stored - {k};
      var wanted := rest[k' := CashRule("1", "0")];
      assert stored.Keys == rest.Keys + {k};
      assert |stored| == |stored.Keys| == |rest.Keys| + 1;
      assert wanted.Keys == rest.Keys + {k'};
      assert |wanted| == |wanted.Keys| == |rest.Keys| + 1;
      assert RulesLookEqual(stored, wanted);
      assert k' in wanted && stored != wanted;
    }
  }

  /** A concrete request that the comparison drops. */
  lemma LookEqualButDiffer()
    ensures var stored, wanted := map["a" := ZERO_RULE], map["b" := CashRule("5", "1")];
            RulesLookEqual(stored, wanted) && stored != wanted
  {
    var stored, wanted := map["a" := ZERO_RULE], map["b" := CashRule("5", "1")];
    assert "a" in stored && "a" !in wanted;
  }

  /* ---------- query revisions ---------- */

  /** The settings a query of the account depends on. */
  ghost function QueryKey(d: Prefs, id: string): (bool, Option<string>, Option<Cipher>, bool) {
    (BoolAt(d.monitored, id), Lookup(d.adapters, id), Lookup(d.pats, id), BoolAt(d.relink, id))
  }

  /** The mutation changes monitoring, adapter, credential or relink flag of its account
      beyond registering it; replacing a credential always counts. */
  ghost predicate Raises(d: Prefs, m: Mutation, now: int, key: Option<nat>) {
    var r := ApplyMutation(d, m, now, key);
    r.Done? && (Replaces(m) || QueryKey(r.data, m.id) != QueryKey(EnsureKnown(d, m.id, true, now).0, m.id))
  }

  ghost function RaiseCount(d: Prefs, ms: seq<Mutation>, now: int, key: Option<nat>, id: string): nat {
    if ms == [] then 0
    else
      var n := |ms| - 1;
      var before := ApplyMutations(d, ms[..n], now, key);
      RaiseCount(d, ms[..n], now, key, id)
      + if before.Done? && ms[n].id == id && Raises(before.data, ms[n], now, key) then 1 else 0
  }

  lemma SetMonitoredReports(monitored: map<string, bool>, id: string, wanted: Option<bool>)
    ensures var (monitored', changed) := SetMonitored(monitored, id, wanted);
            changed <==> BoolAt(monitored', id) != BoolAt(monitored, id)
  {
  }

  lemma SetAdapterReports(adapters: map<string, string>, m: Mutation)
    ensures var (adapters', changed) := SetAdapter(adapters, m);
            changed <==> Lookup(adapters', m.id) != Lookup(adapters, m.id)
  {
    hide Trim, ToLower;
  }

  lemma SetPatReports(pats: map<string, Cipher>, relink: map<string, bool>, m: Mutation, key: Option<nat>)
    ensures var r := SetPat(pats, relink, m, key);
            r.Some? ==>
              var (pats', relink', changed) := r.value;
              changed <==> Replaces(m)
                           || Lookup(pats', m.id) != Lookup(pats, m.id)
                           || BoolAt(relink', m.id) != BoolAt(relink, m.id)
  {
  }

  lemma MutationRaisesExactly(d: Prefs, m: Mutation, now: int, key: Option<nat>, id: string)
    ensures var r := ApplyMutation(d, m, now, key);
            r.Done? ==>
              IntAt(r.data.queryRevisions, id) ==
              IntAt(d.queryRevisions, id) + if id == m.id && Raises(d, m, now, key) then 1 else 0
  {
    var d0 := EnsureKnown(d, m.id, true, now).0;
    SetMonitoredReports(d0.monitored, m.id, m.monitored);
    SetAdapterReports(d0.adapters, m);
    SetPatReports(d0.pats, d0.relink, m, key);
    hide EnsureKnown, SetMonitored, SetAdapter, SetPat, SetName, Replaces;
  }

  /** A batch raises each account's query revision by the number of its mutations that
      changed what a query of that account depends on. */
  lemma {:induction false} BatchRaisesExactly(d: Prefs, ms: seq<Mutation>, now: int, key: Option<nat>, id: string)
    ensures var r := ApplyMutations(d, ms, now, key);
            r.Done? ==>
              IntAt(r.data.queryRevisions, id) == IntAt(d.queryRevisions, id) + RaiseCount(d, ms, now, key, id)
  {
    hide ApplyMutation, Raises;
    if ms == [] {
    } else {
      var n := |ms| - 1;
      BatchRaisesExactly(d, ms[..n], now, key, id);
      var before := ApplyMutations(d, ms[..n], now, key);
      if before.Done? { MutationRaisesExactly(before.data, ms[n], now, key, id); }
    }
  }

  lemma {:induction false} PrefixDone(d: Prefs, ms: seq<Mutation>, k: nat, now: int, key: Option<nat>)
    requires k <= |ms| && ApplyMutations(d, ms, now, key).Done?
    ensures ApplyMutations(d, ms[..k], now, key).Done?
  {
    hide ApplyMutation;
    if k == |ms| {
      assert ms[..k] == ms;
    } else {
      var before := ms[..|ms| - 1];
      PrefixDone(d, before, k, now, key);
      assert before[..k] == ms[..k];
    }
  }

  /** Mutation k raises its account's query revision when its turn comes. */
  ghost predicate RaisesAt(d: Prefs, ms: seq<Mutation>, k: nat, now: int, key: Option<nat>)
    requires k < |ms|
  {
    var before := ApplyMutations(d, ms[..k], now, key);
    before.Done? && Raises(before.data, ms[k], now, key)
  }

  lemma {:induction false} RaiseIsCounted(d: Prefs, ms: seq<Mutation>, k: nat, now: int, key: Option<nat>)
    requires k < |ms| && RaisesAt(d, ms, k, now, key)
    ensures RaiseCount(d, ms, now, key, ms[k].id) >= 1
  {
    hide ApplyMutations, Raises;
    if k < |ms| - 1 {
      var before := ms[..|ms| - 1];
      assert before[..k] == ms[..k];
      RaiseIsCounted(d, before, k, now, key);
    }
  }

  /** Mutation k switches its account's monitoring when its turn comes. */
  ghost predicate SwitchesAt(d: Prefs, ms: seq<Mutation>, k: nat, now: int, key: Option<nat>)
    requires k < |ms|
  {
    var before := ApplyMutations(d, ms[..k], now, key);
    && before.Done? && ms[k].monitored.Some?
    && ms[k].monitored.value != BoolAt(EnsureKnown(before.data, ms[k].id, true, now).0.monitored, ms[k].id)
  }

  lemma MonitoringIsSet(d: Prefs, m: Mutation, now: int, key: Option<nat>)
    requires m.monitored.Some?
    ensures var r := ApplyMutation(d, m, now, key); r.Done? ==> BoolAt(r.data.monitored, m.id) == m.monitored.value
  {
    hide EnsureKnown, SetAdapter, SetPat, SetName;
  }

  lemma SwitchingRaisesAt(d: Prefs, ms: seq<Mutation>, k: nat, now: int, key: Option<nat>)
    requires k < |ms| && SwitchesAt(d, ms, k, now, key) && ApplyMutations(d, ms, now, key).Done?
    ensures RaisesAt(d, ms, k, now, key)
  {
    hide EnsureKnown, ApplyMutation, Replaces;
    var before := ApplyMutations(d, ms[..k], now, key);
    PrefixDone(d, ms, k + 1, now, key);
    assert ms[..k + 1][..k] == ms[..k];
    MonitoringIsSet(before.data, ms[k], now, key);
  }

  /** When a mutation changes what a query of its account depends on without raising the
      revision: exactly when it registers the account, whose monitoring was off, under the id
      it was given, and asks for nothing else of that kind. */
  lemma UnraisedChangeExactly(d: Prefs, m: Mutation, now: int, key: Option<nat>)
    ensures var r := ApplyMutation(d, m, now, key);
            r.Done? ==>
              ((QueryKey(r.data, m.id) != QueryKey(d, m.id)
                && IntAt(r.data.queryRevisions, m.id) == IntAt(d.queryRevisions, m.id)) <==>
                 && Trim(m.id) == m.id && m.id != "" && !BoolAt(d.known, m.id) && !BoolAt(d.monitored, m.id)
                 && m.monitored != Some(false) && !SetAdapter(d.adapters, m).1
                 && !SetPat(d.pats, d.relink, m, key).value.2)
  {
    var d0 := EnsureKnown(d, m.id, true, now).0;
    RegistrationReports(d, m.id, now);
    SetMonitoredReports(d0.monitored, m.id, m.monitored);
    SetAdapterReports(d.adapters, m);
    SetPatReports(d.pats, d.relink, m, key);
    hide EnsureKnown, SetMonitored, SetAdapter, SetPat, SetName, Replaces, Trim;
    MutationParts(d, m, now, key);
    SetMonitoredTo(d0.monitored, m.id, m.monitored);
  }

  /** An input: registering an unknown account turns its monitoring on without raising anything. */
  lemma RegistrationDoesNotRaise(d: Prefs, id: string, now: int, key: Option<nat>)
    requires Trim(id) == id && id != "" && !BoolAt(d.known, id)
    ensures var r := ApplyMutation(d, Mutation(id, None, "", false, "keep", "", None), now, key);
            && r.Done? && r.changed && BoolAt(r.data.monitored, id)
            && r.data.queryRevisions == d.queryRevisions
  {
    assert ToLower(Trim("keep")) == "keep";
    assert IsBlank("");
  }

  lemma RegistrationReports(d: Prefs, id: string, now: int)
    ensures var d0 := EnsureKnown(d, id, true, now).0;
            BoolAt(d0.monitored, id) ==
              if Trim(id) == id && id != "" && !BoolAt(d.known, id) then true else BoolAt(d.monitored, id)
  {
    hide Trim;
  }

  lemma SetMonitoredTo(monitored: map<string, bool>, id: string, wanted: Option<bool>)
    ensures var (monitored', changed) := SetMonitored(monitored, id, wanted);
            && (changed <==> wanted.Some? && wanted.value != BoolAt(monitored, id))
            && (!changed ==> monitored' == monitored)
  {
  }

  /** A mutation by its parts. */
  lemma MutationParts(d: Prefs, m: Mutation, now: int, key: Option<nat>)
    ensures var r := ApplyMutation(d, m, now, key);
            var d0 := EnsureKnown(d, m.id, true, now).0;
            var pat := SetPat(d.pats, d.relink, m, key);
            r.Done? ==>
              && pat.Some?
              && r.data.monitored == SetMonitored(d0.monitored, m.id, m.monitored).0
              && r.data.adapters == SetAdapter(d.adapters, m).0
              && r.data.pats == pat.value.0 && r.data.relink == pat.value.1
              && r.data.names == SetName(d.names, m.id, m.customName).0
              && r.data.known == d0.known && r.data.firstSeen == d0.firstSeen && r.data.order == d0.order
              && r.data.queryRevisions ==
                   if SetMonitored(d0.monitored, m.id, m.monitored).1 || SetAdapter(d.adapters, m).1 || pat.value.2
                   then Bumped(d.queryRevisions, m.id) else d.queryRevisions
  {
    hide EnsureKnown, SetMonitored, SetAdapter, SetPat, SetName;
  }

  /* ---------- what a mutation achieves ---------- */

  /** A mutation that is applied sets exactly what it asks for on its account, a replaced
      credential can be read back, and no other account's settings change. */
  lemma MutationAchieves(d: Prefs, m: Mutation, now: int, key: Option<nat>)
    requires MutationError(m).None?
    ensures var r := ApplyMutation(d, m, now, key);
            r.Done? ==>
              && (m.monitored.Some? ==> BoolAt(r.data.monitored, m.id) == m.monitored.value)
              && (m.clearAdapter ==> m.id !in r.data.adapters)
              && (!IsBlank(m.adapter) ==> TextAt(r.data.adapters, m.id) == ToLower(Trim(m.adapter)))
              && (!m.clearAdapter && IsBlank(m.adapter) ==> Lookup(r.data.adapters, m.id) == Lookup(d.adapters, m.id))
              && (PatAction(m) == "replace" ==> ReadPat(r.data, key, m.id) == Trim(m.pat) != "")
              && (PatAction(m) == "clear" ==> m.id !in r.data.pats && !BoolAt(r.data.relink, m.id))
              && (PatAction(m) == "keep" ==> r.data.pats == d.pats && r.data.relink == d.relink)
              && (m.customName.Some? ==> TextAt(r.data.names, m.id) == Trim(m.customName.value))
              && (m.customName.None? ==> r.data.names == d.names)
              && (!IsBlank(m.adapter) ==> ReadAdapter(r.data, m.id) == ToLower(Trim(m.adapter)))
              && BoolAt(r.data.known, Trim(m.id)) && Trim(m.id) in r.data.order
              && forall id | id != m.id ::
                   && Lookup(r.data.adapters, id) == Lookup(d.adapters, id)
                   && Lookup(r.data.pats, id) == Lookup(d.pats, id)
                   && BoolAt(r.data.relink, id) == BoolAt(d.relink, id)
                   && Lookup(r.data.names, id) == Lookup(d.names, id)
  {
    hide Trim, ToLower, EnsureKnown, ApplyMutation, NameError, SetAdapter, SetPat, SetName, SetMonitored, MutationError,
      ReadPat, ReadAdapter, PatAction, BoolAt;
    ValidHasId(m);
    MutationParts(d, m, now, key);
    if ApplyMutation(d, m, now, key).Done? {
      if m.monitored.Some? { MonitoringIsSet(d, m, now, key); }
      AdapterAchieved(d.adapters, m);
      CredentialAchieved(d, ApplyMutation(d, m, now, key).data, m, key);
      NameAchieved(d.names, m.id, m.customName);
      if !IsBlank(m.adapter) { AdapterRead(ApplyMutation(d, m, now, key).data, m); }
      RegisteringRegisters(d, m.id, true, now);
    }
  }

  /** A query reads the stored adapter without surrounding spaces. */
  lemma AdapterIsTrimmed(d: Prefs, id: string)
    ensures ReadAdapter(d, id) == if id in d.adapters then Trim(d.adapters[id]) else ""
  {
    hide Trim;
    TrimUnchanged("");
    var stored := TextAt(d.adapters, id);
    assert [stored, ""][0] == stored && [stored, ""][1] == "" && [stored, ""][1..] == [""];
    if IsBlank(stored) { assert FirstNonEmpty([stored, ""]) == ""; }
  }

  /** An adapter set by a mutation is the one that queries read. */
  lemma AdapterRead(d: Prefs, m: Mutation)
    requires !IsBlank(m.adapter) && TextAt(d.adapters, m.id) == ToLower(Trim(m.adapter))
    ensures ReadAdapter(d, m.id) == ToLower(Trim(m.adapter))
  {
    hide Trim;
    var a := ToLower(Trim(m.adapter));
    assert LowerChar(Trim(m.adapter)[0]) == a[0] && LowerChar(Trim(m.adapter)[|a| - 1]) == a[|a| - 1];
    TrimUnchanged(a);
    assert [a, ""][0] == a;
  }

  lemma ValidHasId(m: Mutation)
    requires MutationError(m).None?
    ensures !IsBlank(m.id)
  {
    hide Trim, ToLower, NameError;
  }

  lemma AdapterAchieved(adapters: map<string, string>, m: Mutation)
    requires MutationError(m).None?
    ensures var after := SetAdapter(adapters, m).0;
            && (m.clearAdapter ==> m.id !in after)
            && (!IsBlank(m.adapter) ==> TextAt(after, m.id) == ToLower(Trim(m.adapter)))
            && (!m.clearAdapter && IsBlank(m.adapter) ==> Lookup(after, m.id) == Lookup(adapters, m.id))
            && forall id | id != m.id :: Lookup(after, id) == Lookup(adapters, id)
  {
    hide Trim, ToLower, NameError;
  }

  lemma CredentialAchieved(d: Prefs, d': Prefs, m: Mutation, key: Option<nat>)
    requires MutationError(m).None?
    requires var pat := SetPat(d.pats, d.relink, m, key);
             pat.Some? && d'.pats == pat.value.0 && d'.relink == pat.value.1
    ensures PatAction(m) == "replace" ==> ReadPat(d', key, m.id) == Trim(m.pat) != ""
    ensures PatAction(m) == "clear" ==> m.id !in d'.pats && !BoolAt(d'.relink, m.id)
    ensures PatAction(m) == "keep" ==> d'.pats == d.pats && d'.relink == d.relink
    ensures forall id | id != m.id ::
              Lookup(d'.pats, id) == Lookup(d.pats, id) && BoolAt(d'.relink, id) == BoolAt(d.relink, id)
  {
    hide Trim, ToLower, NameError;
  }

  lemma NameAchieved(names: map<string, string>, id: string, wanted: Option<string>)
    ensures var after := SetName(names, id, wanted).0;
            && (wanted.Some? ==> TextAt(after, id) == Trim(wanted.value)) && (wanted.None? ==> after == names)
            && forall other | other != id :: Lookup(after, other) == Lookup(names, other)
  {
    hide Trim;
  }

  /* ---------- ids with spaces around them ---------- */

  /** A batch registers the trimmed id and changes the settings of the id as it was given. So a
      request to switch monitoring reaches the account it registers, whatever the document,
      exactly when the id has no spaces around it. */
  lemma SwitchReachesExactly(m: Mutation, now: int, key: Option<nat>)
    requires MutationError(m).None? && m.monitored.Some? && (Replaces(m) ==> key.Some?)
    ensures (forall d :: var r := ApplyMutation(d, m, now, key);
                         r.Done? && BoolAt(r.data.monitored, Trim(m.id)) == m.monitored.value)
            <==> Trim(m.id) == m.id
  {
    hide ApplyMutation, MutationError, Replaces, Trim;
    if Trim(m.id) == m.id {
      forall d
        ensures var r := ApplyMutation(d, m, now, key);
                r.Done? && BoolAt(r.data.monitored, Trim(m.id)) == m.monitored.value
      {
        MutationFailsOnlyOnSealing(d, m, now, key);
        MonitoringIsSet(d, m, now, key);
      }
    } else {
      var d := EMPTY.(known := map[Trim(m.id) := true], monitored := map[Trim(m.id) := !m.monitored.value]);
      MutationFailsOnlyOnSealing(d, m, now, key);
      SpacedSwitchMisses(d, m, now, key);
      assert BoolAt(ApplyMutation(d, m, now, key).data.monitored, Trim(m.id)) != m.monitored.value;
    }
  }

  lemma SpacedSwitchMisses(d: Prefs, m: Mutation, now: int, key: Option<nat>)
    requires Trim(m.id) != m.id && BoolAt(d.known, Trim(m.id))
    ensures var r := ApplyMutation(d, m, now, key);
            r.Done? ==> BoolAt(r.data.monitored, Trim(m.id)) == BoolAt(d.monitored, Trim(m.id))
  {
    hide Trim, ApplyMutation, EnsureKnown, SetAdapter, SetPat, SetName;
    MutationParts(d, m, now, key);
    KnownStaysMonitored(d, m.id, now);
  }

  lemma KnownStaysMonitored(d: Prefs, id: string, now: int)
    requires BoolAt(d.known, Trim(id))
    ensures EnsureKnown(d, id, true, now).0.monitored == d.monitored
  {
    hide Trim;
  }

  /** An input: asking to stop monitoring " a" leaves "a" monitored. */
  lemma SpacedIdKeepsMonitoring(now: int)
    ensures var d := EMPTY.(known := map["a" := true], monitored := map["a" := true]);
            var r := ApplyMutation(d, Mutation(" a", Some(false), "", false, "", "", None), now, None);
            r.Done? && BoolAt(r.data.monitored, "a")
  {
    var d := EMPTY.(known := map["a" := true], monitored := map["a" := true]);
    var m := Mutation(" a", Some(false), "", false, "", "", None);
    assert TrimLeft(" a") == TrimLeft("a") by { assert " a"[1..] == "a"; }
    assert Trim(" a") == "a";
    assert Trim("") == "" && ToLower("") == "";
    SpacedSwitchMisses(d, m, now, None);
    MutationFailsOnlyOnSealing(d, m, now, None);
  }

  /* ---------- one batch or many ---------- */

  /** The document without its revision. */
  function Body(d: Prefs): Prefs { d.(revision := 0) }

  lemma EnsureKnownIgnoresRevision(d: Prefs, id: string, value: bool, now: int)
    ensures EnsureKnown(Body(d), id, value, now) ==
            (Body(EnsureKnown(d, id, value, now).0), EnsureKnown(d, id, value, now).1)
  {
  }

  lemma MutationIgnoresRevision(d: Prefs, m: Mutation, now: int, key: Option<nat>)
    ensures var r, r' := ApplyMutation(d, m, now, key), ApplyMutation(Body(d), m, now, key);
            && (r.Done? <==> r'.Done?)
            && (r.Done? ==> Body(r.data) == r'.data && r.changed == r'.changed)
  {
    EnsureKnownIgnoresRevision(d, m.id, true, now);
    hide EnsureKnown, SetMonitored, SetAdapter, SetPat, SetName;
  }

  lemma MutationKeepsNormalOrder(d: Prefs, m: Mutation, now: int, key: Option<nat>)
    requires IsNormalOrder(d.order)
    ensures var r := ApplyMutation(d, m, now, key); r.Done? ==> IsNormalOrder(r.data.order)
  {
    hide SetMonitored, SetAdapter, SetPat, SetName;
    TrimIdempotent(m.id);
    var order := d.order;
    var order' := EnsureKnown(d, m.id, true, now).0.order;
    assert order' == order || order' == order + [Trim(m.id)];
  }

  /** The events that commit the mutations one at a time. */
  function OneByOne(ms: seq<Mutation>, now: int): (r: seq<Event>)
    ensures |r| == |ms|
  {
    seq(|ms|, i requires 0 <= i < |ms| => TryCommit(Batch([ms[i]], None, now), None, Written))
  }

  lemma SingleBatch(d: Prefs, m: Mutation, now: int, vault: Vault)
    requires ValidBatch([m], vault.key)
    ensures Mutate(Batch([m], None, now), vault, d) == ApplyMutation(d, m, now, vault.key)
  {
    hide MutationError, ApplyMutation;
    FirstErrorFindsAny([m]);
    assert [m][..0] == [];
    assert ApplyMutations(d, [], now, vault.key) == Done(d, false);
    assert [m][|[m]| - 1] == m;
  }

  /** Committing a valid batch at once leaves the same preferences, apart from the global
      revision, as committing its mutations one by one in order. */
  lemma {:induction false} BatchIsSequential(c: Cell, vault: Vault, ms: seq<Mutation>, now: int)
    requires ValidBatch(ms, vault.key) && IsNormalOrder(c.memory.order)
    ensures var whole := Mutate(Batch(ms, None, now), vault, c.memory);
            var stepwise := After(c, vault, OneByOne(ms, now)).memory;
            && whole.Done?
            && Body(Commit(c, None, whole, Written).0.memory) == Body(stepwise) == Body(whole.data)
            && IsNormalOrder(stepwise.order)
  {
    hide MutationError, ApplyMutations, After, IsNormalOrder, NormalOrder, Replaces;
    SequentialMatches(c, vault, ms, now);
    FirstErrorFindsAny(ms);
    UnchangedBatchIsEqual(c.memory, ms, None, now, vault.key);
    var whole := Mutate(Batch(ms, None, now), vault, c.memory);
    NormalOrderFixed(whole.data.order);
  }

  /** A batch that also carries thresholds equals the same steps followed by one that sets the
      thresholds. */
  lemma BatchWithThresholdsIsSequential(c: Cell, vault: Vault, ms: seq<Mutation>, limits: Thresholds, now: int)
    requires ValidBatch(ms, vault.key) && IsNormalOrder(c.memory.order)
    ensures var whole := Mutate(Batch(ms, Some(limits), now), vault, c.memory);
            var steps := OneByOne(ms, now) + [TryCommit(UpdateThresholds(limits), None, Written)];
            var stepwise := After(c, vault, steps).memory;
            && whole.Done?
            && Body(Commit(c, None, whole, Written).0.memory) == Body(stepwise) == Body(whole.data)
  {
    hide MutationError, ApplyMutations, After, IsNormalOrder, NormalOrder, Replaces, SetThresholdsTo;
    SequentialMatches(c, vault, ms, now);
    FirstErrorFindsAny(ms);
    UnchangedBatchIsEqual(c.memory, ms, Some(limits), now, vault.key);
    var plain := ApplyMutations(c.memory, ms, now, vault.key).data;
    var whole := Mutate(Batch(ms, Some(limits), now), vault, c.memory);
    var steps := OneByOne(ms, now) + [TryCommit(UpdateThresholds(limits), None, Written)];
    var mid := After(c, vault, OneByOne(ms, now));
    assert steps[..|steps| - 1] == OneByOne(ms, now);
    LastStep(c, vault, steps);
    ThresholdsIgnoreRest(mid.memory, plain, limits);
    NormalOrderFixed(whole.data.order);
    ThresholdsUnchanged(mid.memory, limits);
    NormalOrderFixed(mid.memory.order);
  }

  lemma LastStep(c: Cell, vault: Vault, events: seq<Event>)
    requires events != []
    ensures After(c, vault, events) == Advance(After(c, vault, events[..|events| - 1]), vault, events[|events| - 1])
  {
    hide Advance;
  }

  lemma ThresholdsIgnoreRest(d: Prefs, d': Prefs, limits: Thresholds)
    requires Body(d) == Body(d')
    ensures Body(SetThresholdsTo(d, Some(limits)).0) == Body(SetThresholdsTo(d', Some(limits)).0)
    ensures SetThresholdsTo(d, Some(limits)).0.order == d.order
  {
    hide ThresholdsLookEqual;
    assert d.thresholds == d'.thresholds;
  }

  lemma ThresholdsUnchanged(d: Prefs, limits: Thresholds)
    ensures !SetThresholdsTo(d, Some(limits)).1 ==> SetThresholdsTo(d, Some(limits)).0 == d
  {
    hide ThresholdsLookEqual;
  }

  lemma {:induction false} SequentialMatches(c: Cell, vault: Vault, ms: seq<Mutation>, now: int)
    requires ValidBatch(ms, vault.key) && IsNormalOrder(c.memory.order)
    ensures var whole := ApplyMutations(c.memory, ms, now, vault.key);
            var stepwise := After(c, vault, OneByOne(ms, now)).memory;
            && whole.Done? && Body(stepwise) == Body(whole.data)
            && IsNormalOrder(whole.data.order)
  {
    hide MutationError, ApplyMutation, IsNormalOrder, NormalOrder, Replaces;
    MutationsFailOnlyOnSealing(c.memory, ms, now, vault.key);
    if ms == [] {
    } else {
      var n := |ms| - 1;
      SequentialMatches(c, vault, ms[..n], now);
      var events := OneByOne(ms, now);
      assert events[..n] == OneByOne(ms[..n], now);
      var before := After(c, vault, events[..n]);
      var whole := ApplyMutations(c.memory, ms[..n], now, vault.key).data;
      var m := ms[n];
      SingleBatch(before.memory, m, now, vault);
      MutationIgnoresRevision(before.memory, m, now, vault.key);
      MutationIgnoresRevision(whole, m, now, vault.key);
      MutationKeepsNormalOrder(whole, m, now, vault.key);
      OneUnchangedMeansEqual(before.memory, m, now, vault.key);
      var r := ApplyMutation(before.memory, m, now, vault.key);
      if r.Done? { NormalOrderFixed(r.data.order); }
    }
  }
}
