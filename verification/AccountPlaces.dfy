/** The account order: which operations keep every account at its place, and the one input on
    which a resolution call loses a place. */
module AccountPlaces {
  import opened Options
  import opened Text
  import opened Storage
  import opened Preferences
  import opened Commits
  import opened Identities
  import opened Newcomers
  import opened Inheritance
  import Batches

  /* ---------- operations that append ---------- */

  /** Every operation other than resolving and migrating only appends to the order. */
  lemma {:induction false} MutationsAppendOrder(d: Prefs, ms: seq<Mutation>, now: int, key: Option<nat>)
    requires IsNormalOrder(d.order)
    ensures var r := ApplyMutations(d, ms, now, key); r.Done? ==> IsNormalOrder(r.data.order) && d.order <= r.data.order
  {
    hide SetMonitored, SetAdapter, SetPat, SetName, IsNormalOrder, Trim;
    if ms == [] {
    } else {
      var n := |ms| - 1;
      MutationsAppendOrder(d, ms[..n], now, key);
      var before := ApplyMutations(d, ms[..n], now, key);
      if before.Done? { Batches.MutationKeepsNormalOrder(before.data, ms[n], now, key); }
    }
  }

  lemma {:induction false} ReconcileAppendsOrder(d: Prefs, defaults: seq<(string, bool)>, now: int)
    requires IsNormalOrder(d.order)
    ensures var d' := ReconcileKnown(d, defaults, now).0; IsNormalOrder(d'.order) && d.order <= d'.order
  {
    hide IsNormalOrder, EnsureKnown;
    if defaults == [] {
    } else {
      var n := |defaults| - 1;
      ReconcileAppendsOrder(d, defaults[..n], now);
      KnownAppendsOrder(ReconcileKnown(d, defaults[..n], now).0, defaults[n].0, defaults[n].1, now);
    }
  }

  lemma KnownAppendsOrder(d: Prefs, rawId: string, value: bool, now: int)
    requires IsNormalOrder(d.order)
    ensures var d' := EnsureKnown(d, rawId, value, now).0; IsNormalOrder(d'.order) && d.order <= d'.order
  {
    hide Trim;
    TrimIdempotent(rawId);
  }

  lemma MutateAppendsOrder(op: Op, vault: Vault, d: Prefs)
    requires IsNormalOrder(d.order) && !op.Resolve? && !op.MigratePat?
    ensures var m := Mutate(op, vault, d); m.Done? ==> IsNormalOrder(m.data.order) && d.order <= m.data.order
  {
    hide ApplyBatch, ApplyMutations, InvalidateIds, ReconcileKnown, NormalOrder, Trim, IsNormalOrder,
      SetThresholdsTo, DismissAlert, ReconcileDismissed, MigratePreference, ResolveAll;
    match op {
      case Batch(ms, _, now) => MutationsAppendOrder(d, ms, now, vault.key);
      case Invalidate(ids) => InvalidateKeepsRevision(d, ids);
      case Reconcile(defaults, now) => ReconcileAppendsOrder(d, defaults, now);
      case _ =>
    }
  }

  /** Every operation except resolving and migrating leaves the order a duplicate-free
      extension of the one before; publishing it then changes nothing more. */
  lemma OrderIsAppendOnly(op: Op, vault: Vault, d: Prefs)
    requires IsNormalOrder(d.order) && !op.Resolve? && !op.MigratePat?
    ensures var m := Mutate(op, vault, d);
            m.Done? ==> d.order <= m.data.order && Successor(m.data).order == m.data.order
  {
    hide Mutate, NormalOrder, IsNormalOrder;
    MutateAppendsOrder(op, vault, d);
    var m := Mutate(op, vault, d);
    if m.Done? { NormalOrderFixed(m.data.order); }
  }

  /* ---------- orders ---------- */

  /** Every account stays at its place, except that an id of `legacy` may give its place to
      one of `ids`. */
  ghost predicate KeepsPlaces(before: seq<string>, after: seq<string>, legacy: seq<string>, ids: seq<string>) {
    && |before| <= |after|
    && forall i | 0 <= i < |before| :: after[i] == before[i] || (before[i] in legacy && after[i] in ids)
  }

  /** In addition, only ids of `ids` are appended. */
  ghost predicate OrderGrows(before: seq<string>, after: seq<string>, legacy: seq<string>, ids: seq<string>) {
    && KeepsPlaces(before, after, legacy, ids)
    && forall i | |before| <= i < |after| :: after[i] in ids
  }

  /** No blank or untrimmed id is listed. */
  predicate Trimmed(order: seq<string>) {
    forall i | 0 <= i < |order| :: order[i] != "" && Trim(order[i]) == order[i]
  }

  function Listed(order: seq<string>, id: string): seq<string> { if id in order then order else order + [id] }

  /** The order after a candidate is registered under `id`, which may take the place of `oldId`. */
  function Placed(order: seq<string>, gives: bool, oldId: string, id: string): seq<string> {
    Listed(if gives then ReplaceIn(order, oldId, id) else order, id)
  }

  lemma ReplacedMembers(order: seq<string>, oldId: string, id: string, x: string)
    ensures x in ReplaceIn(order, oldId, id) <==> (x in order && x != oldId) || (x == id && oldId in order)
  {
    var r := ReplaceIn(order, oldId, id);
    if x in order && x != oldId {
      var i :| 0 <= i < |order| && order[i] == x;
      assert r[i] == x;
    }
    if oldId in order {
      var i :| 0 <= i < |order| && order[i] == oldId;
      assert r[i] == id;
    }
  }

  lemma PlacedMembers(order: seq<string>, gives: bool, oldId: string, id: string, x: string)
    requires oldId != id
    ensures x in Placed(order, gives, oldId, id) <==> x == id || (x in order && !(gives && x == oldId))
  {
    ReplacedMembers(order, oldId, id, x);
    hide ReplaceIn;
  }

  lemma PlacedGrows(order: seq<string>, gives: bool, oldId: string, id: string)
    ensures OrderGrows(order, Placed(order, gives, oldId, id), [oldId], [id])
    ensures Trimmed(order) && id != "" && Trim(id) == id ==> Trimmed(Placed(order, gives, oldId, id))
  {
    hide Trim;
  }

  lemma ReplacingExactly(order: seq<string>, oldId: string, id: string)
    requires Trimmed(order) && id != "" && Trim(id) == id && oldId != id && oldId in order
    ensures IsNormalOrder(ReplaceIn(order, oldId, id)) <==> IsNormalOrder(order) && id !in order
  {
    hide Trim;
    var r := ReplaceIn(order, oldId, id);
    if !IsNormalOrder(order) {
      var i, j :| 0 <= i < j < |order| && order[i] == order[j];
      assert r[i] == r[j];
    } else if id in order {
      var i :| 0 <= i < |order| && order[i] == oldId;
      var j :| 0 <= j < |order| && order[j] == id;
      assert r[i] == r[j] == id;
    }
  }

  lemma ListingExactly(order: seq<string>, id: string)
    requires id != "" && Trim(id) == id
    ensures IsNormalOrder(Listed(order, id)) <==> IsNormalOrder(order)
  {
    hide Trim;
    var r := Listed(order, id);
    assert forall i | 0 <= i < |order| :: r[i] == order[i];
  }

  /** Two places become one exactly when both ids are listed already. */
  lemma PlacedExactly(order: seq<string>, gives: bool, oldId: string, id: string)
    requires Trimmed(order) && id != "" && Trim(id) == id && oldId != id && (gives ==> oldId in order)
    ensures IsNormalOrder(Placed(order, gives, oldId, id)) <==> IsNormalOrder(order) && !(gives && id in order)
  {
    hide Trim, IsNormalOrder, ReplaceIn, Listed, Trimmed;
    if gives { ReplacingExactly(order, oldId, id); }
    ListingExactly(if gives then ReplaceIn(order, oldId, id) else order, id);
  }

  /* ---------- one candidate ---------- */

  /** The condition under which a legacy credential moves: there is none, or it opens. */
  predicate Movable(d: Prefs, key: Option<nat>, legacyId: string) {
    var c := CipherAt(d.pats, legacyId);
    c.Blank? || Decrypt(key, legacyId, c).Some?
  }

  /** Candidate c may take the place of its legacy id. */
  predicate Claims(d: Prefs, vault: Vault, c: Candidate, claims: nat) {
    var legacyId := Trim(c.legacyId);
    && legacyId != "" && claims == 1 && HasStableBasis(c)
    && legacyId in d.order && Movable(d, vault.key, legacyId)
  }

  lemma MigratedOrder(d: Prefs, key: Option<nat>, oldId: string, newId: string)
    requires oldId != "" && newId != "" && oldId != newId
    ensures var r := MigratePreference(d, key, oldId, newId);
            (r.Some? <==> Movable(d, key, oldId)) && (r.Some? ==> r.value.order == ReplaceIn(d.order, oldId, newId))
  {
    hide Move, ReplaceIn;
  }

  lemma ListedIsPreference(d: Prefs, id: string)
    ensures id != "" && id in d.order ==> HasLegacyPreference(d, id)
  {
  }

  lemma NothingToReplace(order: seq<string>, oldId: string, newId: string)
    requires oldId !in order
    ensures ReplaceIn(order, oldId, newId) == order
  {
  }

  lemma ClaimIsInherited(d: Prefs, vault: Vault, c: Candidate, id: string)
    requires Claims(d, vault, c, 1) && id != "" && id != Trim(c.legacyId)
    ensures Some(InheritLegacy(d, vault, c, 1, id)) == MigratePreference(d, vault.key, Trim(c.legacyId), id)
  {
    hide HasStableBasis, Trim, MigratePreference, HasLegacyPreference, Movable, CipherAt, BoolAt;
    ListedIsPreference(d, Trim(c.legacyId));
    MigratedOrder(d, vault.key, Trim(c.legacyId), id);
  }

  lemma InheritedOrder(d: Prefs, vault: Vault, c: Candidate, claims: nat, id: string)
    requires id != "" && Trim(c.legacyId) != id
    ensures var r, legacyId := InheritLegacy(d, vault, c, claims, id), Trim(c.legacyId);
            r.order == if Claims(d, vault, c, claims) then ReplaceIn(d.order, legacyId, id) else d.order
  {
    hide InheritLegacy, MigratePreference, Trim, ReplaceIn, HasStableBasis, Movable, HasLegacyPreference;
    var legacyId := Trim(c.legacyId);
    InheritCases(d, vault, c, claims, id);
    if legacyId == "" {
      MigrationOfNothing(d, vault.key, legacyId, id);
    } else {
      MigratedOrder(d, vault.key, legacyId, id);
      if legacyId !in d.order { NothingToReplace(d.order, legacyId, id); }
      if Claims(d, vault, c, claims) { ClaimIsInherited(d, vault, c, id); }
    }
  }

  lemma KnownOrder(d: Prefs, id: string, value: bool, now: int)
    requires id != "" && Trim(id) == id
    ensures EnsureKnown(d, id, value, now).0.order == Listed(d.order, id)
  {
  }

  /** What one candidate does to the order. */
  lemma ResolveOneOrder(d: Prefs, vault: Vault, c: Candidate, claims: nat, drawn: Option<string>, now: int, id: string)
    requires ResolveOne(d, vault, c, claims, drawn, now).Resolution?
    requires ResolveOne(d, vault, c, claims, drawn, now).ids == [id]
    requires id != "" && Trim(id) == id && Trim(c.legacyId) != id && "" !in d.identities
    ensures var gives := IsBlank(c.accountId) && FindMatch(d.identities, c).None? && Claims(d, vault, c, claims);
            ResolveOne(d, vault, c, claims, drawn, now).data.order == Placed(d.order, gives, Trim(c.legacyId), id)
  {
    hide Matches, UsesDerivedId, Trim, EnsureKnown, DerivedId, InheritLegacy, Inherits, IdentityOf, Claims, ReplaceIn,
      Listed;
    if !IsBlank(c.accountId) {
      KnownOrder(d, id, false, now);
    } else if FindMatch(d.identities, c).Some? {
      KnownOrder(d, id, false, now);
    } else {
      InheritedOrder(d, vault, c, claims, id);
      var d1 := InheritLegacy(d, vault, c, claims, id);
      KnownOrder(d1.(identities := d1.identities[id := IdentityOf(c, id, now)]), id, false, now);
    }
  }

  /* ---------- one call ---------- */

  /** What a call asks of its document and its callers. */
  ghost predicate Ready(d: Prefs, vault: Vault, cs: seq<Candidate>, drawn: nat -> Option<string>) {
    && Collisionless(vault.hash) && Consistent(d, vault.hash)
    && GoodCall(d, vault.hash, cs, drawn) && LegacyApart(d, vault.hash, cs, drawn)
  }

  function ClaimsOf(cs: seq<Candidate>, p: nat): nat
    requires p < |cs|
  {
    LegacyClaims(cs, Trim(cs[p].legacyId))
  }

  /** One of the first n candidates is answered the derived id of candidate p. */
  ghost predicate Repeated(hash: (string, string, string) -> string, cs: seq<Candidate>, n: nat, p: nat)
    requires n <= p < |cs|
  {
    UsesDerivedId(cs[p]) && exists q | 0 <= q < n ::
      if IsBlank(cs[q].accountId) then CandidateBasis(cs[q]) == CandidateBasis(cs[p])
      else Trim(cs[q].accountId) == DerivedId(hash, cs[p])
  }

  /** Candidate p is new and takes the place of its legacy id, but its own id has one already. */
  ghost predicate Crowded(d: Prefs, vault: Vault, cs: seq<Candidate>, drawn: nat -> Option<string>, p: nat)
    requires p < |cs|
  {
    && Newcomer(d, cs, p) && Claims(d, vault, cs[p], ClaimsOf(cs, p))
    && (UsesDerivedId(cs[p]) || drawn(p).Some?)
    && (NewId(vault, cs[p], drawn(p)) in d.order || Repeated(vault.hash, cs, p, p))
  }

  lemma NothingAnswered(d: Prefs, vault: Vault, cs: seq<Candidate>, drawn: nat -> Option<string>, now: int)
    ensures ResolveAll(d, vault, cs, 0, drawn, now) == Resolution(d, [], false)
  {
  }

  /** What the last of n candidates does to the order of a call. */
  lemma CallStep(d: Prefs, vault: Vault, cs: seq<Candidate>, n: nat, drawn: nat -> Option<string>, now: int)
    requires Ready(d, vault, cs, drawn) && 0 < n <= |cs| && ResolveAll(d, vault, cs, n, drawn, now).Resolution?
    ensures var before, r := ResolveAll(d, vault, cs, n - 1, drawn, now), ResolveAll(d, vault, cs, n, drawn, now);
            && before.Resolution? && |before.ids| == n - 1 && |r.ids| == n && r.ids[..n - 1] == before.ids
            && var c, id := cs[n - 1], r.ids[n - 1];
               var gives := Newcomer(d, cs, n - 1) && Claims(before.data, vault, c, ClaimsOf(cs, n - 1));
               && id != "" && Trim(id) == id && (forall p | 0 <= p < |cs| :: Trim(cs[p].legacyId) != id)
               && r.data.order == Placed(before.data.order, gives, Trim(c.legacyId), id)
  {
    hide ResolveOne, LegacyClaims, Trim, Consistent, Collisionless, GoodCall, LegacyApart, Newcomer, Claims, Placed,
      IsBlank, BasesOf, Names, Grows, MayAnswer;
    ResolveAllStep(d, vault, cs, n, drawn, now);
    ResolveAllNames(d, vault, cs, n - 1, drawn, now);
    ResolveAllNames(d, vault, cs, n, drawn, now);
    AnswersAllowed(d, vault, cs, n, drawn, now);
    AnswersAreNotLegacy(d, vault, cs, n, drawn, now);
    NewcomerExactly(d, vault, cs, n - 1, drawn, now);
    var before, r := ResolveAll(d, vault, cs, n - 1, drawn, now), ResolveAll(d, vault, cs, n, drawn, now);
    hide ResolveAll;
    var id := r.ids[n - 1];
    assert id in r.ids;
    NoEmptyRecord(before.data, vault.hash);
    ResolveOneOrder(before.data, vault, cs[n - 1], ClaimsOf(cs, n - 1), drawn(n - 1), now, id);
  }

  /** Ids other than legacy ids are listed when they were before or are answered. */
  lemma {:induction false} OrderMembers(d: Prefs, vault: Vault, cs: seq<Candidate>, n: nat,
      drawn: nat -> Option<string>, now: int, x: string)
    requires Ready(d, vault, cs, drawn) && n <= |cs| && ResolveAll(d, vault, cs, n, drawn, now).Resolution?
    requires forall k | 0 <= k < |cs| :: Trim(cs[k].legacyId) != x
    ensures var r := ResolveAll(d, vault, cs, n, drawn, now);
            x in r.data.order <==> x in d.order || x in r.ids
  {
    hide ResolveAll, Ready, Trim, Placed, Claims, Newcomer, LegacyClaims;
    if n == 0 {
      NothingAnswered(d, vault, cs, drawn, now);
    } else {
      CallStep(d, vault, cs, n, drawn, now);
      OrderMembers(d, vault, cs, n - 1, drawn, now, x);
      var before, r := ResolveAll(d, vault, cs, n - 1, drawn, now), ResolveAll(d, vault, cs, n, drawn, now);
      var c, id := cs[n - 1], r.ids[n - 1];
      var gives := Newcomer(d, cs, n - 1) && Claims(before.data, vault, c, ClaimsOf(cs, n - 1));
      PlacedMembers(before.data.order, gives, Trim(c.legacyId), id, x);
      assert r.ids == before.ids + [id];
    }
  }

  /** The legacy id of a single claimant waits untouched for its turn. */
  lemma {:induction false} LegacyWaits(d: Prefs, vault: Vault, cs: seq<Candidate>, n: nat, drawn: nat -> Option<string>,
      now: int, p: nat)
    requires Ready(d, vault, cs, drawn) && n <= p < |cs| && ResolveAll(d, vault, cs, n, drawn, now).Resolution?
    requires ClaimsOf(cs, p) == 1
    ensures var r, legacyId := ResolveAll(d, vault, cs, n, drawn, now), Trim(cs[p].legacyId);
            && (legacyId in r.data.order <==> legacyId in d.order)
            && CipherAt(r.data.pats, legacyId) == CipherAt(d.pats, legacyId)
  {
    hide Ready, Trim, Claims, Newcomer, LegacyClaims, CipherAt, ResolveOne, Placed;
    if n == 0 {
    } else {
      var legacyId := Trim(cs[p].legacyId);
      CallStep(d, vault, cs, n, drawn, now);
      LegacyWaits(d, vault, cs, n - 1, drawn, now, p);
      ResolveAllStep(d, vault, cs, n, drawn, now);
      hide ResolveAll;
      var before, r := ResolveAll(d, vault, cs, n - 1, drawn, now), ResolveAll(d, vault, cs, n, drawn, now);
      var c, id := cs[n - 1], r.ids[n - 1];
      var gives := Newcomer(d, cs, n - 1) && Claims(before.data, vault, c, ClaimsOf(cs, n - 1));
      if Trim(c.legacyId) == legacyId { TwoClaimants(cs, n - 1, p, legacyId); }
      PlacedMembers(before.data.order, gives, Trim(c.legacyId), id, legacyId);
      ResolveOneLeavesOthers(before.data, vault, c, ClaimsOf(cs, n - 1), drawn(n - 1), now, legacyId);
    }
  }

  /* ---------- which candidates are answered an id ---------- */

  lemma NothingIsNotDerived(c: Candidate)
    ensures CandidateBasis(c).Nothing? ==> !UsesDerivedId(c)
  {
    hide Trim, ToLower;
  }

  /** A given account id is answered as it is; a candidate without a basis gets a random id. */
  lemma {:induction false} PlainAnswers(d: Prefs, vault: Vault, cs: seq<Candidate>, n: nat,
      drawn: nat -> Option<string>, now: int, q: nat)
    requires Ready(d, vault, cs, drawn) && q < n <= |cs| && ResolveAll(d, vault, cs, n, drawn, now).Resolution?
    ensures var r := ResolveAll(d, vault, cs, n, drawn, now);
            && |r.ids| == n
            && (!IsBlank(cs[q].accountId) ==> r.ids[q] == Trim(cs[q].accountId))
            && (IsBlank(cs[q].accountId) && CandidateBasis(cs[q]).Nothing? ==> drawn(q) == Some(r.ids[q]))
  {
    hide ResolveOne, LegacyClaims, Trim, CandidateBasis, Matches, UsesDerivedId, IdentityOf, DerivedId, Consistent,
      Collisionless, GoodCall, LegacyApart, Claims, Placed, IsBlank;
    CallStep(d, vault, cs, n, drawn, now);
    if q < n - 1 {
      PlainAnswers(d, vault, cs, n - 1, drawn, now, q);
    } else {
      ResolveAllStep(d, vault, cs, n, drawn, now);
      CallStaysConsistent(d, vault, cs, n - 1, drawn, now);
      var before := ResolveAll(d, vault, cs, n - 1, drawn, now);
      hide ResolveAll;
      NoEmptyRecord(before.data, vault.hash);
      ResolveOneRecords(before.data, vault, cs[q], ClaimsOf(cs, q), drawn(q), now);
      NothingIsNotDerived(cs[q]);
      NothingFindsNothing(before.data.identities, cs[q]);
    }
  }

  /** When the answer to candidate q is the new id of the later candidate p. */
  lemma AnswerIsNewId(d: Prefs, vault: Vault, cs: seq<Candidate>, n: nat, drawn: nat -> Option<string>, now: int,
      q: nat, p: nat)
    requires Ready(d, vault, cs, drawn) && q < n <= p < |cs| && ResolveAll(d, vault, cs, n, drawn, now).Resolution?
    requires UsesDerivedId(cs[p]) || drawn(p).Some?
    ensures var r := ResolveAll(d, vault, cs, n, drawn, now);
            |r.ids| == n &&
            (r.ids[q] == NewId(vault, cs[p], drawn(p)) <==>
               UsesDerivedId(cs[p]) &&
               if IsBlank(cs[q].accountId) then CandidateBasis(cs[q]) == CandidateBasis(cs[p])
               else Trim(cs[q].accountId) == DerivedId(vault.hash, cs[p]))
  {
    hide ResolveAll, Trim, CandidateBasis, UsesDerivedId, DerivedId, Collisionless, LegacyApart, IsBlank, HostId,
      NotBoth, Tidy, OneToOne, Derivable;
    PlainAnswers(d, vault, cs, n, drawn, now, q);
    ResolveAllNames(d, vault, cs, n, drawn, now);
    var r := ResolveAll(d, vault, cs, n, drawn, now);
    var m, b, b' := BasesOf(r.data.identities), CandidateBasis(cs[q]), CandidateBasis(cs[p]);
    if UsesDerivedId(cs[p]) { DerivedIdIsHostId(vault.hash, cs[p]); }
    HostIdIsDerivable(vault.hash, b);
    HostIdIsDerivable(vault.hash, b');
    if IsBlank(cs[q].accountId) && !b.Nothing? && UsesDerivedId(cs[p]) {
      NamesOneToOne(m, vault.hash, b, r.ids[q], b', NewId(vault, cs[p], drawn(p)));
    }
  }

  lemma HostIdIsDerivable(hash: (string, string, string) -> string, b: Basis)
    ensures b.Host? ==> Derivable(hash, HostId(hash, b.sourceId))
  {
  }

  lemma NewIdAnswered(d: Prefs, vault: Vault, cs: seq<Candidate>, p: nat, drawn: nat -> Option<string>, now: int)
    requires Ready(d, vault, cs, drawn) && p < |cs| && ResolveAll(d, vault, cs, p, drawn, now).Resolution?
    requires UsesDerivedId(cs[p]) || drawn(p).Some?
    ensures NewId(vault, cs[p], drawn(p)) in ResolveAll(d, vault, cs, p, drawn, now).ids <==>
            Repeated(vault.hash, cs, p, p)
  {
    hide ResolveAll, Trim, CandidateBasis, UsesDerivedId, DerivedId, Ready, IsBlank, NewId;
    var r := ResolveAll(d, vault, cs, p, drawn, now);
    if p > 0 { PlainAnswers(d, vault, cs, p, drawn, now, 0); }
    forall q | 0 <= q < p ensures |r.ids| == p && (r.ids[q] == NewId(vault, cs[p], drawn(p)) <==>
               UsesDerivedId(cs[p]) &&
               if IsBlank(cs[q].accountId) then CandidateBasis(cs[q]) == CandidateBasis(cs[p])
               else Trim(cs[q].accountId) == DerivedId(vault.hash, cs[p])) {
      AnswerIsNewId(d, vault, cs, p, drawn, now, q, p);
    }
    if p == 0 { NothingAnswered(d, vault, cs, drawn, now); }
  }

  /* ---------- the places after a call ---------- */

  function LegacyIds(cs: seq<Candidate>, n: nat): seq<string>
    requires n <= |cs|
  {
    if n == 0 then [] else LegacyIds(cs, n - 1) + [Trim(cs[n - 1].legacyId)]
  }

  lemma OrderGrowsTwice(a: seq<string>, b: seq<string>, c: seq<string>, l: seq<string>, i: seq<string>,
      l': seq<string>, i': seq<string>)
    requires OrderGrows(a, b, l, i) && OrderGrows(b, c, l', i')
    ensures OrderGrows(a, c, l + l', i + i')
  {
  }

  /** Candidate p takes an occupied place exactly when it is crowded. */
  lemma TakesOccupiedExactly(d: Prefs, vault: Vault, cs: seq<Candidate>, p: nat, drawn: nat -> Option<string>, now: int)
    requires Ready(d, vault, cs, drawn) && p < |cs| && ResolveAll(d, vault, cs, p + 1, drawn, now).Resolution?
    ensures var before, r := ResolveAll(d, vault, cs, p, drawn, now), ResolveAll(d, vault, cs, p + 1, drawn, now);
            && before.Resolution? && |r.ids| == p + 1
            && (Crowded(d, vault, cs, drawn, p) <==>
                  && Newcomer(d, cs, p) && Claims(before.data, vault, cs[p], ClaimsOf(cs, p))
                  && r.ids[p] in before.data.order)
  {
    hide ResolveOne, ResolveAll, Trim, CandidateBasis, UsesDerivedId, DerivedId, Consistent, Collisionless, GoodCall,
      LegacyApart, IsBlank, NewId, Newcomer, Placed, Repeated, HasStableBasis, CipherAt, Matches;
    CallStep(d, vault, cs, p + 1, drawn, now);
    var before, r := ResolveAll(d, vault, cs, p, drawn, now), ResolveAll(d, vault, cs, p + 1, drawn, now);
    if ClaimsOf(cs, p) == 1 { LegacyWaits(d, vault, cs, p, drawn, now, p); }
    if Newcomer(d, cs, p) {
      NewcomerAnswer(d, vault, cs, p, drawn, now);
      NewIdAnswered(d, vault, cs, p, drawn, now);
      OrderMembers(d, vault, cs, p, drawn, now, r.ids[p]);
    }
  }

  lemma NewcomerAnswer(d: Prefs, vault: Vault, cs: seq<Candidate>, p: nat, drawn: nat -> Option<string>, now: int)
    requires Ready(d, vault, cs, drawn) && p < |cs| && ResolveAll(d, vault, cs, p + 1, drawn, now).Resolution?
    requires Newcomer(d, cs, p)
    ensures var r := ResolveAll(d, vault, cs, p + 1, drawn, now);
            |r.ids| == p + 1 && (UsesDerivedId(cs[p]) || drawn(p).Some?) && r.ids[p] == NewId(vault, cs[p], drawn(p))
  {
    hide ResolveOne, Trim, CandidateBasis, UsesDerivedId, DerivedId, Consistent, Collisionless, GoodCall, LegacyApart,
      IsBlank, NewId, Newcomer, Placed, Claims, LegacyClaims, Matches, IdentityOf;
    CallStep(d, vault, cs, p + 1, drawn, now);
    ResolveAllStep(d, vault, cs, p + 1, drawn, now);
    NewcomerExactly(d, vault, cs, p, drawn, now);
    CallStaysConsistent(d, vault, cs, p, drawn, now);
    var before := ResolveAll(d, vault, cs, p, drawn, now);
    hide ResolveAll;
    NoEmptyRecord(before.data, vault.hash);
    ResolveOneRecords(before.data, vault, cs[p], ClaimsOf(cs, p), drawn(p), now);
  }

  /** Before it is normalised, the order keeps every account at its place, and it holds no id
      twice exactly when no candidate was crowded. */
  lemma {:induction false} PlacesExactly(d: Prefs, vault: Vault, cs: seq<Candidate>, n: nat,
      drawn: nat -> Option<string>, now: int)
    requires Ready(d, vault, cs, drawn) && n <= |cs| && ResolveAll(d, vault, cs, n, drawn, now).Resolution?
    requires IsNormalOrder(d.order)
    ensures var r := ResolveAll(d, vault, cs, n, drawn, now);
            && Trimmed(r.data.order) && OrderGrows(d.order, r.data.order, LegacyIds(cs, n), r.ids)
            && (IsNormalOrder(r.data.order) <==> forall p: nat | p < n :: !Crowded(d, vault, cs, drawn, p))
  {
    hide ResolveAll, Ready, Trim, Placed, Claims, Newcomer, LegacyClaims, Crowded, OrderGrows;
    if n == 0 {
      NothingAnswered(d, vault, cs, drawn, now);
      GrowsToItself(d.order);
    } else {
      CallStep(d, vault, cs, n, drawn, now);
      PlacesExactly(d, vault, cs, n - 1, drawn, now);
      TakesOccupiedExactly(d, vault, cs, n - 1, drawn, now);
      hide IsNormalOrder, Trimmed;
      var before, r := ResolveAll(d, vault, cs, n - 1, drawn, now), ResolveAll(d, vault, cs, n, drawn, now);
      var c, id := cs[n - 1], r.ids[n - 1];
      var gives := Newcomer(d, cs, n - 1) && Claims(before.data, vault, c, ClaimsOf(cs, n - 1));
      ClaimIsListed(before.data, vault, c, ClaimsOf(cs, n - 1));
      PlacedExactly(before.data.order, gives, Trim(c.legacyId), id);
      PlacedGrows(before.data.order, gives, Trim(c.legacyId), id);
      OrderGrowsTwice(d.order, before.data.order, r.data.order, LegacyIds(cs, n - 1), before.ids, [Trim(c.legacyId)],
          [id]);
      assert r.ids == before.ids + [id];
    }
  }

  lemma GrowsToItself(order: seq<string>)
    ensures OrderGrows(order, order, [], [])
  {
  }

  lemma ClaimIsListed(d: Prefs, vault: Vault, c: Candidate, claims: nat)
    ensures Claims(d, vault, c, claims) ==> Trim(c.legacyId) in d.order
  {
  }

  lemma NormalExactly(order: seq<string>)
    ensures NormalOrder(order) == order <==> IsNormalOrder(order)
  {
    NormalOrderIsNormal(order);
    if IsNormalOrder(order) { NormalOrderFixed(order); }
  }

  /** A resolution call keeps every account at its place, except that a legacy id may give its
      place to the id that inherits it, and publishing drops nothing from that order exactly
      when no candidate is crowded. */
  lemma ResolvingKeepsPlaces(d: Prefs, vault: Vault, cs: seq<Candidate>, drawn: nat -> Option<string>, now: int)
    requires Ready(d, vault, cs, drawn) && IsNormalOrder(d.order)
    ensures var r := ResolveAll(d, vault, cs, |cs|, drawn, now);
            r.Resolution? ==>
              && OrderGrows(d.order, r.data.order, LegacyIds(cs, |cs|), r.ids)
              && (Successor(r.data).order == r.data.order <==>
                    forall p: nat | p < |cs| :: !Crowded(d, vault, cs, drawn, p))
  {
    hide ResolveAll, Ready, Crowded, OrderGrows, NormalOrder, IsNormalOrder, LegacyIds;
    var r := ResolveAll(d, vault, cs, |cs|, drawn, now);
    if r.Resolution? {
      PlacesExactly(d, vault, cs, |cs|, drawn, now);
      NormalExactly(r.data.order);
    }
  }

  /* ---------- the input that loses a place ---------- */

  /** Two listed legacy accounts, each with its credential. */
  function TwoLegacies(key: nat): Prefs {
    EMPTY.(known := map["L1" := true, "L2" := true], order := ["L1", "L2"],
           pats := map["L1" := Sealed(key, "L1", "p"), "L2" := Sealed(key, "L2", "q")])
  }

  /** Their host candidates, whose source ids differ in a space only. */
  function SpacedTwins(): seq<Candidate> {
    [Candidate("", "L1", "host", "s", "", "", ""), Candidate("", "L2", "host", "s ", "", "", "")]
  }

  const NO_DRAWS: nat -> Option<string> := _ => None

  lemma TwinTrims()
    ensures Trim("") == "" && Trim("L1") == "L1" && Trim("L2") == "L2" && Trim("s") == "s" && Trim("s ") == "s"
    ensures Trim("host") == "host" && ToLower("host") == "host"
  {
    TrimUnchanged("");
    TrimUnchanged("L1");
    TrimUnchanged("L2");
    TrimUnchanged("s");
    TrimUnchanged("host");
    assert TrimLeft("s ") == "s " && "s "[..1] == "s";
  }

  lemma TwinsAreReady(vault: Vault, key: nat)
    requires Collisionless(vault.hash) && !Derivable(vault.hash, "L1") && !Derivable(vault.hash, "L2")
    ensures Ready(TwoLegacies(key), vault, SpacedTwins(), NO_DRAWS) && IsNormalOrder(TwoLegacies(key).order)
  {
    hide Trim, Collisionless, Derivable;
    TwinTrims();
    assert BasesOf(TwoLegacies(key).identities) == map[];
  }

  lemma TwinBases()
    ensures var cs := SpacedTwins();
            forall i | 0 <= i < 2 :: CandidateBasis(cs[i]) == Host("s") && UsesDerivedId(cs[i]) && HasStableBasis(cs[i])
                                     && NotBoth(cs[i].sourceId, cs[i].fingerprint) && IsBlank(cs[i].accountId)
  {
    hide Trim, ToLower;
    TwinTrims();
  }

  lemma TwinClaims()
    ensures ClaimsOf(SpacedTwins(), 0) == 1 == ClaimsOf(SpacedTwins(), 1)
  {
    hide Trim, LegacyClaims;
    TwinTrims();
    var cs := SpacedTwins();
    ClaimsOfTwo(cs[0], cs[1], "L1");
    ClaimsOfTwo(cs[0], cs[1], "L2");
  }

  lemma ClaimsOfTwo(a: Candidate, b: Candidate, legacyId: string)
    ensures LegacyClaims([a, b], legacyId) ==
              (if Trim(a.legacyId) == legacyId then 1 else 0) + (if Trim(b.legacyId) == legacyId then 1 else 0)
  {
    hide Trim;
    assert [a, b][..1] == [a] && [a][..0] == [];
    assert LegacyClaims([a], legacyId) == if Trim(a.legacyId) == legacyId then 1 else 0;
  }

  lemma TwinsAreNew(key: nat)
    ensures Newcomer(TwoLegacies(key), SpacedTwins(), 0) && Newcomer(TwoLegacies(key), SpacedTwins(), 1)
  {
    hide CandidateBasis, Trim;
    TwinBases();
    TwinTrims();
    var cs, b := SpacedTwins(), Host("s");
    assert Latest(cs, 0, b) == None;
    assert Latest(cs, 1, b) == Some(0);
    assert !Matches(IdentityOf(cs[0], "", 0), cs[1]);
  }

  /** A derived id needs no random source. */
  lemma DerivedNeverFails(d: Prefs, vault: Vault, c: Candidate, claims: nat, drawn: Option<string>, now: int)
    ensures UsesDerivedId(c) ==> ResolveOne(d, vault, c, claims, drawn, now).Resolution?
  {
    hide UsesDerivedId, EnsureKnown, InheritLegacy, Matches;
  }

  lemma TwinsResolve(vault: Vault, key: nat, now: int, n: nat)
    requires n <= 2
    ensures ResolveAll(TwoLegacies(key), vault, SpacedTwins(), n, NO_DRAWS, now).Resolution?
  {
    hide ResolveOne, LegacyClaims, Trim, TwoLegacies, SpacedTwins, UsesDerivedId, CandidateBasis, HasStableBasis,
      IsBlank;
    assert |SpacedTwins()| == 2 by { TwinCount(); }
    if n == 0 {
    } else {
      var d, cs := TwoLegacies(key), SpacedTwins();
      TwinsResolve(vault, key, now, n - 1);
      TwinBases();
      var before := ResolveAll(d, vault, cs, n - 1, NO_DRAWS, now);
      DerivedNeverFails(before.data, vault, cs[n - 1], ClaimsOf(cs, n - 1), NO_DRAWS(n - 1), now);
    }
  }

  lemma TwinCount()
    ensures |SpacedTwins()| == 2
  {
  }

  /** A new candidate that takes a place also takes the credential of its legacy id. */
  lemma HeirTakesCredential(d: Prefs, vault: Vault, cs: seq<Candidate>, p: nat, drawn: nat -> Option<string>, now: int)
    requires Ready(d, vault, cs, drawn) && p < |cs| && ResolveAll(d, vault, cs, p + 1, drawn, now).Resolution?
    requires Newcomer(d, cs, p) && ClaimsOf(cs, p) == 1 && Claims(d, vault, cs[p], 1)
    ensures var before, r := ResolveAll(d, vault, cs, p, drawn, now), ResolveAll(d, vault, cs, p + 1, drawn, now);
            && before.Resolution? && |r.ids| == p + 1
            && var moved := MigratePreference(before.data, vault.key, Trim(cs[p].legacyId), r.ids[p]);
               moved.Some? && r.data.pats == moved.value.pats
  {
    hide ResolveOne, Trim, CandidateBasis, UsesDerivedId, DerivedId, Consistent, Collisionless, GoodCall, LegacyApart,
      IsBlank, NewId, Newcomer, Placed, LegacyClaims, Matches, IdentityOf, CipherAt, HasStableBasis, InheritLegacy,
      MigratePreference, Register;
    CallStep(d, vault, cs, p + 1, drawn, now);
    LegacyWaits(d, vault, cs, p, drawn, now, p);
    NewcomerAnswer(d, vault, cs, p, drawn, now);
    NewcomerExactly(d, vault, cs, p, drawn, now);
    ResolveAllStep(d, vault, cs, p + 1, drawn, now);
    var before, r := ResolveAll(d, vault, cs, p, drawn, now), ResolveAll(d, vault, cs, p + 1, drawn, now);
    hide ResolveAll;
    CallStaysConsistent(d, vault, cs, p, drawn, now);
    NoEmptyRecord(before.data, vault.hash);
    NewcomerRegisters(before.data, vault, cs[p], 1, drawn(p), now);
    RegisterShape(before.data, vault, cs[p], 1, drawn(p), now);
    ClaimIsInherited(before.data, vault, cs[p], r.ids[p]);
  }

  lemma NewcomerRegisters(d: Prefs, vault: Vault, c: Candidate, claims: nat, drawn: Option<string>, now: int)
    requires IsBlank(c.accountId) && FindMatch(d.identities, c).None?
    ensures ResolveOne(d, vault, c, claims, drawn, now) == Register(d, vault, c, claims, drawn, now)
  {
    hide Register, Matches, IsBlank;
  }

  lemma TwinsClaim(vault: Vault, key: nat)
    requires vault.key == Some(key)
    ensures var d, cs := TwoLegacies(key), SpacedTwins();
            && Trim(cs[0].legacyId) == "L1" && Trim(cs[1].legacyId) == "L2"
            && Claims(d, vault, cs[0], 1) && Claims(d, vault, cs[1], 1)
  {
    hide Trim, HasStableBasis;
    TwinTrims();
    TwinBases();
    assert TwoLegacies(key).order[1] == "L2" && TwoLegacies(key).order[0] == "L1";
  }

  /** The ids of the twins after the first n of them. */
  lemma TwinIds(vault: Vault, key: nat, now: int, p: nat)
    requires Collisionless(vault.hash) && !Derivable(vault.hash, "L1") && !Derivable(vault.hash, "L2") && p < 2
    ensures var d, cs := TwoLegacies(key), SpacedTwins();
            var r := ResolveAll(d, vault, cs, p + 1, NO_DRAWS, now);
            Ready(d, vault, cs, NO_DRAWS) && r.Resolution? && |r.ids| == p + 1 && r.ids[p] == HostId(vault.hash, "s")
  {
    hide Trim, Collisionless, LegacyClaims, ResolveAll, Newcomer, HostId, UsesDerivedId, DerivedId, HasStableBasis,
      CandidateBasis, IsBlank, Derivable, NotBoth, TwoLegacies, Ready;
    var d, cs := TwoLegacies(key), SpacedTwins();
    TwinsAreReady(vault, key);
    TwinsResolve(vault, key, now, p + 1);
    TwinsAreNew(key);
    TwinBases();
    NewcomerAnswer(d, vault, cs, p, NO_DRAWS, now);
    DerivedIdIsHostId(vault.hash, cs[p]);
  }

  lemma TwinOrder(vault: Vault, key: nat, now: int)
    requires Collisionless(vault.hash) && !Derivable(vault.hash, "L1") && !Derivable(vault.hash, "L2")
    requires vault.key == Some(key)
    ensures var d, cs, id := TwoLegacies(key), SpacedTwins(), HostId(vault.hash, "s");
            var r := ResolveAll(d, vault, cs, 2, NO_DRAWS, now);
            r.Resolution? && r.ids == [id, id] && r.data.order == [id, id]
  {
    hide Trim, Collisionless, LegacyClaims, ResolveAll, Newcomer, HostId, Derivable, TwoLegacies, SpacedTwins, Ready,
      Claims, Placed;
    var d, cs, id := TwoLegacies(key), SpacedTwins(), HostId(vault.hash, "s");
    TwinCount();
    TwinIds(vault, key, now, 0);
    TwinIds(vault, key, now, 1);
    TwinsAreNew(key);
    TwinClaims();
    TwinsClaim(vault, key);
    NothingAnswered(d, vault, cs, NO_DRAWS, now);
    CallStep(d, vault, cs, 1, NO_DRAWS, now);
    LegacyWaits(d, vault, cs, 1, NO_DRAWS, now, 1);
    var one := ResolveAll(d, vault, cs, 1, NO_DRAWS, now);
    StillClaims(d, one.data, vault, cs[1]);
    CallStep(d, vault, cs, 2, NO_DRAWS, now);
    TwinPlaces(key, id);
  }

  lemma StillClaims(d: Prefs, d': Prefs, vault: Vault, c: Candidate)
    requires var l := Trim(c.legacyId); (l in d'.order <==> l in d.order) && CipherAt(d'.pats, l) == CipherAt(d.pats, l)
    ensures Claims(d', vault, c, 1) == Claims(d, vault, c, 1)
  {
  }

  lemma TwinPlaces(key: nat, id: string)
    requires id != "L1" && id != "L2"
    ensures Placed(Placed(TwoLegacies(key).order, true, "L1", id), true, "L2", id) == [id, id]
  {
    assert ReplaceIn(["L1", "L2"], "L1", id) == [id, "L2"];
    assert id == [id, "L2"][0];
    assert ReplaceIn([id, "L2"], "L2", id) == [id, id];
    assert id == [id, id][0];
  }

  lemma TwinCredential(vault: Vault, key: nat, now: int)
    requires Collisionless(vault.hash) && !Derivable(vault.hash, "L1") && !Derivable(vault.hash, "L2")
    requires vault.key == Some(key)
    ensures var d, r := TwoLegacies(key), ResolveAll(TwoLegacies(key), vault, SpacedTwins(), 2, NO_DRAWS, now);
            r.Resolution? && !StillOpens(d, r.data, vault.key, "p")
  {
    hide Trim, Collisionless, LegacyClaims, ResolveAll, Newcomer, HostId, Derivable, SpacedTwins, Ready, Claims, Placed,
      MigratePreference;
    var d, cs, id := TwoLegacies(key), SpacedTwins(), HostId(vault.hash, "s");
    TwinCount();
    TwinIds(vault, key, now, 0);
    TwinIds(vault, key, now, 1);
    TwinsAreNew(key);
    TwinClaims();
    TwinsClaim(vault, key);
    NothingAnswered(d, vault, cs, NO_DRAWS, now);
    CallStep(d, vault, cs, 1, NO_DRAWS, now);
    CallStep(d, vault, cs, 2, NO_DRAWS, now);
    var one, two := ResolveAll(d, vault, cs, 1, NO_DRAWS, now).data, ResolveAll(d, vault, cs, 2, NO_DRAWS, now).data;
    HeirTakesCredential(d, vault, cs, 0, NO_DRAWS, now);
    HeirTakesCredential(d, vault, cs, 1, NO_DRAWS, now);
    MigrationMovesCredential(d, vault.key, "L1", id);
    MigrationMovesCredential(one, vault.key, "L2", id);
    assert Lookup(one.pats, "L2") == Lookup(d.pats, "L2");
    TwinsOpen(d, one, two, key, id);
  }

  lemma TwinsOpen(d: Prefs, one: Prefs, two: Prefs, key: nat, id: string)
    requires d == TwoLegacies(key) && id != "L1" && id != "L2"
    requires "L1" !in one.pats && forall x | x != "L1" && x != id :: Lookup(one.pats, x) == Lookup(d.pats, x)
    requires "L2" !in two.pats && forall x | x != "L2" && x != id :: Lookup(two.pats, x) == Lookup(one.pats, x)
    requires Decrypt(Some(key), id, CipherAt(two.pats, id)) == Decrypt(Some(key), "L2", CipherAt(one.pats, "L2"))
    ensures !StillOpens(d, two, Some(key), "p")
  {
    assert Opens(d, Some(key), "L1", "p");
    assert Lookup(one.pats, "L2") == Lookup(d.pats, "L2");
    forall x ensures !Opens(two, Some(key), x, "p") {
      if x != id && x != "L2" { assert Lookup(two.pats, x) == Lookup(one.pats, x); }
      if x != id && x != "L1" { assert Lookup(one.pats, x) == Lookup(d.pats, x); }
    }
  }

  /** Both accounts get one id, one place and one credential: the place and the credential of
      the first are gone. */
  lemma SpacedTwinsLoseAPlace(vault: Vault, key: nat, now: int)
    requires Collisionless(vault.hash) && !Derivable(vault.hash, "L1") && !Derivable(vault.hash, "L2")
    requires vault.key == Some(key)
    ensures var d, cs, id := TwoLegacies(key), SpacedTwins(), HostId(vault.hash, "s");
            var r := ResolveAll(d, vault, cs, 2, NO_DRAWS, now);
            && Ready(d, vault, cs, NO_DRAWS) && IsNormalOrder(d.order)
            && r.Resolution? && r.ids == [id, id] && Successor(r.data).order == [id]
            && !StillOpens(d, r.data, vault.key, "p")
  {
    hide Trim, Collisionless, Consistent, GoodCall, LegacyApart, LegacyClaims, ResolveAll, Newcomer, Claims, HostId,
      NormalOrder, IsNormalOrder, UsesDerivedId, DerivedId, HasStableBasis, CandidateBasis, IsBlank, StillOpens;
    var d, cs, id := TwoLegacies(key), SpacedTwins(), HostId(vault.hash, "s");
    TwinsAreReady(vault, key);
    TwinOrder(vault, key, now);
    TwinCredential(vault, key, now);
    TwinCount();
    CallStep(d, vault, cs, 2, NO_DRAWS, now);
    OneOfTwo(id);
  }

  lemma OneOfTwo(id: string)
    requires id != "" && Trim(id) == id
    ensures NormalOrder([id, id]) == [id]
  {
    assert [id][..0] == [];
    assert NormalOrder([id]) == [id];
    assert [id, id][..1] == [id];
  }

  /* ---------- runs ---------- */

  /** The published account order is free of blanks and duplicates at every point of a run. */
  lemma {:induction false} PublishedOrderIsNormal(c: Cell, vault: Vault, events: seq<Event>)
    requires IsNormalOrder(c.memory.order)
    ensures IsNormalOrder(After(c, vault, events).memory.order)
  {
    hide Mutate, IsNormalOrder, NormalOrder, RelinkFlags;
    if events == [] {
    } else {
      var n := |events| - 1;
      PublishedOrderIsNormal(c, vault, events[..n]);
      var before := After(c, vault, events[..n]);
      if events[n].TryCommit? {
        var m := Mutate(events[n].op, vault, before.memory);
        if m.Done? { NormalOrderIsNormal(m.data.order); }
      } else {
        EmptyOrderIsNormal();
        if before.disk.Some? { NormalOrderIsNormal(before.disk.value.data.order); }
      }
    }
  }

  lemma EmptyOrderIsNormal()
    ensures IsNormalOrder(EMPTY.order)
  {
  }

  /** The ids that an event may take places from. */
  function Leaving(e: Event): seq<string> {
    if e.Restart? then []
    else
      match e.op
      case Resolve(cs, _, _) => LegacyIds(cs, |cs|)
      case MigratePat(oldId, _) => [Trim(oldId)]
      case _ => []
  }

  /** The ids that may get them. */
  ghost function Entering(d: Prefs, vault: Vault, e: Event): seq<string> {
    if e.Restart? then []
    else
      match e.op
      case Resolve(cs, drawn, now) =>
        var r := ResolveAll(d, vault, cs, |cs|, drawn, now);
        if r.Resolution? then r.ids else []
      case MigratePat(_, newId) => [Trim(newId)]
      case _ => []
  }

  function LeavingIn(events: seq<Event>): seq<string> {
    if events == [] then [] else LeavingIn(events[..|events| - 1]) + Leaving(events[|events| - 1])
  }

  ghost function EnteringIn(c: Cell, vault: Vault, events: seq<Event>): seq<string> {
    if events == [] then []
    else
      var n := |events| - 1;
      EnteringIn(c, vault, events[..n]) + Entering(After(c, vault, events[..n]).memory, vault, events[n])
  }

  /** No id of the event takes an occupied place. */
  ghost predicate Roomy(d: Prefs, vault: Vault, e: Event) {
    e.TryCommit? ==>
      match e.op
      case Resolve(cs, drawn, _) =>
        LegacyApart(d, vault.hash, cs, drawn) && forall p: nat | p < |cs| :: !Crowded(d, vault, cs, drawn, p)
      case MigratePat(oldId, newId) =>
        Trim(oldId) == Trim(newId) || Trim(oldId) !in d.order || Trim(newId) !in d.order
      case _ => true
  }

  /** Every event of a run has room in the document it meets. */
  ghost predicate RoomyRun(c: Cell, vault: Vault, events: seq<Event>) {
    forall k: nat | k < |events| :: Roomy(After(c, vault, events[..k]).memory, vault, events[k])
  }

  lemma ResolveMutates(d: Prefs, vault: Vault, cs: seq<Candidate>, drawn: nat -> Option<string>, now: int)
    ensures var m, r := Mutate(Op.Resolve(cs, drawn, now), vault, d), ResolveAll(d, vault, cs, |cs|, drawn, now);
            (m.Done? <==> r.Resolution?) && (m.Done? ==> m.data == r.data)
  {
    hide ResolveAll;
  }

  lemma MigrateMutates(d: Prefs, vault: Vault, oldId: string, newId: string)
    requires IsNormalOrder(d.order) && Roomy(d, vault, TryCommit(MigratePat(oldId, newId), None, Written))
    ensures var m := Mutate(MigratePat(oldId, newId), vault, d);
            m.Done? ==> IsNormalOrder(m.data.order) && KeepsPlaces(d.order, m.data.order, [Trim(oldId)], [Trim(newId)])
  {
    hide MigratePreference, Trim, ReplaceIn, Movable, IsNormalOrder;
    var o, n := Trim(oldId), Trim(newId);
    assert IsNormalOrder(d.order) ==> Trimmed(d.order) by { NormalIsTrimmed(d.order); }
    TrimIdempotent(newId);
    if o != "" && n != "" && o != n {
      MigratedOrder(d, vault.key, o, n);
      if o in d.order { ReplacingExactly(d.order, o, n); } else { NothingToReplace(d.order, o, n); }
    }
  }

  lemma NormalIsTrimmed(order: seq<string>)
    requires IsNormalOrder(order)
    ensures Trimmed(order)
  {
    hide Trim;
  }

  lemma PrefixKeepsPlaces(a: seq<string>, b: seq<string>)
    requires a <= b
    ensures KeepsPlaces(a, b, [], [])
  {
  }

  /** The document an event makes keeps the places of the one it meets. */
  lemma MutateKeepsPlaces(d: Prefs, vault: Vault, e: Event)
    requires e.TryCommit? && IsNormalOrder(d.order) && Roomy(d, vault, e)
    requires Collisionless(vault.hash) && Consistent(d, vault.hash)
    requires e.op.Resolve? ==> GoodCall(d, vault.hash, e.op.candidates, e.op.drawn)
    ensures var m := Mutate(e.op, vault, d);
            m.Done? ==>
              IsNormalOrder(m.data.order) && KeepsPlaces(d.order, m.data.order, Leaving(e), Entering(d, vault, e))
  {
    hide ResolveAll, Mutate, GoodCall, Consistent, Collisionless, LegacyApart, Crowded, IsNormalOrder, LegacyIds, Trim,
      KeepsPlaces;
    match e.op {
      case Resolve(cs, drawn, now) =>
        ResolveMutates(d, vault, cs, drawn, now);
        if ResolveAll(d, vault, cs, |cs|, drawn, now).Resolution? { PlacesExactly(d, vault, cs, |cs|, drawn, now); }
      case MigratePat(oldId, newId) => MigrateMutates(d, vault, oldId, newId);
      case _ =>
        MutateAppendsOrder(e.op, vault, d);
        var m := Mutate(e.op, vault, d);
        if m.Done? { PrefixKeepsPlaces(d.order, m.data.order); }
    }
  }

  /** What memory and file hold after an event: what they held, what the file held, or a
      document that keeps the places of memory. */
  lemma StepPlaces(c: Cell, vault: Vault, e: Event)
    requires c.hasPath && IsNormalOrder(c.memory.order) && Roomy(c.memory, vault, e)
    requires Collisionless(vault.hash) && Consistent(c.memory, vault.hash)
    requires e.TryCommit? && e.op.Resolve? ==> GoodCall(c.memory, vault.hash, e.op.candidates, e.op.drawn)
    ensures var c', was, file := Advance(c, vault, e), c.memory.order, Loaded(c.disk).order;
            var mine, his := c'.memory.order, Loaded(c'.disk).order;
            || (mine == was && his == file) || (mine == file && his == file)
            || ((mine == was || mine == his) && KeepsPlaces(was, his, Leaving(e), Entering(c.memory, vault, e)))
  {
    hide Mutate, GoodCall, Consistent, Collisionless, Roomy, IsNormalOrder, Loaded, KeepsPlaces, NormalOrder, Leaving,
      Entering;
    if e.TryCommit? {
      MutateKeepsPlaces(c.memory, vault, e);
      var m := Mutate(e.op, vault, c.memory);
      if m.Done? {
        SuccessorLoads(m.data);
        NormalExactly(m.data.order);
      }
    }
  }

  lemma KeepsPlacesTwice(a: seq<string>, b: seq<string>, c: seq<string>, l: seq<string>, i: seq<string>,
      l': seq<string>, i': seq<string>)
    requires KeepsPlaces(a, b, l, i)
    ensures KeepsPlaces(a, b, l + l', i + i')
    ensures KeepsPlaces(b, c, l', i') ==> KeepsPlaces(a, c, l + l', i + i')
    ensures KeepsPlaces(b, c, l', i') ==> KeepsPlaces(b, c, l + l', i + i')
  {
  }

  lemma KeepsItself(a: seq<string>, l: seq<string>, i: seq<string>)
    ensures KeepsPlaces(a, a, l, i)
  {
  }

  /** Along a run in which every event has room, every account keeps its place for ever, or
      leaves it to an id that an event of the run made its heir; failures of writes and
      restarts change nothing about that. */
  lemma {:induction false} RunKeepsPlaces(c: Cell, vault: Vault, events: seq<Event>, i: nat, j: nat)
    requires Collisionless(vault.hash) && CellConsistent(c, vault.hash) && GoodRun(c, vault, events) && Settled(c)
    requires RoomyRun(c, vault, events) && IsNormalOrder(c.memory.order) && i <= j <= |events|
    ensures var before, after := After(c, vault, events[..i]).memory.order, After(c, vault, events[..j]);
            var leaving, entering := LeavingIn(events[..j]), EnteringIn(c, vault, events[..j]);
            && KeepsPlaces(before, after.memory.order, leaving, entering)
            && KeepsPlaces(before, Loaded(after.disk).order, leaving, entering)
    decreases j
  {
    hide Collisionless, GoodCall, Consistent, BasesOf, Grows, Roomy, IsNormalOrder, Advance, Leaving, Entering,
      KeepsPlaces, Loaded;
    if j == 0 {
      KeepsItself(c.memory.order, [], []);
    } else {
      var before, e := After(c, vault, events[..j - 1]), events[j - 1];
      assert events[..j][..j - 1] == events[..j - 1];
      RunKeepsPlaces(c, vault, events, if i < j then i else i - 1, j - 1);
      RunKeepsConsistent(c, vault, events, j - 1, j - 1);
      PublishedOrderIsNormal(c, vault, events[..j - 1]);
      StepPlaces(before, vault, e);
      var l, n := LeavingIn(events[..j - 1]), EnteringIn(c, vault, events[..j - 1]);
      var l', n' := Leaving(e), Entering(before.memory, vault, e);
      var after := After(c, vault, events[..j]);
      var start := After(c, vault, events[..if i < j then i else i - 1]).memory.order;
      KeepsPlacesTwice(start, before.memory.order, Loaded(after.disk).order, l, n, l', n');
      KeepsPlacesTwice(start, Loaded(before.disk).order, Loaded(after.disk).order, l, n, l', n');
      KeepsItself(after.memory.order, l + l', n + n');
    }
  }
}
