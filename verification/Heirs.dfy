/** The settings of accounts across a resolution call: a legacy account's settings go to its heir,
    a newly discovered account starts unmonitored, and nobody else's settings change. */
module Heirs {
  import opened Options
  import opened Text
  import opened Preferences
  import opened Commits
  import opened Identities
  import opened Newcomers
  import opened Inheritance
  import opened AccountPlaces

  /** Everything stored for account x, apart from its place. */
  ghost predicate SameSettings(d: Prefs, d': Prefs, x: string) {
    && Lookup(d.known, x) == Lookup(d'.known, x) && Lookup(d.monitored, x) == Lookup(d'.monitored, x)
    && Lookup(d.adapters, x) == Lookup(d'.adapters, x) && Lookup(d.names, x) == Lookup(d'.names, x)
    && Lookup(d.pats, x) == Lookup(d'.pats, x) && Lookup(d.relink, x) == Lookup(d'.relink, x)
    && Lookup(d.firstSeen, x) == Lookup(d'.firstSeen, x)
  }

  /** Candidate c, if it is new, inherits from its legacy id. */
  predicate Inheriting(d: Prefs, vault: Vault, c: Candidate, claims: nat) {
    var legacyId := Trim(c.legacyId);
    && legacyId != "" && claims == 1 && HasStableBasis(c)
    && HasLegacyPreference(d, legacyId) && Movable(d, vault.key, legacyId)
  }

  /* ---------- one candidate ---------- */

  lemma RegisteringOthers(d: Prefs, id: string, value: bool, now: int, x: string)
    requires x != Trim(id)
    ensures SameSettings(d, EnsureKnown(d, id, value, now).0, x)
  {
    hide Trim;
    if IsBlank(id) {
      assert EnsureKnown(d, id, value, now).0 == d;
    } else {
      RegisteringRegisters(d, id, value, now);
      hide EnsureKnown;
    }
  }

  /** Inheriting changes nobody but the legacy id and the heir. */
  lemma InheritingOthers(d: Prefs, vault: Vault, c: Candidate, claims: nat, id: string, x: string)
    requires x != id && x != Trim(c.legacyId) && id != "" && Trim(c.legacyId) != id
    ensures SameSettings(d, InheritLegacy(d, vault, c, claims, id), x)
  {
    hide InheritLegacy, MigratePreference, Trim, HasStableBasis;
    InheritCases(d, vault, c, claims, id);
    var legacyId := Trim(c.legacyId);
    if legacyId == "" {
      MigrationOfNothing(d, vault.key, legacyId, id);
    } else if MigratePreference(d, vault.key, legacyId, id).Some? {
      MigrationPassesSettings(d, vault.key, legacyId, id);
      MigrationMovesCredential(d, vault.key, legacyId, id);
    }
  }

  /** What inheriting is: a migration, or at most a mark for relinking. */
  lemma InheritsExactly(d: Prefs, vault: Vault, c: Candidate, claims: nat, id: string)
    requires id != "" && Trim(c.legacyId) != id
    ensures var r := InheritLegacy(d, vault, c, claims, id);
            if Inheriting(d, vault, c, claims) then Some(r) == MigratePreference(d, vault.key, Trim(c.legacyId), id)
            else r == d || r == d.(relink := d.relink[id := true])
  {
    hide MigratePreference, Trim, HasStableBasis, HasLegacyPreference, Movable;
    if Trim(c.legacyId) != "" { MigratedOrder(d, vault.key, Trim(c.legacyId), id); }
  }

  /** One candidate changes nobody but its legacy id and the id it is answered. */
  lemma ResolvingOthers(d: Prefs, vault: Vault, c: Candidate, claims: nat, drawn: Option<string>, now: int,
      id: string, x: string)
    requires ResolveOne(d, vault, c, claims, drawn, now).Resolution?
    requires ResolveOne(d, vault, c, claims, drawn, now).ids == [id] && Trim(id) == id != ""
    requires x != id && x != Trim(c.legacyId) && Trim(c.legacyId) != id && "" !in d.identities
    ensures SameSettings(d, ResolveOne(d, vault, c, claims, drawn, now).data, x)
  {
    hide Matches, UsesDerivedId, Trim, EnsureKnown, DerivedId, InheritLegacy, Inherits, IdentityOf;
    if !IsBlank(c.accountId) || FindMatch(d.identities, c).Some? {
      RegisteringOthers(d, id, false, now, x);
    } else {
      InheritingOthers(d, vault, c, claims, id, x);
      var d1 := InheritLegacy(d, vault, c, claims, id);
      RegisteringOthers(d1.(identities := d1.identities[id := IdentityOf(c, id, now)]), id, false, now, x);
    }
  }

  /* ---------- one call ---------- */

  /** What the last of n candidates leaves as it was. */
  lemma CallLeaves(d: Prefs, vault: Vault, cs: seq<Candidate>, n: nat, drawn: nat -> Option<string>, now: int,
      x: string)
    requires Ready(d, vault, cs, drawn) && 0 < n <= |cs| && ResolveAll(d, vault, cs, n, drawn, now).Resolution?
    requires x != Trim(cs[n - 1].legacyId)
    ensures var before, r := ResolveAll(d, vault, cs, n - 1, drawn, now), ResolveAll(d, vault, cs, n, drawn, now);
            && before.Resolution? && |before.ids| == n - 1 && |r.ids| == n && r.ids == before.ids + [r.ids[n - 1]]
            && (x != r.ids[n - 1] ==> SameSettings(before.data, r.data, x))
  {
    hide ResolveOne, LegacyClaims, Trim, Consistent, Collisionless, GoodCall, LegacyApart, Newcomer, Claims, Placed,
      IsBlank, SameSettings;
    CallStep(d, vault, cs, n, drawn, now);
    ResolveAllStep(d, vault, cs, n, drawn, now);
    CallStaysConsistent(d, vault, cs, n - 1, drawn, now);
    var before, r := ResolveAll(d, vault, cs, n - 1, drawn, now), ResolveAll(d, vault, cs, n, drawn, now);
    hide ResolveAll;
    NoEmptyRecord(before.data, vault.hash);
    assert r.ids == before.ids + [r.ids[n - 1]];
    if x != r.ids[n - 1] {
      ResolvingOthers(before.data, vault, cs[n - 1], ClaimsOf(cs, n - 1), drawn(n - 1), now, r.ids[n - 1], x);
    }
  }

  /** Whoever is neither answered nor claimed by the first n candidates keeps all settings. */
  lemma {:induction false} BystandersKeepSettings(d: Prefs, vault: Vault, cs: seq<Candidate>, n: nat,
      drawn: nat -> Option<string>, now: int, x: string)
    requires Ready(d, vault, cs, drawn) && n <= |cs| && ResolveAll(d, vault, cs, n, drawn, now).Resolution?
    requires forall k | 0 <= k < n :: Trim(cs[k].legacyId) != x
    requires x !in ResolveAll(d, vault, cs, n, drawn, now).ids
    ensures SameSettings(d, ResolveAll(d, vault, cs, n, drawn, now).data, x)
  {
    hide ResolveAll, Ready, Trim;
    if n == 0 {
      NothingAnswered(d, vault, cs, drawn, now);
    } else {
      CallLeaves(d, vault, cs, n, drawn, now, x);
      BystandersKeepSettings(d, vault, cs, n - 1, drawn, now, x);
    }
  }

  /** The legacy account of a single claimant waits untouched for its turn. */
  lemma LegacyAccountWaits(d: Prefs, vault: Vault, cs: seq<Candidate>, p: nat, drawn: nat -> Option<string>, now: int)
    requires Ready(d, vault, cs, drawn) && p < |cs| && ResolveAll(d, vault, cs, p, drawn, now).Resolution?
    requires ClaimsOf(cs, p) == 1
    ensures var before := ResolveAll(d, vault, cs, p, drawn, now);
            && SameSettings(d, before.data, Trim(cs[p].legacyId))
            && Inheriting(before.data, vault, cs[p], 1) == Inheriting(d, vault, cs[p], 1)
  {
    hide ResolveAll, Trim, LegacyClaims, Consistent, Collisionless, GoodCall, LegacyApart, HasStableBasis, CipherAt;
    var l := Trim(cs[p].legacyId);
    LegacyWaits(d, vault, cs, p, drawn, now, p);
    AnswersAreNotLegacy(d, vault, cs, p, drawn, now);
    forall k | 0 <= k < p ensures Trim(cs[k].legacyId) != l {
      if Trim(cs[k].legacyId) == l { TwoClaimants(cs, k, p, l); }
    }
    BystandersKeepSettings(d, vault, cs, p, drawn, now, l);
    SamePreference(d, ResolveAll(d, vault, cs, p, drawn, now).data, l);
  }

  lemma SamePreference(d: Prefs, d': Prefs, l: string)
    requires SameSettings(d, d', l) && (l in d.order <==> l in d'.order)
    ensures HasLegacyPreference(d, l) == HasLegacyPreference(d', l)
  {
  }

  /** Account id has what the legacy account l had in d, which is gone. */
  ghost predicate Succeeds(d: Prefs, d': Prefs, key: Option<nat>, l: string, id: string) {
    && BoolAt(d'.known, id)
    && (BoolAt(d.known, l) && l in d.monitored ==> Lookup(d'.monitored, id) == Lookup(d.monitored, l))
    && (l in d.adapters ==> Lookup(d'.adapters, id) == Lookup(d.adapters, l))
    && (l in d.names ==> Lookup(d'.names, id) == Lookup(d.names, l))
    && (IntAt(d.firstSeen, l) != ZERO_TIME ==> Lookup(d'.firstSeen, id) == Lookup(d.firstSeen, l))
    && (!CipherAt(d.pats, l).Blank? ==> Decrypt(key, id, CipherAt(d'.pats, id)) == Decrypt(key, l, CipherAt(d.pats, l)))
    && l !in d'.known && l !in d'.monitored && l !in d'.adapters && l !in d'.names && l !in d'.firstSeen
    && CipherAt(d'.pats, l).Blank?
  }

  lemma MigrationSucceeds(d: Prefs, d': Prefs, key: Option<nat>, l: string, id: string)
    requires l != "" && id != "" && l != id && MigratePreference(d, key, l, id) == Some(d')
    ensures Succeeds(d, d'.(known := d'.known[id := true]), key, l, id)
    ensures BoolAt(d.known, l) ==> BoolAt(d'.known, id)
  {
    hide MigratePreference, Decrypt;
    MigrationPassesSettings(d, key, l, id);
    MigrationMovesCredential(d, key, l, id);
  }

  /** Registering the heir takes nothing from it. */
  lemma HeirStays(d: Prefs, d': Prefs, key: Option<nat>, l: string, id: string, value: bool, now: int)
    requires Trim(id) == id != "" && l != id
    requires Succeeds(d, d'.(known := d'.known[id := true]), key, l, id)
             && (BoolAt(d.known, l) ==> BoolAt(d'.known, id))
    ensures Succeeds(d, EnsureKnown(d', id, value, now).0, key, l, id)
  {
    hide Decrypt;
    RegisteringRegisters(d', id, value, now);
    hide EnsureKnown;
    var r := EnsureKnown(d', id, value, now).0;
    assert Lookup(r.known, l) == Lookup(d'.known, l) && Lookup(r.monitored, l) == Lookup(d'.monitored, l);
    assert Lookup(r.firstSeen, l) == Lookup(d'.firstSeen, l);
  }

  lemma SettingsSucceed(d: Prefs, d': Prefs, d'': Prefs, key: Option<nat>, l: string, id: string)
    requires Succeeds(d, d', key, l, id) && SameSettings(d', d'', l) && SameSettings(d', d'', id)
    ensures Succeeds(d, d'', key, l, id)
  {
    hide Decrypt;
  }

  lemma SucceedsAlike(d: Prefs, d': Prefs, d'': Prefs, key: Option<nat>, l: string, id: string)
    requires SameSettings(d, d', l) && Succeeds(d', d'', key, l, id)
    ensures Succeeds(d, d'', key, l, id)
  {
    hide Decrypt;
  }

  lemma RegisterIs(d: Prefs, vault: Vault, c: Candidate, claims: nat, drawn: Option<string>, now: int)
    requires UsesDerivedId(c) || drawn.Some?
    ensures var id := NewId(vault, c, drawn); var d1 := InheritLegacy(d, vault, c, claims, id);
            Register(d, vault, c, claims, drawn, now).Resolution?
            && Register(d, vault, c, claims, drawn, now).data ==
               EnsureKnown(d1.(identities := d1.identities[id := IdentityOf(c, id, now)]), id, false, now).0
  {
    hide UsesDerivedId, DerivedId, InheritLegacy, EnsureKnown, IdentityOf, Inherits;
  }

  /** The document after a new candidate's turn. */
  lemma NewcomerStep(d: Prefs, vault: Vault, cs: seq<Candidate>, p: nat, drawn: nat -> Option<string>, now: int)
    requires Ready(d, vault, cs, drawn) && p < |cs| && ResolveAll(d, vault, cs, p + 1, drawn, now).Resolution?
    requires Newcomer(d, cs, p)
    ensures var before, r := ResolveAll(d, vault, cs, p, drawn, now), ResolveAll(d, vault, cs, p + 1, drawn, now);
            && before.Resolution? && |r.ids| == p + 1 && Trim(r.ids[p]) == r.ids[p] != ""
            && Trim(cs[p].legacyId) != r.ids[p] && (UsesDerivedId(cs[p]) || drawn(p).Some?)
            && r.ids[p] == NewId(vault, cs[p], drawn(p))
            && var d1 := InheritLegacy(before.data, vault, cs[p], ClaimsOf(cs, p), r.ids[p]);
               r.data == EnsureKnown(d1.(identities := d1.identities[r.ids[p] := IdentityOf(cs[p], r.ids[p], now)]),
                                     r.ids[p], false, now).0
  {
    hide ResolveOne, Trim, CandidateBasis, UsesDerivedId, DerivedId, Consistent, Collisionless, GoodCall, LegacyApart,
      IsBlank, NewId, Newcomer, Placed, LegacyClaims, Matches, IdentityOf, InheritLegacy, Register, EnsureKnown, Claims;
    CallStep(d, vault, cs, p + 1, drawn, now);
    NewcomerAnswer(d, vault, cs, p, drawn, now);
    NewcomerExactly(d, vault, cs, p, drawn, now);
    ResolveAllStep(d, vault, cs, p + 1, drawn, now);
    var before := ResolveAll(d, vault, cs, p, drawn, now);
    hide ResolveAll;
    NewcomerRegisters(before.data, vault, cs[p], ClaimsOf(cs, p), drawn(p), now);
    RegisterIs(before.data, vault, cs[p], ClaimsOf(cs, p), drawn(p), now);
  }

  lemma HeirAtItsTurn(d: Prefs, vault: Vault, cs: seq<Candidate>, p: nat, drawn: nat -> Option<string>, now: int)
    requires Ready(d, vault, cs, drawn) && p < |cs| && ResolveAll(d, vault, cs, p + 1, drawn, now).Resolution?
    requires Newcomer(d, cs, p) && Inheriting(d, vault, cs[p], ClaimsOf(cs, p))
    ensures var r := ResolveAll(d, vault, cs, p + 1, drawn, now);
            |r.ids| == p + 1 && Succeeds(d, r.data, vault.key, Trim(cs[p].legacyId), r.ids[p])
  {
    hide ResolveAll, Ready, Trim, LegacyClaims, HasStableBasis, InheritLegacy, MigratePreference, EnsureKnown,
      IdentityOf, Newcomer, UsesDerivedId, HasLegacyPreference, Movable, Succeeds, SameSettings;
    NewcomerStep(d, vault, cs, p, drawn, now);
    LegacyAccountWaits(d, vault, cs, p, drawn, now);
    var before, r := ResolveAll(d, vault, cs, p, drawn, now), ResolveAll(d, vault, cs, p + 1, drawn, now);
    var l, id := Trim(cs[p].legacyId), r.ids[p];
    InheritsExactly(before.data, vault, cs[p], 1, id);
    var d1 := InheritLegacy(before.data, vault, cs[p], 1, id);
    MigrationSucceeds(before.data, d1, vault.key, l, id);
    var d2 := d1.(identities := d1.identities[id := IdentityOf(cs[p], id, now)]);
    SucceedsIgnoresRecords(before.data, d1, d2, vault.key, l, id);
    HeirStays(before.data, d2, vault.key, l, id, false, now);
    SucceedsAlike(d, before.data, r.data, vault.key, l, id);
  }

  lemma SucceedsIgnoresRecords(d: Prefs, d1: Prefs, d2: Prefs, key: Option<nat>, l: string, id: string)
    requires d2 == d1.(identities := d2.identities)
    requires Succeeds(d, d1.(known := d1.known[id := true]), key, l, id)
    ensures Succeeds(d, d2.(known := d2.known[id := true]), key, l, id)
  {
  }

  /** No later candidate is given the new id of candidate p as its own new id. */
  ghost predicate NewIdOnce(d: Prefs, vault: Vault, cs: seq<Candidate>, p: nat, drawn: nat -> Option<string>)
    requires p < |cs|
  {
    forall q | p < q < |cs| && Newcomer(d, cs, q) ::
      (UsesDerivedId(cs[p]) || drawn(p).Some?) && (UsesDerivedId(cs[q]) || drawn(q).Some?) ==>
        NewId(vault, cs[p], drawn(p)) != NewId(vault, cs[q], drawn(q))
  }

  /** A candidate that is not new is only registered. */
  lemma OldcomerStep(d: Prefs, vault: Vault, cs: seq<Candidate>, q: nat, drawn: nat -> Option<string>, now: int)
    requires Ready(d, vault, cs, drawn) && q < |cs| && ResolveAll(d, vault, cs, q + 1, drawn, now).Resolution?
    requires !Newcomer(d, cs, q)
    ensures var before, r := ResolveAll(d, vault, cs, q, drawn, now), ResolveAll(d, vault, cs, q + 1, drawn, now);
            && before.Resolution? && |r.ids| == q + 1 && Trim(r.ids[q]) == r.ids[q] != ""
            && r.data == EnsureKnown(before.data, r.ids[q], false, now).0
  {
    hide Trim, UsesDerivedId, DerivedId, Consistent, Collisionless, GoodCall, LegacyApart, IsBlank, Newcomer, Placed,
      LegacyClaims, Matches, IdentityOf, InheritLegacy, Register, EnsureKnown, Claims;
    CallStep(d, vault, cs, q + 1, drawn, now);
    ResolveAllStep(d, vault, cs, q + 1, drawn, now);
    var before := ResolveAll(d, vault, cs, q, drawn, now);
    NewcomerExactly(d, vault, cs, q, drawn, now);
    CallStaysConsistent(d, vault, cs, q, drawn, now);
    hide ResolveAll;
    NoEmptyRecord(before.data, vault.hash);
  }

  /** A legacy account that one new candidate with a stable basis claims passes on everything: at
      the end of the call the answered id has its monitoring, adapter, name, first-seen time and
      credential, and the legacy id has nothing. */
  lemma {:induction false} HeirKeepsSettings(d: Prefs, vault: Vault, cs: seq<Candidate>, n: nat,
      drawn: nat -> Option<string>, now: int, p: nat)
    requires Ready(d, vault, cs, drawn) && p < n <= |cs| && ResolveAll(d, vault, cs, n, drawn, now).Resolution?
    requires Newcomer(d, cs, p) && Inheriting(d, vault, cs[p], ClaimsOf(cs, p)) && NewIdOnce(d, vault, cs, p, drawn)
    ensures var r := ResolveAll(d, vault, cs, n, drawn, now);
            && |r.ids| == n && (UsesDerivedId(cs[p]) || drawn(p).Some?) && r.ids[p] == NewId(vault, cs[p], drawn(p))
            && Succeeds(d, r.data, vault.key, Trim(cs[p].legacyId), r.ids[p])
  {
    hide ResolveAll, Ready, Trim, LegacyClaims, HasStableBasis, InheritLegacy, MigratePreference, EnsureKnown,
      IdentityOf, Newcomer, UsesDerivedId, HasLegacyPreference, Movable, Succeeds, SameSettings, NewId, Placed, Claims;
    var l := Trim(cs[p].legacyId);
    if n == p + 1 {
      NewcomerStep(d, vault, cs, p, drawn, now);
      HeirAtItsTurn(d, vault, cs, p, drawn, now);
    } else {
      var q := n - 1;
      CallStep(d, vault, cs, n, drawn, now);
      HeirKeepsSettings(d, vault, cs, q, drawn, now, p);
      var before, r := ResolveAll(d, vault, cs, q, drawn, now), ResolveAll(d, vault, cs, n, drawn, now);
      var id := r.ids[p];
      assert id == before.ids[p];
      if Trim(cs[q].legacyId) == l { TwoClaimants(cs, p, q, l); }
      LegacyIsNotAnswered(d, vault, cs, n, drawn, now, p);
      assert r.ids[p] in r.ids;
      CallLeaves(d, vault, cs, n, drawn, now, l);
      CallLeaves(d, vault, cs, n, drawn, now, id);
      if id != r.ids[q] {
        SettingsSucceed(d, before.data, r.data, vault.key, l, id);
      } else {
        if Newcomer(d, cs, q) { NewcomerStep(d, vault, cs, q, drawn, now); }
        OldcomerStep(d, vault, cs, q, drawn, now);
        KnownAnyway(d, before.data, vault.key, l, id);
        HeirStays(d, before.data, vault.key, l, id, false, now);
      }
    }
  }

  lemma KnownAnyway(d: Prefs, d': Prefs, key: Option<nat>, l: string, id: string)
    requires Succeeds(d, d', key, l, id) && l != id
    ensures Succeeds(d, d'.(known := d'.known[id := true]), key, l, id) && BoolAt(d'.known, id)
  {
  }

  lemma LegacyIsNotAnswered(d: Prefs, vault: Vault, cs: seq<Candidate>, n: nat, drawn: nat -> Option<string>, now: int,
      p: nat)
    requires Ready(d, vault, cs, drawn) && n <= |cs| && ResolveAll(d, vault, cs, n, drawn, now).Resolution? && p < |cs|
    ensures var r := ResolveAll(d, vault, cs, n, drawn, now);
            (forall id | id in r.ids :: id != Trim(cs[p].legacyId))
            && forall id, k | id in r.ids && 0 <= k < |cs| :: Trim(cs[k].legacyId) != id
  {
    hide ResolveAll, Trim, Consistent, Collisionless, GoodCall, LegacyApart;
    AnswersAreNotLegacy(d, vault, cs, n, drawn, now);
  }

  /* ---------- new accounts ---------- */

  /** An answered account that was not known and inherits nothing ends known and unmonitored: new
      accounts are never queried before somebody asks for it. */
  lemma {:induction false} NewAccountsStartUnmonitored(d: Prefs, vault: Vault, cs: seq<Candidate>, n: nat,
      drawn: nat -> Option<string>, now: int, x: string)
    requires Ready(d, vault, cs, drawn) && n <= |cs| && ResolveAll(d, vault, cs, n, drawn, now).Resolution?
    requires !BoolAt(d.known, x) && x in ResolveAll(d, vault, cs, n, drawn, now).ids
    requires forall q | 0 <= q < n && Newcomer(d, cs, q) && (UsesDerivedId(cs[q]) || drawn(q).Some?) ::
               NewId(vault, cs[q], drawn(q)) == x ==> !Inheriting(d, vault, cs[q], ClaimsOf(cs, q))
    ensures var r := ResolveAll(d, vault, cs, n, drawn, now); BoolAt(r.data.known, x) && !BoolAt(r.data.monitored, x)
  {
    hide ResolveAll, Ready, Trim, LegacyClaims, InheritLegacy, EnsureKnown, IdentityOf, Newcomer, UsesDerivedId,
      SameSettings, NewId, Placed, Claims, Inheriting;
    if n == 0 {
      NothingAnswered(d, vault, cs, drawn, now);
    } else {
      var q := n - 1;
      LegacyIsNotAnswered(d, vault, cs, n, drawn, now, 0);
      CallLeaves(d, vault, cs, n, drawn, now, x);
      var before, r := ResolveAll(d, vault, cs, q, drawn, now), ResolveAll(d, vault, cs, n, drawn, now);
      if x in before.ids {
        NewAccountsStartUnmonitored(d, vault, cs, q, drawn, now, x);
      } else {
        BystandersKeepSettings(d, vault, cs, q, drawn, now, x);
        StillUnmonitored(d, before.data, x);
      }
      if x == r.ids[q] {
        if Newcomer(d, cs, q) { NewcomerStep(d, vault, cs, q, drawn, now); }
        UnmonitoredAtItsTurn(d, vault, cs, q, drawn, now);
      } else {
        StillUnmonitored(before.data, r.data, x);
      }
    }
  }

  lemma StillUnmonitored(d: Prefs, d': Prefs, x: string)
    requires SameSettings(d, d', x)
    ensures BoolAt(d.known, x) == BoolAt(d'.known, x) && BoolAt(d.monitored, x) == BoolAt(d'.monitored, x)
  {
  }

  lemma UnmonitoredAtItsTurn(d: Prefs, vault: Vault, cs: seq<Candidate>, q: nat, drawn: nat -> Option<string>, now: int)
    requires Ready(d, vault, cs, drawn) && q < |cs| && ResolveAll(d, vault, cs, q + 1, drawn, now).Resolution?
    requires |ResolveAll(d, vault, cs, q + 1, drawn, now).ids| == q + 1
    requires Newcomer(d, cs, q) ==> !Inheriting(d, vault, cs[q], ClaimsOf(cs, q))
    requires ResolveAll(d, vault, cs, q, drawn, now).Resolution?
    requires var x, before := ResolveAll(d, vault, cs, q + 1, drawn, now).ids[q],
             ResolveAll(d, vault, cs, q, drawn, now).data;
             BoolAt(before.known, x) ==> !BoolAt(before.monitored, x)
    ensures var r := ResolveAll(d, vault, cs, q + 1, drawn, now);
            BoolAt(r.data.known, r.ids[q]) && !BoolAt(r.data.monitored, r.ids[q])
  {
    hide ResolveAll, Ready, Trim, LegacyClaims, InheritLegacy, IdentityOf, Newcomer, UsesDerivedId, SameSettings, NewId,
      Placed, Claims, HasStableBasis, HasLegacyPreference, Movable, EnsureKnown;
    var before, r := ResolveAll(d, vault, cs, q, drawn, now), ResolveAll(d, vault, cs, q + 1, drawn, now);
    var x := r.ids[q];
    if Newcomer(d, cs, q) {
      NewcomerStep(d, vault, cs, q, drawn, now);
      if ClaimsOf(cs, q) == 1 { LegacyAccountWaits(d, vault, cs, q, drawn, now); }
      InheritsExactly(before.data, vault, cs[q], ClaimsOf(cs, q), x);
      var d1 := InheritLegacy(before.data, vault, cs[q], ClaimsOf(cs, q), x);
      RegisteringRegisters(d1.(identities := d1.identities[x := IdentityOf(cs[q], x, now)]), x, false, now);
    } else {
      OldcomerStep(d, vault, cs, q, drawn, now);
      RegisteringRegisters(before.data, x, false, now);
    }
  }

  /* ---------- legacy accounts without an heir ---------- */

  /** A legacy account that no candidate inherits from keeps all its settings through the call: one
      that several candidates claim, one whose claimant is not new or has neither a host source id
      nor a static address and fingerprint, and one whose credential does not open. */
  lemma {:induction false} LegacyKeepsSettings(d: Prefs, vault: Vault, cs: seq<Candidate>, n: nat,
      drawn: nat -> Option<string>, now: int, l: string)
    requires Ready(d, vault, cs, drawn) && n <= |cs| && ResolveAll(d, vault, cs, n, drawn, now).Resolution?
    requires l != "" && exists p :: 0 <= p < |cs| && Trim(cs[p].legacyId) == l
    requires forall p | 0 <= p < n && Trim(cs[p].legacyId) == l && Newcomer(d, cs, p) ::
               || LegacyClaims(cs, l) != 1 || !Movable(d, vault.key, l)
               || (&& !(ToLower(Trim(cs[p].source)) == "host" && Trim(cs[p].sourceId) != "")
                   && !(ToLower(Trim(cs[p].source)) == "static" && NormalUrl(cs[p].baseUrl) != ""
                        && Trim(cs[p].fingerprint) != ""))
    ensures SameSettings(d, ResolveAll(d, vault, cs, n, drawn, now).data, l)
  {
    hide ResolveAll, Ready, Trim, ToLower, NormalUrl, LegacyClaims, Newcomer, Movable, SameSettings, HasStableBasis,
      Inheriting;
    if n == 0 {
      NothingAnswered(d, vault, cs, drawn, now);
      KeepsOwnSettings(d, l);
    } else {
      CallStep(d, vault, cs, n, drawn, now);
      LegacyKeepsSettings(d, vault, cs, n - 1, drawn, now, l);
      var p :| 0 <= p < |cs| && Trim(cs[p].legacyId) == l;
      LegacyIsNotAnswered(d, vault, cs, n, drawn, now, p);
      var before, r := ResolveAll(d, vault, cs, n - 1, drawn, now), ResolveAll(d, vault, cs, n, drawn, now);
      assert r.ids[n - 1] in r.ids;
      if Trim(cs[n - 1].legacyId) != l {
        CallLeaves(d, vault, cs, n, drawn, now, l);
      } else {
        ClaimedButNotGiven(d, vault, cs, n - 1, drawn, now);
      }
      SettingsStaySame(d, before.data, r.data, l);
    }
  }

  lemma KeepsOwnSettings(d: Prefs, x: string)
    ensures SameSettings(d, d, x)
  {
  }

  lemma SettingsStaySame(d: Prefs, d': Prefs, d'': Prefs, x: string)
    requires SameSettings(d, d', x) && SameSettings(d', d'', x)
    ensures SameSettings(d, d'', x)
  {
  }

  /** The turn of a claimant that gets nothing. */
  lemma ClaimedButNotGiven(d: Prefs, vault: Vault, cs: seq<Candidate>, q: nat, drawn: nat -> Option<string>, now: int)
    requires Ready(d, vault, cs, drawn) && q < |cs| && ResolveAll(d, vault, cs, q + 1, drawn, now).Resolution?
    requires var l := Trim(cs[q].legacyId);
             l != "" && (Newcomer(d, cs, q) ==>
                           || LegacyClaims(cs, l) != 1 || !Movable(d, vault.key, l)
                           || (&& !(ToLower(Trim(cs[q].source)) == "host" && Trim(cs[q].sourceId) != "")
                               && !(ToLower(Trim(cs[q].source)) == "static" && NormalUrl(cs[q].baseUrl) != ""
                                    && Trim(cs[q].fingerprint) != "")))
    ensures var before, r := ResolveAll(d, vault, cs, q, drawn, now), ResolveAll(d, vault, cs, q + 1, drawn, now);
            before.Resolution? && SameSettings(before.data, r.data, Trim(cs[q].legacyId))
  {
    hide ResolveAll, Ready, Trim, ToLower, NormalUrl, LegacyClaims, Newcomer, Movable, SameSettings, HasStableBasis,
      HasLegacyPreference, InheritLegacy, EnsureKnown, IdentityOf, Placed, Claims;
    CallStep(d, vault, cs, q + 1, drawn, now);
    var before, r := ResolveAll(d, vault, cs, q, drawn, now), ResolveAll(d, vault, cs, q + 1, drawn, now);
    var l, id := Trim(cs[q].legacyId), r.ids[q];
    if Newcomer(d, cs, q) {
      NewcomerStep(d, vault, cs, q, drawn, now);
      StableExactly(cs[q]);
      if ClaimsOf(cs, q) == 1 { LegacyAccountWaits(d, vault, cs, q, drawn, now); }
      InheritsExactly(before.data, vault, cs[q], ClaimsOf(cs, q), id);
      var d1 := InheritLegacy(before.data, vault, cs[q], ClaimsOf(cs, q), id);
      OnlyMarked(before.data, d1, id, l);
      var d2 := d1.(identities := d1.identities[id := IdentityOf(cs[q], id, now)]);
      RecordsAreNotSettings(d1, d2, l);
      RegisteringOthers(d2, id, false, now, l);
      SettingsStaySame(before.data, d1, d2, l);
      SettingsStaySame(before.data, d2, r.data, l);
    } else {
      OldcomerStep(d, vault, cs, q, drawn, now);
      RegisteringOthers(before.data, id, false, now, l);
    }
  }

  lemma OnlyMarked(d: Prefs, d': Prefs, id: string, x: string)
    requires d' == d || d' == d.(relink := d.relink[id := true])
    ensures x != id ==> SameSettings(d, d', x)
  {
  }

  lemma RecordsAreNotSettings(d: Prefs, d': Prefs, x: string)
    requires d' == d.(identities := d'.identities)
    ensures SameSettings(d, d', x)
  {
  }

  /* ---------- who must be relinked ---------- */

  lemma MigrationMarksNobody(d: Prefs, key: Option<nat>, l: string, id: string)
    requires l != "" && id != "" && l != id && MigratePreference(d, key, l, id).Some?
    ensures BoolAt(MigratePreference(d, key, l, id).value.relink, id) == BoolAt(d.relink, id)
  {
    hide MigratePreference, Passed;
    MigrationPassesSettings(d, key, l, id);
    assert Lookup(MigratePreference(d, key, l, id).value.relink, id) == Lookup(d.relink, id);
  }

  lemma MovableExactly(d: Prefs, key: Option<nat>, l: string, id: string)
    requires l != "" && id != "" && l != id
    ensures MigratePreference(d, key, l, id).Some? <==> Movable(d, key, l)
    ensures !HasCredential(d, l) ==> Movable(d, key, l)
  {
    hide MigratePreference, CipherAt, BoolAt, Decrypt, ReplaceIn;
    MigratedOrder(d, key, l, id);
  }

  /** A claimant that does not inherit gets at most a mark, exactly when there is a credential. */
  lemma NotGiven(d: Prefs, vault: Vault, c: Candidate, claims: nat, id: string)
    requires id != "" && Trim(c.legacyId) != id && !Inheriting(d, vault, c, claims)
    ensures InheritLegacy(d, vault, c, claims, id)
         == if Trim(c.legacyId) != "" && HasCredential(d, Trim(c.legacyId)) then d.(relink := d.relink[id := true])
            else d
  {
    hide MigratePreference, Trim, HasStableBasis, HasLegacyPreference, CipherAt, BoolAt, Movable;
    var l := Trim(c.legacyId);
    if l != "" {
      MovableExactly(d, vault.key, l, id);
      if HasCredential(d, l) { CredentialIsPreference(d, l); }
    }
  }

  /** Inheriting marks exactly a claimant that is not given the credential there is. */
  lemma MarkedExactly(d: Prefs, vault: Vault, c: Candidate, claims: nat, id: string)
    requires id != "" && Trim(c.legacyId) != id
    ensures var l := Trim(c.legacyId);
            BoolAt(InheritLegacy(d, vault, c, claims, id).relink, id) <==>
            BoolAt(d.relink, id) || (l != "" && HasCredential(d, l) && !Inheriting(d, vault, c, claims))
  {
    hide InheritLegacy, MigratePreference, Trim, HasStableBasis, HasLegacyPreference, HasCredential;
    if Inheriting(d, vault, c, claims) {
      InheritsExactly(d, vault, c, claims, id);
      hide Movable;
      MigrationMarksNobody(d, vault.key, Trim(c.legacyId), id);
    } else {
      hide Movable;
      NotGiven(d, vault, c, claims, id);
    }
  }

  /** The legacy account of a claimant is at the claimant's turn what it was before the call. */
  lemma ClaimedAccountWaits(d: Prefs, vault: Vault, cs: seq<Candidate>, p: nat, drawn: nat -> Option<string>, now: int)
    requires Ready(d, vault, cs, drawn) && p < |cs| && ResolveAll(d, vault, cs, p, drawn, now).Resolution?
    requires Trim(cs[p].legacyId) != ""
    ensures var before := ResolveAll(d, vault, cs, p, drawn, now);
            && HasCredential(before.data, Trim(cs[p].legacyId)) == HasCredential(d, Trim(cs[p].legacyId))
            && Inheriting(before.data, vault, cs[p], ClaimsOf(cs, p)) == Inheriting(d, vault, cs[p], ClaimsOf(cs, p))
  {
    hide ResolveAll, Ready, Trim, LegacyClaims, Newcomer, Movable, HasStableBasis, HasLegacyPreference, ToLower,
      NormalUrl;
    if ClaimsOf(cs, p) == 1 {
      LegacyAccountWaits(d, vault, cs, p, drawn, now);
    } else {
      LegacyKeepsSettings(d, vault, cs, p, drawn, now, Trim(cs[p].legacyId));
    }
  }

  /** At the end of a call an account that no candidate claims as its legacy id must be relinked
      exactly if that was so before the call, or if it is new and claims a legacy account that has
      a credential, or a mark, and that it does not inherit. */
  lemma {:induction false} RelinkedExactly(d: Prefs, vault: Vault, cs: seq<Candidate>, n: nat,
      drawn: nat -> Option<string>, now: int, x: string)
    requires Ready(d, vault, cs, drawn) && n <= |cs| && ResolveAll(d, vault, cs, n, drawn, now).Resolution?
    requires forall k | 0 <= k < |cs| :: Trim(cs[k].legacyId) != x
    ensures var r := ResolveAll(d, vault, cs, n, drawn, now);
            && |r.ids| == n
            && (BoolAt(r.data.relink, x) <==>
                || BoolAt(d.relink, x)
                || exists p :: 0 <= p < n && Newcomer(d, cs, p) && r.ids[p] == x && Trim(cs[p].legacyId) != ""
                     && HasCredential(d, Trim(cs[p].legacyId)) && !Inheriting(d, vault, cs[p], ClaimsOf(cs, p)))
  {
    hide ResolveAll, Ready, Trim, LegacyClaims, Newcomer, HasCredential, Inheriting, EnsureKnown, InheritLegacy,
      IdentityOf, NewId, UsesDerivedId, Claims;
    if n == 0 {
      NothingAnswered(d, vault, cs, drawn, now);
    } else {
      var q := n - 1;
      CallLeaves(d, vault, cs, n, drawn, now, x);
      RelinkedExactly(d, vault, cs, q, drawn, now, x);
      var before, r := ResolveAll(d, vault, cs, q, drawn, now), ResolveAll(d, vault, cs, n, drawn, now);
      assert forall p | 0 <= p < q :: r.ids[p] == before.ids[p];
      if x == r.ids[q] { RelinkedAtItsTurn(d, vault, cs, q, drawn, now); }
    }
  }

  lemma RelinkedAtItsTurn(d: Prefs, vault: Vault, cs: seq<Candidate>, q: nat, drawn: nat -> Option<string>, now: int)
    requires Ready(d, vault, cs, drawn) && q < |cs| && ResolveAll(d, vault, cs, q + 1, drawn, now).Resolution?
    ensures var before, r := ResolveAll(d, vault, cs, q, drawn, now), ResolveAll(d, vault, cs, q + 1, drawn, now);
            && before.Resolution? && |r.ids| == q + 1
            && var l := Trim(cs[q].legacyId);
               (BoolAt(r.data.relink, r.ids[q]) <==>
                || BoolAt(before.data.relink, r.ids[q])
                || (Newcomer(d, cs, q) && l != "" && HasCredential(d, l)
                    && !Inheriting(d, vault, cs[q], ClaimsOf(cs, q))))
  {
    hide ResolveAll, Ready, Trim, LegacyClaims, Newcomer, HasCredential, Inheriting, EnsureKnown, InheritLegacy,
      IdentityOf, NewId, UsesDerivedId, Claims, BoolAt;
    var before, r := ResolveAll(d, vault, cs, q, drawn, now), ResolveAll(d, vault, cs, q + 1, drawn, now);
    if Newcomer(d, cs, q) {
      NewcomerStep(d, vault, cs, q, drawn, now);
      MarkedExactly(before.data, vault, cs[q], ClaimsOf(cs, q), r.ids[q]);
      if Trim(cs[q].legacyId) != "" { ClaimedAccountWaits(d, vault, cs, q, drawn, now); }
    } else {
      OldcomerStep(d, vault, cs, q, drawn, now);
    }
  }

  /* ---------- the record of a new account ---------- */

  /** A new candidate's record holds everything the candidate says, under its id. */
  lemma {:induction false} NewRecordHolds(d: Prefs, vault: Vault, cs: seq<Candidate>, n: nat,
      drawn: nat -> Option<string>, now: int, p: nat)
    requires Ready(d, vault, cs, drawn) && p < n <= |cs| && ResolveAll(d, vault, cs, n, drawn, now).Resolution?
    requires Newcomer(d, cs, p) && NewIdOnce(d, vault, cs, p, drawn)
    ensures var r, c := ResolveAll(d, vault, cs, n, drawn, now), cs[p];
            && |r.ids| == n && (UsesDerivedId(c) || drawn(p).Some?) && r.ids[p] == NewId(vault, c, drawn(p))
            && r.ids[p] in r.data.identities
            && r.data.identities[r.ids[p]] ==
                 Identity(r.ids[p], c.source, c.sourceId, c.legacyId, c.baseUrl, c.fingerprint, c.provider, now)
  {
    hide ResolveAll, Ready, Trim, LegacyClaims, InheritLegacy, EnsureKnown, Newcomer, UsesDerivedId, NewId, Placed,
      Claims;
    var q := n - 1;
    CallStep(d, vault, cs, n, drawn, now);
    if n == p + 1 {
      NewcomerStep(d, vault, cs, p, drawn, now);
    } else {
      NewRecordHolds(d, vault, cs, q, drawn, now, p);
      if Newcomer(d, cs, q) {
        NewcomerStep(d, vault, cs, q, drawn, now);
      } else {
        OldcomerStep(d, vault, cs, q, drawn, now);
      }
    }
  }

  /** The snapshots of a legacy id may move to a new account that claims it exactly when the account
      has a host source id, or a static address and fingerprint, need not be relinked, no other
      record names that legacy id, and the host gave the id without spaces around it: the record
      keeps it as it was given. */
  lemma HeirMayMoveSnapshots(d: Prefs, vault: Vault, cs: seq<Candidate>, drawn: nat -> Option<string>, now: int, p: nat)
    requires Ready(d, vault, cs, drawn) && p < |cs| && ResolveAll(d, vault, cs, |cs|, drawn, now).Resolution?
    requires Newcomer(d, cs, p) && NewIdOnce(d, vault, cs, p, drawn)
    ensures var r := ResolveAll(d, vault, cs, |cs|, drawn, now);
            && |r.ids| == |cs|
            && (CanMigrateSnapshot(r.data, cs[p], r.ids[p]) <==>
                  && (|| (ToLower(Trim(cs[p].source)) == "host" && Trim(cs[p].sourceId) != "")
                      || (&& ToLower(Trim(cs[p].source)) == "static" && NormalUrl(cs[p].baseUrl) != ""
                          && Trim(cs[p].fingerprint) != ""))
                  && cs[p].legacyId == Trim(cs[p].legacyId) != "" && !BoolAt(r.data.relink, r.ids[p])
                  && forall other | other in r.data.identities && other != r.ids[p] ::
                       Trim(r.data.identities[other].legacyId) != cs[p].legacyId)
  {
    hide ResolveAll, Trim, LegacyClaims, Newcomer, UsesDerivedId, NewId, HasStableBasis, Consistent, Collisionless,
      GoodCall, LegacyApart, NewIdOnce, MayAnswer, ToLower, NormalUrl;
    StableExactly(cs[p]);
    NewRecordHolds(d, vault, cs, |cs|, drawn, now, p);
    AnswersAllowed(d, vault, cs, |cs|, drawn, now);
    LegacyIsNotAnswered(d, vault, cs, |cs|, drawn, now, p);
    var r := ResolveAll(d, vault, cs, |cs|, drawn, now);
    assert r.ids[p] in r.ids;
  }
}
