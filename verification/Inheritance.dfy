/** What an account inherits from its legacy, position-based id: one holder per credential,
    nobody when the claim is ambiguous, and the place in the account order. */
module Inheritance {
  import opened Options
  import opened Text
  import opened Storage
  import opened Preferences
  import opened Commits
  import opened Identities
  import opened Newcomers
  import Batches

  /** The credential stored under `id` opens to `secret`. */
  predicate Opens(d: Prefs, key: Option<nat>, id: string, secret: string) {
    Decrypt(key, id, CipherAt(d.pats, id)) == Some(secret)
  }

  ghost predicate OneHolder(d: Prefs, key: Option<nat>, secret: string) {
    forall a, b :: Opens(d, key, a, secret) && Opens(d, key, b, secret) ==> a == b
  }

  /** Every sealed credential is sealed for the account it is stored under. */
  ghost predicate OwnSealed(d: Prefs) {
    forall id | id in d.pats :: d.pats[id].Sealed? ==> d.pats[id].aad == id
  }

  /** A sealed credential opens with its own key for its own account and gives back what was sealed;
      with another key or for another account it does not open. */
  lemma SealedForOneAccount(key: nat, aad: string, plain: string, key': Option<nat>, aad': string)
    ensures Encrypt(None, aad, plain) == None && Encrypt(Some(key), aad, plain).Some?
    ensures Decrypt(key', aad', Encrypt(Some(key), aad, plain).value)
         == if key' == Some(key) && aad' == aad then Some(plain) else None
  {
  }

  /** So a credential that somebody files under another account is given to no query. */
  lemma MisfiledIsNotRead(d: Prefs, key: Option<nat>, a: string, b: string)
    requires OwnSealed(d) && a in d.pats && a != b
    ensures ReadPat(d.(pats := d.pats[b := d.pats[a]]), key, b) == ""
  {
    assert d.pats[a].Sealed? ==> d.pats[a].aad != b;
  }

  /* ---------- one migration ---------- */

  /** Migration moves the credential with its plaintext and erases the old record, leaves
      every other account's credential alone, and changes nothing at all when the legacy
      credential does not open. */
  lemma MigrationMovesCredential(d: Prefs, key: Option<nat>, oldId: string, newId: string)
    requires oldId != "" && newId != "" && oldId != newId
    ensures var r, c := MigratePreference(d, key, oldId, newId), CipherAt(d.pats, oldId);
            && (r.None? <==> !c.Blank? && Decrypt(key, oldId, c).None?)
            && (r.Some? && !c.Blank? ==>
                 && oldId !in r.value.pats
                 && Decrypt(key, newId, CipherAt(r.value.pats, newId)) == Decrypt(key, oldId, c))
            && (r.Some? && c.Blank? ==> r.value.pats == d.pats)
            && (r.Some? ==> forall id | id != oldId && id != newId :: Lookup(r.value.pats, id) == Lookup(d.pats, id))
  {
    hide Move, ReplaceIn;
  }

  /** In one of an account's settings, what the old id has is now what the new id has; without
      one the new id keeps its own. The old id has none any more and third ids keep theirs. */
  ghost predicate Passed<V>(before: map<string, V>, after: map<string, V>, oldId: string, newId: string) {
    && Lookup(after, newId) == (if oldId in before then Lookup(before, oldId) else Lookup(before, newId))
    && oldId !in after
    && forall id | id != oldId && id != newId :: Lookup(after, id) == Lookup(before, id)
  }

  /** Migration passes on registration, monitoring, adapter, name and first-seen time; it drops the
      old id's relink flag and puts the new id where the old one stood in the order. */
  lemma MigrationPassesSettings(d: Prefs, key: Option<nat>, oldId: string, newId: string)
    requires oldId != "" && newId != "" && oldId != newId
    requires MigratePreference(d, key, oldId, newId).Some?
    ensures var r := MigratePreference(d, key, oldId, newId).value;
            && Passed(d.known, r.known, oldId, newId) && Passed(d.monitored, r.monitored, oldId, newId)
            && Passed(d.adapters, r.adapters, oldId, newId) && Passed(d.names, r.names, oldId, newId)
            && Passed(d.firstSeen, r.firstSeen, oldId, newId)
            && !BoolAt(r.relink, oldId) && (forall id | id != oldId :: Lookup(r.relink, id) == Lookup(d.relink, id))
            && |r.order| == |d.order|
            && forall i | 0 <= i < |d.order| :: r.order[i] == if d.order[i] == oldId then newId else d.order[i]
  {
    hide MovePat, Passed, Move;
    MovePasses(d.known, oldId, newId);
    MovePasses(d.monitored, oldId, newId);
    MovePasses(d.adapters, oldId, newId);
    MovePasses(d.names, oldId, newId);
    MovePasses(d.firstSeen, oldId, newId);
  }

  lemma MovePasses<V>(m: map<string, V>, oldId: string, newId: string)
    requires oldId != newId
    ensures Passed(m, Move(m, oldId, newId), oldId, newId)
  {
  }

  /** A credential that opens in d still opens in d', under whatever id. */
  ghost predicate StillOpens(d: Prefs, d': Prefs, key: Option<nat>, secret: string) {
    (exists id :: Opens(d, key, id, secret)) ==> exists id :: Opens(d', key, id, secret)
  }

  /** A migration loses no readable credential exactly when the legacy id has none to move or
      all that the new id opened to before also opens elsewhere: the move overwrites it. */
  lemma NoCredentialIsLostExactly(d: Prefs, key: Option<nat>, oldId: string, newId: string)
    requires oldId != "" && newId != "" && oldId != newId
    requires MigratePreference(d, key, oldId, newId).Some?
    ensures (forall secret :: StillOpens(d, MigratePreference(d, key, oldId, newId).value, key, secret)) <==>
              CipherAt(d.pats, oldId).Blank?
              || forall secret | Opens(d, key, newId, secret) :: exists id :: id != newId && Opens(d, key, id, secret)
  {
    MigrationMovesCredential(d, key, oldId, newId);
    var d' := MigratePreference(d, key, oldId, newId).value;
    if CipherAt(d.pats, oldId).Blank? {
      forall secret ensures StillOpens(d, d', key, secret) {
        assert forall id :: Opens(d, key, id, secret) ==> Opens(d', key, id, secret);
      }
    } else {
      hide MigratePreference;
      forall secret ensures StillOpens(d, d', key, secret) <==>
                              (Opens(d, key, newId, secret) ==> exists id :: id != newId && Opens(d, key, id, secret)) {
        OneCredentialSurvives(d, d', key, oldId, newId, secret);
      }
    }
  }

  lemma OneCredentialSurvives(d: Prefs, d': Prefs, key: Option<nat>, oldId: string, newId: string, secret: string)
    requires oldId != newId && oldId !in d'.pats
    requires Decrypt(key, newId, CipherAt(d'.pats, newId)) == Decrypt(key, oldId, CipherAt(d.pats, oldId))
    requires forall id | id != oldId && id != newId :: Lookup(d'.pats, id) == Lookup(d.pats, id)
    ensures StillOpens(d, d', key, secret) <==>
              (Opens(d, key, newId, secret) ==> exists id :: id != newId && Opens(d, key, id, secret))
  {
    forall id ensures Opens(d', key, id, secret) <==>
                        if id == newId then Opens(d, key, oldId, secret) else id != oldId && Opens(d, key, id, secret) {
      assert id != oldId && id != newId ==> Lookup(d'.pats, id) == Lookup(d.pats, id);
    }
    if Opens(d, key, oldId, secret) { assert Opens(d', key, newId, secret); }
    if id :| id != newId && Opens(d, key, id, secret) { assert id != oldId ==> Opens(d', key, id, secret); }
    if id :| Opens(d', key, id, secret) { assert id == newId || Opens(d, key, id, secret); }
  }

  /** An input: both ids hold a credential, and that of the heir is gone afterwards. */
  lemma HeirsCredentialIsOverwritten(key: nat)
    ensures var d := EMPTY.(pats := map["old" := Sealed(key, "old", "p"), "new" := Sealed(key, "new", "q")]);
            var r := MigratePreference(d, Some(key), "old", "new");
            r.Some? && !StillOpens(d, r.value, Some(key), "q")
  {
    var d := EMPTY.(pats := map["old" := Sealed(key, "old", "p"), "new" := Sealed(key, "new", "q")]);
    var r := MigratePreference(d, Some(key), "old", "new");
    assert Opens(d, Some(key), "new", "q");
    assert r.value.pats == map["new" := Sealed(key, "new", "p")];
  }

  lemma MigrationKeepsOneHolder(d: Prefs, key: Option<nat>, oldId: string, newId: string, secret: string)
    requires OneHolder(d, key, secret)
    ensures var r := MigratePreference(d, key, oldId, newId); r.Some? ==> OneHolder(r.value, key, secret)
  {
    if oldId != "" && newId != "" && oldId != newId {
      MigrationMovesCredential(d, key, oldId, newId);
      var r := MigratePreference(d, key, oldId, newId);
      if r.Some? {
        hide MigratePreference;
        forall a, b | Opens(r.value, key, a, secret) && Opens(r.value, key, b, secret) ensures a == b {
          OldHolder(d, r.value, key, oldId, newId, secret, a);
          OldHolder(d, r.value, key, oldId, newId, secret, b);
        }
      }
    }
  }

  /** Where a credential found after a migration was before it. */
  lemma OldHolder(d: Prefs, d': Prefs, key: Option<nat>, oldId: string, newId: string, secret: string, a: string)
    requires oldId != newId
    requires var c := CipherAt(d.pats, oldId);
             if c.Blank? then d'.pats == d.pats
             else oldId !in d'.pats && Decrypt(key, newId, CipherAt(d'.pats, newId)) == Decrypt(key, oldId, c)
    requires forall id | id != oldId && id != newId :: Lookup(d'.pats, id) == Lookup(d.pats, id)
    requires Opens(d', key, a, secret)
    ensures Opens(d, key, if !CipherAt(d.pats, oldId).Blank? && a == newId then oldId else a, secret)
    ensures !CipherAt(d.pats, oldId).Blank? ==> a != oldId
  {
    assert a != oldId && a != newId ==> Lookup(d'.pats, a) == Lookup(d.pats, a);
  }

  lemma SameCredentialsSameHolders(d: Prefs, d': Prefs, key: Option<nat>, secret: string)
    requires d.pats == d'.pats
    ensures OneHolder(d, key, secret) ==> OneHolder(d', key, secret)
    ensures OwnSealed(d) ==> OwnSealed(d')
  {
    assert forall a :: Opens(d', key, a, secret) ==> Opens(d, key, a, secret);
  }

  lemma InheritingKeepsOneHolder(d: Prefs, vault: Vault, c: Candidate, claims: nat, id: string, secret: string)
    requires OneHolder(d, vault.key, secret)
    ensures OneHolder(InheritLegacy(d, vault, c, claims, id), vault.key, secret)
  {
    hide InheritLegacy, MigratePreference, Trim, OneHolder;
    InheritCases(d, vault, c, claims, id);
    MigrationKeepsOneHolder(d, vault.key, Trim(c.legacyId), id, secret);
    var r := InheritLegacy(d, vault, c, claims, id);
    if r.pats == d.pats { SameCredentialsSameHolders(d, r, vault.key, secret); }
  }

  lemma MigrationKeepsOwnSealed(d: Prefs, key: Option<nat>, oldId: string, newId: string)
    requires OwnSealed(d)
    ensures var r := MigratePreference(d, key, oldId, newId); r.Some? ==> OwnSealed(r.value)
  {
    hide Move, ReplaceIn;
  }

  lemma InheritingKeepsOwnSealed(d: Prefs, vault: Vault, c: Candidate, claims: nat, id: string)
    requires OwnSealed(d)
    ensures OwnSealed(InheritLegacy(d, vault, c, claims, id))
  {
    hide InheritLegacy, MigratePreference, Trim, OwnSealed;
    InheritCases(d, vault, c, claims, id);
    MigrationKeepsOwnSealed(d, vault.key, Trim(c.legacyId), id);
    var r := InheritLegacy(d, vault, c, claims, id);
    if r.pats == d.pats { SameCredentialsSameHolders(d, r, vault.key, ""); }
  }

  /* ---------- every operation ---------- */

  /** What is preserved: own seals, and one holder of `secret`. */
  ghost predicate Kept(d: Prefs, key: Option<nat>, secret: string) { OwnSealed(d) && OneHolder(d, key, secret) }

  lemma RegisterShape(d: Prefs, vault: Vault, c: Candidate, claims: nat, drawn: Option<string>, now: int)
    requires UsesDerivedId(c) || drawn.Some?
    ensures var r, id := Register(d, vault, c, claims, drawn, now), NewId(vault, c, drawn);
            var d1 := InheritLegacy(d, vault, c, claims, id);
            r.Resolution? && r.ids == [id] && r.data.pats == d1.pats && r.data.relink == d1.relink
  {
    hide UsesDerivedId, Trim, EnsureKnown, DerivedId, InheritLegacy, Inherits, IdentityOf;
  }

  lemma ResolveOneCases(d: Prefs, vault: Vault, c: Candidate, claims: nat, drawn: Option<string>, now: int)
    ensures var r := ResolveOne(d, vault, c, claims, drawn, now);
            || r == Register(d, vault, c, claims, drawn, now)
            || (r.Resolution? && |r.ids| == 1 && r.data == EnsureKnown(d, r.ids[0], false, now).0)
  {
    hide Matches, Trim, EnsureKnown, Register;
  }

  /** Credentials and flags after one candidate: as before, or as inheriting left them. */
  lemma ResolveOneShape(d: Prefs, vault: Vault, c: Candidate, claims: nat, drawn: Option<string>, now: int)
    ensures var r := ResolveOne(d, vault, c, claims, drawn, now);
            r.Resolution? ==>
              && |r.ids| == 1
              && ((r.data.pats == d.pats && r.data.relink == d.relink)
                  || ((UsesDerivedId(c) || drawn.Some?)
                      && var id := NewId(vault, c, drawn);
                         var d1 := InheritLegacy(d, vault, c, claims, id);
                         r.ids == [id] && r.data.pats == d1.pats && r.data.relink == d1.relink))
  {
    hide ResolveOne, UsesDerivedId, EnsureKnown, NewId, InheritLegacy, Register;
    ResolveOneCases(d, vault, c, claims, drawn, now);
    RegisterFails(d, vault, c, claims, drawn, now);
    if UsesDerivedId(c) || drawn.Some? { RegisterShape(d, vault, c, claims, drawn, now); }
  }

  lemma ResolveOneKeeps(d: Prefs, vault: Vault, c: Candidate, claims: nat, drawn: Option<string>, now: int,
      secret: string)
    requires Kept(d, vault.key, secret)
    ensures var r := ResolveOne(d, vault, c, claims, drawn, now); r.Resolution? ==> Kept(r.data, vault.key, secret)
  {
    hide Matches, UsesDerivedId, Trim, EnsureKnown, DerivedId, OneHolder, OwnSealed, InheritLegacy, Inherits,
      IdentityOf, ResolveOne;
    var r := ResolveOne(d, vault, c, claims, drawn, now);
    ResolveOneShape(d, vault, c, claims, drawn, now);
    if r.Resolution? {
      if r.data.pats == d.pats {
        SameCredentialsSameHolders(d, r.data, vault.key, secret);
      } else {
        var id := NewId(vault, c, drawn);
        InheritingKeepsOneHolder(d, vault, c, claims, id, secret);
        InheritingKeepsOwnSealed(d, vault, c, claims, id);
        SameCredentialsSameHolders(InheritLegacy(d, vault, c, claims, id), r.data, vault.key, secret);
      }
    }
  }

  lemma {:induction false} ResolveAllKeeps(d: Prefs, vault: Vault, cs: seq<Candidate>, n: nat,
      drawn: nat -> Option<string>, now: int, secret: string)
    requires n <= |cs| && Kept(d, vault.key, secret)
    ensures var r := ResolveAll(d, vault, cs, n, drawn, now); r.Resolution? ==> Kept(r.data, vault.key, secret)
  {
    hide ResolveOne, LegacyClaims, Kept, Trim;
    if n == 0 {
    } else {
      ResolveAllKeeps(d, vault, cs, n - 1, drawn, now, secret);
      var before := ResolveAll(d, vault, cs, n - 1, drawn, now);
      if before.Resolution? {
        ResolveOneKeeps(before.data, vault, cs[n - 1], LegacyClaims(cs, Trim(cs[n - 1].legacyId)), drawn(n - 1), now,
            secret);
      }
    }
  }

  /** The mutation does not store `secret`. */
  predicate Avoids(m: Mutation, secret: string) { Batches.Replaces(m) ==> Trim(m.pat) != secret }

  lemma SetPatKeeps(d: Prefs, d': Prefs, m: Mutation, key: Option<nat>, secret: string)
    requires Kept(d, key, secret) && Avoids(m, secret)
    requires var r := SetPat(d.pats, d.relink, m, key); r.Some? && d'.pats == r.value.0
    ensures Kept(d', key, secret)
  {
    hide Trim, ToLower;
    assert forall a :: Opens(d', key, a, secret) ==> Opens(d, key, a, secret);
  }

  lemma {:induction false} MutationsKeep(d: Prefs, ms: seq<Mutation>, now: int, key: Option<nat>, secret: string)
    requires Kept(d, key, secret) && forall m | m in ms :: Avoids(m, secret)
    ensures var r := ApplyMutations(d, ms, now, key); r.Done? ==> Kept(r.data, key, secret)
  {
    hide EnsureKnown, SetMonitored, SetAdapter, SetPat, SetName, Kept, Avoids;
    if ms == [] {
    } else {
      var n := |ms| - 1;
      assert ms[n] in ms && forall m | m in ms[..n] :: m in ms;
      MutationsKeep(d, ms[..n], now, key, secret);
      var before := ApplyMutations(d, ms[..n], now, key);
      if before.Done? {
        var after := ApplyMutation(before.data, ms[n], now, key);
        if after.Done? {
          var d0 := EnsureKnown(before.data, ms[n].id, true, now).0;
          KeptDependsOnPats(before.data, d0, key, secret);
          SetPatKeeps(d0, after.data, ms[n], key, secret);
        }
      }
    }
  }

  lemma KeptDependsOnPats(d: Prefs, d': Prefs, key: Option<nat>, secret: string)
    requires d.pats == d'.pats && Kept(d, key, secret)
    ensures Kept(d', key, secret)
  {
    SameCredentialsSameHolders(d, d', key, secret);
  }

  lemma {:induction false} ReconcileKeepsPats(d: Prefs, defaults: seq<(string, bool)>, now: int)
    ensures ReconcileKnown(d, defaults, now).0.pats == d.pats
  {
    hide EnsureKnown;
    if defaults == [] {
    } else {
      ReconcileKeepsPats(d, defaults[..|defaults| - 1], now);
    }
  }

  predicate OpAvoids(op: Op, secret: string) {
    op.Batch? ==> forall m | m in op.mutations :: Avoids(m, secret)
  }

  lemma MutateKeeps(op: Op, vault: Vault, d: Prefs, secret: string)
    requires Kept(d, vault.key, secret) && OpAvoids(op, secret)
    ensures var m := Mutate(op, vault, d); m.Done? ==> Kept(m.data, vault.key, secret)
  {
    hide ApplyBatch, ApplyMutations, InvalidateIds, ReconcileKnown, ResolveAll, NormalOrder, MigratePreference, Trim,
      SetThresholdsTo, DismissAlert, ReconcileDismissed, OneHolder, OwnSealed;
    var r := Mutate(op, vault, d);
    match op {
      case Batch(ms, _, now) =>
        MutationsKeep(d, ms, now, vault.key, secret);
        var m := ApplyMutations(d, ms, now, vault.key);
        if m.Done? && r.Done? { KeptDependsOnPats(m.data, r.data, vault.key, secret); }
      case Invalidate(ids) =>
        InvalidateKeepsRevision(d, ids);
        KeptDependsOnPats(d, r.data, vault.key, secret);
      case Reconcile(defaults, now) =>
        ReconcileKeepsPats(d, defaults, now);
        KeptDependsOnPats(d, r.data, vault.key, secret);
      case Resolve(cs, drawn, now) => ResolveAllKeeps(d, vault, cs, |cs|, drawn, now, secret);
      case MigratePat(oldId, newId) =>
        MigrationKeepsOneHolder(d, vault.key, Trim(oldId), Trim(newId), secret);
        MigrationKeepsOwnSealed(d, vault.key, Trim(oldId), Trim(newId));
      case _ => if r.Done? { KeptDependsOnPats(d, r.data, vault.key, secret); }
    }
  }

  /** A credential that nobody enters again has at most one holder at every point of every
      run, in memory and in the file, however often accounts migrate, commits fail or the
      program restarts; and every credential stays sealed for its own account. */
  lemma {:induction false} CredentialKeepsOneHolder(c: Cell, vault: Vault, events: seq<Event>, secret: string)
    requires Kept(c.memory, vault.key, secret) && Kept(Loaded(c.disk), vault.key, secret)
    requires forall e | e in events && e.TryCommit? :: OpAvoids(e.op, secret)
    ensures var c' := After(c, vault, events);
            Kept(c'.memory, vault.key, secret) && Kept(Loaded(c'.disk), vault.key, secret)
  {
    hide Kept, OpAvoids, Mutate, Loaded, NormalOrder;
    if events == [] {
    } else {
      var n := |events| - 1;
      assert events[n] in events && forall e | e in events[..n] :: e in events;
      CredentialKeepsOneHolder(c, vault, events[..n], secret);
      var before, e := After(c, vault, events[..n]), events[n];
      if e.TryCommit? {
        var m := Mutate(e.op, vault, before.memory);
        MutateKeeps(e.op, vault, before.memory, secret);
        if m.Done? {
          var next := Successor(m.data);
          LoadedKeepsPats(next);
          KeptDependsOnPats(m.data, next, vault.key, secret);
          KeptDependsOnPats(next, Loaded(Some(Document(FORMAT_VERSION, next))), vault.key, secret);
        }
      }
    }
  }

  lemma LoadedKeepsPats(d: Prefs)
    ensures Loaded(Some(Document(FORMAT_VERSION, d))).pats == d.pats
  {
    hide NormalOrder, RelinkFlags;
  }

  /* ---------- ambiguous claims ---------- */

  lemma {:induction false} ClaimIsCounted(cs: seq<Candidate>, p: nat, legacyId: string)
    requires p < |cs| && Trim(cs[p].legacyId) == legacyId
    ensures LegacyClaims(cs, legacyId) >= 1
  {
    hide Trim;
    if p == |cs| - 1 {
    } else {
      ClaimIsCounted(cs[..|cs| - 1], p, legacyId);
    }
  }

  /** A legacy id claimed twice in one call is claimed by every claimant of the call. */
  lemma {:induction false} TwoClaimants(cs: seq<Candidate>, p: nat, q: nat, legacyId: string)
    requires p < q < |cs| && Trim(cs[p].legacyId) == legacyId == Trim(cs[q].legacyId)
    ensures LegacyClaims(cs, legacyId) >= 2
  {
    hide Trim;
    if q != |cs| - 1 {
      TwoClaimants(cs[..|cs| - 1], p, q, legacyId);
    } else {
      ClaimIsCounted(cs[..|cs| - 1], p, legacyId);
    }
  }

  /** The legacy record a claim is about: its credential and its relink flag. */
  ghost predicate SameRecord(d: Prefs, d': Prefs, id: string) {
    CipherAt(d.pats, id) == CipherAt(d'.pats, id) && BoolAt(d.relink, id) == BoolAt(d'.relink, id)
  }

  predicate HasCredential(d: Prefs, id: string) { !CipherAt(d.pats, id).Blank? || BoolAt(d.relink, id) }

  lemma CredentialIsPreference(d: Prefs, id: string)
    requires id != "" && HasCredential(d, id)
    ensures HasLegacyPreference(d, id)
  {
  }

  /** Nothing is recorded under an id, besides its query revision, exactly when erasing the id
      everywhere else leaves the document as it is. */
  lemma RecordedExactly(d: Prefs, id: string)
    ensures HasLegacyPreference(d, id) <==>
            id != "" && (id in d.order || d != d.(known := d.known - {id}, monitored := d.monitored - {id},
              adapters := d.adapters - {id}, pats := d.pats - {id}, names := d.names - {id},
              firstSeen := d.firstSeen - {id}, relink := d.relink - {id}))
  {
    assert id !in d.known ==> d.known - {id} == d.known;
    assert id !in d.monitored ==> d.monitored - {id} == d.monitored;
    assert id !in d.adapters ==> d.adapters - {id} == d.adapters;
    assert id !in d.pats ==> d.pats - {id} == d.pats;
    assert id !in d.names ==> d.names - {id} == d.names;
    assert id !in d.firstSeen ==> d.firstSeen - {id} == d.firstSeen;
    assert id !in d.relink ==> d.relink - {id} == d.relink;
    assert id !in d.known - {id} && id !in d.monitored - {id} && id !in d.adapters - {id} && id !in d.pats - {id};
    assert id !in d.names - {id} && id !in d.firstSeen - {id} && id !in d.relink - {id};
  }

  lemma MigrationOfNothing(d: Prefs, key: Option<nat>, oldId: string, newId: string)
    ensures oldId == "" || newId == "" || oldId == newId ==> MigratePreference(d, key, oldId, newId) == Some(d)
  {
  }

  /** Inheriting leaves the record of an ambiguous legacy id, and of ids the candidate does not
      claim, as they were. */
  lemma InheritingLeavesOthers(d: Prefs, vault: Vault, c: Candidate, claims: nat, id: string, other: string)
    requires other != id && (Trim(c.legacyId) != other || claims != 1)
    ensures SameRecord(d, InheritLegacy(d, vault, c, claims, id), other)
  {
    hide InheritLegacy, MigratePreference, Trim, Decrypt;
    InheritCases(d, vault, c, claims, id);
    var legacyId := Trim(c.legacyId);
    MigrationShape(d, vault.key, legacyId, id);
    if legacyId != "" && id != "" && legacyId != id { MigrationMovesCredential(d, vault.key, legacyId, id); }
    MigrationOfNothing(d, vault.key, legacyId, id);
    var moved := MigratePreference(d, vault.key, legacyId, id);
    assert moved.Some? && other != legacyId ==> Lookup(moved.value.pats, other) == Lookup(d.pats, other);
  }

  lemma InheritingKeepsRelink(d: Prefs, vault: Vault, c: Candidate, claims: nat, id: string, other: string)
    requires BoolAt(d.relink, other) && Trim(c.legacyId) != other
    ensures BoolAt(InheritLegacy(d, vault, c, claims, id).relink, other)
  {
    hide InheritLegacy, MigratePreference, Trim;
    InheritCases(d, vault, c, claims, id);
    MigrationShape(d, vault.key, Trim(c.legacyId), id);
  }

  lemma AmbiguousClaimRelinks(d: Prefs, vault: Vault, c: Candidate, claims: nat, id: string)
    requires Trim(c.legacyId) != "" && claims != 1 && HasCredential(d, Trim(c.legacyId))
    ensures BoolAt(InheritLegacy(d, vault, c, claims, id).relink, id)
  {
    CredentialIsPreference(d, Trim(c.legacyId));
    hide HasLegacyPreference, HasStableBasis, Trim, MigratePreference, CipherAt;
  }

  /** Candidate p is new when its turn comes. */
  ghost predicate IsNew(d: Prefs, vault: Vault, cs: seq<Candidate>, p: nat, drawn: nat -> Option<string>, now: int)
    requires p < |cs|
  {
    var before := ResolveAll(d, vault, cs, p, drawn, now);
    IsBlank(cs[p].accountId) && before.Resolution? && FindMatch(before.data.identities, cs[p]).None?
  }

  lemma ResolveOneLeavesOthers(d: Prefs, vault: Vault, c: Candidate, claims: nat, drawn: Option<string>, now: int,
      other: string)
    requires Trim(c.legacyId) != other || claims != 1
    ensures var r := ResolveOne(d, vault, c, claims, drawn, now);
            r.Resolution? && other !in r.ids ==> SameRecord(d, r.data, other)
    ensures var r := ResolveOne(d, vault, c, claims, drawn, now);
            r.Resolution? && BoolAt(d.relink, other) && Trim(c.legacyId) != other ==> BoolAt(r.data.relink, other)
  {
    hide Matches, UsesDerivedId, Trim, EnsureKnown, DerivedId, InheritLegacy, Inherits, IdentityOf, CipherAt, BoolAt;
    ResolveOneShape(d, vault, c, claims, drawn, now);
    if UsesDerivedId(c) || drawn.Some? {
      var id := NewId(vault, c, drawn);
      if other != id { InheritingLeavesOthers(d, vault, c, claims, id, other); }
      if BoolAt(d.relink, other) && Trim(c.legacyId) != other { InheritingKeepsRelink(d, vault, c, claims, id, other); }
    }
    hide ResolveOne;
  }

  lemma NewClaimantRelinks(d: Prefs, vault: Vault, c: Candidate, claims: nat, drawn: Option<string>, now: int)
    requires IsBlank(c.accountId) && FindMatch(d.identities, c).None?
    requires Trim(c.legacyId) != "" && claims != 1 && HasCredential(d, Trim(c.legacyId))
    ensures var r := ResolveOne(d, vault, c, claims, drawn, now);
            r.Resolution? ==> |r.ids| == 1 && BoolAt(r.data.relink, r.ids[0])
  {
    hide Matches, UsesDerivedId, Trim, NewId, InheritLegacy, HasCredential, Register;
    RegisterFails(d, vault, c, claims, drawn, now);
    if UsesDerivedId(c) || drawn.Some? { RegisterShape(d, vault, c, claims, drawn, now); }
    if UsesDerivedId(c) || drawn.Some? {
      AmbiguousClaimRelinks(d, vault, c, claims, NewId(vault, c, drawn));
    }
  }

  /** None of the ids a call answers is a legacy id of the call, or the one in question. */
  ghost predicate IdsApart(r: Resolved, cs: seq<Candidate>, legacyId: string) {
    r.Resolution? ==>
      legacyId !in r.ids && forall id, p | id in r.ids && 0 <= p < |cs| :: Trim(cs[p].legacyId) != id
  }

  lemma {:induction false} AmbiguousRecordStays(d: Prefs, vault: Vault, cs: seq<Candidate>, n: nat,
      drawn: nat -> Option<string>, now: int, legacyId: string)
    requires n <= |cs| && legacyId != "" && LegacyClaims(cs, legacyId) != 1
    requires IdsApart(ResolveAll(d, vault, cs, n, drawn, now), cs, legacyId)
    ensures var r := ResolveAll(d, vault, cs, n, drawn, now);
            r.Resolution? ==> |r.ids| == n && SameRecord(d, r.data, legacyId)
  {
    hide ResolveOne, LegacyClaims, Trim, BoolAt, CipherAt;
    if n == 0 {
    } else {
      ResolveAllStep(d, vault, cs, n, drawn, now);
      var before, r := ResolveAll(d, vault, cs, n - 1, drawn, now), ResolveAll(d, vault, cs, n, drawn, now);
      hide ResolveAll;
      if r.Resolution? {
        assert forall id | id in before.ids :: id in r.ids;
        var c, claims := cs[n - 1], LegacyClaims(cs, Trim(cs[n - 1].legacyId));
        AmbiguousRecordStays(d, vault, cs, n - 1, drawn, now, legacyId);
        ResolveOneShape(before.data, vault, c, claims, drawn(n - 1), now);
        ResolveOneLeavesOthers(before.data, vault, c, claims, drawn(n - 1), now, legacyId);
      }
    }
  }

  lemma {:induction false} ClaimantsStayFlagged(d: Prefs, vault: Vault, cs: seq<Candidate>, n: nat,
      drawn: nat -> Option<string>, now: int, legacyId: string, p: nat)
    requires p < n <= |cs| && legacyId != "" && LegacyClaims(cs, legacyId) != 1 && HasCredential(d, legacyId)
    requires IdsApart(ResolveAll(d, vault, cs, n, drawn, now), cs, legacyId)
    requires Trim(cs[p].legacyId) == legacyId && IsNew(d, vault, cs, p, drawn, now)
    ensures var r := ResolveAll(d, vault, cs, n, drawn, now);
            r.Resolution? ==> |r.ids| == n && BoolAt(r.data.relink, r.ids[p])
  {
    hide ResolveOne, LegacyClaims, Trim, FindMatch, IsBlank, BoolAt, CipherAt;
    ResolveAllStep(d, vault, cs, n, drawn, now);
    AmbiguousRecordStays(d, vault, cs, n, drawn, now, legacyId);
    var before, r := ResolveAll(d, vault, cs, n - 1, drawn, now), ResolveAll(d, vault, cs, n, drawn, now);
    if r.Resolution? {
      assert IdsApart(before, cs, legacyId) by { assert forall id | id in before.ids :: id in r.ids; }
      hide ResolveAll;
      AmbiguousRecordStays(d, vault, cs, n - 1, drawn, now, legacyId);
      var c, claims := cs[n - 1], LegacyClaims(cs, Trim(cs[n - 1].legacyId));
      if p < n - 1 {
        ClaimantsStayFlagged(d, vault, cs, n - 1, drawn, now, legacyId, p);
        assert before.ids[p] in r.ids;
        ResolveOneLeavesOthers(before.data, vault, c, claims, drawn(n - 1), now, before.ids[p]);
      } else {
        NewClaimantRelinks(before.data, vault, c, claims, drawn(n - 1), now);
      }
    }
  }

  /** A new candidate is new when its turn comes. */
  lemma NewcomerIsNew(d: Prefs, vault: Vault, cs: seq<Candidate>, p: nat, drawn: nat -> Option<string>, now: int)
    requires Collisionless(vault.hash) && Consistent(d, vault.hash) && GoodCall(d, vault.hash, cs, drawn) && p < |cs|
    requires ResolveAll(d, vault, cs, |cs|, drawn, now).Resolution? && Newcomer(d, cs, p)
    ensures IsNew(d, vault, cs, p, drawn, now)
  {
    hide Consistent, Collisionless, GoodCall, Newcomer, IsBlank;
    PrefixResolves(d, vault, cs, p, |cs|, drawn, now);
    NewcomerExactly(d, vault, cs, p, drawn, now);
  }

  /** A legacy id claimed by two candidates of one call goes to neither: its credential and
      flag stay where they are, and every new claimant must be relinked, so no query is
      given a credential under a new id. */
  lemma AmbiguousLegacyGoesToNobody(d: Prefs, vault: Vault, cs: seq<Candidate>, drawn: nat -> Option<string>,
      now: int, legacyId: string, p: nat, q: nat)
    requires Collisionless(vault.hash) && Consistent(d, vault.hash) && GoodCall(d, vault.hash, cs, drawn)
    requires LegacyApart(d, vault.hash, cs, drawn)
    requires p < q < |cs| && Trim(cs[p].legacyId) == legacyId == Trim(cs[q].legacyId)
    requires legacyId != "" && HasCredential(d, legacyId)
    ensures var r := ResolveAll(d, vault, cs, |cs|, drawn, now);
            r.Resolution? ==>
              && |r.ids| == |cs| && SameRecord(d, r.data, legacyId)
              && forall k: nat | k < |cs| && Trim(cs[k].legacyId) == legacyId && Newcomer(d, cs, k) ::
                   BoolAt(r.data.relink, r.ids[k]) && ReadPat(r.data, vault.key, r.ids[k]) == ""
  {
    hide ResolveAll, LegacyClaims, Trim, IsNew, SameRecord, HasCredential, Decrypt, Consistent, Collisionless, GoodCall,
      LegacyApart, Newcomer;
    TwoClaimants(cs, p, q, legacyId);
    AnswersAreNotLegacy(d, vault, cs, |cs|, drawn, now);
    AmbiguousRecordStays(d, vault, cs, |cs|, drawn, now, legacyId);
    var r := ResolveAll(d, vault, cs, |cs|, drawn, now);
    if r.Resolution? {
      forall k: nat | k < |cs| && Trim(cs[k].legacyId) == legacyId && Newcomer(d, cs, k)
        ensures BoolAt(r.data.relink, r.ids[k])
      {
        NewcomerIsNew(d, vault, cs, k, drawn, now);
        ClaimantsStayFlagged(d, vault, cs, |cs|, drawn, now, legacyId, k);
      }
    }
  }

  /* ---------- moving snapshots ---------- */

  /** The gate in front of a snapshot migration. */
  ghost predicate CanMigrateSnapshot(d: Prefs, c: Candidate, rawId: string) {
    var legacyId, id := Trim(c.legacyId), Trim(rawId);
    && HasStableBasis(c) && legacyId != "" && id != "" && legacyId != id
    && id in d.identities && d.identities[id].legacyId == legacyId && !BoolAt(d.relink, id)
    && forall other | other in d.identities && other != id :: Trim(d.identities[other].legacyId) != legacyId
  }

  /** At any time the history of a legacy id may move to at most one account. */
  lemma OneSnapshotHeir(d: Prefs, c: Candidate, id: string, c': Candidate, id': string)
    requires CanMigrateSnapshot(d, c, id) && CanMigrateSnapshot(d, c', id')
    requires Trim(c.legacyId) == Trim(c'.legacyId)
    ensures Trim(id) == Trim(id')
  {
    hide HasStableBasis, Trim;
    TrimIdempotent(c.legacyId);
  }
}
