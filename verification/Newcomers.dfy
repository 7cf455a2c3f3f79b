/** Which candidates of a resolution call are new, told from the document and the call alone, and
    which ids a call can answer. */
module Newcomers {
  import opened Options
  import opened Text
  import opened Preferences
  import opened Commits
  import opened Identities

  /** The last of the first n candidates that is resolved by basis b. */
  function Latest(cs: seq<Candidate>, n: nat, b: Basis): (r: Option<nat>)
    requires n <= |cs|
    ensures r.Some? ==> r.value < n
  {
    if n == 0 then None
    else if IsBlank(cs[n - 1].accountId) && CandidateBasis(cs[n - 1]) == b then Some(n - 1)
    else Latest(cs, n - 1, b)
  }

  /** Candidate c finds an identity record once the first n candidates are resolved: that of the
      last candidate with its basis, or else one of the document. */
  ghost predicate Finds(d: Prefs, cs: seq<Candidate>, n: nat, c: Candidate)
    requires n <= |cs|
  {
    var b := CandidateBasis(c);
    !b.Nothing? && match Latest(cs, n, b)
                   case Some(q) => Matches(IdentityOf(cs[q], "", 0), c)
                   case None => FindMatch(d.identities, c).Some?
  }

  /** Candidate p is given a new identity record. */
  ghost predicate Newcomer(d: Prefs, cs: seq<Candidate>, p: nat)
    requires p < |cs|
  {
    IsBlank(cs[p].accountId) && !Finds(d, cs, p, cs[p])
  }

  /* ---------- one candidate ---------- */

  /** What one candidate does to the records: nothing, or a new one under its new id. */
  lemma ResolveOneRecords(d: Prefs, vault: Vault, e: Candidate, claims: nat, drawn: Option<string>, now: int)
    requires "" !in d.identities
    ensures var r, found := ResolveOne(d, vault, e, claims, drawn, now), FindMatch(d.identities, e);
            r.Resolution? ==>
              if !IsBlank(e.accountId) then r.ids == [Trim(e.accountId)] && r.data.identities == d.identities
              else if found.Some? then r.ids == [found.value] && r.data.identities == d.identities
              else
                && (UsesDerivedId(e) || drawn.Some?)
                && var id := NewId(vault, e, drawn);
                   r.ids == [id] && r.data.identities == d.identities[id := IdentityOf(e, id, now)]
  {
    hide Matches, UsesDerivedId, Trim, Register, NewId, IdentityOf, EnsureKnown;
    RegisterFails(d, vault, e, claims, drawn, now);
    if UsesDerivedId(e) || drawn.Some? { RegisterRecords(d, vault, e, claims, drawn, now); }
  }

  lemma MatchIgnoresId(e: Candidate, id: string, now: int, c: Candidate)
    ensures Matches(IdentityOf(e, id, now), c) == Matches(IdentityOf(e, "", 0), c)
  {
    hide IsBlank, NormalUrl;
  }

  lemma IdentityOfBasis(e: Candidate, id: string, now: int)
    ensures IdentityBasis(IdentityOf(e, id, now)) == CandidateBasis(e)
  {
    hide BasisOf;
  }

  /** A record that e matched serves any candidate with e's basis as e's own record would. */
  lemma MatchedServesAlike(i: Identity, e: Candidate, c: Candidate)
    requires NotBoth(i.sourceId, i.fingerprint) && NotBoth(e.sourceId, e.fingerprint)
             && NotBoth(c.sourceId, c.fingerprint)
    requires Matches(i, e) && CandidateBasis(e) == CandidateBasis(c)
    ensures Matches(i, c) == Matches(IdentityOf(e, "", 0), c)
  {
    hide Trim, ToLower, DropTrailing;
  }

  lemma SameBasisServes(i: Identity, c: Candidate)
    requires NotBoth(i.sourceId, i.fingerprint) && NotBoth(c.sourceId, c.fingerprint)
    ensures Matches(i, c) ==> IdentityBasis(i) == CandidateBasis(c) && !CandidateBasis(c).Nothing?
  {
    MatchingMeansSameBasis(i, c);
  }

  /** At most one record has a basis. */
  lemma OneRecord(d: Prefs, hash: (string, string, string) -> string, c: Candidate, id: string, j: string)
    requires Consistent(d, hash) && NotBoth(c.sourceId, c.fingerprint)
    requires id in d.identities && IdentityBasis(d.identities[id]) == CandidateBasis(c)
    requires j in d.identities && Matches(d.identities[j], c)
    ensures id == j
  {
    hide Matches, BasisOf, HostId, Derivable, NotBoth, Trim;
    MatchingMeansSameBasis(d.identities[j], c);
    var m := BasesOf(d.identities);
    assert m[id] == m[j] == CandidateBasis(c);
  }

  /** A record replaced by a new one did not serve candidates of another basis. */
  lemma ReplacedRecord(d: Prefs, hash: (string, string, string) -> string, e: Candidate, id: string, c: Candidate)
    requires Collisionless(hash) && Consistent(d, hash)
    requires NotBoth(e.sourceId, e.fingerprint) && NotBoth(c.sourceId, c.fingerprint)
    requires if UsesDerivedId(e) then id == DerivedId(hash, e) else Unseen(d, hash, id)
    requires id in d.identities && CandidateBasis(e) != CandidateBasis(c)
    ensures !Matches(d.identities[id], c)
  {
    hide Matches, BasisOf, UsesDerivedId, DerivedId, NotBoth, Trim;
    MatchingMeansSameBasis(d.identities[id], c);
    DerivedIdIsHostId(hash, e);
    var m, b := BasesOf(d.identities), CandidateBasis(e);
    assert id in m && m[id] == IdentityBasis(d.identities[id]);
    assert Derivable(hash, HostId(hash, b.sourceId));
  }

  /** What one candidate changes about what candidate c finds. */
  lemma FindsStep(d: Prefs, vault: Vault, e: Candidate, claims: nat, drawn: Option<string>, now: int, c: Candidate)
    requires Collisionless(vault.hash) && Consistent(d, vault.hash)
    requires NotBoth(e.sourceId, e.fingerprint) && NotBoth(c.sourceId, c.fingerprint) && !CandidateBasis(c).Nothing?
    requires drawn.Some? ==> Unseen(d, vault.hash, drawn.value)
    requires ResolveOne(d, vault, e, claims, drawn, now).Resolution?
    ensures FindMatch(ResolveOne(d, vault, e, claims, drawn, now).data.identities, c).Some? <==>
              if IsBlank(e.accountId) && CandidateBasis(e) == CandidateBasis(c) then Matches(IdentityOf(e, "", 0), c)
              else FindMatch(d.identities, c).Some?
  {
    hide Matches, BasisOf, Collisionless, Derivable, NotBoth, Trim, ResolveOne, Unseen, IdentityOf, UsesDerivedId,
      DerivedId, CandidateBasis, OneToOne, BasesOf;
    NoEmptyRecord(d, vault.hash);
    ResolveOneRecords(d, vault, e, claims, drawn, now);
    var r := ResolveOne(d, vault, e, claims, drawn, now);
    if IsBlank(e.accountId) {
      var found := FindMatch(d.identities, e);
      if found.Some? {
        var i := d.identities[found.value];
        SameBasisServes(i, e);
        if CandidateBasis(e) == CandidateBasis(c) {
          MatchedServesAlike(i, e, c);
          if FindMatch(d.identities, c).Some? {
            OneRecord(d, vault.hash, c, found.value, FindMatch(d.identities, c).value);
          }
        }
      } else {
        RegisteredFinds(d, vault, e, drawn, now, c);
      }
    }
  }

  lemma NoEmptyRecord(d: Prefs, hash: (string, string, string) -> string)
    requires Consistent(d, hash)
    ensures "" !in d.identities && Tidy(d.identities)
  {
    hide Tidy, BasisOf;
    assert "" in d.identities ==> "" in BasesOf(d.identities);
  }

  lemma RegisteredFinds(d: Prefs, vault: Vault, e: Candidate, drawn: Option<string>, now: int, c: Candidate)
    requires Collisionless(vault.hash) && Consistent(d, vault.hash)
    requires NotBoth(e.sourceId, e.fingerprint) && NotBoth(c.sourceId, c.fingerprint) && !CandidateBasis(c).Nothing?
    requires UsesDerivedId(e) || drawn.Some?
    requires drawn.Some? ==> Unseen(d, vault.hash, drawn.value)
    requires FindMatch(d.identities, e).None?
    ensures var id := NewId(vault, e, drawn);
            FindMatch(d.identities[id := IdentityOf(e, id, now)], c).Some? <==>
              if CandidateBasis(e) == CandidateBasis(c) then Matches(IdentityOf(e, "", 0), c)
              else FindMatch(d.identities, c).Some?
  {
    hide Matches, BasisOf, Collisionless, Derivable, NotBoth, Trim, Unseen, IdentityOf, UsesDerivedId, DerivedId,
      CandidateBasis, OneToOne, BasesOf, Tidy, Grows, HostId;
    var id := NewId(vault, e, drawn);
    var d' := d.(identities := d.identities[id := IdentityOf(e, id, now)]);
    RecordingIsConsistent(d, vault.hash, e, id, now);
    MatchIgnoresId(e, id, now, c);
    IdentityOfBasis(e, id, now);
    var after := FindMatch(d'.identities, c);
    if CandidateBasis(e) == CandidateBasis(c) {
      if after.Some? { OneRecord(d', vault.hash, c, id, after.value); }
      assert id in d'.identities;
    } else {
      NewRecordNotBoth(d', vault.hash, id);
      SameBasisServes(d'.identities[id], c);
      if id in d.identities { ReplacedRecord(d, vault.hash, e, id, c); }
      var before := FindMatch(d.identities, c);
      if before.Some? {
        assert before.value in d'.identities && d'.identities[before.value] == d.identities[before.value];
      }
    }
  }

  lemma NewRecordNotBoth(d: Prefs, hash: (string, string, string) -> string, id: string)
    requires Consistent(d, hash) && id in d.identities
    ensures NotBoth(d.identities[id].sourceId, d.identities[id].fingerprint)
  {
    hide OneToOne, BasesOf;
  }

  /* ---------- one call ---------- */

  /** A call that resolves has resolved every part before. */
  lemma {:induction false} PrefixResolves(d: Prefs, vault: Vault, cs: seq<Candidate>, p: nat, n: nat,
      drawn: nat -> Option<string>, now: int)
    requires p <= n <= |cs|
    ensures var before, r := ResolveAll(d, vault, cs, p, drawn, now), ResolveAll(d, vault, cs, n, drawn, now);
            r.Resolution? ==> before.Resolution? && before.ids <= r.ids
    decreases n
  {
    hide ResolveOne, LegacyClaims, Trim;
    if p == n {
    } else {
      PrefixResolves(d, vault, cs, p, n - 1, drawn, now);
      ResolveAllStep(d, vault, cs, n, drawn, now);
      hide ResolveAll;
    }
  }

  /** What the first n candidates of a call leave for a further one to find. */
  lemma {:induction false} FindsExactly(d: Prefs, vault: Vault, cs: seq<Candidate>, n: nat,
      drawn: nat -> Option<string>, now: int, c: Candidate)
    requires Collisionless(vault.hash) && Consistent(d, vault.hash) && GoodCall(d, vault.hash, cs, drawn) && n <= |cs|
    requires NotBoth(c.sourceId, c.fingerprint) && ResolveAll(d, vault, cs, n, drawn, now).Resolution?
    ensures FindMatch(ResolveAll(d, vault, cs, n, drawn, now).data.identities, c).Some? <==> Finds(d, cs, n, c)
  {
    hide ResolveOne, LegacyClaims, Trim, Consistent, Collisionless, CandidateBasis, Matches, IdentityOf, NotBoth,
      Unseen, Names, BasesOf, Grows;
    NothingFindsNothing(ResolveAll(d, vault, cs, n, drawn, now).data.identities, c);
    if n == 0 {
    } else if !CandidateBasis(c).Nothing? {
      ResolveAllStep(d, vault, cs, n, drawn, now);
      ResolveAllNames(d, vault, cs, n - 1, drawn, now);
      FindsExactly(d, vault, cs, n - 1, drawn, now, c);
      var before := ResolveAll(d, vault, cs, n - 1, drawn, now);
      FindsStep(before.data, vault, cs[n - 1], LegacyClaims(cs, Trim(cs[n - 1].legacyId)), drawn(n - 1), now, c);
    }
  }

  lemma NothingFindsNothing(identities: map<string, Identity>, c: Candidate)
    ensures CandidateBasis(c).Nothing? ==> FindMatch(identities, c).None?
  {
    hide Trim, ToLower, NormalUrl;
  }

  /** The static test is right: candidate p is new when its turn comes. */
  lemma NewcomerExactly(d: Prefs, vault: Vault, cs: seq<Candidate>, p: nat, drawn: nat -> Option<string>, now: int)
    requires Collisionless(vault.hash) && Consistent(d, vault.hash) && GoodCall(d, vault.hash, cs, drawn) && p < |cs|
    requires ResolveAll(d, vault, cs, p, drawn, now).Resolution?
    ensures var before := ResolveAll(d, vault, cs, p, drawn, now);
            Newcomer(d, cs, p) <==> IsBlank(cs[p].accountId) && FindMatch(before.data.identities, cs[p]).None?
  {
    hide Consistent, Collisionless, Finds, Unseen, IsBlank;
    FindsExactly(d, vault, cs, p, drawn, now, cs[p]);
  }

  /* ---------- the ids of a call ---------- */

  /** An id that a call can answer. */
  ghost predicate MayAnswer(d: Prefs, hash: (string, string, string) -> string, cs: seq<Candidate>,
      drawn: nat -> Option<string>, id: string)
  {
    || id in d.identities || Derivable(hash, id)
    || (exists i: nat :: i < |cs| && drawn(i) == Some(id))
    || (exists i: nat :: i < |cs| && Trim(cs[i].accountId) == id)
  }

  /** The legacy ids of a call are apart from everything it can answer. Legacy ids are positions
      in the host's lists, account ids are made up by this program. */
  ghost predicate LegacyApart(d: Prefs, hash: (string, string, string) -> string, cs: seq<Candidate>,
      drawn: nat -> Option<string>)
  {
    forall p | 0 <= p < |cs| && !IsBlank(cs[p].legacyId) :: !MayAnswer(d, hash, cs, drawn, Trim(cs[p].legacyId))
  }

  lemma {:induction false} AnswersAllowed(d: Prefs, vault: Vault, cs: seq<Candidate>, n: nat,
      drawn: nat -> Option<string>, now: int)
    requires Collisionless(vault.hash) && Consistent(d, vault.hash) && GoodCall(d, vault.hash, cs, drawn) && n <= |cs|
    ensures var r := ResolveAll(d, vault, cs, n, drawn, now);
            r.Resolution? ==>
              && (forall id | id in r.ids :: id != "" && Trim(id) == id && MayAnswer(d, vault.hash, cs, drawn, id))
              && (forall id | id in r.data.identities :: MayAnswer(d, vault.hash, cs, drawn, id))
  {
    hide ResolveOne, LegacyClaims, Trim, Consistent, Collisionless, CandidateBasis, Matches, IdentityOf, NotBoth,
      Unseen, Names, BasesOf, Grows, Derivable, UsesDerivedId, DerivedId;
    if n == 0 {
    } else {
      ResolveAllStep(d, vault, cs, n, drawn, now);
      var before, r := ResolveAll(d, vault, cs, n - 1, drawn, now), ResolveAll(d, vault, cs, n, drawn, now);
      if r.Resolution? {
        AnswersAllowed(d, vault, cs, n - 1, drawn, now);
        ResolveAllNames(d, vault, cs, n - 1, drawn, now);
        hide ResolveAll;
        var e, claims := cs[n - 1], LegacyClaims(cs, Trim(cs[n - 1].legacyId));
        NoEmptyRecord(before.data, vault.hash);
        ResolveOneRecords(before.data, vault, e, claims, drawn(n - 1), now);
        TrimIdempotent(e.accountId);
        if UsesDerivedId(e) || drawn(n - 1).Some? { NewIdAllowed(d, vault, cs, n - 1, drawn); }
      }
    }
  }

  lemma NewIdAllowed(d: Prefs, vault: Vault, cs: seq<Candidate>, p: nat, drawn: nat -> Option<string>)
    requires Collisionless(vault.hash) && GoodCall(d, vault.hash, cs, drawn) && p < |cs|
    requires UsesDerivedId(cs[p]) || drawn(p).Some?
    ensures var id := NewId(vault, cs[p], drawn(p));
            id != "" && Trim(id) == id && MayAnswer(d, vault.hash, cs, drawn, id)
  {
    hide Trim, ToLower;
    if UsesDerivedId(cs[p]) {
      NewIdIsTidy(vault.hash, cs[p]);
      assert Derivable(vault.hash, NewId(vault, cs[p], drawn(p)));
    }
  }

  /** No answered id is a legacy id of the call. */
  lemma AnswersAreNotLegacy(d: Prefs, vault: Vault, cs: seq<Candidate>, n: nat, drawn: nat -> Option<string>, now: int)
    requires Collisionless(vault.hash) && Consistent(d, vault.hash) && GoodCall(d, vault.hash, cs, drawn) && n <= |cs|
    requires LegacyApart(d, vault.hash, cs, drawn)
    ensures var r := ResolveAll(d, vault, cs, n, drawn, now);
            r.Resolution? ==> forall id, p | id in r.ids && 0 <= p < |cs| :: Trim(cs[p].legacyId) != id
  {
    hide Trim, Consistent, Collisionless, GoodCall, MayAnswer, ResolveAll;
    AnswersAllowed(d, vault, cs, n, drawn, now);
  }
}
