/** Account ids follow credentials: over every run of commits, failures and restarts two
    candidates share an id exactly when their credentials have the same canonical basis. */
module Identities {
  import opened Options
  import opened Text
  import opened Storage
  import opened Preferences
  import opened Commits

  /** What identifies a credential. Host credentials with a source id are compared without
      case and surrounding spaces, because their ids are derived from that form. */
  datatype Basis =
    | Host(sourceId: string)
    | Source(source: string, sourceId: string)
    | Print(source: string, url: string, fingerprint: string)
    | Nothing

  function BasisOf(source: string, sourceId: string, baseUrl: string, fingerprint: string): Basis {
    if !IsBlank(sourceId) then
      if ToLower(source) == "host" then Host(Trim(sourceId)) else Source(source, sourceId)
    else if !IsBlank(fingerprint) then Print(source, NormalUrl(baseUrl), fingerprint)
    else Nothing
  }

  function CandidateBasis(c: Candidate): Basis { BasisOf(c.source, c.sourceId, c.baseUrl, c.fingerprint) }

  function IdentityBasis(i: Identity): Basis { BasisOf(i.source, i.sourceId, i.baseUrl, i.fingerprint) }

  /** The callers compute a fingerprint only for credentials without a source id. */
  predicate NotBoth(sourceId: string, fingerprint: string) { IsBlank(sourceId) || IsBlank(fingerprint) }

  ghost predicate Collisionless(hash: (string, string, string) -> string) {
    && (forall a, b, c, a', b', c' :: hash(a, b, c) == hash(a', b', c') ==> a == a' && b == b' && c == c')
    && (forall a, b, c :: hash(a, b, c) != "" && Trim(hash(a, b, c)) == hash(a, b, c))
  }

  ghost predicate Derivable(hash: (string, string, string) -> string, id: string) {
    exists a, b, c :: hash(a, b, c) == id
  }

  function HostId(hash: (string, string, string) -> string, sourceId: string): string { hash("host", sourceId, "") }

  type BasisMap = map<string, Basis>

  function BasesOf(identities: map<string, Identity>): BasisMap {
    map id | id in identities :: IdentityBasis(identities[id])
  }

  /** Host bases own their derived ids, no other basis owns a derivable id, and no basis
      owns two ids. */
  ghost predicate OneToOne(m: BasisMap, hash: (string, string, string) -> string) {
    && "" !in m
    && (forall id | id in m :: if m[id].Host? then id == HostId(hash, m[id].sourceId) else !Derivable(hash, id))
    && (forall id, id' | id in m && id' in m && !m[id].Nothing? && m[id] == m[id'] :: id == id')
  }

  predicate Tidy(identities: map<string, Identity>) {
    forall id | id in identities ::
      Trim(id) == id && NotBoth(identities[id].sourceId, identities[id].fingerprint)
  }

  /** The identity records of a document are consistent. */
  ghost predicate Consistent(d: Prefs, hash: (string, string, string) -> string) {
    && Tidy(d.identities)
    && OneToOne(BasesOf(d.identities), hash)
  }

  /** The id that basis `b` has. */
  ghost predicate Names(m: BasisMap, hash: (string, string, string) -> string, b: Basis, id: string) {
    match b
    case Host(sourceId) => id == HostId(hash, sourceId)
    case Nothing => false
    case _ => id in m && m[id] == b
  }

  ghost predicate Grows(m: BasisMap, m': BasisMap) {
    forall id | id in m :: id in m' && m'[id] == m[id]
  }

  /** A random id never seen before. */
  ghost predicate Unseen(d: Prefs, hash: (string, string, string) -> string, id: string) {
    id != "" && Trim(id) == id && id !in d.identities && id !in d.known && !Derivable(hash, id)
  }

  lemma {:induction false} TrailingDropped(s: string, c: char) returns (back: string)
    ensures s == DropTrailing(s, c) + back && forall x | x in back :: x == c
  {
    if s != "" && s[|s| - 1] == c {
      back := TrailingDropped(s[..|s| - 1], c);
      back := back + [c];
    } else {
      back := "";
    }
  }

  /** Addresses are compared without surrounding spaces, case and trailing slashes, and otherwise
      character by character. */
  lemma UrlExactly(raw: string) returns (slashes: string)
    ensures Trim(ToLower(raw)) == NormalUrl(raw) + slashes && forall c | c in slashes :: c == '/'
    ensures NormalUrl(raw) != "" ==> NormalUrl(raw)[|NormalUrl(raw)| - 1] != '/'
  {
    hide Trim, ToLower;
    slashes := TrailingDropped(Trim(ToLower(raw)), '/');
  }

  /** What a stable basis is: a host credential with a source id, or a static one with an address
      and a fingerprint. */
  lemma StableExactly(c: Candidate)
    ensures HasStableBasis(c) <==>
              || (ToLower(Trim(c.source)) == "host" && Trim(c.sourceId) != "")
              || (ToLower(Trim(c.source)) == "static" && NormalUrl(c.baseUrl) != "" && Trim(c.fingerprint) != "")
  {
    hide Trim, ToLower, NormalUrl;
  }

  lemma {:induction false} LowerHostIsTrimmed(s: string)
    requires ToLower(s) == "host"
    ensures ToLower(Trim(s)) == "host"
  {
    assert |s| == 4;
    assert ToLower(s)[0] == LowerChar(s[0]) && ToLower(s)[3] == LowerChar(s[3]);
    assert !IsSpace(s[0]) && !IsSpace(s[3]);
    TrimUnchanged(s);
  }

  lemma DerivedIdIsHostId(hash: (string, string, string) -> string, c: Candidate)
    requires UsesDerivedId(c) && NotBoth(c.sourceId, c.fingerprint)
    ensures CandidateBasis(c) == Host(Trim(c.sourceId))
    ensures DerivedId(hash, c) == HostId(hash, Trim(c.sourceId))
  {
    LowerHostIsTrimmed(c.source);
  }

  lemma MatchingMeansSameBasis(i: Identity, c: Candidate)
    requires NotBoth(i.sourceId, i.fingerprint) && NotBoth(c.sourceId, c.fingerprint)
    ensures Matches(i, c) ==> IdentityBasis(i) == CandidateBasis(c) && !CandidateBasis(c).Nothing?
    ensures IdentityBasis(i) == CandidateBasis(c) && !CandidateBasis(c).Nothing? && !CandidateBasis(c).Host? ==>
            Matches(i, c)
  {
    hide Trim, ToLower, DropTrailing;
  }

  /** At most one stored identity matches a candidate. */
  lemma AtMostOneMatch(d: Prefs, hash: (string, string, string) -> string, c: Candidate, id: string, id': string)
    requires Consistent(d, hash) && NotBoth(c.sourceId, c.fingerprint)
    requires id in d.identities && id' in d.identities
    requires Matches(d.identities[id], c) && Matches(d.identities[id'], c)
    ensures id == id'
  {
    hide Matches, BasisOf, HostId, Derivable, NotBoth, Trim;
    MatchingMeansSameBasis(d.identities[id], c);
    MatchingMeansSameBasis(d.identities[id'], c);
    var m := BasesOf(d.identities);
    assert m[id] == m[id'] == CandidateBasis(c);
  }

  /** A basis has one id and an id names one basis. */
  lemma NamesOneToOne(m: BasisMap, hash: (string, string, string) -> string, b: Basis, id: string, b': Basis,
      id': string)
    requires Collisionless(hash) && OneToOne(m, hash)
    requires Names(m, hash, b, id) && Names(m, hash, b', id')
    ensures id == id' <==> b == b'
  {
    if b.Host? { assert Derivable(hash, id); }
    if b'.Host? { assert Derivable(hash, id'); }
  }

  lemma NamesPersist(m: BasisMap, m': BasisMap, hash: (string, string, string) -> string, b: Basis, id: string)
    requires Grows(m, m') && Names(m, hash, b, id)
    ensures Names(m', hash, b, id)
  {
  }

  lemma AddHost(m: BasisMap, hash: (string, string, string) -> string, sourceId: string)
    requires Collisionless(hash) && OneToOne(m, hash)
    ensures var m' := m[HostId(hash, sourceId) := Host(sourceId)]; OneToOne(m', hash) && Grows(m, m')
  {
    var id := HostId(hash, sourceId);
    assert Derivable(hash, id);
    assert id in m ==> m[id] == Host(sourceId);
    var m' := m[id := Host(sourceId)];
    forall i, i' | i in m' && i' in m' && !m'[i].Nothing? && m'[i] == m'[i'] ensures i == i' {}
  }

  lemma AddUnseen(m: BasisMap, hash: (string, string, string) -> string, b: Basis, id: string)
    requires OneToOne(m, hash) && id != "" && id !in m && !Derivable(hash, id) && !b.Host?
    requires forall i | i in m :: b.Nothing? || m[i] != b
    ensures var m' := m[id := b]; OneToOne(m', hash) && Grows(m, m')
  {
  }

  lemma BasesOfInsert(identities: map<string, Identity>, id: string, i: Identity)
    ensures BasesOf(identities[id := i]) == BasesOf(identities)[id := IdentityBasis(i)]
  {
    hide BasisOf;
  }

  lemma TidyInsert(identities: map<string, Identity>, id: string, i: Identity)
    requires Tidy(identities) && Trim(id) == id && NotBoth(i.sourceId, i.fingerprint)
    ensures Tidy(identities[id := i])
  {
    hide Trim, NotBoth;
  }

  lemma NewIdIsTidy(hash: (string, string, string) -> string, c: Candidate)
    requires Collisionless(hash)
    ensures var id := DerivedId(hash, c); Trim(id) == id && id != ""
  {
  }

  lemma SourceBasisIsNotHost(c: Candidate)
    requires !UsesDerivedId(c)
    ensures !CandidateBasis(c).Host?
  {
  }

  /** Recording an identity under a derived or unseen id keeps the records consistent. */
  lemma RecordingIsConsistent(d: Prefs, hash: (string, string, string) -> string, c: Candidate, id: string, now: int)
    requires Collisionless(hash) && Consistent(d, hash)
    requires NotBoth(c.sourceId, c.fingerprint)
    requires if UsesDerivedId(c) then id == DerivedId(hash, c) else Unseen(d, hash, id)
    requires forall i | i in d.identities :: !Matches(d.identities[i], c)
    ensures var d' := d.(identities := d.identities[id := IdentityOf(c, id, now)]);
            var m, m', b := BasesOf(d.identities), BasesOf(d'.identities), CandidateBasis(c);
            && Consistent(d', hash) && Grows(m, m') && m' == m[id := b]
            && (b.Host? <==> UsesDerivedId(c)) && (b.Host? ==> id == HostId(hash, b.sourceId))
  {
    hide Trim, Matches, BasisOf, Collisionless, OneToOne, NotBoth, Derivable, HostId, DerivedId, UsesDerivedId;
    var m, b := BasesOf(d.identities), CandidateBasis(c);
    var i := IdentityOf(c, id, now);
    if UsesDerivedId(c) { NewIdIsTidy(hash, c); }
    TidyInsert(d.identities, id, i);
    BasesOfInsert(d.identities, id, i);
    if UsesDerivedId(c) {
      DerivedIdIsHostId(hash, c);
      AddHost(m, hash, b.sourceId);
    } else {
      SourceBasisIsNotHost(c);
      forall i | i in m ensures b.Nothing? || m[i] != b {
        MatchingMeansSameBasis(d.identities[i], c);
      }
      AddUnseen(m, hash, b, id);
    }
  }

  /* ---------- one candidate ---------- */

  lemma NothingInherited(d: Prefs, vault: Vault, c: Candidate, claims: nat, id: string)
    ensures !Inherits(d, c, claims) ==> InheritLegacy(d, vault, c, claims, id) == d
  {
    hide HasLegacyPreference, HasStableBasis, MigratePreference, Trim;
  }

  /** The id an unmatched candidate is registered under. */
  function NewId(vault: Vault, c: Candidate, drawn: Option<string>): string
    requires UsesDerivedId(c) || drawn.Some?
  {
    if UsesDerivedId(c) then DerivedId(vault.hash, c) else drawn.value
  }

  lemma RegisterRecords(d: Prefs, vault: Vault, c: Candidate, claims: nat, drawn: Option<string>, now: int)
    requires UsesDerivedId(c) || drawn.Some?
    ensures var r := Register(d, vault, c, claims, drawn, now);
            var id := NewId(vault, c, drawn);
            && r.Resolution? && r.ids == [id]
            && r.data.identities == d.identities[id := IdentityOf(c, id, now)]
            && (id != "" && Trim(id) == id && id !in d.known ==> r.changed)
  {
    hide UsesDerivedId, DerivedId, Inherits, InheritLegacy, Trim;
    NothingInherited(d, vault, c, claims, NewId(vault, c, drawn));
  }

  lemma RegisterNames(d: Prefs, vault: Vault, c: Candidate, claims: nat, drawn: Option<string>, now: int)
    requires Collisionless(vault.hash) && Consistent(d, vault.hash) && NotBoth(c.sourceId, c.fingerprint)
    requires drawn.Some? ==> Unseen(d, vault.hash, drawn.value)
    requires forall i | i in d.identities :: !Matches(d.identities[i], c)
    requires UsesDerivedId(c) || drawn.Some?
    ensures var r := Register(d, vault, c, claims, drawn, now);
            var m, b, id := BasesOf(d.identities), CandidateBasis(c), NewId(vault, c, drawn);
            && r.Resolution? && r.ids == [id]
            && Consistent(r.data, vault.hash)
            && BasesOf(r.data.identities) == m[id := b] && Grows(m, m[id := b])
            && (b.Host? ==> id == HostId(vault.hash, b.sourceId)) && (!b.Host? ==> r.changed)
  {
    hide Matches, Grows, DerivedId, HostId, Collisionless, NotBoth, UsesDerivedId, Trim, Register, CandidateBasis,
      BasesOf, Derivable, OneToOne;
    RecordingIsConsistent(d, vault.hash, c, NewId(vault, c, drawn), now);
    RegisterRecords(d, vault, c, claims, drawn, now);
  }

  lemma RegisteredIsNamed(m: BasisMap, hash: (string, string, string) -> string, b: Basis, id: string)
    requires b.Host? ==> id == HostId(hash, b.sourceId)
    ensures !b.Nothing? ==> Names(m[id := b], hash, b, id)
    ensures b.Host? ==> forall b', id' :: Names(m[id := b], hash, b', id') ==> Names(m, hash, b', id')
  {
  }

  lemma MatchedIdIsNamed(d: Prefs, hash: (string, string, string) -> string, c: Candidate, id: string)
    requires Consistent(d, hash) && NotBoth(c.sourceId, c.fingerprint)
    requires id in d.identities && Matches(d.identities[id], c)
    ensures id != "" && Names(BasesOf(d.identities), hash, CandidateBasis(c), id)
  {
    hide Matches, Trim, BasisOf, NotBoth, Derivable;
    MatchingMeansSameBasis(d.identities[id], c);
    assert id in BasesOf(d.identities) && BasesOf(d.identities)[id] == CandidateBasis(c);
  }

  lemma RegisterFails(d: Prefs, vault: Vault, c: Candidate, claims: nat, drawn: Option<string>, now: int)
    ensures !UsesDerivedId(c) && drawn.None? ==> Register(d, vault, c, claims, drawn, now).ResolveFailed?
  {
  }

  /** What one candidate of a call does to the identity records. */
  lemma ResolveOneNames(d: Prefs, vault: Vault, c: Candidate, claims: nat, drawn: Option<string>, now: int)
    requires Collisionless(vault.hash) && Consistent(d, vault.hash) && NotBoth(c.sourceId, c.fingerprint)
    requires drawn.Some? ==> Unseen(d, vault.hash, drawn.value)
    ensures var r := ResolveOne(d, vault, c, claims, drawn, now);
            r.Resolution? ==>
              var m, m', b := BasesOf(d.identities), BasesOf(r.data.identities), CandidateBasis(c);
              && |r.ids| == 1 && Consistent(r.data, vault.hash) && Grows(m, m')
              && (IsBlank(c.accountId) && !b.Nothing? ==> Names(m', vault.hash, b, r.ids[0]))
              && (!r.changed ==> forall b', id :: Names(m', vault.hash, b', id) ==> Names(m, vault.hash, b', id))
  {
    hide Matches, DerivedId, HostId, Collisionless, NotBoth, UsesDerivedId, Trim, Register, CandidateBasis, Derivable,
      EnsureKnown, Names, OneToOne, Tidy, Unseen, BasesOf;
    var m, b := BasesOf(d.identities), CandidateBasis(c);
    if IsBlank(c.accountId) {
      var found := FindMatch(d.identities, c);
      if found.Some? {
        MatchedIdIsNamed(d, vault.hash, c, found.value);
      } else {
        RegisterFails(d, vault, c, claims, drawn, now);
        if UsesDerivedId(c) || drawn.Some? {
          RegisterNames(d, vault, c, claims, drawn, now);
          RegisteredIsNamed(m, vault.hash, b, NewId(vault, c, drawn));
        }
      }
    }
  }

  /* ---------- one call ---------- */

  /** The callers' side of a resolution call: no candidate has both bases, and the random
      source draws ids that are new, different and not among the given account ids. */
  ghost predicate GoodCall(d: Prefs, hash: (string, string, string) -> string, cs: seq<Candidate>,
      drawn: nat -> Option<string>) {
    && (forall i | 0 <= i < |cs| :: NotBoth(cs[i].sourceId, cs[i].fingerprint))
    && (forall i: nat | i < |cs| && drawn(i).Some? ::
          Unseen(d, hash, drawn(i).value) && forall j | 0 <= j < |cs| :: Trim(cs[j].accountId) != drawn(i).value)
    && (forall i: nat, j: nat | i < j < |cs| && drawn(i).Some? && drawn(j).Some? :: drawn(i).value != drawn(j).value)
  }

  lemma KnownAfterRegistering(d: Prefs, id: string, value: bool, now: int, x: string)
    requires x !in d.known && Trim(id) != x
    ensures x !in EnsureKnown(d, id, value, now).0.known
  {
    hide Trim;
  }

  lemma KnownAfterInheriting(d: Prefs, vault: Vault, c: Candidate, claims: nat, id: string, x: string)
    requires x != id && x !in d.known
    ensures x !in InheritLegacy(d, vault, c, claims, id).known
  {
    hide InheritLegacy, MigratePreference, Trim;
    InheritCases(d, vault, c, claims, id);
    MigrationShape(d, vault.key, Trim(c.legacyId), id);
  }

  lemma RegisterKnown(d: Prefs, vault: Vault, c: Candidate, claims: nat, drawn: Option<string>, now: int, x: string)
    requires UsesDerivedId(c) || drawn.Some?
    requires x !in d.known && x != NewId(vault, c, drawn) && Trim(NewId(vault, c, drawn)) != x
    ensures x !in Register(d, vault, c, claims, drawn, now).data.known
  {
    var id := NewId(vault, c, drawn);
    KnownAfterInheriting(d, vault, c, claims, id, x);
    var d1 := InheritLegacy(d, vault, c, claims, id);
    KnownAfterRegistering(d1.(identities := d1.identities[id := IdentityOf(c, id, now)]), id, false, now, x);
    hide UsesDerivedId, DerivedId, Inherits, InheritLegacy, Trim, EnsureKnown, IdentityOf;
  }

  lemma ResolveOneKeepsUnseen(d: Prefs, vault: Vault, c: Candidate, claims: nat, drawn: Option<string>, now: int,
      x: string)
    requires Collisionless(vault.hash) && Consistent(d, vault.hash)
    requires drawn.Some? ==> Unseen(d, vault.hash, drawn.value) && drawn.value != x
    requires Unseen(d, vault.hash, x) && x != Trim(c.accountId)
    ensures var r := ResolveOne(d, vault, c, claims, drawn, now); r.Resolution? ==> Unseen(r.data, vault.hash, x)
  {
    hide Matches, Collisionless, NotBoth, UsesDerivedId, Trim, Register, Derivable, EnsureKnown, OneToOne, BasesOf;
    if !IsBlank(c.accountId) {
      TrimIdempotent(c.accountId);
      KnownAfterRegistering(d, Trim(c.accountId), false, now, x);
    } else {
      var found := FindMatch(d.identities, c);
      if found.Some? {
        KnownAfterRegistering(d, found.value, false, now, x);
      }
      RegisterFails(d, vault, c, claims, drawn, now);
      if UsesDerivedId(c) || drawn.Some? {
        DerivedIsNotUnseen(d, vault.hash, c, x);
        RegisterRecords(d, vault, c, claims, drawn, now);
        RegisterKnown(d, vault, c, claims, drawn, now, x);
      }
    }
  }

  lemma DerivedIsNotUnseen(d: Prefs, hash: (string, string, string) -> string, c: Candidate, x: string)
    requires Collisionless(hash) && Unseen(d, hash, x)
    ensures DerivedId(hash, c) != x && Trim(DerivedId(hash, c)) == DerivedId(hash, c)
  {
    hide Trim, ToLower;
  }

  lemma ResolveAllStep(d: Prefs, vault: Vault, cs: seq<Candidate>, n: nat, drawn: nat -> Option<string>, now: int)
    requires 0 < n <= |cs|
    ensures var before, r := ResolveAll(d, vault, cs, n - 1, drawn, now), ResolveAll(d, vault, cs, n, drawn, now);
            r.Resolution? ==>
              && before.Resolution?
              && var one := ResolveOne(before.data, vault, cs[n - 1], LegacyClaims(cs, Trim(cs[n - 1].legacyId)),
                 drawn(n - 1), now);
                 one.Resolution? && r == Resolution(one.data, before.ids + one.ids, before.changed || one.changed)
  {
    hide ResolveOne, LegacyClaims, Trim;
  }

  /** What the first n candidates of a call do to the identity records. */
  lemma {:induction false} ResolveAllNames(d: Prefs, vault: Vault, cs: seq<Candidate>, n: nat,
      drawn: nat -> Option<string>, now: int)
    requires Collisionless(vault.hash) && Consistent(d, vault.hash) && GoodCall(d, vault.hash, cs, drawn) && n <= |cs|
    ensures var r := ResolveAll(d, vault, cs, n, drawn, now);
            r.Resolution? ==>
              var m, m' := BasesOf(d.identities), BasesOf(r.data.identities);
              && |r.ids| == n && Consistent(r.data, vault.hash) && Grows(m, m')
              && (forall p | 0 <= p < n && IsBlank(cs[p].accountId) && !CandidateBasis(cs[p]).Nothing? ::
                    Names(m', vault.hash, CandidateBasis(cs[p]), r.ids[p]))
              && (!r.changed ==> forall b, id :: Names(m', vault.hash, b, id) ==> Names(m, vault.hash, b, id))
              && (forall i: nat | n <= i < |cs| && drawn(i).Some? :: Unseen(r.data, vault.hash, drawn(i).value))
  {
    hide Consistent, Collisionless, NotBoth, CandidateBasis, BasesOf, Names, Unseen, Trim, ResolveOne, LegacyClaims;
    if n == 0 {
    } else {
      ResolveAllNames(d, vault, cs, n - 1, drawn, now);
      var before := ResolveAll(d, vault, cs, n - 1, drawn, now);
      if before.Resolution? {
        var c := cs[n - 1];
        var claims := LegacyClaims(cs, Trim(c.legacyId));
        ResolveOneNames(before.data, vault, c, claims, drawn(n - 1), now);
        var one := ResolveOne(before.data, vault, c, claims, drawn(n - 1), now);
        if one.Resolution? {
          var m', m'' := BasesOf(before.data.identities), BasesOf(one.data.identities);
          forall p | 0 <= p < n - 1 && IsBlank(cs[p].accountId) && !CandidateBasis(cs[p]).Nothing?
            ensures Names(m'', vault.hash, CandidateBasis(cs[p]), before.ids[p])
          {
            NamesPersist(m', m'', vault.hash, CandidateBasis(cs[p]), before.ids[p]);
          }
          forall i: nat | n <= i < |cs| && drawn(i).Some?
            ensures Unseen(one.data, vault.hash, drawn(i).value)
          {
            ResolveOneKeepsUnseen(before.data, vault, c, claims, drawn(n - 1), now, drawn(i).value);
          }
        }
      }
    }
  }

  lemma CallStaysConsistent(d: Prefs, vault: Vault, cs: seq<Candidate>, n: nat, drawn: nat -> Option<string>, now: int)
    requires Collisionless(vault.hash) && Consistent(d, vault.hash) && GoodCall(d, vault.hash, cs, drawn) && n <= |cs|
    ensures var r := ResolveAll(d, vault, cs, n, drawn, now); r.Resolution? ==> Consistent(r.data, vault.hash)
  {
    hide Consistent, Collisionless, GoodCall, ResolveAll;
    ResolveAllNames(d, vault, cs, n, drawn, now);
  }

  /* ---------- runs ---------- */

  ghost predicate GoodRun(c: Cell, vault: Vault, events: seq<Event>) {
    forall k: nat | k < |events| && events[k].TryCommit? && events[k].op.Resolve? ::
      GoodCall(After(c, vault, events[..k]).memory, vault.hash, events[k].op.candidates, events[k].op.drawn)
  }

  /** Memory and file are both consistent, and the file knows every identity memory knows. */
  ghost predicate CellConsistent(c: Cell, hash: (string, string, string) -> string) {
    var file := Loaded(c.disk);
    && c.hasPath && Consistent(c.memory, hash) && Consistent(file, hash)
    && Grows(BasesOf(c.memory.identities), BasesOf(file.identities))
  }

  lemma LoadedSuccessorIdentities(data: Prefs)
    ensures Loaded(Some(Document(FORMAT_VERSION, Successor(data)))).identities == data.identities ==
            Successor(data).identities
  {
    hide NormalOrder, RelinkFlags;
  }

  lemma ConsistentDependsOnIdentities(d: Prefs, d': Prefs, hash: (string, string, string) -> string)
    requires d.identities == d'.identities && Consistent(d, hash)
    ensures Consistent(d', hash)
  {
    hide Tidy, OneToOne, BasesOf;
  }

  lemma StepKeepsConsistent(c: Cell, vault: Vault, e: Event)
    requires Collisionless(vault.hash) && CellConsistent(c, vault.hash)
    requires e.TryCommit? && e.op.Resolve? ==> GoodCall(c.memory, vault.hash, e.op.candidates, e.op.drawn)
    ensures var c' := Advance(c, vault, e);
            CellConsistent(c', vault.hash) && Grows(BasesOf(c.memory.identities), BasesOf(c'.memory.identities))
  {
    hide Collisionless, GoodCall, Consistent, BasesOf, Loaded, Successor, ResolveAll, ApplyBatch, MigratePreference,
      InvalidateIds, ReconcileKnown, DismissAlert, NormalOrder, SetThresholdsTo, Trim;
    if e.TryCommit? {
      var m := Mutate(e.op, vault, c.memory);
      if m.Done? {
        if e.op.Resolve? {
          ResolveAllNames(c.memory, vault, e.op.candidates, |e.op.candidates|, e.op.drawn, e.op.now);
        } else {
          MutateKeepsIdentities(e.op, vault, c.memory);
          ConsistentDependsOnIdentities(c.memory, m.data, vault.hash);
        }
        hide Mutate;
        assert Consistent(m.data, vault.hash) && Grows(BasesOf(c.memory.identities), BasesOf(m.data.identities));
        LoadedSuccessorIdentities(m.data);
        ConsistentDependsOnIdentities(m.data, Successor(m.data), vault.hash);
        ConsistentDependsOnIdentities(m.data, Loaded(Some(Document(FORMAT_VERSION, Successor(m.data)))), vault.hash);
      }
    }
  }

  /** Along a run the records stay consistent and no registered basis loses its id. */
  lemma {:induction false} RunKeepsConsistent(c: Cell, vault: Vault, events: seq<Event>, i: nat, j: nat)
    requires Collisionless(vault.hash) && CellConsistent(c, vault.hash) && GoodRun(c, vault, events)
    requires i <= j <= |events|
    ensures var ci, cj := After(c, vault, events[..i]), After(c, vault, events[..j]);
            CellConsistent(ci, vault.hash) && CellConsistent(cj, vault.hash)
            && Grows(BasesOf(ci.memory.identities), BasesOf(cj.memory.identities))
    decreases j
  {
    hide Collisionless, Advance, BasesOf, GoodCall, CellConsistent;
    if j == 0 {
    } else {
      assert events[..j][..j - 1] == events[..j - 1];
      var before := After(c, vault, events[..j - 1]);
      if i == j {
        RunKeepsConsistent(c, vault, events, i - 1, j - 1);
      } else {
        RunKeepsConsistent(c, vault, events, i, j - 1);
      }
      StepKeepsConsistent(before, vault, events[j - 1]);
    }
  }

  /** A resolution event that was answered with ids rather than an error. */
  ghost predicate Answered(c: Cell, vault: Vault, events: seq<Event>, i: nat) {
    && i < |events| && events[i].TryCommit? && events[i].op.Resolve?
    && var reply := ReplyAt(c, vault, events, i); reply.Published? || reply.Unchanged?
  }

  /** The id answered for candidate p of event i. */
  ghost function IdAt(c: Cell, vault: Vault, events: seq<Event>, i: nat, p: nat): string
    requires Answered(c, vault, events, i) && p < |events[i].op.candidates|
  {
    var op := events[i].op;
    var r := ResolveAll(After(c, vault, events[..i]).memory, vault, op.candidates, |op.candidates|, op.drawn, op.now);
    if r.Resolution? && p < |r.ids| then r.ids[p] else ""
  }

  /** An answered id is the one its basis has in the published preferences. */
  lemma AnswerIsNamed(c: Cell, vault: Vault, events: seq<Event>, i: nat, p: nat)
    requires Collisionless(vault.hash) && CellConsistent(c, vault.hash) && GoodRun(c, vault, events)
    requires Answered(c, vault, events, i) && p < |events[i].op.candidates|
    requires var a := events[i].op.candidates[p]; IsBlank(a.accountId) && !CandidateBasis(a).Nothing?
    ensures var after := After(c, vault, events[..i + 1]);
            Names(BasesOf(after.memory.identities), vault.hash, CandidateBasis(events[i].op.candidates[p]),
                IdAt(c, vault, events, i, p))
  {
    hide Collisionless, GoodCall, Consistent, BasesOf, ResolveAll, Names, CandidateBasis, NormalOrder, IsBlank;
    var before := After(c, vault, events[..i]);
    assert events[..i + 1][..i] == events[..i];
    RunKeepsConsistent(c, vault, events, i, i);
    var op := events[i].op;
    ResolveAllNames(before.memory, vault, op.candidates, |op.candidates|, op.drawn, op.now);
    assert After(c, vault, events[..i + 1]) == Advance(before, vault, events[i]);
  }

  /** The same credential gets the same id in every answered call of a run, in whatever
      order the credentials are listed, and different credentials never share an id. */
  lemma IdsFollowCredentials(c: Cell, vault: Vault, events: seq<Event>, i: nat, p: nat, j: nat, q: nat)
    requires Collisionless(vault.hash) && CellConsistent(c, vault.hash) && GoodRun(c, vault, events)
    requires i <= j && Answered(c, vault, events, i) && Answered(c, vault, events, j)
    requires p < |events[i].op.candidates| && q < |events[j].op.candidates|
    requires var a := events[i].op.candidates[p]; IsBlank(a.accountId) && !CandidateBasis(a).Nothing?
    requires var b := events[j].op.candidates[q]; IsBlank(b.accountId) && !CandidateBasis(b).Nothing?
    ensures IdAt(c, vault, events, i, p) == IdAt(c, vault, events, j, q)
            <==> CandidateBasis(events[i].op.candidates[p]) == CandidateBasis(events[j].op.candidates[q])
  {
    hide Collisionless, GoodRun, BasesOf, Names, CandidateBasis, IsBlank, After, IdAt, Grows, ReplyAt, OneToOne, Tidy;
    AnswerIsNamed(c, vault, events, i, p);
    AnswerIsNamed(c, vault, events, j, q);
    RunKeepsConsistent(c, vault, events, i + 1, j + 1);
    var m, m' := BasesOf(After(c, vault, events[..i + 1]).memory.identities),
        BasesOf(After(c, vault, events[..j + 1]).memory.identities);
    var b, b' := CandidateBasis(events[i].op.candidates[p]), CandidateBasis(events[j].op.candidates[q]);
    NamesPersist(m, m', vault.hash, b, IdAt(c, vault, events, i, p));
    NamesOneToOne(m', vault.hash, b, IdAt(c, vault, events, i, p), b', IdAt(c, vault, events, j, q));
  }

  /** Two host source ids that differ only in surrounding spaces are different to the
      identity records, yet get one and the same id. */
  lemma SpacedSourceIdsCollide(vault: Vault)
    ensures var a := Candidate("", "", "host", "s", "", "", "");
            var b := Candidate("", "", "host", "s ", "", "", "");
            && DerivedId(vault.hash, a) == DerivedId(vault.hash, b)
            && !Matches(IdentityOf(a, DerivedId(vault.hash, a), 0), b)
  {
    assert TrimLeft("s ") == "s ";
    assert "s "[..1] == "s";
    assert Trim("s ") == "s" && Trim("s") == "s";
  }

  /* ---------- the assumptions can be met ---------- */

  /** Every character behind a '1', with a '0' at the end. */
  function Quoted(s: string): (r: string)
    ensures |r| > 0 && r[0] in "01" && r[|r| - 1] == '0'
  {
    if s == "" then "0" else ['1', s[0]] + Quoted(s[1..])
  }

  function Spelled(a: string, b: string, c: string): string { Quoted(a) + Quoted(b) + Quoted(c) }

  lemma {:induction false} QuotedSplits(a: string, x: string, b: string, y: string)
    requires Quoted(a) + x == Quoted(b) + y
    ensures a == b && x == y
  {
    var l, r := Quoted(a) + x, Quoted(b) + y;
    assert (l[0] == '0' <==> a == "") && (r[0] == '0' <==> b == "");
    if a == "" {
      assert l[1..] == x && r[1..] == y;
    } else {
      assert l[1] == a[0] && r[1] == b[0];
      assert l[2..] == Quoted(a[1..]) + x && r[2..] == Quoted(b[1..]) + y;
      QuotedSplits(a[1..], x, b[1..], y);
      assert a == [a[0]] + a[1..] && b == [b[0]] + b[1..];
    }
  }

  lemma SpellingIsInjective(a: string, b: string, c: string, a': string, b': string, c': string)
    requires Spelled(a, b, c) == Spelled(a', b', c')
    ensures a == a' && b == b' && c == c'
  {
    hide Quoted;
    assert Spelled(a, b, c) == Quoted(a) + (Quoted(b) + Quoted(c));
    assert Spelled(a', b', c') == Quoted(a') + (Quoted(b') + Quoted(c'));
    QuotedSplits(a, Quoted(b) + Quoted(c), a', Quoted(b') + Quoted(c'));
    QuotedSplits(b, Quoted(c), b', Quoted(c'));
    assert Quoted(c) + "" == Quoted(c') + "";
    QuotedSplits(c, "", c', "");
  }

  lemma SpellingIsTrimmed(a: string, b: string, c: string)
    ensures Spelled(a, b, c) != "" && Trim(Spelled(a, b, c)) == Spelled(a, b, c)
  {
    hide Quoted, Trim;
    var s := Spelled(a, b, c);
    assert s[0] == Quoted(a)[0] && s[|s| - 1] == Quoted(c)[|Quoted(c)| - 1];
    TrimUnchanged(s);
  }

  /** A hash without collisions is possible. */
  lemma SpellingIsCollisionless()
    ensures Collisionless((a, b, c) => Spelled(a, b, c))
  {
    hide Spelled, Trim;
    forall a, b, c, a', b', c' | Spelled(a, b, c) == Spelled(a', b', c') ensures a == a' && b == b' && c == c' {
      SpellingIsInjective(a, b, c, a', b', c');
    }
    forall a, b, c ensures Spelled(a, b, c) != "" && Trim(Spelled(a, b, c)) == Spelled(a, b, c) {
      SpellingIsTrimmed(a, b, c);
    }
  }

  /** A first start, without a file, is consistent for every hash. */
  lemma FirstStartIsConsistent(hash: (string, string, string) -> string)
    ensures CellConsistent(Cell(EMPTY, None, true), hash)
  {
    assert BasesOf(EMPTY.identities) == map[];
  }
}
