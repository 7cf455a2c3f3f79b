/** The preferences object as the program runs it: a clone whose maps are changed step by
    step, and the store that compares revisions, writes the file and publishes the clone.
    Every method is proved equal to the function of Preferences or Commits it carries out. */
module MonitorPreferences {
  import opened Options
  import opened Text
  import opened Storage
  import opened Preferences
  import opened Commits
  import opened Identities

  /** The clone a commit works on. */
  class Draft {
    var revision: int
    var known: map<string, bool>
    var monitored: map<string, bool>
    var adapters: map<string, string>
    var pats: map<string, Cipher>
    var names: map<string, string>
    var order: seq<string>
    var firstSeen: map<string, int>
    var identities: map<string, Identity>
    var relink: map<string, bool>
    var queryRevisions: map<string, int>
    var dismissed: map<string, bool>
    var thresholds: Option<Thresholds>

    function View(): Prefs
      reads this
    {
      Prefs(revision, known, monitored, adapters, pats, names, order, firstSeen, identities, relink,
            queryRevisions, dismissed, thresholds)
    }

    constructor (d: Prefs)
      ensures View() == d
    {
      revision, known, monitored, adapters, pats := d.revision, d.known, d.monitored, d.adapters, d.pats;
      names, order, firstSeen, identities, relink := d.names, d.order, d.firstSeen, d.identities, d.relink;
      queryRevisions, dismissed, thresholds := d.queryRevisions, d.dismissed, d.thresholds;
    }

    method Register(rawId: string, defaultValue: bool, now: int) returns (changed: bool)
      modifies this`known, this`monitored, this`firstSeen, this`order
      ensures (View(), changed) == EnsureKnown(old(View()), rawId, defaultValue, now)
    {
      hide Trim;
      var id := Trim(rawId);
      if id == "" { return false; }
      changed := false;
      if !BoolAt(known, id) {
        known := known[id := true];
        monitored := monitored[id := defaultValue];
        changed := true;
      }
      if id !in firstSeen || firstSeen[id] == ZERO_TIME {
        firstSeen := firstSeen[id := now];
        changed := true;
      }
      if id !in order {
        order := order + [id];
        changed := true;
      }
    }

    method SwitchMonitoring(id: string, wanted: Option<bool>) returns (changed: bool)
      modifies this`monitored
      ensures (monitored, changed) == SetMonitored(old(monitored), id, wanted)
    {
      changed := wanted.Some? && BoolAt(monitored, id) != wanted.value;
      if changed { monitored := monitored[id := wanted.value]; }
    }

    method SwitchAdapter(m: Mutation) returns (changed: bool)
      modifies this`adapters
      ensures (adapters, changed) == SetAdapter(old(adapters), m)
    {
      hide Trim, ToLower;
      changed := false;
      if m.clearAdapter {
        if m.id in adapters {
          adapters := adapters - {m.id};
          changed := true;
        }
        assert m.id !in old(adapters) ==> old(adapters) - {m.id} == old(adapters);
      } else if !IsBlank(m.adapter) {
        var adapter := ToLower(Trim(m.adapter));
        if TextAt(adapters, m.id) != adapter {
          adapters := adapters[m.id := adapter];
          changed := true;
        }
      }
    }

    method SwitchCredential(m: Mutation, key: Option<nat>) returns (ok: bool, changed: bool)
      modifies this`pats, this`relink
      ensures SetPat(old(pats), old(relink), m, key) == if ok then Some((pats, relink, changed)) else None
    {
      hide Trim, ToLower;
      ok, changed := true, false;
      var action := ToLower(Trim(m.patAction));
      if action == "replace" {
        var encrypted := Encrypt(key, m.id, Trim(m.pat));
        if encrypted.None? { return false, false; }
        pats := pats[m.id := encrypted.value];
        relink := relink - {m.id};
        changed := true;
      } else if action == "clear" {
        if m.id in pats {
          pats := pats - {m.id};
          changed := true;
        }
        if BoolAt(relink, m.id) {
          relink := relink - {m.id};
          changed := true;
        }
        assert m.id !in old(pats) ==> old(pats) - {m.id} == old(pats);
      }
    }

    /** One pass of the second loop of a batch. */
    method Mutate(m: Mutation, now: int, key: Option<nat>) returns (ok: bool, changed: bool)
      modifies this
      ensures ApplyMutation(old(View()), m, now, key) == if ok then Done(View(), changed) else Failed(KeyUnavailable)
    {
      hide EnsureKnown, SetMonitored, SetAdapter, SetPat, SetName, IntAt;
      var registered := Register(m.id, true, now);
      ghost var d0 := View();
      var switched := SwitchMonitoring(m.id, m.monitored);
      var rerouted := SwitchAdapter(m);
      var sealedOk, replaced := SwitchCredential(m, key);
      if !sealedOk { return false, false; }
      var renamed := Rename(m.id, m.customName);
      var queryChanged := switched || rerouted || replaced;
      if queryChanged { queryRevisions := queryRevisions[m.id := IntAt(queryRevisions, m.id) + 1]; }
      return true, registered || queryChanged || renamed;
    }

    method Rename(id: string, customName: Option<string>) returns (changed: bool)
      modifies this`names
      ensures (names, changed) == SetName(old(names), id, customName)
    {
      changed := false;
      if customName.Some? {
        var name := Trim(customName.value);
        if name == "" {
          if id in names {
            names := names - {id};
            changed := true;
          }
          assert id !in old(names) ==> old(names) - {id} == old(names);
        } else if TextAt(names, id) != name {
          names := names[id := name];
          changed := true;
        }
      }
    }

    /** The first loop of a batch. */
    method Validate(ms: seq<Mutation>) returns (error: Option<Error>)
      ensures error == FirstError(ms)
    {
      hide MutationError;
      for i := 0 to |ms|
        invariant FirstError(ms[..i]).None?
      {
        assert ms[..i + 1][..i] == ms[..i];
        error := MutationError(ms[i]);
        if error.Some? {
          FirstErrorStays(ms, i + 1);
          return;
        }
      }
      assert ms[..|ms|] == ms;
      return None;
    }

    /** A whole provider batch: validate everything, then apply. */
    method Batch(ms: seq<Mutation>, wanted: Option<Thresholds>, now: int, key: Option<nat>)
      returns (error: Option<Error>, changed: bool)
      modifies this
      ensures (match error case Some(e) => Failed(e) case None => Done(View(), changed))
              == ApplyBatch(old(View()), ms, wanted, now, key)
    {
      hide FirstError, ApplyMutation, ThresholdsLookEqual;
      error := Validate(ms);
      if error.Some? { return error, false; }
      changed := false;
      for i := 0 to |ms|
        invariant Done(View(), changed) == ApplyMutations(old(View()), ms[..i], now, key)
      {
        assert ms[..i + 1][..i] == ms[..i];
        var ok, again := Mutate(ms[i], now, key);
        if !ok {
          FailureStays(old(View()), ms, i + 1, now, key);
          return Some(KeyUnavailable), false;
        }
        changed := changed || again;
      }
      assert ms[..|ms|] == ms;
      if wanted.Some? && !ThresholdsLookEqual(thresholds, wanted.value) {
        thresholds := wanted;
        changed := true;
      }
      error := None;
    }

    /** Raises the query revision of each distinct id once. */
    method Invalidate(ids: seq<string>) returns (changed: bool)
      modifies this
      ensures View() == InvalidateIds(old(View()), ids) && (changed <==> NormalOrder(ids) != [])
    {
      hide Trim;
      changed := false;
      var seen := {};
      for i := 0 to |ids|
        invariant View() == InvalidateIds(old(View()), ids[..i])
        invariant forall id :: id in seen <==> id in NormalOrder(ids[..i])
        invariant changed <==> NormalOrder(ids[..i]) != []
      {
        assert ids[..i + 1][..i] == ids[..i];
        var id := Trim(ids[i]);
        if id != "" && id !in seen {
          seen := seen + {id};
          queryRevisions := queryRevisions[id := IntAt(queryRevisions, id) + 1];
          changed := true;
        }
      }
      assert ids[..|ids|] == ids;
    }

    /** Forgets the dismissals of alerts that are no longer active. */
    method ForgetInactive(active: set<string>) returns (changed: bool)
      modifies this`dismissed
      ensures Done(View(), changed) == ReconcileDismissed(old(View()), active)
    {
      changed := false;
      var rest := dismissed.Keys;
      while rest != {}
        invariant rest <= old(dismissed).Keys
        invariant dismissed == old(dismissed) - ((old(dismissed).Keys - rest) - active)
        invariant changed <==> (old(dismissed).Keys - rest) - active != {}
        decreases rest
      {
        var id :| id in rest;
        ghost var gone := (old(dismissed).Keys - rest) - active;
        rest := rest - {id};
        if id !in active {
          dismissed := dismissed - {id};
          changed := true;
          assert (old(dismissed).Keys - rest) - active == gone + {id};
        } else {
          assert (old(dismissed).Keys - rest) - active == gone;
        }
      }
      assert (old(dismissed).Keys - {}) - active == old(dismissed).Keys - active;
    }

    /** Walks the identity records, in any order, for one that matches. */
    method Find(c: Candidate) returns (found: Option<string>)
      ensures MayFind(identities, c, found)
    {
      hide Matches;
      var rest := identities.Keys;
      while rest != {}
        invariant rest <= identities.Keys
        invariant forall id | id in identities && id !in rest :: !Matches(identities[id], c)
      {
        var id :| id in rest;
        if Matches(identities[id], c) { return Some(id); }
        rest := rest - {id};
      }
      return None;
    }

    method ReplaceInOrder(oldId: string, newId: string)
      modifies this`order
      ensures order == ReplaceIn(old(order), oldId, newId)
    {
      for i := 0 to |order|
        invariant |order| == |old(order)|
        invariant forall j | 0 <= j < |order| ::
                    order[j] == if j < i && old(order)[j] == oldId then newId else old(order)[j]
      {
        if order[i] == oldId { order := order[i := newId]; }
      }
    }

    method MoveCredential(key: Option<nat>, oldId: string, newId: string) returns (ok: bool)
      modifies this`pats
      ensures MovePat(old(pats), key, oldId, newId) == if ok then Some(pats) else None
      ensures !ok ==> pats == old(pats)
    {
      var encoded := CipherAt(pats, oldId);
      if !encoded.Blank? {
        var plain := Decrypt(key, oldId, encoded);
        if plain.None? { return false; }
        var reencrypted := Encrypt(key, newId, plain.value);
        if reencrypted.None? { return false; }
        pats := pats[newId := reencrypted.value];
        pats := pats - {oldId};
      }
      return true;
    }

    method MoveRegistration(oldId: string, newId: string)
      modifies this`known, this`monitored, this`firstSeen
      ensures known == Move(old(known), oldId, newId) && monitored == Move(old(monitored), oldId, newId)
      ensures firstSeen == Move(old(firstSeen), oldId, newId)
    {
      hide Move;
      known := Move(known, oldId, newId);
      monitored := Move(monitored, oldId, newId);
      firstSeen := Move(firstSeen, oldId, newId);
    }

    method MoveSettings(oldId: string, newId: string)
      modifies this`adapters, this`names, this`relink
      ensures adapters == Move(old(adapters), oldId, newId) && names == Move(old(names), oldId, newId)
      ensures relink == if BoolAt(old(relink), oldId) then old(relink) - {oldId} else old(relink)
    {
      hide Move;
      if BoolAt(relink, oldId) { relink := relink - {oldId}; }
      adapters := Move(adapters, oldId, newId);
      names := Move(names, oldId, newId);
    }

    /** Moves everything a legacy id owns; changes nothing when its credential does not open. */
    method Migrate(key: Option<nat>, oldId: string, newId: string) returns (ok: bool)
      modifies this
      ensures MigratePreference(old(View()), key, oldId, newId) == if ok then Some(View()) else None
      ensures !ok ==> View() == old(View())
    {
      hide ReplaceIn, Move, MovePat, BoolAt;
      if oldId == "" || newId == "" || oldId == newId { return true; }
      var moved := MoveCredential(key, oldId, newId);
      if !moved { return false; }
      MoveRegistration(oldId, newId);
      MoveSettings(oldId, newId);
      ReplaceInOrder(oldId, newId);
      return true;
    }

    /** The legacy branch for a newly registered account. */
    method Inherit(vault: Vault, c: Candidate, claims: nat, id: string) returns (changed: bool)
      modifies this
      ensures View() == InheritLegacy(old(View()), vault, c, claims, id) && changed == Inherits(old(View()), c, claims)
    {
      hide HasLegacyPreference, HasStableBasis, MigratePreference, Trim;
      changed := false;
      var legacyId := Trim(c.legacyId);
      if legacyId != "" && HasLegacyPreference(View(), legacyId) {
        if claims == 1 && HasStableBasis(c) {
          var ok := Migrate(vault.key, legacyId, id);
          if !ok { relink := relink[id := true]; }
          changed := true;
        } else if !CipherAt(pats, legacyId).Blank? || BoolAt(relink, legacyId) {
          relink := relink[id := true];
          changed := true;
        }
      }
    }

    /** One candidate of a resolution call; `found` is where its walk stopped. */
    method ResolveCandidate(vault: Vault, c: Candidate, claims: nat, drawn: Option<string>, now: int)
      returns (id: Option<string>, changed: bool, ghost found: Option<string>)
      modifies this
      ensures IsBlank(c.accountId) ==> MayFind(old(identities), c, found)
      ensures ResolveFound(old(View()), vault, c, claims, drawn, now, found)
              == if id.Some? then Resolution(View(), [id.value], changed) else ResolveFailed(RandomUnavailable)
    {
      hide Matches, EnsureKnown, InheritLegacy, Inherits, IdentityOf, DerivedId, Trim;
      found := None;
      if !IsBlank(c.accountId) {
        changed := Register(Trim(c.accountId), false, now);
        return Some(Trim(c.accountId)), changed, found;
      }
      var stop := Find(c);
      found := stop;
      if stop.Some? && stop.value != "" {
        changed := Register(stop.value, false, now);
        return stop, changed, found;
      }
      if !UsesDerivedId(c) && drawn.None? { return None, false, found; }
      var accountId := if UsesDerivedId(c) then DerivedId(vault.hash, c) else drawn.value;
      var inherited := Inherit(vault, c, claims, accountId);
      identities := identities[accountId := IdentityOf(c, accountId, now)];
      var registered := Register(accountId, false, now);
      return Some(accountId), inherited || registered, found;
    }

    /** A whole resolution call; `found` lists where the walks stopped. */
    method Resolve(vault: Vault, cs: seq<Candidate>, drawn: nat -> Option<string>, now: int)
      returns (error: Option<Error>, ids: seq<string>, changed: bool, ghost found: seq<Option<string>>)
      modifies this
      ensures |found| == |cs| && MayFindAll(old(View()), vault, cs, |cs|, found, drawn, now)
      ensures (match error case Some(e) => ResolveFailed(e) case None => Resolution(View(), ids, changed))
              == ResolveAllFound(old(View()), vault, cs, |cs|, found, drawn, now)
    {
      hide ResolveFound, LegacyClaims, Trim, InheritLegacy, ResolveAllFound, MayFindAll, MayFind;
      ghost var d := View();
      var counts := CountClaims(cs);
      ids, changed, found := [], false, [];
      NothingFound(d, vault, cs, drawn, now);
      for i := 0 to |cs|
        invariant |found| == i && MayFindAll(d, vault, cs, i, found, drawn, now)
        invariant Resolution(View(), ids, changed) == ResolveAllFound(d, vault, cs, i, found, drawn, now)
      {
        var c := cs[i];
        var legacyId := Trim(c.legacyId);
        var claims := if legacyId in counts then counts[legacyId] else 0;
        ghost var before, was := View(), found;
        var id, again, stop := ResolveCandidate(vault, c, claims, drawn(i), now);
        found := found + [stop];
        BlankClaimsDoNotMatter(before, vault, c, claims, LegacyClaims(cs, legacyId), drawn(i), now, stop);
        FoundStep(d, vault, cs, i, was, stop, drawn, now);
        if id.None? {
          found := found + seq(|cs| - |found|, _ => None);
          assert was + [stop] + seq(|cs| - i - 1, _ => None) == found;
          FailureFound(d, vault, cs, i + 1, was + [stop], found, drawn, now);
          return Some(RandomUnavailable), [], false, found;
        }
        ids, changed := ids + [id.value], changed || again;
      }
      error := None;
    }

    /** Puts the account order in normal form. */
    method NormalizeOrder()
      modifies this`order
      ensures View() == Normalize(old(View()))
    {
      hide Trim;
      var seen, kept := {}, [];
      for i := 0 to |order|
        invariant order == old(order)
        invariant kept == NormalOrder(order[..i])
        invariant forall id :: id in seen <==> id in kept
      {
        assert order[..i + 1][..i] == order[..i];
        var id := Trim(order[i]);
        if id != "" && id !in seen {
          seen := seen + {id};
          kept := kept + [id];
        }
      }
      assert order[..|order|] == order;
      order := kept;
    }
  }

  /** How often each non-blank legacy id is claimed in a call. */
  method CountClaims(cs: seq<Candidate>) returns (counts: map<string, nat>)
    ensures forall id :: id != "" ==> LegacyClaims(cs, id) == if id in counts then counts[id] else 0
  {
    hide Trim;
    counts := map[];
    for i := 0 to |cs|
      invariant forall id :: id != "" ==> LegacyClaims(cs[..i], id) == if id in counts then counts[id] else 0
    {
      assert cs[..i + 1][..i] == cs[..i];
      var legacyId := Trim(cs[i].legacyId);
      if legacyId != "" {
        counts := counts[legacyId := (if legacyId in counts then counts[legacyId] else 0) + 1];
      }
    }
    assert cs[..|cs|] == cs;
  }

  /* ---------- where the walks stop ---------- */

  /** A walk over the identity records stops at one that matches, or nowhere if none does. */
  ghost predicate MayFind(identities: map<string, Identity>, c: Candidate, found: Option<string>) {
    match found
    case None => forall id | id in identities :: !Matches(identities[id], c)
    case Some(id) => id in identities && Matches(identities[id], c)
  }

  /** ResolveOne when the walk stops at `found`. */
  function ResolveFound(d: Prefs, vault: Vault, c: Candidate, claims: nat, drawn: Option<string>, now: int,
      found: Option<string>): Resolved {
    if !IsBlank(c.accountId) then
      var (d', changed) := EnsureKnown(d, Trim(c.accountId), false, now);
      Resolution(d', [Trim(c.accountId)], changed)
    else if found.Some? && found.value != "" then
      var (d', changed) := EnsureKnown(d, found.value, false, now);
      Resolution(d', [found.value], changed)
    else Preferences.Register(d, vault, c, claims, drawn, now)
  }

  /** ResolveAll when the walks stop as listed. */
  function ResolveAllFound(d: Prefs, vault: Vault, cs: seq<Candidate>, n: nat, found: seq<Option<string>>,
      drawn: nat -> Option<string>, now: int): Resolved
    requires n <= |cs| && n <= |found|
  {
    if n == 0 then Resolution(d, [], false)
    else
      match ResolveAllFound(d, vault, cs, n - 1, found, drawn, now)
      case ResolveFailed(e) => ResolveFailed(e)
      case Resolution(d', ids, changed) =>
        var c := cs[n - 1];
        match ResolveFound(d', vault, c, LegacyClaims(cs, Trim(c.legacyId)), drawn(n - 1), now, found[n - 1])
        case ResolveFailed(e) => ResolveFailed(e)
        case Resolution(d'', id, again) => Resolution(d'', ids + id, changed || again)
  }

  /** Each of the first n walks may stop as listed. */
  ghost predicate MayFindAll(d: Prefs, vault: Vault, cs: seq<Candidate>, n: nat, found: seq<Option<string>>,
      drawn: nat -> Option<string>, now: int)
    requires n <= |cs| && n <= |found|
  {
    n > 0 ==>
      && MayFindAll(d, vault, cs, n - 1, found, drawn, now)
      && var before := ResolveAllFound(d, vault, cs, n - 1, found, drawn, now);
         before.Resolution? && IsBlank(cs[n - 1].accountId) ==> MayFind(before.data.identities, cs[n - 1], found[n - 1])
  }

  function MutatedBy(r: Resolved): Mutated {
    match r
    case ResolveFailed(e) => Failed(e)
    case Resolution(d, _, changed) => Done(d, changed)
  }

  lemma NothingFound(d: Prefs, vault: Vault, cs: seq<Candidate>, drawn: nat -> Option<string>, now: int)
    ensures ResolveAllFound(d, vault, cs, 0, [], drawn, now) == Resolution(d, [], false)
    ensures MayFindAll(d, vault, cs, 0, [], drawn, now)
  {
  }

  /** Later stops do not matter. */
  lemma {:induction false} FoundPrefix(d: Prefs, vault: Vault, cs: seq<Candidate>, n: nat, found: seq<Option<string>>,
      more: seq<Option<string>>, drawn: nat -> Option<string>, now: int)
    requires n <= |cs| && n <= |found|
    ensures ResolveAllFound(d, vault, cs, n, found + more, drawn, now) ==
            ResolveAllFound(d, vault, cs, n, found, drawn, now)
    ensures MayFindAll(d, vault, cs, n, found + more, drawn, now) == MayFindAll(d, vault, cs, n, found, drawn, now)
  {
    hide ResolveFound, LegacyClaims, Trim, MayFind, IsBlank;
    if n == 0 {
    } else {
      FoundPrefix(d, vault, cs, n - 1, found, more, drawn, now);
    }
  }

  lemma FoundStep(d: Prefs, vault: Vault, cs: seq<Candidate>, i: nat, found: seq<Option<string>>, stop: Option<string>,
      drawn: nat -> Option<string>, now: int)
    requires i < |cs| && |found| == i && ResolveAllFound(d, vault, cs, i, found, drawn, now).Resolution?
    ensures var before := ResolveAllFound(d, vault, cs, i, found, drawn, now);
            && ResolveAllFound(d, vault, cs, i + 1, found + [stop], drawn, now) ==
                 (match ResolveFound(before.data, vault, cs[i], LegacyClaims(cs, Trim(cs[i].legacyId)), drawn(i), now,
                     stop)
                  case ResolveFailed(e) => ResolveFailed(e)
                  case Resolution(d', id, again) => Resolution(d', before.ids + id, before.changed || again))
            && (MayFindAll(d, vault, cs, i + 1, found + [stop], drawn, now) <==>
                 && MayFindAll(d, vault, cs, i, found, drawn, now)
                 && (IsBlank(cs[i].accountId) ==> MayFind(before.data.identities, cs[i], stop)))
  {
    hide ResolveFound, LegacyClaims, Trim, MayFind, IsBlank;
    FoundPrefix(d, vault, cs, i, found, [stop], drawn, now);
  }

  /** A call that has failed stays failed and walks no more. */
  lemma {:induction false} FailureFound(d: Prefs, vault: Vault, cs: seq<Candidate>, i: nat, found: seq<Option<string>>,
      all: seq<Option<string>>, drawn: nat -> Option<string>, now: int)
    requires i <= |cs| == |all| && |found| == i && found <= all
    requires ResolveAllFound(d, vault, cs, i, found, drawn, now).ResolveFailed?
    requires MayFindAll(d, vault, cs, i, found, drawn, now)
    ensures ResolveAllFound(d, vault, cs, |cs|, all, drawn, now) == ResolveAllFound(d, vault, cs, i, found, drawn, now)
    ensures MayFindAll(d, vault, cs, |cs|, all, drawn, now)
    decreases |cs| - i
  {
    hide ResolveFound, LegacyClaims, Trim, MayFind, IsBlank;
    if i == |cs| {
      assert found == all;
    } else {
      var next := all[..i + 1];
      assert next == found + [all[i]];
      FoundPrefix(d, vault, cs, i, found, [all[i]], drawn, now);
      FailureFound(d, vault, cs, i + 1, next, all, drawn, now);
    }
  }

  lemma BlankClaimsDoNotMatter(d: Prefs, vault: Vault, c: Candidate, claims: nat, claims': nat, drawn: Option<string>,
      now: int, found: Option<string>)
    requires Trim(c.legacyId) != "" ==> claims == claims'
    ensures ResolveFound(d, vault, c, claims, drawn, now, found) ==
            ResolveFound(d, vault, c, claims', drawn, now, found)
  {
    hide Trim, HasLegacyPreference, HasStableBasis, MigratePreference, EnsureKnown, UsesDerivedId, DerivedId,
      IdentityOf;
  }

  /** On consistent records at most one identity matches, so the walks do not matter. */
  lemma {:induction false} WalksDoNotMatter(d: Prefs, vault: Vault, cs: seq<Candidate>, n: nat,
      found: seq<Option<string>>, drawn: nat -> Option<string>, now: int)
    requires Collisionless(vault.hash) && Consistent(d, vault.hash) && GoodCall(d, vault.hash, cs, drawn)
    requires n <= |cs| && n <= |found| && MayFindAll(d, vault, cs, n, found, drawn, now)
    ensures ResolveAllFound(d, vault, cs, n, found, drawn, now) == ResolveAll(d, vault, cs, n, drawn, now)
  {
    hide ResolveOne, ResolveFound, LegacyClaims, Trim, Consistent, Collisionless, NotBoth, Unseen, MayFind, IsBlank;
    if n == 0 {
    } else {
      WalksDoNotMatter(d, vault, cs, n - 1, found, drawn, now);
      CallStaysConsistent(d, vault, cs, n - 1, drawn, now);
      var before, c := ResolveAll(d, vault, cs, n - 1, drawn, now), cs[n - 1];
      if before.Resolution? {
        WalkDoesNotMatter(before.data, vault, c, LegacyClaims(cs, Trim(c.legacyId)), drawn(n - 1), now, found[n - 1]);
      }
    }
  }

  lemma WalkDoesNotMatter(d: Prefs, vault: Vault, c: Candidate, claims: nat, drawn: Option<string>, now: int,
      found: Option<string>)
    requires Consistent(d, vault.hash) && NotBoth(c.sourceId, c.fingerprint)
    requires IsBlank(c.accountId) ==> MayFind(d.identities, c, found)
    ensures ResolveFound(d, vault, c, claims, drawn, now, found) == ResolveOne(d, vault, c, claims, drawn, now)
  {
    hide Consistent, Matches, NotBoth, Trim, EnsureKnown, Preferences.Register;
    if IsBlank(c.accountId) && found.Some? {
      AtMostOneMatch(d, vault.hash, c, found.value, FindMatch(d.identities, c).value);
    }
  }

  lemma {:induction false} FirstErrorStays(ms: seq<Mutation>, i: nat)
    requires i <= |ms| && FirstError(ms[..i]).Some?
    ensures FirstError(ms) == FirstError(ms[..i])
    decreases |ms| - i
  {
    hide MutationError;
    if i == |ms| {
      assert ms[..i] == ms;
    } else {
      assert ms[..i + 1][..i] == ms[..i];
      FirstErrorStays(ms, i + 1);
    }
  }

  lemma {:induction false} FailureStays(d: Prefs, ms: seq<Mutation>, i: nat, now: int, key: Option<nat>)
    requires i <= |ms| && ApplyMutations(d, ms[..i], now, key).Failed?
    ensures ApplyMutations(d, ms, now, key) == ApplyMutations(d, ms[..i], now, key)
    decreases |ms| - i
  {
    hide ApplyMutation;
    if i == |ms| {
      assert ms[..i] == ms;
    } else {
      assert ms[..i + 1][..i] == ms[..i];
      FailureStays(d, ms, i + 1, now, key);
    }
  }

  /** The published preferences and the directory their file lives in. */
  class MonitorPrefs {
    var data: Prefs
    const directory: Directory<Document>
    const path: string
    const vault: Vault

    ghost predicate Valid()
      reads this, directory
    {
      path in directory.files ==> directory.files[path].Whole?
    }

    ghost function View(): Cell
      requires Valid()
      reads this, directory
    {
      Cell(data, if path in directory.files then Some(directory.files[path].value) else None, path != "")
    }

    constructor (d: Prefs, directory: Directory<Document>, path: string, vault: Vault)
      requires path in directory.files ==> directory.files[path].Whole?
      ensures Valid() && data == d && this.directory == directory && this.path == path && this.vault == vault
    {
      data, this.directory, this.path, this.vault := d, directory, path, vault;
    }

    /** Compare-and-swap on the revision that the caller saw. */
    method Conflicts(expected: Option<int>) returns (reply: Option<Reply>)
      ensures reply == if expected.Some? && data.revision != expected.value
                       then Some(Conflict(expected.value, data.revision)) else None
    {
      if expected.Some? && data.revision != expected.value {
        return Some(Conflict(expected.value, data.revision));
      }
      return None;
    }

    /** The end of every commit: normalise, raise the revision, write, publish. */
    method Finish(draft: Draft, error: Option<Error>, changed: bool, temp: string, fault: Fault)
      returns (reply: Reply)
      requires Valid() && temp !in directory.files && temp != path
      modifies this`data, directory, draft
      ensures Valid()
      ensures var m := match error case Some(e) => Failed(e) case None => Done(old(draft.View()), changed);
              (View(), reply) == Commit(old(View()), None, m, OutcomeOf(fault))
    {
      if error.Some? { return Rejected(error.value); }
      if !changed { return Unchanged(data.revision); }
      draft.NormalizeOrder();
      draft.revision := draft.revision + 1;
      assert draft.View() == Successor(old(draft.View()));
      if path != "" {
        var ok, _ := directory.WriteFileAtomic(path, Document(FORMAT_VERSION, draft.View()), temp, fault);
        if !ok { return NotPersisted(data.revision); }
      }
      data := draft.View();
      return Published(data.revision);
    }

    method UpdateBatchAndThresholdsAtRevision(expected: Option<int>, ms: seq<Mutation>, wanted: Option<Thresholds>,
        now: int,
        temp: string, fault: Fault)
      returns (reply: Reply)
      requires Valid() && temp !in directory.files && temp != path
      modifies this`data, directory
      ensures Valid()
      ensures (View(), reply) ==
              Commit(old(View()), expected, Commits.Mutate(Op.Batch(ms, wanted, now), vault, old(data)),
                  OutcomeOf(fault))
    {
      hide ApplyBatch, Successor;
      var conflict := Conflicts(expected);
      if conflict.Some? { return conflict.value; }
      var draft := new Draft(data);
      var error, changed := draft.Batch(ms, wanted, now, vault.key);
      reply := Finish(draft, error, changed, temp, fault);
    }

    /** The commit of a cleanup: in-flight queries of these accounts may no longer be stored. */
    method InvalidateQueryResults(ids: seq<string>, temp: string, fault: Fault) returns (reply: Reply)
      requires Valid() && temp !in directory.files && temp != path
      modifies this`data, directory
      ensures Valid()
      ensures (View(), reply) ==
              Commit(old(View()), None, Commits.Mutate(Op.Invalidate(ids), vault, old(data)), OutcomeOf(fault))
    {
      hide InvalidateIds, NormalOrder, Successor;
      var draft := new Draft(data);
      var changed := draft.Invalidate(ids);
      reply := Finish(draft, None, changed, temp, fault);
    }

    method DismissAlert(rawId: string, temp: string, fault: Fault) returns (reply: Reply)
      requires Valid() && temp !in directory.files && temp != path
      modifies this`data, directory
      ensures Valid()
      ensures (View(), reply) ==
              Commit(old(View()), None, Commits.Mutate(Op.Dismiss(rawId), vault, old(data)), OutcomeOf(fault))
    {
      hide Trim, Successor, Utf8Length;
      var id := Trim(rawId);
      if id == "" { return Rejected(AlertIdRequired); }
      if Utf8Length(id) > MAX_ALERT_ID_BYTES { return Rejected(AlertIdTooLong); }
      var draft := new Draft(data);
      var changed := false;
      if !BoolAt(draft.dismissed, id) {
        draft.dismissed := draft.dismissed[id := true];
        changed := true;
      }
      reply := Finish(draft, None, changed, temp, fault);
    }

    method ReconcileDismissedAlerts(active: set<string>, temp: string, fault: Fault) returns (reply: Reply)
      requires Valid() && temp !in directory.files && temp != path
      modifies this`data, directory
      ensures Valid()
      ensures (View(), reply) ==
              Commit(old(View()), None, Commits.Mutate(Op.ReconcileAlerts(active), vault, old(data)), OutcomeOf(fault))
    {
      hide ReconcileDismissed, Successor;
      var draft := new Draft(data);
      var changed := draft.ForgetInactive(active);
      reply := Finish(draft, None, changed, temp, fault);
    }

    /** Answers the ids of the candidates only when the commit was not refused. On consistent
        records this is the commit of the Resolve operation. */
    method ResolveIdentities(cs: seq<Candidate>, drawn: nat -> Option<string>, now: int, temp: string,
        fault: Fault)
      returns (reply: Reply, ids: seq<string>, ghost found: seq<Option<string>>)
      requires Valid() && temp !in directory.files && temp != path
      modifies this`data, directory
      ensures Valid()
      ensures |found| == |cs| && MayFindAll(old(data), vault, cs, |cs|, found, drawn, now)
      ensures var r := ResolveAllFound(old(data), vault, cs, |cs|, found, drawn, now);
              && (View(), reply) == Commit(old(View()), None, MutatedBy(r), OutcomeOf(fault))
              && ids == if reply.Published? || reply.Unchanged? then r.ids else []
      ensures Collisionless(vault.hash) && Consistent(old(data), vault.hash)
              && GoodCall(old(data), vault.hash, cs, drawn) ==>
                (View(), reply) ==
                Commit(old(View()), None, Commits.Mutate(Op.Resolve(cs, drawn, now), vault, old(data)),
                    OutcomeOf(fault))
    {
      hide ResolveAll, Successor, Collisionless, Consistent, GoodCall, ResolveAllFound, MayFindAll;
      var draft := new Draft(data);
      var error, answered, changed, stops := draft.Resolve(vault, cs, drawn, now);
      found := stops;
      if Collisionless(vault.hash) && Consistent(data, vault.hash) && GoodCall(data, vault.hash, cs, drawn) {
        WalksDoNotMatter(data, vault, cs, |cs|, found, drawn, now);
      }
      reply := Finish(draft, error, changed, temp, fault);
      ids := if reply.Published? || reply.Unchanged? then answered else [];
    }
  }
}
