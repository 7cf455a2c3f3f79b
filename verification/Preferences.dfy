/** The persisted monitor preferences and every operation that may change them.

    Each operation is a function from the current document to either an error or a new
    document with a "changed" flag, which is what the commit closures of prefs.go compute. */
module Preferences {
  import opened Options
  import opened Text

  const ZERO_TIME: int := 0
  const MAX_NAME_LENGTH := 80
  const MAX_ALERT_ID_BYTES := 128

  /** A stored management credential: nothing, text that no key opens, or plaintext sealed
      under a key with an account id as the authenticated associated data. */
  datatype Cipher = Blank | Garbage(text: string) | Sealed(key: nat, aad: string, plain: string)

  datatype CashRule = CashRule(warning: string, critical: string)

  const ZERO_RULE := CashRule("", "")

  datatype Thresholds = Thresholds(
    warningPercent: real,
    criticalPercent: real,
    cashByCurrency: map<string, CashRule>,
    cashByAccount: map<string, CashRule>)

  datatype Identity = Identity(
    accountId: string, source: string, sourceId: string, legacyId: string,
    baseUrl: string, fingerprint: string, provider: string, firstSeenAt: int)

  datatype Candidate = Candidate(
    accountId: string, legacyId: string, source: string, sourceId: string,
    baseUrl: string, fingerprint: string, provider: string)

  datatype Prefs = Prefs(
    revision: int,
    known: map<string, bool>,
    monitored: map<string, bool>,
    adapters: map<string, string>,
    pats: map<string, Cipher>,
    names: map<string, string>,
    order: seq<string>,
    firstSeen: map<string, int>,
    identities: map<string, Identity>,
    relink: map<string, bool>,
    queryRevisions: map<string, int>,
    dismissed: map<string, bool>,
    thresholds: Option<Thresholds>)

  const EMPTY := Prefs(0, map[], map[], map[], map[], map[], [], map[], map[], map[], map[], map[], None)

  datatype Mutation = Mutation(
    id: string, monitored: Option<bool>, adapter: string, clearAdapter: bool,
    patAction: string, pat: string, customName: Option<string>)

  /** The key file's contents when it could be read, and the keyed hash behind derived ids. */
  datatype Vault = Vault(key: Option<nat>, hash: (string, string, string) -> string)

  datatype Error =
    | IdRequired | UnsupportedPatAction | NameTooLong | NameHasControl | AdapterConflict
    | PatRequired | PatConflict | KeyUnavailable | DecryptFailed | RandomUnavailable
    | AlertIdRequired | AlertIdTooLong

  datatype Mutated = Failed(error: Error) | Done(data: Prefs, changed: bool)

  /* ---------- map reads, with Go's zero values ---------- */

  predicate BoolAt(m: map<string, bool>, id: string) { id in m && m[id] }

  function IntAt(m: map<string, int>, id: string): int { if id in m then m[id] else 0 }

  function TextAt(m: map<string, string>, id: string): string { if id in m then m[id] else "" }

  function CipherAt(m: map<string, Cipher>, id: string): Cipher { if id in m then m[id] else Blank }

  function RuleAt(m: map<string, CashRule>, k: string): CashRule { if k in m then m[k] else ZERO_RULE }

  function Lookup<V>(m: map<string, V>, id: string): Option<V> { if id in m then Some(m[id]) else None }

  /* ---------- credential sealing ---------- */

  function Encrypt(key: Option<nat>, aad: string, plain: string): Option<Cipher> {
    if key.None? then None else Some(Sealed(key.value, aad, plain))
  }

  function Decrypt(key: Option<nat>, aad: string, c: Cipher): Option<string> {
    if key.Some? && c.Sealed? && c.key == key.value && c.aad == aad then Some(c.plain) else None
  }

  /** The credential a query is given: "" unless it is stored, opens and needs no relinking. */
  function ReadPat(d: Prefs, key: Option<nat>, id: string): string {
    var c := CipherAt(d.pats, id);
    if c.Blank? || key.None? || BoolAt(d.relink, id) then ""
    else match Decrypt(key, id, c) case Some(p) => p case None => ""
  }

  /** The adapter override a query is given; "" when there is none. */
  function ReadAdapter(d: Prefs, id: string): string { FirstNonEmpty([TextAt(d.adapters, id), ""]) }

  /** The gate a query result passes before it may be stored. */
  predicate CanCommitQueryResult(d: Prefs, id: string, revision: int) {
    BoolAt(d.known, id) && BoolAt(d.monitored, id) && IntAt(d.queryRevisions, id) == revision
  }

  /* ---------- normalisation ---------- */

  /** `ids` trimmed, without blanks and without later repetitions. */
  function NormalOrder(ids: seq<string>): (r: seq<string>) {
    if ids == [] then []
    else
      var r := NormalOrder(ids[..|ids| - 1]);
      var id := Trim(ids[|ids| - 1]);
      if id == "" || id in r then r else r + [id]
  }

  predicate IsNormalOrder(ids: seq<string>) {
    && (forall i | 0 <= i < |ids| :: ids[i] != "" && Trim(ids[i]) == ids[i])
    && (forall i, j | 0 <= i < j < |ids| :: ids[i] != ids[j])
  }

  function Normalize(d: Prefs): Prefs { d.(order := NormalOrder(d.order)) }

  /* ---------- registering an account ---------- */

  function EnsureKnown(d: Prefs, rawId: string, defaultValue: bool, now: int): (r: (Prefs, bool))
    ensures r.0 == d.(known := r.0.known, monitored := r.0.monitored, firstSeen := r.0.firstSeen, order := r.0.order)
  {
    var id := Trim(rawId);
    if id == "" then (d, false)
    else
      var unknown := !BoolAt(d.known, id);
      var unseen := IntAt(d.firstSeen, id) == ZERO_TIME;
      var unordered := id !in d.order;
      (d.(known := if unknown then d.known[id := true] else d.known,
          monitored := if unknown then d.monitored[id := defaultValue] else d.monitored,
          firstSeen := if unseen then d.firstSeen[id := now] else d.firstSeen,
          order := if unordered then d.order + [id] else d.order),
       unknown || unseen || unordered)
  }

  /** Afterwards the account is known, seen and listed; an account that was known keeps its
      monitoring and a seen one its time; no other account differs. "changed" is right. */
  lemma RegisteringRegisters(d: Prefs, rawId: string, value: bool, now: int)
    requires !IsBlank(rawId)
    ensures var (r, changed) := EnsureKnown(d, rawId, value, now);
            var id := Trim(rawId);
            && BoolAt(r.known, id) && id in r.order
            && IntAt(r.firstSeen, id) == (if IntAt(d.firstSeen, id) == ZERO_TIME then now else IntAt(d.firstSeen, id))
            && BoolAt(r.monitored, id) == (if BoolAt(d.known, id) then BoolAt(d.monitored, id) else value)
            && (IntAt(d.firstSeen, id) != ZERO_TIME ==> r.firstSeen == d.firstSeen)
            && (id in d.order ==> r.order == d.order)
            && (changed <==> !BoolAt(d.known, id) || IntAt(d.firstSeen, id) == ZERO_TIME || id !in d.order)
            && forall other | other != id ::
                 && Lookup(r.known, other) == Lookup(d.known, other)
                 && Lookup(r.monitored, other) == Lookup(d.monitored, other)
                 && Lookup(r.firstSeen, other) == Lookup(d.firstSeen, other) && (other in r.order <==> other in d.order)
  {
    hide Trim;
  }

  /* ---------- the provider batch ---------- */

  function PatAction(m: Mutation): string {
    var action := ToLower(Trim(m.patAction));
    if action == "" then "keep" else action
  }

  function NameError(name: string): Option<Error> {
    var n := Trim(name);
    if |n| > MAX_NAME_LENGTH then Some(NameTooLong)
    else if exists c | c in n :: c as int < 0x20 || c as int == 0x7F then Some(NameHasControl)
    else None
  }

  function MutationError(m: Mutation): Option<Error> {
    if IsBlank(m.id) then Some(IdRequired)
    else if PatAction(m) !in ["keep", "replace", "clear"] then Some(UnsupportedPatAction)
    else if m.customName.Some? && NameError(m.customName.value).Some? then NameError(m.customName.value)
    else if m.clearAdapter && !IsBlank(m.adapter) then Some(AdapterConflict)
    else if PatAction(m) == "replace" && IsBlank(m.pat) then Some(PatRequired)
    else if PatAction(m) == "clear" && !IsBlank(m.pat) then Some(PatConflict)
    else None
  }

  function FirstError(ms: seq<Mutation>): Option<Error> {
    if ms == [] then None
    else
      var before := FirstError(ms[..|ms| - 1]);
      if before.Some? then before else MutationError(ms[|ms| - 1])
  }

  function SetMonitored(monitored: map<string, bool>, id: string, wanted: Option<bool>): (map<string, bool>, bool) {
    if wanted.Some? && BoolAt(monitored, id) != wanted.value
    then (monitored[id := wanted.value], true)
    else (monitored, false)
  }

  function SetAdapter(adapters: map<string, string>, m: Mutation): (map<string, string>, bool) {
    var adapter := ToLower(Trim(m.adapter));
    if m.clearAdapter then (adapters - {m.id}, m.id in adapters)
    else if !IsBlank(m.adapter) && TextAt(adapters, m.id) != adapter then (adapters[m.id := adapter], true)
    else (adapters, false)
  }

  /** The credential and relink maps after the PAT action; None when sealing fails. The
      action is read without the "keep" default here. */
  function SetPat(pats: map<string, Cipher>, relink: map<string, bool>, m: Mutation, key: Option<nat>)
    : Option<(map<string, Cipher>, map<string, bool>, bool)>
  {
    var action := ToLower(Trim(m.patAction));
    if action == "replace" then
      match Encrypt(key, m.id, Trim(m.pat))
      case None => None
      case Some(c) => Some((pats[m.id := c], relink - {m.id}, true))
    else if action == "clear" then
      var flagged := BoolAt(relink, m.id);
      Some((pats - {m.id}, if flagged then relink - {m.id} else relink, m.id in pats || flagged))
    else Some((pats, relink, false))
  }

  function SetName(names: map<string, string>, id: string, wanted: Option<string>): (map<string, string>, bool) {
    if wanted.None? then (names, false)
    else
      var name := Trim(wanted.value);
      if name == "" then (names - {id}, id in names)
      else if TextAt(names, id) != name then (names[id := name], true)
      else (names, false)
  }

  function Bumped(revisions: map<string, int>, id: string): map<string, int> {
    revisions[id := IntAt(revisions, id) + 1]
  }

  /** Registration is on the trimmed id, everything else on the id as it was given. */
  function ApplyMutation(d: Prefs, m: Mutation, now: int, key: Option<nat>): (r: Mutated)
    ensures r.Done? ==> r.data.revision == d.revision && r.data.identities == d.identities
    ensures r.Done? ==> r.data.dismissed == d.dismissed && r.data.thresholds == d.thresholds
  {
    var (d0, c0) := EnsureKnown(d, m.id, true, now);
    var (monitored, c1) := SetMonitored(d0.monitored, m.id, m.monitored);
    var (adapters, c2) := SetAdapter(d0.adapters, m);
    match SetPat(d0.pats, d0.relink, m, key)
    case None => Failed(KeyUnavailable)
    case Some((pats, relink, c3)) =>
      var (names, c4) := SetName(d0.names, m.id, m.customName);
      var queryChanged := c1 || c2 || c3;
      Done(d0.(monitored := monitored, adapters := adapters, pats := pats, relink := relink, names := names,
               queryRevisions := if queryChanged then Bumped(d0.queryRevisions, m.id) else d0.queryRevisions),
           c0 || queryChanged || c4)
  }

  function ApplyMutations(d: Prefs, ms: seq<Mutation>, now: int, key: Option<nat>): Mutated {
    if ms == [] then Done(d, false)
    else
      match ApplyMutations(d, ms[..|ms| - 1], now, key)
      case Failed(e) => Failed(e)
      case Done(d', changed) =>
        match ApplyMutation(d', ms[|ms| - 1], now, key)
        case Failed(e) => Failed(e)
        case Done(d'', again) => Done(d'', changed || again)
  }

  /** The comparison the code makes: equal sizes, and every left rule found on the right,
      where a missing key reads as the zero rule. */
  predicate RulesLookEqual(left: map<string, CashRule>, right: map<string, CashRule>) {
    |left| == |right| && forall k | k in left :: RuleAt(right, k) == left[k]
  }

  predicate ThresholdsLookEqual(left: Option<Thresholds>, right: Thresholds) {
    && left.Some?
    && left.value.warningPercent == right.warningPercent
    && left.value.criticalPercent == right.criticalPercent
    && RulesLookEqual(left.value.cashByCurrency, right.cashByCurrency)
    && RulesLookEqual(left.value.cashByAccount, right.cashByAccount)
  }

  function SetThresholdsTo(d: Prefs, wanted: Option<Thresholds>): (r: (Prefs, bool))
    ensures r.0 == d.(thresholds := r.0.thresholds)
  {
    if wanted.Some? && !ThresholdsLookEqual(d.thresholds, wanted.value)
    then (d.(thresholds := wanted), true)
    else (d, false)
  }

  function ApplyBatch(d: Prefs, ms: seq<Mutation>, wanted: Option<Thresholds>, now: int, key: Option<nat>): (r: Mutated)
    ensures var m := ApplyMutations(d, ms, now, key);
            r.Done? ==> m.Done? && r.data == m.data.(thresholds := r.data.thresholds)
  {
    match FirstError(ms)
    case Some(e) => Failed(e)
    case None =>
      match ApplyMutations(d, ms, now, key)
      case Failed(e) => Failed(e)
      case Done(d', changed) =>
        var (d'', again) := SetThresholdsTo(d', wanted);
        Done(d'', changed || again)
  }

  /* ---------- smaller commits ---------- */

  /** Raises the query revision of every distinct non-blank id once. */
  function InvalidateIds(d: Prefs, ids: seq<string>): Prefs {
    if ids == [] then d
    else
      var before := ids[..|ids| - 1];
      var id := Trim(ids[|ids| - 1]);
      var d' := InvalidateIds(d, before);
      if id == "" || id in NormalOrder(before) then d' else d'.(queryRevisions := Bumped(d'.queryRevisions, id))
  }

  function ReconcileKnown(d: Prefs, defaults: seq<(string, bool)>, now: int): (Prefs, bool) {
    if defaults == [] then (d, false)
    else
      var (d', changed) := ReconcileKnown(d, defaults[..|defaults| - 1], now);
      var (id, value) := defaults[|defaults| - 1];
      var (d'', again) := EnsureKnown(d', id, value, now);
      (d'', changed || again)
  }

  function Utf8Length(s: string): nat {
    if s == [] then 0
    else
      var n := s[0] as int;
      (if n < 0x80 then 1 else if n < 0x800 then 2 else if n < 0x10000 then 3 else 4) + Utf8Length(s[1..])
  }

  function DismissAlert(d: Prefs, rawId: string): (r: Mutated)
    ensures r.Done? ==> r.data == d.(dismissed := r.data.dismissed)
  {
    var id := Trim(rawId);
    if id == "" then Failed(AlertIdRequired)
    else if Utf8Length(id) > MAX_ALERT_ID_BYTES then Failed(AlertIdTooLong)
    else if BoolAt(d.dismissed, id) then Done(d, false)
    else Done(d.(dismissed := d.dismissed[id := true]), true)
  }

  function ReconcileDismissed(d: Prefs, active: set<string>): (r: Mutated)
    ensures r.Done? && r.data == d.(dismissed := r.data.dismissed)
  {
    var gone := d.dismissed.Keys - active;
    Done(d.(dismissed := d.dismissed - gone), gone != {})
  }

  /* ---------- identities ---------- */

  function NormalUrl(raw: string): string { DropTrailing(Trim(ToLower(raw)), '/') }

  predicate Matches(identity: Identity, c: Candidate) {
    && identity.source == c.source
    && if !IsBlank(c.sourceId) then identity.sourceId == c.sourceId
       else
         && !IsBlank(c.fingerprint) && !IsBlank(identity.fingerprint)
         && NormalUrl(identity.baseUrl) == NormalUrl(c.baseUrl)
         && identity.fingerprint == c.fingerprint
  }

  predicate HasStableBasis(c: Candidate) {
    var source := ToLower(Trim(c.source));
    if source == "host" then !IsBlank(c.sourceId)
    else source == "static" && NormalUrl(c.baseUrl) != "" && !IsBlank(c.fingerprint)
  }

  /** Any stored identity that matches; the code takes the first its map walk meets. */
  ghost function FindMatch(identities: map<string, Identity>, c: Candidate): (r: Option<string>)
    ensures r.None? <==> forall id | id in identities :: !Matches(identities[id], c)
    ensures r.Some? ==> r.value in identities && Matches(identities[r.value], c)
  {
    if exists id :: id in identities && Matches(identities[id], c)
    then var id :| id in identities && Matches(identities[id], c); Some(id)
    else None
  }

  predicate UsesDerivedId(c: Candidate) { ToLower(c.source) == "host" && !IsBlank(c.sourceId) }

  function DerivedId(hash: (string, string, string) -> string, c: Candidate): string {
    hash(ToLower(Trim(c.source)), Trim(c.sourceId), Trim(c.fingerprint))
  }

  predicate HasLegacyPreference(d: Prefs, id: string) {
    && id != ""
    && (id in d.known || id in d.monitored || id in d.adapters || id in d.pats || id in d.names
        || id in d.firstSeen || id in d.relink || id in d.order)
  }

  function Move<V>(m: map<string, V>, oldId: string, newId: string): map<string, V> {
    if oldId in m then m[newId := m[oldId]] - {oldId} else m
  }

  function ReplaceIn(ids: seq<string>, oldId: string, newId: string): (r: seq<string>)
    ensures |r| == |ids|
    ensures forall i | 0 <= i < |ids| :: r[i] == if ids[i] == oldId then newId else ids[i]
  {
    seq(|ids|, i requires 0 <= i < |ids| => if ids[i] == oldId then newId else ids[i])
  }

  /** The credentials after moving one; None when it does not open. */
  function MovePat(pats: map<string, Cipher>, key: Option<nat>, oldId: string,
      newId: string): Option<map<string, Cipher>> {
    var c := CipherAt(pats, oldId);
    if c.Blank? then Some(pats)
    else
      match Decrypt(key, oldId, c)
      case None => None
      case Some(plain) =>
        match Encrypt(key, newId, plain)
        case None => None
        case Some(c') => Some(pats[newId := c'] - {oldId})
  }

  /** None when the legacy credential does not open; nothing is moved then. */
  function MigratePreference(d: Prefs, key: Option<nat>, oldId: string, newId: string): (r: Option<Prefs>)
    ensures r.Some? ==> r.value.revision == d.revision && r.value.identities == d.identities
    ensures r.Some? ==> r.value.queryRevisions == d.queryRevisions && r.value.dismissed == d.dismissed
    ensures r.Some? ==> r.value.thresholds == d.thresholds
  {
    if oldId == "" || newId == "" || oldId == newId then Some(d)
    else
      match MovePat(d.pats, key, oldId, newId)
      case None => None
      case Some(pats) =>
        Some(d.(pats := pats,
                relink := if BoolAt(d.relink, oldId) then d.relink - {oldId} else d.relink,
                known := Move(d.known, oldId, newId),
                monitored := Move(d.monitored, oldId, newId),
                adapters := Move(d.adapters, oldId, newId),
                names := Move(d.names, oldId, newId),
                firstSeen := Move(d.firstSeen, oldId, newId),
                order := ReplaceIn(d.order, oldId, newId)))
  }

  /** How many candidates of the call claim a legacy id. */
  function LegacyClaims(cs: seq<Candidate>, legacyId: string): nat {
    if cs == [] then 0
    else LegacyClaims(cs[..|cs| - 1], legacyId) + if Trim(cs[|cs| - 1].legacyId) == legacyId then 1 else 0
  }

  function InheritLegacy(d: Prefs, vault: Vault, c: Candidate, claims: nat, id: string): (r: Prefs)
    ensures r.revision == d.revision && r.identities == d.identities
    ensures r.queryRevisions == d.queryRevisions && r.dismissed == d.dismissed && r.thresholds == d.thresholds
  {
    var legacyId := Trim(c.legacyId);
    if legacyId == "" || !HasLegacyPreference(d, legacyId) then d
    else if claims == 1 && HasStableBasis(c) then
      match MigratePreference(d, vault.key, legacyId, id)
      case None => d.(relink := d.relink[id := true])
      case Some(d') => d'
    else if !CipherAt(d.pats, legacyId).Blank? || BoolAt(d.relink, legacyId) then
      d.(relink := d.relink[id := true])
    else d
  }

  /** The three things inheriting can do. */
  lemma InheritCases(d: Prefs, vault: Vault, c: Candidate, claims: nat, id: string)
    ensures var r := InheritLegacy(d, vault, c, claims, id);
            || r == d
            || r == d.(relink := d.relink[id := true])
            || (claims == 1 && HasStableBasis(c) && Some(r) == MigratePreference(d, vault.key, Trim(c.legacyId), id))
  {
    hide HasLegacyPreference, HasStableBasis, Trim, MigratePreference, CipherAt, BoolAt;
  }

  lemma MigrationShape(d: Prefs, key: Option<nat>, oldId: string, newId: string)
    ensures var r := MigratePreference(d, key, oldId, newId);
            r.Some? ==>
              && (r.value.relink == d.relink || r.value.relink == d.relink - {oldId})
              && (r.value.known == d.known || r.value.known == Move(d.known, oldId, newId))
              && (r.value.order == d.order || r.value.order == ReplaceIn(d.order, oldId, newId))
  {
    hide Move, ReplaceIn, Encrypt, Decrypt, CipherAt, BoolAt;
  }

  function IdentityOf(c: Candidate, id: string, now: int): Identity {
    Identity(id, c.source, c.sourceId, c.legacyId, c.baseUrl, c.fingerprint, c.provider, now)
  }

  datatype Resolved = ResolveFailed(error: Error) | Resolution(data: Prefs, ids: seq<string>, changed: bool)

  /** One candidate of a resolution call. `drawn` is the random id drawn if one is needed. */
  ghost function ResolveOne(d: Prefs, vault: Vault, c: Candidate, claims: nat, drawn: Option<string>,
      now: int): Resolved {
    if !IsBlank(c.accountId) then
      var (d', changed) := EnsureKnown(d, Trim(c.accountId), false, now);
      Resolution(d', [Trim(c.accountId)], changed)
    else
      match FindMatch(d.identities, c)
      case Some(id) =>
        if id == "" then Register(d, vault, c, claims, drawn, now)
        else
          var (d', changed) := EnsureKnown(d, id, false, now);
          Resolution(d', [id], changed)
      case None => Register(d, vault, c, claims, drawn, now)
  }

  /** Gives an unmatched candidate its id, its inheritance and its identity record. The
      identity record is new, but "changed" only reports inheritance and registration. */
  function Register(d: Prefs, vault: Vault, c: Candidate, claims: nat, drawn: Option<string>, now: int): Resolved {
    if !UsesDerivedId(c) && drawn.None? then ResolveFailed(RandomUnavailable)
    else
      var id := if UsesDerivedId(c) then DerivedId(vault.hash, c) else drawn.value;
      var d1 := InheritLegacy(d, vault, c, claims, id);
      var inherited := Inherits(d, c, claims);
      var (d3, registered) := EnsureKnown(d1.(identities := d1.identities[id := IdentityOf(c, id, now)]), id, false,
          now);
      Resolution(d3, [id], inherited || registered)
  }

  /** Whether the legacy branch reports a change. */
  predicate Inherits(d: Prefs, c: Candidate, claims: nat) {
    var legacyId := Trim(c.legacyId);
    && legacyId != "" && HasLegacyPreference(d, legacyId)
    && ((claims == 1 && HasStableBasis(c)) || !CipherAt(d.pats, legacyId).Blank? || BoolAt(d.relink, legacyId))
  }

  /** The candidates of one call in order; `drawn(i)` is the random id for candidate i. */
  ghost function ResolveAll(d: Prefs, vault: Vault, cs: seq<Candidate>, n: nat, drawn: nat -> Option<string>,
      now: int): Resolved
    requires n <= |cs|
  {
    if n == 0 then Resolution(d, [], false)
    else
      match ResolveAll(d, vault, cs, n - 1, drawn, now)
      case ResolveFailed(e) => ResolveFailed(e)
      case Resolution(d', ids, changed) =>
        var c := cs[n - 1];
        match ResolveOne(d', vault, c, LegacyClaims(cs, Trim(c.legacyId)), drawn(n - 1), now)
        case ResolveFailed(e) => ResolveFailed(e)
        case Resolution(d'', id, again) => Resolution(d'', ids + id, changed || again)
  }
}
