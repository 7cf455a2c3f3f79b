/** Committing an operation to the preferences: compare the revision, change a clone,
    normalise it, write the file, publish. Here the protocol is a function on the pair of
    published document and file; runs of commits and restarts are reasoned about below. */
module Commits {
  import opened Options
  import opened Text
  import opened Storage
  import opened Preferences

  const FORMAT_VERSION := 2

  /** Every operation the program commits. */
  datatype Op =
    | Batch(mutations: seq<Mutation>, wanted: Option<Thresholds>, now: int)
    | UpdateThresholds(limits: Thresholds)
    | Invalidate(ids: seq<string>)
    | Reconcile(defaults: seq<(string, bool)>, now: int)
    | Dismiss(alert: string)
    | ReconcileAlerts(active: set<string>)
    | Resolve(candidates: seq<Candidate>, drawn: nat -> Option<string>, now: int)
    | MigratePat(oldId: string, newId: string)
    | Save

  ghost function Mutate(op: Op, vault: Vault, d: Prefs): Mutated {
    match op
    case Batch(ms, wanted, now) => ApplyBatch(d, ms, wanted, now, vault.key)
    case UpdateThresholds(t) => var (d', changed) := SetThresholdsTo(d, Some(t)); Done(d', changed)
    case Invalidate(ids) => Done(InvalidateIds(d, ids), NormalOrder(ids) != [])
    case Reconcile(defaults, now) => var (d', changed) := ReconcileKnown(d, defaults, now); Done(d', changed)
    case Dismiss(alert) => DismissAlert(d, alert)
    case ReconcileAlerts(active) => ReconcileDismissed(d, active)
    case Resolve(cs, drawn, now) =>
      (match ResolveAll(d, vault, cs, |cs|, drawn, now)
       case ResolveFailed(e) => Failed(e)
       case Resolution(d', _, changed) => Done(d', changed))
    case MigratePat(oldId, newId) =>
      var o, n := Trim(oldId), Trim(newId);
      if o == "" || n == "" || o == n then Done(d, false)
      else
        (match MigratePreference(d, vault.key, o, n)
         case None => Failed(DecryptFailed)
         case Some(d') => Done(d', true))
    case Save => Done(d, true)
  }

  /** The preferences file. */
  datatype Document = Document(version: int, data: Prefs)

  /** What memory and the file hold. Without a path nothing is ever written. */
  datatype Cell = Cell(memory: Prefs, disk: Option<Document>, hasPath: bool)

  datatype Reply =
    | Conflict(expected: int, actual: int)
    | Rejected(error: Error)
    | Unchanged(revision: int)
    | NotPersisted(revision: int)
    | Published(revision: int)

  /** The document a changed clone becomes. */
  function Successor(data: Prefs): Prefs { Normalize(data).(revision := data.revision + 1) }

  function Commit(c: Cell, expected: Option<int>, m: Mutated, w: WriteOutcome): (Cell, Reply) {
    if expected.Some? && c.memory.revision != expected.value then (c, Conflict(expected.value, c.memory.revision))
    else
      match m
      case Failed(e) => (c, Rejected(e))
      case Done(data, changed) =>
        if !changed then (c, Unchanged(c.memory.revision))
        else
          var next := Successor(data);
          if !c.hasPath then (c.(memory := next), Published(next.revision))
          else
            match w
            case FailedBeforeRename => (c, NotPersisted(c.memory.revision))
            case FailedAfterRename =>
              (c.(disk := Some(Document(FORMAT_VERSION, next))), NotPersisted(c.memory.revision))
            case Written => (c.(memory := next, disk := Some(Document(FORMAT_VERSION, next))), Published(next.revision))
  }

  predicate IsBlankCipher(c: Cipher) { c.Blank? || (c.Garbage? && IsBlank(c.text)) }

  function RelinkFlags(pats: map<string, Cipher>): map<string, bool> {
    map id | id in pats && !IsBlankCipher(pats[id]) :: true
  }

  /** Reading a file of a supported format; credentials of an older format must be relinked. */
  function Loaded(disk: Option<Document>): Prefs {
    match disk
    case None => EMPTY
    case Some(doc) =>
      var d := Normalize(doc.data);
      if doc.version >= FORMAT_VERSION then d
      else d.(relink := d.relink + RelinkFlags(d.pats))
  }

  datatype Event =
    | TryCommit(op: Op, expected: Option<int>, write: WriteOutcome)
    | Restart

  ghost function Advance(c: Cell, vault: Vault, e: Event): Cell {
    match e
    case TryCommit(op, expected, w) => Commit(c, expected, Mutate(op, vault, c.memory), w).0
    case Restart => c.(memory := Loaded(c.disk))
  }

  ghost function After(c: Cell, vault: Vault, events: seq<Event>): Cell {
    if events == [] then c
    else Advance(After(c, vault, events[..|events| - 1]), vault, events[|events| - 1])
  }

  /** The reply to event i of a run. */
  ghost function ReplyAt(c: Cell, vault: Vault, events: seq<Event>, i: nat): Reply
    requires i < |events| && events[i].TryCommit?
  {
    var before := After(c, vault, events[..i]);
    Commit(before, events[i].expected, Mutate(events[i].op, vault, before.memory), events[i].write).1
  }

  /* ---------- normal order ---------- */

  lemma {:induction false} NormalOrderIsNormal(ids: seq<string>)
    ensures IsNormalOrder(NormalOrder(ids))
  {
    if ids == [] {
    } else {
      NormalOrderIsNormal(ids[..|ids| - 1]);
      TrimIdempotent(ids[|ids| - 1]);
    }
  }

  /** The normal order lists exactly the trimmed, non-blank ids. */
  lemma {:induction false} NormalOrderMembers(ids: seq<string>, id: string)
    ensures id in NormalOrder(ids) <==> id != "" && exists raw | raw in ids :: Trim(raw) == id
  {
    if ids == [] {
    } else {
      var n := |ids| - 1;
      NormalOrderMembers(ids[..n], id);
      assert forall raw :: raw in ids <==> raw in ids[..n] || raw == ids[n];
    }
  }

  lemma {:induction false} NormalOrderFixed(ids: seq<string>)
    requires IsNormalOrder(ids)
    ensures NormalOrder(ids) == ids
  {
    if ids == [] {
    } else {
      var n := |ids| - 1;
      assert IsNormalOrder(ids[..n]) by {
        assert forall i | 0 <= i < n :: ids[..n][i] == ids[i];
      }
      NormalOrderFixed(ids[..n]);
      assert ids == ids[..n] + [ids[n]];
    }
  }

  /** Ids that come later never move those before them, so each id stands where it came first. */
  lemma {:induction false} NormalOrderGrows(ids: seq<string>, more: seq<string>)
    ensures NormalOrder(ids) <= NormalOrder(ids + more)
  {
    if more == [] {
      assert ids + more == ids;
    } else {
      assert (ids + more)[..|ids + more| - 1] == ids + more[..|more| - 1];
      NormalOrderGrows(ids, more[..|more| - 1]);
    }
  }

  /* ---------- no operation touches the revision ---------- */

  lemma {:induction false} MutationsKeepRevision(d: Prefs, ms: seq<Mutation>, now: int, key: Option<nat>)
    ensures var r := ApplyMutations(d, ms, now, key);
            r.Done? ==> r.data.revision == d.revision && r.data.identities == d.identities
  {
    if ms == [] {
    } else {
      MutationsKeepRevision(d, ms[..|ms| - 1], now, key);
    }
  }

  lemma {:induction false} InvalidateKeepsRevision(d: Prefs, ids: seq<string>)
    ensures InvalidateIds(d, ids) == d.(queryRevisions := InvalidateIds(d, ids).queryRevisions)
  {
    if ids == [] {
    } else {
      InvalidateKeepsRevision(d, ids[..|ids| - 1]);
    }
  }

  lemma {:induction false} ReconcileKeepsRevision(d: Prefs, defaults: seq<(string, bool)>, now: int)
    ensures var d' := ReconcileKnown(d, defaults, now).0; d'.revision == d.revision && d'.identities == d.identities
  {
    if defaults == [] {
    } else {
      ReconcileKeepsRevision(d, defaults[..|defaults| - 1], now);
    }
  }

  lemma RegisterKeepsRevision(d: Prefs, vault: Vault, c: Candidate, claims: nat, drawn: Option<string>, now: int)
    ensures var r := Register(d, vault, c, claims, drawn, now); r.Resolution? ==> r.data.revision == d.revision
  {
  }

  lemma ResolveOneKeepsRevision(d: Prefs, vault: Vault, c: Candidate, claims: nat, drawn: Option<string>, now: int)
    ensures var r := ResolveOne(d, vault, c, claims, drawn, now); r.Resolution? ==> r.data.revision == d.revision
  {
    RegisterKeepsRevision(d, vault, c, claims, drawn, now);
    hide Register, EnsureKnown, FindMatch;
  }

  lemma {:induction false} ResolveKeepsRevision(d: Prefs, vault: Vault, cs: seq<Candidate>, n: nat,
      drawn: nat -> Option<string>, now: int)
    requires n <= |cs|
    ensures var r := ResolveAll(d, vault, cs, n, drawn, now); r.Resolution? ==> r.data.revision == d.revision
  {
    hide ResolveOne, LegacyClaims;
    if n == 0 {
    } else {
      ResolveKeepsRevision(d, vault, cs, n - 1, drawn, now);
      var before := ResolveAll(d, vault, cs, n - 1, drawn, now);
      if before.Resolution? {
        ResolveOneKeepsRevision(before.data, vault, cs[n - 1], LegacyClaims(cs, Trim(cs[n - 1].legacyId)),
            drawn(n - 1), now);
      }
    }
  }

  lemma MutateKeepsRevision(op: Op, vault: Vault, d: Prefs)
    ensures var m := Mutate(op, vault, d); m.Done? ==> m.data.revision == d.revision
  {
    hide ApplyBatch, ApplyMutations, InvalidateIds, ReconcileKnown, ResolveAll, NormalOrder, MigratePreference, Trim,
      SetThresholdsTo, DismissAlert, ReconcileDismissed;
    match op {
      case Batch(ms, _, now) => MutationsKeepRevision(d, ms, now, vault.key);
      case Invalidate(ids) => InvalidateKeepsRevision(d, ids);
      case Reconcile(defaults, now) => ReconcileKeepsRevision(d, defaults, now);
      case Resolve(cs, drawn, now) => ResolveKeepsRevision(d, vault, cs, |cs|, drawn, now);
      case _ =>
    }
  }

  lemma MutateKeepsIdentities(op: Op, vault: Vault, d: Prefs)
    requires !op.Resolve?
    ensures var m := Mutate(op, vault, d); m.Done? ==> m.data.identities == d.identities
  {
    hide ApplyBatch, ApplyMutations, InvalidateIds, ReconcileKnown, ResolveAll, NormalOrder, MigratePreference, Trim,
      SetThresholdsTo, DismissAlert, ReconcileDismissed;
    match op {
      case Batch(ms, _, now) => MutationsKeepRevision(d, ms, now, vault.key);
      case Invalidate(ids) => InvalidateKeepsRevision(d, ids);
      case Reconcile(defaults, now) => ReconcileKeepsRevision(d, defaults, now);
      case _ =>
    }
  }

  /** One commit: the revision rises by one exactly when it is published, which happens
      exactly when the compare succeeds, the operation changed something and the file (if
      any) was written; every other reply leaves memory as it was. */
  lemma CommitRaisesRevisionByOne(c: Cell, vault: Vault, op: Op, expected: Option<int>, w: WriteOutcome)
    ensures var m := Mutate(op, vault, c.memory);
            var (c', reply) := Commit(c, expected, m, w);
            && (reply.Published? <==>
                 (expected.None? || expected.value == c.memory.revision)
                 && m.Done? && m.changed && (!c.hasPath || w.Written?))
            && (reply.Published? ==> c'.memory.revision == c.memory.revision + 1 == reply.revision)
            && (!reply.Published? ==> c'.memory == c.memory)
            && (expected.Some? && expected.value != c.memory.revision ==>
                  reply == Conflict(expected.value, c.memory.revision))
            && (expected.None? || expected.value == c.memory.revision ==>
                  && (m.Failed? ==> reply == Rejected(m.error))
                  && (m.Done? && !m.changed ==> reply == Unchanged(c.memory.revision))
                  && (m.Done? && m.changed && c.hasPath && !w.Written? ==> reply == NotPersisted(c.memory.revision)))
            && (c'.disk != c.disk ==>
               c.hasPath && c'.disk.Some? && c'.disk.value.data.revision == c.memory.revision + 1)
  {
    MutateKeepsRevision(op, vault, c.memory);
  }

  /** Reading the file: without one, nothing is known; otherwise everything is as it was written,
      with the order normalised, except that every stored credential of an older format must be
      relinked, so no query is given it. */
  lemma LoadedExactly(version: int, data: Prefs, key: Option<nat>, id: string)
    ensures Loaded(None) == Prefs(0, map[], map[], map[], map[], map[], [], map[], map[], map[], map[], map[], None)
    ensures var r := Loaded(Some(Document(version, data)));
            && r == data.(order := NormalOrder(data.order), relink := r.relink)
            && (version >= 2 ==> r.relink == data.relink)
            && (version < 2 ==>
                  && (BoolAt(r.relink, id) <==>
                     || BoolAt(data.relink, id)
                     || (id in data.pats && (data.pats[id].Sealed?
                                             || (data.pats[id].Garbage? && !IsBlank(data.pats[id].text)))))
                  && (id in data.pats && data.pats[id].Sealed? ==> ReadPat(r, key, id) == ""))
  {
    hide NormalOrder;
  }

  /** The default that a discovery gives first to an account. */
  function FirstDefault(defaults: seq<(string, bool)>, id: string): (r: Option<bool>)
    ensures r.None? <==> forall k | 0 <= k < |defaults| :: Trim(defaults[k].0) != id
  {
    if defaults == [] then None
    else
      var n := |defaults| - 1;
      var before := FirstDefault(defaults[..n], id);
      assert forall k | 0 <= k < n :: defaults[..n][k] == defaults[k];
      if before.Some? then before else if Trim(defaults[n].0) == id then Some(defaults[n].1) else None
  }

  lemma {:induction false} FirstDefaultIsFirst(defaults: seq<(string, bool)>, id: string, k: nat)
    requires k < |defaults| && Trim(defaults[k].0) == id && forall j | 0 <= j < k :: Trim(defaults[j].0) != id
    ensures FirstDefault(defaults, id) == Some(defaults[k].1)
  {
    hide Trim;
    var n := |defaults| - 1;
    assert forall j | 0 <= j < n :: defaults[..n][j] == defaults[j];
    if k < n {
      FirstDefaultIsFirst(defaults[..n], id, k);
    } else {
    }
  }

  /** Registering the accounts of a discovery: afterwards each is known, seen and listed, an unknown
      one is monitored as its first default says and a known one as before; nobody else changes. */
  lemma {:induction false} ReconcileExactly(d: Prefs, defaults: seq<(string, bool)>, now: int, id: string)
    requires now != 0 && id != ""
    ensures var r, first := ReconcileKnown(d, defaults, now).0, FirstDefault(defaults, id);
            && BoolAt(r.known, id) == (BoolAt(d.known, id) || first.Some?)
            && (id in r.order <==> id in d.order || first.Some?)
            && BoolAt(r.monitored, id) ==
                 (if !BoolAt(d.known, id) && first.Some? then first.value else BoolAt(d.monitored, id))
            && IntAt(r.firstSeen, id) ==
                 (if IntAt(d.firstSeen, id) == 0 && first.Some? then now else IntAt(d.firstSeen, id))
  {
    hide Trim, EnsureKnown;
    if defaults == [] {
    } else {
      var n := |defaults| - 1;
      var before := ReconcileKnown(d, defaults[..n], now).0;
      ReconcileExactly(d, defaults[..n], now, id);
      RegisteringOne(before, defaults[n].0, defaults[n].1, now, id);
    }
  }

  lemma RegisteringOne(d: Prefs, rawId: string, value: bool, now: int, id: string)
    requires now != 0 && id != ""
    ensures var r, same := EnsureKnown(d, rawId, value, now).0, Trim(rawId) == id;
            && BoolAt(r.known, id) == (BoolAt(d.known, id) || same)
            && (id in r.order <==> id in d.order || same)
            && BoolAt(r.monitored, id) == (if !BoolAt(d.known, id) && same then value else BoolAt(d.monitored, id))
            && IntAt(r.firstSeen, id) == (if IntAt(d.firstSeen, id) == 0 && same then now else IntAt(d.firstSeen, id))
  {
    hide Trim, EnsureKnown;
    BlankRegistersNothing(d, rawId, value, now);
    if !IsBlank(rawId) {
      RegisteringRegisters(d, rawId, value, now);
      var r := EnsureKnown(d, rawId, value, now).0;
      if Trim(rawId) != id {
        assert Lookup(r.known, id) == Lookup(d.known, id) && Lookup(r.monitored, id) == Lookup(d.monitored, id);
        assert Lookup(r.firstSeen, id) == Lookup(d.firstSeen, id);
      }
    }
  }

  lemma BlankRegistersNothing(d: Prefs, id: string, value: bool, now: int)
    ensures IsBlank(id) ==> EnsureKnown(d, id, value, now) == (d, false)
  {
  }

  /** Nothing is reported as changed when all accounts were known, seen and listed. */
  lemma {:induction false} ReconcileUnchanged(d: Prefs, defaults: seq<(string, bool)>, now: int)
    requires forall k | 0 <= k < |defaults| && !IsBlank(defaults[k].0) ::
               var id := Trim(defaults[k].0); BoolAt(d.known, id) && IntAt(d.firstSeen, id) != 0 && id in d.order
    ensures ReconcileKnown(d, defaults, now) == (d, false)
  {
    hide Trim;
    if defaults == [] {
    } else {
      var n := |defaults| - 1;
      assert forall k | 0 <= k < n :: defaults[..n][k] == defaults[k];
      ReconcileUnchanged(d, defaults[..n], now);
    }
  }

  /** Operations that report no change leave the document as it is; only a call that resolves
      identities may still have added records for accounts that were registered before. */
  lemma UnchangedIsEqual(op: Op, vault: Vault, d: Prefs)
    requires !op.Batch? && !op.Resolve?
    ensures var m := Mutate(op, vault, d); m.Done? && !m.changed ==> m.data == d
  {
    hide ApplyBatch, NormalOrder, Trim, MigratePreference, ResolveAll, Utf8Length;
    match op {
      case Reconcile(defaults, now) => ReconcileReports(d, defaults, now);
      case Invalidate(ids) => if NormalOrder(ids) == [] { NothingInvalidated(d, ids); }
      case _ =>
    }
  }

  /** The other way round: an operation reports a change exactly when it has something to do. */
  lemma ReportsExactly(op: Op, vault: Vault, d: Prefs)
    requires op.Invalidate? || op.Reconcile? || op.MigratePat? || op.Save?
    ensures var m := Mutate(op, vault, d);
            match op
            case Invalidate(ids) => m.Done? && (m.changed <==> exists i :: 0 <= i < |ids| && !IsBlank(ids[i]))
            case Reconcile(defaults, now) =>
              m.Done? && (m.changed <==> exists i :: 0 <= i < |defaults| && Unregistered(d, Trim(defaults[i].0)))
            case MigratePat(oldId, newId) =>
              (m.Done? && m.changed <==>
               && !IsBlank(oldId) && !IsBlank(newId) && Trim(oldId) != Trim(newId)
               && MigratePreference(d, vault.key, Trim(oldId), Trim(newId)).Some?)
            case _ => m.Done? && m.changed
  {
    hide Trim, MigratePreference, NormalOrder, ReconcileKnown, Unregistered;
    match op {
      case Invalidate(ids) =>
        if i :| 0 <= i < |ids| && !IsBlank(ids[i]) { NormalOrderMembers(ids, Trim(ids[i])); }
        if NormalOrder(ids) != [] { NormalOrderMembers(ids, NormalOrder(ids)[0]); }
      case Reconcile(defaults, now) => ReconcileReportsExactly(d, defaults, now);
      case _ =>
    }
  }

  /** Something about registering the account is missing. */
  predicate Unregistered(d: Prefs, id: string) {
    id != "" && (!BoolAt(d.known, id) || IntAt(d.firstSeen, id) == 0 || id !in d.order)
  }

  lemma {:induction false} ReconcileReportsExactly(d: Prefs, defaults: seq<(string, bool)>, now: int)
    ensures ReconcileKnown(d, defaults, now).1 <==>
            exists i :: 0 <= i < |defaults| && Unregistered(d, Trim(defaults[i].0))
  {
    hide Trim, EnsureKnown;
    if defaults == [] {
    } else {
      var n := |defaults| - 1;
      ReconcileReports(d, defaults[..n], now);
      ReconcileReportsExactly(d, defaults[..n], now);
      assert forall i | 0 <= i < n :: defaults[..n][i] == defaults[i];
      RegisterReports(ReconcileKnown(d, defaults[..n], now).0, defaults[n].0, defaults[n].1, now);
      assert !ReconcileKnown(d, defaults[..n], now).1 && Unregistered(d, Trim(defaults[n].0)) ==>
          ReconcileKnown(d, defaults, now).1;
    }
  }

  lemma RegisterReports(d: Prefs, rawId: string, value: bool, now: int)
    ensures EnsureKnown(d, rawId, value, now).1 <==> Unregistered(d, Trim(rawId))
  {
    hide Trim;
  }

  lemma {:induction false} ReconcileReports(d: Prefs, defaults: seq<(string, bool)>, now: int)
    ensures var (r, changed) := ReconcileKnown(d, defaults, now); !changed ==> r == d
  {
    hide Trim;
    if defaults == [] {
    } else {
      ReconcileReports(d, defaults[..|defaults| - 1], now);
    }
  }

  lemma {:induction false} NothingInvalidated(d: Prefs, ids: seq<string>)
    requires NormalOrder(ids) == []
    ensures InvalidateIds(d, ids) == d
  {
    if ids == [] {
    } else {
      NothingInvalidated(d, ids[..|ids| - 1]);
    }
  }

  /* ---------- the chain of published documents ---------- */

  /** A restart would give back exactly what is published. */
  predicate Settled(c: Cell) { c.memory == Loaded(c.disk) }

  /** The file holds a complete, normalised successor of what is published, produced by
      operation `op`, whose commit was answered with an error. */
  ghost predicate AheadBy(c: Cell, vault: Vault, op: Op) {
    var m := Mutate(op, vault, c.memory);
    && m.Done? && m.changed
    && c.disk == Some(Document(FORMAT_VERSION, Successor(m.data)))
    && c.disk.value.data.revision == c.memory.revision + 1
    && IsNormalOrder(c.disk.value.data.order)
  }

  ghost predicate Ahead(c: Cell, vault: Vault, events: seq<Event>) {
    exists i :: 0 <= i < |events| && events[i].TryCommit? && AheadBy(c, vault, events[i].op)
  }

  /** A restart reads back exactly what a commit wrote. */
  lemma SuccessorLoads(data: Prefs)
    ensures Loaded(Some(Document(FORMAT_VERSION, Successor(data)))) == Successor(data)
    ensures IsNormalOrder(Successor(data).order)
  {
    hide NormalOrder, IsNormalOrder, RelinkFlags;
    NormalOrderIsNormal(data.order);
    NormalOrderFixed(NormalOrder(data.order));
  }

  lemma StepKeepsChain(c: Cell, vault: Vault, e: Event)
    requires c.hasPath
    ensures var c' := Advance(c, vault, e);
            && c'.hasPath
            && ((c'.disk == c.disk && c'.memory == c.memory)
                || Settled(c')
                || (e.TryCommit? && AheadBy(c', vault, e.op)))
  {
    hide Mutate, Loaded, Normalize, IsNormalOrder;
    if e.TryCommit? {
      var m := Mutate(e.op, vault, c.memory);
      MutateKeepsRevision(e.op, vault, c.memory);
      if m.Done? { SuccessorLoads(m.data); }
    }
  }

  /** At every point of every run, including just after a failed write or a crash, the
      file is either what is published or one complete successor of it. */
  lemma {:induction false} FileIsPublishedOrNext(c: Cell, vault: Vault, events: seq<Event>)
    requires c.hasPath && Settled(c)
    ensures var c' := After(c, vault, events); c'.hasPath && (Settled(c') || Ahead(c', vault, events))
  {
    if events == [] {
    } else {
      var n := |events| - 1;
      var before := After(c, vault, events[..n]);
      FileIsPublishedOrNext(c, vault, events[..n]);
      StepKeepsChain(before, vault, events[n]);
      var c' := After(c, vault, events);
      if !Settled(c') {
        if events[n].TryCommit? && AheadBy(c', vault, events[n].op) {
        } else {
          var i :| 0 <= i < n && events[..n][i].TryCommit? && AheadBy(before, vault, events[..n][i].op);
          assert events[i] == events[..n][i];
        }
      }
    }
  }

  lemma LoadedKeepsRevision(disk: Option<Document>)
    ensures disk.Some? ==> Loaded(disk).revision == disk.value.data.revision
  {
    hide NormalOrder, RelinkFlags;
  }

  /** The file's revision is the published one or the next. */
  lemma DiskRevisionIsCurrentOrNext(c: Cell, vault: Vault, events: seq<Event>)
    requires c.hasPath && Settled(c)
    ensures var c' := After(c, vault, events);
            c'.disk.Some? ==>
              c'.memory.revision <= c'.disk.value.data.revision <= c'.memory.revision + 1
  {
    hide Mutate, After, Loaded, Successor, IsNormalOrder;
    FileIsPublishedOrNext(c, vault, events);
    LoadedKeepsRevision(After(c, vault, events).disk);
  }

  lemma StepRaises(c: Cell, vault: Vault, e: Event, events: seq<Event>)
    requires c.hasPath && (Settled(c) || Ahead(c, vault, events))
    ensures Advance(c, vault, e).memory.revision >= c.memory.revision
  {
    hide Mutate, Loaded, Normalize, IsNormalOrder;
    LoadedKeepsRevision(c.disk);
    if e.TryCommit? { CommitRaisesRevisionByOne(c, vault, e.op, e.expected, e.write); }
  }

  /** Neither commits nor restarts ever lower the published revision. */
  lemma {:induction false} RevisionNeverFalls(c: Cell, vault: Vault, events: seq<Event>, i: nat, j: nat)
    requires c.hasPath && Settled(c) && i <= j <= |events|
    ensures After(c, vault, events[..i]).memory.revision <= After(c, vault, events[..j]).memory.revision
    decreases j
  {
    hide Advance, Settled, Ahead;
    if i == j {
    } else {
      RevisionNeverFalls(c, vault, events, i, j - 1);
      var before := After(c, vault, events[..j - 1]);
      assert events[..j][..j - 1] == events[..j - 1];
      var e := events[j - 1];
      FileIsPublishedOrNext(c, vault, events[..j - 1]);
      StepRaises(before, vault, e, events[..j - 1]);
    }
  }

  /** Two commits of one run that named the same expected revision are never both published,
      whatever fails or crashes in between. */
  lemma OneWinnerPerRevision(c: Cell, vault: Vault, events: seq<Event>, i: nat, j: nat)
    requires c.hasPath && Settled(c) && i < j < |events|
    requires events[i].TryCommit? && events[j].TryCommit?
    requires events[i].expected.Some? && events[i].expected == events[j].expected
    ensures !(ReplyAt(c, vault, events, i).Published? && ReplyAt(c, vault, events, j).Published?)
  {
    var before, later := After(c, vault, events[..i]), After(c, vault, events[..j]);
    var e, e' := events[i], events[j];
    CommitRaisesRevisionByOne(before, vault, e.op, e.expected, e.write);
    CommitRaisesRevisionByOne(later, vault, e'.op, e'.expected, e'.write);
    assert events[..i + 1][..i] == events[..i];
    RevisionNeverFalls(c, vault, events, i + 1, j);
  }

  /* ---------- refused commits ---------- */

  /** Event i put its document into the file, whether or not it was answered with an error. */
  ghost predicate Reached(c: Cell, vault: Vault, events: seq<Event>, i: nat)
    requires i < |events|
  {
    && events[i].TryCommit? && !events[i].write.FailedBeforeRename?
    && var before := After(c, vault, events[..i]);
       var m := Mutate(events[i].op, vault, before.memory);
       && (events[i].expected.None? || events[i].expected.value == before.memory.revision)
       && m.Done? && m.changed
  }

  /** The document that event i of a run tries to write. */
  ghost function Attempted(c: Cell, vault: Vault, events: seq<Event>, i: nat): Prefs
    requires i < |events| && events[i].TryCommit?
  {
    var m := Mutate(events[i].op, vault, After(c, vault, events[..i]).memory);
    if m.Done? then Successor(m.data) else After(c, vault, events[..i]).memory
  }

  /** The last event whose document reached the file. */
  ghost function LastReached(c: Cell, vault: Vault, events: seq<Event>): (r: Option<nat>)
    ensures r.Some? ==> r.value < |events| && Reached(c, vault, events, r.value)
    ensures forall i | (if r.Some? then r.value + 1 else 0) <= i < |events| :: !Reached(c, vault, events, i)
  {
    if events == [] then None
    else
      var n := |events| - 1;
      ReachedPrefix(c, vault, events);
      if Reached(c, vault, events, n) then Some(n) else LastReached(c, vault, events[..n])
  }

  lemma ReachedPrefix(c: Cell, vault: Vault, events: seq<Event>)
    requires events != []
    ensures forall i: nat | i < |events| - 1 :: Reached(c, vault, events[..|events| - 1], i) <==>
            Reached(c, vault, events, i)
  {
    hide After, Mutate;
    var before := events[..|events| - 1];
    forall i: nat | i < |before| ensures Reached(c, vault, before, i) <==> Reached(c, vault, events, i) {
      assert before[i] == events[i] && before[..i] == events[..i];
    }
  }

  /** The file always holds the last document that reached it. */
  lemma {:induction false} FileIsLastReached(c: Cell, vault: Vault, events: seq<Event>)
    requires c.hasPath
    ensures var end, last := After(c, vault, events), LastReached(c, vault, events);
            && end.hasPath
            && end.disk == if last.Some? then Some(Document(FORMAT_VERSION, Attempted(c, vault, events, last.value)))
               else c.disk
  {
    hide Mutate, Successor, Loaded;
    if events == [] {
      assert LastReached(c, vault, events).None?;
    } else {
      var n := |events| - 1;
      FileIsLastReached(c, vault, events[..n]);
      var last := LastReached(c, vault, events[..n]);
      if last.Some? {
        assert events[..n][..last.value] == events[..last.value];
      }
    }
  }

  /** A commit that was refused although its operation succeeded is what a restart publishes
      exactly when its write failed after the rename and no later commit reached the file;
      otherwise the restart publishes the last document that did reach it, or what the file
      held at the start. */
  lemma RefusedCommitReturnsExactly(c: Cell, vault: Vault, events: seq<Event>, i: nat)
    requires c.hasPath && i < |events| && events[i].TryCommit? && ReplyAt(c, vault, events, i).NotPersisted?
    ensures LastReached(c, vault, events) == Some(i) <==>
              events[i].write.FailedAfterRename? && forall j: nat | i < j < |events| :: !Reached(c, vault, events, j)
    ensures var last := LastReached(c, vault, events);
            After(c, vault, events + [Restart]).memory ==
              if last.Some? then Attempted(c, vault, events, last.value) else Loaded(c.disk)
  {
    hide Mutate, Loaded, Successor, LastReached;
    FileIsLastReached(c, vault, events);
    assert Reached(c, vault, events, i) <==> events[i].write.FailedAfterRename? by {
      RefusedReaches(c, vault, events, i);
    }
    assert (events + [Restart])[..|events|] == events;
    var last := LastReached(c, vault, events);
    if last.Some? {
      var m := Mutate(events[last.value].op, vault, After(c, vault, events[..last.value]).memory);
      SuccessorLoads(m.data);
    }
  }

  lemma RefusedReaches(c: Cell, vault: Vault, events: seq<Event>, i: nat)
    requires c.hasPath && i < |events| && events[i].TryCommit? && ReplyAt(c, vault, events, i).NotPersisted?
    ensures Reached(c, vault, events, i) <==> events[i].write.FailedAfterRename?
  {
    hide Mutate, Successor, After;
    FileIsLastReached(c, vault, events[..i]);
  }

  /** An input: a write that fails after the rename, and a restart. */
  lemma FailedCommitReturnsAfterRestart(c: Cell, vault: Vault, op: Op)
    requires c.hasPath
    ensures var m := Mutate(op, vault, c.memory);
            var c' := After(c, vault, [TryCommit(op, None, FailedAfterRename), Restart]);
            m.Done? && m.changed ==> c'.memory == Successor(m.data)
  {
    var events := [TryCommit(op, None, FailedAfterRename), Restart];
    var m := Mutate(op, vault, c.memory);
    assert events[..1] == [events[0]] && events[..1][..0] == [];
    assert After(c, vault, events[..1]) == Advance(After(c, vault, []), vault, events[0]);
    if m.Done? && m.changed {
      SuccessorLoads(m.data);
      assert After(c, vault, events[..1]).disk == Some(Document(FORMAT_VERSION, Successor(m.data)));
    }
  }
}
