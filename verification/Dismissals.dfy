/** Dismissing alerts: which alerts a report hides, over whole runs. */
module Dismissals {
  import opened Options
  import opened Text
  import opened Storage
  import opened Preferences
  import opened Commits
  import opened MonitorPreferences
  import Reports

  /** The ids a report's alerts keep alive. */
  function ActiveIds(alerts: seq<Reports.Alert>): set<string> {
    set a | a in alerts && !IsBlank(a.id) :: a.id
  }

  /** The alerts that are not dismissed, in their order. */
  function Visible(alerts: seq<Reports.Alert>, dismissed: map<string, bool>): (r: seq<Reports.Alert>)
    ensures forall a :: a in r <==> a in alerts && !BoolAt(dismissed, a.id)
  {
    if alerts == [] then []
    else
      var last := alerts[|alerts| - 1];
      var before := Visible(alerts[..|alerts| - 1], dismissed);
      assert forall a :: a in alerts <==> a in alerts[..|alerts| - 1] || a == last;
      if BoolAt(dismissed, last.id) then before else before + [last]
  }

  method CollectActive(alerts: seq<Reports.Alert>) returns (active: set<string>)
    ensures active == ActiveIds(alerts)
    ensures forall id :: id in active <==> !IsBlank(id) && exists i :: 0 <= i < |alerts| && alerts[i].id == id
  {
    active := {};
    for i := 0 to |alerts|
      invariant active == ActiveIds(alerts[..i])
    {
      assert alerts[..i + 1] == alerts[..i] + [alerts[i]];
      if !IsBlank(alerts[i].id) { active := active + {alerts[i].id}; }
    }
    assert alerts[..|alerts|] == alerts;
  }

  method KeepVisible(alerts: seq<Reports.Alert>, dismissed: map<string, bool>) returns (visible: seq<Reports.Alert>)
    ensures visible == Visible(alerts, dismissed)
  {
    if |dismissed| == 0 {
      NothingDismissed(alerts);
      assert dismissed == map[];
      return alerts;
    }
    visible := [];
    for i := 0 to |alerts|
      invariant visible == Visible(alerts[..i], dismissed)
    {
      assert alerts[..i + 1][..i] == alerts[..i];
      if !BoolAt(dismissed, alerts[i].id) { visible := visible + [alerts[i]]; }
    }
    assert alerts[..|alerts|] == alerts;
  }

  /** Forgets dismissals that are no longer active, whether or not that can be written, and
      drops the alerts still dismissed. */
  method FilterDismissedAlerts(prefs: MonitorPrefs, alerts: seq<Reports.Alert>, temp: string, fault: Fault)
    returns (visible: seq<Reports.Alert>)
    requires prefs.Valid() && temp !in prefs.directory.files && temp != prefs.path
    modifies prefs`data, prefs.directory
    ensures prefs.Valid()
    ensures prefs.View() == Commit(old(prefs.View()), None,
              Commits.Mutate(Op.ReconcileAlerts(ActiveIds(alerts)), prefs.vault, old(prefs.data)), OutcomeOf(fault)).0
    ensures visible == Visible(alerts, prefs.data.dismissed)
  {
    hide Commit, Commits.Mutate, Visible, ActiveIds;
    var active := CollectActive(alerts);
    var _ := prefs.ReconcileDismissedAlerts(active, temp, fault);
    visible := KeepVisible(alerts, prefs.data.dismissed);
  }

  /** A further alert goes or stays for itself. */
  lemma VisibleStep(alerts: seq<Reports.Alert>, a: Reports.Alert, dismissed: map<string, bool>)
    ensures Visible(alerts + [a], dismissed)
         == Visible(alerts, dismissed) + if a.id in dismissed && dismissed[a.id] then [] else [a]
  {
    assert (alerts + [a])[..|alerts|] == alerts;
  }

  lemma {:induction false} NothingDismissed(alerts: seq<Reports.Alert>)
    ensures Visible(alerts, map[]) == alerts
  {
    if alerts == [] {
    } else {
      hide Visible;
      var before, last := alerts[..|alerts| - 1], alerts[|alerts| - 1];
      assert before + [last] == alerts;
      NothingDismissed(before);
      VisibleStep(before, last, map[]);
    }
  }

  lemma Regrouped<T>(a: seq<T>, b: seq<T>, c: seq<T>)
    ensures (a + b) + c == a + (b + c)
  {
  }

  /** The visible alerts are the given ones in their order, each for itself: an alert that is
      dismissed goes, any other stays. */
  lemma {:induction false} VisibleExactly(xs: seq<Reports.Alert>, ys: seq<Reports.Alert>, a: Reports.Alert,
      dismissed: map<string, bool>)
    ensures Visible([a], dismissed) == if a.id in dismissed && dismissed[a.id] then [] else [a]
    ensures Visible(xs + ys, dismissed) == Visible(xs, dismissed) + Visible(ys, dismissed)
  {
    assert [] + [a] == [a];
    VisibleStep([], a, dismissed);
    if ys == [] {
      assert xs + ys == xs;
    } else {
      hide Visible;
      var before, last := ys[..|ys| - 1], ys[|ys| - 1];
      assert before + [last] == ys;
      Regrouped(xs, before, [last]);
      VisibleExactly(xs, before, a, dismissed);
      Regrouped(Visible(xs, dismissed), Visible(before, dismissed), Visible([last], dismissed));
      assert Visible([last], dismissed) == if BoolAt(dismissed, last.id) then [] else [last] by {
        assert [] + [last] == [last];
        VisibleStep([], last, dismissed);
      }
      VisibleStep(before, last, dismissed);
      VisibleStep(xs + before, last, dismissed);
    }
  }

  /** The bytes of a text: one to four a character, added up. */
  lemma {:induction false} BytesExactly(c: char, xs: string, ys: string)
    ensures Utf8Length("") == 0 && Utf8Length(xs + ys) == Utf8Length(xs) + Utf8Length(ys)
    ensures var n := c as int;
            && (n <= 0x7F ==> Utf8Length([c]) == 1) && (0x80 <= n <= 0x7FF ==> Utf8Length([c]) == 2)
            && (0x800 <= n <= 0xFFFF ==> Utf8Length([c]) == 3) && (0x10000 <= n ==> Utf8Length([c]) == 4)
  {
    if xs == "" {
      assert xs + ys == ys;
    } else {
      assert (xs + ys)[1..] == xs[1..] + ys;
      BytesExactly(c, xs[1..], ys);
    }
  }

  /** Dismissing fails exactly for a blank id and for one of more than 128 bytes without its
      surrounding spaces; otherwise that id is marked, and the change is reported when it was not
      marked before. */
  lemma DismissExactly(d: Prefs, rawId: string, k: string)
    ensures var r, id := Preferences.DismissAlert(d, rawId), Trim(rawId);
            && (r == Failed(AlertIdRequired) <==> id == "")
            && (r == Failed(AlertIdTooLong) <==> id != "" && Utf8Length(id) > 128)
            && (r.Done? <==> id != "" && Utf8Length(id) <= 128)
            && (r.Done? ==>
                  && r.data == d.(dismissed := r.data.dismissed) && (r.changed <==> !BoolAt(d.dismissed, id))
                  && BoolAt(r.data.dismissed, k) == (k == id || BoolAt(d.dismissed, k)))
  {
    hide Trim, Utf8Length;
  }

  /** Reconciling touches nothing but the marks, and reports a change exactly when some dismissed
      alert is not active any more. */
  lemma ForgetReports(d: Prefs, active: set<string>)
    ensures var r := ReconcileDismissed(d, active);
            && r.data == d.(dismissed := r.data.dismissed)
            && (r.changed <==> exists id :: id in d.dismissed && id !in active)
  {
    if id :| id in d.dismissed && id !in active {
      assert id in d.dismissed.Keys - active;
    }
  }

  /** Reconciling forgets exactly the marks of alerts that are not active any more. */
  lemma ForgetExactly(d: Prefs, active: set<string>, k: string)
    ensures Lookup(ReconcileDismissed(d, active).data.dismissed, k)
         == if k in active then Lookup(d.dismissed, k) else None
  {
    var gone := d.dismissed.Keys - active;
    if k in d.dismissed && k !in active {
      assert k in gone;
    } else {
      assert k !in gone;
    }
  }

  /* ---------- runs ---------- */

  /** The commit is neither refused as a conflict nor lost in a failed write. */
  predicate Lands(c: Cell, e: Event) {
    e.TryCommit? && (e.expected.None? || e.expected.value == c.memory.revision) && (!c.hasPath || e.write.Written?)
  }

  predicate DismissesId(op: Op, id: string) {
    op.Dismiss? && Trim(op.alert) == id && id != "" && Utf8Length(id) <= MAX_ALERT_ID_BYTES
  }

  /** A report in which the alert is not active. */
  predicate ForgetsId(op: Op, id: string) { op.ReconcileAlerts? && id !in op.active }

  lemma {:induction false} MutationsKeepDismissed(d: Prefs, ms: seq<Mutation>, now: int, key: Option<nat>)
    ensures var r := ApplyMutations(d, ms, now, key); r.Done? ==> r.data.dismissed == d.dismissed
  {
    hide ApplyMutation;
    if ms == [] {
    } else {
      MutationsKeepDismissed(d, ms[..|ms| - 1], now, key);
    }
  }

  lemma {:induction false} ReconcileKeepsDismissed(d: Prefs, defaults: seq<(string, bool)>, now: int)
    ensures ReconcileKnown(d, defaults, now).0.dismissed == d.dismissed
  {
    hide EnsureKnown;
    if defaults == [] {
    } else {
      ReconcileKeepsDismissed(d, defaults[..|defaults| - 1], now);
    }
  }

  lemma ResolveOneKeepsDismissed(d: Prefs, vault: Vault, c: Candidate, claims: nat, drawn: Option<string>, now: int)
    ensures var r := ResolveOne(d, vault, c, claims, drawn, now); r.Resolution? ==> r.data.dismissed == d.dismissed
  {
    hide EnsureKnown, FindMatch, InheritLegacy, Inherits, UsesDerivedId, DerivedId, IdentityOf, Trim;
  }

  lemma {:induction false} ResolveKeepsDismissed(d: Prefs, vault: Vault, cs: seq<Candidate>, n: nat,
      drawn: nat -> Option<string>, now: int)
    requires n <= |cs|
    ensures var r := ResolveAll(d, vault, cs, n, drawn, now); r.Resolution? ==> r.data.dismissed == d.dismissed
  {
    hide ResolveOne, LegacyClaims, Trim;
    if n == 0 {
    } else {
      ResolveKeepsDismissed(d, vault, cs, n - 1, drawn, now);
      var before := ResolveAll(d, vault, cs, n - 1, drawn, now);
      if before.Resolution? {
        ResolveOneKeepsDismissed(before.data, vault, cs[n - 1], LegacyClaims(cs, Trim(cs[n - 1].legacyId)),
            drawn(n - 1), now);
      }
    }
  }

  lemma OthersKeepDismissed(op: Op, vault: Vault, d: Prefs)
    requires !op.Dismiss? && !op.ReconcileAlerts?
    ensures var m := Mutate(op, vault, d); m.Done? ==> m.data.dismissed == d.dismissed
  {
    hide ApplyBatch, ApplyMutations, InvalidateIds, ReconcileKnown, ResolveAll, NormalOrder, MigratePreference, Trim,
      SetThresholdsTo, DismissAlert, ReconcileDismissed;
    match op {
      case Batch(ms, _, now) => MutationsKeepDismissed(d, ms, now, vault.key);
      case Invalidate(ids) => InvalidateKeepsRevision(d, ids);
      case Reconcile(defaults, now) => ReconcileKeepsDismissed(d, defaults, now);
      case Resolve(cs, drawn, now) => ResolveKeepsDismissed(d, vault, cs, |cs|, drawn, now);
      case _ =>
    }
  }

  lemma DismissMarks(d: Prefs, alert: string, id: string)
    ensures var m := DismissAlert(d, alert);
            if m.Failed? then !DismissesId(Dismiss(alert), id)
            else
              && (BoolAt(m.data.dismissed, id) <==> DismissesId(Dismiss(alert), id) || BoolAt(d.dismissed, id))
              && (!m.changed ==> (BoolAt(m.data.dismissed, id) <==> BoolAt(d.dismissed, id)))
  {
    hide Trim, Utf8Length, BoolAt;
    MarkedAt(d.dismissed, Trim(alert), id);
  }

  lemma MarkedAt(m: map<string, bool>, k: string, id: string)
    ensures BoolAt(m[k := true], id) <==> id == k || BoolAt(m, id)
  {
  }

  lemma ReportForgets(d: Prefs, active: set<string>, id: string)
    ensures var m := ReconcileDismissed(d, active);
            && (BoolAt(m.data.dismissed, id) <==> BoolAt(d.dismissed, id) && id in active)
            && (!m.changed ==> (BoolAt(m.data.dismissed, id) <==> BoolAt(d.dismissed, id)))
  {
    var gone := d.dismissed.Keys - active;
    ForgottenAt(d.dismissed, gone, id);
    assert id in gone <==> id in d.dismissed && id !in active;
  }

  lemma ForgottenAt(m: map<string, bool>, gone: set<string>, id: string)
    ensures BoolAt(m - gone, id) <==> BoolAt(m, id) && id !in gone
  {
  }

  /** What one operation does to one dismissal. */
  lemma MutateDismissal(op: Op, vault: Vault, d: Prefs, id: string)
    ensures var m := Mutate(op, vault, d);
            if m.Failed? then !DismissesId(op, id) && !ForgetsId(op, id)
            else
              && (BoolAt(m.data.dismissed, id) <==>
                 DismissesId(op, id) || (BoolAt(d.dismissed, id) && !ForgetsId(op, id)))
              && (!m.changed ==> (BoolAt(m.data.dismissed, id) <==> BoolAt(d.dismissed, id)))
  {
    hide BoolAt, DismissAlert, ReconcileDismissed, Trim, Utf8Length;
    if op.Dismiss? {
      assert Mutate(op, vault, d) == DismissAlert(d, op.alert);
      DismissMarks(d, op.alert, id);
    } else if op.ReconcileAlerts? {
      assert Mutate(op, vault, d) == ReconcileDismissed(d, op.active);
      ReportForgets(d, op.active, id);
    } else {
      hide Mutate;
      OthersKeepDismissed(op, vault, d);
    }
  }

  /** One commit: only a landing dismissal sets the mark, only a landing report without the
      alert clears it. */
  lemma StepDismissal(c: Cell, vault: Vault, e: Event, id: string)
    requires e.TryCommit?
    ensures var c' := Advance(c, vault, e);
            BoolAt(c'.memory.dismissed, id) <==>
              || (Lands(c, e) && DismissesId(e.op, id))
              || (BoolAt(c.memory.dismissed, id) && !(Lands(c, e) && ForgetsId(e.op, id)))
  {
    hide Mutate, NormalOrder, DismissesId;
    MutateDismissal(e.op, vault, c.memory, id);
    DismissesOnly(e.op, id);
  }

  lemma DismissesOnly(op: Op, id: string)
    ensures DismissesId(op, id) ==> op.Dismiss?
  {
  }

  /** The dismissal of the alert by event j has landed and no report that landed after it
      missed the alert. */
  ghost predicate StillDismissed(c: Cell, vault: Vault, events: seq<Event>, j: nat, id: string)
    requires j < |events|
  {
    && Lands(After(c, vault, events[..j]), events[j]) && DismissesId(events[j].op, id)
    && NeverForgotten(c, vault, events, j + 1, id)
  }

  ghost predicate NeverForgotten(c: Cell, vault: Vault, events: seq<Event>, from: nat, id: string) {
    forall i | from <= i < |events| && Lands(After(c, vault, events[..i]), events[i]) :: !ForgetsId(events[i].op, id)
  }

  lemma NeverForgottenStep(c: Cell, vault: Vault, events: seq<Event>, from: nat, id: string)
    requires events != [] && from < |events|
    ensures var n := |events| - 1;
            NeverForgotten(c, vault, events, from, id) <==>
              NeverForgotten(c, vault, events[..n], from, id)
              && !(Lands(After(c, vault, events[..n]), events[n]) && ForgetsId(events[n].op, id))
  {
    hide After, ForgetsId;
    var n := |events| - 1;
    assert forall i | 0 <= i < n :: events[..n][i] == events[i] && events[..n][..i] == events[..i];
    if NeverForgotten(c, vault, events, from, id) {
      forall i | from <= i < n && Lands(After(c, vault, events[..n][..i]), events[..n][i])
          ensures !ForgetsId(events[..n][i].op, id) {
        assert events[..n][..i] == events[..i];
      }
    }
  }

  /** Over any run of commits, of any kind, conflicting or failing or not: an alert is marked
      as dismissed exactly when some dismissal of it landed, or it was marked at the start,
      and every report that landed since then still had it. */
  lemma {:induction false} DismissedExactly(c: Cell, vault: Vault, events: seq<Event>, id: string)
    requires forall e | e in events :: e.TryCommit?
    ensures BoolAt(After(c, vault, events).memory.dismissed, id) <==>
              || (BoolAt(c.memory.dismissed, id) && NeverForgotten(c, vault, events, 0, id))
              || exists j :: 0 <= j < |events| && StillDismissed(c, vault, events, j, id)
  {
    hide Advance, Lands, DismissesId, ForgetsId, NeverForgotten;
    if events == [] {
      assert NeverForgotten(c, vault, events, 0, id) by { NothingForgotten(c, vault, id); }
    } else {
      var n := |events| - 1;
      DismissedExactly(c, vault, events[..n], id);
      StepDismissal(After(c, vault, events[..n]), vault, events[n], id);
      NeverForgottenStep(c, vault, events, 0, id);
      StillDismissedStep(c, vault, events, id);
    }
  }

  lemma NothingForgotten(c: Cell, vault: Vault, id: string)
    ensures NeverForgotten(c, vault, [], 0, id)
  {
  }

  lemma NoneAfterEnd(c: Cell, vault: Vault, events: seq<Event>, id: string)
    ensures NeverForgotten(c, vault, events, |events|, id)
  {
  }

  lemma StillDismissedStep(c: Cell, vault: Vault, events: seq<Event>, id: string)
    requires events != []
    ensures var n := |events| - 1; var before := After(c, vault, events[..n]);
            (exists j :: 0 <= j < |events| && StillDismissed(c, vault, events, j, id)) <==>
              || (Lands(before, events[n]) && DismissesId(events[n].op, id))
              || ((exists j :: 0 <= j < n && StillDismissed(c, vault, events[..n], j, id))
                  && !(Lands(before, events[n]) && ForgetsId(events[n].op, id)))
  {
    hide After, DismissesId, ForgetsId, NeverForgotten;
    var n := |events| - 1;
    NoneAfterEnd(c, vault, events, id);
    assert StillDismissed(c, vault, events, n, id) <==>
        Lands(After(c, vault, events[..n]), events[n]) && DismissesId(events[n].op, id);
    forall j | 0 <= j < n
      ensures StillDismissed(c, vault, events, j, id) <==>
                StillDismissed(c, vault, events[..n], j, id)
                && !(Lands(After(c, vault, events[..n]), events[n]) && ForgetsId(events[n].op, id))
    {
      assert events[..n][j] == events[j] && events[..n][..j] == events[..j];
      NeverForgottenStep(c, vault, events, j + 1, id);
    }
  }

  /** A report built at the end of a run hides an active alert exactly when some dismissal of it
      landed, or it was dismissed at the start, and every report that landed since had it. */
  lemma HiddenExactly(c: Cell, vault: Vault, events: seq<Event>, alerts: seq<Reports.Alert>, a: Reports.Alert,
      w: WriteOutcome)
    requires forall e | e in events :: e.TryCommit?
    requires a in alerts && !IsBlank(a.id)
    ensures var reported := After(c, vault, events + [TryCommit(ReconcileAlerts(ActiveIds(alerts)), None, w)]);
            a !in Visible(alerts, reported.memory.dismissed) <==>
              || (BoolAt(c.memory.dismissed, a.id) && NeverForgotten(c, vault, events, 0, a.id))
              || exists j :: 0 <= j < |events| && StillDismissed(c, vault, events, j, a.id)
  {
    hide StillDismissed, NeverForgotten, Visible, Advance, IsBlank;
    var e := TryCommit(ReconcileAlerts(ActiveIds(alerts)), None, w);
    var all := events + [e];
    assert all[..|all| - 1] == events;
    assert a.id in ActiveIds(alerts);
    DismissedExactly(c, vault, events, a.id);
    StepDismissal(After(c, vault, events), vault, e, a.id);
  }

  /* ---------- runs with restarts ---------- */

  /** The operations behind what memory holds, and behind what the file holds. A commit whose
      write fails after the rename is behind the file only, until a restart. */
  datatype Lineage = Lineage(memory: seq<Op>, file: seq<Op>)

  ghost function Behind(c: Cell, vault: Vault, events: seq<Event>): Lineage {
    if events == [] then Lineage([], [])
    else
      var n := |events| - 1;
      Behind1(After(c, vault, events[..n]), vault, events[n], Behind(c, vault, events[..n]))
  }

  ghost function Behind1(before: Cell, vault: Vault, e: Event, l: Lineage): Lineage {
    match e
    case Restart => Lineage(l.file, l.file)
    case TryCommit(op, expected, write) =>
      var m := Mutate(op, vault, before.memory);
      if (expected.Some? && expected.value != before.memory.revision) || m.Failed? || !m.changed then l
      else
        match write
        case Written => Lineage(l.memory + [op], l.memory + [op])
        case FailedAfterRename => l.(file := l.memory + [op])
        case FailedBeforeRename => l
  }

  /** Following the mark of one alert along operations. */
  function Marked(start: bool, ops: seq<Op>, id: string): bool {
    if ops == [] then start
    else
      var op := ops[|ops| - 1];
      DismissesId(op, id) || (Marked(start, ops[..|ops| - 1], id) && !ForgetsId(op, id))
  }

  predicate NoneForgets(ops: seq<Op>, from: nat, id: string) {
    forall k | from <= k < |ops| :: !ForgetsId(ops[k], id)
  }

  /** The mark is there exactly when some dismissal, or the start, was followed only by
      operations that do not forget the alert. */
  lemma {:induction false} MarkedExactly(start: bool, ops: seq<Op>, id: string)
    ensures Marked(start, ops, id) <==>
              || (start && NoneForgets(ops, 0, id))
              || exists j :: 0 <= j < |ops| && DismissesId(ops[j], id) && NoneForgets(ops, j + 1, id)
  {
    hide DismissesId, ForgetsId;
    if ops == [] {
    } else {
      var n := |ops| - 1;
      MarkedExactly(start, ops[..n], id);
      assert forall k | 0 <= k < n :: ops[..n][k] == ops[k];
      forall j | 0 <= j <= n
          ensures NoneForgets(ops, j, id) <==> NoneForgets(ops[..n], j, id) && !ForgetsId(ops[n], id) {
        assert NoneForgets(ops, j, id) ==> forall k | j <= k < n :: !ForgetsId(ops[k], id);
      }
      assert NoneForgets(ops, n + 1, id);
      assert DismissesId(ops[n], id) ==> !ForgetsId(ops[n], id) by { DismissalForgetsNothing(ops[n], id); }
    }
  }

  lemma DismissalForgetsNothing(op: Op, id: string)
    ensures DismissesId(op, id) ==> !ForgetsId(op, id)
  {
  }

  lemma LoadedKeepsMark(disk: Option<Document>)
    ensures disk.Some? ==> Loaded(disk).dismissed == disk.value.data.dismissed
  {
    hide NormalOrder, RelinkFlags;
  }

  lemma StepBehind(c: Cell, vault: Vault, e: Event, l: Lineage, start: bool, id: string)
    requires c.hasPath
    requires BoolAt(c.memory.dismissed, id) == Marked(start, l.memory, id)
    requires BoolAt(Loaded(c.disk).dismissed, id) == Marked(start, l.file, id)
    ensures var c', l' := Advance(c, vault, e), Behind1(c, vault, e, l);
            && c'.hasPath
            && BoolAt(c'.memory.dismissed, id) == Marked(start, l'.memory, id)
            && BoolAt(Loaded(c'.disk).dismissed, id) == Marked(start, l'.file, id)
  {
    hide Mutate, Loaded, DismissesId, ForgetsId, BoolAt, NormalOrder;
    if e.TryCommit? {
      var m := Mutate(e.op, vault, c.memory);
      MutateDismissal(e.op, vault, c.memory, id);
      if m.Done? { LoadedKeepsMark(Some(Document(FORMAT_VERSION, Successor(m.data)))); }
    }
  }

  /** Over every run, whatever fails, conflicts or restarts: an alert is dismissed in memory
      exactly when, among the operations behind what memory holds, a dismissal of it was
      followed by no report without it, or it was dismissed at the start and there is none. */
  lemma {:induction false} DismissedThroughRestarts(c: Cell, vault: Vault, events: seq<Event>, id: string)
    requires c.hasPath && Settled(c)
    ensures var end, l := After(c, vault, events), Behind(c, vault, events);
            var start := BoolAt(c.memory.dismissed, id);
            && end.hasPath
            && BoolAt(end.memory.dismissed, id) == Marked(start, l.memory, id)
            && BoolAt(Loaded(end.disk).dismissed, id) == Marked(start, l.file, id)
  {
    hide Advance, Behind1, Loaded, Marked;
    if events == [] {
      NothingBehind(BoolAt(c.memory.dismissed, id), id);
    } else {
      var n := |events| - 1;
      DismissedThroughRestarts(c, vault, events[..n], id);
      StepBehind(After(c, vault, events[..n]), vault, events[n], Behind(c, vault, events[..n]),
                 BoolAt(c.memory.dismissed, id), id);
    }
  }

  lemma NothingBehind(start: bool, id: string)
    ensures Marked(start, [], id) == start
  {
  }

  /** So a report hides an active alert, on every run, exactly when it is marked by the
      operations behind what memory holds. */
  lemma HiddenThroughRestarts(c: Cell, vault: Vault, events: seq<Event>, alerts: seq<Reports.Alert>, a: Reports.Alert,
      w: WriteOutcome)
    requires c.hasPath && Settled(c) && a in alerts && !IsBlank(a.id)
    ensures var reported := After(c, vault, events + [TryCommit(ReconcileAlerts(ActiveIds(alerts)), None, w)]);
            a !in Visible(alerts, reported.memory.dismissed) <==>
              Marked(BoolAt(c.memory.dismissed, a.id), Behind(c, vault, events).memory, a.id)
  {
    hide Visible, Advance, IsBlank, Behind, Marked, Loaded;
    var e := TryCommit(ReconcileAlerts(ActiveIds(alerts)), None, w);
    var all := events + [e];
    assert all[..|all| - 1] == events;
    assert a.id in ActiveIds(alerts);
    DismissedThroughRestarts(c, vault, events, a.id);
    StepDismissal(After(c, vault, events), vault, e, a.id);
  }
}
