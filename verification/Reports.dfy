/** Alerts for an account and the report over all accounts. */
module Reports {
  import opened Options
  import opened Text
  import opened Snapshots
  import opened ThresholdRules
  import opened Sequences
  import P = Preferences

  /** What an alert's id is made of, with its level. Texts for people are not modelled. */
  datatype Alert = ReportAlert(
    id: string, level: Status, accountId: string, metricId: string, windowId: string, alertType: string, code: string)

  /** The digest behind alert ids. */
  type Digest = (string, string, string, string, string) -> string

  function StableId(a: Alert, digest: Digest): string {
    digest(a.accountId, a.metricId, a.windowId, a.alertType, a.code)
  }

  /* ---------- sorted names ---------- */

  predicate Ascending(names: seq<string>) { forall i, j | 0 <= i < j < |names| :: Less(names[i], names[j]) }

  /** `names` lists `all` in ascending order. */
  ghost predicate Lists(names: seq<string>, all: set<string>) {
    Ascending(names) && forall n :: n in names <==> n in all
  }

  /** There is only one such list. */
  lemma {:induction false} ListIsUnique(xs: seq<string>, ys: seq<string>)
    requires Ascending(xs) && Ascending(ys) && forall n :: n in xs <==> n in ys
    ensures xs == ys
  {
    assert xs != [] ==> xs[0] in ys;
    assert ys != [] ==> ys[0] in xs;
    if xs == [] {
    } else {
      LessIsTotal(xs[0], ys[0]);
      var i :| 0 <= i < |ys| && ys[i] == xs[0];
      var j :| 0 <= j < |xs| && xs[j] == ys[0];
      assert xs[0] == ys[0];
      forall n ensures n in xs[1..] <==> n in ys[1..] {
        LessIsTotal(n, n);
        assert n in xs[1..] ==> n in xs && n != xs[0];
        assert n in ys[1..] ==> n in ys && n != ys[0];
      }
      ListIsUnique(xs[1..], ys[1..]);
    }
  }

  method Insert(names: seq<string>, name: string) returns (r: seq<string>)
    requires Ascending(names) && name !in names
    ensures Ascending(r) && forall n :: n in r <==> n in names || n == name
  {
    var i := 0;
    while i < |names| && Less(names[i], name)
      invariant 0 <= i <= |names|
      invariant forall k | 0 <= k < i :: Less(names[k], name)
    {
      i := i + 1;
    }
    r := names[..i] + [name] + names[i..];
    if i < |names| {
      LessIsTotal(names[i], name);
      forall k | i < k < |names| ensures Less(name, names[k]) {
        LessTransitive(name, names[i], names[k]);
      }
    }
    assert names == names[..i] + names[i..];
  }

  /** The names of the failed sections in ascending order. */
  ghost function FailedSections(sections: map<string, Section>): (names: seq<string>)
    ensures Lists(names, set n | n in sections && sections[n].status == "error")
  {
    var all := set n | n in sections && sections[n].status == "error";
    ListExists(all);
    var names :| Lists(names, all);
    names
  }

  lemma FailedSectionsExactly(sections: map<string, Section>)
    ensures forall n :: n in FailedSections(sections) <==> n in sections && sections[n].status == "error"
  {
  }

  lemma {:induction false} ListExists(all: set<string>)
    ensures exists names :: Lists(names, all)
    decreases all
  {
    if all == {} {
      assert Lists([], all);
    } else {
      var least := Least(all);
      ListExists(all - {least});
      var rest :| Lists(rest, all - {least});
      forall i | 0 <= i < |rest| ensures Less(least, rest[i]) {
        assert rest[i] in rest;
      }
      assert Lists([least] + rest, all);
    }
  }

  lemma {:induction false} Least(all: set<string>) returns (least: string)
    requires all != {}
    ensures least in all && forall n | n in all && n != least :: Less(least, n)
    decreases all
  {
    var some :| some in all;
    if all == {some} {
      least := some;
    } else {
      var other := Least(all - {some});
      LessIsTotal(some, other);
      if Less(some, other) {
        forall n | n in all && n != some ensures Less(some, n) {
          if n != other {
            LessTransitive(some, other, n);
          }
        }
        least := some;
      } else {
        least := other;
      }
    }
  }

  method SortFailedSections(sections: map<string, Section>) returns (names: seq<string>)
    ensures names == FailedSections(sections)
  {
    hide Ascending;
    var left := sections.Keys;
    names := [];
    assert Ascending([]) by { NothingAscends(); }
    while left != {}
      invariant left <= sections.Keys
      invariant Ascending(names)
      invariant forall n :: n in names <==> n in sections.Keys - left && sections[n].status == "error"
      decreases |left|
    {
      var name :| name in left;
      left := left - {name};
      if sections[name].status == "error" {
        names := Insert(names, name);
      }
    }
    ListIsUnique(names, FailedSections(sections));
  }

  lemma NothingAscends()
    ensures Ascending([])
  {
  }

  /* ---------- alerts ---------- */

  function SectionAlert(s: Snapshot, name: string): Alert
    requires name in s.sections
  {
    ReportAlert("", Warning, s.accountId, name, "", "section", s.sections[name].errorCode)
  }

  /** The level and code a window calls for; Ok when none. Unlike for the status, a share
      above the whole is not capped. */
  function WindowLevel(w: Window, t: P.Thresholds): (Status, string) {
    if w.remaining.None? then (Ok, "")
    else if w.remaining.value * 100.0 <= t.criticalPercent then (Critical, "QUOTA_BELOW_CRITICAL")
    else if w.remaining.value * 100.0 <= t.warningPercent then (Warning, "QUOTA_BELOW_WARNING")
    else (Ok, "")
  }

  function WindowAlert(id: string, w: Window, t: P.Thresholds): Alert {
    var (level, code) := WindowLevel(w, t);
    ReportAlert("", level, id, "", FirstNonEmpty([w.name, "unknown"]), "quota_low", code)
  }

  function WindowAlerts(id: string, windows: seq<Window>, t: P.Thresholds): (r: seq<Alert>)
    ensures forall a | a in r :: exists w | w in windows :: a == WindowAlert(id, w, t) && a.level != Ok
    ensures r == [] <==> forall w | w in windows :: WindowLevel(w, t).0 == Ok
  {
    if windows == [] then []
    else
      var last := windows[|windows| - 1];
      var before := WindowAlerts(id, windows[..|windows| - 1], t);
      assert forall w | w in windows :: w == last || w in windows[..|windows| - 1];
      if WindowLevel(last, t).0 == Ok then before else before + [WindowAlert(id, last, t)]
  }

  function StaleAlerts(s: Snapshot): seq<Alert> {
    if s.stale then [ReportAlert("", Warning, s.accountId, "", "", "stale", "STALE")] else []
  }

  function AvailabilityAlerts(s: Snapshot): seq<Alert> {
    if s.error.Some? && s.error.value.code != "" then
      [ReportAlert("", if s.status == Disabled then Critical
          else s.status, s.accountId, "", "", "availability", s.error.value.code)]
    else []
  }

  function SectionAlerts(s: Snapshot, names: seq<string>): (r: seq<Alert>)
    requires forall n | n in names :: n in s.sections
    ensures |r| == |names|
  {
    seq(|names|, i requires 0 <= i < |names| => SectionAlert(s, names[i]))
  }

  /** The alerts about low balances and quotas. */
  function LevelAlerts(s: Snapshot, t: P.Thresholds, num: Reader, anyFailedSection: bool): seq<Alert> {
    if s.kind == Unsupported || s.status !in {Warning, Critical} then []
    else if s.kind == BalanceKind then
      var level := CashLevel(s.balances, s.accountId, t, num);
      if level == Ok then []
      else [ReportAlert("", level, s.accountId, "", "", "balance_low", "BALANCE_BELOW_THRESHOLD")]
    else
      var windowAlerts := WindowAlerts(s.accountId, s.windows, t);
      if windowAlerts == [] && !anyFailedSection
      then [ReportAlert("", s.status, s.accountId, "", "", "quota_low", "QUOTA_BELOW_THRESHOLD")]
      else windowAlerts
  }

  function Identified(alerts: seq<Alert>, digest: Digest): (r: seq<Alert>)
    ensures |r| == |alerts|
  {
    seq(|alerts|, i requires 0 <= i < |alerts| => alerts[i].(id := StableId(alerts[i], digest)))
  }

  ghost function Alerts(s: Snapshot, t: P.Thresholds, num: Reader, digest: Digest): seq<Alert> {
    var names := FailedSections(s.sections);
    Identified(StaleAlerts(s) + AvailabilityAlerts(s) + SectionAlerts(s, names) + LevelAlerts(s, t, num, names != []),
        digest)
  }

  method AlertsForAccount(s: Snapshot, t: P.Thresholds, num: Reader, digest: Digest) returns (alerts: seq<Alert>)
    ensures alerts == Alerts(s, t, num, digest)
  {
    hide LevelAlerts, FailedSections, Identified, SectionAlerts;
    alerts := [];
    if s.stale { alerts := alerts + [ReportAlert("", Warning, s.accountId, "", "", "stale", "STALE")]; }
    if s.error.Some? && s.error.value.code != "" {
      var level := s.status;
      if level == Disabled { level := Critical; }
      alerts := alerts + [ReportAlert("", level, s.accountId, "", "", "availability", s.error.value.code)];
    }
    assert alerts == StaleAlerts(s) + AvailabilityAlerts(s);
    var names, sections := FailedSectionAlerts(s);
    alerts := alerts + sections;
    var levels := LowAlerts(s, t, num, names != []);
    alerts := alerts + levels;
    alerts := IdentifyAll(alerts, digest);
  }

  method FailedSectionAlerts(s: Snapshot) returns (names: seq<string>, alerts: seq<Alert>)
    ensures names == FailedSections(s.sections) && alerts == SectionAlerts(s, names)
  {
    hide FailedSections;
    names := SortFailedSections(s.sections);
    alerts := [];
    FailedSectionsExactly(s.sections);
    for i := 0 to |names|
      invariant alerts == SectionAlerts(s, names[..i])
    {
      assert names[..i + 1] == names[..i] + [names[i]];
      alerts := alerts + [SectionAlert(s, names[i])];
    }
    assert names[..|names|] == names;
  }

  method LowAlerts(s: Snapshot, t: P.Thresholds, num: Reader, anyFailedSection: bool) returns (alerts: seq<Alert>)
    ensures alerts == LevelAlerts(s, t, num, anyFailedSection)
  {
    hide CashLevel, FirstNonEmpty;
    alerts := [];
    if s.kind == Unsupported { return; }
    if s.status == Critical || s.status == Warning {
      if s.kind == BalanceKind {
        var level := CashThresholdStatus(s, t, num);
        if level != Ok {
          alerts := [ReportAlert("", level, s.accountId, "", "", "balance_low", "BALANCE_BELOW_THRESHOLD")];
        }
      } else {
        for i := 0 to |s.windows|
          invariant alerts == WindowAlerts(s.accountId, s.windows[..i], t)
        {
          assert s.windows[..i + 1][..i] == s.windows[..i];
          var w := s.windows[i];
          if w.remaining.None? { continue; }
          var (level, code) := WindowLevel(w, t);
          if level == Ok { continue; }
          alerts := alerts + [WindowAlert(s.accountId, w, t)];
        }
        assert s.windows[..|s.windows|] == s.windows;
        if |alerts| == 0 && !anyFailedSection {
          alerts := [ReportAlert("", s.status, s.accountId, "", "", "quota_low", "QUOTA_BELOW_THRESHOLD")];
        }
      }
    }
  }

  method IdentifyAll(alerts: seq<Alert>, digest: Digest) returns (r: seq<Alert>)
    ensures r == Identified(alerts, digest)
  {
    r := alerts;
    for i := 0 to |r|
      invariant |r| == |alerts|
      invariant forall k | 0 <= k < |r| :: r[k] == if k < i then alerts[k].(id := StableId(alerts[k], digest))
                else alerts[k]
    {
      r := r[i := r[i].(id := StableId(r[i], digest))];
    }
  }

  /** A digest that tells all inputs apart. */
  ghost predicate Injective(digest: Digest) {
    forall a, b, c, d, e, a', b', c', d', e' :: digest(a, b, c, d, e) == digest(a', b', c', d', e') ==>
      a == a' && b == b' && c == c' && d == d' && e == e'
  }

  /** Two alerts of any accounts have the same id exactly when they agree in everything but their
      level: dismissing one never hides another. */
  lemma IdsTellAlertsApart(s: Snapshot, s': Snapshot, t: P.Thresholds, num: Reader, digest: Digest, i: nat, j: nat)
    requires Injective(digest) && i < |Alerts(s, t, num, digest)| && j < |Alerts(s', t, num, digest)|
    ensures var a, b := Alerts(s, t, num, digest)[i], Alerts(s', t, num, digest)[j];
            a.id == b.id <==> a.(id := "", level := Ok) == b.(id := "", level := Ok)
  {
    hide LevelAlerts, FailedSections, StaleAlerts, AvailabilityAlerts, SectionAlerts;
  }

  lemma IdentifiedMembers(raw: seq<Alert>, digest: Digest)
    ensures forall a :: a in Identified(raw, digest) <==> exists r | r in raw :: a == r.(id := StableId(r, digest))
  {
    hide StableId;
    var r := Identified(raw, digest);
    forall a ensures a in r <==> exists x | x in raw :: a == x.(id := StableId(x, digest)) {
      if a in r {
        var i :| 0 <= i < |r| && r[i] == a;
        assert raw[i] in raw;
      }
      if x :| x in raw && a == x.(id := StableId(x, digest)) {
        var i :| 0 <= i < |raw| && raw[i] == x;
        assert r[i] == a;
      }
    }
  }

  /** The alerts of an account before they get ids. */
  ghost predicate Raised(s: Snapshot, t: P.Thresholds, num: Reader, a: Alert) {
    || a in StaleAlerts(s) || a in AvailabilityAlerts(s) || a in SectionAlerts(s, FailedSections(s.sections))
    || a in LevelAlerts(s, t, num, FailedSections(s.sections) != [])
  }

  lemma AlertMembers(s: Snapshot, t: P.Thresholds, num: Reader, digest: Digest)
    ensures forall a :: a in Alerts(s, t, num, digest) <==>
                          exists r | Raised(s, t, num, r) :: a == r.(id := StableId(r, digest))
  {
    hide StableId, StaleAlerts, AvailabilityAlerts, SectionAlerts, LevelAlerts, FailedSections, Identified;
    var names := FailedSections(s.sections);
    var raw := StaleAlerts(s) + AvailabilityAlerts(s) + SectionAlerts(s, names) + LevelAlerts(s, t, num, names != []);
    assert forall r :: r in raw <==> Raised(s, t, num, r);
    IdentifiedMembers(raw, digest);
  }

  /** The account has an alert like r, which has no id yet. */
  ghost predicate HasAlert(s: Snapshot, t: P.Thresholds, num: Reader, digest: Digest, r: Alert) {
    exists a | a in Alerts(s, t, num, digest) :: a.(id := "") == r
  }

  lemma HasAlertExactly(s: Snapshot, t: P.Thresholds, num: Reader, digest: Digest, r: Alert)
    ensures HasAlert(s, t, num, digest, r) <==> r.id == "" && Raised(s, t, num, r)
  {
    hide StableId, Raised, Alerts;
    AlertMembers(s, t, num, digest);
    RaisedHaveNoId(s, t, num);
    if r.id == "" && Raised(s, t, num, r) {
      var a := r.(id := StableId(r, digest));
      assert a in Alerts(s, t, num, digest) && a.(id := "") == r;
    }
  }

  lemma RaisedHaveNoId(s: Snapshot, t: P.Thresholds, num: Reader)
    ensures forall a | Raised(s, t, num, a) :: a.id == ""
  {
    hide CashLevel, FirstNonEmpty, WindowLevel;
    LevelAlertsSay(s, t, num, FailedSections(s.sections) != []);
  }

  lemma LevelAlertsSay(s: Snapshot, t: P.Thresholds, num: Reader, anyFailedSection: bool)
    ensures forall a | a in LevelAlerts(s, t, num, anyFailedSection) ::
              a.id == "" && a.accountId == s.accountId && a.metricId == ""
                  && a.alertType in {"balance_low", "quota_low"}
  {
    hide CashLevel, FirstNonEmpty, WindowLevel;
  }

  /** Which alerts an account has, besides those for low balances and quotas: that it is stale;
      its coded error at its status, where disabled counts as critical; and each failed section
      with its code. */
  lemma AlertsExactly(s: Snapshot, t: P.Thresholds, num: Reader, digest: Digest, r: Alert)
    requires r.alertType !in {"balance_low", "quota_low"}
    ensures HasAlert(s, t, num, digest, r) <==>
              || (s.stale && r == ReportAlert("", Warning, s.accountId, "", "", "stale", "STALE"))
              || (s.error.Some? && s.error.value.code != ""
                  && r == ReportAlert("", if s.status == Disabled then Critical else s.status, s.accountId, "", "",
                                      "availability", s.error.value.code))
              || (r.metricId in s.sections && s.sections[r.metricId].status == "error"
                  && r == ReportAlert("", Warning, s.accountId, r.metricId, "", "section",
                                      s.sections[r.metricId].errorCode))
  {
    hide HasAlert, LevelAlerts, FailedSections;
    HasAlertExactly(s, t, num, digest, r);
    LevelAlertsSay(s, t, num, FailedSections(s.sections) != []);
    FailedSectionsExactly(s.sections);
    var names := FailedSections(s.sections);
    if r.metricId in names {
      var i :| 0 <= i < |names| && names[i] == r.metricId;
      assert SectionAlerts(s, names)[i] == SectionAlert(s, r.metricId);
    }
  }

  /** A window whose remaining percentage is at most a threshold calls for alert r, at the level of
      that threshold. */
  ghost predicate CallsFor(w: Window, id: string, t: P.Thresholds, r: Alert) {
    w.remaining.Some? &&
    var percent, name := w.remaining.value * 100.0, FirstNonEmpty([w.name, "unknown"]);
    || (percent <= t.criticalPercent
        && r == ReportAlert("", Critical, id, "", name, "quota_low", "QUOTA_BELOW_CRITICAL"))
    || (t.criticalPercent < percent <= t.warningPercent
        && r == ReportAlert("", Warning, id, "", name, "quota_low", "QUOTA_BELOW_WARNING"))
  }

  /** A window above both thresholds, or without a share. */
  ghost predicate Quiet(w: Window, t: P.Thresholds) {
    w.remaining.Some? ==>
      w.remaining.value * 100.0 > t.criticalPercent && w.remaining.value * 100.0 > t.warningPercent
  }

  /** Which alerts for low quotas an account has: at warning or critical, those its windows call
      for; and when they call for none and no section failed, one for the whole account at its
      status. */
  lemma QuotaAlertsExactly(s: Snapshot, t: P.Thresholds, num: Reader, digest: Digest, r: Alert)
    requires s.kind !in {BalanceKind, Unsupported} && r.alertType == "quota_low"
    ensures HasAlert(s, t, num, digest, r) <==>
              s.status in {Warning, Critical} &&
              (|| (exists w | w in s.windows :: CallsFor(w, s.accountId, t, r))
               || ((forall w | w in s.windows :: Quiet(w, t))
                   && (forall n | n in s.sections :: s.sections[n].status != "error")
                   && r == ReportAlert("", s.status, s.accountId, "", "", "quota_low", "QUOTA_BELOW_THRESHOLD")))
  {
    hide HasAlert, FailedSections, CashLevel, CallsFor, Quiet;
    HasAlertExactly(s, t, num, digest, r);
    WindowAlertsExactly(s.accountId, s.windows, t, r);
    NoOtherLevelTypes(s, r);
    AnyFailedSection(s.sections);
    hide WindowAlerts, StaleAlerts, AvailabilityAlerts, SectionAlerts;
  }

  lemma AnyFailedSection(sections: map<string, Section>)
    ensures FailedSections(sections) == [] <==> forall n | n in sections :: sections[n].status != "error"
  {
    FailedSectionsExactly(sections);
    var names := FailedSections(sections);
    if names != [] { assert names[0] in names; }
  }

  lemma WindowCallsExactly(id: string, w: Window, t: P.Thresholds, r: Alert)
    ensures CallsFor(w, id, t, r) <==> WindowLevel(w, t).0 != Ok && r == WindowAlert(id, w, t)
    ensures Quiet(w, t) <==> WindowLevel(w, t).0 == Ok
  {
    hide FirstNonEmpty;
  }

  lemma {:induction false} WindowAlertsExactly(id: string, windows: seq<Window>, t: P.Thresholds, r: Alert)
    ensures r in WindowAlerts(id, windows, t) <==> exists w | w in windows :: CallsFor(w, id, t, r)
    ensures WindowAlerts(id, windows, t) == [] <==> forall w | w in windows :: Quiet(w, t)
  {
    hide WindowLevel, WindowAlert, CallsFor, Quiet;
    if windows == [] {
    } else {
      var before, last := windows[..|windows| - 1], windows[|windows| - 1];
      WindowAlertsExactly(id, before, t, r);
      WindowCallsExactly(id, last, t, r);
      assert forall w | w in windows :: w == last || w in before;
      assert last in windows && forall w | w in before :: w in windows;
    }
  }

  /** A balance account at warning or critical has exactly one alert for low balances, at the worst
      level of its balances, when one of them is negative or at most a limit of its rule. */
  lemma BalanceAlertsExactly(s: Snapshot, t: P.Thresholds, num: Reader, digest: Digest, r: Alert)
    requires s.kind == BalanceKind && r.alertType in {"balance_low", "quota_low"}
    ensures HasAlert(s, t, num, digest, r) <==>
              s.status in {Warning, Critical}
              && exists level | level in {Warning, Critical} ::
                   && r == ReportAlert("", level, s.accountId, "", "", "balance_low", "BALANCE_BELOW_THRESHOLD")
                   && var critical := exists b | b in s.balances ::
                            Negative(b, num) || BalanceReaches(b, s.accountId, t, num, true);
                      if level == Critical then critical
                      else !critical && exists b | b in s.balances :: BalanceReaches(b, s.accountId, t, num, false)
  {
    hide HasAlert, FailedSections, CashLevel, Negative, BalanceReaches, WindowAlerts;
    HasAlertExactly(s, t, num, digest, r);
    CashLevelExactly(s, t, num);
    CashLevelRange(s, t, num);
    NoOtherLevelTypes(s, r);
  }

  lemma NoOtherLevelTypes(s: Snapshot, r: Alert)
    requires r.alertType in {"balance_low", "quota_low"}
    ensures r !in StaleAlerts(s) && r !in AvailabilityAlerts(s) && r !in SectionAlerts(s, FailedSections(s.sections))
  {
    hide FailedSections;
  }

  /** A window calls for no more than the status threshold evaluation gave the account. */
  lemma WindowLevelIsCovered(s: Snapshot, w: Window, t: P.Thresholds, num: Reader)
    requires w in s.windows
    ensures Rank(WindowLevel(w, t).0) <= Rank(QuotaLevel(s, t, num))
  {
    hide Overage, Share;
    if w.remaining.Some? {
      assert w.remaining.value * 100.0 <= t.criticalPercent ==> ShareLow(w.remaining, t.criticalPercent);
      assert w.remaining.value * 100.0 <= t.warningPercent ==> ShareLow(w.remaining, t.warningPercent);
    }
  }

  lemma LevelAlertsWithin(s: Snapshot, t: P.Thresholds, num: Reader, anyFailedSection: bool)
    requires s.kind != BalanceKind
    ensures var r := Apply(s, t, num);
            forall a | a in LevelAlerts(r, t, num, anyFailedSection) :: Rank(a.level) <= Rank(r.status)
  {
    hide CashLevel, QuotaLevel, Infer, WindowLevel, FirstNonEmpty;
    var r := Apply(s, t, num);
    CashLevelRange(s, t, num);
    if s.kind != Unsupported && r.status in {Warning, Critical} {
      forall w | w in s.windows ensures Rank(WindowLevel(w, t).0) <= Rank(r.status) {
        WindowLevelIsCovered(s, w, t, num);
      }
    }
  }

  /** After evaluation, with the same thresholds: no quota alert is above the account's
      status, and a warning or critical account of any kind but balance has an alert. */
  lemma AlertsAgreeWithStatus(s: Snapshot, t: P.Thresholds, num: Reader, digest: Digest)
    requires s.kind !in {BalanceKind, Unsupported}
    ensures var r := Apply(s, t, num); var alerts := Alerts(r, t, num, digest);
            && (forall a | a in alerts && a.alertType == "quota_low" :: Rank(a.level) <= Rank(r.status))
            && (r.status in {Warning, Critical} ==> alerts != [])
  {
    hide Apply, LevelAlerts, FailedSections;
    var r := Apply(s, t, num);
    KindIsKept(s, t, num);
    var names := FailedSections(r.sections);
    LevelAlertsWithin(s, t, num, names != []);
    if r.status in {Warning, Critical} && names == [] {
      SomeLevelAlert(r, t, num);
    }
  }

  lemma KindIsKept(s: Snapshot, t: P.Thresholds, num: Reader)
    ensures Apply(s, t, num).kind == s.kind
  {
  }

  lemma SomeLevelAlert(s: Snapshot, t: P.Thresholds, num: Reader)
    requires s.kind !in {BalanceKind, Unsupported} && s.status in {Warning, Critical}
    ensures LevelAlerts(s, t, num, false) != []
  {
  }

  /** A balance account at warning or critical has an alert exactly when it is stale, has a
      coded error, a failed section, or a balance below its cash threshold. */
  lemma BalanceAlertExactly(s: Snapshot, t: P.Thresholds, num: Reader, digest: Digest)
    requires s.kind == BalanceKind && s.status in {Warning, Critical}
    ensures Alerts(s, t, num, digest) != [] <==>
              || s.stale || (s.error.Some? && s.error.value.code != "")
              || (exists n | n in s.sections :: s.sections[n].status == "error")
              || CashLevel(s.balances, s.accountId, t, num) != Ok
  {
    hide CashLevel, FailedSections;
    var names := FailedSections(s.sections);
    FailedSectionsExactly(s.sections);
    assert names != [] <==> exists n :: n in names by {
      assert names != [] ==> names[0] in names;
    }
  }

  /** So a used-up total balance without a cash rule is critical and raises no alert. */
  lemma SilentCriticalBalance(t: P.Thresholds, num: Reader, digest: Digest)
    requires num("0") == Some(0.0) && t.cashByAccount == map[] && t.cashByCurrency == map[]
    ensures var s := AccountSnapshot("a", "a", "x", BalanceKind, Ok, [MoneyBalance("0", "USD", "total")], [], [], 1, 1,
            Some(1), 0,
                                     false, None, map[], UNSET);
            var r := Apply(s, t, num);
            r.status == Critical && Alerts(r, t, num, digest) == []
  {
    var b := MoneyBalance("0", "USD", "total");
    var s := AccountSnapshot("a", "a", "x", BalanceKind, Ok, [b], [], [], 1, 1, Some(1), 0, false, None, map[], UNSET);
    assert b in s.balances && Overdrawn(b, num);
    assert BalanceLevel(b, "a", t, num) == Ok;
    BalanceAlertExactly(Apply(s, t, num), t, num, digest);
  }

  /* ---------- the report ---------- */

  datatype Summary = ReportSummary(
    total: nat, ok: nat, warning: nat, critical: nat, error: nat, unknown: nat, stale: nat,
    balances: nat, periodQuotas: nat, quotas: nat)

  datatype Report = Report(status: Status, summary: Summary, alerts: seq<Alert>)

  /** An account's contribution to the report status. */
  function Severity(s: Snapshot): Status {
    var effective := if s.status == Disabled then Critical else s.status;
    if s.stale then Max(effective, Warning) else effective
  }

  /** The worst severity, at least Ok. */
  function Worst(accounts: seq<Snapshot>): (r: Status)
    ensures Rank(r) >= 1 && forall s | s in accounts :: Rank(Severity(s)) <= Rank(r)
    ensures r == Ok || exists s | s in accounts :: Severity(s) == r
  {
    if accounts == [] then Ok else
      assert forall s | s in accounts :: s == accounts[|accounts| - 1] || s in accounts[..|accounts| - 1];
      Max(Worst(accounts[..|accounts| - 1]), Severity(accounts[|accounts| - 1]))
  }

  function Summarize(accounts: seq<Snapshot>): Summary {
    ReportSummary(
      |accounts|,
      CountIf((s: Snapshot) => s.status == Ok, accounts),
      CountIf((s: Snapshot) => s.status == Warning, accounts),
      CountIf((s: Snapshot) => s.status == Critical, accounts),
      CountIf((s: Snapshot) => s.status == Error, accounts),
      CountIf((s: Snapshot) => s.status == Unknown, accounts),
      CountIf((s: Snapshot) => s.stale, accounts),
      CountIf((s: Snapshot) => s.kind == BalanceKind, accounts),
      CountIf((s: Snapshot) => s.kind == PeriodQuota, accounts),
      CountIf((s: Snapshot) => s.kind == Quota, accounts))
  }

  ghost function AllAlerts(accounts: seq<Snapshot>, t: P.Thresholds, num: Reader, digest: Digest): seq<Alert> {
    if accounts == [] then []
    else AllAlerts(accounts[..|accounts| - 1], t, num, digest) + Alerts(accounts[|accounts| - 1], t, num, digest)
  }

  ghost function ReportOf(accounts: seq<Snapshot>, t: P.Thresholds, num: Reader, digest: Digest): Report {
    Report(Worst(accounts), Summarize(accounts), AllAlerts(accounts, t, num, digest))
  }

  method CountAccount(summary: Summary, s: Snapshot) returns (r: Summary)
    ensures r == ReportSummary(
      summary.total + 1,
      summary.ok + if s.status == Ok then 1 else 0,
      summary.warning + if s.status == Warning then 1 else 0,
      summary.critical + if s.status == Critical then 1 else 0,
      summary.error + if s.status == Error then 1 else 0,
      summary.unknown + if s.status == Unknown then 1 else 0,
      summary.stale + if s.stale then 1 else 0,
      summary.balances + if s.kind == BalanceKind then 1 else 0,
      summary.periodQuotas + if s.kind == PeriodQuota then 1 else 0,
      summary.quotas + if s.kind == Quota then 1 else 0)
  {
    r := summary.(total := summary.total + 1);
    if s.stale { r := r.(stale := r.stale + 1); }
    match s.status {
      case Ok => r := r.(ok := r.ok + 1);
      case Warning => r := r.(warning := r.warning + 1);
      case Critical => r := r.(critical := r.critical + 1);
      case Error => r := r.(error := r.error + 1);
      case Unknown => r := r.(unknown := r.unknown + 1);
      case _ =>
    }
    match s.kind {
      case BalanceKind => r := r.(balances := r.balances + 1);
      case PeriodQuota => r := r.(periodQuotas := r.periodQuotas + 1);
      case Quota => r := r.(quotas := r.quotas + 1);
      case _ =>
    }
  }

  method BuildReport(accounts: seq<Snapshot>, t: P.Thresholds, num: Reader, digest: Digest) returns (out: Report)
    ensures out == ReportOf(accounts, t, num, digest)
  {
    hide Alerts, Severity;
    out := Report(Ok, ReportSummary(0, 0, 0, 0, 0, 0, 0, 0, 0, 0), []);
    for i := 0 to |accounts|
      invariant out == ReportOf(accounts[..i], t, num, digest)
    {
      assert accounts[..i + 1][..i] == accounts[..i];
      var s := accounts[i];
      var summary := CountAccount(out.summary, s);
      SummarizeStep(accounts[..i + 1]);
      var alerts := AlertsForAccount(s, t, num, digest);
      out := Report(Max(out.status, Severity(s)), summary, out.alerts + alerts);
    }
    assert accounts[..|accounts|] == accounts;
  }

  lemma SummarizeStep(accounts: seq<Snapshot>)
    requires accounts != []
    ensures var s := accounts[|accounts| - 1]; var before := Summarize(accounts[..|accounts| - 1]);
            Summarize(accounts) == ReportSummary(
              before.total + 1,
              before.ok + if s.status == Ok then 1 else 0,
              before.warning + if s.status == Warning then 1 else 0,
              before.critical + if s.status == Critical then 1 else 0,
              before.error + if s.status == Error then 1 else 0,
              before.unknown + if s.status == Unknown then 1 else 0,
              before.stale + if s.stale then 1 else 0,
              before.balances + if s.kind == BalanceKind then 1 else 0,
              before.periodQuotas + if s.kind == PeriodQuota then 1 else 0,
              before.quotas + if s.kind == Quota then 1 else 0)
  {
  }

  /** What one account adds to the report, which with ReportOfConcat says what the report is: its
      status, where disabled counts as critical and stale as at least a warning, and one in each
      count that it belongs to. */
  lemma OneAccountReport(s: Snapshot)
    ensures var status := Worst([s]);
            && (status == Error <==> s.status == Error)
            && (status == Critical <==> s.status in {Critical, Disabled})
            && (status == Warning <==>
               s.status == Warning || (s.stale && (s.status in {Ok, Unknown} || s.status.Other?)))
            && (status == Unknown <==> s.status == Unknown && !s.stale)
            && (status == Ok <==> (s.status == Ok || s.status.Other?) && !s.stale)
    ensures Summarize([s]) == ReportSummary(
              1, if s.status == Ok then 1 else 0, if s.status == Warning then 1 else 0,
              if s.status == Critical then 1 else 0, if s.status == Error then 1 else 0,
              if s.status == Unknown then 1 else 0, if s.stale then 1 else 0, if s.kind == BalanceKind then 1 else 0,
              if s.kind == PeriodQuota then 1 else 0, if s.kind == Quota then 1 else 0)
  {
    assert [s][..0] == [];
    assert Worst([s]) == Max(Worst([]), Severity(s));
    SummarizeStep([s]);
    NothingSummarized();
  }

  lemma NothingSummarized()
    ensures Summarize([]) == ReportSummary(0, 0, 0, 0, 0, 0, 0, 0, 0, 0)
  {
  }

  /** The worse of two report statuses, which is how reports join, in the order error, critical,
      warning, unknown, disabled, ok. */
  lemma WorseExactly(i: nat, j: nat)
    requires i < 6 && j < 6
    ensures var worst := [Error, Critical, Warning, Unknown, Disabled, Ok];
            Max(worst[i], worst[j]) == worst[if i < j then i else j]
  {
  }

  /** The total is the five counts plus the accounts that are disabled or in no known status. */
  lemma {:induction false} TotalIsCounted(accounts: seq<Snapshot>)
    ensures var m := Summarize(accounts);
            m.total == m.ok + m.warning + m.critical + m.error + m.unknown
                       + CountIf((s: Snapshot) => s.status == Disabled || s.status.Other?, accounts)
  {
    if accounts == [] {
    } else {
      TotalIsCounted(accounts[..|accounts| - 1]);
      SummarizeStep(accounts);
    }
  }

  /** Only the severities present matter to the report status. */
  lemma WorstOfMembers(xs: seq<Snapshot>, ys: seq<Snapshot>)
    requires forall s :: s in xs <==> s in ys
    ensures Worst(xs) == Worst(ys)
  {
    hide Severity;
  }

  function Sum(a: Summary, b: Summary): Summary {
    ReportSummary(a.total + b.total, a.ok + b.ok, a.warning + b.warning, a.critical + b.critical, a.error + b.error,
                  a.unknown + b.unknown, a.stale + b.stale, a.balances + b.balances,
                  a.periodQuotas + b.periodQuotas, a.quotas + b.quotas)
  }

  /** The report status and summary do not depend on the order of the accounts. */
  lemma ReportIgnoresOrder(xs: seq<Snapshot>, ys: seq<Snapshot>)
    requires multiset(xs) == multiset(ys)
    ensures Worst(xs) == Worst(ys) && Summarize(xs) == Summarize(ys)
  {
    SameMembers(xs, ys);
    WorstOfMembers(xs, ys);
    assert |xs| == |multiset(xs)| && |ys| == |multiset(ys)|;
    CountOfPermutation((s: Snapshot) => s.status == Ok, xs, ys);
    CountOfPermutation((s: Snapshot) => s.status == Warning, xs, ys);
    CountOfPermutation((s: Snapshot) => s.status == Critical, xs, ys);
    CountOfPermutation((s: Snapshot) => s.status == Error, xs, ys);
    CountOfPermutation((s: Snapshot) => s.status == Unknown, xs, ys);
    CountOfPermutation((s: Snapshot) => s.stale, xs, ys);
    CountOfPermutation((s: Snapshot) => s.kind == BalanceKind, xs, ys);
    CountOfPermutation((s: Snapshot) => s.kind == PeriodQuota, xs, ys);
    CountOfPermutation((s: Snapshot) => s.kind == Quota, xs, ys);
  }

  lemma {:induction false} WorstOfConcat(xs: seq<Snapshot>, ys: seq<Snapshot>)
    ensures Worst(xs + ys) == Max(Worst(xs), Worst(ys))
  {
    hide Severity;
    if ys == [] {
      assert xs + ys == xs;
    } else {
      assert (xs + ys)[..|xs + ys| - 1] == xs + ys[..|ys| - 1];
      WorstOfConcat(xs, ys[..|ys| - 1]);
    }
  }

  lemma {:induction false} AlertsOfConcat(xs: seq<Snapshot>, ys: seq<Snapshot>, t: P.Thresholds, num: Reader,
      digest: Digest)
    ensures AllAlerts(xs + ys, t, num, digest) == AllAlerts(xs, t, num, digest) + AllAlerts(ys, t, num, digest)
  {
    hide Alerts;
    if ys == [] {
      assert xs + ys == xs;
    } else {
      assert (xs + ys)[..|xs + ys| - 1] == xs + ys[..|ys| - 1];
      AlertsOfConcat(xs, ys[..|ys| - 1], t, num, digest);
    }
  }

  /** Reporting on two lists together joins their statuses, adds their summaries and
      concatenates their alerts. */
  lemma ReportOfConcat(xs: seq<Snapshot>, ys: seq<Snapshot>, t: P.Thresholds, num: Reader, digest: Digest)
    ensures var both := ReportOf(xs + ys, t, num, digest);
            var a, b := ReportOf(xs, t, num, digest), ReportOf(ys, t, num, digest);
            both == Report(Max(a.status, b.status), Sum(a.summary, b.summary), a.alerts + b.alerts)
  {
    hide AllAlerts, Worst, CountIf;
    WorstOfConcat(xs, ys);
    AlertsOfConcat(xs, ys, t, num, digest);
    CountOfConcat((s: Snapshot) => s.status == Ok, xs, ys);
    CountOfConcat((s: Snapshot) => s.status == Warning, xs, ys);
    CountOfConcat((s: Snapshot) => s.status == Critical, xs, ys);
    CountOfConcat((s: Snapshot) => s.status == Error, xs, ys);
    CountOfConcat((s: Snapshot) => s.status == Unknown, xs, ys);
    CountOfConcat((s: Snapshot) => s.stale, xs, ys);
    CountOfConcat((s: Snapshot) => s.kind == BalanceKind, xs, ys);
    CountOfConcat((s: Snapshot) => s.kind == PeriodQuota, xs, ys);
    CountOfConcat((s: Snapshot) => s.kind == Quota, xs, ys);
  }

  /** The report is all right exactly when every account is: not stale, and ok or unrecognised. */
  lemma ReportOkExactly(accounts: seq<Snapshot>)
    ensures Worst(accounts) == Ok <==> forall s | s in accounts :: !s.stale && (s.status == Ok || s.status.Other?)
  {
    assert forall s | s in accounts :: Rank(Severity(s)) <= 1 <==> !s.stale && (s.status == Ok || s.status.Other?);
  }
}
