/** Validation of the configured cash thresholds, which are stored as printed decimals. */
module CashThresholds {
  import opened Options
  import opened Text
  import opened Preferences
  import opened Decimal
  import Batches

  /** A numeric reader that understands what the monitor itself prints. */
  ghost predicate ReadsPrinted(read: string -> Option<real>) {
    forall x: real :: read(Format(x)) == Some(Amount(Millionths(x)))
  }

  /** A decimal parser is such a reader. */
  lemma ParserReadsPrinted()
    ensures ReadsPrinted((text: string) => match Parse(text) case None => None case Some(n) => Some(Amount(n)))
  {
    hide Parse, Format, Canonical;
    forall x: real {
      FormatRoundTrips(x);
    }
  }

  function NormalKey(raw: string, upper: bool): string { if upper then ToUpper(Trim(raw)) else Trim(raw) }

  /** None for an unreadable or negative amount and for a critical amount above the warning. */
  function NormalRule(rule: CashRule, read: string -> Option<real>): Option<CashRule> {
    match (read(rule.warning), read(rule.critical))
    case (Some(warning), Some(critical)) =>
      if warning < 0.0 || critical < 0.0 || critical > warning then None
      else Some(CashRule(Format(warning), Format(critical)))
    case _ => None
  }

  /** The rules of a configured map, whose entries are visited in the order of `entries`. */
  function NormalRules(entries: seq<(string, CashRule)>, upper: bool, read: string -> Option<real>)
    : Option<map<string, CashRule>>
  {
    if entries == [] then Some(map[])
    else
      var (raw, rule) := entries[|entries| - 1];
      match NormalRules(entries[..|entries| - 1], upper, read)
      case None => None
      case Some(out) =>
        var key := NormalKey(raw, upper);
        match NormalRule(rule, read)
        case None => None
        case Some(normal) => if key == "" then None else Some(out[key := normal])
  }

  method NormalizeCashThresholds(entries: seq<(string, CashRule)>, upper: bool, read: string -> Option<real>)
    returns (out: Option<map<string, CashRule>>)
    ensures out == NormalRules(entries, upper, read)
  {
    hide Format, NormalKey;
    var rules: map<string, CashRule> := map[];
    for i := 0 to |entries|
      invariant NormalRules(entries[..i], upper, read) == Some(rules)
    {
      assert entries[..i + 1][..i] == entries[..i];
      var (raw, rule) := entries[i];
      var key := NormalKey(raw, upper);
      var warning, critical := read(rule.warning), read(rule.critical);
      if key == "" || warning.None? || warning.value < 0.0 || critical.None? || critical.value < 0.0
         || critical.value > warning.value {
        RejectedForGood(entries, i + 1, upper, read);
        return None;
      }
      rules := rules[key := CashRule(Format(warning.value), Format(critical.value))];
    }
    assert entries[..|entries|] == entries;
    out := Some(rules);
  }

  lemma {:induction false} RejectedForGood(entries: seq<(string, CashRule)>, n: nat, upper: bool,
      read: string -> Option<real>)
    requires n <= |entries| && NormalRules(entries[..n], upper, read) == None
    ensures NormalRules(entries, upper, read) == None
    decreases |entries|
  {
    if n == |entries| {
      assert entries[..n] == entries;
    } else {
      var before := entries[..|entries| - 1];
      assert before[..n] == entries[..n];
      RejectedForGood(before, n, upper, read);
    }
  }

  /** A rule that holds printed, non-negative amounts in order. */
  ghost predicate StoredRule(rule: CashRule) {
    exists w: nat, c: nat | c <= w :: rule == CashRule(Format(Amount(w)), Format(Amount(c)))
  }

  lemma NormalRuleIsStored(rule: CashRule, read: string -> Option<real>)
    ensures NormalRule(rule, read).Some? ==> StoredRule(NormalRule(rule, read).value)
  {
    if NormalRule(rule, read).Some? {
      var w, c := read(rule.warning).value, read(rule.critical).value;
      RoundingIsMonotone(c, w);
      SignKept(c);
      PrintsAsRounded(w);
      PrintsAsRounded(c);
      var mw: nat, mc: nat := Millionths(w), Millionths(c);
      assert NormalRule(rule, read).value == CashRule(Format(Amount(mw)), Format(Amount(mc)));
    }
  }

  /** Printing a non-negative amount prints its rounded value. */
  lemma PrintsAsRounded(x: real)
    requires x >= 0.0
    ensures Millionths(x) >= 0 && Format(Amount(Millionths(x))) == Format(x)
  {
    hide Shortened, Fixed;
    SignKept(x);
    MillionthsExact(Millionths(x));
  }

  lemma StoredRuleIsKept(rule: CashRule, read: string -> Option<real>)
    requires ReadsPrinted(read) && StoredRule(rule)
    ensures NormalRule(rule, read) == Some(rule)
  {
    hide Format;
    var w: nat, c: nat :| c <= w && rule == CashRule(Format(Amount(w)), Format(Amount(c)));
    MillionthsExact(w);
    MillionthsExact(c);
    assert read(Format(Amount(w))) == Some(Amount(w));
    assert read(Format(Amount(c))) == Some(Amount(c));
  }

  lemma NormalKeyIsKept(raw: string, upper: bool)
    ensures NormalKey(NormalKey(raw, upper), upper) == NormalKey(raw, upper)
  {
    var t := Trim(raw);
    TrimIdempotent(raw);
    if upper && t != "" {
      var u := ToUpper(t);
      assert u[0] == UpperChar(t[0]) && u[|u| - 1] == UpperChar(t[|t| - 1]);
      TrimUnchanged(u);
      assert ToUpper(u) == u;
    }
  }

  ghost predicate StoredRules(rules: map<string, CashRule>, upper: bool) {
    forall k | k in rules :: k != "" && NormalKey(k, upper) == k && StoredRule(rules[k])
  }

  lemma {:induction false} NormalRulesAreStored(entries: seq<(string, CashRule)>, upper: bool,
      read: string -> Option<real>)
    requires NormalRules(entries, upper, read).Some?
    ensures StoredRules(NormalRules(entries, upper, read).value, upper)
  {
    hide NormalKey, NormalRule, StoredRule;
    if entries == [] {
    } else {
      var (raw, rule) := entries[|entries| - 1];
      NormalRulesAreStored(entries[..|entries| - 1], upper, read);
      NormalKeyIsKept(raw, upper);
      NormalRuleIsStored(rule, read);
    }
  }

  /** `entries` visits every entry of `m` once, in some order. */
  ghost predicate Visits<V(!new)>(entries: seq<(string, V)>, m: map<string, V>) {
    && (forall e | e in entries :: e.0 in m && m[e.0] == e.1)
    && (forall k | k in m :: (k, m[k]) in entries)
    && (forall i, j | 0 <= i < j < |entries| :: entries[i].0 != entries[j].0)
  }

  lemma {:induction false} StoredRulesAreKept(entries: seq<(string, CashRule)>, rules: map<string, CashRule>,
      upper: bool, read: string -> Option<real>)
    requires ReadsPrinted(read) && StoredRules(rules, upper) && Visits(entries, rules)
    ensures NormalRules(entries, upper, read) == Some(rules)
  {
    hide NormalKey, NormalRule, StoredRule, ReadsPrinted;
    if entries == [] {
      assert forall k | k in rules :: (k, rules[k]) in entries;
      assert rules == map[];
    } else {
      var before := entries[..|entries| - 1];
      var (k, rule) := entries[|entries| - 1];
      assert (k, rule) in entries;
      StoredRuleIsKept(rule, read);
      var rest := rules - {k};
      forall j | j in rest ensures (j, rest[j]) in before {
        assert (j, rules[j]) in entries;
      }
      StoredRulesAreKept(before, rest, upper, read);
      assert rest[k := rule] == rules;
    }
  }

  /** Normalising is idempotent: whatever order the stored map is visited in the second
      time, it comes back unchanged. */
  lemma NormalizationIsIdempotent(
      entries: seq<(string, CashRule)>, again: seq<(string, CashRule)>, upper: bool, read: string -> Option<real>)
    requires ReadsPrinted(read)
    requires NormalRules(entries, upper, read).Some? && Visits(again, NormalRules(entries, upper, read).value)
    ensures NormalRules(again, upper, read) == NormalRules(entries, upper, read)
  {
    NormalRulesAreStored(entries, upper, read);
    StoredRulesAreKept(again, NormalRules(entries, upper, read).value, upper, read);
  }

  /** Rounding to six decimals never lifts a stored critical amount above its warning. */
  lemma StoredCriticalIsBelowWarning(entries: seq<(string, CashRule)>, upper: bool, read: string -> Option<real>,
      k: string)
    requires ReadsPrinted(read)
    requires NormalRules(entries, upper, read).Some? && k in NormalRules(entries, upper, read).value
    ensures var rule := NormalRules(entries, upper, read).value[k];
            && read(rule.warning).Some? && read(rule.critical).Some?
            && 0.0 <= read(rule.critical).value <= read(rule.warning).value
  {
    NormalRulesAreStored(entries, upper, read);
    StoredRuleIsKept(NormalRules(entries, upper, read).value[k], read);
  }

  /** A configured map is accepted exactly when every key is non-blank and every rule holds
      two readable non-negative amounts in order. */
  lemma {:induction false} AcceptedExactly(entries: seq<(string, CashRule)>, upper: bool, read: string -> Option<real>)
    ensures NormalRules(entries, upper, read).Some? <==>
              forall e | e in entries ::
                && !IsBlank(e.0)
                && read(e.1.warning).Some? && read(e.1.critical).Some?
                && 0.0 <= read(e.1.critical).value <= read(e.1.warning).value
  {
    if entries == [] {
    } else {
      hide NormalKey;
      var before, last := entries[..|entries| - 1], entries[|entries| - 1];
      AcceptedExactly(before, upper, read);
      BlankKey(last.0, upper);
      assert forall e | e in entries :: e == last || e in before;
    }
  }

  lemma BlankKey(raw: string, upper: bool)
    ensures NormalKey(raw, upper) == "" <==> IsBlank(raw)
  {
    assert |ToUpper(Trim(raw))| == |Trim(raw)|;
  }

  /* ---------- telling thresholds apart ---------- */

  /** Against rules that were stored by normalising, the comparison of rules is exact: a request
      looks equal only when it is. */
  lemma NormalizedRulesAreToldApart(
      entries: seq<(string, CashRule)>, upper: bool, read: string -> Option<real>, wanted: map<string, CashRule>)
    requires NormalRules(entries, upper, read).Some?
    ensures var stored := NormalRules(entries, upper, read).value;
            RulesLookEqual(stored, wanted) <==> stored == wanted
  {
    hide NormalRules;
    NormalRulesAreStored(entries, upper, read);
    StoredRulesAreToldApart(NormalRules(entries, upper, read).value, upper, wanted);
  }

  lemma StoredRulesAreToldApart(stored: map<string, CashRule>, upper: bool, wanted: map<string, CashRule>)
    requires StoredRules(stored, upper)
    ensures RulesLookEqual(stored, wanted) <==> stored == wanted
  {
    hide RulesLookEqual, NormalKey, Format;
    forall k | k in stored ensures stored[k] != ZERO_RULE {
      var w: nat, c: nat :| c <= w && stored[k] == CashRule(Format(Amount(w)), Format(Amount(c)));
      PrintedIsNotEmpty(Amount(w));
    }
    Batches.RuleComparisonExact(stored);
  }

  /** So after a threshold commit the stored thresholds are those of the request, and it reports no
      change exactly when they were before. */
  lemma StoredThresholdsAreToldApart(d: Prefs, wanted: Thresholds)
    requires d.thresholds.Some? ==>
               && StoredRules(d.thresholds.value.cashByCurrency, true)
               && StoredRules(d.thresholds.value.cashByAccount, false)
    ensures SetThresholdsTo(d, Some(wanted)).0 == d.(thresholds := Some(wanted))
    ensures !SetThresholdsTo(d, Some(wanted)).1 <==> d.thresholds == Some(wanted)
  {
    hide RulesLookEqual, StoredRules;
    if d.thresholds.Some? {
      StoredRulesAreToldApart(d.thresholds.value.cashByCurrency, true, wanted.cashByCurrency);
      StoredRulesAreToldApart(d.thresholds.value.cashByAccount, false, wanted.cashByAccount);
    }
  }
}
