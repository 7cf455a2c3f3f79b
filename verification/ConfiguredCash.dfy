/** From the configured cash thresholds to the status of an account: what a configuration means for
    the balances it is about. */
module ConfiguredCash {
  import opened Options
  import opened Text
  import opened Snapshots
  import opened ThresholdRules
  import opened Decimal
  import opened CashThresholds
  import P = Preferences

  /** The last entry of a key decides what is stored for it. */
  lemma {:induction false} LastEntryIsStored(entries: seq<(string, P.CashRule)>, i: nat, upper: bool,
      read: string -> Option<real>)
    requires NormalRules(entries, upper, read).Some? && i < |entries|
    requires forall j | i < j < |entries| :: NormalKey(entries[j].0, upper) != NormalKey(entries[i].0, upper)
    ensures var out, key, rule := NormalRules(entries, upper, read).value, NormalKey(entries[i].0, upper), entries[i].1;
            && key in out && read(rule.warning).Some? && read(rule.critical).Some?
            && out[key] == P.CashRule(Format(read(rule.warning).value), Format(read(rule.critical).value))
            && 0.0 <= read(rule.critical).value <= read(rule.warning).value
  {
    hide NormalKey, Format;
    var n := |entries| - 1;
    if i == n {
    } else {
      LastEntryIsStored(entries[..n], i, upper, read);
    }
  }

  /** Nothing is stored that is not configured. */
  lemma {:induction false} OnlyEntriesAreStored(entries: seq<(string, P.CashRule)>, upper: bool,
      read: string -> Option<real>, key: string)
    requires NormalRules(entries, upper, read).Some?
    ensures key in NormalRules(entries, upper, read).value <==>
              exists i :: 0 <= i < |entries| && NormalKey(entries[i].0, upper) == key
  {
    hide NormalKey, NormalRule;
    if entries == [] {
    } else {
      var n := |entries| - 1;
      OnlyEntriesAreStored(entries[..n], upper, read, key);
      assert forall i | 0 <= i < n :: entries[..n][i] == entries[i];
    }
  }

  /** The account has one balance and nothing else that could give it a status. */
  predicate OnlyBalance(s: Snapshot, b: Balance) {
    s.kind != Unsupported && s.base == Ok && s.balances == [b] && s.windows == [] && s.quantities == []
  }

  /** A balance a is judged by limits w and c. */
  predicate Judged(status: Status, a: real, w: real, c: real) {
    && (status == Critical <==> a < 0.0 || a <= c)
    && (status == Warning <==> a >= 0.0 && c < a <= w)
    && (status == Ok <==> a >= 0.0 && a > w)
  }

  lemma PrintedLimits(rule: P.CashRule, w: real, c: real, num: Reader)
    requires ReadsPrinted(num) && rule == P.CashRule(Format(w), Format(c)) && c <= w
    ensures num(rule.warning) == Some(Amount(Millionths(w))) && num(rule.critical) == Some(Amount(Millionths(c)))
    ensures Amount(Millionths(c)) <= Amount(Millionths(w))
  {
    hide Format;
    RoundingIsMonotone(c, w);
    assert num(Format(w)) == Some(Amount(Millionths(w))) && num(Format(c)) == Some(Amount(Millionths(c)));
  }

  /** A rule configured for a currency, in whatever spelling, judges every balance in that currency,
      in whatever spelling, of accounts without a rule of their own: by its amounts as printed. */
  lemma CurrencyRuleJudges(entries: seq<(string, P.CashRule)>, i: nat, read: string -> Option<real>, s: Snapshot,
      b: Balance, a: real, t: P.Thresholds, num: Reader)
    requires NormalRules(entries, true, read) == Some(t.cashByCurrency) && i < |entries|
    requires forall j | i < j < |entries| :: ToUpper(Trim(entries[j].0)) != ToUpper(Trim(entries[i].0))
    requires ToUpper(Trim(b.currency)) == ToUpper(Trim(entries[i].0)) && Trim(s.accountId) !in t.cashByAccount
    requires ReadsPrinted(num) && OnlyBalance(s, b) && num(b.amount) == Some(a)
    ensures var w, c := read(entries[i].1.warning), read(entries[i].1.critical);
            && w.Some? && c.Some?
            && Judged(Apply(s, t, num).status, a, Amount(Millionths(w.value)), Amount(Millionths(c.value)))
  {
    hide Trim, ToUpper, Format, Apply, NormalRules, Millionths, ReadsPrinted;
    assert forall j | 0 <= j < |entries| :: NormalKey(entries[j].0, true) == ToUpper(Trim(entries[j].0));
    LastEntryIsStored(entries, i, true, read);
    var key := NormalKey(entries[i].0, true);
    var rule := t.cashByCurrency[key];
    var w, c := read(entries[i].1.warning).value, read(entries[i].1.critical).value;
    PrintedLimits(rule, w, c, num);
    assert HasRule(s.accountId, b.currency, t, rule);
    OneBalance(s, t, num, b, rule, a, Amount(Millionths(w)), Amount(Millionths(c)));
  }

  /** A rule configured for an account judges its balances in every currency. */
  lemma AccountRuleJudges(entries: seq<(string, P.CashRule)>, i: nat, read: string -> Option<real>, s: Snapshot,
      b: Balance, a: real, t: P.Thresholds, num: Reader)
    requires NormalRules(entries, false, read) == Some(t.cashByAccount) && i < |entries|
    requires forall j | i < j < |entries| :: Trim(entries[j].0) != Trim(entries[i].0)
    requires Trim(s.accountId) == Trim(entries[i].0)
    requires ReadsPrinted(num) && OnlyBalance(s, b) && num(b.amount) == Some(a)
    ensures var w, c := read(entries[i].1.warning), read(entries[i].1.critical);
            && w.Some? && c.Some?
            && Judged(Apply(s, t, num).status, a, Amount(Millionths(w.value)), Amount(Millionths(c.value)))
  {
    hide Trim, ToUpper, Format, Apply, NormalRules, Millionths, ReadsPrinted;
    assert forall j | 0 <= j < |entries| :: NormalKey(entries[j].0, false) == Trim(entries[j].0);
    LastEntryIsStored(entries, i, false, read);
    var rule := t.cashByAccount[Trim(s.accountId)];
    var w, c := read(entries[i].1.warning).value, read(entries[i].1.critical).value;
    PrintedLimits(rule, w, c, num);
    assert HasRule(s.accountId, b.currency, t, rule);
    OneBalance(s, t, num, b, rule, a, Amount(Millionths(w)), Amount(Millionths(c)));
  }
}
