/** How thresholds turn a snapshot's numbers into a status. */
module ThresholdRules {
  import opened Options
  import opened Text
  import opened Snapshots
  import opened Sequences
  import P = Preferences

  /* ---------- the status the data has by itself ---------- */

  predicate Overdrawn(b: Balance, num: Reader) {
    b.balanceType == "total" && num(b.amount).Some? && num(b.amount).value <= 0.0
  }

  predicate HasExcess(w: Window, num: Reader) { num(w.excessAmount).Some? && num(w.excessAmount).value > 0.0 }

  predicate Exceeded(q: Quantity, num: Reader) {
    && num(q.total).Some? && num(q.used).Some?
    && num(q.total).value > 0.0 && num(q.used).value > num(q.total).value
  }

  predicate Exhausted(s: Snapshot, num: Reader) {
    || (exists b | b in s.balances :: Overdrawn(b, num))
    || (exists w | w in s.windows :: HasExcess(w, num))
    || (exists q | q in s.quantities :: Exceeded(q, num))
  }

  predicate Impaired(s: Snapshot) {
    s.error.Some? || exists name | name in s.sections :: s.sections[name].status == "error"
  }

  function Infer(s: Snapshot, num: Reader): Status {
    if Settled(s.status) then s.status
    else if Exhausted(s, num) then Critical
    else if Impaired(s) then Warning
    else Ok
  }

  method InferBaseStatus(s: Snapshot, num: Reader) returns (status: Status)
    ensures status == Infer(s, num)
  {
    if Settled(s.status) { return s.status; }
    status := Ok;
    if s.error.Some? { status := Max(status, Warning); }
    var names := s.sections.Keys;
    while names != {}
      invariant names <= s.sections.Keys
      invariant status == if s.error.Some? || exists n | n in s.sections.Keys - names :: s.sections[n].status == "error"
                          then Warning else Ok
      decreases |names|
    {
      var name :| name in names;
      names := names - {name};
      if s.sections[name].status == "error" { status := Max(status, Warning); }
    }
    for i := 0 to |s.balances|
      invariant forall b | b in s.balances[..i] :: !Overdrawn(b, num)
    {
      var b := s.balances[i];
      if b.balanceType != "total" { continue; }
      var amount := num(b.amount);
      if amount.Some? && amount.value <= 0.0 {
        assert Overdrawn(b, num);
        return Critical;
      }
    }
    for i := 0 to |s.windows|
      invariant forall w | w in s.windows[..i] :: !HasExcess(w, num)
    {
      var excess := num(s.windows[i].excessAmount);
      if excess.Some? && excess.value > 0.0 {
        assert HasExcess(s.windows[i], num);
        return Critical;
      }
    }
    for i := 0 to |s.quantities|
      invariant forall q | q in s.quantities[..i] :: !Exceeded(q, num)
    {
      var total, used := num(s.quantities[i].total), num(s.quantities[i].used);
      if total.Some? && used.Some? && total.value > 0.0 && used.value > total.value {
        assert Exceeded(s.quantities[i], num);
        return Critical;
      }
    }
  }

  /* ---------- cash thresholds ---------- */

  /** The rule for a balance: the account's own, else the currency's. */
  function EffectiveRule(accountId: string, currency: string, t: P.Thresholds): Option<P.CashRule> {
    var id, unit := Trim(accountId), ToUpper(Trim(currency));
    if id in t.cashByAccount then Some(t.cashByAccount[id])
    else if unit in t.cashByCurrency then Some(t.cashByCurrency[unit])
    else None
  }

  /** The level one balance calls for. */
  function BalanceLevel(b: Balance, accountId: string, t: P.Thresholds, num: Reader): (r: Status)
    ensures r in {Ok, Warning, Critical}
  {
    match num(b.amount)
    case None => Ok
    case Some(amount) =>
      if amount < 0.0 then Critical
      else
        match EffectiveRule(accountId, b.currency, t)
        case None => Ok
        case Some(rule) =>
          var warning, critical := num(rule.warning), num(rule.critical);
          if warning.None? || critical.None? then Ok
          else if amount <= critical.value then Critical
          else if amount <= warning.value then Warning
          else Ok
  }

  /** The worst level any balance calls for. */
  function CashLevel(balances: seq<Balance>, accountId: string, t: P.Thresholds, num: Reader): Status {
    if exists b | b in balances :: BalanceLevel(b, accountId, t, num) == Critical then Critical
    else if exists b | b in balances :: BalanceLevel(b, accountId, t, num) == Warning then Warning
    else Ok
  }

  method CashThresholdStatus(s: Snapshot, t: P.Thresholds, num: Reader) returns (status: Status)
    ensures status == CashLevel(s.balances, s.accountId, t, num)
  {
    hide Trim, ToUpper;
    status := Ok;
    for i := 0 to |s.balances|
      invariant status == CashLevel(s.balances[..i], s.accountId, t, num)
    {
      CashLevelStep(s.balances, i, s.accountId, t, num);
      var balance := s.balances[i];
      var amount := num(balance.amount);
      if amount.None? { continue; }
      if amount.value < 0.0 {
        status := Critical;
        continue;
      }
      var id, unit := Trim(s.accountId), ToUpper(Trim(balance.currency));
      var rule;
      if id in t.cashByAccount { rule := t.cashByAccount[id]; }
      else if unit in t.cashByCurrency { rule := t.cashByCurrency[unit]; }
      else { continue; }
      var warning, critical := num(rule.warning), num(rule.critical);
      if warning.None? || critical.None? { continue; }
      if amount.value <= critical.value {
        status := Critical;
      } else if amount.value <= warning.value && status != Critical {
        status := Warning;
      }
    }
    assert s.balances[..|s.balances|] == s.balances;
  }

  lemma CashLevelStep(balances: seq<Balance>, i: nat, accountId: string, t: P.Thresholds, num: Reader)
    requires i < |balances|
    ensures CashLevel(balances[..i + 1], accountId, t, num)
         == Max(CashLevel(balances[..i], accountId, t, num), BalanceLevel(balances[i], accountId, t, num))
  {
    hide BalanceLevel;
    var before, after := balances[..i], balances[..i + 1];
    assert after == before + [balances[i]];
    assert balances[i] in after && forall b | b in before :: b in after;
    assert forall b | b in after :: b in before || b == balances[i];
  }

  /* ---------- quota thresholds ---------- */

  /** The remaining share a quantity reports; None when it does not take part. */
  function Share(q: Quantity, num: Reader): Option<real> {
    if q.unlimited || num(q.remaining).None? || num(q.total).None? || num(q.total).value <= 0.0 then None
    else Some(num(q.remaining).value / num(q.total).value)
  }

  /** A remaining share is never taken to be above the whole. */
  predicate ShareLow(share: Option<real>, percent: real) {
    share.Some? && (if share.value < 1.0 then share.value else 1.0) * 100.0 <= percent
  }

  predicate LowAt(s: Snapshot, percent: real, num: Reader) {
    || (exists w | w in s.windows :: ShareLow(w.remaining, percent))
    || (exists q | q in s.quantities :: ShareLow(Share(q, num), percent))
  }

  predicate Overage(s: Snapshot, num: Reader) {
    || (exists w | w in s.windows :: HasExcess(w, num))
    || (exists q | q in s.quantities :: Share(q, num).Some? && Exceeded(q, num))
  }

  /** The level the quotas call for. */
  function QuotaLevel(s: Snapshot, t: P.Thresholds, num: Reader): Status {
    if Overage(s, num) || LowAt(s, t.criticalPercent, num) then Critical
    else if LowAt(s, t.warningPercent, num) then Warning
    else Ok
  }

  /** A level of Ok leaves even an unknown status as it is. */
  function Raise(status: Status, level: Status): Status { if level == Ok then status else Max(status, level) }

  function Evaluate(s: Snapshot, base: Status, t: P.Thresholds, num: Reader): Status {
    if Settled(base) then base
    else Raise(Raise(base, CashLevel(s.balances, s.accountId, t, num)), QuotaLevel(s, t, num))
  }

  function Apply(s: Snapshot, t: P.Thresholds, num: Reader): Snapshot {
    if s.kind == Unsupported then s
    else
      var base := if s.base == UNSET then Infer(s, num) else s.base;
      s.(base := base, status := Evaluate(s, base, t, num))
  }

  /** `found` and `minimum` describe shares exactly: some share is low at a percentage iff
      one was found and the minimum is. */
  ghost predicate Describes(found: bool, minimum: real, windows: seq<Window>, quantities: seq<Quantity>, num: Reader) {
    && (found <==>
          (exists w | w in windows :: w.remaining.Some?) || (exists q | q in quantities :: Share(q, num).Some?))
    && minimum <= 1.0 && (!found ==> minimum == 1.0)
    && (forall w | w in windows && w.remaining.Some? :: minimum <= w.remaining.value)
    && (forall q | q in quantities && Share(q, num).Some? :: minimum <= Share(q, num).value)
    && (minimum == 1.0
        || (exists w | w in windows :: w.remaining == Some(minimum))
        || (exists q | q in quantities :: Share(q, num) == Some(minimum)))
  }

  lemma DescribedIsLow(found: bool, minimum: real, s: Snapshot, percent: real, num: Reader)
    requires Describes(found, minimum, s.windows, s.quantities, num)
    ensures LowAt(s, percent, num) <==> found && minimum * 100.0 <= percent
  {
    hide Share;
    if found && minimum * 100.0 <= percent {
      if w :| w in s.windows && w.remaining == Some(minimum) {
        assert ShareLow(w.remaining, percent);
      } else if q :| q in s.quantities && Share(q, num) == Some(minimum) {
        assert ShareLow(Share(q, num), percent);
      } else if w :| w in s.windows && w.remaining.Some? {
        assert ShareLow(w.remaining, percent);
      } else {
        var q :| q in s.quantities && Share(q, num).Some?;
        assert ShareLow(Share(q, num), percent);
      }
    }
  }

  function MinReal(left: real, right: real): real { if right < left then right else left }

  lemma WindowDescribed(found: bool, minimum: real, windows: seq<Window>, w: Window, num: Reader)
    requires Describes(found, minimum, windows, [], num)
    ensures if w.remaining.Some? then Describes(true, MinReal(minimum, w.remaining.value), windows + [w], [], num)
            else Describes(found, minimum, windows + [w], [], num)
  {
    assert forall v | v in windows + [w] :: v in windows || v == w;
    assert w in windows + [w] && forall v | v in windows :: v in windows + [w];
  }

  lemma QuantityDescribed(found: bool, minimum: real, windows: seq<Window>, quantities: seq<Quantity>, q: Quantity,
      num: Reader)
    requires Describes(found, minimum, windows, quantities, num)
    ensures if Share(q, num).Some?
            then Describes(true, MinReal(minimum, Share(q, num).value), windows, quantities + [q], num)
            else Describes(found, minimum, windows, quantities + [q], num)
  {
    hide Share;
    assert forall v | v in quantities + [q] :: v in quantities || v == q;
    assert q in quantities + [q] && forall v | v in quantities :: v in quantities + [q];
  }

  method ScanWindows(windows: seq<Window>, num: Reader) returns (overage: bool, found: bool, minimum: real)
    ensures overage <==> exists w | w in windows :: HasExcess(w, num)
    ensures Describes(found, minimum, windows, [], num)
  {
    hide Describes;
    minimum, found, overage := 1.0, false, false;
    NothingDescribed(num);
    for i := 0 to |windows|
      invariant Describes(found, minimum, windows[..i], [], num)
      invariant overage <==> exists w | w in windows[..i] :: HasExcess(w, num)
    {
      var w := windows[i];
      assert windows[..i + 1] == windows[..i] + [w];
      WindowDescribed(found, minimum, windows[..i], w, num);
      var excess := num(w.excessAmount);
      if excess.Some? && excess.value > 0.0 {
        assert HasExcess(w, num) && w in windows[..i + 1];
        overage := true;
      }
      if w.remaining.Some? {
        minimum, found := MinReal(minimum, w.remaining.value), true;
      }
    }
    assert windows[..|windows|] == windows;
  }

  lemma NothingDescribed(num: Reader)
    ensures Describes(false, 1.0, [], [], num)
  {
  }

  /** One pass over the windows and quantities. */
  method ScanQuotas(s: Snapshot, num: Reader) returns (overage: bool, found: bool, minimum: real)
    ensures overage == Overage(s, num)
    ensures Describes(found, minimum, s.windows, s.quantities, num)
  {
    hide Describes;
    overage, found, minimum := ScanWindows(s.windows, num);
    ghost var windowOverage := overage;
    for i := 0 to |s.quantities|
      invariant Describes(found, minimum, s.windows, s.quantities[..i], num)
      invariant overage <==>
                windowOverage || exists q | q in s.quantities[..i] :: Share(q, num).Some? && Exceeded(q, num)
    {
      var q := s.quantities[i];
      assert s.quantities[..i + 1] == s.quantities[..i] + [q];
      QuantityDescribed(found, minimum, s.windows, s.quantities[..i], q, num);
      if q.unlimited { continue; }
      var remaining, total := num(q.remaining), num(q.total);
      if remaining.Some? && total.Some? && total.value > 0.0 {
        var used := num(q.used);
        if used.Some? && used.value > total.value { overage := true; }
        minimum, found := MinReal(minimum, remaining.value / total.value), true;
      }
    }
    assert s.quantities[..|s.quantities|] == s.quantities;
  }

  method ApplyThresholds(s: Snapshot, t: P.Thresholds, num: Reader) returns (r: Snapshot)
    ensures r == Apply(s, t, num)
  {
    hide Infer, CashLevel, Overage, LowAt, Describes;
    if s.kind == Unsupported { return s; }
    r := s;
    if s.base == UNSET {
      var inferred := InferBaseStatus(s, num);
      r := r.(base := inferred);
    }
    var status := r.base;
    if Settled(status) { return r.(status := status); }
    var cash := CashThresholdStatus(s, t, num);
    if cash != Ok { status := Max(status, cash); }
    var overage, found, minimum := ScanQuotas(s, num);
    DescribedIsLow(found, minimum, s, t.criticalPercent, num);
    DescribedIsLow(found, minimum, s, t.warningPercent, num);
    if overage { return r.(status := Max(status, Critical)); }
    if !found { return r.(status := status); }
    if minimum * 100.0 <= t.criticalPercent {
      status := Max(status, Critical);
    } else if minimum * 100.0 <= t.warningPercent {
      status := Max(status, Warning);
    }
    r := r.(status := status);
  }

  /* ---------- what the status means ---------- */

  /** The rule for a balance: the account's own, or else the currency's. */
  ghost predicate HasRule(accountId: string, currency: string, t: P.Thresholds, rule: P.CashRule) {
    var id, unit := Trim(accountId), ToUpper(Trim(currency));
    || (id in t.cashByAccount && rule == t.cashByAccount[id])
    || (id !in t.cashByAccount && unit in t.cashByCurrency && rule == t.cashByCurrency[unit])
  }

  /** A balance is at most the limit that its rule sets for this level, when rule and amount can
      be read. */
  ghost predicate BalanceReaches(b: Balance, accountId: string, t: P.Thresholds, num: Reader, critical: bool) {
    exists rule, amount, w, c |
      && HasRule(accountId, b.currency, t, rule)
      && num(b.amount) == Some(amount) && num(rule.warning) == Some(w) && num(rule.critical) == Some(c) ::
      amount <= (if critical then c else w)
  }

  ghost predicate Negative(b: Balance, num: Reader) { num(b.amount).Some? && num(b.amount).value < 0.0 }

  /** A window or quantity is used beyond its total. */
  ghost predicate OverTotal(s: Snapshot, num: Reader) {
    || (exists w, x | w in s.windows && num(w.excessAmount) == Some(x) :: x > 0.0)
    || (exists q, u, r, n | q in s.quantities && !q.unlimited && num(q.used) == Some(u) && num(q.remaining) == Some(r)
                            && num(q.total) == Some(n) :: u > n > 0.0)
  }

  /** What remains of a window or quantity is at most the percentage of the whole. */
  ghost predicate Remains(s: Snapshot, num: Reader, percent: real) {
    || (exists w, x | w in s.windows && w.remaining == Some(x) :: x * 100.0 <= percent || 100.0 <= percent)
    || (exists q, r, n | q in s.quantities && !q.unlimited && num(q.remaining) == Some(r) && num(q.total) == Some(n)
                         && n > 0.0 :: r / n * 100.0 <= percent || 100.0 <= percent)
  }

  lemma BalanceLevelExactly(b: Balance, accountId: string, t: P.Thresholds, num: Reader)
    ensures var level := BalanceLevel(b, accountId, t, num);
            && (level == Critical <==> Negative(b, num) || BalanceReaches(b, accountId, t, num, true))
            && (level == Warning <==> level != Critical && BalanceReaches(b, accountId, t, num, false))
  {
    hide HasRule;
    var rule := EffectiveRule(accountId, b.currency, t);
    RuleExactly(accountId, b.currency, t);
    hide EffectiveRule;
    if num(b.amount).Some? && rule.Some? && num(rule.value.warning).Some? && num(rule.value.critical).Some? {
      var amount, w, c := num(b.amount).value, num(rule.value.warning).value, num(rule.value.critical).value;
      assert HasRule(accountId, b.currency, t, rule.value) && num(b.amount) == Some(amount)
             && num(rule.value.warning) == Some(w) && num(rule.value.critical) == Some(c);
    }
  }

  lemma RuleExactly(accountId: string, currency: string, t: P.Thresholds)
    ensures forall rule :: HasRule(accountId, currency, t, rule) <==>
            EffectiveRule(accountId, currency, t) == Some(rule)
  {
    hide Trim, ToUpper;
  }

  lemma CashLevelExactly(s: Snapshot, t: P.Thresholds, num: Reader)
    ensures var level := CashLevel(s.balances, s.accountId, t, num);
            && (level == Critical <==>
                  exists b | b in s.balances :: Negative(b, num) || BalanceReaches(b, s.accountId, t, num, true))
            && (level == Warning <==>
                  level != Critical && exists b | b in s.balances :: BalanceReaches(b, s.accountId, t, num, false))
  {
    hide BalanceLevel, Negative, BalanceReaches;
    forall b
      ensures BalanceLevel(b, s.accountId, t, num) == Critical <==>
                Negative(b, num) || BalanceReaches(b, s.accountId, t, num, true)
      ensures BalanceLevel(b, s.accountId, t, num) == Warning <==>
                BalanceLevel(b, s.accountId, t, num) != Critical && BalanceReaches(b, s.accountId, t, num, false)
    {
      BalanceLevelExactly(b, s.accountId, t, num);
    }
  }

  lemma OverTotalExactly(s: Snapshot, num: Reader)
    ensures Overage(s, num) <==> OverTotal(s, num)
  {
    if w :| w in s.windows && HasExcess(w, num) {
      assert num(w.excessAmount) == Some(num(w.excessAmount).value);
    }
    if q :| q in s.quantities && Share(q, num).Some? && Exceeded(q, num) {
      var u, r, n := num(q.used).value, num(q.remaining).value, num(q.total).value;
      assert num(q.used) == Some(u) && num(q.remaining) == Some(r) && num(q.total) == Some(n) && u > n > 0.0;
    }
  }

  lemma RemainsExactly(s: Snapshot, num: Reader, percent: real)
    ensures LowAt(s, percent, num) <==> Remains(s, num, percent)
  {
    forall w | w in s.windows
      ensures ShareLow(w.remaining, percent) <==>
                exists x | w.remaining == Some(x) :: x * 100.0 <= percent || 100.0 <= percent
    {
      if w.remaining.Some? { WholeCaps(w.remaining.value, percent); }
    }
    forall q | q in s.quantities
      ensures ShareLow(Share(q, num), percent) <==>
                exists r, n | !q.unlimited && num(q.remaining) == Some(r) && num(q.total) == Some(n) && n > 0.0 ::
                  r / n * 100.0 <= percent || 100.0 <= percent
    {
      if Share(q, num).Some? { WholeCaps(Share(q, num).value, percent); }
    }
  }

  lemma WholeCaps(share: real, percent: real)
    ensures (if share < 1.0 then share else 1.0) * 100.0 <= percent <==> share * 100.0 <= percent || 100.0 <= percent
  {
  }

  /** The status of an account whose data by itself is fine or worse, told from amounts, rules
      and shares: critical when the data already are, when a balance is negative or at most its
      critical limit, when something is used beyond its total, or when at most the critical
      percentage remains; a warning likewise, when none of these holds; and otherwise what the
      data are by themselves. Settled statuses and unsupported accounts are left alone. */
  lemma StatusExactly(s: Snapshot, t: P.Thresholds, num: Reader)
    requires s.base in {Ok, Warning, Critical}
    ensures var r := Apply(s, t, num);
            if s.kind == Unsupported then r == s
            else
              && r == s.(status := r.status)
              && (r.status == Critical <==>
                    || s.base == Critical || OverTotal(s, num) || Remains(s, num, t.criticalPercent)
                    || exists b | b in s.balances :: Negative(b, num) || BalanceReaches(b, s.accountId, t, num, true))
              && (r.status == Warning <==>
                    r.status != Critical &&
                    (|| s.base == Warning || Remains(s, num, t.warningPercent)
                     || exists b | b in s.balances :: BalanceReaches(b, s.accountId, t, num, false)))
              && (r.status == Ok <==> r.status != Critical && r.status != Warning)
  {
    hide CashLevel, Overage, LowAt, OverTotal, Remains, Negative, BalanceReaches;
    CashLevelExactly(s, t, num);
    OverTotalExactly(s, num);
    RemainsExactly(s, num, t.criticalPercent);
    RemainsExactly(s, num, t.warningPercent);
    CashLevelRange(s, t, num);
  }

  /** An account in error, unknown or disabled keeps that status, and an unset base becomes what
      the data say: such a status stays; a total balance that is used up, an excess or a quantity
      used beyond its total is critical; an error or a failed section is a warning. */
  lemma BaseExactly(s: Snapshot, t: P.Thresholds, num: Reader)
    requires s.kind != Unsupported
    ensures s.base in {Error, Unknown, Disabled} ==> Apply(s, t, num).status == s.base
    ensures s.base != UNSET ==> Apply(s, t, num).base == s.base
    ensures s.base == UNSET ==>
              var base := Apply(s, t, num).base;
              && Apply(s, t, num) == Apply(s.(base := base), t, num)
              && (s.status in {Error, Unknown, Disabled} ==> base == s.status)
              && (s.status !in {Error, Unknown, Disabled} ==>
                    && (base == Critical <==>
                          || (exists b, a | b in s.balances && b.balanceType == "total" && num(b.amount) == Some(a) ::
                                a <= 0.0)
                          || (exists w, x | w in s.windows && num(w.excessAmount) == Some(x) :: x > 0.0)
                          || (exists q, u, n | q in s.quantities && num(q.used) == Some(u) && num(q.total) == Some(n) ::
                                u > n > 0.0))
                    && (base == Warning <==>
                          base != Critical
                          && (s.error.Some? || exists name | name in s.sections :: s.sections[name].status == "error"))
                    && base in {Ok, Warning, Critical})
  {
    hide CashLevel, QuotaLevel;
    SameQuotas(s, s.(base := Apply(s, t, num).base), t, num);
    if s.status !in {Error, Unknown, Disabled} { ExhaustedExactly(s, num); }
    hide Exhausted;
  }

  lemma ExhaustedExactly(s: Snapshot, num: Reader)
    ensures Exhausted(s, num) <==>
              || (exists b, a | b in s.balances && b.balanceType == "total" && num(b.amount) == Some(a) :: a <= 0.0)
              || (exists w, x | w in s.windows && num(w.excessAmount) == Some(x) :: x > 0.0)
              || (exists q, u, n | q in s.quantities && num(q.used) == Some(u)
                 && num(q.total) == Some(n) :: u > n > 0.0)
  {
    if b :| b in s.balances && Overdrawn(b, num) { assert num(b.amount) == Some(num(b.amount).value); }
    if w :| w in s.windows && HasExcess(w, num) { assert num(w.excessAmount) == Some(num(w.excessAmount).value); }
    if q :| q in s.quantities && Exceeded(q, num) {
      assert num(q.used) == Some(num(q.used).value) && num(q.total) == Some(num(q.total).value);
    }
  }

  /** One balance, one readable rule with its critical limit at or below its warning limit, no
      quotas: the amount alone decides. */
  lemma OneBalance(s: Snapshot, t: P.Thresholds, num: Reader, b: Balance, rule: P.CashRule, a: real, w: real, c: real)
    requires s.kind != Unsupported && s.base == Ok && s.balances == [b] && s.windows == [] && s.quantities == []
    requires HasRule(s.accountId, b.currency, t, rule) && c <= w
    requires num(b.amount) == Some(a) && num(rule.warning) == Some(w) && num(rule.critical) == Some(c)
    ensures var status := Apply(s, t, num).status;
            && (status == Critical <==> a < 0.0 || a <= c)
            && (status == Warning <==> a >= 0.0 && c < a <= w)
            && (status == Ok <==> a >= 0.0 && a > w)
  {
    hide Apply, HasRule, BalanceReaches, OverTotal, Remains;
    StatusExactly(s, t, num);
    RuleReaches(b, s.accountId, t, num, rule, a, w, c);
    NoQuotas(s, t, num);
    assert b in s.balances && forall b' | b' in s.balances :: b' == b;
  }

  lemma RuleReaches(b: Balance, accountId: string, t: P.Thresholds, num: Reader, rule: P.CashRule, a: real, w: real,
      c: real)
    requires HasRule(accountId, b.currency, t, rule)
    requires num(b.amount) == Some(a) && num(rule.warning) == Some(w) && num(rule.critical) == Some(c)
    ensures BalanceReaches(b, accountId, t, num, true) <==> a <= c
    ensures BalanceReaches(b, accountId, t, num, false) <==> a <= w
  {
    hide HasRule;
    RuleExactly(accountId, b.currency, t);
    hide EffectiveRule;
  }

  lemma NoQuotas(s: Snapshot, t: P.Thresholds, num: Reader)
    requires s.windows == [] && s.quantities == []
    ensures !OverTotal(s, num) && !Remains(s, num, t.criticalPercent) && !Remains(s, num, t.warningPercent)
  {
  }

  /* ---------- re-evaluation ---------- */

  /** The base status is absent or what the data says by itself. */
  predicate Coherent(s: Snapshot, num: Reader) { s.base == UNSET || s.base == Infer(s, num) }

  /** Applying thresholds again forgets the earlier thresholds completely. */
  lemma ReapplyingForgets(s: Snapshot, t: P.Thresholds, t': P.Thresholds, num: Reader)
    ensures Apply(Apply(s, t, num), t', num) == Apply(s, t', num)
  {
    hide Exhausted, Impaired, CashLevel, QuotaLevel;
    SameQuotas(s, Apply(s, t, num), t', num);
  }

  /** The quota level looks at nothing but windows and quantities. */
  lemma SameQuotas(s: Snapshot, s': Snapshot, t: P.Thresholds, num: Reader)
    requires s.windows == s'.windows && s.quantities == s'.quantities
    ensures QuotaLevel(s, t, num) == QuotaLevel(s', t, num)
  {
    hide ShareLow, Share, HasExcess, Exceeded;
  }

  lemma SameData(s: Snapshot, s': Snapshot, num: Reader)
    requires s.balances == s'.balances && s.windows == s'.windows && s.quantities == s'.quantities
    requires s.error == s'.error && s.sections == s'.sections
    ensures Exhausted(s, num) == Exhausted(s', num) && Impaired(s) == Impaired(s')
  {
    hide Overdrawn, HasExcess, Exceeded;
  }

  /** Evaluation keeps a coherent snapshot coherent. */
  lemma ApplyKeepsCoherent(s: Snapshot, t: P.Thresholds, num: Reader)
    requires Coherent(s, num)
    ensures Coherent(Apply(s, t, num), num)
    ensures s.kind != Unsupported ==> Infer(Apply(s, t, num), num) == Infer(s, num)
  {
    hide Exhausted, Impaired, CashLevel, QuotaLevel;
    CashLevelRange(s, t, num);
    SameData(s, Apply(s, t, num), num);
  }

  /** Writing a snapshot to disk and reading it back loses the base status. */
  function Reloaded(s: Snapshot): Snapshot { s.(base := UNSET) }

  /** The same holds when the snapshot was saved and reloaded in between. */
  lemma ReapplyingForgetsAcrossReload(s: Snapshot, t: P.Thresholds, t': P.Thresholds, num: Reader)
    requires Coherent(s, num)
    ensures Apply(Reloaded(Apply(s, t, num)), t', num).status == Apply(s, t', num).status
    ensures s.kind != Unsupported ==> Apply(Reloaded(Apply(s, t, num)), t', num) == Apply(s, t', num)
  {
    hide Exhausted, Impaired, CashLevel, QuotaLevel;
    ApplyKeepsCoherent(s, t, num);
    SameData(Reloaded(Apply(s, t, num)), Apply(s, t, num), num);
    SameQuotas(s, Reloaded(Apply(s, t, num)), t', num);
  }

  /** A failed query's snapshot keeps the base status of the data it holds, so evaluating it
      again in memory keeps the failure exactly when that base status allows it; after a
      reload the failure is always kept. */
  lemma FailureSurvivesReapplying(
      previous: Option<Snapshot>, id: string, name: string, adapter: string, failure: Failure, now: int,
      t: P.Thresholds, num: Reader)
    ensures var s := ErrorSnapshot(previous, id, name, adapter, failure, now);
            && (Apply(s, t, num).status == Error <==>
                  previous.None? || previous.value.kind == Unsupported || previous.value.base in {UNSET, Error})
            && Apply(Reloaded(s), t, num).status == Error
  {
    hide Exhausted, Impaired, CashLevel, QuotaLevel, FirstNonEmpty;
    CashLevelRange(ErrorSnapshot(previous, id, name, adapter, failure, now), t, num);
  }

  lemma CashLevelRange(s: Snapshot, t: P.Thresholds, num: Reader)
    ensures CashLevel(s.balances, s.accountId, t, num) in {Ok, Warning, Critical}
    ensures QuotaLevel(s, t, num) in {Ok, Warning, Critical}
  {
    hide BalanceLevel, Overage, LowAt;
  }

  /** The order of balances, windows and quantities does not matter. */
  lemma OrderIsIrrelevant(s: Snapshot, s': Snapshot, t: P.Thresholds, num: Reader)
    requires s' == s.(balances := s'.balances, windows := s'.windows, quantities := s'.quantities)
    requires multiset(s.balances) == multiset(s'.balances)
    requires multiset(s.windows) == multiset(s'.windows)
    requires multiset(s.quantities) == multiset(s'.quantities)
    ensures Apply(s, t, num).status == Apply(s', t, num).status
    ensures Infer(s, num) == Infer(s', num)
  {
    hide BalanceLevel, ShareLow, Share, Overdrawn, HasExcess, Exceeded, Impaired;
    SameMembers(s.balances, s'.balances);
    SameMembers(s.windows, s'.windows);
    SameMembers(s.quantities, s'.quantities);
    assert Exhausted(s, num) == Exhausted(s', num);
    assert Impaired(s) == Impaired(s') by { ImpairedAgrees(s, s'); }
    assert CashLevel(s.balances, s.accountId, t, num) == CashLevel(s'.balances, s'.accountId, t, num);
    assert LowAt(s, t.criticalPercent, num) == LowAt(s', t.criticalPercent, num);
    assert LowAt(s, t.warningPercent, num) == LowAt(s', t.warningPercent, num);
    assert Overage(s, num) == Overage(s', num);
  }

  lemma ImpairedAgrees(s: Snapshot, s': Snapshot)
    requires s.error == s'.error && s.sections == s'.sections
    ensures Impaired(s) == Impaired(s')
  {
  }

  /* ---------- monotonicity ---------- */

  /** A readable rule is matched by a readable rule that is at least as large. */
  ghost predicate RuleAtMost(rule: P.CashRule, rule': P.CashRule, num: Reader) {
    num(rule.warning).Some? && num(rule.critical).Some? ==>
      && num(rule'.warning).Some? && num(rule'.critical).Some?
      && num(rule.warning).value <= num(rule'.warning).value
      && num(rule.critical).value <= num(rule'.critical).value
  }

  /** Pointwise larger thresholds. New account rules would shadow currency rules, so both
      have the same account rules. */
  ghost predicate AtMost(t: P.Thresholds, t': P.Thresholds, num: Reader) {
    && t.warningPercent <= t'.warningPercent && t.criticalPercent <= t'.criticalPercent
    && t.cashByAccount.Keys == t'.cashByAccount.Keys && t.cashByCurrency.Keys <= t'.cashByCurrency.Keys
    && (forall k | k in t.cashByAccount :: RuleAtMost(t.cashByAccount[k], t'.cashByAccount[k], num))
    && (forall k | k in t.cashByCurrency :: RuleAtMost(t.cashByCurrency[k], t'.cashByCurrency[k], num))
  }

  lemma BalanceLevelGrows(b: Balance, id: string, t: P.Thresholds, t': P.Thresholds, num: Reader)
    requires AtMost(t, t', num)
    ensures Rank(BalanceLevel(b, id, t, num)) <= Rank(BalanceLevel(b, id, t', num))
  {
    hide Trim, ToUpper;
  }

  lemma CashLevelGrows(balances: seq<Balance>, id: string, t: P.Thresholds, t': P.Thresholds, num: Reader)
    requires AtMost(t, t', num)
    ensures Rank(CashLevel(balances, id, t, num)) <= Rank(CashLevel(balances, id, t', num))
  {
    hide BalanceLevel;
    forall b | b in balances ensures Rank(BalanceLevel(b, id, t, num)) <= Rank(BalanceLevel(b, id, t', num)) {
      BalanceLevelGrows(b, id, t, t', num);
    }
  }

  lemma QuotaLevelGrows(s: Snapshot, t: P.Thresholds, t': P.Thresholds, num: Reader)
    requires t.warningPercent <= t'.warningPercent && t.criticalPercent <= t'.criticalPercent
    ensures Rank(QuotaLevel(s, t, num)) <= Rank(QuotaLevel(s, t', num))
  {
    hide Share, Overage;
    assert LowAt(s, t.criticalPercent, num) ==> LowAt(s, t'.criticalPercent, num);
    assert LowAt(s, t.warningPercent, num) ==> LowAt(s, t'.warningPercent, num);
  }

  /** Larger thresholds never lower the severity. */
  lemma SeverityIsMonotone(s: Snapshot, t: P.Thresholds, t': P.Thresholds, num: Reader)
    requires AtMost(t, t', num)
    ensures Rank(Apply(s, t, num).status) <= Rank(Apply(s, t', num).status)
  {
    hide CashLevel, QuotaLevel, Infer, AtMost;
    CashLevelGrows(s.balances, s.accountId, t, t', num);
    AtMostPercent(t, t', num);
    QuotaLevelGrows(s, t, t', num);
    CashLevelRange(s, t, num);
    CashLevelRange(s, t', num);
  }

  lemma AtMostPercent(t: P.Thresholds, t': P.Thresholds, num: Reader)
    requires AtMost(t, t', num)
    ensures t.warningPercent <= t'.warningPercent && t.criticalPercent <= t'.criticalPercent
  {
  }
}
