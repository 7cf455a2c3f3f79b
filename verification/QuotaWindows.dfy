/** Building quota windows from the amounts and percentages providers report. */
module QuotaWindows {
  import opened Options
  import opened Text
  import opened Snapshots
  import opened ThresholdRules
  import opened Decimal
  import P = Preferences

  function Clamp(x: real): (r: real)
    ensures 0.0 <= r <= 1.0
    ensures 0.0 <= x <= 1.0 ==> r == x
  {
    if x < 0.0 then 0.0 else if x > 1.0 then 1.0 else x
  }

  function MaxReal(left: real, right: real): real { if right > left then right else left }

  /** The raw texts of a Z.ai limit; "" for a missing field. */
  datatype ZaiLimit = ZaiLimit(
    name: string, remainingPercent: string, usedPercent: string, total: string, used: string, remaining: string,
    unit: string)

  /** The remaining and used share of a Z.ai limit before clamping. */
  function ZaiShares(z: ZaiLimit, num: Reader): Option<(real, real)> {
    if num(z.remainingPercent).Some? then
      var remaining := num(z.remainingPercent).value / 100.0;
      Some((remaining, 1.0 - remaining))
    else if num(z.usedPercent).Some? then
      var used := num(z.usedPercent).value / 100.0;
      Some((1.0 - used, used))
    else if num(z.total).None? || num(z.total).value <= 0.0 then None
    else if num(z.used).Some? then
      var used := Clamp(num(z.used).value / num(z.total).value);
      Some((1.0 - used, used))
    else if num(z.remaining).Some? then
      var remaining := Clamp(num(z.remaining).value / num(z.total).value);
      Some((remaining, 1.0 - remaining))
    else None
  }

  function FromZaiLimit(z: ZaiLimit, num: Reader): Option<Window> {
    match ZaiShares(z, num)
    case None => None
    case Some((remaining, used)) =>
      Some(QuotaWindow(z.name, Some(Clamp(remaining)), Some(Clamp(used)), z.remaining, z.total, "", "", z.unit))
  }

  datatype PercentFields = PercentFields(
    name: string, usedFraction: string, remainingFraction: string, percent: string, used: string, limit: string)

  function PercentUsed(p: PercentFields, num: Reader): Option<real> {
    if num(p.usedFraction).Some? then Some(num(p.usedFraction).value)
    else if num(p.remainingFraction).Some? then Some(1.0 - num(p.remainingFraction).value)
    else if num(p.percent).Some? then Some(num(p.percent).value / 100.0)
    else if num(p.used).None? || num(p.limit).None? || num(p.limit).value <= 0.0 then None
    else Some(num(p.used).value / num(p.limit).value)
  }

  function FromPercent(p: PercentFields, num: Reader): Option<Window> {
    match PercentUsed(p, num)
    case None => None
    case Some(used) => Some(QuotaWindow(p.name, Some(1.0 - Clamp(used)), Some(Clamp(used)), "", "", "", "", ""))
  }

  datatype LimitFields = LimitFields(name: string, limit: string, remaining: string, used: string, unit: string)

  /** Whether the amounts say that more was used than there is. */
  predicate OverLimit(limit: real, remaining: real, used: real) { remaining < 0.0 || used > limit }

  function ExcessWindow(f: LimitFields, limit: real, remaining: real, used: real, usedText: string): Window {
    QuotaWindow(f.name, Some(0.0), Some(1.0), "0", f.limit, usedText,
                Format(MaxReal(used - limit, -remaining)), f.unit)
  }

  function FromLimit(f: LimitFields, num: Reader): Option<Window> {
    match (num(f.limit), num(f.remaining))
    case (Some(limit), Some(remaining)) =>
      if limit <= 0.0 then None
      else
        var used := if num(f.used).Some? then num(f.used).value else limit - remaining;
        var usedText := if num(f.used).Some? then f.used else Format(used);
        if OverLimit(limit, remaining, used) then Some(ExcessWindow(f, limit, remaining, used, usedText))
        else
          var share := remaining / limit;
          Some(QuotaWindow(f.name, Some(share), Some(1.0 - share), f.remaining, f.limit, usedText, "", f.unit))
    case _ => None
  }

  /** As FromLimit, but a remaining amount above the limit counts as the limit. */
  function FromValues(f: LimitFields, num: Reader): Option<Window> {
    match (num(f.limit), num(f.remaining))
    case (Some(limit), Some(remaining)) =>
      if limit <= 0.0 then None
      else
        var used := if num(f.used).Some? then num(f.used).value else limit - remaining;
        var usedText := FirstNonEmpty([f.used, Format(used)]);
        if OverLimit(limit, remaining, used) then Some(ExcessWindow(f, limit, remaining, used, usedText))
        else
          var capped := if remaining > limit then limit else remaining;
          var share := capped / limit;
          Some(QuotaWindow(f.name, Some(share), Some(1.0 - share), FirstNonEmpty([f.remaining, Format(capped)]),
              f.limit,
                           usedText, "", f.unit))
    case _ => None
  }

  /** A Command Code window; None when the amounts are missing or invalid. */
  function CommandCodeWindow(name: string, used: Option<real>, cap: Option<real>): Option<Window> {
    if used.None? || cap.None? || cap.value <= 0.0 || used.value < 0.0 then None
    else
      var remaining := MaxReal(cap.value - used.value, 0.0);
      var share := remaining / cap.value;
      Some(QuotaWindow(name, Some(share), Some(1.0 - share), Format(remaining), Format(cap.value), Format(used.value),
          "", "credits"))
  }

  /** The shares of a window are a split of the whole. */
  predicate Split(w: Window) {
    w.remaining.Some? && w.used.Some? && w.remaining.value + w.used.value == 1.0 && 0.0 <= w.remaining.value <= 1.0
  }

  /** The monthly window derived from what is left of a grant. */
  method DerivedMonthlyWindow(left: real, granted: real) returns (w: Option<Window>)
    ensures w.None? <==> granted <= 0.0
    ensures w.Some? ==> Split(w.value)
    ensures w.Some? ==> (w.value.remaining == Some(0.0) <==> left <= 0.0)
    ensures w.Some? && left > granted ==> w.value.remaining == Some(1.0)
    ensures w.Some? && 0.0 <= left <= granted ==> w.value.remaining == Some(left / granted)
    ensures w.Some? ==>
              && w.value.name == "month" && w.value.unit == "credits" && w.value.excessAmount == ""
              && w.value.remainingAmount == Format(if left > 0.0 then left else 0.0)
              && w.value.totalAmount == Format(if left > granted then left else granted)
              && (0.0 <= left <= granted ==> w.value.usedAmount == Format(granted - left))
  {
    var remaining, total := left, granted;
    if total <= 0.0 { return None; }
    remaining := MaxReal(remaining, 0.0);
    if remaining > total { total := remaining; }
    if total <= 0.0 { return None; }
    var used := MaxReal(total - remaining, 0.0);
    var share, usedShare := remaining / total, used / total;
    SharesAddUp(remaining, total);
    w := Some(QuotaWindow("month", Some(share), Some(usedShare), Format(remaining), Format(total), Format(used), "",
        "credits"));
  }

  lemma SharesAddUp(part: real, whole: real)
    requires 0.0 <= part <= whole && whole > 0.0
    ensures part / whole + (whole - part) / whole == 1.0
    ensures 0.0 <= part / whole <= 1.0
    ensures part / whole == 0.0 <==> part == 0.0
    ensures part / whole == 1.0 <==> part == whole
  {
    var x := part / whole;
    assert part == x * whole;
    assert (whole - part) / whole == whole / whole - part / whole;
  }

  lemma LimitSplits(f: LimitFields, num: Reader)
    ensures FromValues(f, num).Some? ==> Split(FromValues(f, num).value)
    ensures FromLimit(f, num).Some? ==>
              (Split(FromLimit(f, num).value) <==>
                 || num(f.remaining).value <= num(f.limit).value
                 || (num(f.used).Some? && num(f.used).value > num(f.limit).value))
  {
    hide Format, FirstNonEmpty;
    if FromLimit(f, num).Some? {
      var limit, remaining := num(f.limit).value, num(f.remaining).value;
      if 0.0 <= remaining <= limit {
        SharesAddUp(remaining, limit);
      } else if remaining > limit {
        AboveWhole(remaining, limit);
        SharesAddUp(limit, limit);
      }
    }
  }

  /** Every constructor but one always splits the whole; the one that does not cap the
      remaining amount does so exactly when that amount is within the limit or overdrawn. */
  lemma WindowsSplitTheWhole(z: ZaiLimit, p: PercentFields, f: LimitFields, name: string, used: Option<real>,
      cap: Option<real>, num: Reader)
    ensures FromZaiLimit(z, num).Some? ==> Split(FromZaiLimit(z, num).value)
    ensures FromPercent(p, num).Some? ==> Split(FromPercent(p, num).value)
    ensures FromValues(f, num).Some? ==> Split(FromValues(f, num).value)
    ensures CommandCodeWindow(name, used, cap).Some? ==> Split(CommandCodeWindow(name, used, cap).value)
    ensures FromLimit(f, num).Some? ==>
              (Split(FromLimit(f, num).value) <==>
                 || num(f.remaining).value <= num(f.limit).value
                 || (num(f.used).Some? && num(f.used).value > num(f.limit).value))
  {
    hide Format, FirstNonEmpty, FromLimit, FromValues;
    LimitSplits(f, num);
    if CommandCodeWindow(name, used, cap).Some? {
      SharesAddUp(MaxReal(cap.value - used.value, 0.0), cap.value);
    }
  }

  lemma AboveWhole(part: real, whole: real)
    requires part > whole > 0.0
    ensures part / whole > 1.0
  {
    var x := part / whole;
    assert part == x * whole;
    assert x <= 1.0 ==> x * whole <= whole;
  }

  lemma OverWhole(used: real, total: real)
    requires used > total > 0.0
    ensures Clamp(used / total) == 1.0
  {
    AboveWhole(used, total);
  }

  /** Where the shares of a window come from. A Z.ai limit takes the first of these that can be
      read: the remaining percentage, the used percentage, the used amount of a positive total, the
      remaining amount of a positive total; shares outside the whole are cut off. */
  lemma ZaiSharesExactly(z: ZaiLimit, num: Reader)
    ensures var w := FromZaiLimit(z, num);
            && (w.Some? ==>
                  && w.value.remaining.Some? && w.value.used.Some? && w.value.name == z.name && w.value.unit == z.unit
                  && w.value.remainingAmount == z.remaining && w.value.totalAmount == z.total
                  && w.value.usedAmount == w.value.excessAmount == "")
            && (num(z.remainingPercent).Some? ==>
                  w.Some? && w.value.remaining.value == Clamp(num(z.remainingPercent).value / 100.0))
            && (num(z.remainingPercent).None? && num(z.usedPercent).Some? ==>
                  w.Some? && w.value.used.value == Clamp(num(z.usedPercent).value / 100.0))
            && (num(z.remainingPercent).None? && num(z.usedPercent).None? ==>
                  && (w.Some? <==>
                        && num(z.total).Some? && num(z.total).value > 0.0
                        && (num(z.used).Some? || num(z.remaining).Some?))
                  && (w.Some? && num(z.used).Some? ==>
                        w.value.used.value == Clamp(num(z.used).value / num(z.total).value))
                  && (w.Some? && num(z.used).None? ==>
                        w.value.remaining.value == Clamp(num(z.remaining).value / num(z.total).value)))
  {
  }

  /** A window from percentages takes the first of these that can be read: the used fraction, the
      remaining fraction, the used percentage, the used amount of a positive limit. */
  lemma PercentSharesExactly(p: PercentFields, num: Reader)
    ensures var w := FromPercent(p, num);
            && (w.Some? ==>
                  w.value.remaining.Some? && w.value.used.Some? && w.value.name == p.name && w.value.excessAmount == "")
            && (num(p.usedFraction).Some? ==> w.Some? && w.value.used.value == Clamp(num(p.usedFraction).value))
            && (num(p.usedFraction).None? && num(p.remainingFraction).Some? ==>
                  w.Some? && w.value.remaining.value == Clamp(num(p.remainingFraction).value))
            && (num(p.usedFraction).None? && num(p.remainingFraction).None? && num(p.percent).Some? ==>
                  w.Some? && w.value.used.value == Clamp(num(p.percent).value / 100.0))
            && (num(p.usedFraction).None? && num(p.remainingFraction).None? && num(p.percent).None? ==>
                  && (w.Some? <==> num(p.used).Some? && num(p.limit).Some? && num(p.limit).value > 0.0)
                  && (w.Some? ==> w.value.used.value == Clamp(num(p.used).value / num(p.limit).value)))
  {
  }

  /** More than there is was used, or less than nothing remains. */
  predicate Overused(f: LimitFields, num: Reader)
    requires num(f.limit).Some? && num(f.remaining).Some?
  {
    num(f.remaining).value < 0.0 || (num(f.used).Some? && num(f.used).value > num(f.limit).value)
  }

  /** The larger of the amount used beyond the limit and the amount overdrawn. */
  function Beyond(f: LimitFields, num: Reader): real
    requires num(f.limit).Some? && num(f.remaining).Some?
  {
    var overdrawn := -num(f.remaining).value;
    if num(f.used).Some? && num(f.used).value - num(f.limit).value > overdrawn
    then num(f.used).value - num(f.limit).value else overdrawn
  }

  /** A window from a limit and a remaining amount exists exactly when both can be read and the
      limit is positive. Without overuse it reports what remains of the limit; with overuse it
      reports nothing remaining and the excess. */
  lemma LimitSharesExactly(f: LimitFields, num: Reader)
    ensures var w := FromLimit(f, num);
            && (w.Some? <==> num(f.limit).Some? && num(f.remaining).Some? && num(f.limit).value > 0.0)
            && (w.Some? && Overused(f, num) ==>
                  w.value.remaining == Some(0.0) && w.value.excessAmount == Format(Beyond(f, num)))
            && (w.Some? && !Overused(f, num) ==>
                  w.value.remaining == Some(num(f.remaining).value / num(f.limit).value) && w.value.excessAmount == "")
  {
    hide Format;
  }

  /** The other constructor differs only in that a remaining amount above the limit counts as the
      whole. */
  lemma ValueSharesExactly(f: LimitFields, num: Reader)
    ensures var w, v := FromLimit(f, num), FromValues(f, num);
            && (v.Some? <==> w.Some?)
            && (v.Some? ==> v.value.excessAmount == w.value.excessAmount)
            && (v.Some? && num(f.remaining).value <= num(f.limit).value ==> v.value.remaining == w.value.remaining)
            && (v.Some? && num(f.remaining).value > num(f.limit).value && !Overused(f, num) ==>
                  v.value.remaining == Some(num(f.limit).value / num(f.limit).value))
  {
    hide Format, FirstNonEmpty;
  }

  /** The amounts that windows show: what the provider reported where it did, and otherwise what
      follows from it, printed; with overuse nothing remains. */
  lemma AmountsExactly(f: LimitFields, num: Reader)
    ensures var w := FromLimit(f, num);
            w.Some? ==>
              && w.value.name == f.name && w.value.unit == f.unit && w.value.totalAmount == f.limit
              && w.value.usedAmount ==
                   (if num(f.used).Some? then f.used else Format(num(f.limit).value - num(f.remaining).value))
              && w.value.remainingAmount == (if w.value.excessAmount == "" then f.remaining else "0")
    ensures var v := FromValues(f, num);
            v.Some? ==>
              && v.value.name == f.name && v.value.unit == f.unit && v.value.totalAmount == f.limit
              && (!IsBlank(f.used) ==> v.value.usedAmount == Trim(f.used))
              && (v.value.excessAmount != "" ==> v.value.remainingAmount == "0")
              && (v.value.excessAmount == "" && !IsBlank(f.remaining) ==> v.value.remainingAmount == Trim(f.remaining))
  {
    hide Format, Trim, FromLimit, FromValues;
    if FromLimit(f, num).Some? { LimitAmounts(f, num); }
    if FromValues(f, num).Some? { ValueAmounts(f, num); }
  }

  lemma LimitAmounts(f: LimitFields, num: Reader)
    requires FromLimit(f, num).Some?
    ensures var w, limit, remaining := FromLimit(f, num).value, num(f.limit).value, num(f.remaining).value;
            && w.name == f.name && w.unit == f.unit && w.totalAmount == f.limit
            && w.usedAmount == (if num(f.used).Some? then f.used else Format(limit - remaining))
            && w.remainingAmount == (if w.excessAmount == "" then f.remaining else "0")
  {
    hide Format;
    var limit, remaining := num(f.limit).value, num(f.remaining).value;
    var used := if num(f.used).Some? then num(f.used).value else limit - remaining;
    PrintedIsNotEmpty(MaxReal(used - limit, -remaining));
  }

  lemma ValueAmounts(f: LimitFields, num: Reader)
    requires FromValues(f, num).Some?
    ensures var v, limit, remaining := FromValues(f, num).value, num(f.limit).value, num(f.remaining).value;
            && v.name == f.name && v.unit == f.unit && v.totalAmount == f.limit
            && (!IsBlank(f.used) ==> v.usedAmount == Trim(f.used))
            && (v.excessAmount != "" ==> v.remainingAmount == "0")
            && (v.excessAmount == "" && !IsBlank(f.remaining) ==> v.remainingAmount == Trim(f.remaining))
  {
    hide Format, Trim, FirstNonEmpty;
    var limit, remaining := num(f.limit).value, num(f.remaining).value;
    var used := if num(f.used).Some? then num(f.used).value else limit - remaining;
    var capped := if remaining > limit then limit else remaining;
    PrintedIsNotEmpty(MaxReal(used - limit, -remaining));
    FirstOfTwo(f.used, Format(used));
    FirstOfTwo(f.remaining, Format(capped));
  }

  lemma FirstOfTwo(a: string, b: string)
    ensures !IsBlank(a) ==> FirstNonEmpty([a, b]) == Trim(a)
  {
  }

  /** A Command Code window exists exactly for a positive cap and a usage that is not negative; it
      reports what is left of the cap. */
  lemma CommandCodeExactly(name: string, used: Option<real>, cap: Option<real>)
    ensures var w := CommandCodeWindow(name, used, cap);
            && (w.Some? <==> used.Some? && cap.Some? && cap.value > 0.0 && used.value >= 0.0)
            && (w.Some? && used.value <= cap.value ==>
                  w.value.remaining == Some((cap.value - used.value) / cap.value))
            && (w.Some? && used.value > cap.value ==> w.value.remaining == Some(0.0 / cap.value))
            && (w.Some? ==>
                  && w.value.name == name && w.value.unit == "credits" && w.value.excessAmount == ""
                  && w.value.totalAmount == Format(cap.value) && w.value.usedAmount == Format(used.value)
                  && w.value.remainingAmount == Format(if used.value < cap.value then cap.value - used.value else 0.0))
  {
    hide Format;
  }

  predicate UsedUp(w: Option<Window>) { w.Some? && w.value.remaining == Some(0.0) && w.value.used == Some(1.0) }

  /** More used than there is leaves nothing remaining, whichever constructor reads it: the
      Z.ai and percent forms when no percentage is given, the limit forms whenever the
      remaining amount is readable, Command Code always. */
  lemma OverLimitIsUsedUp(z: ZaiLimit, p: PercentFields, f: LimitFields, name: string, used: real, total: real,
      num: Reader)
    requires used > total > 0.0
    ensures num(z.total) == Some(total) && num(z.used) == Some(used) && num(z.remainingPercent).None?
            && num(z.usedPercent).None? ==>
              UsedUp(FromZaiLimit(z, num))
    ensures num(p.limit) == Some(total) && num(p.used) == Some(used)
            && num(p.usedFraction).None? && num(p.remainingFraction).None? && num(p.percent).None? ==>
              UsedUp(FromPercent(p, num))
    ensures num(f.limit) == Some(total) && num(f.used) == Some(used) ==>
              && (UsedUp(FromLimit(f, num)) <==> num(f.remaining).Some?)
              && (UsedUp(FromValues(f, num)) <==> num(f.remaining).Some?)
    ensures UsedUp(CommandCodeWindow(name, Some(used), Some(total)))
  {
    hide Format, FirstNonEmpty;
    OverWhole(used, total);
    assert 0.0 / total == 0.0;
  }

  /** A used-up window makes its account critical whatever else the account reports, unless
      the base status is one that thresholds never touch. */
  lemma UsedUpIsCritical(s: Snapshot, w: Window, t: P.Thresholds, num: Reader)
    requires s.kind != Unsupported && w in s.windows && UsedUp(Some(w))
    requires t.criticalPercent >= 0.0
    ensures Apply(s, t, num).status == Critical <==> !Settled(if s.base == UNSET then Infer(s, num) else s.base)
  {
    hide Infer, CashLevel, Overage;
    assert ShareLow(w.remaining, t.criticalPercent);
    CashLevelRange(s, t, num);
    assert QuotaLevel(s, t, num) == Critical;
  }

  /** The case the printed excess alone would miss: an excess of at most half a millionth
      prints as "0", reads as no excess, and the account is critical all the same. */
  lemma TinyExcessIsStillCritical(s: Snapshot, f: LimitFields, used: real, t: P.Thresholds, num: Reader)
    requires t.criticalPercent >= 0.0 && num("0") == Some(0.0)
    requires num(f.limit).Some? && num(f.limit).value > 0.0 && num(f.remaining).Some?
    requires var limit, remaining := num(f.limit).value, num(f.remaining).value;
             && used == (if num(f.used).Some? then num(f.used).value else limit - remaining)
             && OverLimit(limit, remaining, used) && MaxReal(used - limit, -remaining) <= 0.0000005
    requires s.kind != Unsupported && FromLimit(f, num).value in s.windows && s.base in {Ok, Warning, Critical}
    ensures FromLimit(f, num).value.excessAmount == "0" && !HasExcess(FromLimit(f, num).value, num)
    ensures Apply(s, t, num).status == Critical
  {
    hide Format, Apply, Infer, FirstNonEmpty;
    var w := FromLimit(f, num).value;
    assert UsedUp(Some(w)) && w.excessAmount == Format(MaxReal(used - num(f.limit).value, -num(f.remaining).value));
    PrintsZero(MaxReal(used - num(f.limit).value, -num(f.remaining).value));
    UsedUpIsCritical(s, w, t, num);
  }

  lemma PrintsZero(x: real)
    requires 0.0 <= x <= 0.0000005
    ensures Format(x) == "0"
  {
    hide Shortened;
    assert Millionths(x) == 0;
    assert Digits(0) == "0";
    PaddedZeros(6);
    PaddedValue(0, 6);
    ShortenedTail("0", Padded(0, 6));
    assert Fixed(0) == "0" + "." + Padded(0, 6);
  }

  lemma {:induction false} PaddedZeros(k: nat)
    ensures DropTrailing(Padded(0, k), '0') == ""
  {
    if k == 0 {
    } else {
      PaddedZeros(k - 1);
      var s := Padded(0, k);
      assert s[..|s| - 1] == Padded(0, k - 1);
    }
  }
}
