/** Collecting a paged usage feed, newest first, and the totals over the last five hours, seven
    days and thirty days. */
module UsagePages {
  import opened Options

  const MAXIMUM_PAGES := 10
  const ZERO_TIME := 0

  /** Times are in seconds. */
  const HOUR := 3600
  const FIVE_HOURS := 5 * HOUR
  const WEEK := 7 * 24 * HOUR
  const LOOKBACK := 30 * 24 * HOUR

  /** An entry whose time or cost may be missing or unreadable. */
  datatype Item = UsageItem(created: Option<int>, cost: Option<real>)

  /** A page and the token of the next one, "" on the last. */
  datatype Page = UsagePage(items: seq<Item>, next: string)

  /** The server: the page behind a cursor, or a failed request. */
  type Server = string -> Option<Page>

  /* ---------- the paging loop ---------- */

  /** The earliest time on a page as the loop computes it: the zero time means none yet. */
  function Oldest(items: seq<Item>): (t: int)
    ensures t == ZERO_TIME || exists x | x in items :: x.created == Some(t)
  {
    if items == [] then ZERO_TIME
    else
      var before, last := Oldest(items[..|items| - 1]), items[|items| - 1];
      if last.created.Some? && (before == ZERO_TIME || last.created.value < before) then last.created.value else before
  }

  /** The loop ends after this page. */
  predicate Ends(p: Page, now: int) {
    p.next == "" || p.items == [] || (Oldest(p.items) != ZERO_TIME && Oldest(p.items) < now - LOOKBACK)
  }

  /** What is collected from page number `page` on. */
  function Collected(server: Server, cursor: string, page: nat, now: int): Option<seq<Item>>
    decreases MAXIMUM_PAGES - page
  {
    if page >= MAXIMUM_PAGES then Some([])
    else
      match server(cursor)
      case None => None
      case Some(p) =>
        if Ends(p, now) then Some(p.items)
        else
          match Collected(server, p.next, page + 1, now)
          case None => None
          case Some(rest) => Some(p.items + rest)
  }

  lemma NothingBefore(rest: Option<seq<Item>>)
    ensures Continued([], rest) == rest
  {
    if rest.Some? {
      assert [] + rest.value == rest.value;
    }
  }

  /** One page of the collection. */
  lemma CollectedStep(server: Server, cursor: string, page: nat, now: int, items: seq<Item>)
    requires page < MAXIMUM_PAGES && server(cursor).Some?
    ensures var p := server(cursor).value; var rest := Collected(server, p.next, page + 1, now);
            Continued(items, Collected(server, cursor, page, now)) ==
              if Ends(p, now) then Some(items + p.items) else Continued(items + p.items, rest)
  {
    hide Ends;
    var p := server(cursor).value;
    var rest := Collected(server, p.next, page + 1, now);
    if rest.Some? {
      assert items + (p.items + rest.value) == (items + p.items) + rest.value;
    }
  }

  /** What has been collected, with what is still to come. */
  function Continued(items: seq<Item>, rest: Option<seq<Item>>): Option<seq<Item>> {
    match rest case None => None case Some(more) => Some(items + more)
  }

  method QueryUsageItems(server: Server, now: int) returns (r: Option<seq<Item>>)
    ensures r == Collected(server, "", 0, now)
  {
    hide Ends;
    var cursor := "";
    var items: seq<Item> := [];
    NothingBefore(Collected(server, "", 0, now));
    for page := 0 to MAXIMUM_PAGES
      invariant Collected(server, "", 0, now) == Continued(items, Collected(server, cursor, page, now))
    {
      var response := server(cursor);
      if response.None? { return None; }
      var p := response.value;
      CollectedStep(server, cursor, page, now, items);
      items := items + p.items;
      cursor := p.next;
      var ends := EndsHere(p, now);
      if ends { return Some(items); }
    }
    assert items + [] == items;
    r := Some(items);
  }

  method EndsHere(p: Page, now: int) returns (ends: bool)
    ensures ends == Ends(p, now)
  {
    if p.next == "" || |p.items| == 0 { return true; }
    var oldest := ZERO_TIME;
    for i := 0 to |p.items|
      invariant oldest == Oldest(p.items[..i])
    {
      assert p.items[..i + 1][..i] == p.items[..i];
      var created := p.items[i].created;
      if created.Some? && (oldest == ZERO_TIME || created.value < oldest) { oldest := created.value; }
    }
    assert p.items[..|p.items|] == p.items;
    return oldest != ZERO_TIME && oldest < now - LOOKBACK;
  }

  /** The oldest time of a page is the earliest of its times, when no entry has the zero time. */
  lemma {:induction false} OldestIsEarliest(items: seq<Item>)
    requires forall x | x in items :: x.created != Some(0)
    ensures Oldest(items) == 0 <==> forall x | x in items :: x.created.None?
    ensures forall x | x in items && x.created.Some? :: Oldest(items) <= x.created.value
  {
    if items == [] {
    } else {
      var before, last := items[..|items| - 1], items[|items| - 1];
      assert forall x :: x in items <==> x in before || x == last;
      OldestIsEarliest(before);
    }
  }

  /** The loop ends after a page that is the last one, is empty, or reaches back more than thirty
      days. */
  lemma EndsExactly(p: Page, now: int)
    requires forall x | x in p.items :: x.created != Some(0)
    ensures Ends(p, now) <==>
              || p.next == "" || p.items == []
              || exists x | x in p.items && x.created.Some? :: x.created.value < now - 2592000
  {
    OldestIsEarliest(p.items);
  }

  /* ---------- totals ---------- */

  predicate Counts(x: Item, cutoff: int) {
    x.created.Some? && x.cost.Some? && x.cost.value >= 0.0 && x.created.value > cutoff
  }

  function Total(items: seq<Item>, cutoff: int): (t: real)
    ensures t >= 0.0
  {
    if items == [] then 0.0
    else
      var last := items[|items| - 1];
      Total(items[..|items| - 1], cutoff) + if Counts(last, cutoff) then last.cost.value else 0.0
  }

  datatype Totals = Totals(fiveHour: real, weekly: real, monthly: real)

  function TotalsAt(items: seq<Item>, now: int): Totals {
    Totals(Total(items, now - FIVE_HOURS), Total(items, now - WEEK), Total(items, now - LOOKBACK))
  }

  method UsageTotals(items: seq<Item>, now: int) returns (fiveHour: real, weekly: real, monthly: real)
    ensures Totals(fiveHour, weekly, monthly) == TotalsAt(items, now)
  {
    fiveHour, weekly, monthly := 0.0, 0.0, 0.0;
    for i := 0 to |items|
      invariant Totals(fiveHour, weekly, monthly) == TotalsAt(items[..i], now)
    {
      assert items[..i + 1][..i] == items[..i];
      var x := items[i];
      if x.created.None? || x.cost.None? || x.cost.value < 0.0 { continue; }
      if x.created.value > now - FIVE_HOURS { fiveHour := fiveHour + x.cost.value; }
      if x.created.value > now - WEEK { weekly := weekly + x.cost.value; }
      if x.created.value > now - LOOKBACK { monthly := monthly + x.cost.value; }
    }
    assert items[..|items|] == items;
  }

  lemma {:induction false} EarlierCutoffCountsMore(items: seq<Item>, cutoff: int, cutoff': int)
    requires cutoff' <= cutoff
    ensures Total(items, cutoff) <= Total(items, cutoff')
  {
    if items == [] {
    } else {
      EarlierCutoffCountsMore(items[..|items| - 1], cutoff, cutoff');
    }
  }

  /** For any items, the longer periods total at least as much. */
  lemma TotalsAreOrdered(items: seq<Item>, now: int)
    ensures var t := TotalsAt(items, now); 0.0 <= t.fiveHour <= t.weekly <= t.monthly
  {
    EarlierCutoffCountsMore(items, now - FIVE_HOURS, now - WEEK);
    EarlierCutoffCountsMore(items, now - WEEK, now - LOOKBACK);
  }

  lemma {:induction false} TotalOfConcat(xs: seq<Item>, ys: seq<Item>, cutoff: int)
    ensures Total(xs + ys, cutoff) == Total(xs, cutoff) + Total(ys, cutoff)
  {
    hide Counts;
    if ys == [] {
      assert xs + ys == xs;
    } else {
      assert (xs + ys)[..|xs + ys| - 1] == xs + ys[..|ys| - 1];
      TotalOfConcat(xs, ys[..|ys| - 1], cutoff);
    }
  }

  lemma NothingTotals(cutoff: int)
    ensures Total([], cutoff) == 0.0
  {
  }

  lemma OneTotal(x: Item, cutoff: int)
    ensures Total([x], cutoff) ==
              if x.created.Some? && x.cost.Some? && x.cost.value >= 0.0 && x.created.value > cutoff then x.cost.value
              else 0.0
  {
    assert [x][..0] == [];
  }

  /** What the totals are: nothing for no entries; for one entry its cost when it has a time and a
      cost that is not negative and is from the last five hours, seven days or thirty days, in
      seconds; and for two feeds together the sum of both. */
  lemma TotalsExactly(x: Item, xs: seq<Item>, ys: seq<Item>, now: int)
    ensures TotalsAt([], now) == Totals(0.0, 0.0, 0.0)
    ensures var t := TotalsAt([x], now);
            var cost := if x.created.Some? && x.cost.Some? && x.cost.value >= 0.0 then x.cost.value else 0.0;
            && t.fiveHour == (if x.created.Some? && x.created.value > now - 18000 then cost else 0.0)
            && t.weekly == (if x.created.Some? && x.created.value > now - 604800 then cost else 0.0)
            && t.monthly == (if x.created.Some? && x.created.value > now - 2592000 then cost else 0.0)
    ensures var a, b, both := TotalsAt(xs, now), TotalsAt(ys, now), TotalsAt(xs + ys, now);
            && both.fiveHour == a.fiveHour + b.fiveHour && both.weekly == a.weekly + b.weekly
            && both.monthly == a.monthly + b.monthly
  {
    hide Total;
    NothingTotals(now - FIVE_HOURS);
    NothingTotals(now - WEEK);
    NothingTotals(now - LOOKBACK);
    OneTotal(x, now - FIVE_HOURS);
    OneTotal(x, now - WEEK);
    OneTotal(x, now - LOOKBACK);
    TotalOfConcat(xs, ys, now - FIVE_HOURS);
    TotalOfConcat(xs, ys, now - WEEK);
    TotalOfConcat(xs, ys, now - LOOKBACK);
  }

  lemma {:induction false} OldItemsCountNothing(items: seq<Item>, cutoff: int)
    requires forall x | x in items && x.created.Some? :: x.created.value <= cutoff
    ensures Total(items, cutoff) == 0.0
  {
    if items == [] {
    } else {
      assert forall x | x in items[..|items| - 1] :: x in items;
      OldItemsCountNothing(items[..|items| - 1], cutoff);
      assert items[|items| - 1] in items;
    }
  }

  /* ---------- the whole feed ---------- */

  /** `pages` is everything the server has from the cursor on: each page's token leads to the
      next, and only the last page has none. */
  ghost predicate Feed(server: Server, cursor: string, pages: seq<Page>)
    decreases |pages|
  {
    && pages != [] && server(cursor) == Some(pages[0])
    && (if pages[0].next == "" then |pages| == 1 else Feed(server, pages[0].next, pages[1..]))
  }

  function Everything(pages: seq<Page>): seq<Item> {
    if pages == [] then [] else pages[0].items + Everything(pages[1..])
  }

  /** Dated items come newest first. */
  ghost predicate NewestFirst(items: seq<Item>) {
    forall i, j | 0 <= i < j < |items| && items[i].created.Some? && items[j].created.Some? ::
      items[j].created.value <= items[i].created.value
  }

  ghost predicate NoEmptyPageBeforeEnd(pages: seq<Page>) {
    forall i | 0 <= i < |pages| - 1 :: pages[i].items != []
  }

  /** The loop ends by its own test and not by the page limit. */
  predicate EndsEarly(server: Server, cursor: string, page: nat, now: int)
    decreases MAXIMUM_PAGES - page
  {
    && page < MAXIMUM_PAGES && server(cursor).Some?
    && (Ends(server(cursor).value, now) || EndsEarly(server, server(cursor).value.next, page + 1, now))
  }

  /** What is collected is always a first part of the feed. */
  lemma {:induction false} CollectedIsPrefix(server: Server, cursor: string, pages: seq<Page>, page: nat, now: int)
    requires Feed(server, cursor, pages)
    ensures Collected(server, cursor, page, now).Some?
            && Collected(server, cursor, page, now).value <= Everything(pages)
    decreases MAXIMUM_PAGES - page
  {
    hide Ends;
    if page >= MAXIMUM_PAGES {
    } else {
      if Ends(pages[0], now) {
        assert pages[0].items <= Everything(pages);
      } else {
        LastPageEnds(pages[0], now);
        CollectedIsPrefix(server, pages[0].next, pages[1..], page + 1, now);
      }
    }
  }

  lemma LastPageEnds(p: Page, now: int)
    requires !Ends(p, now)
    ensures p.next != "" && p.items != []
  {
  }

  /** What is collected: the pages of the feed up to the first that ends the loop, at most ten. */
  lemma {:induction false} CollectedExactly(server: Server, cursor: string, pages: seq<Page>, page: nat, now: int,
      k: nat)
    requires Feed(server, cursor, pages) && 0 < k <= |pages| && page + k <= 10
    requires forall i | 0 <= i < k - 1 :: !Ends(pages[i], now)
    requires Ends(pages[k - 1], now) || page + k == 10
    ensures Collected(server, cursor, page, now) == Some(Everything(pages[..k]))
    decreases k
  {
    hide Ends;
    assert pages[..k][0] == pages[0] && pages[..k][1..] == pages[1..][..k - 1];
    if k == 1 {
      assert Everything(pages[..1][1..]) == [];
      assert pages[0].items + [] == pages[0].items;
    } else {
      LastPageEnds(pages[0], now);
      CollectedExactly(server, pages[0].next, pages[1..], page + 1, now, k - 1);
    }
  }

  /** Pages that do not end the loop lead from one cursor to another. */
  ghost predicate Leads(server: Server, cursor: string, pages: seq<Page>, next: string, now: int)
    decreases |pages|
  {
    if pages == [] then next == cursor
    else
      && server(cursor) == Some(pages[0]) && !Ends(pages[0], now)
      && Leads(server, pages[0].next, pages[1..], next, now)
  }

  /** A page that cannot be fetched fails the whole query. */
  lemma {:induction false} FailedPageFails(server: Server, cursor: string, pages: seq<Page>, next: string, page: nat,
      now: int)
    requires page + |pages| < 10 && Leads(server, cursor, pages, next, now) && server(next).None?
    ensures Collected(server, cursor, page, now).None?
    decreases |pages|
  {
    hide Ends;
    if pages == [] {
    } else {
      FailedPageFails(server, pages[0].next, pages[1..], next, page + 1, now);
    }
  }

  /** Whatever stops the loop, no total is more than that of the whole feed. */
  lemma CollectedNeverExceeds(server: Server, pages: seq<Page>, now: int, later: int)
    requires Feed(server, "", pages)
    ensures var items := Collected(server, "", 0, now);
            && items.Some?
            && TotalsAt(items.value, later).fiveHour <= TotalsAt(Everything(pages), later).fiveHour
            && TotalsAt(items.value, later).weekly <= TotalsAt(Everything(pages), later).weekly
            && TotalsAt(items.value, later).monthly <= TotalsAt(Everything(pages), later).monthly
  {
    hide Collected, Feed, Everything, Total;
    CollectedIsPrefix(server, "", pages, 0, now);
    var items, all := Collected(server, "", 0, now).value, Everything(pages);
    var rest := all[|items|..];
    assert all == items + rest;
    TotalOfConcat(items, rest, later - FIVE_HOURS);
    TotalOfConcat(items, rest, later - WEEK);
    TotalOfConcat(items, rest, later - LOOKBACK);
  }

  /** What is left out when the loop ends by its own test is too old for every total. */
  lemma {:induction false} OnlyOldIsLeftOut(server: Server, cursor: string, pages: seq<Page>, page: nat, now: int)
    returns (rest: seq<Item>)
    requires Feed(server, cursor, pages) && NewestFirst(Everything(pages)) && NoEmptyPageBeforeEnd(pages)
    requires EndsEarly(server, cursor, page, now)
    ensures Collected(server, cursor, page, now).Some?
    ensures Everything(pages) == Collected(server, cursor, page, now).value + rest
    ensures forall x | x in rest && x.created.Some? :: x.created.value <= now - LOOKBACK
    decreases MAXIMUM_PAGES - page
  {
    hide Ends;
    var p := pages[0];
    if Ends(p, now) {
      rest := Everything(pages[1..]);
      EndedPage(pages, now);
    } else {
      LastPageEnds(p, now);
      var later := pages[1..];
      TailOfFeed(pages);
      rest := OnlyOldIsLeftOut(server, p.next, later, page + 1, now);
      assert p.items + (Collected(server, p.next, page + 1, now).value + rest)
          == (p.items + Collected(server, p.next, page + 1, now).value) + rest;
    }
  }

  lemma TailOfFeed(pages: seq<Page>)
    requires pages != [] && NewestFirst(Everything(pages)) && NoEmptyPageBeforeEnd(pages)
    ensures NewestFirst(Everything(pages[1..])) && NoEmptyPageBeforeEnd(pages[1..])
  {
    var all, rest, n := Everything(pages), Everything(pages[1..]), |pages[0].items|;
    assert forall i | 0 <= i < |rest| :: rest[i] == all[n + i];
    assert forall i | 0 <= i < |pages[1..]| :: pages[1..][i] == pages[i + 1];
  }

  /** Behind a page that ends the loop there is nothing, or nothing recent. */
  lemma {:induction false} EndedPage(pages: seq<Page>, now: int)
    requires pages != [] && Ends(pages[0], now) && (pages[0].next == "" ==> |pages| == 1)
    requires NewestFirst(Everything(pages)) && NoEmptyPageBeforeEnd(pages)
    ensures forall x | x in Everything(pages[1..]) && x.created.Some? :: x.created.value <= now - LOOKBACK
  {
    var p, rest, all := pages[0], Everything(pages[1..]), Everything(pages);
    if |pages| == 1 {
      assert rest == [];
    } else {
      assert p.items != [];
      var t := Oldest(p.items);
      var y :| y in p.items && y.created == Some(t);
      var i :| 0 <= i < |p.items| && p.items[i] == y;
      assert all[i] == y;
      forall x | x in rest && x.created.Some? ensures x.created.value <= now - LOOKBACK {
        var j :| 0 <= j < |rest| && rest[j] == x;
        assert all[|p.items| + j] == x;
      }
    }
  }

  /** Stopping early loses nothing: when the feed is newest first, has no empty page before
      its end and the loop stops by its own test, all three totals are those of the whole
      feed, at the time of the query and at any later time. */
  lemma EarlyStopLosesNothing(server: Server, pages: seq<Page>, now: int, later: int)
    requires Feed(server, "", pages) && NewestFirst(Everything(pages)) && NoEmptyPageBeforeEnd(pages)
    requires EndsEarly(server, "", 0, now) && now <= later
    ensures Collected(server, "", 0, now).Some?
    ensures TotalsAt(Collected(server, "", 0, now).value, later) == TotalsAt(Everything(pages), later)
  {
    hide Collected, Feed, Everything, Total, EndsEarly, NewestFirst, NoEmptyPageBeforeEnd;
    var rest := OnlyOldIsLeftOut(server, "", pages, 0, now);
    var items := Collected(server, "", 0, now).value;
    TotalOfConcat(items, rest, later - FIVE_HOURS);
    TotalOfConcat(items, rest, later - WEEK);
    TotalOfConcat(items, rest, later - LOOKBACK);
    OldItemsCountNothing(rest, later - FIVE_HOURS);
    OldItemsCountNothing(rest, later - WEEK);
    OldItemsCountNothing(rest, later - LOOKBACK);
  }
}
