/**
 * What a whole crawl guarantees: histories only grow, a secret is reported
 * at most once per item (within the crawl and with respect to what earlier
 * crawls recorded), every report has a non-empty secret, and the cursor is
 * written once per day, in order, after that day's items.
 */
module CrawlProperties {
  import opened Common
  import opened Records
  import opened KeyValueCache
  import opened IncrementalCrawl

  /** Every history of `s0` is still in `s`, with its secrets as a prefix. */
  ghost predicate Grows(s0: Store, s: Store)
  {
    forall id :: id in s0.histories ==> id in s.histories && s0.histories[id].secrets <= s.histories[id].secrets
  }

  /** Every secret reported in `t` is in the history of its item in `s`. */
  ghost predicate Recorded(s: Store, t: seq<Event>)
  {
    forall e, x :: e in t && e.Yielded? && x in e.finding.secrets ==>
      e.finding.content.id in s.histories && x in s.histories[e.finding.content.id].secrets
  }

  /** No secret is reported twice for the same item. */
  ghost predicate ReportedOnce(t: seq<Event>)
  {
    forall i, j, x ::
      0 <= i < j < |t| && t[i].Yielded? && t[j].Yielded?
      && t[i].finding.content.id == t[j].finding.content.id && x in t[j].finding.secrets
      ==> x !in t[i].finding.secrets
  }

  /** No secret reported in `t` was already in its item's history in `s0`. */
  ghost predicate New(s0: Store, t: seq<Event>)
  {
    forall e, x :: e in t && e.Yielded? && x in e.finding.secrets && e.finding.content.id in s0.histories ==>
      x !in s0.histories[e.finding.content.id].secrets
  }

  /** Every report has a non-empty secret. */
  ghost predicate NonEmptyReports(t: seq<Event>)
  {
    forall e :: e in t && e.Yielded? ==> AnyTruthy(e.finding.secrets)
  }

  /** What holds of a crawl that started in `s0`, has reached `s` and has produced `t`. */
  ghost predicate Sound(s0: Store, s: Store, t: seq<Event>)
  {
    Grows(s0, s) && Recorded(s, t) && ReportedOnce(t) && New(s0, t) && NonEmptyReports(t)
  }

  /** Two traces, each reporting a secret at most once per item, and no report of the second repeating one of the first. */
  lemma ReportedOnceAppend(t1: seq<Event>, t2: seq<Event>)
    requires ReportedOnce(t1) && ReportedOnce(t2)
    requires forall e1, e2, x ::
      (e1 in t1 && e2 in t2 && e1.Yielded? && e2.Yielded? && e1.finding.content.id == e2.finding.content.id
       && x in e2.finding.secrets) ==> x !in e1.finding.secrets
    ensures ReportedOnce(t1 + t2)
  {
    var t := t1 + t2;
    forall i, j, x | 0 <= i < j < |t| && t[i].Yielded? && t[j].Yielded?
      && t[i].finding.content.id == t[j].finding.content.id && x in t[j].finding.secrets
      ensures x !in t[i].finding.secrets
    {
      if j < |t1| {
        assert t[i] == t1[i] && t[j] == t1[j];
      } else if i >= |t1| {
        assert t[i] == t2[i - |t1|] && t[j] == t2[j - |t1|];
      } else {
        assert t[i] == t1[i] && t1[i] in t1;
        assert t[j] == t2[j - |t1|] && t2[j - |t1|] in t2;
      }
    }
  }

  /** The trace of one item reports a secret at most once. */
  lemma ItemStepReportedOnce(ctx: Context, store: Store, item: ContentInfo)
    ensures ReportedOnce(ItemStep(ctx, store, item).trace)
  {
    var scan := ItemScan(ctx, store, item).trace;
    var w := WroteHistory(item.id, ItemStep(ctx, store, item).store.histories[item.id]);
    var ys := ItemYields(ctx, store, item);
    ItemScanSpec(ctx, store, item);
    ItemStepTrace(ctx, store, item);
    ItemYieldsDisjoint(ctx, store, item);
    assert forall e :: e in scan + [w] ==> !e.Yielded?;
    ReportedOnceAppend(scan + [w], ys);
  }

  /** A trace made of an earlier trace and one item's: the item's reports are in its trace's yields. */
  lemma ItemReports(ctx: Context, store: Store, item: ContentInfo, e: Event)
    requires e in ItemStep(ctx, store, item).trace && e.Yielded?
    ensures e in ItemYields(ctx, store, item)
  {
    ItemScanSpec(ctx, store, item);
    ItemStepTrace(ctx, store, item);
  }

  /** Processing one more item keeps a crawl sound. */
  lemma ItemStepSound(ctx: Context, s0: Store, s: Store, t: seq<Event>, item: ContentInfo)
    requires Sound(s0, s, t)
    ensures Sound(s0, ItemStep(ctx, s, item).store, t + ItemStep(ctx, s, item).trace)
  {
    var step := ItemStep(ctx, s, item);
    ItemStepHistory(ctx, s, item);
    assert Grows(s, step.store);
    ItemYieldsSpec(ctx, s, item);
    ItemYieldsRecorded(ctx, s, item);
    ItemStepReportedOnce(ctx, s, item);
    forall e | e in step.trace && e.Yielded?
      ensures e in ItemYields(ctx, s, item)
    {
      ItemReports(ctx, s, item, e);
    }
    RecordedStep(s, step.store, t, step.trace);
    ReportedOnceAppend(t, step.trace);
  }

  /** Recorded reports stay recorded as histories grow, and new reports recorded in the new state are too. */
  lemma RecordedStep(s: Store, s': Store, t: seq<Event>, u: seq<Event>)
    requires Recorded(s, t) && Grows(s, s') && Recorded(s', u)
    ensures Recorded(s', t + u)
  {
    forall e, x | e in t && e.Yielded? && x in e.finding.secrets
      ensures x in s'.histories[e.finding.content.id].secrets
    {
      var id := e.finding.content.id;
      assert s.histories[id].secrets <= s'.histories[id].secrets;
      var k :| 0 <= k < |s.histories[id].secrets| && s.histories[id].secrets[k] == x;
      assert s'.histories[id].secrets[k] == x;
    }
  }

  /** Writing the cursor keeps a crawl sound. */
  lemma CursorWriteSound(s0: Store, s: Store, t: seq<Event>, date: int)
    requires Sound(s0, s, t)
    ensures Sound(s0, s.(cursor := Some(date)), t + [WroteCursor(date)])
  {
    ReportedOnceAppend(t, [WroteCursor(date)]);
  }

  /** Processing a day's items keeps a crawl sound. */
  lemma {:induction false} ItemsStepSound(ctx: Context, s0: Store, s: Store, t: seq<Event>, items: seq<ContentInfo>)
    requires Sound(s0, s, t)
    ensures Sound(s0, ItemsStep(ctx, s, items).store, t + ItemsStep(ctx, s, items).trace)
    decreases |items|
  {
    if items != [] {
      var prev := ItemsStep(ctx, s, items[..|items| - 1]);
      ItemsStepSound(ctx, s0, s, t, items[..|items| - 1]);
      ItemStepSound(ctx, s0, prev.store, t + prev.trace, items[|items| - 1]);
      AppendAssoc(t, prev.trace, ItemStep(ctx, prev.store, items[|items| - 1]).trace);
    }
  }

  /**
   * A crawl over any range of days, from any state, reports each secret at
   * most once per item, never one its item's history already held, always
   * with a non-empty secret, records every reported secret, and only
   * appends to histories.
   */
  lemma {:induction false} CrawlSound(ctx: Context, s0: Store, s: Store, t: seq<Event>, date: int, today: int)
    requires Sound(s0, s, t)
    ensures Sound(s0, Crawl(ctx, s, date, today).store, t + Crawl(ctx, s, date, today).trace)
    decreases if date <= today then today - date + 1 else 0
  {
    if date <= today {
      var items := ItemsStep(ctx, s, ctx.contentOn(date));
      var day := DayStep(ctx, s, date);
      ItemsStepSound(ctx, s0, s, t, ctx.contentOn(date));
      CursorWriteSound(s0, items.store, t + items.trace, date);
      AppendAssoc(t, items.trace, [WroteCursor(date)]);
      CrawlSound(ctx, s0, day.store, t + day.trace, date + 1, today);
      AppendAssoc(t, day.trace, Crawl(ctx, day.store, date + 1, today).trace);
    } else {
      assert t + [] == t;
    }
  }

  /** The guarantees of a crawl from its starting state. */
  lemma CrawlGuarantees(ctx: Context, store: Store, date: int, today: int)
    ensures var r := Crawl(ctx, store, date, today);
      && ReportedOnce(r.trace) && New(store, r.trace) && NonEmptyReports(r.trace)
      && Recorded(r.store, r.trace) && Grows(store, r.store)
  {
    CrawlSound(ctx, store, store, [], date, today);
    assert [] + Crawl(ctx, store, date, today).trace == Crawl(ctx, store, date, today).trace;
  }

  // ---------------------------------------------------------------------
  // The cursor
  // ---------------------------------------------------------------------

  /** The dates the trace writes as the cursor, in order. */
  function CursorWrites(t: seq<Event>): seq<int>
    decreases |t|
  {
    if t == [] then []
    else CursorWrites(t[..|t| - 1]) + if t[|t| - 1].WroteCursor? then [t[|t| - 1].date] else []
  }

  /** The dates from `a` to `b` inclusive. */
  function Days(a: int, b: int): (ds: seq<int>)
    ensures |ds| == if a <= b then b - a + 1 else 0
    ensures forall i :: 0 <= i < |ds| ==> ds[i] == a + i
    decreases if a <= b then b - a + 1 else 0
  {
    if a > b then [] else [a] + Days(a + 1, b)
  }

  lemma {:induction false} CursorWritesAppend(t: seq<Event>, u: seq<Event>)
    ensures CursorWrites(t + u) == CursorWrites(t) + CursorWrites(u)
    decreases |u|
  {
    if u == [] {
      assert t + u == t;
    } else {
      assert (t + u)[..|t + u| - 1] == t + u[..|u| - 1];
      CursorWritesAppend(t, u[..|u| - 1]);
    }
  }

  /** An item's processing writes no cursor. */
  lemma ItemStepNoCursor(ctx: Context, store: Store, item: ContentInfo)
    ensures CursorWrites(ItemStep(ctx, store, item).trace) == []
  {
    var t := ItemStep(ctx, store, item).trace;
    ItemStepOrder(ctx, store, item);
    NoCursorWrites(t);
  }

  lemma {:induction false} NoCursorWrites(t: seq<Event>)
    requires forall i :: 0 <= i < |t| ==> !t[i].WroteCursor?
    ensures CursorWrites(t) == []
    decreases |t|
  {
    if t != [] {
      NoCursorWrites(t[..|t| - 1]);
    }
  }

  /** A day's items write no cursor, and leave the cursor as it was. */
  lemma {:induction false} ItemsStepNoCursor(ctx: Context, store: Store, items: seq<ContentInfo>)
    ensures CursorWrites(ItemsStep(ctx, store, items).trace) == []
    ensures ItemsStep(ctx, store, items).store.cursor == store.cursor
    decreases |items|
  {
    if items != [] {
      var prev := ItemsStep(ctx, store, items[..|items| - 1]);
      ItemsStepNoCursor(ctx, store, items[..|items| - 1]);
      ItemStepNoCursor(ctx, prev.store, items[|items| - 1]);
      ItemStepHistory(ctx, prev.store, items[|items| - 1]);
      CursorWritesAppend(prev.trace, ItemStep(ctx, prev.store, items[|items| - 1]).trace);
    }
  }

  /**
   * The cursor is written once per day, for every day from the start date
   * to today in order, each time as the last action of its day; afterwards
   * it holds today (or is untouched when the range is empty).
   */
  lemma {:induction false} CrawlCursor(ctx: Context, store: Store, date: int, today: int)
    ensures CursorWrites(Crawl(ctx, store, date, today).trace) == Days(date, today)
    ensures Crawl(ctx, store, date, today).store.cursor == if date <= today then Some(today) else store.cursor
    decreases if date <= today then today - date + 1 else 0
  {
    if date <= today {
      var items := ItemsStep(ctx, store, ctx.contentOn(date));
      var day := DayStep(ctx, store, date);
      ItemsStepNoCursor(ctx, store, ctx.contentOn(date));
      CursorWritesAppend(items.trace, [WroteCursor(date)]);
      assert CursorWrites([WroteCursor(date)]) == [date];
      CrawlCursor(ctx, day.store, date + 1, today);
      CursorWritesAppend(day.trace, Crawl(ctx, day.store, date + 1, today).trace);
    }
  }

  /** A day's trace ends with its cursor write, and writes no other cursor before it. */
  lemma DayStepCursorLast(ctx: Context, store: Store, date: int)
    ensures var t := DayStep(ctx, store, date).trace;
      |t| > 0 && t[|t| - 1] == WroteCursor(date) && CursorWrites(t[..|t| - 1]) == []
  {
    var items := ItemsStep(ctx, store, ctx.contentOn(date));
    ItemsStepNoCursor(ctx, store, ctx.contentOn(date));
    assert DayStep(ctx, store, date).trace[..|items.trace|] == items.trace;
  }
}
