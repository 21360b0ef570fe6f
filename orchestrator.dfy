/**
 * The application: the crawl loop over days and changed items, driven by
 * the cache, the repository, the text extractor and the secret finder.
 * Its methods are proved to do what the functions of `IncrementalCrawl`
 * describe, so the properties proved about those hold of it.
 */
module Orchestrator {
  import opened Common
  import opened Records
  import opened Repository
  import opened KeyValueCache
  import opened IncrementalCrawl
  import PluginMajorFinder
  import CrawlProperties

  /** `_get_start_date`: the explicit start date, else the stored cursor, else the oldest creation date. */
  function StartDate(explicit: Option<int>, cursor: Option<int>, oldest: int): (d: int)
    ensures explicit.Some? ==> d == explicit.value
    ensures explicit.None? ==> d == (if cursor.Some? then cursor.value else oldest)
  {
    match explicit
    case Some(date) => date
    case None =>
      match cursor
      case Some(date) => date
      case None => oldest
  }

  /** The older generation's `_get_start_date`, which has no explicit start date. */
  function LegacyStartDate(cursor: Option<int>, oldest: int): int
  {
    if cursor.Some? then cursor.value else oldest
  }

  /** The older generation resumes exactly where the newer one does without an explicit start date. */
  lemma LegacyStartDateAgrees(cursor: Option<int>, oldest: int)
    ensures LegacyStartDate(cursor, oldest) == StartDate(None, cursor, oldest)
  {
  }

  /**
   * A crawl that reached `today` leaves the cursor at `today`, so the next
   * run without an explicit start date starts again at `today`: that day is
   * crawled twice, the days before it never again.
   */
  lemma ResumeAtLastDay(ctx: Context, store: Store, date: int, today: int, oldest: int)
    requires date <= today
    ensures StartDate(None, Crawl(ctx, store, date, today).store.cursor, oldest) == today
  {
    CrawlProperties.CrawlCursor(ctx, store, date, today);
  }

  /** The outer loop of the crawl after one more day: what is left to do starts a day later. */
  lemma CrawlAdvance(ctx: Context, total: Step, done: seq<Event>, before: Store, after: Store, t: seq<Event>, date: int, today: int)
    requires date <= today && Step(after, t) == DayStep(ctx, before, date)
    requires total == Step(Crawl(ctx, before, date, today).store, done + Crawl(ctx, before, date, today).trace)
    ensures total == Step(Crawl(ctx, after, date + 1, today).store, (done + t) + Crawl(ctx, after, date + 1, today).trace)
  {
    AppendAssoc(done, t, Crawl(ctx, after, date + 1, today).trace);
  }

  /** The crawl of the days from `date` through `today`, after the events `done`, completes `total`. */
  ghost predicate Completes(ctx: Context, total: Step, store: Store, done: seq<Event>, date: int, today: int)
  {
    total == Step(Crawl(ctx, store, date, today).store, done + Crawl(ctx, store, date, today).trace)
  }

  /** A Python set filled, one by one, from `xs`. */
  method SetOf(xs: seq<string>) returns (set_: seq<string>)
    ensures set_ == Dedup(xs)
  {
    set_ := [];
    var i := 0;
    while i < |xs|
      invariant 0 <= i <= |xs| && set_ == Dedup(xs[..i])
    {
      assert xs[..i + 1] == xs[..i] + [xs[i]];
      DedupSnoc(xs[..i], xs[i]);
      if xs[i] !in set_ {
        set_ := set_ + [xs[i]];
      }
      i := i + 1;
    }
    assert xs[..i] == xs;
  }

  /**
   * The loop over an item's findings: each loses the secrets already known
   * and what it keeps extends the known secrets.
   */
  method StripKnown(known: seq<string>, fs: seq<Finding>) returns (known': seq<string>, fs': seq<Finding>)
    ensures Filtered(known', fs') == FilterFindings(known, fs)
  {
    known', fs' := known, [];
    var i := 0;
    while i < |fs|
      invariant 0 <= i <= |fs| && Filtered(known', fs') == FilterFindings(known, fs[..i])
    {
      assert fs[..i + 1][..i] == fs[..i];
      var kept := Without(fs[i].secrets, known');
      fs' := fs' + [fs[i].(secrets := kept)];
      known' := known' + kept;
      i := i + 1;
    }
    assert fs[..i] == fs;
  }

  /** The loop that yields an item's findings with a non-empty secret. */
  method YieldNonEmpty(fs: seq<Finding>) returns (events: seq<Event>)
    ensures events == YieldEvents(fs)
  {
    events := [];
    var i := 0;
    while i < |fs|
      invariant 0 <= i <= |fs| && events == YieldEvents(fs[..i])
    {
      assert fs[..i + 1][..i] == fs[..i];
      if AnyTruthy(fs[i].secrets) {
        events := events + [Yielded(fs[i])];
      }
      i := i + 1;
    }
    assert fs[..i] == fs;
  }

  /** The crawl's view of the wiki `site`, with the given text extractor and secret finder. */
  function SiteContext(site: Site, extract: (ContentInfo, VersionInfo) -> string, finder: string -> seq<string>): (ctx: Context)
    ensures forall date :: ctx.contentOn(date) == ContentOn(site, date)
    ensures forall item :: ctx.versionsOf(item) == VersionsOf(site, item)
    ensures ctx.extract == extract && ctx.finder == finder
  {
    Context(date => ContentOn(site, date), item => VersionsOf(site, item), extract, finder)
  }

  class App {
    /** The repository, the text extractor and the secret finder, as the crawl consults them. */
    const ctx: Context
    /** The start date given on the command line, if any. */
    const startDate: Option<int>
    /** What `get_oldest_content_creation_date` answers. */
    const oldest: int
    const cache: Cache

    ghost predicate Valid()
      reads this, cache
    {
      cache.Valid() && cache.Typed()
    }

    constructor (site: Site, extract: (ContentInfo, VersionInfo) -> string, finder: PluginMajorFinder.SecretFinder,
                 startDate: Option<int>, oldest: int, cache: Cache)
      requires cache.Valid() && cache.Typed()
      ensures Valid()
      ensures ctx == SiteContext(site, extract, text => finder.Secrets(text))
      ensures this.startDate == startDate && this.oldest == oldest && this.cache == cache
    {
      this.ctx := SiteContext(site, extract, text => finder.Secrets(text));
      this.startDate := startDate;
      this.oldest := oldest;
      this.cache := cache;
    }

    /** `__exit__`: closes the cache. */
    method Exit()
      modifies cache`closed
      ensures cache.closed == old(cache.closed) + old(cache.tables).Values
    {
      cache.Close();
    }

    /** `get_secrets_from_versions`: the versions above `watermark`, extracted and searched. */
    method GetSecretsFromVersions(item: ContentInfo, watermark: int) returns (findings: seq<Finding>, trace: seq<Event>)
      ensures Scan(findings, trace) == ScanVersions(ctx, item, ctx.versionsOf(item), watermark)
    {
      var versions := ctx.versionsOf(item);
      findings, trace := [], [];
      var i := 0;
      while i < |versions|
        invariant 0 <= i <= |versions|
        invariant Scan(findings, trace) == ScanVersions(ctx, item, versions[..i], watermark)
      {
        var v := versions[i];
        assert versions[..i + 1][..i] == versions[..i];
        if v.id > watermark {
          var text := ctx.extract(item, v);
          trace := trace + [Extracted(item, v)];
          var secrets := SetOf(ctx.finder(text));
          if AnyTruthy(secrets) {
            findings := findings + [Finding(item, v, secrets)];
          }
        }
        i := i + 1;
      }
      assert versions[..i] == versions;
    }

    /** The body of the loop over a day's changed items. */
    method ProcessItem(item: ContentInfo) returns (trace: seq<Event>)
      requires Valid()
      modifies cache
      ensures Valid()
      ensures Step(cache.Snapshot(), trace) == ItemStep(ctx, old(cache.Snapshot()), item)
    {
      ghost var before := cache.Snapshot();
      var stored := cache.GetCrawlHistory(item.id);
      var history: CrawlHistory;
      var findings: seq<Finding> := [];
      trace := [];
      if stored.Some? {
        history := stored.value;
        if history.latestVersion != item.latestVersion {
          findings, trace := GetSecretsFromVersions(item, history.latestVersion);
        }
      } else {
        findings, trace := GetSecretsFromVersions(item, 0);
        history := FreshHistory;
      }
      assert Scan(findings, trace) == ItemScan(ctx, before, item);
      var known, filtered := StripKnown(history.secrets, findings);
      history := CrawlHistory(item.latestVersion, known);
      cache.SetCrawlHistory(item.id, history);
      var events := YieldNonEmpty(filtered);
      trace := trace + [WroteHistory(item.id, history)] + events;
    }

    /** The body of the loop over days: the day's changed items, then the cursor set to that day. */
    method ProcessDay(date: int) returns (trace: seq<Event>)
      requires Valid()
      modifies cache
      ensures Valid()
      ensures Step(cache.Snapshot(), trace) == DayStep(ctx, old(cache.Snapshot()), date)
    {
      ghost var start := cache.Snapshot();
      var items := ctx.contentOn(date);
      trace := [];
      var i := 0;
      while i < |items|
        invariant 0 <= i <= |items| && Valid()
        invariant Step(cache.Snapshot(), trace) == ItemsStep(ctx, start, items[..i])
      {
        var t := ProcessItem(items[i]);
        assert items[..i + 1][..i] == items[..i];
        trace := trace + t;
        i := i + 1;
      }
      assert items[..i] == items;
      cache.SetLastCrawlDate(date);
      trace := trace + [WroteCursor(date)];
    }

    /**
     * One turn of the loop over days: with `done` the events so far and
     * `total` what the whole crawl produces, the day's events `t` leave the
     * crawl from the next day to produce the rest.
     */
    method CrawlDay(date: int, today: int, ghost total: Step, ghost done: seq<Event>, ghost store: Store) returns (t: seq<Event>)
      requires Valid() && store == cache.Snapshot() && date <= today
      requires Completes(ctx, total, store, done, date, today)
      modifies cache
      ensures Valid()
      ensures Completes(ctx, total, cache.Snapshot(), done + t, date + 1, today)
    {
      t := ProcessDay(date);
      CrawlAdvance(ctx, total, done, store, cache.Snapshot(), t, date, today);
    }

    /** `find_secrets_from_date`: every day from `date` to `today`, in order. */
    method FindSecretsFromDate(date: int, today: int) returns (findings: seq<Finding>, trace: seq<Event>)
      requires Valid()
      modifies cache
      ensures Valid()
      ensures Step(cache.Snapshot(), trace) == Crawl(ctx, old(cache.Snapshot()), date, today)
      ensures findings == Findings(trace)
    {
      ghost var store := cache.Snapshot();
      ghost var total := Crawl(ctx, store, date, today);
      var d := date;
      trace := [];
      assert trace + total.trace == total.trace;
      while d <= today
        invariant Valid() && store == cache.Snapshot()
        invariant Completes(ctx, total, store, trace, d, today)
        decreases if d <= today then today - d + 1 else 0
      {
        var t := CrawlDay(d, today, total, trace, store);
        store := cache.Snapshot();
        trace := trace + t;
        d := d + 1;
      }
      assert trace + [] == trace;
      findings := Findings(trace);
    }

    /** `_get_start_date`. */
    method GetStartDate() returns (d: int)
      requires Valid()
      modifies cache
      ensures Valid() && cache.Snapshot() == old(cache.Snapshot())
      ensures d == StartDate(startDate, cache.Snapshot().cursor, oldest)
    {
      if startDate.Some? {
        return startDate.value;
      }
      var cached := cache.GetLastCrawlDate();
      if cached.Some? {
        return cached.value;
      }
      return oldest;
    }

    /** `find_secrets`: the crawl from the start date to `today`. */
    method FindSecrets(today: int) returns (findings: seq<Finding>, trace: seq<Event>)
      requires Valid()
      modifies cache
      ensures Valid()
      ensures Step(cache.Snapshot(), trace) ==
        Crawl(ctx, old(cache.Snapshot()), StartDate(startDate, old(cache.Snapshot()).cursor, oldest), today)
      ensures findings == Findings(trace)
    {
      var start := GetStartDate();
      findings, trace := FindSecretsFromDate(start, today);
    }
  }
}
