/**
 * The incremental crawl as a function of the wiki, the text extractor and
 * the secret finder: day after day, every changed item's versions above
 * its stored watermark are scanned, secrets already recorded for the item
 * are dropped, the item's history is extended and written, and the
 * remaining findings are yielded; after each day the cursor is written.
 *
 * Besides the final crawl state, every run produces the trace of what it
 * did, in order: which versions it extracted, which histories and cursors
 * it wrote and which findings it yielded.
 */
module IncrementalCrawl {
  import opened Common
  import opened Records
  import opened KeyValueCache

  /** One observable action of the crawl. */
  datatype Event =
    | Extracted(item: ContentInfo, version: VersionInfo)
    | WroteHistory(id: string, history: CrawlHistory)
    | Yielded(finding: Finding)
    | WroteCursor(date: int)

  /**
   * What the crawl consults: the content repository (the items changed on a
   * day, the versions of an item), the text of a version (the text
   * extractor) and the secrets of a text (the secret finder).
   */
  datatype Context = Context(
    contentOn: int -> seq<ContentInfo>,
    versionsOf: ContentInfo -> seq<VersionInfo>,
    extract: (ContentInfo, VersionInfo) -> string,
    finder: string -> seq<string>)

  /** A crawl state together with the trace that led to it. */
  datatype Step = Step(store: Store, trace: seq<Event>)

  /** The findings a trace yields, in order. */
  function Findings(trace: seq<Event>): (fs: seq<Finding>)
    ensures forall f :: f in fs <==> Yielded(f) in trace
    decreases |trace|
  {
    if trace == [] then []
    else
      var e := trace[|trace| - 1];
      assert forall x :: x in trace <==> x in trace[..|trace| - 1] || x == e;
      Findings(trace[..|trace| - 1]) + if e.Yielded? then [e.finding] else []
  }

  // ---------------------------------------------------------------------
  // get_secrets_from_versions
  // ---------------------------------------------------------------------

  /** The set of secrets the finder reports in one version's text. */
  function VersionSecrets(ctx: Context, item: ContentInfo, v: VersionInfo): (secrets: seq<string>)
    ensures NoDup(secrets)
    ensures forall x :: x in secrets <==> x in ctx.finder(ctx.extract(item, v))
  {
    Dedup(ctx.finder(ctx.extract(item, v)))
  }

  /** The findings of a version scan and the extractions it made. */
  datatype Scan = Scan(findings: seq<Finding>, trace: seq<Event>)

  /**
   * The versions `vs` of `item` above `watermark`, each extracted and
   * searched; a version yields a finding when some secret is non-empty.
   */
  function ScanVersions(ctx: Context, item: ContentInfo, vs: seq<VersionInfo>, watermark: int): Scan
    decreases |vs|
  {
    if vs == [] then Scan([], [])
    else
      var prev := ScanVersions(ctx, item, vs[..|vs| - 1], watermark);
      var v := vs[|vs| - 1];
      if v.id <= watermark then prev
      else
        var secrets := VersionSecrets(ctx, item, v);
        Scan(prev.findings + (if AnyTruthy(secrets) then [Finding(item, v, secrets)] else []),
             prev.trace + [Extracted(item, v)])
  }

  /**
   * Exactly the versions above the watermark are extracted: none at or
   * below it, every one above it.
   */
  lemma {:induction false} ScanVersionsExtracts(ctx: Context, item: ContentInfo, vs: seq<VersionInfo>, watermark: int)
    ensures forall e :: e in ScanVersions(ctx, item, vs, watermark).trace ==>
      e.Extracted? && e.item == item && e.version in vs && e.version.id > watermark
    ensures forall v :: v in vs && v.id > watermark ==> Extracted(item, v) in ScanVersions(ctx, item, vs, watermark).trace
    decreases |vs|
  {
    if vs != [] {
      var init := vs[..|vs| - 1];
      ScanVersionsExtracts(ctx, item, init, watermark);
      assert forall v :: v in vs <==> v in init || v == vs[|vs| - 1];
    }
  }

  /**
   * Every finding is for a version above the watermark, carries that
   * version's secrets and has a non-empty secret.
   */
  lemma {:induction false} ScanVersionsFindings(ctx: Context, item: ContentInfo, vs: seq<VersionInfo>, watermark: int)
    ensures forall f :: f in ScanVersions(ctx, item, vs, watermark).findings ==>
      && f.content == item && f.version in vs && f.version.id > watermark
      && f.secrets == VersionSecrets(ctx, item, f.version) && AnyTruthy(f.secrets)
    decreases |vs|
  {
    if vs != [] {
      var init := vs[..|vs| - 1];
      ScanVersionsFindings(ctx, item, init, watermark);
      assert forall v :: v in init ==> v in vs;
    }
  }

  // ---------------------------------------------------------------------
  // Dropping the secrets an item already has
  // ---------------------------------------------------------------------

  /** The elements of `xs` not in `known`, in order. */
  function Without(xs: seq<string>, known: seq<string>): (r: seq<string>)
    ensures forall x :: x in r <==> x in xs && x !in known
    ensures NoDup(xs) ==> NoDup(r)
    decreases |xs|
  {
    if xs == [] then []
    else
      var init, last := xs[..|xs| - 1], xs[|xs| - 1];
      assert forall x :: x in xs <==> x in init || x == last;
      Without(init, known) + if last in known then [] else [last]
  }

  /** The history's secrets after a run of findings, and the findings with known secrets dropped. */
  datatype Filtered = Filtered(known: seq<string>, findings: seq<Finding>)

  function SecretsOf(f: Finding): seq<string>
  {
    f.secrets
  }

  /**
   * Each finding in turn loses the secrets already known, including those
   * of the earlier findings, and what it keeps is appended to the known ones.
   */
  function FilterFindings(known: seq<string>, fs: seq<Finding>): (r: Filtered)
    ensures |r.findings| == |fs|
    decreases |fs|
  {
    if fs == [] then Filtered(known, [])
    else
      var prev := FilterFindings(known, fs[..|fs| - 1]);
      var f := fs[|fs| - 1];
      var kept := Without(f.secrets, prev.known);
      Filtered(prev.known + kept, prev.findings + [f.(secrets := kept)])
  }

  /** The history grows by exactly the secrets the filtered findings keep, in order. */
  lemma {:induction false} FilterFindingsKnown(known: seq<string>, fs: seq<Finding>)
    ensures FilterFindings(known, fs).known == known + FlatMap(SecretsOf, FilterFindings(known, fs).findings)
    decreases |fs|
  {
    if fs != [] {
      var prev := FilterFindings(known, fs[..|fs| - 1]);
      var r := FilterFindings(known, fs);
      FilterFindingsKnown(known, fs[..|fs| - 1]);
      assert r.findings[..|r.findings| - 1] == prev.findings;
      AppendAssoc(known, FlatMap(SecretsOf, prev.findings), Without(fs[|fs| - 1].secrets, prev.known));
    }
  }

  /**
   * Filtering keeps each finding's item and version and only secrets of
   * that finding that were not known before.
   */
  lemma {:induction false} FilterFindingsKept(known: seq<string>, fs: seq<Finding>)
    ensures forall i :: 0 <= i < |fs| ==> KeptFrom(known, fs[i], FilterFindings(known, fs).findings[i])
    decreases |fs|
  {
    if fs != [] {
      var init := fs[..|fs| - 1];
      var prev := FilterFindings(known, init);
      FilterFindingsKept(known, init);
      FilterFindingsKeeps(known, init);
      var r := FilterFindings(known, fs);
      var f := fs[|fs| - 1];
      assert r.findings == prev.findings + [f.(secrets := Without(f.secrets, prev.known))];
      forall i | 0 <= i < |fs|
        ensures KeptFrom(known, fs[i], r.findings[i])
      {
        if i < |init| {
          assert r.findings[i] == prev.findings[i] && fs[i] == init[i];
        } else {
          var g := r.findings[i];
          assert g == f.(secrets := Without(f.secrets, prev.known));
          forall x | x in g.secrets
            ensures x in f.secrets && x !in known
          {
            assert x !in prev.known;
          }
        }
      }
    }
  }

  /** `g` is `f` with only secrets of `f` that are not in `known`. */
  predicate KeptFrom(known: seq<string>, f: Finding, g: Finding)
  {
    && g.content == f.content && g.version == f.version
    && forall x :: x in g.secrets ==> x in f.secrets && x !in known
  }

  /** The known secrets stay known. */
  lemma {:induction false} FilterFindingsKeeps(known: seq<string>, fs: seq<Finding>)
    ensures forall x :: x in known ==> x in FilterFindings(known, fs).known
    decreases |fs|
  {
    if fs != [] {
      FilterFindingsKeeps(known, fs[..|fs| - 1]);
    }
  }

  /** The known secrets stay a prefix of the grown ones. */
  lemma {:induction false} FilterFindingsGrows(known: seq<string>, fs: seq<Finding>)
    ensures |known| <= |FilterFindings(known, fs).known|
    ensures FilterFindings(known, fs).known[..|known|] == known
    decreases |fs|
  {
    if fs != [] {
      FilterFindingsGrows(known, fs[..|fs| - 1]);
    }
  }

  /** Every secret of every finding ends up in the grown history. */
  lemma {:induction false} FilterFindingsCovers(known: seq<string>, fs: seq<Finding>)
    ensures forall i, x :: 0 <= i < |fs| && x in fs[i].secrets ==> x in FilterFindings(known, fs).known
    decreases |fs|
  {
    if fs != [] {
      var init := fs[..|fs| - 1];
      FilterFindingsCovers(known, init);
      assert forall i :: 0 <= i < |init| ==> fs[i] == init[i];
    }
  }

  /** A finding keeps no secret of an earlier finding: the findings' secrets are pairwise disjoint. */
  lemma {:induction false} FilterFindingsDisjoint(known: seq<string>, fs: seq<Finding>)
    ensures forall i, j, x :: 0 <= i < j < |FilterFindings(known, fs).findings| && x in FilterFindings(known, fs).findings[j].secrets ==>
      x !in FilterFindings(known, fs).findings[i].secrets
    decreases |fs|
  {
    if fs != [] {
      var init := fs[..|fs| - 1];
      var prev := FilterFindings(known, init);
      var r := FilterFindings(known, fs);
      FilterFindingsDisjoint(known, init);
      FilterFindingsKnown(known, init);
      assert forall i :: 0 <= i < |init| ==> r.findings[i] == prev.findings[i];
      forall i, x | 0 <= i < |init| && x in prev.findings[i].secrets
        ensures x in prev.known
      {
        FlatMapHas(SecretsOf, prev.findings, i, x);
      }
    }
  }

  /** When the known secrets and every finding's secrets are duplicate-free, so is the grown history. */
  lemma {:induction false} FilterFindingsNoDup(known: seq<string>, fs: seq<Finding>)
    requires NoDup(known)
    requires forall i :: 0 <= i < |fs| ==> NoDup(fs[i].secrets)
    ensures NoDup(FilterFindings(known, fs).known)
    decreases |fs|
  {
    if fs != [] {
      var init := fs[..|fs| - 1];
      var prev := FilterFindings(known, init);
      var kept := Without(fs[|fs| - 1].secrets, prev.known);
      FilterFindingsNoDup(known, init);
      NoDupAppend(prev.known, kept);
    }
  }

  /** The findings worth yielding: those with a non-empty secret. */
  function YieldEvents(fs: seq<Finding>): (es: seq<Event>)
    ensures forall e :: e in es <==> e.Yielded? && e.finding in fs && AnyTruthy(e.finding.secrets)
    decreases |fs|
  {
    if fs == [] then []
    else
      var f := fs[|fs| - 1];
      assert forall x :: x in fs <==> x in fs[..|fs| - 1] || x == f;
      YieldEvents(fs[..|fs| - 1]) + if AnyTruthy(f.secrets) then [Yielded(f)] else []
  }

  // ---------------------------------------------------------------------
  // find_secrets_from_date
  // ---------------------------------------------------------------------

  /** The history of an item: the stored one, or a fresh one for an item seen for the first time. */
  function StoredHistory(store: Store, item: ContentInfo): CrawlHistory
  {
    if item.id in store.histories then store.histories[item.id] else FreshHistory
  }

  /** The watermark an item's versions are compared with. */
  function Watermark(store: Store, item: ContentInfo): int
  {
    StoredHistory(store, item).latestVersion
  }

  /** The item was seen before and its stored version is its latest one. */
  predicate Unchanged(store: Store, item: ContentInfo)
  {
    item.id in store.histories && store.histories[item.id].latestVersion == item.latestVersion
  }

  /**
   * The version scan of one changed item: all its versions against
   * watermark 0 when it has no history, those above the stored version when
   * that differs from the latest one, none otherwise.
   */
  function ItemScan(ctx: Context, store: Store, item: ContentInfo): Scan
  {
    if item.id !in store.histories then ScanVersions(ctx, item, ctx.versionsOf(item), 0)
    else if store.histories[item.id].latestVersion != item.latestVersion then
      ScanVersions(ctx, item, ctx.versionsOf(item), store.histories[item.id].latestVersion)
    else Scan([], [])
  }

  /**
   * Only versions of the item above its watermark are extracted, none for an
   * unchanged item; every finding is about the item, for a version above the
   * watermark, with duplicate-free secrets of which one is non-empty.
   */
  lemma ItemScanSpec(ctx: Context, store: Store, item: ContentInfo)
    ensures forall e :: e in ItemScan(ctx, store, item).trace ==>
      e.Extracted? && e.item == item && e.version in ctx.versionsOf(item) && e.version.id > Watermark(store, item)
    ensures Unchanged(store, item) ==> ItemScan(ctx, store, item) == Scan([], [])
    ensures forall f :: f in ItemScan(ctx, store, item).findings ==>
      && f.content == item && f.version in ctx.versionsOf(item) && f.version.id > Watermark(store, item)
      && NoDup(f.secrets) && AnyTruthy(f.secrets)
  {
    ScanVersionsExtracts(ctx, item, ctx.versionsOf(item), Watermark(store, item));
    ScanVersionsFindings(ctx, item, ctx.versionsOf(item), Watermark(store, item));
  }

  /**
   * One changed item: its versions are scanned, known secrets are dropped,
   * the history is extended, stamped with the item's latest version and
   * written, then the findings with a non-empty secret are yielded.
   */
  function ItemStep(ctx: Context, store: Store, item: ContentInfo): Step
  {
    var history := StoredHistory(store, item);
    var scan := ItemScan(ctx, store, item);
    var filtered := FilterFindings(history.secrets, scan.findings);
    var written := CrawlHistory(item.latestVersion, filtered.known);
    Step(store.(histories := store.histories[item.id := written]),
         scan.trace + [WroteHistory(item.id, written)] + YieldEvents(filtered.findings))
  }

  /** The items of one day, in the order the search returned them. */
  function ItemsStep(ctx: Context, store: Store, items: seq<ContentInfo>): Step
    decreases |items|
  {
    if items == [] then Step(store, [])
    else
      var prev := ItemsStep(ctx, store, items[..|items| - 1]);
      var next := ItemStep(ctx, prev.store, items[|items| - 1]);
      Step(next.store, prev.trace + next.trace)
  }

  /** One day: its changed items, then the cursor set to that day. */
  function DayStep(ctx: Context, store: Store, date: int): Step
  {
    var items := ItemsStep(ctx, store, ctx.contentOn(date));
    Step(items.store.(cursor := Some(date)), items.trace + [WroteCursor(date)])
  }

  /** Every day from `date` to `today` inclusive, in order. */
  function Crawl(ctx: Context, store: Store, date: int, today: int): Step
    decreases if date <= today then today - date + 1 else 0
  {
    if date > today then Step(store, [])
    else
      var day := DayStep(ctx, store, date);
      var rest := Crawl(ctx, day.store, date + 1, today);
      Step(rest.store, day.trace + rest.trace)
  }

  // ---------------------------------------------------------------------
  // What one item's processing guarantees
  // ---------------------------------------------------------------------

  /** Only versions above the watermark are extracted, and none for an unchanged item. */
  lemma ItemStepExtracts(ctx: Context, store: Store, item: ContentInfo)
    ensures forall e :: e in ItemStep(ctx, store, item).trace && e.Extracted? ==>
      e.item == item && e.version in ctx.versionsOf(item) && e.version.id > Watermark(store, item)
    ensures Unchanged(store, item) ==> forall e :: e in ItemStep(ctx, store, item).trace ==> !e.Extracted?
  {
    ItemScanSpec(ctx, store, item);
  }

  /**
   * An unchanged item: nothing is scanned or yielded, the unchanged
   * history is written back and the state stays as it was.
   */
  lemma ItemStepUnchanged(ctx: Context, store: Store, item: ContentInfo)
    requires Unchanged(store, item)
    ensures ItemStep(ctx, store, item) == Step(store, [WroteHistory(item.id, store.histories[item.id])])
  {
    var h := store.histories[item.id];
    ItemScanSpec(ctx, store, item);
    assert FilterFindings(h.secrets, []) == Filtered(h.secrets, []);
    assert store.histories[item.id := h] == store.histories;
  }

  /**
   * The item's history is written with the item's latest version as its
   * watermark and the old secrets as a prefix of the new ones; the other
   * items' histories and the cursor stay as they were.
   */
  lemma ItemStepHistory(ctx: Context, store: Store, item: ContentInfo)
    ensures var s := ItemStep(ctx, store, item).store;
      && item.id in s.histories
      && s.histories[item.id].latestVersion == item.latestVersion
      && (item.id in store.histories ==>
            var old_ := store.histories[item.id].secrets;
            |old_| <= |s.histories[item.id].secrets| && s.histories[item.id].secrets[..|old_|] == old_)
      && s.histories.Keys == store.histories.Keys + {item.id}
      && (forall id :: id in store.histories && id != item.id ==> s.histories[id] == store.histories[id])
      && s.cursor == store.cursor
  {
    FilterFindingsGrows(StoredHistory(store, item).secrets, ItemScan(ctx, store, item).findings);
  }

  /** The yields of an item's processing. */
  function ItemYields(ctx: Context, store: Store, item: ContentInfo): seq<Event>
  {
    YieldEvents(FilterFindings(StoredHistory(store, item).secrets, ItemScan(ctx, store, item).findings).findings)
  }

  /** An item's trace: its extractions, its history write, its yields. */
  lemma ItemStepTrace(ctx: Context, store: Store, item: ContentInfo)
    ensures var step := ItemStep(ctx, store, item);
      step.trace == ItemScan(ctx, store, item).trace + [WroteHistory(item.id, step.store.histories[item.id])] + ItemYields(ctx, store, item)
  {
  }

  /**
   * A trace made of extractions, one write and yields has the write at the
   * position after the extractions, and its yields are those of the last part.
   */
  lemma TraceShape(scan: seq<Event>, w: Event, ys: seq<Event>)
    requires forall e :: e in scan ==> e.Extracted?
    requires forall e :: e in ys ==> e.Yielded?
    requires w.WroteHistory?
    ensures var t := scan + [w] + ys;
      && t[|scan|] == w
      && (forall i :: 0 <= i < |scan| ==> t[i].Extracted?)
      && (forall i :: |scan| < i < |t| ==> t[i].Yielded?)
      && (forall e :: e in t && e.Yielded? ==> e in ys)
  {
    var t := scan + [w] + ys;
    assert forall i :: 0 <= i < |scan| ==> t[i] == scan[i] && scan[i] in scan;
    assert forall i :: |scan| < i < |t| ==> t[i] == ys[i - |scan| - 1] && ys[i - |scan| - 1] in ys;
  }

  /**
   * The history is written before any finding is yielded: the trace is the
   * extractions, then the one history write, then the yields.
   */
  lemma ItemStepOrder(ctx: Context, store: Store, item: ContentInfo)
    ensures var t := ItemStep(ctx, store, item).trace;
      exists k :: 0 <= k < |t|
        && t[k] == WroteHistory(item.id, ItemStep(ctx, store, item).store.histories[item.id])
        && (forall i :: 0 <= i < k ==> t[i].Extracted?)
        && (forall i :: k < i < |t| ==> t[i].Yielded?)
  {
    var scan := ItemScan(ctx, store, item).trace;
    var w := WroteHistory(item.id, ItemStep(ctx, store, item).store.histories[item.id]);
    ItemScanSpec(ctx, store, item);
    ItemStepTrace(ctx, store, item);
    ItemYieldsSpec(ctx, store, item);
    TraceShape(scan, w, ItemYields(ctx, store, item));
  }

  /**
   * Every yield of an item is a finding about the item with a non-empty
   * secret, none of whose secrets was in the item's history.
   */
  lemma ItemYieldsSpec(ctx: Context, store: Store, item: ContentInfo)
    ensures forall e :: e in ItemYields(ctx, store, item) ==>
      && e.Yielded? && e.finding.content == item && AnyTruthy(e.finding.secrets)
      && forall x :: x in e.finding.secrets ==> x !in StoredHistory(store, item).secrets
  {
    var known := StoredHistory(store, item).secrets;
    var scan := ItemScan(ctx, store, item);
    var filtered := FilterFindings(known, scan.findings);
    ItemScanSpec(ctx, store, item);
    FilterFindingsKept(known, scan.findings);
    forall f | f in filtered.findings
      ensures f.content == item && forall x :: x in f.secrets ==> x !in known
    {
      var i :| 0 <= i < |filtered.findings| && filtered.findings[i] == f;
      assert scan.findings[i] in scan.findings;
    }
  }

  /**
   * Every yield is a finding about the item with a non-empty secret, none
   * of whose secrets was in the item's history.
   */
  lemma ItemStepYields(ctx: Context, store: Store, item: ContentInfo)
    ensures forall e :: e in ItemStep(ctx, store, item).trace && e.Yielded? ==>
      && e.finding.content == item && AnyTruthy(e.finding.secrets)
      && forall x :: x in e.finding.secrets ==> x !in StoredHistory(store, item).secrets
  {
    ItemScanSpec(ctx, store, item);
    ItemStepTrace(ctx, store, item);
    ItemYieldsSpec(ctx, store, item);
    TraceShape(ItemScan(ctx, store, item).trace,
      WroteHistory(item.id, ItemStep(ctx, store, item).store.histories[item.id]), ItemYields(ctx, store, item));
  }

  /** The yields of findings with pairwise disjoint secrets have pairwise disjoint secrets. */
  lemma {:induction false} YieldEventsDisjoint(fs: seq<Finding>)
    requires forall i, j, x :: 0 <= i < j < |fs| && x in fs[j].secrets ==> x !in fs[i].secrets
    ensures forall i, j, x :: 0 <= i < j < |YieldEvents(fs)| && x in YieldEvents(fs)[j].finding.secrets ==>
      x !in YieldEvents(fs)[i].finding.secrets
    decreases |fs|
  {
    if fs != [] {
      var init, last := fs[..|fs| - 1], fs[|fs| - 1];
      assert forall i :: 0 <= i < |init| ==> init[i] == fs[i];
      YieldEventsDisjoint(init);
      var es, prev := YieldEvents(fs), YieldEvents(init);
      forall i, j, x | 0 <= i < j < |es| && x in es[j].finding.secrets
        ensures x !in es[i].finding.secrets
      {
        assert es[i] == prev[i];
        if j < |prev| {
          assert es[j] == prev[j];
        } else {
          assert es[j] == Yielded(last);
          assert prev[i] in prev;
          var a :| 0 <= a < |init| && init[a] == prev[i].finding;
          assert fs[a] == init[a];
        }
      }
    }
  }

  /** The findings yielded for one item have pairwise disjoint secrets. */
  lemma ItemYieldsDisjoint(ctx: Context, store: Store, item: ContentInfo)
    ensures var ys := ItemYields(ctx, store, item);
      forall i, j, x :: 0 <= i < j < |ys| && x in ys[j].finding.secrets ==> x !in ys[i].finding.secrets
  {
    var known := StoredHistory(store, item).secrets;
    FilterFindingsDisjoint(known, ItemScan(ctx, store, item).findings);
    YieldEventsDisjoint(FilterFindings(known, ItemScan(ctx, store, item).findings).findings);
  }

  /** Every secret yielded for an item is in the history written for it. */
  lemma ItemYieldsRecorded(ctx: Context, store: Store, item: ContentInfo)
    ensures forall e, x :: e in ItemYields(ctx, store, item) && x in e.finding.secrets ==>
      x in ItemStep(ctx, store, item).store.histories[item.id].secrets
  {
    var known := StoredHistory(store, item).secrets;
    var filtered := FilterFindings(known, ItemScan(ctx, store, item).findings);
    FilterFindingsKnown(known, ItemScan(ctx, store, item).findings);
    forall e, x | e in ItemYields(ctx, store, item) && x in e.finding.secrets
      ensures x in filtered.known
    {
      var a :| 0 <= a < |filtered.findings| && filtered.findings[a] == e.finding;
      FlatMapHas(SecretsOf, filtered.findings, a, x);
    }
  }

  /** A history whose secrets are duplicate-free stays so. */
  lemma ItemStepNoDup(ctx: Context, store: Store, item: ContentInfo)
    requires NoDup(StoredHistory(store, item).secrets)
    ensures NoDup(ItemStep(ctx, store, item).store.histories[item.id].secrets)
  {
    var scan := ItemScan(ctx, store, item);
    ItemScanSpec(ctx, store, item);
    assert forall i :: 0 <= i < |scan.findings| ==> scan.findings[i] in scan.findings;
    FilterFindingsNoDup(StoredHistory(store, item).secrets, scan.findings);
  }

  /** Processing an item a second time scans and yields nothing new. */
  lemma ItemStepIdempotent(ctx: Context, store: Store, item: ContentInfo)
    ensures var once := ItemStep(ctx, store, item).store;
      ItemStep(ctx, once, item) == Step(once, [WroteHistory(item.id, once.histories[item.id])])
  {
    ItemStepHistory(ctx, store, item);
    ItemStepUnchanged(ctx, ItemStep(ctx, store, item).store, item);
  }
}
