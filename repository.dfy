/**
 * The content repository: turns the raw records of the search and version
 * endpoints into content items and versions, dropping what cannot be
 * scanned. The records are what the paginated client returned; HTML
 * unescaping and MIME type guessing are library helpers supplied as
 * functions.
 */
module Repository {
  import opened Common
  import opened Records

  /** The `resultGlobalContainer` of a search result. */
  datatype RawContainer = RawContainer(displayUrl: string, title: string)

  /** The `content` of a search result. */
  datatype RawContent = RawContent(id: string, kind: string, versionNumber: int, title: Option<string>, mediaType: string)

  /** One search result; `parentTitle` is the title of its `resultParentContainer`, if any. */
  datatype SearchResult = SearchResult(
    title: Option<string>,
    content: Option<RawContent>,
    container: Option<RawContainer>,
    parentTitle: Option<string>)

  /** One entry of a content item's version list. */
  datatype RawVersion = RawVersion(
    number: int,
    email: Option<string>,
    displayName: Option<string>,
    download: Option<string>,
    fileSize: int,
    body: string)

  /** The library functions the repository relies on. */
  datatype Helpers = Helpers(unescape: string -> string, guessMimeType: string -> Option<string>)

  datatype Config = Config(wikiUrl: string, maxAttachmentSize: int, supportedTypes: seq<string>, helpers: Helpers)

  const AttachmentKind := "attachment"
  const OctetStream := "application/octet-stream"

  /** Python truthiness of an optional string. */
  predicate Truthy(s: Option<string>)
  {
    s.Some? && s.value != ""
  }

  /** The repository of `domain`, with the attachment size limit given in megabytes. */
  function NewConfig(domain: string, maxAttachmentMb: int, supportedTypes: seq<string>, helpers: Helpers): (c: Config)
    ensures c.maxAttachmentSize == maxAttachmentMb * 1048576
    ensures c.wikiUrl == "https://" + domain + ".atlassian.net/wiki"
    ensures c.supportedTypes == supportedTypes
  {
    Config("https://" + domain + ".atlassian.net/wiki", maxAttachmentMb * 1024 * 1024, supportedTypes, helpers)
  }

  /** The text after the last "/" of `s` (all of `s` when it has none). */
  function LastSegment(s: string): (r: string)
    ensures '/' !in r
    ensures |r| <= |s| && r == s[|s| - |r|..]
    ensures |r| < |s| ==> s[|s| - |r| - 1] == '/'
  {
    if s == [] then []
    else if s[|s| - 1] == '/' then []
    else LastSegment(s[..|s| - 1]) + [s[|s| - 1]]
  }

  /**
   * The title of a search result: its own title, else its content's title
   * (both unescaped), else its parent container's title, else "".
   */
  function ExtractTitle(r: SearchResult, h: Helpers): (t: string)
    ensures Truthy(r.title) ==> t == h.unescape(r.title.value)
    ensures !Truthy(r.title) && r.content.Some? && Truthy(r.content.value.title) ==>
      t == h.unescape(r.content.value.title.value)
    ensures !Truthy(r.title) && (r.content.None? || !Truthy(r.content.value.title)) ==>
      t == (if r.parentTitle.Some? then r.parentTitle.value else "")
  {
    if Truthy(r.title) then h.unescape(r.title.value)
    else if r.content.Some? && Truthy(r.content.value.title) then h.unescape(r.content.value.title.value)
    else if r.parentTitle.Some? then r.parentTitle.value
    else ""
  }

  /** The media type of an attachment, replaced by the guess from its title when it is the generic binary type. */
  function ExtractMimeType(content: RawContent, title: string, h: Helpers): (m: string)
    ensures content.mediaType != OctetStream ==> m == content.mediaType
    ensures content.mediaType == OctetStream && Truthy(h.guessMimeType(title)) ==> m == h.guessMimeType(title).value
    ensures content.mediaType == OctetStream && !Truthy(h.guessMimeType(title)) ==> m == OctetStream
  {
    var mime := content.mediaType;
    if mime == OctetStream then
      var guess := h.guessMimeType(title);
      if Truthy(guess) then guess.value else mime
    else mime
  }

  /** Whether an attachment of media type `mime` can be turned into text. */
  predicate Scannable(cfg: Config, mime: string)
  {
    StartsWith(mime, "text/") || mime in cfg.supportedTypes
  }

  /**
   * One search result as a content item: skipped when it lacks its content
   * or its container, or when it is an attachment of a media type that
   * cannot be scanned. Pages (and any other kind) always pass, with no
   * media type.
   */
  function ConvertResult(cfg: Config, r: SearchResult): (item: Option<ContentInfo>)
    ensures item.Some? <==>
      r.content.Some? && r.container.Some?
      && (r.content.value.kind == AttachmentKind ==>
            Scannable(cfg, ExtractMimeType(r.content.value, ExtractTitle(r, cfg.helpers), cfg.helpers)))
    ensures item.Some? ==>
      && item.value.id == r.content.value.id
      && item.value.kind == r.content.value.kind
      && item.value.latestVersion == r.content.value.versionNumber
      && item.value.title == ExtractTitle(r, cfg.helpers)
      && item.value.space == SpaceInfo(LastSegment(r.container.value.displayUrl), r.container.value.title)
      && (item.value.kind == AttachmentKind <==> item.value.mimeType.Some?)
      && (item.value.mimeType.Some? ==> Scannable(cfg, item.value.mimeType.value))
  {
    if r.content.None? || r.container.None? then None
    else
      var c := r.content.value;
      var g := r.container.value;
      var space := SpaceInfo(LastSegment(g.displayUrl), g.title);
      var title := ExtractTitle(r, cfg.helpers);
      if c.kind == AttachmentKind then
        var mime := ExtractMimeType(c, title, cfg.helpers);
        if !Scannable(cfg, mime) then None
        else Some(ContentInfo(c.id, c.kind, c.versionNumber, title, space, Some(mime)))
      else Some(ContentInfo(c.id, c.kind, c.versionNumber, title, space, None))
  }

  /** `get_content_for_date`: the search results of one day as content items, in the order received. */
  function ContentForDate(cfg: Config, results: seq<SearchResult>): (items: seq<ContentInfo>)
    ensures |items| <= |results|
  {
    if results == [] then []
    else
      var rest := ContentForDate(cfg, results[1..]);
      match ConvertResult(cfg, results[0])
      case Some(x) => [x] + rest
      case None => rest
  }

  /** An item is listed exactly when some search result converts to it. */
  lemma {:induction false} ContentForDateMembers(cfg: Config, results: seq<SearchResult>, x: ContentInfo)
    ensures x in ContentForDate(cfg, results) <==> exists r :: r in results && ConvertResult(cfg, r) == Some(x)
    decreases |results|
  {
    if results != [] {
      var head, tail := results[0], results[1..];
      ContentForDateMembers(cfg, tail, x);
      if x in ContentForDate(cfg, results) {
        if ConvertResult(cfg, head) == Some(x) {
          assert head in results;
        } else {
          var r :| r in tail && ConvertResult(cfg, r) == Some(x);
          assert r in results;
        }
      } else {
        forall r | r in results
          ensures ConvertResult(cfg, r) != Some(x)
        {
          if r != head {
            assert r in tail;
          }
        }
      }
    }
  }

  /** Filtering keeps the order of the search results: it distributes over concatenation. */
  lemma {:induction false} ContentForDateConcat(cfg: Config, a: seq<SearchResult>, b: seq<SearchResult>)
    ensures ContentForDate(cfg, a + b) == ContentForDate(cfg, a) + ContentForDate(cfg, b)
    decreases |a|
  {
    if a == [] {
      assert a + b == b;
    } else {
      assert (a + b)[0] == a[0];
      assert (a + b)[1..] == a[1..] + b;
      ContentForDateConcat(cfg, a[1..], b);
    }
  }

  /** The author of a version: the email when there is one, else the display name. */
  function Author(v: RawVersion): (a: Option<string>)
    ensures Truthy(v.email) ==> a == v.email
    ensures !Truthy(v.email) ==> a == v.displayName
  {
    if Truthy(v.email) then v.email else v.displayName
  }

  /** The address of a page version. */
  function PageVersionUrl(cfg: Config, item: ContentInfo, number: int): string
  {
    cfg.wikiUrl + "/pages/viewpage.action?pageId=" + item.id + "&pageVersion=" + IntToString(number)
  }

  /**
   * One version entry as a version: an attachment version is skipped when
   * it has no download link or is larger than the limit (a size equal to the
   * limit is kept); a page version always passes and carries its body.
   */
  function ConvertVersion(cfg: Config, item: ContentInfo, v: RawVersion): (r: Option<VersionInfo>)
    ensures item.kind == AttachmentKind ==>
      (r.Some? <==> Truthy(v.download) && v.fileSize <= cfg.maxAttachmentSize)
    ensures item.kind != AttachmentKind ==> r.Some? && r.value.source == PageBody(v.body)
    ensures r.Some? ==> r.value.id == v.number && r.value.author == Author(v)
    ensures r.Some? && item.kind == AttachmentKind ==>
      r.value.url == cfg.wikiUrl + v.download.value && r.value.source == Download(r.value.url)
  {
    var author := Author(v);
    if item.kind == AttachmentKind then
      if !Truthy(v.download) then None
      else
        var url := cfg.wikiUrl + v.download.value;
        if v.fileSize > cfg.maxAttachmentSize then None
        else Some(VersionInfo(v.number, author, url, Download(url)))
    else
      Some(VersionInfo(v.number, author, PageVersionUrl(cfg, item, v.number), PageBody(v.body)))
  }

  /** `get_versions`: the version list walked from its last entry to its first, skipped entries dropped. */
  function Versions(cfg: Config, item: ContentInfo, raw: seq<RawVersion>): (vs: seq<VersionInfo>)
    ensures |vs| <= |raw|
    ensures forall x :: x in vs <==> exists v :: v in raw && ConvertVersion(cfg, item, v) == Some(x)
    decreases |raw|
  {
    if raw == [] then []
    else
      var last := raw[|raw| - 1];
      var rest := Versions(cfg, item, raw[..|raw| - 1]);
      assert forall v :: v in raw <==> v == last || v in raw[..|raw| - 1];
      match ConvertVersion(cfg, item, last)
      case Some(x) => [x] + rest
      case None => rest
  }

  /** Versions come out in the reverse of the order the endpoint lists them. */
  lemma {:induction false} VersionsReversed(cfg: Config, item: ContentInfo, a: seq<RawVersion>, b: seq<RawVersion>)
    ensures Versions(cfg, item, a + b) == Versions(cfg, item, b) + Versions(cfg, item, a)
    decreases |b|
  {
    if b == [] {
      assert a + b == a;
    } else {
      assert (a + b)[..|a + b| - 1] == a + b[..|b| - 1];
      assert (a + b)[|a + b| - 1] == b[|b| - 1];
      VersionsReversed(cfg, item, a, b[..|b| - 1]);
    }
  }

  /**
   * The wiki as one run of the crawler sees it: the search results of every
   * day (days as integers) and the version list of every content id.
   */
  datatype Site = Site(cfg: Config, search: map<int, seq<SearchResult>>, history: map<string, seq<RawVersion>>)

  /** The content items changed on `date`. */
  function ContentOn(site: Site, date: int): seq<ContentInfo>
  {
    ContentForDate(site.cfg, if date in site.search then site.search[date] else [])
  }

  /** The versions of `item`. */
  function VersionsOf(site: Site, item: ContentInfo): seq<VersionInfo>
  {
    Versions(site.cfg, item, if item.id in site.history then site.history[item.id] else [])
  }
}
