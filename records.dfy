/** The plain records the crawler passes between its parts. */
module Records {
  import opened Common

  /** The space (container) a content item lives in. */
  datatype SpaceInfo = SpaceInfo(key: string, title: string)

  /** A page or attachment as one search result describes it. */
  datatype ContentInfo = ContentInfo(
    id: string,
    kind: string,
    latestVersion: int,
    title: string,
    space: SpaceInfo,
    mimeType: Option<string>)

  /**
   * Where the text of a version comes from, bound to the version when it is
   * built: an attachment's download address or a page's rendered body.
   */
  datatype VersionSource = Download(url: string) | PageBody(html: string)

  /** One version of a content item. */
  datatype VersionInfo = VersionInfo(id: int, author: Option<string>, url: string, source: VersionSource)

  /** What the cache remembers about one content item between runs. */
  datatype CrawlHistory = CrawlHistory(latestVersion: int, secrets: seq<string>)

  /** The history a content item seen for the first time starts from. */
  const FreshHistory := CrawlHistory(0, [])

  /** A version of an item and the secrets found in it. */
  datatype Finding = Finding(content: ContentInfo, version: VersionInfo, secrets: seq<string>)

  /** Python truthiness of `any(secrets)`: some secret is a non-empty string. */
  predicate AnyTruthy(secrets: seq<string>)
  {
    exists i :: 0 <= i < |secrets| && secrets[i] != ""
  }
}
