/**
 * The records the Packagist ("composer") handler receives from the registry and the
 * display fields it produces. Only the members the handler reads are kept.
 */
module ComposerTypes {
  import opened Wrappers

  /** One hit of the search endpoint, in the registry's own naming (`favers` are stars). */
  datatype SearchHit = SearchHit(
    name: string,
    description: string,
    url: string,
    repository: Option<string>,
    downloads: int,
    favers: int)

  /** One entry of the candidate list the handler shows. */
  datatype Candidate = Candidate(
    name: string,
    description: string,
    url: string,
    repository: Option<string>,
    downloads: int,
    stars: int)

  datatype Author = Author(name: string)

  datatype Source = Source(url: string)

  /** What the runtime's URL parser yields for an absolute URL: its scheme with the colon, and its path. */
  datatype ParsedUrl = ParsedUrl(protocol: string, pathname: string)

  /** The runtime's `new URL(...)`: None where the constructor throws on an invalid URL. */
  type UrlParser = string -> Option<ParsedUrl>

  /**
   * One published version of a package, as the detail endpoint describes it.
   * `homepage` is the empty string when the registry gives no (or an empty) homepage;
   * `license` is None when the registry gives no licence list at all.
   */
  datatype VersionRecord = VersionRecord(
    name: string,
    version: string,
    versionNormalized: string,
    time: string,
    keywords: seq<string>,
    require: map<string, string>,
    license: Option<seq<string>>,
    homepage: string,
    source: Option<Source>,
    authors: seq<Author>)

  /** The `versions` object: its (key, record) properties in the order `Object.values` visits them. */
  type Versions = seq<(string, VersionRecord)>

  /** A markdown link, `[text](url)`. */
  datatype MdLink = MdLink(text: string, url: string)

  /** The value of a display field, kept symbolic: the markdown helpers that render it are not modelled. */
  datatype FieldValue =
    | Text(text: string)
    | Count(n: int)
    | BashSnippet(command: string)
    | Links(links: seq<MdLink>, separator: string)
    | SingleLink(link: MdLink)

  /** One embed field; `inline` is false where the source leaves it undefined. */
  datatype Field = Field(name: string, value: FieldValue, inline: bool)

  /** The values of the `versions` object, in iteration order. */
  function Values(versions: Versions): (rs: seq<VersionRecord>)
    ensures |rs| == |versions|
    ensures forall i :: 0 <= i < |versions| ==> rs[i] == versions[i].1
  {
    seq(|versions|, i requires 0 <= i < |versions| => versions[i].1)
  }
}
