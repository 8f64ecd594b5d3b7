/**
 * The detail card the handler shows once a package is chosen: its title names the latest
 * release, and its fields are the layout of the record stored under that release's
 * `version` key. Any failure on the way (an incomparable version, no release found, no
 * maintainer to show as the card's author, no record under the key, a URL the runtime
 * refuses) abandons the card silently.
 */
module DetailCard {
  import opened Wrappers
  import opened ComposerTypes
  import opened VersionOrder
  import opened LatestRelease
  import opened FieldLayout

  datatype ReleaseCard = ReleaseCard(title: string, fields: seq<Field>)

  /** A JavaScript object never holds the same key twice. */
  predicate UniqueKeys(versions: Versions)
  {
    forall i, j :: 0 <= i < |versions| && 0 <= j < |versions| && versions[i].0 == versions[j].0 ==> i == j
  }

  /** The registry stores every release under its own `version`. */
  predicate KeyedByVersion(versions: Versions)
  {
    forall i :: 0 <= i < |versions| ==> versions[i].0 == versions[i].1.version
  }

  /** `versions[key]`: the record stored under `key`, if any. */
  function Lookup(versions: Versions, key: string): (r: Option<VersionRecord>)
    ensures r.Some? ==> exists i :: 0 <= i < |versions| && versions[i].0 == key && versions[i].1 == r.value
    ensures r.None? <==> forall i :: 0 <= i < |versions| ==> versions[i].0 != key
  {
    if versions == [] then None
    else if versions[0].0 == key then Some(versions[0].1)
    else
      var r := Lookup(versions[1..], key);
      assert forall i :: 1 <= i < |versions| ==> versions[i] == versions[1..][i - 1];
      r
  }

  /** The card title: the package name followed by the release version in italics and parentheses. */
  function Title(packageName: string, version: string): (t: string)
    ensures |t| == |packageName| + |version| + 5
    ensures t[..|packageName|] == packageName && t[|packageName| + 3..|t| - 2] == version
    ensures t[|packageName|..|packageName| + 3] == " *(" && t[|t| - 2..] == ")*"
  {
    packageName + " *(" + version + ")*"
  }

  /**
   * The title and fields of the detail card, or None when rendering is abandoned.
   * `maintainers` is the length of the package's maintainer list: the card's author is
   * `maintainers[0]`, which throws on an empty list.
   */
  function RenderLatestRelease(packageName: string, maintainers: nat, versions: Versions, parse: UrlParser): Option<ReleaseCard>
  {
    match FindLatestRelease(versions)
    case Err(_) => None
    case Ok(None) => None
    case Ok(Some(latest)) =>
      if maintainers == 0 then None
      else
      match Lookup(versions, latest.version)
      case None => None
      case Some(rel) =>
        match FieldsFor(rel, parse)
        case Err(_) => None
        case Ok(fs) => Some(ReleaseCard(Title(packageName, latest.version), fs))
  }

  // ---------------------------------------------------------------------------

  /** In an object, the record stored under a key is the one `Lookup` returns. */
  lemma {:induction false} LookupFinds(versions: Versions, i: nat)
    requires UniqueKeys(versions) && i < |versions|
    ensures Lookup(versions, versions[i].0) == Some(versions[i].1)
  {
    if i > 0 && versions[0].0 != versions[i].0 {
      var rest := versions[1..];
      assert UniqueKeys(rest) by {
        forall a, b | 0 <= a < |rest| && 0 <= b < |rest| && rest[a].0 == rest[b].0
          ensures a == b
        {
          assert versions[a + 1].0 == versions[b + 1].0;
        }
      }
      LookupFinds(rest, i - 1);
    }
  }

  /** A version string that is not dotted-decimal, among the candidates, abandons the card. */
  lemma IncomparableVersionAbandons(packageName: string, maintainers: nat, versions: Versions, parse: UrlParser)
    requires !AllComparable(Values(versions))
    ensures RenderLatestRelease(packageName, maintainers, versions, parse).None?
  {
    FindLatestReleaseThrows(versions);
  }

  /** With no qualifying release (only branches and pre-releases, say) there is no card. */
  lemma NoReleaseAbandons(packageName: string, maintainers: nat, versions: Versions, parse: UrlParser)
    requires forall i :: 0 <= i < |versions| ==> !Qualifies(versions[i].1.versionNormalized)
    ensures RenderLatestRelease(packageName, maintainers, versions, parse).None?
  {
    NoQualifyingEntryKeepsSeed(versions);
  }

  /** A package without maintainers never gets a card: the card's author cannot be read. */
  lemma NoMaintainerAbandons(packageName: string, versions: Versions, parse: UrlParser)
    ensures RenderLatestRelease(packageName, 0, versions, parse).None?
  {
  }

  /**
   * A card is always about the first highest-ranked qualifying release of a package with a
   * maintainer: its title names that release's version and its fields are the layout of the
   * record stored under that version.
   */
  lemma CardShowsLatest(packageName: string, maintainers: nat, versions: Versions, parse: UrlParser, card: ReleaseCard)
    requires RenderLatestRelease(packageName, maintainers, versions, parse) == Some(card)
    ensures maintainers > 0
    ensures exists k, j ::
              && IsFirstHighest(Zero, Values(versions), k)
              && card.title == Title(packageName, versions[k].1.version)
              && 0 <= j < |versions| && versions[j].0 == versions[k].1.version
              && FieldsFor(versions[j].1, parse) == Ok(card.fields)
  {
    var found := FindLatestRelease(versions);
    assert found.Ok? && found.value.Some?;
    var latest := found.value.value;
    var stored := Lookup(versions, latest.version);
    assert stored.Some?;
    var rel := stored.value;
    assert FieldsFor(rel, parse) == Ok(card.fields) && card.title == Title(packageName, latest.version);
    FindLatestReleaseFound(versions, latest);
    var k :| IsFirstHighest(Zero, Values(versions), k) && Values(versions)[k] == latest;
    var j :| 0 <= j < |versions| && versions[j].0 == latest.version && versions[j].1 == rel;
    assert versions[k].1 == latest;
  }

  /**
   * When the registry keys every release by its version and every version string is
   * comparable, the first highest-ranked release of a package with a maintainer gets a card
   * made from its own record, unless one of its URLs is refused.
   */
  lemma LatestGetsCard(packageName: string, maintainers: nat, versions: Versions, parse: UrlParser, k: nat)
    requires UniqueKeys(versions) && KeyedByVersion(versions)
    requires AllComparable(Values(versions))
    requires IsFirstHighest(Zero, Values(versions), k)
    ensures maintainers > 0 && FieldsFor(versions[k].1, parse).Ok? ==>
              RenderLatestRelease(packageName, maintainers, versions, parse)
              == Some(ReleaseCard(Title(packageName, versions[k].1.version), FieldsFor(versions[k].1, parse).value))
    ensures maintainers == 0 || FieldsFor(versions[k].1, parse).Err? ==> RenderLatestRelease(packageName, maintainers, versions, parse).None?
  {
    FirstHighestIsFound(versions, k);
    LookupFinds(versions, k);
  }
}
