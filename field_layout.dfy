/**
 * The display fields of the latest release (`extractFieldsFromLatestRelease`): a fixed
 * layout of an install field, optional keywords, PHP requirement, dependency count and
 * licences, a spacer, optional homepage and repository links, a second spacer unless the
 * grid already breaks evenly, and one field per author.
 *
 * `FieldsFor` states the layout as one sequence; `ExtractFields` builds it the way the
 * handler does, push by push, and is proved to produce exactly `FieldsFor`.
 */
module FieldLayout {
  import opened Wrappers
  import opened Strings
  import opened ComposerTypes

  /** The zero-width space the spacer field carries as both name and value. */
  const ZeroWidthSpace := "\U{200B}"

  /** `EMPTY_FIELD`: a field that shows nothing and only breaks the row of inline fields. */
  const EmptyField := Field(ZeroWidthSpace, Text(ZeroWidthSpace), false)

  /** The `require` key that holds the PHP version constraint rather than a package. */
  const PlatformKey := "php"

  const TagSearchPrefix := "https://packagist.org/search/?tags="
  const LicensePrefix := "https://choosealicense.com/licenses/"
  const GitSuffix := ".git"

  /** The runtime refused a URL (`new URL(...)` threw): the whole field extraction throws. */
  datatype LayoutError = InvalidUrl(url: string)

  /** `createTagLink`: the registry search for packages carrying `tag`. */
  function TagLink(tag: string): string
  {
    TagSearchPrefix + tag
  }

  function KeywordLinks(keywords: seq<string>): seq<MdLink>
  {
    seq(|keywords|, i requires 0 <= i < |keywords| => MdLink(keywords[i], TagLink(keywords[i])))
  }

  function LicenseLinks(licenses: seq<string>): seq<MdLink>
  {
    seq(|licenses|, i requires 0 <= i < |licenses| => MdLink(licenses[i], LicensePrefix + ToLower(licenses[i])))
  }

  function InstallField(name: string): Field
  {
    Field("add to your project", BashSnippet("composer require " + name), false)
  }

  function KeywordsField(keywords: seq<string>): Field
  {
    Field("keywords", Links(KeywordLinks(keywords), ", "), false)
  }

  function PlatformField(constraint: string): Field
  {
    Field("PHP version", Text(constraint), true)
  }

  /** The number of `require` entries, not counting the PHP one. */
  function DependencyCount(require: map<string, string>): int
  {
    |require| - if PlatformKey in require then 1 else 0
  }

  function DependenciesField(require: map<string, string>): Field
  {
    Field("dependencies", Count(DependencyCount(require)), true)
  }

  function LicenseField(licenses: seq<string>): Field
  {
    Field("license", Links(LicenseLinks(licenses), " "), true)
  }

  /** The homepage link; its text is the URL with the first `<protocol>//` taken out. */
  function HomepageField(homepage: string, url: ParsedUrl): Field
  {
    Field("homepage", SingleLink(MdLink(ReplaceFirst(homepage, url.protocol + "//", ""), homepage)), true)
  }

  /** `s` without its trailing ".git", if it has one. */
  function StripGitSuffix(s: string): (r: string)
    ensures EndsWith(s, GitSuffix) ==> r + GitSuffix == s
    ensures !EndsWith(s, GitSuffix) ==> r == s
  {
    if EndsWith(s, GitSuffix) then s[..|s| - |GitSuffix|] else s
  }

  /**
   * The repository link: its text is the URL path without the leading `/`, its target the
   * URL itself, both with the ".git" suffix removed. (The source removes the FIRST ".git"
   * instead; see `RepositoryLinkAsWritten`.)
   */
  function RepositoryLink(sourceUrl: string, url: ParsedUrl): (l: MdLink)
    requires EndsWith(sourceUrl, GitSuffix)
    ensures l.url + GitSuffix == sourceUrl
    ensures EndsWith(DropFirst(url.pathname), GitSuffix) ==> l.text + GitSuffix == DropFirst(url.pathname)
  {
    MdLink(StripGitSuffix(DropFirst(url.pathname)), StripGitSuffix(sourceUrl))
  }

  /** The repository link exactly as the source builds it: `.replace('.git', '')` drops the first ".git". */
  function RepositoryLinkAsWritten(sourceUrl: string, url: ParsedUrl): MdLink
  {
    MdLink(ReplaceFirst(DropFirst(url.pathname), GitSuffix, ""), ReplaceFirst(sourceUrl, GitSuffix, ""))
  }

  function RepositoryField(sourceUrl: string, url: ParsedUrl): Field
    requires EndsWith(sourceUrl, GitSuffix)
  {
    Field("repository", SingleLink(RepositoryLink(sourceUrl, url)), true)
  }

  function AuthorField(author: Author): Field
  {
    Field("author", Text(author.name), true)
  }

  /** One author field per author, in order. */
  function AuthorFields(authors: seq<Author>): seq<Field>
  {
    if authors == [] then [] else AuthorFields(authors[..|authors| - 1]) + [AuthorField(authors[|authors| - 1])]
  }

  /** The fields before the first spacer: install, keywords, PHP version, dependencies, licence. */
  function SetupFields(rel: VersionRecord): seq<Field>
  {
    [InstallField(rel.name)]
    + (if |rel.keywords| > 0 then [KeywordsField(rel.keywords)] else [])
    + (if PlatformKey in rel.require then [PlatformField(rel.require[PlatformKey])] else [])
    + [DependenciesField(rel.require)]
    + (if rel.license.Some? then [LicenseField(rel.license.value)] else [])
  }

  /** The source repository gets a link: there is a source and its URL ends with ".git". */
  predicate HasGitSource(rel: VersionRecord)
  {
    rel.source.Some? && EndsWith(rel.source.value.url, GitSuffix)
  }

  /** The homepage link, if there is a homepage, or the homepage URL the runtime's parser refuses. */
  function HomepageLinks(rel: VersionRecord, parse: UrlParser): Result<seq<Field>, LayoutError>
  {
    if rel.homepage == "" then Ok([])
    else
      match parse(rel.homepage)
      case None => Err(InvalidUrl(rel.homepage))
      case Some(u) => Ok([HomepageField(rel.homepage, u)])
  }

  /** The repository link, if the source is a ".git" URL, or the source URL the runtime's parser refuses. */
  function RepositoryLinks(rel: VersionRecord, parse: UrlParser): Result<seq<Field>, LayoutError>
  {
    if !HasGitSource(rel) then Ok([])
    else
      match parse(rel.source.value.url)
      case None => Err(InvalidUrl(rel.source.value.url))
      case Some(u) => Ok([RepositoryField(rel.source.value.url, u)])
  }

  /** The homepage and repository links; the homepage is parsed first. */
  function LinkFields(rel: VersionRecord, parse: UrlParser): Result<seq<Field>, LayoutError>
  {
    match (HomepageLinks(rel, parse), RepositoryLinks(rel, parse))
    case (Err(e), _) => Err(e)
    case (_, Err(e)) => Err(e)
    case (Ok(h), Ok(g)) => Ok(h + g)
  }

  /** The grid breaks evenly without a second spacer: two links and exactly one author. */
  predicate OmitsSecondSpacer(linkCount: int, authorCount: int)
  {
    linkCount == 2 && authorCount == 1
  }

  /** The whole layout. */
  function FieldsFor(rel: VersionRecord, parse: UrlParser): Result<seq<Field>, LayoutError>
  {
    match LinkFields(rel, parse)
    case Err(e) => Err(e)
    case Ok(links) =>
      Ok(SetupFields(rel)
         + [EmptyField]
         + links
         + (if OmitsSecondSpacer(|links|, |rel.authors|) then [] else [EmptyField])
         + AuthorFields(rel.authors))
  }

  /**
   * `extractFieldsFromLatestRelease`: grows `fields` push by push, counts the links it adds,
   * and appends the authors in a loop. An invalid homepage or repository URL throws.
   */
  method ExtractFields(rel: VersionRecord, parse: UrlParser) returns (r: Result<seq<Field>, LayoutError>)
    ensures r == FieldsFor(rel, parse)
  {
    var fields := [InstallField(rel.name)];
    if |rel.keywords| > 0 {
      fields := fields + [KeywordsField(rel.keywords)];
    }
    assert fields == [InstallField(rel.name)] + (if |rel.keywords| > 0 then [KeywordsField(rel.keywords)] else []);
    var hasPlatform := PlatformKey in rel.require;
    if hasPlatform {
      fields := fields + [PlatformField(rel.require[PlatformKey])];
    }
    fields := fields + [DependenciesField(rel.require)];
    if rel.license.Some? {
      fields := fields + [LicenseField(rel.license.value)];
    }
    assert fields == SetupFields(rel);
    var lengthAfterSetup := |fields|;
    if lengthAfterSetup > 0 {
      fields := fields + [EmptyField];
    }
    ghost var prefix := fields;
    assert prefix == SetupFields(rel) + [EmptyField];
    var pushed, addedLinks := PushLinks(rel, parse, fields);
    if pushed.Err? {
      return Err(pushed.error);
    }
    fields := pushed.value;
    ghost var links := LinkFields(rel, parse).value;
    var emptyFieldRequired := !(addedLinks == 2 && |rel.authors| == 1);
    if emptyFieldRequired {
      fields := fields + [EmptyField];
    }
    fields := PushAuthors(fields, rel.authors);
    assert fields == prefix + links + (if emptyFieldRequired then [EmptyField] else []) + AuthorFields(rel.authors);
    r := Ok(fields);
  }

  /**
   * The homepage and repository links pushed onto `fields`, counted in `addedLinks`; the
   * homepage URL is parsed first, and the first URL the runtime refuses throws.
   */
  method PushLinks(rel: VersionRecord, parse: UrlParser, fields: seq<Field>)
    returns (r: Result<seq<Field>, LayoutError>, addedLinks: nat)
    ensures LinkFields(rel, parse).Err? ==> r == Err(LinkFields(rel, parse).error)
    ensures LinkFields(rel, parse).Ok? ==>
              r == Ok(fields + LinkFields(rel, parse).value) && addedLinks == |LinkFields(rel, parse).value|
  {
    var out := fields;
    ghost var home: seq<Field> := [];
    addedLinks := 0;
    if rel.homepage != "" {
      var url := parse(rel.homepage);
      if url.None? {
        return Err(InvalidUrl(rel.homepage)), addedLinks;
      }
      out := out + [HomepageField(rel.homepage, url.value)];
      home := [HomepageField(rel.homepage, url.value)];
      addedLinks := addedLinks + 1;
    }
    assert HomepageLinks(rel, parse) == Ok(home);
    ghost var repo: seq<Field> := [];
    ghost var withHome := out;
    if rel.source.Some? {
      if EndsWith(rel.source.value.url, GitSuffix) {
        var url := parse(rel.source.value.url);
        if url.None? {
          return Err(InvalidUrl(rel.source.value.url)), addedLinks;
        }
        out := out + [RepositoryField(rel.source.value.url, url.value)];
        repo := [RepositoryField(rel.source.value.url, url.value)];
        addedLinks := addedLinks + 1;
      }
    }
    assert RepositoryLinks(rel, parse) == Ok(repo);
    assert out == withHome + repo && withHome == fields + home;
    assert LinkFields(rel, parse) == Ok(home + repo);
    assert out == fields + (home + repo);
    r := Ok(out);
  }

  /** `authors.forEach(...)`: one author field pushed per author, in order. */
  method PushAuthors(fields: seq<Field>, authors: seq<Author>) returns (out: seq<Field>)
    ensures out == fields + AuthorFields(authors)
  {
    out := fields;
    var i := 0;
    while i < |authors|
      invariant 0 <= i <= |authors|
      invariant out == fields + AuthorFields(authors[..i])
    {
      assert authors[..i + 1][..i] == authors[..i];
      out := out + [AuthorField(authors[i])];
      i := i + 1;
    }
    assert authors[..i] == authors;
  }

  // ---------------------------------------------------------------------------
  // What the layout promises.

  function Indicator(b: bool): nat
  {
    if b then 1 else 0
  }

  /** How many of the homepage and repository links the layout adds (`addedLinks`). */
  function LinkCount(rel: VersionRecord): nat
  {
    Indicator(rel.homepage != "") + Indicator(HasGitSource(rel))
  }

  /** The number of fields before the first spacer. */
  function SetupCount(rel: VersionRecord): nat
  {
    2 + Indicator(|rel.keywords| > 0) + Indicator(PlatformKey in rel.require) + Indicator(rel.license.Some?)
  }

  lemma {:induction false} AuthorFieldsShape(authors: seq<Author>)
    ensures |AuthorFields(authors)| == |authors|
    ensures forall i :: 0 <= i < |authors| ==> AuthorFields(authors)[i] == AuthorField(authors[i])
    decreases |authors|
  {
    if authors != [] {
      AuthorFieldsShape(authors[..|authors| - 1]);
    }
  }

  lemma SetupShape(rel: VersionRecord)
    ensures var s, kw, php := SetupFields(rel), Indicator(|rel.keywords| > 0), Indicator(PlatformKey in rel.require);
            && |s| == SetupCount(rel)
            && s[0] == InstallField(rel.name)
            && (kw == 1 ==> s[1] == KeywordsField(rel.keywords))
            && (php == 1 ==> s[1 + kw] == PlatformField(rel.require[PlatformKey]))
            && s[1 + kw + php] == DependenciesField(rel.require)
            && (rel.license.Some? ==> s[2 + kw + php] == LicenseField(rel.license.value))
  {
  }

  lemma LinkShape(rel: VersionRecord, parse: UrlParser)
    requires LinkFields(rel, parse).Ok?
    ensures var links := LinkFields(rel, parse).value;
            && |links| == LinkCount(rel)
            && forall i :: 0 <= i < |links| ==> links[i].name == "homepage" || links[i].name == "repository"
  {
  }

  /** The layout, piece by piece, when no URL is refused. */
  lemma LayoutShape(rel: VersionRecord, parse: UrlParser)
    requires FieldsFor(rel, parse).Ok?
    ensures var fs, n, a := FieldsFor(rel, parse).value, SetupCount(rel), |rel.authors|;
            var spacer := Indicator(!OmitsSecondSpacer(LinkCount(rel), a));
            && |fs| == n + 1 + LinkCount(rel) + spacer + a
            && fs[..n] == SetupFields(rel)
            && fs[n] == EmptyField
            && fs[n + 1..n + 1 + LinkCount(rel)] == LinkFields(rel, parse).value
            && (spacer == 1 ==> fs[|fs| - a - 1] == EmptyField)
            && fs[|fs| - a..] == AuthorFields(rel.authors)
  {
    FieldsForParts(rel, parse);
    var s, links, authors := SetupFields(rel), LinkFields(rel, parse).value, AuthorFields(rel.authors);
    assert |s| == SetupCount(rel) by { SetupShape(rel); }
    assert |links| == LinkCount(rel) by { LinkShape(rel, parse); }
    assert |authors| == |rel.authors| by { AuthorFieldsShape(rel.authors); }
    var second := !OmitsSecondSpacer(LinkCount(rel), |rel.authors|);
    FiveRuns(FieldsFor(rel, parse).value, s, links, second, authors);
  }

  /** A layout that succeeds is the concatenation of its five runs. */
  lemma FieldsForParts(rel: VersionRecord, parse: UrlParser)
    requires FieldsFor(rel, parse).Ok?
    ensures var links := LinkFields(rel, parse).value;
            && LinkFields(rel, parse).Ok?
            && FieldsFor(rel, parse).value
               == SetupFields(rel) + [EmptyField] + links
                  + (if !OmitsSecondSpacer(|links|, |rel.authors|) then [EmptyField] else [])
                  + AuthorFields(rel.authors)
  {
  }

  /** Where each run of a layout made of setup fields, spacer, links, optional spacer and authors lies. */
  lemma FiveRuns(fs: seq<Field>, setup: seq<Field>, links: seq<Field>, second: bool, authors: seq<Field>)
    requires fs == setup + [EmptyField] + links + (if second then [EmptyField] else []) + authors
    ensures var n, a := |setup|, |authors|;
            && |fs| == n + 1 + |links| + Indicator(second) + a
            && fs[..n] == setup
            && fs[n] == EmptyField
            && fs[n + 1..n + 1 + |links|] == links
            && (Indicator(second) == 1 ==> fs[|fs| - a - 1] == EmptyField)
            && fs[|fs| - a..] == authors
  {
    var n := |setup|;
    assert fs[..n] == setup;
    assert fs[n + 1..n + 1 + |links|] == links;
    assert fs[|fs| - |authors|..] == authors;
  }

  /** The fields after the setup fields are spacers, links and authors only. */
  lemma TailNames(rel: VersionRecord, parse: UrlParser, i: nat)
    requires FieldsFor(rel, parse).Ok?
    requires SetupCount(rel) <= i < |FieldsFor(rel, parse).value|
    ensures var name := FieldsFor(rel, parse).value[i].name;
            name == ZeroWidthSpace || name == "homepage" || name == "repository" || name == "author"
  {
    var s, links, authors := SetupFields(rel), LinkFields(rel, parse).value, AuthorFields(rel.authors);
    var spacer := if OmitsSecondSpacer(|links|, |rel.authors|) then [] else [EmptyField];
    assert FieldsFor(rel, parse).value == s + [EmptyField] + links + spacer + authors;
    assert |s| == SetupCount(rel) by { SetupShape(rel); }
    AfterFirstPart(s, [EmptyField], links, spacer, authors, i);
    var f := FieldsFor(rel, parse).value[i];
    if f in links {
      LinkShape(rel, parse);
    } else if f in authors {
      AuthorFieldsShape(rel.authors);
    }
  }

  /** A field past the first of five concatenated runs comes from one of the other four. */
  lemma AfterFirstPart(a: seq<Field>, b: seq<Field>, c: seq<Field>, d: seq<Field>, e: seq<Field>, i: nat)
    requires |a| <= i < |a| + |b| + |c| + |d| + |e|
    ensures var f := (a + b + c + d + e)[i];
            f in b || f in c || f in d || f in e
  {
    var x := a + b + c + d + e;
    var j := i - |a|;
    if j < |b| {
      assert x[i] == b[j];
    } else if j < |b| + |c| {
      assert x[i] == c[j - |b|];
    } else if j < |b| + |c| + |d| {
      assert x[i] == d[j - |b| - |c|];
    } else {
      assert x[i] == e[j - |b| - |c| - |d|];
    }
  }

  /** The first field is always the install command for the package. */
  lemma InstallFieldFirst(rel: VersionRecord, parse: UrlParser)
    requires FieldsFor(rel, parse).Ok?
    ensures var fs := FieldsFor(rel, parse).value;
            |fs| > 0 && fs[0] == Field("add to your project", BashSnippet("composer require " + rel.name), false)
  {
    LayoutShape(rel, parse);
    SetupShape(rel);
  }

  /** The setup fields open the layout. */
  lemma SetupFieldInLayout(rel: VersionRecord, parse: UrlParser, j: nat)
    requires FieldsFor(rel, parse).Ok? && j < SetupCount(rel)
    ensures j < |FieldsFor(rel, parse).value| && j < |SetupFields(rel)|
    ensures FieldsFor(rel, parse).value[j] == SetupFields(rel)[j]
  {
    LayoutShape(rel, parse);
    assert FieldsFor(rel, parse).value[j] == FieldsFor(rel, parse).value[..SetupCount(rel)][j];
  }

  /** What a setup field named "PHP version" or "dependencies" holds; no setup field is a spacer. */
  lemma SetupFieldAt(rel: VersionRecord, i: nat)
    requires i < |SetupFields(rel)|
    ensures var f := SetupFields(rel)[i];
            && f.name != ZeroWidthSpace
            && (f.name == "PHP version" ==> PlatformKey in rel.require && f == PlatformField(rel.require[PlatformKey]))
            && (f.name == "dependencies" ==> f == DependenciesField(rel.require))
            && (f.name == "keywords" ==> |rel.keywords| > 0 && f == KeywordsField(rel.keywords))
            && (f.name == "license" ==> rel.license.Some? && f == LicenseField(rel.license.value))
  {
    var s, kw, php := SetupFields(rel), Indicator(|rel.keywords| > 0), Indicator(PlatformKey in rel.require);
    SetupShape(rel);
    if i == 0 {
    } else if kw == 1 && i == 1 {
    } else if php == 1 && i == 1 + kw {
    } else if i == 1 + kw + php {
    } else {
      assert rel.license.Some? && i == 2 + kw + php;
    }
  }

  /** Field `i` lies among the setup fields, or is a spacer, a link or an author. */
  lemma SetupOrTail(rel: VersionRecord, parse: UrlParser, i: nat)
    requires FieldsFor(rel, parse).Ok? && i < |FieldsFor(rel, parse).value|
    ensures var f := FieldsFor(rel, parse).value[i];
            || (i < SetupCount(rel) && f == SetupFields(rel)[i])
            || f.name == ZeroWidthSpace || f.name == "homepage" || f.name == "repository" || f.name == "author"
  {
    LayoutShape(rel, parse);
    if i < SetupCount(rel) {
      assert FieldsFor(rel, parse).value[i] == FieldsFor(rel, parse).value[..SetupCount(rel)][i];
    } else {
      TailNames(rel, parse, i);
    }
  }

  /** There is a "PHP version" field exactly when `require` has a "php" key, and it shows that key's constraint. */
  lemma PlatformFieldIffKey(rel: VersionRecord, parse: UrlParser)
    requires FieldsFor(rel, parse).Ok?
    ensures var fs := FieldsFor(rel, parse).value;
            && ((exists i :: 0 <= i < |fs| && fs[i].name == "PHP version") <==> PlatformKey in rel.require)
            && (forall i :: 0 <= i < |fs| && fs[i].name == "PHP version" ==>
                  fs[i] == Field("PHP version", Text(rel.require[PlatformKey]), true))
  {
    var fs := FieldsFor(rel, parse).value;
    var kw := Indicator(|rel.keywords| > 0);
    if PlatformKey in rel.require {
      assert fs[1 + kw] == PlatformField(rel.require[PlatformKey]) by {
        SetupShape(rel);
        SetupFieldInLayout(rel, parse, 1 + kw);
      }
    }
    forall i | 0 <= i < |fs| && fs[i].name == "PHP version"
      ensures PlatformKey in rel.require && fs[i] == PlatformField(rel.require[PlatformKey])
    {
      SetupOrTail(rel, parse, i);
      if i < SetupCount(rel) {
        SetupFieldAt(rel, i);
      }
    }
  }

  /**
   * There is a "keywords" field exactly when the release has keywords; it links every
   * keyword, in order, to the registry's search for that tag.
   */
  lemma KeywordsFieldIffKeywords(rel: VersionRecord, parse: UrlParser)
    requires FieldsFor(rel, parse).Ok?
    ensures var fs := FieldsFor(rel, parse).value;
            && ((exists i :: 0 <= i < |fs| && fs[i].name == "keywords") <==> |rel.keywords| > 0)
            && (forall i :: 0 <= i < |fs| && fs[i].name == "keywords" ==>
                  fs[i] == Field("keywords", Links(KeywordLinks(rel.keywords), ", "), false))
    ensures forall j :: 0 <= j < |rel.keywords| ==>
              KeywordLinks(rel.keywords)[j] == MdLink(rel.keywords[j], TagSearchPrefix + rel.keywords[j])
  {
    var fs := FieldsFor(rel, parse).value;
    if |rel.keywords| > 0 {
      assert fs[1] == KeywordsField(rel.keywords) by {
        SetupShape(rel);
        SetupFieldInLayout(rel, parse, 1);
      }
    }
    forall i | 0 <= i < |fs| && fs[i].name == "keywords"
      ensures |rel.keywords| > 0 && fs[i] == KeywordsField(rel.keywords)
    {
      SetupOrTail(rel, parse, i);
      if i < SetupCount(rel) {
        SetupFieldAt(rel, i);
      }
    }
  }

  /**
   * There is a "license" field exactly when the release gives a licence list; it links every
   * licence, in order, to its page, named by the licence in lower case.
   */
  lemma LicenseFieldIffGiven(rel: VersionRecord, parse: UrlParser)
    requires FieldsFor(rel, parse).Ok?
    ensures var fs := FieldsFor(rel, parse).value;
            && ((exists i :: 0 <= i < |fs| && fs[i].name == "license") <==> rel.license.Some?)
            && (forall i :: 0 <= i < |fs| && fs[i].name == "license" ==>
                  fs[i] == Field("license", Links(LicenseLinks(rel.license.value), " "), true))
    ensures rel.license.Some? ==>
              var ls := rel.license.value;
              forall j :: 0 <= j < |ls| ==>
                LicenseLinks(ls)[j] == MdLink(ls[j], LicensePrefix + ToLower(ls[j]))
  {
    var fs := FieldsFor(rel, parse).value;
    var l := 1 + Indicator(|rel.keywords| > 0) + Indicator(PlatformKey in rel.require) + 1;
    if rel.license.Some? {
      assert fs[l] == LicenseField(rel.license.value) by {
        SetupShape(rel);
        SetupFieldInLayout(rel, parse, l);
      }
    }
    forall i | 0 <= i < |fs| && fs[i].name == "license"
      ensures rel.license.Some? && fs[i] == LicenseField(rel.license.value)
    {
      SetupOrTail(rel, parse, i);
      if i < SetupCount(rel) {
        SetupFieldAt(rel, i);
      }
    }
  }

  /** The "dependencies" field is there, and it counts the `require` entries other than "php". */
  lemma DependenciesFieldCount(rel: VersionRecord, parse: UrlParser)
    requires FieldsFor(rel, parse).Ok?
    ensures var fs := FieldsFor(rel, parse).value;
            && (exists i :: 0 <= i < |fs| && fs[i].name == "dependencies")
            && (forall i :: 0 <= i < |fs| && fs[i].name == "dependencies" ==>
                  fs[i] == Field("dependencies", Count(|rel.require| - Indicator(PlatformKey in rel.require)), true))
  {
    var fs := FieldsFor(rel, parse).value;
    var d := Indicator(|rel.keywords| > 0) + Indicator(PlatformKey in rel.require) + 1;
    assert fs[d] == DependenciesField(rel.require) by {
      SetupShape(rel);
      SetupFieldInLayout(rel, parse, d);
    }
    forall i | 0 <= i < |fs| && fs[i].name == "dependencies"
      ensures fs[i] == DependenciesField(rel.require)
    {
      SetupOrTail(rel, parse, i);
      if i < SetupCount(rel) {
        SetupFieldAt(rel, i);
      }
    }
  }

  /** The dependency count is never negative: a "php" key is one of the entries it is taken from. */
  lemma DependencyCountNonNegative(require: map<string, string>)
    ensures DependencyCount(require) >= 0
  {
    if PlatformKey in require {
      assert PlatformKey in require.Keys;
      assert |require.Keys| >= 1 by {
        assert {PlatformKey} <= require.Keys;
      }
    }
  }

  /**
   * The first spacer always follows the setup fields (install, keywords, PHP version,
   * dependencies, licence); the second stands just before the authors unless there are two
   * links and exactly one author.
   */
  lemma SpacerPlacement(rel: VersionRecord, parse: UrlParser)
    requires FieldsFor(rel, parse).Ok?
    ensures var fs, a := FieldsFor(rel, parse).value, |rel.authors|;
            && SetupCount(rel) < |fs| && fs[SetupCount(rel)] == EmptyField
            && (a < |fs| && fs[|fs| - a - 1] == EmptyField <==> !OmitsSecondSpacer(LinkCount(rel), a))
  {
    var fs, a := FieldsFor(rel, parse).value, |rel.authors|;
    var n := SetupCount(rel);
    var links := LinkFields(rel, parse).value;
    LayoutShape(rel, parse);
    LinkShape(rel, parse);
    if OmitsSecondSpacer(LinkCount(rel), a) {
      assert fs[|fs| - a - 1] == fs[n + 1..n + 1 + LinkCount(rel)][1];
    }
  }

  /** Apart from the two spacers (one when the second is omitted), no field is a spacer. */
  lemma SpacerTotal(rel: VersionRecord, parse: UrlParser)
    requires FieldsFor(rel, parse).Ok?
    ensures SpacerCount(FieldsFor(rel, parse).value) == if OmitsSecondSpacer(LinkCount(rel), |rel.authors|) then 1 else 2
  {
    var s, links, authors := SetupFields(rel), LinkFields(rel, parse).value, AuthorFields(rel.authors);
    var spacer := if OmitsSecondSpacer(|links|, |rel.authors|) then [] else [EmptyField];
    assert FieldsFor(rel, parse).value == s + [EmptyField] + links + spacer + authors;
    LinkShape(rel, parse);
    AuthorFieldsShape(rel.authors);
    forall i | 0 <= i < |s|
      ensures s[i].name != ZeroWidthSpace
    {
      SetupFieldAt(rel, i);
    }
    SpacersBetween(s, links, spacer, authors);
  }

  lemma SpacersBetween(s: seq<Field>, links: seq<Field>, spacer: seq<Field>, authors: seq<Field>)
    requires forall i :: 0 <= i < |s| ==> s[i].name != ZeroWidthSpace
    requires forall i :: 0 <= i < |links| ==> links[i].name != ZeroWidthSpace
    requires forall i :: 0 <= i < |authors| ==> authors[i].name != ZeroWidthSpace
    requires spacer == [] || spacer == [EmptyField]
    ensures SpacerCount(s + [EmptyField] + links + spacer + authors) == 1 + |spacer|
  {
    var a1 := s + [EmptyField];
    var a2 := a1 + links;
    var a3 := a2 + spacer;
    NoSpacerIn(s);
    SpacerCountOfSpacer([EmptyField]);
    SpacerCountAppend(s, [EmptyField]);
    AppendNoSpacer(a1, links);
    SpacerCountOfSpacer(spacer);
    SpacerCountAppend(a2, spacer);
    AppendNoSpacer(a3, authors);
  }

  lemma SpacerCountOfSpacer(spacer: seq<Field>)
    requires spacer == [] || spacer == [EmptyField]
    ensures SpacerCount(spacer) == |spacer|
  {
    if spacer != [] {
      assert spacer[1..] == [];
    }
  }

  /** Appending fields none of which is a spacer adds no spacer. */
  lemma AppendNoSpacer(fs: seq<Field>, more: seq<Field>)
    requires forall i :: 0 <= i < |more| ==> more[i].name != ZeroWidthSpace
    ensures SpacerCount(fs + more) == SpacerCount(fs)
  {
    NoSpacerIn(more);
    SpacerCountAppend(fs, more);
  }

  /** How many spacer fields `fs` holds. */
  function SpacerCount(fs: seq<Field>): nat
  {
    if fs == [] then 0 else Indicator(fs[0] == EmptyField) + SpacerCount(fs[1..])
  }

  lemma {:induction false} SpacerCountAppend(a: seq<Field>, b: seq<Field>)
    ensures SpacerCount(a + b) == SpacerCount(a) + SpacerCount(b)
    decreases |a|
  {
    if a != [] {
      assert (a + b)[1..] == a[1..] + b;
      SpacerCountAppend(a[1..], b);
    } else {
      assert a + b == b;
    }
  }

  lemma {:induction false} NoSpacerIn(fs: seq<Field>)
    requires forall i :: 0 <= i < |fs| ==> fs[i].name != ZeroWidthSpace
    ensures SpacerCount(fs) == 0
    decreases |fs|
  {
    if fs != [] {
      assert fs[0].name != ZeroWidthSpace;
      NoSpacerIn(fs[1..]);
    }
  }

  /** One author field per author, last, in input order, each inline with the author's name. */
  lemma AuthorsLast(rel: VersionRecord, parse: UrlParser)
    requires FieldsFor(rel, parse).Ok?
    ensures var fs, a := FieldsFor(rel, parse).value, rel.authors;
            && |a| <= |fs|
            && forall i :: 0 <= i < |a| ==> fs[|fs| - |a| + i] == Field("author", Text(a[i].name), true)
  {
    var fs, a := FieldsFor(rel, parse).value, rel.authors;
    LayoutShape(rel, parse);
    AuthorFieldsShape(a);
    forall i | 0 <= i < |a|
      ensures fs[|fs| - |a| + i] == Field("author", Text(a[i].name), true)
    {
      assert fs[|fs| - |a| + i] == fs[|fs| - |a|..][i];
    }
  }

  /**
   * The number of fields: install, keywords if any, PHP version if required, dependencies,
   * licence if given, the spacer, the links, the second spacer unless omitted, the authors.
   */
  lemma FieldCount(rel: VersionRecord, parse: UrlParser)
    requires FieldsFor(rel, parse).Ok?
    ensures |FieldsFor(rel, parse).value|
            == 1 + Indicator(|rel.keywords| > 0) + Indicator(PlatformKey in rel.require) + 1
             + Indicator(rel.license.Some?) + 1
             + Indicator(rel.homepage != "") + Indicator(HasGitSource(rel))
             + Indicator(!OmitsSecondSpacer(LinkCount(rel), |rel.authors|)) + |rel.authors|
  {
    LayoutShape(rel, parse);
  }

  /** The layout throws exactly when a homepage, or a ".git" source URL, is refused by the URL parser. */
  lemma FieldsForFails(rel: VersionRecord, parse: UrlParser)
    ensures FieldsFor(rel, parse).Err? <==>
              || (rel.homepage != "" && parse(rel.homepage).None?)
              || (HasGitSource(rel) && parse(rel.source.value.url).None?)
  {
  }

  /**
   * The homepage link is an inline field that targets the homepage itself; when the homepage
   * begins with its own `<protocol>//`, the link text is the URL without that scheme.
   */
  lemma HomepageLinkText(homepage: string, url: ParsedUrl)
    ensures HomepageField(homepage, url).name == "homepage" && HomepageField(homepage, url).inline
    ensures HomepageField(homepage, url).value.SingleLink? && HomepageField(homepage, url).value.link.url == homepage
    ensures OccursAt(homepage, url.protocol + "//", 0) ==>
              HomepageField(homepage, url).value.link.text == homepage[|url.protocol| + 2..]
  {
    var scheme := url.protocol + "//";
    if OccursAt(homepage, scheme, 0) {
      FirstOccurrence(homepage, scheme, 0);
      assert homepage[..0] + "" + homepage[|scheme|..] == homepage[|scheme|..];
    }
  }

  // ---------------------------------------------------------------------------
  // The repository link as the source writes it.

  /**
   * Where ".git" occurs only as the suffix, the source's first-occurrence replacement and
   * the suffix removal build the same link.
   */
  lemma AsWrittenAgreesOnPlainUrls(sourceUrl: string, url: ParsedUrl)
    requires EndsWith(sourceUrl, GitSuffix) && IndexOf(sourceUrl, GitSuffix) == Some(|sourceUrl| - |GitSuffix|)
    requires EndsWith(DropFirst(url.pathname), GitSuffix)
    requires IndexOf(DropFirst(url.pathname), GitSuffix) == Some(|DropFirst(url.pathname)| - |GitSuffix|)
    ensures RepositoryLinkAsWritten(sourceUrl, url) == RepositoryLink(sourceUrl, url)
  {
    ReplaceSuffix(sourceUrl, GitSuffix);
    ReplaceSuffix(DropFirst(url.pathname), GitSuffix);
  }

  lemma GitInPagesUrl()
    ensures IndexOf("https://github.com/o/o.github.io.git", GitSuffix) == Some(22)
  {
    var u := "https://github.com/o/o.github.io.git";
    assert u[..14] == "https://github" && u[15..22] == "com/o/o";
    assert '.' !in u[..14] && '.' !in u[15..22];
    forall j | 0 <= j < 22
      ensures !OccursAt(u, GitSuffix, j)
    {
      if j < 14 {
        assert u[j..j + 4][0] == u[..14][j] != '.';
      } else if j > 14 {
        assert u[j..j + 4][0] == u[15..22][j - 15] != '.';
      } else {
        assert u[j..j + 4][1] == 'c';
      }
    }
    PagesUrlParts();
    ThreeParts("https://github.com/o/o", GitSuffix, "hub.io.git");
    FirstOccurrence(u, GitSuffix, 22);
  }

  lemma GitInPagesPath()
    ensures IndexOf("o/o.github.io.git", GitSuffix) == Some(3)
  {
    var t := "o/o.github.io.git";
    PagesPathParts();
    ThreeParts("o/o", GitSuffix, "hub.io.git");
    assert '.' !in t[..3];
    forall j | 0 <= j < 3
      ensures !OccursAt(t, GitSuffix, j)
    {
      assert t[j..j + 4][0] == t[..3][j] != '.';
    }
    FirstOccurrence(t, GitSuffix, 3);
  }

  /**
   * A repository whose name itself holds ".git" (a GitHub Pages repository, say) loses the
   * wrong ".git": the link still ends with ".git" and points at a repository that does not
   * exist, where the suffix removal gives the repository itself.
   */
  lemma AsWrittenStripsWrongGit()
    ensures var l := RepositoryLinkAsWritten("https://github.com/o/o.github.io.git", ParsedUrl("https:", "/o/o.github.io.git"));
            && l == MdLink("o/ohub.io.git", "https://github.com/o/ohub.io.git")
            && l.url + GitSuffix != "https://github.com/o/o.github.io.git"
    ensures RepositoryLink("https://github.com/o/o.github.io.git", ParsedUrl("https:", "/o/o.github.io.git"))
            == MdLink("o/o.github.io", "https://github.com/o/o.github.io")
  {
    AsWrittenPagesLink();
    WrongGitTarget();
    PagesLinkStripped();
  }

  lemma AsWrittenPagesLink()
    ensures RepositoryLinkAsWritten("https://github.com/o/o.github.io.git", ParsedUrl("https:", "/o/o.github.io.git"))
            == MdLink("o/ohub.io.git", "https://github.com/o/ohub.io.git")
  {
    PagesUrlReplaced();
    PagesPathReplaced();
    assert DropFirst("/o/o.github.io.git") == "o/o.github.io.git";
  }

  lemma WrongGitTarget()
    ensures "https://github.com/o/ohub.io.git" + GitSuffix != "https://github.com/o/o.github.io.git"
  {
    var w := "https://github.com/o/ohub.io.git" + GitSuffix;
    var u := "https://github.com/o/o.github.io.git";
    assert w[22] == 'h' && u[22] == '.';
  }

  lemma PagesUrlReplaced()
    ensures ReplaceFirst("https://github.com/o/o.github.io.git", GitSuffix, "") == "https://github.com/o/ohub.io.git"
  {
    var u := "https://github.com/o/o.github.io.git";
    GitInPagesUrl();
    var before, after := "https://github.com/o/o", "hub.io.git";
    PagesUrlParts();
    CutMiddle(before, GitSuffix, after);
  }

  lemma PagesUrlParts()
    ensures "https://github.com/o/o.github.io.git" == "https://github.com/o/o" + GitSuffix + "hub.io.git"
    ensures "https://github.com/o/o" + "hub.io.git" == "https://github.com/o/ohub.io.git"
  {
  }

  lemma PagesPathReplaced()
    ensures ReplaceFirst("o/o.github.io.git", GitSuffix, "") == "o/ohub.io.git"
  {
    var t := "o/o.github.io.git";
    GitInPagesPath();
    var before, after := "o/o", "hub.io.git";
    PagesPathParts();
    CutMiddle(before, GitSuffix, after);
  }

  lemma PagesPathParts()
    ensures "o/o.github.io.git" == "o/o" + GitSuffix + "hub.io.git"
    ensures "o/o" + "hub.io.git" == "o/ohub.io.git"
  {
  }

  /** Taking the middle part out of a three-part string leaves the outer parts joined. */
  lemma CutMiddle(before: string, middle: string, after: string)
    ensures var s := before + middle + after;
            s[..|before|] + "" + s[|before| + |middle|..] == before + after
  {
    ThreeParts(before, middle, after);
  }

  /** Where each part of a three-part string lies. */
  lemma ThreeParts(before: string, middle: string, after: string)
    ensures var s := before + middle + after;
            && s[..|before|] == before
            && OccursAt(s, middle, |before|)
            && s[|before| + |middle|..] == after
  {
    var s := before + middle + after;
    assert s[..|before|] == before;
    assert s[|before|..|before| + |middle|] == middle;
    assert s[|before| + |middle|..] == after;
  }

  lemma PagesLinkStripped()
    ensures RepositoryLink("https://github.com/o/o.github.io.git", ParsedUrl("https:", "/o/o.github.io.git"))
            == MdLink("o/o.github.io", "https://github.com/o/o.github.io")
  {
    var u := "https://github.com/o/o.github.io.git";
    var t := "o/o.github.io.git";
    assert DropFirst("/o/o.github.io.git") == t;
    assert EndsWith(u, GitSuffix) && EndsWith(t, GitSuffix);
    assert u[..|u| - 4] == "https://github.com/o/o.github.io";
    assert t[..|t| - 4] == "o/o.github.io";
  }

  // ---------------------------------------------------------------------------
  // A worked layout.

  /** A release with no keywords, no "php" key, three dependencies, the MIT licence, a homepage, a ".git" source and one author. */
  const ExampleRelease := VersionRecord(
    "a/b", "1.0.0", "1.0.0.0", "2020-01-01T00:00:00+00:00", [],
    map["x/y" := "^1.0", "p/q" := "^2.0", "r/s" := "^3.0"], Some(["MIT"]),
    "https://example.com/x", Some(Source("https://github.com/a/b.git")), [Author("Jane")])

  /** Its layout: two links and one author, so the second spacer is left out. */
  lemma ExampleLayout(parse: UrlParser)
    requires parse("https://example.com/x") == Some(ParsedUrl("https:", "/x"))
    requires parse("https://github.com/a/b.git") == Some(ParsedUrl("https:", "/a/b.git"))
    ensures FieldsFor(ExampleRelease, parse) == Ok([
              Field("add to your project", BashSnippet("composer require a/b"), false),
              Field("dependencies", Count(3), true),
              Field("license", Links([MdLink("MIT", "https://choosealicense.com/licenses/mit")], " "), true),
              EmptyField,
              Field("homepage", SingleLink(MdLink("example.com/x", "https://example.com/x")), true),
              Field("repository", SingleLink(MdLink("a/b", "https://github.com/a/b")), true),
              Field("author", Text("Jane"), true)])
  {
    ExampleSetup();
    ExampleLinks(parse);
    var setup := SetupFields(ExampleRelease);
    var links := LinkFields(ExampleRelease, parse).value;
    var authors := AuthorFields(ExampleRelease.authors);
    assert authors == [Field("author", Text("Jane"), true)] by {
      assert ExampleRelease.authors[..0] == [];
    }
    assert OmitsSecondSpacer(|links|, |ExampleRelease.authors|);
    assert FieldsFor(ExampleRelease, parse) == Ok(setup + [EmptyField] + links + [] + authors);
    ExampleConcat(setup, links, authors);
  }

  lemma ExampleConcat(setup: seq<Field>, links: seq<Field>, authors: seq<Field>)
    requires |setup| == 3 && |links| == 2 && |authors| == 1
    ensures setup + [EmptyField] + links + [] + authors
            == [setup[0], setup[1], setup[2], EmptyField, links[0], links[1], authors[0]]
  {
  }

  lemma ExampleSetup()
    ensures SetupFields(ExampleRelease) == [
              Field("add to your project", BashSnippet("composer require a/b"), false),
              Field("dependencies", Count(3), true),
              Field("license", Links([MdLink("MIT", "https://choosealicense.com/licenses/mit")], " "), true)]
  {
    var require := ExampleRelease.require;
    assert |require| == 3 by {
      assert require.Keys == {"x/y", "p/q", "r/s"};
    }
    assert PlatformKey !in require;
    ExampleLicense();
    assert "composer require " + "a/b" == "composer require a/b";
  }

  lemma ExampleLicense()
    ensures LicenseLinks(["MIT"]) == [MdLink("MIT", "https://choosealicense.com/licenses/mit")]
  {
    var lower := ToLower("MIT");
    assert lower[0] == 'm' && lower[1] == 'i' && lower[2] == 't';
    assert lower == "mit";
    var ls := LicenseLinks(["MIT"]);
    assert |ls| == 1 && ls[0] == MdLink("MIT", LicensePrefix + lower);
    assert LicensePrefix + "mit" == "https://choosealicense.com/licenses/mit";
  }

  lemma ExampleLinks(parse: UrlParser)
    requires parse("https://example.com/x") == Some(ParsedUrl("https:", "/x"))
    requires parse("https://github.com/a/b.git") == Some(ParsedUrl("https:", "/a/b.git"))
    ensures LinkFields(ExampleRelease, parse) == Ok([
              Field("homepage", SingleLink(MdLink("example.com/x", "https://example.com/x")), true),
              Field("repository", SingleLink(MdLink("a/b", "https://github.com/a/b")), true)])
  {
    ExampleHomepageText();
    var src := "https://github.com/a/b.git";
    assert src[|src| - 4..] == ".git";
    assert EndsWith(src, GitSuffix);
    assert StripGitSuffix(src) == "https://github.com/a/b";
    var path := DropFirst("/a/b.git");
    assert path == "a/b.git";
    assert path[|path| - 4..] == ".git";
    assert StripGitSuffix(path) == "a/b";
    var home := Field("homepage", SingleLink(MdLink("example.com/x", "https://example.com/x")), true);
    var repo := Field("repository", SingleLink(MdLink("a/b", "https://github.com/a/b")), true);
    assert HomepageLinks(ExampleRelease, parse) == Ok([home]);
    assert RepositoryLinks(ExampleRelease, parse) == Ok([repo]);
    assert [home] + [repo] == [home, repo];
  }

  lemma ExampleHomepageText()
    ensures ReplaceFirst("https://example.com/x", "https:" + "//", "") == "example.com/x"
  {
    var h := "https://example.com/x";
    assert "https:" + "//" == "https://";
    assert OccursAt(h, "https://", 0);
    FirstOccurrence(h, "https://", 0);
    assert h[8..] == "example.com/x";
    assert h[..0] + "" + h[8..] == h[8..];
  }
}
