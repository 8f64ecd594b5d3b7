# Packagist ("composer") result handler — a Dafny model

This project models the core of the chat bot's Packagist command handler
(`src/commands/composer/index.js`). It covers four parts:

- the candidate list built from the first ten search hits;
- the choice of a package's latest release (`findLatestRelease`);
- the display fields built from that release (`extractFieldsFromLatestRelease`, `EMPTY_FIELD`, `createTagLink`);
- the composition of the detail card from these two.

Modules:

- `Wrappers`: `Option` and `Result`.
- `Strings`: the JavaScript string operations the handler relies on.
  - `indexOf` and `replace` with a string pattern. `replace` changes the first occurrence only.
  - `endsWith`, `substr(1)`, and ASCII `toLowerCase`.
- `VersionOrder`: dotted-decimal versions, their parsing and rendering, and the precedence
  used to compare them.
- `ComposerTypes`: the registry's records (search hit, version record, author, source) and
  the display fields. The `versions` object is a sequence of (key, record) properties in the
  order `Object.values` visits them.
- `SearchResults`: the candidate list (`firstTenResults`).
- `LatestRelease`: the reduction over the versions with its best-so-far accumulator.
  - It has a specification: the result is the first of the highest-ranked entries that pass
    the filter, or nothing.
  - It states when the comparison throws.
- `FieldLayout`: the field layout.
  - `FieldsFor` states the whole layout as one sequence.
  - The method `ExtractFields` builds the fields push by push, like the handler, and is proved
    to produce exactly `FieldsFor`.
  - Lemmas state what the layout promises: which fields appear and when, the dependency
    count, where the spacers go and how many there are, and the authors last.
- `DetailCard`: the card title and fields for the chosen package. It is `None` when the
  comparison throws, when no release is found, when the package has no maintainer, when no
  record is stored under the release's version, and when a URL is refused: failures the
  handler's inner `try` swallows.

Modelling decisions:

- The version-comparison library is not part of this model.
  - A version is compared as a dotted-decimal number sequence, part by part, as numbers.
  - A shorter version counts as if padded with zeros.
  - A string that passes the filter but is not dotted-decimal makes the comparison throw.
    The model returns `Err(InvalidVersion(..))` for it.
- The reduction's seed, `{ version_normalized: '0.0.0.0' }`, is not a release. It is `None`
  here, and its precedence is `[0, 0, 0, 0]`.
- When nothing beats the seed, the handler goes on with an undefined `version` and `time`:
  - the age computation receives an invalid date and throws;
  - the inner `catch` at `index.js:113-115` swallows the error;
  - so no card is shown, and the model returns `None`.
  - Returning the seed "0.0.0.0" as a release would not match the code: the handler never
    shows a card for it.
- Entry order matters. A later entry replaces the accumulator only when it ranks strictly
  higher, so among equal-ranked entries the first one wins: iteration order decides ties,
  and the model's specification names the *first* highest entry.
- The runtime's URL parser (`new URL`) is a parameter `parse: string -> Option<ParsedUrl>`.
  `None` means the constructor throws; the whole field extraction then throws
  (`Err(InvalidUrl(..))`).
- Markdown rendering stays symbolic (`FieldValue`: a text, a count, a bash snippet, a list of
  links with their separator, a single link). A field with no `inline` is `inline == false`.
- JavaScript truthiness:
  - a falsy `homepage` is the empty string;
  - `license` is an `Option`, since an empty array is truthy;
  - `keywords.length > 0` and the `require` lookup are modelled as written.
- The platform key is the literal `"php"` (`FieldLayout.PlatformKey`), as in the code.
- The repository link: the code removes the first `".git"` with `.replace`, not the suffix
  (see Findings).
  - `FieldLayout.RepositoryLinkAsWritten` models the code as written.
  - `FieldLayout.RepositoryLink` removes the suffix, which is what the `endsWith('.git')`
    guard at `index.js:243` implies.
  - The layout uses `RepositoryLink` (see "Left out" for where this differs from the code).

## Model

| member | source | states |
|---|---|---|
| Strings.IndexOfFrom | src/commands/composer/index.js:233 | `indexOf` from a start position: the position returned holds the pattern and no earlier one from the start does; none means no position from the start holds it |
| Strings.ReplaceFirst | src/commands/composer/index.js:233 | only the first occurrence of the pattern is replaced; nothing changes when it does not occur |
| Strings.ReplaceSuffix | src/commands/composer/index.js:249-250 | where the first occurrence of the pattern is the suffix, replacing it by nothing removes the suffix |
| Strings.ToLowerSpec | src/commands/composer/index.js:211 | lower-casing keeps the length, leaves no upper-case ASCII letter and keeps every other character |
| Strings.ToLowerIdempotent | src/commands/composer/index.js:211 | lower-casing twice is the same as once |
| VersionOrder.ParseDotted | src/commands/composer/index.js:141 | a version string as the comparison reads it: dotted numeric parts, or none when a part is not numeric; `ParseShow` and `SeedParses` state its round trip and the seed |
| VersionOrder.Cmp | src/commands/composer/index.js:141 | the comparison of two parsed versions, part by part with zero padding; `CmpReflexive`, `CmpAntisymmetric`, `CmpTransitive` and `ZeroIsLeast` state that it is a total order with the seed least |
| VersionOrder.DecimalRoundTrip | src/commands/composer/index.js:141 | a numeric part's decimal rendering reads back to the same number |
| VersionOrder.ParseShow | src/commands/composer/index.js:141 | every dotted-decimal rendering parses back to the parts it was made from |
| VersionOrder.SeedParses | src/commands/composer/index.js:148 | the seed "0.0.0.0" is a valid version with all parts zero |
| VersionOrder.CmpReflexive | src/commands/composer/index.js:141 | a version compares equal to itself |
| VersionOrder.CmpAntisymmetric | src/commands/composer/index.js:141 | comparing the other way round gives the opposite answer, always -1, 0 or 1 |
| VersionOrder.CmpTransitive | src/commands/composer/index.js:141 | the order is transitive, and strictly so when one step is strict |
| VersionOrder.ZeroIsLeast | src/commands/composer/index.js:148 | nothing ranks below the seed, and a version ranks above it exactly when one of its parts is non-zero |
| LatestRelease.Step | src/commands/composer/index.js:133-146 | one reducer call: entries failing the filter keep the accumulator, a strictly higher entry replaces it, and an unparsable version throws; `ReduceSpec` and `ReduceThrows` state what its fold computes |
| LatestRelease.Reduce | src/commands/composer/index.js:132-149 | the left fold of the reducer over the records, stopping at the first throw; `ReduceSpec` and `ReduceThrows` specify it |
| LatestRelease.FindLatestRelease | src/commands/composer/index.js:131-149 | `findLatestRelease` from the seed; `FindLatestReleaseThrows`, `FindLatestReleaseNone`, `FindLatestReleaseFound` and `FirstHighestIsFound` state its result in every case |
| LatestRelease.ReduceSpec | src/commands/composer/index.js:132-149 | when every candidate is comparable, the reduction keeps the accumulator (nothing ranks above it) or picks the first highest-ranked qualifying entry above it |
| LatestRelease.ReduceThrows | src/commands/composer/index.js:136-141 | the reduction throws exactly when an entry passes the filter but is not a dotted-decimal version |
| LatestRelease.FindLatestReleaseThrows | src/commands/composer/index.js:131-149 | finding the latest release throws exactly when a qualifying entry is not comparable |
| LatestRelease.FindLatestReleaseNone | src/commands/composer/index.js:131-149 | no release is found exactly when no qualifying entry ranks above "0.0.0.0" |
| LatestRelease.NoQualifyingEntryKeepsSeed | src/commands/composer/index.js:136-148 | when every entry has a `/` or a `-`, or no `.`, no release is found |
| LatestRelease.FindLatestReleaseFound | src/commands/composer/index.js:131-149 | a release found is an entry of the object, passes the filter and is the first of the highest-ranked qualifying entries |
| LatestRelease.FoundRanksHighest | src/commands/composer/index.js:141-146 | no qualifying entry ranks above the release found |
| LatestRelease.FirstHighestIsFound | src/commands/composer/index.js:131-149 | conversely, the first highest-ranked qualifying entry above "0.0.0.0" is the release found |
| LatestRelease.ExamplePick | src/commands/composer/index.js:136-143 | a `-dev` branch ranking far above everything is skipped, and "10.0.0.0" beats "9.1.0.0" (numeric, not textual, comparison) |
| SearchResults.Splice | src/commands/composer/index.js:39-40 | `splice(0, 10)` removes at most ten hits from the front, and the removed and remaining hits make up the original list |
| SearchResults.Project | src/commands/composer/index.js:41-48 | each hit becomes the candidate at the same position, with every field carried over and favers shown as stars |
| SearchResults.FirstTenResults | src/commands/composer/index.js:39-48 | the list holds the first min(10, n) hits, in order, each as its candidate |
| SearchResults.LaterHitsIgnored | src/commands/composer/index.js:39-40 | hits after the tenth never change the list |
| SearchResults.CandidatesComeFromHits | src/commands/composer/index.js:39-48 | every listed candidate is one of the first ten hits, with its name and star count |
| FieldLayout.TagLink | src/commands/composer/index.js:283 | `createTagLink`: the registry's tag search for the tag; `KeywordsFieldIffKeywords` states each keyword's link |
| FieldLayout.HomepageLinkText | src/commands/composer/index.js:227-240 | the homepage field is inline and links to the homepage; when the homepage begins with its `<protocol>//`, the link text is the rest of the URL |
| FieldLayout.StripGitSuffix | src/commands/composer/index.js:249-250 | a ".git" suffix is removed, and the result plus ".git" is the input; anything else is unchanged |
| FieldLayout.RepositoryLink | src/commands/composer/index.js:246-253 | the repository link targets the source URL without its ".git" suffix, and its text is the path without the leading `/` and the suffix |
| FieldLayout.FieldsFor | src/commands/composer/index.js:161-277 | the whole layout as one value, or the URL failure; `ExtractFields` is proved to build exactly it, and the layout lemmas below state its shape |
| FieldLayout.ExtractFields | src/commands/composer/index.js:161-277 | the fields pushed one by one are exactly the layout `FieldsFor`, including the URL failure |
| FieldLayout.PushLinks | src/commands/composer/index.js:225-260 | pushes the homepage and repository links and counts them in `addedLinks`, or throws on the first URL the parser refuses |
| FieldLayout.PushAuthors | src/commands/composer/index.js:268-274 | appends one author field per author, in order |
| FieldLayout.LayoutShape | src/commands/composer/index.js:170-274 | the layout is the setup fields, a spacer, the links, the second spacer when it is kept, then the authors |
| FieldLayout.InstallFieldFirst | src/commands/composer/index.js:170-175 | the first field is always the `composer require <name>` command |
| FieldLayout.KeywordsFieldIffKeywords | src/commands/composer/index.js:177-184 | there is a keywords field exactly when there are keywords; it links each keyword, in order, to the tag search |
| FieldLayout.PlatformFieldIffKey | src/commands/composer/index.js:186-196 | there is a "PHP version" field exactly when `require` has a "php" key, and it shows that constraint |
| FieldLayout.DependenciesFieldCount | src/commands/composer/index.js:198-202 | the dependencies field is always there and counts the `require` entries minus the "php" one |
| FieldLayout.DependencyCountNonNegative | src/commands/composer/index.js:200 | the dependency count is never negative |
| FieldLayout.LicenseFieldIffGiven | src/commands/composer/index.js:204-217 | there is a license field exactly when a licence list is given; it links each licence, in order, to its lower-cased page |
| FieldLayout.SpacerPlacement | src/commands/composer/index.js:219-266 | a spacer follows the setup fields; another stands before the authors exactly when not (two links and one author) |
| FieldLayout.SpacerTotal | src/commands/composer/index.js:219-266 | the layout holds one spacer with two links and one author, and two otherwise |
| FieldLayout.TailNames | src/commands/composer/index.js:219-274 | after the setup fields come only spacers, homepage and repository links and author fields |
| FieldLayout.AuthorsLast | src/commands/composer/index.js:268-274 | the last fields are one inline author field per author, in order |
| FieldLayout.FieldCount | src/commands/composer/index.js:170-274 | the number of fields follows from the presence of keywords, php, licence, homepage, ".git" source, the spacer rule and the author count |
| FieldLayout.FieldsForFails | src/commands/composer/index.js:227-244 | the extraction throws exactly when a homepage, or a ".git" source URL, is refused by the URL parser |
| FieldLayout.AsWrittenAgreesOnPlainUrls | src/commands/composer/index.js:249-250 | where ".git" occurs only as the suffix, the code's `.replace` and the suffix removal give the same link |
| FieldLayout.AsWrittenStripsWrongGit | src/commands/composer/index.js:249-250 | for "https://github.com/o/o.github.io.git" the code's link loses the inner ".git" and keeps the suffix, where the corrected link names the repository |
| FieldLayout.ExampleLayout | src/commands/composer/index.js:161-277 | a release with no keywords, three dependencies, MIT, a homepage, a ".git" source and one author gives seven fields with no second spacer |
| DetailCard.Lookup | src/commands/composer/index.js:109 | the record returned is stored under the key; there is none exactly when no property has that key |
| DetailCard.Title | src/commands/composer/index.js:101 | the title is the package name, then " *(", the release version and ")*" |
| DetailCard.RenderLatestRelease | src/commands/composer/index.js:97-115 | the card, or none when the inner `try` swallows a failure; the lemmas below state when each case happens |
| DetailCard.LookupFinds | src/commands/composer/index.js:109 | in an object (unique keys), looking up a property's key returns its record |
| DetailCard.IncomparableVersionAbandons | src/commands/composer/index.js:97-115 | a qualifying version that cannot be compared leaves no card |
| DetailCard.NoReleaseAbandons | src/commands/composer/index.js:97-115 | with no qualifying release there is no card |
| DetailCard.NoMaintainerAbandons | src/commands/composer/index.js:104-107 | a package with an empty maintainer list gets no card, since `maintainers[0]` throws |
| DetailCard.CardShowsLatest | src/commands/composer/index.js:97-109 | a card is only shown for a package with a maintainer; it names the first highest-ranked release and shows the layout of the record stored under its version |
| DetailCard.LatestGetsCard | src/commands/composer/index.js:97-110 | when releases are keyed by their version and the package has a maintainer, the first highest-ranked release gets the card built from its own record unless a URL is refused; without a maintainer or with a refused URL there is none |

## Left out

- Network access is not modelled: the search, the detail fetch and the error replies (`getData`, `useData`, `msg.reply`).
- Discord messaging is not modelled: sending and editing embeds, and waiting for the user's reaction (`getChosenResult`).
- The relative age of a release (`formatDistanceToNow`) depends on the clock and is not modelled. Nor is the footer (`generateDetailedFooter`).
- Rendering the candidate list's description is not modelled: `createDescription`, `adjustDescriptionLength` and the markdown list items. `src/utils/discordTools` is not part of this model.
- The card's author and icon (`maintainers[0]`) and its direct URL are not modelled; only the number of maintainers is, since an empty list makes the handler throw.
- The markdown helpers (`createMarkdownLink`, `createMarkdownBash`) stay symbolic in `FieldValue`; the joined strings are not built.
- VersionOrder.ParseDotted: the comparison library is not part of this model.
  - Strings the library may accept beyond dotted decimals count as throwing here: a leading `v`, `+build` metadata, wildcards.
  - The model accepts any number of parts, where the library may refuse long ones.
  - The library reads each part with `parseInt`, a double: parts above 2^53 can compare equal there, while the model compares them by exact value.
- Strings.ToLower: lower-cases ASCII letters only, not the rest of Unicode.
- The model assumes the registry's fields are present: a missing `keywords`, `require`, `authors` or `source.url` makes the JavaScript throw a `TypeError`, and that is not modelled.
- DetailCard.RenderLatestRelease: the handler also abandons the card when the release's `time` is not a valid date; the model does not read `time`.
- FieldLayout.FieldsFor: builds the repository link with the corrected suffix removal (`RepositoryLink`). Where ".git" also occurs earlier in the source URL or its path, the handler's link differs (see Findings; `AsWrittenAgreesOnPlainUrls` shows they agree otherwise).
- FieldLayout.ExtractFields: the same corrected repository link as `FieldsFor`, and so does `DetailCard.RenderLatestRelease`.
- SearchResults.Splice: returns the remaining hits as a value; the handler's in-place mutation of `results` is not modelled, since nothing reads `results` afterwards.
- `src/index.js` (command routing) is not part of this model.

## Findings

| source | as written | input that shows it | evidently intended | confidence | as-written member | corrected member |
|---|---|---|---|---|---|---|
| src/commands/composer/index.js:249-250 | `.replace('.git', '')` removes the first ".git" anywhere in the repository URL and path | source URL "https://github.com/o/o.github.io.git" gives the link "o/ohub.io.git" → "https://github.com/o/ohub.io.git" | remove only the ".git" suffix the guard at line 243 checked: "o/o.github.io" → "https://github.com/o/o.github.io" | not executed | FieldLayout.AsWrittenStripsWrongGit | FieldLayout.RepositoryLink |
