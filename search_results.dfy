/**
 * The candidate list of a registry search: the handler keeps at most the first ten hits,
 * in the registry's order, and renames the registry's `favers` to `stars`.
 */
module SearchResults {
  import opened ComposerTypes

  /** How many hits the list shows at most. */
  const ListSize := 10

  function Min(a: int, b: int): int
  {
    if a <= b then a else b
  }

  /**
   * `results.splice(start, count)` for a start within the list: the removed run (at most
   * `count` hits from `start`) and what is left in `results` afterwards.
   */
  function Splice(results: seq<SearchHit>, start: nat, count: nat): (r: (seq<SearchHit>, seq<SearchHit>))
    requires start <= |results|
    ensures |r.0| == Min(count, |results| - start)
    ensures |r.1| == |results| - |r.0|
    ensures r.1[..start] + r.0 + r.1[start..] == results
  {
    var end := start + Min(count, |results| - start);
    (results[start..end], results[..start] + results[end..])
  }

  /** One hit as a list candidate. */
  function ToCandidate(hit: SearchHit): (c: Candidate)
    ensures c.name == hit.name && c.description == hit.description && c.url == hit.url
    ensures c.repository == hit.repository && c.downloads == hit.downloads
    ensures c.stars == hit.favers
  {
    Candidate(hit.name, hit.description, hit.url, hit.repository, hit.downloads, hit.favers)
  }

  /** Each hit as a candidate, in order. */
  function Project(hits: seq<SearchHit>): (cs: seq<Candidate>)
    ensures |cs| == |hits|
    ensures forall i :: 0 <= i < |hits| ==> cs[i].name == hits[i].name && cs[i].stars == hits[i].favers
    ensures forall i :: 0 <= i < |hits| ==> cs[i].description == hits[i].description && cs[i].url == hits[i].url
    ensures forall i :: 0 <= i < |hits| ==> cs[i].repository == hits[i].repository && cs[i].downloads == hits[i].downloads
  {
    if hits == [] then [] else [ToCandidate(hits[0])] + Project(hits[1..])
  }

  /**
   * `firstTenResults`: the first ten hits (all of them when there are fewer), each with
   * every field it had and its `favers` shown as `stars`.
   */
  function FirstTenResults(results: seq<SearchHit>): (r: seq<Candidate>)
    ensures |r| == Min(ListSize, |results|) && |r| <= ListSize
    ensures forall i :: 0 <= i < |r| ==> r[i] == ToCandidate(results[i])
  {
    var removed := Splice(results, 0, ListSize).0;
    assert removed == results[..|removed|] by {
      assert Splice(results, 0, ListSize).1[..0] == [];
    }
    var cs := Project(removed);
    assert forall i :: 0 <= i < |cs| ==> cs[i] == ToCandidate(removed[i]);
    cs
  }

  /** Hits after the tenth never reach the list. */
  lemma LaterHitsIgnored(results: seq<SearchHit>, more: seq<SearchHit>)
    requires |results| >= ListSize
    ensures FirstTenResults(results + more) == FirstTenResults(results)
  {
    var a, b := FirstTenResults(results + more), FirstTenResults(results);
    assert |a| == |b|;
    forall i | 0 <= i < |a|
      ensures a[i] == b[i]
    {
      assert (results + more)[i] == results[i];
    }
  }

  /** Every candidate on the list is a hit of the search, shown at the hit's own position. */
  lemma CandidatesComeFromHits(results: seq<SearchHit>, c: Candidate)
    requires c in FirstTenResults(results)
    ensures exists i :: 0 <= i < Min(ListSize, |results|) && results[i].name == c.name && results[i].favers == c.stars
  {
    var r := FirstTenResults(results);
    var i :| 0 <= i < |r| && r[i] == c;
    assert results[i].name == c.name && results[i].favers == c.stars;
  }
}
