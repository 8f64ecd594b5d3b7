/**
 * Picking the latest release of a package (`findLatestRelease`): one left fold over the
 * values of the `versions` object with a best-so-far accumulator. The accumulator starts
 * as a seed that carries only the normalized version "0.0.0.0"; the seed is `None` here,
 * since it is not a release (it has no `version` and no `time`).
 */
module LatestRelease {
  import opened Wrappers
  import opened VersionOrder
  import opened ComposerTypes

  /** The normalized version of the seed accumulator. */
  const SeedVersion := "0.0.0.0"

  /**
   * The filter that keeps custom branch names out: a dotted version with no `/`
   * (a branch reference) and no `-` (a `dev-` branch or a stability suffix).
   */
  predicate Qualifies(v: string)
  {
    '.' in v && '/' !in v && '-' !in v
  }

  /** What the version comparison throws on: a string that is not a dotted-decimal version. */
  datatype VersionError = InvalidVersion(version: string)

  /** The normalized version the accumulator carries. */
  function LatestVersion(latest: Option<VersionRecord>): string
  {
    if latest.None? then SeedVersion else latest.value.versionNormalized
  }

  /**
   * One step of the fold: `item` replaces `latest` only when it qualifies and ranks strictly
   * higher; the comparison is evaluated only after the filter has passed, and it throws when
   * either side is not a dotted-decimal version.
   */
  function Step(latest: Option<VersionRecord>, item: VersionRecord): Result<Option<VersionRecord>, VersionError>
  {
    var v := item.versionNormalized;
    if !Qualifies(v) then Ok(latest)
    else
      match (ParseDotted(LatestVersion(latest)), ParseDotted(v))
      case (None, _) => Err(InvalidVersion(LatestVersion(latest)))
      case (_, None) => Err(InvalidVersion(v))
      case (Some(a), Some(b)) => if Cmp(a, b) == -1 then Ok(Some(item)) else Ok(latest)
  }

  /** The left fold of `Step` over `items`, stopping at the first throw. */
  function Reduce(latest: Option<VersionRecord>, items: seq<VersionRecord>): Result<Option<VersionRecord>, VersionError>
    decreases |items|
  {
    if items == [] then Ok(latest)
    else
      match Step(latest, items[0])
      case Err(e) => Err(e)
      case Ok(next) => Reduce(next, items[1..])
  }

  /** `findLatestRelease`, without the relative age of the release (a function of the clock). */
  function FindLatestRelease(versions: Versions): Result<Option<VersionRecord>, VersionError>
  {
    Reduce(None, Values(versions))
  }

  // ---------------------------------------------------------------------------
  // Specification of the fold.

  /** The precedence of a version string; only meaningful where it parses. */
  function Precedence(v: string): seq<nat>
  {
    match ParseDotted(v)
    case Some(p) => p
    case None => Zero
  }

  /** Every entry that passes the filter is a dotted-decimal version, so no comparison throws. */
  predicate AllComparable(items: seq<VersionRecord>)
  {
    forall j :: 0 <= j < |items| && Qualifies(items[j].versionNormalized) ==>
      ParseDotted(items[j].versionNormalized).Some?
  }

  /** No qualifying entry ranks above `floor`. */
  predicate NoneAbove(floor: seq<nat>, items: seq<VersionRecord>)
  {
    forall j :: 0 <= j < |items| && Qualifies(items[j].versionNormalized) ==>
      Cmp(Precedence(items[j].versionNormalized), floor) <= 0
  }

  /**
   * `items[k]` qualifies, ranks above `floor`, ranks strictly above every qualifying entry
   * before it and at least as high as every qualifying entry after it: it is the FIRST of
   * the highest-ranked qualifying entries.
   */
  predicate IsFirstHighest(floor: seq<nat>, items: seq<VersionRecord>, k: int)
  {
    && 0 <= k < |items|
    && Qualifies(items[k].versionNormalized)
    && Cmp(floor, Precedence(items[k].versionNormalized)) < 0
    && (forall j :: 0 <= j < k && Qualifies(items[j].versionNormalized) ==>
          Cmp(Precedence(items[j].versionNormalized), Precedence(items[k].versionNormalized)) < 0)
    && (forall j :: k < j < |items| && Qualifies(items[j].versionNormalized) ==>
          Cmp(Precedence(items[j].versionNormalized), Precedence(items[k].versionNormalized)) <= 0)
  }

  /** An accumulator the fold can hold: the seed, or a qualifying dotted-decimal entry. */
  predicate ValidLatest(latest: Option<VersionRecord>)
  {
    latest.Some? ==> Qualifies(latest.value.versionNormalized) && ParseDotted(latest.value.versionNormalized).Some?
  }

  lemma LatestParses(latest: Option<VersionRecord>)
    requires ValidLatest(latest)
    ensures ParseDotted(LatestVersion(latest)) == Some(Precedence(LatestVersion(latest)))
    ensures latest.None? ==> Precedence(LatestVersion(latest)) == Zero
  {
    SeedParses();
  }

  lemma TailComparable(items: seq<VersionRecord>)
    requires items != [] && AllComparable(items)
    ensures AllComparable(items[1..])
  {
    forall j | 0 <= j < |items| - 1 && Qualifies(items[1..][j].versionNormalized)
      ensures ParseDotted(items[1..][j].versionNormalized).Some?
    {
      assert items[1..][j] == items[j + 1];
    }
  }

  /** An entry that does not rank above `floor`, put in front, keeps every entry at or below `floor`. */
  lemma PrependBelow(floor: seq<nat>, items: seq<VersionRecord>)
    requires items != [] && NoneAbove(floor, items[1..])
    requires Qualifies(items[0].versionNormalized) ==> Cmp(Precedence(items[0].versionNormalized), floor) <= 0
    ensures NoneAbove(floor, items)
  {
    forall j | 0 < j < |items| && Qualifies(items[j].versionNormalized)
      ensures Cmp(Precedence(items[j].versionNormalized), floor) <= 0
    {
      assert items[j] == items[1..][j - 1];
    }
  }

  /** An entry that does not rank above `floor`, put in front, leaves the first highest entry the same. */
  lemma PrependKept(floor: seq<nat>, items: seq<VersionRecord>, k: nat)
    requires items != [] && IsFirstHighest(floor, items[1..], k)
    requires Qualifies(items[0].versionNormalized) ==> Cmp(Precedence(items[0].versionNormalized), floor) <= 0
    ensures IsFirstHighest(floor, items, k + 1)
  {
    var rest := items[1..];
    var px := Precedence(items[0].versionNormalized);
    var pk := Precedence(rest[k].versionNormalized);
    assert items[k + 1] == rest[k];
    forall j | 0 <= j < k + 1 && Qualifies(items[j].versionNormalized)
      ensures Cmp(Precedence(items[j].versionNormalized), pk) < 0
    {
      if j == 0 {
        CmpTransitive(px, floor, pk);
      } else {
        assert items[j] == rest[j - 1];
      }
    }
    forall j | k + 1 < j < |items| && Qualifies(items[j].versionNormalized)
      ensures Cmp(Precedence(items[j].versionNormalized), pk) <= 0
    {
      assert items[j] == rest[j - 1];
    }
  }

  /** An entry that ranks above `floor` and above everything after it is the first highest entry. */
  lemma PrependHighest(floor: seq<nat>, items: seq<VersionRecord>)
    requires items != [] && Qualifies(items[0].versionNormalized)
    requires Cmp(floor, Precedence(items[0].versionNormalized)) < 0
    requires NoneAbove(Precedence(items[0].versionNormalized), items[1..])
    ensures IsFirstHighest(floor, items, 0)
  {
    var px := Precedence(items[0].versionNormalized);
    forall j | 0 < j < |items| && Qualifies(items[j].versionNormalized)
      ensures Cmp(Precedence(items[j].versionNormalized), px) <= 0
    {
      assert items[j] == items[1..][j - 1];
    }
  }

  /** An entry that ranks above `floor` but below a later first highest entry leaves that entry first highest. */
  lemma PrependOvertaken(floor: seq<nat>, items: seq<VersionRecord>, k: nat)
    requires items != [] && Qualifies(items[0].versionNormalized)
    requires Cmp(floor, Precedence(items[0].versionNormalized)) < 0
    requires IsFirstHighest(Precedence(items[0].versionNormalized), items[1..], k)
    ensures IsFirstHighest(floor, items, k + 1)
  {
    var rest := items[1..];
    var px := Precedence(items[0].versionNormalized);
    var pk := Precedence(rest[k].versionNormalized);
    assert items[k + 1] == rest[k];
    CmpTransitive(floor, px, pk);
    forall j | 0 <= j < k + 1 && Qualifies(items[j].versionNormalized)
      ensures Cmp(Precedence(items[j].versionNormalized), pk) < 0
    {
      if j > 0 { assert items[j] == rest[j - 1]; }
    }
    forall j | k + 1 < j < |items| && Qualifies(items[j].versionNormalized)
      ensures Cmp(Precedence(items[j].versionNormalized), pk) <= 0
    {
      assert items[j] == rest[j - 1];
    }
  }

  /** The fold's invariant, for any valid accumulator: it keeps it, or picks the first highest entry above it. */
  lemma {:induction false} ReduceSpec(latest: Option<VersionRecord>, items: seq<VersionRecord>)
    requires ValidLatest(latest) && AllComparable(items)
    ensures Reduce(latest, items).Ok?
    ensures ValidLatest(Reduce(latest, items).value)
    ensures var r := Reduce(latest, items).value;
            var floor := Precedence(LatestVersion(latest));
            || (r == latest && NoneAbove(floor, items))
            || (exists k :: IsFirstHighest(floor, items, k) && r == Some(items[k]))
    decreases |items|
  {
    if items != [] {
      var x, rest := items[0], items[1..];
      var floor := Precedence(LatestVersion(latest));
      var px := Precedence(x.versionNormalized);
      LatestParses(latest);
      TailComparable(items);
      var replaced := Qualifies(x.versionNormalized) && Cmp(floor, px) == -1;
      var next := if replaced then Some(x) else latest;
      assert Step(latest, x) == Ok(next);
      ReduceSpec(next, rest);
      var r := Reduce(next, rest).value;
      if !replaced {
        assert Qualifies(x.versionNormalized) ==> Cmp(px, floor) <= 0 by {
          CmpAntisymmetric(floor, px);
        }
        if r == next && NoneAbove(floor, rest) {
          PrependBelow(floor, items);
        } else {
          var k :| IsFirstHighest(floor, rest, k) && r == Some(rest[k]);
          PrependKept(floor, items, k);
          assert r == Some(items[k + 1]);
        }
      } else {
        assert Precedence(LatestVersion(next)) == px;
        if r == next && NoneAbove(px, rest) {
          PrependHighest(floor, items);
          assert r == Some(items[0]);
        } else {
          var k :| IsFirstHighest(px, rest, k) && r == Some(rest[k]);
          PrependOvertaken(floor, items, k);
          assert r == Some(items[k + 1]);
        }
      }
    }
  }

  /** The fold throws exactly when some entry passes the filter but is not a dotted-decimal version. */
  lemma {:induction false} ReduceThrows(latest: Option<VersionRecord>, items: seq<VersionRecord>)
    requires ValidLatest(latest)
    ensures Reduce(latest, items).Err? <==> !AllComparable(items)
    decreases |items|
  {
    if items != [] {
      var x, rest := items[0], items[1..];
      LatestParses(latest);
      ComparableCons(items);
      if Qualifies(x.versionNormalized) && ParseDotted(x.versionNormalized).None? {
        assert Step(latest, x).Err?;
      } else {
        var next := Step(latest, x).value;
        assert ValidLatest(next) && Reduce(latest, items) == Reduce(next, rest);
        ReduceThrows(next, rest);
      }
    }
  }

  lemma ComparableCons(items: seq<VersionRecord>)
    requires items != []
    ensures AllComparable(items) <==>
              && (Qualifies(items[0].versionNormalized) ==> ParseDotted(items[0].versionNormalized).Some?)
              && AllComparable(items[1..])
  {
    if AllComparable(items) {
      TailComparable(items);
    }
    if AllComparable(items[1..]) {
      forall j | 0 < j < |items| && Qualifies(items[j].versionNormalized)
        ensures ParseDotted(items[j].versionNormalized).Some?
      {
        assert items[j] == items[1..][j - 1];
      }
    }
  }

  // ---------------------------------------------------------------------------
  // What findLatestRelease promises.

  /** The comparison throws exactly when a qualifying entry is not a dotted-decimal version. */
  lemma FindLatestReleaseThrows(versions: Versions)
    ensures FindLatestRelease(versions).Err? <==> !AllComparable(Values(versions))
  {
    ReduceThrows(None, Values(versions));
  }

  /** No release is found exactly when no qualifying entry ranks above "0.0.0.0". */
  lemma FindLatestReleaseNone(versions: Versions)
    requires AllComparable(Values(versions))
    ensures FindLatestRelease(versions) == Ok(None) <==> NoneAbove(Zero, Values(versions))
  {
    var items := Values(versions);
    ReduceSpec(None, items);
    LatestParses(None);
    if FindLatestRelease(versions) != Ok(None) {
      var k :| IsFirstHighest(Zero, items, k);
      var pk := Precedence(items[k].versionNormalized);
      CmpAntisymmetric(Zero, pk);
    }
  }

  /** With no qualifying entry at all, the fold hands back the seed: there is no release. */
  lemma NoQualifyingEntryKeepsSeed(versions: Versions)
    requires forall i :: 0 <= i < |versions| ==> !Qualifies(versions[i].1.versionNormalized)
    ensures FindLatestRelease(versions) == Ok(None)
  {
    FindLatestReleaseNone(versions);
  }

  /**
   * A release that is found is an entry of `versions`, it passes the filter (however high a
   * branch name or a `-dev` version ranks, it never wins), it ranks above "0.0.0.0", and it is
   * the first of the highest-ranked qualifying entries.
   */
  lemma FindLatestReleaseFound(versions: Versions, w: VersionRecord)
    requires FindLatestRelease(versions) == Ok(Some(w))
    ensures Qualifies(w.versionNormalized)
    ensures exists i :: 0 <= i < |versions| && versions[i].1 == w
    ensures exists k :: IsFirstHighest(Zero, Values(versions), k) && Values(versions)[k] == w
  {
    var items := Values(versions);
    FindLatestReleaseThrows(versions);
    ReduceSpec(None, items);
    LatestParses(None);
    var k :| IsFirstHighest(Zero, items, k) && Some(w) == Some(items[k]);
    assert versions[k].1 == w;
  }

  /** Every qualifying entry ranks at most as high as the release found. */
  lemma FoundRanksHighest(versions: Versions, w: VersionRecord, j: nat)
    requires FindLatestRelease(versions) == Ok(Some(w))
    requires j < |versions| && Qualifies(versions[j].1.versionNormalized)
    ensures Cmp(Precedence(versions[j].1.versionNormalized), Precedence(w.versionNormalized)) <= 0
  {
    FindLatestReleaseFound(versions, w);
    var items := Values(versions);
    var k :| IsFirstHighest(Zero, items, k) && items[k] == w;
    if j == k {
      CmpReflexive(Precedence(w.versionNormalized));
    } else {
      assert items[j] == versions[j].1;
    }
  }

  /** Conversely, the first of the highest-ranked qualifying entries is the release found, when it ranks above "0.0.0.0". */
  lemma FirstHighestIsFound(versions: Versions, k: nat)
    requires AllComparable(Values(versions))
    requires IsFirstHighest(Zero, Values(versions), k)
    ensures FindLatestRelease(versions) == Ok(Some(versions[k].1))
  {
    var items := Values(versions);
    ReduceSpec(None, items);
    LatestParses(None);
    var pk := Precedence(items[k].versionNormalized);
    if FindLatestRelease(versions) == Ok(None) {
      CmpAntisymmetric(Zero, pk);
    } else {
      var k' :| IsFirstHighest(Zero, items, k') && FindLatestRelease(versions) == Ok(Some(items[k']));
      var pk' := Precedence(items[k'].versionNormalized);
      if k' < k || k < k' {
        CmpAntisymmetric(pk, pk');
      }
    }
  }

  // ---------------------------------------------------------------------------
  // A worked pick.

  /** A release record that differs from the others only in its versions. */
  function ExampleEntry(version: string, normalized: string): (string, VersionRecord)
  {
    (version, VersionRecord("a/b", version, normalized, "", [], map[], None, "", None, []))
  }

  /**
   * A development branch that ranks far above everything is never picked, and "10.0.0.0"
   * wins over "9.1.0.0": parts are compared as numbers, not as text.
   */
  lemma ExamplePick()
    ensures FindLatestRelease([
              ExampleEntry("dev-master", "9999999-dev"),
              ExampleEntry("9.1.0", "9.1.0.0"),
              ExampleEntry("10.0.0", "10.0.0.0")])
            == Ok(Some(ExampleEntry("10.0.0", "10.0.0.0").1))
  {
    var versions := [
      ExampleEntry("dev-master", "9999999-dev"),
      ExampleEntry("9.1.0", "9.1.0.0"),
      ExampleEntry("10.0.0", "10.0.0.0")];
    var items := Values(versions);
    assert items == [versions[0].1, versions[1].1, versions[2].1];
    ExampleSteps();
    assert items[1..][1..][1..] == [];
  }

  lemma ExampleSteps()
    ensures Step(None, ExampleEntry("dev-master", "9999999-dev").1) == Ok(None)
    ensures Step(None, ExampleEntry("9.1.0", "9.1.0.0").1) == Ok(Some(ExampleEntry("9.1.0", "9.1.0.0").1))
    ensures Step(Some(ExampleEntry("9.1.0", "9.1.0.0").1), ExampleEntry("10.0.0", "10.0.0.0").1)
            == Ok(Some(ExampleEntry("10.0.0", "10.0.0.0").1))
  {
    assert !Qualifies("9999999-dev") by { assert "9999999-dev"[7] == '-'; }
    ExampleFirstRelease();
    ExampleSecondRelease();
  }

  lemma ExampleFirstRelease()
    ensures Step(None, ExampleEntry("9.1.0", "9.1.0.0").1) == Ok(Some(ExampleEntry("9.1.0", "9.1.0.0").1))
  {
    assert Qualifies("9.1.0.0") by { assert "9.1.0.0"[1] == '.'; }
    SeedParses();
    NineOneParses();
  }

  lemma ExampleSecondRelease()
    ensures Step(Some(ExampleEntry("9.1.0", "9.1.0.0").1), ExampleEntry("10.0.0", "10.0.0.0").1)
            == Ok(Some(ExampleEntry("10.0.0", "10.0.0.0").1))
  {
    assert Qualifies("10.0.0.0") by { assert "10.0.0.0"[2] == '.'; }
    NineOneParses();
    TenParses();
  }

  lemma NineOneParses()
    ensures ParseDotted("9.1.0.0") == Some([9, 1, 0, 0])
  {
    assert Show([0, 0]) == "0.0";
    assert Show([1, 0, 0]) == "1.0.0";
    assert Show([9, 1, 0, 0]) == "9.1.0.0";
    ParseShow([9, 1, 0, 0]);
  }

  lemma TenParses()
    ensures ParseDotted("10.0.0.0") == Some([10, 0, 0, 0])
  {
    assert Decimal(10) == "10";
    assert Show([0, 0]) == "0.0";
    assert Show([0, 0, 0]) == "0.0.0";
    assert Show([10, 0, 0, 0]) == "10.0.0.0";
    ParseShow([10, 0, 0, 0]);
  }
}
