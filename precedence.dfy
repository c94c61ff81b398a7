/**
 * Version precedence as latest_version.py computes it: identifiers, build
 * metadata, the pre-release tail and the recursive comparison of tails.
 * Comparators answer -1, 0 or 1, like the Python functions passed to
 * `functools.cmp_to_key`.
 */
module Precedence {
  import opened Wrappers
  import opened Strings

  /** `is_int`: Python's `int()` accepts the identifier (modelled as a non-empty run of ASCII digits). */
  predicate IsInt(s: string)
    ensures IsInt(s) ==> ParseInt(s).Some? && ParseInt(s).value >= 0
    ensures '-' !in s && '+' !in s ==> (IsInt(s) <==> ParseInt(s).Some?)
  {
    IsDigits(s)
  }

  /** `compare_identifiers` */
  function CompareIdentifiers(a: string, b: string): (c: int)
    ensures -1 <= c <= 1
    ensures c == 0 <==> a == b || (IsInt(a) && IsInt(b) && DigitsValue(a) == DigitsValue(b))
  {
    if IsInt(a) && IsInt(b) then
      var i, j := DigitsValue(a), DigitsValue(b);
      if i > j then 1 else if j > i then -1 else 0
    else if IsInt(a) then -1
    else if IsInt(b) then 1
    else LexCompare(a, b)
  }

  /** `remove_build`: everything before the first '+'. */
  function RemoveBuild(s: string): (r: string)
    ensures '+' !in r
    ensures StartsWith(s, r)
    ensures '+' !in s ==> r == s
    ensures '+' in s ==> s[|r|] == '+'
  {
    FindChar(s, '+');
    var i := Find(s, "+");
    if i < 0 then s else s[..i]
  }

  /** `get_version_and_prerelease`: split at the first '-'; the tail is absent when there is none. */
  function GetVersionAndPrerelease(s: string): (r: (string, Option<string>))
    ensures '-' !in r.0
    ensures r.1.None? <==> '-' !in s
    ensures r.1.None? ==> r.0 == s
    ensures r.1.Some? ==> s == r.0 + "-" + r.1.value
  {
    FindChar(s, '-');
    var i := Find(s, "-");
    if i < 0 then (s, None)
    else
      assert s == s[..i] + "-" + s[i + 1..];
      (s[..i], Some(s[i + 1..]))
  }

  /**
   * The identifier walk of `compare_versions`: the first pair that differs
   * decides; when every pair is equal, the list with identifiers left over is greater.
   */
  function CompareIdentifierLists(xs: seq<string>, ys: seq<string>): (c: int)
    ensures -1 <= c <= 1
  {
    if |xs| == 0 && |ys| == 0 then 0
    else if |xs| == 0 then -1
    else if |ys| == 0 then 1
    else
      var c := CompareIdentifiers(xs[0], ys[0]);
      if c != 0 then c else CompareIdentifierLists(xs[1..], ys[1..])
  }

  /**
   * `compare_versions(a, b)` as every caller invokes it (`prStripped` left at
   * False, also in the recursive call, so a tail is split again at its own '-').
   */
  function CompareVersions(a: string, b: string): (c: int)
    ensures -1 <= c <= 1
    decreases |a| + |b|
  {
    var a', b' := RemoveBuild(a), RemoveBuild(b);
    var (aVersion, aPrerelease) := GetVersionAndPrerelease(a');
    var (bVersion, bPrerelease) := GetVersionAndPrerelease(b');
    var c := CompareIdentifierLists(Split(aVersion, '.'), Split(bVersion, '.'));
    if c != 0 then c
    else if aPrerelease.None? && bPrerelease.None? then 0
    else if aPrerelease.None? then 1
    else if bPrerelease.None? then -1
    else CompareVersions(aPrerelease.value, bPrerelease.value)
  }

  /** The zip loop of `compare_versions` with its early return, then the length test. */
  method ZipCompare(xs: seq<string>, ys: seq<string>) returns (c: int)
    ensures c == CompareIdentifierLists(xs, ys)
  {
    var i := 0;
    while i < |xs| && i < |ys|
      invariant 0 <= i <= |xs| && 0 <= i <= |ys|
      invariant CompareIdentifierLists(xs, ys) == CompareIdentifierLists(xs[i..], ys[i..])
    {
      c := CompareIdentifiers(xs[i], ys[i]);
      if c != 0 {
        return;
      }
      assert xs[i..][1..] == xs[i + 1..] && ys[i..][1..] == ys[i + 1..];
      i := i + 1;
    }
    if |xs| > |ys| {
      c := 1;
    } else if |ys| > |xs| {
      c := -1;
    } else {
      c := 0;
    }
  }

  // ---------------------------------------------------------------------------
  // Identifier order

  lemma CompareIdentifiersAntisymmetric(a: string, b: string)
    ensures CompareIdentifiers(a, b) == -CompareIdentifiers(b, a)
  {
    LexCompareAntisymmetric(a, b);
  }

  lemma CompareIdentifiersTransitive(a: string, b: string, c: string)
    requires CompareIdentifiers(a, b) <= 0 && CompareIdentifiers(b, c) <= 0
    ensures CompareIdentifiers(a, c) <= 0
  {
    if !IsInt(a) && !IsInt(b) && !IsInt(c) {
      LexCompareTransitive(a, b, c);
    }
  }

  /** Numeric identifiers rank below every non-numeric one. */
  lemma NumericBelowAlphanumeric(a: string, b: string)
    requires IsInt(a) && !IsInt(b)
    ensures CompareIdentifiers(a, b) == -1 && CompareIdentifiers(b, a) == 1
  {
  }

  /** Two non-numeric identifiers compare by code points. */
  lemma AlphanumericByCodePoints(a: string, b: string)
    requires !IsInt(a) && !IsInt(b)
    ensures CompareIdentifiers(a, b) == LexCompare(a, b)
  {
  }

  /** Two numeric identifiers compare by the values of their digits, whatever their text. */
  lemma NumericByValue(a: string, b: string)
    requires IsInt(a) && IsInt(b)
    ensures CompareIdentifiers(a, b) < 0 <==> DigitsValue(a) < DigitsValue(b)
    ensures CompareIdentifiers(a, b) == 0 <==> DigitsValue(a) == DigitsValue(b)
    ensures CompareIdentifiers(a, b) > 0 <==> DigitsValue(a) > DigitsValue(b)
  {
  }

  /** Numeric identifiers compare by value, not as text: "01" equals "1", "10" is above "9". */
  lemma NumericByValueExamples()
    ensures CompareIdentifiers("01", "1") == 0
    ensures CompareIdentifiers("10", "9") == 1
    ensures LexCompare("10", "9") == -1
  {
    assert DigitsValue("01") == 1 by {
      assert "01"[..1] == "0";
    }
    assert DigitsValue("10") == 10 by {
      assert "10"[..1] == "1";
    }
  }

  // ---------------------------------------------------------------------------
  // Identifier-list order

  lemma {:induction false} CompareIdentifierListsReflexive(xs: seq<string>)
    ensures CompareIdentifierLists(xs, xs) == 0
  {
    if |xs| > 0 {
      CompareIdentifierListsReflexive(xs[1..]);
    }
  }

  lemma {:induction false} CompareIdentifierListsAntisymmetric(xs: seq<string>, ys: seq<string>)
    ensures CompareIdentifierLists(xs, ys) == -CompareIdentifierLists(ys, xs)
  {
    if |xs| > 0 && |ys| > 0 {
      CompareIdentifiersAntisymmetric(xs[0], ys[0]);
      CompareIdentifierListsAntisymmetric(xs[1..], ys[1..]);
    }
  }

  lemma {:induction false} CompareIdentifierListsTransitive(xs: seq<string>, ys: seq<string>, zs: seq<string>)
    requires CompareIdentifierLists(xs, ys) <= 0 && CompareIdentifierLists(ys, zs) <= 0
    ensures CompareIdentifierLists(xs, zs) <= 0
  {
    if |xs| > 0 && |ys| > 0 && |zs| > 0 {
      var a, b, c := xs[0], ys[0], zs[0];
      CompareIdentifiersTransitive(a, b, c);
      CompareIdentifiersAntisymmetric(a, b);
      CompareIdentifiersAntisymmetric(b, c);
      CompareIdentifiersAntisymmetric(a, c);
      if CompareIdentifiers(a, c) == 0 {
        // a ~ c forces a ~ b ~ c, so the comparison moves to the rest of the lists
        CompareIdentifiersTransitive(c, a, b);
        CompareIdentifiersTransitive(b, c, a);
        CompareIdentifierListsTransitive(xs[1..], ys[1..], zs[1..]);
      }
    }
  }

  /**
   * If every identifier of the shorter list compares equal to the one at the
   * same place in the longer list (equal as text or as numbers), the longer
   * list is greater.
   */
  lemma {:induction false} LongerListGreater(xs: seq<string>, ys: seq<string>)
    requires |xs| < |ys|
    requires forall i :: 0 <= i < |xs| ==> CompareIdentifiers(xs[i], ys[i]) == 0
    ensures CompareIdentifierLists(xs, ys) == -1
    ensures CompareIdentifierLists(ys, xs) == 1
  {
    if |xs| > 0 {
      assert CompareIdentifiers(xs[0], ys[0]) == 0;
      CompareIdentifiersAntisymmetric(xs[0], ys[0]);
      forall i | 0 <= i < |xs[1..]|
        ensures CompareIdentifiers(xs[1..][i], ys[1..][i]) == 0
      {
        assert xs[1..][i] == xs[i + 1] && ys[1..][i] == ys[i + 1];
      }
      LongerListGreater(xs[1..], ys[1..]);
    }
  }

  /** "1.01" against "1.1.0": the shared identifiers compare equal as numbers, so the longer list wins. */
  lemma LongerListGreaterExample()
    ensures CompareIdentifierLists(["1", "01"], ["1", "1", "0"]) == -1
  {
    var xs, ys := ["1", "01"], ["1", "1", "0"];
    assert DigitsValue("01") == 1 by {
      assert "01"[..1] == "0";
    }
    assert CompareIdentifiers(xs[0], ys[0]) == 0;
    assert CompareIdentifiers(xs[1], ys[1]) == 0;
    LongerListGreater(xs, ys);
  }

  // ---------------------------------------------------------------------------
  // Version order

  lemma {:induction false} CompareVersionsReflexive(a: string)
    ensures CompareVersions(a, a) == 0
    decreases |a|
  {
    var (v, pre) := GetVersionAndPrerelease(RemoveBuild(a));
    CompareIdentifierListsReflexive(Split(v, '.'));
    if pre.Some? {
      CompareVersionsReflexive(pre.value);
    }
  }

  lemma {:induction false} CompareVersionsAntisymmetric(a: string, b: string)
    ensures CompareVersions(a, b) == -CompareVersions(b, a)
    decreases |a| + |b|
  {
    var (av, ap) := GetVersionAndPrerelease(RemoveBuild(a));
    var (bv, bp) := GetVersionAndPrerelease(RemoveBuild(b));
    CompareIdentifierListsAntisymmetric(Split(av, '.'), Split(bv, '.'));
    if ap.Some? && bp.Some? {
      CompareVersionsAntisymmetric(ap.value, bp.value);
    }
  }

  lemma {:induction false} CompareVersionsTransitive(a: string, b: string, c: string)
    requires CompareVersions(a, b) <= 0 && CompareVersions(b, c) <= 0
    ensures CompareVersions(a, c) <= 0
    decreases |a| + |b| + |c|
  {
    var (av, ap) := GetVersionAndPrerelease(RemoveBuild(a));
    var (bv, bp) := GetVersionAndPrerelease(RemoveBuild(b));
    var (cv, cp) := GetVersionAndPrerelease(RemoveBuild(c));
    var xs, ys, zs := Split(av, '.'), Split(bv, '.'), Split(cv, '.');
    CompareIdentifierListsTransitive(xs, ys, zs);
    CompareIdentifierListsAntisymmetric(xs, ys);
    CompareIdentifierListsAntisymmetric(ys, zs);
    CompareIdentifierListsAntisymmetric(xs, zs);
    if CompareIdentifierLists(xs, zs) == 0 {
      CompareIdentifierListsTransitive(zs, xs, ys);
      CompareIdentifierListsTransitive(ys, zs, xs);
      assert CompareIdentifierLists(xs, ys) == 0 && CompareIdentifierLists(ys, zs) == 0;
      if ap.Some? && bp.Some? && cp.Some? {
        CompareVersionsTransitive(ap.value, bp.value, cp.value);
      }
    }
  }

  /** A strictly lower version followed by a lower-or-equal one stays strictly lower. */
  lemma CompareVersionsStrict(a: string, b: string, c: string)
    requires CompareVersions(a, b) <= 0 && CompareVersions(b, c) <= 0
    requires CompareVersions(a, b) < 0 || CompareVersions(b, c) < 0
    ensures CompareVersions(a, c) < 0
  {
    CompareVersionsTransitive(a, b, c);
    CompareVersionsAntisymmetric(a, b);
    CompareVersionsAntisymmetric(b, c);
    CompareVersionsAntisymmetric(a, c);
    if CompareVersions(a, c) == 0 {
      CompareVersionsTransitive(c, a, b);
      CompareVersionsTransitive(b, c, a);
    }
  }

  /** Build metadata is ignored: comparing equals comparing with the builds removed. */
  lemma BuildMetadataIgnored(a: string, b: string)
    ensures CompareVersions(a, b) == CompareVersions(RemoveBuild(a), RemoveBuild(b))
  {
    assert RemoveBuild(RemoveBuild(a)) == RemoveBuild(a);
    assert RemoveBuild(RemoveBuild(b)) == RemoveBuild(b);
  }

  /** Appending `+build` to a version leaves it equal to the bare version. */
  lemma BuildSuffixIgnored(v: string, build: string)
    requires '+' !in v
    ensures CompareVersions(v + "+" + build, v) == 0
  {
    var s := v + "+" + build;
    FindChar(s, '+');
    assert s[|v|] == '+';
    assert RemoveBuild(s) == v;
    CompareVersionsReflexive(v);
  }

  /** Joining a version and a tail with '-' adds no '+'. */
  lemma JoinedNoPlus(v: string, tail: string)
    requires '+' !in v && '+' !in tail
    ensures '+' !in v + "-" + tail
  {
    var s := v + "-" + tail;
    forall i | 0 <= i < |s|
      ensures s[i] != '+'
    {
      if i < |v| {
        assert s[i] == v[i];
      } else if i > |v| {
        assert s[i] == tail[i - |v| - 1];
      }
    }
  }

  /** Splitting `v + "-" + tail` at its first '-' gives `v` and `tail` back when `v` has no '-'. */
  lemma SplitJoinedAtHyphen(v: string, tail: string)
    requires '-' !in v
    ensures GetVersionAndPrerelease(v + "-" + tail) == (v, Some(tail))
  {
    var s := v + "-" + tail;
    FindChar(s, '-');
    assert s[|v|] == '-';
    assert forall p :: 0 <= p < |v| ==> s[p] == v[p];
    assert s[..|v|] == v && s[|v| + 1..] == tail;
  }

  /** The dotted part of a version: what precedes the first '-' once the build is removed. */
  function VersionCore(a: string): string {
    GetVersionAndPrerelease(RemoveBuild(a)).0
  }

  /** When the dotted parts differ, they decide the comparison, whatever tails follow. */
  lemma CoreDecides(a: string, b: string)
    requires CompareIdentifierLists(Split(VersionCore(a), '.'), Split(VersionCore(b), '.')) != 0
    ensures CompareVersions(a, b) == CompareIdentifierLists(Split(VersionCore(a), '.'), Split(VersionCore(b), '.'))
  {
  }

  /**
   * A version with a pre-release tail ranks below one without a tail whose dotted
   * part compares equal, in both argument orders.
   */
  lemma ReleaseAbovePrerelease(v: string, w: string, tail: string)
    requires '+' !in v && '+' !in tail && '-' !in v
    requires '+' !in w && '-' !in w
    requires CompareIdentifierLists(Split(v, '.'), Split(w, '.')) == 0
    ensures CompareVersions(v + "-" + tail, w) == -1
    ensures CompareVersions(w, v + "-" + tail) == 1
  {
    var s := v + "-" + tail;
    JoinedNoPlus(v, tail);
    assert RemoveBuild(s) == s && RemoveBuild(w) == w;
    SplitJoinedAtHyphen(v, tail);
    assert GetVersionAndPrerelease(w) == (w, None);
    CompareIdentifierListsAntisymmetric(Split(v, '.'), Split(w, '.'));
    assert CompareIdentifierLists(Split(w, '.'), Split(v, '.')) == 0;
  }

  /** The case of one and the same dotted part. */
  lemma ReleaseAboveOwnPrerelease(v: string, tail: string)
    requires '+' !in v && '+' !in tail && '-' !in v
    ensures CompareVersions(v + "-" + tail, v) == -1
    ensures CompareVersions(v, v + "-" + tail) == 1
  {
    CompareIdentifierListsReflexive(Split(v, '.'));
    ReleaseAbovePrerelease(v, v, tail);
  }

  /** When the dotted parts tie, two pre-release tails are compared as versions of their own. */
  lemma BothTailsRecurse(v: string, w: string, ta: string, tb: string)
    requires '+' !in v && '+' !in ta && '-' !in v
    requires '+' !in w && '+' !in tb && '-' !in w
    requires CompareIdentifierLists(Split(v, '.'), Split(w, '.')) == 0
    ensures CompareVersions(v + "-" + ta, w + "-" + tb) == CompareVersions(ta, tb)
  {
    JoinedNoPlus(v, ta);
    JoinedNoPlus(w, tb);
    SplitJoinedAtHyphen(v, ta);
    SplitJoinedAtHyphen(w, tb);
  }

  /** A version with no pre-release tail and no build compares by its dotted core alone. */
  lemma CompareWithoutTails(v: string, w: string)
    requires '+' !in v && '-' !in v && '+' !in w && '-' !in w
    ensures CompareVersions(v, w) == CompareIdentifierLists(Split(v, '.'), Split(w, '.'))
  {
  }

  lemma {:induction false} JoinAvoids(parts: seq<string>, sep: char, c: char)
    requires c != sep
    requires forall i :: 0 <= i < |parts| ==> c !in parts[i]
    ensures c !in Join(parts, sep)
  {
    if |parts| > 1 {
      JoinAvoids(parts[1..], sep, c);
    }
  }

  /**
   * Two pre-releases of the same core rank by their dot-separated identifiers,
   * field by field, numeric ones by value and below alphanumeric ones, a longer
   * list above its own prefix (section 11.4 of Semantic Versioning 2.0.0), as long
   * as no identifier holds a '-'.
   */
  lemma PrereleaseTailsByIdentifiers(v: string, xs: seq<string>, ys: seq<string>)
    requires '+' !in v && '-' !in v
    requires |xs| >= 1 && |ys| >= 1
    requires forall i :: 0 <= i < |xs| ==> '.' !in xs[i] && '-' !in xs[i] && '+' !in xs[i]
    requires forall i :: 0 <= i < |ys| ==> '.' !in ys[i] && '-' !in ys[i] && '+' !in ys[i]
    ensures CompareVersions(v + "-" + Join(xs, '.'), v + "-" + Join(ys, '.')) == CompareIdentifierLists(xs, ys)
  {
    var ta, tb := Join(xs, '.'), Join(ys, '.');
    JoinAvoids(xs, '.', '+');
    JoinAvoids(xs, '.', '-');
    JoinAvoids(ys, '.', '+');
    JoinAvoids(ys, '.', '-');
    CompareIdentifierListsReflexive(Split(v, '.'));
    BothTailsRecurse(v, v, ta, tb);
    CompareWithoutTails(ta, tb);
    SplitOfJoin(xs, '.');
    SplitOfJoin(ys, '.');
  }

  lemma {:induction false} LexCompareExtension(a: string, x: string)
    requires |x| > 0
    ensures LexCompare(a + x, a) == 1
  {
    if |a| > 0 {
      assert (a + x)[1..] == a[1..] + x;
      LexCompareExtension(a[1..], x);
    }
  }

  /**
   * A pre-release tail is split again at its own '-': with tail `id-n` the version
   * ranks BELOW the one with tail `id`, because `id` becomes a version of its own
   * with pre-release `n`; comparing `id-n` and `id` as single identifiers, as
   * section 11.4 of Semantic Versioning 2.0.0 does, ranks it ABOVE.
   */
  lemma HyphenatedTailSplitAgain(v: string, id: string, n: string)
    requires '+' !in v && '-' !in v
    requires '.' !in id && '-' !in id && '+' !in id
    requires '.' !in n && '+' !in n
    ensures CompareVersions(v + "-" + (id + "-" + n), v + "-" + id) == -1
    ensures CompareIdentifiers(id + "-" + n, id) == 1
  {
    HyphenatedTailRanksBelow(v, id, n);
    HyphenatedIdentifierRanksAbove(id, n);
  }

  lemma HyphenatedTailRanksBelow(v: string, id: string, n: string)
    requires '+' !in v && '-' !in v
    requires '-' !in id && '+' !in id && '+' !in n
    ensures CompareVersions(v + "-" + (id + "-" + n), v + "-" + id) == -1
  {
    JoinedNoPlus(id, n);
    CompareIdentifierListsReflexive(Split(v, '.'));
    BothTailsRecurse(v, v, id + "-" + n, id);
    ReleaseAboveOwnPrerelease(id, n);
  }

  lemma HyphenatedIdentifierRanksAbove(id: string, n: string)
    ensures CompareIdentifiers(id + "-" + n, id) == 1
  {
    assert (id + "-" + n)[|id|] == '-';
    assert !IsInt(id + "-" + n);
    LexCompareExtension(id, "-" + n);
    assert id + "-" + n == id + ("-" + n);
  }

  // Worked examples of section 11.4 of Semantic Versioning 2.0.0, built from their parts.

  lemma ExamplePrereleaseBelowRelease()
    ensures CompareVersions("1.0.0" + "-" + "alpha", "1.0.0") == -1
  {
    ReleaseAboveOwnPrerelease("1.0.0", "alpha");
  }

  /** Splitting a join of '.', '-' and '+'-free pieces at '.' gives the pieces, and the join has no '-' or '+'. */
  lemma PlainCore(parts: seq<string>)
    requires |parts| >= 1
    requires forall i :: 0 <= i < |parts| ==> '.' !in parts[i] && '-' !in parts[i] && '+' !in parts[i]
    ensures Split(Join(parts, '.'), '.') == parts
    ensures '-' !in Join(parts, '.') && '+' !in Join(parts, '.')
  {
    SplitOfJoin(parts, '.');
    JoinAvoids(parts, '.', '-');
    JoinAvoids(parts, '.', '+');
  }

  /** "1.0.0.1-rc" > "1.0.0": a dotted part with an identifier left over wins despite its tail. */
  lemma ExampleLongerCoreAboveTail()
    ensures CompareVersions(Join(["1", "0", "0", "1"], '.') + "-" + "rc", Join(["1", "0", "0"], '.')) == 1
  {
    var v, w := Join(["1", "0", "0", "1"], '.'), Join(["1", "0", "0"], '.');
    PlainCore(["1", "0", "0", "1"]);
    PlainCore(["1", "0", "0"]);
    JoinedNoPlus(v, "rc");
    SplitJoinedAtHyphen(v, "rc");
    LongerListGreater(["1", "0", "0"], ["1", "0", "0", "1"]);
    CoreDecides(v + "-" + "rc", w);
  }

  /** "1.0.1-rc" > "1.0.0": a higher dotted part wins despite its tail. */
  lemma ExampleHigherCoreAboveTail()
    ensures CompareVersions(Join(["1", "0", "1"], '.') + "-" + "rc", Join(["1", "0", "0"], '.')) == 1
  {
    var v, w := Join(["1", "0", "1"], '.'), Join(["1", "0", "0"], '.');
    PlainCore(["1", "0", "1"]);
    PlainCore(["1", "0", "0"]);
    JoinedNoPlus(v, "rc");
    SplitJoinedAtHyphen(v, "rc");
    assert CompareIdentifiers("1", "0") == 1 by {
      NumericByValue("1", "0");
    }
    assert CompareIdentifierLists(["1", "0", "1"], ["1", "0", "0"]) == 1 by {
      assert ["1", "0", "1"][1..][1..] == ["1"] && ["1", "0", "0"][1..][1..] == ["0"];
    }
    CoreDecides(v + "-" + "rc", w);
  }

  /** "1.00" > "1.0-rc": dotted parts equal by number, so the tailless version wins. */
  lemma ExampleEqualCoresTailBelow()
    ensures CompareVersions(Join(["1", "00"], '.'), Join(["1", "0"], '.') + "-" + "rc") == 1
  {
    var v, w := Join(["1", "0"], '.'), Join(["1", "00"], '.');
    PlainCore(["1", "0"]);
    PlainCore(["1", "00"]);
    assert CompareIdentifiers("0", "00") == 0 by {
      NumericByValue("0", "00");
    }
    assert CompareIdentifierLists(["1", "0"], ["1", "00"]) == 0 by {
      assert ["1", "0"][1..] == ["0"] && ["1", "00"][1..] == ["00"];
    }
    ReleaseAbovePrerelease(v, w, "rc");
  }

  /** Two-identifier tails with the same first identifier are decided by the second. */
  lemma SameFirstIdentifier(v: string, x: string, a: string, b: string)
    requires '+' !in v && '-' !in v
    requires '.' !in x && '-' !in x && '+' !in x
    requires '.' !in a && '-' !in a && '+' !in a
    requires '.' !in b && '-' !in b && '+' !in b
    requires CompareIdentifiers(a, b) != 0
    ensures CompareVersions(v + "-" + Join([x, a], '.'), v + "-" + Join([x, b], '.')) == CompareIdentifiers(a, b)
  {
    PairWithout(x, a);
    PairWithout(x, b);
    PrereleaseTailsByIdentifiers(v, [x, a], [x, b]);
    SecondIdentifierDecides(x, a, b);
  }

  lemma PairWithout(x: string, a: string)
    requires '.' !in x && '-' !in x && '+' !in x
    requires '.' !in a && '-' !in a && '+' !in a
    ensures forall i :: 0 <= i < |[x, a]| ==> '.' !in [x, a][i] && '-' !in [x, a][i] && '+' !in [x, a][i]
  {
    forall i | 0 <= i < |[x, a]|
      ensures '.' !in [x, a][i] && '-' !in [x, a][i] && '+' !in [x, a][i]
    {
      if i == 0 {
        assert [x, a][i] == x;
      } else {
        assert [x, a][i] == a;
      }
    }
  }

  lemma SecondIdentifierDecides(x: string, a: string, b: string)
    requires CompareIdentifiers(a, b) != 0
    ensures CompareIdentifierLists([x, a], [x, b]) == CompareIdentifiers(a, b)
  {
    assert CompareIdentifiers(x, x) == 0;
    assert [x, a][1..] == [a] && [x, b][1..] == [b];
    assert [x, a][0] == x && [x, b][0] == x;
  }

  lemma ExampleNumericBelowAlphanumeric()
    ensures CompareVersions("1.0.0" + "-" + Join(["alpha", "1"], '.'), "1.0.0" + "-" + Join(["alpha", "beta"], '.')) == -1
  {
    assert !IsInt("beta") by {
      assert !IsDigit("beta"[0]);
    }
    NumericBelowAlphanumeric("1", "beta");
    SameFirstIdentifier("1.0.0", "alpha", "1", "beta");
  }

  lemma ExampleNumericByValue()
    ensures CompareVersions("1.0.0" + "-" + Join(["rc", "10"], '.'), "1.0.0" + "-" + Join(["rc", "9"], '.')) == 1
  {
    NumericByValueExamples();
    SameFirstIdentifier("1.0.0", "rc", "10", "9");
  }
}
