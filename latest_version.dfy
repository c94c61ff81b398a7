/**
 * The body of latest_version.py: the version prefix built from the optional
 * major and minor numbers, the candidate versions taken from a docker manifest
 * list or a helm chart index, the prefix filter, the two empty-set errors, and
 * the choice of the latest version by a stable sort followed by taking the last
 * element. The loaded JSON / YAML document is a parameter; the printed line and
 * the exit status are the `Result`.
 */
module LatestVersion {
  import opened Wrappers
  import opened Strings
  import opened Precedence

  // ---------------------------------------------------------------------------
  // Version prefix

  /** `version_prefix`: empty without a major number, else "major" or "major.minor". */
  function VersionPrefix(major: Option<nat>, minor: Option<nat>): (p: string)
    ensures major.None? <==> p == ""
    ensures major.Some? ==> p == NatToString(major.value) + (if minor.Some? then "." + NatToString(minor.value) else "")
    ensures major.Some? ==> |Split(p, '.')| == (if minor.Some? then 2 else 1)
    ensures major.Some? ==> forall i :: 0 <= i < |Split(p, '.')| ==> IsDigits(Split(p, '.')[i])
    ensures major.Some? ==> IsDigits(Split(p, '.')[0]) && DigitsValue(Split(p, '.')[0]) == major.value
    ensures major.Some? && minor.Some? ==>
      |Split(p, '.')| == 2 && IsDigits(Split(p, '.')[1]) && DigitsValue(Split(p, '.')[1]) == minor.value
  {
    if major.None? then ""
    else if minor.None? then
      OneField(major.value);
      NatToString(major.value)
    else
      TwoFields(major.value, minor.value);
      NatToString(major.value) + "." + NatToString(minor.value)
  }

  lemma OneField(m: nat)
    ensures Split(NatToString(m), '.') == [NatToString(m)]
  {
    var p := NatToString(m);
    assert '.' !in p by {
      assert !IsDigit('.');
    }
    SplitOfJoin([p], '.');
  }

  lemma TwoFields(m: nat, n: nat)
    ensures Split(NatToString(m) + "." + NatToString(n), '.') == [NatToString(m), NatToString(n)]
  {
    var p, q := NatToString(m), NatToString(n);
    assert '.' !in p && '.' !in q by {
      assert !IsDigit('.');
    }
    assert Join([p, q], '.') == p + "." + q by {
      assert [p, q][1..] == [q];
    }
    SplitOfJoin([p, q], '.');
  }

  // ---------------------------------------------------------------------------
  // Prefix filter

  /** A version survives the filter for `prefix`: it is the prefix, or starts with it followed by '.', '-' or '+'. */
  predicate Admits(prefix: string, v: string) {
    v == prefix || Find(v, prefix + ".") == 0 || Find(v, prefix + "-") == 0 || Find(v, prefix + "+") == 0
  }

  /** What the filter admits, in terms of characters. */
  lemma AdmitsIff(prefix: string, v: string)
    ensures Admits(prefix, v) <==>
      v == prefix || (|prefix| < |v| && StartsWith(v, prefix) && v[|prefix|] in ".-+")
  {
    forall c: char
      ensures Find(v, prefix + [c]) == 0 <==> |prefix| < |v| && StartsWith(v, prefix) && v[|prefix|] == c
    {
      FindZeroIsStartsWith(v, prefix + [c]);
      if |prefix| < |v| && StartsWith(v, prefix) && v[|prefix|] == c {
        assert v[..|prefix| + 1] == v[..|prefix|] + [v[|prefix|]];
      }
      if StartsWith(v, prefix + [c]) {
        assert v[..|prefix|] == v[..|prefix| + 1][..|prefix|];
      }
    }
    assert prefix + "." == prefix + ['.'];
    assert prefix + "-" == prefix + ['-'];
    assert prefix + "+" == prefix + ['+'];
  }

  /** "1.2" admits "1.2.3" and "1.2.3-rc1" but not "1.20.0". */
  lemma AdmitsExamples()
    ensures Admits("1.2", "1.2" + ".3")
    ensures Admits("1.2", "1.2" + ".3-rc1")
    ensures !Admits("1.2", "1.2" + "0.0")
  {
    AdmitsIff("1.2", "1.2" + ".3");
    AdmitsIff("1.2", "1.2" + ".3-rc1");
    AdmitsIff("1.2", "1.2" + "0.0");
    assert ("1.2" + "0.0")[3] == '0';
  }

  /** `my_versions`: the versions the prefix admits, in their original order. */
  function FilterByPrefix(prefix: string, vs: seq<string>): (r: seq<string>)
    ensures |r| <= |vs|
    ensures forall v :: v in r <==> v in vs && Admits(prefix, v)
  {
    if |vs| == 0 then []
    else
      var rest := FilterByPrefix(prefix, vs[1..]);
      assert forall v :: v in vs <==> v == vs[0] || v in vs[1..];
      if Admits(prefix, vs[0]) then [vs[0]] + rest else rest
  }

  /** Filtering keeps the order of the input: it distributes over concatenation. */
  lemma {:induction false} FilterByPrefixAppend(prefix: string, xs: seq<string>, ys: seq<string>)
    ensures FilterByPrefix(prefix, xs + ys) == FilterByPrefix(prefix, xs) + FilterByPrefix(prefix, ys)
  {
    if |xs| > 0 {
      assert (xs + ys)[0] == xs[0];
      assert (xs + ys)[1..] == xs[1..] + ys;
      FilterByPrefixAppend(prefix, xs[1..], ys);
    } else {
      assert xs + ys == ys;
    }
  }

  /** A list every element of which is admitted passes through unchanged. */
  lemma {:induction false} FilterByPrefixKeepsAdmitted(prefix: string, vs: seq<string>)
    requires forall i :: 0 <= i < |vs| ==> Admits(prefix, vs[i])
    ensures FilterByPrefix(prefix, vs) == vs
  {
    if |vs| > 0 {
      FilterByPrefixKeepsAdmitted(prefix, vs[1..]);
    }
  }

  // ---------------------------------------------------------------------------
  // Candidate extraction

  /** The second '/'-separated field of a manifest path. */
  function SecondField(m: string): (f: string)
    requires '/' in m
    ensures '/' !in f
  {
    var parts := Split(m, '/');
    if |parts| < 2 then
      assert false;
      ""
    else parts[1]
  }

  /** Docker: the second field of every manifest that begins with `name/`, in order. */
  function DockerVersions(manifests: seq<string>, name: string): (r: seq<string>)
    ensures |r| <= |manifests|
    ensures forall i :: 0 <= i < |r| ==> '/' !in r[i]
  {
    if |manifests| == 0 then []
    else
      var m := manifests[0];
      var rest := DockerVersions(manifests[1..], name);
      if Find(m, name + "/") == 0 then
        assert m[|name|] == '/';
        [SecondField(m)] + rest
      else rest
  }

  lemma {:induction false} DockerVersionsAppend(xs: seq<string>, ys: seq<string>, name: string)
    ensures DockerVersions(xs + ys, name) == DockerVersions(xs, name) + DockerVersions(ys, name)
  {
    if |xs| > 0 {
      assert (xs + ys)[1..] == xs[1..] + ys;
      DockerVersionsAppend(xs[1..], ys, name);
    } else {
      assert xs + ys == ys;
    }
  }

  /** A manifest `name/version/rest` of the image yields `version` (when neither holds a '/'). */
  lemma DockerManifestOfImage(name: string, version: string, rest: string)
    requires '/' !in name && '/' !in version
    ensures DockerVersions([name + "/" + version + "/" + rest], name) == [version]
  {
    ManifestOfImage(name, version, rest);
    SecondFieldOf(name, version, rest);
    DockerVersionsOfOne(name + "/" + version + "/" + rest, name);
  }

  lemma DockerVersionsOfOne(m: string, name: string)
    ensures Find(m, name + "/") == 0 ==> '/' in m && DockerVersions([m], name) == [SecondField(m)]
    ensures Find(m, name + "/") != 0 ==> DockerVersions([m], name) == []
  {
    assert [m][0] == m && [m][1..] == [];
    if Find(m, name + "/") == 0 {
      assert m[|name|] == '/';
    }
  }

  lemma ManifestOfImage(name: string, version: string, rest: string)
    ensures Find(name + "/" + version + "/" + rest, name + "/") == 0
  {
    var m := name + "/" + version + "/" + rest;
    FindZeroIsStartsWith(m, name + "/");
    assert m[..|name + "/"|] == name + "/";
  }

  lemma SecondFieldOf(name: string, version: string, rest: string)
    requires '/' !in name && '/' !in version
    ensures '/' in name + "/" + version + "/" + rest
    ensures SecondField(name + "/" + version + "/" + rest) == version
  {
    var m := name + "/" + version + "/" + rest;
    assert m[|name|] == '/';
    assert m == name + ['/'] + (version + ['/'] + rest);
    SplitAtFirst(name, '/', version + ['/'] + rest);
    SplitAtFirst(version, '/', rest);
  }

  /** A manifest that does not begin with `name/` yields nothing. */
  lemma DockerManifestOfOtherImage(name: string, m: string)
    requires !StartsWith(m, name + "/")
    ensures DockerVersions([m], name) == []
  {
    FindZeroIsStartsWith(m, name + "/");
  }

  /** Helm: the "version" field of every entry, in order; a missing field is a lookup failure. */
  function EntryVersions(entries: seq<map<string, string>>): (r: Option<seq<string>>)
    ensures r.Some? <==> forall i :: 0 <= i < |entries| ==> "version" in entries[i]
    ensures r.Some? ==> |r.value| == |entries|
    ensures r.Some? ==> forall i :: 0 <= i < |entries| ==> r.value[i] == entries[i]["version"]
  {
    if |entries| == 0 then Some([])
    else if "version" !in entries[0] then None
    else
      var rest := EntryVersions(entries[1..]);
      if rest.None? then None else Some([entries[0]["version"]] + rest.value)
  }

  datatype LookupError =
    | NoEntries(image: string)
    | NoEntriesBeforeFiltering(image: string, prefix: string)
    | NoEntriesAfterFiltering(image: string, prefix: string)
    | MissingVersionField(image: string)

  /** The chart index: an absent image has no entries. */
  function HelmVersions(index: map<string, seq<map<string, string>>>, name: string): (r: Result<seq<string>, LookupError>)
    ensures name !in index ==> r == Ok([])
    ensures name in index ==> (r.Ok? <==> forall i :: 0 <= i < |index[name]| ==> "version" in index[name][i])
    ensures r.Ok? && name in index ==> |r.value| == |index[name]|
    ensures r.Ok? && name in index ==> forall i :: 0 <= i < |index[name]| ==> r.value[i] == index[name][i]["version"]
    ensures r.Err? ==> r.error == MissingVersionField(name)
  {
    if name !in index then Ok([])
    else
      var vs := EntryVersions(index[name]);
      if vs.None? then Err(MissingVersionField(name)) else Ok(vs.value)
  }

  /** The loaded input document. */
  datatype Source =
    | Docker(manifests: seq<string>)
    | Helm(index: map<string, seq<map<string, string>>>)

  function AllVersions(source: Source, name: string): (r: Result<seq<string>, LookupError>)
    ensures source.Docker? ==> r == Ok(DockerVersions(source.manifests, name))
    ensures source.Helm? ==> r == HelmVersions(source.index, name)
  {
    match source
    case Docker(manifests) => Ok(DockerVersions(manifests, name))
    case Helm(index) => HelmVersions(index, name)
  }

  /** The error texts the script writes before exiting with status 1. */
  function Message(e: LookupError): (m: string)
    ensures !e.MissingVersionField? ==> StartsWith(m, "No entries found for " + e.image)
  {
    match e
    case NoEntries(image) => "No entries found for " + image
    case NoEntriesBeforeFiltering(image, prefix) =>
      "No entries found for " + image + " even before filtering for version " + prefix
    case NoEntriesAfterFiltering(image, prefix) =>
      "No entries found for " + image + " after filtering for version " + prefix
    case MissingVersionField(image) => "KeyError: 'version'"
  }

  // ---------------------------------------------------------------------------
  // Selection

  /**
   * The position of the version the script prints: no version compares above
   * it, and every version listed after it compares strictly below it.
   */
  function LatestIndex(vs: seq<string>): (k: nat)
    requires |vs| > 0
    ensures k < |vs|
    ensures forall j :: 0 <= j < k ==> CompareVersions(vs[j], vs[k]) <= 0
    ensures forall j :: k < j < |vs| ==> CompareVersions(vs[j], vs[k]) < 0
  {
    LatestAmongFirst(vs, |vs|)
  }

  /** Among the first `n` versions, none compares above the one at `k`, and every later one compares below it. */
  predicate IsLatestAmong(vs: seq<string>, n: nat, k: nat)
    requires n <= |vs|
  {
    k < n &&
    (forall j :: 0 <= j < k ==> CompareVersions(vs[j], vs[k]) <= 0) &&
    (forall j :: k < j < n ==> CompareVersions(vs[j], vs[k]) < 0)
  }

  /** `LatestIndex` of the first `n` versions: the sort looks at one more version at a time. */
  function LatestAmongFirst(vs: seq<string>, n: nat): (k: nat)
    requires 0 < n <= |vs|
    ensures IsLatestAmong(vs, n, k)
  {
    if n == 1 then 0
    else
      var k := LatestAmongFirst(vs, n - 1);
      if CompareVersions(vs[n - 1], vs[k]) >= 0 then
        LatestMovesToLast(vs, n, k);
        n - 1
      else
        LatestStays(vs, n, k);
        k
  }

  lemma LatestMovesToLast(vs: seq<string>, n: nat, k: nat)
    requires 1 < n <= |vs|
    requires IsLatestAmong(vs, n - 1, k)
    requires CompareVersions(vs[n - 1], vs[k]) >= 0
    ensures IsLatestAmong(vs, n, n - 1)
  {
    CompareVersionsAntisymmetric(vs[n - 1], vs[k]);
    forall j | 0 <= j < n - 1
      ensures CompareVersions(vs[j], vs[n - 1]) <= 0
    {
      if j == k {
        CompareVersionsReflexive(vs[k]);
      }
      CompareVersionsTransitive(vs[j], vs[k], vs[n - 1]);
    }
  }

  lemma LatestStays(vs: seq<string>, n: nat, k: nat)
    requires 1 < n <= |vs|
    requires IsLatestAmong(vs, n - 1, k)
    requires CompareVersions(vs[n - 1], vs[k]) < 0
    ensures IsLatestAmong(vs, n, k)
  {
    forall j | k < j < n
      ensures CompareVersions(vs[j], vs[k]) < 0
    {
      if j < n - 1 {
        assert IsLatestAmong(vs, n - 1, k);
      }
    }
  }

  /** The two properties of `LatestIndex` single out one position. */
  lemma LatestIndexUnique(vs: seq<string>, k: nat)
    requires k < |vs|
    requires forall j :: 0 <= j < k ==> CompareVersions(vs[j], vs[k]) <= 0
    requires forall j :: k < j < |vs| ==> CompareVersions(vs[j], vs[k]) < 0
    ensures LatestIndex(vs) == k
  {
    var m := LatestIndex(vs);
    if m < k {
      CompareVersionsAntisymmetric(vs[k], vs[m]);
    } else if k < m {
      CompareVersionsAntisymmetric(vs[m], vs[k]);
    }
  }

  /** The latest version is at least every candidate. */
  lemma LatestIsGreatest(vs: seq<string>, v: string)
    requires |vs| > 0 && v in vs
    ensures CompareVersions(v, vs[LatestIndex(vs)]) <= 0
  {
    var k := LatestIndex(vs);
    if v == vs[k] {
      CompareVersionsReflexive(v);
    }
  }

  /** Position `i` precedes position `j` in the stable order of `vs`. */
  predicate Before(vs: seq<string>, i: int, j: int)
    requires 0 <= i < |vs| && 0 <= j < |vs|
  {
    var c := CompareVersions(vs[i], vs[j]);
    c < 0 || (c == 0 && i <= j)
  }

  lemma BeforeTransitive(vs: seq<string>, i: int, j: int, k: int)
    requires 0 <= i < |vs| && 0 <= j < |vs| && 0 <= k < |vs|
    requires Before(vs, i, j) && Before(vs, j, k)
    ensures Before(vs, i, k)
  {
    CompareVersionsTransitive(vs[i], vs[j], vs[k]);
    if CompareVersions(vs[i], vs[j]) < 0 || CompareVersions(vs[j], vs[k]) < 0 {
      CompareVersionsStrict(vs[i], vs[j], vs[k]);
    }
  }

  /** `perm` and `inv` are mutually inverse permutations of 0 .. n-1. */
  predicate IsPermutation(perm: seq<int>, inv: seq<int>, n: int) {
    |perm| == n && |inv| == n &&
    (forall p :: 0 <= p < n ==> 0 <= perm[p] < n && inv[perm[p]] == p) &&
    (forall k :: 0 <= k < n ==> 0 <= inv[k] < n && perm[inv[k]] == k)
  }

  /** Before pass `i` of the insertion sort: positions 0 .. i-1 hold versions 0 .. i-1 in stable order, the rest are untouched. */
  predicate SortedUpTo(s0: seq<string>, perm: seq<int>, i: int) {
    |perm| == |s0| && 0 <= i <= |s0| &&
    (forall p :: 0 <= p < |perm| ==> 0 <= perm[p] < |s0|) &&
    (forall p :: i <= p < |perm| ==> perm[p] == p) &&
    (forall p :: 0 <= p < i ==> perm[p] < i) &&
    (forall p, q :: 0 <= p < q < i ==> Before(s0, perm[p], perm[q]))
  }

  /**
   * During pass `i`: version i sits at position j, the other positions 0 .. i
   * are in stable order, and every version to the right of version i up to
   * position i ranks after it.
   */
  predicate Inserting(s0: seq<string>, perm: seq<int>, i: int, j: int) {
    |perm| == |s0| && 0 <= j <= i < |s0| &&
    (forall p :: 0 <= p < |perm| ==> 0 <= perm[p] < |s0|) &&
    perm[j] == i &&
    (forall p :: i < p < |perm| ==> perm[p] == p) &&
    (forall p :: 0 <= p <= i && p != j ==> perm[p] < i) &&
    (forall p, q :: 0 <= p < q <= i && p != j && q != j ==> Before(s0, perm[p], perm[q])) &&
    (forall q :: j < q <= i ==> Before(s0, i, perm[q]))
  }

  /**
   * `my_versions.sort(key=cmp_to_key(compare_versions))`: an in-place stable sort.
   * Position p ends up holding the version that was at `perm[p]`, and equal
   * versions keep their relative order.
   */
  method SortVersions(a: array<string>) returns (ghost perm: seq<int>, ghost inv: seq<int>)
    modifies a
    ensures IsPermutation(perm, inv, a.Length)
    ensures forall p :: 0 <= p < a.Length ==> a[p] == old(a[..])[perm[p]]
    ensures forall p, q :: 0 <= p < q < a.Length ==> Before(old(a[..]), perm[p], perm[q])
  {
    ghost var s0 := a[..];
    var n := a.Length;
    perm := seq(n, p => p);
    inv := seq(n, p => p);
    var i := 0;
    while i < n
      invariant 0 <= i <= n
      invariant IsPermutation(perm, inv, n)
      invariant forall p :: 0 <= p < n ==> a[p] == s0[perm[p]]
      invariant SortedUpTo(s0, perm, i)
    {
      perm, inv := Insert(a, i, s0, perm, inv);
      i := i + 1;
    }
  }

  /** Pass `i` of the insertion sort: version i moves left past every strictly greater one. */
  method Insert(a: array<string>, i: int, ghost s0: seq<string>, ghost perm0: seq<int>, ghost inv0: seq<int>)
    returns (ghost perm: seq<int>, ghost inv: seq<int>)
    modifies a
    requires 0 <= i < a.Length == |s0|
    requires IsPermutation(perm0, inv0, a.Length)
    requires forall p :: 0 <= p < a.Length ==> a[p] == s0[perm0[p]]
    requires SortedUpTo(s0, perm0, i)
    ensures IsPermutation(perm, inv, a.Length)
    ensures forall p :: 0 <= p < a.Length ==> a[p] == s0[perm[p]]
    ensures SortedUpTo(s0, perm, i + 1)
  {
    var n := a.Length;
    perm, inv := perm0, inv0;
    StartInsert(s0, perm, i);
    var j := i;
    while j > 0 && CompareVersions(a[j - 1], a[j]) > 0
      invariant 0 <= j <= i
      invariant IsPermutation(perm, inv, n)
      invariant forall p :: 0 <= p < n ==> a[p] == s0[perm[p]]
      invariant Inserting(s0, perm, i, j)
    {
      SwapOrder(s0, perm, i, j);
      inv := SwapPermutation(perm, inv, j);
      perm := SwapAdjacent(a, j, s0, perm);
      j := j - 1;
    }
    InsertionDone(s0, perm, i, j);
  }

  /** Exchanges the versions at positions j-1 and j, and the positions they came from. */
  method SwapAdjacent(a: array<string>, j: int, ghost s0: seq<string>, ghost perm: seq<int>)
    returns (ghost perm': seq<int>)
    modifies a
    requires 0 < j < a.Length == |perm|
    requires forall p :: 0 <= p < a.Length ==> 0 <= perm[p] < |s0| && a[p] == s0[perm[p]]
    ensures perm' == perm[j - 1 := perm[j]][j := perm[j - 1]]
    ensures forall p :: 0 <= p < a.Length ==> 0 <= perm'[p] < |s0| && a[p] == s0[perm'[p]]
  {
    a[j - 1], a[j] := a[j], a[j - 1];
    perm' := perm[j - 1 := perm[j]][j := perm[j - 1]];
  }

  lemma StartInsert(s0: seq<string>, perm: seq<int>, i: int)
    requires SortedUpTo(s0, perm, i) && i < |s0|
    ensures Inserting(s0, perm, i, i)
  {
  }

  /** Swapping positions j - 1 and j keeps the pairs that avoid the moving version in order. */
  lemma SwapKeepsPairs(s0: seq<string>, perm: seq<int>, swapped: seq<int>, i: int, j: int)
    requires |perm| == |s0| && 0 < j <= i < |s0|
    requires swapped == perm[j - 1 := perm[j]][j := perm[j - 1]]
    requires forall p :: 0 <= p < |perm| ==> 0 <= perm[p] < |s0|
    requires forall p, q :: 0 <= p < q <= i && p != j && q != j ==> Before(s0, perm[p], perm[q])
    ensures forall p, q :: 0 <= p < q <= i && p != j - 1 && q != j - 1 ==> Before(s0, swapped[p], swapped[q])
  {
    forall p, q | 0 <= p < q <= i && p != j - 1 && q != j - 1
      ensures Before(s0, swapped[p], swapped[q])
    {
      var p0 := if p == j then j - 1 else p;
      var q0 := if q == j then j - 1 else q;
      assert swapped[p] == perm[p0] && swapped[q] == perm[q0] && p0 < q0;
    }
  }

  /** Swapping positions j - 1 and j keeps every version right of the moving one ranked after it. */
  lemma SwapKeepsAfter(s0: seq<string>, perm: seq<int>, swapped: seq<int>, i: int, j: int)
    requires |perm| == |s0| && 0 < j <= i < |s0|
    requires swapped == perm[j - 1 := perm[j]][j := perm[j - 1]]
    requires forall p :: 0 <= p < |perm| ==> 0 <= perm[p] < |s0|
    requires Before(s0, i, perm[j - 1])
    requires forall q :: j < q <= i ==> Before(s0, i, perm[q])
    ensures forall q :: j - 1 < q <= i ==> Before(s0, i, swapped[q])
  {
    assert forall q :: j < q <= i ==> swapped[q] == perm[q];
  }

  /** Swapping version i with a strictly greater left neighbour keeps the pass's invariant. */
  lemma SwapOrder(s0: seq<string>, perm: seq<int>, i: int, j: int)
    requires Inserting(s0, perm, i, j) && j > 0
    requires CompareVersions(s0[perm[j - 1]], s0[perm[j]]) > 0
    ensures Inserting(s0, perm[j - 1 := perm[j]][j := perm[j - 1]], i, j - 1)
  {
    CompareVersionsAntisymmetric(s0[perm[j - 1]], s0[perm[j]]);
    assert Before(s0, i, perm[j - 1]);
    var swapped := perm[j - 1 := perm[j]][j := perm[j - 1]];
    SwapKeepsShape(s0, perm, swapped, i, j);
    SwapKeepsPairs(s0, perm, swapped, i, j);
    SwapKeepsAfter(s0, perm, swapped, i, j);
  }

  /** Swapping positions j - 1 and j moves version i left and keeps the positions it has not reached. */
  lemma SwapKeepsShape(s0: seq<string>, perm: seq<int>, swapped: seq<int>, i: int, j: int)
    requires |perm| == |s0| && 0 < j <= i < |s0|
    requires swapped == perm[j - 1 := perm[j]][j := perm[j - 1]]
    requires forall p :: 0 <= p < |perm| ==> 0 <= perm[p] < |s0|
    requires perm[j] == i
    requires forall p :: i < p < |perm| ==> perm[p] == p
    requires forall p :: 0 <= p <= i && p != j ==> perm[p] < i
    ensures |swapped| == |s0| && swapped[j - 1] == i
    ensures forall p :: 0 <= p < |swapped| ==> 0 <= swapped[p] < |s0|
    ensures forall p :: i < p < |swapped| ==> swapped[p] == p
    ensures forall p :: 0 <= p <= i && p != j - 1 ==> swapped[p] < i
  {
  }

  /** Swapping two neighbouring positions of a permutation, with its inverse kept up to date. */
  lemma SwapPermutation(perm: seq<int>, inv: seq<int>, j: int) returns (inv': seq<int>)
    requires IsPermutation(perm, inv, |perm|) && 0 < j < |perm|
    ensures IsPermutation(perm[j - 1 := perm[j]][j := perm[j - 1]], inv', |perm|)
  {
    inv' := inv[perm[j - 1] := j][perm[j] := j - 1];
  }

  /** When version i stops moving, positions 0 .. i are in stable order. */
  lemma InsertionDone(s0: seq<string>, perm: seq<int>, i: int, j: int)
    requires Inserting(s0, perm, i, j)
    requires j > 0 ==> CompareVersions(s0[perm[j - 1]], s0[perm[j]]) <= 0
    ensures SortedUpTo(s0, perm, i + 1)
  {
    if j > 0 {
      assert perm[j - 1] < i;
      assert forall p :: 0 <= p < j - 1 ==> Before(s0, perm[p], perm[j - 1]);
      assert s0[perm[j]] == s0[i];
      InsertedAfterLeft(s0, perm, i, j);
    }
    InsertedPairs(s0, perm, i, j);
  }

  /** Once the comparison stops the swaps, everything left of version i ranks before it. */
  lemma InsertedAfterLeft(s0: seq<string>, perm: seq<int>, i: int, j: int)
    requires |perm| == |s0| && 0 < j <= i < |s0|
    requires forall p :: 0 <= p < |perm| ==> 0 <= perm[p] < |s0|
    requires perm[j] == i && perm[j - 1] < i
    requires forall p :: 0 <= p < j - 1 ==> Before(s0, perm[p], perm[j - 1])
    requires CompareVersions(s0[perm[j - 1]], s0[i]) <= 0
    ensures forall p :: 0 <= p < j ==> Before(s0, perm[p], i)
  {
    LeftOfBefore(s0, perm, j - 1, i);
  }

  /** Whatever ranks before version `perm[m]` also ranks before anything `perm[m]` ranks before. */
  lemma LeftOfBefore(s0: seq<string>, perm: seq<int>, m: int, k: int)
    requires forall p :: 0 <= p < |perm| ==> 0 <= perm[p] < |s0|
    requires 0 <= m < |perm| && 0 <= k < |s0|
    requires Before(s0, perm[m], k)
    requires forall p :: 0 <= p < m ==> Before(s0, perm[p], perm[m])
    ensures forall p :: 0 <= p <= m ==> Before(s0, perm[p], k)
  {
    forall p | 0 <= p < m
      ensures Before(s0, perm[p], k)
    {
      BeforeTransitive(s0, perm[p], perm[m], k);
    }
  }

  lemma InsertedPairs(s0: seq<string>, perm: seq<int>, i: int, j: int)
    requires Inserting(s0, perm, i, j)
    requires forall p :: 0 <= p < j ==> Before(s0, perm[p], i)
    ensures forall p, q :: 0 <= p < q <= i ==> Before(s0, perm[p], perm[q])
  {
    forall p, q | 0 <= p < q <= i
      ensures Before(s0, perm[p], perm[q])
    {
      if q == j {
        assert perm[q] == i;
      } else if p == j {
        assert perm[p] == i;
      }
    }
  }

  /** `my_versions[-1]` after the sort: the version at `LatestIndex`. */
  method SelectLatest(vs: seq<string>) returns (latest: string)
    requires |vs| > 0
    ensures latest == vs[LatestIndex(vs)]
  {
    var a := new string[|vs|](i requires 0 <= i < |vs| => vs[i]);
    assert a[..] == vs;
    ghost var perm, inv := SortVersions(a);
    latest := a[a.Length - 1];
    ghost var k := perm[|vs| - 1];
    forall j | 0 <= j < |vs| && j != k
      ensures CompareVersions(vs[j], vs[k]) < 0 || (CompareVersions(vs[j], vs[k]) == 0 && j < k)
    {
      assert inv[j] < |vs| - 1;
      assert Before(vs, perm[inv[j]], perm[|vs| - 1]);
    }
    LatestIndexUnique(vs, k);
  }

  /** The versions the prefix filter keeps; without a major number all of them. */
  function Kept(prefix: string, all: seq<string>): (r: seq<string>)
    ensures prefix == "" ==> r == all
    ensures prefix != "" ==> r == FilterByPrefix(prefix, all)
  {
    if prefix == "" then all else FilterByPrefix(prefix, all)
  }

  /** The whole script after argument parsing: the version it prints, or the error it reports. */
  method LatestVersion(source: Source, image: string, major: Option<nat>, minor: Option<nat>)
    returns (r: Result<string, LookupError>)
    ensures AllVersions(source, image).Err? ==> r == Err(AllVersions(source, image).error)
    ensures AllVersions(source, image) == Ok([]) ==>
      r == Err(if major.None? then NoEntries(image) else NoEntriesBeforeFiltering(image, VersionPrefix(major, minor)))
    ensures AllVersions(source, image).Ok? && AllVersions(source, image) != Ok([]) ==>
      var kept := Kept(VersionPrefix(major, minor), AllVersions(source, image).value);
      if kept == [] then r == Err(NoEntriesAfterFiltering(image, VersionPrefix(major, minor)))
      else r == Ok(kept[LatestIndex(kept)])
  {
    var prefix := VersionPrefix(major, minor);
    var all := AllVersions(source, image);
    if all.Err? {
      return Err(all.error);
    }
    if |all.value| == 0 {
      if prefix != "" {
        return Err(NoEntriesBeforeFiltering(image, prefix));
      } else {
        return Err(NoEntries(image));
      }
    }
    var mine := all.value;
    if prefix != "" {
      mine := FilterByPrefix(prefix, all.value);
      if |mine| == 0 {
        return Err(NoEntriesAfterFiltering(image, prefix));
      }
    }
    var latest := SelectLatest(mine);
    return Ok(latest);
  }

  /** With or without a prefix, a printed version is a candidate and no candidate is greater. */
  lemma LatestVersionIsMaximal(prefix: string, all: seq<string>, v: string)
    requires Kept(prefix, all) != [] && v in Kept(prefix, all)
    ensures Kept(prefix, all)[LatestIndex(Kept(prefix, all))] in all
    ensures Admits(prefix, Kept(prefix, all)[LatestIndex(Kept(prefix, all))]) || prefix == ""
    ensures CompareVersions(v, Kept(prefix, all)[LatestIndex(Kept(prefix, all))]) <= 0
  {
    LatestIsGreatest(Kept(prefix, all), v);
  }
}
