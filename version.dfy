/**
 * version.py: the value strategies behind each field of an x.y.z version,
 * first-truthy evaluation of a strategy list, the cached field getters of a
 * branch version, and the choice of branch kind.
 *
 * Nothing here runs git, reads the environment or opens a file: what those
 * report is carried by a `Checkout` value, and every exception that ends the
 * script is a `Crash`.
 */
module Version {
  import opened Wrappers
  import opened Strings

  /** What the script learns from git, the environment and the pinned files. */
  datatype Checkout = Checkout(
    // branch_name(): None when `git branch` marks no branch and GIT_BRANCH is unset
    branch: Option<string>,
    // TAG_NAME, None when unset
    tagName: Option<string>,
    // the contents of each pinned file .x, .y, .z that exists
    pinned: map<char, string>,
    // the commit hashes of `git log`, newest first
    commits: seq<string>,
    // the stripped hash `git log -n1` prints for a pinned file; no entry when it prints nothing
    lastChange: map<char, string>,
    // the stripped output of the `git rev-list --count` against the parent branch; None when git fails
    parentCount: Option<string>,
    // the contents of .z_offset when it exists
    zOffset: Option<string>)

  /** The exception that ends the script. */
  datatype Crash =
    | NoMatchingCommit  // IndexError: the last change of the pinned neighbour is not among the commits
    | NotANumber        // ValueError: int() of the z offset or of z
    | IntOfNone         // TypeError: int() of a z that no strategy resolved
    | NoBranch          // AttributeError: startswith on a branch that is None
    | DigitsOfNone      // TypeError: re.sub over the None an x or z branch-name strategy yields

  /** Python truthiness of an optional string. */
  predicate Truthy(v: Option<string>) {
    v.Some? && v.value != ""
  }

  /** `str(v)` */
  function PyStr(v: Option<string>): string {
    if v.Some? then v.value else "None"
  }

  /** `s[i]` with Python's negative indices. */
  function PyIndex(s: string, i: int): char
    requires -|s| <= i < |s|
  {
    if i < 0 then s[|s| + i] else s[i]
  }

  // ---------------------------------------------------------------- fields

  /** `'xyz'.find(field)`: the position of a field, -1 for anything else. */
  function FieldIndex(field: char): (r: int)
    ensures r == (if field == 'x' then 0 else if field == 'y' then 1 else if field == 'z' then 2 else -1)
  {
    FindChar("xyz", field);
    Find("xyz", [field])
  }

  /**
   * `'xyz'[field_index - 1]`, the more significant neighbour. Python's negative
   * index makes x wrap round to z and an unknown field land on y, so the
   * `except KeyError` after it never fires.
   */
  function SignificantNeighbor(field: char): (r: char)
    ensures field == 'y' ==> r == 'x'
    ensures field == 'z' ==> r == 'y'
    ensures field == 'x' ==> r == 'z'
    ensures field !in "xyz" ==> r == 'y'
  {
    PyIndex("xyz", FieldIndex(field) - 1)
  }

  // ------------------------------------------------------------ strategies

  datatype Strategy =
    | ZeroStrategy(field: char)
    | PinnedFileStrategy(field: char)
    | DeveloperBranchNameStrategy(field: char)
    | DeveloperBranchOnlyDigitsStrategy(field: char)
    | CommitCountStrategy(field: char)
    | CommitsFromParentBranch(field: char)
    | CommitsSinceChangedStrategy(field: char)

  /** PinnedFileStrategy: the stripped contents of `.<field>`, None when there is no such file. */
  function PinnedValue(co: Checkout, field: char): (r: Option<string>)
    ensures r.Some? <==> field in co.pinned
    ensures r.Some? ==> |r.value| == 0 || (!IsSpace(r.value[0]) && !IsSpace(r.value[|r.value| - 1]))
    ensures r.Some? ==> StrippedFrom(co.pinned[field], r.value)
  {
    if field in co.pinned then Some(Strip(co.pinned[field])) else None
  }

  /** DeveloperBranchNameStrategy: only the y field takes the branch name. */
  function BranchNameValue(field: char, branch: Option<string>): (r: Option<string>)
    ensures r.None? <==> field == 'x' || field == 'z'
    ensures r.Some? ==> r.value == PyStr(branch)
  {
    if FieldIndex(field) in {0, 2} then None else Some(PyStr(branch))
  }

  /** `re.sub('[^0-9]', '', s)` */
  function KeepDigits(s: string): (r: string)
    ensures forall i :: 0 <= i < |r| ==> IsDigit(r[i])
    ensures |r| == 0 <==> forall i :: 0 <= i < |s| ==> !IsDigit(s[i])
    ensures |r| <= |s|
  {
    if |s| == 0 then ""
    else
      var rest := KeepDigits(s[1..]);
      assert forall i :: 1 <= i < |s| ==> s[i] == s[1..][i - 1];
      (if IsDigit(s[0]) then [s[0]] else []) + rest
  }

  lemma {:induction false} KeepDigitsAppend(a: string, b: string)
    ensures KeepDigits(a + b) == KeepDigits(a) + KeepDigits(b)
  {
    if |a| > 0 {
      assert (a + b)[1..] == a[1..] + b;
      KeepDigitsAppend(a[1..], b);
    } else {
      assert a + b == b;
    }
  }

  lemma {:induction false} KeepDigitsOfDigits(s: string)
    requires forall i :: 0 <= i < |s| ==> IsDigit(s[i])
    ensures KeepDigits(s) == s
  {
    if |s| > 0 {
      KeepDigitsOfDigits(s[1..]);
      assert s == [s[0]] + s[1..];
    }
  }

  /** `v` without its leading zeros. */
  function DropZeros(v: string): (r: string)
    ensures |r| <= |v| && r == v[|v| - |r|..]
    ensures |r| == 0 || r[0] != '0'
    ensures forall i :: 0 <= i < |v| - |r| ==> v[i] == '0'
  {
    if |v| > 0 && v[0] == '0' then DropZeros(v[1..]) else v
  }

  /** `re.sub("^00*", "0", v)`: a leading run of zeros becomes a single zero. */
  function CollapseZeros(v: string): string {
    if |v| > 0 && v[0] == '0' then "0" + DropZeros(v) else v
  }

  /** Zeros in front of a digit string do not change the number it denotes. */
  lemma {:induction false} LeadingZerosValue(z: string, t: string)
    requires forall i :: 0 <= i < |z| ==> z[i] == '0'
    requires forall i :: 0 <= i < |t| ==> IsDigit(t[i])
    ensures DigitsValue(z + t) == DigitsValue(t)
  {
    if |t| == 0 {
      assert z + t == z;
      if |z| > 0 {
        LeadingZerosValue(z[..|z| - 1], t);
        assert z[..|z| - 1] + t == z[..|z| - 1];
      }
    } else {
      assert (z + t)[..|z + t| - 1] == z + t[..|t| - 1];
      LeadingZerosValue(z, t[..|t| - 1]);
    }
  }

  /** What the collapse does to a non-empty digit string. */
  lemma CollapseZerosFacts(d: string)
    requires IsDigits(d)
    ensures IsDigits(CollapseZeros(d))
    ensures DigitsValue(CollapseZeros(d)) == DigitsValue(d)
    ensures !(|CollapseZeros(d)| >= 2 && CollapseZeros(d)[0] == '0' && CollapseZeros(d)[1] == '0')
    ensures d[0] != '0' ==> CollapseZeros(d) == d
    ensures d[0] == '0' ==>
      exists k :: 0 < k <= |d| && CollapseZeros(d) == "0" + d[k..] &&
        (forall i :: 0 <= i < k ==> d[i] == '0') && (k == |d| || d[k] != '0')
  {
    if d[0] == '0' {
      var t := DropZeros(d);
      var k := |d| - |t|;
      assert d == d[..k] + t;
      LeadingZerosValue(d[..k], t);
      LeadingZerosValue("0", t);
      assert 0 < k <= |d| && CollapseZeros(d) == "0" + d[k..];
    }
  }

  /**
   * The y value DeveloperBranchOnlyDigitsStrategy makes of a branch name: its
   * digits, with a leading run of zeros collapsed to one zero, or "0" when it
   * has none. The number is that of the digits.
   */
  function NormaliseDigits(name: string): (r: string)
    ensures IsDigits(r)
    ensures (forall i :: 0 <= i < |name| ==> !IsDigit(name[i])) ==> r == "0"
    ensures DigitsValue(r) == DigitsValue(KeepDigits(name))
    ensures !(|r| >= 2 && r[0] == '0' && r[1] == '0')
    ensures |KeepDigits(name)| > 0 && KeepDigits(name)[0] != '0' ==> r == KeepDigits(name)
    ensures |KeepDigits(name)| > 0 && KeepDigits(name)[0] == '0' ==>
      exists k :: 0 < k <= |KeepDigits(name)| && r == "0" + KeepDigits(name)[k..] &&
        (forall i :: 0 <= i < k ==> KeepDigits(name)[i] == '0') &&
        (k == |KeepDigits(name)| || KeepDigits(name)[k] != '0')
  {
    var d := KeepDigits(name);
    if |d| > 0 then
      CollapseZerosFacts(d);
      CollapseZeros(d)
    else
      "0"
  }

  /** The collapse keeps one zero in front of the other digits: "0012" becomes "012". */
  lemma OneZeroKept(s: string)
    requires IsDigits(s) && s[0] != '0'
    ensures CollapseZeros("00" + s) == "0" + s
  {
    assert ("00" + s)[1..] == "0" + s;
    assert ("0" + s)[1..] == s;
  }

  /** DeveloperBranchOnlyDigitsStrategy, which fails on the None of an x or z field. */
  function BranchDigitsValue(field: char, branch: Option<string>): (r: Result<Option<string>, Crash>)
    ensures r.Err? <==> field == 'x' || field == 'z'
    ensures r.Ok? ==> r.value == Some(NormaliseDigits(PyStr(branch)))
  {
    match BranchNameValue(field, branch)
    case None => Err(DigitsOfNone)
    case Some(name) => Ok(Some(NormaliseDigits(name)))
  }

  /** `list(filter(lambda index: commits[index] == change, range(len(commits))))` */
  function MatchIndices(commits: seq<string>, change: string): (r: seq<nat>)
    ensures forall k :: 0 <= k < |r| ==> r[k] < |commits| && commits[r[k]] == change
    ensures forall i :: 0 <= i < |commits| && commits[i] == change ==> i in r
    ensures forall k, l :: 0 <= k < l < |r| ==> r[k] < r[l]
  {
    if |commits| == 0 then []
    else
      var n := |commits| - 1;
      var front := MatchIndices(commits[..n], change);
      front + (if commits[n] == change then [n] else [])
  }

  lemma MatchesOfPresent(commits: seq<string>, change: string)
    ensures |MatchIndices(commits, change)| == 0 <==> change !in commits
  {
    var m := MatchIndices(commits, change);
    if change in commits {
      var i :| 0 <= i < |commits| && commits[i] == change;
      assert i in m;
    }
  }

  /** The first match is the least: the matches come in increasing order. */
  lemma LeastMatch(commits: seq<string>, change: string)
    requires |MatchIndices(commits, change)| > 0
    ensures forall j :: j in MatchIndices(commits, change) ==> MatchIndices(commits, change)[0] <= j
  {
  }

  /**
   * `commits_since_neighbor_changed`: the first match of the change commit,
   * which counts the commits made after it. None where Python's `[0]` raises.
   */
  function CommitsSinceNeighborChanged(commits: seq<string>, change: string): (r: Option<nat>)
    ensures r.Some? ==> r.value < |commits| && commits[r.value] == change
    ensures r.Some? ==> forall j :: 0 <= j < r.value ==> commits[j] != change
    ensures r.None? <==> change !in commits
  {
    var m := MatchIndices(commits, change);
    MatchesOfPresent(commits, change);
    if |m| == 0 then None
    else
      LeastMatch(commits, change);
      Some(m[0])
  }

  /** The hash of the last commit that touched the pinned file of `field`, "" when there is none. */
  function LastChange(co: Checkout, field: char): string {
    if field in co.lastChange then co.lastChange[field] else ""
  }

  /** CommitsSinceChangedStrategy: no value unless the neighbour is pinned. */
  function CommitsSinceChangedValue(co: Checkout, field: char): (r: Result<Option<string>, Crash>)
    ensures SignificantNeighbor(field) !in co.pinned ==> r == Ok(None)
    ensures SignificantNeighbor(field) in co.pinned ==>
      match CommitsSinceNeighborChanged(co.commits, LastChange(co, SignificantNeighbor(field)))
      case None => r == Err(NoMatchingCommit)
      case Some(i) => r.Ok? && r.value.Some? && ParseInt(r.value.value) == Some(i)
  {
    var n := SignificantNeighbor(field);
    if n !in co.pinned then Ok(None)
    else
      match CommitsSinceNeighborChanged(co.commits, LastChange(co, n))
      case None => Err(NoMatchingCommit)
      case Some(i) =>
        ParseIntToString(i);
        Ok(Some(NatToString(i)))
  }

  /** `strategy()` */
  function Evaluate(s: Strategy, co: Checkout): (r: Result<Option<string>, Crash>)
    ensures r.Err? ==> r.error == NoMatchingCommit || r.error == DigitsOfNone
  {
    match s
    case ZeroStrategy(_) => Ok(Some("0"))
    case PinnedFileStrategy(f) => Ok(PinnedValue(co, f))
    case DeveloperBranchNameStrategy(f) => Ok(BranchNameValue(f, co.branch))
    case DeveloperBranchOnlyDigitsStrategy(f) => BranchDigitsValue(f, co.branch)
    case CommitCountStrategy(_) => Ok(Some(NatToString(|co.commits|)))
    case CommitsFromParentBranch(_) => Ok(co.parentCount)
    case CommitsSinceChangedStrategy(f) => CommitsSinceChangedValue(co, f)
  }

  // ------------------------------------------------- first-truthy evaluation

  /** A strategy that yields a falsy value without raising. */
  predicate Declines(s: Strategy, co: Checkout) {
    Evaluate(s, co).Ok? && !Truthy(Evaluate(s, co).value)
  }

  /** Every strategy before position `i` declines. */
  predicate DeclinedBefore(ss: seq<Strategy>, co: Checkout, i: int) {
    forall j :: 0 <= j < i && j < |ss| ==> Declines(ss[j], co)
  }

  /**
   * `evaluate_strategies`: the first truthy value in list order, None when
   * every strategy declines; a strategy's exception propagates.
   */
  function FirstTruthy(ss: seq<Strategy>, co: Checkout): (r: Result<Option<string>, Crash>)
    ensures r.Ok? && r.value.Some? ==> r.value.value != ""
  {
    if |ss| == 0 then Ok(None)
    else
      match Evaluate(ss[0], co)
      case Err(e) => Err(e)
      case Ok(v) => if Truthy(v) then Ok(v) else FirstTruthy(ss[1..], co)
  }

  lemma DeclinedShift(ss: seq<Strategy>, co: Checkout, i: int)
    requires |ss| > 0 && Declines(ss[0], co)
    ensures DeclinedBefore(ss, co, i + 1) <==> DeclinedBefore(ss[1..], co, i)
  {
    assert forall j :: 1 <= j < |ss| ==> ss[j] == ss[1..][j - 1];
  }

  /**
   * The first-truthy result read position by position: what the first
   * strategy that does not decline yields, its value or its exception.
   */
  lemma {:induction false} FirstTruthyAt(ss: seq<Strategy>, co: Checkout, i: int)
    requires 0 <= i < |ss| && DeclinedBefore(ss, co, i) && !Declines(ss[i], co)
    ensures FirstTruthy(ss, co) == Evaluate(ss[i], co)
  {
    if i > 0 {
      assert Declines(ss[0], co);
      DeclinedShift(ss, co, i - 1);
      assert ss[1..][i - 1] == ss[i];
      FirstTruthyAt(ss[1..], co, i - 1);
    }
  }

  /** The result is None exactly when every strategy declines. */
  lemma {:induction false} FirstTruthyExhausted(ss: seq<Strategy>, co: Checkout)
    ensures FirstTruthy(ss, co) == Ok(None) <==> DeclinedBefore(ss, co, |ss|)
  {
    if |ss| > 0 {
      FirstTruthyExhausted(ss[1..], co);
      if Declines(ss[0], co) {
        DeclinedShift(ss, co, |ss| - 1);
      }
    }
  }

  // --------------------------------------------------------- branch kinds

  datatype BranchKind = Master | Release | Developer

  /** MasterBranchVersion.is_a */
  predicate IsMaster(branch: Option<string>) {
    branch == Some("master") || branch == Some("main")
  }

  /** ReleaseBranchVersion.is_a, which raises on a branch that is None. */
  function IsRelease(branch: Option<string>): Result<bool, Crash> {
    if branch.None? then Err(NoBranch) else Ok(StartsWith(branch.value, "release/"))
  }

  lemma MasterIsNotRelease(branch: Option<string>)
    ensures IsMaster(branch) ==> IsRelease(branch) == Ok(false)
  {
    if IsMaster(branch) {
      assert |branch.value| < |"release/"|;
    }
  }

  /** `version_factory`: a tag, then master/main, then a release/ prefix, else a developer branch. */
  function VersionFactory(tagName: Option<string>, branch: Option<string>): (r: Result<BranchKind, Crash>)
    ensures r == Ok(Release) <==> Truthy(tagName) || IsRelease(branch) == Ok(true)
    ensures r == Ok(Master) <==> !Truthy(tagName) && IsMaster(branch)
    ensures r == Ok(Developer) <==> !Truthy(tagName) && IsRelease(branch) == Ok(false) && !IsMaster(branch)
    ensures r.Err? <==> !Truthy(tagName) && branch.None?
    ensures r.Err? ==> r.error == NoBranch
  {
    MasterIsNotRelease(branch);
    if Truthy(tagName) then Ok(Release)
    else if IsMaster(branch) then Ok(Master)
    else
      match IsRelease(branch)
      case Err(e) => Err(e)
      case Ok(release) => if release then Ok(Release) else Ok(Developer)
  }

  function XStrategies(kind: BranchKind): seq<Strategy> {
    match kind
    case Master => [ZeroStrategy('x')]
    case Release => [PinnedFileStrategy('x')]
    case Developer => [ZeroStrategy('x')]
  }

  function YStrategies(kind: BranchKind): seq<Strategy> {
    match kind
    case Master => [ZeroStrategy('y')]
    case Release => [PinnedFileStrategy('y')]
    case Developer => [DeveloperBranchOnlyDigitsStrategy('y')]
  }

  function ZStrategies(kind: BranchKind): seq<Strategy> {
    match kind
    case Master => [CommitCountStrategy('z')]
    case Release => [CommitsSinceChangedStrategy('z')]
    case Developer => [CommitsFromParentBranch('z'), CommitCountStrategy('z')]
  }

  /**
   * `str(int(offset.strip()) + int(z))`, evaluated left to right, or z itself
   * when there is no offset file.
   */
  function OffsetZ(z: Option<string>, offset: Option<string>): (r: Result<Option<string>, Crash>)
    ensures offset.None? ==> r == Ok(z)
    ensures offset.Some? && ParseInt(Strip(offset.value)).None? ==> r == Err(NotANumber)
    ensures offset.Some? && ParseInt(Strip(offset.value)).Some? && z.None? ==> r == Err(IntOfNone)
    ensures offset.Some? && z.Some? && ParseInt(z.value).None? ==> r.Err? && r.error == NotANumber
  {
    if offset.None? then Ok(z)
    else
      match ParseInt(Strip(offset.value))
      case None => Err(NotANumber)
      case Some(a) =>
        if z.None? then Err(IntOfNone)
        else
          match ParseInt(z.value)
          case None => Err(NotANumber)
          case Some(b) => Ok(Some(IntToString(a + b)))
  }

  /** With an offset and a z that both read as integers, z becomes the text of their sum. */
  lemma OffsetZAdds(z: Option<string>, offset: Option<string>)
    requires offset.Some? && z.Some? && ParseInt(Strip(offset.value)).Some? && ParseInt(z.value).Some?
    ensures OffsetZ(z, offset).Ok? && OffsetZ(z, offset).value.Some?
    ensures ParseInt(OffsetZ(z, offset).value.value) == Some(ParseInt(Strip(offset.value)).value + ParseInt(z.value).value)
    ensures OffsetZ(z, offset) == Ok(Some(IntToString(ParseInt(Strip(offset.value)).value + ParseInt(z.value).value)))
  {
    var a, b := ParseInt(Strip(offset.value)).value, ParseInt(z.value).value;
    assert OffsetZ(z, offset) == Ok(Some(IntToString(a + b)));
    ParseIntToString(a + b);
  }

  /** What a getter returns: the cache when it is truthy, else a fresh evaluation. */
  function Getter(cache: Option<string>, computed: Result<Option<string>, Crash>): Result<Option<string>, Crash> {
    if Truthy(cache) then Ok(cache) else computed
  }

  /** What a getter leaves in its cache: the value it returned, or the old cache when it raised. */
  function Stored(cache: Option<string>, r: Result<Option<string>, Crash>): Option<string> {
    if r.Ok? then r.value else cache
  }

  /**
   * What the z getter leaves in its cache. A release z whose offset raises
   * keeps the raw strategy value it stored before adding the offset.
   */
  function StoredZ(cache: Option<string>, kind: BranchKind, co: Checkout): Option<string> {
    var r := Getter(cache, ZValue(kind, co));
    if r.Ok? then r.value
    else if !Truthy(cache) && FirstTruthy(ZStrategies(kind), co).Ok? then FirstTruthy(ZStrategies(kind), co).value
    else cache
  }

  /** The x getter's fresh value. */
  function XValue(kind: BranchKind, co: Checkout): (r: Result<Option<string>, Crash>)
    ensures r.Ok? && r.value.Some? ==> r.value.value != ""
  {
    FirstTruthy(XStrategies(kind), co)
  }

  /** The y getter's fresh value: a developer branch turns "0" into "1". */
  function YValue(kind: BranchKind, co: Checkout): (r: Result<Option<string>, Crash>)
    ensures r.Ok? && r.value.Some? ==> r.value.value != ""
    ensures kind == Developer && r.Ok? ==> r.value != Some("0")
  {
    var y := FirstTruthy(YStrategies(kind), co);
    if kind == Developer && y == Ok(Some("0")) then Ok(Some("1")) else y
  }

  /** The z getter's fresh value: a release branch adds the offset. */
  function ZValue(kind: BranchKind, co: Checkout): Result<Option<string>, Crash> {
    var z := FirstTruthy(ZStrategies(kind), co);
    if kind == Release && z.Ok? then OffsetZ(z.value, co.zOffset) else z
  }

  /** `'%s.%s.%s' % (x, y, z)`, the first exception winning; a missing field prints as None. */
  function Dotted(x: Result<Option<string>, Crash>, y: Result<Option<string>, Crash>, z: Result<Option<string>, Crash>):
    (r: Result<string, Crash>)
    ensures r.Ok? <==> x.Ok? && y.Ok? && z.Ok?
    ensures x.Err? ==> r == Err(x.error)
    ensures x.Ok? && y.Err? ==> r == Err(y.error)
    ensures x.Ok? && y.Ok? && z.Err? ==> r == Err(z.error)
    ensures r.Ok? ==> StartsWith(r.value, PyStr(x.value) + ".")
  {
    if x.Err? then Err(x.error)
    else if y.Err? then Err(y.error)
    else if z.Err? then Err(z.error)
    else Ok(PyStr(x.value) + "." + PyStr(y.value) + "." + PyStr(z.value))
  }

  /** What `version_factory()()` prints. */
  function VersionOutput(co: Checkout): Result<string, Crash> {
    match VersionFactory(co.tagName, co.branch)
    case Err(e) => Err(e)
    case Ok(kind) => Dotted(XValue(kind, co), YValue(kind, co), ZValue(kind, co))
  }

  // ------------------------------------------------------- branch versions

  /** A BranchVersion with its strategy lists and its three cached fields. */
  class BranchVersion {
    const kind: BranchKind
    const xStrategies: seq<Strategy>
    const yStrategies: seq<Strategy>
    const zStrategies: seq<Strategy>
    var cachedX: Option<string>
    var cachedY: Option<string>
    var cachedZ: Option<string>

    constructor (kind: BranchKind)
      ensures this.kind == kind
      ensures xStrategies == XStrategies(kind) && yStrategies == YStrategies(kind) && zStrategies == ZStrategies(kind)
      ensures cachedX == None && cachedY == None && cachedZ == None
    {
      this.kind := kind;
      xStrategies := XStrategies(kind);
      yStrategies := YStrategies(kind);
      zStrategies := ZStrategies(kind);
      cachedX := None;
      cachedY := None;
      cachedZ := None;
    }

    /** `evaluate_strategies` */
    method EvaluateStrategies(strategies: seq<Strategy>, co: Checkout) returns (r: Result<Option<string>, Crash>)
      ensures r == FirstTruthy(strategies, co)
    {
      var i := 0;
      while i < |strategies|
        invariant 0 <= i <= |strategies|
        invariant FirstTruthy(strategies, co) == FirstTruthy(strategies[i..], co)
      {
        assert strategies[i..][0] == strategies[i];
        assert strategies[i..][1..] == strategies[i + 1..];
        var value := Evaluate(strategies[i], co);
        if value.Err? {
          return Err(value.error);
        }
        if Truthy(value.value) {
          return Ok(value.value);
        }
        i := i + 1;
      }
      return Ok(None);
    }

    /** The x property: a truthy cache is returned, anything else is evaluated again and stored. */
    method X(co: Checkout) returns (r: Result<Option<string>, Crash>)
      requires xStrategies == XStrategies(kind)
      modifies this
      ensures r == Getter(old(cachedX), XValue(kind, co))
      ensures cachedX == Stored(old(cachedX), r)
      ensures cachedY == old(cachedY) && cachedZ == old(cachedZ)
    {
      if Truthy(cachedX) {
        return Ok(cachedX);
      }
      r := EvaluateStrategies(xStrategies, co);
      if r.Ok? {
        cachedX := r.value;
      }
    }

    /** The y property, with the developer override of a "0". */
    method Y(co: Checkout) returns (r: Result<Option<string>, Crash>)
      requires yStrategies == YStrategies(kind)
      modifies this
      ensures r == Getter(old(cachedY), YValue(kind, co))
      ensures cachedY == Stored(old(cachedY), r)
      ensures cachedX == old(cachedX) && cachedZ == old(cachedZ)
    {
      if Truthy(cachedY) {
        return Ok(cachedY);
      }
      r := EvaluateStrategies(yStrategies, co);
      if kind == Developer && r == Ok(Some("0")) {
        r := Ok(Some("1"));
      }
      if r.Ok? {
        cachedY := r.value;
      }
    }

    /**
     * The z property. On a release branch the raw value is stored first and
     * then replaced by its sum with the offset, so an offset that fails
     * leaves the raw value behind.
     */
    method Z(co: Checkout) returns (r: Result<Option<string>, Crash>)
      requires zStrategies == ZStrategies(kind)
      modifies this
      ensures r == Getter(old(cachedZ), ZValue(kind, co))
      ensures cachedZ == StoredZ(old(cachedZ), kind, co)
      ensures cachedX == old(cachedX) && cachedY == old(cachedY)
    {
      if Truthy(cachedZ) {
        return Ok(cachedZ);
      }
      var z := EvaluateStrategies(zStrategies, co);
      if z.Err? {
        return z;
      }
      cachedZ := z.value;
      if kind == Release {
        r := OffsetZ(cachedZ, co.zOffset);
        if r.Ok? {
          cachedZ := r.value;
        }
      } else {
        r := Ok(cachedZ);
      }
    }

    /** `'%r' % self`: the three getters in order. */
    method Render(co: Checkout) returns (r: Result<string, Crash>)
      requires xStrategies == XStrategies(kind) && yStrategies == YStrategies(kind) && zStrategies == ZStrategies(kind)
      modifies this
      ensures r == Dotted(Getter(old(cachedX), XValue(kind, co)),
                          Getter(old(cachedY), YValue(kind, co)),
                          Getter(old(cachedZ), ZValue(kind, co)))
      ensures var x := Getter(old(cachedX), XValue(kind, co));
        cachedX == Stored(old(cachedX), x)
      ensures var x, y := Getter(old(cachedX), XValue(kind, co)), Getter(old(cachedY), YValue(kind, co));
        cachedY == (if x.Ok? then Stored(old(cachedY), y) else old(cachedY))
      ensures var x, y := Getter(old(cachedX), XValue(kind, co)), Getter(old(cachedY), YValue(kind, co));
        cachedZ == (if x.Ok? && y.Ok? then StoredZ(old(cachedZ), kind, co) else old(cachedZ))
    {
      var x := X(co);
      if x.Err? {
        return Err(x.error);
      }
      var y := Y(co);
      if y.Err? {
        return Err(y.error);
      }
      var z := Z(co);
      if z.Err? {
        return Err(z.error);
      }
      r := Ok(PyStr(x.value) + "." + PyStr(y.value) + "." + PyStr(z.value));
    }
  }

  /** `version_factory()()`: choose the kind, build its version, print it. */
  method Generate(co: Checkout) returns (r: Result<string, Crash>)
    ensures r == VersionOutput(co)
  {
    var kind := VersionFactory(co.tagName, co.branch);
    if kind.Err? {
      return Err(kind.error);
    }
    var v := new BranchVersion(kind.value);
    r := v.Render(co);
  }

  // ------------------------------------------------------- what is printed

  /** Evaluating a one-strategy list. */
  lemma FirstTruthyOfOne(s: Strategy, co: Checkout)
    ensures Evaluate(s, co).Err? ==> FirstTruthy([s], co) == Evaluate(s, co)
    ensures Evaluate(s, co).Ok? && Truthy(Evaluate(s, co).value) ==> FirstTruthy([s], co) == Evaluate(s, co)
    ensures Declines(s, co) ==> FirstTruthy([s], co) == Ok(None)
  {
    assert [s][0] == s && [s][1..] == [];
  }

  /** The master and main branches always print 0.0.<number of commits>. */
  lemma MasterVersion(co: Checkout)
    requires !Truthy(co.tagName) && IsMaster(co.branch)
    ensures VersionOutput(co) == Ok("0.0." + NatToString(|co.commits|))
  {
    FirstTruthyOfOne(ZeroStrategy('x'), co);
    FirstTruthyOfOne(ZeroStrategy('y'), co);
    FirstTruthyOfOne(CommitCountStrategy('z'), co);
    assert XValue(Master, co) == Ok(Some("0"));
    assert YValue(Master, co) == Ok(Some("0"));
    assert ZValue(Master, co) == Ok(Some(NatToString(|co.commits|)));
    assert VersionFactory(co.tagName, co.branch) == Ok(Master);
    assert "0" + "." + "0" + "." == "0.0.";
  }

  /** The y a developer branch gets. */
  function DeveloperMinor(branch: Option<string>): string {
    var d := NormaliseDigits(PyStr(branch));
    if d == "0" then "1" else d
  }

  /** The z a developer branch gets. */
  function DeveloperPatch(co: Checkout): string {
    if Truthy(co.parentCount) then co.parentCount.value else NatToString(|co.commits|)
  }

  lemma DeveloperMinorValue(co: Checkout)
    ensures YValue(Developer, co) == Ok(Some(DeveloperMinor(co.branch)))
    ensures IsDigits(DeveloperMinor(co.branch)) && DeveloperMinor(co.branch) != "0"
  {
    DeveloperY(co);
    DeveloperMinorDigits(co.branch);
  }

  /** The y strategy of a developer branch finds the branch digits, and "0" is printed as "1". */
  lemma DeveloperY(co: Checkout)
    ensures YValue(Developer, co) == Ok(Some(DeveloperMinor(co.branch)))
  {
    var s := DeveloperBranchOnlyDigitsStrategy('y');
    DeveloperYStrategies();
    var d := NormaliseDigits(PyStr(co.branch));
    assert Evaluate(s, co) == Ok(Some(d));
    assert Truthy(Some(d));
    FirstTruthyOfOne(s, co);
  }

  /** A developer branch has one y strategy, the digits of the branch name. */
  lemma DeveloperYStrategies()
    ensures YStrategies(Developer) == [DeveloperBranchOnlyDigitsStrategy('y')]
  {
  }

  /** The developer y is a digit string other than "0". */
  lemma DeveloperMinorDigits(branch: Option<string>)
    ensures IsDigits(DeveloperMinor(branch)) && DeveloperMinor(branch) != "0"
  {
    var d := NormaliseDigits(PyStr(branch));
    if d == "0" {
      assert IsDigit("1"[0]);
      assert IsDigits("1");
    }
  }

  lemma DeveloperPatchValue(co: Checkout)
    ensures ZValue(Developer, co) == Ok(Some(DeveloperPatch(co)))
  {
    var zs := ZStrategies(Developer);
    assert zs[0] == CommitsFromParentBranch('z') && zs[1..] == [CommitCountStrategy('z')];
    assert Evaluate(zs[0], co) == Ok(co.parentCount);
    FirstTruthyOfOne(CommitCountStrategy('z'), co);
  }

  /**
   * A developer branch never fails: it prints 0.<y>.<z> with y the digits of
   * the branch name (never "0") and z the commits ahead of its parent branch,
   * or the commit count when git cannot tell.
   */
  lemma DeveloperVersion(co: Checkout)
    requires VersionFactory(co.tagName, co.branch) == Ok(Developer)
    ensures VersionOutput(co) == Ok("0." + DeveloperMinor(co.branch) + "." + DeveloperPatch(co))
    ensures IsDigits(DeveloperMinor(co.branch)) && DeveloperMinor(co.branch) != "0"
  {
    var y, z := DeveloperMinor(co.branch), DeveloperPatch(co);
    DeveloperX(co);
    DeveloperMinorValue(co);
    DeveloperPatchValue(co);
    assert VersionOutput(co) == Dotted(Ok(Some("0")), Ok(Some(y)), Ok(Some(z)));
    assert "0" + "." == "0.";
  }

  /** A developer branch prints x as 0. */
  lemma DeveloperX(co: Checkout)
    ensures XValue(Developer, co) == Ok(Some("0"))
  {
    FirstTruthyOfOne(ZeroStrategy('x'), co);
    assert XStrategies(Developer) == [ZeroStrategy('x')];
  }

  /** A digit string other than "0" after "0." cannot make the text start with "0.0.". */
  lemma NotMasterShaped(y: string, z: string)
    requires IsDigits(y) && y != "0"
    ensures !StartsWith("0." + y + "." + z, "0.0.")
  {
    var s := "0." + y + "." + z;
    assert s[2] == y[0];
    if y[0] == '0' {
      assert y[..1] == "0";
      assert s[3] == y[1] && IsDigit(y[1]);
    }
    assert |s| >= 4 ==> s[..4][2] == s[2] && s[..4][3] == s[3];
  }

  /** 0.0.z is left to master: no developer version starts with "0.0.". */
  lemma DeveloperNeverLooksLikeMaster(co: Checkout)
    requires VersionFactory(co.tagName, co.branch) == Ok(Developer)
    ensures VersionOutput(co).Ok? && !StartsWith(VersionOutput(co).value, "0.0.")
  {
    DeveloperVersion(co);
    NotMasterShaped(DeveloperMinor(co.branch), DeveloperPatch(co));
  }

  /** A ticket number after a prefix without digits becomes the developer y. */
  lemma DeveloperTicketNumber(prefix: string, number: string)
    requires forall i :: 0 <= i < |prefix| ==> !IsDigit(prefix[i])
    requires IsDigits(number) && number[0] != '0'
    ensures DeveloperMinor(Some(prefix + number)) == number
  {
    var name := prefix + number;
    KeepDigitsAppend(prefix, number);
    KeepDigitsOfDigits(number);
    assert KeepDigits(prefix) == "";
    assert KeepDigits(name) == number;
    assert PyStr(Some(name)) == name;
    assert NormaliseDigits(name) == number;
    assert number != "0" by { assert number[0] != "0"[0]; }
  }

  /** A missing x prints as None in front of the other two fields. */
  lemma DottedWithoutX(y: Result<Option<string>, Crash>, z: Result<Option<string>, Crash>)
    ensures Dotted(Ok(None), y, z).Ok? ==> StartsWith(Dotted(Ok(None), y, z).value, "None.")
  {
    if y.Ok? && z.Ok? {
      var rest := PyStr(y.value) + "." + PyStr(z.value);
      assert Dotted(Ok(None), y, z).value == "None." + rest;
    }
  }

  /** Without a non-empty .x a release branch prints the x field as None. */
  lemma ReleaseWithoutPinnedX(co: Checkout)
    requires VersionFactory(co.tagName, co.branch) == Ok(Release)
    requires !Truthy(PinnedValue(co, 'x'))
    ensures XValue(Release, co) == Ok(None)
    ensures VersionOutput(co).Ok? ==> StartsWith(VersionOutput(co).value, "None.")
  {
    assert Declines(PinnedFileStrategy('x'), co);
    FirstTruthyOfOne(PinnedFileStrategy('x'), co);
    DottedWithoutX(YValue(Release, co), ZValue(Release, co));
  }

  /**
   * A release z counts the commits made since .y last changed, plus the
   * offset when .z_offset holds a number.
   */
  lemma ReleasePatch(co: Checkout, i: nat)
    requires 'y' in co.pinned
    requires CommitsSinceNeighborChanged(co.commits, LastChange(co, 'y')) == Some(i)
    ensures co.zOffset.None? ==> ZValue(Release, co) == Ok(Some(NatToString(i)))
    ensures co.zOffset.Some? && ParseInt(Strip(co.zOffset.value)).Some? ==>
      ZValue(Release, co).Ok? && ZValue(Release, co).value.Some? &&
      ParseInt(ZValue(Release, co).value.value) == Some(ParseInt(Strip(co.zOffset.value)).value + i)
    ensures co.zOffset.Some? && ParseInt(Strip(co.zOffset.value)).Some? ==>
      ZValue(Release, co) == Ok(Some(IntToString(ParseInt(Strip(co.zOffset.value)).value + i)))
  {
    var raw := NatToString(i);
    ParseIntToString(i);
    assert ParseInt(raw) == Some(i as int);
    ReleaseRawPatch(co, i);
    assert ZValue(Release, co) == OffsetZ(Some(raw), co.zOffset);
    if co.zOffset.Some? && ParseInt(Strip(co.zOffset.value)).Some? {
      OffsetZAdds(Some(raw), co.zOffset);
    }
  }

  /** Before the offset, a release z is the count of commits since the pinned .y last changed. */
  lemma ReleaseRawPatch(co: Checkout, i: nat)
    requires 'y' in co.pinned
    requires CommitsSinceNeighborChanged(co.commits, LastChange(co, 'y')) == Some(i)
    ensures FirstTruthy(ZStrategies(Release), co) == Ok(Some(NatToString(i)))
  {
    assert SignificantNeighbor('z') == 'y';
    assert CommitsSinceChangedValue(co, 'z') == Ok(Some(NatToString(i)));
    FirstTruthyOfOne(CommitsSinceChangedStrategy('z'), co);
  }

  /** Without the pinned .y a release z is None, and an offset file then makes int(None) raise. */
  lemma ReleaseWithoutPinnedY(co: Checkout)
    requires 'y' !in co.pinned
    ensures co.zOffset.None? ==> ZValue(Release, co) == Ok(None)
    ensures co.zOffset.Some? && ParseInt(Strip(co.zOffset.value)).Some? ==> ZValue(Release, co) == Err(IntOfNone)
  {
    assert SignificantNeighbor('z') == 'y';
    assert Declines(CommitsSinceChangedStrategy('z'), co);
    FirstTruthyOfOne(CommitsSinceChangedStrategy('z'), co);
  }
}
