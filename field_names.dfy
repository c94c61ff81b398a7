/**
 * The 36 configuration field names of file_filter.py and the two substring
 * tests the script applies to them: which kind of entry a field holds
 * (`"_files" in field_name`, ...) and whether it includes or excludes
 * (`"include_" in k`). Both tests are shown to read back exactly what the
 * name was built from.
 */
module FieldNames {
  import opened Wrappers
  import opened Strings

  /** The nine kinds of entry, in the order the field table lists them. */
  datatype Kind =
    | Extensions | Files | Subfiles | Directories | Subdirectories
    | FilenamePatterns | DirnamePatterns | FilepathPatterns | DirpathPatterns

  const Kinds: seq<Kind> := [Extensions, Files, Subfiles, Directories, Subdirectories,
                              FilenamePatterns, DirnamePatterns, FilepathPatterns, DirpathPatterns]

  function KindName(k: Kind): string {
    match k
    case Extensions => "extensions"
    case Files => "files"
    case Subfiles => "subfiles"
    case Directories => "directories"
    case Subdirectories => "subdirectories"
    case FilenamePatterns => "filename_patterns"
    case DirnamePatterns => "dirname_patterns"
    case FilepathPatterns => "filepath_patterns"
    case DirpathPatterns => "dirpath_patterns"
  }

  datatype Polarity = Include | Exclude

  function PolarityName(p: Polarity): string {
    if p == Include then "include" else "exclude"
  }

  /** A field: `[also_]include_<kind>` or `[also_]exclude_<kind>`. */
  datatype Field = Field(also: bool, polarity: Polarity, kind: Kind)

  function Head(f: Field): string {
    (if f.also then "also_" else "") + PolarityName(f.polarity)
  }

  function FieldName(f: Field): string {
    Head(f) + "_" + KindName(f.kind)
  }

  /** The four fields of one kind, in the order the table lists them. */
  function FieldsOf(k: Kind): seq<Field> {
    [Field(false, Include, k), Field(true, Include, k), Field(false, Exclude, k), Field(true, Exclude, k)]
  }

  /** The field table for the kinds `ks`: four fields per kind. */
  function FieldTable(ks: seq<Kind>): (r: seq<Field>)
    ensures |r| == 4 * |ks|
    ensures forall i :: 0 <= i < |r| ==> r[i].kind in ks
    ensures forall f: Field :: f.kind in ks ==> f in r
  {
    if |ks| == 0 then []
    else
      var rest := FieldTable(ks[..|ks| - 1]);
      assert forall k :: k in ks <==> k in ks[..|ks| - 1] || k == ks[|ks| - 1];
      forall f: Field | f.kind == ks[|ks| - 1]
        ensures f in FieldsOf(ks[|ks| - 1])
      {
        FieldListedWithItsKind(f);
      }
      rest + FieldsOf(ks[|ks| - 1])
  }

  lemma FieldListedWithItsKind(f: Field)
    ensures f in FieldsOf(f.kind)
  {
    if f.polarity == Include {
      assert f == FieldsOf(f.kind)[if f.also then 1 else 0];
    } else {
      assert f == FieldsOf(f.kind)[if f.also then 3 else 2];
    }
  }

  function Names(fs: seq<Field>): seq<string> {
    seq(|fs|, i requires 0 <= i < |fs| => FieldName(fs[i]))
  }

  /** `valid_fields` */
  function ValidFields(): seq<string> {
    Names(FieldTable(Kinds))
  }

  /** The loops that build `valid_fields`. */
  method BuildValidFields() returns (fields: seq<string>)
    ensures fields == ValidFields()
  {
    fields := [];
    var k := 0;
    while k < |Kinds|
      invariant 0 <= k <= |Kinds|
      invariant fields == Names(FieldTable(Kinds[..k]))
    {
      var polarities := [Include, Exclude];
      var e := 0;
      while e < 2
        invariant 0 <= e <= 2
        invariant fields == Names(FieldTable(Kinds[..k]) + FieldsOf(Kinds[k])[..2 * e])
      {
        NamesStep(FieldTable(Kinds[..k]), Kinds[k], e, polarities[e]);
        fields := fields + [FieldName(Field(false, polarities[e], Kinds[k])), FieldName(Field(true, polarities[e], Kinds[k]))];
        e := e + 1;
      }
      TableStep(Kinds, k);
      k := k + 1;
    }
    assert Kinds[..9] == Kinds;
  }

  lemma NamesStep(table: seq<Field>, k: Kind, e: int, p: Polarity)
    requires 0 <= e < 2 && p == [Include, Exclude][e]
    ensures Names(table + FieldsOf(k)[..2 * e + 2]) ==
      Names(table + FieldsOf(k)[..2 * e]) + [FieldName(Field(false, p, k)), FieldName(Field(true, p, k))]
  {
    assert table + FieldsOf(k)[..2 * e + 2] == table + FieldsOf(k)[..2 * e] + [Field(false, p, k), Field(true, p, k)];
  }

  lemma TableStep(ks: seq<Kind>, k: int)
    requires 0 <= k < |ks|
    ensures FieldTable(ks[..k + 1]) == FieldTable(ks[..k]) + FieldsOf(ks[k])[..4]
  {
    assert ks[..k + 1][..k] == ks[..k];
  }

  // ---------------------------------------------------------------------------
  // Where the underscores are

  /** Kinds are told apart by their first five characters. */
  function KindOfKey(key: string): Option<Kind> {
    if key == "exten" then Some(Extensions)
    else if key == "files" then Some(Files)
    else if key == "subfi" then Some(Subfiles)
    else if key == "direc" then Some(Directories)
    else if key == "subdi" then Some(Subdirectories)
    else if key == "filen" then Some(FilenamePatterns)
    else if key == "dirna" then Some(DirnamePatterns)
    else if key == "filep" then Some(FilepathPatterns)
    else if key == "dirpa" then Some(DirpathPatterns)
    else None
  }

  lemma KindKey(k: Kind)
    ensures |KindName(k)| >= 5 && KindOfKey(KindName(k)[..5]) == Some(k)
  {
    match k
    case Extensions => assert KindName(k)[..5] == "exten";
    case Files => assert KindName(k)[..5] == "files";
    case Subfiles => assert KindName(k)[..5] == "subfi";
    case Directories => assert KindName(k)[..5] == "direc";
    case Subdirectories => assert KindName(k)[..5] == "subdi";
    case FilenamePatterns => assert KindName(k)[..5] == "filen";
    case DirnamePatterns => assert KindName(k)[..5] == "dirna";
    case FilepathPatterns => assert KindName(k)[..5] == "filep";
    case DirpathPatterns => assert KindName(k)[..5] == "dirpa";
  }

  /** A head is "include", "exclude", "also_include" or "also_exclude": its one underscore is at 4, before "inclu" or "exclu". */
  lemma HeadFacts(f: Field)
    ensures |Head(f)| >= 7 && Head(f)[|Head(f)| - 7..] == PolarityName(f.polarity)
    ensures forall i :: 0 <= i < |Head(f)| && Head(f)[i] == '_' ==>
      i == 4 && 10 <= |Head(f)| && KindOfKey(Head(f)[5..10]).None?
  {
    var h := Head(f);
    forall i | 0 <= i < |h| && h[i] == '_'
      ensures i == 4 && 10 <= |h| && KindOfKey(h[5..10]).None?
    {
      if f.also {
        if f.polarity == Include {
          assert h == "also_include";
          assert h[5..10] == "inclu";
        } else {
          assert h == "also_exclude";
          assert h[5..10] == "exclu";
        }
      }
    }
  }

  /**
   * The only underscore inside a kind name stands before "patterns", and the
   * seven characters before it start neither like "include" nor like "exclude".
   */
  lemma KindFacts(k: Kind)
    ensures UnderscoreBeforePatterns(KindName(k))
  {
    if k in {FilenamePatterns, FilepathPatterns, DirnamePatterns, DirpathPatterns} {
      PatternKindFacts(k);
    } else {
      PlainKindFacts(k);
    }
  }

  lemma PatternKindFacts(k: Kind)
    requires k in {FilenamePatterns, FilepathPatterns, DirnamePatterns, DirpathPatterns}
    ensures UnderscoreBeforePatterns(KindName(k))
  {
    match k
    case FilenamePatterns => assert "filename" + "_patterns" == KindName(k); PatternsName("filename");
    case FilepathPatterns => assert "filepath" + "_patterns" == KindName(k); PatternsName("filepath");
    case DirnamePatterns => assert "dirname" + "_patterns" == KindName(k); PatternsName("dirname");
    case DirpathPatterns => assert "dirpath" + "_patterns" == KindName(k); PatternsName("dirpath");
  }

  /** A name made of a stem without underscores and "_patterns". */
  lemma PatternsName(a: string)
    requires |a| >= 7 && '_' !in a && a[|a| - 7] != 'e' && (a[|a| - 7] != 'i' || a[|a| - 6] != 'n')
    ensures UnderscoreBeforePatterns(a + "_patterns")
  {
    var t := "patterns";
    var n := a + "_patterns";
    assert n == a + "_" + t;
    assert '_' !in t;
    forall i | 0 <= i < |n| && i != |a|
      ensures n[i] != '_'
    {
      if i < |a| {
        assert n[i] == a[i];
      } else {
        assert n[i] == t[i - |a| - 1];
      }
    }
    assert n[|a| + 1..|a| + 6] == t[..5] == "patte";
    UnderscoreIn(n, |a|);
  }

  lemma PlainKindFacts(k: Kind)
    requires k !in {FilenamePatterns, FilepathPatterns, DirnamePatterns, DirpathPatterns}
    ensures '_' !in KindName(k) && UnderscoreBeforePatterns(KindName(k))
  {
  }

  predicate UnderscoreBeforePatterns(n: string) {
    forall i :: 0 <= i < |n| && n[i] == '_' ==>
      7 <= i && i + 6 <= |n| && n[i + 1..i + 6] == "patte" && n[i - 7] != 'e' && (n[i - 7] != 'i' || n[i - 6] != 'n')
  }

  /** A name whose only underscore is at `p`, before "patte", with the right letters seven back. */
  lemma UnderscoreIn(n: string, p: nat)
    requires 7 <= p && p + 6 <= |n| && n[p + 1..p + 6] == "patte" && n[p - 7] != 'e' && (n[p - 7] != 'i' || n[p - 6] != 'n')
    requires forall i :: 0 <= i < |n| && i != p ==> n[i] != '_'
    ensures UnderscoreBeforePatterns(n)
  {
  }

  /** Positions of `h + "_" + kn` read from `h`, the separator or `kn`. */
  lemma JoinedAt(h: string, kn: string, i: int, j: int)
    ensures 0 <= i < |h| ==> (h + "_" + kn)[i] == h[i]
    ensures i == |h| ==> (h + "_" + kn)[i] == '_'
    ensures |h| < i < |h| + 1 + |kn| ==> (h + "_" + kn)[i] == kn[i - |h| - 1]
    ensures 0 <= i <= j <= |h| ==> (h + "_" + kn)[i..j] == h[i..j]
    ensures |h| < i <= j <= |h| + 1 + |kn| ==> (h + "_" + kn)[i..j] == kn[i - |h| - 1..j - |h| - 1]
  {
  }

  /** An occurrence of `"_" + n` is an underscore followed by the first five characters of `n`. */
  lemma UnderscoreKey(s: string, n: string, p: nat)
    requires |n| >= 5 && OccursAt(s, "_" + n, p)
    ensures p + 6 <= |s| && s[p] == '_' && s[p + 1..p + 6] == n[..5]
  {
    var t := "_" + n;
    assert s[p..p + |t|] == t;
    assert s[p] == t[0];
    assert forall d :: 0 <= d < 5 ==> s[p + 1..p + 6][d] == s[p + 1 + d] == t[1 + d] == n[d];
  }

  /**
   * In `h + "_" + kn`, an underscore followed by a name whose first five
   * characters are a kind's can only be the separator.
   */
  lemma KindOccurrence(h: string, kn: string, n: string)
    requires |kn| >= 5 && |n| >= 5 && KindOfKey(n[..5]).Some?
    requires forall i :: 0 <= i < |h| && h[i] == '_' ==> i == 4 && 10 <= |h| && KindOfKey(h[5..10]).None?
    requires forall i :: 0 <= i < |kn| && kn[i] == '_' ==> i + 6 <= |kn| && kn[i + 1..i + 6] == "patte"
    requires Contains(h + "_" + kn, "_" + n)
    ensures kn[..5] == n[..5]
  {
    var s := h + "_" + kn;
    var p := Find(s, "_" + n);
    UnderscoreKey(s, n, p);
    KeyNotInHead(h, kn, n[..5], p);
    KeyNotInKind(h, kn, n[..5], p);
    JoinedAt(h, kn, p + 1, p + 6);
  }

  lemma KeyNotInHead(h: string, kn: string, key: string, p: nat)
    requires KindOfKey(key).Some?
    requires forall i :: 0 <= i < |h| && h[i] == '_' ==> i == 4 && 10 <= |h| && KindOfKey(h[5..10]).None?
    requires p + 6 <= |h + "_" + kn| && (h + "_" + kn)[p] == '_' && (h + "_" + kn)[p + 1..p + 6] == key
    ensures p >= |h|
  {
    JoinedAt(h, kn, p, p);
    JoinedAt(h, kn, 5, 10);
  }

  lemma KeyNotInKind(h: string, kn: string, key: string, p: nat)
    requires KindOfKey(key).Some?
    requires forall i :: 0 <= i < |kn| && kn[i] == '_' ==> i + 6 <= |kn| && kn[i + 1..i + 6] == "patte"
    requires p + 6 <= |h + "_" + kn| && (h + "_" + kn)[p] == '_' && (h + "_" + kn)[p + 1..p + 6] == key
    ensures p <= |h|
  {
    JoinedAt(h, kn, p, p);
    JoinedAt(h, kn, p + 1, p + 6);
    assert KindOfKey("patte").None?;
  }

  /** In `h + "_" + kn`, a seven-letter word followed by '_' can only be the end of the head. */
  lemma PolarityOccurrence(h: string, kn: string, w: string)
    requires |w| == 7 && |h| >= 7
    requires forall i :: 0 <= i < |h| && h[i] == '_' ==> i < 7
    requires forall i :: 0 <= i < |kn| && kn[i] == '_' ==> 7 <= i && (kn[i - 7] != w[0] || kn[i - 6] != w[1])
    requires Contains(h + "_" + kn, w + "_")
    ensures h[|h| - 7..] == w
  {
    var s, t := h + "_" + kn, w + "_";
    var q := Find(s, t);
    assert OccursAt(s, t, q);
    assert s[q..q + 8] == t;
    assert s[q] == t[0] == w[0] && s[q + 1] == t[1] == w[1];
    assert s[q + 7] == t[7] == '_';
    JoinedAt(h, kn, q, q + 7);
    JoinedAt(h, kn, q + 1, q + 1);
    JoinedAt(h, kn, q + 7, q + 7);
    assert q + 7 == |h|;
    assert forall d :: 0 <= d < 7 ==> h[|h| - 7..][d] == s[q + d] == t[d] == w[d];
  }

  // ---------------------------------------------------------------------------
  // The substring tests read back the parts

  /** `"_" + kind in field_name` holds exactly for the field's own kind. */
  lemma KindTest(f: Field, k: Kind)
    ensures Contains(FieldName(f), "_" + KindName(k)) <==> k == f.kind
  {
    if Contains(FieldName(f), "_" + KindName(k)) {
      OnlyOwnKind(f, k);
    }
    if k == f.kind {
      OwnKindFound(f);
    }
  }

  lemma OnlyOwnKind(f: Field, k: Kind)
    requires Contains(FieldName(f), "_" + KindName(k))
    ensures k == f.kind
  {
    HeadFacts(f);
    KindFacts(f.kind);
    KindKey(k);
    KindKey(f.kind);
    KindOccurrence(Head(f), KindName(f.kind), KindName(k));
  }

  lemma OwnKindFound(f: Field)
    ensures Contains(FieldName(f), "_" + KindName(f.kind))
  {
    OccursInMiddle(Head(f), "_" + KindName(f.kind), "");
    assert FieldName(f) == Head(f) + ("_" + KindName(f.kind)) + "";
  }

  /** `"include_" in k` holds exactly for the include fields, and `"exclude_" in k` for the exclude fields. */
  lemma PolarityTest(f: Field, p: Polarity)
    ensures Contains(FieldName(f), PolarityName(p) + "_") <==> p == f.polarity
  {
    if Contains(FieldName(f), PolarityName(p) + "_") {
      OnlyOwnPolarity(f, p);
    }
    if p == f.polarity {
      OwnPolarityFound(f);
    }
  }

  lemma OnlyOwnPolarity(f: Field, p: Polarity)
    requires Contains(FieldName(f), PolarityName(p) + "_")
    ensures p == f.polarity
  {
    var h, kn, w := Head(f), KindName(f.kind), PolarityName(p);
    HeadFacts(f);
    KindFacts(f.kind);
    assert |w| == 7 && ((w[0] == 'i' && w[1] == 'n') || w[0] == 'e');
    assert forall i :: 0 <= i < |kn| && kn[i] == '_' ==> 7 <= i && (kn[i - 7] != w[0] || kn[i - 6] != w[1]);
    PolarityOccurrence(h, kn, w);
    assert w == PolarityName(f.polarity);
  }

  lemma OwnPolarityFound(f: Field)
    ensures Contains(FieldName(f), PolarityName(f.polarity) + "_")
  {
    var h := Head(f);
    HeadFacts(f);
    var pre := h[..|h| - 7];
    assert h == pre + PolarityName(f.polarity);
    assert FieldName(f) == pre + (PolarityName(f.polarity) + "_") + KindName(f.kind);
    OccursInMiddle(pre, PolarityName(f.polarity) + "_", KindName(f.kind));
  }

  /** Every valid field is an include field or an exclude field, and never both. */
  lemma EachFieldOnePolarity(f: Field)
    ensures Contains(FieldName(f), "include_") != Contains(FieldName(f), "exclude_")
  {
    PolarityTest(f, Include);
    PolarityTest(f, Exclude);
    assert PolarityName(Include) + "_" == "include_";
    assert PolarityName(Exclude) + "_" == "exclude_";
  }

  /** Distinct fields have distinct names. */
  lemma FieldNameInjective(f: Field, g: Field)
    requires FieldName(f) == FieldName(g)
    ensures f == g
  {
    KindTest(f, g.kind);
    KindTest(g, g.kind);
    PolarityTest(f, g.polarity);
    PolarityTest(g, g.polarity);
    assert |Head(f)| == |FieldName(f)| - 1 - |KindName(g.kind)| == |Head(g)|;
  }

  lemma {:induction false} FieldTableDistinct(ks: seq<Kind>)
    requires forall i, j :: 0 <= i < j < |ks| ==> ks[i] != ks[j]
    ensures forall i, j :: 0 <= i < j < |FieldTable(ks)| ==> FieldTable(ks)[i] != FieldTable(ks)[j]
  {
    if |ks| > 0 {
      var n := |ks| - 1;
      var rest := FieldTable(ks[..n]);
      FieldTableDistinct(ks[..n]);
      assert ks[n] !in ks[..n];
      forall i | 0 <= i < |rest|
        ensures rest[i].kind != ks[n]
      {
        assert rest[i].kind in ks[..n];
      }
      AppendKindDistinct(rest, ks[n]);
    }
  }

  /** Appending the four fields of a kind that the table does not hold yet keeps it free of repeats. */
  lemma AppendKindDistinct(table: seq<Field>, k: Kind)
    requires forall i, j :: 0 <= i < j < |table| ==> table[i] != table[j]
    requires forall i :: 0 <= i < |table| ==> table[i].kind != k
    ensures forall i, j :: 0 <= i < j < |table + FieldsOf(k)| ==> (table + FieldsOf(k))[i] != (table + FieldsOf(k))[j]
  {
    var t := table + FieldsOf(k);
    forall i, j | 0 <= i < j < |t|
      ensures t[i] != t[j]
    {
      if j >= |table| {
        assert t[j] == FieldsOf(k)[j - |table|];
        if i >= |table| {
          assert t[i] == FieldsOf(k)[i - |table|];
        } else {
          assert t[i] == table[i];
        }
      } else {
        assert t[i] == table[i] && t[j] == table[j];
      }
    }
  }

  /** The position of a kind in `Kinds`. */
  function KindOrder(k: Kind): nat {
    match k
    case Extensions => 0
    case Files => 1
    case Subfiles => 2
    case Directories => 3
    case Subdirectories => 4
    case FilenamePatterns => 5
    case DirnamePatterns => 6
    case FilepathPatterns => 7
    case DirpathPatterns => 8
  }

  lemma KindsDistinct()
    ensures forall i, j :: 0 <= i < j < |Kinds| ==> Kinds[i] != Kinds[j]
  {
    assert forall i :: 0 <= i < |Kinds| ==> KindOrder(Kinds[i]) == i;
  }

  lemma NamesDistinct(fs: seq<Field>)
    requires forall i, j :: 0 <= i < j < |fs| ==> fs[i] != fs[j]
    ensures forall i, j :: 0 <= i < j < |fs| ==> Names(fs)[i] != Names(fs)[j]
  {
    forall i, j | 0 <= i < j < |fs|
      ensures Names(fs)[i] != Names(fs)[j]
    {
      if Names(fs)[i] == Names(fs)[j] {
        FieldNameInjective(fs[i], fs[j]);
      }
    }
  }

  /** `valid_fields` has 36 distinct names. */
  lemma ValidFieldsDistinct()
    ensures |ValidFields()| == 36
    ensures forall i, j :: 0 <= i < j < 36 ==> ValidFields()[i] != ValidFields()[j]
  {
    KindsDistinct();
    FieldTableDistinct(Kinds);
    NamesDistinct(FieldTable(Kinds));
  }

  lemma KindListed(k: Kind)
    ensures k in Kinds
  {
    match k
    case Extensions => assert Kinds[0] == k;
    case Files => assert Kinds[1] == k;
    case Subfiles => assert Kinds[2] == k;
    case Directories => assert Kinds[3] == k;
    case Subdirectories => assert Kinds[4] == k;
    case FilenamePatterns => assert Kinds[5] == k;
    case DirnamePatterns => assert Kinds[6] == k;
    case FilepathPatterns => assert Kinds[7] == k;
    case DirpathPatterns => assert Kinds[8] == k;
  }

  /** Every field is listed in `valid_fields`, and every listed name is a field's. */
  lemma ValidFieldsAreFields(f: Field)
    ensures FieldName(f) in ValidFields()
    ensures forall i :: 0 <= i < |ValidFields()| ==> ValidFields()[i] == FieldName(FieldTable(Kinds)[i])
  {
    KindListed(f.kind);
    var i :| 0 <= i < |FieldTable(Kinds)| && FieldTable(Kinds)[i] == f;
    assert ValidFields()[i] == FieldName(f);
  }
}
