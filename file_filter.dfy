/**
 * file_filter.py without its I/O: the nine builders that turn a config entry
 * into a file-path pattern, the dispatch on the field name, the validation of
 * a field's value, the table of pattern lists that later config files
 * overwrite, the include / exclude split, and the decision for each input line.
 * Regular expressions are opaque here: whether a pattern compiles and whether
 * it matches a line are parameters (`compiles`, `matches`).
 */
module FileFilter {
  import opened Wrappers
  import opened Strings
  import opened FieldNames

  // ---------------------------------------------------------------------------
  // Pattern builders

  /** Appends '$' unless the pattern already ends with one. */
  function CompleteDollar(s: string): (r: string)
    requires |s| > 0
    ensures StartsWith(r, s) && r[|r| - 1] == '$'
    ensures |r| == (if s[|s| - 1] == '$' then |s| else |s| + 1)
  {
    if s[|s| - 1] != '$' then s + "$" else s
  }

  lemma CompleteDollarIdempotent(s: string)
    requires |s| > 0
    ensures CompleteDollar(CompleteDollar(s)) == CompleteDollar(s)
  {
  }

  /** `ext_to_re_prog`: any path ending in "." and the extension. */
  function ExtensionPattern(ext: string): (r: string)
    ensures |r| == |ext| + 6 && r[..5] == ".*[.]" && OccursAt(r, ext, 5) && r[|r| - 1] == '$'
  {
    ".*[.]" + ext + "$"
  }

  /** `file_to_re_prog`: exactly the path, from the repository root. */
  function FilePattern(name: string): (r: string)
    ensures StartsWith(r, name) && |r| == |name| + 1 && r[|r| - 1] == '$'
  {
    name + "$"
  }

  /** `subfile_to_re_prog`: the file name at the root or below any directory. */
  function SubfilePattern(name: string): (r: string)
    ensures |r| == |name| + 7 && r[..6] == "(|.*/)" && OccursAt(r, name, 6) && r[|r| - 1] == '$'
  {
    "(|.*/)" + name + "$"
  }

  /** `filename_pattern_to_re_prog` */
  function FilenamePattern(pat: string): (r: string)
    ensures |r| >= |pat| + 6 && r[..6] == "(|.*/)" && OccursAt(r, pat, 6) && r[|r| - 1] == '$'
  {
    CompleteDollar("(|.*/)" + pat)
  }

  /** `filepath_pattern_to_re_prog`; the source indexes the last character, so the entry must not be empty. */
  function FilepathPattern(pat: string): (r: string)
    requires |pat| > 0
    ensures StartsWith(r, pat) && r[|r| - 1] == '$'
  {
    CompleteDollar(pat)
  }

  /** `directory_to_re_prog`: everything below the directory, from the root. */
  function DirectoryPattern(name: string): (r: string)
    ensures |r| == |name| + 4 && StartsWith(r, name) && r[|name|..] == "/.*$"
  {
    name + "/.*$"
  }

  /** `dirpath_pattern_to_re_prog` */
  function DirpathPattern(pat: string): (r: string)
    ensures |r| > |pat| && StartsWith(r, pat) && r[|r| - 1] == '$'
  {
    CompleteDollar(pat + "/.*")
  }

  /** `subdirectory_to_re_prog`: everything below the directory, wherever it sits. */
  function SubdirectoryPattern(name: string): (r: string)
    ensures |r| == |name| + 10 && r[..6] == "(|.*/)" && OccursAt(r, name, 6) && r[6 + |name|..] == "/.*$"
  {
    "(|.*/)" + name + "/.*$"
  }

  /** `dirname_pattern_to_re_prog` */
  function DirnamePattern(pat: string): (r: string)
    ensures |r| > |pat| + 6 && r[..6] == "(|.*/)" && OccursAt(r, pat, 6) && r[|r| - 1] == '$'
  {
    CompleteDollar("(|.*/)" + pat + "/.*")
  }

  /** The dirpath and dirname builders always append '$': their text ends in '*' before the test. */
  lemma DirectoryPatternsAlwaysAppend(pat: string)
    ensures DirpathPattern(pat) == pat + "/.*$"
    ensures DirnamePattern(pat) == "(|.*/)" + pat + "/.*$"
  {
  }

  /** A filename or filepath pattern that already ends in '$' is taken as it is. */
  lemma PatternsKeepTheirDollar(pat: string)
    requires |pat| > 0 && pat[|pat| - 1] == '$'
    ensures FilepathPattern(pat) == pat
    ensures FilenamePattern(pat) == "(|.*/)" + pat
  {
  }

  /** The builder for each kind of entry. */
  function PatternFor(k: Kind, s: string): string
    requires |s| > 0
  {
    match k
    case Extensions => ExtensionPattern(s)
    case Files => FilePattern(s)
    case Subfiles => SubfilePattern(s)
    case FilenamePatterns => FilenamePattern(s)
    case FilepathPatterns => FilepathPattern(s)
    case Directories => DirectoryPattern(s)
    case DirpathPatterns => DirpathPattern(s)
    case Subdirectories => SubdirectoryPattern(s)
    case DirnamePatterns => DirnamePattern(s)
  }

  /** Every built pattern is anchored at its end. */
  lemma PatternEndsWithDollar(k: Kind, s: string)
    requires |s| > 0
    ensures |PatternFor(k, s)| > 0 && PatternFor(k, s)[|PatternFor(k, s)| - 1] == '$'
  {
    var r := PatternFor(k, s);
    if k == Directories {
      assert r[|r| - 1] == r[|s|..][3];
    } else if k == Subdirectories {
      assert r[|r| - 1] == r[6 + |s|..][3];
    }
  }

  // ---------------------------------------------------------------------------
  // Dispatch on the field name

  datatype ConfigError =
    | NoConfigFiles
    | NotAList(field: string)
    | NotAString(field: string)
    | EmptyString(field: string)
    | InvalidValue(field: string, value: string)
    | LogicError(field: string)

  /** `get_reprog`: the first kind whose "_" + name occurs in the field name picks the builder. */
  function GetReprog(fieldName: string, s: string): (r: Result<string, ConfigError>)
    requires |s| > 0
    ensures r.Err? ==> r.error == LogicError(fieldName)
  {
    if Contains(fieldName, "_extensions") then Ok(ExtensionPattern(s))
    else if Contains(fieldName, "_files") then Ok(FilePattern(s))
    else if Contains(fieldName, "_subfiles") then Ok(SubfilePattern(s))
    else if Contains(fieldName, "_filename_patterns") then Ok(FilenamePattern(s))
    else if Contains(fieldName, "_filepath_patterns") then Ok(FilepathPattern(s))
    else if Contains(fieldName, "_directories") then Ok(DirectoryPattern(s))
    else if Contains(fieldName, "_dirpath_patterns") then Ok(DirpathPattern(s))
    else if Contains(fieldName, "_subdirectories") then Ok(SubdirectoryPattern(s))
    else if Contains(fieldName, "_dirname_patterns") then Ok(DirnamePattern(s))
    else Err(LogicError(fieldName))
  }

  /** For every valid field the dispatch picks that field's own builder and never reaches the logic error. */
  lemma GetReprogOfField(f: Field, s: string)
    requires |s| > 0
    ensures GetReprog(FieldName(f), s) == Ok(PatternFor(f.kind, s))
  {
    var n := FieldName(f);
    var order := DispatchOrder;
    var j := DispatchPosition(f.kind);
    forall i | 0 <= i <= j
      ensures Contains(n, "_" + KindName(order[i])) <==> i == j
    {
      KindTest(f, order[i]);
    }
    DispatchNames();
    if j == 0 {
    } else if j == 1 {
    } else if j == 2 {
    } else if j == 3 {
    } else if j == 4 {
    } else if j == 5 {
    } else if j == 6 {
    } else if j == 7 {
    } else {
    }
  }

  /** The kinds in the order `get_reprog` tests them. */
  const DispatchOrder: seq<Kind> := [Extensions, Files, Subfiles, FilenamePatterns, FilepathPatterns,
                                     Directories, DirpathPatterns, Subdirectories, DirnamePatterns]

  function DispatchPosition(k: Kind): (j: nat)
    ensures j < 9 && DispatchOrder[j] == k
    ensures forall i :: 0 <= i < 9 && DispatchOrder[i] == k ==> i == j
  {
    match k
    case Extensions => 0
    case Files => 1
    case Subfiles => 2
    case FilenamePatterns => 3
    case FilepathPatterns => 4
    case Directories => 5
    case DirpathPatterns => 6
    case Subdirectories => 7
    case DirnamePatterns => 8
  }

  /** The nine substrings `get_reprog` tests are "_" and the kind names, in dispatch order. */
  lemma DispatchNames()
    ensures "_" + KindName(DispatchOrder[0]) == "_extensions"
    ensures "_" + KindName(DispatchOrder[1]) == "_files"
    ensures "_" + KindName(DispatchOrder[2]) == "_subfiles"
    ensures "_" + KindName(DispatchOrder[3]) == "_filename_patterns"
    ensures "_" + KindName(DispatchOrder[4]) == "_filepath_patterns"
    ensures "_" + KindName(DispatchOrder[5]) == "_directories"
    ensures "_" + KindName(DispatchOrder[6]) == "_dirpath_patterns"
    ensures "_" + KindName(DispatchOrder[7]) == "_subdirectories"
    ensures "_" + KindName(DispatchOrder[8]) == "_dirname_patterns"
  {
    UnderscoreName(Extensions, "_extensions");
    UnderscoreName(Files, "_files");
    UnderscoreName(Subfiles, "_subfiles");
    UnderscoreName(FilenamePatterns, "_filename_patterns");
    UnderscoreName(FilepathPatterns, "_filepath_patterns");
    UnderscoreName(Directories, "_directories");
    UnderscoreName(DirpathPatterns, "_dirpath_patterns");
    UnderscoreName(Subdirectories, "_subdirectories");
    UnderscoreName(DirnamePatterns, "_dirname_patterns");
  }

  lemma UnderscoreName(k: Kind, t: string)
    requires |t| > 0 && t[0] == '_' && t[1..] == KindName(k)
    ensures "_" + KindName(k) == t
  {
  }

  // ---------------------------------------------------------------------------
  // Field values

  /** A value read from a config file. */
  datatype ConfigValue =
    | YList(items: seq<ConfigValue>)
    | YString(str: string)
    | YOther

  /** One element of a field's list: a non-empty string whose pattern compiles. */
  function CheckItem(field: string, item: ConfigValue, compiles: string -> bool): (r: Result<string, ConfigError>)
    ensures r.Ok? ==> item.YString? && |item.str| > 0 && GetReprog(field, item.str) == Ok(r.value) && compiles(r.value)
    ensures !item.YString? ==> r == Err(NotAString(field))
    ensures item.YString? && |item.str| == 0 ==> r == Err(EmptyString(field))
    ensures item.YString? && |item.str| > 0 && GetReprog(field, item.str).Ok? && !compiles(GetReprog(field, item.str).value) ==>
      r == Err(InvalidValue(field, item.str))
  {
    if !item.YString? then Err(NotAString(field))
    else if |item.str| == 0 then Err(EmptyString(field))
    else
      var p := GetReprog(field, item.str);
      if p.Err? then Err(p.error)
      else if !compiles(p.value) then Err(InvalidValue(field, item.str))
      else Ok(p.value)
  }

  /**
   * The patterns of a list checked in order, and the error of the first
   * element that fails; the patterns before it are kept.
   */
  function ParseItems(field: string, items: seq<ConfigValue>, compiles: string -> bool): (r: (seq<string>, Option<ConfigError>))
    ensures |r.0| <= |items|
    ensures r.1.None? ==> |r.0| == |items|
    ensures forall i :: 0 <= i < |r.0| ==> CheckItem(field, items[i], compiles) == Ok(r.0[i])
    ensures r.1.Some? ==> |r.0| < |items| && CheckItem(field, items[|r.0|], compiles) == Err(r.1.value)
  {
    if |items| == 0 then ([], None)
    else
      var c := CheckItem(field, items[0], compiles);
      if c.Err? then ([], Some(c.error))
      else
        var rest := ParseItems(field, items[1..], compiles);
        ([c.value] + rest.0, rest.1)
  }

  /** A field's list is accepted exactly when every element passes. */
  lemma {:induction false} ParseItemsAccepts(field: string, items: seq<ConfigValue>, compiles: string -> bool)
    ensures ParseItems(field, items, compiles).1.None? <==> forall i :: 0 <= i < |items| ==> CheckItem(field, items[i], compiles).Ok?
  {
    if |items| > 0 {
      ParseItemsAccepts(field, items[1..], compiles);
      assert forall i :: 1 <= i < |items| ==> items[1..][i - 1] == items[i];
    }
  }

  /** What `parse_field` leaves in the table and reports, for a value of the field. */
  function ParseFieldSpec(progs: map<string, seq<string>>, field: string, value: ConfigValue, compiles: string -> bool):
    (r: (map<string, seq<string>>, Outcome<ConfigError>))
    ensures !value.YList? ==> r == (progs, Fail(NotAList(field)))
    ensures value.YList? ==> r.0 == progs[field := ParseItems(field, value.items, compiles).0]
    ensures value.YList? ==> (r.1 == Pass <==> ParseItems(field, value.items, compiles).1.None?)
  {
    if !value.YList? then (progs, Fail(NotAList(field)))
    else
      var (built, err) := ParseItems(field, value.items, compiles);
      (progs[field := built], if err.None? then Pass else Fail(err.value))
  }

  /** The patterns kept so far followed by what the rest of the list, from element `i` on, yields. */
  function Resume(built: seq<string>, field: string, items: seq<ConfigValue>, i: nat, compiles: string -> bool):
    (seq<string>, Option<ConfigError>)
    requires i <= |items|
  {
    var rest := ParseItems(field, items[i..], compiles);
    (built + rest.0, rest.1)
  }

  /** Nothing kept and the whole list to go is the list's own result. */
  lemma ResumeStart(field: string, items: seq<ConfigValue>, compiles: string -> bool)
    ensures Resume([], field, items, 0, compiles) == ParseItems(field, items, compiles)
  {
    assert items[0..] == items;
    assert [] + ParseItems(field, items, compiles).0 == ParseItems(field, items, compiles).0;
  }

  /** An element that fails ends the list with its error and the patterns kept so far. */
  lemma ResumeFails(built: seq<string>, field: string, items: seq<ConfigValue>, i: nat, compiles: string -> bool)
    requires i < |items| && CheckItem(field, items[i], compiles).Err?
    ensures Resume(built, field, items, i, compiles) == (built, Some(CheckItem(field, items[i], compiles).error))
  {
    assert built + [] == built;
  }

  /** An element that passes moves its pattern onto the patterns kept. */
  lemma ResumePasses(built: seq<string>, field: string, items: seq<ConfigValue>, i: nat, compiles: string -> bool)
    requires i < |items| && CheckItem(field, items[i], compiles).Ok?
    ensures Resume(built, field, items, i, compiles) ==
      Resume(built + [CheckItem(field, items[i], compiles).value], field, items, i + 1, compiles)
  {
    assert items[i..][1..] == items[i + 1..];
    var p := CheckItem(field, items[i], compiles).value;
    var rest := ParseItems(field, items[i + 1..], compiles).0;
    assert built + ([p] + rest) == (built + [p]) + rest;
  }

  /** With no element left the patterns kept are the result and nothing failed. */
  lemma ResumeEnd(built: seq<string>, field: string, items: seq<ConfigValue>, compiles: string -> bool)
    ensures Resume(built, field, items, |items|, compiles) == (built, None)
  {
    assert items[|items|..] == [];
    assert built + [] == built;
  }

  // ---------------------------------------------------------------------------
  // Applying config files to the table

  /** A table with an entry for every name in `valid_fields`. */
  predicate HasFields(progs: map<string, seq<string>>) {
    Covers(progs, ValidFields())
  }

  /** Every key listed has an entry. */
  predicate Covers(progs: map<string, seq<string>>, keys: seq<string>) {
    forall k :: k in keys ==> k in progs
  }

  predicate Distinct(keys: seq<string>) {
    forall i, j :: 0 <= i < j < |keys| ==> keys[i] != keys[j]
  }

  /** The table before any config file: every valid field with an empty list. */
  function EmptyTable(): (t: map<string, seq<string>>)
    ensures HasFields(t) && forall k :: k in t ==> t[k] == []
  {
    map k | k in ValidFields() :: []
  }

  /** One config file: the valid fields in order, each one present parsed, stopping at the first error. */
  function ApplyConfig(progs: map<string, seq<string>>, keys: seq<string>, config: map<string, ConfigValue>,
                       compiles: string -> bool): (r: (map<string, seq<string>>, Outcome<ConfigError>))
    requires forall k :: k in keys ==> k in progs
    ensures r.0.Keys == progs.Keys
  {
    if |keys| == 0 then (progs, Pass)
    else
      var n := |keys| - 1;
      var before := ApplyConfig(progs, keys[..n], config, compiles);
      if before.1.Fail? || keys[n] !in config then before
      else ParseFieldSpec(before.0, keys[n], config[keys[n]], compiles)
  }

  /** One more valid field: parsed when the config mentions it, skipped otherwise. */
  lemma ApplyConfigStep(progs: map<string, seq<string>>, keys: seq<string>, i: nat,
                        config: map<string, ConfigValue>, compiles: string -> bool)
    requires forall k :: k in keys ==> k in progs
    requires i < |keys| && ApplyConfig(progs, keys[..i], config, compiles).1 == Pass
    ensures var before := ApplyConfig(progs, keys[..i], config, compiles).0;
      ApplyConfig(progs, keys[..i + 1], config, compiles) ==
        if keys[i] in config then ParseFieldSpec(before, keys[i], config[keys[i]], compiles) else (before, Pass)
  {
    assert keys[..i + 1][..i] == keys[..i];
  }

  lemma {:induction false} ApplyConfigStops(progs: map<string, seq<string>>, keys: seq<string>, i: nat,
                                            config: map<string, ConfigValue>, compiles: string -> bool)
    requires forall k :: k in keys ==> k in progs
    requires i < |keys| && ApplyConfig(progs, keys[..i + 1], config, compiles).1.Fail?
    ensures ApplyConfig(progs, keys, config, compiles) == ApplyConfig(progs, keys[..i + 1], config, compiles)
  {
    if |keys| > i + 1 {
      var n := |keys| - 1;
      assert keys[..n][..i + 1] == keys[..i + 1];
      ApplyConfigStops(progs, keys[..n], i, config, compiles);
    } else {
      assert keys[..i + 1] == keys;
    }
  }

  /**
   * A config file that is accepted replaces the list of every field it
   * mentions (it does not extend it) and leaves the other fields alone.
   */
  lemma {:induction false} ApplyConfigReplaces(progs: map<string, seq<string>>, keys: seq<string>,
                                               config: map<string, ConfigValue>, compiles: string -> bool, k: string)
    requires forall k :: k in keys ==> k in progs
    requires forall i, j :: 0 <= i < j < |keys| ==> keys[i] != keys[j]
    requires ApplyConfig(progs, keys, config, compiles).1 == Pass && k in progs
    ensures var after := ApplyConfig(progs, keys, config, compiles).0;
      (k in keys && k in config ==> config[k].YList? && after[k] == ParseItems(k, config[k].items, compiles).0) &&
      (k !in keys || k !in config ==> after[k] == progs[k])
  {
    if |keys| > 0 {
      var n := |keys| - 1;
      assert k in keys <==> k in keys[..n] || k == keys[n];
      assert keys[n] !in keys[..n];
      ApplyConfigReplaces(progs, keys[..n], config, compiles, k);
    }
  }

  /** All config files in order, stopping at the first one that fails. */
  function ApplyConfigs(progs: map<string, seq<string>>, keys: seq<string>, configs: seq<map<string, ConfigValue>>,
                        compiles: string -> bool): (r: (map<string, seq<string>>, Outcome<ConfigError>))
    requires Covers(progs, keys)
    ensures r.0.Keys == progs.Keys
  {
    if |configs| == 0 then (progs, Pass)
    else
      var n := |configs| - 1;
      var before := ApplyConfigs(progs, keys, configs[..n], compiles);
      if before.1.Fail? then before else ApplyConfig(before.0, keys, configs[n], compiles)
  }

  lemma {:induction false} ApplyConfigsStops(progs: map<string, seq<string>>, keys: seq<string>,
                                             configs: seq<map<string, ConfigValue>>, i: nat, compiles: string -> bool)
    requires Covers(progs, keys)
    requires i < |configs| && ApplyConfigs(progs, keys, configs[..i + 1], compiles).1.Fail?
    ensures ApplyConfigs(progs, keys, configs, compiles) == ApplyConfigs(progs, keys, configs[..i + 1], compiles)
  {
    if |configs| > i + 1 {
      var n := |configs| - 1;
      assert configs[..n][..i + 1] == configs[..i + 1];
      ApplyConfigsStops(progs, keys, configs[..n], i, compiles);
      var before := ApplyConfigs(progs, keys, configs[..n], compiles);
      assert before == ApplyConfigs(progs, keys, configs[..i + 1], compiles);
      assert before.1.Fail?;
    } else {
      assert configs[..i + 1] == configs;
    }
  }

  /** The last of the config files that mentions the field, if any. */
  function LastMentioning(configs: seq<map<string, ConfigValue>>, k: string): (r: Option<nat>)
    ensures r.Some? ==> r.value < |configs| && k in configs[r.value]
    ensures r.Some? ==> forall j :: r.value < j < |configs| ==> k !in configs[j]
    ensures r.None? ==> forall j :: 0 <= j < |configs| ==> k !in configs[j]
  {
    if |configs| == 0 then None
    else if k in configs[|configs| - 1] then Some(|configs| - 1)
    else LastMentioning(configs[..|configs| - 1], k)
  }

  /**
   * When every config file is accepted, each field holds what the last file
   * that mentions it gave, or its initial list when no file does.
   */
  lemma {:induction false} LastConfigWins(progs: map<string, seq<string>>, keys: seq<string>,
                                          configs: seq<map<string, ConfigValue>>, compiles: string -> bool, k: string)
    requires Covers(progs, keys) && Distinct(keys) && k in keys
    requires ApplyConfigs(progs, keys, configs, compiles).1 == Pass
    ensures var after := ApplyConfigs(progs, keys, configs, compiles).0; var last := LastMentioning(configs, k);
      k in after &&
      (last.None? ==> after[k] == progs[k]) &&
      (last.Some? ==> configs[last.value][k].YList? && after[k] == ParseItems(k, configs[last.value][k].items, compiles).0)
  {
    if |configs| > 0 {
      var n := |configs| - 1;
      var before := ApplyConfigs(progs, keys, configs[..n], compiles);
      assert before.1 == Pass;
      LastConfigWins(progs, keys, configs[..n], compiles, k);
      var final := configs[n];
      assert ApplyConfigs(progs, keys, configs, compiles) == ApplyConfig(before.0, keys, final, compiles);
      ApplyConfigReplaces(before.0, keys, final, compiles, k);
      if k !in final {
        assert LastMentioning(configs, k) == LastMentioning(configs[..n], k);
        var last := LastMentioning(configs, k);
        if last.Some? {
          assert configs[..n][last.value] == configs[last.value];
        }
      }
    }
  }

  /**
   * Starting from the empty table: with every config file accepted, a valid
   * field holds the patterns of the last file that mentions it, and an empty
   * list when none does.
   */
  lemma FinalTable(configs: seq<map<string, ConfigValue>>, compiles: string -> bool, k: string)
    requires k in ValidFields()
    requires ApplyConfigs(EmptyTable(), ValidFields(), configs, compiles).1 == Pass
    ensures var after := ApplyConfigs(EmptyTable(), ValidFields(), configs, compiles).0;
      var last := LastMentioning(configs, k);
      k in after &&
      (last.None? ==> after[k] == []) &&
      (last.Some? ==> configs[last.value][k].YList? && after[k] == ParseItems(k, configs[last.value][k].items, compiles).0)
  {
    ValidFieldsDistinct();
    LastConfigWins(EmptyTable(), ValidFields(), configs, compiles, k);
  }

  /** A run that accepts every config file saw only lists in the fields they mention. */
  lemma {:induction false} MentionsAreLists(progs: map<string, seq<string>>, keys: seq<string>,
                                            configs: seq<map<string, ConfigValue>>, compiles: string -> bool, k: string, j: nat)
    requires Covers(progs, keys) && Distinct(keys) && k in keys
    requires ApplyConfigs(progs, keys, configs, compiles).1 == Pass
    requires j < |configs| && k in configs[j]
    ensures configs[j][k].YList?
  {
    var n := |configs| - 1;
    var before := ApplyConfigs(progs, keys, configs[..n], compiles);
    assert before.1 == Pass;
    if j < n {
      assert configs[..n][j] == configs[j];
      MentionsAreLists(progs, keys, configs[..n], compiles, k, j);
    } else {
      assert ApplyConfigs(progs, keys, configs, compiles) == ApplyConfig(before.0, keys, configs[n], compiles);
      ApplyConfigReplaces(before.0, keys, configs[n], compiles, k);
    }
  }

  /** `field_prog_lists`: the pattern list of every valid field. */
  class ProgTable {
    var progs: map<string, seq<string>>

    predicate Valid()
      reads this
    {
      HasFields(progs)
    }

    constructor()
      ensures Valid() && progs == EmptyTable()
    {
      progs := EmptyTable();
    }

    /** `parse_field`: resets the field's list, then appends the pattern of each element in turn. */
    method ParseField(field: string, value: ConfigValue, compiles: string -> bool) returns (r: Outcome<ConfigError>)
      modifies this
      ensures (progs, r) == ParseFieldSpec(old(progs), field, value, compiles)
    {
      if !value.YList? {
        return Fail(NotAList(field));
      }
      var items := value.items;
      var base := progs;
      var built: seq<string> := [];
      progs := base[field := built];
      var i := 0;
      ResumeStart(field, items, compiles);
      while i < |items|
        invariant 0 <= i <= |items|
        invariant progs == base[field := built]
        invariant ParseItems(field, items, compiles) == Resume(built, field, items, i, compiles)
      {
        var check := CheckItem(field, items[i], compiles);
        if check.Err? {
          ResumeFails(built, field, items, i, compiles);
          return Fail(check.error);
        }
        ResumePasses(built, field, items, i, compiles);
        built := built + [check.value];
        progs := base[field := built];
        i := i + 1;
      }
      ResumeEnd(built, field, items, compiles);
      r := Pass;
    }

    /** The loop over `valid_fields` for one config file. */
    method LoadConfig(config: map<string, ConfigValue>, compiles: string -> bool) returns (r: Outcome<ConfigError>)
      requires Valid()
      modifies this
      ensures Valid()
      ensures (progs, r) == ApplyConfig(old(progs), ValidFields(), config, compiles)
    {
      var fields := BuildValidFields();
      var i := 0;
      while i < |fields|
        invariant 0 <= i <= |fields|
        invariant Covers(old(progs), fields)
        invariant (progs, Pass) == ApplyConfig(old(progs), fields[..i], config, compiles)
      {
        ApplyConfigStep(old(progs), fields, i, config, compiles);
        var field := fields[i];
        if field in config {
          r := ParseField(field, config[field], compiles);
          if r.Fail? {
            ApplyConfigStops(old(progs), fields, i, config, compiles);
            return;
          }
        }
        i := i + 1;
      }
      assert fields[..i] == fields;
      r := Pass;
    }

    /** The loop over the config files named on the command line. */
    method LoadConfigs(configs: seq<map<string, ConfigValue>>, compiles: string -> bool) returns (r: Outcome<ConfigError>)
      requires Valid()
      modifies this
      ensures Valid()
      ensures (progs, r) == ApplyConfigs(old(progs), ValidFields(), configs, compiles)
    {
      var i := 0;
      while i < |configs|
        invariant 0 <= i <= |configs| && Valid()
        invariant (progs, Pass) == ApplyConfigs(old(progs), ValidFields(), configs[..i], compiles)
      {
        assert configs[..i + 1][..i] == configs[..i];
        r := LoadConfig(configs[i], compiles);
        if r.Fail? {
          ApplyConfigsStops(old(progs), ValidFields(), configs, i, compiles);
          return;
        }
        i := i + 1;
      }
      assert configs[..i] == configs;
      r := Pass;
    }

    /** The include / exclude split over the table, in `valid_fields` order. */
    method Split() returns (r: Result<(seq<string>, seq<string>), ConfigError>)
      requires Valid()
      ensures r == SplitSpec(progs, ValidFields())
    {
      var fields := BuildValidFields();
      var includes: seq<string> := [];
      var excludes: seq<string> := [];
      var i := 0;
      while i < |fields|
        invariant 0 <= i <= |fields|
        invariant SplitSpec(progs, fields[..i]) == Ok((includes, excludes))
      {
        var k := fields[i];
        SplitSpecStep(progs, fields, i);
        if Contains(k, "include_") {
          includes := includes + progs[k];
        } else if Contains(k, "exclude_") {
          excludes := excludes + progs[k];
        } else {
          SplitSpecStops(progs, fields, i);
          return Err(LogicError(k));
        }
        i := i + 1;
      }
      assert fields[..i] == fields;
      r := Ok((includes, excludes));
    }
  }

  // ---------------------------------------------------------------------------
  // Include / exclude split

  /** The split as the source writes it: an "include_" test, then an "exclude_" test, else a logic error. */
  function SplitSpec(progs: map<string, seq<string>>, keys: seq<string>): (r: Result<(seq<string>, seq<string>), ConfigError>)
    requires forall k :: k in keys ==> k in progs
    ensures r.Err? ==> exists k :: k in keys && r.error == LogicError(k)
  {
    if |keys| == 0 then Ok(([], []))
    else
      var n := |keys| - 1;
      var before := SplitSpec(progs, keys[..n]);
      var k := keys[n];
      if before.Err? then before
      else if Contains(k, "include_") then Ok((before.value.0 + progs[k], before.value.1))
      else if Contains(k, "exclude_") then Ok((before.value.0, before.value.1 + progs[k]))
      else Err(LogicError(k))
  }

  /** The patterns of the fields of one polarity, in table order. */
  function ProgsOf(progs: map<string, seq<string>>, fs: seq<Field>, p: Polarity): seq<string>
    requires forall f :: f in fs ==> FieldName(f) in progs
  {
    if |fs| == 0 then []
    else
      var n := |fs| - 1;
      ProgsOf(progs, fs[..n], p) + (if fs[n].polarity == p then progs[FieldName(fs[n])] else [])
  }

  /** Over field names the split never errors and sorts each list by the field's own polarity. */
  lemma {:induction false} SplitOfFields(progs: map<string, seq<string>>, fs: seq<Field>)
    requires forall f :: f in fs ==> FieldName(f) in progs
    ensures forall k :: k in Names(fs) ==> k in progs
    ensures SplitSpec(progs, Names(fs)) == Ok((ProgsOf(progs, fs, Include), ProgsOf(progs, fs, Exclude)))
  {
    NamesInProgs(progs, fs);
    if |fs| > 0 {
      var n := |fs| - 1;
      SplitOfFields(progs, fs[..n]);
      SplitOfFieldsStep(progs, fs);
    }
  }

  /** The names of fields that have entries have entries. */
  lemma NamesInProgs(progs: map<string, seq<string>>, fs: seq<Field>)
    requires forall f :: f in fs ==> FieldName(f) in progs
    ensures forall k :: k in Names(fs) ==> k in progs
  {
    forall k | k in Names(fs)
      ensures k in progs
    {
      var i :| 0 <= i < |fs| && Names(fs)[i] == k;
      assert fs[i] in fs;
    }
  }

  /** One more field adds its patterns to the list of its own polarity. */
  lemma SplitOfFieldsStep(progs: map<string, seq<string>>, fs: seq<Field>)
    requires |fs| > 0 && forall f :: f in fs ==> FieldName(f) in progs
    requires forall k :: k in Names(fs) ==> k in progs
    requires SplitSpec(progs, Names(fs[..|fs| - 1])) ==
      Ok((ProgsOf(progs, fs[..|fs| - 1], Include), ProgsOf(progs, fs[..|fs| - 1], Exclude)))
    ensures SplitSpec(progs, Names(fs)) == Ok((ProgsOf(progs, fs, Include), ProgsOf(progs, fs, Exclude)))
  {
    var names := Names(fs);
    var n := |fs| - 1;
    var f := fs[n];
    assert names[..n] == Names(fs[..n]);
    var k := names[n];
    assert k == FieldName(f);
    EachFieldOnePolarity(f);
    PolarityTest(f, Include);
    assert PolarityName(Include) + "_" == "include_";
    var inc, exc := ProgsOf(progs, fs[..n], Include), ProgsOf(progs, fs[..n], Exclude);
    assert SplitSpec(progs, names[..n]) == Ok((inc, exc));
    if f.polarity == Include {
      assert Contains(k, "include_");
      assert SplitSpec(progs, names) == Ok((inc + progs[k], exc));
      assert ProgsOf(progs, fs, Exclude) == exc + [] == exc;
    } else {
      assert ProgsOf(progs, fs, Include) == inc + [] == inc;
      assert !Contains(k, "include_") && Contains(k, "exclude_");
      assert SplitSpec(progs, names) == Ok((inc, exc + progs[k]));
    }
  }

  lemma SplitSpecStep(progs: map<string, seq<string>>, keys: seq<string>, i: nat)
    requires forall k :: k in keys ==> k in progs
    requires i < |keys| && SplitSpec(progs, keys[..i]).Ok?
    ensures var (inc, exc) := SplitSpec(progs, keys[..i]).value; var k := keys[i];
      SplitSpec(progs, keys[..i + 1]) ==
        if Contains(k, "include_") then Ok((inc + progs[k], exc))
        else if Contains(k, "exclude_") then Ok((inc, exc + progs[k]))
        else Err(LogicError(k))
  {
    assert keys[..i + 1][..i] == keys[..i];
  }

  lemma {:induction false} SplitSpecStops(progs: map<string, seq<string>>, keys: seq<string>, i: nat)
    requires forall k :: k in keys ==> k in progs
    requires i < |keys| && SplitSpec(progs, keys[..i + 1]).Err?
    ensures SplitSpec(progs, keys) == SplitSpec(progs, keys[..i + 1])
  {
    if |keys| > i + 1 {
      var n := |keys| - 1;
      assert keys[..n][..i + 1] == keys[..i + 1];
      SplitSpecStops(progs, keys[..n], i);
    } else {
      assert keys[..i + 1] == keys;
    }
  }

  /** Every field of the table has an entry in a table keyed by `valid_fields`. */
  lemma TableNamesInProgs(progs: map<string, seq<string>>)
    requires HasFields(progs)
    ensures forall f :: f in FieldTable(Kinds) ==> FieldName(f) in progs
  {
    forall f | f in FieldTable(Kinds)
      ensures FieldName(f) in progs
    {
      ValidFieldsAreFields(f);
    }
  }

  /** The split of `field_prog_lists` never reaches its logic error. */
  lemma ValidFieldsSplit(progs: map<string, seq<string>>)
    requires HasFields(progs)
    ensures forall f :: f in FieldTable(Kinds) ==> FieldName(f) in progs
    ensures SplitSpec(progs, ValidFields()) == Ok((ProgsOf(progs, FieldTable(Kinds), Include), ProgsOf(progs, FieldTable(Kinds), Exclude)))
  {
    TableNamesInProgs(progs);
    SplitOfFields(progs, FieldTable(Kinds));
  }

  // ---------------------------------------------------------------------------
  // Filtering the input lines

  /** `any(p.match(line) for p in progs)`, with matching left to the caller. */
  function AnyMatch(progs: seq<string>, line: string, matches: (string, string) -> bool): (b: bool)
    ensures b <==> exists i :: 0 <= i < |progs| && matches(progs[i], line)
  {
    if |progs| == 0 then false
    else matches(progs[|progs| - 1], line) || AnyMatch(progs[..|progs| - 1], line, matches)
  }

  /** A line is printed when some include pattern matches it and no exclude pattern does. */
  predicate Selected(includes: seq<string>, excludes: seq<string>, line: string, matches: (string, string) -> bool) {
    AnyMatch(includes, line, matches) && !AnyMatch(excludes, line, matches)
  }

  /** The printed lines: each input line right-stripped, kept when selected. */
  function Filter(lines: seq<string>, includes: seq<string>, excludes: seq<string>, matches: (string, string) -> bool): seq<string> {
    if |lines| == 0 then []
    else
      var n := |lines| - 1;
      var line := RStrip(lines[n]);
      Filter(lines[..n], includes, excludes, matches) + (if Selected(includes, excludes, line, matches) then [line] else [])
  }

  /** A string is printed exactly when it is a selected, right-stripped input line. */
  lemma {:induction false} FilterMembership(lines: seq<string>, includes: seq<string>, excludes: seq<string>,
                                            matches: (string, string) -> bool, s: string)
    ensures s in Filter(lines, includes, excludes, matches) <==>
      exists i :: 0 <= i < |lines| && s == RStrip(lines[i]) && Selected(includes, excludes, s, matches)
  {
    if |lines| > 0 {
      var n := |lines| - 1;
      FilterMembership(lines[..n], includes, excludes, matches, s);
      if s in Filter(lines[..n], includes, excludes, matches) {
        var i :| 0 <= i < n && s == RStrip(lines[..n][i]) && Selected(includes, excludes, s, matches);
        assert lines[i] == lines[..n][i];
      }
      if exists i :: 0 <= i < |lines| && s == RStrip(lines[i]) && Selected(includes, excludes, s, matches) {
        var i :| 0 <= i < |lines| && s == RStrip(lines[i]) && Selected(includes, excludes, s, matches);
        if i < n {
          assert lines[..n][i] == lines[i];
        }
      }
    }
  }

  /** The output keeps the input order: filtering distributes over concatenation. */
  lemma {:induction false} FilterAppend(a: seq<string>, b: seq<string>, includes: seq<string>, excludes: seq<string>,
                                        matches: (string, string) -> bool)
    ensures Filter(a + b, includes, excludes, matches) == Filter(a, includes, excludes, matches) + Filter(b, includes, excludes, matches)
  {
    if |b| == 0 {
      assert a + b == a;
    } else {
      var n := |b| - 1;
      FilterAppend(a, b[..n], includes, excludes, matches);
      assert (a + b)[..|a| + n] == a + b[..n];
      assert (a + b)[|a| + n] == b[n];
      var line := RStrip(b[n]);
      var kept := if Selected(includes, excludes, line, matches) then [line] else [];
      var x, y := Filter(a, includes, excludes, matches), Filter(b[..n], includes, excludes, matches);
      assert Filter(a + b, includes, excludes, matches) == (x + y) + kept;
      assert (x + y) + kept == x + (y + kept);
    }
  }

  /** Without include patterns nothing is printed, so the early exit changes no output. */
  lemma {:induction false} NoIncludeNoOutput(lines: seq<string>, excludes: seq<string>, matches: (string, string) -> bool)
    ensures Filter(lines, [], excludes, matches) == []
  {
    if |lines| > 0 {
      NoIncludeNoOutput(lines[..|lines| - 1], excludes, matches);
    }
  }

  /** The loop over standard input, after the early exit for an empty include list. */
  method FilterLines(lines: seq<string>, includes: seq<string>, excludes: seq<string>, matches: (string, string) -> bool)
    returns (out: seq<string>)
    ensures out == Filter(lines, includes, excludes, matches)
  {
    if |includes| == 0 {
      NoIncludeNoOutput(lines, excludes, matches);
      return [];
    }
    out := [];
    var i := 0;
    while i < |lines|
      invariant 0 <= i <= |lines|
      invariant out == Filter(lines[..i], includes, excludes, matches)
    {
      assert lines[..i + 1][..i] == lines[..i];
      var line := RStrip(lines[i]);
      if !AnyMatch(includes, line, matches) {
        i := i + 1;
        continue;
      }
      if AnyMatch(excludes, line, matches) {
        i := i + 1;
        continue;
      }
      out := out + [line];
      i := i + 1;
    }
    assert lines[..i] == lines;
  }

  // ---------------------------------------------------------------------------
  // The whole program

  /** What the program prints for the given config files and input lines, or the error it stops with. */
  function Output(configs: seq<map<string, ConfigValue>>, lines: seq<string>, compiles: string -> bool,
                  matches: (string, string) -> bool): Result<seq<string>, ConfigError>
  {
    if |configs| == 0 then Err(NoConfigFiles)
    else
      var (progs, outcome) := ApplyConfigs(EmptyTable(), ValidFields(), configs, compiles);
      if outcome.Fail? then Err(outcome.error)
      else
        var split := SplitSpec(progs, ValidFields());
        if split.Err? then Err(split.error)
        else Ok(Filter(lines, split.value.0, split.value.1, matches))
  }

  /** The script body: load every config file into a fresh table, split it, filter the lines. */
  method Run(configs: seq<map<string, ConfigValue>>, lines: seq<string>, compiles: string -> bool,
             matches: (string, string) -> bool) returns (r: Result<seq<string>, ConfigError>)
    ensures r == Output(configs, lines, compiles, matches)
  {
    if |configs| < 1 {
      return Err(NoConfigFiles);
    }
    var table := new ProgTable();
    var loaded := table.LoadConfigs(configs, compiles);
    if loaded.Fail? {
      return Err(loaded.error);
    }
    var split := table.Split();
    if split.Err? {
      return Err(split.error);
    }
    var out := FilterLines(lines, split.value.0, split.value.1, matches);
    r := Ok(out);
  }

  /** When every config file is accepted, the printed lines are the filter of the final table's lists. */
  lemma OutputIsFilter(configs: seq<map<string, ConfigValue>>, lines: seq<string>, compiles: string -> bool,
                       matches: (string, string) -> bool, progs: map<string, seq<string>>)
    requires |configs| > 0 && ApplyConfigs(EmptyTable(), ValidFields(), configs, compiles) == (progs, Pass)
    ensures forall f :: f in FieldTable(Kinds) ==> FieldName(f) in progs
    ensures Output(configs, lines, compiles, matches) ==
      Ok(Filter(lines, ProgsOf(progs, FieldTable(Kinds), Include), ProgsOf(progs, FieldTable(Kinds), Exclude), matches))
  {
    assert HasFields(progs);
    ValidFieldsSplit(progs);
  }

  /**
   * The program fails only on a config file, never in the split; and when
   * every file is accepted, a line is printed exactly when it is a
   * right-stripped input line that some include pattern of the final table
   * matches and no exclude pattern does.
   */
  lemma OutputSelects(configs: seq<map<string, ConfigValue>>, lines: seq<string>, compiles: string -> bool,
                      matches: (string, string) -> bool, progs: map<string, seq<string>>, s: string)
    requires |configs| > 0 && ApplyConfigs(EmptyTable(), ValidFields(), configs, compiles) == (progs, Pass)
    ensures Output(configs, lines, compiles, matches).Ok?
    ensures forall f :: f in FieldTable(Kinds) ==> FieldName(f) in progs
    ensures s in Output(configs, lines, compiles, matches).value <==>
      exists i :: 0 <= i < |lines| && s == RStrip(lines[i]) &&
        Selected(ProgsOf(progs, FieldTable(Kinds), Include), ProgsOf(progs, FieldTable(Kinds), Exclude), s, matches)
  {
    OutputIsFilter(configs, lines, compiles, matches, progs);
    FilterMembership(lines, ProgsOf(progs, FieldTable(Kinds), Include), ProgsOf(progs, FieldTable(Kinds), Exclude), matches, s);
  }
}
