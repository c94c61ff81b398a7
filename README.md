# cms-meta-tools: version precedence, path filtering and branch versions

This project models three scripts from Cray-HPE/cms-meta-tools.

- **latest_version** finds the newest version of an image. It reads a docker manifest list or a helm chart index. It can keep only the versions under a major or major.minor prefix. It then prints the greatest version under a SemVer-like precedence.
- **file_filter** reads one or more YAML config files. Each file holds lists of extensions, files, directories and patterns to include or exclude. From these lists it prints the input lines (file paths) that match some include pattern and no exclude pattern.
- **version.py** prints an `x.y.z` version for the current git checkout. How each field is found depends on the branch kind (master, release or developer). Each field is taken from the first strategy that yields a value: a constant, a pinned file, the branch name's digits, or a commit count.

The files are:

| file | module | what it holds |
|---|---|---|
| `wrappers.dfy` | `Wrappers` | `Option`, `Result`, `Outcome` |
| `strings.dfy` | `Strings` | Python string operations used by the scripts: `find`, `in`, `split`, `join`, code-point order, `str(int)`, `int()`, `strip`, `lstrip`, `rstrip` |
| `precedence.dfy` | `Precedence` | `is_int`, `compare_identifiers`, `remove_build`, `get_version_and_prerelease`, `compare_versions`, and the order they define |
| `latest_version.dfy` | `LatestVersion` | the body of `latest_version.py`: prefix, extraction, prefix filter, the two empty-set errors, the in-place stable sort, the last element |
| `field_names.dfy` | `FieldNames` | the 36 field names of `file_filter.py` and the substring tests made on them |
| `file_filter.dfy` | `FileFilter` | the pattern builders, `get_reprog`, `parse_field`, the table of pattern lists, the include/exclude split, the line filter |
| `version.dfy` | `Version` | the strategies, first-truthy evaluation, the cached getters of `BranchVersion`, `version_factory` |

Nothing external is modelled as behaviour. Whatever a script reads from outside arrives as a parameter:

- latest_version: the loaded JSON or YAML document (`Source`) and the optional major and minor numbers.
- file_filter:
  - the loaded config maps (`ConfigValue`) and the input lines;
  - whether a pattern compiles (`compiles`);
  - whether a pattern matches a line (`matches`).
- version.py: what git, the environment and the pinned files report (`Checkout`).

An `Err` result stands for the error exit or the uncaught exception that ends each script.

Behaviours of the code that a reader might not expect, kept as written:

- **Prerelease tails are re-split.** When both versions have a prerelease tail, `compare_versions` calls itself on the tails without `prStripped=True`. The tail is therefore split again at its own first `-`, so `1.0.0-rc-1` ranks below `1.0.0-rc` (`HyphenatedTailRanksBelow`). Section 11.4 of Semantic Versioning 2.0.0, which the comment at latest_version/latest_version.py:150 appeals to, compares prerelease tails as dot-separated identifiers, where `rc-1` is one identifier that ranks above `rc`.
- **No version grammar.** latest_version checks no version grammar: any text is a version, and only `+` starts build metadata.
- **Unresolved fields print as None.** `evaluate_strategies` returns None when no strategy yields a truthy value. The field is then printed as the text `None`, for example a release branch without `.x` (`ReleaseWithoutPinnedX`). The exception is a release z with a `.z_offset` file: `int(None)` raises there (`ReleaseWithoutPinnedY`).
- **One leading zero is kept.** The digit normaliser's comment speaks of stripping leading zeros for SemVer. Its regex `^00*` actually turns a run of zeros into one `0`, so `0012` becomes `012` (`OneZeroKept`).

## Model

| member | source | states |
|---|---|---|
| Precedence.CompareIdentifiers | latest_version/latest_version.py:82-105 | the result is -1, 0 or 1, and it is 0 exactly when the two identifiers are equal or are both numeric with the same value |
| Precedence.RemoveBuild | latest_version/latest_version.py:107-111 | the result is the prefix before the first `+`, has no `+`, and is the whole string when there is no `+` |
| Precedence.GetVersionAndPrerelease | latest_version/latest_version.py:113-118 | splits at the first `-`: the version part has no `-`, the tail is None exactly when there is no `-`, and version + "-" + tail gives back the input |
| Precedence.CompareIdentifierLists | latest_version/latest_version.py:132-143 | the pairwise comparison followed by the length rule yields -1, 0 or 1 |
| Precedence.ZipCompare | latest_version/latest_version.py:132-143 | the loop with early return computes the identifier-list comparison |
| Precedence.CompareVersions | latest_version/latest_version.py:120-158 | the comparison yields -1, 0 or 1 and terminates on strictly shorter tails |
| Precedence.CompareIdentifiersAntisymmetric | latest_version/latest_version.py:82-105 | swapping the identifiers negates the result |
| Precedence.CompareIdentifiersTransitive | latest_version/latest_version.py:82-105 | the identifier order is transitive |
| Precedence.NumericBelowAlphanumeric | latest_version/latest_version.py:92-98 | a numeric identifier ranks below every non-numeric one, in both argument orders |
| Precedence.AlphanumericByCodePoints | latest_version/latest_version.py:99-105 | two non-numeric identifiers compare by code-point order |
| Precedence.IsInt | latest_version/latest_version.py:75-80 | a numeric identifier is one that `int()` reads, with a non-negative value; without signs, numeric exactly when `int()` reads it |
| Precedence.NumericByValue | latest_version/latest_version.py:83-91 | for any two numeric identifiers, less, equal and greater are exactly those of their values |
| Precedence.NumericByValueExamples | latest_version/latest_version.py:83-91 | "01" equals "1" and "10" is above "9", although "10" is below "9" by code points |
| Precedence.CompareIdentifierListsReflexive | latest_version/latest_version.py:132-143 | a list compares equal to itself |
| Precedence.CompareIdentifierListsAntisymmetric | latest_version/latest_version.py:132-143 | swapping the lists negates the result |
| Precedence.CompareIdentifierListsTransitive | latest_version/latest_version.py:132-143 | the list order is transitive |
| Precedence.LongerListGreater | latest_version/latest_version.py:138-143 | when every identifier of the shorter list compares equal, as text or as number, to its counterpart in the longer list, the longer list is greater, in both argument orders |
| Precedence.LongerListGreaterExample | latest_version/latest_version.py:138-143 | ["1", "01"] is below ["1", "1", "0"] |
| Precedence.CompareVersionsReflexive | latest_version/latest_version.py:120-158 | every version compares equal to itself |
| Precedence.CompareVersionsAntisymmetric | latest_version/latest_version.py:120-158 | compare(a, b) is -compare(b, a) |
| Precedence.CompareVersionsTransitive | latest_version/latest_version.py:120-158 | the version order is transitive, so sorting by it is well defined |
| Precedence.CompareVersionsStrict | latest_version/latest_version.py:120-158 | a chain a ≤ b ≤ c with one strict step gives a < c |
| Precedence.BuildMetadataIgnored | latest_version/latest_version.py:121-123 | comparing two versions equals comparing them with their build metadata removed |
| Precedence.BuildSuffixIgnored | latest_version/latest_version.py:121-123 | v+"+"+build compares equal to v |
| Precedence.SplitJoinedAtHyphen | latest_version/latest_version.py:113-118 | a version without `-` followed by "-" + tail splits back into the version and the tail |
| Precedence.CoreDecides | latest_version/latest_version.py:132-143 | when the dotted parts before the first `-` compare unequal as identifier lists, that comparison is the result, whatever tails either side has |
| Precedence.ReleaseAbovePrerelease | latest_version/latest_version.py:150-154 | a version without a tail ranks above a version with a tail whose dotted part compares equal to its own (such as "1.00" against "1.0-rc"), in both argument orders |
| Precedence.ReleaseAboveOwnPrerelease | latest_version/latest_version.py:150-154 | a version without a tail ranks above the same text with a tail, in both argument orders |
| Precedence.BothTailsRecurse | latest_version/latest_version.py:156-158 | when the dotted parts are equal and both tails exist, the result is the comparison of the tails |
| Precedence.CompareWithoutTails | latest_version/latest_version.py:124-143 | versions without tails compare by their dotted identifiers alone |
| Precedence.PrereleaseTailsByIdentifiers | latest_version/latest_version.py:124-158 | tails made of dot-separated identifiers without `-` compare by the identifier-list order |
| Precedence.HyphenatedTailSplitAgain | latest_version/latest_version.py:124-126 | a tail id-n is split again at its `-`, so v-id-n ranks below v-id, although identifier id-n alone ranks above id |
| Precedence.HyphenatedTailRanksBelow | latest_version/latest_version.py:124-126 | v-id-n ranks below v-id whenever id has no `-` |
| Precedence.HyphenatedIdentifierRanksAbove | latest_version/latest_version.py:99-105 | as an identifier, id-n ranks above id |
| Precedence.ExamplePrereleaseBelowRelease | latest_version/latest_version.py:150-154 | "1.0.0-alpha" < "1.0.0" |
| Precedence.ExampleLongerCoreAboveTail | latest_version/latest_version.py:140-143 | "1.0.0.1-rc" > "1.0.0": the extra identifier decides before the tail is looked at |
| Precedence.ExampleHigherCoreAboveTail | latest_version/latest_version.py:134-137 | "1.0.1-rc" > "1.0.0": the higher identifier decides before the tail is looked at |
| Precedence.ExampleEqualCoresTailBelow | latest_version/latest_version.py:150-154 | "1.00" > "1.0-rc": the dotted parts are equal by number, so the side without a tail wins |
| Precedence.ExampleNumericBelowAlphanumeric | latest_version/latest_version.py:92-98 | "1.0.0-alpha.1" < "1.0.0-alpha.beta" |
| Precedence.ExampleNumericByValue | latest_version/latest_version.py:83-91 | "1.0.0-rc.10" > "1.0.0-rc.9" |
| LatestVersion.VersionPrefix | latest_version/latest_version.py:162-167 | the prefix is empty exactly without a major; otherwise it is str(major), followed by "." and str(minor) when there is a minor, so it has one or two dot-separated digit fields whose values are major and minor |
| LatestVersion.Admits | latest_version/latest_version.py:212-216 | the prefix filter's test; its meaning is stated by AdmitsIff |
| LatestVersion.AdmitsIff | latest_version/latest_version.py:199-216 | a version is admitted exactly when it equals the prefix or continues it with `.`, `-` or `+` |
| LatestVersion.AdmitsExamples | latest_version/latest_version.py:212-216 | "1.2" admits "1.2.3" and "1.2.3-rc1" and refuses "1.20.0" |
| LatestVersion.FilterByPrefix | latest_version/latest_version.py:214-216 | a version is kept exactly when it is listed and admitted |
| LatestVersion.FilterByPrefixAppend | latest_version/latest_version.py:214-216 | the filter works element by element and keeps input order |
| LatestVersion.FilterByPrefixKeepsAdmitted | latest_version/latest_version.py:214-216 | a list of admitted versions passes unchanged |
| LatestVersion.SecondField | latest_version/latest_version.py:179 | the second `/`-separated field contains no `/` |
| LatestVersion.DockerVersions | latest_version/latest_version.py:179 | the extracted versions are at most as many as the manifests and contain no `/` |
| LatestVersion.DockerVersionsAppend | latest_version/latest_version.py:179 | extraction works manifest by manifest and keeps order |
| LatestVersion.DockerManifestOfImage | latest_version/latest_version.py:179 | a manifest name/version/rest yields exactly its version |
| LatestVersion.DockerManifestOfOtherImage | latest_version/latest_version.py:179 | a manifest not starting with name + "/" yields nothing |
| LatestVersion.EntryVersions | latest_version/latest_version.py:191 | the versions are the entries' "version" fields in order; an entry without one is an error |
| LatestVersion.HelmVersions | latest_version/latest_version.py:184-191 | an absent chart name gives the empty list; otherwise the entries' "version" fields, or the KeyError |
| LatestVersion.AllVersions | latest_version/latest_version.py:169-191 | picks docker or helm extraction by the source kind |
| LatestVersion.Message | latest_version/latest_version.py:193-218 | each empty-set error text starts with "No entries found for" and the image name |
| LatestVersion.LatestIndex | latest_version/latest_version.py:223-224 | no version ranks above the chosen one, and every version listed after it ranks strictly below it |
| LatestVersion.LatestAmongFirst | latest_version/latest_version.py:223-224 | the same choice among the first n versions |
| LatestVersion.LatestIndexUnique | latest_version/latest_version.py:223-224 | those two conditions fix the position: among equal maxima the last one listed wins |
| LatestVersion.LatestIsGreatest | latest_version/latest_version.py:223-224 | every listed version ranks at most the chosen one |
| LatestVersion.SortVersions | latest_version/latest_version.py:223 | the array is rearranged in place by a permutation, every pair ends in order, and equal versions keep their input order |
| LatestVersion.Insert | latest_version/latest_version.py:223 | one insertion pass extends the sorted, stable prefix by one element |
| LatestVersion.SwapAdjacent | latest_version/latest_version.py:223 | one in-place swap, tracked in the ghost permutation |
| LatestVersion.SelectLatest | latest_version/latest_version.py:223-224 | sorting a copy and taking the last element yields the version at LatestIndex |
| LatestVersion.Kept | latest_version/latest_version.py:199-221 | without a prefix every version is kept, otherwise the prefix filter applies |
| LatestVersion.LatestVersion | latest_version/latest_version.py:160-225 | a lookup error is passed on; an empty extraction gives one of the two "before filtering" errors; an empty filter result gives the "after filtering" error; otherwise the result is the latest kept version |
| LatestVersion.LatestVersionIsMaximal | latest_version/latest_version.py:199-224 | the printed version is listed, is admitted by the prefix, and no kept version ranks above it |
| FieldNames.FieldTable | file_filter/file_filter.py:43-55 | four fields per kind, and each field of a listed kind is present |
| FieldNames.BuildValidFields | file_filter/file_filter.py:43-55 | the nested loops build the field-name list |
| FieldNames.ValidFieldsDistinct | file_filter/file_filter.py:43-55 | there are exactly 36 field names, all different |
| FieldNames.ValidFieldsAreFields | file_filter/file_filter.py:43-55 | every polarity/also/kind combination is a valid field, in table order |
| FieldNames.FieldNameInjective | file_filter/file_filter.py:43-55 | different field combinations have different names |
| FieldNames.FieldTableDistinct | file_filter/file_filter.py:43-55 | distinct kinds give a table without repeats |
| FieldNames.KindTest | file_filter/file_filter.py:128-145 | a field name contains "_" + a kind name exactly when that is its own kind |
| FieldNames.PolarityTest | file_filter/file_filter.py:200-206 | a field name contains "include_" or "exclude_" exactly when that is its own polarity |
| FieldNames.EachFieldOnePolarity | file_filter/file_filter.py:200-206 | every field name contains exactly one of "include_" and "exclude_" |
| FileFilter.CompleteDollar | file_filter/file_filter.py:88-95 | the result extends the input, ends in `$`, and grows by one only when a `$` was missing |
| FileFilter.CompleteDollarIdempotent | file_filter/file_filter.py:88-95 | completing twice equals completing once |
| FileFilter.ExtensionPattern | file_filter/file_filter.py:68-70 | the pattern is ".*[.]" + ext + "$" |
| FileFilter.FilePattern | file_filter/file_filter.py:74-76 | the pattern is name + "$" |
| FileFilter.SubfilePattern | file_filter/file_filter.py:80-82 | the pattern is "(\|.*/)" + name + "$" |
| FileFilter.FilenamePattern | file_filter/file_filter.py:86-90 | the pattern starts with "(\|.*/)" + pat and ends in `$` |
| FileFilter.FilepathPattern | file_filter/file_filter.py:93-96 | the pattern starts with pat and ends in `$` |
| FileFilter.DirectoryPattern | file_filter/file_filter.py:100-102 | the pattern is name + "/.*$" |
| FileFilter.DirpathPattern | file_filter/file_filter.py:105-109 | the pattern starts with pat and ends in `$` |
| FileFilter.SubdirectoryPattern | file_filter/file_filter.py:112-114 | the pattern is "(\|.*/)" + name + "/.*$" |
| FileFilter.DirnamePattern | file_filter/file_filter.py:117-121 | the pattern starts with "(\|.*/)" + pat and ends in `$` |
| FileFilter.DirectoryPatternsAlwaysAppend | file_filter/file_filter.py:105-121 | the dirpath and dirname builders always append `$`, since their string ends in `*` |
| FileFilter.PatternsKeepTheirDollar | file_filter/file_filter.py:86-96 | a filename or filepath pattern already ending in `$` gets no second one |
| FileFilter.PatternEndsWithDollar | file_filter/file_filter.py:68-121 | every builder yields a pattern ending in `$` |
| FileFilter.GetReprog | file_filter/file_filter.py:126-147 | the only error is the logic error for the given field name |
| FileFilter.GetReprogOfField | file_filter/file_filter.py:126-147 | every valid field reaches the builder of its own kind and never the logic error |
| FileFilter.DispatchNames | file_filter/file_filter.py:128-145 | the dispatch tests the nine kind names in the source's order |
| FileFilter.CheckItem | file_filter/file_filter.py:154-166 | an element is accepted exactly when it is a non-empty string whose pattern compiles; otherwise the matching error |
| FileFilter.ParseItems | file_filter/file_filter.py:153-166 | the accepted patterns in order, up to the first error, and that error |
| FileFilter.ParseItemsAccepts | file_filter/file_filter.py:154-166 | a list passes exactly when every element is accepted |
| FileFilter.ParseFieldSpec | file_filter/file_filter.py:149-166 | a non-list is refused and leaves the table alone; a list replaces the field's entry with its accepted patterns |
| FileFilter.EmptyTable | file_filter/file_filter.py:57 | every valid field starts with an empty list |
| FileFilter.ApplyConfig | file_filter/file_filter.py:183-193 | loading one config keeps the table's keys |
| FileFilter.ApplyConfigReplaces | file_filter/file_filter.py:183-193 | after a successful load a mentioned field holds exactly its new list and an unmentioned one is unchanged |
| FileFilter.ApplyConfigs | file_filter/file_filter.py:173-193 | loading the config files in order keeps the table's keys |
| FileFilter.LastConfigWins | file_filter/file_filter.py:173-193 | each field holds the list from the last config file that mentions it, or its old list when none does |
| FileFilter.FinalTable | file_filter/file_filter.py:173-193 | starting from the empty table: the last mention's list, or empty |
| FileFilter.MentionsAreLists | file_filter/file_filter.py:150-193 | after a successful load every mention of a field was a list |
| FileFilter.ProgTable.constructor | file_filter/file_filter.py:57 | the table starts empty for every valid field |
| FileFilter.ProgTable.ParseField | file_filter/file_filter.py:149-166 | the in-place reset and append leave the table and outcome that ParseFieldSpec gives |
| FileFilter.ProgTable.LoadConfig | file_filter/file_filter.py:183-193 | the loop over valid fields leaves the table and outcome that ApplyConfig gives |
| FileFilter.ProgTable.LoadConfigs | file_filter/file_filter.py:173-193 | the loop over config files leaves the table and outcome that ApplyConfigs gives |
| FileFilter.ProgTable.Split | file_filter/file_filter.py:196-206 | the extend loop computes SplitSpec |
| FileFilter.SplitSpec | file_filter/file_filter.py:198-206 | the only error is the logic error for a field name with neither polarity |
| FileFilter.SplitOfFields | file_filter/file_filter.py:198-206 | for real field names the split never fails, and gives the include lists and the exclude lists concatenated in table order |
| FileFilter.ValidFieldsSplit | file_filter/file_filter.py:198-206 | the split of the full table never reaches the logic error |
| FileFilter.AnyMatch | file_filter/file_filter.py:214-217 | true exactly when some pattern matches the line |
| FileFilter.Selected | file_filter/file_filter.py:214-217 | an include pattern matches and no exclude pattern does; used by FilterMembership |
| FileFilter.Filter | file_filter/file_filter.py:212-222 | the printed lines; FilterMembership and FilterAppend state what they are |
| FileFilter.FilterMembership | file_filter/file_filter.py:212-222 | a line is printed exactly when it is some right-stripped input line that matches an include and no exclude pattern |
| FileFilter.FilterAppend | file_filter/file_filter.py:212-222 | the filter processes lines one by one, so output order follows input order |
| FileFilter.NoIncludeNoOutput | file_filter/file_filter.py:208-210 | without include patterns nothing is printed |
| FileFilter.FilterLines | file_filter/file_filter.py:212-222 | the loop over the input lines computes the filter |
| FileFilter.Run | file_filter/file_filter.py:170-224 | the script body computes Output: no config file is an error, then load, split, filter |
| FileFilter.Output | file_filter/file_filter.py:170-222 | the script's result; OutputIsFilter and OutputSelects state it |
| FileFilter.OutputIsFilter | file_filter/file_filter.py:170-222 | after a successful load the output is the filter over the table's include and exclude lists |
| FileFilter.OutputSelects | file_filter/file_filter.py:170-222 | after a successful load the program succeeds and prints exactly the selected right-stripped lines |
| Version.FieldIndex | version.py:88-93 | 0, 1 and 2 for x, y and z; -1 for any other character |
| Version.SignificantNeighbor | version.py:261-265 | y's neighbour is x and z's is y; x wraps round to z and an unknown field lands on y |
| Version.PinnedValue | version.py:130-134 | present exactly when the file exists; then it is the file's contents with the leading and trailing whitespace removed, and has none left at its ends |
| Version.BranchNameValue | version.py:189-192 | None exactly for x and z; otherwise str(branch) |
| Version.KeepDigits | version.py:201 | only digits remain, the result is empty exactly when the input has no digit, and it is no longer than the input |
| Version.KeepDigitsAppend | version.py:201 | digit removal works piece by piece |
| Version.KeepDigitsOfDigits | version.py:201 | a digit string is unchanged |
| Version.NormaliseDigits | version.py:199-206 | a non-empty digit string with the same value, "0" when there are no digits, never starting with "00"; digits without a leading zero come back unchanged, and a leading run of zeros becomes one "0" |
| Version.OneZeroKept | version.py:202-204 | "00" + s becomes "0" + s: one leading zero stays |
| Version.BranchDigitsValue | version.py:199-206 | an x or z field raises on None; y gives the normalised digits of str(branch) |
| Version.MatchIndices | version.py:280-284 | the strictly increasing list of exactly the indices whose commit equals the change |
| Version.CommitsSinceNeighborChanged | version.py:280-285 | the first index whose commit equals the change; none exactly when the change is not among the commits |
| Version.CommitsSinceChangedValue | version.py:287-292 | None without the neighbour's pinned file, the IndexError when no commit matches, otherwise the first index as text |
| Version.Evaluate | version.py:95-292 | a strategy raises only the IndexError or the TypeError of the digit strategy |
| Version.FirstTruthy | version.py:321-329 | a returned value is never empty |
| Version.FirstTruthyAt | version.py:321-329 | the result is whatever the first non-declining strategy yields, its value or its exception |
| Version.FirstTruthyExhausted | version.py:321-329 | the result is None exactly when every strategy declines |
| Version.MasterIsNotRelease | version.py:374-396 | master and main do not start with "release/" |
| Version.VersionFactory | version.py:462-479 | Release exactly for a non-empty TAG_NAME or a "release/" branch; Master exactly for master or main without one; Developer otherwise; a missing branch raises |
| Version.OffsetZ | version.py:403-411 | no offset file leaves z; an offset that is not a number raises ValueError before z is looked at; a None z then raises TypeError; a z that is not a number raises ValueError |
| Version.OffsetZAdds | version.py:408 | when the stripped offset and z both read as integers, the new z is str() of their sum: canonical decimal text that reads back as the sum |
| Version.BranchVersion.constructor | version.py:311-319 | the strategy lists for the branch kind and three empty caches |
| Version.BranchVersion.EvaluateStrategies | version.py:321-329 | the loop with early return computes FirstTruthy |
| Version.BranchVersion.X | version.py:331-336 | a truthy cache is returned without evaluating; otherwise the evaluation is stored and returned |
| Version.BranchVersion.Y | version.py:338-343 | as X, with a developer "0" turned into "1" before it is stored |
| Version.BranchVersion.Z | version.py:398-412 | as X; on a release branch the raw value is stored, then replaced by its sum with the offset, so an offset error leaves the raw value cached |
| Version.XValue | version.py:331-336 | the x the getter computes on an empty cache: a value it yields is never empty |
| Version.YValue | version.py:338-343 | the y the getter computes: a value it yields is never empty, and on a developer branch it is never "0" |
| Version.ZValue | version.py:398-412 | the z the getter computes, with the release offset; ReleasePatch, ReleaseWithoutPinnedY and DeveloperPatchValue state it |
| Version.Dotted | version.py:353-357 | succeeds exactly when x, y and z all do, the first exception wins, and the text starts with str(x) and a dot |
| Version.Stored | version.py:331-343 | the cache after a getter: the computed value when it succeeds, the old cache when it raises |
| Version.StoredZ | version.py:398-412 | the z cache after the getter: the offset sum, or the raw z when only the offset step raises, or the old cache |
| Version.VersionOutput | version.py:462-482 | the script's result; MasterVersion, DeveloperVersion and Generate state it |
| Version.BranchVersion.Render | version.py:353-357 | x, y and z read through the getters in order, joined by dots, the first exception winning; afterwards each cache holds what its getter stored, and a getter after an exception is not run, so its cache is unchanged |
| Version.Generate | version.py:462-482 | the script prints VersionOutput: the kind's fields, or the exception |
| Version.FirstTruthyOfOne | version.py:321-329 | a one-strategy list yields its value when truthy, None when falsy, or its exception |
| Version.MasterVersion | version.py:377-385 | master and main print 0.0.<number of commits> |
| Version.DeveloperMinorValue | version.py:441-456 | the developer y is the normalised branch digits, with "0" turned into "1": a digit string, never "0" |
| Version.DeveloperPatchValue | version.py:457-459 | the developer z is the parent-branch count when git gives one, else the commit count |
| Version.DeveloperVersion | version.py:453-459 | a developer branch never fails and prints 0.<minor>.<patch> |
| Version.DeveloperNeverLooksLikeMaster | version.py:446-449 | no developer version starts with "0.0.", which is reserved for master |
| Version.DeveloperTicketNumber | version.py:199-206 | a branch like feature/CASM-1234 gets y = 1234 |
| Version.ReleaseWithoutPinnedX | version.py:321-336 | without a non-empty .x the release x is None, and the printed version starts with "None." |
| Version.ReleasePatch | version.py:398-412 | the release z is str() of the number of commits since .y last changed, plus the offset when there is one |
| Version.ReleaseRawPatch | version.py:280-292 | with .y pinned, the release z strategy yields the number of commits since .y last changed |
| Version.ReleaseWithoutPinnedY | version.py:398-412 | without .y the release z is None, and a numeric offset then raises the TypeError |
| Strings.Find | latest_version/latest_version.py:179 | the first occurrence of the needle, or -1 when there is none |
| Strings.Split | latest_version/latest_version.py:132-133 | `str.split` on one character |
| Strings.SplitOfJoin | latest_version/latest_version.py:132-133 | splitting joined parts that avoid the separator gives the parts back |
| Strings.LexCompare | latest_version/latest_version.py:99-105 | code-point order, -1, 0 or 1 |
| Strings.LexCompareAntisymmetric | latest_version/latest_version.py:99-105 | swapping the strings negates the order |
| Strings.LexCompareTransitive | latest_version/latest_version.py:99-105 | the code-point order is transitive |
| Strings.NatToString | version.py:213 | `str(n)`: digits with value n and no leading zero |
| Strings.ParseInt | version.py:408 | `int()` of an optional sign followed by digits |
| Strings.ParseIntToString | version.py:408 | int(str(n)) == n |
| Strings.RStrip | file_filter/file_filter.py:213 | trailing whitespace removed, nothing else |
| Strings.Strip | version.py:134 | the input with a run of whitespace removed at each end and nothing else, with no whitespace left at either end; text without whitespace is unchanged |
| Strings.IntToString | version.py:408 | `str(i)`: decimal digits with value i and no leading zero, preceded by `-` exactly when i is negative |

## Left out

- **Reading and printing.** File, JSON and YAML reading, standard input, printing, `sys.exit`, the error texts of file_filter and the diagnostic `myprint` lines are not modelled. The loaded documents and the input lines are parameters, and results stand for what is printed or the exit.
- **Argument parsing.** `validate_majorminor` and `parse_parameters` (latest_version/latest_version.py:46-73) are not modelled. Major and minor arrive as optional naturals.
- Precedence.IsInt: numeric means a non-empty string of ASCII digits. Python's `int()` also accepts surrounding whitespace, a sign, `_` separators and non-ASCII digits.
- Strings.ParseInt: the same ASCII simplification applies to every `int()` in version.py. Strings.RStrip and Strings.Strip recognise ASCII whitespace only.
- Precedence.IsInt, Strings.ParseInt, Strings.NatToString: integers are unbounded. CPython 3.11 and later raise ValueError when `int()` reads, or `str()` writes, a decimal of more than 4300 digits. So a numeric identifier that long is not numeric in `is_int` (latest_version/latest_version.py:75-80), and the z offset sum at version.py:408 raises.
- FileFilter.ApplyConfig, FileFilter.ProgTable.LoadConfig: each loaded document is a mapping from field names. An empty YAML file loads as None, and a document can also be a list or a scalar. Indexing such a document at file_filter/file_filter.py:185 raises TypeError, which is not caught, so the script ends with a traceback. The model cannot express such a document, so this exit is not modelled.
- **Dead `prStripped` branch.** The `prStripped=True` branch of `compare_versions` (latest_version/latest_version.py:127-130) is never taken, because no call passes the flag.
- LatestVersion.EntryVersions: helm "version" fields are taken to be strings. A chart index with non-string versions is outside the model.
- **Regular expressions.** Compiling and matching are the `compiles` and `matches` parameters. The `re.error` path is the `compiles` check; the error text is left out.
- **State after a failed parse.** A failed parse ends file_filter at once, so the partly rebuilt table it leaves behind is never read; the model states it but nothing is proved about it.
- **Git, environment and pinned files.** The git calls and the reads of the environment and the pinned files are inputs carried by `Checkout`:
  - `branch_name()`, including its regex over `git branch` and its GIT_BRANCH fallback;
  - the commit list;
  - the last-change hash;
  - the `git rev-list --count` output, including `parent_branch`;
  - TAG_NAME;
  - the contents of `.x`, `.y`, `.z` and `.z_offset`.
- **Unmodelled version.py pieces.** `is_clean` (always false and unused), the `LooseVersion` base class and `BranchVersion.__call__`'s print are not modelled.
- **update_appversion** is not part of this model.
- **Quirks modelled as written.** Two behaviours are kept as the code has them, not as their comments suggest. Python's negative index wraps x's neighbour round to z. And `^00*` keeps one leading zero.
