# Roddy configuration grouping and engine rules, modelled in Dafny

Roddy is a workflow-management engine for cluster pipelines. This project models two parts of it.

- **The grouping script, `group-configs.py`.** It reads the `roddyExecutionStore` directories of one or more pipeline runs and answers one question: did those runs use the same configuration? It first reads, from every `exec_*` directory, the `versionsInfo.txt` header and the job `.parameters` files (bash `declare` lines). A caller-supplied summary turns them into parameter sets. It then groups identical sets on three levels: the files of one execution, the executions of one store, and the stores named on the command line. At every consistent level the context collapses to the enclosing directory. The exit status says whether one configuration remained.
- **The pure decision rules of the Java engine.** These are:
  - layered configuration resolution, where later parents override earlier ones and own values override all parents;
  - configuration values: type detection, booleans, `${name}` substitution with loop detection, and bash-array ranges;
  - tool resource-set selection and tool cloning;
  - filename-pattern IDs and `${...}` command parsing;
  - job-ID formats and job-state codes;
  - processing flags and context levels;
  - data-set bookkeeping and file groups;
  - application-property defaults;
  - plugin identifiers and versions;
  - the XML resource resolver's relative-path normaliser;
  - a handful of rules from the `Roddy` main class.

Each source component is one Dafny module in one file.

| file | module | models |
|---|---|---|
| wrappers.dfy | Wrappers | `Option` and `Result`, shared by all modules |
| decimal_digits.dfy | DecimalDigits | the Unicode decimal digits that Python's `\d` and Java's `Character.digit` accept |
| py_text.dfy | PyText | Python whitespace, `rstrip`, greedy regex runs |
| parameter_files.dfy | ParameterFiles | `parse_parameter_line`, `parse_parameter_file` |
| version_info.dfy | VersionInfo | `read_version_info` |
| parameter_sets.dfy | ParameterSets | `ParameterSet`, both combination strategies |
| posix_paths.dfy | PosixPaths | the path strings `pathlib.PurePosixPath` prints, and `/` with one component |
| analyzer.dfy | Analyzer | stores, `ExecutionStoreAnalyzer.run`, the command line |
| java_strings.dfy | JavaStrings | `String.split`/`indexOf`/`trim`, `Integer.parseInt`, hex formatting |
| linked_maps.dfy | LinkedMaps | insertion-ordered maps (`LinkedHashMap`) |
| overridable.dfy | Overridable | `RecursiveOverridableMapContainer` |
| config_values.dfy | ConfigValues | `ConfigurationValue` |
| tools.dfy | Tools | `ToolEntry`, `ToolFileParameter`, `ToolFileParameterCheckCondition` |
| configuration.dfy | Configurations | `Configuration` and its project, analysis and context subclasses, the typed value container |
| filename_patterns.dfy | FilenamePatterns | `FilenamePattern` and its four subclasses |
| app_config.dfy | AppConfigs | `RoddyAppConfig` |
| execution_context.dfy | ExecutionContexts | `ExecutionContextLevel`, `ProcessingFlag`, `ExecutionContextError` |
| data_sets.dfy | DataSets | `DataSet` |
| jobs.dfy | Jobs | `JobState`, job IDs (fake, PBS), `JobManager` naming and state codes, `SGECommandFactory` |
| files.dfy | Files | `FileGroup`, `BaseFile` |
| plugins.dfy | Plugins | `PluginInfo` |
| resource_resolver.dfy | ResourceResolvers | `ResourceResolver` |
| roddy.dfy | RoddyMain | rules of `Roddy` |

Some things are parameters of the model rather than part of it:
- the file system, as a map from paths to directory listings and to file lines;
- the configuration summary, as an uninterpreted function;
- helpers whose code is outside the modelled files.

Java `null` is modelled as `Option.None`. A thrown exception is modelled as `Result.Failure` carrying the exception's name or message. Object identity is modelled as structural equality.

## Model

| member | source | states |
|---|---|---|
| PyText.RStrip | group-configs.py:50 | `line.rstrip()` keeps a prefix of the line; the prefix does not end in whitespace, and everything it drops is whitespace |
| PyText.DigitRunDigits | group-configs.py:94 | a greedy `\d+` run consists of decimal digits and stops at a non-digit or at the end of the text |
| PyText.RStripTrailing | group-configs.py:50 | stripping a text that does not end in whitespace, followed by any run of whitespace, gives back exactly that text |
| DecimalDigits.DecimalValue | RoddyCore/src/de/dkfz/roddy/config/ConfigurationValue.java:279 | a decimal digit's value is below ten and, for ASCII digits, is the usual one |
| DecimalDigits.ZeroInRun | RoddyCore/src/de/dkfz/roddy/config/ConfigurationValue.java:279 | the zero found for a character in a digit run is one of the table's zeros and starts that character's run |
| DecimalDigits.DecimalValueOfDigit | RoddyCore/src/de/dkfz/roddy/config/ConfigurationValue.java:279 | every Unicode decimal digit, as `Character.digit` reads a code point, is worth its distance from the zero of its own script's run; `Integer.parseInt` meets only the digits of one UTF-16 unit (see JavaStrings.ParseInt) |
| JavaStrings.ParseInt | RoddyCore/src/de/dkfz/roddy/config/ConfigurationValue.java:279 | `Integer.parseInt` succeeds only with a 32-bit value, and only on a non-empty text of characters that are one UTF-16 unit each: a supplementary character is two surrogates, which are no digits |
| JavaStrings.ParseIntExamples | RoddyCore/src/de/dkfz/roddy/config/ConfigurationValue.java:279 | Arabic-Indic digits are read with their values, with or without a sign, while MATHEMATICAL BOLD DIGIT ONE (U+1D7CF) is not a number |
| DecimalDigits.DecimalValueExample | RoddyCore/src/de/dkfz/roddy/config/ConfigurationValue.java:279 | ARABIC-INDIC DIGIT FIVE is a decimal digit worth five |
| ParameterFiles.FlagRunLongest | group-configs.py:50 | the greedy `(?:\s-\S)*` consumes the longest run of whitespace-dash-character triples at the position |
| ParameterFiles.AssignmentAt | group-configs.py:50 | `([^=]+)=(.+)` at a position gives a non-empty name free of `=` and a non-empty value free of line feeds |
| ParameterFiles.AssignmentLayout | group-configs.py:50 | a matched name and value are laid out as `name=value` from the position on, and on a text without line feeds they run to its end |
| ParameterFiles.TryLengths | group-configs.py:50 | backtracking `\s+` from the longest run down stops only at a position where the assignment matches |
| ParameterFiles.TryFlags | group-configs.py:50 | backtracking the flag repetitions stops only at a position where the assignment matches |
| ParameterFiles.MatchAfterDeclare | group-configs.py:50 | a match after `declare` yields a non-empty `=`-free name and a non-empty value free of line feeds |
| ParameterFiles.MatchAfterDeclareLayout | group-configs.py:50 | on a text without line feeds a match leaves the text ending in `name=value` |
| ParameterFiles.MatchAfterDeclareAt | group-configs.py:50 | the overall match is the assignment at the position where the backtracking over flags and blanks stops |
| ParameterFiles.ParseParameterLine | group-configs.py:46-54 | a line parses only if its stripped form starts with `declare`; the pair is then a non-empty `=`-free name and a non-empty value free of line feeds |
| ParameterFiles.ParseParameterLineLayout | group-configs.py:46-54 | on a single line a parsed name, `=` and value form the end of the stripped line |
| ParameterFiles.DeclareLineParses | group-configs.py:46-54 | every `declare` line of the form flags, blanks, `NAME=VALUE`, trailing whitespace parses to exactly `(NAME, VALUE)`; the value is kept verbatim, including `=` and quotes |
| ParameterFiles.DeclareLineParsesStripped | group-configs.py:46-54 | the same for a line without trailing whitespace |
| ParameterFiles.AfterDeclareShape | group-configs.py:50 | after `declare`, the regex matches flags, blanks and `NAME=VALUE` to `(NAME, VALUE)`: backtracking never splits the flags or the name differently |
| ParameterFiles.PrefixLayout | group-configs.py:50 | on such a line the greedy flag run ends exactly after the flags, and the blank run covers exactly the separator |
| ParameterFiles.AssignmentAfterPrefix | group-configs.py:50 | on such a line `([^=]+)=(.+)` tried right after the separator yields exactly the name and the value |
| ParameterFiles.BacktrackStopsAt | group-configs.py:50 | when the assignment matches after all greedy flags and blanks, backtracking gives up neither a flag nor a blank |
| ParameterFiles.FlagRunOfFlags | group-configs.py:50 | the greedy flag run consumes exactly the given flags when a blank not followed by `-` comes next |
| ParameterFiles.NotDeclareLine | group-configs.py:50-54 | a line whose stripped form does not start with `declare` gives `None` |
| ParameterFiles.NonDeclarationExamples | group-configs.py:57-70 | the test's shell conditional and the bare line feed give `None` |
| ParameterFiles.TargetSizeExample | group-configs.py:59-60 | the test's `declare -x -i TARGETSIZE=74569526` gives `("TARGETSIZE", "74569526")` |
| ParameterFiles.ThreadsExample | group-configs.py:61-62 | the test's `BWA_MEM_THREADS` line gives `("BWA_MEM_THREADS", "8")` |
| ParameterFiles.VersionExample | group-configs.py:63-64 | one flag followed by several blanks still gives the name and `0.5.9` |
| ParameterFiles.QuotedValueExample | group-configs.py:65-69 | a quoted value holding `=` and blanks is returned verbatim |
| ParameterFiles.Declarations | group-configs.py:80-81 | one parse outcome per line, each being `parse_parameter_line` of that line |
| ParameterFiles.AssignmentsKeys | group-configs.py:78-83 | a name is a key of the built map iff some line declares it |
| ParameterFiles.LastAssignmentWins | group-configs.py:82-83 | a name's value is the one on the last line declaring it: a later line overwrites an earlier one |
| ParameterFiles.ParameterFileEntriesSpec | group-configs.py:73-84 | for a whole file: the keys are exactly the declared names, each with the value from its last declaring line |
| ParameterFiles.NoDeclarationsNoEntries | group-configs.py:76-84 | a file with no matching line yields the empty map |
| VersionInfo.RoddyVersion | group-configs.py:94 | a header match is the literal `Roddy version: ` followed by either `develop` or three dot-separated runs of Unicode decimal digits, and it is a prefix of the line |
| VersionInfo.VersionAfterPrefix | group-configs.py:94 | the version group matched at the start of a text is a prefix of it |
| VersionInfo.VersionAfterPrefixShape | group-configs.py:94 | the version group is either `develop` or three non-empty runs of decimal digits joined by two dots |
| VersionInfo.TripleOfRuns | group-configs.py:94 | three greedy digit runs separated by dots make a version triple |
| VersionInfo.RoddyVersionOfRelease | group-configs.py:94 | a header naming release `a.b.c` yields exactly `a.b.c`, whatever non-digit text follows |
| VersionInfo.VersionAfterPrefixOfRelease | group-configs.py:94 | the version group of `a.b.c` followed by a non-digit is exactly `a.b.c` |
| VersionInfo.ReleaseRuns | group-configs.py:94 | the three greedy `\d+` runs of a release end exactly at its dots and at its end |
| VersionInfo.LastColon | group-configs.py:101 | the backtracked `(\S+):` splits at the last colon within the blank-free word, if there is one |
| VersionInfo.PluginLineShape | group-configs.py:101 | a plugin line match gives a non-empty blank-free name and version, written `name:version` after `Loaded plugin ` and followed by whitespace |
| VersionInfo.PluginLineParses | group-configs.py:101 | a line `Loaded plugin N:V from L`, with N and V blank-free and V colon-free, yields `(N, V)` |
| VersionInfo.PluginWord | group-configs.py:101 | in such a line the blank-free word is `N:V` and its last colon follows N |
| VersionInfo.PluginEntries | group-configs.py:99-105 | one outcome per body line: stripped, skipped when empty or malformed |
| VersionInfo.ReadVersionInfo | group-configs.py:87-106 | reading fails, carrying the stripped first line, exactly when that line is not a Roddy version header; otherwise `Roddy` is a key |
| VersionInfo.ReadVersionInfoSpec | group-configs.py:97-105 | the keys are `Roddy` plus exactly the plugins some body line names; `Roddy` keeps the header's version unless a plugin line uses that name; each plugin has the version of its last line; the second line is ignored |
| VersionInfo.ExampleVersionInfo | group-configs.py:109-125 | the test's header yields exactly Roddy 3.5.9 and the four plugin versions (five entries) |
| VersionInfo.ExampleEntries | group-configs.py:99-125 | the test header's body lines give the four plugin entries and skip the blank last line |
| VersionInfo.ExampleBlankLine | group-configs.py:100 | an indented blank line is skipped |
| VersionInfo.HeaderExample | group-configs.py:93-97 | the test's first line, with its line feed, yields version 3.5.9 |
| VersionInfo.NonAsciiHeaderExample | group-configs.py:94 | a header written in Arabic-Indic digits is read, and its digits are kept as written |
| VersionInfo.PluginExample | group-configs.py:99-105 | a test plugin line, with its line feed, yields the plugin's name and version |
| VersionInfo.ExampleAQC | group-configs.py:113 | the test's AlignmentAndQCWorkflows line yields that name with version `1.2.51-1`, whatever its location |
| VersionInfo.ExampleCO | group-configs.py:114 | the test's COWorkflows line yields version `1.2.66-1` |
| VersionInfo.ExampleBase | group-configs.py:115 | the test's PluginBase line yields version `1.2.1-0` |
| VersionInfo.ExampleDefault | group-configs.py:116 | the test's DefaultPlugin line yields version `1.2.2-0` |
| ParameterSets.PyEqualReflexive | group-configs.py:245 | Python `==` on summary values is reflexive |
| ParameterSets.PyEqualIsCoarser | group-configs.py:245-296 | `==` identifies `True` with `1`, while the sorted-key JSON text used for grouping does not |
| ParameterSets.FlattenAppend | group-configs.py:248-249 | flattening contexts distributes over appending a set |
| ParameterSets.FlattenExtend | group-configs.py:303-306 | extending one set's contexts adds exactly those contexts to the bag of all contexts |
| ParameterSets.FlattenConcat | group-configs.py:416 | flattening contexts distributes over concatenating lists of sets |
| ParameterSets.SimpleCombine | group-configs.py:237-252 | when every set equals the first, the result is one set holding all contexts in order with the first set's parameters; otherwise it is the input unchanged; either way the flattened contexts are the input's |
| ParameterSets.SimpleCombineExamples | group-configs.py:255-286 | the three test cases: two equal sets merge, two unequal sets stay, and non-adjacent equal sets are not merged |
| ParameterSets.FindGroup | group-configs.py:301 | the group lookup finds a group with exactly those parameters, or reports that none has them |
| ParameterSets.Without | group-configs.py:296-312 | removing a value keeps exactly the other values |
| ParameterSets.Distinct | group-configs.py:296-312 | the distinct values in order of first appearance: same members as the input, pairwise different |
| ParameterSets.GroupsReference | group-configs.py:289-294 | an independent definition of grouping: one group per distinct parameter value, in order of first appearance, holding the contexts of all sets with that value |
| ParameterSets.DistinctAppend | group-configs.py:300-312 | appending a value adds it to the distinct values exactly when it is new |
| ParameterSets.ContextsForAppend | group-configs.py:303-304 | appending a set adds its contexts to the contexts of its own value only |
| ParameterSets.ReferenceAppendNew | group-configs.py:307-312 | a set with new parameters opens a group at the end |
| ParameterSets.ReferenceAppendOld | group-configs.py:301-306 | a set with known parameters extends that group's contexts and changes nothing else |
| ParameterSets.GroupingIsReference | group-configs.py:289-315 | the dictionary fold of the script builds exactly the reference groups |
| ParameterSets.GroupingShape | group-configs.py:289-315 | the groups have pairwise distinct parameters, there are no more groups than sets, and a non-empty input gives a non-empty output |
| ParameterSets.GroupingContents | group-configs.py:296-315 | a group with parameters v exists iff some input set has v, and it holds the contexts of all those sets in input order |
| ParameterSets.GroupingPermutesContexts | group-configs.py:296-315 | the flattened output contexts are a permutation of the flattened input contexts |
| ParameterSets.GroupingKeepsContexts | group-configs.py:296-315 | a path is a context of the groups exactly when it is a context of the input |
| ParameterSets.GroupingOfDistinct | group-configs.py:296-315 | sets whose parameters are already distinct come back unchanged |
| ParameterSets.GroupingIdempotent | group-configs.py:296-315 | grouping an already grouped list returns it unchanged |
| ParameterSets.GroupingSingle | group-configs.py:289-315 | there is exactly one group iff the input is non-empty and all sets have the first set's parameters |
| ParameterSets.SimpleAgreesWithSingleGroup | group-configs.py:237-315 | when grouping finds a single group, the simple strategy returns the same result |
| ParameterSets.GroupingExampleTwoEqual | group-configs.py:320-325 | the test case with two equal sets gives one set with contexts `[b, c]` |
| ParameterSets.GroupingExampleTwoUnequal | group-configs.py:328-335 | the test case with two unequal sets gives both back |
| ParameterSets.GroupingExampleThree | group-configs.py:338-347 | the non-adjacent equal sets b and d are grouped as `[b, d]`, before `[c]` |
| PosixPaths.FormatNormal | group-configs.py:482 | every root with a list of components prints as a normal path, one that `Path()` gives back unchanged |
| PosixPaths.ChildFormat | group-configs.py:167 | `/` with one component prints the same as the path whose component list has that component appended |
| PosixPaths.FormatRoundTrip | group-configs.py:482 | a root and a list of components printed as a path read back as the same root and components |
| PosixPaths.NormalizeNormal | group-configs.py:482 | reading a path twice changes nothing: the printed form is normal and keeps the root and the components of the text |
| PosixPaths.ChildSpec | group-configs.py:167 | `dir / name` for one component keeps the root, appends the component to the parts, stays normal, and has that component as its `name` |
| PosixPaths.NormalizeExamples | group-configs.py:482 | `store/` becomes `store`, `""` and `.` become `.`, and `. / exec_1` is `exec_1` |
| Analyzer.ExecDirNames | group-configs.py:217-224 | a name is listed iff some entry with it is a directory or a link and starts with `exec_`; there are no more names than entries |
| Analyzer.ExecDirNamesAppend | group-configs.py:221-224 | the filter keeps listing order: a listing split in two gives the names of the first part followed by those of the second |
| Analyzer.ExecDirNamesSingle | group-configs.py:222-223 | a single entry is kept exactly when it is an `exec_*` directory or link |
| Analyzer.ParameterFileNames | group-configs.py:187-190 | a name is listed iff some entry with it is a file and ends with `.parameters` |
| Analyzer.ParameterFileNamesAppend | group-configs.py:188-190 | the filter keeps listing order |
| Analyzer.ParameterFileNamesSingle | group-configs.py:189 | a single entry is kept exactly when it is a `.parameters` file |
| Analyzer.ListDir | group-configs.py:190-224 | listing succeeds exactly for a directory of the file system and returns its entries |
| Analyzer.ReadLines | group-configs.py:79-80 | reading succeeds exactly for a file of the file system and returns its lines |
| Analyzer.ParameterFiles | group-configs.py:173-176 | an execution store has one parameter-file path per name, each the name joined to the store's directory, in the order of the names |
| Analyzer.LoadExecutionStore | group-configs.py:192-198 | an execution store loads iff its directory can be listed; it holds that directory's parameter file names, in listing order, and no parameters yet |
| Analyzer.LoadExecutionStores | group-configs.py:229-230 | the stores load iff every named directory can be listed; store i is the one for name i |
| Analyzer.LoadRoddyStore | group-configs.py:226-234 | a Roddy store loads iff its directory and each of its `exec_*` entries can be listed; store i is the one for the i-th `exec_*` name, and the Roddy store has no parameters yet |
| Analyzer.JobParameterSet | group-configs.py:396-400 | a job file gives the set with the file as its context and the summary of the versions and the file's parsed entries; it fails iff the file is missing |
| Analyzer.JobParameters | group-configs.py:395-400 | one such set per parameter file, in order; fails iff a file is missing |
| Analyzer.StoreParametersSpec | group-configs.py:384-413 | when its job parameter files all exist, an execution store is analysed successfully exactly when its version file parses; without parameter files it then contributes `[base_dir]` with empty parameters, otherwise at least one set with distinct parameters, and a single set is reported under the store's own directory |
| Analyzer.StoreParametersSucceeds | group-configs.py:384-392 | an execution store is analysed successfully only if its version file exists and parses and every one of its job parameter files exists; a missing or malformed file fails the analysis |
| Analyzer.StoreConsistent | group-configs.py:401-413 | when the version file parses and all jobs of an execution store summarise to v, the store contributes exactly one set: its directory with v |
| Analyzer.StoreInconsistent | group-configs.py:401-407 | when the version file parses and two of its job files summarise differently, the store contributes the file-level groups, more than one |
| Analyzer.AnalyseStores | group-configs.py:383-416 | the loop succeeds iff every execution store is analysed successfully, and then store i carries exactly what it contributes |
| Analyzer.ContributionsEmpty | group-configs.py:383-416 | stores that each contribute a set contribute nothing together exactly when there are none |
| Analyzer.CombinedParameters | group-configs.py:421-427 | collapsing a single group to the base directory keeps every group's parameters and adds none |
| Analyzer.CombinedContexts | group-configs.py:424-427 | collapsing adds no context except the base directory |
| Analyzer.RunSpec | group-configs.py:383-430 | `run` fails exactly when one execution store fails; otherwise each execution store carries its own contribution, the Roddy store carries sets with distinct parameters, a single set has the base directory alone as context, and there are none iff there are no execution stores |
| Analyzer.RunParameters | group-configs.py:421-430 | the sets stored on the Roddy store carry exactly the parameter values its execution stores contribute |
| Analyzer.EmptyStoreNoticed | group-configs.py:231-232 | a directory without `exec_*` entries prints its notice on standard output, naming the directory's last component, and adds nothing to the report, which is empty with status 0 |
| Analyzer.LoadedStores | group-configs.py:217-230 | on a file system whose listings hold single components, every loaded execution store lies in its Roddy store and has component names |
| Analyzer.JobContexts | group-configs.py:395-400 | the job sets' contexts are exactly the parameter files, in order |
| Analyzer.StoreContexts | group-configs.py:384-413 | an execution store loaded in a normal Roddy store path contributes normal paths only |
| Analyzer.ContributionsContexts | group-configs.py:416 | concatenated contributions with normal contexts have normal contexts |
| Analyzer.RunContexts | group-configs.py:421-430 | a Roddy store at a normal path reports normal paths only |
| Analyzer.AnalyseAllContexts | group-configs.py:480-483 | the sets of all command-line directories have normal contexts |
| Analyzer.MainContextsNormal | group-configs.py:480-493 | every context in the report is a path as `pathlib` prints it, whatever the spelling of the arguments |
| Analyzer.Main | group-configs.py:463-493 | the exit status is 0, 1 or 2; fewer than three arguments give 1, no notice and no report; status 1 is exactly the case without a report; otherwise 2 iff the report has more than one set |
| Analyzer.MainExitCode | group-configs.py:480-493 | with the stores analysed, the status is 2 iff two reported sets differ in their parameters, and the report is the grouping of all per-store results |
| LinkedMaps.Put | RoddyCore/src/de/dkfz/roddy/config/RecursiveOverridableMapContainer.java:177-179 | `put` on an insertion-ordered map overwrites the entry; a new key goes to the end of the key order and an existing key keeps its place |
| LinkedMaps.PutAll | RoddyCore/src/de/dkfz/roddy/config/RecursiveOverridableMapContainer.java:84-89 | `putAll` gives the union in which the added map wins on shared keys, and the key order stays consistent |
| LinkedMaps.Size | RoddyCore/src/de/dkfz/roddy/config/RecursiveOverridableMapContainer.java:198-200 | the size of a map is the number of its keys |
| Overridable.AllUnevaluated | RoddyCore/src/de/dkfz/roddy/config/RecursiveOverridableMapContainer.java:82-90 | the merged view of a container is a well-formed insertion-ordered map |
| Overridable.MergeParents | RoddyCore/src/de/dkfz/roddy/config/RecursiveOverridableMapContainer.java:84-86 | merging the parents in order yields a well-formed map in which a later parent overrides an earlier one |
| Overridable.AllMapIsLookup | RoddyCore/src/de/dkfz/roddy/config/RecursiveOverridableMapContainer.java:82-90 | the priority-ordered union of a container's layers holds a key iff lookup through own entries and parents resolves it, with that value |
| Overridable.AllUnevaluatedIsLookup | RoddyCore/src/de/dkfz/roddy/config/RecursiveOverridableMapContainer.java:82-90 | the merged map holds a key iff some layer defines it, with the value of the highest-priority layer: own entries first, then later parents before earlier ones |
| Overridable.MergeParentsIsLookup | RoddyCore/src/de/dkfz/roddy/config/RecursiveOverridableMapContainer.java:84-86 | merging the first n parents resolves a key to the value of the last of them that defines it |
| Overridable.AllKeysAreMerged | RoddyCore/src/de/dkfz/roddy/config/RecursiveOverridableMapContainer.java:55-90 | the key list and the merged map agree on which keys are known |
| Overridable.ParentKeysAreMerged | RoddyCore/src/de/dkfz/roddy/config/RecursiveOverridableMapContainer.java:55-86 | the same for the parents' part only |
| Overridable.HasValueIffResolves | RoddyCore/src/de/dkfz/roddy/config/RecursiveOverridableMapContainer.java:55-113 | `hasValue(id)` holds iff the id is an own key or a key of some transitive parent container |
| Overridable.LastParentOverrides | RoddyCore/src/de/dkfz/roddy/config/RecursiveOverridableMapContainer.java:84-89 | without an own entry, the last parent that resolves the key decides, whatever earlier parents hold |
| Overridable.LookupParentsOnlyParents | RoddyCore/src/de/dkfz/roddy/config/RecursiveOverridableMapContainer.java:84-86 | the parents' contribution depends on the parents alone |
| Overridable.LookupWellKeyed | RoddyCore/src/de/dkfz/roddy/config/RecursiveOverridableMapContainer.java:181-183 | when every layer stores values under their own ids, as `add` does, a resolved value carries the id it was found under |
| Overridable.ReKeyWellKeyed | RoddyCore/src/de/dkfz/roddy/config/RecursiveOverridableMapContainer.java:67-73 | re-keying values by their own ids keeps exactly the keys and only elevates each value |
| Overridable.ReKey | RoddyCore/src/de/dkfz/roddy/config/RecursiveOverridableMapContainer.java:67-73 | re-keying the merged entries by their values' ids yields a well-formed map of the elevated values |
| Overridable.AllValuesIsLookup | RoddyCore/src/de/dkfz/roddy/config/RecursiveOverridableMapContainer.java:67-73 | `getAllValues` holds an id iff it resolves, with the elevated resolved value |
| Overridable.AllValues | RoddyCore/src/de/dkfz/roddy/config/RecursiveOverridableMapContainer.java:67-73 | `getAllValues` yields a well-formed insertion-ordered map |
| Overridable.GetValueOr | RoddyCore/src/de/dkfz/roddy/config/RecursiveOverridableMapContainer.java:156-160 | `getValue(id, def)` returns the default when the id is unknown |
| Overridable.GetValue | RoddyCore/src/de/dkfz/roddy/config/RecursiveOverridableMapContainer.java:162-170 | `getValue(id)` throws `ConfigurationError` exactly when the id is unknown |
| Overridable.GetValueIsResolved | RoddyCore/src/de/dkfz/roddy/config/RecursiveOverridableMapContainer.java:143-170 | a known id yields the elevated resolved value, elevated twice when it comes from a parent, in both forms of `getValue`; an unknown id yields the default |
| Overridable.InheritanceListNonEmpty | RoddyCore/src/de/dkfz/roddy/config/RecursiveOverridableMapContainer.java:92-109 | the inheritance list is non-empty exactly for the ids some layer defines |
| Overridable.InheritanceListHead | RoddyCore/src/de/dkfz/roddy/config/RecursiveOverridableMapContainer.java:92-96 | with an own entry, the inheritance list starts with the own value |
| Overridable.Size | RoddyCore/src/de/dkfz/roddy/config/RecursiveOverridableMapContainer.java:198-200 | `size()` counts own entries only |
| Overridable.Put | RoddyCore/src/de/dkfz/roddy/config/RecursiveOverridableMapContainer.java:177-179 | `put(k, v)` makes k resolve to v, leaves every other key and the parents alone, and grows the size only for a new key |
| Overridable.Add | RoddyCore/src/de/dkfz/roddy/config/RecursiveOverridableMapContainer.java:181-183 | `add(v)` stores v under its own id and leaves every other key alone |
| Overridable.PutAll | RoddyCore/src/de/dkfz/roddy/config/RecursiveOverridableMapContainer.java:172-175 | `putAll(null)` changes nothing; otherwise the own entries become the union in which the new values win |
| Overridable.AddAll | RoddyCore/src/de/dkfz/roddy/config/RecursiveOverridableMapContainer.java:185-188 | `addAll` of null or an empty list changes nothing |
| Overridable.LastWithId | RoddyCore/src/de/dkfz/roddy/config/RecursiveOverridableMapContainer.java:185-188 | finds the last of the values carrying an id, and none exactly when no value carries it |
| Overridable.AddAllResolves | RoddyCore/src/de/dkfz/roddy/config/RecursiveOverridableMapContainer.java:181-188 | after `addAll`, an id resolves to the last added value carrying it, and every other id resolves as before |
| ConfigValues.DetermineType | RoddyCore/src/de/dkfz/roddy/config/ConfigurationValue.java:101-107 | the detected type is the first of integer, double, float and bashArray whose detector accepts the value, and string when none does; each answer is characterised both ways |
| ConfigValues.Make | RoddyCore/src/de/dkfz/roddy/config/ConfigurationValue.java:79-87 | a given type that is not blank is kept, otherwise the type is detected from the value; id, value, description are stored; missing tags become an empty list |
| ConfigValues.EqualIgnoresExtras | RoddyCore/src/de/dkfz/roddy/config/ConfigurationValue.java:58-69 | `equals` is an equivalence, and two values are equal iff they agree once configuration, description and tags are erased |
| ConfigValues.ToBoolean | RoddyCore/src/de/dkfz/roddy/config/ConfigurationValue.java:255-276 | null is false; otherwise true iff the lower-cased value starts with y, j or t or is "1"; every other value, including those starting with n or f and "0", is false |
| ConfigValues.ToBooleanExamples | RoddyCore/src/de/dkfz/roddy/config/ConfigurationValue.java:255-276 | "true", "Yes", "ja", "1" are true; "false", "no", "0", "", "maybe" and null are false |
| ConfigValues.TrimEmptyIffBlank | RoddyCore/src/de/dkfz/roddy/config/ConfigurationValue.java:452-454 | `trim()` gives the empty string iff every character is at most U+0020 |
| ConfigValues.IsNullOrEmptySpec | RoddyCore/src/de/dkfz/roddy/config/ConfigurationValue.java:452-454 | `isNullOrEmpty()` holds iff the value is null or consists only of characters up to U+0020 |
| ConfigValues.WordRun | RoddyCore/src/de/dkfz/roddy/config/ConfigurationValue.java:294 | the `[a-zA-Z0-9_]*` run at a position is maximal |
| ConfigValues.RefsFrom | RoddyCore/src/de/dkfz/roddy/config/ConfigurationValue.java:327-338 | every name the scan finds occurs as `${name}` in the value |
| ConfigValues.NoRefInsideMatch | RoddyCore/src/de/dkfz/roddy/config/ConfigurationValue.java:294-332 | no match of the reference pattern starts inside another match, so the left-to-right scan misses nothing |
| ConfigValues.RefsFromComplete | RoddyCore/src/de/dkfz/roddy/config/ConfigurationValue.java:327-338 | every occurrence of `${name}` at or after the scan position is found |
| ConfigValues.RefAtIsMatch | RoddyCore/src/de/dkfz/roddy/config/ConfigurationValue.java:294-333 | an occurrence of `${name}` is a pattern match, and removing `$`, `{` and `}` gives exactly the name |
| ConfigValues.RefsSpec | RoddyCore/src/de/dkfz/roddy/config/ConfigurationValue.java:327-338 | `getIDsForParentValues()` lists a name iff the value contains `${name}` for it |
| ConfigValues.RefsOfRef | RoddyCore/src/de/dkfz/roddy/config/ConfigurationValue.java:327-338 | a value that is just `${name}` lists exactly that name |
| ConfigValues.UnvisitedShrinks | RoddyCore/src/de/dkfz/roddy/config/ConfigurationValue.java:316-321 | adding a known id to the blacklist shrinks the number of ids still open, so evaluation terminates |
| ConfigValues.Evaluate | RoddyCore/src/de/dkfz/roddy/config/ConfigurationValue.java:306-325 | a value without references evaluates to itself; a cycle fails carrying the id of the value that found it, which the configuration turns into its message |
| ConfigValues.ToEvaluated | RoddyCore/src/de/dkfz/roddy/config/ConfigurationValue.java:306-324 | a value without a configuration evaluates to its raw string |
| ConfigValues.SubstituteUnknown | RoddyCore/src/de/dkfz/roddy/config/ConfigurationValue.java:316-322 | references to ids the configuration does not know are left untouched |
| ConfigValues.UnknownRefsStay | RoddyCore/src/de/dkfz/roddy/config/ConfigurationValue.java:306-325 | a value whose references are all unknown evaluates to its raw string |
| ConfigValues.SingleRefReplaced | RoddyCore/src/de/dkfz/roddy/config/ConfigurationValue.java:316-321 | a known reference is replaced by the referenced value's own evaluation, made with that id on the blacklist |
| ConfigValues.AcyclicEvaluates | RoddyCore/src/de/dkfz/roddy/config/ConfigurationValue.java:306-325 | when references between known ids strictly decrease a rank, evaluation never fails |
| ConfigValues.SubstituteEvaluates | RoddyCore/src/de/dkfz/roddy/config/ConfigurationValue.java:316-322 | under the same ranking, the replacement loop never fails |
| ConfigValues.AcyclicValueEvaluates | RoddyCore/src/de/dkfz/roddy/config/ConfigurationValue.java:306-325 | every value of a configuration without reference cycles evaluates |
| ConfigValues.LoopFails | RoddyCore/src/de/dkfz/roddy/config/ConfigurationValue.java:309-314 | along a chain of first references that returns to an earlier name, evaluation with the earlier names open fails, and the failing id is a later name on the chain |
| ConfigValues.CyclicValueFails | RoddyCore/src/de/dkfz/roddy/config/ConfigurationValue.java:309-314 | a value whose first references run into a cycle fails, and the value that finds the cycle is one of the referenced names on the chain |
| ConfigValues.SelfReferenceFails | RoddyCore/src/de/dkfz/roddy/config/ConfigurationValue.java:309-314 | `a=${a}` fails, reported for `a` itself |
| ConfigValues.Range | RoddyCore/src/de/dkfz/roddy/config/ConfigurationValue.java:394-396 | `{a..b}` gives the decimal strings of a..b inclusive, none when a > b; an end of `Integer.MAX_VALUE` never terminates and is a failure |
| ConfigValues.PlainTokensKept | RoddyCore/src/de/dkfz/roddy/config/ConfigurationValue.java:397-400 | tokens not starting with `{` are kept unchanged |
| ConfigValues.BashArraySpaced | RoddyCore/src/de/dkfz/roddy/config/ConfigurationValue.java:380-381 | `( w )` is the one-element array `[w]` |
| ConfigValues.BashArrayTight | RoddyCore/src/de/dkfz/roddy/config/ConfigurationValue.java:380-381 | in `(w)` the closing parenthesis and w's last character are both cut off |
| ConfigValues.RangeTokenParts | RoddyCore/src/de/dkfz/roddy/config/ConfigurationValue.java:390-391 | `{x..y}` with decimal bounds is recognised as a range and splits into `{x` and `y}` |
| ConfigValues.RangeTokenBounds | RoddyCore/src/de/dkfz/roddy/config/ConfigurationValue.java:392-393 | removing the braces and trimming leaves exactly the bounds' text |
| ConfigValues.RangeTokenExpandsTo | RoddyCore/src/de/dkfz/roddy/config/ConfigurationValue.java:390-396 | `{x..y}` expands to the range between the parsed bounds |
| ConfigValues.RangeTokenExpands | RoddyCore/src/de/dkfz/roddy/config/ConfigurationValue.java:390-396 | `{a..b}` with 32-bit bounds and b below `Integer.MAX_VALUE` expands, without failing, to a..b |
| Tools.CheckOfBool | RoddyCore/src/de/dkfz/roddy/config/ToolFileParameterCheckCondition.java:25-39 | the boolean constructor gives a condition that is a boolean, holds that boolean and names no value |
| Tools.CheckOfString | RoddyCore/src/de/dkfz/roddy/config/ToolFileParameterCheckCondition.java:29-35 | a string starting with `conditional:` names the value after those 12 characters; any other string becomes the boolean the conversion helper reads from it, defaulting to true |
| Tools.CheckOfStringRoundTrip | RoddyCore/src/de/dkfz/roddy/config/ToolFileParameterCheckCondition.java:29-39 | `isBoolean()` is false exactly for strings with the prefix, and then prefix plus condition gives the string back |
| Tools.EvaluateCheck | RoddyCore/src/de/dkfz/roddy/config/ToolFileParameterCheckCondition.java:45-49 | `evaluate` returns the fixed boolean when there is one, otherwise the configuration's boolean for the condition name |
| Tools.NewStringParameter | RoddyCore/src/de/dkfz/roddy/config/ToolEntry.java:189-205 | a string parameter without a value id is set by the calling code, one with a value id by that configuration value |
| Tools.NewFileParameter | RoddyCore/src/de/dkfz/roddy/config/ToolFileParameter.java:32-42 | null constraint and child lists become empty lists; every other field is stored as given |
| Tools.NewSimpleFileParameter | RoddyCore/src/de/dkfz/roddy/config/ToolFileParameter.java:28-30 | the short constructor uses the `default` selection tag, so `hasSelectionTag()` is false, with no children and no parent variable |
| Tools.CloneConstraintsEqual | RoddyCore/src/de/dkfz/roddy/config/ToolFileParameter.java:44-51 | copying the constraints one by one yields the same constraints |
| Tools.CloneFileParameterEqual | RoddyCore/src/de/dkfz/roddy/config/ToolFileParameter.java:44-51 | a cloned file parameter keeps every field and an equal constraint list |
| Tools.CloneFilesEqual | RoddyCore/src/de/dkfz/roddy/config/ToolEntry.java:320-357 | cloning the files of a tuple or group yields equal files |
| Tools.CloneParameterEqual | RoddyCore/src/de/dkfz/roddy/config/ToolEntry.java:213-357 | a clone of any parameter kind equals the original |
| Tools.GenericClassStringParts | RoddyCore/src/de/dkfz/roddy/config/ToolEntry.java:364-370 | a group with a generic class prints `Group<File>`, which splits back at its first `<` into both class names; one without prints the group class alone, with no `<` |
| Tools.NewToolEntry | RoddyCore/src/de/dkfz/roddy/config/ToolEntry.java:384-396 | the flags are never null: the short constructor uses `""` and null becomes `""`; a new entry is not generic and has no resource sets and no inline script |
| Tools.SetGenericOptions | RoddyCore/src/de/dkfz/roddy/config/ToolEntry.java:402-406 | the given inputs, outputs and resource sets are appended to the entry's lists |
| Tools.GenericOptionsMakeGeneric | RoddyCore/src/de/dkfz/roddy/config/ToolEntry.java:398-456 | after adding generic options a tool is generic exactly when it was or an input or output parameter was added, has resource sets exactly when it had some or some were added, and keeps its inline script |
| Tools.CloneParametersEqual | RoddyCore/src/de/dkfz/roddy/config/ToolEntry.java:409-417 | cloning the parameter lists yields equal lists |
| Tools.CloneToolLosesInlineScript | RoddyCore/src/de/dkfz/roddy/config/ToolEntry.java:408-425 | a clone keeps id, base path id, path, flags, parameter and resource-set lists and the override flag, so genericity is unchanged, but it loses the inline script and its name |
| Tools.IndexOfSize | RoddyCore/src/de/dkfz/roddy/config/ToolEntry.java:474-477 | finds the first set of exactly the size, or reports that none has it |
| Tools.IndexAbove | RoddyCore/src/de/dkfz/roddy/config/ToolEntry.java:479-482 | finds the first set larger than the size, or reports that none is |
| Tools.GetResourceSet | RoddyCore/src/de/dkfz/roddy/config/ToolEntry.java:458-462 | selection fails exactly on an empty list |
| Tools.ResourceSetChoice | RoddyCore/src/de/dkfz/roddy/config/ToolEntry.java:458-485 | for a non-empty list the result always exists and is an element; a single set, or a size at or below the first set's, gives the first; a size at or above the last set's gives the last; otherwise the first set of exactly that size, else the first larger one |
| Tools.PresentedParameters | RoddyCore/src/de/dkfz/roddy/config/ToolEntry.java:499-527 | without the override flag, or with an inheritance list of at most one entry, a tool presents its own parameters |
| Tools.PresentedFromEntry | RoddyCore/src/de/dkfz/roddy/config/ToolEntry.java:499-527 | with the flag, the first entry below the top, scanning downward, that does not override supplies the parameters |
| Tools.ScanDownFrom | RoddyCore/src/de/dkfz/roddy/config/ToolEntry.java:504-524 | the downward scan stops at the first entry that does not override |
| Tools.PresentedAllOverride | RoddyCore/src/de/dkfz/roddy/config/ToolEntry.java:504-526 | when every scanned entry overrides, the tool keeps its own parameters |
| Configurations.Fresh | RoddyCore/src/de/dkfz/roddy/config/Configuration.java:98-100 | a new configuration has its content, no parents, no errors and empty containers |
| Configurations.AddParent | RoddyCore/src/de/dkfz/roddy/config/Configuration.java:279-283 | null and parents already present are ignored; otherwise the parent is appended at the end, with the highest priority; nothing else changes |
| Configurations.SetParent | RoddyCore/src/de/dkfz/roddy/config/Configuration.java:269-272 | after `setParent(p)` the parent list is exactly `[p]`, and nothing else changes |
| Configurations.AddParentsSpec | RoddyCore/src/de/dkfz/roddy/config/Configuration.java:120-125 | adding a list of parents keeps the old ones as a prefix, adds exactly the listed non-null ones and never repeats a parent |
| Configurations.NewConfiguration | RoddyCore/src/de/dkfz/roddy/config/Configuration.java:120-125 | a configuration built from a list of parents has exactly the non-null listed ones, each once |
| Configurations.HasErrorsIffLoadErrors | RoddyCore/src/de/dkfz/roddy/config/Configuration.java:384-402 | `hasErrors()` holds iff the collected load-error list is non-empty, so it is the own errors or some parent's errors, recursively |
| Configurations.ParentHasErrorsIffLoadErrors | RoddyCore/src/de/dkfz/roddy/config/Configuration.java:386-400 | the same for the parents' part |
| Configurations.ParentErrorsInherited | RoddyCore/src/de/dkfz/roddy/config/Configuration.java:384-391 | every load error of a parent is also listed by its child |
| Configurations.ParentErrorsCollected | RoddyCore/src/de/dkfz/roddy/config/Configuration.java:386-388 | every error of one of the first n parents is in their collected list |
| Configurations.InvalidityIsLocal | RoddyCore/src/de/dkfz/roddy/config/Configuration.java:394-406 | `isInvalid()` ignores the parents and the load errors, and `hasErrors()` ignores the validation errors |
| Configurations.AddLoadError | RoddyCore/src/de/dkfz/roddy/config/Configuration.java:380-382 | `addLoadError(e)` appends e to the collected load errors, so the configuration then has errors; nothing else changes and validity is kept |
| Configurations.ParentHasErrorsOf | RoddyCore/src/de/dkfz/roddy/config/Configuration.java:394-401 | one parent with errors among the first n gives the child errors |
| Configurations.ImportConfigurations | RoddyCore/src/de/dkfz/roddy/config/Configuration.java:141-144 | a blank import string gives the empty list |
| Configurations.ImportConfigurationsJoin | RoddyCore/src/de/dkfz/roddy/config/Configuration.java:141-144 | for a non-blank import string not ending in a comma, joining the listed names with commas gives back the trimmed string |
| Configurations.GetContainer | RoddyCore/src/de/dkfz/roddy/config/Configuration.java:250-263 | `getContainer(id)` returns a container with that id, and null exactly when no container has it |
| Configurations.GetContainerOfId | RoddyCore/src/de/dkfz/roddy/config/Configuration.java:250-263 | each container's id finds that container |
| Configurations.ValuesContainer | RoddyCore/src/de/dkfz/roddy/config/Configuration.java:169-171 | the values container of a configuration has the values id, its own values, and one parent container per parent |
| Configurations.ValidContainer | RoddyCore/src/de/dkfz/roddy/config/Configuration.java:169-171 | when every configuration in the hierarchy stores its values under their own ids, as `add` does, the values container and every parent container are well formed and store values under their ids |
| Configurations.Env | RoddyCore/src/de/dkfz/roddy/config/Configuration.java:169-171 | the raw strings references are resolved against hold exactly the ids that resolve, each with its resolved value |
| Configurations.GetOrThrow | RoddyCore/src/de/dkfz/roddy/config/RecursiveOverridableMapContainerForConfigurationValues.java:62-64 | `getOrThrow(id)` fails exactly when the id resolves nowhere; otherwise it returns the resolved value carrying that id, re-attached to this configuration |
| Configurations.GetOrThrowIsGetValue | RoddyCore/src/de/dkfz/roddy/config/RecursiveOverridableMapContainerForConfigurationValues.java:62-64 | it gives the same answer as the container's generic `getValue` |
| Configurations.Get | RoddyCore/src/de/dkfz/roddy/config/RecursiveOverridableMapContainerForConfigurationValues.java:25-68 | `get(id, def)` returns the re-attached resolved value when there is one, otherwise a fresh value with that id whose string is the default and whose type is detected from it |
| Configurations.EvaluateIn | RoddyCore/src/de/dkfz/roddy/config/ConfigurationValue.java:305-324 | evaluating an attached value succeeds exactly when evaluation in the configuration's values does, with that string; otherwise it throws the cyclic-dependency message naming the configuration's file, and that message is added to its load errors |
| Configurations.GetString | RoddyCore/src/de/dkfz/roddy/config/RecursiveOverridableMapContainerForConfigurationValues.java:104-110 | `getString` of an unknown id is the default, `""` for the one-argument form, and changes nothing; a failed read leaves exactly its message added to the load errors |
| Configurations.GetStringOfPlain | RoddyCore/src/de/dkfz/roddy/config/RecursiveOverridableMapContainerForConfigurationValues.java:108-110 | a resolved value without references reads back as its raw string |
| Configurations.CyclicReadHasErrors | RoddyCore/src/de/dkfz/roddy/config/ConfigurationValue.java:309-313 | reading a value whose first references run into a cycle fails with the message for a value on the cycle, in the configuration's file, and leaves the configuration with that load error |
| Configurations.GetList | RoddyCore/src/de/dkfz/roddy/config/RecursiveOverridableMapContainerForConfigurationValues.java:90-96 | `getList` of an unknown id is the empty list and changes nothing; a failed read leaves exactly its message added to the load errors; the list read throws `PatternSyntaxException` only for a known id whose separator is a body `[…]` cannot close (empty, `\`, `[` or `^`) or a class body the regular-expression compiler rejects |
| Configurations.GetListJoin | RoddyCore/src/de/dkfz/roddy/config/RecursiveOverridableMapContainerForConfigurationValues.java:90-96 | for a known id, a one-character separator other than `\`, `[` and `^`, and a value that is non-empty and does not end with the separator, the list is non-empty and joining it with the separator gives back the value |
| Configurations.GetListIsSplit | RoddyCore/src/de/dkfz/roddy/config/RecursiveOverridableMapContainerForConfigurationValues.java:90-96 | for a known id whose string read succeeds, a separator without class syntax splits the value at each of its characters, one with class syntax is split by the compiled class, and an empty, `\`, `[` or `^` separator throws `PatternSyntaxException`; a failed string read gives the same message and the same recorded error |
| Configurations.GetListPieces | RoddyCore/src/de/dkfz/roddy/config/RecursiveOverridableMapContainerForConfigurationValues.java:90-96 | with a separator without class syntax the list read succeeds, no piece holds a separator character, and the pieces, with the trailing empty ones `split` dropped, interleaved with the separator characters met give back the value |
| Configurations.PutValue | RoddyCore/src/de/dkfz/roddy/config/RecursiveOverridableMapContainerForConfigurationValues.java:119-125 | `put` changes only the values of this configuration and no other id's resolution |
| Configurations.PutValueGet | RoddyCore/src/de/dkfz/roddy/config/RecursiveOverridableMapContainerForConfigurationValues.java:119-125 | a put value is read back with its string, and with its given type when that is not blank |
| Configurations.ProjectName | RoddyCore/src/de/dkfz/roddy/config/Configuration.java:219-243 | `getProjectName()` is null, with nothing changed, for every level below PROJECT; for a project a successful read gives a name, and a failed one is recorded in the load errors |
| Configurations.ProjectNameDefault | RoddyCore/src/de/dkfz/roddy/config/Configuration.java:222-223 | a project without a `projectName` value is named after itself |
| Configurations.SizeOf | RoddyCore/src/de/dkfz/roddy/config/Configuration.java:204-209 | `ResourceSetSize.valueOf` succeeds exactly for a size name and gives its ordinal |
| Configurations.FirstProject | RoddyCore/src/de/dkfz/roddy/config/AnalysisConfiguration.java:48-51 | finds the first project parent, or reports that there is none |
| Configurations.InParent | RoddyCore/src/de/dkfz/roddy/config/AnalysisConfiguration.java:47-53 | a read made through a parent puts the parent as it stands afterwards in its place: the result is kept, a parent left with errors gives the child errors, and an unchanged parent leaves the child unchanged |
| Configurations.ResourcesSize | RoddyCore/src/de/dkfz/roddy/config/Configuration.java:204-209 | reading the size keeps the configuration valid; a successful read changes nothing, and a read that changes the configuration has failed and left errors |
| Configurations.AnalysisSizeFromProject | RoddyCore/src/de/dkfz/roddy/config/AnalysisConfiguration.java:46-53 | an analysis takes its resource-set size from its first project parent, whatever comes before it, and that parent's state after the read becomes the analysis's parent |
| Configurations.CyclicSizeHasErrors | RoddyCore/src/de/dkfz/roddy/config/Configuration.java:204-206 | a cyclic `usedResourcesSize` value cannot be read as a size, and the configuration is left with exactly that error added |
| Configurations.NewProject | RoddyCore/src/de/dkfz/roddy/config/ProjectConfiguration.java:27-34 | a null analysis map becomes an empty map, with no analysis ids; the runtime service class and the single parent are stored |
| Configurations.AnalysisIDsAreAnalyses | RoddyCore/src/de/dkfz/roddy/config/ProjectConfiguration.java:48-54 | the listed analysis ids are exactly those `getAnalysis` finds, with no repetition |
| Configurations.RuntimeServiceClass | RoddyCore/src/de/dkfz/roddy/config/ProjectConfiguration.java:97-111 | a non-blank own runtime service class is returned as is |
| Configurations.ParentServiceClass | RoddyCore/src/de/dkfz/roddy/config/ProjectConfiguration.java:100-108 | the parents' answer is null exactly when no parent answers |
| Configurations.RuntimeServiceFromParent | RoddyCore/src/de/dkfz/roddy/config/ProjectConfiguration.java:97-108 | with a blank own class, the first project or analysis parent that answers decides, in parent order |
| Configurations.RuntimeServiceDeclared | RoddyCore/src/de/dkfz/roddy/config/ProjectConfiguration.java:97-111 | a found class is the own class or was declared by a project or analysis up the hierarchy |
| Configurations.ParentServiceClassFrom | RoddyCore/src/de/dkfz/roddy/config/ProjectConfiguration.java:100-108 | scanning from parent i, the first parent that answers decides |
| Configurations.ParentServiceDeclared | RoddyCore/src/de/dkfz/roddy/config/ProjectConfiguration.java:100-108 | a class found among the parents was declared by a project or analysis up the hierarchy |
| Configurations.ProjectClass | RoddyCore/src/de/dkfz/roddy/config/ProjectConfiguration.java:60-62 | a configured class is returned as is |
| Configurations.ProjectClassIffDeclared | RoddyCore/src/de/dkfz/roddy/config/ProjectConfiguration.java:60-72 | `getProjectClass()` finds s exactly when the chain of first project parents declares s first; otherwise it throws |
| Configurations.NewAnalysis | RoddyCore/src/de/dkfz/roddy/config/AnalysisConfiguration.java:32-39 | a null tool-folder list becomes empty; workflow class, runtime service class, tools and cleanup script are stored; a new analysis is not native |
| Configurations.SetNativeToolID | RoddyCore/src/de/dkfz/roddy/config/AnalysisConfiguration.java:95-97 | setting the native tool id keeps the configuration an analysis |
| Configurations.NativeToolRoundTrip | RoddyCore/src/de/dkfz/roddy/config/AnalysisConfiguration.java:91-101 | `setNativeToolID` then `getNativeToolID` round-trips, `isNative()` holds iff the id is non-null, and setting the old id back restores the configuration |
| Configurations.NewContext | RoddyCore/src/de/dkfz/roddy/config/ContextConfiguration.java:21-29 | a context copies the analysis's content and fields; its parents are analysis, project and application-specific configuration in increasing priority; the analysis appears once although it is added twice |
| Configurations.CleanupScriptKept | RoddyCore/src/de/dkfz/roddy/config/AnalysisConfiguration.java:75-77 | an analysis has a cleanup script exactly when one was given, and a context built on it has one exactly then too |
| Configurations.MasterIgnoresAddedParents | RoddyCore/src/de/dkfz/roddy/config/ProjectConfiguration.java:79-90 | a configuration is master exactly when its file names no parent, child exactly when it is not master, and adding parents at run time changes neither |
| Configurations.ContextOverrideOrder | RoddyCore/src/de/dkfz/roddy/config/ContextConfiguration.java:21-29 | in a context, application-specific values override project values, which override analysis values |
| Configurations.ContextSizeFromProject | RoddyCore/src/de/dkfz/roddy/config/ContextConfiguration.java:21-29 | a context configuration takes its resource-set size from its project, and the project's state after the read becomes the context's second parent |
| Configurations.GetBoolean | RoddyCore/src/de/dkfz/roddy/config/RecursiveOverridableMapContainerForConfigurationValues.java:74-76 | `getBoolean(id, def)` is the default for an unknown id, else the resolved value read as a boolean |
| Configurations.EvaluateCheckIn | RoddyCore/src/de/dkfz/roddy/config/ToolFileParameterCheckCondition.java:45-49 | a condition naming an unknown value evaluates to true |
| Configurations.ConditionalFollowsValue | RoddyCore/src/de/dkfz/roddy/config/ToolFileParameterCheckCondition.java:29-49 | a check read from `conditional:NAME` follows the boolean of the value NAME |
| Configurations.ToolsContainer | RoddyCore/src/de/dkfz/roddy/config/Configuration.java:161-163 | the tools container of a configuration has the tools id, its own tools, and one parent container per parent |
| Configurations.ValidToolsContainer | RoddyCore/src/de/dkfz/roddy/config/Configuration.java:161-163 | the tools container and every parent container are well formed |
| Configurations.PresentedParametersIn | RoddyCore/src/de/dkfz/roddy/config/ToolEntry.java:499-510 | a tool without the override flag presents its own parameters in any configuration |
| Configurations.PresentedParametersUnknown | RoddyCore/src/de/dkfz/roddy/config/ToolEntry.java:499-510 | a tool that no configuration in the hierarchy defines presents its own parameters |
| Configurations.ToolResourceSet | RoddyCore/src/de/dkfz/roddy/config/ToolEntry.java:458-485 | the chosen set is always an element of the tool's list; selection fails exactly when the size cannot be determined or the list is empty; the configuration is left as the size read leaves it |
| FilenamePatterns.NewPattern | RoddyCore/src/de/dkfz/roddy/config/FilenamePattern.java:39-67 | a null selection tag becomes `"default"`, and then the pattern reports no selection tag; a new pattern accepts no file arrays and enforces no array size |
| FilenamePatterns.NewDerivedFrom | RoddyCore/src/de/dkfz/roddy/config/DerivedFromFilenamePattern.java:21-36 | the long constructor stores the derived-from class and both array settings; its dependency kind is `derivedFrom` |
| FilenamePatterns.NewSimpleDerivedFrom | RoddyCore/src/de/dkfz/roddy/config/DerivedFromFilenamePattern.java:17-19 | the short constructor accepts no file arrays and stores the enforced size -1, which counts as no enforced size |
| FilenamePatterns.Id | RoddyCore/src/de/dkfz/roddy/config/DerivedFromFilenamePattern.java:28-31 | every id starts with `cls::` and ends with the selection tag in brackets |
| FilenamePatterns.IdsSeparateDependencies | RoddyCore/src/de/dkfz/roddy/config/OnMethodFilenamePattern.java:34-37 | two patterns for the same class with different dependency kinds never share an id |
| FilenamePatterns.SourceFile | RoddyCore/src/de/dkfz/roddy/config/DerivedFromFilenamePattern.java:38-41 | on-tool and file-stage patterns have no source file; an on-method pattern has one exactly when the first base file has parents; a derived-from pattern fails without parents; a found source file is always the first parent |
| FilenamePatterns.OnMethodPattern | RoddyCore/src/de/dkfz/roddy/config/OnMethodFilenamePattern.java:15-43 | an on-method pattern has the on-method dependency, keeps the called class and method, takes the first parent of the base file as source file when there is one (null otherwise), and has the id `cls::m_method/r_cls[tag]` |
| FilenamePatterns.OnToolPattern | RoddyCore/src/de/dkfz/roddy/config/OnToolFilenamePattern.java:18-37 | an on-tool pattern has the on-tool dependency, keeps the tool id, never has a source file, and has the id `cls::onS_tool[tag]` |
| FilenamePatterns.FileStagePattern | RoddyCore/src/de/dkfz/roddy/config/FileStageFilenamePattern.java:18-40 | a file-stage pattern has the file-stage dependency, keeps its stage, never has a source file, and has the id `cls::#_stage[tag]` |
| FilenamePatterns.Filter | RoddyCore/src/de/dkfz/roddy/config/FilenamePattern.java:242 | the result holds only characters the class keeps, is no longer than the input, and a text of kept characters is unchanged |
| FilenamePatterns.FilterConcat | RoddyCore/src/de/dkfz/roddy/config/FilenamePattern.java:242 | filtering distributes over concatenation |
| FilenamePatterns.FilterAvoids | RoddyCore/src/de/dkfz/roddy/config/FilenamePattern.java:242 | filtering never introduces a character |
| FilenamePatterns.ExtractCommandWith | RoddyCore/src/de/dkfz/roddy/config/FilenamePattern.java:233-252 | a text without the command id gives no command; a found command's text starts where the id first occurs |
| FilenamePatterns.CommandOf | RoddyCore/src/de/dkfz/roddy/config/FilenamePattern.java:236-251 | the command keeps its whole text as its name |
| FilenamePatterns.LocateCommand | RoddyCore/src/de/dkfz/roddy/config/FilenamePattern.java:234-236 | for `id body }` with no other brace the command starts at 0 and ends at the last character |
| FilenamePatterns.FilterSegment | RoddyCore/src/de/dkfz/roddy/config/FilenamePattern.java:242 | filtering `name=v}` keeps the name and the `=`, drops the brace and filters the value |
| FilenamePatterns.SplitAttribute | RoddyCore/src/de/dkfz/roddy/config/FilenamePattern.java:243-247 | splitting `name=v` at `=` gives back the name and the value, with an empty value read as `""` |
| FilenamePatterns.SingleAttribute | RoddyCore/src/de/dkfz/roddy/config/FilenamePattern.java:233-252 | a command `id,name=v}` yields the whole text as its name and the single attribute name with the value's kept characters |
| FilenamePatterns.CommandText | RoddyCore/src/de/dkfz/roddy/config/FilenamePattern.java:236-240 | the two readings of a command text, up to its brace and as id plus segment, are the same string |
| FilenamePatterns.WholeCommand | RoddyCore/src/de/dkfz/roddy/config/FilenamePattern.java:233-236 | when the text is exactly the command, extraction reads the whole text |
| FilenamePatterns.SplitSegments | RoddyCore/src/de/dkfz/roddy/config/FilenamePattern.java:240 | `id,rest` splits at commas into the id and one segment |
| FilenamePatterns.SegmentAttribute | RoddyCore/src/de/dkfz/roddy/config/FilenamePattern.java:241-249 | the segment after the id becomes exactly one attribute |
| FilenamePatterns.AsWrittenDropsDash | RoddyCore/src/de/dkfz/roddy/config/FilenamePattern.java:242 | with the character class as written, `delimiter=-` is read as an empty delimiter |
| FilenamePatterns.AttributeValueRoundTrip | RoddyCore/src/de/dkfz/roddy/config/FilenamePattern.java:233-252 | with letters, digits and `= . - _ + #` kept, any such name and value come back unchanged from `id,name=v}` |
| FilenamePatterns.AtomicPrefixWith | RoddyCore/src/de/dkfz/roddy/config/FilenamePattern.java:185-192 | a text without the atomic-prefix placeholder is unchanged, whatever attribute filter is used |
| FilenamePatterns.AtomicPrefix | RoddyCore/src/de/dkfz/roddy/config/FilenamePattern.java:185-192 | the step as written (the source's filter): a text without the placeholder is unchanged |
| FilenamePatterns.AtomicPrefixIntended | RoddyCore/src/de/dkfz/roddy/config/FilenamePattern.java:185-192 | the step with the intended filter: a text without the placeholder is unchanged |
| FilenamePatterns.ReplaceWhole | RoddyCore/src/de/dkfz/roddy/config/FilenamePattern.java:190 | replacing the whole text gives just the replacement |
| FilenamePatterns.AtomicPrefixWithTruncates | RoddyCore/src/de/dkfz/roddy/config/FilenamePattern.java:185-192 | for any filter that keeps the delimiter, `${sourcefileAtomicPrefix,delimiter=d}` becomes the source file name cut before its last `d` |
| FilenamePatterns.AtomicPrefixTruncates | RoddyCore/src/de/dkfz/roddy/config/FilenamePattern.java:185-192 | as written, a delimiter of kept characters cuts the name before its last occurrence |
| FilenamePatterns.AtomicPrefixIntendedTruncates | RoddyCore/src/de/dkfz/roddy/config/FilenamePattern.java:185-192 | with the intended filter, delimiters containing `-` cut the name too |
| FilenamePatterns.AtomicPrefixDashKeepsName | RoddyCore/src/de/dkfz/roddy/config/FilenamePattern.java:185-192 | as written, `delimiter=-` becomes the empty delimiter, whose last occurrence is the end of the name, so the whole name is kept |
| FilenamePatterns.AtomicPrefixSlashFails | RoddyCore/src/de/dkfz/roddy/config/FilenamePattern.java:190 | as written, `/` survives the filter, and a name without `/` makes `substring(0, -1)` fail |
| FilenamePatterns.AbsentAfterStart | RoddyCore/src/de/dkfz/roddy/config/FilenamePattern.java:171 | a text starting with the first character of `t` but not with `t`, and without that character elsewhere, does not contain `t` |
| FilenamePatterns.SlashCommandPlaceholders | RoddyCore/src/de/dkfz/roddy/config/FilenamePattern.java:171-185 | the bare prefix command contains none of the other source-file placeholders |
| FilenamePatterns.ApplySourceFileSlashUnchanged | RoddyCore/src/de/dkfz/roddy/config/FilenamePattern.java:170-201 | the prefix failure is caught, and the pattern comes back as it stood before the prefix step |
| FilenamePatterns.ApplySourceFile | RoddyCore/src/de/dkfz/roddy/config/FilenamePattern.java:172-201 | without a source file the pattern text is unchanged |
| FilenamePatterns.ApplyWithoutPlaceholders | RoddyCore/src/de/dkfz/roddy/config/FilenamePattern.java:172-201 | a text without `$` is unchanged even with a source file |
| AppConfigs.UncheckedGetOrSet | RoddyCore/src/de/dkfz/roddy/config/RoddyAppConfig.java:103-110 | the default is stored only for an absent key; an existing key is left unchanged; the stored value is returned either way |
| AppConfigs.GetOrSetTyped | RoddyCore/src/de/dkfz/roddy/config/RoddyAppConfig.java:67-97 | string and path are never checked; an integer default that is not an integer raises the configuration error without touching the store; a non-boolean boolean default raises a runtime error; a stored non-boolean value raises the configuration error; an unknown type raises a runtime error; on success the returned value is the stored one |
| AppConfigs.GetOrSet | RoddyCore/src/de/dkfz/roddy/config/RoddyAppConfig.java:59-65 | the string form never fails and behaves as the unchecked getter |
| AppConfigs.SetForMode | RoddyCore/src/de/dkfz/roddy/config/RoddyAppConfig.java:51-53 | the setter writes the key `MODE.name` and leaves every other key as it was |
| AppConfigs.GetOrSetBoolean | RoddyCore/src/de/dkfz/roddy/config/RoddyAppConfig.java:35-41 | a successful boolean getter returns the stored text read as a boolean |
| AppConfigs.GetOrSetInteger | RoddyCore/src/de/dkfz/roddy/config/RoddyAppConfig.java:43-49 | a successful integer getter returns the number the stored text parses to; for a key already stored, with an accepted default, the store is kept and the result is that text's number or, when `Integer.parseInt` rejects it, the configuration error |
| AppConfigs.SupplementaryDigitStored | RoddyCore/src/de/dkfz/roddy/config/RoddyAppConfig.java:43-49 | a stored U+1D7CF, two surrogates to Java, makes the integer getter raise the configuration error and leaves the store alone |
| AppConfigs.GetOrSetStable | RoddyCore/src/de/dkfz/roddy/config/RoddyAppConfig.java:103-110 | a second get-or-set, with any default, returns the same value and leaves the store alone |
| AppConfigs.ForModeBothKeys | RoddyCore/src/de/dkfz/roddy/config/RoddyAppConfig.java:30-33 | after the run-mode getter both the plain and the `MODE.name` key are present; the run-mode key wins, then the plain key, then the default |
| AppConfigs.SetThenGetForMode | RoddyCore/src/de/dkfz/roddy/config/RoddyAppConfig.java:30-33 | what the run-mode setter writes the run-mode getter reads back |
| AppConfigs.IntegerDefaultRoundTrip | RoddyCore/src/de/dkfz/roddy/config/RoddyAppConfig.java:43-49 | a 32-bit default for an absent key is stored as its decimal text and comes back as the same number |
| ExecutionContexts.SubmissionTable | RoddyCore/src/de/dkfz/roddy/core/ExecutionContextLevel.java:14-61 | exactly RUN, RERUN and CLEANUP can submit jobs; ABORTED is additionally allowed to; every level that can submit is allowed to |
| ExecutionContexts.IsInIsContains | RoddyCore/src/de/dkfz/roddy/core/ProcessingFlag.java:36-50 | `isIn` and `contains` are the same test, and both are symmetric |
| ExecutionContexts.CombineContains | RoddyCore/src/de/dkfz/roddy/core/ProcessingFlag.java:28-34 | a combined flag contains a bit pattern exactly when one of its parts does |
| ExecutionContexts.FlagTable | RoddyCore/src/de/dkfz/roddy/core/ProcessingFlag.java:16-38 | STORE_EVERYTHING contains exactly the dummy-job and file flags and itself; STORE_NOTHING contains nothing and is in nothing |
| ExecutionContexts.NewError | RoddyCore/src/de/dkfz/roddy/core/ExecutionContextError.java:73-77 | a new error has no parent, no additional information and no exception |
| ExecutionContexts.Expand | RoddyCore/src/de/dkfz/roddy/core/ExecutionContextError.java:97-102 | expanding keeps the description, takes the new level and the information, and records the expanded error as parent |
| ExecutionContexts.ExpandException | RoddyCore/src/de/dkfz/roddy/core/ExecutionContextError.java:108-113 | expanding with an exception is a severe expansion whose information is the description, with the exception recorded and the original as parent |
| ExecutionContexts.Base | RoddyCore/src/de/dkfz/roddy/core/ExecutionContextError.java:115-118 | the base has no parent, and an error without a parent is its own base |
| ExecutionContexts.Chain | RoddyCore/src/de/dkfz/roddy/core/ExecutionContextError.java:115-118 | the parent chain starts with the error itself |
| ExecutionContexts.BaseEndsChain | RoddyCore/src/de/dkfz/roddy/core/ExecutionContextError.java:115-118 | the base is the last error of the parent chain, and every earlier one has a parent |
| ExecutionContexts.ExpandKeepsBase | RoddyCore/src/de/dkfz/roddy/core/ExecutionContextError.java:97-118 | every kind of expansion keeps the base, and the base is its own base |
| ExecutionContexts.ExpansionSharesDescription | RoddyCore/src/de/dkfz/roddy/core/ExecutionContextError.java:97-113 | expanding an error whose chain shares one description keeps that property |
| ExecutionContexts.ExpandedToString | RoddyCore/src/de/dkfz/roddy/core/ExecutionContextError.java:97-127 | an expanded error prints its base's description, the new level and the given information |
| ExecutionContexts.DescriptionAlongChain | RoddyCore/src/de/dkfz/roddy/core/ExecutionContextError.java:97-118 | along a chain built by expansion the base has the same description as the error |
| JavaStrings.Units | RoddyCore/src/de/dkfz/roddy/core/DataSet.java:169-172 | a character is one UTF-16 unit, or two (its surrogate pair) outside the Basic Multilingual Plane |
| JavaStrings.Utf16 | RoddyCore/src/de/dkfz/roddy/core/DataSet.java:169-172 | a string's UTF-16 form is empty exactly when the string is |
| JavaStrings.UnitRank | RoddyCore/src/de/dkfz/roddy/core/DataSet.java:169-172 | U+E000 to U+FFFF rank above every supplementary character, as their single units lie above the surrogates; every other character ranks by its code point |
| JavaStrings.UnitsLessCommonPrefix | RoddyCore/src/de/dkfz/roddy/core/DataSet.java:169-172 | units common to the front of both strings do not change `compareTo` |
| JavaStrings.UnitsOfDistinct | RoddyCore/src/de/dkfz/roddy/core/DataSet.java:169-172 | at two different characters `compareTo` on UTF-16 units follows the characters' ranks, whatever follows them |
| JavaStrings.RawSplitAt | RoddyCore/src/de/dkfz/roddy/config/RecursiveOverridableMapContainerForConfigurationValues.java:92 | there is always at least one piece and no piece holds a character of the class |
| JavaStrings.SplitAt | RoddyCore/src/de/dkfz/roddy/config/RecursiveOverridableMapContainerForConfigurationValues.java:92 | no piece of `split` at a character class holds a character of the class |
| JavaStrings.RawSplitAtRebuilds | RoddyCore/src/de/dkfz/roddy/config/RecursiveOverridableMapContainerForConfigurationValues.java:92 | there is one more raw piece than class characters in the text, and interleaving the pieces with those characters gives back the text |
| JavaStrings.SplitAtRebuilds | RoddyCore/src/de/dkfz/roddy/config/RecursiveOverridableMapContainerForConfigurationValues.java:92 | `split` keeps a prefix of the raw pieces and drops only empty ones, so the text is rebuilt from what it keeps |
| JavaStrings.SplitAtChar | RoddyCore/src/de/dkfz/roddy/config/RecursiveOverridableMapContainerForConfigurationValues.java:92 | a one-character class splits exactly as the literal one-character split |
| JavaStrings.JoinSplitAtChar | RoddyCore/src/de/dkfz/roddy/config/RecursiveOverridableMapContainerForConfigurationValues.java:92 | for a non-empty text that does not end with the character, the split at a one-character class is non-empty and joining it with the character gives back the text |
| JavaStrings.CompileClass | RoddyCore/src/de/dkfz/roddy/config/RecursiveOverridableMapContainerForConfigurationValues.java:92 | `[body]` fails to compile exactly for an empty body and the bodies `\`, `[` and `^`; a body without class syntax, and any other single character, is the set of its characters |
| JavaStrings.SplitClass | RoddyCore/src/de/dkfz/roddy/config/RecursiveOverridableMapContainerForConfigurationValues.java:92 | the split at `[sep]` fails exactly when the class cannot close or its class syntax is rejected; a class of literal characters splits at each of them |
| JavaStrings.SplitAtTwoChars | RoddyCore/src/de/dkfz/roddy/config/RecursiveOverridableMapContainerForConfigurationValues.java:92 | `"a,b;c"` split at `[,;]` gives `a`, `b` and `c`: a two-character separator splits at each of its characters |
| JavaStrings.SplitAtTrailing | RoddyCore/src/de/dkfz/roddy/config/RecursiveOverridableMapContainerForConfigurationValues.java:92 | trailing empty pieces are dropped, and an empty text gives one empty piece |
| JavaStrings.CompileClassExamples | RoddyCore/src/de/dkfz/roddy/config/RecursiveOverridableMapContainerForConfigurationValues.java:92 | `[,;]` is a two-character set, `[\]` and `[[]` do not compile, `[]]` is the literal `]`, and `[a-z]` is class syntax |
| DataSets.LessIsCompareTo | RoddyCore/src/de/dkfz/roddy/core/DataSet.java:169-172 | the path order is exactly `compareTo` on the paths' UTF-16 units |
| DataSets.LessExample | RoddyCore/src/de/dkfz/roddy/core/DataSet.java:169-172 | U+10000 (units D800 DC00) comes before U+E000 although its code point is greater, and `exec_1` comes before `exec_2` and `exec_10` |
| DataSets.LessTransitive | RoddyCore/src/de/dkfz/roddy/core/DataSet.java:169-174 | the path order used for sorting is transitive |
| DataSets.LessTotal | RoddyCore/src/de/dkfz/roddy/core/DataSet.java:169-174 | any two different paths are ordered one way or the other |
| DataSets.FirstBelow | RoddyCore/src/de/dkfz/roddy/core/DataSet.java:168-174 | the insertion point lies after every record whose path is not smaller and at the first strictly smaller one, in `compareTo` order |
| DataSets.InsertSpec | RoddyCore/src/de/dkfz/roddy/core/DataSet.java:168-174 | adding to a list sorted by descending path and stably re-sorting gives a sorted list with the record after every one whose path is at least as great and before every strictly smaller one, with the old records in their old order and nothing else added |
| DataSets.InsertSorted | RoddyCore/src/de/dkfz/roddy/core/DataSet.java:168-174 | the list stays sorted by descending path |
| DataSets.NewDataSet | RoddyCore/src/de/dkfz/roddy/core/DataSet.java:75-81 | a new dataset has its id, folder and the analysis's project, knows exactly the given analysis, and has no processing records |
| DataSets.UpdateAnalysis | RoddyCore/src/de/dkfz/roddy/core/DataSet.java:137-139 | `updateAnalysis` registers the analysis under its name, keeps every other name's analysis, and adds exactly that name to the list |
| DataSets.GetAnalysis | RoddyCore/src/de/dkfz/roddy/core/DataSet.java:141-147 | `getAnalysis` finds an analysis exactly when `hasAnalysis` holds |
| DataSets.ListOfAnalyses | RoddyCore/src/de/dkfz/roddy/core/DataSet.java:152-154 | the list holds exactly the names `hasAnalysis` accepts |
| DataSets.GetConfiguration | RoddyCore/src/de/dkfz/roddy/core/DataSet.java:96-105 | the dataset configuration has no parents |
| DataSets.ConfigurationHoldsId | RoddyCore/src/de/dkfz/roddy/core/DataSet.java:96-105 | `pid`, `PID`, `dataSet` and `DATASET` all read back as the dataset id |
| DataSets.ProcessingInformation | RoddyCore/src/de/dkfz/roddy/core/DataSet.java:156-227 | an analysis without records has the empty list, and every list is sorted by descending path |
| DataSets.AddProcessingInformation | RoddyCore/src/de/dkfz/roddy/core/DataSet.java:163-175 | a record already in its analysis's list is ignored; otherwise it is inserted into that list |
| DataSets.AddProcessingInformationSpec | RoddyCore/src/de/dkfz/roddy/core/DataSet.java:163-175 | adding keeps every list sorted, makes the record part of its analysis's list, adds exactly that record, leaves the other analyses alone, and adding it again changes nothing |
| DataSets.FirstValidSpec | RoddyCore/src/de/dkfz/roddy/core/DataSet.java:229-239 | the latest valid record is the first valid one in list order; there is none exactly when no record is valid |
| DataSets.GetDummy | RoddyCore/src/de/dkfz/roddy/core/DataSet.java:177-219 | a dummy is found exactly when `hasDummyAnalysisProcessingInformation` holds |
| DataSets.SetDummy | RoddyCore/src/de/dkfz/roddy/core/DataSet.java:195-204 | the first dummy of an analysis stays and later ones are ignored; other analyses and the other fields are unchanged |
| DataSets.RemoveDummy | RoddyCore/src/de/dkfz/roddy/core/DataSet.java:189-193 | after removal the analysis has no dummy; the others are unchanged |
| DataSets.GetPlannedOrRunning | RoddyCore/src/de/dkfz/roddy/core/DataSet.java:183-223 | a planned-or-running record is found exactly when the `has` test holds |
| DataSets.SetPlannedOrRunning | RoddyCore/src/de/dkfz/roddy/core/DataSet.java:206-215 | the first planned-or-running record of an analysis stays and later ones are ignored; other analyses are unchanged |
| DataSets.FirstDummyWins | RoddyCore/src/de/dkfz/roddy/core/DataSet.java:195-204 | whatever dummies are set in sequence, the first for the analysis is the one kept |
| DataSets.FirstDummyWinsPrefix | RoddyCore/src/de/dkfz/roddy/core/DataSet.java:195-204 | dummies for other analyses never give this analysis a dummy |
| DataSets.RemoveThenSetDummy | RoddyCore/src/de/dkfz/roddy/core/DataSet.java:189-204 | after removal the next dummy set is the one kept |
| Jobs.StateClasses | RoddyCore/src/de/dkfz/roddy/execution/jobs/JobState.java:42-58 | planned-or-running is exactly UNSTARTED, RUNNING, QUEUED and HOLD; unknown is exactly the three UNKNOWN states; running implies planned-or-running; no state is both unknown and planned-or-running; the dummy state is neither |
| Jobs.NewFake | RoddyCore/src/de/dkfz/roddy/execution/jobs/JobDependencyID.java:33-50 | the constructors without a reason use UNDEFINED, those without an array flag are not arrays; the time is the given clock reading |
| Jobs.NamedFakesAreInert | RoddyCore/src/de/dkfz/roddy/execution/jobs/JobDependencyID.java:57-104 | the not-executed and file-existed fake jobs carry their reason and array flag, and are never valid nor array jobs |
| Jobs.FakeShortID | RoddyCore/src/de/dkfz/roddy/execution/jobs/JobDependencyID.java:67-70 | a fake short id starts with `0x`, has at least eight hex digits, and ends with `[]` exactly for an array job |
| Jobs.FakeID | RoddyCore/src/de/dkfz/roddy/execution/jobs/JobDependencyID.java:62-65 | the long id starts with the short id |
| Jobs.FakeIDRoundTrip | RoddyCore/src/de/dkfz/roddy/execution/jobs/JobDependencyID.java:62-84 | the hex digits of a short id decode back to the time modulo 2^64; short and long ids are recognised as fake; the long id splits at its dot into the short id and the reason's name |
| Jobs.PBSNoneFromOutputAccepted | RoddyCore/src/de/dkfz/roddy/execution/jobs/cluster/pbs/PBSJobDependencyID.java:24-27 | a "none" read from the batch system's output passes the reference comparison, although the intended check rejects it |
| Jobs.PBSValidity | RoddyCore/src/de/dkfz/roddy/execution/jobs/cluster/pbs/PBSJobDependencyID.java:24-27 | the intended check rejects exactly a null id and "none"; the check as written accepts everything the intended one does, and differs only on a "none" that is not the literal |
| Jobs.PBSIsArrayJob | RoddyCore/src/de/dkfz/roddy/execution/jobs/cluster/pbs/PBSJobDependencyID.java:29-32 | a null id throws; otherwise an id is an array job exactly when `[].` occurs in it |
| Jobs.PBSShortID | RoddyCore/src/de/dkfz/roddy/execution/jobs/cluster/pbs/PBSJobDependencyID.java:39-47 | a null id throws; a short id has no dot unless it is the whole id |
| Jobs.PBSShortIDBeforeDot | RoddyCore/src/de/dkfz/roddy/execution/jobs/cluster/pbs/PBSJobDependencyID.java:39-47 | the short id is the text before the first dot, and an id without a dot is its own short id |
| Jobs.JobName | RoddyCore/src/de/dkfz/roddy/execution/jobs/JobManager.java:75-88 | a job name starts with `r`, the time stamp and `_`, and ends with `_` and the tool name or postfix |
| Jobs.JobNameParts | RoddyCore/src/de/dkfz/roddy/execution/jobs/JobManager.java:75-88 | a name whose parts have no underscore splits back into `r` plus time stamp, the dataset id and the tool name |
| Jobs.LogFileName | RoddyCore/src/de/dkfz/roddy/execution/jobs/JobManager.java:210-212 | the log file name starts with the job name and ends with `.o` and the job id |
| Jobs.DummyIsArray | RoddyCore/src/de/dkfz/roddy/execution/jobs/JobManager.java:112-114 | a dummy command is an array command exactly when its array settings are non-null and non-empty |
| Jobs.StateCodeRoundTrip | RoddyCore/src/de/dkfz/roddy/execution/jobs/JobManager.java:195-203 | UNSTARTED, ABORTED, OK and FAILED have their own codes and are read back from them; every other state is logged as "255" |
| Jobs.StateLine | RoddyCore/src/de/dkfz/roddy/execution/jobs/JobManager.java:191-207 | fewer than three digits of milliseconds throw; a null job id writes nothing; otherwise the line starts with the id, the state code and a colon |
| Jobs.MillisDigits | RoddyCore/src/de/dkfz/roddy/execution/jobs/JobManager.java:192-193 | the millisecond text has at least three digits exactly from 100 on |
| Jobs.StateLineParses | RoddyCore/src/de/dkfz/roddy/execution/jobs/JobManager.java:191-207 | from one second on, a state line splits back into the job id, the state code and the whole seconds |
| Jobs.SGEParseJobID | RoddyCore/src/de/dkfz/roddy/execution/jobs/cluster/sge/SGECommandFactory.java:101-107 | the result is null exactly when the output does not start with "Your job" |
| Jobs.SGEParseJobIDOfSubmit | RoddyCore/src/de/dkfz/roddy/execution/jobs/cluster/sge/SGECommandFactory.java:101-107 | for "Your job ID rest" the id read back is ID |
| Jobs.SGEAddSpecificSettings | RoddyCore/src/de/dkfz/roddy/execution/jobs/cluster/sge/SGECommandFactory.java:31-36 | the settings change no other value and no parent |
| Jobs.SGESettingsRead | RoddyCore/src/de/dkfz/roddy/execution/jobs/cluster/sge/SGECommandFactory.java:31-36 | after the settings are added, RODDY_JOBID, RODDY_SCRATCH and RODDY_AUTOCLEANUP_SCRATCH read back as `${JOB_ID-}`, `/tmp/roddyScratch/${JOB_ID}` and `true` |
| Files.AddFile | RoddyCore/src/de/dkfz/roddy/knowledge/files/FileGroup.java:85-88 | `addFile` appends the file to the group and the group to the file's groups; no other group or file changes |
| Files.AddFileConsistent | RoddyCore/src/de/dkfz/roddy/knowledge/files/FileGroup.java:85-88 | adding a file keeps the two membership lists mirror images: a file appears in a group as often as the group appears among the file's groups |
| Files.AddFiles | RoddyCore/src/de/dkfz/roddy/knowledge/files/FileGroup.java:90-94 | `addFiles` appends the files in order and changes no other group |
| Files.AddFilesConsistent | RoddyCore/src/de/dkfz/roddy/knowledge/files/FileGroup.java:90-94 | adding files keeps the lists mirrored |
| Files.AddFilesCount | RoddyCore/src/de/dkfz/roddy/knowledge/files/FileGroup.java:90-94 | each file gains the group once per occurrence in the added list |
| Files.NewGroup | RoddyCore/src/de/dkfz/roddy/knowledge/files/FileGroup.java:31-36 | a new group holds exactly the given files, and a null list gives an empty group that changes nothing |
| Files.Register | RoddyCore/src/de/dkfz/roddy/knowledge/files/FileGroup.java:92-93 | the registration loop of `addFiles` changes no group's file list |
| Files.RegisterCount | RoddyCore/src/de/dkfz/roddy/knowledge/files/FileGroup.java:92-93 | the loop gives each file the group once per occurrence of the file in the walked list, and no other group |
| Files.PlusGroup | RoddyCore/src/de/dkfz/roddy/knowledge/files/FileGroup.java:80-94 | `plus(group)` appends the other group's files, read before anything is added, and changes no other group's list |
| Files.PlusGroupCount | RoddyCore/src/de/dkfz/roddy/knowledge/files/FileGroup.java:80-94 | `plus(group)` registers the group with a file once per copy in another group and twice per copy in the group itself, because `addAll` has doubled the list the loop then walks |
| Files.PlusGroupConsistent | RoddyCore/src/de/dkfz/roddy/knowledge/files/FileGroup.java:80-94 | adding another group keeps the membership lists mirrored |
| Files.PlusSelfInconsistent | RoddyCore/src/de/dkfz/roddy/knowledge/files/FileGroup.java:80-94 | adding a group to itself lists a file of it 2k times but registers the group with the file 3k times, so the lists are no longer mirrored |
| Files.Get | RoddyCore/src/de/dkfz/roddy/knowledge/files/FileGroup.java:96-102 | `get(i)` and `getAt(i)` succeed exactly for an index inside the list, and give that element |
| Files.GroupContext | RoddyCore/src/de/dkfz/roddy/knowledge/files/FileGroup.java:58-65 | the group's context is its first file's; an empty group throws |
| Files.GroupJobName | RoddyCore/src/de/dkfz/roddy/execution/jobs/JobManager.java:90-93 | a group's job name is its first file's; an empty group throws |
| Files.ConcatMembers | RoddyCore/src/de/dkfz/roddy/knowledge/files/BaseFile.java:170-176 | a file is among the concatenated lists exactly when it is in one of the groups |
| Files.NeighboursShareGroup | RoddyCore/src/de/dkfz/roddy/knowledge/files/BaseFile.java:170-176 | the neighbours are exactly the files sharing a group with the file, and a file in some group is its own neighbour |
| Files.InitialValidityTable | RoddyCore/src/de/dkfz/roddy/knowledge/files/BaseFile.java:84-102 | a file is valid from the start in a run, is the negated validity check in a status query, rerun or test rerun, and is invalid at every other level |
| Files.AncestorOnFirstParentChain | RoddyCore/src/de/dkfz/roddy/knowledge/files/BaseFile.java:300-309 | the ancestor found is the first file of the first-parent chain with the class; there is none exactly when no file on that chain has it, even if another parent's ancestors do |
| Files.AvailablePatterns | RoddyCore/src/de/dkfz/roddy/knowledge/files/BaseFile.java:353-376 | the three lists hold exactly the on-method, derived-from and file-stage patterns declared for the file's class |
| Files.AvailablePatternsAppend | RoddyCore/src/de/dkfz/roddy/knowledge/files/BaseFile.java:364-374 | the lists for two pattern lists in sequence are, for each kind, the list for the first followed by the list for the second, so declaration order is kept |
| Files.SearchedFrames | RoddyCore/src/de/dkfz/roddy/knowledge/files/BaseFile.java:516-539 | the searched frames come from the stack and are neither skipped frames nor the execution context's `execute` |
| Files.PatternForFrame | RoddyCore/src/de/dkfz/roddy/knowledge/files/BaseFile.java:543-555 | the pattern chosen for a frame matches its method, class and tag, and there is none exactly when no pattern matches |
| Files.PatternForFrames | RoddyCore/src/de/dkfz/roddy/knowledge/files/BaseFile.java:541-556 | the innermost frame that has a matching pattern decides, and there is none exactly when no frame has one |
| Files.FromOnMethod | RoddyCore/src/de/dkfz/roddy/knowledge/files/BaseFile.java:503-559 | without on-method patterns nothing is found; a path is found exactly with a pattern, which is an on-method pattern applied to the file |
| Files.LastSourcePattern | RoddyCore/src/de/dkfz/roddy/knowledge/files/BaseFile.java:473-487 | the reference choice is the last pattern in declaration order that matches some parent, and there is none exactly when no pattern matches |
| Files.Applied | RoddyCore/src/de/dkfz/roddy/config/FilenamePattern.java:163-170 | applying a pattern gives null exactly when there are no files, or the pattern is derived-from and the first file has no parents; otherwise it gives the pattern's text |
| Files.AppliedToOneFile | RoddyCore/src/de/dkfz/roddy/config/FilenamePattern.java:163-170 | on-method, on-tool and file-stage patterns applied to one file never give null; a derived-from pattern gives null exactly when the file has no parents |
| Files.FromSourcefile | RoddyCore/src/de/dkfz/roddy/knowledge/files/BaseFile.java:468-490 | without source-file patterns or without parents nothing is found; the step throws `NullPointerException` exactly when some pattern matches some parent and the first parent has no parents; otherwise a path comes exactly with a pattern, which is a source-file pattern in the list that matches some parent, applied to all parents or the first |
| Files.SourcefileLoops | RoddyCore/src/de/dkfz/roddy/knowledge/files/BaseFile.java:468-490 | the nested loops as written, whose `break` leaves only the parent loop and whose first null application throws, compute the last matching pattern, or the exception |
| Files.FirstStagePattern | RoddyCore/src/de/dkfz/roddy/knowledge/files/BaseFile.java:455-462 | the file-stage choice is the first pattern whose stage is generic or the file's own and whose tag matches; there is none exactly when no pattern qualifies |
| Files.FromFilestage | RoddyCore/src/de/dkfz/roddy/knowledge/files/BaseFile.java:450-466 | a path is found exactly with a pattern, which is a file-stage pattern applied to the file |
| Files.FilenamePriority | RoddyCore/src/de/dkfz/roddy/knowledge/files/BaseFile.java:391-448 | on-method patterns are tried first, then source-file, then file-stage patterns, and the first path found wins; when the source-file step throws, the `finally` returns the empty on-method result and file-stage patterns are not tried; a path is found exactly when a step gives one before any step throws |
| Files.ParentlessParentNoFilename | RoddyCore/src/de/dkfz/roddy/knowledge/files/BaseFile.java:403-410 | a file whose first parent has no parents, with a matching derived-from pattern and a generic file-stage pattern, gets no path, although the file-stage pattern alone would give one |
| Files.SetParentFiles | RoddyCore/src/de/dkfz/roddy/knowledge/files/BaseFile.java:280-298 | the parent list is replaced and nothing else changes without reset; with reset the class, stage and validity stay, and a file that had a path keeps one |
| Files.ResetKeepsOldPath | RoddyCore/src/de/dkfz/roddy/knowledge/files/BaseFile.java:284-298 | with reset, a newly found path replaces the old one, a missing one keeps it, and the applied pattern is always replaced |
| Plugins.NewPluginInfo | RoddyCore/src/de/dkfz/roddy/plugins/PluginInfo.java:82-99 | a new plugin stores its name, directory, version, API and JDK versions and dependencies, has no chain links, connection INCOMPATIBLE, and is not a beta plugin |
| Plugins.ChainSettersRoundTrip | RoddyCore/src/de/dkfz/roddy/plugins/PluginInfo.java:196-218 | each chain setter is read back by its getter, touches no other link, and setting a link again replaces the earlier value |
| Plugins.FullID | RoddyCore/src/de/dkfz/roddy/plugins/PluginInfo.java:220-222 | the full id is the name, a colon and the version |
| Plugins.FullIDRoundTrip | RoddyCore/src/de/dkfz/roddy/plugins/PluginInfo.java:220-222 | a name and non-empty version free of colons are recovered by splitting the full id at the colon |
| Plugins.MajorAndMinor | RoddyCore/src/de/dkfz/roddy/plugins/PluginInfo.java:224-226 | the major/minor part is the first piece of the version split at dashes; a version of dashes only has no piece and throws |
| Plugins.Revision | RoddyCore/src/de/dkfz/roddy/plugins/PluginInfo.java:236-248 | the revision is 0 for a version of fewer than two pieces, and otherwise the conversion helper's `toInt` of the second piece with default 0 |
| Plugins.PlainVersion | RoddyCore/src/de/dkfz/roddy/plugins/PluginInfo.java:224-248 | a version without a dash is its own major/minor part and has revision 0, whatever the conversion helper |
| Plugins.VersionParts | RoddyCore/src/de/dkfz/roddy/plugins/PluginInfo.java:224-248 | for `a-c` or `a-c-rest` the major/minor part is `a` and the revision is `toInt(c, 0)` |
| ResourceResolvers.NewResolver | RoddyCore/src/com/stackoverflow/questions/xmlvalidation/ResourceResolver.java:41-46 | a new resolver keeps the schema base path and has resolved nothing yet |
| ResourceResolvers.ParentDir | RoddyCore/src/com/stackoverflow/questions/xmlvalidation/ResourceResolver.java:132 | one "../" step yields a strictly shorter prefix of the base that is a directory path (ends in '/' or is empty), with no '/' in the part dropped before the last character; an empty base throws |
| ResourceResolvers.LastSlash | RoddyCore/src/com/stackoverflow/questions/xmlvalidation/ResourceResolver.java:132 | the last '/' of a directory path followed by a slash-free component is the directory's final '/' |
| ResourceResolvers.ParentOfChild | RoddyCore/src/com/stackoverflow/questions/xmlvalidation/ResourceResolver.java:132 | one "../" step from a directory plus a non-empty component, with or without a trailing '/', gives back the directory |
| ResourceResolvers.Ups | RoddyCore/src/com/stackoverflow/questions/xmlvalidation/ResourceResolver.java:131-134 | the number of leading "../" takes at most a third of the path's length |
| ResourceResolvers.Rest | RoddyCore/src/com/stackoverflow/questions/xmlvalidation/ResourceResolver.java:131-134 | what remains after the leading "../" no longer starts with "../" and is the suffix after three characters per step |
| ResourceResolvers.Normalize | RoddyCore/src/com/stackoverflow/questions/xmlvalidation/ResourceResolver.java:126-137 | a path without "../" is appended to the base with the separator; failure happens only when there was at least one "../" to apply |
| ResourceResolvers.NormalizeShape | RoddyCore/src/com/stackoverflow/questions/xmlvalidation/ResourceResolver.java:126-137 | a normalised path is a prefix of the base, the separator and the path without its "../"; the prefix is the whole base when nothing was moved up and otherwise a shorter directory path |
| ResourceResolvers.NormalizeUp | RoddyCore/src/com/stackoverflow/questions/xmlvalidation/ResourceResolver.java:126-137 | a "../" cancels exactly one component of the base path |
| ResourceResolvers.NormalizedPath | RoddyCore/src/com/stackoverflow/questions/xmlvalidation/ResourceResolver.java:126-137 | the in-place loop computes the recursive normalisation, including its failure on an exhausted base |
| ResourceResolvers.ResourceName | RoddyCore/src/com/stackoverflow/questions/xmlvalidation/ResourceResolver.java:58-59 | the resource name is a slash-free suffix of the system ID |
| ResourceResolvers.ResourceNameAfterLastSlash | RoddyCore/src/com/stackoverflow/questions/xmlvalidation/ResourceResolver.java:58-59 | a resource name shorter than the system ID starts right after a '/', so it is everything after the last '/' |
| ResourceResolvers.Stripped | RoddyCore/src/com/stackoverflow/questions/xmlvalidation/ResourceResolver.java:69-71 | a leading "./" is removed and any other system ID is kept |
| ResourceResolvers.BaseResourcePath | RoddyCore/src/com/stackoverflow/questions/xmlvalidation/ResourceResolver.java:63-80 | the including schema's directory is the one recorded for its name, and the schema base path when it has no base URI or an unrecorded name |
| ResourceResolvers.ResolveResource | RoddyCore/src/com/stackoverflow/questions/xmlvalidation/ResourceResolver.java:58-116 | a name seen before returns null and changes nothing; the schema base path is never changed |
| ResourceResolvers.ResolveResourceFails | RoddyCore/src/com/stackoverflow/questions/xmlvalidation/ResourceResolver.java:62-83 | a new name whose path cannot be normalised raises that error and leaves the map unchanged |
| ResourceResolvers.ResolveResourceRecordsDir | RoddyCore/src/com/stackoverflow/questions/xmlvalidation/ResourceResolver.java:97-98 | a new name whose stripped ID holds a '/' is recorded with the normalised path up to and including its last '/' |
| ResourceResolvers.ResolveResourceRecordsBase | RoddyCore/src/com/stackoverflow/questions/xmlvalidation/ResourceResolver.java:99-103 | a new name whose stripped ID has no '/' is recorded with the including schema's directory, under the same key as the resource name |
| ResourceResolvers.ResolveResourceInput | RoddyCore/src/com/stackoverflow/questions/xmlvalidation/ResourceResolver.java:84-110 | for a new name the input (public ID, stripped system ID) is returned exactly when the normalised path opens to a non-empty stream; a null stream raises `NullPointerException` and an empty one `NoSuchElementException` |
| ResourceResolvers.KeyIsResourceName | RoddyCore/src/com/stackoverflow/questions/xmlvalidation/ResourceResolver.java:97-103 | for a slash-free ID the two map updates use the same key, the resource name |
| ResourceResolvers.ResolvedOnce | RoddyCore/src/com/stackoverflow/questions/xmlvalidation/ResourceResolver.java:58-116 | once a new name has been resolved and its path normalised, resolving any ID with that name again returns null and leaves the resolver unchanged |
| RoddyMain.ResubmitOption | RoddyCore/src/de/dkfz/roddy/Roddy.java:410-418 | the option switches resubmission on and replaces the amount and the wait only when the first and second option values are given |
| RoddyMain.RepeatSubmissionAmount | RoddyCore/src/de/dkfz/roddy/Roddy.java:131-135 | the number of attempts is between 1 and Integer.MAX_VALUE: 1 when resubmission is off, unbounded for a non-positive amount, the amount otherwise |
| RoddyMain.RepeatSubmissionWait | RoddyCore/src/de/dkfz/roddy/Roddy.java:137-139 | the wait is at least 2 seconds and is the configured wait when that is at least 2 |
| RoddyMain.ResubmitOptionRoundTrip | RoddyCore/src/de/dkfz/roddy/Roddy.java:89-91 | from the start-up defaults, in-range option values are read back, no values mean unbounded attempts every 10 seconds, and without the option there is a single attempt |
| RoddyMain.ExitStatus | RoddyCore/src/de/dkfz/roddy/Roddy.java:802-807 | codes up to 255 are passed on and larger ones are replaced by the wrong-exit-code reason's code |
| RoddyMain.ExitStatusClamped | RoddyCore/src/de/dkfz/roddy/Roddy.java:806 | with an in-range replacement every status is at most 255 and clamping is idempotent |
| RoddyMain.AsRoddyVarRef | RoddyCore/src/de/dkfz/roddy/Roddy.java:607-613 | the reference is empty exactly for the empty name and otherwise is the name framed by "${" and "}" |
| RoddyMain.VarRefRoundTrip | RoddyCore/src/de/dkfz/roddy/Roddy.java:607-613 | dropping the frame from a reference gives back the name |
| RoddyMain.ShortVersion | RoddyCore/src/de/dkfz/roddy/Roddy.java:953-956 | the short version is the first two '.'-pieces joined by '.', and a version with fewer pieces throws |
| RoddyMain.ShortVersionParts | RoddyCore/src/de/dkfz/roddy/Roddy.java:953-956 | "major.minor" and "major.minor.rest" both shorten to "major.minor" |
| RoddyMain.CurrentShortVersion | RoddyCore/src/de/dkfz/roddy/Constants.java:19 | the running version 3.5.1 has the short version 3.5 |
| RoddyMain.PluginVersionEntries | RoddyCore/src/de/dkfz/roddy/Roddy.java:1004-1011 | the entries come from the command-line option when set and from the application property otherwise, split at commas |
| RoddyMain.ParseEntry | RoddyCore/src/de/dkfz/roddy/Roddy.java:1017-1019 | an entry the helper `isNullOrEmpty` calls empty is skipped; any other entry with two ':'-pieces gives id and version, and one with fewer throws |
| RoddyMain.LastVersionFound | RoddyCore/src/de/dkfz/roddy/Roddy.java:1013-1024 | the reference choice: a version found is the version of some entry for the id, and none is found only when no entry names the id |
| RoddyMain.VersionsAreLast | RoddyCore/src/de/dkfz/roddy/Roddy.java:1015-1020 | the map filled entry by entry holds an id exactly when some entry names it, with the version of the last such entry |
| RoddyMain.UsedPluginVersion | RoddyCore/src/de/dkfz/roddy/Roddy.java:1013-1024 | the lookup fails exactly when some entry that `isNullOrEmpty` does not skip has fewer than two ':'-pieces, and otherwise returns the last version given for the id, or the development version |
| RoddyMain.LaterEntryOverrides | RoddyCore/src/de/dkfz/roddy/Roddy.java:1015-1020 | an entry `id:version` appended, which `isNullOrEmpty` does not skip, decides that id's version and leaves every other id's version as it was |
| RoddyMain.UseIODir | RoddyCore/src/de/dkfz/roddy/Roddy.java:389-400 | the option succeeds exactly for one or two directories; one directory is both input and output, two are input then output |
| RoddyMain.DirectoriesOf | RoddyCore/src/de/dkfz/roddy/Roddy.java:397-399 | the settings stand for one directory when single and two otherwise |
| RoddyMain.UseIODirRoundTrip | RoddyCore/src/de/dkfz/roddy/Roddy.java:389-400 | the settings give back the argument list, and single-directory settings use the same directory for input and output |

## Left out

- Directory discovery, file opening and the `json.dump` output of `group-configs.py`: the file system is a parameter (listings and file lines), and the report is returned as a value rather than written.
- `load_module_from_path` and the summary module it loads: the summary is an uninterpreted function, so the script's use of the global `config_summary_path` inside it is not modelled.
- The `__repr__` methods of `group-configs.py`: they only format text for printing.
- Floating-point summary values: `Value` holds null, booleans, integers, strings, objects and arrays only.
- Messages on standard error (the progress line per directory, the warning for an inconsistent execution store, the usage line, the final verdict) and the `logger.error` line for a malformed plugin line (group-configs.py:103): they do not change any result, so they are left out. The notice for a Roddy store without `exec_*` directories goes to standard output, ahead of the JSON report, and is modelled in `Outcome.notices`.
- ParameterFiles.ParameterFileEntries: the result is a map, so the insertion order of the Python dictionary (order of first declaration) is not modelled; only the keys and their last values are.
- VersionInfo.ReadVersionInfo: the result is a map, so the dictionary's insertion order (`Roddy` first, then plugins in order of first appearance) is not modelled.
- The summary function receives the version and parameter dictionaries as maps; a summary whose result depends on their iteration order is outside the model.
- One table of Unicode decimal digits (Unicode 15.0) stands for both Python's `\d` and Java's `Character.digit`; the Unicode versions of particular interpreter and JVM releases may differ in the newest scripts. Java strings are sequences of UTF-16 units: `Integer.parseInt` reads only the digits of one unit, and `compareTo` orders by units; both are modelled (`JavaStrings.IsJavaDigit`, `JavaStrings.UnitRank`).
- Configurations: a configuration is a value, so an error added by a read is seen through the configuration the read returns; other holders of the same Java object (a child that was not read through, for example) are not updated.
- Path handling: paths are the strings `pathlib` prints; symbolic links are not resolved and `..` is kept, as `pathlib` does.
- The JavaFX user interface, the RMI server and every thread, semaphore and `synchronized` block: the model is sequential.
- Roddy start-up, the remaining command-line options, proxy handling, service initialisation and every process, cluster or file-system side effect (job execution, `SGECommand`, directory checks).
- `RoddyConversionHelperMethods` (`toInt`, `toBoolean`, `isInteger`, `isBoolean`, `isDouble`, `isFloat`, `isDefinedArray`, `isNullOrEmpty`): not part of this model; each is a parameter where it is needed.
- `ExitReasons` and `LibrariesFactory.PLUGIN_VERSION_DEVELOP` are not part of this model: the wrong-exit-code value and the development version are parameters.
- ResourceResolvers.ResolveResource: the stream is a parameter `open` giving the resource's text or null; only whether it is null or empty changes the result, and the whitespace cleaning of the text is left out, because it changes only the bytes handed to the schema parser.
- Configurations.GetList: a separator with class syntax (a body other than a single character that holds `\`, `[`, `]`, `^`, `&` or `-`) is compiled by a parameter `regex`, which gives null for a body the compiler rejects; Java's character-class grammar is not modelled.
- Files.AvailablePatterns: `_classPatternsCache` in `BaseFile` is static and keyed by the file's class alone, so the first context of a process to look up a class fixes that class's lists for every later context. The model reads the current configuration's patterns each time, which agrees with the source only when every context of the process declares the same patterns for the class.
- Reflection: `FilenamePattern.apply` reads `${sourcefileProperty}` through an accessor method, which is a parameter; classes, methods and file stages are represented by their names.
- Files.AvailablePatterns: the definition of `FilenamePatternDependency` is not part of this model; its `MethodName` constant is taken as the on-method kind and `SourceClass` as the derived-from kind.
- Plugins.NewPluginInfo: the tool-directory listing and `isCompatibleToRuntimeSystem` are left out, because both read the file system.
- ConfigValues.BashArrayToList: `toStringList` is modelled for bash-array values only; for other values the source builds the regular expression `[,[`, which is invalid because the closing bracket constant is `"["`.
- ConfigValues.CValue: a value's raw text is never null; null is modelled only where the source tests for it (`toBoolean`, `isNullOrEmpty`).
- ConfigValues.Range: a range up to `Integer.MAX_VALUE` is modelled as a failure, because the Java loop counter wraps around and the loop never ends.
- Tools.NewStringParameter: a string parameter whose value id is null is set by the calling code, which is not part of this model.
- Overridable: a container hands out values through `elevate`, whose body is not part of this model; it is a parameter (the identity for plain containers).
- Overridable.InheritanceList: a container whose parent is null is not modelled; parents are a list of containers.
- ExecutionContexts: only three of the predefined `ExecutionContextError` constants are modelled; the others differ only in their text and level.
- FilenamePatterns.Id: its own contract states only the `cls::…[tag]` frame; the exact form for each kind is stated by OnMethodPattern, OnToolPattern and FileStagePattern, and distinct kinds are separated by IdsSeparateDependencies.
- DataSets.ListOfAnalyses: the order of the hash map's keys is not modelled, only which names are listed.
- Floating point in `SGECommandFactory.convertResourceSet` and the clock readings in job names and fake ids are parameters or left out.
- RoddyMain.ExitStatus: negative exit codes are passed on as the source does; the operating system's truncation of the status to 8 bits is not modelled.

## Findings

| source | as written | input that shows it | evidently intended | confidence | as-written member | corrected member |
|---|---|---|---|---|---|---|
| RoddyCore/src/de/dkfz/roddy/config/FilenamePattern.java:242 | the class `[^0-9a-zA-Z=.-_+#]` contains the range `.-_`, so `-` is removed from attribute text and `/` is kept | `${sourcefileAtomicPrefix,delimiter=-}` keeps the whole file name instead of cutting it | keep `-` literally, next to `.`, `_`, `+` and `#` | not executed | FilenamePatterns.AtomicPrefixDashKeepsName | FilenamePatterns.AtomicPrefixIntendedTruncates |
| RoddyCore/src/de/dkfz/roddy/execution/jobs/cluster/pbs/PBSJobDependencyID.java:24-27 | `id != "none"` compares references, so only the literal `"none"` object is rejected | an id `"none"` read from the batch system's output counts as valid | compare the text with `equals` | not executed | Jobs.PBSNoneFromOutputAccepted | Jobs.PBSValidity |
