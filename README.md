# Soong core decisions, modelled in Dafny

This project models four parts of the Soong build system of the Android
platform:

- **The hidden-API signature trie** (`SignatureTrie`, `trie.dfy`). A trie maps
  dex member signatures such as `Ljava/lang/Character$UnicodeScript;->of(I)…`
  to values.
  - The parser splits a signature into tagged elements (`package:`,
    `class:`, `member:`, `wildcard:`).
  - `add` stores a value under a member signature.
  - `get_matching_rows` returns every value below a member, class, package,
    `*` or `**` pattern.
- **The bp2build decisions** (`Bazel`, `bazel.dfy`). These cover:
  - which directories default to conversion;
  - which modules convert and the Bazel label a module gets;
  - which existing BUILD files are kept;
  - when a module may take part in a mixed build;
  - the `Main-Class:` scan of a jar manifest.
- **`genrule` and `gensrcs`**. `Genrule` (`genrule.dfy`) holds:
  - the table of location labels;
  - the resolver of the `$(...)` variables of `cmd`;
  - the task loop of `GenerateAndroidBuildActions` and its error checks;
  - output-tag lookup.

  `GenruleFactories` (`genrule_factories.dfy`) holds:
  - the tasks `gensrcs` and `genrule` generate: sharding, per-input command
    expansion, depfiles and the dep_fixer;
  - the rewrite of `cmd` for bp2build;
  - the IDE dependency list.
- **Soong config variables** (`SoongConfig`, `soongconfig.dfy`). These cover:
  - canonical property names;
  - the lookup of a dotted property in a property struct's type;
  - the pruning of a factory's property struct to the affectable
    properties;
  - the selection of property sets by the values of the config variables;
  - the text of the bp2build definitions file.

  The implementation of this package is not part of this model. Its
  behaviour is modelled from what its tests fix.

`Strings` (`strings.dfy`) holds the string operations the Go and Python code
uses. These are `strings.Split`, `strings.Join`, `strings.Replace`,
`strings.TrimSpace` and `strings.Trim`, `removeprefix` and `removesuffix`,
`str.islower`, and `strconv.Itoa`. `Wrappers` (`wrappers.dfy`) holds
`Option` and `Result`.

Classes keep the source's mutable state:
- the trie's nodes: `SignatureTrie.Trie`;
- the location-label table: `Genrule.LocationLabels`;
- a genrule module's outputs and errors: `Genrule.Module`.

Each imperative method is proved equal to a specification function, and the
properties are proved about that function.

Sources without a clock, file system or build context take those as values:
- the module context;
- the config tables;
- an opened manifest as its lines;
- path builders;
- map iteration orders.

## Model

| member | source | states |
|---|---|---|
| SignatureTrie.Parse | scripts/hiddenapi/signature_trie.py:105-143 | packages never contain '/'; a result is either classes with an optional member, or a lone `*`/`**` wildcard with no class or member |
| SignatureTrie.SignatureToElements | scripts/hiddenapi/signature_trie.py:90-162 | at least one element, each typed; types ordered package < class < member < wildcard; a wildcard is last, preceded only by packages, and is `*` or `**`; fails exactly when parsing fails, with the parser's error |
| SignatureTrie.SplitElementRoundTrip | scripts/hiddenapi/signature_trie.py:166-174 | splitting `kind:value` at the first colon gives back `kind` and `value` for a colon-free kind |
| SignatureTrie.ElementKinds | scripts/hiddenapi/signature_trie.py:158-162 | the i-th element's type is the group it came from |
| SignatureTrie.ElementsShape | scripts/hiddenapi/signature_trie.py:145-162 | a well-shaped parse gives a non-empty, type-ordered element list whose wildcard, if any, is last after packages only |
| SignatureTrie.ParseMember | scripts/hiddenapi/signature_trie.py:105-143 | `L` + packages + `$`-joined classes + `;->` + member parses to exactly those packages, classes and member |
| SignatureTrie.ParseClass | scripts/hiddenapi/signature_trie.py:138-143 | a class signature without member parses to its packages and its outer-to-inner classes |
| SignatureTrie.ParseClassWithSemicolon | scripts/hiddenapi/signature_trie.py:105-143 | a class signature closed by `;`, the usual form, parses to its packages and its outer-to-inner classes |
| SignatureTrie.ClassPathFacts | scripts/hiddenapi/signature_trie.py:139-143 | removing the `;` suffix of a joined class name changes nothing and its `$` split gives back the classes |
| SignatureTrie.ParseWildcard | scripts/hiddenapi/signature_trie.py:123-133 | a package path ending in `*` or `**` parses to those packages and that wildcard |
| SignatureTrie.ParseRejectsInvalidWildcard | scripts/hiddenapi/signature_trie.py:123-126 | a last element containing `*` other than `*`/`**` is rejected as an invalid wildcard |
| SignatureTrie.ParseRejectsWildcardWithMember | scripts/hiddenapi/signature_trie.py:127-132 | a wildcard followed by a member signature is rejected, naming the first member |
| SignatureTrie.ParseRejectsLowerCase | scripts/hiddenapi/signature_trie.py:134-137 | a lower-case last element without `*` is rejected |
| SignatureTrie.SelectsByType | scripts/hiddenapi/signature_trie.py:243-245 | the `*` selector picks exactly the keys whose type is not `package` |
| SignatureTrie.LeafPathsAll | scripts/hiddenapi/signature_trie.py:254-262 | the values gathered below a node are exactly the leaves whose path extends the node's path |
| SignatureTrie.LeafPathsMember | scripts/hiddenapi/signature_trie.py:259-262 | with a selector, a leaf is gathered iff it lies below a child whose key the selector accepts |
| SignatureTrie.LeafPathsDistinct | scripts/hiddenapi/signature_trie.py:259-262 | no leaf is gathered twice |
| SignatureTrie.FlattenRows | scripts/hiddenapi/signature_trie.py:252 | chaining the rows gives one value per gathered leaf, in order |
| SignatureTrie.AddSpecValid | scripts/hiddenapi/signature_trie.py:176-204 | `add` keeps the trie well formed, whether it succeeds or fails |
| SignatureTrie.AddThenMatch | scripts/hiddenapi/signature_trie.py:176-252 | after a successful `add`, querying the same signature returns exactly `[value]` |
| SignatureTrie.AddTwice | scripts/hiddenapi/signature_trie.py:202-203 | adding a signature a second time fails as a duplicate and leaves the trie unchanged |
| SignatureTrie.AddRequiresMember | scripts/hiddenapi/signature_trie.py:196-201 | a signature without member is rejected and no leaf is added |
| SignatureTrie.AddIsLocal | scripts/hiddenapi/signature_trie.py:184-204 | success adds exactly one new leaf at the signature's path and failure adds none; existing nodes only gain the key on the signature's path; new nodes lie on that path |
| SignatureTrie.ExtendKeeps | scripts/hiddenapi/signature_trie.py:186-193 | walking the path keeps every existing node's keys, appending at most the next path element |
| SignatureTrie.QueryStep | scripts/hiddenapi/signature_trie.py:247-251 | the query walk goes on below a present key and finds nothing when a key is missing |
| SignatureTrie.QueryAtLeaf | scripts/hiddenapi/signature_trie.py:247-249 | a walk that meets a leaf before the pattern's end is the leaf-in-path failure |
| SignatureTrie.Trie.Add | scripts/hiddenapi/signature_trie.py:176-204 | the new trie and outcome are `AddSpec` of the old trie |
| SignatureTrie.Trie.Walk | scripts/hiddenapi/signature_trie.py:186-193 | the walk creates exactly the missing interior nodes along the path, unless a leaf blocks it, and never touches leaves |
| SignatureTrie.Trie.Values | scripts/hiddenapi/signature_trie.py:254-262 | the rows are the values of the selected leaves below the node, in insertion order |
| SignatureTrie.Trie.GetMatchingRows | scripts/hiddenapi/signature_trie.py:206-252 | the result is `Matching` of the current trie |
| Bazel.Lookup | android/bazel.go:164-188 | a missing package reads as 0, which no declared entry equals |
| Bazel.Bp2buildDefaultTrueRecursively | android/bazel.go:656-680 | an exact DefaultTrue/DefaultTrueRecursively entry converts and an exact DefaultFalse entry does not; otherwise the result is true iff some component prefix is DefaultTrueRecursively |
| Bazel.ScanPackagePrefixes | android/bazel.go:667-677 | the loop finds a recursive entry iff one of the prefixes `x`, `x/y`, … has one |
| Bazel.RecursivePrefixIff | android/bazel.go:667-677 | the prefixes the loop builds are exactly the prefixes ending at a path-component boundary |
| Bazel.ExactEntryWins | android/bazel.go:660-664 | an exact entry decides before any prefix |
| Bazel.RecursiveCoversSubdirectory | android/bazel.go:667-677 | a recursive entry converts every unlisted sub-directory |
| Bazel.NonRecursiveEntryStops | android/bazel.go:179-187 | for any table: a sub-directory one component below a DefaultTrue entry, with no entry of its own and no recursive entry on any component prefix, does not convert |
| Bazel.NonRecursiveEntryIsLocal | android/bazel.go:656-680 | an entry that is not DefaultTrueRecursively decides nothing for any other directory: removing it leaves their defaults unchanged |
| Bazel.BuildLookup | android/bazel.go:548-560 | the lookup map is true exactly for the listed names |
| Bazel.ShouldConvertWithBp2build | android/bazel.go:623-644 | denylisted or non-convertible modules never convert; otherwise `bp2build_available` decides when set, else the directory default |
| Bazel.GetBazelLabel | android/bazel.go:144-162 | a handcrafted label wins; otherwise the bp2build label when the asking context's module is to be converted with bp2build, and "" when it is not |
| Bazel.ConvertedToBazel | android/bazel.go:610-616 | a module is converted iff it is Bazelable and converts with bp2build or has a handcrafted label |
| Bazel.DenylistedNeverConverts | android/bazel.go:623-626 | a denylisted module counts as converted only through a handcrafted label |
| Bazel.LabelOnlyIfConverted | android/bazel.go:154-162 | a module that asks for its own label in its own context gets a non-empty label only if it is converted |
| Bazel.ShouldKeepExistingBuildFileForDir | android/bazel.go:566-581 | keep iff the directory is listed, or lies strictly below a recursive entry, whatever the map order |
| Bazel.KeepSubtree | android/bazel.go:566-581 | for any table: a recursive entry keeps its whole subtree; below a non-recursive entry the decision is the one the table makes without that entry |
| Bazel.MixedBuildsEnabled | android/bazel.go:585-607 | enabled iff not Windows, module enabled, Bazel enabled, converted, not static-only, not mixed-build disabled |
| Bazel.MixedBuildNeedsConversion | android/bazel.go:585-616 | a mixed-build module is Bazelable and not denylisted unless handcrafted |
| Bazel.FirstLineWithPrefix | android/bazel.go:727-732 | the index of the first line with the prefix, or none when no line has it |
| Bazel.MainClass | android/bazel.go:727-734 | fails with "Main-Class is not found." iff no line starts with `Main-Class:`; otherwise the trimmed rest of such a line |
| Bazel.MainClassFirstLineWins | android/bazel.go:727-731 | the first `Main-Class:` line decides |
| Bazel.GetMainClassInManifest | android/bazel.go:720-735 | an open failure is passed through; otherwise `MainClass` of the lines |
| Genrule.AddLabel | genrule/genrule.go:290-300 | the first label added becomes the default; a new label is stored; a repeated label keeps its location and is reported |
| Genrule.AddLabelValid | genrule/genrule.go:290-300 | the default label stays a known label |
| Genrule.DefaultIsFirstNonEmpty | genrule/genrule.go:290-293 | starting empty, the default is the first non-empty label added |
| Genrule.DefaultSticks | genrule/genrule.go:290-293 | once set, the default never changes |
| Genrule.FirstLocationKept | genrule/genrule.go:294-299 | a label's first location survives later additions |
| Genrule.LocationLabels.Add | genrule/genrule.go:290-300 | the table and reported error are `AddLabel` of the old table |
| Genrule.SinglePath | genrule/genrule.go:461-469 | one path resolves to it; none or several report the matching error |
| Genrule.ResolveVariable | genrule/genrule.go:448-516 | the resolution of each variable: `location` needs tools and its default label; `in`, `out`, `depfile` (needs the property) and `genDir`; `location L`/`locations L` need a known label; anything else is reported |
| Genrule.UnknownVariableRule | genrule/genrule.go:512-514 | any other name is reported as an unknown variable |
| Genrule.LabelReferenceRule | genrule/genrule.go:487-511 | `location L` needs a known label with one path; `locations L` joins all paths of a known non-empty label |
| Genrule.ExpandSpecFacts | genrule/genrule.go:446-516 | expansion panics iff some `$(location)` meets a missing default label; else it notes the depfile iff `$(depfile)` occurs |
| Genrule.ExpandCommand | genrule/genrule.go:448-516 | the loop over segments gives `ExpandSpec` |
| Genrule.LiteralTemplate | genrule/genrule.go:448 | a command without variables expands to its text with no errors |
| Genrule.ZeroOutputsRejected | genrule/genrule.go:417-421 | a task without outputs reports and stops, recording no command |
| Genrule.DepfileConsistency | genrule/genrule.go:478-526 | depfile set but unreferenced stops with that error; referenced without the property is reported |
| Genrule.DepfileReported | genrule/genrule.go:478-482 | each `$(depfile)` without the property is among the errors |
| Genrule.OneRawCommandPerTask | genrule/genrule.go:417-527 | a run that does not stop records one raw command per task, and never more |
| Genrule.OutputDeps | genrule/genrule.go:581-597 | up to 6 outputs are direct dependencies; more go through one phony file |
| Genrule.FindOutput | genrule/genrule.go:229-233 | the first output whose relative path is the tag, or none |
| Genrule.Module.AddOutputLabels | genrule/genrule.go:442-444 | each output's relative path is added as a label for its path, errors appended |
| Genrule.Module.RunTaskStep | genrule/genrule.go:417-555 | one task iteration changes table, errors, commands and files exactly as `RunTask` |
| Genrule.Module.GenerateBuildActions | genrule/genrule.go:417-597 | the module's state is `RunTasks` of the tasks; output files and deps are set only when no task stopped the loop: Bazel's files for both when mixed builds are on and Bazel has outputs, otherwise the tasks' outputs with the six-output threshold for the deps |
| Genrule.Module.GenerateBazelBuildActions | genrule/genrule.go:253-270 | reports whether Bazel had outputs for the module; if so they become both the output files and the output deps, otherwise nothing changes |
| Genrule.Module.OutputFiles | genrule/genrule.go:224-235 | tag "" gives all outputs; a tag gives the first output with that relative path, else the unsupported-tag error |
| Genrule.FindOutputIndex | genrule/genrule.go:229-233 | the first matching output is the one found |
| GenruleFactories.ExtStart | genrule/genrule.go:732 | the extension starts at the last '.' of the last path element; there is none exactly when every '.' has a '/' after it |
| GenruleFactories.ReplaceExtensionFacts | genrule/genrule.go:732 | the new path ends in the extension, keeps the stem, and replacing again changes nothing |
| GenruleFactories.ShardDirsDistinct | genrule/genrule.go:696-699 | with several shards, the shard directories differ from each other and from `gensrcs` |
| GenruleFactories.DepfileCountPositive | genrule/genrule.go:729-734 | a depfile is recorded iff the template uses `$(depfile)` |
| GenruleFactories.InputExpand | genrule/genrule.go:723-738 | per input: one depfile per `$(depfile)`, each the sandbox path of the output with extension `d` |
| GenruleFactories.OtherVariablesPassThrough | genrule/genrule.go:735-736 | a template using none of in/out/depfile keeps all its `$(...)` references for the second expansion |
| GenruleFactories.ShardOutputs | genrule/genrule.go:707-719 | one output per input; in shard dirs, with final paths in `copyTo`, only when sharded |
| GenruleFactories.ShardCommands | genrule/genrule.go:721-745 | one `bash -c` escaped command per input; depfiles are inputs × uses of `$(depfile)` |
| GenruleFactories.ShardCommand | genrule/genrule.go:686-773 | the per-shard loop yields `ShardSpec` |
| GenruleFactories.GensrcsTasks | genrule/genrule.go:675-777 | shard size defaults to 50; the tasks are `GensrcsSpec` of the shards |
| GenruleFactories.ShardTasks | genrule/genrule.go:685-774 | one task per shard, in shard order, each `ShardSpec` of its shard and index |
| GenruleFactories.GensrcsLayout | genrule/genrule.go:686-773 | one shard writes to `gensrcs` directly; several write to numbered dirs with `copyTo` final paths; the task has a depfile iff the shard is non-empty and uses `$(depfile)` |
| GenruleFactories.GensrcsCommand | genrule/genrule.go:746-759 | the commands are joined by ` && `; with depfiles, the depfile is `gensrcs.d` in the shard's directory and the command ends with the dep_fixer call over every input's `.d` depfiles, joined by spaces, in input order |
| GenruleFactories.ShardDepfilesOf | genrule/genrule.go:728-733 | the depfiles a shard records are, input by input in order, one sandbox `.d` path of its output per `$(depfile)` |
| GenruleFactories.FinalOutputsPerInput | genrule/genrule.go:547-555 | the module's outputs are the final `gensrcs` path of every input, in order, however the inputs are sharded |
| GenruleFactories.GenRuleTasks | genrule/genrule.go:803-820 | one task with all sources and outputs, in the module's gen directory; depfile iff there is an output, the first one with `.d` |
| GenruleFactories.GenDirFor | genrule/genrule.go:864-867 | `$(RULEDIR)` exactly for cc_genrule, java_genrule and java_genrule_host, else `$(GENDIR)` |
| GenruleFactories.Bp2buildCmd | genrule/genrule.go:860-881 | no `cmd` gives "" |
| GenruleFactories.ConvertCmd | genrule/genrule.go:860-881 | the step-by-step rewrite equals `Bp2buildCmd` |
| GenruleFactories.RenameLabelReferences | genrule/genrule.go:873-880 | the label loop equals `RenameLabels` |
| GenruleFactories.PlainCommandUnchanged | genrule/genrule.go:860-881 | a command with no `$(` is left unchanged |
| GenruleFactories.InRenamed | genrule/genrule.go:862 | every `$(in)` becomes `$(SRCS)` |
| GenruleFactories.OutRenamed | genrule/genrule.go:863 | every `$(out)` becomes `$(OUTS)` |
| GenruleFactories.Bp2buildRenamesIn | genrule/genrule.go:862-868 | in a converted command of plain text around `$(in)` references, every one becomes `$(SRCS)` and nothing else changes |
| GenruleFactories.Bp2buildRenamesOut | genrule/genrule.go:862-868 | every `$(out)` becomes `$(OUTS)` and nothing else changes |
| GenruleFactories.Bp2buildRenamesGenDir | genrule/genrule.go:862-868 | every `$(genDir)` becomes `$(RULEDIR)` or `$(GENDIR)` by module type, and nothing else changes |
| GenruleFactories.Bp2buildRenamesLocation | genrule/genrule.go:873-880 | every `$(location M)` of a source label becomes `$(location L)` with its Bazel label, and nothing else changes |
| GenruleFactories.Bp2buildRenamesLocations | genrule/genrule.go:873-880 | every `$(locations M)` of a source label becomes `$(locations L)`, and nothing else changes |
| GenruleFactories.IdeDepsSound | genrule/genrule.go:603-607 | every IDE dep is a `:`-prefixed source with colons trimmed |
| GenruleFactories.IdeDepsComplete | genrule/genrule.go:603-607 | every `:`-prefixed source yields its dep |
| GenruleFactories.IdeDepsTrimmed | genrule/genrule.go:605 | no dep starts or ends with ':' |
| GenruleFactories.IdeInfoDeps | genrule/genrule.go:603-608 | deps are appended after the existing ones |
| SoongConfig.CanonicalizeFacts | android/soongconfig/modules_test.go:24-68 | same length; letters, digits and '_' kept, others become '_'; idempotent; a fixed point iff all property characters |
| SoongConfig.NameConversionsRoundTrip | android/soongconfig/modules_test.go:102-110 | capitalising a property name and lower-casing a field name undo each other |
| SoongConfig.FindField | android/soongconfig/modules_test.go:94-100 | a field is found iff its name is declared |
| SoongConfig.LookupSeesThroughWrappers | android/soongconfig/modules_test.go:130-174 | a dotted lookup descends alike through a struct, a pointer, an interface holding a struct, and one holding a (possibly nil) pointer |
| SoongConfig.LookupFailures | android/soongconfig/modules_test.go:112-128 | a missing field, or a step into a non-struct, gives no type |
| SoongConfig.PruneEmptyIff | android/soongconfig/modules_test.go:231-237 | pruning leaves nothing iff no field path is affectable |
| SoongConfig.PruneKeepsOrder | android/soongconfig/modules_test.go:251-275 | kept fields keep declaration order |
| SoongConfig.PruneKeepsListed | android/soongconfig/modules_test.go:222-275 | every affectable property of the schema is kept with its type |
| SoongConfig.PruneDropsUnlisted | android/soongconfig/modules_test.go:222-237 | every field left after pruning is a listed property with its own type, or a struct holding a listed property, pruned in turn; nothing else survives |
| SoongConfig.CreateAffectableTypeFacts | android/soongconfig/modules_test.go:190-289 | no type exactly when no affectable property exists; otherwise a pointer to a struct holding exactly the kept fields, each affectable property with its type |
| SoongConfig.SelectFor | android/soongconfig/modules_test.go:310-415 | a bool var selects its properties on "y", else conditions_default; a string var errors iff set outside its values, with the message; no props selects nothing |
| SoongConfig.PropertiesToApplyFails | android/soongconfig/modules_test.go:372-415 | applying fails iff some string variable has an undeclared value, with the first such variable's message |
| SoongConfig.BoolVariableSelects | android/soongconfig/modules_test.go:343-357 | unset or "n" give conditions_default; "y" gives the variable's own properties |
| SoongConfig.SortStrings | android/soongconfig/modules_test.go:499-521 | the keys in strictly ascending order, the same keys |
| SoongConfig.SortedUnique | android/soongconfig/modules_test.go:499-521 | two ascending lists of the same keys are equal |
| SoongConfig.DefinitionsDeterministic | android/soongconfig/modules_test.go:417-527 | the definitions text is the same for every map iteration order |
| SoongConfig.BoolItemsAscending | android/soongconfig/modules_test.go:499-505 | dict entries are one per key, in ascending key order |
| SoongConfig.EmptyDictIff | android/soongconfig/modules_test.go:424-430 | a dict prints as `{}` iff it is empty |
| SoongConfig.OneBoolVariable | android/soongconfig/modules_test.go:433-441 | a single true bool var prints as an indented `"name": True,` line |
| Strings.Split | android/bazel.go:669 | parts are separator-free and join back to the input |
| Strings.SplitJoin | scripts/hiddenapi/signature_trie.py:112 | splitting a join of separator-free parts gives the parts back |
| Strings.ReplaceJoin | genrule/genrule.go:862-879 | replacing a target in a join of target-free parts is joining with the replacement |
| Strings.TrimIsSlice | android/bazel.go:730 | trimming removes only dropped characters at both ends |
| Strings.NatToStringRoundTrip | genrule/genrule.go:698 | the decimal text reads back as the number |

## Left out

- The signature trie's `Leaf` and `InteriorNode` objects are nodes named by their element path. Each node has one parent, so the path identifies the object.
- When a walk in `add` or `get_matching_rows` passes through a leaf, Python raises `AttributeError`. The model returns the `LeafInPath` failure instead.
- `str.islower` is modelled over ASCII letters only.
- `signature_to_elements` emits one `member:` element per `;->`-separated part after the first. The model follows the code, so a text with two `;->` gives two member elements.
- Bazel.LabelOnlyIfConverted: stated for a module asking in its own context, where `ctx.Module()` is the labelled module, as at genrule/genrule.go:576. When another module's context asks, `GetBazelLabel` checks the denylist and package of the context's module (android/bazel.go:158, 619-620), so a label need not mean that the labelled module is converted.
- The lists `bp2buildModuleDoNotConvertList`, the allowlist, the keep-BUILD-file table and the other tables are parameters. Their contents are configuration, not logic.
- `GetBazelBuildFileContents` and `convertWithBp2build` are left out. The first is file I/O. The second only calls `shouldConvertWithBp2build`.
- `GetMainClassInManifest` takes the opened file as its lines, or the open error. Scanner line splitting is not modelled.
- `Genrule.ResolveVariable`: location objects are their resolved paths. The `NilLocation` panic is an explicit outcome.
- `GenerateAndroidBuildActions` takes the table from `addLocationLabel` as given. The tools, tool_files and srcs are not collected from dependencies (genrule.go:302-404). Host-tool errors and missing-dependency placeholders are not modelled.
- A syntax error reported by `android.Expand` (genrule.go:518-521) is not modelled. The command template is already a sequence of literal and variable segments.
- Rule emission, the sbox manifest, the shard-merge rule and its zip arguments, and `AndroidMk` produce no state the other operations read, so they are left out.
- `Genrule.Module.GenerateBazelBuildActions`: the Bazel context is a parameter, the output files Bazel reports for the module's label (`None` when it has none). Whether mixed builds are enabled is a parameter of `GenerateBuildActions`; `Bazel.MixedBuildsEnabled` models that decision. The exported include directories derived from Bazel's files are not modelled.
- `GenruleFactories.GensrcsTasks`: `android.ShardPaths`, `GenPathWithExt`, the sandbox path of a file, `proptools.ShellEscape` and the dep_fixer path are parameters. The gensrcs command's second expansion by the build-action generator is not modelled.
- Go's `%q` is modelled for texts without quotes, backslashes or control characters.
- Some Go and Python functions are split into a method with a helper loop method. Examples are `ConvertCmd` with `RenameLabelReferences`, and `GenerateBuildActions` with `RunTaskStep`. Each helper is proved against the same specification function.
- `SignatureTrie.Trie.Values` builds its rows as a returned sequence instead of appending to a caller's list.
- `SoongConfig`: the package's implementation is not part of this model. The operations follow what its tests fix:
  - The lookup functions work on a schema of Go types.
  - Name capitalisation works on ASCII only.
  - `createAffectablePropertiesType` takes one factory property struct. It does not prune through a pointer to a struct.
  - The definitions text lists entries in ascending key order.
  - An empty list of string choices prints as `[]`.
  - The map iteration orders are parameters.
- `SoongConfig.SelectFor` takes a variable's property sets as values. It does not read them from a reflected struct.
