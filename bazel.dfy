/**
 * The bp2build conversion decisions of Soong's Bazel support: which
 * directories default to conversion, which modules convert, which Bazel
 * label a module gets, which existing BUILD files are kept, when a module
 * may take part in a mixed build, and the `Main-Class:` manifest scan.
 *
 * The allowlist, denylist and keep-BUILD-file tables are parameters; the
 * build context (`ctx`, `Config`) is replaced by the plain values it yields.
 */
module Bazel {
  import opened Wrappers
  import opened Strings

  // ---------------------------------------------------------------------
  // Per-directory allowlist
  // ---------------------------------------------------------------------

  /** Go's `BazelConversionConfigEntry`; the constants start at 1 so that 0 means "absent". */
  type ConfigEntry = int

  /** All modules in the package and its sub-packages default to conversion. */
  const DefaultTrueRecursively: ConfigEntry := 1
  /** All modules in the package, not its sub-packages, default to conversion. */
  const DefaultTrue: ConfigEntry := 2
  /** All modules in the package, not its sub-packages, default to no conversion. */
  const DefaultFalse: ConfigEntry := 3

  /** Go's `Bp2BuildConfig`: package path to config entry. */
  type Bp2BuildConfig = map<string, ConfigEntry>

  /** Every value of the table is one of the three declared constants. */
  predicate WellFormedConfig(config: Bp2BuildConfig) {
    forall p :: p in config ==> config[p] in {DefaultTrueRecursively, DefaultTrue, DefaultFalse}
  }

  /** Go's map index `config[p]`: the zero value for a missing key. */
  function Lookup(config: Bp2BuildConfig, p: string): (e: ConfigEntry)
    ensures p in config ==> e == config[p]
    ensures WellFormedConfig(config) ==> (e == 0 <==> p !in config)
  {
    if p in config then config[p] else 0
  }

  /** A directory separator (or the end of the path) follows the first `k` characters of `path`. */
  predicate IsComponentBoundary(path: string, k: nat) {
    k <= |path| && (k == |path| || path[k] == '/')
  }

  /**
   * The decision `bp2buildDefaultTrueRecursively` makes: an exact entry
   * decides first (true for DefaultTrue and DefaultTrueRecursively, false for
   * DefaultFalse); otherwise the directory converts iff some component-wise
   * prefix `x`, `x/y`, … of it is marked DefaultTrueRecursively.
   */
  predicate DirectoryDefault(path: string, config: Bp2BuildConfig) {
    var exact := Lookup(config, path);
    if exact == DefaultTrue || exact == DefaultTrueRecursively then true
    else if exact == DefaultFalse then false
    else exists k :: 0 <= k <= |path| && IsComponentBoundary(path, k) && Lookup(config, path[..k]) == DefaultTrueRecursively
  }

  /** In Split(s, "/"), an occurrence of "/" is exactly one slash character. */
  lemma SlashOccursAt(s: string, i: nat)
    ensures OccursAt(s, "/", i) <==> i < |s| && s[i] == '/'
  {
    if i < |s| && s[i] == '/' {
      assert s[i..i + 1] == [s[i]];
    }
  }

  /** The parts Split(s, "/") returns hold no slash, and joining them gives `s` back. */
  lemma SplitSlashParts(s: string)
    ensures var parts := Split(s, "/");
      |parts| >= 1 && Join(parts, "/") == s && forall k :: 0 <= k < |parts| ==> Free(parts[k], '/')
  {
    var parts := Split(s, "/");
    forall k | 0 <= k < |parts| ensures Free(parts[k], '/') {
      assert !Contains(parts[k], "/");
      forall j | 0 <= j < |parts[k]| ensures parts[k][j] != '/' {
        SlashOccursAt(parts[k], j);
      }
    }
  }

  /** Joining one more part appends a separator and the part. */
  lemma {:induction false} JoinSnoc(xs: seq<string>, x: string, sep: string)
    requires |xs| >= 1
    ensures Join(xs + [x], sep) == Join(xs, sep) + sep + x
  {
    if |xs| > 1 {
      assert (xs + [x])[1..] == xs[1..] + [x];
      JoinSnoc(xs[1..], x, sep);
    } else {
      assert (xs + [x])[1..] == [x];
    }
  }

  /**
   * For slash-free parts, the join of the first `i + 1` of them is a prefix
   * of the whole join that ends at a component boundary.
   */
  lemma {:induction false} JoinPrefixIsComponent(parts: seq<string>, i: nat)
    requires i < |parts|
    requires forall k :: 0 <= k < |parts| ==> Free(parts[k], '/')
    ensures var p := Join(parts[..i + 1], "/"); var s := Join(parts, "/");
      |p| <= |s| && p == s[..|p|] && IsComponentBoundary(s, |p|)
  {
    var x := parts[0];
    var s := Join(parts, "/");
    if |parts| == 1 {
      assert parts[..1] == parts;
    } else {
      var tail := parts[1..];
      assert s == x + "/" + Join(tail, "/");
      if i == 0 {
        assert parts[..1] == [x];
        assert s[..|x|] == x;
      } else {
        JoinPrefixIsComponent(tail, i - 1);
        var q := Join(tail[..i], "/");
        assert parts[..i + 1][1..] == tail[..i];
        assert Join(parts[..i + 1], "/") == x + "/" + q;
        var t := Join(tail, "/");
        assert s[..|x| + 1 + |q|] == x + "/" + t[..|q|];
        if |x| + 1 + |q| < |s| {
          assert s[|x| + 1 + |q|] == t[|q|];
        }
      }
    }
  }

  /**
   * Conversely, for slash-free parts every component boundary of the join
   * is where the join of some leading parts ends.
   */
  lemma {:induction false} ComponentIsJoinPrefix(parts: seq<string>, k: nat) returns (i: nat)
    requires |parts| >= 1
    requires forall j :: 0 <= j < |parts| ==> Free(parts[j], '/')
    requires IsComponentBoundary(Join(parts, "/"), k)
    ensures i < |parts| && Join(parts[..i + 1], "/") == Join(parts, "/")[..k]
  {
    var x := parts[0];
    var s := Join(parts, "/");
    if |parts| == 1 {
      assert Free(x, '/');
      i := 0;
      assert parts[..1] == parts;
    } else {
      var tail := parts[1..];
      var t := Join(tail, "/");
      assert s == x + "/" + t;
      assert Free(x, '/');
      if k <= |x| {
        i := 0;
        assert parts[..1] == [x];
        assert s[..k] == x;
      } else {
        var k' := k - |x| - 1;
        if k' < |t| {
          assert t[k'] == s[k];
        }
        assert forall j :: 0 <= j < |tail| ==> Free(tail[j], '/') by {
          forall j | 0 <= j < |tail| ensures Free(tail[j], '/') {
            assert tail[j] == parts[j + 1];
          }
        }
        var i' := ComponentIsJoinPrefix(tail, k');
        i := i' + 1;
        assert parts[..i + 1][1..] == tail[..i'+ 1];
        assert Join(parts[..i + 1], "/") == x + "/" + Join(tail[..i' + 1], "/");
        assert s[..k] == x + "/" + t[..k'];
      }
    }
  }

  /** The package prefix made of the first `i + 1` parts: `x`, `x/y`, … */
  function PartsPrefix(parts: seq<string>, i: nat): string
    requires i < |parts|
  {
    Join(parts[..i + 1], "/")
  }

  /** The loop's step: the next prefix is the previous one, a slash and the next part. */
  lemma PartsPrefixNext(parts: seq<string>, i: nat)
    requires 0 < i < |parts|
    ensures PartsPrefix(parts, i) == PartsPrefix(parts, i - 1) + "/" + parts[i]
  {
    assert parts[..i + 1] == parts[..i] + [parts[i]];
    JoinSnoc(parts[..i], parts[i], "/");
  }

  /**
   * Whether some component-wise prefix of the path whose slash-free parts
   * are `parts` is marked DefaultTrueRecursively.
   */
  lemma RecursivePrefixIff(parts: seq<string>, config: Bp2BuildConfig)
    requires |parts| >= 1
    requires forall j :: 0 <= j < |parts| ==> Free(parts[j], '/')
    ensures var path := Join(parts, "/");
      (exists i :: 0 <= i < |parts| && Lookup(config, PartsPrefix(parts, i)) == DefaultTrueRecursively) <==>
      (exists k :: 0 <= k <= |path| && IsComponentBoundary(path, k) && Lookup(config, path[..k]) == DefaultTrueRecursively)
  {
    var path := Join(parts, "/");
    if i :| 0 <= i < |parts| && Lookup(config, PartsPrefix(parts, i)) == DefaultTrueRecursively {
      JoinPrefixIsComponent(parts, i);
      var k := |PartsPrefix(parts, i)|;
      assert IsComponentBoundary(path, k) && Lookup(config, path[..k]) == DefaultTrueRecursively;
    }
    if k :| 0 <= k <= |path| && IsComponentBoundary(path, k) && Lookup(config, path[..k]) == DefaultTrueRecursively {
      var i := ComponentIsJoinPrefix(parts, k);
      assert Lookup(config, PartsPrefix(parts, i)) == DefaultTrueRecursively;
    }
  }

  /**
   * Go's `bp2buildDefaultTrueRecursively`: the exact entry first, then the
   * prefixes `x`, `x/y`, … of the path built up part by part.
   */
  method Bp2buildDefaultTrueRecursively(packagePath: string, config: Bp2BuildConfig) returns (r: bool)
    ensures r == DirectoryDefault(packagePath, config)
  {
    var exact := Lookup(config, packagePath);
    if exact == DefaultTrue || exact == DefaultTrueRecursively {
      return true;
    } else if exact == DefaultFalse {
      return false;
    }
    var parts := Split(packagePath, "/");
    SplitSlashParts(packagePath);
    RecursivePrefixIff(parts, config);
    r := ScanPackagePrefixes(parts, config);
  }

  /** The loop of `bp2buildDefaultTrueRecursively` over the parts of the package path. */
  method ScanPackagePrefixes(parts: seq<string>, config: Bp2BuildConfig) returns (found: bool)
    ensures found <==> exists i :: 0 <= i < |parts| && Lookup(config, PartsPrefix(parts, i)) == DefaultTrueRecursively
  {
    var packagePrefix := "";
    var i := 0;
    while i < |parts|
      invariant 0 <= i <= |parts|
      invariant i == 0 ==> packagePrefix == ""
      invariant i > 0 ==> packagePrefix == PartsPrefix(parts, i - 1) + "/"
      invariant forall j :: 0 <= j < i ==> Lookup(config, PartsPrefix(parts, j)) != DefaultTrueRecursively
    {
      packagePrefix := packagePrefix + parts[i];
      if i > 0 {
        PartsPrefixNext(parts, i);
      } else {
        assert parts[..1] == [parts[0]];
      }
      assert packagePrefix == PartsPrefix(parts, i);
      if Lookup(config, packagePrefix) == DefaultTrueRecursively {
        return true;
      }
      packagePrefix := packagePrefix + "/";
      i := i + 1;
    }
    return false;
  }

  /**
   * An exact DefaultFalse entry turns a directory off even below a
   * DefaultTrueRecursively ancestor, and an exact DefaultTrue entry turns it on.
   */
  lemma ExactEntryWins(path: string, config: Bp2BuildConfig)
    ensures Lookup(config, path) == DefaultFalse ==> !DirectoryDefault(path, config)
    ensures Lookup(config, path) in {DefaultTrue, DefaultTrueRecursively} ==> DirectoryDefault(path, config)
  {
  }

  /** A DefaultTrueRecursively entry covers every directory below it. */
  lemma RecursiveCoversSubdirectory(config: Bp2BuildConfig, dir: string, sub: string)
    requires Lookup(config, dir) == DefaultTrueRecursively
    requires Lookup(config, dir + "/" + sub) == 0
    ensures DirectoryDefault(dir + "/" + sub, config)
  {
    var path := dir + "/" + sub;
    assert path[..|dir|] == dir;
    assert IsComponentBoundary(path, |dir|);
  }

  /**
   * A DefaultTrue entry is not recursive: a sub-directory one component
   * below it, without an entry of its own and without a recursive entry on
   * the way from the root, does not convert.
   */
  lemma NonRecursiveEntryStops(config: Bp2BuildConfig, dir: string, sub: string)
    requires Lookup(config, dir) == DefaultTrue
    requires sub != "" && Free(sub, '/') && Lookup(config, dir + "/" + sub) == 0
    requires forall k: nat :: IsComponentBoundary(dir, k) ==> Lookup(config, dir[..k]) != DefaultTrueRecursively
    ensures !DirectoryDefault(dir + "/" + sub, config)
  {
    var path := dir + "/" + sub;
    assert forall j :: |dir| < j < |path| ==> path[j] == sub[j - |dir| - 1];
    forall k: nat | IsComponentBoundary(path, k) ensures Lookup(config, path[..k]) != DefaultTrueRecursively {
      if k < |dir| {
        assert path[k] == dir[k] && path[..k] == dir[..k];
        assert IsComponentBoundary(dir, k);
      } else if k == |dir| {
        assert path[..k] == dir;
      } else if k == |path| {
        assert path[..k] == path;
      }
    }
  }

  /** An entry that is not DefaultTrueRecursively has no say over any other directory. */
  lemma NonRecursiveEntryIsLocal(config: Bp2BuildConfig, dir: string, path: string)
    requires dir in config && config[dir] != DefaultTrueRecursively && path != dir
    ensures DirectoryDefault(path, config) <==> DirectoryDefault(path, config - {dir})
  {
    var rest := config - {dir};
    assert Lookup(config, path) == Lookup(rest, path);
    forall k: nat | k <= |path| ensures (Lookup(config, path[..k]) == DefaultTrueRecursively) <==> (Lookup(rest, path[..k]) == DefaultTrueRecursively) {
      if path[..k] != dir {
        assert Lookup(config, path[..k]) == Lookup(rest, path[..k]);
      }
    }
  }

  // ---------------------------------------------------------------------
  // Lookup sets and modules
  // ---------------------------------------------------------------------

  /** Go's `map[string]bool` index: false for a missing key. */
  function Flag(m: map<string, bool>, k: string): (b: bool)
    ensures b <==> k in m && m[k]
  {
    k in m && m[k]
  }

  /** Go's `init`: a lookup map holding `true` for every listed module name. */
  method BuildLookup(names: seq<string>) returns (m: map<string, bool>)
    ensures forall n :: n in m <==> n in names
    ensures forall n :: Flag(m, n) <==> n in names
  {
    m := map[];
    var i := 0;
    while i < |names|
      invariant 0 <= i <= |names|
      invariant forall n :: n in m <==> n in names[..i]
      invariant forall n :: n in m ==> m[n]
    {
      m := m[names[i] := true];
      assert names[..i + 1] == names[..i] + [names[i]];
      i := i + 1;
    }
    assert names[..i] == names;
  }

  /** The `bazel_module` properties of a module. */
  datatype BazelModuleProperties = BazelModuleProperties(
    handcrafted: Option<string>,      // a handcrafted Bazel label; Go's nil pointer is None
    bp2buildAvailable: Option<bool>,  // the tri-state `bp2build_available`
    canConvertToBazel: bool)          // set for module types registered as convertible

  /** A module as bp2build sees it; `bazel` is None for a module that is not Bazelable. */
  datatype Module = Module(name: string, dir: string, bazel: Option<BazelModuleProperties>)

  /** The lookup tables and configuration the conversion decisions consult. */
  datatype ConversionConfig = ConversionConfig(
    packageConfig: Bp2BuildConfig,
    doNotConvert: map<string, bool>,
    ccLibraryStaticOnly: map<string, bool>,
    mixedBuildsDisabled: map<string, bool>)

  /** proptools.BoolDefault. */
  function BoolDefault(v: Option<bool>, default: bool): (b: bool)
    ensures v.Some? ==> b == v.value
    ensures v.None? ==> b == default
  {
    match v
    case Some(x) => x
    case None => default
  }

  /** Go's `shouldConvertWithBp2build` for a module with Bazel properties `props`. */
  function ShouldConvertWithBp2build(name: string, dir: string, props: BazelModuleProperties, c: ConversionConfig): (r: bool)
    ensures Flag(c.doNotConvert, name) ==> !r
    ensures !props.canConvertToBazel ==> !r
    ensures !Flag(c.doNotConvert, name) && props.canConvertToBazel && props.bp2buildAvailable.Some? ==>
      r == props.bp2buildAvailable.value
    ensures !Flag(c.doNotConvert, name) && props.canConvertToBazel && props.bp2buildAvailable.None? ==>
      r == DirectoryDefault(dir, c.packageConfig)
  {
    if Flag(c.doNotConvert, name) then false
    else if !props.canConvertToBazel then false
    else if DirectoryDefault(dir, c.packageConfig) then BoolDefault(props.bp2buildAvailable, true)
    else BoolDefault(props.bp2buildAvailable, false)
  }

  /** Go's `HasHandcraftedLabel`. */
  predicate HasHandcraftedLabel(props: BazelModuleProperties) {
    props.handcrafted.Some?
  }

  /** Go's `HandcraftedLabel`: proptools.String gives "" for a nil label. */
  function HandcraftedLabel(props: BazelModuleProperties): (l: string)
    ensures HasHandcraftedLabel(props) ==> l == props.handcrafted.value
    ensures !HasHandcraftedLabel(props) ==> l == ""
  {
    match props.handcrafted
    case Some(l) => l
    case None => ""
  }

  /**
   * Go's `GetBazelLabel`; `bp2buildLabel` stands for `bp2buildModuleLabel`,
   * which is not part of this model. `ctxName` and `ctxDir` are the name and
   * directory of the module whose context asks (`ctx.Module()`), since
   * `ShouldConvertWithBp2build` looks at that module rather than at the
   * one whose label is asked for; `props` are the labelled module's.
   */
  function GetBazelLabel(ctxName: string, ctxDir: string, props: BazelModuleProperties, c: ConversionConfig, bp2buildLabel: string): (l: string)
    ensures HasHandcraftedLabel(props) ==> l == props.handcrafted.value
    ensures !HasHandcraftedLabel(props) && ShouldConvertWithBp2build(ctxName, ctxDir, props, c) ==> l == bp2buildLabel
    ensures !HasHandcraftedLabel(props) && !ShouldConvertWithBp2build(ctxName, ctxDir, props, c) ==> l == ""
  {
    if HasHandcraftedLabel(props) then HandcraftedLabel(props)
    else if ShouldConvertWithBp2build(ctxName, ctxDir, props, c) then bp2buildLabel
    else ""
  }

  /** Go's `convertedToBazel`: converted by bp2build or replaced by a handcrafted target. */
  function ConvertedToBazel(m: Module, c: ConversionConfig): (r: bool)
    ensures m.bazel.None? ==> !r
    ensures m.bazel.Some? ==>
      (r <==> ShouldConvertWithBp2build(m.name, m.dir, m.bazel.value, c) || HasHandcraftedLabel(m.bazel.value))
  {
    match m.bazel
    case None => false
    case Some(props) => ShouldConvertWithBp2build(m.name, m.dir, props, c) || HasHandcraftedLabel(props)
  }

  /**
   * A denylisted module is never converted, whatever its properties say,
   * unless a handcrafted label replaces it; asked in its own context, its
   * label is then "".
   */
  lemma DenylistedNeverConverts(m: Module, c: ConversionConfig, bp2buildLabel: string)
    requires m.bazel.Some? && Flag(c.doNotConvert, m.name)
    ensures !ShouldConvertWithBp2build(m.name, m.dir, m.bazel.value, c)
    ensures ConvertedToBazel(m, c) <==> HasHandcraftedLabel(m.bazel.value)
    ensures !HasHandcraftedLabel(m.bazel.value) ==> GetBazelLabel(m.name, m.dir, m.bazel.value, c, bp2buildLabel) == ""
  {
  }

  /**
   * A module that asks for its own label in its own context (as a genrule
   * does with `GetBazelLabel(ctx, g)`) gets a non-empty label only if it is
   * converted one way or the other.
   */
  lemma LabelOnlyIfConverted(m: Module, c: ConversionConfig, bp2buildLabel: string)
    requires m.bazel.Some?
    requires GetBazelLabel(m.name, m.dir, m.bazel.value, c, bp2buildLabel) != ""
    ensures ConvertedToBazel(m, c)
  {
  }

  // ---------------------------------------------------------------------
  // Existing BUILD files
  // ---------------------------------------------------------------------

  /**
   * The decision `ShouldKeepExistingBuildFileForDir` makes: an exact entry
   * keeps the directory whatever its flag; otherwise an entry flagged
   * recursive keeps every directory strictly below it.
   */
  predicate KeepExistingBuildFile(dir: string, keep: map<string, bool>) {
    dir in keep || exists p :: p in keep && keep[p] && p + "/" <= dir
  }

  /** Go's `ShouldKeepExistingBuildFileForDir`, iterating over the table in some order. */
  method ShouldKeepExistingBuildFileForDir(dir: string, keep: map<string, bool>) returns (r: bool)
    ensures r == KeepExistingBuildFile(dir, keep)
  {
    if dir in keep {
      return true;
    }
    var remaining := keep.Keys;
    while remaining != {}
      invariant remaining <= keep.Keys
      invariant forall p :: p in keep && p !in remaining ==> !(keep[p] && p + "/" <= dir)
      decreases |remaining|
    {
      var prefix :| prefix in remaining;
      if keep[prefix] && prefix + "/" <= dir {
        return true;
      }
      remaining := remaining - {prefix};
    }
    return false;
  }

  /**
   * A recursive entry keeps its whole subtree; a non-recursive one keeps
   * only itself: below it, the decision is the one the table makes without it.
   */
  lemma KeepSubtree(keep: map<string, bool>, p: string, sub: string)
    requires p in keep
    ensures keep[p] ==> KeepExistingBuildFile(p + "/" + sub, keep)
    ensures !keep[p] ==> (KeepExistingBuildFile(p + "/" + sub, keep) <==> KeepExistingBuildFile(p + "/" + sub, keep - {p}))
  {
    var dir := p + "/" + sub;
    assert (p + "/") <= dir by {
      assert dir[..|p| + 1] == p + "/";
    }
    assert dir != p;
    if !keep[p] && dir !in keep && KeepExistingBuildFile(dir, keep) {
      var q :| q in keep && keep[q] && q + "/" <= dir;
      assert q != p && q in keep - {p};
    }
  }

  // ---------------------------------------------------------------------
  // Mixed builds
  // ---------------------------------------------------------------------

  /** The operating system a module variant is built for. */
  datatype OsType = Windows | Linux | Darwin | Android | OtherOs(osName: string)

  /** The parts of a module context that `MixedBuildsEnabled` consults. */
  datatype ModuleContext = ModuleContext(os: OsType, moduleEnabled: bool, bazelEnabled: bool)

  /** Go's `GenerateCcLibraryStaticOnly`. */
  predicate GenerateCcLibraryStaticOnly(c: ConversionConfig, name: string) {
    Flag(c.ccLibraryStaticOnly, name)
  }

  /** Go's `MixedBuildsEnabled`: every gate must pass. */
  function MixedBuildsEnabled(ctx: ModuleContext, m: Module, c: ConversionConfig): (r: bool)
    ensures r <==>
      && ctx.os != Windows
      && ctx.moduleEnabled
      && ctx.bazelEnabled
      && ConvertedToBazel(m, c)
      && !GenerateCcLibraryStaticOnly(c, m.name)
      && !Flag(c.mixedBuildsDisabled, m.name)
  {
    if ctx.os == Windows then false
    else if !ctx.moduleEnabled then false
    else if !ctx.bazelEnabled then false
    else if !ConvertedToBazel(m, c) then false
    else if GenerateCcLibraryStaticOnly(c, m.name) then false
    else !Flag(c.mixedBuildsDisabled, m.name)
  }

  /** A module in a mixed build is one that some Bazel target replaces. */
  lemma MixedBuildNeedsConversion(ctx: ModuleContext, m: Module, c: ConversionConfig)
    requires MixedBuildsEnabled(ctx, m, c)
    ensures m.bazel.Some?
    ensures !Flag(c.doNotConvert, m.name) || HasHandcraftedLabel(m.bazel.value)
  {
  }

  // ---------------------------------------------------------------------
  // Manifest scan
  // ---------------------------------------------------------------------

  const MainClassAttribute := "Main-Class:"
  const MainClassNotFound := "Main-Class is not found."

  /** Index of the first line that starts with `prefix`, if there is one. */
  function FirstLineWithPrefix(lines: seq<string>, prefix: string): (r: Option<nat>)
    ensures r.Some? ==> r.value < |lines| && prefix <= lines[r.value]
    ensures r.Some? ==> forall j :: 0 <= j < r.value ==> !(prefix <= lines[j])
    ensures r.None? ==> forall j :: 0 <= j < |lines| ==> !(prefix <= lines[j])
  {
    if |lines| == 0 then None
    else if prefix <= lines[0] then Some(0)
    else match FirstLineWithPrefix(lines[1..], prefix)
      case None => None
      case Some(i) => Some(i + 1)
  }

  /**
   * The value of the manifest's `Main-Class` attribute: the remainder of the
   * first line starting with `Main-Class:`, without surrounding white space.
   */
  function MainClass(lines: seq<string>): (r: Result<string, string>)
    ensures r.Failure? <==> forall j :: 0 <= j < |lines| ==> !(MainClassAttribute <= lines[j])
    ensures r.Failure? ==> r.error == MainClassNotFound
    ensures r.Success? ==>
      exists j :: 0 <= j < |lines| && MainClassAttribute <= lines[j] && r.value == TrimSpace(lines[j][|MainClassAttribute|..])
  {
    match FirstLineWithPrefix(lines, MainClassAttribute)
    case None => Failure(MainClassNotFound)
    case Some(i) => Success(TrimSpace(lines[i][|MainClassAttribute|..]))
  }

  /**
   * Go's `GetMainClassInManifest` over the lines the scanner yields; a file
   * that cannot be opened is the `Failure` passed in.
   */
  method GetMainClassInManifest(file: Result<seq<string>, string>) returns (r: Result<string, string>)
    ensures file.Failure? ==> r == Failure(file.error)
    ensures file.Success? ==> r == MainClass(file.value)
  {
    if file.Failure? {
      return Failure(file.error);
    }
    var lines := file.value;
    var i := 0;
    while i < |lines|
      invariant 0 <= i <= |lines|
      invariant forall j :: 0 <= j < i ==> !(MainClassAttribute <= lines[j])
    {
      var line := lines[i];
      if MainClassAttribute <= line {
        assert FirstLineWithPrefix(lines, MainClassAttribute) == Some(i);
        return Success(TrimSpace(line[|MainClassAttribute|..]));
      }
      i := i + 1;
    }
    return Failure(MainClassNotFound);
  }

  /** The first `Main-Class:` line decides, whatever later lines say. */
  lemma MainClassFirstLineWins(before: seq<string>, line: string, after: seq<string>)
    requires forall j :: 0 <= j < |before| ==> !(MainClassAttribute <= before[j])
    requires MainClassAttribute <= line
    ensures MainClass(before + [line] + after) == Success(TrimSpace(line[|MainClassAttribute|..]))
  {
    var lines := before + [line] + after;
    assert lines[|before|] == line;
    assert forall j :: 0 <= j < |before| ==> lines[j] == before[j];
    FirstLineIndex(lines, MainClassAttribute, |before|);
  }

  /** The first line with the prefix is the index the search returns. */
  lemma FirstLineIndex(lines: seq<string>, prefix: string, i: nat)
    requires i < |lines| && prefix <= lines[i]
    requires forall j :: 0 <= j < i ==> !(prefix <= lines[j])
    ensures FirstLineWithPrefix(lines, prefix) == Some(i)
  {
    var r := FirstLineWithPrefix(lines, prefix);
    assert r.Some?;
  }
}
