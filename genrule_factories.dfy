/**
 * The task generators of the two genrule module types (`gensrcs` and
 * `genrule`), the rewrite of a genrule's command for bp2build, and the
 * dependencies a genrule reports to IDE project files. Paths are opaque
 * strings; the path constructors they come from are parameters.
 */
module GenruleFactories {
  import opened Wrappers
  import opened Strings
  import opened Genrule

  // ---------------------------------------------------------------------
  // Paths
  // ---------------------------------------------------------------------

  /**
   * Index of the dot that starts Go's filepath.Ext(p): the last '.' of the
   * final path element, if that element has one.
   */
  function ExtStart(p: string): (r: Option<nat>)
    ensures r.Some? ==> r.value < |p| && p[r.value] == '.'
    ensures r.Some? ==> forall k :: r.value < k < |p| ==> p[k] != '.' && p[k] != '/'
    ensures r.None? ==> forall k :: 0 <= k < |p| && p[k] == '.' ==> '/' in p[k + 1..]
    decreases |p|
  {
    if |p| == 0 then None
    else if p[|p| - 1] == '/' then
      assert forall k :: 0 <= k < |p| - 1 && p[k] == '.' ==> '/' in p[k + 1..] by {
        forall k | 0 <= k < |p| - 1 && p[k] == '.' ensures '/' in p[k + 1..] {
          SlashLater(p, k, |p| - 1);
        }
      }
      None
    else if p[|p| - 1] == '.' then Some(|p| - 1)
    else
      var r := ExtStart(p[..|p| - 1]);
      assert r.None? ==> forall k :: 0 <= k < |p| - 1 && p[k] == '.' ==> '/' in p[k + 1..] by {
        if r.None? {
          forall k | 0 <= k < |p| - 1 && p[k] == '.' ensures '/' in p[k + 1..] {
            assert p[..|p| - 1][k] == '.';
            SlashFromInit(p, k);
          }
        }
      }
      r
  }

  /** A '/' at `j`, after `k`, is in the text after `k`. */
  lemma SlashLater(p: string, k: nat, j: nat)
    requires k < j < |p| && p[j] == '/'
    ensures '/' in p[k + 1..]
  {
    assert p[k + 1..][j - k - 1] == '/';
  }

  /** A '/' after `k` in the path without its last character is one after `k` in the path. */
  lemma SlashFromInit(p: string, k: nat)
    requires k < |p| - 1 && '/' in p[..|p| - 1][k + 1..]
    ensures '/' in p[k + 1..]
  {
    var i :| 0 <= i < |p[..|p| - 1][k + 1..]| && p[..|p| - 1][k + 1..][i] == '/';
    SlashLater(p, k, k + 1 + i);
  }

  /** The path without its extension. */
  function Stem(p: string): (r: string)
    ensures r <= p
  {
    match ExtStart(p) case None => p case Some(i) => p[..i]
  }

  /** `ReplaceExtension`: the path without its extension, then "." and `ext`. */
  function ReplaceExtension(p: string, ext: string): string {
    Stem(p) + "." + ext
  }

  /** The extension of `x + "." + e` starts at that dot when `e` has no '.' and no '/'. */
  lemma {:induction false} ExtStartOfSuffix(x: string, e: string)
    requires Free(e, '.') && Free(e, '/')
    ensures ExtStart(x + "." + e) == Some(|x|)
    decreases |e|
  {
    var p := x + "." + e;
    if |e| > 0 {
      assert p[|p| - 1] == e[|e| - 1];
      assert p[..|p| - 1] == x + "." + e[..|e| - 1];
      ExtStartOfSuffix(x, e[..|e| - 1]);
    }
  }

  /**
   * The replaced path keeps everything before the old extension, ends in
   * "." + `ext`, and replacing again changes nothing.
   */
  lemma ReplaceExtensionFacts(p: string, ext: string)
    requires Free(ext, '.') && Free(ext, '/')
    ensures var r := ReplaceExtension(p, ext);
      && |r| >= |ext| + 1 && r[|r| - |ext| - 1..] == "." + ext
      && Stem(p) <= r
      && ReplaceExtension(r, ext) == r
  {
    var base := Stem(p);
    var r := base + "." + ext;
    assert r[|r| - |ext| - 1..] == "." + ext;
    assert r[..|base|] == base;
    ExtStartOfSuffix(base, ext);
    assert Stem(r) == base;
  }

  // ---------------------------------------------------------------------
  // gensrcs
  // ---------------------------------------------------------------------

  const FinalSubDir := "gensrcs"
  const DefaultShardSize := 50

  /** The `shard_size` property when it is set, else the default of 50. */
  function ShardSize(shardSizeProp: Option<int>): int {
    match shardSizeProp
    case None => DefaultShardSize
    case Some(s) => s
  }

  /** What the gensrcs generator takes from its context. */
  datatype GensrcsEnv = GensrcsEnv(
    genPath: (string, string) -> string,   // GenPathWithExt(ctx, subDir, input, output_extension)
    sandbox: string -> string,             // the sandbox path of an output
    escape: string -> string,              // proptools.ShellEscape
    depFixer: string)                      // the sandbox path of the dep_fixer tool

  /** One generated task of a gensrcs module; paths under the module's gen directory. */
  datatype ShardTask = ShardTask(
    inputs: seq<string>,
    outs: seq<string>,
    depfile: Option<string>,
    copyTo: seq<string>,
    genSubDir: string,
    cmd: string,
    shard: nat,
    shards: nat)

  /** The directory a shard writes to: `gensrcs` itself when there is one shard. */
  function GenSubDir(i: nat, n: nat): string {
    if n > 1 then NatToString(i) else FinalSubDir
  }

  /** With several shards, different shards write to different directories, none of them `gensrcs`. */
  lemma ShardDirsDistinct(i: nat, j: nat, n: nat)
    requires n > 1
    ensures GenSubDir(i, n) != FinalSubDir
    ensures i != j ==> GenSubDir(i, n) != GenSubDir(j, n)
  {
    assert !IsAsciiDigit(FinalSubDir[0]);
    if GenSubDir(i, n) == GenSubDir(j, n) {
      NatToStringInjective(i, j);
    }
  }

  /** The number of `$(depfile)` references in a command template. */
  function DepfileCount(template: seq<Segment>): nat {
    if template == [] then 0
    else (if template[0] == Variable("depfile") then 1 else 0) + DepfileCount(template[1..])
  }

  lemma {:induction false} DepfileCountPositive(template: seq<Segment>)
    ensures DepfileCount(template) > 0 <==> Variable("depfile") in template
  {
    if template != [] {
      DepfileCountPositive(template[1..]);
      assert template == [template[0]] + template[1..];
    }
  }

  /** A template written back as text, every variable as `$(name)`. */
  function Render(template: seq<Segment>): string {
    if template == [] then ""
    else
      (match template[0] case Literal(t) => t case Variable(name) => "$(" + name + ")")
      + Render(template[1..])
  }

  /**
   * The per-input expansion callback: `in` and `out` become this input and
   * its output, each `$(depfile)` becomes a depfile beside the output and is
   * recorded, and every other variable is written back unchanged for the
   * expansion that runs on the whole shard. Returns the text and the
   * recorded depfiles in order.
   */
  function InputExpand(template: seq<Segment>, input: string, outFile: string, env: GensrcsEnv): (r: (string, seq<string>))
    ensures |r.1| == DepfileCount(template)
    ensures forall k :: 0 <= k < |r.1| ==> r.1[k] == env.sandbox(ReplaceExtension(outFile, "d"))
  {
    if template == [] then ("", [])
    else
      var rest := InputExpand(template[1..], input, outFile, env);
      match template[0]
      case Literal(t) => (t + rest.0, rest.1)
      case Variable(name) =>
        if name == "in" then (input + rest.0, rest.1)
        else if name == "out" then (env.sandbox(outFile) + rest.0, rest.1)
        else if name == "depfile" then
          var d := env.sandbox(ReplaceExtension(outFile, "d"));
          (d + rest.0, [d] + rest.1)
        else ("$(" + name + ")" + rest.0, rest.1)
  }

  /** A template that uses none of `in`, `out` and `depfile` passes through as its own text. */
  lemma {:induction false} OtherVariablesPassThrough(template: seq<Segment>, input: string, outFile: string, env: GensrcsEnv)
    requires forall k :: 0 <= k < |template| ==> template[k] !in {Variable("in"), Variable("out"), Variable("depfile")}
    ensures InputExpand(template, input, outFile, env) == (Render(template), [])
  {
    if template != [] {
      OtherVariablesPassThrough(template[1..], input, outFile, env);
    }
  }

  /** What one input contributes to its shard. */
  datatype InputPlan = InputPlan(outFile: string, copyTo: seq<string>, command: string, depFiles: seq<string>)

  function PlanInput(template: seq<Segment>, input: string, sub: string, multi: bool, env: GensrcsEnv): InputPlan {
    var finalFile := env.genPath(FinalSubDir, input);
    var outFile := if multi then env.genPath(sub, input) else finalFile;
    var x := InputExpand(template, input, outFile, env);
    InputPlan(outFile, if multi then [finalFile] else [], "bash -c " + env.escape(x.0), x.1)
  }

  /** The lists a shard accumulates over its inputs. */
  datatype ShardAcc = ShardAcc(outs: seq<string>, copyTo: seq<string>, commands: seq<string>, depFiles: seq<string>)

  /** The inputs' contributions, accumulated in input order. */
  function ShardBody(template: seq<Segment>, shard: seq<string>, sub: string, multi: bool, env: GensrcsEnv): ShardAcc
    decreases |shard|
  {
    if shard == [] then ShardAcc([], [], [], [])
    else
      var a := ShardBody(template, shard[..|shard| - 1], sub, multi, env);
      var p := PlanInput(template, shard[|shard| - 1], sub, multi, env);
      ShardAcc(a.outs + [p.outFile], a.copyTo + p.copyTo, a.commands + [p.command], a.depFiles + p.depFiles)
  }

  /**
   * Each input gets one output under the shard's directory; with several
   * shards it also gets one final path under `gensrcs`.
   */
  lemma {:induction false} ShardOutputs(template: seq<Segment>, shard: seq<string>, sub: string, multi: bool, env: GensrcsEnv)
    ensures var a := ShardBody(template, shard, sub, multi, env);
      && |a.outs| == |shard|
      && (forall k :: 0 <= k < |shard| ==> a.outs[k] == env.genPath(if multi then sub else FinalSubDir, shard[k]))
      && (multi ==> |a.copyTo| == |shard| && forall k :: 0 <= k < |shard| ==> a.copyTo[k] == env.genPath(FinalSubDir, shard[k]))
      && (!multi ==> a.copyTo == [])
    decreases |shard|
  {
    if shard != [] {
      var init, last := shard[..|shard| - 1], shard[|shard| - 1];
      ShardOutputs(template, init, sub, multi, env);
      var a, p := ShardBody(template, init, sub, multi, env), PlanInput(template, last, sub, multi, env);
      var dir := if multi then sub else FinalSubDir;
      assert p.outFile == env.genPath(dir, last);
      forall k | 0 <= k < |shard| ensures (a.outs + [p.outFile])[k] == env.genPath(dir, shard[k]) {
        if k < |init| { assert init[k] == shard[k]; }
      }
      if multi {
        assert p.copyTo == [env.genPath(FinalSubDir, last)];
        forall k | 0 <= k < |shard| ensures (a.copyTo + p.copyTo)[k] == env.genPath(FinalSubDir, shard[k]) {
          if k < |init| { assert init[k] == shard[k]; }
        }
      }
    }
  }

  /**
   * Each input gets one command over its output, and every `$(depfile)`
   * reference of every input records one depfile.
   */
  lemma {:induction false} ShardCommands(template: seq<Segment>, shard: seq<string>, sub: string, multi: bool, env: GensrcsEnv)
    ensures var a := ShardBody(template, shard, sub, multi, env);
      && |a.commands| == |shard|
      && (forall k :: 0 <= k < |shard| ==>
            a.commands[k] == "bash -c " + env.escape(InputExpand(template, shard[k], env.genPath(if multi then sub else FinalSubDir, shard[k]), env).0))
      && |a.depFiles| == |shard| * DepfileCount(template)
    decreases |shard|
  {
    if shard != [] {
      var init := shard[..|shard| - 1];
      ShardCommands(template, init, sub, multi, env);
      assert forall k :: 0 <= k < |init| ==> init[k] == shard[k];
      MulStep(|init|, DepfileCount(template));
    }
  }

  lemma MulStep(a: nat, c: nat)
    ensures a * c + c == (a + 1) * c
  {
  }

  /** The task for shard `i` of `n`. */
  function ShardSpec(template: seq<Segment>, shard: seq<string>, i: nat, n: nat, env: GensrcsEnv): ShardTask {
    var sub := GenSubDir(i, n);
    var a := ShardBody(template, shard, sub, n > 1, env);
    var cmd := Join(a.commands, " && ");
    if |a.depFiles| > 0 then
      ShardTask(shard, a.outs, Some(sub + "/gensrcs.d"), a.copyTo, sub,
                cmd + " && " + env.depFixer + " -o $(depfile) " + Join(a.depFiles, " "), i, n)
    else
      ShardTask(shard, a.outs, None, a.copyTo, sub, cmd, i, n)
  }

  /** `ShardBody` over one more input adds that input's plan. */
  lemma ShardBodyStep(template: seq<Segment>, shard: seq<string>, k: nat, sub: string, multi: bool, env: GensrcsEnv)
    requires k < |shard|
    ensures var a := ShardBody(template, shard[..k], sub, multi, env);
      var p := PlanInput(template, shard[k], sub, multi, env);
      ShardBody(template, shard[..k + 1], sub, multi, env)
      == ShardAcc(a.outs + [p.outFile], a.copyTo + p.copyTo, a.commands + [p.command], a.depFiles + p.depFiles)
  {
    assert shard[..k + 1][..k] == shard[..k];
  }

  /** Builds the task of one shard, input by input. */
  method ShardCommand(template: seq<Segment>, shard: seq<string>, i: nat, n: nat, env: GensrcsEnv) returns (task: ShardTask)
    ensures task == ShardSpec(template, shard, i, n, env)
  {
    var sub := if n > 1 then NatToString(i) else FinalSubDir;
    var commands: seq<string> := [];
    var outFiles: seq<string> := [];
    var commandDepFiles: seq<string> := [];
    var copyTo: seq<string> := [];
    var k := 0;
    while k < |shard|
      invariant 0 <= k <= |shard|
      invariant ShardAcc(outFiles, copyTo, commands, commandDepFiles) == ShardBody(template, shard[..k], sub, n > 1, env)
    {
      ShardBodyStep(template, shard, k, sub, n > 1, env);
      ghost var plan := PlanInput(template, shard[k], sub, n > 1, env);
      var input := shard[k];
      var outFile := env.genPath(FinalSubDir, input);
      if n > 1 {
        var shardFile := env.genPath(sub, input);
        copyTo := copyTo + [outFile];
        outFile := shardFile;
      }
      assert outFile == plan.outFile;
      outFiles := outFiles + [outFile];
      var x := InputExpand(template, input, outFile, env);
      commandDepFiles := commandDepFiles + x.1;
      commands := commands + ["bash -c " + env.escape(x.0)];
      k := k + 1;
    }
    assert shard[..k] == shard;
    var fullCommand := Join(commands, " && ");
    var depfile: Option<string> := None;
    if |commandDepFiles| > 0 {
      depfile := Some(sub + "/gensrcs.d");
      fullCommand := fullCommand + " && " + env.depFixer + " -o $(depfile) " + Join(commandDepFiles, " ");
    }
    task := ShardTask(shard, outFiles, depfile, copyTo, sub, fullCommand, i, n);
  }

  /**
   * The gensrcs task generator: the sources are sharded by `shardPaths`
   * (android.ShardPaths) with the configured shard size, and each shard
   * becomes one task.
   */
  method GensrcsTasks(template: seq<Segment>, srcFiles: seq<string>, shardSizeProp: Option<int>,
                      shardPaths: (seq<string>, int) -> seq<seq<string>>, env: GensrcsEnv)
    returns (tasks: seq<ShardTask>)
    ensures var shards := shardPaths(srcFiles, ShardSize(shardSizeProp));
      && (shardSizeProp.None? ==> shards == shardPaths(srcFiles, 50))
      && tasks == GensrcsSpec(template, shards, env)
  {
    var shardSize := DefaultShardSize;
    if shardSizeProp.Some? {
      shardSize := shardSizeProp.value;
    }
    var shards := shardPaths(srcFiles, shardSize);
    tasks := ShardTasks(template, shards, env);
  }

  /** Builds one task per shard, in shard order. */
  method ShardTasks(template: seq<Segment>, shards: seq<seq<string>>, env: GensrcsEnv)
    returns (tasks: seq<ShardTask>)
    ensures tasks == GensrcsSpec(template, shards, env)
  {
    ghost var spec := GensrcsSpec(template, shards, env);
    tasks := [];
    var i := 0;
    while i < |shards|
      invariant 0 <= i <= |shards|
      invariant tasks == spec[..i]
    {
      var task := ShardCommand(template, shards[i], i, |shards|, env);
      PrefixExtend(spec, i, task);
      tasks := tasks + [task];
      i := i + 1;
    }
    assert spec[..|shards|] == spec;
  }

  /** A prefix of `s` followed by the next element is the prefix one longer. */
  lemma PrefixExtend<T>(s: seq<T>, i: nat, x: T)
    requires i < |s| && x == s[i]
    ensures s[..i] + [x] == s[..i + 1]
  {
  }

  /** The tasks of all shards: `ShardSpec` for each shard, numbered in order. */
  function GensrcsSpec(template: seq<Segment>, shards: seq<seq<string>>, env: GensrcsEnv): (tasks: seq<ShardTask>)
    ensures |tasks| == |shards|
  {
    seq(|shards|, i requires 0 <= i < |shards| => ShardSpec(template, shards[i], i, |shards|, env))
  }

  /**
   * The layout of one shard's task: with one shard the outputs go straight
   * to `gensrcs` and nothing is copied; with several, shard `i` writes under
   * the directory named by `i` and copies each output to its final path
   * under `gensrcs`. A depfile is made exactly when the template references
   * `$(depfile)` and the shard has inputs.
   */
  lemma GensrcsLayout(template: seq<Segment>, shard: seq<string>, i: nat, n: nat, env: GensrcsEnv)
    ensures var t := ShardSpec(template, shard, i, n, env);
      && t.inputs == shard && |t.outs| == |shard|
      && (n <= 1 ==>
            && t.genSubDir == FinalSubDir && t.copyTo == []
            && forall k :: 0 <= k < |shard| ==> t.outs[k] == env.genPath(FinalSubDir, shard[k]))
      && (n > 1 ==>
            && t.genSubDir == NatToString(i) && |t.copyTo| == |shard|
            && (forall k :: 0 <= k < |shard| ==> t.outs[k] == env.genPath(NatToString(i), shard[k]))
            && (forall k :: 0 <= k < |shard| ==> t.copyTo[k] == env.genPath(FinalSubDir, shard[k])))
      && (t.depfile.Some? <==> |shard| > 0 && Variable("depfile") in template)
  {
    var sub := GenSubDir(i, n);
    ShardOutputs(template, shard, sub, n > 1, env);
    var a := ShardBody(template, shard, sub, n > 1, env);
    assert |a.depFiles| > 0 <==> |shard| > 0 && Variable("depfile") in template by {
      DepfileCountPositive(template);
      ShardCommands(template, shard, sub, n > 1, env);
      if |shard| > 0 && DepfileCount(template) > 0 {
        assert |shard| * DepfileCount(template) >= DepfileCount(template);
      }
    }
  }

  /**
   * A shard's command is one `bash -c` command per input, over that input's
   * output, joined by " && ", followed by the dep_fixer call when a depfile
   * was referenced.
   */
  lemma GensrcsCommand(template: seq<Segment>, shard: seq<string>, i: nat, n: nat, env: GensrcsEnv)
    ensures var t := ShardSpec(template, shard, i, n, env);
      var cmds := seq(|shard|, k requires 0 <= k < |shard| =>
        "bash -c " + env.escape(InputExpand(template, shard[k], env.genPath(GenSubDir(i, n), shard[k]), env).0));
      var depFiles := ShardDepfiles(shard, DepfileCount(template), GenSubDir(i, n), env);
      && (t.depfile.None? ==> t.cmd == Join(cmds, " && "))
      && (t.depfile.Some? ==>
            && t.depfile.value == GenSubDir(i, n) + "/gensrcs.d"
            && t.cmd == Join(cmds, " && ") + " && " + env.depFixer + " -o $(depfile) " + Join(depFiles, " "))
  {
    var sub := GenSubDir(i, n);
    ShardCommands(template, shard, sub, n > 1, env);
    ShardDepfilesOf(template, shard, sub, n > 1, env);
    var a := ShardBody(template, shard, sub, n > 1, env);
    var cmds := seq(|shard|, k requires 0 <= k < |shard| =>
      "bash -c " + env.escape(InputExpand(template, shard[k], env.genPath(sub, shard[k]), env).0));
    assert cmds == a.commands;
    assert a.depFiles == ShardDepfiles(shard, DepfileCount(template), sub, env);
  }

  /**
   * The depfiles a shard records, in input order: for each input, one
   * sandbox path of its output under `outDir` with extension `d` per
   * `$(depfile)` reference.
   */
  function ShardDepfiles(shard: seq<string>, count: nat, outDir: string, env: GensrcsEnv): seq<string>
    decreases |shard|
  {
    if shard == [] then []
    else
      var d := env.sandbox(ReplaceExtension(env.genPath(outDir, shard[|shard| - 1]), "d"));
      ShardDepfiles(shard[..|shard| - 1], count, outDir, env) + seq(count, _ => d)
  }

  /** The depfiles the per-input expansions record are `ShardDepfiles` of the shard. */
  lemma {:induction false} ShardDepfilesOf(template: seq<Segment>, shard: seq<string>, sub: string, multi: bool, env: GensrcsEnv)
    ensures ShardBody(template, shard, sub, multi, env).depFiles ==
      ShardDepfiles(shard, DepfileCount(template), if multi then sub else FinalSubDir, env)
    decreases |shard|
  {
    if shard != [] {
      var init := shard[..|shard| - 1];
      ShardDepfilesOf(template, init, sub, multi, env);
      var x := shard[|shard| - 1];
      var p := PlanInput(template, x, sub, multi, env);
      var d := env.sandbox(ReplaceExtension(env.genPath(if multi then sub else FinalSubDir, x), "d"));
      assert p.depFiles == seq(DepfileCount(template), _ => d);
    }
  }

  /** The concatenated inputs of a list of shards. */
  function Flatten(shards: seq<seq<string>>): (r: seq<string>) {
    if shards == [] then [] else Flatten(shards[..|shards| - 1]) + shards[|shards| - 1]
  }

  /** Where each task's outputs finally land: its copies with several shards, else its outputs. */
  function FinalOutputs(tasks: seq<ShardTask>): seq<string> {
    if tasks == [] then []
    else
      var t := tasks[|tasks| - 1];
      FinalOutputs(tasks[..|tasks| - 1]) + (if t.shards > 1 then t.copyTo else t.outs)
  }

  /** The final `gensrcs` path of every input, in order. */
  function FinalPaths(srcs: seq<string>, env: GensrcsEnv): (r: seq<string>)
    ensures |r| == |srcs| && forall k :: 0 <= k < |srcs| ==> r[k] == env.genPath(FinalSubDir, srcs[k])
  {
    seq(|srcs|, k requires 0 <= k < |srcs| => env.genPath(FinalSubDir, srcs[k]))
  }

  /**
   * However the sources are sharded, the tasks together put exactly one
   * final output per source under `gensrcs`, in source order.
   */
  lemma {:induction false} FinalOutputsPerInput(template: seq<Segment>, shards: seq<seq<string>>, m: nat, env: GensrcsEnv)
    requires m <= |shards|
    ensures FinalOutputs(GensrcsSpec(template, shards, env)[..m]) == FinalPaths(Flatten(shards[..m]), env)
  {
    var tasks := GensrcsSpec(template, shards, env);
    if m > 0 {
      FinalOutputsPerInput(template, shards, m - 1, env);
      assert tasks[..m][..m - 1] == tasks[..m - 1];
      assert shards[..m][..m - 1] == shards[..m - 1];
      ShardFinalPaths(template, shards[m - 1], m - 1, |shards|, env);
      var before := Flatten(shards[..m - 1]);
      FinalPathsAppend(before, shards[m - 1], env);
    }
  }

  /** A shard's final outputs are the final paths of its inputs. */
  lemma ShardFinalPaths(template: seq<Segment>, shard: seq<string>, i: nat, n: nat, env: GensrcsEnv)
    ensures var t := ShardSpec(template, shard, i, n, env);
      (if t.shards > 1 then t.copyTo else t.outs) == FinalPaths(shard, env)
  {
    ShardOutputs(template, shard, GenSubDir(i, n), n > 1, env);
  }

  lemma FinalPathsAppend(a: seq<string>, b: seq<string>, env: GensrcsEnv)
    ensures FinalPaths(a + b, env) == FinalPaths(a, env) + FinalPaths(b, env)
  {
    var l, r := FinalPaths(a + b, env), FinalPaths(a, env) + FinalPaths(b, env);
    forall k | 0 <= k < |l| ensures l[k] == r[k] {
      if k >= |a| {
        assert (a + b)[k] == b[k - |a|];
      }
    }
  }

  // ---------------------------------------------------------------------
  // genrule
  // ---------------------------------------------------------------------

  /** The single task of a genrule module; paths under the module's gen directory `genDir`. */
  datatype GenRuleTask = GenRuleTask(inputs: seq<string>, outs: seq<string>, depfile: Option<string>, genDir: string, cmd: string)

  /**
   * The genrule task generator: one task with every declared output and,
   * when there is an output, a depfile named after the first one with the
   * extension "d". `genDir` is the module's gen path (`PathForModuleGen(ctx)`).
   */
  method GenRuleTasks(outNames: seq<string>, srcFiles: seq<string>, genDir: string, rawCommand: string) returns (task: GenRuleTask)
    ensures task.inputs == srcFiles && task.outs == outNames && task.cmd == rawCommand
    ensures task.genDir == genDir
    ensures task.depfile.Some? <==> |outNames| > 0
    ensures task.depfile.Some? ==> task.depfile.value == ReplaceExtension(outNames[0], "d")
  {
    var outs := new string[|outNames|];
    var depFile: Option<string> := None;
    var i := 0;
    while i < |outNames|
      invariant 0 <= i <= |outNames|
      invariant outs[..i] == outNames[..i]
      invariant depFile.Some? <==> i > 0
      invariant i > 0 ==> depFile == Some(ReplaceExtension(outNames[0], "d"))
    {
      var outPath := outNames[i];
      if i == 0 {
        depFile := Some(ReplaceExtension(outPath, "d"));
      }
      outs[i] := outPath;
      i := i + 1;
    }
    assert outs[..] == outs[..i];
    task := GenRuleTask(srcFiles, outs[..], depFile, genDir, rawCommand);
  }

  // ---------------------------------------------------------------------
  // bp2build
  // ---------------------------------------------------------------------

  /** A Bazel label together with the Soong module name it was made from. */
  datatype BazelLabel = BazelLabel(bazelLabel: string, originalModuleName: string)

  /** What `$(genDir)` becomes: the rule's directory for the C++ and Java genrules. */
  function GenDirFor(moduleType: string): (r: string)
    ensures r == "$(RULEDIR)" <==> moduleType in {"cc_genrule", "java_genrule", "java_genrule_host"}
    ensures r == "$(RULEDIR)" || r == "$(GENDIR)"
  {
    if moduleType == "cc_genrule" || moduleType == "java_genrule" || moduleType == "java_genrule_host" then "$(RULEDIR)"
    else "$(GENDIR)"
  }

  function LocationOf(l: string): string { "$(location " + l + ")" }
  function LocationsOf(l: string): string { "$(locations " + l + ")" }

  /** The fixed renames, before any label. */
  function RenameVariables(cmd: string, moduleType: string): string {
    var c := Replace(cmd, "$(in)", "$(SRCS)");
    var c := Replace(c, "$(out)", "$(OUTS)");
    Replace(c, "$(genDir)", GenDirFor(moduleType))
  }

  /** The bare `$(location)` and `$(locations)` name the first tool, when there is one. */
  function RenameDefaultLocation(cmd: string, tools: seq<BazelLabel>): string {
    if |tools| > 0 then
      Replace(Replace(cmd, "$(location)", LocationOf(tools[0].bazelLabel)), "$(locations)", LocationsOf(tools[0].bazelLabel))
    else cmd
  }

  /** References to a label by its Soong module name become references by its Bazel label. */
  function RenameLabel(cmd: string, l: BazelLabel): string {
    Replace(Replace(cmd, LocationOf(l.originalModuleName), LocationOf(l.bazelLabel)),
            LocationsOf(l.originalModuleName), LocationsOf(l.bazelLabel))
  }

  /** `RenameLabel` for each label in turn. */
  function RenameLabels(cmd: string, labels: seq<BazelLabel>): string {
    if labels == [] then cmd
    else RenameLabel(RenameLabels(cmd, labels[..|labels| - 1]), labels[|labels| - 1])
  }

  /** The Bazel `cmd` attribute of a converted genrule. */
  function Bp2buildCmd(cmd: Option<string>, moduleType: string, tools: seq<BazelLabel>, srcs: seq<BazelLabel>): (r: string)
    ensures cmd.None? ==> r == ""
  {
    match cmd
    case None => ""
    case Some(c) => RenameLabels(RenameDefaultLocation(RenameVariables(c, moduleType), tools), tools + srcs)
  }

  /** The command rewrite of `ConvertWithBp2build`, reassigning `cmd` step by step. */
  method ConvertCmd(cmdProp: Option<string>, moduleType: string, tools: seq<BazelLabel>, srcs: seq<BazelLabel>)
    returns (cmd: string)
    ensures cmd == Bp2buildCmd(cmdProp, moduleType, tools, srcs)
  {
    var allReplacements := tools + srcs;
    cmd := "";
    if cmdProp.Some? {
      cmd := Replace(cmdProp.value, "$(in)", "$(SRCS)");
      cmd := Replace(cmd, "$(out)", "$(OUTS)");
      var genDir := "$(GENDIR)";
      if moduleType == "cc_genrule" || moduleType == "java_genrule" || moduleType == "java_genrule_host" {
        genDir := "$(RULEDIR)";
      }
      cmd := Replace(cmd, "$(genDir)", genDir);
      if |tools| > 0 {
        cmd := Replace(cmd, "$(location)", LocationOf(tools[0].bazelLabel));
        cmd := Replace(cmd, "$(locations)", LocationsOf(tools[0].bazelLabel));
      }
      cmd := RenameLabelReferences(cmd, allReplacements);
    }
  }

  /** The label loop of `ConvertWithBp2build`. */
  method RenameLabelReferences(cmd0: string, labels: seq<BazelLabel>) returns (cmd: string)
    ensures cmd == RenameLabels(cmd0, labels)
  {
    cmd := cmd0;
    var j := 0;
    while j < |labels|
      invariant 0 <= j <= |labels|
      invariant cmd == RenameLabels(cmd0, labels[..j])
    {
      assert labels[..j + 1][..j] == labels[..j];
      var l := labels[j];
      cmd := Replace(cmd, LocationOf(l.originalModuleName), LocationOf(l.bazelLabel));
      cmd := Replace(cmd, LocationsOf(l.originalModuleName), LocationsOf(l.bazelLabel));
      j := j + 1;
    }
    assert labels[..j] == labels;
  }

  /** A text with no "$(" is not a reference to anything, so every replacement leaves it alone. */
  lemma {:induction false} RenameLabelsPlain(cmd: string, labels: seq<BazelLabel>)
    requires !Contains(cmd, "$(")
    ensures RenameLabels(cmd, labels) == cmd
  {
    if labels != [] {
      RenameLabelsPlain(cmd, labels[..|labels| - 1]);
      var l := labels[|labels| - 1];
      var loc := LocationOf(l.originalModuleName);
      var locs := LocationsOf(l.originalModuleName);
      assert loc[0] == '$' && loc[1] == '(';
      assert locs[0] == '$' && locs[1] == '(';
      PlainReplaced(cmd, loc, LocationOf(l.bazelLabel));
      PlainReplaced(cmd, locs, LocationsOf(l.bazelLabel));
    }
  }

  /** Replacing a reference (a target starting with "$(") in a text without "$(" changes nothing. */
  lemma PlainReplaced(s: string, t: string, r: string)
    requires !Contains(s, "$(") && |t| >= 2 && t[0] == '$' && t[1] == '('
    ensures Replace(s, t, r) == s
  {
    if Contains(s, t) {
      var i := Find(s, t).value;
      assert s[i..i + |t|][..2] == t[..2];
      assert s[i..i + 2] == "$(";
      assert OccursAt(s, "$(", i);
    }
    ReplaceAbsent(s, t, r);
  }

  /** A command without variable references comes through the rewrite unchanged. */
  lemma PlainCommandUnchanged(c: string, moduleType: string, tools: seq<BazelLabel>, srcs: seq<BazelLabel>)
    requires !Contains(c, "$(")
    ensures Bp2buildCmd(Some(c), moduleType, tools, srcs) == c
  {
    PlainReplaced(c, "$(in)", "$(SRCS)");
    PlainReplaced(c, "$(out)", "$(OUTS)");
    PlainReplaced(c, "$(genDir)", GenDirFor(moduleType));
    assert RenameVariables(c, moduleType) == c;
    if |tools| > 0 {
      PlainReplaced(c, "$(location)", LocationOf(tools[0].bazelLabel));
      PlainReplaced(c, "$(locations)", LocationsOf(tools[0].bazelLabel));
    }
    assert RenameDefaultLocation(c, tools) == c;
    RenameLabelsPlain(c, tools + srcs);
  }

  /**
   * In a command made of plain text around `$(in)` references, every
   * reference becomes `$(SRCS)`; likewise `$(out)` becomes `$(OUTS)`.
   */
  lemma InRenamed(parts: seq<string>)
    requires |parts| >= 1 && forall k :: 0 <= k < |parts| ==> Free(parts[k], '$')
    ensures Replace(Join(parts, "$(in)"), "$(in)", "$(SRCS)") == Join(parts, "$(SRCS)")
  {
    FixedReferences();
    ReplaceJoin(parts, "$(in)", "$(SRCS)");
  }

  lemma OutRenamed(parts: seq<string>)
    requires |parts| >= 1 && forall k :: 0 <= k < |parts| ==> Free(parts[k], '$')
    ensures Replace(Join(parts, "$(out)"), "$(out)", "$(OUTS)") == Join(parts, "$(OUTS)")
  {
    FixedReferences();
    ReplaceJoin(parts, "$(out)", "$(OUTS)");
  }

  /** A variable reference: starts with '$' and holds no other '$'. */
  predicate Reference(x: string) {
    |x| >= 1 && x[0] == '$' && '$' !in x[1..]
  }

  /** The fixed references of the rewrite are references. */
  lemma FixedReferences()
    ensures Reference("$(in)") && Reference("$(out)") && Reference("$(genDir)")
    ensures Reference("$(SRCS)") && Reference("$(OUTS)")
    ensures "$(in)"[2] == 'i' && "$(out)"[2] == 'o' && "$(genDir)"[2] == 'g'
    ensures "$(SRCS)"[2] == 'S' && "$(OUTS)"[2] == 'O'
  {
    assert "$(in)"[1..] == "(in)";
    assert "$(out)"[1..] == "(out)";
    assert "$(genDir)"[1..] == "(genDir)";
    assert "$(SRCS)"[1..] == "(SRCS)";
    assert "$(OUTS)"[1..] == "(OUTS)";
  }

  /** A label reference to a '$'-free name is a reference; `location` and `locations` differ at index 10. */
  lemma LabelReferences(m: string)
    requires Free(m, '$')
    ensures Reference(LocationOf(m)) && Reference(LocationsOf(m))
    ensures |LocationOf(m)| > 10 && |LocationsOf(m)| > 10
    ensures LocationOf(m)[2] == 'l' && LocationOf(m)[10] == ' ' && LocationsOf(m)[10] == 's'
  {
    var a, b := LocationOf(m), LocationsOf(m);
    assert a[1..] == "(location " + m + ")";
    assert b[1..] == "(locations " + m + ")";
    assert forall i :: 0 <= i < |a[1..]| ==> a[1..][i] != '$' by {
      forall i | 0 <= i < |a[1..]| ensures a[1..][i] != '$' {
        if 10 <= i < 10 + |m| { assert a[1..][i] == m[i - 10]; }
      }
    }
    assert forall i :: 0 <= i < |b[1..]| ==> b[1..][i] != '$' by {
      forall i | 0 <= i < |b[1..]| ensures b[1..][i] != '$' {
        if 11 <= i < 11 + |m| { assert b[1..][i] == m[i - 11]; }
      }
    }
  }

  /** Replacing another reference, one that differs from `sep` at index `j`, leaves a join over `sep` alone. */
  lemma ReplaceOther(parts: seq<string>, sep: string, t: string, r: string, j: nat)
    requires Reference(sep) && |t| >= 1 && t[0] == '$' && j < |t| && j < |sep| && t[j] != sep[j]
    requires forall k :: 0 <= k < |parts| ==> Free(parts[k], '$')
    ensures Replace(Join(parts, sep), t, r) == Join(parts, sep)
  {
    JoinAvoids(parts, sep, t, '$', j);
    ReplaceAbsent(Join(parts, sep), t, r);
  }

  /** Without tools or sources, the rewrite is the fixed renames alone. */
  lemma Bp2buildNoLabels(c: string, moduleType: string)
    ensures Bp2buildCmd(Some(c), moduleType, [], []) == RenameVariables(c, moduleType)
  {
    var none: seq<BazelLabel> := [];
    assert none + none == none;
  }

  /** With one source and no tools, the rewrite is the fixed renames, then that source's label. */
  lemma Bp2buildOneSource(c: string, moduleType: string, l: BazelLabel)
    ensures Bp2buildCmd(Some(c), moduleType, [], [l]) == RenameLabel(RenameVariables(c, moduleType), l)
  {
    var one: seq<BazelLabel> := [l];
    assert [] + one == one && one[..|one| - 1] == [] && one[|one| - 1] == l;
    assert RenameLabels(RenameVariables(c, moduleType), one) == RenameLabel(RenameLabels(RenameVariables(c, moduleType), []), l);
  }

  /** In a bp2build command, every `$(in)` becomes `$(SRCS)`. */
  lemma Bp2buildRenamesIn(parts: seq<string>, moduleType: string)
    requires |parts| >= 1 && forall k :: 0 <= k < |parts| ==> Free(parts[k], '$')
    ensures Bp2buildCmd(Some(Join(parts, "$(in)")), moduleType, [], []) == Join(parts, "$(SRCS)")
  {
    var c0, c1, g := Join(parts, "$(in)"), Join(parts, "$(SRCS)"), GenDirFor(moduleType);
    assert Replace(c0, "$(in)", "$(SRCS)") == c1 by {
      FixedReferences();
      ReplaceJoin(parts, "$(in)", "$(SRCS)");
    }
    assert Replace(c1, "$(out)", "$(OUTS)") == c1 by {
      FixedReferences();
      ReplaceOther(parts, "$(SRCS)", "$(out)", "$(OUTS)", 2);
    }
    assert Replace(c1, "$(genDir)", g) == c1 by {
      FixedReferences();
      ReplaceOther(parts, "$(SRCS)", "$(genDir)", g, 2);
    }
    assert RenameVariables(c0, moduleType) == c1;
    Bp2buildNoLabels(c0, moduleType);
  }

  /** In a bp2build command, every `$(out)` becomes `$(OUTS)`. */
  lemma Bp2buildRenamesOut(parts: seq<string>, moduleType: string)
    requires |parts| >= 1 && forall k :: 0 <= k < |parts| ==> Free(parts[k], '$')
    ensures Bp2buildCmd(Some(Join(parts, "$(out)")), moduleType, [], []) == Join(parts, "$(OUTS)")
  {
    var c0, c1, g := Join(parts, "$(out)"), Join(parts, "$(OUTS)"), GenDirFor(moduleType);
    assert Replace(c0, "$(in)", "$(SRCS)") == c0 by {
      FixedReferences();
      ReplaceOther(parts, "$(out)", "$(in)", "$(SRCS)", 2);
    }
    assert Replace(c0, "$(out)", "$(OUTS)") == c1 by {
      FixedReferences();
      ReplaceJoin(parts, "$(out)", "$(OUTS)");
    }
    assert Replace(c1, "$(genDir)", g) == c1 by {
      FixedReferences();
      ReplaceOther(parts, "$(OUTS)", "$(genDir)", g, 2);
    }
    assert RenameVariables(c0, moduleType) == c1;
    Bp2buildNoLabels(c0, moduleType);
  }

  /** In a bp2build command, every `$(genDir)` becomes the module type's `GenDirFor`. */
  lemma Bp2buildRenamesGenDir(parts: seq<string>, moduleType: string)
    requires |parts| >= 1 && forall k :: 0 <= k < |parts| ==> Free(parts[k], '$')
    ensures Bp2buildCmd(Some(Join(parts, "$(genDir)")), moduleType, [], []) == Join(parts, GenDirFor(moduleType))
  {
    var c0, g := Join(parts, "$(genDir)"), GenDirFor(moduleType);
    assert Replace(c0, "$(in)", "$(SRCS)") == c0 by {
      FixedReferences();
      ReplaceOther(parts, "$(genDir)", "$(in)", "$(SRCS)", 2);
    }
    assert Replace(c0, "$(out)", "$(OUTS)") == c0 by {
      FixedReferences();
      ReplaceOther(parts, "$(genDir)", "$(out)", "$(OUTS)", 2);
    }
    assert Replace(c0, "$(genDir)", g) == Join(parts, g) by {
      FixedReferences();
      ReplaceJoin(parts, "$(genDir)", g);
    }
    assert RenameVariables(c0, moduleType) == Join(parts, g);
    Bp2buildNoLabels(c0, moduleType);
  }

  /** The fixed renames leave a join over a label reference alone. */
  lemma VariablesKeepLabel(parts: seq<string>, moduleType: string, loc: string)
    requires forall k :: 0 <= k < |parts| ==> Free(parts[k], '$')
    requires Reference(loc) && |loc| > 2 && loc[2] == 'l'
    ensures RenameVariables(Join(parts, loc), moduleType) == Join(parts, loc)
  {
    var c, g := Join(parts, loc), GenDirFor(moduleType);
    assert Replace(c, "$(in)", "$(SRCS)") == c by {
      FixedReferences();
      ReplaceOther(parts, loc, "$(in)", "$(SRCS)", 2);
    }
    assert Replace(c, "$(out)", "$(OUTS)") == c by {
      FixedReferences();
      ReplaceOther(parts, loc, "$(out)", "$(OUTS)", 2);
    }
    assert Replace(c, "$(genDir)", g) == c by {
      FixedReferences();
      ReplaceOther(parts, loc, "$(genDir)", g, 2);
    }
  }

  /** In a bp2build command, every `$(location M)` of a source label becomes `$(location L)` of its Bazel label. */
  lemma Bp2buildRenamesLocation(parts: seq<string>, moduleType: string, l: BazelLabel)
    requires |parts| >= 1 && forall k :: 0 <= k < |parts| ==> Free(parts[k], '$')
    requires Free(l.originalModuleName, '$') && Free(l.bazelLabel, '$')
    ensures Bp2buildCmd(Some(Join(parts, LocationOf(l.originalModuleName))), moduleType, [], [l])
      == Join(parts, LocationOf(l.bazelLabel))
  {
    var c0 := Join(parts, LocationOf(l.originalModuleName));
    LabelReferences(l.originalModuleName);
    VariablesKeepLabel(parts, moduleType, LocationOf(l.originalModuleName));
    Bp2buildOneSource(c0, moduleType, l);
    LocationRenamed(parts, l);
  }

  /** In a bp2build command, every `$(locations M)` of a source label becomes `$(locations L)` of its Bazel label. */
  lemma Bp2buildRenamesLocations(parts: seq<string>, moduleType: string, l: BazelLabel)
    requires |parts| >= 1 && forall k :: 0 <= k < |parts| ==> Free(parts[k], '$')
    requires Free(l.originalModuleName, '$') && Free(l.bazelLabel, '$')
    ensures Bp2buildCmd(Some(Join(parts, LocationsOf(l.originalModuleName))), moduleType, [], [l])
      == Join(parts, LocationsOf(l.bazelLabel))
  {
    var d0 := Join(parts, LocationsOf(l.originalModuleName));
    LabelReferences(l.originalModuleName);
    VariablesKeepLabel(parts, moduleType, LocationsOf(l.originalModuleName));
    Bp2buildOneSource(d0, moduleType, l);
    LocationsRenamed(parts, l);
  }

  /** `RenameLabel` turns each `$(location M)` into `$(location L)`. */
  lemma LocationRenamed(parts: seq<string>, l: BazelLabel)
    requires |parts| >= 1 && forall k :: 0 <= k < |parts| ==> Free(parts[k], '$')
    requires Free(l.originalModuleName, '$') && Free(l.bazelLabel, '$')
    ensures RenameLabel(Join(parts, LocationOf(l.originalModuleName)), l) == Join(parts, LocationOf(l.bazelLabel))
  {
    var m, b := l.originalModuleName, l.bazelLabel;
    var c0, c1 := Join(parts, LocationOf(m)), Join(parts, LocationOf(b));
    assert Replace(c0, LocationOf(m), LocationOf(b)) == c1 by {
      LabelReferences(m);
      ReplaceJoin(parts, LocationOf(m), LocationOf(b));
    }
    assert Replace(c1, LocationsOf(m), LocationsOf(b)) == c1 by {
      LabelReferences(m);
      LabelReferences(b);
      ReplaceOther(parts, LocationOf(b), LocationsOf(m), LocationsOf(b), 10);
    }
  }

  /** `RenameLabel` turns each `$(locations M)` into `$(locations L)`. */
  lemma LocationsRenamed(parts: seq<string>, l: BazelLabel)
    requires |parts| >= 1 && forall k :: 0 <= k < |parts| ==> Free(parts[k], '$')
    requires Free(l.originalModuleName, '$') && Free(l.bazelLabel, '$')
    ensures RenameLabel(Join(parts, LocationsOf(l.originalModuleName)), l) == Join(parts, LocationsOf(l.bazelLabel))
  {
    var m, b := l.originalModuleName, l.bazelLabel;
    var d0 := Join(parts, LocationsOf(m));
    assert Replace(d0, LocationOf(m), LocationOf(b)) == d0 by {
      LabelReferences(m);
      ReplaceOther(parts, LocationsOf(m), LocationOf(m), LocationOf(b), 10);
    }
    assert Replace(d0, LocationsOf(m), LocationsOf(b)) == Join(parts, LocationsOf(b)) by {
      LabelReferences(m);
      ReplaceJoin(parts, LocationsOf(m), LocationsOf(b));
    }
  }

  // ---------------------------------------------------------------------
  // IDE information
  // ---------------------------------------------------------------------

  /**
   * The module dependencies among a genrule's sources: each source that
   * starts with ':' names a module, given without its surrounding colons.
   */
  function IdeDeps(srcs: seq<string>): (deps: seq<string>)
    ensures |deps| <= |srcs|
  {
    if srcs == [] then []
    else
      var rest := IdeDeps(srcs[..|srcs| - 1]);
      var src := srcs[|srcs| - 1];
      if ":" <= src then rest + [TrimChar(src, ':')] else rest
  }

  /** Every dependency comes from a source that starts with ':', with the colons trimmed. */
  lemma {:induction false} IdeDepsSound(srcs: seq<string>, d: string)
    requires d in IdeDeps(srcs)
    ensures exists k :: 0 <= k < |srcs| && ":" <= srcs[k] && d == TrimChar(srcs[k], ':')
  {
    var init := srcs[..|srcs| - 1];
    var src := srcs[|srcs| - 1];
    if d in IdeDeps(init) {
      IdeDepsSound(init, d);
      var k :| 0 <= k < |init| && ":" <= init[k] && d == TrimChar(init[k], ':');
      assert srcs[k] == init[k];
    } else {
      assert ":" <= src && d == TrimChar(src, ':');
    }
  }

  /** Every source that starts with ':' gives its dependency. */
  lemma {:induction false} IdeDepsComplete(srcs: seq<string>, k: nat)
    requires k < |srcs| && ":" <= srcs[k]
    ensures TrimChar(srcs[k], ':') in IdeDeps(srcs)
  {
    var init := srcs[..|srcs| - 1];
    if k < |init| {
      assert init[k] == srcs[k];
      IdeDepsComplete(init, k);
    }
  }

  /** No dependency starts or ends with ':'. */
  lemma IdeDepsTrimmed(srcs: seq<string>, d: string)
    requires d in IdeDeps(srcs)
    ensures d == [] || (d[0] != ':' && d[|d| - 1] != ':')
  {
    IdeDepsSound(srcs, d);
  }

  /** `IDEInfo`'s dependency loop, appending to the dependencies already collected. */
  method IdeInfoDeps(deps: seq<string>, srcs: seq<string>) returns (r: seq<string>)
    ensures r == deps + IdeDeps(srcs)
  {
    r := deps;
    var i := 0;
    while i < |srcs|
      invariant 0 <= i <= |srcs|
      invariant r == deps + IdeDeps(srcs[..i])
    {
      assert srcs[..i + 1][..i] == srcs[..i];
      var src := srcs[i];
      if ":" <= src {
        src := TrimChar(src, ':');
        r := r + [src];
      }
      i := i + 1;
    }
    assert srcs[..i] == srcs;
  }
}
