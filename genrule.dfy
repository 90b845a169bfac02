/**
 * Soong's `genrule` and `gensrcs` module types: the table of location
 * labels, the resolver for the `$(...)` variables of a command template,
 * the per-task checks of the build-action generator, output-tag lookup,
 * the gensrcs shard layout and the rewrite of `cmd` for bp2build.
 *
 * Paths are opaque strings: a path stands for the text the sandboxed rule
 * builder would print for it. Rule emission, the sandbox itself and shell
 * escaping are not part of this model.
 */
module Genrule {
  import opened Wrappers
  import opened Strings

  // ---------------------------------------------------------------------
  // Errors
  // ---------------------------------------------------------------------

  /** The errors the resolver reports on the `cmd` property. */
  datatype CmdError =
    | LocationWithoutTools
    | DefaultLabelHasNoFiles(labelName: string)
    | DefaultLabelHasMultipleFiles(labelName: string)
    | DepfileWithoutProperty
    | LabelHasNoFiles(labelName: string)
    | LabelHasMultipleFiles(labelName: string)
    | UnknownLocationLabel(labelName: string)
    | UnknownLocationsLabel(labelName: string)
    | UnknownVariable(name: string)

  /** Go's `%q` for a text without quotes, backslashes or control characters. */
  function Quote(s: string): string {
    "\"" + s + "\""
  }

  /** The text of each resolver error. */
  function CmdErrorMessage(e: CmdError): string {
    match e
    case LocationWithoutTools => "at least one `tools` or `tool_files` is required if $(location) is used"
    case DefaultLabelHasNoFiles(l) => "default label " + Quote(l) + " has no files"
    case DefaultLabelHasMultipleFiles(l) =>
      "default label " + Quote(l) + " has multiple files, use $(locations " + l + ") to reference it"
    case DepfileWithoutProperty => "$(depfile) used without depfile property"
    case LabelHasNoFiles(l) => "label " + Quote(l) + " has no files"
    case LabelHasMultipleFiles(l) => "label " + Quote(l) + " has multiple files, use $(locations " + l + ") to reference it"
    case UnknownLocationLabel(l) => "unknown location label " + Quote(l)
    case UnknownLocationsLabel(l) => "unknown locations label " + Quote(l)
    case UnknownVariable(n) => "unknown variable '$(" + n + ")'"
  }

  /** The errors reported on the module while generating its build actions. */
  datatype ModuleError =
    | MultipleLabels(labelName: string)
    | Cmd(error: CmdError)
    | NoOutputFile
    | DepfileNotReferenced

  // ---------------------------------------------------------------------
  // Location labels
  // ---------------------------------------------------------------------

  /**
   * The labels a command may reference, each with the paths its location
   * resolves to, and the default label `$(location)` refers to.
   */
  datatype LabelTable = LabelTable(labels: map<string, seq<string>>, first: string)

  const EmptyTable := LabelTable(map[], "")

  /** The default label is a known label, unless no label has been added yet. */
  predicate TableValid(t: LabelTable) {
    t.first in t.labels || (t.first == "" && t.labels == map[])
  }

  /**
   * The `addLocationLabel` closure: the first non-empty label ever added
   * becomes the default label; a label already present keeps its location
   * and the addition is reported as an error.
   */
  function AddLabel(t: LabelTable, labelName: string, loc: seq<string>): (r: (LabelTable, Option<ModuleError>))
    ensures r.0.first == (if t.first == "" then labelName else t.first)
    ensures labelName !in t.labels ==> r.0.labels == t.labels[labelName := loc] && r.1 == None
    ensures labelName in t.labels ==> r.0.labels == t.labels && r.1 == Some(MultipleLabels(labelName))
  {
    var first := if t.first == "" then labelName else t.first;
    if labelName !in t.labels then (LabelTable(t.labels[labelName := loc], first), None)
    else (LabelTable(t.labels, first), Some(MultipleLabels(labelName)))
  }

  /** Adding a label keeps the table valid. */
  lemma AddLabelValid(t: LabelTable, labelName: string, loc: seq<string>)
    requires TableValid(t)
    ensures TableValid(AddLabel(t, labelName, loc).0)
  {
  }

  /** Adds the labels of `items` in order, collecting the duplicate reports. */
  function AddLabelsReporting(t: LabelTable, items: seq<(string, seq<string>)>): (r: (LabelTable, seq<ModuleError>))
    ensures |r.1| <= |items|
    decreases |items|
  {
    if items == [] then (t, [])
    else
      var (t', err) := AddLabel(t, items[0].0, items[0].1);
      var (t'', errs) := AddLabelsReporting(t', items[1..]);
      (t'', (if err.Some? then [err.value] else []) + errs)
  }

  /** Adding from index `j`: the label at `j`, then the rest from the table it leaves. */
  lemma ReportingStep(t: LabelTable, items: seq<(string, seq<string>)>, j: nat, t': LabelTable, err: Option<ModuleError>)
    requires j < |items| && (t', err) == AddLabel(t, items[j].0, items[j].1)
    ensures var rest := AddLabelsReporting(t', items[j + 1..]);
      AddLabelsReporting(t, items[j..]) == (rest.0, (if err.Some? then [err.value] else []) + rest.1)
  {
    assert items[j..][0] == items[j];
    assert items[j..][1..] == items[j + 1..];
  }

  /** The table after adding the labels of `items` in order. */
  function AddLabels(t: LabelTable, items: seq<(string, seq<string>)>): LabelTable
    decreases |items|
  {
    if items == [] then t else AddLabels(AddLabel(t, items[0].0, items[0].1).0, items[1..])
  }

  /** The reporting and the silent additions build the same table. */
  lemma {:induction false} AddLabelsReportingTable(t: LabelTable, items: seq<(string, seq<string>)>)
    ensures AddLabelsReporting(t, items).0 == AddLabels(t, items)
    decreases |items|
  {
    if items != [] {
      AddLabelsReportingTable(AddLabel(t, items[0].0, items[0].1).0, items[1..]);
    }
  }

  /** Labels added one after another keep the table valid. */
  lemma {:induction false} AddLabelsValid(t: LabelTable, items: seq<(string, seq<string>)>)
    requires TableValid(t)
    ensures TableValid(AddLabels(t, items))
    decreases |items|
  {
    if items != [] {
      AddLabelValid(t, items[0].0, items[0].1);
      AddLabelsValid(AddLabel(t, items[0].0, items[0].1).0, items[1..]);
    }
  }

  /** The first non-empty label in `items`, or "" if there is none. */
  function FirstNonEmpty(items: seq<(string, seq<string>)>): (l: string)
    ensures l != "" ==> exists i :: 0 <= i < |items| && items[i].0 == l
  {
    if items == [] then "" else if items[0].0 != "" then items[0].0 else FirstNonEmpty(items[1..])
  }

  /** Starting from the empty table, the default label is the first non-empty label added. */
  lemma {:induction false} DefaultIsFirstNonEmpty(t: LabelTable, items: seq<(string, seq<string>)>)
    requires t.first == ""
    ensures AddLabels(t, items).first == FirstNonEmpty(items)
    decreases |items|
  {
    if items != [] {
      var t' := AddLabel(t, items[0].0, items[0].1).0;
      if items[0].0 != "" {
        DefaultSticks(t', items[1..]);
      } else {
        DefaultIsFirstNonEmpty(t', items[1..]);
      }
    }
  }

  /** Once a default label is set, later additions never change it. */
  lemma {:induction false} DefaultSticks(t: LabelTable, items: seq<(string, seq<string>)>)
    requires t.first != ""
    ensures AddLabels(t, items).first == t.first
    decreases |items|
  {
    if items != [] {
      DefaultSticks(AddLabel(t, items[0].0, items[0].1).0, items[1..]);
    }
  }

  /** A label's location is the one of its first addition: later duplicates never replace it. */
  lemma {:induction false} FirstLocationKept(t: LabelTable, items: seq<(string, seq<string>)>, labelName: string)
    requires labelName in t.labels
    ensures labelName in AddLabels(t, items).labels && AddLabels(t, items).labels[labelName] == t.labels[labelName]
    decreases |items|
  {
    if items != [] {
      FirstLocationKept(AddLabel(t, items[0].0, items[0].1).0, items[1..], labelName);
    }
  }

  /** The mutable state of the `addLocationLabel` closure: the `locationLabels` map and `firstLabel`. */
  class LocationLabels {
    var labels: map<string, seq<string>>
    var firstLabel: string

    ghost function Table(): LabelTable
      reads this
    {
      LabelTable(labels, firstLabel)
    }

    constructor ()
      ensures Table() == EmptyTable
    {
      labels := map[];
      firstLabel := "";
    }

    /** Go's `addLocationLabel`; the duplicate report is returned to the caller. */
    method Add(labelName: string, loc: seq<string>) returns (err: Option<ModuleError>)
      modifies this
      ensures (Table(), err) == AddLabel(old(Table()), labelName, loc)
    {
      if firstLabel == "" {
        firstLabel := labelName;
      }
      if labelName !in labels {
        labels := labels[labelName := loc];
        err := None;
      } else {
        err := Some(MultipleLabels(labelName));
      }
    }
  }

  // ---------------------------------------------------------------------
  // Variable resolution
  // ---------------------------------------------------------------------

  /** What the resolver consults for one task. */
  datatype ResolveEnv = ResolveEnv(
    hasTools: bool,          // `tools` or `tool_files` is non-empty
    table: LabelTable,
    inputs: seq<string>,     // the sandbox paths of the source files
    outputs: seq<string>,    // the sandbox paths of the task's outputs
    depfile: bool,           // the `depfile` property
    genDir: string)          // the sandbox path of the task's generated-files directory

  /** The outcome of resolving one variable. */
  datatype Resolution =
    | Resolved(text: string)
    | Reported(error: CmdError)
    | NilLocation   // Go calls a method on the nil location of a missing default label and panics

  /** Reported errors are replaced by this text so that one expansion reports all of its errors. */
  const SoongError := "SOONG_ERROR"

  /** The text a resolution puts into the command. */
  function ResolutionText(r: Resolution): (t: string)
    requires !r.NilLocation?
    ensures r.Reported? ==> t == SoongError
  {
    if r.Resolved? then r.text else SoongError
  }

  /** The single path of a location, or the error for none or several. */
  function SinglePath(paths: seq<string>, none: CmdError, many: CmdError): (r: Resolution)
    ensures |paths| == 1 <==> r.Resolved?
    ensures |paths| == 1 ==> r.text == paths[0]
    ensures |paths| == 0 ==> r == Reported(none)
    ensures |paths| > 1 ==> r == Reported(many)
  {
    if |paths| == 0 then Reported(none)
    else if |paths| > 1 then Reported(many)
    else Resolved(paths[0])
  }

  /** The label named after a `location ` or `locations ` prefix, trimmed of white space. */
  function LabelAfter(name: string, prefix: string): string {
    TrimSpace(RemovePrefix(name, prefix))
  }

  /** The resolver callback that `android.Expand` invokes for `$(name)`. */
  function ResolveVariable(name: string, env: ResolveEnv): (r: Resolution)
    ensures name == "location" && !env.hasTools ==> r == Reported(LocationWithoutTools)
    ensures name == "location" && env.hasTools && env.table.first !in env.table.labels ==> r == NilLocation
    ensures name == "location" && env.hasTools && env.table.first in env.table.labels ==>
      r == SinglePath(env.table.labels[env.table.first],
        DefaultLabelHasNoFiles(env.table.first), DefaultLabelHasMultipleFiles(env.table.first))
    ensures name == "in" ==> r == Resolved(Join(env.inputs, " "))
    ensures name == "out" ==> r == Resolved(Join(env.outputs, " "))
    ensures name == "depfile" ==> r == if env.depfile then Resolved("__SBOX_DEPFILE__") else Reported(DepfileWithoutProperty)
    ensures name == "genDir" ==> r == Resolved(env.genDir)
    ensures r.NilLocation? ==> name == "location"
  {
    match name
    case "location" =>
      if !env.hasTools then Reported(LocationWithoutTools)
      else if env.table.first !in env.table.labels then NilLocation
      else
        var l := env.table.first;
        SinglePath(env.table.labels[l], DefaultLabelHasNoFiles(l), DefaultLabelHasMultipleFiles(l))
    case "in" => Resolved(Join(env.inputs, " "))
    case "out" => Resolved(Join(env.outputs, " "))
    case "depfile" => if env.depfile then Resolved("__SBOX_DEPFILE__") else Reported(DepfileWithoutProperty)
    case "genDir" => Resolved(env.genDir)
    case _ =>
      if "location " <= name then
        var l := LabelAfter(name, "location ");
        if l in env.table.labels then SinglePath(env.table.labels[l], LabelHasNoFiles(l), LabelHasMultipleFiles(l))
        else Reported(UnknownLocationLabel(l))
      else if "locations " <= name then
        var l := LabelAfter(name, "locations ");
        if l !in env.table.labels then Reported(UnknownLocationsLabel(l))
        else if |env.table.labels[l]| == 0 then Reported(LabelHasNoFiles(l))
        else Resolved(Join(env.table.labels[l], " "))
      else Reported(UnknownVariable(name))
  }

  /** The variable names the resolver handles itself, besides the `location(s) <label>` forms. */
  predicate IsFixedVariable(name: string) {
    name in {"location", "in", "out", "depfile", "genDir"}
  }

  /** Any other name that does not start with `location ` or `locations ` is an unknown variable. */
  lemma UnknownVariableRule(name: string, env: ResolveEnv)
    requires !IsFixedVariable(name) && !("location " <= name) && !("locations " <= name)
    ensures ResolveVariable(name, env) == Reported(UnknownVariable(name))
  {
  }

  /**
   * `$(location L)` resolves to L's single path and `$(locations L)` to its
   * paths joined with single spaces; an unknown label is an error in both.
   */
  lemma LabelReferenceRule(l: string, env: ResolveEnv)
    requires l == TrimSpace(l)
    ensures var r := ResolveVariable("location " + l, env);
      (l !in env.table.labels ==> r == Reported(UnknownLocationLabel(l))) &&
      (l in env.table.labels ==> r == SinglePath(env.table.labels[l], LabelHasNoFiles(l), LabelHasMultipleFiles(l)))
    ensures var r := ResolveVariable("locations " + l, env);
      (l !in env.table.labels ==> r == Reported(UnknownLocationsLabel(l))) &&
      (l in env.table.labels && |env.table.labels[l]| == 0 ==> r == Reported(LabelHasNoFiles(l))) &&
      (l in env.table.labels && |env.table.labels[l]| > 0 ==> r == Resolved(Join(env.table.labels[l], " ")))
  {
    var n1 := "location " + l;
    var n2 := "locations " + l;
    assert "location " <= n1;
    assert RemovePrefix(n1, "location ") == l;
    assert !IsFixedVariable(n1) by {
      assert n1[8] == ' ';
    }
    assert !("location " <= n2) by { assert n2[8] == 's'; }
    assert "locations " <= n2;
    assert RemovePrefix(n2, "locations ") == l;
    assert !IsFixedVariable(n2) by { assert |n2| >= 10; }
  }

  // ---------------------------------------------------------------------
  // Expansion of one command
  // ---------------------------------------------------------------------

  /** A command template after `android.Expand` has parsed it. */
  datatype Segment = Literal(text: string) | Variable(name: string)

  /** The result of expanding one command: its text, the errors reported, and whether `$(depfile)` appears. */
  datatype Expansion = Expansion(text: string, errors: seq<CmdError>, referencedDepfile: bool, panicked: bool)

  /** Joins two partial expansions; a panic in the second one is the outcome. */
  function Combine(a: Expansion, b: Expansion): Expansion {
    if b.panicked then Panicked
    else Expansion(a.text + b.text, a.errors + b.errors, a.referencedDepfile || b.referencedDepfile, a.panicked)
  }

  /** The outcome of an expansion in which the resolver panicked. */
  const Panicked := Expansion("", [], false, true)

  /** What one segment contributes to an expansion, unless the resolver panics on it. */
  function SegmentExpansion(s: Segment, env: ResolveEnv): Expansion {
    match s
    case Literal(t) => Expansion(t, [], false, false)
    case Variable(n) =>
      var r := ResolveVariable(n, env);
      if r.NilLocation? then Panicked
      else Expansion(ResolutionText(r), if r.Reported? then [r.error] else [], n == "depfile", false)
  }

  /** The expansion of a template, stopping at a resolver panic. */
  function ExpandSpec(cmd: seq<Segment>, env: ResolveEnv): (e: Expansion)
    ensures e.panicked ==> e == Panicked
    ensures |e.errors| <= |cmd|
    decreases |cmd|
  {
    if cmd == [] then Expansion("", [], false, false)
    else
      var first := SegmentExpansion(cmd[0], env);
      if first.panicked then Panicked else Combine(first, ExpandSpec(cmd[1..], env))
  }

  /**
   * An expansion panics iff the resolver panics on one of its variables, and
   * it records a `$(depfile)` reference iff the template has one.
   */
  lemma {:induction false} ExpandSpecFacts(cmd: seq<Segment>, env: ResolveEnv)
    ensures var e := ExpandSpec(cmd, env);
      !e.panicked <==> forall i :: 0 <= i < |cmd| && cmd[i].Variable? ==> !ResolveVariable(cmd[i].name, env).NilLocation?
    ensures var e := ExpandSpec(cmd, env);
      !e.panicked ==> (e.referencedDepfile <==> Variable("depfile") in cmd)
    decreases |cmd|
  {
    if cmd != [] {
      ExpandSpecFacts(cmd[1..], env);
      assert forall i :: 1 <= i < |cmd| ==> cmd[i] == cmd[1..][i - 1];
      assert Variable("depfile") in cmd <==> cmd[0] == Variable("depfile") || Variable("depfile") in cmd[1..];
    }
  }

  /** Partial expansions combine associatively. */
  lemma CombineAssoc(a: Expansion, b: Expansion, c: Expansion)
    requires !b.panicked
    ensures Combine(a, Combine(b, c)) == Combine(Combine(a, b), c)
  {
    if !c.panicked {
      assert a.text + (b.text + c.text) == (a.text + b.text) + c.text;
      assert a.errors + (b.errors + c.errors) == (a.errors + b.errors) + c.errors;
    }
  }

  /** The expansion from segment `i` on is that segment's contribution combined with the rest. */
  lemma ExpandUnfold(cmd: seq<Segment>, i: nat, env: ResolveEnv)
    requires i < |cmd|
    ensures SegmentExpansion(cmd[i], env).panicked ==> ExpandSpec(cmd[i..], env) == Panicked
    ensures !SegmentExpansion(cmd[i], env).panicked ==>
      ExpandSpec(cmd[i..], env) == Combine(SegmentExpansion(cmd[i], env), ExpandSpec(cmd[i + 1..], env))
  {
    assert cmd[i..][1..] == cmd[i + 1..];
  }

  /** Go's `android.Expand` driving the resolver over a parsed template, left to right. */
  method ExpandCommand(cmd: seq<Segment>, env: ResolveEnv) returns (e: Expansion)
    ensures e == ExpandSpec(cmd, env)
  {
    var acc := Expansion("", [], false, false);
    var i := 0;
    assert cmd[0..] == cmd;
    while i < |cmd|
      invariant 0 <= i <= |cmd| && !acc.panicked
      invariant Combine(acc, ExpandSpec(cmd[i..], env)) == ExpandSpec(cmd, env)
    {
      var step;
      if cmd[i].Literal? {
        step := Expansion(cmd[i].text, [], false, false);
      } else {
        var name := cmd[i].name;
        var r := ResolveVariable(name, env);
        if r.NilLocation? {
          ExpandUnfold(cmd, i, env);
          return Panicked;
        }
        step := Expansion(ResolutionText(r), if r.Reported? then [r.error] else [], name == "depfile", false);
      }
      assert step == SegmentExpansion(cmd[i], env);
      ExpandUnfold(cmd, i, env);
      CombineAssoc(acc, step, ExpandSpec(cmd[i + 1..], env));
      acc := Combine(acc, step);
      i := i + 1;
    }
    assert cmd[|cmd|..] == [];
    assert acc.text + "" == acc.text && acc.errors + [] == acc.errors;
    e := acc;
  }

  /** A template without variables expands to its literal text without errors. */
  lemma {:induction false} LiteralTemplate(cmd: seq<Segment>, env: ResolveEnv)
    requires forall i :: 0 <= i < |cmd| ==> cmd[i].Literal?
    ensures ExpandSpec(cmd, env) == Expansion(LiteralText(cmd), [], false, false)
    decreases |cmd|
  {
    if cmd != [] {
      LiteralTemplate(cmd[1..], env);
    }
  }

  /** The text of the literal segments of a template. */
  function LiteralText(cmd: seq<Segment>): string
    decreases |cmd|
  {
    if cmd == [] then "" else (if cmd[0].Literal? then cmd[0].text else "") + LiteralText(cmd[1..])
  }

  // ---------------------------------------------------------------------
  // Build actions of a genrule module
  // ---------------------------------------------------------------------

  /** A generated file: its path relative to the generated-files directory and its sandbox path. */
  datatype OutputPath = OutputPath(rel: string, path: string)

  /** Go's `generateTask`, the part the build-action generator consults. */
  datatype GenerateTask = GenerateTask(
    outs: seq<OutputPath>,
    copyTo: seq<OutputPath>,   // gensrcs with several shards: the final paths of the outputs
    genDir: string,
    cmd: seq<Segment>)

  /** The module properties the build-action generator consults. */
  datatype GenruleProps = GenruleProps(
    hasTools: bool,            // `tools` or `tool_files` is non-empty
    depfile: bool,             // the `depfile` property
    inputs: seq<string>)       // the sandbox paths of the source files

  /** The state `GenerateAndroidBuildActions` builds up while it goes through the tasks. */
  datatype RunState = RunState(
    table: LabelTable,
    errors: seq<ModuleError>,
    rawCommands: seq<string>,
    outputFiles: seq<OutputPath>,
    stopped: bool,             // an error made the generator return
    panicked: bool)            // the resolver panicked

  /** Each output as a location label: its relative path, resolving to its sandbox path. */
  function OutputLabels(outs: seq<OutputPath>): (items: seq<(string, seq<string>)>)
    ensures |items| == |outs|
    ensures forall i :: 0 <= i < |outs| ==> items[i] == (outs[i].rel, [outs[i].path])
  {
    if outs == [] then [] else [(outs[0].rel, [outs[0].path])] + OutputLabels(outs[1..])
  }

  /** The sandbox paths of the outputs. */
  function OutputSandboxPaths(outs: seq<OutputPath>): (ps: seq<string>)
    ensures |ps| == |outs| && forall i :: 0 <= i < |outs| ==> ps[i] == outs[i].path
  {
    if outs == [] then [] else [outs[0].path] + OutputSandboxPaths(outs[1..])
  }

  /** The resolver errors as module errors. */
  function CmdErrors(es: seq<CmdError>): (ms: seq<ModuleError>)
    ensures |ms| == |es| && forall i :: 0 <= i < |es| ==> ms[i] == Cmd(es[i])
  {
    if es == [] then [] else [Cmd(es[0])] + CmdErrors(es[1..])
  }

  /** The files a task contributes to the module's outputs. */
  function TaskOutputs(task: GenerateTask): seq<OutputPath> {
    if |task.copyTo| > 0 then task.copyTo else task.outs
  }

  /** One iteration of the task loop of `GenerateAndroidBuildActions`. */
  function RunTask(st: RunState, task: GenerateTask, props: GenruleProps): (r: RunState)
    requires !st.stopped
  {
    if |task.outs| == 0 then st.(errors := st.errors + [NoOutputFile], stopped := true)
    else
      var (table, dupErrors) := AddLabelsReporting(st.table, OutputLabels(task.outs));
      var env := ResolveEnv(props.hasTools, table, props.inputs, OutputSandboxPaths(task.outs), props.depfile, task.genDir);
      var e := ExpandSpec(task.cmd, env);
      var errors := st.errors + dupErrors;
      if e.panicked then st.(table := table, errors := errors, stopped := true, panicked := true)
      else if props.depfile && !e.referencedDepfile then
        st.(table := table, errors := errors + CmdErrors(e.errors) + [DepfileNotReferenced], stopped := true)
      else
        RunState(table, errors + CmdErrors(e.errors), st.rawCommands + [e.text], st.outputFiles + TaskOutputs(task), false, false)
  }

  /** The task loop of `GenerateAndroidBuildActions`, ending at the first task that stops it. */
  function RunTasks(st: RunState, tasks: seq<GenerateTask>, props: GenruleProps): RunState
    decreases |tasks|
  {
    if st.stopped || tasks == [] then st else RunTasks(RunTask(st, tasks[0], props), tasks[1..], props)
  }

  /** A task without outputs is rejected: the generator reports it and stops, recording nothing for the task. */
  lemma ZeroOutputsRejected(st: RunState, task: GenerateTask, props: GenruleProps)
    requires !st.stopped && |task.outs| == 0
    ensures var r := RunTask(st, task, props);
      r.stopped && r.errors == st.errors + [NoOutputFile] &&
      r.rawCommands == st.rawCommands && r.outputFiles == st.outputFiles
  {
  }

  /**
   * With the depfile property set, a command that never references
   * `$(depfile)` is rejected; one that references it without the property is
   * reported by the resolver.
   */
  lemma DepfileConsistency(st: RunState, task: GenerateTask, props: GenruleProps)
    requires !st.stopped && |task.outs| > 0
    ensures var r := RunTask(st, task, props);
      var env := ResolveEnv(props.hasTools, r.table, props.inputs, OutputSandboxPaths(task.outs), props.depfile, task.genDir);
      !r.panicked ==>
        (props.depfile && Variable("depfile") !in task.cmd ==> r.stopped && r.errors[|r.errors| - 1] == DepfileNotReferenced) &&
        (!props.depfile && Variable("depfile") in task.cmd ==> Cmd(DepfileWithoutProperty) in r.errors)
  {
    var (table, dupErrors) := AddLabelsReporting(st.table, OutputLabels(task.outs));
    var env := ResolveEnv(props.hasTools, table, props.inputs, OutputSandboxPaths(task.outs), props.depfile, task.genDir);
    ExpandSpecFacts(task.cmd, env);
    if !props.depfile && Variable("depfile") in task.cmd && !ExpandSpec(task.cmd, env).panicked {
      var i :| 0 <= i < |task.cmd| && task.cmd[i] == Variable("depfile");
      DepfileReported(task.cmd, env, i);
      var e := ExpandSpec(task.cmd, env);
      var k :| 0 <= k < |e.errors| && e.errors[k] == DepfileWithoutProperty;
      var r := RunTask(st, task, props);
      assert r.errors == st.errors + dupErrors + CmdErrors(e.errors);
      assert r.errors[|st.errors| + |dupErrors| + k] == Cmd(DepfileWithoutProperty);
    }
  }

  /** A `$(depfile)` reference without the depfile property puts its error into the expansion. */
  lemma {:induction false} DepfileReported(cmd: seq<Segment>, env: ResolveEnv, i: nat)
    requires i < |cmd| && cmd[i] == Variable("depfile") && !env.depfile
    requires !ExpandSpec(cmd, env).panicked
    ensures DepfileWithoutProperty in ExpandSpec(cmd, env).errors
    decreases |cmd|
  {
    if i > 0 {
      assert cmd[1..][i - 1] == cmd[i];
      if cmd[0].Variable? {
        assert !ResolveVariable(cmd[0].name, env).NilLocation?;
      }
      DepfileReported(cmd[1..], env, i - 1);
    }
  }

  /** Every task the loop completes adds exactly one raw command. */
  lemma {:induction false} OneRawCommandPerTask(st: RunState, tasks: seq<GenerateTask>, props: GenruleProps)
    requires !st.stopped
    ensures var r := RunTasks(st, tasks, props);
      !r.stopped ==> |r.rawCommands| == |st.rawCommands| + |tasks|
    ensures |RunTasks(st, tasks, props).rawCommands| <= |st.rawCommands| + |tasks|
    decreases |tasks|
  {
    if tasks != [] {
      var next := RunTask(st, tasks[0], props);
      if !next.stopped {
        OneRawCommandPerTask(next, tasks[1..], props);
      }
    }
  }

  /** Go's threshold for embedding the outputs directly in the users of a genrule. */
  const MaxDirectOutputDeps := 6

  /** The `outputDeps` chosen when no Bazel actions were used: the outputs themselves, or one phony file. */
  function OutputDeps(outputFiles: seq<OutputPath>, phony: OutputPath): (deps: seq<OutputPath>)
    ensures |outputFiles| <= MaxDirectOutputDeps ==> deps == outputFiles
    ensures |outputFiles| > MaxDirectOutputDeps ==> deps == [phony]
    ensures |deps| <= MaxDirectOutputDeps
  {
    if |outputFiles| <= MaxDirectOutputDeps then outputFiles else [phony]
  }

  /** The error `OutputFiles` reports for a tag that matches no output. */
  function UnsupportedTag(tag: string): string {
    "unsupported module reference tag " + Quote(tag)
  }

  /** The first output whose relative path is `tag`, if any. */
  function FindOutput(outputFiles: seq<OutputPath>, tag: string): (r: Option<nat>)
    ensures r.Some? ==> r.value < |outputFiles| && outputFiles[r.value].rel == tag
    ensures r.Some? ==> forall j :: 0 <= j < r.value ==> outputFiles[j].rel != tag
    ensures r.None? ==> forall j :: 0 <= j < |outputFiles| ==> outputFiles[j].rel != tag
  {
    if outputFiles == [] then None
    else if outputFiles[0].rel == tag then Some(0)
    else match FindOutput(outputFiles[1..], tag)
      case None => None
      case Some(i) => Some(i + 1)
  }

  /** A genrule or gensrcs module after its build actions were generated. */
  class Module {
    var rawCommands: seq<string>
    var outputFiles: seq<OutputPath>
    var outputDeps: seq<OutputPath>
    var errors: seq<ModuleError>

    constructor ()
      ensures rawCommands == [] && outputFiles == [] && outputDeps == [] && errors == []
    {
      rawCommands := [];
      outputFiles := [];
      outputDeps := [];
      errors := [];
    }

    /** Adds each output of a task as a location label, reporting duplicates on the module. */
    method AddOutputLabels(table: LocationLabels, outs: seq<OutputPath>)
      modifies this, table
      ensures var target := AddLabelsReporting(old(table.Table()), OutputLabels(outs));
        table.Table() == target.0 && errors == old(errors) + target.1
      ensures rawCommands == old(rawCommands) && outputFiles == old(outputFiles) && outputDeps == old(outputDeps)
    {
      ghost var items := OutputLabels(outs);
      ghost var target := AddLabelsReporting(table.Table(), items);
      var j := 0;
      assert items[0..] == items;
      while j < |outs|
        invariant 0 <= j <= |outs|
        invariant AddLabelsReporting(table.Table(), items[j..]).0 == target.0
        invariant errors + AddLabelsReporting(table.Table(), items[j..]).1 == old(errors) + target.1
        invariant rawCommands == old(rawCommands) && outputFiles == old(outputFiles) && outputDeps == old(outputDeps)
      {
        ghost var before := table.Table();
        var err := table.Add(outs[j].rel, [outs[j].path]);
        ReportingStep(before, items, j, table.Table(), err);
        ghost var rest := AddLabelsReporting(table.Table(), items[j + 1..]);
        if err.Some? {
          errors := errors + [err.value];
        }
        assert errors + rest.1 == old(errors) + target.1;
        j := j + 1;
      }
      assert items[|outs|..] == [];
      assert errors + [] == errors;
    }

    /** One iteration of the task loop; `files` is the local list of output files built so far. */
    method RunTaskStep(table: LocationLabels, task: GenerateTask, props: GenruleProps, files: seq<OutputPath>)
      returns (files': seq<OutputPath>, stopped: bool, panicked: bool)
      modifies this, table
      ensures RunState(table.Table(), errors, rawCommands, files', stopped, panicked) ==
        RunTask(RunState(old(table.Table()), old(errors), old(rawCommands), files, false, false), task, props)
      ensures outputFiles == old(outputFiles) && outputDeps == old(outputDeps)
      ensures stopped ==> files' == files
    {
      if |task.outs| == 0 {
        errors := errors + [NoOutputFile];
        return files, true, false;
      }
      AddOutputLabels(table, task.outs);
      var env := ResolveEnv(props.hasTools, LabelTable(table.labels, table.firstLabel), props.inputs, OutputSandboxPaths(task.outs), props.depfile, task.genDir);
      var e := ExpandCommand(task.cmd, env);
      if e.panicked {
        return files, true, true;
      }
      errors := errors + CmdErrors(e.errors);
      if props.depfile && !e.referencedDepfile {
        errors := errors + [DepfileNotReferenced];
        return files, true, false;
      }
      rawCommands := rawCommands + [e.text];
      files' := files + TaskOutputs(task);
      stopped, panicked := false, false;
    }

    /**
     * The task loop of Go's `GenerateAndroidBuildActions` and what follows
     * it. When mixed builds are enabled and Bazel has outputs for the
     * module (`bazelOutputs`), they become both the output files and the
     * output deps; otherwise the output files are the tasks' outputs and
     * `outputDeps` follows the six-output threshold. The labels of the
     * module's tools and sources are already in `table`.
     */
    method GenerateBuildActions(table: LocationLabels, tasks: seq<GenerateTask>, props: GenruleProps, phony: OutputPath,
                                mixedBuilds: bool, bazelOutputs: Option<seq<OutputPath>>)
      returns (stopped: bool, panicked: bool)
      modifies this, table
      ensures var r := RunTasks(RunState(old(table.Table()), old(errors), old(rawCommands), [], false, false), tasks, props);
        && table.Table() == r.table && errors == r.errors && rawCommands == r.rawCommands
        && stopped == r.stopped && panicked == r.panicked
        && (!stopped && mixedBuilds && bazelOutputs.Some? ==>
              outputFiles == bazelOutputs.value && outputDeps == bazelOutputs.value)
        && (!stopped && !(mixedBuilds && bazelOutputs.Some?) ==>
              outputFiles == r.outputFiles && outputDeps == OutputDeps(r.outputFiles, phony))
        && (stopped ==> outputFiles == old(outputFiles) && outputDeps == old(outputDeps))
    {
      ghost var start := RunState(table.Table(), errors, rawCommands, [], false, false);
      var files: seq<OutputPath> := [];
      stopped, panicked := false, false;
      var i := 0;
      assert tasks[0..] == tasks;
      while i < |tasks| && !stopped
        invariant 0 <= i <= |tasks|
        invariant !stopped ==> !panicked
        invariant RunTasks(start, tasks, props) == RunTasks(RunState(table.Table(), errors, rawCommands, files, stopped, panicked), tasks[i..], props)
        invariant outputFiles == old(outputFiles) && outputDeps == old(outputDeps)
      {
        assert tasks[i..][1..] == tasks[i + 1..];
        files, stopped, panicked := RunTaskStep(table, tasks[i], props, files);
        i := i + 1;
      }
      if !stopped {
        assert tasks[i..] == [];
        outputFiles := files;
        var bazelActionsUsed := false;
        if mixedBuilds {
          bazelActionsUsed := GenerateBazelBuildActions(bazelOutputs);
        }
        if !bazelActionsUsed {
          outputDeps := OutputDeps(files, phony);
        }
      }
    }

    /**
     * Go's `GenerateBazelBuildActions`, with the files Bazel reports for the
     * module's label as a parameter (`None` when Bazel has no information):
     * when there are any, they become the output files and the output deps.
     */
    method GenerateBazelBuildActions(bazelOutputs: Option<seq<OutputPath>>) returns (ok: bool)
      modifies this
      ensures ok == bazelOutputs.Some?
      ensures ok ==> outputFiles == bazelOutputs.value && outputDeps == bazelOutputs.value
      ensures !ok ==> outputFiles == old(outputFiles) && outputDeps == old(outputDeps)
      ensures rawCommands == old(rawCommands) && errors == old(errors)
    {
      ok := bazelOutputs.Some?;
      if ok {
        outputFiles := bazelOutputs.value;
        outputDeps := bazelOutputs.value;
      }
    }

    /**
     * Go's `OutputFiles`: every output for the empty tag, else the one
     * output whose relative path is the tag.
     */
    method OutputFiles(tag: string) returns (r: Result<seq<OutputPath>, string>)
      ensures tag == "" ==> r == Success(outputFiles)
      ensures tag != "" ==> match FindOutput(outputFiles, tag)
        case Some(i) => r == Success([outputFiles[i]])
        case None => r == Failure(UnsupportedTag(tag))
    {
      if tag == "" {
        return Success(outputFiles);
      }
      var i := 0;
      while i < |outputFiles|
        invariant 0 <= i <= |outputFiles|
        invariant forall j :: 0 <= j < i ==> outputFiles[j].rel != tag
      {
        if outputFiles[i].rel == tag {
          assert FindOutput(outputFiles, tag) == Some(i) by { FindOutputIndex(outputFiles, tag, i); }
          return Success([outputFiles[i]]);
        }
        i := i + 1;
      }
      return Failure(UnsupportedTag(tag));
    }
  }

  /** The first matching output is the index the search returns. */
  lemma FindOutputIndex(outputFiles: seq<OutputPath>, tag: string, i: nat)
    requires i < |outputFiles| && outputFiles[i].rel == tag
    requires forall j :: 0 <= j < i ==> outputFiles[j].rel != tag
    ensures FindOutput(outputFiles, tag) == Some(i)
  {
    var r := FindOutput(outputFiles, tag);
    assert r.Some?;
  }
}
