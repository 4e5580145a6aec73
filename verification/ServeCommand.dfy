/** What a serve command line says: it can be read back, and every flag in it is there once. */
module ServeCommand {
  import opened Wrappers
  import opened Seqs
  import opened Decimal
  import opened RunOptions

  // ----- reading a command line back -----

  /** Everything a request asks `tt serve` for. */
  datatype Plan = Plan(
    model: string,
    detached: bool,
    port: Option<nat>,
    device: Option<string>,
    profile: Option<string>,
    offline: bool,
    workflow: Option<Workflow>,
    vllmArgs: seq<VllmArg>)

  function WorkflowNamed(s: string): (r: Option<Workflow>) {
    if s == "server" then Some(Server)
    else if s == "benchmarks" then Some(Benchmarks)
    else if s == "evals" then Some(Evals)
    else None
  }

  predicate Dashed(word: string) {
    word != "" && word[0] == '-'
  }

  /** Flags after `--`: a word that does not start with a dash is the value of the flag before it. */
  function ReadVllm(words: seq<string>): (r: seq<VllmArg>) {
    if words == [] then []
    else
      var flag := if |words[0]| >= 2 then words[0][2..] else "";
      if |words| >= 2 && !Dashed(words[1]) then [VllmArg(flag, Some(words[1]))] + ReadVllm(words[2..])
      else [VllmArg(flag, None)] + ReadVllm(words[1..])
  }

  function ReadOptions(words: seq<string>, plan: Plan): (r: Option<Plan>) {
    if words == [] then Some(plan)
    else if words[0] == "--detach" then ReadOptions(words[1..], plan.(detached := true))
    else if words[0] == "--offline" then ReadOptions(words[1..], plan.(offline := true))
    else if words[0] == "--" then Some(plan.(vllmArgs := ReadVllm(words[1..])))
    else if |words| < 2 then None
    else if words[0] == "--port" then ReadOptions(words[2..], plan.(port := Parse(words[1], U16_MAX)))
    else if words[0] == "--device" then ReadOptions(words[2..], plan.(device := Some(words[1])))
    else if words[0] == "--profile" then ReadOptions(words[2..], plan.(profile := Some(words[1])))
    else if words[0] == "--workflow" then ReadOptions(words[2..], plan.(workflow := WorkflowNamed(words[1])))
    else None
  }

  function ReadCommand(argv: seq<string>): (r: Option<Plan>) {
    if |argv| < 2 || argv[0] != "serve" then None
    else ReadOptions(argv[2..], Plan(argv[1], false, None, None, None, false, None, []))
  }

  /** The plan a request stands for. */
  function PlanOf(target: ServeTarget, model: string, defaultPort: u16, o: Options): Plan {
    Plan(model, target == Bundle, Some(if o.port.Some? then o.port.value else defaultPort),
         o.device, o.profile, o.offline, o.workflow, o.vllmArgs)
  }

  lemma FittingValueIsPlain(kind: VllmKind, v: string)
    requires ValueFits(kind, Some(v))
    ensures !Dashed(v)
  {
  }

  lemma {:induction false} ReadVllmWords(args: seq<VllmArg>)
    requires forall i :: 0 <= i < |args| ==> ArgFits(args[i])
    ensures ReadVllm(VllmWords(args)) == args
  {
    if args != [] {
      var a, rest := args[0], args[1..];
      ReadVllmWords(rest);
      var words := VllmWords(args);
      assert words[0] == "--" + a.flag && words[0][2..] == a.flag;
      assert args == [a] + rest;
      match a.value
      case Some(v) =>
        FittingValueIsPlain(Lookup(VLLM_ALLOWLIST, a.flag).value, v);
        assert words[1] == v && words[2..] == VllmWords(rest);
      case None =>
        assert words[1..] == VllmWords(rest);
        if rest != [] {
          assert words[1] == VllmWords(rest)[0] == "--" + rest[0].flag;
        }
    }
  }

  lemma ReadPair(name: string, value: Option<string>, rest: seq<string>)
    ensures value.Some? ==> (OptionWords(name, value) + rest)[0] == name
                            && |OptionWords(name, value) + rest| >= 2
                            && (OptionWords(name, value) + rest)[1] == value.value
                            && (OptionWords(name, value) + rest)[2..] == rest
    ensures value.None? ==> OptionWords(name, value) + rest == rest
  {
  }

  lemma ReadDevice(v: Option<string>, rest: seq<string>, plan: Plan)
    ensures ReadOptions(OptionWords("--device", v) + rest, plan)
            == ReadOptions(rest, if v.Some? then plan.(device := v) else plan)
  {
    ReadPair("--device", v, rest);
  }

  lemma ReadPort(v: Option<u16>, rest: seq<string>, plan: Plan)
    ensures ReadOptions(OptionWords("--port", PortText(v)) + rest, plan)
            == ReadOptions(rest, if v.Some? then plan.(port := Some(v.value)) else plan)
  {
    ReadPair("--port", PortText(v), rest);
    if v.Some? {
      ParsePrint(v.value, U16_MAX);
    }
  }

  lemma ReadProfile(v: Option<string>, rest: seq<string>, plan: Plan)
    ensures ReadOptions(OptionWords("--profile", v) + rest, plan)
            == ReadOptions(rest, if v.Some? then plan.(profile := v) else plan)
  {
    ReadPair("--profile", v, rest);
  }

  lemma ReadWorkflow(v: Option<Workflow>, rest: seq<string>, plan: Plan)
    ensures ReadOptions(OptionWords("--workflow", WorkflowText(v)) + rest, plan)
            == ReadOptions(rest, if v.Some? then plan.(workflow := v) else plan)
  {
    ReadPair("--workflow", WorkflowText(v), rest);
  }

  lemma ReadSwitches(b: bool, rest: seq<string>, plan: Plan)
    ensures ReadOptions((if b then ["--offline"] else []) + rest, plan)
            == ReadOptions(rest, if b then plan.(offline := true) else plan)
    ensures ReadOptions((if b then ["--detach"] else []) + rest, plan)
            == ReadOptions(rest, if b then plan.(detached := true) else plan)
  {
    assert [] + rest == rest;
    assert (["--offline"] + rest)[1..] == rest && (["--detach"] + rest)[1..] == rest;
  }

  lemma ReadServeArgs(o: Options, plan: Plan)
    requires forall i :: 0 <= i < |o.vllmArgs| ==> ArgFits(o.vllmArgs[i])
    requires plan == Plan(plan.model, plan.detached, plan.port, None, None, false, None, [])
    ensures ReadOptions(ServeArgs(o), plan)
            == Some(Plan(plan.model, plan.detached, if o.port.Some? then Some(o.port.value) else plan.port,
                         o.device, o.profile, o.offline, o.workflow, o.vllmArgs))
  {
    var rest := LaterWords(o);
    var profile := OptionWords("--profile", o.profile) + rest;
    var port := OptionWords("--port", PortText(o.port)) + profile;
    ReadDevice(o.device, port, plan);
    var p1 := if o.device.Some? then plan.(device := o.device) else plan;
    ReadPort(o.port, profile, p1);
    var p2 := if o.port.Some? then p1.(port := Some(o.port.value)) else p1;
    ReadProfile(o.profile, rest, p2);
    ReadLater(o, if o.profile.Some? then p2.(profile := o.profile) else p2);
  }

  function LaterWords(o: Options): seq<string> {
    (if o.offline then ["--offline"] else [])
    + (OptionWords("--workflow", WorkflowText(o.workflow)) + PassThrough(o.vllmArgs))
  }

  lemma ReadLater(o: Options, plan: Plan)
    requires forall i :: 0 <= i < |o.vllmArgs| ==> ArgFits(o.vllmArgs[i])
    requires !plan.offline && plan.workflow.None? && plan.vllmArgs == []
    ensures ReadOptions(LaterWords(o), plan)
            == Some(plan.(offline := o.offline, workflow := o.workflow, vllmArgs := o.vllmArgs))
  {
    var tail := PassThrough(o.vllmArgs);
    ReadSwitches(o.offline, OptionWords("--workflow", WorkflowText(o.workflow)) + tail, plan);
    var p := if o.offline then plan.(offline := true) else plan;
    ReadWorkflow(o.workflow, tail, p);
    ReadPassThrough(o.vllmArgs, if o.workflow.Some? then p.(workflow := o.workflow) else p);
  }

  lemma ReadPassThrough(args: seq<VllmArg>, plan: Plan)
    requires (forall i :: 0 <= i < |args| ==> ArgFits(args[i])) && plan.vllmArgs == []
    ensures ReadOptions(PassThrough(args), plan) == Some(plan.(vllmArgs := args))
  {
    ReadVllmWords(args);
    assert args != [] ==> PassThrough(args)[1..] == VllmWords(args);
  }

  /** A left inverse: the command line of a checked request reads back to everything it asked for. */
  lemma CommandReadsBack(target: ServeTarget, model: string, defaultPort: u16, o: Options)
    requires Valid(o)
    ensures ReadCommand(Argv(target, model, defaultPort, o)) == Some(PlanOf(target, model, defaultPort, o))
  {
    var argv := Argv(target, model, defaultPort, o);
    var start := Plan(model, false, None, None, None, false, None, []);
    var defaults := DefaultPort(defaultPort, o) + ServeArgs(o);
    assert argv[2..] == (if target == Bundle then ["--detach"] else []) + defaults;
    ReadSwitches(target == Bundle, defaults, start);
    var p1 := if target == Bundle then start.(detached := true) else start;
    var given: Option<u16> := if o.port.None? then Some(defaultPort) else None;
    assert DefaultPort(defaultPort, o) == OptionWords("--port", PortText(given));
    ReadPort(given, ServeArgs(o), p1);
    ReadServeArgs(o, if given.Some? then p1.(port := Some(given.value)) else p1);
  }

  /** Two checked requests with one command line ask for the same thing. */
  lemma CommandIsUnambiguous(t1: ServeTarget, m1: string, p1: u16, o1: Options, t2: ServeTarget, m2: string, p2: u16, o2: Options)
    requires Valid(o1) && Valid(o2) && Argv(t1, m1, p1, o1) == Argv(t2, m2, p2, o2)
    ensures PlanOf(t1, m1, p1, o1) == PlanOf(t2, m2, p2, o2)
  {
    CommandReadsBack(t1, m1, p1, o1);
    CommandReadsBack(t2, m2, p2, o2);
  }

  // ----- the words that start with a dash -----

  /** The flags a request should produce. */
  ghost predicate IsFlag(target: ServeTarget, o: Options, w: string) {
    || w == "--port"
    || (w == "--detach" && target == Bundle)
    || (w == "--device" && o.device.Some?)
    || (w == "--profile" && o.profile.Some?)
    || (w == "--offline" && o.offline)
    || (w == "--workflow" && o.workflow.Some?)
    || (w == "--" && o.vllmArgs != [])
    || IsVllmFlag(o.vllmArgs, w)
  }

  ghost predicate IsVllmFlag(args: seq<VllmArg>, w: string) {
    exists i :: 0 <= i < |args| && w == "--" + args[i].flag
  }

  /** How often `w` occurs. */
  ghost function Count(words: seq<string>, w: string): nat {
    multiset(words)[w]
  }

  lemma CountConcat(a: seq<string>, b: seq<string>, w: string)
    ensures Count(a + b, w) == Count(a, w) + Count(b, w)
  {
  }

  function One(b: bool): nat {
    if b then 1 else 0
  }

  lemma {:induction false} AllowedNamesAreLong(table: seq<AllowedFlag>, name: string)
    requires (forall i :: 0 <= i < |table| ==> |table[i].name| >= 10) && Lookup(table, name).Some?
    ensures |name| >= 10
    decreases |table|
  {
    if table[0].name != name {
      AllowedNamesAreLong(table[1..], name);
    }
  }

  lemma {:induction false} VllmFlagCounts(args: seq<VllmArg>, w: string)
    requires VllmArgsFit(args) && Dashed(w)
    ensures Count(VllmWords(args), w) == One(IsVllmFlag(args, w))
  {
    if args != [] {
      var a, rest := args[0], args[1..];
      LaterArgsFit(args);
      VllmFlagCounts(rest, w);
      ArgCounts(a, w);
      CountConcat(OptionWordsOf(a), VllmWords(rest), w);
      FirstOrLaterFlag(args, w);
    }
  }

  lemma LaterArgsFit(args: seq<VllmArg>)
    requires args != [] && VllmArgsFit(args)
    ensures VllmArgsFit(args[1..]) && ArgFits(args[0])
  {
    var rest := args[1..];
    assert forall i :: 0 <= i < |rest| ==> rest[i] == args[i + 1] && FlagNames(rest)[i] == FlagNames(args)[i + 1];
  }

  lemma ArgCounts(a: VllmArg, w: string)
    requires ArgFits(a) && Dashed(w)
    ensures Count(OptionWordsOf(a), w) == One(w == "--" + a.flag)
  {
    if a.value.Some? {
      FittingValueIsPlain(Lookup(VLLM_ALLOWLIST, a.flag).value, a.value.value);
    }
  }

  lemma FirstOrLaterFlag(args: seq<VllmArg>, w: string)
    requires args != [] && Distinct(FlagNames(args))
    ensures IsVllmFlag(args, w) <==> w == "--" + args[0].flag || IsVllmFlag(args[1..], w)
    ensures !(w == "--" + args[0].flag && IsVllmFlag(args[1..], w))
  {
    var rest := args[1..];
    if IsVllmFlag(rest, w) {
      var i :| 0 <= i < |rest| && w == "--" + rest[i].flag;
      assert args[i + 1] == rest[i] && FlagNames(args)[0] != FlagNames(args)[i + 1];
      assert w[2..] == rest[i].flag && ("--" + args[0].flag)[2..] == args[0].flag;
    }
    if IsVllmFlag(args, w) && w != "--" + args[0].flag {
      var i :| 0 <= i < |args| && w == "--" + args[i].flag;
      assert rest[i - 1] == args[i];
    }
  }

  lemma PairCounts(name: string, value: Option<string>, w: string)
    requires Dashed(w) && (value.Some? ==> !Dashed(value.value))
    ensures Count(OptionWords(name, value), w) == One(w == name && value.Some?)
  {
  }

  lemma PrintedIsPlain(n: nat)
    ensures !Dashed(Print(n))
  {
    ParsePrint(n, n);
    PrintValue(n);
    assert Print(n)[0] in Print(n);
  }

  lemma ServeArgsCounts(o: Options, w: string)
    requires Valid(o) && Dashed(w)
    ensures Count(ServeArgs(o), w)
            == One(w == "--device" && o.device.Some?) + One(w == "--port" && o.port.Some?)
             + One(w == "--profile" && o.profile.Some?) + One(w == "--offline" && o.offline)
             + One(w == "--workflow" && o.workflow.Some?) + One(w == "--" && o.vllmArgs != [])
             + One(IsVllmFlag(o.vllmArgs, w))
  {
    var device, port := OptionWords("--device", o.device), OptionWords("--port", PortText(o.port));
    var profile, offline := OptionWords("--profile", o.profile), if o.offline then ["--offline"] else [];
    var workflow, tail := OptionWords("--workflow", WorkflowText(o.workflow)), PassThrough(o.vllmArgs);
    CountConcat(workflow, tail, w);
    CountConcat(offline, workflow + tail, w);
    CountConcat(profile, offline + (workflow + tail), w);
    CountConcat(port, profile + (offline + (workflow + tail)), w);
    CountConcat(device, port + (profile + (offline + (workflow + tail))), w);
    NameCounts(o, w);
    PortCounts(o.port, w);
    SwitchCounts(o.offline, o.workflow, w);
    PassThroughCounts(o.vllmArgs, w);
  }

  lemma NameCounts(o: Options, w: string)
    requires Valid(o) && Dashed(w)
    ensures Count(OptionWords("--device", o.device), w) == One(w == "--device" && o.device.Some?)
    ensures Count(OptionWords("--profile", o.profile), w) == One(w == "--profile" && o.profile.Some?)
  {
    PairCounts("--device", o.device, w);
    PairCounts("--profile", o.profile, w);
  }

  lemma PortCounts(port: Option<u16>, w: string)
    requires Dashed(w)
    ensures Count(OptionWords("--port", PortText(port)), w) == One(w == "--port" && port.Some?)
  {
    if port.Some? {
      PrintedIsPlain(port.value);
    }
    PairCounts("--port", PortText(port), w);
  }

  lemma SwitchCounts(offline: bool, workflow: Option<Workflow>, w: string)
    requires Dashed(w)
    ensures Count(if offline then ["--offline"] else [], w) == One(w == "--offline" && offline)
    ensures Count(OptionWords("--workflow", WorkflowText(workflow)), w) == One(w == "--workflow" && workflow.Some?)
  {
    if workflow.Some? {
      assert WorkflowName(workflow.value)[0] in {'s', 'b', 'e'};
    }
    PairCounts("--workflow", WorkflowText(workflow), w);
  }

  lemma PassThroughCounts(args: seq<VllmArg>, w: string)
    requires VllmArgsFit(args) && Dashed(w)
    ensures Count(PassThrough(args), w) == One(w == "--" && args != []) + One(IsVllmFlag(args, w))
  {
    VllmFlagCounts(args, w);
    CountConcat(["--"], VllmWords(args), w);
  }

  lemma VllmFlagsAreTheirOwn(args: seq<VllmArg>, w: string)
    requires VllmArgsFit(args) && IsVllmFlag(args, w)
    ensures |w| >= 12
  {
    var i :| 0 <= i < |args| && w == "--" + args[i].flag;
    assert ArgFits(args[i]);
    AllowedNamesAreLong(VLLM_ALLOWLIST, args[i].flag);
  }

  lemma FixedFlagsDiffer()
    ensures |"--port"| == 6 && |"--"| == 2 && |"--workflow"| == 10
    ensures |"--detach"| == 8 && |"--device"| == 8 && "--detach" != "--device"
    ensures |"--profile"| == 9 && |"--offline"| == 9 && "--profile" != "--offline"
  {
    assert "--detach"[4] != "--device"[4] && "--profile"[2] != "--offline"[2];
  }

  /**
   * Of the words that start with a dash, each flag the request asks for is on the command line
   * exactly once, `--port` always among them, and there is no other: no value starts with one.
   */
  lemma EachFlagOnce(target: ServeTarget, model: string, defaultPort: u16, o: Options, w: string)
    requires Valid(o) && IsModelName(model) && Dashed(w)
    ensures Count(Argv(target, model, defaultPort, o), w) == One(IsFlag(target, o, w))
  {
    var detach := if target == Bundle then ["--detach"] else [];
    var port := DefaultPort(defaultPort, o);
    CountConcat(port, ServeArgs(o), w);
    CountConcat(detach, port + ServeArgs(o), w);
    CountConcat(["serve", model], detach + (port + ServeArgs(o)), w);
    HeadCounts(target, model, defaultPort, o, w);
    ServeArgsCounts(o, w);
    FlagsAreExclusive(target, o, w);
  }

  lemma HeadCounts(target: ServeTarget, model: string, defaultPort: u16, o: Options, w: string)
    requires IsModelName(model) && Dashed(w)
    ensures Count(["serve", model], w) == 0
    ensures Count(if target == Bundle then ["--detach"] else [], w) == One(w == "--detach" && target == Bundle)
    ensures Count(DefaultPort(defaultPort, o), w) == One(w == "--port" && o.port.None?)
  {
    PrintedIsPlain(defaultPort);
  }

  lemma FlagsAreExclusive(target: ServeTarget, o: Options, w: string)
    requires Valid(o)
    ensures One(w == "--detach" && target == Bundle) + One(w == "--port" && o.port.None?)
            + One(w == "--device" && o.device.Some?) + One(w == "--port" && o.port.Some?)
            + One(w == "--profile" && o.profile.Some?) + One(w == "--offline" && o.offline)
            + One(w == "--workflow" && o.workflow.Some?) + One(w == "--" && o.vllmArgs != [])
            + One(IsVllmFlag(o.vllmArgs, w)) == One(IsFlag(target, o, w))
  {
    FixedFlagsDiffer();
    if IsVllmFlag(o.vllmArgs, w) {
      VllmFlagsAreTheirOwn(o.vllmArgs, w);
    }
  }
}
