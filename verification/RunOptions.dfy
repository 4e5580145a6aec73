/**
 * The options a client may pass when it asks a box to serve a model: the check every value goes
 * through, the command line they are printed to, and the schema a form is built from.
 */
module RunOptions {
  import opened Wrappers
  import opened Seqs
  import opened Text
  import opened Decimal

  type u16 = n: nat | n <= 65535

  datatype Workflow = Server | Benchmarks | Evals

  function WorkflowName(w: Workflow): (r: string) {
    match w
    case Server => "server"
    case Benchmarks => "benchmarks"
    case Evals => "evals"
  }

  datatype VllmArg = VllmArg(flag: string, value: Option<string>)

  datatype VllmKind = IntKind(min: nat, max: nat) | BoolKind | TokenKind

  datatype AllowedFlag = AllowedFlag(name: string, kind: VllmKind)

  const VLLM_ALLOWLIST: seq<AllowedFlag> := [
    AllowedFlag("max-model-len", IntKind(1, 1048576)),
    AllowedFlag("max-num-seqs", IntKind(1, 1024)),
    AllowedFlag("max-num-batched-tokens", IntKind(1, 1048576)),
    AllowedFlag("block-size", IntKind(1, 1024)),
    AllowedFlag("enable-auto-tool-choice", BoolKind),
    AllowedFlag("tool-call-parser", TokenKind),
    AllowedFlag("reasoning-parser", TokenKind)]

  datatype Options = Options(
    device: Option<string>,
    port: Option<u16>,
    profile: Option<string>,
    offline: bool,
    workflow: Option<Workflow>,
    vllmArgs: seq<VllmArg>)

  /** A refused option, by field. */
  datatype OptionError = OptionError(field: string)

  // ----- what a safe value looks like -----

  predicate IsDeviceName(s: string) {
    2 <= |s| <= 16 && forall i :: 0 <= i < |s| ==> IsLower(s[i]) || IsDigit(s[i])
  }

  predicate IsProfileName(s: string) {
    && 1 <= |s| <= 64 && IsAlnum(s[0])
    && forall i :: 0 <= i < |s| ==> IsAlnum(s[i]) || s[i] in {'.', '_', '-'}
  }

  predicate IsToken(s: string) {
    && 1 <= |s| <= 40 && (IsLower(s[0]) || IsDigit(s[0]))
    && forall i :: 0 <= i < |s| ==> IsLower(s[i]) || IsDigit(s[i]) || s[i] in {'_', '-'}
  }

  predicate IsModelName(s: string) {
    && 1 <= |s| <= 128 && IsAlnum(s[0])
    && forall i :: 0 <= i < |s| ==> IsAlnum(s[i]) || s[i] in {'.', '_', '/', '-'}
  }

  const MAX_DIGITS := 19

  /** `check_vllm_value`. */
  predicate ValueFits(kind: VllmKind, value: Option<string>) {
    match (kind, value)
    case (BoolKind, None) => true
    case (BoolKind, Some(_)) => false
    case (_, None) => false
    case (IntKind(min, max), Some(v)) =>
      var digits := v != "" && |v| <= MAX_DIGITS && AllDigits(v);
      var parsed := Parse(v, U64_MAX);
      parsed.Some? && digits && min <= parsed.value <= max
    case (TokenKind, Some(v)) => IsToken(v)
  }

  /** The first entry of that name. */
  function Lookup(table: seq<AllowedFlag>, name: string): (r: Option<VllmKind>) {
    if table == [] then None
    else if table[0].name == name then Some(table[0].kind)
    else Lookup(table[1..], name)
  }

  predicate ArgFits(arg: VllmArg) {
    var kind := Lookup(VLLM_ALLOWLIST, arg.flag);
    kind.Some? && ValueFits(kind.value, arg.value)
  }

  function FlagNames(args: seq<VllmArg>): (r: seq<string>)
    ensures |r| == |args| && forall i :: 0 <= i < |r| ==> r[i] == args[i].flag
  {
    seq(|args|, i requires 0 <= i < |args| => args[i].flag)
  }

  ghost predicate VllmArgsFit(args: seq<VllmArg>) {
    (forall i :: 0 <= i < |args| ==> ArgFits(args[i])) && Distinct(FlagNames(args))
  }

  ghost predicate Valid(o: Options) {
    && (o.device.Some? ==> IsDeviceName(o.device.value))
    && (o.profile.Some? ==> IsProfileName(o.profile.value))
    && (o.port.Some? ==> o.port.value >= 1024)
    && VllmArgsFit(o.vllmArgs)
  }

  /** The first field, in the order they are checked, that breaks its rule. */
  ghost function FirstBadField(o: Options): string {
    if o.device.Some? && !IsDeviceName(o.device.value) then "device"
    else if o.profile.Some? && !IsProfileName(o.profile.value) then "profile"
    else if o.port.Some? && o.port.value < 1024 then "port"
    else "vllm_args"
  }

  lemma FieldNames()
    ensures |"device"| == 6 && |"profile"| == 7 && |"port"| == 4 && |"vllm_args"| == 9 && |"workflow"| == 8
  {
  }

  method Validate(o: Options) returns (r: Result<(), OptionError>)
    ensures r.Ok? <==> Valid(o)
    ensures r.Err? ==> r.error == OptionError(FirstBadField(o))
    ensures r == Err(OptionError("device")) <==> o.device.Some? && !IsDeviceName(o.device.value)
    ensures r == Err(OptionError("profile")) <==>
              (o.device.Some? ==> IsDeviceName(o.device.value)) && o.profile.Some? && !IsProfileName(o.profile.value)
    ensures r == Err(OptionError("port")) <==>
              && (o.device.Some? ==> IsDeviceName(o.device.value)) && (o.profile.Some? ==> IsProfileName(o.profile.value))
              && o.port.Some? && o.port.value < 1024
    ensures r.Ok? ==> forall i, j :: 0 <= i < j < |o.vllmArgs| ==> o.vllmArgs[i].flag != o.vllmArgs[j].flag
    ensures r.Ok? ==> forall i :: 0 <= i < |o.vllmArgs| ==> ArgFits(o.vllmArgs[i])
    ensures r.Err? ==> || r.error == OptionError("device") || r.error == OptionError("profile") || r.error == OptionError("port")
                       || (exists i, j :: 0 <= i < j < |o.vllmArgs| && o.vllmArgs[i].flag == o.vllmArgs[j].flag)
                       || (exists i :: 0 <= i < |o.vllmArgs| && !ArgFits(o.vllmArgs[i]))
  {
    FieldNames();
    if o.device.Some? && !IsDeviceName(o.device.value) {
      return Err(OptionError("device"));
    }
    if o.profile.Some? && !IsProfileName(o.profile.value) {
      return Err(OptionError("profile"));
    }
    if o.port.Some? && o.port.value < 1024 {
      return Err(OptionError("port"));
    }
    var seen: seq<string> := [];
    for i := 0 to |o.vllmArgs|
      invariant seen == FlagNames(o.vllmArgs)[..i]
      invariant Distinct(seen)
      invariant forall k :: 0 <= k < i ==> ArgFits(o.vllmArgs[k])
    {
      var arg := o.vllmArgs[i];
      var kind := Lookup(VLLM_ALLOWLIST, arg.flag);
      if kind.None? {
        assert !ArgFits(o.vllmArgs[i]);
        return Err(OptionError("vllm_args"));
      }
      if arg.flag in seen {
        RepeatedFlag(FlagNames(o.vllmArgs), i);
        return Err(OptionError("vllm_args"));
      }
      DistinctSnoc(seen, arg.flag);
      seen := seen + [arg.flag];
      if !ValueFits(kind.value, arg.value) {
        assert !ArgFits(o.vllmArgs[i]);
        return Err(OptionError("vllm_args"));
      }
    }
    assert FlagNames(o.vllmArgs)[..|o.vllmArgs|] == FlagNames(o.vllmArgs);
    return Ok(());
  }

  lemma RepeatedFlag(names: seq<string>, i: nat)
    requires i < |names| && names[i] in names[..i]
    ensures !Distinct(names)
  {
    var k :| 0 <= k < i && names[..i][k] == names[i];
    assert names[k] == names[i];
  }

  // ----- printing -----

  function OptionWords(name: string, value: Option<string>): seq<string> {
    match value case Some(v) => [name, v] case None => []
  }

  function PortText(port: Option<u16>): Option<string> {
    match port case Some(p) => Some(Print(p)) case None => None
  }

  function WorkflowText(w: Option<Workflow>): Option<string> {
    match w case Some(w) => Some(WorkflowName(w)) case None => None
  }

  function VllmWords(args: seq<VllmArg>): (r: seq<string>) {
    if args == [] then []
    else OptionWordsOf(args[0]) + VllmWords(args[1..])
  }

  function OptionWordsOf(arg: VllmArg): seq<string> {
    match arg.value case Some(v) => ["--" + arg.flag, v] case None => ["--" + arg.flag]
  }

  function PassThrough(args: seq<VllmArg>): seq<string> {
    if args == [] then [] else ["--"] + VllmWords(args)
  }

  function ServeArgs(o: Options): (r: seq<string>) {
    OptionWords("--device", o.device) + (OptionWords("--port", PortText(o.port))
    + (OptionWords("--profile", o.profile) + ((if o.offline then ["--offline"] else [])
    + (OptionWords("--workflow", WorkflowText(o.workflow)) + PassThrough(o.vllmArgs)))))
  }

  /** The `--` separator and the pass-through flags, when there are any. */
  method PushPassThrough(words: seq<string>, args: seq<VllmArg>) returns (out: seq<string>)
    ensures out == words + PassThrough(args)
  {
    out := words;
    if args == [] {
      return;
    }
    out := out + ["--"];
    for i := 0 to |args|
      invariant out == words + (["--"] + VllmWords(args[..i]))
    {
      var a := args[i];
      VllmWordsPrefix(args, i);
      out := out + ["--" + a.flag];
      if a.value.Some? {
        out := out + [a.value.value];
      }
    }
    assert args[..|args|] == args;
  }

  lemma {:induction false} VllmWordsSnoc(args: seq<VllmArg>, a: VllmArg)
    ensures VllmWords(args + [a]) == VllmWords(args) + OptionWordsOf(a)
  {
    if args == [] {
      assert [a][1..] == [];
    } else {
      assert (args + [a])[1..] == args[1..] + [a];
      VllmWordsSnoc(args[1..], a);
    }
  }

  lemma VllmWordsPrefix(args: seq<VllmArg>, i: nat)
    requires i < |args|
    ensures VllmWords(args[..i + 1]) == VllmWords(args[..i]) + OptionWordsOf(args[i])
  {
    assert args[..i + 1] == args[..i] + [args[i]];
    VllmWordsSnoc(args[..i], args[i]);
  }

  method ToServeArgs(o: Options) returns (out: seq<string>)
    ensures out == ServeArgs(o)
  {
    out := [];
    if o.device.Some? {
      out := out + ["--device", o.device.value];
    }
    ghost var device := OptionWords("--device", o.device);
    assert out == device;
    if o.port.Some? {
      out := out + ["--port", Print(o.port.value)];
    }
    ghost var port := OptionWords("--port", PortText(o.port));
    assert out == device + port;
    if o.profile.Some? {
      out := out + ["--profile", o.profile.value];
    }
    ghost var profile := OptionWords("--profile", o.profile);
    assert out == device + port + profile;
    if o.offline {
      out := out + ["--offline"];
    }
    ghost var offline := if o.offline then ["--offline"] else [];
    assert out == device + port + profile + offline;
    if o.workflow.Some? {
      out := out + ["--workflow", WorkflowName(o.workflow.value)];
    }
    ghost var workflow := OptionWords("--workflow", WorkflowText(o.workflow));
    assert out == device + port + profile + offline + workflow;
    out := PushPassThrough(out, o.vllmArgs);
    Regroup(device, port, profile, offline, workflow, PassThrough(o.vllmArgs));
  }

  lemma Regroup(a: seq<string>, b: seq<string>, c: seq<string>, d: seq<string>, e: seq<string>, f: seq<string>)
    ensures a + b + c + d + e + f == a + (b + (c + (d + (e + f))))
  {
  }

  datatype ServeTarget = Catalog | Bundle

  function DefaultPort(port: u16, o: Options): seq<string> {
    if o.port.None? then ["--port", Print(port)] else []
  }

  method ServeArgv(model: string, defaultPort: u16, o: Options) returns (out: seq<string>)
    ensures out == ["serve", model] + (DefaultPort(defaultPort, o) + ServeArgs(o))
  {
    out := ["serve", model];
    if o.port.None? {
      out := out + ["--port"];
      out := out + [Print(defaultPort)];
    }
    var args := ToServeArgs(o);
    out := out + args;
  }

  /** The field `tt serve` would refuse for this target. */
  function Refused(target: ServeTarget, o: Options): Option<string> {
    match target
    case Catalog =>
      if o.profile.Some? then Some("profile") else if o.vllmArgs != [] then Some("vllm_args") else None
    case Bundle =>
      if o.workflow.Some? && o.workflow.value != Server then Some("workflow") else None
  }

  function Argv(target: ServeTarget, model: string, defaultPort: u16, o: Options): (r: seq<string>) {
    ["serve", model] + ((if target == Bundle then ["--detach"] else []) + (DefaultPort(defaultPort, o) + ServeArgs(o)))
  }

  method ServeArgvFor(target: ServeTarget, model: string, defaultPort: u16, o: Options)
    returns (r: Result<seq<string>, OptionError>)
    ensures r == match Refused(target, o)
                 case Some(field) => Err(OptionError(field))
                 case None => Ok(Argv(target, model, defaultPort, o))
    ensures r == Err(OptionError("profile")) <==> target == Catalog && o.profile.Some?
    ensures r == Err(OptionError("vllm_args")) <==> target == Catalog && o.profile.None? && o.vllmArgs != []
    ensures r == Err(OptionError("workflow")) <==>
              target == Bundle && (o.workflow == Some(Benchmarks) || o.workflow == Some(Evals))
    ensures r.Ok? <==> if target == Catalog then o.profile.None? && o.vllmArgs == []
                       else o.workflow.None? || o.workflow == Some(Server)
  {
    FieldNames();
    match target
    case Catalog =>
      if o.profile.Some? {
        return Err(OptionError("profile"));
      }
      if o.vllmArgs != [] {
        return Err(OptionError("vllm_args"));
      }
      var argv := ServeArgv(model, defaultPort, o);
      assert [] + (DefaultPort(defaultPort, o) + ServeArgs(o)) == DefaultPort(defaultPort, o) + ServeArgs(o);
      return Ok(argv);
    case Bundle =>
      if o.workflow.Some? && o.workflow.value != Server {
        return Err(OptionError("workflow"));
      }
      var argv := ServeArgv(model, defaultPort, o);
      argv := argv[..2] + ["--detach"] + argv[2..];
      assert argv == Argv(target, model, defaultPort, o);
      return Ok(argv);
  }
}
