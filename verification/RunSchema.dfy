/** The schema a form is built from, and how far it can be trusted against the check. */
module RunSchema {
  import opened Wrappers
  import opened Seqs
  import opened Text
  import opened Decimal
  import opened RunOptions

  datatype OptionSpec = OptionSpec(
    name: string,
    kind: string,
    min: Option<nat>,
    max: Option<nat>,
    choices: seq<string>,
    appliesTo: seq<string>)

  const BOTH: seq<string> := ["bundle", "catalog"]

  const TOP_LEVEL: seq<OptionSpec> := [
    OptionSpec("device", "string", None, None, [], BOTH),
    OptionSpec("port", "int", Some(1024), Some(65535), [], BOTH),
    OptionSpec("profile", "string", None, None, [], ["bundle"]),
    OptionSpec("offline", "bool", None, None, [], BOTH),
    OptionSpec("workflow", "choice", None, None, [WorkflowName(Server)], BOTH)]

  function VllmName(flag: string): string {
    "vllm:" + flag
  }

  function VllmSpec(f: AllowedFlag): OptionSpec {
    match f.kind
    case IntKind(min, max) => OptionSpec(VllmName(f.name), "int", Some(min), Some(max), [], ["bundle"])
    case BoolKind => OptionSpec(VllmName(f.name), "bool", None, None, [], ["bundle"])
    case TokenKind => OptionSpec(VllmName(f.name), "string", None, None, [], ["bundle"])
  }

  method RunSchema() returns (options: seq<OptionSpec>)
    ensures |options| == |TOP_LEVEL| + |VLLM_ALLOWLIST| && options[..|TOP_LEVEL|] == TOP_LEVEL
    ensures forall i :: 0 <= i < |VLLM_ALLOWLIST| ==> options[|TOP_LEVEL| + i] == VllmSpec(VLLM_ALLOWLIST[i])
    ensures IsSchema(options)
  {
    options := TOP_LEVEL;
    for i := 0 to |VLLM_ALLOWLIST|
      invariant |options| == |TOP_LEVEL| + i && options[..|TOP_LEVEL|] == TOP_LEVEL
      invariant forall k :: 0 <= k < i ==> options[|TOP_LEVEL| + k] == VllmSpec(VLLM_ALLOWLIST[k])
    {
      options := options + [VllmSpec(VLLM_ALLOWLIST[i])];
    }
    forall s
      ensures s in options <==> InSchema(s)
    {
      if s in options {
        var k :| 0 <= k < |options| && options[k] == s;
        if k < |TOP_LEVEL| {
          assert s == options[..|TOP_LEVEL|][k];
        } else {
          assert s == VllmSpec(VLLM_ALLOWLIST[k - |TOP_LEVEL|]);
        }
      }
      if s in TOP_LEVEL {
        var k :| 0 <= k < |TOP_LEVEL| && TOP_LEVEL[k] == s;
        assert options[k] == options[..|TOP_LEVEL|][k] == s;
      }
      if exists i :: 0 <= i < |VLLM_ALLOWLIST| && s == VllmSpec(VLLM_ALLOWLIST[i]) {
        var i :| 0 <= i < |VLLM_ALLOWLIST| && s == VllmSpec(VLLM_ALLOWLIST[i]);
        assert options[|TOP_LEVEL| + i] == s;
      }
    }
  }

  ghost predicate InSchema(s: OptionSpec) {
    s in TOP_LEVEL || exists i :: 0 <= i < |VLLM_ALLOWLIST| && s == VllmSpec(VLLM_ALLOWLIST[i])
  }

  /** The specs are the top-level ones and one for each allowed flag, and no other. */
  ghost predicate IsSchema(options: seq<OptionSpec>) {
    forall s :: s in options <==> InSchema(s)
  }

  // ----- numbers -----

  lemma Nineteen()
    ensures Pow10(MAX_DIGITS) == 10_000_000_000_000_000_000 <= U64_MAX
  {
    assert Pow10(5) == 100_000;
    assert Pow10(10) == 10_000_000_000;
    assert Pow10(15) == 1_000_000_000_000_000;
  }

  /** Nineteen digits never overflow a `u64`, not at any point while they are read. */
  lemma DigitsFit(v: string)
    requires v != "" && |v| <= MAX_DIGITS && AllDigits(v)
    ensures forall k :: 0 <= k <= |v| ==> Value(v[..k]) <= U64_MAX
    ensures Parse(v, U64_MAX) == Some(Value(v))
  {
    ValueBound(v);
    Pow10Grows(|v|, MAX_DIGITS);
    Nineteen();
    assert IsDigit(v[0]);
  }

  lemma Pow10Grows(a: nat, b: nat)
    requires a <= b
    ensures Pow10(a) <= Pow10(b)
  {
  }

  lemma {:induction false} PrintLength(n: nat, k: nat)
    requires k >= 1 && n < Pow10(k)
    ensures |Print(n)| <= k
  {
    if n >= 10 {
      assert k > 1 by {
        assert Pow10(1) == 10;
      }
      PrintLength(n / 10, k - 1);
    }
  }

  /** A number is accepted in decimal exactly when it is in the flag's range. */
  lemma IntFlagRange(min: nat, max: nat, n: nat)
    requires max < Pow10(MAX_DIGITS)
    ensures ValueFits(IntKind(min, max), Some(Print(n))) <==> min <= n <= max
  {
    PrintValue(n);
    ParsePrint(n, U64_MAX);
    if n <= max {
      PrintLength(n, MAX_DIGITS);
      Nineteen();
    }
  }

  // ----- what the schema offers -----

  function TargetName(t: ServeTarget): string {
    match t case Catalog => "catalog" case Bundle => "bundle"
  }

  ghost predicate Offers(options: seq<OptionSpec>, s: OptionSpec, name: string, t: ServeTarget) {
    s in options && s.name == name && TargetName(t) in s.appliesTo
  }

  /** A value of the kind and within the limits the spec shows. */
  ghost predicate WithinSpec(s: OptionSpec, value: Option<string>) {
    || (s.kind == "bool" && value.None?)
    || (s.kind == "string" && value.Some?)
    || (s.kind == "int" && s.min.Some? && s.max.Some?
        && exists n :: s.min.value <= n <= s.max.value && value == Some(Print(n)))
  }

  ghost predicate OffersValue(options: seq<OptionSpec>, name: string, t: ServeTarget, value: Option<string>) {
    exists s :: Offers(options, s, name, t) && WithinSpec(s, value)
  }

  /** Options a form built from the schema can produce for a target. */
  ghost predicate FromSchema(options: seq<OptionSpec>, t: ServeTarget, o: Options) {
    && (o.device.Some? ==> OffersValue(options, "device", t, o.device))
    && (o.port.Some? ==> OffersValue(options, "port", t, Some(Print(o.port.value))))
    && (o.profile.Some? ==> OffersValue(options, "profile", t, o.profile))
    && (o.offline ==> OffersValue(options, "offline", t, None))
    && (o.workflow.Some? ==> exists s ::
          Offers(options, s, "workflow", t) && s.kind == "choice" && WorkflowName(o.workflow.value) in s.choices)
    && (forall i :: 0 <= i < |o.vllmArgs| ==> OffersValue(options, VllmName(o.vllmArgs[i].flag), t, o.vllmArgs[i].value))
  }

  predicate TokenFits(a: VllmArg) {
    Lookup(VLLM_ALLOWLIST, a.flag) == Some(TokenKind) ==> a.value.Some? && IsToken(a.value.value)
  }

  /** What the schema does not show: the shape of free text, and that a flag is given once. */
  ghost predicate TextsFit(o: Options) {
    && (o.device.Some? ==> IsDeviceName(o.device.value))
    && (o.profile.Some? ==> IsProfileName(o.profile.value))
    && (forall i :: 0 <= i < |o.vllmArgs| ==> TokenFits(o.vllmArgs[i]))
    && Distinct(FlagNames(o.vllmArgs))
  }

  lemma TopLevelNames(s: OptionSpec)
    requires s in TOP_LEVEL
    ensures s.name in {"device", "port", "profile", "offline", "workflow"}
    ensures s.name == "profile" ==> s.appliesTo == ["bundle"]
    ensures s.name == "port" ==> s.min == Some(1024) && s.max == Some(65535) && s.kind == "int"
    ensures s.name == "workflow" ==> s.choices == ["server"]
    ensures |s.name| < 5 || s.name[..5] != "vllm:"
  {
    assert "device"[0] != 'v' && "profile"[0] != 'v' && "offline"[0] != 'v' && "workflow"[0] != 'v';
  }

  lemma AllowlistNames()
    ensures forall i, j :: 0 <= i < j < |VLLM_ALLOWLIST| ==> VLLM_ALLOWLIST[i].name != VLLM_ALLOWLIST[j].name
    ensures forall i :: 0 <= i < |VLLM_ALLOWLIST| && VLLM_ALLOWLIST[i].kind.IntKind? ==> VLLM_ALLOWLIST[i].kind.max < Pow10(MAX_DIGITS)
  {
    assert "tool-call-parser"[0] != "reasoning-parser"[0];
    Nineteen();
  }

  lemma {:induction false} LookupFinds(table: seq<AllowedFlag>, i: nat)
    requires i < |table| && forall a, b :: 0 <= a < b < |table| ==> table[a].name != table[b].name
    ensures Lookup(table, table[i].name) == Some(table[i].kind)
    decreases |table|
  {
    if i > 0 {
      LookupFinds(table[1..], i - 1);
    }
  }

  lemma SpecIsTopLevel(s: OptionSpec, name: string)
    requires InSchema(s) && s.name == name && (|name| < 5 || name[..5] != "vllm:")
    ensures s in TOP_LEVEL
  {
    forall i | 0 <= i < |VLLM_ALLOWLIST|
      ensures VllmSpec(VLLM_ALLOWLIST[i]).name != name
    {
      var other := VllmSpec(VLLM_ALLOWLIST[i]).name;
      assert other == "vllm:" + VLLM_ALLOWLIST[i].name;
      assert other[..5] == "vllm:";
    }
  }

  lemma SpecIsVllm(s: OptionSpec, flag: string) returns (i: nat)
    requires InSchema(s) && s.name == VllmName(flag)
    ensures i < |VLLM_ALLOWLIST| && s == VllmSpec(VLLM_ALLOWLIST[i]) && VLLM_ALLOWLIST[i].name == flag
    ensures Lookup(VLLM_ALLOWLIST, flag) == Some(VLLM_ALLOWLIST[i].kind)
  {
    assert s.name[..5] == "vllm:" && s.name[5..] == flag;
    if s in TOP_LEVEL {
      TopLevelNames(s);
    }
    i :| 0 <= i < |VLLM_ALLOWLIST| && s == VllmSpec(VLLM_ALLOWLIST[i]);
    assert s.name[5..] == VLLM_ALLOWLIST[i].name;
    AllowlistNames();
    LookupFinds(VLLM_ALLOWLIST, i);
  }

  lemma OfferedArgFits(options: seq<OptionSpec>, t: ServeTarget, a: VllmArg)
    requires IsSchema(options) && OffersValue(options, VllmName(a.flag), t, a.value)
    ensures t == Bundle && (ArgFits(a) <==> TokenFits(a))
  {
    var s :| Offers(options, s, VllmName(a.flag), t) && WithinSpec(s, a.value);
    var i := SpecIsVllm(s, a.flag);
    assert "bundle" != "catalog";
    AllowlistNames();
    match VLLM_ALLOWLIST[i].kind
    case IntKind(min, max) =>
      var n :| min <= n <= max && a.value == Some(Print(n));
      IntFlagRange(min, max, n);
    case BoolKind =>
    case TokenKind =>
  }

  lemma OfferedTopLevel(options: seq<OptionSpec>, t: ServeTarget, o: Options)
    requires IsSchema(options) && FromSchema(options, t, o)
    ensures o.port.Some? ==> o.port.value >= 1024
    ensures o.workflow.Some? ==> o.workflow.value == Server
    ensures o.profile.Some? ==> t == Bundle
  {
    NotVllm();
    if o.port.Some? {
      var s :| Offers(options, s, "port", t) && WithinSpec(s, Some(Print(o.port.value)));
      SpecIsTopLevel(s, "port");
      TopLevelNames(s);
      var n :| 1024 <= n <= 65535 && Some(Print(o.port.value)) == Some(Print(n));
      PrintValue(n);
      PrintValue(o.port.value);
    }
    if o.workflow.Some? {
      var s :| Offers(options, s, "workflow", t) && WorkflowName(o.workflow.value) in s.choices;
      SpecIsTopLevel(s, "workflow");
      TopLevelNames(s);
      assert |WorkflowName(Benchmarks)| == 10 && |WorkflowName(Evals)| == 5 && |"server"| == 6;
    }
    if o.profile.Some? {
      var s :| Offers(options, s, "profile", t);
      SpecIsTopLevel(s, "profile");
      TopLevelNames(s);
      assert "bundle" != "catalog";
    }
  }

  lemma NotVllm()
    ensures |"port"| < 5 && "workflow"[..5] != "vllm:" && "profile"[..5] != "vllm:"
  {
    assert "workflow"[..5][0] == 'w' && "profile"[..5][0] == 'p';
  }

  /**
   * Options built from what the schema offers for a target are never refused for that target, and
   * they pass the check exactly when their free texts have the right shape and no flag repeats.
   */
  lemma OfferedOptionsServe(options: seq<OptionSpec>, t: ServeTarget, o: Options)
    requires IsSchema(options) && FromSchema(options, t, o)
    ensures Refused(t, o) == None
    ensures Valid(o) <==> TextsFit(o)
  {
    OfferedTopLevel(options, t, o);
    forall i | 0 <= i < |o.vllmArgs|
      ensures t == Bundle && (ArgFits(o.vllmArgs[i]) <==> TokenFits(o.vllmArgs[i]))
    {
      OfferedArgFits(options, t, o.vllmArgs[i]);
    }
    if o.vllmArgs != [] {
      OfferedArgFits(options, t, o.vllmArgs[0]);
    }
  }

  /** The schema asks for a device as free text, and one letter is not a device name. */
  lemma OneLetterDevice(options: seq<OptionSpec>, t: ServeTarget) returns (o: Options)
    requires IsSchema(options)
    ensures o == Options(Some("a"), None, None, false, None, [])
    ensures FromSchema(options, t, o) && Refused(t, o) == None && !Valid(o)
  {
    o := Options(Some("a"), None, None, false, None, []);
    assert Offers(options, TOP_LEVEL[0], "device", t);
  }

  /** Nor does it say that a flag may be given only once. */
  lemma RepeatedFlagOffered(options: seq<OptionSpec>) returns (o: Options)
    requires IsSchema(options)
    ensures var a := VllmArg("enable-auto-tool-choice", None);
            o == Options(None, None, None, false, None, [a, a])
    ensures FromSchema(options, Bundle, o) && Refused(Bundle, o) == None && !Valid(o)
  {
    var a := VllmArg("enable-auto-tool-choice", None);
    o := Options(None, None, None, false, None, [a, a]);
    assert InSchema(VllmSpec(VLLM_ALLOWLIST[4]));
    assert Offers(options, VllmSpec(VLLM_ALLOWLIST[4]), VllmName(a.flag), Bundle);
    assert FlagNames(o.vllmArgs)[0] == FlagNames(o.vllmArgs)[1];
  }
}
