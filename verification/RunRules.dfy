/** What the checks on a run's options accept, told by the characters, the limits and the flags themselves. */
module RunRules {
  import opened Wrappers
  import opened Text
  import opened Decimal
  import opened RunOptions
  import opened RunSchema

  // ----- names -----

  predicate Among(c: char, others: set<char>) {
    'a' <= c <= 'z' || '0' <= c <= '9' || c in others
  }

  /** A device is 2 to 16 lower-case letters and digits. */
  lemma DeviceNames(s: string)
    ensures IsDeviceName(s) <==> 2 <= |s| <= 16 && forall c :: c in s ==> Among(c, {})
  {
    if forall c :: c in s ==> Among(c, {}) {
      assert forall i :: 0 <= i < |s| ==> s[i] in s;
    }
  }

  /** A profile is up to 64 letters, digits, dots, underscores and dashes, and begins with a letter or a digit. */
  lemma ProfileNames(s: string)
    ensures IsProfileName(s) <==>
              && 1 <= |s| <= 64 && s[0] !in {'.', '_', '-'}
              && forall c :: c in s ==> 'A' <= c <= 'Z' || Among(c, {'.', '_', '-'})
  {
    if s != [] && forall c :: c in s ==> 'A' <= c <= 'Z' || Among(c, {'.', '_', '-'}) {
      assert forall i :: 0 <= i < |s| ==> s[i] in s;
    }
  }

  /** A parser's name is up to 40 lower-case letters, digits, underscores and dashes, and does not begin with the last two. */
  lemma ParserNames(s: string)
    ensures IsToken(s) <==>
              1 <= |s| <= 40 && s[0] !in {'_', '-'} && forall c :: c in s ==> Among(c, {'_', '-'})
  {
    if s != [] && forall c :: c in s ==> Among(c, {'_', '-'}) {
      assert forall i :: 0 <= i < |s| ==> s[i] in s;
    }
  }

  /** A model may also hold slashes, up to 128 characters. */
  lemma ModelNames(s: string)
    ensures IsModelName(s) <==>
              && 1 <= |s| <= 128 && s[0] !in {'.', '_', '/', '-'}
              && forall c :: c in s ==> 'A' <= c <= 'Z' || Among(c, {'.', '_', '/', '-'})
  {
    if s != [] && forall c :: c in s ==> 'A' <= c <= 'Z' || Among(c, {'.', '_', '/', '-'}) {
      assert forall i :: 0 <= i < |s| ==> s[i] in s;
    }
  }

  // ----- pass-through flags -----

  /** A whole number within the limits, written in 1 to 19 digits and nothing else. */
  predicate IsWhole(value: Option<string>, min: nat, max: nat) {
    && value.Some? && 1 <= |value.value| <= 19
    && (forall i :: 0 <= i < |value.value| ==> '0' <= value.value[i] <= '9')
    && min <= Value(value.value) <= max
  }

  lemma WholeNumbers(value: Option<string>, min: nat, max: nat)
    ensures ValueFits(IntKind(min, max), value) <==> IsWhole(value, min, max)
  {
    if value.Some? && value.value != "" && |value.value| <= 19 && AllDigits(value.value) {
      DigitsFit(value.value);
    }
  }

  /** Zeros in front change no number, so they are accepted as long as there are 19 digits in all. */
  lemma {:induction false} LeadingZeros(zeros: nat, s: string)
    requires AllDigits(s)
    ensures AllDigits(Zeros(zeros) + s) && Value(Zeros(zeros) + s) == Value(s)
  {
    var z := Zeros(zeros);
    if s != [] {
      var init := s[..|s| - 1];
      LeadingZeros(zeros, init);
      assert (z + s)[..|z + s| - 1] == z + init;
    } else if zeros > 0 {
      LeadingZeros(zeros - 1, s);
      assert (z + s)[..|z + s| - 1] == Zeros(zeros - 1) + s;
    }
  }

  function Zeros(n: nat): (r: string)
    ensures |r| == n && forall i :: 0 <= i < n ==> r[i] == '0'
  {
    seq(n, i => '0')
  }

  lemma PaddedNumber(zeros: nat, n: nat, min: nat, max: nat)
    ensures ValueFits(IntKind(min, max), Some(Zeros(zeros) + Print(n)))
            <==> zeros + |Print(n)| <= 19 && min <= n <= max
  {
    PrintValue(n);
    LeadingZeros(zeros, Print(n));
    WholeNumbers(Some(Zeros(zeros) + Print(n)), min, max);
  }

  /** The seven flags, each with the values it takes; no other flag is passed through. */
  predicate IsAllowed(a: VllmArg) {
    if a.flag == "max-model-len" || a.flag == "max-num-batched-tokens" then IsWhole(a.value, 1, 1048576)
    else if a.flag == "max-num-seqs" || a.flag == "block-size" then IsWhole(a.value, 1, 1024)
    else if a.flag == "enable-auto-tool-choice" then a.value == None
    else (a.flag == "tool-call-parser" || a.flag == "reasoning-parser") && a.value.Some? && IsToken(a.value.value)
  }

  lemma KindOf(name: string)
    ensures Lookup(VLLM_ALLOWLIST, name)
            == if name == "max-model-len" then Some(IntKind(1, 1048576))
               else if name == "max-num-seqs" then Some(IntKind(1, 1024))
               else if name == "max-num-batched-tokens" then Some(IntKind(1, 1048576))
               else if name == "block-size" then Some(IntKind(1, 1024))
               else if name == "enable-auto-tool-choice" then Some(BoolKind)
               else if name == "tool-call-parser" then Some(TokenKind)
               else if name == "reasoning-parser" then Some(TokenKind)
               else None
  {
    var t := VLLM_ALLOWLIST;
    LookupSteps(t, 4, name);
    LookupSteps(t, 2, name);
    LookupSteps(t, 0, name);
    assert t[6..][1..] == [] && t[0..] == t;
  }

  lemma LookupSteps(table: seq<AllowedFlag>, k: nat, name: string)
    requires k + 2 <= |table|
    ensures Lookup(table[k..], name)
            == if table[k].name == name then Some(table[k].kind)
               else if table[k + 1].name == name then Some(table[k + 1].kind)
               else Lookup(table[k + 2..], name)
  {
    assert table[k..][1..] == table[k + 1..] && table[k + 1..][1..] == table[k + 2..];
  }

  lemma FlagLengths()
    ensures |"max-model-len"| == 13 && |"max-num-seqs"| == 12 && |"max-num-batched-tokens"| == 22
    ensures |"block-size"| == 10 && |"enable-auto-tool-choice"| == 23
  {
  }

  lemma AllowedFlags(a: VllmArg)
    ensures ArgFits(a) <==> IsAllowed(a)
  {
    KindOf(a.flag);
    FlagLengths();
    WholeNumbers(a.value, 1, 1048576);
    WholeNumbers(a.value, 1, 1024);
  }

  // ----- the command line -----

  /** Every option at once, word for word. */
  lemma WholeCommand(model: string, port: u16, d: u16, device: string, profile: string, f: string, v: string, g: string)
    ensures Argv(Bundle, model, d, Options(Some(device), Some(port), Some(profile), true, Some(Server), [VllmArg(f, Some(v)), VllmArg(g, None)]))
            == ["serve", model, "--detach", "--device", device, "--port", Print(port), "--profile", profile, "--offline",
                "--workflow", "server", "--", "--" + f, v, "--" + g]
  {
    TwoArgs(f, v, g);
    assert PortText(Some(port)) == Some(Print(port)) && WorkflowText(Some(Server)) == Some("server");
  }

  lemma TwoArgs(f: string, v: string, g: string)
    ensures PassThrough([VllmArg(f, Some(v)), VllmArg(g, None)]) == ["--", "--" + f, v, "--" + g]
  {
    var args := [VllmArg(f, Some(v)), VllmArg(g, None)];
    assert args[1..] == [VllmArg(g, None)] && args[1..][1..] == [];
    assert VllmWords(args[1..]) == ["--" + g];
  }

  /** No option at all: the agent's own port. */
  lemma BareCommand(model: string, d: u16)
    ensures Argv(Catalog, model, d, Options(None, None, None, false, None, [])) == ["serve", model, "--port", Print(d)]
  {
  }

  // ----- all that is accepted is offered -----

  lemma Offer(options: seq<OptionSpec>, k: nat, t: ServeTarget)
    requires IsSchema(options) && k < |TOP_LEVEL| && TargetName(t) in TOP_LEVEL[k].appliesTo
    ensures Offers(options, TOP_LEVEL[k], TOP_LEVEL[k].name, t)
  {
    assert InSchema(TOP_LEVEL[k]);
  }

  lemma {:induction false} LookupGives(table: seq<AllowedFlag>, name: string) returns (i: nat)
    requires Lookup(table, name).Some?
    ensures i < |table| && table[i] == AllowedFlag(name, Lookup(table, name).value)
  {
    if table[0].name == name {
      i := 0;
    } else {
      var k := LookupGives(table[1..], name);
      i := k + 1;
    }
  }

  /** Written as the form would: a whole number without spare zeros. */
  predicate PlainNumber(a: VllmArg) {
    a.value.Some? && AllDigits(a.value.value) ==> Canonical(a.value.value)
  }

  lemma ArgIsOffered(options: seq<OptionSpec>, a: VllmArg)
    requires IsSchema(options) && ArgFits(a) && PlainNumber(a)
    ensures OffersValue(options, VllmName(a.flag), Bundle, a.value)
  {
    var i := LookupGives(VLLM_ALLOWLIST, a.flag);
    var s := VllmSpec(VLLM_ALLOWLIST[i]);
    assert InSchema(s);
    assert Offers(options, s, VllmName(a.flag), Bundle);
    match VLLM_ALLOWLIST[i].kind
    case IntKind(min, max) =>
      WholeNumbers(a.value, min, max);
      ValuePrint(a.value.value);
      assert min <= Value(a.value.value) <= max;
    case BoolKind =>
    case TokenKind =>
  }

  /** Every accepted option is one the schema offers, when numbers are written without spare zeros. */
  lemma AcceptedIsOffered(options: seq<OptionSpec>, t: ServeTarget, o: Options)
    requires IsSchema(options) && Valid(o) && Refused(t, o) == None
    requires o.workflow.None? || o.workflow == Some(Server)
    requires forall i :: 0 <= i < |o.vllmArgs| ==> PlainNumber(o.vllmArgs[i])
    ensures FromSchema(options, t, o)
  {
    Offer(options, 0, t);
    Offer(options, 1, t);
    Offer(options, 3, t);
    Offer(options, 4, t);
    if t == Bundle {
      Offer(options, 2, t);
      forall i | 0 <= i < |o.vllmArgs|
        ensures OffersValue(options, VllmName(o.vllmArgs[i].flag), t, o.vllmArgs[i].value)
      {
        ArgIsOffered(options, o.vllmArgs[i]);
      }
    }
    if o.port.Some? {
      assert WithinSpec(TOP_LEVEL[1], Some(Print(o.port.value)));
    }
  }
}
