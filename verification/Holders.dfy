/** The `who` text a lease carries, and the two ways the agent recognises its own. */
module Holders {
  import opened Wrappers
  import opened Text
  import opened Decimal

  const WHO_PREFIX := "tt-station:"

  /** The holder a serving backend writes at acquire time. */
  function HolderName(port: nat, model: string): (r: string) {
    OwnPrefix(port) + model
  }

  /** The text that marks a lease as belonging to the agent serving on `port`. */
  function OwnPrefix(port: nat): (r: string) {
    WHO_PREFIX + Print(port) + ":"
  }

  predicate IsStation(who: string) {
    WHO_PREFIX <= who
  }

  /** `split_once(d)`: before and after the first delimiter. */
  function SplitOnce(s: string, d: char): (r: Option<(string, string)>)
    ensures r.Some? ==> s == r.value.0 + [d] + r.value.1 && d !in r.value.0
    ensures r.None? ==> d !in s
  {
    match Find(s, [d])
    case None =>
      assert forall i :: 0 <= i < |s| && s[i] == d ==> At(s, [d], i);
      None
    case Some(i) =>
      assert forall k :: 0 <= k < i && s[k] == d ==> At(s, [d], k);
      Some((s[..i], s[i + 1..]))
  }

  /** The service port and the model out of a holder this agent could have written. */
  function SplitWho(who: string): (r: Option<(nat, string)>) {
    if !IsStation(who) then None
    else
      match SplitOnce(who[|WHO_PREFIX|..], ':')
      case None => None
      case Some((portText, model)) =>
        if model == "" then None
        else
          match Parse(portText, U16_MAX)
          case None => None
          case Some(port) => Some((port, model))
  }

  function ServicePort(who: string): (r: Option<nat>) {
    match SplitWho(who)
    case None => None
    case Some((port, _)) => Some(port)
  }

  /** The text between the prefix and the next colon. */
  function PortText(who: string): (r: string) {
    if !IsStation(who) then ""
    else
      match SplitOnce(who[|WHO_PREFIX|..], ':')
      case None => ""
      case Some((portText, _)) => portText
  }

  lemma FirstDelimiterDecides(a: string, b: string, a': string, b': string, d: char)
    requires a + [d] + b == a' + [d] + b'
    requires d !in a && d !in a'
    ensures a == a' && b == b'
  {
    var s := a + [d] + b;
    assert s[|a|] == d && s[|a'|] == d;
    assert forall i :: 0 <= i < |a| ==> s[i] == a[i] && a[i] in a;
    assert forall i :: 0 <= i < |a'| ==> s[i] == a'[i] && a'[i] in a';
    assert |a| == |a'|;
    assert a == s[..|a|] == a' && b == s[|a| + 1..] == b';
  }

  lemma PrintedPortHasNoColon(port: nat)
    ensures ':' !in Print(port)
  {
    ParsePrint(port, port);
  }

  /** What follows the prefix of a written holder splits back into its port text and model. */
  lemma WhoSplits(port: nat, model: string)
    ensures IsStation(HolderName(port, model))
    ensures SplitOnce(HolderName(port, model)[|WHO_PREFIX|..], ':') == Some((Print(port), model))
  {
    PrintedPortHasNoColon(port);
    var rest := HolderName(port, model)[|WHO_PREFIX|..];
    assert HolderName(port, model) == WHO_PREFIX + (Print(port) + [':'] + model);
    assert rest == Print(port) + [':'] + model;
    assert rest[|Print(port)|] == ':';
    var split := SplitOnce(rest, ':');
    FirstDelimiterDecides(split.value.0, split.value.1, Print(port), model, ':');
  }

  /** A written holder parses back to its port and model, whatever colons the model holds. */
  lemma WhoRoundTrip(port: nat, model: string)
    requires port <= U16_MAX
    ensures SplitWho(HolderName(port, model)) == if model == "" then None else Some((port, model))
  {
    WhoSplits(port, model);
    ParsePrint(port, U16_MAX);
  }

  /** A holder written for port `q` starts with the own-prefix of `p` only when they are one port. */
  lemma OwnPrefixIdentifies(p: nat, q: nat, model: string)
    ensures OwnPrefix(p) <= HolderName(q, model) <==> p == q
  {
    if OwnPrefix(p) <= HolderName(q, model) {
      var tail := HolderName(q, model)[|OwnPrefix(p)|..];
      assert HolderName(q, model) == HolderName(p, tail);
      WhoSplits(p, tail);
      WhoSplits(q, model);
      PrintValue(p);
      PrintValue(q);
    }
  }

  lemma PrefixSplits(who: string, p: nat) returns (tail: string)
    requires OwnPrefix(p) <= who
    ensures who == HolderName(p, tail) && PortText(who) == Print(p)
  {
    tail := who[|OwnPrefix(p)|..];
    assert who == HolderName(p, tail);
    WhoSplits(p, tail);
  }

  /** A holder that parses is its prefix, its port text, a colon and its model. */
  lemma ParsedHolder(who: string) returns (model: string)
    requires SplitWho(who).Some?
    ensures Parse(PortText(who), U16_MAX) == Some(SplitWho(who).value.0)
    ensures who == WHO_PREFIX + PortText(who) + ":" + model && model != ""
  {
    var rest := who[|WHO_PREFIX|..];
    var (text, after) := SplitOnce(rest, ':').value;
    model := after;
    assert rest == text + [':'] + model;
    assert who == WHO_PREFIX + rest;
  }

  /**
   * The reset guard compares text and the sweep parses a port. The guard takes a holder for the
   * agent's own exactly when the sweep does and the port is spelled the way it is printed, or when
   * nothing at all follows the prefix.
   */
  lemma GuardMeaning(who: string, p: nat)
    requires p <= U16_MAX
    ensures OwnPrefix(p) <= who <==> who == OwnPrefix(p) || (ServicePort(who) == Some(p) && Canonical(PortText(who)))
    ensures ServicePort(OwnPrefix(p)) == None
  {
    assert HolderName(p, "") == OwnPrefix(p);
    WhoRoundTrip(p, "");
    if OwnPrefix(p) <= who {
      var tail := PrefixSplits(who, p);
      WhoRoundTrip(p, tail);
      PrintValue(p);
      assert tail == "" ==> who == OwnPrefix(p);
    }
    if ServicePort(who) == Some(p) && Canonical(PortText(who)) {
      var model := ParsedHolder(who);
      PrintParse(PortText(who), U16_MAX);
      assert who == OwnPrefix(p) + model;
    }
  }

  /** For which holders the guard and the sweep agree about the port `p`. */
  lemma GuardAndSweepAgree(who: string, p: nat)
    requires p <= U16_MAX
    ensures (OwnPrefix(p) <= who <==> ServicePort(who) == Some(p))
            <==> who != OwnPrefix(p) && (ServicePort(who) == Some(p) ==> Canonical(PortText(who)))
  {
    GuardMeaning(who, p);
  }

  /** A signed spelling is the agent's own port to the sweep and a stranger to the reset guard. */
  lemma SignedPortDivides()
    ensures SplitWho("tt-station:+8080:m") == Some((8080, "m"))
    ensures !(OwnPrefix(8080) <= "tt-station:+8080:m")
  {
    var who := "tt-station:+8080:m";
    SignedSplits();
    EightyEighty();
    assert PortText(who) == "+8080";
    GuardMeaning(who, 8080);
  }

  lemma SignedSplits()
    ensures SplitOnce("tt-station:+8080:m"[|WHO_PREFIX|..], ':') == Some(("+8080", "m"))
    ensures IsStation("tt-station:+8080:m")
  {
    var rest := "+8080:m";
    assert "tt-station:+8080:m" == WHO_PREFIX + rest;
    assert rest == "+8080" + [':'] + "m";
    assert rest[5] == ':';
    var split := SplitOnce(rest, ':').value;
    FirstDelimiterDecides(split.0, split.1, "+8080", "m", ':');
  }

  /** Without a model the reset guard takes the holder for its own and the sweep cannot read a port. */
  lemma EmptyModelDivides(p: nat)
    requires p <= U16_MAX
    ensures OwnPrefix(p) <= HolderName(p, "") && IsStation(HolderName(p, "")) && ServicePort(HolderName(p, "")) == None
  {
    WhoRoundTrip(p, "");
    WhoSplits(p, "");
  }

  lemma EightyEighty()
    ensures Parse("+8080", U16_MAX) == Some(8080)
  {
    var d := "8080";
    assert "+8080"[1..] == d;
    assert d[..3] == "808" && d[..3][..2] == "80" && d[..3][..2][..1] == "8" && d[..3][..2][..1][..0] == "";
    assert Value("") == 0 && Value("8") == 8 && Value("80") == 80 && Value("808") == 808 && Value(d) == 8080;
  }
}
