/** Masking secret shapes in a log line: `hf_` and `sk-` tokens, then the first bearer token. */
module Redaction {
  import opened Wrappers
  import opened Text

  const HF := "hf_"
  const SK := "sk-"
  const BEARER := "Bearer "
  const STARS := "***"
  const MIN_TOKEN := 20
  const MIN_BEARER := 8

  /** `take_while(ok).count()`. */
  function RunLength(s: string, ok: char -> bool): (r: nat)
    ensures r <= |s|
    ensures forall k :: 0 <= k < r ==> ok(s[k])
    ensures r < |s| ==> !ok(s[r])
  {
    if s != [] && ok(s[0]) then 1 + RunLength(s[1..], ok) else 0
  }

  /** `s` with every token of `min` or more alphanumerics after `prefix` replaced by stars. */
  function Masked(s: string, prefix: string, min: nat): (r: string)
    requires prefix != ""
    decreases |s|, 0
  {
    match Find(s, prefix)
    case None => s
    case Some(pos) => s[..pos + |prefix|] + MaskedAfter(s[pos + |prefix|..], prefix, min)
  }

  /** The same for a text that stands just after an occurrence of `prefix`. */
  function MaskedAfter(after: string, prefix: string, min: nat): (r: string)
    requires prefix != ""
    decreases |after|, 1
  {
    var run := RunLength(after, IsAlnum);
    if run >= min then STARS + Masked(after[run..], prefix, min) else Masked(after, prefix, min)
  }

  lemma HeadAtMarker(s: string, p: string, pos: nat)
    requires At(s, p, pos)
    ensures s[..pos + |p|] == s[..pos] + p
  {
  }

  lemma Regroup(a: string, b: string, c: string, d: string)
    ensures a + b + c + d == a + (b + c + d)
  {
  }

  lemma MaskedUnfolds(s: string, p: string, n: nat, pos: nat, head: string, after: string)
    requires p != "" && Find(s, p) == Some(pos) && head == s[..pos + |p|] && after == s[pos + |p|..]
    ensures Masked(s, p, n) == head + MaskedAfter(after, p, n)
  {
  }

  /** One step of the scan, at the first occurrence. */
  lemma MaskedStep(s: string, p: string, n: nat, pos: nat, after: string)
    requires p != "" && Find(s, p) == Some(pos) && after == s[pos + |p|..]
    ensures var run := RunLength(after, IsAlnum);
            Masked(s, p, n) == s[..pos] + p + if run >= n then STARS + Masked(after[run..], p, n) else Masked(after, p, n)
  {
    HeadAtMarker(s, p, pos);
    MaskedUnfolds(s, p, n, pos, s[..pos] + p, after);
  }

  /** The same with what the scan has already written in front. */
  lemma ScanStep(done: string, s: string, p: string, n: nat, pos: nat, after: string)
    requires p != "" && Find(s, p) == Some(pos) && after == s[pos + |p|..]
    ensures var run := RunLength(after, IsAlnum);
            done + Masked(s, p, n)
            == done + s[..pos] + p + if run >= n then STARS + Masked(after[run..], p, n) else Masked(after, p, n)
  {
    var run := RunLength(after, IsAlnum);
    MaskedStep(s, p, n, pos, after);
    Regroup(done, s[..pos], p, if run >= n then STARS + Masked(after[run..], p, n) else Masked(after, p, n));
  }

  method MaskPrefixed(s: string, prefix: string, min: nat) returns (result: string)
    requires prefix != ""
    ensures result == Masked(s, prefix, min)
  {
    result := "";
    var rest := s;
    while Find(rest, prefix).Some?
      invariant result + Masked(rest, prefix, min) == Masked(s, prefix, min)
      decreases |rest|
    {
      var pos := Find(rest, prefix).value;
      var after := rest[pos + |prefix|..];
      var run := RunLength(after, IsAlnum);
      ScanStep(result, rest, prefix, min, pos, after);
      ghost var head := result + rest[..pos] + prefix;
      if run >= min {
        Reassociate(head, STARS, Masked(after[run..], prefix, min));
        result := result + rest[..pos] + prefix + STARS;
        rest := after[run..];
      } else {
        result := result + rest[..pos] + prefix;
        rest := after;
      }
    }
    result := result + rest;
  }

  predicate IsBearerChar(c: char) {
    IsAlnum(c) || c == '.' || c == '-' || c == '_'
  }

  function BearerLength(s: string, pos: nat): nat
    requires At(s, BEARER, pos)
  {
    RunLength(s[pos + |BEARER|..], IsBearerChar)
  }

  /** `s` with a long enough token after its first bearer marker replaced by stars. */
  function MaskBearer(s: string): (r: string) {
    match Find(s, BEARER)
    case None => s
    case Some(pos) =>
      var after := s[pos + |BEARER|..];
      var run := BearerLength(s, pos);
      if run >= MIN_BEARER then s[..pos] + BEARER + STARS + after[run..] else s
  }

  function Redact(line: string): (r: string) {
    MaskBearer(Masked(Masked(line, HF, MIN_TOKEN), SK, MIN_TOKEN))
  }

  method RedactLine(line: string) returns (out: string)
    ensures out == Redact(line)
    ensures out == MaskBearer(Masked(Masked(line, "hf_", 20), "sk-", 20))
  {
    out := MaskPrefixed(line, HF, MIN_TOKEN);
    out := MaskPrefixed(out, SK, MIN_TOKEN);
    out := MaskBearer(out);
  }

  // ----- secrets -----

  /** Alphanumerics and then one other character, as both token prefixes are. */
  predicate Marker(p: string) {
    && p != "" && !IsAlnum(p[|p| - 1]) && p[|p| - 1] != '*'
    && forall i :: 0 <= i < |p| - 1 ==> IsAlnum(p[i])
  }

  predicate SecretAt(s: string, p: string, n: nat, i: int) {
    && At(s, p, i) && i + |p| + n <= |s|
    && forall k :: i + |p| <= k < i + |p| + n ==> IsAlnum(s[k])
  }

  /** No `p` in `s` is followed by `n` alphanumerics. */
  ghost predicate Clean(s: string, p: string, n: nat) {
    forall i :: !SecretAt(s, p, n, i)
  }

  lemma SecretChars(s: string, p: string, n: nat, i: int, k: int)
    requires Marker(p) && SecretAt(s, p, n, i) && i <= k < i + |p| + n
    ensures IsAlnum(s[k]) || s[k] == p[|p| - 1]
    ensures k < i + |p| ==> s[k] == p[k - i]
  {
    if k < i + |p| {
      assert s[i + (k - i)] == p[k - i];
    }
  }

  lemma SecretInTail(head: string, tail: string, p: string, n: nat, i: int)
    requires i >= |head|
    ensures SecretAt(head + tail, p, n, i) <==> SecretAt(tail, p, n, i - |head|)
  {
    var t, j := head + tail, i - |head|;
    assert forall k :: 0 <= k < |tail| ==> tail[k] == t[|head| + k];
    assert i + |p| <= |t| ==> forall k :: 0 <= k < |p| ==> (t[i + k] == p[k] <==> tail[j + k] == p[k]);
    if SecretAt(t, p, n, i) {
      assert forall k :: j + |p| <= k < j + |p| + n ==> tail[k] == t[|head| + k];
    }
  }

  lemma SecretInHead(head: string, tail: string, p: string, n: nat, i: int)
    requires i + |p| + n <= |head|
    ensures SecretAt(head + tail, p, n, i) <==> SecretAt(head, p, n, i)
  {
    var t := head + tail;
    assert forall k :: 0 <= k < |head| ==> t[k] == head[k];
  }

  lemma CleanPart(s: string, p: string, n: nat, a: nat, b: nat)
    requires Clean(s, p, n) && a <= b <= |s|
    ensures Clean(s[a..b], p, n)
  {
    var part := s[a..b];
    assert s == s[..a] + (part + s[b..]);
    forall i
      ensures !SecretAt(part, p, n, i)
    {
      if SecretAt(part, p, n, i) {
        SecretInHead(part, s[b..], p, n, i);
        SecretInTail(s[..a], part + s[b..], p, n, a + i);
      }
    }
  }

  /** No secret can span a character that is neither alphanumeric nor the marker's last. */
  lemma CleanGlue(a: string, c: char, b: string, p: string, n: nat)
    requires Marker(p) && !IsAlnum(c) && c != p[|p| - 1]
    requires Clean(a, p, n) && Clean(b, p, n)
    ensures Clean(a + [c] + b, p, n)
  {
    var t, j := a + [c] + b, |a|;
    forall i
      ensures !SecretAt(t, p, n, i)
    {
      if SecretAt(t, p, n, i) {
        assert t[j] == c;
        if i <= j < i + |p| + n {
          SecretChars(t, p, n, i, j);
        } else if j < i {
          SecretInTail(a + [c], b, p, n, i);
        } else {
          assert t == a + ([c] + b);
          SecretInHead(a, [c] + b, p, n, i);
        }
      }
    }
  }

  lemma CleanStars(b: string, p: string, n: nat)
    requires Marker(p) && Clean(b, p, n)
    ensures Clean(STARS + b, p, n)
  {
    assert Clean("", p, n);
    CleanGlue("", '*', b, p, n);
    CleanGlue("", '*', "" + ['*'] + b, p, n);
    CleanGlue("", '*', "" + ['*'] + ("" + ['*'] + b), p, n);
    assert STARS + b == "" + ['*'] + ("" + ['*'] + ("" + ['*'] + b));
  }

  // ----- one pass -----

  lemma MarkerEnd(s: string, p: string, i: nat)
    requires p != "" && At(s, p, i)
    ensures s[i + |p| - 1] == p[|p| - 1]
  {
    assert s[i + (|p| - 1)] == p[|p| - 1];
  }

  predicate StartsLong(s: string, n: nat) {
    n <= |s| && forall k :: 0 <= k < n ==> IsAlnum(s[k])
  }

  /** No long token stands right after an occurrence once it has been treated. */
  lemma AfterHasNoToken(after: string, p: string, n: nat)
    requires Marker(p) && n > 0
    ensures !StartsLong(MaskedAfter(after, p, n), n)
  {
    var run := RunLength(after, IsAlnum);
    if run >= n {
      assert MaskedAfter(after, p, n)[0] == '*';
    } else {
      assert MaskedAfter(after, p, n) == Masked(after, p, n);
      MaskedKeepsRun(after, p, n, run);
    }
  }

  /** A pass keeps a short leading run and the character that ends it. */
  lemma MaskedKeepsRun(s: string, p: string, n: nat, run: nat)
    requires Marker(p) && run == RunLength(s, IsAlnum)
    ensures |Masked(s, p, n)| >= run && (|s| == run ==> Masked(s, p, n) == s)
    ensures run < |s| ==> run < |Masked(s, p, n)| && !IsAlnum(Masked(s, p, n)[run])
  {
    if Find(s, p).Some? {
      var edge := Find(s, p).value + |p|;
      MarkerEnd(s, p, edge - |p|);
      assert !IsAlnum(s[edge - 1]);
      assert run < edge;
      MaskedHead(s, p, n, edge);
    }
  }

  lemma MaskedHead(s: string, p: string, n: nat, edge: nat)
    requires p != "" && Find(s, p).Some? && edge == Find(s, p).value + |p|
    ensures |Masked(s, p, n)| >= edge && Masked(s, p, n)[..edge] == s[..edge]
  {
    assert Masked(s, p, n) == s[..edge] + MaskedAfter(s[edge..], p, n);
  }

  lemma FindIs(s: string, p: string, pos: nat)
    requires At(s, p, pos) && forall i :: 0 <= i < pos ==> !At(s, p, i)
    ensures Find(s, p) == Some(pos)
  {
    assert Find(s, p).Some?;
  }

  lemma FirstOccurrenceStays(s: string, o: string, p: string, pos: nat)
    requires Find(s, p) == Some(pos) && pos + |p| <= |o| && o[..pos + |p|] == s[..pos + |p|]
    ensures At(o, p, pos) && forall i :: 0 <= i < pos ==> !At(o, p, i)
  {
    forall i | 0 <= i <= pos
      ensures At(o, p, i) == At(s, p, i)
    {
      OccurrenceStays(s, o, p, pos + |p|, i);
    }
  }

  lemma OccurrenceStays(s: string, o: string, p: string, edge: nat, i: nat)
    requires edge <= |s| && edge <= |o| && o[..edge] == s[..edge] && i + |p| <= edge
    ensures At(o, p, i) == At(s, p, i)
  {
    assert forall k :: 0 <= k < edge ==> o[k] == o[..edge][k] == s[..edge][k] == s[k];
  }

  /** A pass leaves none of its own secrets. */
  lemma {:induction false} MaskedIsClean(s: string, p: string, n: nat)
    requires Marker(p) && n > 0
    ensures Clean(Masked(s, p, n), p, n)
    decreases |s|, 0
  {
    if Find(s, p).Some? {
      var pos := Find(s, p).value;
      var after := s[pos + |p|..];
      MaskedAfterIsClean(after, p, n);
      AfterHasNoToken(after, p, n);
      var o := Masked(s, p, n);
      assert o[..pos + |p|] == s[..pos + |p|];
      FirstOccurrenceStays(s, o, p, pos);
      assert o == o[..pos + |p|] + MaskedAfter(after, p, n);
      CleanFromFirst(o, p, n, pos, MaskedAfter(after, p, n));
    }
  }

  lemma {:induction false} MaskedAfterIsClean(after: string, p: string, n: nat)
    requires Marker(p) && n > 0
    ensures Clean(MaskedAfter(after, p, n), p, n)
    decreases |after|, 1
  {
    var run := RunLength(after, IsAlnum);
    if run >= n {
      MaskedIsClean(after[run..], p, n);
      CleanStars(Masked(after[run..], p, n), p, n);
    } else {
      MaskedIsClean(after, p, n);
    }
  }

  /** Where the first occurrence has no long token and the rest is clean, everything is clean. */
  lemma CleanFromFirst(o: string, p: string, n: nat, pos: nat, rest: string)
    requires Marker(p) && At(o, p, pos) && forall i :: 0 <= i < pos ==> !At(o, p, i)
    requires o == o[..pos + |p|] + rest && Clean(rest, p, n)
    requires !StartsLong(rest, n)
    ensures Clean(o, p, n)
  {
    var edge := pos + |p|;
    MarkerEnd(o, p, pos);
    assert forall k :: 0 <= k < |rest| ==> rest[k] == o[edge + k];
    forall i
      ensures !SecretAt(o, p, n, i)
    {
      if SecretAt(o, p, n, i) {
        if i >= edge {
          SecretInTail(o[..edge], rest, p, n, i);
        } else if i > pos {
          SecretChars(o, p, n, i, edge - 1);
        }
      }
    }
  }

  /** A pass for another marker creates no secret of this one. */
  lemma {:induction false} MaskedStaysClean(s: string, q: string, m: nat, p: string, n: nat)
    requires Marker(p) && Marker(q) && p[|p| - 1] != q[|q| - 1]
    requires Clean(s, p, n)
    ensures Clean(Masked(s, q, m), p, n)
    decreases |s|, 0
  {
    if Find(s, q).Some? {
      var edge := Find(s, q).value + |q|;
      CleanPart(s, p, n, 0, edge - 1);
      CleanPart(s, p, n, edge, |s|);
      assert s[edge..|s|] == s[edge..];
      MaskedAfterStaysClean(s[edge..], q, m, p, n);
      CleanGlue(s[..edge - 1], q[|q| - 1], MaskedAfter(s[edge..], q, m), p, n);
      assert s[edge - 1] == s[edge - |q|..edge][|q| - 1];
      assert s[..edge] == s[..edge - 1] + [q[|q| - 1]];
    }
  }

  lemma {:induction false} MaskedAfterStaysClean(after: string, q: string, m: nat, p: string, n: nat)
    requires Marker(p) && Marker(q) && p[|p| - 1] != q[|q| - 1]
    requires Clean(after, p, n)
    ensures Clean(MaskedAfter(after, q, m), p, n)
    decreases |after|, 1
  {
    var run := RunLength(after, IsAlnum);
    if run >= m {
      CleanPart(after, p, n, run, |after|);
      assert after[run..|after|] == after[run..];
      MaskedStaysClean(after[run..], q, m, p, n);
      CleanStars(Masked(after[run..], q, m), p, n);
    } else {
      MaskedStaysClean(after, q, m, p, n);
    }
  }

  /** A pass changes a text exactly when it holds a secret. */
  lemma {:induction false} MaskedFixed(s: string, p: string, n: nat)
    requires Marker(p) && n > 0
    ensures Masked(s, p, n) == s <==> Clean(s, p, n)
    decreases |s|
  {
    MaskedIsClean(s, p, n);
    if Clean(s, p, n) && Find(s, p).Some? {
      var pos := Find(s, p).value;
      var edge := pos + |p|;
      var after := s[edge..];
      var run := RunLength(after, IsAlnum);
      assert forall k :: 0 <= k < run ==> after[k] == s[edge + k];
      assert run >= n ==> SecretAt(s, p, n, pos);
      CleanPart(s, p, n, edge, |s|);
      assert s[edge..|s|] == after;
      MaskedFixed(after, p, n);
      assert s == s[..edge] + after;
    }
  }

  /** The pieces with the marker and one filler between each two. */
  ghost function Weave(pieces: seq<string>, p: string, fillers: seq<string>): string
    requires |pieces| == |fillers| + 1
  {
    if fillers == [] then pieces[0] else pieces[0] + p + fillers[0] + Weave(pieces[1..], p, fillers[1..])
  }

  ghost function Stars(count: nat): seq<string> {
    if count == 0 then [] else [STARS] + Stars(count - 1)
  }

  /** Every filler is a whole run of at least `n` alphanumerics: the text after it starts with none. */
  ghost predicate LongTokens(pieces: seq<string>, p: string, tokens: seq<string>, n: nat)
    requires |pieces| == |tokens| + 1
  {
    tokens != [] ==>
      var next := Weave(pieces[1..], p, tokens[1..]);
      && |tokens[0]| >= n && (forall k :: 0 <= k < |tokens[0]| ==> IsAlnum(tokens[0][k]))
      && (next != "" ==> !IsAlnum(next[0]))
      && LongTokens(pieces[1..], p, tokens[1..], n)
  }

  /** `o` is `s` with each of those fillers turned into stars and everything else kept. */
  ghost predicate Hides(s: string, o: string, p: string, n: nat, pieces: seq<string>, tokens: seq<string>) {
    && |pieces| == |tokens| + 1 == |Stars(|tokens|)| + 1
    && LongTokens(pieces, p, tokens, n)
    && s == Weave(pieces, p, tokens)
    && o == Weave(pieces, p, Stars(|tokens|))
  }

  lemma HideOne(head: string, token: string, s: string, o: string, p: string, n: nat, pieces: seq<string>, tokens: seq<string>,
                whole: string, hidden: string)
    requires Hides(s, o, p, n, pieces, tokens)
    requires |token| >= n && (forall k :: 0 <= k < |token| ==> IsAlnum(token[k])) && (s != "" ==> !IsAlnum(s[0]))
    requires whole == head + p + token + s && hidden == head + p + STARS + o
    ensures Hides(whole, hidden, p, n, [head] + pieces, [token] + tokens)
  {
    assert ([head] + pieces)[1..] == pieces && ([token] + tokens)[1..] == tokens;
    assert Stars(|tokens| + 1)[1..] == Stars(|tokens|);
  }

  lemma HideLater(head: string, s: string, o: string, p: string, n: nat, pieces: seq<string>, tokens: seq<string>,
                  whole: string, hidden: string)
    requires Hides(s, o, p, n, pieces, tokens)
    requires whole == head + s && hidden == head + o
    ensures Hides(whole, hidden, p, n, [head + pieces[0]] + pieces[1..], tokens)
  {
    WeavePrefix(head, pieces, p, tokens);
    WeavePrefix(head, pieces, p, Stars(|tokens|));
    assert ([head + pieces[0]] + pieces[1..])[1..] == pieces[1..];
  }

  lemma Reassemble(s: string, p: string, pos: nat, run: nat)
    requires At(s, p, pos) && run <= |s| - pos - |p|
    ensures var after := s[pos + |p|..]; s == s[..pos] + p + after[..run] + after[run..]
  {
    var after := s[pos + |p|..];
    assert after == after[..run] + after[run..];
    assert s == s[..pos] + s[pos..pos + |p|] + after;
  }

  lemma LongTokenParts(s: string, p: string, n: nat, pos: nat, after: string)
    requires p != "" && Find(s, p) == Some(pos) && after == s[pos + |p|..] && RunLength(after, IsAlnum) >= n
    ensures Masked(s, p, n) == s[..pos] + p + STARS + Masked(after[RunLength(after, IsAlnum)..], p, n)
  {
    MaskedStep(s, p, n, pos, after);
    var m := Masked(after[RunLength(after, IsAlnum)..], p, n);
    assert s[..pos] + p + (STARS + m) == s[..pos] + p + STARS + m;
  }

  lemma ShortTokenParts(s: string, p: string, n: nat, pos: nat, after: string)
    requires p != "" && Find(s, p) == Some(pos) && after == s[pos + |p|..] && RunLength(after, IsAlnum) < n
    ensures s == s[..pos + |p|] + after && Masked(s, p, n) == s[..pos + |p|] + Masked(after, p, n)
  {
    assert MaskedAfter(after, p, n) == Masked(after, p, n);
  }

  /** A pass keeps all of the text but the whole long tokens after a marker, each of which becomes stars. */
  lemma {:induction false} MaskedHidesOnlyTokens(s: string, p: string, n: nat)
    returns (pieces: seq<string>, tokens: seq<string>)
    requires p != ""
    ensures Hides(s, Masked(s, p, n), p, n, pieces, tokens)
    decreases |s|
  {
    if Find(s, p).None? {
      return [s], [];
    }
    var pos := Find(s, p).value;
    var after := s[pos + |p|..];
    var run := RunLength(after, IsAlnum);
    if run >= n {
      var ps, ts := MaskedHidesOnlyTokens(after[run..], p, n);
      pieces, tokens := [s[..pos]] + ps, [after[..run]] + ts;
      assert Hides(s, Masked(s, p, n), p, n, pieces, tokens) by {
        Reassemble(s, p, pos, run);
        LongTokenParts(s, p, n, pos, after);
        HideOne(s[..pos], after[..run], after[run..], Masked(after[run..], p, n), p, n, ps, ts, s, Masked(s, p, n));
      }
    } else {
      var ps, ts := MaskedHidesOnlyTokens(after, p, n);
      pieces, tokens := [s[..pos + |p|] + ps[0]] + ps[1..], ts;
      assert Hides(s, Masked(s, p, n), p, n, pieces, tokens) by {
        ShortTokenParts(s, p, n, pos, after);
        HideLater(s[..pos + |p|], after, Masked(after, p, n), p, n, ps, ts, s, Masked(s, p, n));
      }
    }
  }

  lemma WeavePrefix(head: string, pieces: seq<string>, p: string, fillers: seq<string>)
    requires |pieces| == |fillers| + 1
    ensures Weave([head + pieces[0]] + pieces[1..], p, fillers) == head + Weave(pieces, p, fillers)
  {
    if fillers != [] {
      assert ([head + pieces[0]] + pieces[1..])[1..] == pieces[1..];
      var tail := Weave(pieces[1..], p, fillers[1..]);
      assert head + pieces[0] + p + fillers[0] + tail == head + (pieces[0] + p + fillers[0] + tail);
    }
  }

  // ----- the bearer pass -----

  /** The first marker is not followed by a long token. */
  predicate FirstBearerShort(s: string) {
    match Find(s, BEARER)
    case None => true
    case Some(pos) => BearerLength(s, pos) < MIN_BEARER
  }

  lemma BearerMasked(s: string)
    ensures FirstBearerShort(MaskBearer(s))
    ensures MaskBearer(s) == s <==> FirstBearerShort(s)
  {
    if !FirstBearerShort(s) {
      LongBearerMasked(s, Find(s, BEARER).value);
    }
  }

  lemma LongBearerMasked(s: string, pos: nat)
    requires Find(s, BEARER) == Some(pos) && BearerLength(s, pos) >= MIN_BEARER
    ensures Find(MaskBearer(s), BEARER) == Some(pos) && BearerLength(MaskBearer(s), pos) == 0
  {
    var o, edge := MaskBearer(s), pos + |BEARER|;
    var tail := s[edge..][BearerLength(s, pos)..];
    assert s[..pos] + BEARER == s[..edge];
    assert o == s[..edge] + (STARS + tail);
    FirstOccurrenceStays(s, o, BEARER, pos);
    FindIs(o, BEARER, pos);
    assert o[edge..] == STARS + tail;
  }

  lemma BearerStaysClean(s: string, p: string, n: nat)
    requires Marker(p) && p[|p| - 1] != ' ' && Clean(s, p, n)
    ensures Clean(MaskBearer(s), p, n)
  {
    if !FirstBearerShort(s) {
      LongBearerStaysClean(s, Find(s, BEARER).value, p, n);
    }
  }

  lemma CutAndPaste(s: string, pos: nat, marker: string, run: nat, stars: string)
    requires marker != "" && At(s, marker, pos) && pos + |marker| + run <= |s|
    ensures var edge := pos + |marker|;
            s[..pos] + marker + stars + s[edge..][run..]
            == s[0..edge - 1] + [marker[|marker| - 1]] + (stars + s[edge + run..|s|])
  {
    var edge := pos + |marker|;
    MarkerEnd(s, marker, pos);
    assert s[pos..edge] == marker;
    assert s[..pos] + marker == s[0..edge - 1] + [marker[|marker| - 1]];
    assert s[edge..][run..] == s[edge + run..|s|];
  }

  lemma MaskBearerIs(s: string, pos: nat)
    requires Find(s, BEARER) == Some(pos) && BearerLength(s, pos) >= MIN_BEARER
    ensures MaskBearer(s) == s[..pos] + BEARER + STARS + s[pos + |BEARER|..][BearerLength(s, pos)..]
    ensures BEARER[|BEARER| - 1] == ' '
  {
  }

  lemma MaskedBearerParts(s: string, pos: nat, cut: nat)
    requires Find(s, BEARER) == Some(pos) && BearerLength(s, pos) >= MIN_BEARER
    requires cut == pos + |BEARER| + BearerLength(s, pos)
    ensures cut <= |s|
    ensures MaskBearer(s) == s[0..pos + |BEARER| - 1] + [' '] + (STARS + s[cut..|s|])
  {
    MaskBearerIs(s, pos);
    CutAndPaste(s, pos, BEARER, BearerLength(s, pos), STARS);
  }

  lemma LongBearerStaysClean(s: string, pos: nat, p: string, n: nat)
    requires Marker(p) && p[|p| - 1] != ' ' && Clean(s, p, n)
    requires Find(s, BEARER) == Some(pos) && BearerLength(s, pos) >= MIN_BEARER
    ensures Clean(MaskBearer(s), p, n)
  {
    var edge := pos + |BEARER|;
    var cut := edge + BearerLength(s, pos);
    MaskedBearerParts(s, pos, cut);
    CleanPart(s, p, n, 0, edge - 1);
    CleanPart(s, p, n, cut, |s|);
    CleanStars(s[cut..|s|], p, n);
    CleanGlue(s[0..edge - 1], ' ', STARS + s[cut..|s|], p, n);
  }

  // ----- the whole line -----

  ghost predicate NothingToHide(s: string) {
    Clean(s, HF, MIN_TOKEN) && Clean(s, SK, MIN_TOKEN) && FirstBearerShort(s)
  }

  /** No later pass brings back what an earlier one removed. */
  lemma RedactedHidesNothing(line: string)
    ensures NothingToHide(Redact(line))
  {
    var one := Masked(line, HF, MIN_TOKEN);
    var two := Masked(one, SK, MIN_TOKEN);
    MaskedIsClean(line, HF, MIN_TOKEN);
    MaskedStaysClean(one, SK, MIN_TOKEN, HF, MIN_TOKEN);
    MaskedIsClean(one, SK, MIN_TOKEN);
    BearerStaysClean(two, HF, MIN_TOKEN);
    BearerStaysClean(two, SK, MIN_TOKEN);
    BearerMasked(two);
  }

  /** Redaction leaves a line alone exactly when there is nothing to hide in it. */
  lemma RedactFixed(line: string)
    ensures Redact(line) == line <==> NothingToHide(line)
  {
    RedactedHidesNothing(line);
    if NothingToHide(line) {
      MaskedFixed(line, HF, MIN_TOKEN);
      MaskedFixed(line, SK, MIN_TOKEN);
      BearerMasked(line);
    }
  }

  lemma RedactIdempotent(line: string)
    ensures Redact(Redact(line)) == Redact(line)
  {
    RedactedHidesNothing(line);
    RedactFixed(Redact(line));
  }

  // ----- one token -----

  lemma RunIs(token: string, rest: string, ok: char -> bool)
    requires (forall k :: 0 <= k < |token| ==> ok(token[k])) && (rest == "" || !ok(rest[0]))
    ensures RunLength(token + rest, ok) == |token|
  {
    var s := token + rest;
    assert forall k :: 0 <= k < |token| ==> s[k] == token[k];
    assert rest != "" ==> s[|token|] == rest[0];
  }

  /** The first occurrence of a text is the one after a head in which none begins. */
  lemma FirstAfter(head: string, p: string, after: string)
    requires p != "" && forall i :: 0 <= i < |head| ==> !At(head + p, p, i)
    ensures Find(head + p + after, p) == Some(|head|)
    ensures (head + p + after)[..|head|] == head && (head + p + after)[|head| + |p|..] == after
  {
    var s := head + p + after;
    assert s[..|head + p|] == head + p;
    forall i | 0 <= i <= |head|
      ensures At(s, p, i) <==> At(head + p, p, i)
    {
      OccurrenceStays(head + p, s, p, |head + p|, i);
    }
    assert (head + p)[|head|..] == p;
    assert forall k :: 0 <= k < |p| ==> (head + p)[|head| + k] == p[k];
    assert At(head + p, p, |head|);
    FindIs(s, p, |head|);
  }

  /**
   * The first bearer token, of ASCII letters, digits, dots, dashes and underscores, is hidden whole
   * from eight characters on, and left alone below that.
   */
  lemma BearerTokenHidden(head: string, token: string, rest: string)
    requires forall i :: 0 <= i < |head| ==> !At(head + "Bearer ", "Bearer ", i)
    requires forall k :: 0 <= k < |token| ==>
               'a' <= token[k] <= 'z' || 'A' <= token[k] <= 'Z' || '0' <= token[k] <= '9' || token[k] in {'.', '-', '_'}
    requires rest == ""
             || !('a' <= rest[0] <= 'z' || 'A' <= rest[0] <= 'Z' || '0' <= rest[0] <= '9' || rest[0] in {'.', '-', '_'})
    ensures MaskBearer(head + "Bearer " + (token + rest))
            == if |token| >= 8 then head + "Bearer ***" + rest else head + "Bearer " + (token + rest)
  {
    FirstAfter(head, BEARER, token + rest);
    RunIs(token, rest, IsBearerChar);
    var s := head + BEARER + (token + rest);
    if |token| >= 8 {
      MaskBearerIs(s, |head|);
      assert (token + rest)[|token|..] == rest;
      assert head + "Bearer " + "***" == head + "Bearer ***" by {
        assert "Bearer " + "***" == "Bearer ***";
      }
    }
  }

  /** A token of 20 or more ASCII letters and digits after its marker is hidden whole; a shorter one is kept. */
  lemma TokenHidden(head: string, p: string, token: string, rest: string)
    requires p == "hf_" || p == "sk-"
    requires forall i :: 0 <= i < |head| ==> !At(head + p, p, i)
    requires forall k :: 0 <= k < |token| ==> 'a' <= token[k] <= 'z' || 'A' <= token[k] <= 'Z' || '0' <= token[k] <= '9'
    requires rest == "" || !('a' <= rest[0] <= 'z' || 'A' <= rest[0] <= 'Z' || '0' <= rest[0] <= '9')
    ensures Masked(head + p + (token + rest), p, 20)
            == head + p + if |token| >= 20 then "***" + Masked(rest, p, 20) else Masked(token + rest, p, 20)
  {
    FirstAfter(head, p, token + rest);
    RunIs(token, rest, IsAlnum);
    MaskedStep(head + p + (token + rest), p, 20, |head|, token + rest);
    assert (token + rest)[|token|..] == rest;
  }

  /** No line sent out holds `hf_` or `sk-` with 20 ASCII letters and digits after it. */
  lemma NoTokenShown(line: string, p: string, head: string, token: string, rest: string)
    requires (p == "hf_" || p == "sk-") && |token| == 20
    requires forall c :: c in token ==> 'a' <= c <= 'z' || 'A' <= c <= 'Z' || '0' <= c <= '9'
    ensures Redact(line) != head + p + token + rest
  {
    var sent := head + p + token + rest;
    assert forall k :: 0 <= k < 3 ==> sent[|head| + k] == p[k];
    assert forall k :: |head| + 3 <= k < |head| + 23 ==> sent[k] == token[k - |head| - 3] && token[k - |head| - 3] in token;
    assert SecretAt(sent, p, 20, |head|);
    RedactedHidesNothing(line);
  }

  // ----- what the bearer pass does not promise -----

  /** No bearer marker anywhere is followed by a long token. */
  ghost predicate EveryBearerShort(s: string) {
    forall i: nat :: At(s, BEARER, i) ==> BearerLength(s, i) < MIN_BEARER
  }

  /** What the pass does not look at: the text after the first marker, or after its long token. */
  function Unexamined(s: string): string {
    match Find(s, BEARER)
    case None => ""
    case Some(pos) =>
      var after := s[pos + |BEARER|..];
      if BearerLength(s, pos) >= MIN_BEARER then after[BearerLength(s, pos)..] else after
  }

  lemma BearerStart(s: string, i: nat)
    requires At(s, BEARER, i)
    ensures s[i] == 'B' && forall k :: i < k < i + |BEARER| ==> s[k] != 'B'
  {
    assert s[i + 0] == BEARER[0] && s[i + 1] == BEARER[1] && s[i + 2] == BEARER[2] && s[i + 3] == BEARER[3];
    assert s[i + 4] == BEARER[4] && s[i + 5] == BEARER[5] && s[i + 6] == BEARER[6];
  }

  lemma BearerMoves(head: string, tail: string, i: nat)
    ensures At(tail, BEARER, i) <==> At(head + tail, BEARER, |head| + i)
    ensures At(tail, BEARER, i) ==> BearerLength(tail, i) == BearerLength(head + tail, |head| + i)
  {
    var t := head + tail;
    assert forall k :: 0 <= k < |tail| ==> tail[k] == t[|head| + k];
    if i + |BEARER| <= |tail| {
      assert forall k :: 0 <= k < |BEARER| ==> (tail[i + k] == BEARER[k] <==> t[|head| + i + k] == BEARER[k]);
      assert t[|head| + i + |BEARER|..] == tail[i + |BEARER|..];
    }
  }

  lemma ShortAfterFirst(s: string, pos: nat, head: string, tail: string)
    requires s == head + tail && pos + |BEARER| <= |head|
    requires At(s, BEARER, pos) && (forall i :: 0 <= i < pos ==> !At(s, BEARER, i)) && BearerLength(s, pos) < MIN_BEARER
    requires forall k :: pos < k < |head| ==> s[k] != 'B'
    ensures EveryBearerShort(s) <==> EveryBearerShort(tail)
  {
    if EveryBearerShort(s) {
      forall i: nat | At(tail, BEARER, i)
        ensures BearerLength(tail, i) < MIN_BEARER
      {
        BearerMoves(head, tail, i);
      }
    }
    if EveryBearerShort(tail) {
      forall i: nat | At(s, BEARER, i)
        ensures BearerLength(s, i) < MIN_BEARER
      {
        OnlyFirstOrTail(s, pos, head, tail, i);
      }
    }
  }

  lemma OnlyFirstOrTail(s: string, pos: nat, head: string, tail: string, i: nat)
    requires s == head + tail && At(s, BEARER, i) && forall j :: 0 <= j < pos ==> !At(s, BEARER, j)
    requires forall k :: pos < k < |head| ==> s[k] != 'B'
    ensures i == pos || (i >= |head| && At(tail, BEARER, i - |head|)
                         && BearerLength(tail, i - |head|) == BearerLength(s, i))
  {
    BearerStart(s, i);
    if i >= |head| {
      BearerMoves(head, tail, i - |head|);
    }
  }

  /** What the bearer pass of a line works on. */
  function BeforeBearer(line: string): string {
    Masked(Masked(line, HF, MIN_TOKEN), SK, MIN_TOKEN)
  }

  /**
   * Only the first marker is treated, so a redacted line has no long bearer token left exactly when
   * the bearer pass found none beyond the part it looks at.
   */
  lemma LaterBearersStay(line: string)
    ensures EveryBearerShort(Redact(line)) <==> EveryBearerShort(Unexamined(BeforeBearer(line)))
  {
    LaterMarkersStay(BeforeBearer(line));
  }

  /** On a line without such tokens that is a condition on the line itself. */
  lemma LaterBearersOfPlainLine(line: string)
    requires Clean(line, HF, MIN_TOKEN) && Clean(line, SK, MIN_TOKEN)
    ensures EveryBearerShort(Redact(line)) <==> EveryBearerShort(Unexamined(line))
  {
    MaskedFixed(line, HF, MIN_TOKEN);
    MaskedFixed(line, SK, MIN_TOKEN);
    LaterMarkersStay(line);
  }

  lemma LaterMarkersStay(s: string)
    ensures EveryBearerShort(MaskBearer(s)) <==> EveryBearerShort(Unexamined(s))
  {
    BearerMasked(s);
    if Find(s, BEARER).Some? {
      var pos := Find(s, BEARER).value;
      if BearerLength(s, pos) < MIN_BEARER {
        UnmaskedBearerShort(s, pos);
      } else {
        MaskedBearerShort(s, pos);
      }
    }
  }

  lemma UnmaskedBearerShort(s: string, pos: nat)
    requires Find(s, BEARER) == Some(pos) && BearerLength(s, pos) < MIN_BEARER
    ensures EveryBearerShort(s) <==> EveryBearerShort(Unexamined(s))
  {
    var edge := pos + |BEARER|;
    BearerStart(s, pos);
    assert s == s[..edge] + Unexamined(s);
    ShortAfterFirst(s, pos, s[..edge], Unexamined(s));
  }

  lemma MaskedBearerShort(s: string, pos: nat)
    requires Find(s, BEARER) == Some(pos) && BearerLength(s, pos) >= MIN_BEARER
    ensures EveryBearerShort(MaskBearer(s)) <==> EveryBearerShort(Unexamined(s))
  {
    LongBearerMasked(s, pos);
    var edge := pos + |BEARER|;
    var o, head := MaskBearer(s), s[..pos] + BEARER + STARS;
    assert o == head + Unexamined(s);
    BearerStart(o, pos);
    assert head[edge] == '*' && head[edge + 1] == '*' && head[edge + 2] == '*';
    ShortAfterFirst(o, pos, head, Unexamined(s));
  }

  /** A line whose first marker has a short token is left alone, second token and all. */
  lemma SecondBearerSurvives(token: string)
    requires |token| >= MIN_BEARER && forall k :: 0 <= k < |token| ==> IsAlnum(token[k])
    ensures var line := "Bearer a Bearer " + token; Redact(line) == line && !EveryBearerShort(Redact(line))
  {
    var start := "Bearer a Bearer ";
    var line := start + token;
    assert forall k :: 0 <= k < |line| ==> line[k] == ' ' || IsAlnum(line[k]);
    PlainIsClean(line);
    assert start[7..][1] == ' ' && start[7..] + token == line[7..];
    assert At(start, BEARER, 0) && At(start, BEARER, 9);
    assert At(line, BEARER, 0) && At(line, BEARER, 9);
    FindIs(line, BEARER, 0);
    assert line[0 + |BEARER|..][1] == ' ';
    assert BearerLength(line, 0) < MIN_BEARER;
    RedactFixed(line);
    assert line[16..] == token;
    assert BearerLength(line, 9) >= MIN_BEARER;
  }

  lemma PlainIsClean(line: string)
    requires forall k :: 0 <= k < |line| ==> line[k] == ' ' || IsAlnum(line[k])
    ensures Clean(line, HF, MIN_TOKEN) && Clean(line, SK, MIN_TOKEN)
  {
    forall i
      ensures !SecretAt(line, HF, MIN_TOKEN, i) && !SecretAt(line, SK, MIN_TOKEN, i)
    {
      assert HF[2] == '_' && SK[2] == '-';
    }
  }
}
