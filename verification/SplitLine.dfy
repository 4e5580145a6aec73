/**
 * A line that the log stream sends in two parts, each redacted on its own: which secrets of the
 * line are still there when the parts are put together again.
 */
module SplitLine {
  import opened Wrappers
  import opened Text
  import opened Redaction

  predicate Crosses(a: string, p: string, n: nat, i: int) {
    0 <= i < |a| < i + |p| + n
  }

  /** No secret lies across the joint of the two texts. */
  ghost predicate NoneCrosses(a: string, b: string, p: string, n: nat) {
    forall i :: Crosses(a, p, n, i) ==> !SecretAt(a + b, p, n, i)
  }

  /** `s` starts with the last `j` characters of the marker, and then alphanumerics up to `m`. */
  predicate Continues(s: string, p: string, j: nat, m: nat) {
    && j < |p| && j <= m <= |s|
    && (forall k :: 0 <= k < j ==> s[k] == p[|p| - j + k])
    && (forall k :: j <= k < m ==> IsAlnum(s[k]))
  }

  /** How much of a secret at `i` that crosses the joint belongs to the marker, beyond the joint. */
  function MarkerBeyond(a: string, p: string, i: int): int {
    if i + |p| > |a| then i + |p| - |a| else 0
  }

  /** The part of a crossing secret before the joint. */
  predicate Begins(a: string, p: string, i: int)
    requires 0 <= i < |a|
  {
    && (forall k :: i <= k < |a| && k < i + |p| ==> a[k] == p[k - i])
    && (forall k :: i + |p| <= k < |a| ==> IsAlnum(a[k]))
  }

  lemma CrossingSecret(a: string, b: string, p: string, n: nat, i: int)
    requires p != "" && Crosses(a, p, n, i)
    ensures SecretAt(a + b, p, n, i)
            <==> Begins(a, p, i) && Continues(b, p, MarkerBeyond(a, p, i), i + |p| + n - |a|)
  {
    var t, j := a + b, MarkerBeyond(a, p, i);
    assert forall k :: 0 <= k < |a| ==> t[k] == a[k];
    assert forall k :: 0 <= k < |b| ==> b[k] == t[|a| + k];
    if SecretAt(t, p, n, i) {
      assert forall k :: i <= k < i + |p| ==> t[k] == p[k - i] by {
        assert forall k :: 0 <= k < |p| ==> t[i + k] == p[k];
      }
    }
    if Begins(a, p, i) && Continues(b, p, j, i + |p| + n - |a|) {
      assert forall k :: i <= k < i + |p| ==> t[k] == p[k - i];
      assert forall k :: i + |p| <= k < i + |p| + n && k >= |a| ==> t[k] == b[k - |a|];
    }
  }

  /** A pass keeps everything up to the end of the first marker, and that is beyond any continuation. */
  lemma HeadKeepsContinuation(s: string, o: string, q: string, pos: nat, p: string, j: nat, m: nat)
    requires Marker(p) && Marker(q) && (q == p || q[|q| - 1] != p[|p| - 1])
    requires At(s, q, pos) && |o| >= pos + |q| && o[..pos + |q|] == s[..pos + |q|]
    ensures Continues(s, p, j, m) <==> Continues(o, p, j, m)
  {
    var edge := pos + |q|;
    MarkerEnd(s, q, pos);
    assert forall k :: 0 <= k < edge ==> o[k] == o[..edge][k] == s[..edge][k] == s[k];
    assert s[edge - 1] == q[|q| - 1];
  }

  lemma MaskedKeepsContinuation(s: string, q: string, n: nat, p: string, j: nat, m: nat)
    requires Marker(p) && Marker(q) && (q == p || q[|q| - 1] != p[|p| - 1])
    ensures Continues(s, p, j, m) <==> Continues(Masked(s, q, n), p, j, m)
  {
    if Find(s, q).Some? {
      var pos := Find(s, q).value;
      MaskedHead(s, q, n, pos + |q|);
      HeadKeepsContinuation(s, Masked(s, q, n), q, pos, p, j, m);
    }
  }

  lemma BearerKeepsContinuation(s: string, p: string, j: nat, m: nat)
    requires Marker(p) && p[|p| - 1] != ' '
    ensures Continues(s, p, j, m) <==> Continues(MaskBearer(s), p, j, m)
  {
    if Find(s, BEARER).Some? && BearerLength(s, Find(s, BEARER).value) >= MIN_BEARER {
      var pos := Find(s, BEARER).value;
      MaskBearerIs(s, pos);
      assert s[..pos + |BEARER|] == s[..pos] + BEARER;
      BearerIsMarker();
      HeadKeepsContinuation(s, MaskBearer(s), BEARER, pos, p, j, m);
    }
  }

  lemma BearerIsMarker()
    ensures Marker(BEARER) && BEARER[|BEARER| - 1] == ' '
  {
  }

  predicate TokenMarker(p: string) {
    p == HF || p == SK
  }

  lemma RedactKeepsContinuation(b: string, p: string, j: nat, m: nat)
    requires TokenMarker(p)
    ensures Continues(b, p, j, m) <==> Continues(Redact(b), p, j, m)
  {
    var one := Masked(b, HF, MIN_TOKEN);
    assert Marker(HF) && Marker(SK) && HF[|HF| - 1] == '_' && SK[|SK| - 1] == '-';
    MaskedKeepsContinuation(b, HF, MIN_TOKEN, p, j, m);
    MaskedKeepsContinuation(one, SK, MIN_TOKEN, p, j, m);
    BearerKeepsContinuation(Masked(one, SK, MIN_TOKEN), p, j, m);
  }

  /** Clean parts make a clean whole exactly when nothing crosses the joint. */
  lemma JointDecides(a: string, b: string, p: string, n: nat)
    requires Clean(a, p, n) && Clean(b, p, n)
    ensures Clean(a + b, p, n) <==> NoneCrosses(a, b, p, n)
  {
    if NoneCrosses(a, b, p, n) {
      forall i
        ensures !SecretAt(a + b, p, n, i)
      {
        if i >= |a| {
          SecretInTail(a, b, p, n, i);
        } else if i + |p| + n <= |a| {
          SecretInHead(a, b, p, n, i);
        }
      }
    }
  }

  lemma SameCrossings(a: string, b: string, p: string)
    requires TokenMarker(p)
    ensures NoneCrosses(a, Redact(b), p, MIN_TOKEN) <==> NoneCrosses(a, b, p, MIN_TOKEN)
  {
    forall i | Crosses(a, p, MIN_TOKEN, i)
      ensures SecretAt(a + b, p, MIN_TOKEN, i) <==> SecretAt(a + Redact(b), p, MIN_TOKEN, i)
    {
      CrossingSecret(a, b, p, MIN_TOKEN, i);
      CrossingSecret(a, Redact(b), p, MIN_TOKEN, i);
      RedactKeepsContinuation(b, p, MarkerBeyond(a, p, i), i + |p| + MIN_TOKEN - |a|);
    }
  }

  /**
   * Redacted one by one, the two parts of a line hold a token between them exactly when one lies
   * across the joint of what was sent first and the part that follows.
   */
  lemma SplitLineHides(a: string, b: string, p: string)
    requires TokenMarker(p)
    ensures Clean(Redact(a) + Redact(b), p, MIN_TOKEN) <==> NoneCrosses(Redact(a), b, p, MIN_TOKEN)
  {
    RedactedHidesNothing(a);
    RedactedHidesNothing(b);
    JointDecides(Redact(a), Redact(b), p, MIN_TOKEN);
    SameCrossings(Redact(a), b, p);
  }

  lemma AlnumIsPlain(s: string)
    requires forall k :: 0 <= k < |s| ==> IsAlnum(s[k])
    ensures Redact(s) == s
  {
    PlainIsClean(s);
    if Find(s, BEARER).Some? {
      MarkerEnd(s, BEARER, Find(s, BEARER).value);
    }
    RedactFixed(s);
  }

  /** The start of a token with too few characters after the marker to be hidden. */
  lemma ShortTokenIsPlain(t: string)
    requires |t| < MIN_TOKEN && forall k :: 0 <= k < |t| ==> IsAlnum(t[k])
    ensures Redact(HF + t) == HF + t
  {
    var s := HF + t;
    assert forall k :: 0 <= k < |s| && k != 2 ==> IsAlnum(s[k]);
    assert s[2] == '_';
    forall i
      ensures !SecretAt(s, HF, MIN_TOKEN, i) && !SecretAt(s, SK, MIN_TOKEN, i)
    {
      assert SK[2] == '-' && HF[2] == '_';
    }
    if Find(s, BEARER).Some? {
      MarkerEnd(s, BEARER, Find(s, BEARER).value);
    }
    RedactFixed(s);
  }

  lemma LongTokenIsSecret(token: string)
    requires |token| >= MIN_TOKEN && forall k :: 0 <= k < |token| ==> IsAlnum(token[k])
    ensures !Clean(HF + token, HF, MIN_TOKEN)
  {
    var line := HF + token;
    assert forall k :: |HF| <= k < |line| ==> line[k] == token[k - |HF|];
    assert SecretAt(line, HF, MIN_TOKEN, 0);
  }

  lemma AlnumParts(t: string, u: string)
    requires forall k :: 0 <= k < |t + u| ==> IsAlnum((t + u)[k])
    ensures forall k :: 0 <= k < |t| ==> IsAlnum(t[k])
    ensures forall k :: 0 <= k < |u| ==> IsAlnum(u[k])
  {
    assert forall k :: 0 <= k < |t| ==> t[k] == (t + u)[k];
    assert forall k :: 0 <= k < |u| ==> u[k] == (t + u)[|t| + k];
  }

  /** A token cut into two short parts goes out as it is, though redacting the line would hide it. */
  lemma CutTokenShows(t: string, u: string)
    requires |t| < MIN_TOKEN && |t| + |u| >= MIN_TOKEN && forall k :: 0 <= k < |t + u| ==> IsAlnum((t + u)[k])
    ensures Redact(HF + t) == HF + t && Redact(u) == u
    ensures !Clean(HF + t + u, HF, MIN_TOKEN) && Clean(Redact(HF + t + u), HF, MIN_TOKEN)
  {
    AlnumParts(t, u);
    ShortTokenIsPlain(t);
    AlnumIsPlain(u);
    LongTokenIsSecret(t + u);
    Reassociate(HF, t, u);
    RedactedHidesNothing(HF + t + u);
  }
}
