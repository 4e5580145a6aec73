/**
 * The log stream: it replays a tail, asks for the file's length, and follows from there. Here is when
 * what it sends is the lines of the file.
 */
module LogStream {
  import opened Wrappers
  import opened Text
  import opened LogFile

  function TailStart(content: Bytes, max: nat): (r: nat)
    ensures r <= |LinesOf(content, LF, CR)| && |LinesOf(content, LF, CR)| - r <= max
    ensures TailOf(LinesOf(content, LF, CR), max) == LinesOf(content, LF, CR)[r..]
  {
    if |LinesOf(content, LF, CR)| <= max then 0 else |LinesOf(content, LF, CR)| - max
  }

  /** A line that is not valid UTF-8 makes the tail fail, and then nothing is replayed. */
  function Replayed(content: Bytes, max: nat, valid: Bytes -> bool): (r: seq<Bytes>) {
    if AllValid(LinesOf(content, LF, CR), valid) then TailOf(LinesOf(content, LF, CR), max) else []
  }

  method Replay(content: Bytes, max: nat, valid: Bytes -> bool) returns (sent: seq<Bytes>)
    ensures sent == Replayed(content, max, valid)
  {
    sent := [];
    var tail := TailLines(content, max, valid);
    if tail.Some? {
      for i := 0 to |tail.value|
        invariant sent == tail.value[..i]
      {
        sent := sent + [tail.value[i]];
      }
    }
  }

  /**
   * What a stream sends that replays the tail of `content`, finds the file `grown` longer when it
   * asks for its length, and follows from there, is the lines of the file from the tail on.
   */
  ghost predicate StreamExact(content: Bytes, grown: Bytes, ops: seq<Op>, max: nat, valid: Bytes -> bool) {
    var cut := TailStart(content, max);
    var f := Follow(Follower(content + grown, |content + grown|, []), ops + [Poll]);
    cut <= |Terminated(f.content, LF)| && Replayed(content, max, valid) + f.got == Terminated(f.content, LF)[cut..]
  }

  /** The tail can be read, or there is nothing to replay. */
  predicate Readable(content: Bytes, max: nat, valid: Bytes -> bool) {
    max == 0 || AllValid(LinesOf(content, LF, CR), valid)
  }

  /** The closed lines that are replayed do not end in a carriage return. */
  ghost predicate PlainTail(content: Bytes, max: nat) {
    var t := Terminated(content, LF);
    forall i :: TailStart(content, max) <= i < |t| ==> Chomp(t[i], CR) == t[i]
  }

  /** Exactly one newline, at the end. */
  predicate OneLine(s: Bytes) {
    s != [] && s[|s| - 1] == LF && LF !in s[..|s| - 1]
  }

  /** Nothing was written in between, or just what closes the line that was open. */
  predicate GrownInStep(content: Bytes, grown: Bytes, max: nat) {
    if Remainder(content, LF) == [] then grown == []
    else OneLine(grown) && (max > 0 ==> grown == [LF])
  }

  /** The same about the lines alone, whatever was written `later`. */
  ghost predicate LinesExact(sent: seq<Bytes>, content: Bytes, grown: Bytes, later: Bytes, max: nat) {
    var cut, all := TailStart(content, max), Terminated(content + grown + later, LF);
    cut <= |all| && sent + Terminated(later, LF) == all[cut..]
  }

  function Tail(content: Bytes, max: nat): seq<Bytes> {
    LinesOf(content, LF, CR)[TailStart(content, max)..]
  }

  lemma ReadableTail(content: Bytes, max: nat, valid: Bytes -> bool)
    requires Readable(content, max, valid)
    ensures Replayed(content, max, valid) == Tail(content, max)
  {
    assert max == 0 ==> |Tail(content, max)| == 0;
  }

  lemma StreamLines(content: Bytes, grown: Bytes, ops: seq<Op>, max: nat, valid: Bytes -> bool) returns (later: Bytes)
    ensures StreamExact(content, grown, ops, max, valid)
            <==> LinesExact(Replayed(content, max, valid), content, grown, later, max)
  {
    var begun := content + grown;
    FollowFrom(begun, |begun|, ops);
    var f := Follow(Follower(begun, |begun|, []), ops + [Poll]);
    later := f.content[|begun|..];
    assert f.content == begun + later;
  }

  lemma OneAppend(content: Bytes, grown: Bytes, later: Bytes, max: nat, valid: Bytes -> bool)
    ensures StreamExact(content, grown, [Append(later)], max, valid)
            <==> LinesExact(Replayed(content, max, valid), content, grown, later, max)
  {
    var begun := content + grown;
    var start := Follower(begun, |begun|, []);
    FollowFrom(begun, |begun|, [Append(later)]);
    assert [Append(later)][..0] == [] && [Append(later), Poll][..1] == [Append(later)];
    assert [Append(later)] + [Poll] == [Append(later), Poll];
    assert Follow(start, []) == start;
    var f := Follow(start, [Append(later)] + [Poll]);
    assert f.content == begun + later;
    assert f.content[|begun|..] == later;
  }

  lemma SameTail(a: seq<Bytes>, b: seq<Bytes>, cut: nat)
    requires cut <= |a| && cut <= |b| && a[cut..] == b[cut..]
    ensures |a| == |b| && forall i :: cut <= i < |a| ==> a[i] == b[i]
  {
    assert |a[cut..]| == |b[cut..]|;
    forall i | cut <= i < |a|
      ensures a[i] == b[i]
    {
      assert a[i] == a[cut..][i - cut] && b[i] == b[cut..][i - cut];
    }
  }

  lemma OneLinePieces(s: Bytes)
    ensures OneLine(s) <==> |Terminated(s, LF)| == 1 && Remainder(s, LF) == []
    ensures OneLine(s) ==> Terminated(s, LF) == [s[..|s| - 1]]
  {
    if OneLine(s) {
      var g := s[..|s| - 1];
      NoDelimiter([], g, LF);
      assert [] + g == g && Terminated<Byte>([], LF) == [];
    }
    if |Terminated(s, LF)| == 1 && Remainder(s, LF) == [] {
      SplitLossless(s, LF);
      var g := Terminated(s, LF)[0];
      assert Terminated(s, LF) == [g] && [g][..0] == [];
      assert s == g + [LF];
      assert g in Terminated(s, LF);
    }
  }

  /** The replayed lines when the file moved only in step. */
  function InStepLines(content: Bytes, grown: Bytes): seq<Bytes> {
    Terminated(content, LF) + if Remainder(content, LF) == [] || grown == [] then [] else [Remainder(content, LF) + grown[..|grown| - 1]]
  }

  lemma LinesWhenClosed(content: Bytes, later: Bytes)
    requires Remainder(content, LF) == []
    ensures Terminated(content + [] + later, LF) == Terminated(content, LF) + Terminated(later, LF)
  {
    assert content + [] + later == content + later;
    TerminatedConcat(content, later, LF);
  }

  lemma LinesWhenOpen(content: Bytes, g: Bytes, later: Bytes)
    requires LF !in g
    ensures Terminated(content + (g + [LF]) + later, LF)
            == Terminated(content, LF) + [Remainder(content, LF) + g] + Terminated(later, LF)
  {
    CloseLine(content, g, LF);
    assert content + (g + [LF]) == content + g + [LF];
    TerminatedConcat(content + g + [LF], later, LF);
  }

  lemma LinesInStep(content: Bytes, grown: Bytes, later: Bytes, max: nat)
    requires GrownInStep(content, grown, max)
    ensures Terminated(content + grown + later, LF) == InStepLines(content, grown) + Terminated(later, LF)
  {
    if Remainder(content, LF) == [] {
      LinesWhenClosed(content, later);
      assert InStepLines(content, []) == Terminated(content, LF);
    } else {
      var g := grown[..|grown| - 1];
      assert grown == g + [LF];
      StepLinesWhenOpen(content, g);
      LinesWhenOpen(content, g, later);
    }
  }

  lemma StepLinesWhenOpen(content: Bytes, g: Bytes)
    requires Remainder(content, LF) != []
    ensures InStepLines(content, g + [LF]) == Terminated(content, LF) + [Remainder(content, LF) + g]
  {
    assert (g + [LF])[..|g + [LF]| - 1] == g;
  }

  lemma InStepIsExact(content: Bytes, grown: Bytes, later: Bytes, max: nat)
    requires PlainTail(content, max) && GrownInStep(content, grown, max)
    ensures LinesExact(Tail(content, max), content, grown, later, max)
  {
    var cut, lines, replayed := TailStart(content, max), LinesOf(content, LF, CR), InStepLines(content, grown);
    LinesInStep(content, grown, later, max);
    InStepTail(content, grown, max);
    assert (replayed + Terminated(later, LF))[cut..] == replayed[cut..] + Terminated(later, LF);
  }

  lemma InStepTail(content: Bytes, grown: Bytes, max: nat)
    requires PlainTail(content, max) && GrownInStep(content, grown, max)
    ensures TailStart(content, max) <= |InStepLines(content, grown)|
    ensures LinesOf(content, LF, CR)[TailStart(content, max)..] == InStepLines(content, grown)[TailStart(content, max)..]
  {
    var t, r, cut := Terminated(content, LF), Remainder(content, LF), TailStart(content, max);
    var lines, replayed := LinesOf(content, LF, CR), InStepLines(content, grown);
    assert |lines| == |replayed|;
    forall i | cut <= i < |lines|
      ensures lines[i] == replayed[i]
    {
      if i < |t| {
        assert lines[i] == Chomp(t[i], CR);
      } else {
        assert grown == [LF] && r + [] == r;
      }
    }
  }

  lemma NowLines(content: Bytes, grown: Bytes)
    ensures Terminated(content + grown + [], LF)
            == Terminated(content, LF) + Glue(Remainder(content, LF), Terminated(grown, LF))
  {
    TerminatedJoin(content, grown, LF);
    assert content + grown + [] == content + grown;
  }

  lemma SameIsPlain(content: Bytes, max: nat, all: seq<Bytes>)
    requires var t, lines := Terminated(content, LF), LinesOf(content, LF, CR);
             |t| <= |all| && all[..|t|] == t && forall i :: TailStart(content, max) <= i < |lines| ==> i < |all| && lines[i] == all[i]
    ensures PlainTail(content, max)
  {
    var t, lines := Terminated(content, LF), LinesOf(content, LF, CR);
    forall i | TailStart(content, max) <= i < |t|
      ensures Chomp(t[i], CR) == t[i]
    {
      assert lines[i] == Chomp(t[i], CR) && all[i] == all[..|t|][i];
    }
  }

  lemma ExactNowIsPlain(content: Bytes, grown: Bytes, max: nat)
    requires LinesExact(Tail(content, max), content, grown, [], max)
    ensures PlainTail(content, max)
    ensures |Terminated(grown, LF)| == if Remainder(content, LF) == [] then 0 else 1
    ensures Remainder(content, LF) != [] && max > 0 ==> Terminated(grown, LF) == [[]]
  {
    var t, r, g := Terminated(content, LF), Remainder(content, LF), Terminated(grown, LF);
    var all, lines := t + Glue(r, g), LinesOf(content, LF, CR);
    NowLines(content, grown);
    assert Tail(content, max) + [] == Tail(content, max);
    SameTail(lines, all, TailStart(content, max));
    assert all[..|t|] == t;
    SameIsPlain(content, max, all);
    if r != [] && max > 0 {
      assert lines[|t|] == r && all[|t|] == r + g[0];
      assert |g[0]| == 0;
    }
  }

  lemma ExactLaterIsClosed(content: Bytes, grown: Bytes, max: nat)
    requires LinesExact(Tail(content, max), content, grown, [LF], max)
    requires |Terminated(grown, LF)| == if Remainder(content, LF) == [] then 0 else 1
    ensures Remainder(grown, LF) == []
  {
    var begun, q := content + grown, Remainder(grown, LF);
    TerminatedJoin(content, grown, LF);
    assert Remainder(content, LF) == [] ==> Remainder(content, LF) + q == q;
    OneNewline(begun);
    var cut, lines, all := TailStart(content, max), LinesOf(content, LF, CR), Terminated(begun, LF) + [q];
    assert |all| == |lines| + 1;
    LastOfTail(lines, all, cut, q);
  }

  lemma LastOfTail(lines: seq<Bytes>, all: seq<Bytes>, cut: nat, q: Bytes)
    requires cut <= |lines| < |all| && all[|lines|] == q && lines[cut..] + [[]] == all[cut..]
    ensures q == []
  {
    assert all[cut..][|lines| - cut] == all[|lines|];
    assert (lines[cut..] + [[]])[|lines| - cut] == [];
  }

  lemma OneNewline(s: Bytes)
    ensures Terminated(s + [LF], LF) == Terminated(s, LF) + [Remainder(s, LF)]
    ensures Terminated([LF], LF) == [[]]
  {
    assert (s + [LF])[..|s|] == s && [LF][..0] == [];
  }

  /** A tail that fails with something to replay: some later text shows the gap. */
  lemma FailedTailShows(content: Bytes, grown: Bytes, max: nat)
    requires max > 0 && LinesOf(content, LF, CR) != []
    ensures !(LinesExact([], content, grown, [], max) && LinesExact([], content, grown, [LF], max))
  {
    var begun, cut, now := content + grown, TailStart(content, max), Terminated(content + grown, LF);
    TerminatedJoin(content, grown, LF);
    OneNewline(begun);
    assert begun + [] == begun;
    if LinesExact([], content, grown, [], max) {
      assert |now[cut..]| == 0;
      assert |now| == cut == |Terminated(content, LF)|;
      assert Terminated(grown, LF) == [] && Remainder(content, LF) != [];
      assert Remainder(begun, LF) != [];
      var last := now + [Remainder(begun, LF)];
      assert last[cut..][0] == Remainder(begun, LF);
    }
  }

  lemma ExactStreamReads(content: Bytes, grown: Bytes, max: nat, valid: Bytes -> bool)
    requires forall ops :: StreamExact(content, grown, ops, max, valid)
    ensures LinesExact(Replayed(content, max, valid), content, grown, [], max)
    ensures LinesExact(Replayed(content, max, valid), content, grown, [LF], max)
    ensures Readable(content, max, valid)
  {
    assert StreamExact(content, grown, [Append([])], max, valid) && StreamExact(content, grown, [Append([LF])], max, valid);
    OneAppend(content, grown, [], max, valid);
    OneAppend(content, grown, [LF], max, valid);
    if !Readable(content, max, valid) {
      FailedTailShows(content, grown, max);
    }
  }

  /**
   * Over every schedule of later appends the stream is exact just when the tail could be read, no
   * replayed line had a carriage return to lose, and the file did not move between the replay and
   * the length check, other than by the newline that closes the last line.
   */
  lemma StreamIsExact(content: Bytes, grown: Bytes, max: nat, valid: Bytes -> bool)
    ensures (forall ops :: StreamExact(content, grown, ops, max, valid))
            <==> Readable(content, max, valid) && PlainTail(content, max) && GrownInStep(content, grown, max)
  {
    if Readable(content, max, valid) && PlainTail(content, max) && GrownInStep(content, grown, max) {
      ReadableTail(content, max, valid);
      forall ops
        ensures StreamExact(content, grown, ops, max, valid)
      {
        var later := StreamLines(content, grown, ops, max, valid);
        InStepIsExact(content, grown, later, max);
      }
    }
    if forall ops :: StreamExact(content, grown, ops, max, valid) {
      ExactStreamReads(content, grown, max, valid);
      ReadableTail(content, max, valid);
      ExactNowIsPlain(content, grown, max);
      ExactLaterIsClosed(content, grown, max);
      OneLinePieces(grown);
      SplitLossless(grown, LF);
    }
  }

  /** A closed file with a line that is not valid loses its tail, whatever follows. */
  lemma FailedTailIsLost(content: Bytes, ops: seq<Op>, max: nat, valid: Bytes -> bool)
    requires max > 0 && Remainder(content, LF) == [] && !AllValid(LinesOf(content, LF, CR), valid)
    ensures !StreamExact(content, [], ops, max, valid)
  {
    var later := StreamLines(content, [], ops, max, valid);
    LinesWhenClosed(content, later);
    var cut, all := TailStart(content, max), Terminated(content + [] + later, LF);
    assert [] + Terminated(later, LF) == Terminated(later, LF);
    assert cut < |Terminated(content, LF)|;
    assert |all[cut..]| > |Terminated(later, LF)|;
  }

  /** The smallest such file: one line holding one byte that is no UTF-8. */
  lemma BadLineIsLost(b: Byte, ops: seq<Op>, max: nat, valid: Bytes -> bool)
    requires b != LF && b != CR && !valid([b]) && max > 0
    ensures Terminated([b, LF], LF) == [[b]] && Replayed([b, LF], max, valid) == []
    ensures !StreamExact([b, LF], [], ops, max, valid)
  {
    TwoParts(b, b);
    assert Remainder([b, LF], LF) == [];
    assert LinesOf([b, LF], LF, CR)[0] == [b];
    FailedTailIsLost([b, LF], ops, max, valid);
  }

  lemma TwoParts(a: Byte, b: Byte)
    requires a != LF && b != LF
    ensures Terminated([a], LF) == [] && Remainder([a], LF) == [a] && Terminated([b, LF], LF) == [[b]]
    ensures Terminated([a, b, LF], LF) == [[a, b]]
  {
    var none: Bytes := [];
    NoDelimiter(none, [a], LF);
    CloseLine(none, [b], LF);
    CloseLine(none, [a, b], LF);
    assert none + [a] == [a] && none + [b] == [b] && none + [a, b] == [a, b];
    assert [b] + [LF] == [b, LF] && [a, b] + [LF] == [a, b, LF];
  }

  /** When a file ends in an unfinished line, and the rest of it follows, it is sent as two lines. */
  lemma UnfinishedLineIsSplit(a: Byte, b: Byte, max: nat, valid: Bytes -> bool)
    requires a != LF && b != LF && max > 0 && valid([a])
    ensures !StreamExact([a], [], [Append([b, LF])], max, valid)
    ensures Terminated([a] + [] + [b, LF], LF) == [[a, b]]
  {
    TwoParts(a, b);
    var later: Bytes := [b, LF];
    assert [a] + [] + later == [a, b, LF];
    OneAppend([a], [], later, max, valid);
    assert LinesOf([a], LF, CR) == [[a]];
    assert TailStart([a], max) == 0;
    var sent: seq<Bytes> := [[a]];
    assert sent[0..] + [[b]] == [[a], [b]];
  }
}
