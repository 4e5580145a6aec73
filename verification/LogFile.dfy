/**
 * Following a serving log: a reader that resumes at the byte offset it last returned, and the
 * one-shot tail it has to agree with.
 */
module LogFile {
  import opened Wrappers
  import opened Text

  newtype Byte = b: int | 0 <= b < 256

  type Bytes = seq<Byte>

  const LF: Byte := 10
  const CR: Byte := 13

  function CompleteLen(s: Bytes): (n: nat)
    ensures n <= |s|
  {
    RemainderIsSuffix(s);
    |s| - |Remainder(s, LF)|
  }

  lemma RemainderIsSuffix(s: Bytes)
    ensures |Remainder(s, LF)| <= |s| && s == s[..|s| - |Remainder(s, LF)|] + Remainder(s, LF)
  {
    SplitLossless(s, LF);
    var n := |Unlines(Terminated(s, LF), LF)|;
    assert s[..n] == Unlines(Terminated(s, LF), LF);
  }

  /** Up to its last newline a file has the same lines, and nothing left over. */
  lemma CompletePrefix(s: Bytes)
    ensures Terminated(s[..CompleteLen(s)], LF) == Terminated(s, LF)
    ensures Remainder(s[..CompleteLen(s)], LF) == []
  {
    SplitLossless(s, LF);
    RemainderIsSuffix(s);
    NoDelimiter(s[..CompleteLen(s)], Remainder(s, LF), LF);
    if Remainder(s[..CompleteLen(s)], LF) != [] {
      assert |Remainder(s, LF)| == |Remainder(s[..CompleteLen(s)], LF)| + |Remainder(s, LF)|;
    }
  }

  /** The position of the last newline. */
  function LastNewline(s: Bytes): (r: Option<nat>)
    ensures r.Some? ==> r.value < |s| && s[r.value] == LF && forall k :: r.value < k < |s| ==> s[k] != LF
    ensures r.None? ==> LF !in s
  {
    if s == [] then None
    else if s[|s| - 1] == LF then Some(|s| - 1)
    else
      assert s == s[..|s| - 1] + [s[|s| - 1]];
      LastNewline(s[..|s| - 1])
  }

  lemma {:induction false} LastNewlineEndsComplete(s: Bytes)
    ensures CompleteLen(s) == match LastNewline(s) case Some(i) => i + 1 case None => 0
  {
    if s != [] && s[|s| - 1] != LF {
      LastNewlineEndsComplete(s[..|s| - 1]);
    }
  }

  /** Lines fully written after `from`, and the offset just past the last of them. */
  method ReadNewLines(content: Bytes, from: nat) returns (lines: seq<Bytes>, offset: nat)
    ensures from <= |content| ==>
              lines == Terminated(content[from..], LF) && offset == from + CompleteLen(content[from..])
    ensures from > |content| ==> lines == [] && offset == |content|
  {
    if from >= |content| {
      assert from == |content| ==> content[from..] == [];
      return [], if from <= |content| then from else |content|;
    }
    var buf := content[from..];
    var last := LastNewline(buf);
    LastNewlineEndsComplete(buf);
    var completeLen := if last.Some? then last.value + 1 else 0;
    var complete := buf[..completeLen];
    CompletePrefix(buf);
    lines := Split(complete, LF);
    if lines[|lines| - 1] == [] {
      lines := lines[..|lines| - 1];
    }
    return lines, from + completeLen;
  }

  function TailOf(lines: seq<Bytes>, max: nat): seq<Bytes> {
    if |lines| <= max then lines else lines[|lines| - max..]
  }

  predicate AllValid(lines: seq<Bytes>, valid: Bytes -> bool) {
    forall i :: 0 <= i < |lines| ==> valid(lines[i])
  }

  /** The last `max` lines; a line that is not valid UTF-8 makes the whole read fail. */
  method TailLines(content: Bytes, max: nat, valid: Bytes -> bool) returns (r: Option<seq<Bytes>>)
    ensures r == if AllValid(LinesOf(content, LF, CR), valid) then Some(TailOf(LinesOf(content, LF, CR), max)) else None
  {
    var all := LinesOf(content, LF, CR);
    var lines := ReadValid(all, valid);
    if lines.None? {
      return None;
    }
    var start := if |all| <= max then 0 else |all| - max;
    return Some(lines.value[start..]);
  }

  /** Line by line, stopping at the first that is not valid. */
  method ReadValid(all: seq<Bytes>, valid: Bytes -> bool) returns (r: Option<seq<Bytes>>)
    ensures r == if AllValid(all, valid) then Some(all) else None
  {
    var lines: seq<Bytes> := [];
    for i := 0 to |all|
      invariant lines == all[..i]
      invariant AllValid(all[..i], valid)
    {
      if !valid(all[i]) {
        return None;
      }
      lines := lines + [all[i]];
    }
    assert all[..|all|] == all;
    return Some(lines);
  }

  // ----- any schedule of appends and polls -----

  datatype Op = Append(bytes: Bytes) | Poll

  datatype Follower = Follower(content: Bytes, offset: nat, got: seq<Bytes>)

  function Next(f: Follower, op: Op): Follower
    requires f.offset <= |f.content|
  {
    match op
    case Append(bytes) => f.(content := f.content + bytes)
    case Poll =>
      var unread := f.content[f.offset..];
      f.(offset := f.offset + CompleteLen(unread), got := f.got + Terminated(unread, LF))
  }

  function Follow(f: Follower, ops: seq<Op>): (r: Follower)
    requires f.offset <= |f.content|
    ensures r.offset <= |r.content|
  {
    if ops == [] then f else Next(Follow(f, ops[..|ops| - 1]), ops[|ops| - 1])
  }

  /** `Next` on a poll is what one call of the reader returns. */
  method PollOnce(f: Follower) returns (g: Follower)
    requires f.offset <= |f.content|
    ensures g == Next(f, Poll)
  {
    var lines, offset := ReadNewLines(f.content, f.offset);
    g := Follower(f.content, offset, f.got + lines);
  }

  /** The reader stands at a line boundary and has emitted exactly the lines before it. */
  ghost predicate CaughtUpTo(f: Follower, start: nat) {
    && start <= f.offset <= |f.content|
    && Remainder(f.content[start..f.offset], LF) == []
    && f.got == Terminated(f.content[start..f.offset], LF)
  }

  lemma {:induction false} FollowKeeps(f: Follower, ops: seq<Op>, start: nat)
    requires CaughtUpTo(f, start)
    ensures CaughtUpTo(Follow(f, ops), start)
    ensures f.content <= Follow(f, ops).content
  {
    if ops != [] {
      var g, op := Follow(f, ops[..|ops| - 1]), ops[|ops| - 1];
      FollowKeeps(f, ops[..|ops| - 1], start);
      NextKeeps(g, op, start);
    }
  }

  lemma NextKeeps(g: Follower, op: Op, start: nat)
    requires CaughtUpTo(g, start)
    ensures CaughtUpTo(Next(g, op), start)
    ensures g.content <= Next(g, op).content
  {
    var h := Next(g, op);
    if op.Append? {
      assert h.content[start..h.offset] == g.content[start..g.offset];
    } else {
      var seen, unread := g.content[start..g.offset], g.content[g.offset..];
      var complete := unread[..CompleteLen(unread)];
      CompletePrefix(unread);
      TerminatedConcat(seen, complete, LF);
      assert h.content[start..h.offset] == seen + complete;
    }
  }

  /**
   * However the file grows between polls, what the polls returned is exactly the complete lines of
   * the file at the last poll: none lost, none twice, none split.
   */
  lemma FollowIsExact(content: Bytes, ops: seq<Op>)
    ensures var f := Follow(Follower(content, 0, []), ops + [Poll]);
            && f.got == Terminated(f.content, LF)
            && f.offset == CompleteLen(f.content)
            && (f.offset == 0 || f.content[f.offset - 1] == LF)
  {
    FollowFrom(content, 0, ops);
    var f := Follow(Follower(content, 0, []), ops + [Poll]);
    assert f.content[0..] == f.content;
    CompletePrefix(f.content);
    LastNewlineEndsComplete(f.content);
  }

  /** The same from any starting offset, about the part of the file after it. */
  lemma FollowFrom(content: Bytes, start: nat, ops: seq<Op>)
    requires start <= |content|
    ensures var f := Follow(Follower(content, start, []), ops + [Poll]);
            && content <= f.content
            && f.got == Terminated(f.content[start..], LF)
            && f.offset == start + CompleteLen(f.content[start..])
  {
    var begin := Follower(content, start, []);
    assert (ops + [Poll])[..|ops|] == ops;
    assert content[start..start] == [];
    FollowKeeps(begin, ops, start);
    var g := Follow(begin, ops);
    var seen, unread := g.content[start..g.offset], g.content[g.offset..];
    assert g.content[start..] == seen + unread;
    TerminatedConcat(seen, unread, LF);
  }

  // ----- agreement with the one-shot tail -----

  ghost predicate PlainFile(content: Bytes, valid: Bytes -> bool) {
    forall l <- Terminated(content, LF) :: valid(l) && (l == [] || l[|l| - 1] != CR)
  }

  /** One read from the start gives what an unlimited tail gives exactly on plain, closed files. */
  lemma TailAgrees(content: Bytes, max: nat, valid: Bytes -> bool)
    requires max >= |LinesOf(content, LF, CR)|
    ensures Remainder(content, LF) == [] && PlainFile(content, valid)
            <==> AllValid(LinesOf(content, LF, CR), valid)
                 && TailOf(LinesOf(content, LF, CR), max) == Terminated(content, LF)
  {
    var t, lines := Terminated(content, LF), LinesOf(content, LF, CR);
    assert forall i :: 0 <= i < |t| ==> lines[i] == Chomp(t[i], CR);
    if Remainder(content, LF) == [] && PlainFile(content, valid) {
      assert forall i :: 0 <= i < |t| ==> t[i] in t && lines[i] == t[i];
      assert lines == t;
    }
    if TailOf(lines, max) == t {
      assert lines == t;
      forall l | l in t
        ensures l == [] || l[|l| - 1] != CR
      {
        var i :| 0 <= i < |t| && t[i] == l;
        assert |Chomp(t[i], CR)| == |t[i]|;
      }
    }
  }

  lemma LinesOfParts(s: Bytes, before: Bytes, line: Bytes)
    requires Terminated(s, LF) == Terminated(before, LF) + [line] && Remainder(s, LF) == [] && Remainder(before, LF) == []
    ensures LinesOf(s, LF, CR) == LinesOf(before, LF, CR) + [Chomp(line, CR)]
  {
    var t := Terminated(before, LF);
    assert Chomps(t + [line], CR) == Chomps(t, CR) + [Chomp(line, CR)];
    assert Chomps(t, CR) + [] == Chomps(t, CR);
  }

  /** Byte 10 closes a line, which the tail takes without a byte 13 at its end. */
  lemma ClosedLine(before: Bytes, line: Bytes)
    requires 10 !in line && Remainder(before, LF) == []
    ensures Terminated(before + line + [10], LF) == Terminated(before, LF) + [line]
    ensures LinesOf(before + line + [10], LF, CR)
            == LinesOf(before, LF, CR) + [if line != [] && line[|line| - 1] == 13 then line[..|line| - 1] else line]
  {
    CloseLine(before, line, LF);
    assert [] + line == line;
    LinesOfParts(before + line + [10], before, line);
  }

  /** A line not closed yet is no line for the reader, and one for the tail, whatever it ends in. */
  lemma OpenLine(before: Bytes, line: Bytes)
    requires 10 !in line && Remainder(before, LF) == []
    ensures Terminated(before + line, LF) == Terminated(before, LF)
    ensures LinesOf(before + line, LF, CR) == LinesOf(before, LF, CR) + if line == [] then [] else [line]
  {
    NoDelimiter(before, line, LF);
    assert [] + line == line;
    var t := Chomps(Terminated(before, LF), CR);
    assert t + [] == t;
  }
}
