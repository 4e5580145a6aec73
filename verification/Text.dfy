/** Text as the agent sees it: delimiters, lines, whitespace tokens, joins and searches. */
module Text {
  import opened Wrappers

  // ----- pieces closed by a delimiter -----

  /** The pieces of `s` that a delimiter closes, without it, in order. */
  function Terminated<T(==)>(s: seq<T>, d: T): (r: seq<seq<T>>) {
    if s == [] then []
    else if s[|s| - 1] == d then Terminated(s[..|s| - 1], d) + [Remainder(s[..|s| - 1], d)]
    else Terminated(s[..|s| - 1], d)
  }

  /** What follows the last delimiter. */
  function Remainder<T(==)>(s: seq<T>, d: T): (r: seq<T>) {
    if s == [] then []
    else if s[|s| - 1] == d then []
    else Remainder(s[..|s| - 1], d) + [s[|s| - 1]]
  }

  /** Every piece followed by the delimiter. */
  function Unlines<T>(pieces: seq<seq<T>>, d: T): (r: seq<T>) {
    if pieces == [] then []
    else Unlines(pieces[..|pieces| - 1], d) + pieces[|pieces| - 1] + [d]
  }

  /** `split(d)`: the closed pieces and then what is left, even when that is empty. */
  function Split<T(==)>(s: seq<T>, d: T): (r: seq<seq<T>>) {
    Terminated(s, d) + [Remainder(s, d)]
  }

  lemma {:induction false} SplitLossless<T>(s: seq<T>, d: T)
    ensures Unlines(Terminated(s, d), d) + Remainder(s, d) == s
    ensures d !in Remainder(s, d)
    ensures forall p :: p in Terminated(s, d) ==> d !in p
  {
    if s != [] {
      var init, c := s[..|s| - 1], s[|s| - 1];
      SplitLossless(init, d);
      assert s == init + [c];
      if c == d {
        var t := Terminated(init, d);
        assert Terminated(s, d)[..|t|] == t;
      }
    }
  }

  lemma {:induction false} NoDelimiter<T>(a: seq<T>, b: seq<T>, d: T)
    requires d !in b
    ensures Terminated(a + b, d) == Terminated(a, d)
    ensures Remainder(a + b, d) == Remainder(a, d) + b
  {
    if b == [] {
      assert a + b == a;
    } else {
      assert (a + b)[..|a + b| - 1] == a + b[..|b| - 1];
      NoDelimiter(a, b[..|b| - 1], d);
      assert b == b[..|b| - 1] + [b[|b| - 1]];
    }
  }

  lemma CloseLine<T>(a: seq<T>, b: seq<T>, d: T)
    requires d !in b
    ensures Terminated(a + b + [d], d) == Terminated(a, d) + [Remainder(a, d) + b]
    ensures Remainder(a + b + [d], d) == []
  {
    NoDelimiter(a, b, d);
    assert (a + b + [d])[..|a + b|] == a + b;
  }

  /** Cutting just past a delimiter cuts no piece in two. */
  lemma {:induction false} TerminatedConcat<T>(a: seq<T>, b: seq<T>, d: T)
    requires Remainder(a, d) == []
    ensures Terminated(a + b, d) == Terminated(a, d) + Terminated(b, d)
    ensures Remainder(a + b, d) == Remainder(b, d)
  {
    if b == [] {
      assert a + b == a;
    } else {
      assert (a + b)[..|a + b| - 1] == a + b[..|b| - 1];
      TerminatedConcat(a, b[..|b| - 1], d);
    }
  }

  lemma {:induction false} TerminatedUnlines<T>(pieces: seq<seq<T>>, d: T)
    requires forall p :: p in pieces ==> d !in p
    ensures Terminated(Unlines(pieces, d), d) == pieces
    ensures Remainder(Unlines(pieces, d), d) == []
  {
    if pieces != [] {
      var init, p := pieces[..|pieces| - 1], pieces[|pieces| - 1];
      assert p in pieces && forall q :: q in init ==> q in pieces;
      TerminatedUnlines(init, d);
      var u := Unlines(init, d);
      CloseLine(u, p, d);
      assert [] + p == p;
      assert pieces == init + [p];
    }
  }

  /** A piece left open goes on in the first piece of what follows. */
  function Glue<T>(rest: seq<T>, pieces: seq<seq<T>>): (r: seq<seq<T>>) {
    if pieces == [] then [] else [rest + pieces[0]] + pieces[1..]
  }

  /** How the pieces of a text come from those of its two parts. */
  ghost predicate Joins<T>(a: seq<T>, b: seq<T>, d: T) {
    && Terminated(a + b, d) == Terminated(a, d) + Glue(Remainder(a, d), Terminated(b, d))
    && Remainder(a + b, d) == if Terminated(b, d) == [] then Remainder(a, d) + Remainder(b, d) else Remainder(b, d)
  }

  lemma SnocPieces<T>(s: seq<T>, c: T, d: T)
    ensures Terminated(s + [c], d) == if c == d then Terminated(s, d) + [Remainder(s, d)] else Terminated(s, d)
    ensures Remainder(s + [c], d) == if c == d then [] else Remainder(s, d) + [c]
  {
    assert (s + [c])[..|s|] == s;
  }

  lemma GlueLater<T>(pieces: seq<seq<T>>, rest: seq<T>, more: seq<seq<T>>, last: seq<T>)
    ensures pieces + Glue(rest, more + [last]) == pieces + Glue(rest, more) + [if more == [] then rest + last else last]
  {
    GlueSnoc(rest, more, last);
  }

  lemma Reassociate<T>(a: seq<T>, b: seq<T>, c: seq<T>)
    ensures a + (b + c) == a + b + c
  {
  }

  lemma ClosingJoins<T>(a: seq<T>, b: seq<T>, d: T)
    requires Joins(a, b, d)
    ensures Joins(a, b + [d], d)
  {
    SnocPieces(a + b, d, d);
    SnocPieces(b, d, d);
    GlueLater(Terminated(a, d), Remainder(a, d), Terminated(b, d), Remainder(b, d));
    Reassociate(a, b, [d]);
  }

  lemma OpenJoins<T>(a: seq<T>, b: seq<T>, c: T, d: T)
    requires Joins(a, b, d) && c != d
    ensures Joins(a, b + [c], d)
  {
    SnocPieces(a + b, c, d);
    SnocPieces(b, c, d);
    Reassociate(a, b, [c]);
    if Terminated(b, d) == [] {
      Reassociate(Remainder(a, d), Remainder(b, d), [c]);
    }
  }

  lemma JoinsNothing<T>(a: seq<T>, d: T)
    ensures Joins(a, [], d)
  {
    assert a + [] == a && Remainder(a, d) + [] == Remainder(a, d);
  }

  /** The pieces of a text that grew, from those of its two parts. */
  lemma {:induction false} TerminatedJoin<T>(a: seq<T>, b: seq<T>, d: T)
    ensures Joins(a, b, d)
  {
    if b == [] {
      JoinsNothing(a, d);
    } else {
      var init := b[..|b| - 1];
      TerminatedJoin(a, init, d);
      assert b == init + [b[|b| - 1]];
      if b[|b| - 1] == d {
        ClosingJoins(a, init, d);
      } else {
        OpenJoins(a, init, b[|b| - 1], d);
      }
    }
  }

  lemma GlueSnoc<T>(rest: seq<T>, pieces: seq<seq<T>>, last: seq<T>)
    ensures Glue(rest, pieces + [last]) == Glue(rest, pieces) + [if pieces == [] then rest + last else last]
  {
    if pieces == [] {
      assert pieces + [last] == [last] && [last][1..] == [];
    } else {
      assert (pieces + [last])[1..] == pieces[1..] + [last];
    }
  }

  // ----- lines -----

  /** A `\r` just before the line feed belongs to the line ending. */
  function Chomp<T(==)>(line: seq<T>, cr: T): seq<T> {
    if line != [] && line[|line| - 1] == cr then line[..|line| - 1] else line
  }

  function Chomps<T(==)>(lines: seq<seq<T>>, cr: T): (r: seq<seq<T>>)
    ensures |r| == |lines|
    ensures forall i :: 0 <= i < |r| ==> r[i] == Chomp(lines[i], cr)
  {
    seq(|lines|, i requires 0 <= i < |lines| => Chomp(lines[i], cr))
  }

  /** `lines()`: line endings removed, and a last line without one kept as it is. */
  function LinesOf<T(==)>(s: seq<T>, nl: T, cr: T): (r: seq<seq<T>>) {
    Chomps(Terminated(s, nl), cr) + if Remainder(s, nl) == [] then [] else [Remainder(s, nl)]
  }

  function Lines(s: string): (r: seq<string>) {
    LinesOf(s, '\n', '\r')
  }

  /** No line of `s` ends in `\r\n`. */
  predicate PlainEndings(s: string) {
    forall line <- Terminated(s, '\n') :: line == [] || line[|line| - 1] != '\r'
  }

  /** Every line of `s` is closed. */
  predicate Closed(s: string) {
    Remainder(s, '\n') == []
  }

  lemma LinesOfClosed(s: string)
    requires Closed(s) && PlainEndings(s)
    ensures Lines(s) == Terminated(s, '\n')
  {
    var t := Terminated(s, '\n');
    assert forall i :: 0 <= i < |t| ==> t[i] in t;
  }

  lemma ChompsConcat(a: seq<string>, b: seq<string>)
    ensures Chomps(a + b, '\r') == Chomps(a, '\r') + Chomps(b, '\r')
  {
  }

  lemma LinesConcat(a: string, b: string)
    requires Closed(a)
    ensures Lines(a + b) == Lines(a) + Lines(b)
  {
    TerminatedConcat(a, b, '\n');
    ChompsConcat(Terminated(a, '\n'), Terminated(b, '\n'));
  }

  // ----- joins -----

  /** `join(sep)`. */
  function Join(parts: seq<string>, sep: string): (r: string) {
    if parts == [] then ""
    else if |parts| == 1 then parts[0]
    else Join(parts[..|parts| - 1], sep) + sep + parts[|parts| - 1]
  }

  lemma {:induction false} JoinThenClose(parts: seq<string>, d: char)
    requires parts != []
    ensures Join(parts, [d]) + [d] == Unlines(parts, d)
  {
    if |parts| == 1 {
      assert parts[..0] == [];
    } else {
      JoinThenClose(parts[..|parts| - 1], d);
    }
  }

  lemma {:induction false} SplitJoin(parts: seq<string>, d: char)
    requires parts != []
    requires forall p :: p in parts ==> d !in p
    ensures Split(Join(parts, [d]), d) == parts
  {
    var init, p := parts[..|parts| - 1], parts[|parts| - 1];
    assert parts == init + [p];
    if |parts| == 1 {
      NoDelimiter([], p, d);
      assert [] + p == p;
    } else {
      SplitJoin(init, d);
      var j := Join(init, [d]);
      var t := j + [d];
      assert t[..|t| - 1] == j && t[|t| - 1] == d;
      assert Terminated(t, d) == init && Remainder(t, d) == [];
      NoDelimiter(t, p, d);
      assert [] + p == p;
    }
  }

  // ----- characters -----

  predicate IsDigit(c: char) { '0' <= c <= '9' }

  predicate IsLower(c: char) { 'a' <= c <= 'z' }

  predicate IsUpper(c: char) { 'A' <= c <= 'Z' }

  predicate IsAlnum(c: char) { IsDigit(c) || IsLower(c) || IsUpper(c) }

  /** Unicode White_Space, which `char::is_whitespace` tests. */
  predicate IsWhitespace(c: char) {
    var n := c as int;
    9 <= n <= 13 || n == 0x20 || n == 0x85 || n == 0xA0 || n == 0x1680 || 0x2000 <= n <= 0x200A
    || n == 0x2028 || n == 0x2029 || n == 0x202F || n == 0x205F || n == 0x3000
  }

  /** Unicode general category Cc, which `char::is_control` tests. */
  predicate IsControl(c: char) {
    var n := c as int;
    n < 0x20 || 0x7F <= n < 0xA0
  }

  function LowerChar(c: char): char {
    if IsUpper(c) then (c as int + 32) as char else c
  }

  function UpperChar(c: char): char {
    if IsLower(c) then (c as int - 32) as char else c
  }

  function Lower(s: string): (r: string)
    ensures |r| == |s| && forall i :: 0 <= i < |s| ==> r[i] == LowerChar(s[i])
  {
    seq(|s|, i requires 0 <= i < |s| => LowerChar(s[i]))
  }

  function Upper(s: string): (r: string)
    ensures |r| == |s| && forall i :: 0 <= i < |s| ==> r[i] == UpperChar(s[i])
  {
    seq(|s|, i requires 0 <= i < |s| => UpperChar(s[i]))
  }

  /** Case changes the 26 letters and nothing else. */
  lemma CaseOfAscii(c: char)
    ensures 'A' <= c <= 'Z' ==> LowerChar(c) as int - 'a' as int == c as int - 'A' as int
    ensures 'a' <= c <= 'z' ==> UpperChar(c) as int - 'A' as int == c as int - 'a' as int
    ensures !('A' <= c <= 'Z') ==> LowerChar(c) == c
    ensures !('a' <= c <= 'z') ==> UpperChar(c) == c
  {
  }

  /** The white characters, one by one, and the two blocks of control characters. */
  lemma WhiteCharacters(c: char)
    ensures IsWhitespace(c) <==>
              || c in {'\t', '\n', '\U{000B}', '\U{000C}', '\r', ' ', '\U{0085}', '\U{00A0}', '\U{1680}'}
              || '\U{2000}' <= c <= '\U{200A}'
              || c in {'\U{2028}', '\U{2029}', '\U{202F}', '\U{205F}', '\U{3000}'}
    ensures IsControl(c) <==> c < ' ' || '\U{007F}' <= c < '\U{00A0}'
  {
  }

  // ----- whitespace tokens -----

  /** The tokens that a whitespace character has closed. */
  function ClosedTokens(s: string): (r: seq<string>) {
    if s == [] then []
    else
      var init := s[..|s| - 1];
      if IsWhitespace(s[|s| - 1]) && LastRun(init) != [] then ClosedTokens(init) + [LastRun(init)]
      else ClosedTokens(init)
  }

  /** The run of other characters that ends `s`. */
  function LastRun(s: string): (r: string) {
    if s == [] || IsWhitespace(s[|s| - 1]) then [] else LastRun(s[..|s| - 1]) + [s[|s| - 1]]
  }

  /** `split_whitespace()`. */
  function Tokens(s: string): (r: seq<string>) {
    ClosedTokens(s) + if LastRun(s) == [] then [] else [LastRun(s)]
  }

  lemma {:induction false} RunExtends(s: string, word: string)
    requires forall c :: c in word ==> !IsWhitespace(c)
    ensures ClosedTokens(s + word) == ClosedTokens(s)
    ensures LastRun(s + word) == LastRun(s) + word
  {
    if word == [] {
      assert s + word == s;
    } else {
      var init := word[..|word| - 1];
      assert (s + word)[..|s + word| - 1] == s + init;
      RunExtends(s, init);
      assert word == init + [word[|word| - 1]];
    }
  }

  lemma TokensThenWord(s: string, word: string)
    requires word != [] && forall c :: c in word ==> !IsWhitespace(c)
    ensures Tokens(s + " " + word) == Tokens(s) + [word]
  {
    var t := s + " ";
    assert t[..|t| - 1] == s && t[|t| - 1] == ' ';
    assert ClosedTokens(t) == Tokens(s) && LastRun(t) == [];
    RunExtends(t, word);
    assert [] + word == word;
  }

  function TrimStart(s: string): (r: string) {
    if s != [] && IsWhitespace(s[0]) then TrimStart(s[1..]) else s
  }

  function TrimEnd(s: string): (r: string) {
    if s != [] && IsWhitespace(s[|s| - 1]) then TrimEnd(s[..|s| - 1]) else s
  }

  /** `trim()`. */
  function Trim(s: string): string {
    TrimEnd(TrimStart(s))
  }

  lemma {:induction false} TrimStartOf(head: string, rest: string)
    requires (forall c :: c in head ==> IsWhitespace(c)) && (rest == "" || !IsWhitespace(rest[0]))
    ensures TrimStart(head + rest) == rest
  {
    if head == "" {
      assert head + rest == rest;
    } else {
      assert (head + rest)[1..] == head[1..] + rest;
      TrimStartOf(head[1..], rest);
    }
  }

  lemma {:induction false} TrimEndOf(rest: string, tail: string)
    requires (forall c :: c in tail ==> IsWhitespace(c)) && (rest == "" || !IsWhitespace(rest[|rest| - 1]))
    ensures TrimEnd(rest + tail) == rest
  {
    if tail == "" {
      assert rest + tail == rest;
    } else {
      assert (rest + tail)[..|rest + tail| - 1] == rest + tail[..|tail| - 1];
      TrimEndOf(rest, tail[..|tail| - 1]);
    }
  }

  /** White characters around a text are dropped, and those inside are kept. */
  lemma TrimOf(head: string, body: string, tail: string)
    requires (forall c :: c in head ==> IsWhitespace(c)) && (forall c :: c in tail ==> IsWhitespace(c))
    requires body != "" && !IsWhitespace(body[0]) && !IsWhitespace(body[|body| - 1])
    ensures Trim(head + body + tail) == body
  {
    assert (head + body) + tail == head + (body + tail) && (body + tail)[0] == body[0];
    TrimStartOf(head, body + tail);
    TrimEndOf(body, tail);
  }

  // ----- searching -----

  predicate At<T(==)>(s: seq<T>, pattern: seq<T>, i: int) {
    0 <= i && i + |pattern| <= |s| && forall k :: 0 <= k < |pattern| ==> s[i + k] == pattern[k]
  }

  /** `find(pattern)`, starting at `from`. */
  function FindFrom(s: string, pattern: string, from: nat): (r: Option<nat>)
    requires from <= |s|
    ensures r.Some? ==> from <= r.value && At(s, pattern, r.value)
                        && forall i :: from <= i < r.value ==> !At(s, pattern, i)
    ensures r.None? ==> forall i :: from <= i ==> !At(s, pattern, i)
    decreases |s| - from
  {
    if At(s, pattern, from) then Some(from)
    else if from == |s| then None
    else FindFrom(s, pattern, from + 1)
  }

  function Find(s: string, pattern: string): (r: Option<nat>)
    ensures r.Some? ==> At(s, pattern, r.value) && forall i :: 0 <= i < r.value ==> !At(s, pattern, i)
    ensures r.None? ==> forall i :: !At(s, pattern, i)
  {
    FindFrom(s, pattern, 0)
  }

  predicate Contains(s: string, pattern: string) {
    Find(s, pattern).Some?
  }

  lemma ContainsChars(s: string, pattern: string)
    ensures Contains(s, pattern) ==> forall c <- pattern :: c in s
  {
    if Contains(s, pattern) {
      var i := Find(s, pattern).value;
      assert forall k :: 0 <= k < |pattern| ==> pattern[k] == s[i + k];
    }
  }
}
