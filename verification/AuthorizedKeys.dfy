/**
 * Installing SSH public keys in an `authorized_keys` file under a `ttstation:<label>` marker, and
 * taking them out again. The file is edited in place; other people's lines share it.
 */
module AuthorizedKeys {
  import opened Wrappers
  import opened Seqs
  import opened Text

  datatype KeyError = EmptyKey | PrivateKey | MultiLine | UnknownType | NoMaterial | BadLabel

  datatype Outcome = Added | AlreadyPresent

  datatype RevokeTarget = Blob(blob: string) | Label(tag: string)

  const MARKER := "ttstation:"

  predicate KnownType(t: string) {
    t == "ssh-ed25519" || t == "ssh-rsa" || "ecdsa-sha2-" <= t || "sk-ssh-" <= t || "sk-ecdsa-" <= t
  }

  /** The trimmed key, or why it is refused. */
  function ValidatePublicKey(s: string): (r: Result<string, KeyError>) {
    var trimmed := Trim(s);
    if trimmed == "" then Err(EmptyKey)
    else if Contains(Upper(s), "PRIVATE KEY") then Err(PrivateKey)
    else if '\n' in trimmed then Err(MultiLine)
    else
      var fields := Tokens(trimmed);
      if fields == [] || !KnownType(fields[0]) then Err(UnknownType)
      else if |fields| < 2 then Err(NoMaterial)
      else Ok(trimmed)
  }

  predicate ValidLabel(tag: string) {
    forall c <- tag :: !IsWhitespace(c) && !IsControl(c)
  }

  /** The second token of a line, which is what makes two keys the same. */
  function KeyBlob(line: string): (r: Option<string>) {
    var fields := Tokens(line);
    if |fields| < 2 then None else Some(fields[1])
  }

  function LastToken(line: string): (r: Option<string>) {
    var fields := Tokens(line);
    if fields == [] then None else Some(fields[|fields| - 1])
  }

  /** A line the feature installed: its last token starts with the marker. */
  predicate IsMarked(line: string) {
    LastToken(line).Some? && MARKER <= LastToken(line).value
  }

  /** A line of someone else. */
  predicate IsForeign(line: string) {
    !IsMarked(line)
  }

  predicate LineMatches(line: string, which: RevokeTarget) {
    match which
    case Blob(blob) => KeyBlob(line) == Some(blob)
    case Label(tag) => LastToken(line) == Some(MARKER + tag)
  }

  function Survives(which: RevokeTarget): string -> bool {
    (line: string) => !LineMatches(line, which)
  }

  function KeyLine(key: string, tag: string): string {
    key + " " + (MARKER + tag)
  }

  predicate HasBlob(lines: seq<string>, blob: Option<string>) {
    exists i :: 0 <= i < |lines| && KeyBlob(lines[i]) == blob
  }

  /** What is written back from the kept lines. */
  function Body(kept: seq<string>): (r: string) {
    var joined := Join(kept, "\n");
    if joined == "" then "" else joined + "\n"
  }

  function Contents(file: Option<string>): string {
    match file case Some(s) => s case None => ""
  }

  class KeyFile {
    /** `None` while the file does not exist. */
    var file: Option<string>

    constructor (file: Option<string>)
      ensures this.file == file
    {
      this.file := file;
    }

    method Authorize(pubkey: string, tag: string) returns (r: Result<Outcome, KeyError>)
      modifies this
      ensures file == AfterAuthorize(old(file), pubkey, tag)
      ensures file != old(file) ==>
                file == Some(Contents(old(file)) + (ValidatePublicKey(pubkey).value + " ttstation:" + tag + "\n"))
      ensures r == match ValidatePublicKey(pubkey)
                   case Err(e) => Err(e)
                   case Ok(key) => if !ValidLabel(tag) then Err(BadLabel)
                                   else if HasBlob(Lines(Contents(old(file))), KeyBlob(key)) then Ok(AlreadyPresent)
                                   else Ok(Added)
    {
      var validated := ValidatePublicKey(pubkey);
      if validated.Err? {
        return Err(validated.error);
      }
      if !ValidLabel(tag) {
        return Err(BadLabel);
      }
      var key := validated.value;
      var existing := Contents(file);
      if HasBlob(Lines(existing), KeyBlob(key)) {
        return Ok(AlreadyPresent);
      }
      file := Some(existing + (KeyLine(key, tag) + "\n"));
      WrittenLine(key, tag);
      return Ok(Added);
    }

    method Revoke(which: RevokeTarget)
      modifies this
      ensures file == AfterRevoke(old(file), which)
    {
      if file.None? {
        return;
      }
      file := Some(Body(Filter(Lines(file.value), Survives(which))));
    }

    method RevokeAll() returns (removed: nat)
      modifies this
      ensures file == AfterRevokeAll(old(file))
      ensures removed == |Filter(Lines(Contents(old(file))), IsMarked)|
    {
      removed := 0;
      if file.None? {
        assert Contents(file) == "" && Lines("") == [] && Filter<string>([], IsMarked) == [];
        return;
      }
      var lines := Lines(file.value);
      var kept: seq<string> := [];
      for i := 0 to |lines|
        invariant file == old(file)
        invariant kept == Filter(lines[..i], IsForeign)
        invariant removed == |Filter(lines[..i], IsMarked)|
      {
        FilterPrefix(lines, i, IsForeign);
        FilterPrefix(lines, i, IsMarked);
        if IsMarked(lines[i]) {
          removed := removed + 1;
        } else {
          kept := kept + [lines[i]];
        }
      }
      assert lines[..|lines|] == lines;
      if removed == 0 {
        assert Filter(lines, IsMarked) == [];
        return;
      }
      file := Some(Body(kept));
    }
  }

  lemma WrittenLine(key: string, tag: string)
    ensures KeyLine(key, tag) == key + " ttstation:" + tag
  {
    assert key + " " + ("ttstation:" + tag) == key + " ttstation:" + tag;
  }

  // ----- what is accepted -----

  /** The trimmed text of a known type with key material, on one line, and nothing of a private key. */
  lemma AcceptedKeys(s: string)
    ensures var t := Trim(s);
            ValidatePublicKey(s) == Ok(t) <==>
              && t != "" && !Contains(Upper(s), "PRIVATE KEY") && '\n' !in t && |Tokens(t)| >= 2
              && (Tokens(t)[0] in {"ssh-ed25519", "ssh-rsa"} || "ecdsa-sha2-" <= Tokens(t)[0]
                  || "sk-ssh-" <= Tokens(t)[0] || "sk-ecdsa-" <= Tokens(t)[0])
    ensures ValidatePublicKey(s).Ok? ==> ValidatePublicKey(s).value == Trim(s)
    ensures ValidatePublicKey(s) == Err(EmptyKey) <==> Trim(s) == ""
    ensures ValidatePublicKey(s) == Err(PrivateKey) <==> Trim(s) != "" && Contains(Upper(s), "PRIVATE KEY")
    ensures ValidatePublicKey(s) == Err(MultiLine) <==>
              Trim(s) != "" && !Contains(Upper(s), "PRIVATE KEY") && '\n' in Trim(s)
    ensures ValidatePublicKey(s) == Err(NoMaterial) ==> |Tokens(Trim(s))| == 1
  {
  }

  /** A text with `private key` in it, in whatever case, is refused. */
  lemma PrivateKeyRefused(head: string, words: string, tail: string)
    requires Upper(words) == "PRIVATE KEY"
    ensures ValidatePublicKey(head + words + tail).Err?
  {
    var s := head + words + tail;
    assert |words| == |Upper(words)| == |"PRIVATE KEY"|;
    assert forall k :: 0 <= k < |words| ==> Upper(s)[|head| + k] == UpperChar(words[k]) == Upper(words)[k];
    assert At(Upper(s), "PRIVATE KEY", |head|);
  }

  /** Neither ASCII's space and control characters, nor any other white or control character, is in a label. */
  predicate PlainChar(c: char) {
    && c > ' ' && !('\U{007F}' <= c <= '\U{00A0}') && !('\U{2000}' <= c <= '\U{200A}')
    && c !in {'\U{1680}', '\U{2028}', '\U{2029}', '\U{202F}', '\U{205F}', '\U{3000}'}
  }

  lemma AcceptedLabels(tag: string)
    ensures ValidLabel(tag) <==> forall c <- tag :: PlainChar(c)
  {
    forall c | c in tag
      ensures !IsWhitespace(c) && !IsControl(c) <==> PlainChar(c)
    {
      WhiteCharacters(c);
    }
  }

  // ----- the file after each operation -----

  function AfterAuthorize(file: Option<string>, pubkey: string, tag: string): Option<string> {
    match ValidatePublicKey(pubkey)
    case Err(_) => file
    case Ok(key) =>
      if !ValidLabel(tag) || HasBlob(Lines(Contents(file)), KeyBlob(key)) then file
      else Some(Contents(file) + (KeyLine(key, tag) + "\n"))
  }

  function AfterRevoke(file: Option<string>, which: RevokeTarget): Option<string> {
    match file
    case None => None
    case Some(s) => Some(Body(Filter(Lines(s), Survives(which))))
  }

  function AfterRevokeAll(file: Option<string>): Option<string> {
    match file
    case None => None
    case Some(s) =>
      if Filter(Lines(s), IsMarked) == [] then file else Some(Body(Filter(Lines(s), IsForeign)))
  }

  /** Every line is closed and none ends in a carriage return; an absent file is tidy. */
  predicate Tidy(file: Option<string>) {
    Closed(Contents(file)) && PlainEndings(Contents(file))
  }

  function LinesIn(file: Option<string>): seq<string> {
    Lines(Contents(file))
  }

  lemma TidyLines(file: Option<string>)
    requires Tidy(file)
    ensures LinesIn(file) == Terminated(Contents(file), '\n')
    ensures Unlines(LinesIn(file), '\n') == Contents(file)
    ensures forall line :: line in LinesIn(file) ==> PlainLine(line)
  {
    LinesOfClosed(Contents(file));
    SplitLossless(Contents(file), '\n');
  }

  predicate PlainLine(line: string) {
    '\n' !in line && (line == "" || line[|line| - 1] != '\r')
  }

  lemma JoinIsEmpty(kept: seq<string>)
    ensures Join(kept, "\n") == "" <==> kept == [] || kept == [""]
  {
  }

  /** Rewriting keeps the lines, unless one blank line is all there is: then it is lost. */
  lemma BodyLines(kept: seq<string>)
    requires forall line :: line in kept ==> PlainLine(line)
    ensures Tidy(Some(Body(kept)))
    ensures LinesIn(Some(Body(kept))) == if kept == [""] then [] else kept
    ensures kept != [""] ==> Body(kept) == Unlines(kept, '\n')
  {
    JoinIsEmpty(kept);
    if kept != [] && kept != [""] {
      JoinThenClose(kept, '\n');
      assert "\n" == ['\n'];
      TerminatedUnlines(kept, '\n');
      TidyLines(Some(Body(kept)));
    }
  }

  lemma KeptArePlain(file: Option<string>, keep: string -> bool)
    requires Tidy(file)
    ensures forall line :: line in Filter(LinesIn(file), keep) ==> PlainLine(line)
  {
    TidyLines(file);
    FilterMembers(LinesIn(file), keep);
  }

  // ----- the line that authorize adds -----

  lemma NewLine(key: string, tag: string, pubkey: string)
    requires ValidatePublicKey(pubkey) == Ok(key) && ValidLabel(tag)
    ensures PlainLine(KeyLine(key, tag))
    ensures LastToken(KeyLine(key, tag)) == Some(MARKER + tag) && IsMarked(KeyLine(key, tag))
    ensures KeyBlob(KeyLine(key, tag)) == KeyBlob(key) && KeyBlob(key).Some?
  {
    MarkerWord(tag);
    TokensThenWord(key, MARKER + tag);
    PlainKeyLine(key, tag);
  }

  lemma MarkerWord(tag: string)
    requires ValidLabel(tag)
    ensures forall c :: c in MARKER + tag ==> !IsWhitespace(c)
  {
    assert forall c :: c in MARKER + tag ==> c in MARKER || c in tag;
  }

  lemma PlainKeyLine(key: string, tag: string)
    requires '\n' !in key && ValidLabel(tag)
    ensures PlainLine(KeyLine(key, tag))
  {
    MarkerWord(tag);
    var line, word := KeyLine(key, tag), MARKER + tag;
    assert line[|line| - 1] == word[|word| - 1] && word[|word| - 1] in word;
  }

  /** Added to a closed file, the new line comes after all the others. */
  lemma AuthorizeAppends(file: Option<string>, pubkey: string, tag: string)
    requires Tidy(file)
    ensures Tidy(AfterAuthorize(file, pubkey, tag))
    ensures LinesIn(AfterAuthorize(file, pubkey, tag))
            == if AfterAuthorize(file, pubkey, tag) == file then LinesIn(file)
               else LinesIn(file) + [KeyLine(ValidatePublicKey(pubkey).value, tag)]
  {
    if AfterAuthorize(file, pubkey, tag) != file {
      var line := KeyLine(ValidatePublicKey(pubkey).value, tag);
      NewLine(ValidatePublicKey(pubkey).value, tag, pubkey);
      TidyLines(file);
      AppendLine(Contents(file), line);
    }
  }

  lemma AppendLine(s: string, line: string)
    requires Closed(s) && PlainEndings(s) && PlainLine(line)
    ensures Closed(s + (line + "\n")) && PlainEndings(s + (line + "\n"))
    ensures Lines(s + (line + "\n")) == Lines(s) + [line]
  {
    CloseLine(s, line, '\n');
    assert s + line + ['\n'] == s + (line + "\n");
    assert [] + line == line;
    LinesOfClosed(s);
    LinesOfClosed(s + (line + "\n"));
  }

  // ----- runs of edits -----

  datatype Edit = DoAuthorize(pubkey: string, tag: string) | DoRevoke(which: RevokeTarget) | DoRevokeAll

  function After(file: Option<string>, e: Edit): Option<string> {
    match e
    case DoAuthorize(pubkey, tag) => AfterAuthorize(file, pubkey, tag)
    case DoRevoke(which) => AfterRevoke(file, which)
    case DoRevokeAll => AfterRevokeAll(file)
  }

  function AfterAll(file: Option<string>, edits: seq<Edit>): (r: Option<string>) {
    if edits == [] then file else After(AfterAll(file, edits[..|edits| - 1]), edits[|edits| - 1])
  }

  /** The lines of other people, verbatim and in order. */
  function ForeignLines(file: Option<string>): seq<string> {
    Filter(LinesIn(file), IsForeign)
  }

  lemma RevokeKeeps(file: Option<string>, which: RevokeTarget)
    requires Tidy(file)
    ensures Tidy(AfterRevoke(file, which))
    ensures var kept := Filter(LinesIn(file), Survives(which));
            LinesIn(AfterRevoke(file, which)) == if kept == [""] then [] else kept
  {
    if file.Some? {
      KeptArePlain(file, Survives(which));
      BodyLines(Filter(LinesIn(file), Survives(which)));
    } else {
      assert LinesIn(file) == [];
    }
  }

  /** The lines whose second token is something else, or that have none. */
  function OtherMaterial(blob: string): string -> bool {
    line => |Tokens(line)| < 2 || Tokens(line)[1] != blob
  }

  /** The lines whose last token is something else. */
  function OtherEnd(word: string): string -> bool {
    line => Tokens(line) == [] || Tokens(line)[|Tokens(line)| - 1] != word
  }

  /** The lines whose last token does not start that way. */
  function OtherStart(word: string): string -> bool {
    line => Tokens(line) == [] || !(word <= Tokens(line)[|Tokens(line)| - 1])
  }

  lemma SameSurvivors(lines: seq<string>, blob: string, tag: string)
    ensures Filter(lines, Survives(Blob(blob))) == Filter(lines, OtherMaterial(blob))
    ensures Filter(lines, Survives(Label(tag))) == Filter(lines, OtherEnd("ttstation:" + tag))
  {
    FilterAgree(lines, Survives(Blob(blob)), OtherMaterial(blob));
    FilterAgree(lines, Survives(Label(tag)), OtherEnd("ttstation:" + tag));
  }

  lemma SameForeign(lines: seq<string>)
    ensures Filter(lines, IsForeign) == Filter(lines, OtherStart("ttstation:"))
  {
    FilterAgree(lines, IsForeign, OtherStart("ttstation:"));
  }

  lemma OtherMaterialLeft(lines: seq<string>, blob: string)
    ensures forall line <- Filter(lines, OtherMaterial(blob)) :: |Tokens(line)| < 2 || Tokens(line)[1] != blob
  {
    FilterMembers(lines, OtherMaterial(blob));
  }

  /** Revoking key material leaves exactly the other lines, in order; a lone blank line is lost. */
  lemma RevokedByBlob(file: Option<string>, blob: string)
    requires Tidy(file)
    ensures var kept := Filter(LinesIn(file), OtherMaterial(blob));
            LinesIn(AfterRevoke(file, Blob(blob))) == if kept == [""] then [] else kept
    ensures forall line <- LinesIn(AfterRevoke(file, Blob(blob))) :: |Tokens(line)| < 2 || Tokens(line)[1] != blob
  {
    RevokeKeeps(file, Blob(blob));
    SameSurvivors(LinesIn(file), blob, "");
    OtherMaterialLeft(LinesIn(file), blob);
  }

  /** Revoking a label leaves exactly the lines that do not end in its marker. */
  lemma RevokedByLabel(file: Option<string>, tag: string)
    requires Tidy(file)
    ensures var kept := Filter(LinesIn(file), OtherEnd("ttstation:" + tag));
            LinesIn(AfterRevoke(file, Label(tag))) == if kept == [""] then [] else kept
  {
    RevokeKeeps(file, Label(tag));
    SameSurvivors(LinesIn(file), "", tag);
  }

  /** A reset leaves exactly the lines that do not end in a marker. */
  lemma RevokedAll(file: Option<string>)
    requires Tidy(file)
    ensures var kept := Filter(LinesIn(file), OtherStart("ttstation:"));
            LinesIn(AfterRevokeAll(file)) == if kept == [""] && LinesIn(file) != [""] then [] else kept
  {
    RevokeAllKeeps(file);
    SameForeign(LinesIn(file));
  }

  lemma RevokeAllKeeps(file: Option<string>)
    requires Tidy(file)
    ensures Tidy(AfterRevokeAll(file))
    ensures LinesIn(AfterRevokeAll(file))
            == if ForeignLines(file) == [""] && LinesIn(file) != [""] then [] else ForeignLines(file)
  {
    if file.Some? {
      KeptArePlain(file, IsForeign);
      BodyLines(ForeignLines(file));
      FilterMembers(LinesIn(file), IsMarked);
      FilterAll(LinesIn(file), IsForeign);
      BlankLine();
      if Filter(LinesIn(file), IsMarked) == [] {
        assert forall line :: line in LinesIn(file) ==> line !in Filter(LinesIn(file), IsMarked) && IsForeign(line);
      } else {
        assert Filter(LinesIn(file), IsMarked)[0] in Filter(LinesIn(file), IsMarked);
      }
    } else {
      assert LinesIn(file) == [];
    }
  }

  lemma ForeignOfKept(lines: seq<string>, tag: string)
    ensures Filter(Filter(lines, Survives(Label(tag))), IsForeign) == Filter(lines, IsForeign)
  {
    FilterTwice(lines, Survives(Label(tag)), IsForeign);
    FilterAgree(lines, x => Survives(Label(tag))(x) && IsForeign(x), IsForeign);
  }

  lemma ForeignTwice(lines: seq<string>)
    ensures Filter(Filter(lines, IsForeign), IsForeign) == Filter(lines, IsForeign)
  {
    FilterTwice(lines, IsForeign, IsForeign);
    FilterAgree(lines, x => IsForeign(x) && IsForeign(x), IsForeign);
  }

  lemma BlankLine()
    ensures LastToken("") == None
    ensures Filter([""], IsForeign) == [""]
    ensures forall tag :: Filter([""], Survives(Label(tag))) == [""]
  {
    assert [""][..0] == [];
  }

  lemma NoLines()
    ensures Filter([], IsForeign) == []
    ensures forall tag :: Filter([], Survives(Label(tag))) == []
  {
  }

  /** Edits by label and by marker, and installs. */
  predicate ByMarker(e: Edit) {
    e.DoRevoke? ==> e.which.Label?
  }

  /** The same lines, or none where there was only a blank one. */
  predicate SameUnlessBlank(before: seq<string>, after: seq<string>) {
    after == before || (before == [""] && after == [])
  }

  lemma AuthorizeKeepsForeign(file: Option<string>, pubkey: string, tag: string)
    requires Tidy(file)
    ensures ForeignLines(AfterAuthorize(file, pubkey, tag)) == ForeignLines(file)
  {
    AuthorizeAppends(file, pubkey, tag);
    if AfterAuthorize(file, pubkey, tag) != file {
      var key := ValidatePublicKey(pubkey).value;
      NewLine(key, tag, pubkey);
      FilterSnoc(LinesIn(file), KeyLine(key, tag), IsForeign);
    }
  }

  lemma RevokeKeepsForeign(file: Option<string>, tag: string)
    requires Tidy(file)
    ensures SameUnlessBlank(ForeignLines(file), ForeignLines(AfterRevoke(file, Label(tag))))
  {
    RevokeKeeps(file, Label(tag));
    ForeignOfKept(LinesIn(file), tag);
    BlankLine();
    NoLines();
  }

  lemma RevokeAllKeepsForeign(file: Option<string>)
    requires Tidy(file)
    ensures SameUnlessBlank(ForeignLines(file), ForeignLines(AfterRevokeAll(file)))
  {
    RevokeAllKeeps(file);
    ForeignTwice(LinesIn(file));
    NoLines();
  }

  /** One edit keeps the file tidy and other people's lines, or loses a blank line that is all they are. */
  lemma EditKeepsForeign(file: Option<string>, e: Edit)
    requires Tidy(file) && ByMarker(e)
    ensures Tidy(After(file, e))
    ensures SameUnlessBlank(ForeignLines(file), ForeignLines(After(file, e)))
  {
    match e
    case DoAuthorize(pubkey, tag) =>
      AuthorizeAppends(file, pubkey, tag);
      AuthorizeKeepsForeign(file, pubkey, tag);
    case DoRevoke(which) =>
      RevokeKeeps(file, which);
      RevokeKeepsForeign(file, which.tag);
    case DoRevokeAll =>
      RevokeAllKeeps(file);
      RevokeAllKeepsForeign(file);
  }

  lemma {:induction false} EditsKeepForeign(file: Option<string>, edits: seq<Edit>)
    requires Tidy(file) && forall i :: 0 <= i < |edits| ==> ByMarker(edits[i])
    ensures Tidy(AfterAll(file, edits))
    ensures SameUnlessBlank(ForeignLines(file), ForeignLines(AfterAll(file, edits)))
  {
    if edits != [] {
      EditsKeepForeign(file, edits[..|edits| - 1]);
      EditKeepsForeign(AfterAll(file, edits[..|edits| - 1]), edits[|edits| - 1]);
    }
  }

  predicate AllByMarker(edits: seq<Edit>) {
    forall i :: 0 <= i < |edits| ==> ByMarker(edits[i])
  }

  /**
   * Other people's lines outlive every run of edits exactly when they are not one single blank
   * line.
   */
  lemma ForeignLinesOutliveEdits(file: Option<string>)
    requires Tidy(file)
    ensures ForeignLines(file) != [""] <==>
              forall edits :: AllByMarker(edits) ==> ForeignLines(AfterAll(file, edits)) == ForeignLines(file)
  {
    if ForeignLines(file) == [""] {
      var edits := LoneBlankLineIsLost(file);
      assert ForeignLines(AfterAll(file, edits)) != ForeignLines(file);
    } else {
      forall edits | AllByMarker(edits)
        ensures ForeignLines(AfterAll(file, edits)) == ForeignLines(file)
      {
        EditsKeepForeign(file, edits);
      }
    }
  }

  lemma LoneBlankLineIsLost(file: Option<string>) returns (edits: seq<Edit>)
    requires Tidy(file) && ForeignLines(file) == [""]
    ensures AllByMarker(edits) && ForeignLines(AfterAll(file, edits)) == []
  {
    var end := EmptiedByTwo(file);
    edits := RevokeEverything(file);
    assert AfterAll(file, edits) == end;
  }

  lemma EmptiedByTwo(file: Option<string>) returns (end: Option<string>)
    requires Tidy(file) && ForeignLines(file) == [""]
    ensures end == AfterRevoke(AfterRevokeAll(file), Label("")) && ForeignLines(end) == []
  {
    MarkersGone(file);
    AtMostBlankIsEmptied(AfterRevokeAll(file));
    end := AfterRevoke(AfterRevokeAll(file), Label(""));
  }

  lemma RevokeEverything(file: Option<string>) returns (edits: seq<Edit>)
    ensures AllByMarker(edits) && AfterAll(file, edits) == AfterRevoke(AfterRevokeAll(file), Label(""))
  {
    var a, b := DoRevokeAll, DoRevoke(Label(""));
    edits := [a, b];
    assert edits[..1] == [a] && [a][..0] == [];
    assert AfterAll(file, []) == file && AfterAll(file, [a]) == After(file, a);
  }

  lemma MarkersGone(file: Option<string>)
    requires Tidy(file) && ForeignLines(file) == [""]
    ensures Tidy(AfterRevokeAll(file))
    ensures LinesIn(AfterRevokeAll(file)) == [] || LinesIn(AfterRevokeAll(file)) == [""]
  {
    RevokeAllKeeps(file);
  }

  lemma AtMostBlankIsEmptied(file: Option<string>)
    requires Tidy(file) && (LinesIn(file) == [] || LinesIn(file) == [""])
    ensures ForeignLines(AfterRevoke(file, Label(""))) == []
  {
    RevokeKeeps(file, Label(""));
    BlankLine();
    NoLines();
  }

  // ----- one line per key -----

  /** No two lines carry the same key. */
  ghost predicate OneLinePerKey(lines: seq<string>) {
    forall i, j :: 0 <= i < j < |lines| && KeyBlob(lines[i]).Some? ==> KeyBlob(lines[i]) != KeyBlob(lines[j])
  }

  lemma {:induction false} FilterKeepsOnePerKey(lines: seq<string>, keep: string -> bool)
    requires OneLinePerKey(lines)
    ensures OneLinePerKey(Filter(lines, keep))
  {
    if lines != [] {
      var init, last := lines[..|lines| - 1], lines[|lines| - 1];
      FilterKeepsOnePerKey(init, keep);
      FilterMembers(init, keep);
      forall i | 0 <= i < |Filter(init, keep)| && KeyBlob(Filter(init, keep)[i]).Some?
        ensures KeyBlob(Filter(init, keep)[i]) != KeyBlob(last)
      {
        assert Filter(init, keep)[i] in init;
        var k :| 0 <= k < |init| && init[k] == Filter(init, keep)[i];
        assert lines[k] == init[k];
      }
    }
  }

  lemma AuthorizeKeepsOnePerKey(file: Option<string>, pubkey: string, tag: string, after: Option<string>)
    requires Tidy(file) && OneLinePerKey(LinesIn(file)) && after == AfterAuthorize(file, pubkey, tag)
    ensures OneLinePerKey(LinesIn(after))
  {
    AuthorizeAppends(file, pubkey, tag);
    if after != file {
      var key := ValidatePublicKey(pubkey).value;
      NewLine(key, tag, pubkey);
      NewKeySnoc(LinesIn(file), KeyLine(key, tag));
    }
  }

  lemma NewKeySnoc(lines: seq<string>, line: string)
    requires OneLinePerKey(lines) && !HasBlob(lines, KeyBlob(line))
    ensures OneLinePerKey(lines + [line])
  {
  }

  lemma RevokeKeepsOnePerKey(file: Option<string>, which: RevokeTarget, after: Option<string>)
    requires Tidy(file) && OneLinePerKey(LinesIn(file)) && after == AfterRevoke(file, which)
    ensures OneLinePerKey(LinesIn(after))
  {
    RevokeKeeps(file, which);
    FilterKeepsOnePerKey(LinesIn(file), Survives(which));
  }

  lemma RevokeAllKeepsOnePerKey(file: Option<string>, after: Option<string>)
    requires Tidy(file) && OneLinePerKey(LinesIn(file)) && after == AfterRevokeAll(file)
    ensures OneLinePerKey(LinesIn(after))
  {
    RevokeAllKeeps(file);
    FilterKeepsOnePerKey(LinesIn(file), IsForeign);
  }

  lemma EditKeepsTidy(file: Option<string>, e: Edit)
    requires Tidy(file)
    ensures Tidy(After(file, e))
  {
    match e
    case DoAuthorize(pubkey, tag) => AuthorizeAppends(file, pubkey, tag);
    case DoRevoke(which) => RevokeKeeps(file, which);
    case DoRevokeAll => RevokeAllKeeps(file);
  }

  lemma EditKeepsOnePerKey(file: Option<string>, e: Edit, after: Option<string>)
    requires Tidy(file) && OneLinePerKey(LinesIn(file)) && after == After(file, e)
    ensures OneLinePerKey(LinesIn(after))
  {
    match e
    case DoAuthorize(pubkey, tag) => AuthorizeKeepsOnePerKey(file, pubkey, tag, after);
    case DoRevoke(which) => RevokeKeepsOnePerKey(file, which, after);
    case DoRevokeAll => RevokeAllKeepsOnePerKey(file, after);
  }

  /** Whatever is edited, in any order, no key ends up on two lines. */
  lemma {:induction false} EditsKeepOnePerKey(file: Option<string>, edits: seq<Edit>)
    requires Tidy(file) && OneLinePerKey(LinesIn(file))
    ensures Tidy(AfterAll(file, edits)) && OneLinePerKey(LinesIn(AfterAll(file, edits)))
  {
    if edits != [] {
      var before, e := AfterAll(file, edits[..|edits| - 1]), edits[|edits| - 1];
      EditsKeepOnePerKey(file, edits[..|edits| - 1]);
      EditKeepsTidy(before, e);
      EditKeepsOnePerKey(before, e, AfterAll(file, edits));
    }
  }

  // ----- installing and then revoking -----

  predicate LabelUnused(file: Option<string>, tag: string) {
    forall line <- LinesIn(file) :: LastToken(line) != Some(MARKER + tag)
  }

  /**
   * Revoking the unused label a key was just installed under restores the exact bytes, unless the
   * file was a single empty line. A file that did not exist comes back empty.
   */
  lemma RevokeUndoesAuthorize(file: Option<string>, pubkey: string, tag: string)
    requires Tidy(file) && LabelUnused(file, tag)
    requires AfterAuthorize(file, pubkey, tag) != file
    ensures var after := AfterRevoke(AfterAuthorize(file, pubkey, tag), Label(tag));
            && (after == Some(Contents(file)) <==> Contents(file) != "\n")
            && (after == file <==> file.Some? && Contents(file) != "\n")
  {
    RevokedInstallBody(file, pubkey, tag);
    RestoredBody(file);
  }

  lemma RevokedInstallBody(file: Option<string>, pubkey: string, tag: string)
    requires Tidy(file) && LabelUnused(file, tag)
    requires AfterAuthorize(file, pubkey, tag) != file
    ensures AfterRevoke(AfterAuthorize(file, pubkey, tag), Label(tag)) == Some(Body(LinesIn(file)))
  {
    var key := ValidatePublicKey(pubkey).value;
    var line, lines := KeyLine(key, tag), LinesIn(file);
    NewLine(key, tag, pubkey);
    AuthorizeAppends(file, pubkey, tag);
    FilterSnoc(lines, line, Survives(Label(tag)));
    FilterAll(lines, Survives(Label(tag)));
  }

  /** The same by key material: a new key, revoked by what identifies it, leaves the file as it was. */
  lemma RevokeByBlobUndoesAuthorize(file: Option<string>, pubkey: string, tag: string)
    requires Tidy(file) && AfterAuthorize(file, pubkey, tag) != file
    ensures ValidatePublicKey(pubkey).Ok? && KeyBlob(ValidatePublicKey(pubkey).value).Some?
    ensures var blob := KeyBlob(ValidatePublicKey(pubkey).value).value;
            AfterRevoke(AfterAuthorize(file, pubkey, tag), Blob(blob)) == Some(Contents(file)) <==> Contents(file) != "\n"
  {
    var key := ValidatePublicKey(pubkey).value;
    NewLine(key, tag, pubkey);
    BlobRevokedBody(file, pubkey, tag, key);
    RestoredBody(file);
  }

  lemma BlobRevokedBody(file: Option<string>, pubkey: string, tag: string, key: string)
    requires Tidy(file) && AfterAuthorize(file, pubkey, tag) != file
    requires ValidatePublicKey(pubkey) == Ok(key) && KeyBlob(key).Some?
    ensures AfterRevoke(AfterAuthorize(file, pubkey, tag), Blob(KeyBlob(key).value)) == Some(Body(LinesIn(file)))
  {
    var lines, which := LinesIn(file), Blob(KeyBlob(key).value);
    NewLine(key, tag, pubkey);
    AuthorizeAppends(file, pubkey, tag);
    FilterSnoc(lines, KeyLine(key, tag), Survives(which));
    NewKeySurvivors(lines, KeyBlob(key).value);
  }

  lemma NewKeySurvivors(lines: seq<string>, blob: string)
    requires !HasBlob(lines, Some(blob))
    ensures Filter(lines, Survives(Blob(blob))) == lines
  {
    FilterAll(lines, Survives(Blob(blob)));
  }

  /** What is written back from all the lines of a tidy file. */
  lemma RestoredBody(file: Option<string>)
    requires Tidy(file)
    ensures Body(LinesIn(file)) == Contents(file) <==> Contents(file) != "\n"
  {
    TidyLines(file);
    BodyLines(LinesIn(file));
    SingleEmptyLine();
  }

  lemma SingleEmptyLine()
    ensures Body([""]) == "" && Unlines([""], '\n') == "\n"
    ensures Terminated("\n", '\n') == [""] && Lines("\n") == [""]
  {
    assert [""][..0] == [] && "\n"[..0] == "";
  }

  /**
   * Revoking rewrites the whole file, so a revoke that matches no line leaves the bytes alone
   * exactly when every line is closed, none ends in a carriage return, and the file is not one
   * empty line.
   */
  lemma IdleRevokeKeepsBytes(file: Option<string>, tag: string)
    requires file.Some? && LabelUnused(file, tag)
    ensures AfterRevoke(file, Label(tag)) == file <==> Tidy(file) && file.value != "\n"
  {
    FilterAll(LinesIn(file), Survives(Label(tag)));
    if Tidy(file) {
      TidyLines(file);
      BodyLines(LinesIn(file));
      SingleEmptyLine();
    }
    if Body(Lines(file.value)) == file.value {
      RewrittenIsTidy(file.value);
    }
  }

  lemma RewrittenIsTidy(s: string)
    requires Body(Lines(s)) == s
    ensures Closed(s) && PlainEndings(s) && s != "\n"
  {
    JoinIsEmpty(Lines(s));
    if s != "" {
      JoinThenClose(Lines(s), '\n');
      assert "\n" == ['\n'];
      LinesHoldNoNewline(s);
      ClosedPlain(s);
    }
  }

  lemma ClosedPlain(s: string)
    requires Unlines(Lines(s), '\n') == s && forall line :: line in Lines(s) ==> '\n' !in line
    ensures Closed(s) && PlainEndings(s)
  {
    TerminatedUnlines(Lines(s), '\n');
    var t := Terminated(s, '\n');
    assert forall i :: 0 <= i < |t| ==> t[i] == Chomp(t[i], '\r');
  }

  lemma LinesHoldNoNewline(s: string)
    ensures forall line :: line in Lines(s) ==> '\n' !in line
  {
    SplitLossless(s, '\n');
    var t := Terminated(s, '\n');
    forall i | 0 <= i < |t|
      ensures '\n' !in Chomp(t[i], '\r')
    {
      assert t[i] in t;
    }
  }

  // ----- a file that does not end in a newline -----

  /** Installing into a file keeps every line of it exactly when its last line is closed. */
  lemma AuthorizeNeedsClosedFile(file: Option<string>, pubkey: string, tag: string)
    requires AfterAuthorize(file, pubkey, tag) != file
    ensures LinesIn(file) <= LinesIn(AfterAuthorize(file, pubkey, tag)) <==> Closed(Contents(file))
    ensures !Closed(Contents(file)) ==>
              var lines := LinesIn(AfterAuthorize(file, pubkey, tag));
              lines != [] && LastToken(lines[|lines| - 1]) == Some(MARKER + tag)
  {
    var key := ValidatePublicKey(pubkey).value;
    var line, rest := KeyLine(key, tag), Remainder(Contents(file), '\n');
    NewLine(key, tag, pubkey);
    GluedLine(Contents(file), line);
    GluedToken(rest, key, tag);
    assert rest == [] ==> rest + line == line;
  }

  /** A line appended to a text is glued to the unfinished last line. */
  lemma GluedLine(s: string, line: string)
    requires PlainLine(line) && line != ""
    ensures Lines(s + (line + "\n")) == Chomps(Terminated(s, '\n'), '\r') + [Remainder(s, '\n') + line]
    ensures Lines(s) <= Lines(s + (line + "\n")) <==> Closed(s)
  {
    GluedLines(s, line);
    var before, after := Lines(s), Lines(s + (line + "\n"));
    if !Closed(s) {
      assert |before| == |after| && before[|before| - 1] != after[|after| - 1];
    }
  }

  lemma GluedLines(s: string, line: string)
    requires PlainLine(line) && line != ""
    ensures Lines(s + (line + "\n")) == Chomps(Terminated(s, '\n'), '\r') + [Remainder(s, '\n') + line]
  {
    var glued := Remainder(s, '\n') + line;
    CloseLine(s, line, '\n');
    assert s + line + ['\n'] == s + (line + "\n");
    ChompsConcat(Terminated(s, '\n'), [glued]);
    PlainEnd(glued, line);
  }

  lemma PlainEnd(glued: string, line: string)
    requires line != "" && PlainLine(line) && |glued| >= |line| && glued[|glued| - |line|..] == line
    ensures Chomps([glued], '\r') == [glued]
  {
    assert glued[|glued| - 1] == line[|line| - 1];
  }

  lemma GluedToken(rest: string, key: string, tag: string)
    requires ValidLabel(tag)
    ensures LastToken(rest + KeyLine(key, tag)) == Some(MARKER + tag)
  {
    var word := MARKER + tag;
    MarkerWord(tag);
    TokensThenWord(rest + key, word);
    assert rest + key + " " + word == rest + KeyLine(key, tag);
  }

  // ----- three small files -----

  const KEY_TYPE := "ssh-ed25519"

  lemma OneToken(word: string)
    requires word != "" && forall c :: c in word ==> !IsWhitespace(c)
    ensures Tokens(word) == [word]
  {
    RunExtends("", word);
    assert "" + word == word;
  }

  lemma TrimLeaves(s: string)
    requires s != "" && !IsWhitespace(s[0]) && !IsWhitespace(s[|s| - 1])
    ensures Trim(s) == s
  {
  }

  /** Key material: one word, and nothing in it to take for a private key. */
  predicate IsMaterial(material: string) {
    material != "" && forall c <- material :: !IsWhitespace(c) && UpperChar(c) != 'P'
  }

  lemma NotPrivate(key: string)
    requires forall c :: c in key ==> UpperChar(c) != 'P'
    ensures !Contains(Upper(key), "PRIVATE KEY")
  {
    assert forall i :: 0 <= i < |key| ==> key[i] in key;
    assert "PRIVATE KEY"[0] == 'P';
    ContainsChars(Upper(key), "PRIVATE KEY");
  }

  lemma KeyText(material: string) returns (key: string)
    requires IsMaterial(material)
    ensures key == KEY_TYPE + " " + material && Tokens(key) == [KEY_TYPE, material]
    ensures key != "" && !IsWhitespace(key[0]) && !IsWhitespace(key[|key| - 1])
    ensures forall c :: c in key ==> c != '\n' && UpperChar(c) != 'P'
  {
    key := KEY_TYPE + " " + material;
    OneToken(KEY_TYPE);
    TokensThenWord(KEY_TYPE, material);
    assert key[|key| - 1] == material[|material| - 1] && material[|material| - 1] in material;
    assert key[0] == KEY_TYPE[0];
    assert forall c :: c in key ==> c in KEY_TYPE || c == ' ' || c in material;
  }

  /** A key line of a known type is accepted as it is. */
  lemma KeyAccepted(material: string) returns (key: string)
    requires IsMaterial(material)
    ensures key == KEY_TYPE + " " + material
    ensures ValidatePublicKey(key) == Ok(key) && KeyBlob(key) == Some(material)
  {
    key := KeyText(material);
    TrimLeaves(key);
    NotPrivate(key);
  }

  lemma OpenLine(word: string)
    requires word != "" && '\n' !in word
    ensures Lines(word) == [word] && !Closed(word)
  {
    var none := "";
    NoDelimiter(none, word, '\n');
    assert none + word == word && Terminated(none, '\n') == [] && Remainder(none, '\n') == [];
  }

  lemma SmallFiles()
    ensures Lines("a") == ["a"] && !Closed("a") && KeyBlob("a") == None && LastToken("a") == Some("a")
    ensures Lines("\n") == [""] && KeyBlob("") == None && Tidy(Some("\n"))
  {
    OneToken("a");
    OpenLine("a");
    SingleEmptyLine();
  }

  /** A new key is installed in a file whose one line is no key. */
  lemma InstallInto(file: Option<string>, line: string, key: string, tag: string)
    requires LinesIn(file) == [line] && KeyBlob(line) == None
    requires ValidatePublicKey(key) == Ok(key) && KeyBlob(key).Some? && ValidLabel(tag)
    ensures AfterAuthorize(file, key, tag) == Some(Contents(file) + (KeyLine(key, tag) + "\n"))
  {
    assert !HasBlob([line], KeyBlob(key));
  }

  lemma LongerFile(s: string, more: string)
    requires more != ""
    ensures s + more != s
  {
    assert |s + more| > |s|;
  }

  /** A file holding `a` and no newline: the installed line runs on from it. */
  lemma UnfinishedLineIsGlued(material: string, tag: string)
    requires IsMaterial(material) && ValidLabel(tag)
    ensures var key := KEY_TYPE + " " + material;
            && AfterAuthorize(Some("a"), key, tag) == Some("a" + (KeyLine(key, tag) + "\n"))
            && !(LinesIn(Some("a")) <= LinesIn(AfterAuthorize(Some("a"), key, tag)))
  {
    var key := KeyAccepted(material);
    SmallFiles();
    InstallInto(Some("a"), "a", key, tag);
    LongerFile("a", KeyLine(key, tag) + "\n");
    AuthorizeNeedsClosedFile(Some("a"), key, tag);
  }

  lemma OneSurvivor(line: string, keep: string -> bool)
    requires keep(line)
    ensures Filter([line], keep) == [line]
  {
    FilterSnoc([], line, keep);
    assert [] + [line] == [line];
  }

  /** Revoking a label that is not there closes the last line. */
  lemma IdleRevokeClosesLine(tag: string)
    ensures AfterRevoke(Some("a"), Label(tag)) == Some("a\n")
  {
    SmallFiles();
    var marker := MARKER + tag;
    assert |marker| > 1;
    assert LastToken("a") != Some(marker);
    OneSurvivor("a", Survives(Label(tag)));
    assert Body(["a"]) == "a" + "\n" == "a\n";
  }

  lemma RevokedFromBlank(file: Option<string>, key: string, tag: string, after: Option<string>)
    requires Tidy(file) && LinesIn(file) == [""] && after == AfterAuthorize(file, key, tag) && after != file
    ensures AfterRevoke(after, Label(tag)) == Some("")
  {
    BlankLine();
    assert LabelUnused(file, tag);
    RevokedInstallBody(file, key, tag);
    JoinIsEmpty([""]);
  }

  /** Installing a key in a file that is one empty line and revoking it leaves the file empty. */
  lemma LoneNewlineIsLost(material: string, tag: string)
    requires IsMaterial(material) && ValidLabel(tag)
    ensures var key := KEY_TYPE + " " + material;
            && AfterAuthorize(Some("\n"), key, tag) == Some("\n" + (KeyLine(key, tag) + "\n"))
            && AfterRevoke(AfterAuthorize(Some("\n"), key, tag), Label(tag)) == Some("")
  {
    var key := KeyAccepted(material);
    SmallFiles();
    InstallInto(Some("\n"), "", key, tag);
    LongerFile("\n", KeyLine(key, tag) + "\n");
    RevokedFromBlank(Some("\n"), key, tag, AfterAuthorize(Some("\n"), key, tag));
  }
}
