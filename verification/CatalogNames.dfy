/** How the catalog's spellings are compared: model keys, and hardware names as meshes. */
module CatalogNames {
  import opened Wrappers
  import opened Text

  // ----- model keys -----

  function FoldChar(c: char): char {
    if c == '.' || c == '_' || c == ' ' then '-' else c
  }

  function Fold(s: string): (r: string)
    ensures |r| == |s| && forall i :: 0 <= i < |s| ==> r[i] == FoldChar(s[i])
  {
    seq(|s|, i requires 0 <= i < |s| => FoldChar(s[i]))
  }

  /** Runs of dashes cut down to one. */
  function Collapse(s: string): (r: string) {
    if s == "" then ""
    else
      var init, c := s[..|s| - 1], s[|s| - 1];
      if c == '-' && init != "" && init[|init| - 1] == '-' then Collapse(init) else Collapse(init) + [c]
  }

  function NormalizeKey(s: string): (r: string) {
    Collapse(Fold(Remainder(Lower(s), '/')))
  }

  method NormalizeKeyOf(s: string) returns (collapsed: string)
    ensures collapsed == NormalizeKey(s)
  {
    var folded := Fold(Remainder(Lower(s), '/'));
    collapsed := "";
    var prevDash := false;
    for i := 0 to |folded|
      invariant collapsed == Collapse(folded[..i])
      invariant prevDash <==> i > 0 && folded[i - 1] == '-'
    {
      assert folded[..i + 1][..i] == folded[..i];
      if folded[i] == '-' {
        if !prevDash {
          collapsed := collapsed + [folded[i]];
        }
        prevDash := true;
      } else {
        collapsed := collapsed + [folded[i]];
        prevDash := false;
      }
    }
    assert folded[..|folded|] == folded;
  }

  /** No capital letter, no separator but the dash, no organisation, and never two dashes together. */
  predicate IsKey(s: string) {
    && (forall i :: 0 <= i < |s| ==> !('A' <= s[i] <= 'Z') && s[i] !in {'.', '_', ' ', '/'})
    && (forall i :: 0 < i < |s| ==> !(s[i - 1] == '-' && s[i] == '-'))
  }

  lemma {:induction false} CollapseShape(s: string)
    ensures s != "" ==> Collapse(s) != "" && Collapse(s)[|Collapse(s)| - 1] == s[|s| - 1]
    ensures forall c :: c in Collapse(s) ==> c in s
    ensures forall i :: 0 < i < |Collapse(s)| ==> !(Collapse(s)[i - 1] == '-' && Collapse(s)[i] == '-')
  {
    if s != "" {
      CollapseShape(s[..|s| - 1]);
    }
  }

  lemma {:induction false} CollapseKeeps(s: string)
    requires forall i :: 0 < i < |s| ==> !(s[i - 1] == '-' && s[i] == '-')
    ensures Collapse(s) == s
  {
    if s != "" {
      CollapseKeeps(s[..|s| - 1]);
      assert s == s[..|s| - 1] + [s[|s| - 1]];
    }
  }

  lemma RemainderChars(s: string, d: char)
    ensures forall c :: c in Remainder(s, d) ==> c in s && c != d
  {
    SplitLossless(s, d);
  }

  lemma NormalizeGivesKey(s: string)
    ensures IsKey(NormalizeKey(s))
  {
    var lower := Lower(s);
    var tail := Remainder(lower, '/');
    var folded := Fold(tail);
    RemainderChars(lower, '/');
    CollapseShape(folded);
    forall c | c in NormalizeKey(s)
      ensures !('A' <= c <= 'Z') && c !in {'.', '_', ' ', '/'}
    {
      assert c in folded;
      var i :| 0 <= i < |folded| && folded[i] == c;
      assert tail[i] in tail;
      var k :| 0 <= k < |lower| && lower[k] == tail[i];
    }
    assert forall i :: 0 <= i < |NormalizeKey(s)| ==> NormalizeKey(s)[i] in NormalizeKey(s);
  }

  lemma NoSlash(s: string)
    requires '/' !in s
    ensures Remainder(s, '/') == s
  {
    NoDelimiter([], s, '/');
    assert [] + s == s;
  }

  lemma KeyIsFixed(s: string)
    requires IsKey(s)
    ensures NormalizeKey(s) == s
  {
    assert Lower(s) == s;
    NoSlash(s);
    assert Fold(s) == s;
    CollapseKeeps(s);
  }

  /** The keys are exactly the texts the normalisation leaves alone, so it is idempotent. */
  lemma NormalizeFixes(s: string)
    ensures NormalizeKey(NormalizeKey(s)) == NormalizeKey(s)
    ensures NormalizeKey(s) == s <==> IsKey(s)
  {
    NormalizeGivesKey(s);
    KeyIsFixed(NormalizeKey(s));
    if IsKey(s) {
      KeyIsFixed(s);
    }
  }

  lemma LowerConcat(a: string, b: string)
    ensures Lower(a + b) == Lower(a) + Lower(b)
  {
  }

  lemma AfterLastSlash(org: string, name: string)
    requires '/' !in name
    ensures Remainder(org + ['/'] + name, '/') == name
  {
    NoDelimiter(org + ['/'], name, '/');
    assert Remainder(org + ['/'], '/') == [] && [] + name == name;
  }

  /** An organisation before the last slash makes no difference. */
  lemma OrgIgnored(org: string, name: string)
    requires '/' !in name
    ensures NormalizeKey(org + "/" + name) == NormalizeKey(name)
  {
    LowerConcat(org, "/");
    LowerConcat(org + "/", name);
    assert Lower("/") == ['/'];
    assert forall i :: 0 <= i < |name| ==> name[i] in name && Lower(name)[i] != '/';
    AfterLastSlash(Lower(org), Lower(name));
    NoSlash(Lower(name));
  }

  lemma {:induction false} FoldRemainder(s: string)
    ensures Fold(Remainder(s, '/')) == Remainder(Fold(s), '/')
  {
    if s != "" {
      var init, c := s[..|s| - 1], s[|s| - 1];
      FoldRemainder(init);
      assert Fold(s)[..|s| - 1] == Fold(init) && Fold(s)[|s| - 1] == FoldChar(c);
      assert Fold(Remainder(init, '/') + [c]) == Fold(Remainder(init, '/')) + [FoldChar(c)];
    }
  }

  /** The same letter, whatever its case, or two separators. */
  predicate Alike(a: char, b: char) {
    || a == b
    || ('A' <= a <= 'Z' && b as int == a as int + 32)
    || ('A' <= b <= 'Z' && a as int == b as int + 32)
    || (a in {'.', '_', ' ', '-'} && b in {'.', '_', ' ', '-'})
  }

  /** Spellings that differ only in case and in which separator they use are one model. */
  lemma SpellingsAgree(a: string, b: string)
    requires |a| == |b| && forall i :: 0 <= i < |a| ==> Alike(a[i], b[i])
    ensures NormalizeKey(a) == NormalizeKey(b)
  {
    FoldRemainder(Lower(a));
    FoldRemainder(Lower(b));
    assert Fold(Lower(a)) == Fold(Lower(b));
  }

  lemma {:induction false} CollapseDouble(a: string, b: string)
    ensures Collapse(a + "--" + b) == Collapse(a + "-" + b)
  {
    if b == "" {
      var s := a + "--";
      assert s + b == s && a + "-" + b == a + "-" && s[..|s| - 1] == a + "-";
    } else {
      var s, t, init := a + "--" + b, a + "-" + b, b[..|b| - 1];
      CollapseDouble(a, init);
      assert s[..|s| - 1] == a + "--" + init && t[..|t| - 1] == a + "-" + init;
      if init == "" {
        assert s[|s| - 2] == '-' == t[|t| - 2];
      } else {
        assert s[|s| - 2] == init[|init| - 1] == t[|t| - 2];
      }
    }
  }

  lemma LastPart(a: string, b: string)
    requires '/' !in b
    ensures Remainder(a + b, '/') == Remainder(a, '/') + b
  {
    NoDelimiter(a, b, '/');
  }

  lemma FoldConcat(a: string, b: string)
    ensures Fold(a + b) == Fold(a) + Fold(b)
  {
  }

  /** A separator more beside another makes no difference. */
  lemma RepeatedSeparator(a: string, b: string)
    requires '/' !in b
    ensures NormalizeKey(a + "--" + b) == NormalizeKey(a + "-" + b)
  {
    var la, lb := Lower(a), Lower(b);
    assert forall i :: 0 <= i < |b| ==> b[i] in b && lb[i] != '/';
    LowerConcat(a, "--");
    LowerConcat(a, "-");
    LowerConcat(a + "--", b);
    LowerConcat(a + "-", b);
    assert Lower("--") == "--" && Lower("-") == "-" && Fold("--") == "--" && Fold("-") == "-";
    LastPart(la, "--");
    LastPart(la, "-");
    LastPart(la + "--", lb);
    LastPart(la + "-", lb);
    var head := Remainder(la, '/');
    FoldConcat(head, "--");
    FoldConcat(head, "-");
    FoldConcat(head + "--", lb);
    FoldConcat(head + "-", lb);
    CollapseDouble(Fold(head), Fold(lb));
  }

  // ----- hardware -----

  function HwToMesh(hardware: string): string {
    var h := Lower(hardware);
    if h == "n150" then "N150"
    else if h == "n300" then "N300"
    else if h == "p100" then "P100"
    else if h == "p150" then "P150"
    else if h == "p300" then "P300"
    else if h == "galaxy" then "T3K"
    else if h == "quietbox" then "P150X4"
    else if h == "quietbox 2" then "P300X2"
    else if h == "loudbox" then "N300X4"
    else if h == "2 x quietbox" then "P150X8"
    else if h == "2 x galaxy" then "GALAXY"
    else if h == "4 x galaxy" then "GALAXY"
    else if h == "quad_galaxy" then "GALAXY"
    else Upper(hardware)
  }

  /** The position of the last `x`. */
  function LastX(s: string): (r: Option<nat>)
    ensures r.Some? ==> r.value < |s| && s[r.value] == 'x' && forall k :: r.value < k < |s| ==> s[k] != 'x'
    ensures r.None? ==> forall k :: 0 <= k < |s| ==> s[k] != 'x'
  {
    if s == "" then None
    else if s[|s| - 1] == 'x' then Some(|s| - 1)
    else LastX(s[..|s| - 1])
  }

  predicate Digits(s: string) {
    forall i :: 0 <= i < |s| ==> IsDigit(s[i])
  }

  /** The box's mesh without a trailing card count. */
  function BoxBase(mesh: string): string {
    match LastX(mesh)
    case Some(i) => if Digits(mesh[i + 1..]) && i + 1 < |mesh| then mesh[..i] else mesh
    case None => mesh
  }

  predicate MeshCompatible(boxMesh: string, catalogMesh: string) {
    Lower(boxMesh) == Lower(catalogMesh) || Lower(catalogMesh) == BoxBase(Lower(boxMesh))
  }

  lemma BaseOfSeveral(c: string, count: string)
    requires count != "" && Digits(count)
    ensures BoxBase(c + "x" + count) == c
  {
    var b := c + "x" + count;
    assert b[|c|] == 'x' && b[|c| + 1..] == count && b[..|c|] == c;
    assert forall k :: |c| < k < |b| ==> b[k] == count[k - |c| - 1];
    assert LastX(b) == Some(|c|);
  }

  /**
   * A box fits a catalog mesh exactly when they are the same, or the box is several cards of it.
   * Never the other way round.
   */
  lemma MeshMeaning(boxMesh: string, catalogMesh: string)
    ensures MeshCompatible(boxMesh, catalogMesh) <==>
              Lower(boxMesh) == Lower(catalogMesh)
              || exists count: string ::
                   && count != "" && (forall i :: 0 <= i < |count| ==> '0' <= count[i] <= '9')
                   && Lower(boxMesh) == Lower(catalogMesh) + "x" + count
  {
    var b, c := Lower(boxMesh), Lower(catalogMesh);
    if c == BoxBase(b) && b != c {
      var i := LastX(b).value;
      assert b == c + "x" + b[i + 1..];
    }
    if count: string :| count != "" && (forall i :: 0 <= i < |count| ==> '0' <= count[i] <= '9') && b == c + "x" + count {
      BaseOfSeveral(c, count);
    }
  }

  function Dashes(s: string): (r: string)
    ensures |r| == |s| && forall i :: 0 <= i < |s| ==> r[i] == if s[i] == '_' then '-' else s[i]
  {
    seq(|s|, i requires 0 <= i < |s| => if s[i] == '_' then '-' else s[i])
  }

  predicate NamesTis(s: string) {
    var f := Dashes(Lower(s));
    f == "tt-inference-server" || Contains(f, "inference-server")
  }

  predicate SoftwareIsTis(software: seq<string>) {
    exists i :: 0 <= i < |software| && NamesTis(software[i])
  }

  /** `inference-server` stands at `i`, in any case, with a dash or an underscore. */
  predicate SpelledAt(s: string, i: int) {
    0 <= i && i + 16 <= |s| && forall k :: 0 <= k < 16 ==>
      LowerChar(s[i + k]) == "inference-server"[k] || (k == 9 && s[i + k] == '_')
  }

  /** The software is the inference server exactly when its name holds that text. */
  lemma TisMeaning(s: string)
    ensures NamesTis(s) <==> exists i :: SpelledAt(s, i)
  {
    var f := Dashes(Lower(s));
    forall i
      ensures At(f, "inference-server", i) <==> SpelledAt(s, i)
    {
      FoundAt(s, f, i);
    }
    if f == "tt-inference-server" {
      ShortName();
      assert f[3..] == "inference-server";
      assert At(f, "inference-server", 3);
      assert SpelledAt(s, 3);
    }
    if i :| SpelledAt(s, i) {
      assert At(f, "inference-server", i);
    }
  }

  lemma FoundAt(s: string, f: string, i: int)
    requires f == Dashes(Lower(s))
    ensures At(f, "inference-server", i) <==> SpelledAt(s, i)
  {
    ShortName();
  }

  lemma ShortName()
    ensures |"inference-server"| == 16 && |"tt-inference-server"| == 19
    ensures "tt-inference-server"[3..] == "inference-server"
    ensures forall k :: 0 <= k < 16 ==> ("inference-server"[k] == '-' <==> k == 9) && "inference-server"[k] != '_'
  {
  }

  /** Marketing names, in any case, and what they stand for; every other name is its own mesh. */
  lemma HardwareTable(hardware: string)
    ensures var h := Lower(hardware);
            && (h == "galaxy" ==> HwToMesh(hardware) == "T3K")
            && (h == "quietbox" ==> HwToMesh(hardware) == "P150X4")
            && (h == "quietbox 2" ==> HwToMesh(hardware) == "P300X2")
            && (h == "loudbox" ==> HwToMesh(hardware) == "N300X4")
            && (h == "2 x quietbox" ==> HwToMesh(hardware) == "P150X8")
            && (h == "2 x galaxy" || h == "4 x galaxy" || h == "quad_galaxy" ==> HwToMesh(hardware) == "GALAXY")
  {
    NameSizes();
  }

  lemma NameSizes()
    ensures |"galaxy"| == 6 && |"quietbox"| == 8 && |"quietbox 2"| == 10 && |"loudbox"| == 7
    ensures |"2 x quietbox"| == 12 && |"2 x galaxy"| == 10 && |"4 x galaxy"| == 10 && |"quad_galaxy"| == 11
    ensures "quietbox 2"[0] == 'q' && "2 x galaxy"[0] == '2' && "4 x galaxy"[0] == '4'
  {
  }

  /** A name that is no marketing name is its own mesh, in capitals. */
  lemma PlainHardware(hardware: string)
    requires |hardware| < 6 || hardware[0] !in {'g', 'G', 'q', 'Q', 'l', 'L', '2', '4'}
    ensures HwToMesh(hardware) == Upper(hardware)
  {
    NameSizes();
    CardNames();
    var h := Lower(hardware);
    if |hardware| >= 6 {
      CaseOfAscii(hardware[0]);
      assert h[0] !in {'g', 'q', 'l', '2', '4'};
      assert "galaxy"[0] == 'g' && "quietbox"[0] == 'q' && "loudbox"[0] == 'l' && "2 x quietbox"[0] == '2' && "quad_galaxy"[0] == 'q';
    }
    CapitalsOf(hardware);
  }

  lemma CardNames()
    ensures Upper("n150") == "N150" && Upper("n300") == "N300" && Upper("p100") == "P100"
    ensures Upper("p150") == "P150" && Upper("p300") == "P300"
  {
  }

  lemma CapitalsOf(s: string)
    ensures Upper(Lower(s)) == Upper(s)
  {
  }
}
