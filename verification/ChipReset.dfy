/**
 * What a reset may touch: the lease-scoped target is a list of PCI addresses, and the whole-box
 * reset is guarded by who else holds chips.
 */
module ChipReset {
  import opened Wrappers
  import opened Seqs
  import opened Text
  import opened Holders
  import opened Decimal
  import opened StartupSweep

  // ----- the lease-scoped target -----

  predicate IsHex(c: char) {
    IsDigit(c) || 'a' <= c <= 'f' || 'A' <= c <= 'F'
  }

  predicate HexField(s: string, width: nat) {
    |s| == width && forall i :: 0 <= i < |s| ==> IsHex(s[i])
  }

  /** `DDDD:BB:DD.F`, read field by field. */
  predicate IsPciBdf(s: string) {
    match SplitOnce(s, ':')
    case None => false
    case Some((domain, rest)) =>
      match SplitOnce(rest, ':')
      case None => false
      case Some((bus, rest)) =>
        match SplitOnce(rest, '.')
        case None => false
        case Some((device, function_)) =>
          HexField(domain, 4) && HexField(bus, 2) && HexField(device, 2)
          && |function_| == 1 && '0' <= function_[0] <= '7'
  }

  /** Twelve characters of the canonical shape. */
  predicate BdfShape(s: string) {
    && |s| == 12 && s[4] == ':' && s[7] == ':' && s[10] == '.' && '0' <= s[11] <= '7'
    && forall i :: 0 <= i < 10 && i != 4 && i != 7 ==>
         '0' <= s[i] <= '9' || 'a' <= s[i] <= 'f' || 'A' <= s[i] <= 'F'
  }

  lemma SplitOnceIs(s: string, d: char, a: string, b: string)
    requires s == a + [d] + b && d !in a
    ensures SplitOnce(s, d) == Some((a, b))
  {
    assert s[|a|] == d;
    var (a', b') := SplitOnce(s, d).value;
    FirstDelimiterDecides(a', b', a, b, d);
  }

  lemma FieldsMakeBdf(s: string, domain: string, bus: string, device: string, unit: string)
    requires s == domain + [':'] + (bus + [':'] + (device + ['.'] + unit))
    requires HexField(domain, 4) && HexField(bus, 2) && HexField(device, 2)
    requires |unit| == 1 && '0' <= unit[0] <= '7'
    ensures IsPciBdf(s)
  {
    var rest, rest' := bus + [':'] + (device + ['.'] + unit), device + ['.'] + unit;
    SplitOnceIs(s, ':', domain, rest);
    SplitOnceIs(rest, ':', bus, rest');
    SplitOnceIs(rest', '.', device, unit);
  }

  lemma BdfHasShape(s: string)
    requires IsPciBdf(s)
    ensures BdfShape(s)
  {
    var (domain, rest) := SplitOnce(s, ':').value;
    var (bus, rest') := SplitOnce(rest, ':').value;
    var (device, last) := SplitOnce(rest', '.').value;
    assert s[..4] == domain && s[4] == ':' && s[5..] == rest;
    assert rest[..2] == bus && rest[2] == ':' && rest[3..] == rest';
    assert rest'[..2] == device && rest'[2] == '.' && rest'[3..] == last;
    assert forall k :: 0 <= k < |rest| ==> rest[k] == s[5 + k];
    assert forall k :: 0 <= k < |rest'| ==> rest'[k] == rest[3 + k];
    assert forall k :: 0 <= k < 4 ==> s[k] == domain[k];
    assert forall k :: 0 <= k < 2 ==> rest[k] == bus[k] && rest'[k] == device[k];
  }

  /** The field-by-field reader accepts exactly the twelve-character shape. */
  lemma BdfIsItsShape(s: string)
    ensures IsPciBdf(s) <==> BdfShape(s)
  {
    if BdfShape(s) {
      assert HexField(s[..4], 4) && HexField(s[5..7], 2) && HexField(s[8..10], 2);
      assert s == s[..4] + [':'] + (s[5..7] + [':'] + (s[8..10] + ['.'] + s[11..]));
      FieldsMakeBdf(s, s[..4], s[5..7], s[8..10], s[11..]);
    }
    if IsPciBdf(s) {
      BdfHasShape(s);
    }
  }

  /** The argument of a lease-scoped reset, or a refusal. */
  method ResetTarget(chips: seq<string>) returns (target: Option<string>)
    ensures target == if chips != [] && (forall c :: c in chips ==> IsPciBdf(c)) then Some(Join(chips, ",")) else None
  {
    if chips == [] {
      return None;
    }
    for i := 0 to |chips|
      invariant forall k :: 0 <= k < i ==> IsPciBdf(chips[k])
    {
      if !IsPciBdf(chips[i]) {
        assert chips[i] in chips;
        return None;
      }
    }
    return Some(Join(chips, ","));
  }

  /** A target is never empty, and reading it by commas gives exactly the granted chips. */
  lemma TargetNamesTheGrant(chips: seq<string>)
    requires chips != [] && forall c :: c in chips ==> IsPciBdf(c)
    ensures Join(chips, ",") != "" && Split(Join(chips, ","), ',') == chips
  {
    forall c | c in chips
      ensures ',' !in c && c != ""
    {
      BdfHasNoComma(c);
    }
    assert "," == [','];
    SplitJoin(chips, ',');
    assert chips[0] in chips;
    assert Split("", ',')[0] == "";
  }

  lemma BdfHasNoComma(s: string)
    requires IsPciBdf(s)
    ensures ',' !in s && s != ""
  {
    BdfHasShape(s);
    ShapeHasNoComma(s);
  }

  lemma ShapeHasNoComma(s: string)
    requires BdfShape(s)
    ensures ',' !in s
  {
    assert forall i :: 0 <= i < |s| ==> s[i] != ',';
  }

  // ----- the whole-box guard -----

  datatype ForeignLeases = NoneForeign | Held(holders: string, chips: seq<string>) | Undetermined

  /** Someone other than this agent's own session holds the chip. */
  predicate IsForeign(chip: Chip, ownPort: nat) {
    chip.state != "FREE" && chip.who.Some? && !(OwnPrefix(ownPort) <= chip.who.value)
  }

  function Foreign(chips: seq<Chip>, ownPort: nat): seq<Chip> {
    Filter(chips, (c: Chip) => IsForeign(c, ownPort))
  }

  function Clause(chip: Chip): string {
    "board " + (if chip.board == "" then "(unknown board)" else chip.board) + " is held by "
    + (match chip.who case Some(w) => w case None => "") + " (" + chip.state + ")"
  }

  function Clauses(chips: seq<Chip>): (r: seq<string>)
    ensures |r| == |chips| && forall i :: 0 <= i < |r| ==> r[i] == Clause(chips[i])
  {
    seq(|chips|, i requires 0 <= i < |chips| => Clause(chips[i]))
  }

  function Bdfs(chips: seq<Chip>): (r: seq<string>) {
    if chips == [] then []
    else
      var r := Bdfs(chips[..|chips| - 1]);
      if chips[|chips| - 1].bdf == "" then r else r + [chips[|chips| - 1].bdf]
  }

  method ForeignLeasesOf(status: Option<seq<Chip>>, ownPort: nat) returns (verdict: ForeignLeases)
    ensures verdict.Undetermined? <==> status.None?
    ensures verdict.NoneForeign? <==> status.Some? && forall c <- status.value :: !IsForeign(c, ownPort)
    ensures verdict.Held? ==>
              var foreign := Foreign(status.value, ownPort);
              && verdict.holders == Join(Unique(Clauses(foreign)), "; ")
              && verdict.chips == Unique(Bdfs(foreign))
    ensures verdict.Held? ==>
              && Distinct(verdict.chips)
              && forall bdf :: bdf in verdict.chips <==> bdf != "" && exists c <- status.value :: IsForeign(c, ownPort) && c.bdf == bdf
  {
    if status.None? {
      return Undetermined;
    }
    var all := status.value;
    var clauses: seq<string> := [];
    var chips: seq<string> := [];
    ghost var foreign: seq<Chip> := [];
    for i := 0 to |all|
      invariant foreign == Foreign(all[..i], ownPort)
      invariant clauses == Unique(Clauses(foreign))
      invariant chips == Unique(Bdfs(foreign))
    {
      var chip := all[i];
      FilterPrefix(all, i, (c: Chip) => IsForeign(c, ownPort));
      if IsForeign(chip, ownPort) {
        OneMoreForeign(foreign, chip);
        foreign := foreign + [chip];
        if chip.bdf != "" && chip.bdf !in chips {
          chips := chips + [chip.bdf];
        }
        var clause := Clause(chip);
        if clause !in clauses {
          clauses := clauses + [clause];
        }
      }
    }
    assert all[..|all|] == all;
    NobodyForeign(all, ownPort);
    ForeignBdfs(all, ownPort);
    if clauses == [] {
      return NoneForeign;
    }
    return Held(Join(clauses, "; "), chips);
  }

  lemma {:induction false} BdfsMeaning(chips: seq<Chip>)
    ensures forall bdf :: bdf in Bdfs(chips) <==> bdf != "" && exists c <- chips :: c.bdf == bdf
  {
    if chips != [] {
      BdfsMeaning(chips[..|chips| - 1]);
      assert chips == chips[..|chips| - 1] + [chips[|chips| - 1]];
    }
  }

  /** Every foreign chip is listed by its address, once. */
  lemma ForeignBdfs(all: seq<Chip>, ownPort: nat)
    ensures Distinct(Unique(Bdfs(Foreign(all, ownPort))))
    ensures forall bdf :: bdf in Unique(Bdfs(Foreign(all, ownPort)))
                          <==> bdf != "" && exists c <- all :: IsForeign(c, ownPort) && c.bdf == bdf
  {
    FilterMembers(all, (c: Chip) => IsForeign(c, ownPort));
    BdfsMeaning(Foreign(all, ownPort));
    UniqueElements(Bdfs(Foreign(all, ownPort)));
  }

  lemma NobodyForeign(all: seq<Chip>, ownPort: nat)
    ensures Unique(Clauses(Foreign(all, ownPort))) == [] <==> forall c <- all :: !IsForeign(c, ownPort)
  {
    var foreign := Foreign(all, ownPort);
    FilterMembers(all, (c: Chip) => IsForeign(c, ownPort));
    UniqueElements(Clauses(foreign));
    if foreign != [] {
      assert foreign[0] in all && IsForeign(foreign[0], ownPort);
      assert Clauses(foreign)[0] in Unique(Clauses(foreign));
    }
    if c :| c in all && IsForeign(c, ownPort) {
      assert c in foreign;
    }
  }

  lemma OneMoreForeign(before: seq<Chip>, chip: Chip)
    ensures Unique(Clauses(before + [chip]))
            == if Clause(chip) in Unique(Clauses(before)) then Unique(Clauses(before))
               else Unique(Clauses(before)) + [Clause(chip)]
    ensures Unique(Bdfs(before + [chip]))
            == if chip.bdf == "" || chip.bdf in Unique(Bdfs(before)) then Unique(Bdfs(before))
               else Unique(Bdfs(before)) + [chip.bdf]
  {
    assert (before + [chip])[..|before|] == before;
    assert Clauses(before + [chip])[..|before|] == Clauses(before);
    if chip.bdf != "" {
      assert (Bdfs(before) + [chip.bdf])[..|Bdfs(before)|] == Bdfs(before);
    }
  }

  /** `resolve`: proceed silently, proceed and log, or refuse. The messages are left out. */
  datatype Decision = Proceed | ProceedLogged | Refuse

  function Resolve(verdict: ForeignLeases, force: bool): Decision {
    if verdict.NoneForeign? then Proceed else if force then ProceedLogged else Refuse
  }

  /** What stops a whole-box reset: gozer could not be asked, or a chip is held under any other holder. */
  ghost predicate Blocked(status: Option<seq<Chip>>, ownPort: nat) {
    status.None? || exists c <- status.value ::
      c.state != "FREE" && c.who.Some? && !("tt-station:" + Print(ownPort) + ":" <= c.who.value)
  }

  /**
   * A whole-box reset is refused exactly when something stops it and it is not forced; forced, it
   * goes ahead and leaves a trace. A chip held under a holder written for another port stops it.
   */
  method GuardReset(status: Option<seq<Chip>>, ownPort: nat, force: bool) returns (d: Decision)
    ensures d == Refuse <==> Blocked(status, ownPort) && !force
    ensures d == ProceedLogged <==> Blocked(status, ownPort) && force
    ensures d == Proceed <==> !Blocked(status, ownPort)
    ensures forall c: Chip, q: nat, model: string ::
              status.Some? && c in status.value && c.state != "FREE" && c.who == Some(HolderName(q, model)) && q != ownPort
              ==> Blocked(status, ownPort)
  {
    var verdict := ForeignLeasesOf(status, ownPort);
    d := Resolve(verdict, force);
    assert Blocked(status, ownPort) <==> status.None? || exists c <- status.value :: IsForeign(c, ownPort);
    forall c: Chip, q: nat, model: string
      | status.Some? && c in status.value && c.state != "FREE" && c.who == Some(HolderName(q, model)) && q != ownPort
      ensures IsForeign(c, ownPort)
    {
      OwnPrefixIdentifies(ownPort, q, model);
    }
  }

  /** What a refusal says of one chip: its board, or that the board is unknown, its holder and its state. */
  lemma ClauseNames(state: string, who: string, bdf: string, board: string)
    ensures Clause(Chip(state, Some(who), bdf, board))
            == "board " + (if board == "" then "(unknown board)" else board) + " is held by " + who + " (" + state + ")"
  {
  }
}
