/** The tier rule, the merged row and the entries, told on the fields of the catalog's rows and of the live models. */
module CatalogEntries {
  import opened Wrappers
  import opened Seqs
  import opened Text
  import opened CatalogDedupe
  import opened CatalogClassify
  import CatalogNames

  // ----- the merged row -----

  predicate SeemsClean(m: CompatModel) {
    '/' !in m.id && m.family != "" && Lower(m.family) != "other"
  }

  predicate Unowned(m: CompatModel) {
    '/' !in m.id
  }

  /** The first row at which a property holds. */
  ghost predicate FirstWith(models: seq<CompatModel>, i: nat, good: CompatModel -> bool)
    requires i < |models|
  {
    good(models[i]) && forall j :: 0 <= j < i ==> !good(models[j])
  }

  ghost predicate NoneWith(models: seq<CompatModel>, good: CompatModel -> bool) {
    forall j :: 0 <= j < |models| ==> !good(models[j])
  }

  /**
   * The names of a merged model come from its first row without an organisation and with a real
   * family; failing that, from the first without an organisation; failing that, from the first.
   */
  lemma NamesKept(members: seq<CompatModel>) returns (i: nat)
    requires members != []
    ensures i < |members|
    ensures Merge(members) == members[i].(compatibility := Merge(members).compatibility, modelSize := Merge(members).modelSize)
    ensures FirstWith(members, i, SeemsClean)
            || (NoneWith(members, SeemsClean) && FirstWith(members, i, Unowned))
            || (NoneWith(members, Unowned) && i == 0)
    ensures Merge(members).modelSize
            == if members[i].modelSize.Some? then members[i].modelSize else FirstSize(members)
  {
    i := BaseIndex(members);
    FirstSizeIs(members);
  }

  /** The first size any row states. */
  function FirstSize(members: seq<CompatModel>): (r: Option<string>) {
    if members == [] then None
    else if members[0].modelSize.Some? then members[0].modelSize
    else FirstSize(members[1..])
  }

  lemma {:induction false} FirstSizeFrom(members: seq<CompatModel>, i: nat)
    requires i <= |members| && forall j :: 0 <= j < i ==> members[j].modelSize.None?
    requires i < |members| ==> members[i].modelSize.Some?
    ensures FirstSize(members) == if i < |members| then members[i].modelSize else None
  {
    if i > 0 {
      FirstSizeFrom(members[1..], i - 1);
    }
  }

  lemma FirstSizeIs(members: seq<CompatModel>)
    ensures var i := FirstIndex(members, HasSize);
            FirstSize(members) == if i < |members| then members[i].modelSize else None
  {
    FirstSizeFrom(members, FirstIndex(members, HasSize));
  }

  /** The rows of all the members but one, one member after the other. */
  function OtherRows(members: seq<CompatModel>, base: nat, n: nat): (r: seq<HardwareCompat>)
    requires n <= |members|
  {
    if n == 0 then []
    else if n - 1 == base then OtherRows(members, base, n - 1)
    else OtherRows(members, base, n - 1) + members[n - 1].compatibility
  }

  function NewTo(rows: seq<HardwareCompat>): HardwareCompat -> bool {
    hc => hc !in rows
  }

  lemma {:induction false} AddRowsConcat(rows: seq<HardwareCompat>, a: seq<HardwareCompat>, b: seq<HardwareCompat>)
    ensures AddRows(AddRows(rows, a), b) == AddRows(rows, a + b)
  {
    if b == [] {
      assert a + b == a;
    } else {
      assert (a + b)[..|a + b| - 1] == a + b[..|b| - 1];
      AddRowsConcat(rows, a, b[..|b| - 1]);
    }
  }

  lemma {:induction false} MergedRowsAre(members: seq<CompatModel>, base: nat, n: nat, rows: seq<HardwareCompat>)
    requires base < |members| && n <= |members| && rows == members[base].compatibility
    ensures MergedRows(members, base, n) == AddRows(rows, OtherRows(members, base, n))
  {
    if n > 0 {
      MergedRowsAre(members, base, n - 1, rows);
      if n - 1 != base {
        AddRowsConcat(rows, OtherRows(members, base, n - 1), members[n - 1].compatibility);
      }
    }
  }

  lemma AddOne(rows: seq<HardwareCompat>, listed: seq<HardwareCompat>, hc: HardwareCompat, unseen: HardwareCompat -> bool)
    requires unseen == NewTo(rows)
    ensures Filter(Unique(listed + [hc]), unseen)
            == Filter(Unique(listed), unseen) + if hc in rows || hc in Filter(Unique(listed), unseen) then [] else [hc]
  {
    assert (listed + [hc])[..|listed|] == listed;
    FilterMembers(Unique(listed), unseen);
    FilterSnoc(Unique(listed), hc, unseen);
    assert Filter(Unique(listed), unseen) + [] == Filter(Unique(listed), unseen);
  }

  /** Rows are added once each, in order, unless they were there. */
  lemma {:induction false} AddRowsAre(rows: seq<HardwareCompat>, more: seq<HardwareCompat>)
    ensures AddRows(rows, more) == rows + Filter(Unique(more), NewTo(rows))
  {
    if more == [] {
      assert rows + [] == rows;
    } else {
      var init, hc := more[..|more| - 1], more[|more| - 1];
      AddRowsAre(rows, init);
      AddOne(rows, init, hc, NewTo(rows));
      assert more == init + [hc];
    }
  }

  /** A merged model lists the rows of the one it is named by, then each new row of the others once, in order. */
  lemma RowsInOrder(members: seq<CompatModel>)
    requires members != []
    ensures exists i :: 0 <= i < |members|
              && Merge(members) == members[i].(compatibility := Merge(members).compatibility, modelSize := Merge(members).modelSize)
              && Merge(members).compatibility
                 == members[i].compatibility
                    + Filter(Unique(OtherRows(members, i, |members|)), NewTo(members[i].compatibility))
  {
    var i := BaseIndex(members);
    MergedRowsAre(members, i, |members|, members[i].compatibility);
    AddRowsAre(members[i].compatibility, OtherRows(members, i, |members|));
  }

  // ----- the tier -----

  /** A row's hardware can run the model. */
  predicate Runs(hc: HardwareCompat) {
    hc.status == Supported || hc.status == Experimental
  }

  /**
   * A live model runs here whatever its rows. One no hardware runs is left out. Without a detected
   * box every other runs here. With one, a model runs here when a supported row fits the box and
   * names the inference server, needs tools when only some other running row fits, and needs other
   * hardware when none does.
   */
  lemma TierRule(rows: set<HardwareCompat>, isLive: bool, s: Setting)
    ensures TierOf(rows, isLive, s) == Omitted <==>
              !isLive && forall hc <- rows :: hc.status != Supported && hc.status != Experimental
    ensures TierOf(rows, isLive, s) == NeedsOther <==>
              && !isLive && s.box.Some? && (exists hc <- rows :: Runs(hc))
              && forall hc <- rows :: Runs(hc) ==> !s.rules.fits(s.box.value, s.rules.mesh(hc.hardware))
    ensures TierOf(rows, isLive, s) == RunsHere <==>
              || isLive
              || (s.box.None? && exists hc <- rows :: Runs(hc))
              || (s.box.Some? && exists hc <- rows ::
                    hc.status == Supported && s.rules.fits(s.box.value, s.rules.mesh(hc.hardware)) && s.rules.tis(hc.software))
    ensures TierOf(rows, isLive, s) == WithTools <==>
              && !isLive && s.box.Some?
              && (exists hc <- rows :: Runs(hc) && s.rules.fits(s.box.value, s.rules.mesh(hc.hardware)))
              && forall hc <- rows ::
                   hc.status == Supported && s.rules.fits(s.box.value, s.rules.mesh(hc.hardware)) ==> !s.rules.tis(hc.software)
  {
  }

  // ----- one entry -----

  lemma {:induction false} SoftwareMeaning(rows: seq<HardwareCompat>, x: string)
    ensures x in Software(rows) <==> exists hc <- rows :: x in hc.software
  {
    if rows != [] {
      var init := rows[..|rows| - 1];
      SoftwareMeaning(init, x);
      assert rows == init + [rows[|rows| - 1]];
    }
  }

  /** The live models of one key. */
  function LiveUnder(live: seq<ModelInfo>, k: string, key: KeyFunction): seq<ModelInfo> {
    Filter(live, (m: ModelInfo) => key(m.name) == k)
  }

  lemma {:induction false} LiveUnderMatch(live: seq<ModelInfo>, k: string, rules: Rules)
    ensures var own := LiveUnder(live, k, rules.key);
            LiveMatch(live, k, rules) == if own == [] then None else Some(own[|own| - 1])
  {
    if live != [] {
      LiveUnderMatch(live[..|live| - 1], k, rules);
    }
  }

  /** Names and size are the row's; the rest is what its compatibility rows and the live models of its key say. */
  lemma EntryMeaning(m: CompatModel, t: Tier, s: Setting, x: string)
    ensures var e := Entry(m, t, s);
            var own := LiveUnder(s.live, KeyOf(m, s.rules.key), s.rules.key);
            && e.id == m.id && e.displayName == m.displayName && e.family == m.family && e.size == m.modelSize
            && (x in e.software <==> exists hc <- m.compatibility :: x in hc.software)
            && (x in e.meshes <==> exists hc <- m.compatibility :: Runs(hc) && s.rules.mesh(hc.hardware) == x)
            && Distinct(e.software) && Distinct(e.meshes)
            && (e.availableNow <==> own != [])
            && (e.downloaded <==> own != [] && own[|own| - 1].downloaded)
            && (own != [] ==> e.statusHere == SupportedHere)
            && (own == [] && t == RunsHere ==> e.statusHere == SupportedHere)
            && (own == [] && t == WithTools ==> e.statusHere == ExperimentalHere)
            && (own == [] && t == NeedsOther ==> e.statusHere == UnavailableHere)
  {
    SoftwareMeaning(m.compatibility, x);
    UniqueElements(Software(m.compatibility));
    MeshesMeaning(m.compatibility, s.rules);
    LiveUnderMatch(s.live, KeyOf(m, s.rules.key), s.rules);
  }

  // ----- live models the catalog does not know -----

  lemma {:induction false} LiveOnlyHas(live: seq<ModelInfo>, known: seq<string>, rules: Rules, i: nat)
    requires i < |live| && rules.key(live[i].name) !in known
    ensures CatalogEntry(live[i].name, live[i].name, live[i].name, None, [], [], [], true, live[i].downloaded, SupportedHere)
            in LiveOnly(live, known, rules)
  {
    if i < |live| - 1 {
      LiveOnlyHas(live[..|live| - 1], known, rules, i);
    }
  }

  /** Each is listed under its own name, and the answer keeps the box and the age it was asked for. */
  lemma UnknownIsListed(catalog: Option<seq<CompatModel>>, live: seq<ModelInfo>, boxMesh: Option<string>, stale: bool, rules: Rules, i: nat)
    requires i < |live|
    requires catalog.Some? ==> forall m <- catalog.value :: KeyOf(m, rules.key) != rules.key(live[i].name)
    ensures var c := Classified(catalog, live, boxMesh, stale, rules);
            && c.boxMesh == boxMesh && c.stale == stale && (c.available <==> catalog.Some?)
            && CatalogEntry(live[i].name, live[i].name, live[i].name, None, [], [], [], true, live[i].downloaded, SupportedHere)
               in c.runsHere
  {
    var known := if catalog.Some? then Keys(catalog.value, rules.key) else [];
    LiveOnlyHas(live, known, rules, i);
  }

  // ----- the box's own rules -----

  /** A row names the inference server when one of its software names holds that text. */
  lemma SoftwareMatters(software: seq<string>)
    ensures BoxRules().tis(software) <==> exists x, i :: x in software && CatalogNames.SpelledAt(x, i)
  {
    forall x
      ensures CatalogNames.NamesTis(x) <==> exists i :: CatalogNames.SpelledAt(x, i)
    {
      CatalogNames.TisMeaning(x);
    }
    if x, i :| x in software && CatalogNames.SpelledAt(x, i) {
      var j :| 0 <= j < |software| && software[j] == x;
      assert CatalogNames.NamesTis(software[j]);
    }
  }

  /** The box is that mesh, or several cards of it. */
  ghost predicate IsOrHas(box: string, mesh: string) {
    || Lower(box) == Lower(mesh)
    || exists count: string ::
         && count != "" && (forall i :: 0 <= i < |count| ==> '0' <= count[i] <= '9')
         && Lower(box) == Lower(mesh) + "x" + count
  }

  ghost predicate NamesServer(software: seq<string>) {
    exists x, i :: x in software && CatalogNames.SpelledAt(x, i)
  }

  lemma LowerTwice(s: string)
    ensures Lower(Lower(s)) == Lower(s)
  {
  }

  lemma BoxFits(box: string, hardware: string)
    ensures BoxRules().fits(Lower(box), BoxRules().mesh(hardware)) <==> IsOrHas(box, CatalogNames.HwToMesh(hardware))
  {
    CatalogNames.MeshMeaning(Lower(box), CatalogNames.HwToMesh(hardware));
    LowerTwice(box);
  }

  /**
   * The box's own tier rule, in names: a model that is not live runs here when a supported row names
   * hardware the box is or has several of, and the inference server; it needs other hardware when no
   * running row names such hardware. Models are compared by the normalised key.
   */
  lemma OnThisBox(rows: set<HardwareCompat>, live: seq<ModelInfo>, box: string)
    ensures BoxRules().key == CatalogNames.NormalizeKey && LowerBox(Some(box)) == Some(Lower(box)) && LowerBox(None) == None
    ensures var s := Setting(live, LowerBox(Some(box)), BoxRules());
            && (TierOf(rows, false, s) == RunsHere <==>
                  exists hc <- rows ::
                    hc.status == Supported && IsOrHas(box, CatalogNames.HwToMesh(hc.hardware)) && NamesServer(hc.software))
            && (TierOf(rows, false, s) == NeedsOther <==>
                  && (exists hc <- rows :: Runs(hc))
                  && forall hc <- rows :: Runs(hc) ==> !IsOrHas(box, CatalogNames.HwToMesh(hc.hardware)))
  {
    var s := Setting(live, LowerBox(Some(box)), BoxRules());
    TierRule(rows, false, s);
    forall hc | hc in rows
      ensures s.rules.fits(s.box.value, s.rules.mesh(hc.hardware)) <==> IsOrHas(box, CatalogNames.HwToMesh(hc.hardware))
      ensures s.rules.tis(hc.software) <==> NamesServer(hc.software)
    {
      BoxFits(box, hc.hardware);
      SoftwareMatters(hc.software);
    }
  }
}
