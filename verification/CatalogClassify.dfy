/**
 * Merging the compatibility catalog with a box's live models into three tiers. The way names are
 * compared is a parameter (`Rules`); `ClassifyForBox` is the instance the box uses.
 */
module CatalogClassify {
  import opened Wrappers
  import opened Seqs
  import opened Text
  import opened CatalogDedupe
  import CatalogNames

  datatype Rules = Rules(
    key: KeyFunction,
    mesh: string -> string,
    fits: (string, string) -> bool,
    tis: seq<string> -> bool)

  datatype ModelInfo = ModelInfo(name: string, downloaded: bool)

  datatype StatusHere = SupportedHere | ExperimentalHere | UnavailableHere

  datatype CatalogEntry = CatalogEntry(
    id: string,
    displayName: string,
    family: string,
    size: Option<string>,
    software: seq<string>,
    meshes: seq<string>,
    neededHardware: seq<string>,
    availableNow: bool,
    downloaded: bool,
    statusHere: StatusHere)

  datatype BoxCatalog = BoxCatalog(
    boxMesh: Option<string>,
    available: bool,
    stale: bool,
    runsHere: seq<CatalogEntry>,
    experimental: seq<CatalogEntry>,
    otherHardware: seq<CatalogEntry>)

  /** What a catalog is classified against; `box` is the detected mesh in lower case. */
  datatype Setting = Setting(live: seq<ModelInfo>, box: Option<string>, rules: Rules)

  // ----- what a set of compatibility rows amounts to -----

  datatype Tier = RunsHere | WithTools | NeedsOther | Omitted

  predicate Runnable(hc: HardwareCompat) {
    hc.status.Supported? || hc.status.Experimental?
  }

  predicate FitsBox(hc: HardwareCompat, box: string, rules: Rules) {
    Runnable(hc) && rules.fits(box, rules.mesh(hc.hardware))
  }

  predicate ServedOnBox(hc: HardwareCompat, box: string, rules: Rules) {
    hc.status.Supported? && FitsBox(hc, box, rules) && rules.tis(hc.software)
  }

  /** The tier rule of the documentation, told on the rows alone. */
  ghost function TierOf(rows: set<HardwareCompat>, isLive: bool, s: Setting): Tier {
    if isLive then RunsHere
    else if !exists hc <- rows :: Runnable(hc) then Omitted
    else if s.box.None? || exists hc <- rows :: ServedOnBox(hc, s.box.value, s.rules) then RunsHere
    else if exists hc <- rows :: FitsBox(hc, s.box.value, s.rules) then WithTools
    else NeedsOther
  }

  ghost function RowSet(rows: seq<HardwareCompat>): set<HardwareCompat> {
    set hc | hc in rows
  }

  // ----- live models -----

  function LiveKeys(live: seq<ModelInfo>, rules: Rules): (r: seq<string>)
    ensures |r| == |live| && forall i :: 0 <= i < |r| ==> r[i] == rules.key(live[i].name)
  {
    seq(|live|, i requires 0 <= i < |live| => rules.key(live[i].name))
  }

  function LiveMatch(live: seq<ModelInfo>, k: string, rules: Rules): (r: Option<ModelInfo>)
    ensures r.Some? <==> k in LiveKeys(live, rules)
    ensures r.Some? ==> exists i :: 0 <= i < |live| && live[i] == r.value && LastOfKey(live, i, k, rules)
  {
    if live == [] then None
    else
      var init, m := live[..|live| - 1], live[|live| - 1];
      assert LiveKeys(live, rules) == LiveKeys(init, rules) + [rules.key(m.name)];
      if rules.key(m.name) == k then
        assert LastOfKey(live, |live| - 1, k, rules);
        Some(m)
      else
        assert forall i :: 0 <= i < |init| && LastOfKey(init, i, k, rules) ==> LastOfKey(live, i, k, rules);
        LiveMatch(init, k, rules)
  }

  /** A later live model of the same key replaces an earlier one. */
  predicate LastOfKey(live: seq<ModelInfo>, i: nat, k: string, rules: Rules)
    requires i < |live|
  {
    rules.key(live[i].name) == k && forall j :: i < j < |live| ==> rules.key(live[j].name) != k
  }

  method LiveByKey(live: seq<ModelInfo>, rules: Rules) returns (found: map<string, ModelInfo>)
    ensures forall k :: LiveMatch(live, k, rules) == if k in found then Some(found[k]) else None
  {
    found := map[];
    for i := 0 to |live|
      invariant forall k :: LiveMatch(live[..i], k, rules) == if k in found then Some(found[k]) else None
    {
      assert live[..i + 1][..i] == live[..i];
      found := found[rules.key(live[i].name) := live[i]];
    }
    assert live[..|live|] == live;
  }

  // ----- the meshes of one model -----

  datatype MeshStatus = MeshStatus(mesh: string, status: CompatStatus)

  function RowMeshes(rows: seq<HardwareCompat>, rules: Rules): seq<string> {
    if rows == [] then []
    else
      var hc := rows[|rows| - 1];
      RowMeshes(rows[..|rows| - 1], rules) + if Runnable(hc) then [rules.mesh(hc.hardware)] else []
  }

  function Meshes(rows: seq<HardwareCompat>, rules: Rules): seq<string> {
    Unique(RowMeshes(rows, rules))
  }

  predicate SupportedOn(rows: seq<HardwareCompat>, mesh: string, rules: Rules) {
    exists hc <- rows :: hc.status.Supported? && rules.mesh(hc.hardware) == mesh
  }

  lemma {:induction false} MeshesMeaning(rows: seq<HardwareCompat>, rules: Rules)
    ensures Distinct(Meshes(rows, rules))
    ensures forall m :: m in Meshes(rows, rules) <==> exists hc <- rows :: Runnable(hc) && rules.mesh(hc.hardware) == m
  {
    UniqueElements(RowMeshes(rows, rules));
    if rows != [] {
      MeshesMeaning(rows[..|rows| - 1], rules);
      UniqueElements(RowMeshes(rows[..|rows| - 1], rules));
      assert rows == rows[..|rows| - 1] + [rows[|rows| - 1]];
    }
  }

  /** One pair per mesh, in order of first appearance, and Supported wins over Experimental. */
  predicate IsMeshTable(table: seq<MeshStatus>, rows: seq<HardwareCompat>, rules: Rules) {
    && |table| == |Meshes(rows, rules)|
    && forall j :: 0 <= j < |table| ==>
         && table[j].mesh == Meshes(rows, rules)[j]
         && table[j].status == if SupportedOn(rows, table[j].mesh, rules) then Supported else Experimental
  }

  method MeshTable(rows: seq<HardwareCompat>, rules: Rules) returns (table: seq<MeshStatus>)
    ensures IsMeshTable(table, rows, rules)
  {
    table := [];
    for i := 0 to |rows|
      invariant IsMeshTable(table, rows[..i], rules)
    {
      var hc := rows[i];
      ghost var before, was := rows[..i], table;
      assert rows[..i + 1] == before + [hc];
      if Runnable(hc) {
        var mesh := rules.mesh(hc.hardware);
        var at := 0;
        while at < |table| && table[at].mesh != mesh
          invariant at <= |table| && forall j :: 0 <= j < at ==> table[j].mesh != mesh
        {
          at := at + 1;
        }
        if at < |table| {
          if hc.status.Supported? {
            table := table[at := table[at].(status := Supported)];
          }
        } else {
          table := table + [MeshStatus(mesh, hc.status)];
        }
        TableStep(was, before, hc, rules, at, table);
      } else {
        TableSkip(was, before, hc, rules);
      }
    }
    assert rows[..|rows|] == rows;
  }

  lemma SupportedSnoc(rows: seq<HardwareCompat>, hc: HardwareCompat, mesh: string, rules: Rules)
    ensures SupportedOn(rows + [hc], mesh, rules)
            <==> SupportedOn(rows, mesh, rules) || (hc.status.Supported? && rules.mesh(hc.hardware) == mesh)
  {
    assert forall r :: r in rows + [hc] <==> r in rows || r == hc;
  }

  lemma TableSkip(table: seq<MeshStatus>, rows: seq<HardwareCompat>, hc: HardwareCompat, rules: Rules)
    requires IsMeshTable(table, rows, rules) && !Runnable(hc)
    ensures IsMeshTable(table, rows + [hc], rules)
  {
    assert (rows + [hc])[..|rows|] == rows;
    assert RowMeshes(rows + [hc], rules) == RowMeshes(rows, rules);
    forall j | 0 <= j < |table|
      ensures SupportedOn(rows + [hc], table[j].mesh, rules) <==> SupportedOn(rows, table[j].mesh, rules)
    {
      SupportedSnoc(rows, hc, table[j].mesh, rules);
    }
  }

  lemma TableStep(table: seq<MeshStatus>, rows: seq<HardwareCompat>, hc: HardwareCompat, rules: Rules, at: nat, next: seq<MeshStatus>)
    requires IsMeshTable(table, rows, rules) && Runnable(hc)
    requires at <= |table| && forall j :: 0 <= j < at ==> table[j].mesh != rules.mesh(hc.hardware)
    requires at < |table| ==> table[at].mesh == rules.mesh(hc.hardware)
    requires next == if at == |table| then table + [MeshStatus(rules.mesh(hc.hardware), hc.status)]
                     else if hc.status.Supported? then table[at := table[at].(status := Supported)]
                     else table
    ensures IsMeshTable(next, rows + [hc], rules)
  {
    var mesh, known := rules.mesh(hc.hardware), Meshes(rows, rules);
    assert (rows + [hc])[..|rows|] == rows;
    var listed := RowMeshes(rows, rules);
    assert RowMeshes(rows + [hc], rules) == listed + [mesh];
    assert (listed + [mesh])[..|listed|] == listed;
    MeshesMeaning(rows, rules);
    assert at < |table| <==> mesh in known by {
      assert at < |table| ==> known[at] == mesh;
      if mesh in known {
        var j :| 0 <= j < |known| && known[j] == mesh;
        assert table[j].mesh == mesh;
      }
    }
    assert Meshes(rows + [hc], rules) == if mesh in known then known else known + [mesh];
    forall j | 0 <= j < |next|
      ensures next[j].mesh == Meshes(rows + [hc], rules)[j]
      ensures next[j].status == if SupportedOn(rows + [hc], next[j].mesh, rules) then Supported else Experimental
    {
      SupportedSnoc(rows, hc, next[j].mesh, rules);
      if j < |table| && j != at {
        assert at < |table| ==> known[j] != known[at];
        assert next[j] == table[j];
      }
      assert SupportedOn(rows, mesh, rules) ==> mesh in known;
    }
  }

  // ----- one model -----

  predicate OnBox(table: seq<MeshStatus>, status: CompatStatus, box: string, rules: Rules) {
    exists j :: 0 <= j < |table| && rules.fits(box, table[j].mesh) && table[j].status == status
  }

  /** Some pair stands for a row's mesh. */
  lemma PairOf(table: seq<MeshStatus>, rows: seq<HardwareCompat>, hc: HardwareCompat, rules: Rules)
    requires IsMeshTable(table, rows, rules) && hc in rows && Runnable(hc)
    ensures exists j :: 0 <= j < |table| && table[j].mesh == rules.mesh(hc.hardware)
  {
    MeshesMeaning(rows, rules);
    assert rules.mesh(hc.hardware) in Meshes(rows, rules);
    var j :| 0 <= j < |Meshes(rows, rules)| && Meshes(rows, rules)[j] == rules.mesh(hc.hardware);
    assert table[j].mesh == rules.mesh(hc.hardware);
  }

  /** Some row is behind a pair, with the pair's own status. */
  lemma RowOf(table: seq<MeshStatus>, rows: seq<HardwareCompat>, j: nat, rules: Rules)
    requires IsMeshTable(table, rows, rules) && j < |table|
    ensures exists hc <- rows :: rules.mesh(hc.hardware) == table[j].mesh && hc.status == table[j].status
  {
    MeshesMeaning(rows, rules);
    var mesh := Meshes(rows, rules)[j];
    assert mesh in Meshes(rows, rules);
    if !SupportedOn(rows, mesh, rules) {
      var hc :| hc in rows && Runnable(hc) && rules.mesh(hc.hardware) == mesh;
      assert hc.status == table[j].status;
    }
  }

  lemma OnBoxMeaning(table: seq<MeshStatus>, rows: seq<HardwareCompat>, box: string, rules: Rules)
    requires IsMeshTable(table, rows, rules)
    ensures OnBox(table, Supported, box, rules) <==> exists hc <- rows :: hc.status.Supported? && FitsBox(hc, box, rules)
    ensures OnBox(table, Supported, box, rules) || OnBox(table, Experimental, box, rules)
            <==> exists hc <- rows :: FitsBox(hc, box, rules)
    ensures table == [] <==> !exists hc <- rows :: Runnable(hc)
  {
    forall hc | hc in rows && Runnable(hc)
      ensures table != []
      ensures FitsBox(hc, box, rules) ==> OnBox(table, Supported, box, rules) || OnBox(table, Experimental, box, rules)
      ensures FitsBox(hc, box, rules) && hc.status.Supported? ==> OnBox(table, Supported, box, rules)
    {
      PairOf(table, rows, hc, rules);
      var j :| 0 <= j < |table| && table[j].mesh == rules.mesh(hc.hardware);
      assert hc.status.Supported? ==> SupportedOn(rows, table[j].mesh, rules);
    }
    forall j | 0 <= j < |table|
      ensures rules.fits(box, table[j].mesh) ==> exists hc <- rows :: FitsBox(hc, box, rules) && hc.status == table[j].status
    {
      RowOf(table, rows, j, rules);
    }
    if table != [] {
      RowOf(table, rows, 0, rules);
    }
  }

  /** The chain of branches comes to the tier rule. */
  method DecideTier(rows: seq<HardwareCompat>, table: seq<MeshStatus>, isLive: bool, s: Setting) returns (t: Tier)
    requires IsMeshTable(table, rows, s.rules)
    ensures t == TierOf(RowSet(rows), isLive, s)
  {
    if isLive {
      return RunsHere;
    }
    if s.box.None? {
      OnBoxMeaning(table, rows, "", s.rules);
      return if table != [] then RunsHere else Omitted;
    }
    var box := s.box.value;
    OnBoxMeaning(table, rows, box, s.rules);
    if OnBox(table, Supported, box, s.rules) {
      var tis := exists hc <- rows :: ServedOnBox(hc, box, s.rules);
      return if tis then RunsHere else WithTools;
    }
    if OnBox(table, Experimental, box, s.rules) {
      return WithTools;
    }
    return if table != [] then NeedsOther else Omitted;
  }

  function Software(rows: seq<HardwareCompat>): seq<string> {
    if rows == [] then [] else Software(rows[..|rows| - 1]) + rows[|rows| - 1].software
  }

  function Misfit(box: Option<string>, rules: Rules): string -> bool {
    mesh => box.Some? && !rules.fits(box.value, mesh)
  }

  function StatusText(t: Tier): StatusHere {
    match t
    case WithTools => ExperimentalHere
    case NeedsOther => UnavailableHere
    case _ => SupportedHere
  }

  function Entry(m: CompatModel, t: Tier, s: Setting): CatalogEntry {
    var hit := LiveMatch(s.live, KeyOf(m, s.rules.key), s.rules);
    CatalogEntry(
      m.id,
      m.displayName,
      m.family,
      m.modelSize,
      Unique(Software(m.compatibility)),
      Meshes(m.compatibility, s.rules),
      if t == NeedsOther then Filter(Meshes(m.compatibility, s.rules), Misfit(s.box, s.rules)) else [],
      hit.Some?,
      hit.Some? && hit.value.downloaded,
      if hit.Some? then SupportedHere else StatusText(t))
  }

  method AllSoftware(rows: seq<HardwareCompat>) returns (software: seq<string>)
    ensures software == Unique(Software(rows))
  {
    software := [];
    for i := 0 to |rows|
      invariant software == Unique(Software(rows[..i]))
    {
      software := AddSoftware(software, rows[i].software, Software(rows[..i]));
      assert rows[..i + 1][..i] == rows[..i];
    }
    assert rows[..|rows|] == rows;
  }

  method AddSoftware(software: seq<string>, more: seq<string>, ghost listed: seq<string>) returns (r: seq<string>)
    requires software == Unique(listed)
    ensures r == Unique(listed + more)
  {
    r := software;
    assert listed + more[..0] == listed;
    for j := 0 to |more|
      invariant r == Unique(listed + more[..j])
    {
      assert listed + more[..j + 1] == (listed + more[..j]) + [more[j]];
      UniqueSnoc(listed + more[..j], more[j]);
      if more[j] !in r {
        r := r + [more[j]];
      }
    }
    assert more[..|more|] == more;
  }

  lemma UniqueSnoc(s: seq<string>, x: string)
    ensures Unique(s + [x]) == if x in Unique(s) then Unique(s) else Unique(s) + [x]
  {
    assert (s + [x])[..|s|] == s;
  }

  method TableMeshes(table: seq<MeshStatus>, box: Option<string>, rules: Rules, ghost all: seq<string>)
    returns (meshes: seq<string>, misfits: seq<string>)
    requires |table| == |all| && forall j :: 0 <= j < |all| ==> table[j].mesh == all[j]
    ensures meshes == all && misfits == Filter(all, Misfit(box, rules))
  {
    meshes, misfits := [], [];
    for i := 0 to |table|
      invariant meshes == all[..i]
      invariant misfits == Filter(all[..i], Misfit(box, rules))
    {
      FilterPrefix(all, i, Misfit(box, rules));
      meshes := meshes + [table[i].mesh];
      if box.Some? && !rules.fits(box.value, table[i].mesh) {
        misfits := misfits + [table[i].mesh];
      }
    }
    assert all[..|table|] == all;
  }

  method MakeEntry(m: CompatModel, table: seq<MeshStatus>, t: Tier, found: Option<ModelInfo>, s: Setting)
    returns (e: CatalogEntry)
    requires IsMeshTable(table, m.compatibility, s.rules)
    requires found == LiveMatch(s.live, KeyOf(m, s.rules.key), s.rules)
    ensures e == Entry(m, t, s)
  {
    var software := AllSoftware(m.compatibility);
    var meshes, misfits := TableMeshes(table, s.box, s.rules, Meshes(m.compatibility, s.rules));
    e := CatalogEntry(m.id, m.displayName, m.family, m.modelSize, software, meshes,
                      if t == NeedsOther then misfits else [], found.Some?,
                      found.Some? && found.value.downloaded, if found.Some? then SupportedHere else StatusText(t));
  }

  // ----- the whole catalog -----

  predicate IsLive(k: string, s: Setting) {
    k in LiveKeys(s.live, s.rules)
  }

  ghost function ModelTier(m: CompatModel, s: Setting): Tier {
    TierOf(RowSet(m.compatibility), IsLive(KeyOf(m, s.rules.key), s), s)
  }

  /** The entries of one tier, in catalog order. */
  ghost function EntriesIn(models: seq<CompatModel>, t: Tier, s: Setting): seq<CatalogEntry> {
    if models == [] then []
    else
      var m := models[|models| - 1];
      EntriesIn(models[..|models| - 1], t, s) + if ModelTier(m, s) == t then [Entry(m, t, s)] else []
  }

  /** The keys of the live models that some catalog model stands for. */
  function Claimed(models: seq<CompatModel>, s: Setting): set<string> {
    if models == [] then {}
    else
      var k := KeyOf(models[|models| - 1], s.rules.key);
      Claimed(models[..|models| - 1], s) + if IsLive(k, s) then {k} else {}
  }

  lemma {:induction false} ClaimedMeaning(models: seq<CompatModel>, s: Setting)
    ensures forall k :: k in Claimed(models, s) <==> k in Keys(models, s.rules.key) && IsLive(k, s)
  {
    if models != [] {
      var init := models[..|models| - 1];
      ClaimedMeaning(init, s);
      assert Keys(models, s.rules.key) == Keys(init, s.rules.key) + [KeyOf(models[|models| - 1], s.rules.key)];
    }
  }

  datatype Sorted = Sorted(
    runsHere: seq<CatalogEntry>,
    experimental: seq<CatalogEntry>,
    otherHardware: seq<CatalogEntry>,
    claimed: set<string>)

  /** The vectors and the set that the loop over the catalog has built. */
  ghost predicate IsSorted(r: Sorted, models: seq<CompatModel>, s: Setting) {
    && r.runsHere == EntriesIn(models, RunsHere, s)
    && r.experimental == EntriesIn(models, WithTools, s)
    && r.otherHardware == EntriesIn(models, NeedsOther, s)
    && r.claimed == Claimed(models, s)
  }

  lemma SortedStep(r: Sorted, models: seq<CompatModel>, m: CompatModel, s: Setting, next: Sorted)
    requires IsSorted(r, models, s)
    requires var t, k, e := ModelTier(m, s), KeyOf(m, s.rules.key), Entry(m, ModelTier(m, s), s);
             next == Sorted(
               r.runsHere + if t == RunsHere then [e] else [],
               r.experimental + if t == WithTools then [e] else [],
               r.otherHardware + if t == NeedsOther then [e] else [],
               r.claimed + if IsLive(k, s) then {k} else {})
    ensures IsSorted(next, models + [m], s)
  {
    assert (models + [m])[..|models|] == models;
  }

  function LiveOnlyEntry(m: ModelInfo): CatalogEntry {
    CatalogEntry(m.name, m.name, m.name, None, [], [], [], true, m.downloaded, SupportedHere)
  }

  function LiveOnly(live: seq<ModelInfo>, known: seq<string>, rules: Rules): seq<CatalogEntry> {
    if live == [] then []
    else
      var m := live[|live| - 1];
      LiveOnly(live[..|live| - 1], known, rules) + if rules.key(m.name) in known then [] else [LiveOnlyEntry(m)]
  }

  ghost function Classified(catalog: Option<seq<CompatModel>>, live: seq<ModelInfo>, boxMesh: Option<string>, stale: bool, rules: Rules): BoxCatalog
  {
    if catalog.None? then BoxCatalog(boxMesh, false, stale, LiveOnly(live, [], rules), [], [])
    else
      var s := Setting(live, LowerBox(boxMesh), rules);
      var models := Deduped(catalog.value, rules.key);
      BoxCatalog(
        boxMesh, true, stale,
        EntriesIn(models, RunsHere, s) + LiveOnly(live, Keys(catalog.value, rules.key), rules),
        EntriesIn(models, WithTools, s),
        EntriesIn(models, NeedsOther, s))
  }

  function LowerBox(boxMesh: Option<string>): Option<string> {
    if boxMesh.Some? then Some(Lower(boxMesh.value)) else None
  }

  method ClassifyModel(m: CompatModel, found: Option<ModelInfo>, s: Setting) returns (t: Tier, e: CatalogEntry)
    requires found == LiveMatch(s.live, KeyOf(m, s.rules.key), s.rules)
    ensures t == ModelTier(m, s) && e == Entry(m, t, s)
  {
    var table := MeshTable(m.compatibility, s.rules);
    t := DecideTier(m.compatibility, table, found.Some?, s);
    e := MakeEntry(m, table, t, found, s);
  }

  method ClassifyModels(models: seq<CompatModel>, found: map<string, ModelInfo>, s: Setting) returns (r: Sorted)
    requires forall k :: LiveMatch(s.live, k, s.rules) == if k in found then Some(found[k]) else None
    ensures IsSorted(r, models, s)
  {
    r := Sorted([], [], [], {});
    for i := 0 to |models|
      invariant IsSorted(r, models[..i], s)
    {
      var next := ClassifyNext(r, models[..i], models[i], found, s);
      assert models[..i + 1] == models[..i] + [models[i]];
      r := next;
    }
    assert models[..|models|] == models;
  }

  method ClassifyNext(r: Sorted, ghost models: seq<CompatModel>, m: CompatModel, found: map<string, ModelInfo>, s: Setting)
    returns (next: Sorted)
    requires forall k :: LiveMatch(s.live, k, s.rules) == if k in found then Some(found[k]) else None
    requires IsSorted(r, models, s)
    ensures IsSorted(next, models + [m], s)
  {
    var k := KeyOf(m, s.rules.key);
    var hit := if k in found then Some(found[k]) else None;
    assert hit == LiveMatch(s.live, k, s.rules);
    var t, e := ClassifyModel(m, hit, s);
    next := Sorted(
      r.runsHere + if t == RunsHere then [e] else [],
      r.experimental + if t == WithTools then [e] else [],
      r.otherHardware + if t == NeedsOther then [e] else [],
      r.claimed + if hit.Some? then {k} else {});
    SortedStep(r, models, m, s, next);
  }

  method Classify(catalog: Option<seq<CompatModel>>, live: seq<ModelInfo>, boxMesh: Option<string>, stale: bool, rules: Rules)
    returns (c: BoxCatalog)
    ensures c == Classified(catalog, live, boxMesh, stale, rules)
  {
    if catalog.None? {
      var entries := AppendLive(live, {}, [], rules);
      return BoxCatalog(boxMesh, false, stale, entries, [], []);
    }
    var found := LiveByKey(live, rules);
    var s := Setting(live, LowerBox(boxMesh), rules);
    var models := DedupeCatalogModels(catalog.value, rules.key);
    var sorted := ClassifyModels(models, found, s);
    DedupedKeys(catalog.value, rules.key);
    ClaimedMeaning(models, s);
    var unmatched := AppendLive(live, sorted.claimed, Keys(catalog.value, rules.key), rules);
    c := BoxCatalog(boxMesh, true, stale, sorted.runsHere + unmatched, sorted.experimental, sorted.otherHardware);
  }

  method AppendLive(live: seq<ModelInfo>, claimed: set<string>, ghost known: seq<string>, rules: Rules)
    returns (out: seq<CatalogEntry>)
    requires forall k :: k in claimed <==> k in known && k in LiveKeys(live, rules)
    ensures out == LiveOnly(live, known, rules)
  {
    out := [];
    for i := 0 to |live|
      invariant out == LiveOnly(live[..i], known, rules)
    {
      assert live[..i + 1][..i] == live[..i];
      assert LiveKeys(live, rules)[i] in LiveKeys(live, rules);
      if rules.key(live[i].name) !in claimed {
        out := out + [LiveOnlyEntry(live[i])];
      }
    }
    assert live[..|live|] == live;
  }

  method ClassifyForBox(catalog: Option<seq<CompatModel>>, live: seq<ModelInfo>, boxMesh: Option<string>, stale: bool)
    returns (c: BoxCatalog)
    ensures c == Classified(catalog, live, boxMesh, stale, BoxRules())
  {
    c := Classify(catalog, live, boxMesh, stale, BoxRules());
  }

  function BoxRules(): Rules {
    Rules(CatalogNames.NormalizeKey, CatalogNames.HwToMesh, CatalogNames.MeshCompatible, CatalogNames.SoftwareIsTis)
  }

  // ----- conservation -----

  function EntryKey(e: CatalogEntry, key: KeyFunction): string {
    key(if e.id != "" then e.id else e.displayName)
  }

  /** How many entries name the model of that key. */
  function Occurrences(entries: seq<CatalogEntry>, k: string, key: KeyFunction): nat {
    if entries == [] then 0
    else Occurrences(entries[..|entries| - 1], k, key) + if EntryKey(entries[|entries| - 1], key) == k then 1 else 0
  }

  lemma OccurrencesSnoc(entries: seq<CatalogEntry>, e: CatalogEntry, k: string, key: KeyFunction)
    ensures Occurrences(entries + [e], k, key) == Occurrences(entries, k, key) + if EntryKey(e, key) == k then 1 else 0
  {
    assert (entries + [e])[..|entries|] == entries;
  }

  lemma {:induction false} OccurrencesConcat(a: seq<CatalogEntry>, b: seq<CatalogEntry>, k: string, key: KeyFunction)
    ensures Occurrences(a + b, k, key) == Occurrences(a, k, key) + Occurrences(b, k, key)
  {
    if b == [] {
      assert a + b == a;
    } else {
      assert (a + b)[..|a + b| - 1] == a + b[..|b| - 1];
      OccurrencesConcat(a, b[..|b| - 1], k, key);
    }
  }

  lemma OccurrencesStep(models: seq<CompatModel>, t: Tier, s: Setting, k: string)
    requires models != []
    ensures Occurrences(EntriesIn(models, t, s), k, s.rules.key)
            == Occurrences(EntriesIn(models[..|models| - 1], t, s), k, s.rules.key)
               + if KeyOf(models[|models| - 1], s.rules.key) == k && ModelTier(models[|models| - 1], s) == t then 1 else 0
  {
    var before, e := EntriesIn(models[..|models| - 1], t, s), Entry(models[|models| - 1], t, s);
    assert EntryKey(e, s.rules.key) == KeyOf(models[|models| - 1], s.rules.key);
    assert (before + [e])[..|before|] == before;
    assert before + [] == before;
  }

  lemma InitKeys(models: seq<CompatModel>, key: KeyFunction)
    requires models != []
    ensures var init := models[..|models| - 1];
            && Keys(models, key) == Keys(init, key) + [KeyOf(models[|init|], key)]
            && (Distinct(Keys(models, key)) ==> Distinct(Keys(init, key)) && KeyOf(models[|init|], key) !in Keys(init, key))
  {
    var init := models[..|models| - 1];
    assert Keys(models, key) == Keys(init, key) + [KeyOf(models[|init|], key)];
    DistinctSnoc(Keys(init, key), KeyOf(models[|init|], key));
  }

  lemma {:induction false} NoneWithoutKey(models: seq<CompatModel>, t: Tier, s: Setting, k: string)
    requires k !in Keys(models, s.rules.key)
    ensures Occurrences(EntriesIn(models, t, s), k, s.rules.key) == 0
  {
    if models != [] {
      InitKeys(models, s.rules.key);
      NoneWithoutKey(models[..|models| - 1], t, s, k);
      OccurrencesStep(models, t, s, k);
    }
  }

  lemma {:induction false} OnceInItsTier(models: seq<CompatModel>, i: nat, t: Tier, s: Setting)
    requires Distinct(Keys(models, s.rules.key)) && i < |models|
    ensures Occurrences(EntriesIn(models, t, s), KeyOf(models[i], s.rules.key), s.rules.key)
            == if ModelTier(models[i], s) == t then 1 else 0
  {
    var init, k := models[..|models| - 1], KeyOf(models[i], s.rules.key);
    InitKeys(models, s.rules.key);
    OccurrencesStep(models, t, s, k);
    if i < |init| {
      OnceInItsTier(init, i, t, s);
      assert Keys(init, s.rules.key)[i] == k;
    } else {
      NoneWithoutKey(init, t, s, k);
    }
  }

  /** The compatibility rows that came in under one key, before any merging. */
  ghost function RowsUnder(models: seq<CompatModel>, k: string, key: KeyFunction): set<HardwareCompat> {
    set m <- models, hc <- m.compatibility | KeyOf(m, key) == k :: hc
  }

  lemma DedupedRows(models: seq<CompatModel>, key: KeyFunction, i: nat)
    requires i < |Deduped(models, key)|
    ensures RowSet(Deduped(models, key)[i].compatibility) == RowsUnder(models, KeyOf(Deduped(models, key)[i], key), key)
  {
    var deduped := Deduped(models, key);
    var k := KeyOf(deduped[i], key);
    DedupedKeys(models, key);
    forall d | d in deduped && KeyOf(d, key) == k
      ensures d == deduped[i]
    {
      var j :| 0 <= j < |deduped| && deduped[j] == d;
      assert Keys(deduped, key)[i] == Keys(deduped, key)[j];
    }
    forall hc
      ensures hc in RowSet(deduped[i].compatibility) <==> hc in RowsUnder(models, k, key)
    {
      DedupeKeepsRows(models, key, k, hc);
      assert deduped[i] in deduped;
    }
  }

  lemma LiveOnlyKey(m: ModelInfo, key: KeyFunction)
    ensures EntryKey(LiveOnlyEntry(m), key) == key(m.name)
  {
  }

  /** How many live models have that key. */
  function LiveCount(live: seq<ModelInfo>, rules: Rules, k: string): nat {
    if live == [] then 0
    else LiveCount(live[..|live| - 1], rules, k) + if rules.key(live[|live| - 1].name) == k then 1 else 0
  }

  lemma {:induction false} LiveCountIsMultiset(live: seq<ModelInfo>, rules: Rules, k: string)
    ensures LiveCount(live, rules, k) == multiset(LiveKeys(live, rules))[k]
  {
    if live != [] {
      var init := live[..|live| - 1];
      LiveCountIsMultiset(init, rules, k);
      assert LiveKeys(live, rules) == LiveKeys(init, rules) + [rules.key(live[|live| - 1].name)];
    }
  }

  lemma LiveOnlyStep(live: seq<ModelInfo>, known: seq<string>, rules: Rules, k: string)
    requires live != []
    ensures Occurrences(LiveOnly(live, known, rules), k, rules.key)
            == Occurrences(LiveOnly(live[..|live| - 1], known, rules), k, rules.key)
               + if rules.key(live[|live| - 1].name) == k && k !in known then 1 else 0
  {
    var before, m := LiveOnly(live[..|live| - 1], known, rules), live[|live| - 1];
    LiveOnlyKey(m, rules.key);
    OccurrencesSnoc(before, LiveOnlyEntry(m), k, rules.key);
    assert before + [] == before;
  }

  lemma {:induction false} LiveOnlyCounts(live: seq<ModelInfo>, known: seq<string>, rules: Rules, k: string)
    ensures Occurrences(LiveOnly(live, known, rules), k, rules.key) == if k in known then 0 else LiveCount(live, rules, k)
  {
    if live != [] {
      LiveOnlyCounts(live[..|live| - 1], known, rules, k);
      LiveOnlyStep(live, known, rules, k);
    }
  }

  /** Live-only entries count the live models whose key the catalog does not know. */
  lemma LiveOnlyCount(live: seq<ModelInfo>, known: seq<string>, rules: Rules, k: string)
    ensures Occurrences(LiveOnly(live, known, rules), k, rules.key)
            == if k in known then 0 else multiset(LiveKeys(live, rules))[k]
  {
    LiveOnlyCounts(live, known, rules, k);
    LiveCountIsMultiset(live, rules, k);
  }

  /**
   * The whole partition. A key the catalog lists goes, once, to the tier its unmerged rows call for,
   * and nowhere else; it is left out exactly when it is neither live nor runnable anywhere. A key
   * only live models carry is listed once for each of them, among what runs here.
   */
  lemma WhereEachKeyGoes(catalog: seq<CompatModel>, live: seq<ModelInfo>, boxMesh: Option<string>, stale: bool, rules: Rules, k: string)
    ensures
      var s := Setting(live, LowerBox(boxMesh), rules);
      var c := Classified(Some(catalog), live, boxMesh, stale, rules);
      var rows := RowsUnder(catalog, k, rules.key);
      if k in Keys(catalog, rules.key) then
        && Occurrences(c.runsHere, k, rules.key) == (if TierOf(rows, IsLive(k, s), s) == RunsHere then 1 else 0)
        && Occurrences(c.experimental, k, rules.key) == (if TierOf(rows, IsLive(k, s), s) == WithTools then 1 else 0)
        && Occurrences(c.otherHardware, k, rules.key) == (if TierOf(rows, IsLive(k, s), s) == NeedsOther then 1 else 0)
      else
        && Occurrences(c.runsHere, k, rules.key) == multiset(LiveKeys(live, rules))[k]
        && Occurrences(c.experimental, k, rules.key) == 0
        && Occurrences(c.otherHardware, k, rules.key) == 0
  {
    var s := Setting(live, LowerBox(boxMesh), rules);
    var models := Deduped(catalog, rules.key);
    DedupedKeys(catalog, rules.key);
    LiveOnlyCount(live, Keys(catalog, rules.key), rules, k);
    OccurrencesConcat(EntriesIn(models, RunsHere, s), LiveOnly(live, Keys(catalog, rules.key), rules), k, rules.key);
    if k in Keys(catalog, rules.key) {
      var i :| 0 <= i < |models| && Keys(models, rules.key)[i] == k;
      DedupedRows(catalog, rules.key, i);
      OnceInItsTier(models, i, RunsHere, s);
      OnceInItsTier(models, i, WithTools, s);
      OnceInItsTier(models, i, NeedsOther, s);
    } else {
      NoneWithoutKey(models, RunsHere, s, k);
      NoneWithoutKey(models, WithTools, s, k);
      NoneWithoutKey(models, NeedsOther, s, k);
    }
  }

  /** A live model always runs here, and is in no other tier. */
  lemma LiveRunsHere(catalog: Option<seq<CompatModel>>, live: seq<ModelInfo>, boxMesh: Option<string>, stale: bool, rules: Rules, k: string)
    requires k in LiveKeys(live, rules)
    ensures
      var c := Classified(catalog, live, boxMesh, stale, rules);
      && Occurrences(c.runsHere, k, rules.key) >= 1
      && Occurrences(c.experimental, k, rules.key) == 0
      && Occurrences(c.otherHardware, k, rules.key) == 0
  {
    if catalog.Some? {
      WhereEachKeyGoes(catalog.value, live, boxMesh, stale, rules, k);
    } else {
      LiveOnlyCount(live, [], rules, k);
    }
  }

  function EntryKeys(entries: seq<CatalogEntry>, key: KeyFunction): (r: seq<string>)
    ensures |r| == |entries| && forall i :: 0 <= i < |r| ==> r[i] == EntryKey(entries[i], key)
  {
    seq(|entries|, i requires 0 <= i < |entries| => EntryKey(entries[i], key))
  }

  lemma {:induction false} OccurrencesAreKeys(entries: seq<CatalogEntry>, k: string, key: KeyFunction)
    ensures Occurrences(entries, k, key) > 0 <==> k in EntryKeys(entries, key)
  {
    if entries != [] {
      var init := entries[..|entries| - 1];
      OccurrencesAreKeys(init, k, key);
      assert EntryKeys(entries, key) == EntryKeys(init, key) + [EntryKey(entries[|entries| - 1], key)];
    }
  }

  ghost predicate NoneTwice(entries: seq<CatalogEntry>, key: KeyFunction) {
    forall k :: Occurrences(entries, k, key) <= 1
  }

  lemma NoneTwiceSnoc(entries: seq<CatalogEntry>, e: CatalogEntry, key: KeyFunction)
    ensures NoneTwice(entries + [e], key) <==> NoneTwice(entries, key) && Occurrences(entries, EntryKey(e, key), key) == 0
  {
    forall k
      ensures Occurrences(entries + [e], k, key) == Occurrences(entries, k, key) + if EntryKey(e, key) == k then 1 else 0
    {
      OccurrencesSnoc(entries, e, k, key);
    }
    if NoneTwice(entries + [e], key) {
      assert forall k :: Occurrences(entries, k, key) <= Occurrences(entries + [e], k, key);
      assert Occurrences(entries + [e], EntryKey(e, key), key) <= 1;
    }
  }

  lemma {:induction false} DistinctIsOnce(entries: seq<CatalogEntry>, key: KeyFunction)
    ensures Distinct(EntryKeys(entries, key)) <==> NoneTwice(entries, key)
  {
    if entries != [] {
      var init, e := entries[..|entries| - 1], entries[|entries| - 1];
      DistinctIsOnce(init, key);
      assert entries == init + [e];
      assert EntryKeys(entries, key) == EntryKeys(init, key) + [EntryKey(e, key)];
      DistinctSnoc(EntryKeys(init, key), EntryKey(e, key));
      OccurrencesAreKeys(init, EntryKey(e, key), key);
      NoneTwiceSnoc(init, e, key);
    }
  }

  function AllEntries(c: BoxCatalog): seq<CatalogEntry> {
    c.runsHere + c.experimental + c.otherHardware
  }

  lemma OccurrencesOverall(catalog: Option<seq<CompatModel>>, live: seq<ModelInfo>, boxMesh: Option<string>, stale: bool, rules: Rules, k: string)
    ensures
      var known := if catalog.Some? then Keys(catalog.value, rules.key) else [];
      var n := Occurrences(AllEntries(Classified(catalog, live, boxMesh, stale, rules)), k, rules.key);
      if k in known then n <= 1 else n == multiset(LiveKeys(live, rules))[k]
  {
    var c := Classified(catalog, live, boxMesh, stale, rules);
    OccurrencesConcat(c.runsHere + c.experimental, c.otherHardware, k, rules.key);
    OccurrencesConcat(c.runsHere, c.experimental, k, rules.key);
    if catalog.Some? {
      WhereEachKeyGoes(catalog.value, live, boxMesh, stale, rules, k);
    } else {
      LiveOnlyCount(live, [], rules, k);
    }
  }

  /**
   * No model is listed twice, across all the tiers, exactly when no two live models that the
   * catalog does not know share a key.
   */
  lemma NoModelTwice(catalog: Option<seq<CompatModel>>, live: seq<ModelInfo>, boxMesh: Option<string>, stale: bool, rules: Rules)
    ensures
      var known := if catalog.Some? then Keys(catalog.value, rules.key) else [];
      Distinct(EntryKeys(AllEntries(Classified(catalog, live, boxMesh, stale, rules)), rules.key))
      <==> forall k :: k !in known ==> multiset(LiveKeys(live, rules))[k] <= 1
  {
    var entries := AllEntries(Classified(catalog, live, boxMesh, stale, rules));
    var known := if catalog.Some? then Keys(catalog.value, rules.key) else [];
    DistinctIsOnce(entries, rules.key);
    forall k
      ensures if k in known then Occurrences(entries, k, rules.key) <= 1
              else Occurrences(entries, k, rules.key) == multiset(LiveKeys(live, rules))[k]
    {
      OccurrencesOverall(catalog, live, boxMesh, stale, rules, k);
    }
  }

  /** Two live models of one key and no catalog row for it: both are listed. */
  lemma SharedKeyListedTwice(org: string, name: string, boxMesh: Option<string>)
    requires '/' !in name
    ensures
      var live := [ModelInfo(org + "/" + name, true), ModelInfo(name, true)];
      !Distinct(EntryKeys(AllEntries(Classified(Some([]), live, boxMesh, false, BoxRules())), BoxRules().key))
  {
    var live := [ModelInfo(org + "/" + name, true), ModelInfo(name, true)];
    var k := CatalogNames.NormalizeKey(name);
    CatalogNames.OrgIgnored(org, name);
    assert LiveKeys(live, BoxRules()) == [k, k];
    assert multiset(LiveKeys(live, BoxRules()))[k] == 2;
    assert Keys([], BoxRules().key) == [] && k !in Keys([], BoxRules().key);
    NoModelTwice(Some([]), live, boxMesh, false, BoxRules());
  }

  // ----- what an entry says of itself -----

  ghost predicate SaysRight(e: CatalogEntry, t: Tier, s: Setting) {
    && (e.availableNow <==> IsLive(EntryKey(e, s.rules.key), s))
    && (e.downloaded ==> e.availableNow)
    && (e.availableNow ==> t == RunsHere)
    && e.statusHere == StatusText(t)
    && (e.meshes == [] ==> e.availableNow)
    && e.neededHardware == (if t == NeedsOther then e.meshes else [])
    && (t == NeedsOther ==> s.box.Some? && forall m <- e.meshes :: !s.rules.fits(s.box.value, m))
  }

  lemma NeededIsAll(m: CompatModel, s: Setting)
    requires ModelTier(m, s) == NeedsOther
    ensures forall mesh :: mesh in Meshes(m.compatibility, s.rules) ==> !s.rules.fits(s.box.value, mesh)
    ensures Filter(Meshes(m.compatibility, s.rules), Misfit(s.box, s.rules)) == Meshes(m.compatibility, s.rules)
  {
    var rows := m.compatibility;
    MeshesMeaning(rows, s.rules);
    forall mesh | mesh in Meshes(rows, s.rules)
      ensures !s.rules.fits(s.box.value, mesh)
    {
      var hc :| hc in rows && Runnable(hc) && s.rules.mesh(hc.hardware) == mesh;
      assert hc in RowSet(rows) && !FitsBox(hc, s.box.value, s.rules);
    }
    FilterAll(Meshes(rows, s.rules), Misfit(s.box, s.rules));
  }

  lemma HasMeshes(m: CompatModel, s: Setting)
    requires ModelTier(m, s) != Omitted && !IsLive(KeyOf(m, s.rules.key), s)
    ensures Meshes(m.compatibility, s.rules) != []
  {
    var rows := m.compatibility;
    MeshesMeaning(rows, s.rules);
    var hc :| hc in RowSet(rows) && Runnable(hc);
    assert s.rules.mesh(hc.hardware) in Meshes(rows, s.rules);
  }

  lemma {:induction false} TierSaysRight(models: seq<CompatModel>, t: Tier, s: Setting, e: CatalogEntry)
    requires t != Omitted && e in EntriesIn(models, t, s)
    ensures SaysRight(e, t, s)
    ensures exists m <- models :: e == Entry(m, t, s) && ModelTier(m, s) == t
  {
    var init, m := models[..|models| - 1], models[|models| - 1];
    if e in EntriesIn(init, t, s) {
      TierSaysRight(init, t, s, e);
    } else {
      assert m in models && e == Entry(m, t, s);
      if t == NeedsOther {
        NeededIsAll(m, s);
      }
      if !IsLive(KeyOf(m, s.rules.key), s) {
        HasMeshes(m, s);
      }
    }
  }

  lemma {:induction false} LiveOnlyFrom(live: seq<ModelInfo>, known: seq<string>, rules: Rules, e: CatalogEntry)
    requires e in LiveOnly(live, known, rules)
    ensures exists i :: 0 <= i < |live| && e == LiveOnlyEntry(live[i])
  {
    var init := live[..|live| - 1];
    if e in LiveOnly(init, known, rules) {
      LiveOnlyFrom(init, known, rules, e);
      var i :| 0 <= i < |init| && e == LiveOnlyEntry(init[i]);
      assert live[i] == init[i];
    } else {
      assert e == LiveOnlyEntry(live[|live| - 1]);
    }
  }

  /**
   * Whatever tier an entry is in, its own fields agree with it: only live models are available, and
   * the hardware a model needs is all the hardware it lists, none of which the box can stand in for.
   */
  lemma EntriesSayRight(catalog: Option<seq<CompatModel>>, live: seq<ModelInfo>, boxMesh: Option<string>, stale: bool, rules: Rules, e: CatalogEntry)
    ensures
      var s, c := Setting(live, LowerBox(boxMesh), rules), Classified(catalog, live, boxMesh, stale, rules);
      && (e in c.runsHere ==> SaysRight(e, RunsHere, s))
      && (e in c.experimental ==> SaysRight(e, WithTools, s))
      && (e in c.otherHardware ==> SaysRight(e, NeedsOther, s))
  {
    var s, c := Setting(live, LowerBox(boxMesh), rules), Classified(catalog, live, boxMesh, stale, rules);
    var known := if catalog.Some? then Keys(catalog.value, rules.key) else [];
    var models := if catalog.Some? then Deduped(catalog.value, rules.key) else [];
    if e in LiveOnly(live, known, rules) {
      LiveOnlyFrom(live, known, rules, e);
      var i :| 0 <= i < |live| && e == LiveOnlyEntry(live[i]);
      LiveOnlyKey(live[i], rules.key);
      assert LiveKeys(live, rules)[i] == rules.key(live[i].name);
    }
    if e in EntriesIn(models, RunsHere, s) {
      TierSaysRight(models, RunsHere, s, e);
    }
    if e in c.experimental {
      TierSaysRight(models, WithTools, s, e);
    }
    if e in c.otherHardware {
      TierSaysRight(models, NeedsOther, s, e);
    }
  }
}
