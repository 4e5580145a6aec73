/**
 * Collapsing catalog rows that name the same model. Nothing here depends on how a key is computed,
 * so the key function is a parameter.
 */
module CatalogDedupe {
  import opened Wrappers
  import opened Seqs
  import opened Text

  datatype CompatStatus = Supported | Experimental | NotSupported | Other(text: string)

  datatype HardwareCompat = HardwareCompat(
    hardware: string,
    chipSet: string,
    hardwareFamily: string,
    status: CompatStatus,
    software: seq<string>)

  datatype CompatModel = CompatModel(
    id: string,
    displayName: string,
    family: string,
    tasks: seq<string>,
    modelSize: Option<string>,
    modelSizeNum: Option<real>,
    modelDescription: Option<string>,
    compatibility: seq<HardwareCompat>)

  type KeyFunction = string -> string

  function KeyOf(m: CompatModel, key: KeyFunction): string {
    key(if m.id != "" then m.id else m.displayName)
  }

  function Keys(models: seq<CompatModel>, key: KeyFunction): (r: seq<string>)
    ensures |r| == |models| && forall i :: 0 <= i < |r| ==> r[i] == KeyOf(models[i], key)
  {
    seq(|models|, i requires 0 <= i < |models| => KeyOf(models[i], key))
  }

  predicate IsClean(m: CompatModel) {
    '/' !in m.id && m.family != "" && Lower(m.family) != "other"
  }

  predicate NoOrg(m: CompatModel) {
    '/' !in m.id
  }

  function FirstIndex(models: seq<CompatModel>, good: CompatModel -> bool): (r: nat)
    ensures r <= |models|
    ensures r < |models| ==> good(models[r])
    ensures forall i :: 0 <= i < r ==> !good(models[i])
  {
    if models == [] then 0
    else
      var r := FirstIndex(models[..|models| - 1], good);
      if r < |models| - 1 || good(models[|models| - 1]) then r else |models|
  }

  /** The row whose names are kept: the first clean one, else the first without an org, else the first. */
  function BaseIndex(members: seq<CompatModel>): (r: nat)
    requires members != []
    ensures r < |members|
  {
    var clean, noOrg := FirstIndex(members, IsClean), FirstIndex(members, NoOrg);
    if clean < |members| then clean else if noOrg < |members| then noOrg else 0
  }

  /** `if !rows.contains(hc) { rows.push(hc) }` for each row. */
  function AddRows(rows: seq<HardwareCompat>, more: seq<HardwareCompat>): (r: seq<HardwareCompat>) {
    if more == [] then rows
    else
      var r := AddRows(rows, more[..|more| - 1]);
      if more[|more| - 1] in r then r else r + [more[|more| - 1]]
  }

  /** The base's rows, and the new ones of every other member up to `n`. */
  function MergedRows(members: seq<CompatModel>, base: nat, n: nat): (r: seq<HardwareCompat>)
    requires base < |members| && n <= |members|
  {
    if n == 0 then members[base].compatibility
    else if n - 1 == base then MergedRows(members, base, n - 1)
    else AddRows(MergedRows(members, base, n - 1), members[n - 1].compatibility)
  }

  function HasSize(m: CompatModel): bool {
    m.modelSize.Some?
  }

  function MergedSize(members: seq<CompatModel>, base: nat): Option<string>
    requires base < |members|
  {
    if members[base].modelSize.Some? then members[base].modelSize
    else
      var i := FirstIndex(members, HasSize);
      if i < |members| then members[i].modelSize else None
  }

  function Merge(members: seq<CompatModel>): (r: CompatModel)
    requires members != []
  {
    var base := BaseIndex(members);
    members[base].(compatibility := MergedRows(members, base, |members|), modelSize := MergedSize(members, base))
  }

  function HasKey(k: string, key: KeyFunction): CompatModel -> bool {
    m => KeyOf(m, key) == k
  }

  function Members(models: seq<CompatModel>, k: string, key: KeyFunction): seq<CompatModel> {
    Filter(models, HasKey(k, key))
  }

  function Order(models: seq<CompatModel>, key: KeyFunction): seq<string> {
    Unique(Keys(models, key))
  }

  lemma KeyedHaveMembers(models: seq<CompatModel>, k: string, key: KeyFunction)
    ensures k in Keys(models, key) <==> Members(models, k, key) != []
    ensures k in Order(models, key) <==> Members(models, k, key) != []
    ensures forall m :: m in Members(models, k, key) <==> m in models && KeyOf(m, key) == k
  {
    FilterMembers(models, HasKey(k, key));
    UniqueElements(Keys(models, key));
    if k in Keys(models, key) {
      var i :| 0 <= i < |models| && Keys(models, key)[i] == k;
      assert models[i] in Members(models, k, key);
    }
    if Members(models, k, key) != [] {
      var m := Members(models, k, key)[0];
      assert m in models;
      var i :| 0 <= i < |models| && models[i] == m;
      assert Keys(models, key)[i] == k;
    }
  }

  /** One merged row for each key, in order of first appearance. */
  function Deduped(models: seq<CompatModel>, key: KeyFunction): (r: seq<CompatModel>)
    ensures |r| == |Order(models, key)|
  {
    var order := Order(models, key);
    seq(|order|, i requires 0 <= i < |order| =>
      (KeyedHaveMembers(models, order[i], key); Merge(Members(models, order[i], key))))
  }

  lemma DedupedAt(models: seq<CompatModel>, key: KeyFunction, i: nat)
    requires i < |Order(models, key)|
    ensures Members(models, Order(models, key)[i], key) != []
    ensures Deduped(models, key)[i] == Merge(Members(models, Order(models, key)[i], key))
  {
    KeyedHaveMembers(models, Order(models, key)[i], key);
  }

  // ----- the loops -----

  method MergeMembers(members: seq<CompatModel>) returns (merged: CompatModel)
    requires members != []
    ensures merged == Merge(members)
  {
    var base := BaseIndex(members);
    var rows := members[base].compatibility;
    for n := 0 to |members|
      invariant rows == MergedRows(members, base, n)
    {
      if n != base {
        var more := members[n].compatibility;
        ghost var start := rows;
        for j := 0 to |more|
          invariant rows == AddRows(start, more[..j])
        {
          assert more[..j + 1][..j] == more[..j];
          if more[j] !in rows {
            rows := rows + [more[j]];
          }
        }
        assert more[..|more|] == more;
      }
    }
    merged := members[base].(compatibility := rows);
    if merged.modelSize.None? {
      var i := FirstIndex(members, HasSize);
      merged := merged.(modelSize := if i < |members| then members[i].modelSize else None);
    }
  }

  /** The keys in order of first appearance, and under each its rows in order. */
  ghost predicate IsGrouped(order: seq<string>, groups: map<string, seq<CompatModel>>, models: seq<CompatModel>, key: KeyFunction) {
    && order == Order(models, key)
    && (forall k :: k in order <==> k in groups)
    && (forall k :: k in groups ==> groups[k] == Members(models, k, key))
  }

  method GroupModels(models: seq<CompatModel>, key: KeyFunction)
    returns (order: seq<string>, groups: map<string, seq<CompatModel>>)
    ensures IsGrouped(order, groups, models, key)
  {
    order, groups := [], map[];
    for i := 0 to |models|
      invariant IsGrouped(order, groups, models[..i], key)
    {
      var m := models[i];
      var k := KeyOf(m, key);
      GroupStep(order, groups, models[..i], m, key);
      assert models[..i + 1] == models[..i] + [m];
      if k !in groups {
        order := order + [k];
        groups := groups[k := [m]];
      } else {
        groups := groups[k := groups[k] + [m]];
      }
    }
    assert models[..|models|] == models;
  }

  lemma OrderSnoc(models: seq<CompatModel>, m: CompatModel, key: KeyFunction)
    ensures Order(models + [m], key)
            == if KeyOf(m, key) in Order(models, key) then Order(models, key) else Order(models, key) + [KeyOf(m, key)]
  {
    assert Keys(models + [m], key) == Keys(models, key) + [KeyOf(m, key)];
    UniquePrefix(Keys(models + [m], key), |models|);
    assert Keys(models + [m], key)[..|models|] == Keys(models, key);
    assert Keys(models + [m], key)[..|models| + 1] == Keys(models + [m], key);
  }

  lemma MembersSnoc(models: seq<CompatModel>, m: CompatModel, k: string, key: KeyFunction)
    ensures Members(models + [m], k, key) == Members(models, k, key) + if KeyOf(m, key) == k then [m] else []
  {
    FilterSnoc(models, m, HasKey(k, key));
  }

  lemma GroupStep(order: seq<string>, groups: map<string, seq<CompatModel>>, models: seq<CompatModel>, m: CompatModel, key: KeyFunction)
    requires IsGrouped(order, groups, models, key)
    ensures var k := KeyOf(m, key);
            if k in groups then IsGrouped(order, groups[k := groups[k] + [m]], models + [m], key)
            else IsGrouped(order + [k], groups[k := [m]], models + [m], key)
  {
    var k := KeyOf(m, key);
    OrderSnoc(models, m, key);
    KeyedHaveMembers(models, k, key);
    forall other
      ensures Members(models + [m], other, key) == Members(models, other, key) + if k == other then [m] else []
    {
      MembersSnoc(models, m, other, key);
    }
  }

  method DedupeCatalogModels(models: seq<CompatModel>, key: KeyFunction) returns (out: seq<CompatModel>)
    ensures out == Deduped(models, key)
  {
    var order, groups := GroupModels(models, key);
    out := [];
    for i := 0 to |order|
      invariant |out| == i && forall j :: 0 <= j < i ==> out[j] == Deduped(models, key)[j]
    {
      DedupedAt(models, key, i);
      var merged := MergeMembers(groups[order[i]]);
      out := out + [merged];
    }
  }

  // ----- what a merge keeps -----

  lemma {:induction false} AddRowsElements(rows: seq<HardwareCompat>, more: seq<HardwareCompat>)
    ensures forall hc :: hc in AddRows(rows, more) <==> hc in rows || hc in more
  {
    if more != [] {
      AddRowsElements(rows, more[..|more| - 1]);
      assert more == more[..|more| - 1] + [more[|more| - 1]];
    }
  }

  lemma {:induction false} MergedRowsElements(members: seq<CompatModel>, base: nat, n: nat, hc: HardwareCompat)
    requires base < |members| && n <= |members|
    ensures hc in MergedRows(members, base, n)
            <==> hc in members[base].compatibility || exists i :: 0 <= i < n && hc in members[i].compatibility
  {
    if n > 0 {
      MergedRowsElements(members, base, n - 1, hc);
      if n - 1 != base {
        AddRowsElements(MergedRows(members, base, n - 1), members[n - 1].compatibility);
      }
    }
  }

  /** No compatibility row is lost and none is invented; a size known to any twin is kept. */
  lemma MergeKeeps(members: seq<CompatModel>, hc: HardwareCompat)
    requires members != []
    ensures hc in Merge(members).compatibility <==> exists i :: 0 <= i < |members| && hc in members[i].compatibility
    ensures Merge(members).modelSize.Some? <==> exists i :: 0 <= i < |members| && members[i].modelSize.Some?
    ensures exists i :: 0 <= i < |members|
                        && Merge(members) == members[i].(compatibility := Merge(members).compatibility, modelSize := Merge(members).modelSize)
    ensures (exists i :: 0 <= i < |members| && IsClean(members[i])) ==> IsClean(Merge(members))
  {
    var base := BaseIndex(members);
    MergedRowsElements(members, base, |members|, hc);
    assert members[base].modelSize.Some? ==> exists i :: 0 <= i < |members| && members[i].modelSize.Some?;
  }

  lemma MergeKeepsKey(members: seq<CompatModel>, k: string, key: KeyFunction)
    requires members != [] && forall m :: m in members ==> KeyOf(m, key) == k
    ensures KeyOf(Merge(members), key) == k
  {
    assert members[BaseIndex(members)] in members;
  }

  lemma MergeOne(m: CompatModel)
    ensures Merge([m]) == m
  {
    assert MergedRows([m], 0, 1) == MergedRows([m], 0, 0);
  }

  /** The deduplicated rows have pairwise distinct keys, in order of first appearance. */
  lemma DedupedKeys(models: seq<CompatModel>, key: KeyFunction)
    ensures Keys(Deduped(models, key), key) == Order(models, key)
    ensures Distinct(Keys(Deduped(models, key), key))
    ensures forall k :: k in Keys(Deduped(models, key), key) <==> k in Keys(models, key)
  {
    var order := Order(models, key);
    forall i | 0 <= i < |order|
      ensures KeyOf(Deduped(models, key)[i], key) == order[i]
    {
      DedupedAt(models, key, i);
      KeyedHaveMembers(models, order[i], key);
      MergeKeepsKey(Members(models, order[i], key), order[i], key);
    }
    UniqueElements(Keys(models, key));
  }

  /** Some row under the key `k` has the compatibility row `hc`. */
  predicate HasRow(models: seq<CompatModel>, key: KeyFunction, k: string, hc: HardwareCompat) {
    exists m <- models :: KeyOf(m, key) == k && hc in m.compatibility
  }

  lemma MergedHasRow(models: seq<CompatModel>, key: KeyFunction, i: nat, hc: HardwareCompat)
    requires i < |Order(models, key)|
    ensures hc in Deduped(models, key)[i].compatibility <==> HasRow(models, key, Order(models, key)[i], hc)
  {
    var k := Order(models, key)[i];
    var members := Members(models, k, key);
    DedupedAt(models, key, i);
    MergeKeeps(members, hc);
    KeyedHaveMembers(models, k, key);
    if m :| m in models && KeyOf(m, key) == k && hc in m.compatibility {
      var j :| 0 <= j < |members| && members[j] == m;
    }
    if j :| 0 <= j < |members| && hc in members[j].compatibility {
      assert members[j] in models && KeyOf(members[j], key) == k;
    }
  }

  lemma KeyHasIndex(models: seq<CompatModel>, key: KeyFunction, m: CompatModel) returns (i: nat)
    requires m in models
    ensures i < |Order(models, key)| && Order(models, key)[i] == KeyOf(m, key)
  {
    var j :| 0 <= j < |models| && models[j] == m;
    assert Keys(models, key)[j] == KeyOf(m, key);
    UniqueElements(Keys(models, key));
    assert KeyOf(m, key) in Keys(models, key) && KeyOf(m, key) in Order(models, key);
    i :| 0 <= i < |Order(models, key)| && Order(models, key)[i] == KeyOf(m, key);
  }

  /** For each key, the rows that came in under it are the rows that go out under it. */
  lemma DedupeKeepsRows(models: seq<CompatModel>, key: KeyFunction, k: string, hc: HardwareCompat)
    ensures HasRow(models, key, k, hc) <==> HasRow(Deduped(models, key), key, k, hc)
  {
    DedupedKeys(models, key);
    var deduped := Deduped(models, key);
    if HasRow(models, key, k, hc) {
      var m :| m in models && KeyOf(m, key) == k && hc in m.compatibility;
      var i := KeyHasIndex(models, key, m);
      MergedHasRow(models, key, i, hc);
      assert deduped[i] in deduped && KeyOf(deduped[i], key) == Keys(deduped, key)[i];
    }
    if HasRow(deduped, key, k, hc) {
      var d :| d in deduped && KeyOf(d, key) == k && hc in d.compatibility;
      var i :| 0 <= i < |deduped| && deduped[i] == d;
      assert Keys(deduped, key)[i] == k == Order(models, key)[i];
      MergedHasRow(models, key, i, hc);
    }
  }

  // ----- idempotence -----

  lemma {:induction false} OneMember(models: seq<CompatModel>, key: KeyFunction, i: nat)
    requires Distinct(Keys(models, key)) && i < |models|
    ensures Members(models, KeyOf(models[i], key), key) == [models[i]]
  {
    var init, last, k := models[..|models| - 1], models[|models| - 1], KeyOf(models[i], key);
    assert Keys(init, key) == Keys(models, key)[..|init|];
    if i < |init| {
      OneMember(init, key, i);
      assert Keys(models, key)[i] != Keys(models, key)[|init|];
    } else {
      forall m | m in init
        ensures KeyOf(m, key) != k
      {
        var j :| 0 <= j < |init| && init[j] == m;
        assert Keys(models, key)[j] != Keys(models, key)[i];
      }
      KeyedHaveMembers(init, k, key);
      assert Members(init, k, key) == [];
    }
  }

  lemma DistinctIsDeduped(models: seq<CompatModel>, key: KeyFunction)
    requires Distinct(Keys(models, key))
    ensures Deduped(models, key) == models
  {
    UniqueOfDistinct(Keys(models, key));
    forall i | 0 <= i < |models|
      ensures Deduped(models, key)[i] == models[i]
    {
      DedupedAt(models, key, i);
      OneMember(models, key, i);
      MergeOne(models[i]);
    }
  }

  lemma DedupeIdempotent(models: seq<CompatModel>, key: KeyFunction)
    ensures Deduped(Deduped(models, key), key) == Deduped(models, key)
  {
    DedupedKeys(models, key);
    DistinctIsDeduped(Deduped(models, key), key);
  }
}
