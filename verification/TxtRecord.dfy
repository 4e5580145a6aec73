/**
 * The key/value records a box advertises (section 6 of RFC 6763): printing a box, reading one
 * back, and when the two undo each other. An absent key (section 6.4) stands for an absent field.
 */
module TxtRecord {
  import opened Wrappers
  import opened Decimal

  type u8 = n: nat | n <= 255
  type u16 = n: nat | n <= 65535

  datatype ServingStatus = Idle | Serving(model: string)

  datatype BoxRecord = BoxRecord(
    name: string,
    host: string,
    ctrlPort: u16,
    chips: string,
    status: ServingStatus,
    apiver: u8,
    deviceMesh: Option<string>,
    mac: Option<string>)

  datatype TxtError = Missing(key: string) | BadStatus | BadNumber(key: string)

  const SERVING := "serving:"

  function ToTxt(s: ServingStatus): (r: string) {
    match s
    case Idle => "idle"
    case Serving(model) => SERVING + model
  }

  function FromTxt(t: string): (r: Result<ServingStatus, TxtError>) {
    if t == "idle" then Ok(Idle)
    else if SERVING <= t then Ok(Serving(t[|SERVING|..]))
    else Err(BadStatus)
  }

  /** Reading undoes printing, printing undoes reading, and only printed texts are read. */
  lemma StatusRoundTrip(s: ServingStatus, t: string)
    ensures FromTxt(ToTxt(s)) == Ok(s)
    ensures FromTxt(t) == Ok(s) <==> t == ToTxt(s)
  {
    assert "idle"[0] != SERVING[0];
    assert s.Serving? ==> ToTxt(s)[|SERVING|..] == s.model;
    assert SERVING <= t ==> t == SERVING + t[|SERVING|..];
  }

  type Pair = (string, string)

  function Optional(key: string, value: Option<string>): seq<Pair> {
    match value case Some(v) => [(key, v)] case None => []
  }

  method TxtEncode(rec: BoxRecord) returns (pairs: seq<Pair>)
    ensures Collect(pairs) == Encoded(rec)
    ensures pairs == [("name", rec.name), ("apiver", Print(rec.apiver)), ("chips", rec.chips),
                      ("status", ToTxt(rec.status)), ("ctrl", Print(rec.ctrlPort))]
                     + Optional("device_mesh", rec.deviceMesh) + Optional("mac", rec.mac)
  {
    pairs := [("name", rec.name), ("apiver", Print(rec.apiver)), ("chips", rec.chips),
              ("status", ToTxt(rec.status)), ("ctrl", Print(rec.ctrlPort))];
    ghost var fixed := pairs;
    if rec.deviceMesh.Some? {
      pairs := pairs + [("device_mesh", rec.deviceMesh.value)];
    }
    if rec.mac.Some? {
      pairs := pairs + [("mac", rec.mac.value)];
    }
    CollectFixed(rec, fixed);
    CollectOptional(fixed, "device_mesh", rec.deviceMesh);
    CollectOptional(fixed + Optional("device_mesh", rec.deviceMesh), "mac", rec.mac);
  }

  /** The map a receiver gathers the pairs into; a later pair wins. */
  function Collect(pairs: seq<Pair>): (r: map<string, string>) {
    if pairs == [] then map[] else Collect(pairs[..|pairs| - 1])[pairs[|pairs| - 1].0 := pairs[|pairs| - 1].1]
  }

  function WithOptional(m: map<string, string>, key: string, value: Option<string>): map<string, string> {
    match value case Some(v) => m[key := v] case None => m
  }

  /** What a record is advertised as. */
  function Encoded(rec: BoxRecord): (r: map<string, string>) {
    WithOptional(WithOptional(FixedPart(rec), "device_mesh", rec.deviceMesh), "mac", rec.mac)
  }

  function FixedPart(rec: BoxRecord): map<string, string> {
    map["name" := rec.name, "apiver" := Print(rec.apiver), "chips" := rec.chips,
        "status" := ToTxt(rec.status), "ctrl" := Print(rec.ctrlPort)]
  }

  lemma CollectSnoc(pairs: seq<Pair>, p: Pair)
    ensures Collect(pairs + [p]) == Collect(pairs)[p.0 := p.1]
  {
    assert (pairs + [p])[..|pairs|] == pairs;
  }

  lemma CollectOptional(pairs: seq<Pair>, key: string, value: Option<string>)
    ensures Collect(pairs + Optional(key, value)) == WithOptional(Collect(pairs), key, value)
  {
    match value
    case Some(v) => CollectSnoc(pairs, (key, v));
    case None => assert pairs + [] == pairs;
  }

  lemma CollectFixed(rec: BoxRecord, pairs: seq<Pair>)
    requires pairs == [("name", rec.name), ("apiver", Print(rec.apiver)), ("chips", rec.chips),
                       ("status", ToTxt(rec.status)), ("ctrl", Print(rec.ctrlPort))]
    ensures Collect(pairs) == FixedPart(rec)
  {
    var none: seq<Pair> := [];
    CollectTwo(none, ("name", rec.name), ("apiver", Print(rec.apiver)));
    var two := none + [("name", rec.name), ("apiver", Print(rec.apiver))];
    CollectTwo(two, ("chips", rec.chips), ("status", ToTxt(rec.status)));
    var four := two + [("chips", rec.chips), ("status", ToTxt(rec.status))];
    CollectSnoc(four, ("ctrl", Print(rec.ctrlPort)));
    assert pairs == four + [("ctrl", Print(rec.ctrlPort))];
  }

  lemma CollectTwo(pairs: seq<Pair>, p: Pair, q: Pair)
    ensures Collect(pairs + [p, q]) == Collect(pairs)[p.0 := p.1][q.0 := q.1]
  {
    CollectSnoc(pairs, p);
    CollectSnoc(pairs + [p], q);
    assert pairs + [p] + [q] == pairs + [p, q];
  }

  function Get(txt: map<string, string>, key: string): Option<string> {
    if key in txt then Some(txt[key]) else None
  }

  const DEFAULT_APIVER: u8 := 1

  function TxtDecode(host: string, txt: map<string, string>): (r: Result<BoxRecord, TxtError>) {
    if "name" !in txt then Err(Missing("name"))
    else if "chips" !in txt then Err(Missing("chips"))
    else if "status" !in txt then Err(Missing("status"))
    else
      var status := FromTxt(txt["status"]);
      if status.Err? then Err(status.error)
      else if "ctrl" !in txt then Err(Missing("ctrl"))
      else
        var ctrl := Parse(txt["ctrl"], U16_MAX);
        var apiver := if "apiver" in txt then Parse(txt["apiver"], U8_MAX) else Some(DEFAULT_APIVER);
        if ctrl.None? then Err(BadNumber("ctrl"))
        else if apiver.None? then Err(BadNumber("apiver"))
        else
          Ok(BoxRecord(txt["name"], host, ctrl.value, txt["chips"], status.value, apiver.value,
                       Get(txt, "device_mesh"), Get(txt, "mac")))
  }

  lemma KeysDiffer()
    ensures "name" != "ctrl" && "name" != "mac" && "chips" != "status" && "apiver" != "status"
    ensures |"name"| == 4 && |"apiver"| == 6 && |"chips"| == 5 && |"status"| == 6 && |"ctrl"| == 4
    ensures |"device_mesh"| == 11 && |"mac"| == 3
  {
    assert "name"[0] != "ctrl"[0] && "apiver"[0] != "status"[0];
  }

  lemma EncodedFields(rec: BoxRecord)
    ensures var m := Encoded(rec);
            && Get(m, "name") == Some(rec.name) && Get(m, "chips") == Some(rec.chips)
            && Get(m, "status") == Some(ToTxt(rec.status))
            && Get(m, "ctrl") == Some(Print(rec.ctrlPort)) && Get(m, "apiver") == Some(Print(rec.apiver))
            && Get(m, "device_mesh") == rec.deviceMesh && Get(m, "mac") == rec.mac
            && m.Keys <= KNOWN_KEYS
  {
    KeysDiffer();
  }

  const KNOWN_KEYS: set<string> := {"name", "apiver", "chips", "status", "ctrl", "device_mesh", "mac"}

  /** Every record comes back from what it advertises, absent fields absent. */
  lemma RecordRoundTrip(rec: BoxRecord)
    ensures TxtDecode(rec.host, Encoded(rec)) == Ok(rec)
  {
    EncodedFields(rec);
    ParsePrint(rec.ctrlPort, U16_MAX);
    ParsePrint(rec.apiver, U8_MAX);
    StatusRoundTrip(rec.status, ToTxt(rec.status));
  }

  /**
   * What a decoded record advertises is the map it came from exactly when that map has no unknown
   * key, states the API version, and spells both numbers the way they are printed.
   */
  lemma MapRoundTrip(host: string, txt: map<string, string>)
    requires TxtDecode(host, txt).Ok?
    ensures Encoded(TxtDecode(host, txt).value) == txt
            <==> txt.Keys <= KNOWN_KEYS && "apiver" in txt && Canonical(txt["apiver"]) && Canonical(txt["ctrl"])
  {
    var rec := TxtDecode(host, txt).value;
    var m := Encoded(rec);
    EncodedFields(rec);
    StatusRoundTrip(rec.status, txt["status"]);
    PrintParse(txt["ctrl"], U16_MAX);
    PrintValue(rec.apiver);
    if "apiver" in txt {
      PrintParse(txt["apiver"], U8_MAX);
    }
    if txt.Keys <= KNOWN_KEYS && "apiver" in txt && Canonical(txt["apiver"]) && Canonical(txt["ctrl"]) {
      forall key | key in KNOWN_KEYS
        ensures Get(m, key) == Get(txt, key)
      {
      }
      SameMap(m, txt);
    }
    if m == txt {
      assert Get(txt, "ctrl") == Some(Print(rec.ctrlPort)) && Get(txt, "apiver") == Some(Print(rec.apiver));
    }
  }

  lemma SameMap(a: map<string, string>, b: map<string, string>)
    requires a.Keys <= KNOWN_KEYS && b.Keys <= KNOWN_KEYS
    requires forall key :: key in KNOWN_KEYS ==> Get(a, key) == Get(b, key)
    ensures a == b
  {
    forall key
      ensures Get(a, key) == Get(b, key)
    {
      if key !in KNOWN_KEYS {
        assert key !in a && key !in b;
      }
    }
    assert forall key :: (key in a <==> Get(a, key).Some?) && (key in b <==> Get(b, key).Some?);
  }

  predicate SaysStatus(t: string) {
    t == "idle" || (|t| >= 8 && t[..8] == "serving:")
  }

  /** Which maps are read, and for the others what is named as wrong: the first thing missing or unreadable, in this order. */
  lemma WhatIsRead(host: string, txt: map<string, string>)
    ensures var r := TxtDecode(host, txt);
            if "name" !in txt then r == Err(Missing("name"))
            else if "chips" !in txt then r == Err(Missing("chips"))
            else if "status" !in txt then r == Err(Missing("status"))
            else if !SaysStatus(txt["status"]) then r == Err(BadStatus)
            else if "ctrl" !in txt then r == Err(Missing("ctrl"))
            else if Parse(txt["ctrl"], 65535).None? then r == Err(BadNumber("ctrl"))
            else if "apiver" in txt && Parse(txt["apiver"], 255).None? then r == Err(BadNumber("apiver"))
            else r.Ok?
  {
    assert |SERVING| == 8;
    assert forall t: string :: SERVING <= t ==> t[..8] == SERVING;
  }

  /** What is read: each field from its own key, and version 1 for a map that states none. */
  lemma FieldsRead(host: string, txt: map<string, string>)
    requires TxtDecode(host, txt).Ok?
    ensures var rec := TxtDecode(host, txt).value;
            && rec.host == host && rec.name == txt["name"] && rec.chips == txt["chips"]
            && (txt["status"] == "idle" <==> rec.status == Idle)
            && (rec.status.Serving? ==> txt["status"] == "serving:" + rec.status.model)
            && Parse(txt["ctrl"], 65535) == Some(rec.ctrlPort)
            && (if "apiver" in txt then Parse(txt["apiver"], 255) == Some(rec.apiver) else rec.apiver == 1)
            && (if "device_mesh" in txt then rec.deviceMesh == Some(txt["device_mesh"]) else rec.deviceMesh == None)
            && (if "mac" in txt then rec.mac == Some(txt["mac"]) else rec.mac == None)
  {
    StatusRoundTrip(TxtDecode(host, txt).value.status, txt["status"]);
    assert "serving:"[0] != "idle"[0];
  }
}
