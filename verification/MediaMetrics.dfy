/**
 * Reading a media server's metrics text. The exporter prints every series twice, so the reader adds
 * up each series once, by the first line that has a value.
 */
module MediaMetrics {
  import opened Wrappers
  import opened Text

  /** What parsing a number gives; infinities are not part of this model. */
  datatype Reading = Number(r: real) | NotANumber

  const U32 := 0x1_0000_0000
  const U64 := 0x1_0000_0000_0000_0000

  /** `v.max(0.0)`, which also turns a NaN into zero. */
  function NonNegative(v: Reading): (r: real)
    ensures r >= 0.0
  {
    match v
    case NotANumber => 0.0
    case Number(r) => if r < 0.0 then 0.0 else r
  }

  /** `v.max(0.0) as uN`: truncated, and stopped at the largest value. */
  function AsUnsigned(v: Reading, size: nat): (n: nat)
    requires size > 0
    ensures n < size
  {
    var n := NonNegative(v).Floor;
    if n >= size then size - 1 else n
  }

  datatype Counters = Counters(
    requests: nat,
    errored: nat,
    jobs: nat,
    durationSum: real,
    durationCount: nat,
    postSum: real,
    postCount: nat,
    preSum: real,
    preCount: nat,
    inferenceSum: real,
    inferenceCount: nat,
    warmupSum: real,
    warmupCount: nat)

  const ZERO := Counters(0, 0, 0, 0.0, 0, 0.0, 0, 0.0, 0, 0.0, 0, 0.0, 0)

  function Plus(a: Counters, b: Counters): Counters {
    Counters(a.requests + b.requests, a.errored + b.errored, a.jobs + b.jobs,
             a.durationSum + b.durationSum, a.durationCount + b.durationCount,
             a.postSum + b.postSum, a.postCount + b.postCount,
             a.preSum + b.preSum, a.preCount + b.preCount,
             a.inferenceSum + b.inferenceSum, a.inferenceCount + b.inferenceCount,
             a.warmupSum + b.warmupSum, a.warmupCount + b.warmupCount)
  }

  /** The counters as their fields hold them: 64 bits each, 32 for the gauge. */
  function Wrapped(c: Counters): Counters {
    c.(requests := c.requests % U64, errored := c.errored % U64, jobs := c.jobs % U32,
       durationCount := c.durationCount % U64, postCount := c.postCount % U64, preCount := c.preCount % U64,
       inferenceCount := c.inferenceCount % U64, warmupCount := c.warmupCount % U64)
  }

  lemma Wrap64(x: nat, n: nat)
    ensures (x % U64 + n) % U64 == (x + n) % U64
  {
  }

  lemma Wrap32(x: nat, n: nat)
    ensures (x % U32 + n) % U32 == (x + n) % U32
  {
  }

  lemma WrapPlus(a: Counters, b: Counters)
    ensures Wrapped(Plus(Wrapped(a), b)) == Wrapped(Plus(a, b))
  {
    Wrap64(a.requests, b.requests);
    Wrap64(a.errored, b.errored);
    Wrap32(a.jobs, b.jobs);
    Wrap64(a.durationCount, b.durationCount);
    Wrap64(a.postCount, b.postCount);
    Wrap64(a.preCount, b.preCount);
    Wrap64(a.inferenceCount, b.inferenceCount);
    Wrap64(a.warmupCount, b.warmupCount);
  }

  // ----- one line -----

  const NAMESPACE := "tt_media_server_"

  /** The metric name: everything before the first `{` or space. */
  function MetricName(line: string): (r: string) {
    if line == "" || line[0] == '{' || line[0] == ' ' then "" else [line[0]] + MetricName(line[1..])
  }

  predicate IsMetric(line: string, name: string) {
    MetricName(line) == NAMESPACE + name
  }

  function LastBrace(line: string): (r: Option<nat>)
    ensures r.Some? ==> r.value < |line| && line[r.value] == '}' && forall k :: r.value < k < |line| ==> line[k] != '}'
    ensures r.None? ==> forall k :: 0 <= k < |line| ==> line[k] != '}'
  {
    if line == "" then None
    else if line[|line| - 1] == '}' then Some(|line| - 1)
    else LastBrace(line[..|line| - 1])
  }

  /** `name{labels}` when there are labels, else the first token. */
  function SeriesKey(line: string): (r: string) {
    match LastBrace(line)
    case Some(i) => line[..i + 1]
    case None => if Tokens(line) == [] then line else Tokens(line)[0]
  }

  predicate Failed(line: string) {
    Contains(line, "status=\"error\"") || Contains(line, "status=\"failed\"") || Contains(line, "status=\"failure\"")
  }

  /** What one series adds to the counters, by the test of its name. */
  function Amount(named: string -> bool, failed: bool, v: Reading): Counters {
    var n, x := AsUnsigned(v, U64), NonNegative(v);
    if named("requests_base_total") then
      if failed then ZERO.(errored := n) else ZERO.(requests := n)
    else if named("jobs_in_progress") then ZERO.(jobs := AsUnsigned(v, U32))
    else if named("requests_base_duration_seconds_total_sum") then ZERO.(durationSum := x)
    else if named("requests_base_duration_seconds_total_count") then ZERO.(durationCount := n)
    else if named("post_processing_duration_seconds_sum") then ZERO.(postSum := x)
    else if named("post_processing_duration_seconds_count") then ZERO.(postCount := n)
    else if named("pre_processing_duration_seconds_sum") then ZERO.(preSum := x)
    else if named("pre_processing_duration_seconds_count") then ZERO.(preCount := n)
    else if named("model_inference_duration_seconds_sum") then ZERO.(inferenceSum := x)
    else if named("model_inference_duration_seconds_count") then ZERO.(inferenceCount := n)
    else if named("device_warmup_duration_seconds_sum") then ZERO.(warmupSum := x)
    else if named("device_warmup_duration_seconds_count") then ZERO.(warmupCount := n)
    else ZERO
  }

  function Contribution(line: string, v: Reading): Counters {
    Amount(name => IsMetric(line, name), Failed(line), v)
  }

  /** The last two characters of a name. */
  function Ending(name: string): string {
    if |name| < 2 then name else name[|name| - 2..]
  }

  lemma EndingOf(line: string, name: string)
    requires IsMetric(line, name) && |name| >= 2
    ensures Ending(MetricName(line)) == Ending(name)
  {
    assert (NAMESPACE + name)[|NAMESPACE + name| - 2..] == name[|name| - 2..];
  }

  lemma CompanionEnding(base: string)
    ensures Ending(base + "_bucket") == "et" && Ending(base + "_created") == "ed"
  {
    assert "_bucket"[5..] == "et" && "_created"[6..] == "ed";
    assert (base + "_bucket")[|base| + 5..] == "_bucket"[5..];
    assert (base + "_created")[|base| + 6..] == "_created"[6..];
  }

  /** The endings of every name that is counted. */
  const COUNTED_ENDINGS: set<string> := {"al", "ss", "um", "nt"}

  lemma NotNamed(line: string, name: string)
    requires |name| >= 2 && Ending(name) in COUNTED_ENDINGS && Ending(MetricName(line)) !in COUNTED_ENDINGS
    ensures !IsMetric(line, name)
  {
    if IsMetric(line, name) {
      EndingOf(line, name);
    }
  }

  lemma NotCounted(line: string, v: Reading)
    requires Ending(MetricName(line)) !in COUNTED_ENDINGS
    ensures Contribution(line, v) == ZERO
  {
    NotNamed(line, "requests_base_total");
    NotNamed(line, "jobs_in_progress");
    NotNamed(line, "requests_base_duration_seconds_total_sum");
    NotNamed(line, "requests_base_duration_seconds_total_count");
    NotNamed(line, "post_processing_duration_seconds_sum");
    NotNamed(line, "post_processing_duration_seconds_count");
    NotNamed(line, "pre_processing_duration_seconds_sum");
    NotNamed(line, "pre_processing_duration_seconds_count");
    NotNamed(line, "model_inference_duration_seconds_sum");
    NotNamed(line, "model_inference_duration_seconds_count");
    NotNamed(line, "device_warmup_duration_seconds_sum");
    NotNamed(line, "device_warmup_duration_seconds_count");
  }

  /** Histogram `_bucket` and `_created` lines count for nothing. */
  lemma CompanionLinesIgnored(line: string, base: string, v: Reading)
    requires MetricName(line) == base + "_bucket" || MetricName(line) == base + "_created"
    ensures Contribution(line, v) == ZERO
  {
    CompanionEnding(base);
    assert "et" !in COUNTED_ENDINGS && "ed" !in COUNTED_ENDINGS by {
      assert "et"[0] == 'e' && "ed"[0] == 'e' && "al"[0] == 'a' && "ss"[0] == 's' && "um"[0] == 'u' && "nt"[0] == 'n';
    }
    NotCounted(line, v);
  }

  datatype Sample = Sample(key: string, amount: Counters)

  type NumberParser = string -> Option<Reading>

  predicate IsMedia(raw: string) {
    var line := Trim(raw);
    !("#" <= line) && NAMESPACE <= line
  }

  /** What a line counts for: a series and its amount, when the text after the last space is a number. */
  function SampleOf(raw: string, parse: NumberParser): (r: Option<Sample>) {
    if !IsMedia(raw) then None
    else
      var line := Trim(raw);
      match parse(Trim(Remainder(line, ' ')))
      case None => None
      case Some(v) => Some(Sample(SeriesKey(line), Contribution(line, v)))
  }

  /** How lines are read. Counting series once does not depend on it. */
  datatype Reader = Reader(isMedia: string -> bool, sample: string -> Option<Sample>)

  function MediaReader(parse: NumberParser): Reader {
    Reader(IsMedia, raw => SampleOf(raw, parse))
  }

  ghost predicate OnlyMediaSampled(reader: Reader) {
    forall raw :: reader.sample(raw).Some? ==> reader.isMedia(raw)
  }

  // ----- the whole text -----

  function Samples(lines: seq<string>, reader: Reader): (r: seq<Sample>) {
    if lines == [] then []
    else
      var r := Samples(lines[..|lines| - 1], reader);
      match reader.sample(lines[|lines| - 1])
      case None => r
      case Some(s) => r + [s]
  }

  function Keys(samples: seq<Sample>): (r: set<string>)
    ensures forall k :: k in r <==> exists i :: 0 <= i < |samples| && samples[i].key == k
  {
    set i | 0 <= i < |samples| :: samples[i].key
  }

  /** The sum of each series' first sample. */
  function Total(samples: seq<Sample>): (r: Counters) {
    if samples == [] then ZERO
    else
      var init, s := samples[..|samples| - 1], samples[|samples| - 1];
      if s.key in Keys(init) then Total(init) else Plus(Total(init), s.amount)
  }

  predicate AnyMedia(lines: seq<string>, reader: Reader) {
    exists i :: 0 <= i < |lines| && reader.isMedia(lines[i])
  }

  /** What the counters of a text are, before they are cut to their widths. */
  function Tally(text: string, reader: Reader): Counters {
    Total(Samples(Lines(text), reader))
  }

  /** Add one sample, unless its series was counted before. */
  method Absorb(c: Counters, seen: set<string>, s: Sample, ghost before: seq<Sample>)
    returns (c': Counters, seen': set<string>)
    requires c == Wrapped(Total(before)) && seen == Keys(before)
    ensures c' == Wrapped(Total(before + [s])) && seen' == Keys(before + [s])
  {
    TotalSnoc(before, s);
    if s.key in seen {
      return c, seen;
    }
    WrapPlus(Total(before), s.amount);
    return Wrapped(Plus(c, s.amount)), seen + {s.key};
  }

  method SumSeries(text: string, reader: Reader) returns (r: Option<Counters>)
    requires OnlyMediaSampled(reader)
    ensures r == if AnyMedia(Lines(text), reader) then Some(Wrapped(Tally(text, reader))) else None
  {
    var lines := Lines(text);
    var c := ZERO;
    var sawMedia := false;
    var seen: set<string> := {};
    for i := 0 to |lines|
      invariant sawMedia <==> AnyMedia(lines[..i], reader)
      invariant seen == Keys(Samples(lines[..i], reader))
      invariant c == Wrapped(Total(Samples(lines[..i], reader)))
    {
      ghost var before := Samples(lines[..i], reader);
      SamplesPrefix(lines, i, reader);
      AnyMediaPrefix(lines, i, reader);
      if !reader.isMedia(lines[i]) {
        continue;
      }
      sawMedia := true;
      var sample := reader.sample(lines[i]);
      if sample.None? {
        continue;
      }
      c, seen := Absorb(c, seen, sample.value, before);
    }
    assert lines[..|lines|] == lines;
    return if sawMedia then Some(c) else None;
  }

  /** `parse` is the platform's number parser. */
  method ParseMediaMetrics(text: string, parse: NumberParser) returns (r: Option<Counters>)
    ensures var reader := MediaReader(parse);
            r == if AnyMedia(Lines(text), reader) then Some(Wrapped(Tally(text, reader))) else None
  {
    r := SumSeries(text, MediaReader(parse));
  }

  lemma AnyMediaPrefix(lines: seq<string>, i: nat, reader: Reader)
    requires i < |lines|
    ensures AnyMedia(lines[..i + 1], reader) <==> AnyMedia(lines[..i], reader) || reader.isMedia(lines[i])
  {
    var before, upTo := lines[..i], lines[..i + 1];
    assert forall k :: 0 <= k < i ==> upTo[k] == before[k];
    assert upTo[i] == lines[i];
  }

  lemma SamplesPrefix(lines: seq<string>, i: nat, reader: Reader)
    requires i < |lines|
    ensures Samples(lines[..i + 1], reader)
            == match reader.sample(lines[i])
               case None => Samples(lines[..i], reader)
               case Some(s) => Samples(lines[..i], reader) + [s]
  {
    assert lines[..i + 1][..i] == lines[..i];
  }

  lemma TotalSnoc(samples: seq<Sample>, s: Sample)
    ensures Total(samples + [s]) == if s.key in Keys(samples) then Total(samples) else Plus(Total(samples), s.amount)
    ensures Keys(samples + [s]) == Keys(samples) + {s.key}
  {
    assert (samples + [s])[..|samples|] == samples;
    KeysConcat(samples, [s]);
    assert Keys([s]) == {s.key} by {
      assert [s][0].key == s.key;
    }
  }

  lemma KeysConcat(a: seq<Sample>, b: seq<Sample>)
    ensures Keys(a + b) == Keys(a) + Keys(b)
  {
    forall k
      ensures k in Keys(a + b) <==> k in Keys(a) || k in Keys(b)
    {
      if k in Keys(a) {
        var i :| 0 <= i < |a| && a[i].key == k;
        assert (a + b)[i].key == k;
      }
      if k in Keys(b) {
        var i :| 0 <= i < |b| && b[i].key == k;
        assert (a + b)[|a| + i].key == k;
      }
      if k in Keys(a + b) {
        var i :| 0 <= i < |a + b| && (a + b)[i].key == k;
        assert i < |a| ==> a[i].key == k;
        assert i >= |a| ==> b[i - |a|].key == k;
      }
    }
  }

  // ----- once only -----

  /** A sample of a series already seen changes nothing, wherever it comes. */
  lemma {:induction false} RepeatedSampleIgnored(before: seq<Sample>, s: Sample, after: seq<Sample>)
    requires s.key in Keys(before)
    ensures Total(before + [s] + after) == Total(before + after)
  {
    if after == [] {
      assert before + [s] + [] == before + [s] && before + [] == before;
      TotalSnoc(before, s);
    } else {
      var init, last := after[..|after| - 1], after[|after| - 1];
      RepeatedSampleIgnored(before, s, init);
      assert before + [s] + after == before + [s] + init + [last];
      assert before + after == before + init + [last];
      TotalSnoc(before + [s] + init, last);
      TotalSnoc(before + init, last);
      KeysConcat(before + [s], init);
      KeysConcat(before, init);
      TotalSnoc(before, s);
    }
  }

  lemma {:induction false} SamplesConcat(a: seq<string>, b: seq<string>, reader: Reader)
    ensures Samples(a + b, reader) == Samples(a, reader) + Samples(b, reader)
  {
    if b == [] {
      assert a + b == a;
    } else {
      assert (a + b)[..|a + b| - 1] == a + b[..|b| - 1];
      SamplesConcat(a, b[..|b| - 1], reader);
    }
  }

  lemma OneSample(line: string, reader: Reader)
    ensures Samples([line], reader) == match reader.sample(line) case None => [] case Some(s) => [s]
  {
    assert [line][..0] == [];
  }

  /** Repeating any line of the text anywhere later leaves the counters as they were. */
  lemma RepeatedLineIgnored(before: seq<string>, line: string, after: seq<string>, reader: Reader)
    requires line in before
    ensures Total(Samples(before + [line] + after, reader)) == Total(Samples(before + after, reader))
    ensures AnyMedia(before + [line] + after, reader) <==> AnyMedia(before + after, reader)
  {
    var k :| 0 <= k < |before| && before[k] == line;
    SamplesConcat(before + [line], after, reader);
    SamplesConcat(before, [line], reader);
    SamplesConcat(before, after, reader);
    OneSample(line, reader);
    if reader.sample(line).Some? {
      KeyIsSeen(before, k, reader);
      RepeatedSampleIgnored(Samples(before, reader), reader.sample(line).value, Samples(after, reader));
    } else {
      assert Samples(before, reader) + [] == Samples(before, reader);
    }
    SameMedia(before, line, after, k, reader);
  }

  lemma {:induction false} KeyIsSeen(lines: seq<string>, k: nat, reader: Reader)
    requires k < |lines| && reader.sample(lines[k]).Some?
    ensures reader.sample(lines[k]).value.key in Keys(Samples(lines, reader))
  {
    var init := lines[..|lines| - 1];
    assert lines[..|init| + 1] == lines;
    SamplesPrefix(lines, |init|, reader);
    if reader.sample(lines[|init|]).Some? {
      TotalSnoc(Samples(init, reader), reader.sample(lines[|init|]).value);
    }
    if k < |init| {
      KeyIsSeen(init, k, reader);
    }
  }

  lemma SameMedia(before: seq<string>, line: string, after: seq<string>, k: nat, reader: Reader)
    requires k < |before| && before[k] == line
    ensures AnyMedia(before + [line] + after, reader) <==> AnyMedia(before + after, reader)
  {
    var long, short := before + [line] + after, before + after;
    if AnyMedia(long, reader) {
      var i :| 0 <= i < |long| && reader.isMedia(long[i]);
      var j := if i < |before| then i else if i == |before| then k else i - 1;
      assert short[j] == long[i];
    }
    if AnyMedia(short, reader) {
      var i :| 0 <= i < |short| && reader.isMedia(short[i]);
      var j := if i < |before| then i else i + 1;
      assert long[j] == short[i];
    }
  }

  lemma PlusAssociative(a: Counters, b: Counters, c: Counters)
    ensures Plus(Plus(a, b), c) == Plus(a, Plus(b, c))
    ensures Plus(a, ZERO) == a
  {
  }

  /** Texts that share no series add up. */
  lemma {:induction false} DisjointSamplesAdd(a: seq<Sample>, b: seq<Sample>)
    requires Keys(a) !! Keys(b)
    ensures Total(a + b) == Plus(Total(a), Total(b))
  {
    if b == [] {
      assert a + b == a;
    } else {
      var init, last := b[..|b| - 1], b[|b| - 1];
      assert b == init + [last] && a + b == a + init + [last];
      TotalSnoc(init, last);
      TotalSnoc(a + init, last);
      KeysConcat(a, init);
      DisjointSamplesAdd(a, init);
      PlusAssociative(Total(a), Total(init), last.amount);
    }
  }

  lemma DisjointTextsAdd(a: string, b: string, reader: Reader)
    requires Closed(a) && Keys(Samples(Lines(a), reader)) !! Keys(Samples(Lines(b), reader))
    ensures Tally(a + b, reader) == Plus(Tally(a, reader), Tally(b, reader))
  {
    LinesConcat(a, b);
    SamplesConcat(Lines(a), Lines(b), reader);
    DisjointSamplesAdd(Samples(Lines(a), reader), Samples(Lines(b), reader));
  }

  // ----- the series themselves -----

  function Sum(samples: seq<Sample>): (r: Counters) {
    if samples == [] then ZERO else Plus(Sum(samples[..|samples| - 1]), samples[|samples| - 1].amount)
  }

  ghost predicate IsFirst(samples: seq<Sample>, i: nat)
    requires i < |samples|
  {
    forall k :: 0 <= k < i ==> samples[k].key != samples[i].key
  }

  ghost predicate DistinctKeys(samples: seq<Sample>) {
    forall i, j :: 0 <= i < j < |samples| ==> samples[i].key != samples[j].key
  }

  /** The total is the plain sum over the series, each standing for its first sample. */
  lemma {:induction false} TotalIsSumOfFirsts(samples: seq<Sample>) returns (firsts: seq<Sample>)
    ensures Total(samples) == Sum(firsts)
    ensures DistinctKeys(firsts) && Keys(firsts) == Keys(samples)
    ensures forall i :: 0 <= i < |samples| && IsFirst(samples, i) ==> samples[i] in firsts
  {
    if samples == [] {
      return [];
    }
    var init, s := samples[..|samples| - 1], samples[|samples| - 1];
    assert samples == init + [s];
    firsts := TotalIsSumOfFirsts(init);
    TotalSnoc(init, s);
    forall i | 0 <= i < |init| && IsFirst(samples, i)
      ensures samples[i] in firsts
    {
      assert IsFirst(init, i) && init[i] == samples[i];
    }
    if s.key in Keys(init) {
      SeenIsNotFirst(init, s);
    } else {
      SumSnoc(firsts, s);
      firsts := firsts + [s];
    }
  }

  lemma SeenIsNotFirst(init: seq<Sample>, s: Sample)
    requires s.key in Keys(init)
    ensures !IsFirst(init + [s], |init|)
  {
    var k :| 0 <= k < |init| && init[k].key == s.key;
    assert (init + [s])[k].key == s.key;
  }

  lemma SumSnoc(firsts: seq<Sample>, s: Sample)
    requires DistinctKeys(firsts) && s.key !in Keys(firsts)
    ensures Sum(firsts + [s]) == Plus(Sum(firsts), s.amount)
    ensures DistinctKeys(firsts + [s]) && Keys(firsts + [s]) == Keys(firsts) + {s.key}
  {
    assert (firsts + [s])[..|firsts|] == firsts;
    TotalSnoc(firsts, s);
    assert forall i :: 0 <= i < |firsts| ==> firsts[i].key in Keys(firsts);
  }
}
