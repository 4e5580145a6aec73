/**
 * The telemetry sampler: each tick folds one scrape against the one before it. vLLM and media
 * servers keep separate baselines and share one clock. Arithmetic on floats is over the reals.
 */
module InferenceSampler {
  import opened Wrappers
  import opened Text
  import M = MediaMetrics

  const U32 := 0x1_0000_0000

  /** The sum and the count of one latency histogram. */
  datatype Latency = Latency(sum: real, count: nat)

  datatype VllmCounters = VllmCounters(
    generationTokens: nat,
    promptTokens: nat,
    succeeded: nat,
    errored: nat,
    running: nat,
    waiting: nat,
    kvCacheUsage: real,
    ttft: Latency,
    queueTime: Latency,
    prefillTime: Latency,
    decodeTime: Latency,
    tpot: Latency,
    prefixQueries: nat,
    prefixHits: nat,
    preemptions: nat)

  datatype Scrape = Vllm(v: VllmCounters) | Media(m: M.Counters)

  datatype ServingInfo = ServingInfo(
    generationTps: real,
    promptTps: real,
    running: nat,
    waiting: nat,
    kvCacheUsage: real,
    ttftAvg: real,
    queueAvg: real,
    prefillAvg: real,
    decodeAvg: real,
    tpotAvg: real,
    completedDelta: nat,
    erroredDelta: nat,
    prefixHitRate: real,
    preemptionsDelta: nat)

  datatype MediaInfo = MediaInfo(
    generationsPerMin: real,
    jobs: nat,
    completedTotal: nat,
    erroredTotal: nat,
    completedDelta: nat,
    erroredDelta: nat,
    durationAvg: real,
    postAvg: real,
    preAvg: real,
    inferenceAvg: real,
    warmupAvg: real)

  // ----- the fold of one scrape -----

  const MIN_SECONDS := 0.001

  function Seconds(elapsed: real): (r: real)
    ensures r >= MIN_SECONDS
  {
    if elapsed < MIN_SECONDS then MIN_SECONDS else elapsed
  }

  function Increase(cur: nat, prev: nat): nat {
    if cur < prev then 0 else cur - prev
  }

  /** `saturating_sub` cut to 32 bits. */
  function Delta(cur: nat, prev: nat): nat {
    Increase(cur, prev) % U32
  }

  function Rate(cur: nat, prev: nat, elapsed: real): real {
    Increase(cur, prev) as real / Seconds(elapsed)
  }

  /** The mean over this window, or over the lifetime when nothing completed in it. */
  function Average(cur: Latency, prev: Latency): (r: real) {
    var window := Increase(cur.count, prev.count);
    if window > 0 then
      (if cur.sum < prev.sum then 0.0 else cur.sum - prev.sum) / window as real
    else if cur.count > 0 then cur.sum / cur.count as real
    else 0.0
  }

  const NO_LATENCY := Latency(0.0, 0)

  const NO_VLLM := VllmCounters(0, 0, 0, 0, 0, 0, 0.0, NO_LATENCY, NO_LATENCY, NO_LATENCY, NO_LATENCY, NO_LATENCY, 0, 0, 0)

  function FoldVllm(prev: Option<VllmCounters>, cur: VllmCounters, elapsed: real): (r: ServingInfo) {
    var p := if prev.Some? then prev.value else NO_VLLM;
    var known := prev.Some?;
    ServingInfo(
      if known then Rate(cur.generationTokens, p.generationTokens, elapsed) else 0.0,
      if known then Rate(cur.promptTokens, p.promptTokens, elapsed) else 0.0,
      cur.running,
      cur.waiting,
      cur.kvCacheUsage,
      Average(cur.ttft, p.ttft),
      Average(cur.queueTime, p.queueTime),
      Average(cur.prefillTime, p.prefillTime),
      Average(cur.decodeTime, p.decodeTime),
      Average(cur.tpot, p.tpot),
      if known then Delta(cur.succeeded, p.succeeded) else 0,
      if known then Delta(cur.errored, p.errored) else 0,
      if cur.prefixQueries > 0 then cur.prefixHits as real / cur.prefixQueries as real else 0.0,
      if known then Delta(cur.preemptions, p.preemptions) else 0)
  }

  function FoldMedia(prev: Option<M.Counters>, cur: M.Counters, elapsed: real): (r: MediaInfo) {
    var p := if prev.Some? then prev.value else M.ZERO;
    var known := prev.Some?;
    MediaInfo(
      if known then Rate(cur.requests, p.requests, elapsed) * 60.0 else 0.0,
      cur.jobs,
      cur.requests,
      cur.errored,
      if known then Delta(cur.requests, p.requests) else 0,
      if known then Delta(cur.errored, p.errored) else 0,
      Average(Latency(cur.durationSum, cur.durationCount), Latency(p.durationSum, p.durationCount)),
      Average(Latency(cur.postSum, cur.postCount), Latency(p.postSum, p.postCount)),
      Average(Latency(cur.preSum, cur.preCount), Latency(p.preSum, p.preCount)),
      Average(Latency(cur.inferenceSum, cur.inferenceCount), Latency(p.inferenceSum, p.inferenceCount)),
      Average(Latency(cur.warmupSum, cur.warmupCount), Latency(p.warmupSum, p.warmupCount)))
  }

  // ----- one tick -----

  datatype Status = Idle | Serving(model: string)

  datatype Phase = Loading | Ready

  datatype Info = Info(key: string, title: string, phase: Phase, serving: Option<ServingInfo>, media: Option<MediaInfo>)

  /** Without its `org/` prefix. */
  function DisplayLabel(model: string): string {
    Remainder(model, '/')
  }

  function BuildInference(status: Status, parsed: Option<Scrape>, hint: Option<string>,
                          prev: Option<VllmCounters>, prevMedia: Option<M.Counters>, elapsed: real): (r: Option<Info>) {
    match parsed
    case Some(scrape) =>
      var model := match status
        case Serving(model) => model
        case Idle => if hint.Some? then hint.value else "unknown";
      Some(Info(model, DisplayLabel(model), Ready,
                if scrape.Vllm? then Some(FoldVllm(prev, scrape.v, elapsed)) else None,
                if scrape.Media? then Some(FoldMedia(prevMedia, scrape.m, elapsed)) else None))
    case None =>
      match status
      case Serving(model) => Some(Info(model, DisplayLabel(model), Loading, None, None))
      case Idle => None
  }

  /** What the sampler holds between ticks. */
  datatype Held = Held(prev: Option<VllmCounters>, prevMedia: Option<M.Counters>, prevAt: Option<real>)

  const FRESH := Held(None, None, None)

  datatype Tick = Tick(now: real, status: Status, parsed: Option<Scrape>, hint: Option<string>)

  function HeldAfter(h: Held, t: Tick): Held {
    match t.parsed
    case None => h
    case Some(Vllm(v)) => h.(prev := Some(v), prevAt := Some(t.now))
    case Some(Media(m)) => h.(prevMedia := Some(m), prevAt := Some(t.now))
  }

  function Elapsed(h: Held, now: real): real {
    match h.prevAt case Some(at) => now - at case None => 0.0
  }

  function Report(h: Held, t: Tick): (r: Option<Info>) {
    BuildInference(t.status, t.parsed, t.hint, h.prev, h.prevMedia, Elapsed(h, t.now))
  }

  class Sampler {
    var prev: Option<VllmCounters>
    var prevMedia: Option<M.Counters>
    var prevAt: Option<real>

    function State(): Held
      reads this
    {
      Held(prev, prevMedia, prevAt)
    }

    constructor ()
      ensures State() == FRESH
    {
      prev, prevMedia, prevAt := None, None, None;
    }

    method DoTick(t: Tick) returns (info: Option<Info>)
      modifies this
      ensures info == Report(old(State()), t)
      ensures State() == HeldAfter(old(State()), t)
    {
      var elapsed := if prevAt.Some? then t.now - prevAt.value else 0.0;
      info := BuildInference(t.status, t.parsed, t.hint, prev, prevMedia, elapsed);
      if t.parsed.Some? {
        match t.parsed.value {
          case Vllm(v) =>
            prev := Some(v);
            prevAt := Some(t.now);
          case Media(m) =>
            prevMedia := Some(m);
            prevAt := Some(t.now);
        }
      }
    }

    /** A whole connection: the reports in order. */
    method Run(ticks: seq<Tick>) returns (infos: seq<Option<Info>>)
      requires State() == FRESH
      modifies this
      ensures State() == HeldOver(ticks)
      ensures IsReports(ticks, infos)
    {
      infos := [];
      for i := 0 to |ticks|
        invariant State() == HeldOver(ticks[..i])
        invariant |infos| == i && forall k :: 0 <= k < i ==> infos[k] == ReportAt(ticks, k)
      {
        assert ticks[..i + 1][..i] == ticks[..i];
        var info := DoTick(ticks[i]);
        infos := infos + [info];
      }
      assert ticks[..|ticks|] == ticks;
    }
  }

  function HeldOver(ticks: seq<Tick>): (r: Held) {
    if ticks == [] then FRESH else HeldAfter(HeldOver(ticks[..|ticks| - 1]), ticks[|ticks| - 1])
  }

  function ReportAt(ticks: seq<Tick>, i: nat): Option<Info>
    requires i < |ticks|
  {
    Report(HeldOver(ticks[..i]), ticks[i])
  }

  // ----- the scrapes of one flavour -----

  function VllmScrapes(ticks: seq<Tick>): (r: seq<VllmCounters>) {
    if ticks == [] then []
    else
      var r := VllmScrapes(ticks[..|ticks| - 1]);
      match ticks[|ticks| - 1].parsed
      case Some(Vllm(v)) => r + [v]
      case _ => r
  }

  function MediaScrapes(ticks: seq<Tick>): (r: seq<M.Counters>) {
    if ticks == [] then []
    else
      var r := MediaScrapes(ticks[..|ticks| - 1]);
      match ticks[|ticks| - 1].parsed
      case Some(Media(m)) => r + [m]
      case _ => r
  }

  function LastOf<T>(s: seq<T>): Option<T> {
    if s == [] then None else Some(s[|s| - 1])
  }

  /** A failed scrape or one of the other flavour never disturbs a baseline. */
  lemma {:induction false} BaselinesAreLastScrapes(ticks: seq<Tick>)
    ensures HeldOver(ticks).prev == LastOf(VllmScrapes(ticks))
    ensures HeldOver(ticks).prevMedia == LastOf(MediaScrapes(ticks))
  {
    if ticks != [] {
      BaselinesAreLastScrapes(ticks[..|ticks| - 1]);
    }
  }

  // ----- deltas telescope -----

  datatype Counter = Completed | Errored | Preempted

  function Read(v: VllmCounters, k: Counter): nat {
    match k case Completed => v.succeeded case Errored => v.errored case Preempted => v.preemptions
  }

  function DeltaOf(info: Option<Info>, k: Counter): nat {
    if info.None? || info.value.serving.None? then 0
    else
      match k
      case Completed => info.value.serving.value.completedDelta
      case Errored => info.value.serving.value.erroredDelta
      case Preempted => info.value.serving.value.preemptionsDelta
  }

  function SumOfDeltas(ticks: seq<Tick>, k: Counter): (r: nat) {
    if ticks == [] then 0
    else SumOfDeltas(ticks[..|ticks| - 1], k) + DeltaOf(ReportAt(ticks, |ticks| - 1), k)
  }

  /** The counter never goes back and grows by less than 2^32 between scrapes. */
  ghost predicate Steady(scrapes: seq<VllmCounters>, k: Counter) {
    forall i :: 0 < i < |scrapes| ==> Read(scrapes[i - 1], k) <= Read(scrapes[i], k) < Read(scrapes[i - 1], k) + U32
  }

  lemma ReportedDelta(h: Held, t: Tick, k: Counter)
    ensures DeltaOf(Report(h, t), k)
            == if t.parsed.Some? && t.parsed.value.Vllm? && h.prev.Some?
               then Delta(Read(t.parsed.value.v, k), Read(h.prev.value, k)) else 0
  {
  }

  lemma OneMoreTick(ticks: seq<Tick>)
    requires ticks != []
    ensures var init, t := ticks[..|ticks| - 1], ticks[|ticks| - 1];
            && VllmScrapes(ticks) == VllmScrapes(init) + (if t.parsed.Some? && t.parsed.value.Vllm? then [t.parsed.value.v] else [])
            && MediaScrapes(ticks) == MediaScrapes(init) + (if t.parsed.Some? && t.parsed.value.Media? then [t.parsed.value.m] else [])
  {
  }

  /** One tick's delta, from the scrapes of its flavour alone. */
  lemma DeltaOfTick(ticks: seq<Tick>, k: Counter)
    requires ticks != []
    ensures var before, s := VllmScrapes(ticks[..|ticks| - 1]), VllmScrapes(ticks);
            && (s == before || (|s| == |before| + 1 && s[..|before|] == before))
            && DeltaOf(ReportAt(ticks, |ticks| - 1), k)
               == if s == before || before == [] then 0
                  else Delta(Read(s[|s| - 1], k), Read(before[|before| - 1], k))
  {
    var init, t := ticks[..|ticks| - 1], ticks[|ticks| - 1];
    BaselinesAreLastScrapes(init);
    OneMoreTick(ticks);
    ReportedDelta(HeldOver(init), t, k);
    assert ReportAt(ticks, |ticks| - 1) == Report(HeldOver(init), t);
  }

  function Span(scrapes: seq<VllmCounters>, k: Counter): int {
    if scrapes == [] then 0 else Read(scrapes[|scrapes| - 1], k) - Read(scrapes[0], k)
  }

  lemma OneMoreScrape(before: seq<VllmCounters>, s: seq<VllmCounters>, k: Counter)
    requires Steady(s, k) && |s| == |before| + 1 && s[..|before|] == before
    ensures Steady(before, k)
    ensures before != [] ==> Span(s, k) == Span(before, k) + Delta(Read(s[|s| - 1], k), Read(before[|before| - 1], k))
    ensures before == [] ==> Span(s, k) == 0
  {
    assert forall i :: 0 <= i < |before| ==> before[i] == s[i];
    if before != [] {
      assert Read(s[|s| - 2], k) <= Read(s[|s| - 1], k) < Read(s[|s| - 2], k) + U32;
    }
  }

  /** However scrapes fail and flavours switch, a flavour's deltas sum to its last total minus its first. */
  lemma {:induction false} DeltasTelescope(ticks: seq<Tick>, k: Counter)
    requires Steady(VllmScrapes(ticks), k)
    ensures SumOfDeltas(ticks, k) == Span(VllmScrapes(ticks), k)
  {
    if ticks != [] {
      DeltaSpans(ticks, k);
      DeltasTelescope(ticks[..|ticks| - 1], k);
    }
  }

  lemma DeltaSpans(ticks: seq<Tick>, k: Counter)
    requires ticks != [] && Steady(VllmScrapes(ticks), k)
    ensures Steady(VllmScrapes(ticks[..|ticks| - 1]), k)
    ensures Span(VllmScrapes(ticks), k)
            == Span(VllmScrapes(ticks[..|ticks| - 1]), k) + DeltaOf(ReportAt(ticks, |ticks| - 1), k)
  {
    DeltaOfTick(ticks, k);
    var before, s := VllmScrapes(ticks[..|ticks| - 1]), VllmScrapes(ticks);
    if s != before {
      OneMoreScrape(before, s, k);
    }
  }

  datatype MediaCounter = Finished | FailedJobs

  function ReadMedia(m: M.Counters, k: MediaCounter): nat {
    match k case Finished => m.requests case FailedJobs => m.errored
  }

  function MediaDeltaOf(info: Option<Info>, k: MediaCounter): nat {
    if info.None? || info.value.media.None? then 0
    else
      match k
      case Finished => info.value.media.value.completedDelta
      case FailedJobs => info.value.media.value.erroredDelta
  }

  function SumOfMediaDeltas(ticks: seq<Tick>, k: MediaCounter): (r: nat) {
    if ticks == [] then 0
    else SumOfMediaDeltas(ticks[..|ticks| - 1], k) + MediaDeltaOf(ReportAt(ticks, |ticks| - 1), k)
  }

  ghost predicate SteadyMedia(scrapes: seq<M.Counters>, k: MediaCounter) {
    forall i :: 0 < i < |scrapes| ==>
      ReadMedia(scrapes[i - 1], k) <= ReadMedia(scrapes[i], k) < ReadMedia(scrapes[i - 1], k) + U32
  }

  lemma ReportedMediaDelta(h: Held, t: Tick, k: MediaCounter)
    ensures MediaDeltaOf(Report(h, t), k)
            == if t.parsed.Some? && t.parsed.value.Media? && h.prevMedia.Some?
               then Delta(ReadMedia(t.parsed.value.m, k), ReadMedia(h.prevMedia.value, k)) else 0
  {
  }

  lemma MediaDeltaOfTick(ticks: seq<Tick>, k: MediaCounter)
    requires ticks != []
    ensures var before, s := MediaScrapes(ticks[..|ticks| - 1]), MediaScrapes(ticks);
            && (s == before || (|s| == |before| + 1 && s[..|before|] == before))
            && MediaDeltaOf(ReportAt(ticks, |ticks| - 1), k)
               == if s == before || before == [] then 0
                  else Delta(ReadMedia(s[|s| - 1], k), ReadMedia(before[|before| - 1], k))
  {
    var init, t := ticks[..|ticks| - 1], ticks[|ticks| - 1];
    BaselinesAreLastScrapes(init);
    OneMoreTick(ticks);
    ReportedMediaDelta(HeldOver(init), t, k);
    assert ReportAt(ticks, |ticks| - 1) == Report(HeldOver(init), t);
  }

  function MediaSpan(scrapes: seq<M.Counters>, k: MediaCounter): int {
    if scrapes == [] then 0 else ReadMedia(scrapes[|scrapes| - 1], k) - ReadMedia(scrapes[0], k)
  }

  lemma OneMoreMediaScrape(before: seq<M.Counters>, s: seq<M.Counters>, k: MediaCounter)
    requires SteadyMedia(s, k) && |s| == |before| + 1 && s[..|before|] == before
    ensures SteadyMedia(before, k)
    ensures before != [] ==>
              MediaSpan(s, k) == MediaSpan(before, k) + Delta(ReadMedia(s[|s| - 1], k), ReadMedia(before[|before| - 1], k))
    ensures before == [] ==> MediaSpan(s, k) == 0
  {
    assert forall i :: 0 <= i < |before| ==> before[i] == s[i];
    if before != [] {
      assert ReadMedia(s[|s| - 2], k) <= ReadMedia(s[|s| - 1], k) < ReadMedia(s[|s| - 2], k) + U32;
    }
  }

  lemma {:induction false} MediaDeltasTelescope(ticks: seq<Tick>, k: MediaCounter)
    requires SteadyMedia(MediaScrapes(ticks), k)
    ensures SumOfMediaDeltas(ticks, k) == MediaSpan(MediaScrapes(ticks), k)
  {
    if ticks != [] {
      MediaDeltaSpans(ticks, k);
      MediaDeltasTelescope(ticks[..|ticks| - 1], k);
    }
  }

  lemma MediaDeltaSpans(ticks: seq<Tick>, k: MediaCounter)
    requires ticks != [] && SteadyMedia(MediaScrapes(ticks), k)
    ensures SteadyMedia(MediaScrapes(ticks[..|ticks| - 1]), k)
    ensures MediaSpan(MediaScrapes(ticks), k)
            == MediaSpan(MediaScrapes(ticks[..|ticks| - 1]), k) + MediaDeltaOf(ReportAt(ticks, |ticks| - 1), k)
  {
    MediaDeltaOfTick(ticks, k);
    var before, s := MediaScrapes(ticks[..|ticks| - 1]), MediaScrapes(ticks);
    if s != before {
      OneMoreMediaScrape(before, s, k);
    }
  }

  // ----- rates -----

  /** The counters that rates are reported of: two of a vLLM server, one of a media server. */
  datatype Flow = Generation | Prompt | Images

  function VllmCount(v: VllmCounters, f: Flow): Option<nat> {
    match f case Generation => Some(v.generationTokens) case Prompt => Some(v.promptTokens) case Images => None
  }

  function MediaCount(m: M.Counters, f: Flow): Option<nat> {
    if f.Images? then Some(m.requests) else None
  }

  /** What a scrape says of the counter, when it is of the flavour that has it. */
  function CountIn(parsed: Option<Scrape>, f: Flow): Option<nat> {
    match parsed
    case None => None
    case Some(Vllm(v)) => VllmCount(v, f)
    case Some(Media(m)) => MediaCount(m, f)
  }

  /** The baseline that the next rate is taken against. */
  function CountHeld(h: Held, f: Flow): Option<nat> {
    if f.Images? then (if h.prevMedia.Some? then MediaCount(h.prevMedia.value, f) else None)
    else if h.prev.Some? then VllmCount(h.prev.value, f)
    else None
  }

  /** The reported rate per second, and zero where none is reported. */
  function RateIn(info: Option<Info>, f: Flow): real {
    if info.None? then 0.0
    else
      match f
      case Generation => if info.value.serving.Some? then info.value.serving.value.generationTps else 0.0
      case Prompt => if info.value.serving.Some? then info.value.serving.value.promptTps else 0.0
      case Images => if info.value.media.Some? then info.value.media.value.generationsPerMin / 60.0 else 0.0
  }

  /** When the counter was last scraped. */
  function LastAt(ticks: seq<Tick>, f: Flow): (r: Option<real>) {
    if ticks == [] then None
    else if CountIn(ticks[|ticks| - 1].parsed, f).Some? then Some(ticks[|ticks| - 1].now)
    else LastAt(ticks[..|ticks| - 1], f)
  }

  /** The counter's scraped values in order. */
  function Counts(ticks: seq<Tick>, f: Flow): (r: seq<nat>) {
    if ticks == [] then []
    else
      var r := Counts(ticks[..|ticks| - 1], f);
      match CountIn(ticks[|ticks| - 1].parsed, f)
      case Some(n) => r + [n]
      case None => r
  }

  /** The clock moves on by at least a millisecond from each scrape to the next tick. */
  ghost predicate Ticking(ticks: seq<Tick>) {
    forall i :: 0 <= i < |ticks| && HeldOver(ticks[..i]).prevAt.Some? ==>
      ticks[i].now - HeldOver(ticks[..i]).prevAt.value >= MIN_SECONDS
  }

  lemma TickingPrefix(ticks: seq<Tick>)
    requires ticks != [] && Ticking(ticks)
    ensures Ticking(ticks[..|ticks| - 1])
    ensures var h := HeldOver(ticks[..|ticks| - 1]);
            h.prevAt.Some? ==> ticks[|ticks| - 1].now - h.prevAt.value >= MIN_SECONDS
  {
    var init := ticks[..|ticks| - 1];
    forall i | 0 <= i < |init| && HeldOver(init[..i]).prevAt.Some?
      ensures init[i].now - HeldOver(init[..i]).prevAt.value >= MIN_SECONDS
    {
      assert ticks[..i] == init[..i] && ticks[i] == init[i];
    }
    assert ticks[..|init|] == init;
  }

  /** The baseline is the last value scraped, and the shared clock is never behind that scrape. */
  lemma {:induction false} BaselineAndClock(ticks: seq<Tick>, f: Flow)
    requires Ticking(ticks)
    ensures CountHeld(HeldOver(ticks), f) == LastOf(Counts(ticks, f))
    ensures LastAt(ticks, f).Some? <==> Counts(ticks, f) != []
    ensures LastAt(ticks, f).Some? ==>
              HeldOver(ticks).prevAt.Some? && LastAt(ticks, f).value <= HeldOver(ticks).prevAt.value
  {
    if ticks != [] {
      TickingPrefix(ticks);
      BaselineAndClock(ticks[..|ticks| - 1], f);
    }
  }

  /** How much the counter grew over the window that a tick closes. */
  function IncreaseAt(ticks: seq<Tick>, f: Flow): nat
    requires ticks != []
  {
    match (CountIn(ticks[|ticks| - 1].parsed, f), LastOf(Counts(ticks[..|ticks| - 1], f)))
    case (Some(cur), Some(prev)) => Increase(cur, prev)
    case _ => 0
  }

  /** What the sampler reported for those ticks. */
  ghost predicate IsReports(ticks: seq<Tick>, infos: seq<Option<Info>>) {
    |infos| == |ticks| && forall i :: 0 <= i < |ticks| ==> infos[i] == ReportAt(ticks, i)
  }

  /** The time since the counter's last scrape. */
  function WindowAt(ticks: seq<Tick>, f: Flow): real
    requires ticks != []
  {
    match LastAt(ticks[..|ticks| - 1], f) case Some(at) => ticks[|ticks| - 1].now - at case None => 0.0
  }

  /** What the last tick's reported rate accounts for over its window. */
  function RatedAt(ticks: seq<Tick>, infos: seq<Option<Info>>, f: Flow): real
    requires ticks != [] && |infos| == |ticks|
  {
    RateIn(infos[|infos| - 1], f) * WindowAt(ticks, f)
  }

  function RatedTotal(ticks: seq<Tick>, infos: seq<Option<Info>>, f: Flow): (r: real)
    requires |infos| == |ticks|
  {
    if ticks == [] then 0.0
    else RatedTotal(ticks[..|ticks| - 1], infos[..|infos| - 1], f) + RatedAt(ticks, infos, f)
  }

  // ----- the rates of one tick -----

  lemma PerMinute(rate: real)
    ensures rate * 60.0 / 60.0 == rate
  {
  }

  /** Every reported rate is the growth of its own counter over the time on the shared clock. */
  lemma RateReported(h: Held, t: Tick, f: Flow)
    ensures RateIn(Report(h, t), f)
            == match (CountIn(t.parsed, f), CountHeld(h, f))
               case (Some(cur), Some(prev)) => Rate(cur, prev, Elapsed(h, t.now))
               case _ => 0.0
  {
    if t.parsed.Some? && t.parsed.value.Media? && h.prevMedia.Some? {
      PerMinute(Rate(t.parsed.value.m.requests, h.prevMedia.value.requests, Elapsed(h, t.now)));
    }
  }

  /** A rate over one duration, stretched over one at least as long, is never too little. */
  lemma Stretched(increase: real, elapsed: real, window: real, rate: real)
    requires increase >= 0.0 && 0.0 < elapsed <= window && rate == increase / elapsed
    ensures rate * window >= increase
    ensures rate * window == increase <==> increase == 0.0 || window == elapsed
  {
    assert rate * elapsed == increase;
    assert rate >= 0.0;
    assert rate * window == rate * elapsed + rate * (window - elapsed);
    if window > elapsed && increase > 0.0 {
      assert rate > 0.0;
      assert rate * (window - elapsed) > 0.0;
    }
  }

  /** The clock stands at the counter's own last scrape, or the counter did not move. */
  predicate TickCovered(ticks: seq<Tick>, f: Flow)
    requires ticks != []
  {
    IncreaseAt(ticks, f) == 0 || HeldOver(ticks[..|ticks| - 1]).prevAt == LastAt(ticks[..|ticks| - 1], f)
  }

  lemma LastReport(ticks: seq<Tick>, infos: seq<Option<Info>>, f: Flow)
    requires ticks != [] && Ticking(ticks) && IsReports(ticks, infos)
    ensures var init, t := ticks[..|ticks| - 1], ticks[|ticks| - 1];
            RateIn(infos[|infos| - 1], f)
            == match (CountIn(t.parsed, f), LastOf(Counts(init, f)))
               case (Some(cur), Some(prev)) => Rate(cur, prev, Elapsed(HeldOver(init), t.now))
               case _ => 0.0
  {
    TickingPrefix(ticks);
    BaselineAndClock(ticks[..|ticks| - 1], f);
    RateReported(HeldOver(ticks[..|ticks| - 1]), ticks[|ticks| - 1], f);
  }

  lemma RateOfTick(ticks: seq<Tick>, infos: seq<Option<Info>>, f: Flow)
    requires ticks != [] && Ticking(ticks) && IsReports(ticks, infos)
    requires CountIn(ticks[|ticks| - 1].parsed, f).Some? && Counts(ticks[..|ticks| - 1], f) != []
    ensures var h := HeldOver(ticks[..|ticks| - 1]);
            && h.prevAt.Some?
            && var elapsed := ticks[|ticks| - 1].now - h.prevAt.value;
               && 0.0 < elapsed <= WindowAt(ticks, f)
               && RateIn(infos[|infos| - 1], f) == IncreaseAt(ticks, f) as real / elapsed
               && (WindowAt(ticks, f) == elapsed <==> h.prevAt == LastAt(ticks[..|ticks| - 1], f))
  {
    TickingPrefix(ticks);
    BaselineAndClock(ticks[..|ticks| - 1], f);
    LastReport(ticks, infos, f);
  }

  lemma NothingRated(ticks: seq<Tick>, infos: seq<Option<Info>>, f: Flow)
    requires ticks != [] && Ticking(ticks) && IsReports(ticks, infos)
    requires CountIn(ticks[|ticks| - 1].parsed, f).None? || Counts(ticks[..|ticks| - 1], f) == []
    ensures RatedAt(ticks, infos, f) == 0.0 && IncreaseAt(ticks, f) == 0
  {
    LastReport(ticks, infos, f);
    assert RateIn(infos[|infos| - 1], f) == 0.0;
  }

  lemma RatedStretched(ticks: seq<Tick>, infos: seq<Option<Info>>, f: Flow, increase: real, elapsed: real)
    requires ticks != [] && |infos| == |ticks| && increase >= 0.0 && 0.0 < elapsed <= WindowAt(ticks, f)
    requires RateIn(infos[|infos| - 1], f) == increase / elapsed
    ensures RatedAt(ticks, infos, f) >= increase
    ensures RatedAt(ticks, infos, f) == increase <==> increase == 0.0 || WindowAt(ticks, f) == elapsed
  {
    Stretched(increase, elapsed, WindowAt(ticks, f), RateIn(infos[|infos| - 1], f));
  }

  /**
   * The two flavours share one clock, so a tick's rate accounts for at least what its window
   * brought, and for exactly that when no scrape of the other flavour moved the clock, or nothing
   * was brought.
   */
  lemma RateCoversWindow(ticks: seq<Tick>, infos: seq<Option<Info>>, f: Flow)
    requires ticks != [] && Ticking(ticks) && IsReports(ticks, infos)
    ensures RatedAt(ticks, infos, f) >= IncreaseAt(ticks, f) as real
    ensures RatedAt(ticks, infos, f) == IncreaseAt(ticks, f) as real <==> TickCovered(ticks, f)
  {
    if CountIn(ticks[|ticks| - 1].parsed, f).Some? && Counts(ticks[..|ticks| - 1], f) != [] {
      RateOfTick(ticks, infos, f);
      RatedStretched(ticks, infos, f, IncreaseAt(ticks, f) as real,
                     ticks[|ticks| - 1].now - HeldOver(ticks[..|ticks| - 1]).prevAt.value);
    } else {
      NothingRated(ticks, infos, f);
    }
  }

  // ----- whole runs -----

  ghost predicate CountsGrow(counts: seq<nat>) {
    forall i :: 0 < i < |counts| ==> counts[i - 1] <= counts[i]
  }

  function CountSpan(counts: seq<nat>): int {
    if counts == [] then 0 else counts[|counts| - 1] as int - counts[0] as int
  }

  /** Every tick of the run covers its window. */
  ghost predicate AllCovered(ticks: seq<Tick>, f: Flow) {
    forall n :: 0 < n <= |ticks| ==> TickCovered(ticks[..n], f)
  }

  lemma AllCoveredStep(ticks: seq<Tick>, f: Flow)
    requires ticks != []
    ensures AllCovered(ticks, f) <==> AllCovered(ticks[..|ticks| - 1], f) && TickCovered(ticks, f)
  {
    var init := ticks[..|ticks| - 1];
    assert forall n :: 0 < n <= |init| ==> init[..n] == ticks[..n];
    assert ticks[..|ticks|] == ticks;
    if AllCovered(ticks, f) {
      forall n | 0 < n <= |init|
        ensures TickCovered(init[..n], f)
      {
        assert init[..n] == ticks[..n];
      }
    }
    if AllCovered(init, f) && TickCovered(ticks, f) {
      forall n | 0 < n <= |ticks|
        ensures TickCovered(ticks[..n], f)
      {
        assert n <= |init| ==> init[..n] == ticks[..n];
      }
    }
  }

  lemma SpanStep(ticks: seq<Tick>, f: Flow)
    requires ticks != [] && CountsGrow(Counts(ticks, f))
    ensures CountsGrow(Counts(ticks[..|ticks| - 1], f))
    ensures CountSpan(Counts(ticks, f)) == CountSpan(Counts(ticks[..|ticks| - 1], f)) + IncreaseAt(ticks, f)
  {
    var before, after := Counts(ticks[..|ticks| - 1], f), Counts(ticks, f);
    assert forall i :: 0 <= i < |before| ==> before[i] == after[i];
  }

  lemma ReportsPrefix(ticks: seq<Tick>, infos: seq<Option<Info>>)
    requires ticks != [] && IsReports(ticks, infos)
    ensures IsReports(ticks[..|ticks| - 1], infos[..|infos| - 1])
  {
    var init := ticks[..|ticks| - 1];
    forall i | 0 <= i < |init|
      ensures infos[..|infos| - 1][i] == ReportAt(init, i)
    {
      assert init[..i] == ticks[..i] && init[i] == ticks[i];
    }
  }

  /**
   * Reported rates times windows never add up to less than the counter grew, and to exactly that
   * when each tick that brought something found the clock at its own flavour's last scrape.
   */
  lemma {:induction false} RatesTelescope(ticks: seq<Tick>, infos: seq<Option<Info>>, f: Flow)
    requires Ticking(ticks) && CountsGrow(Counts(ticks, f)) && IsReports(ticks, infos)
    ensures RatedTotal(ticks, infos, f) >= CountSpan(Counts(ticks, f)) as real
    ensures RatedTotal(ticks, infos, f) == CountSpan(Counts(ticks, f)) as real <==> AllCovered(ticks, f)
  {
    if ticks != [] {
      TickingPrefix(ticks);
      ReportsPrefix(ticks, infos);
      SpanStep(ticks, f);
      RatesTelescope(ticks[..|ticks| - 1], infos[..|infos| - 1], f);
      RateCoversWindow(ticks, infos, f);
      AllCoveredStep(ticks, f);
    }
  }

  /** Every scrape is of the flavour that has the counter. */
  ghost predicate OneFlavour(ticks: seq<Tick>, f: Flow) {
    forall i :: 0 <= i < |ticks| && ticks[i].parsed.Some? ==> CountIn(ticks[i].parsed, f).Some?
  }

  lemma {:induction false} OneFlavourClock(ticks: seq<Tick>, f: Flow)
    requires OneFlavour(ticks, f)
    ensures HeldOver(ticks).prevAt == LastAt(ticks, f)
  {
    if ticks != [] {
      var init := ticks[..|ticks| - 1];
      assert forall i :: 0 <= i < |init| ==> init[i] == ticks[i];
      OneFlavourClock(init, f);
    }
  }

  /** In runs of one flavour the rates add up. */
  lemma OneFlavourAddsUp(ticks: seq<Tick>, infos: seq<Option<Info>>, f: Flow)
    requires Ticking(ticks) && CountsGrow(Counts(ticks, f)) && IsReports(ticks, infos) && OneFlavour(ticks, f)
    ensures RatedTotal(ticks, infos, f) == CountSpan(Counts(ticks, f)) as real
  {
    forall n | 0 < n <= |ticks|
      ensures TickCovered(ticks[..n], f)
    {
      assert ticks[..n][..n - 1] == ticks[..n - 1];
      OneFlavourClock(ticks[..n - 1], f);
    }
    RatesTelescope(ticks, infos, f);
  }

  function ScrapeAt(now: real, scrape: Scrape): Tick {
    Tick(now, Idle, Some(scrape), None)
  }

  /** One scrape of the other flavour between two of a counter that moved: the rates overstate it. */
  lemma MixedRunOverstates(a: Scrape, other: Scrape, b: Scrape, infos: seq<Option<Info>>, f: Flow)
    requires CountIn(Some(a), f).Some? && CountIn(Some(b), f).Some? && CountIn(Some(other), f).None?
    requires CountIn(Some(a), f).value < CountIn(Some(b), f).value
    requires IsReports([ScrapeAt(0.0, a), ScrapeAt(1.0, other), ScrapeAt(2.0, b)], infos)
    ensures var ticks := [ScrapeAt(0.0, a), ScrapeAt(1.0, other), ScrapeAt(2.0, b)];
            RatedTotal(ticks, infos, f) > CountSpan(Counts(ticks, f)) as real
  {
    var ticks := [ScrapeAt(0.0, a), ScrapeAt(1.0, other), ScrapeAt(2.0, b)];
    ThreeScrapes(a, other, b, f);
    RatesTelescope(ticks, infos, f);
    assert ticks[..3] == ticks;
    assert !AllCovered(ticks, f);
  }

  lemma HeldSnoc(ticks: seq<Tick>, t: Tick, f: Flow)
    ensures HeldOver(ticks + [t]) == HeldAfter(HeldOver(ticks), t)
    ensures LastAt(ticks + [t], f) == if CountIn(t.parsed, f).Some? then Some(t.now) else LastAt(ticks, f)
    ensures Counts(ticks + [t], f)
            == Counts(ticks, f) + match CountIn(t.parsed, f) case Some(n) => [n] case None => []
  {
    assert (ticks + [t])[..|ticks|] == ticks;
    assert Counts(ticks, f) + [] == Counts(ticks, f);
  }

  lemma ScrapeMovesClock(h: Held, now: real, scrape: Scrape)
    ensures HeldAfter(h, ScrapeAt(now, scrape)).prevAt == Some(now)
  {
  }

  lemma ThreeScrapes(a: Scrape, other: Scrape, b: Scrape, f: Flow)
    requires CountIn(Some(a), f).Some? && CountIn(Some(b), f).Some? && CountIn(Some(other), f).None?
    requires CountIn(Some(a), f).value < CountIn(Some(b), f).value
    ensures var ticks := [ScrapeAt(0.0, a), ScrapeAt(1.0, other), ScrapeAt(2.0, b)];
            Ticking(ticks) && CountsGrow(Counts(ticks, f)) && !TickCovered(ticks, f)
  {
    var t0, t1, t2 := ScrapeAt(0.0, a), ScrapeAt(1.0, other), ScrapeAt(2.0, b);
    var none: seq<Tick> := [];
    HeldSnoc(none, t0, f);
    HeldSnoc([t0], t1, f);
    HeldSnoc([t0, t1], t2, f);
    assert none + [t0] == [t0] && [t0] + [t1] == [t0, t1] && [t0, t1] + [t2] == [t0, t1, t2];
    ScrapeMovesClock(FRESH, 0.0, a);
    ScrapeMovesClock(HeldOver([t0]), 1.0, other);
    var three := [t0, t1, t2];
    assert three[..0] == none && three[..1] == [t0] && three[..2] == [t0, t1];
  }

  // ----- averages recompose -----

  datatype Stage = Ttft | Queue | Prefill | Decode | Tpot

  function LatencyOf(v: VllmCounters, stage: Stage): Latency {
    match stage
    case Ttft => v.ttft
    case Queue => v.queueTime
    case Prefill => v.prefillTime
    case Decode => v.decodeTime
    case Tpot => v.tpot
  }

  function AverageOf(info: ServingInfo, stage: Stage): real {
    match stage
    case Ttft => info.ttftAvg
    case Queue => info.queueAvg
    case Prefill => info.prefillAvg
    case Decode => info.decodeAvg
    case Tpot => info.tpotAvg
  }

  /** A report's average weighted by the requests completed since the flavour's last scrape. */
  function WeightedAt(ticks: seq<Tick>, stage: Stage): real
    requires ticks != []
  {
    var init, t := ticks[..|ticks| - 1], ticks[|ticks| - 1];
    var info := ReportAt(ticks, |ticks| - 1);
    if t.parsed.Some? && t.parsed.value.Vllm? && info.Some? && info.value.serving.Some?
    then AverageOf(info.value.serving.value, stage)
         * Increase(LatencyOf(t.parsed.value.v, stage).count, LatencyBefore(VllmScrapes(init), stage).count) as real
    else 0.0
  }

  function WeightedAverages(ticks: seq<Tick>, stage: Stage): (r: real) {
    if ticks == [] then 0.0 else WeightedAverages(ticks[..|ticks| - 1], stage) + WeightedAt(ticks, stage)
  }

  function LatencyBefore(scrapes: seq<VllmCounters>, stage: Stage): Latency {
    match LastOf(scrapes) case Some(v) => LatencyOf(v, stage) case None => NO_LATENCY
  }

  /** Sums and counts only grow, and the sum moves only with the count; before the first scrape both are zero. */
  ghost predicate GrowsTogether(scrapes: seq<VllmCounters>, stage: Stage) {
    forall i :: 0 <= i < |scrapes| ==>
      var p := if i == 0 then NO_LATENCY else LatencyOf(scrapes[i - 1], stage);
      var c := LatencyOf(scrapes[i], stage);
      p.sum <= c.sum && p.count <= c.count && (p.count == c.count ==> p.sum == c.sum)
  }

  lemma AverageTimesCount(cur: Latency, prev: Latency)
    requires prev.sum <= cur.sum && prev.count <= cur.count && (prev.count == cur.count ==> prev.sum == cur.sum)
    ensures Average(cur, prev) * Increase(cur.count, prev.count) as real == cur.sum - prev.sum
  {
  }

  lemma WeightedTick(ticks: seq<Tick>, stage: Stage)
    requires ticks != [] && GrowsTogether(VllmScrapes(ticks), stage)
    ensures var before, s := VllmScrapes(ticks[..|ticks| - 1]), VllmScrapes(ticks);
            && GrowsTogether(before, stage)
            && WeightedAt(ticks, stage) == LatencyBefore(s, stage).sum - LatencyBefore(before, stage).sum
  {
    var init, t := ticks[..|ticks| - 1], ticks[|ticks| - 1];
    var before, s := VllmScrapes(init), VllmScrapes(ticks);
    assert forall i :: 0 <= i < |before| ==> before[i] == s[i];
    BaselinesAreLastScrapes(init);
    if t.parsed.Some? && t.parsed.value.Vllm? {
      ScrapeAverage(before, s, t.parsed.value.v, stage);
      FoldedAverage(LastOf(before), t.parsed.value.v, Elapsed(HeldOver(init), t.now), stage);
    }
  }

  lemma ScrapeAverage(before: seq<VllmCounters>, s: seq<VllmCounters>, v: VllmCounters, stage: Stage)
    requires s == before + [v] && GrowsTogether(s, stage)
    ensures var cur, prev := LatencyOf(v, stage), LatencyBefore(before, stage);
            Average(cur, prev) * Increase(cur.count, prev.count) as real == cur.sum - prev.sum
  {
    assert s[|before|] == v && (before != [] ==> s[|before| - 1] == before[|before| - 1]);
    AverageTimesCount(LatencyOf(v, stage), LatencyBefore(before, stage));
  }

  lemma FoldedAverage(prev: Option<VllmCounters>, cur: VllmCounters, elapsed: real, stage: Stage)
    ensures AverageOf(FoldVllm(prev, cur, elapsed), stage)
            == Average(LatencyOf(cur, stage), if prev.Some? then LatencyOf(prev.value, stage) else NO_LATENCY)
  {
  }

  /** Over any run, the averages weighted by their counts give back the whole latency sum. */
  lemma {:induction false} AveragesRecompose(ticks: seq<Tick>, stage: Stage)
    requires GrowsTogether(VllmScrapes(ticks), stage)
    ensures WeightedAverages(ticks, stage) == LatencyBefore(VllmScrapes(ticks), stage).sum
  {
    if ticks != [] {
      WeightedTick(ticks, stage);
      AveragesRecompose(ticks[..|ticks| - 1], stage);
    }
  }

  datatype MediaStage = Duration | PostProcessing | PreProcessing | ModelInference | Warmup

  function MediaLatency(m: M.Counters, stage: MediaStage): Latency {
    match stage
    case Duration => Latency(m.durationSum, m.durationCount)
    case PostProcessing => Latency(m.postSum, m.postCount)
    case PreProcessing => Latency(m.preSum, m.preCount)
    case ModelInference => Latency(m.inferenceSum, m.inferenceCount)
    case Warmup => Latency(m.warmupSum, m.warmupCount)
  }

  function MediaAverageOf(info: MediaInfo, stage: MediaStage): real {
    match stage
    case Duration => info.durationAvg
    case PostProcessing => info.postAvg
    case PreProcessing => info.preAvg
    case ModelInference => info.inferenceAvg
    case Warmup => info.warmupAvg
  }

  function MediaLatencyBefore(scrapes: seq<M.Counters>, stage: MediaStage): Latency {
    match LastOf(scrapes) case Some(m) => MediaLatency(m, stage) case None => NO_LATENCY
  }

  /** A media report's average weighted by the completions since the flavour's last scrape. */
  function MediaWeightedAt(ticks: seq<Tick>, stage: MediaStage): real
    requires ticks != []
  {
    var init, t := ticks[..|ticks| - 1], ticks[|ticks| - 1];
    var info := ReportAt(ticks, |ticks| - 1);
    if t.parsed.Some? && t.parsed.value.Media? && info.Some? && info.value.media.Some?
    then MediaAverageOf(info.value.media.value, stage)
         * Increase(MediaLatency(t.parsed.value.m, stage).count, MediaLatencyBefore(MediaScrapes(init), stage).count) as real
    else 0.0
  }

  function MediaWeightedAverages(ticks: seq<Tick>, stage: MediaStage): (r: real) {
    if ticks == [] then 0.0
    else MediaWeightedAverages(ticks[..|ticks| - 1], stage) + MediaWeightedAt(ticks, stage)
  }

  ghost predicate MediaGrowsTogether(scrapes: seq<M.Counters>, stage: MediaStage) {
    forall i :: 0 <= i < |scrapes| ==>
      var p := if i == 0 then NO_LATENCY else MediaLatency(scrapes[i - 1], stage);
      var c := MediaLatency(scrapes[i], stage);
      p.sum <= c.sum && p.count <= c.count && (p.count == c.count ==> p.sum == c.sum)
  }

  lemma FoldedMediaAverage(prev: Option<M.Counters>, cur: M.Counters, elapsed: real, stage: MediaStage)
    ensures MediaAverageOf(FoldMedia(prev, cur, elapsed), stage)
            == Average(MediaLatency(cur, stage), if prev.Some? then MediaLatency(prev.value, stage) else NO_LATENCY)
  {
  }

  lemma MediaScrapeAverage(before: seq<M.Counters>, s: seq<M.Counters>, m: M.Counters, stage: MediaStage)
    requires s == before + [m] && MediaGrowsTogether(s, stage)
    ensures var cur, prev := MediaLatency(m, stage), MediaLatencyBefore(before, stage);
            Average(cur, prev) * Increase(cur.count, prev.count) as real == cur.sum - prev.sum
  {
    assert s[|before|] == m && (before != [] ==> s[|before| - 1] == before[|before| - 1]);
    AverageTimesCount(MediaLatency(m, stage), MediaLatencyBefore(before, stage));
  }

  lemma MediaWeightedTick(ticks: seq<Tick>, stage: MediaStage)
    requires ticks != [] && MediaGrowsTogether(MediaScrapes(ticks), stage)
    ensures var before, s := MediaScrapes(ticks[..|ticks| - 1]), MediaScrapes(ticks);
            && MediaGrowsTogether(before, stage)
            && MediaWeightedAt(ticks, stage) == MediaLatencyBefore(s, stage).sum - MediaLatencyBefore(before, stage).sum
  {
    var init, t := ticks[..|ticks| - 1], ticks[|ticks| - 1];
    var before, s := MediaScrapes(init), MediaScrapes(ticks);
    assert forall i :: 0 <= i < |before| ==> before[i] == s[i];
    BaselinesAreLastScrapes(init);
    if t.parsed.Some? && t.parsed.value.Media? {
      MediaScrapeAverage(before, s, t.parsed.value.m, stage);
      FoldedMediaAverage(LastOf(before), t.parsed.value.m, Elapsed(HeldOver(init), t.now), stage);
    }
  }

  /** The same for a media server: over any run its averages give back each stage's own sum. */
  lemma {:induction false} MediaAveragesRecompose(ticks: seq<Tick>, stage: MediaStage)
    requires MediaGrowsTogether(MediaScrapes(ticks), stage)
    ensures MediaWeightedAverages(ticks, stage) == MediaLatencyBefore(MediaScrapes(ticks), stage).sum
  {
    if ticks != [] {
      MediaWeightedTick(ticks, stage);
      MediaAveragesRecompose(ticks[..|ticks| - 1], stage);
    }
  }
}
