/**
 * What one report of the telemetry sampler says, field by field: who is named, the phase, the gauges,
 * and what rates, deltas and averages are after a reset, on a first scrape and in an idle window.
 */
module SamplerReports {
  import opened Wrappers
  import opened Text
  import opened InferenceSampler
  import M = MediaMetrics

  // ----- who and in what phase -----

  /** A scrape that was read is authoritative; a served model that does not answer is loading; else nothing is known. */
  lemma PhaseTable(h: Held, t: Tick)
    ensures Report(h, t).None? <==> t.status.Idle? && t.parsed.None?
    ensures Report(h, t).Some? ==>
              var info := Report(h, t).value;
              && (info.phase == Ready <==> t.parsed.Some?)
              && (info.phase == Loading <==> t.parsed.None?)
              && (info.serving.Some? <==> t.parsed.Some? && t.parsed.value.Vllm?)
              && (info.media.Some? <==> t.parsed.Some? && t.parsed.value.Media?)
  {
  }

  /** The model the agent serves; else the one the scrape names; else "unknown". */
  lemma ModelNamed(h: Held, t: Tick)
    requires Report(h, t).Some?
    ensures t.status.Serving? ==> Report(h, t).value.key == t.status.model
    ensures t.status.Idle? && t.hint.Some? ==> Report(h, t).value.key == t.hint.value
    ensures t.status.Idle? && t.hint.None? ==> Report(h, t).value.key == "unknown"
  {
  }

  /** The title is the key without what ends at its last slash. */
  lemma TitleIsLastPart(h: Held, t: Tick) returns (org: string)
    requires Report(h, t).Some?
    ensures var info := Report(h, t).value;
            && '/' !in info.title
            && info.key == org + info.title
            && (org != "" ==> org[|org| - 1] == '/')
  {
    var key := Report(h, t).value.key;
    SplitLossless(key, '/');
    org := Unlines(Terminated(key, '/'), '/');
  }

  // ----- a vLLM report -----

  ghost predicate IsVllm(t: Tick) {
    t.parsed.Some? && t.parsed.value.Vllm?
  }

  /** Gauges are passed through, and the hit rate is of all lookups since the server came up. */
  lemma GaugesPassThrough(h: Held, t: Tick)
    requires IsVllm(t)
    ensures Report(h, t).Some? && Report(h, t).value.serving.Some?
    ensures var s, v := Report(h, t).value.serving.value, t.parsed.value.v;
            && s.running == v.running && s.waiting == v.waiting && s.kvCacheUsage == v.kvCacheUsage
            && (v.prefixQueries > 0 ==> s.prefixHitRate * v.prefixQueries as real == v.prefixHits as real)
            && (v.prefixQueries == 0 ==> s.prefixHitRate == 0.0)
  {
  }

  /** The number grown by `n` in `elapsed`, taken as a millisecond when shorter. */
  ghost predicate IsRate(rate: real, n: int, elapsed: real) {
    && (elapsed >= 0.001 ==> rate * elapsed == n as real)
    && (elapsed < 0.001 ==> rate * 0.001 == n as real)
  }

  lemma RateIs(cur: nat, prev: nat, elapsed: real)
    ensures cur >= prev ==> IsRate(Rate(cur, prev, elapsed), cur - prev, elapsed)
    ensures cur <= prev ==> Rate(cur, prev, elapsed) == 0.0
  {
  }

  /** Without an earlier scrape there are no rates and no deltas. */
  lemma FirstScrape(h: Held, t: Tick)
    requires IsVllm(t) && h.prev == None
    ensures var s := Report(h, t).value.serving.value;
            && s.generationTps == 0.0 && s.promptTps == 0.0
            && s.completedDelta == 0 && s.erroredDelta == 0 && s.preemptionsDelta == 0
  {
  }

  /** Rates over the time since the last scrape, zero for a counter that went back. */
  lemma VllmRates(h: Held, t: Tick)
    requires IsVllm(t) && h.prev.Some? && h.prevAt.Some?
    ensures var s, v, p, e := Report(h, t).value.serving.value, t.parsed.value.v, h.prev.value, t.now - h.prevAt.value;
            && (if v.generationTokens >= p.generationTokens
                then IsRate(s.generationTps, v.generationTokens - p.generationTokens, e) else s.generationTps == 0.0)
            && (if v.promptTokens >= p.promptTokens
                then IsRate(s.promptTps, v.promptTokens - p.promptTokens, e) else s.promptTps == 0.0)
  {
    var v, p, e := t.parsed.value.v, h.prev.value, t.now - h.prevAt.value;
    RateIs(v.generationTokens, p.generationTokens, e);
    RateIs(v.promptTokens, p.promptTokens, e);
  }

  /** A delta is the growth of the counter, kept to 32 bits, or zero for a counter that went back. */
  ghost predicate IsDelta(delta: nat, cur: nat, prev: nat) {
    && (cur <= prev ==> delta == 0)
    && (cur > prev ==> delta < 4294967296 && exists k: nat :: cur - prev == delta + Wraps(k))
  }

  function Wraps(k: nat): nat { k * 4294967296 }

  lemma DeltaIs(cur: nat, prev: nat)
    ensures IsDelta(Delta(cur, prev), cur, prev)
  {
    if cur > prev {
      var k: nat := (cur - prev) / 4294967296;
      assert cur - prev == Delta(cur, prev) + Wraps(k);
    }
  }

  lemma VllmDeltas(h: Held, t: Tick)
    requires IsVllm(t) && h.prev.Some?
    ensures var s, v, p := Report(h, t).value.serving.value, t.parsed.value.v, h.prev.value;
            && IsDelta(s.completedDelta, v.succeeded, p.succeeded)
            && IsDelta(s.erroredDelta, v.errored, p.errored)
            && IsDelta(s.preemptionsDelta, v.preemptions, p.preemptions)
  {
    var v, p := t.parsed.value.v, h.prev.value;
    DeltaIs(v.succeeded, p.succeeded);
    DeltaIs(v.errored, p.errored);
    DeltaIs(v.preemptions, p.preemptions);
  }

  /**
   * The mean of what completed since the last scrape; when nothing did, the mean of all there ever
   * was; and zero before anything completed. A sum that went back counts as no time.
   */
  ghost predicate IsAverage(avg: real, cur: Latency, prev: Latency) {
    && (cur.count > prev.count && cur.sum >= prev.sum ==> avg * (cur.count - prev.count) as real == cur.sum - prev.sum)
    && (cur.count > prev.count && cur.sum < prev.sum ==> avg == 0.0)
    && (0 < cur.count <= prev.count ==> avg * cur.count as real == cur.sum)
    && (cur.count == 0 ==> avg == 0.0)
  }

  lemma AverageIs(cur: Latency, prev: Latency)
    ensures IsAverage(Average(cur, prev), cur, prev)
  {
    Divided(cur.sum, cur.count);
    if cur.count > prev.count {
      Divided(cur.sum - prev.sum, cur.count - prev.count);
    }
  }

  lemma Divided(x: real, n: nat)
    ensures n > 0 ==> x / n as real * n as real == x
  {
  }

  lemma VllmAverages(h: Held, t: Tick, stage: Stage)
    requires IsVllm(t)
    ensures var s, v := Report(h, t).value.serving.value, t.parsed.value.v;
            IsAverage(AverageOf(s, stage), LatencyOf(v, stage),
                      if h.prev.Some? then LatencyOf(h.prev.value, stage) else Latency(0.0, 0))
  {
    var v := t.parsed.value.v;
    var p := if h.prev.Some? then h.prev.value else NO_VLLM;
    AverageIs(LatencyOf(v, stage), LatencyOf(p, stage));
  }

  // ----- a media report -----

  ghost predicate IsMediaTick(t: Tick) {
    t.parsed.Some? && t.parsed.value.Media?
  }

  /** The gauge and both totals are passed through, and a first scrape has no rate and no deltas. */
  lemma MediaTotals(h: Held, t: Tick)
    requires IsMediaTick(t)
    ensures Report(h, t).Some? && Report(h, t).value.media.Some?
    ensures var s, m := Report(h, t).value.media.value, t.parsed.value.m;
            && s.jobs == m.jobs && s.completedTotal == m.requests && s.erroredTotal == m.errored
            && (h.prevMedia == None ==> s.generationsPerMin == 0.0 && s.completedDelta == 0 && s.erroredDelta == 0)
  {
  }

  lemma MediaGrowth(h: Held, t: Tick)
    requires IsMediaTick(t) && h.prevMedia.Some? && h.prevAt.Some?
    ensures var s, m, p, e := Report(h, t).value.media.value, t.parsed.value.m, h.prevMedia.value, t.now - h.prevAt.value;
            && (if m.requests >= p.requests then IsRate(s.generationsPerMin, 60 * (m.requests - p.requests), e)
                else s.generationsPerMin == 0.0)
            && IsDelta(s.completedDelta, m.requests, p.requests)
            && IsDelta(s.erroredDelta, m.errored, p.errored)
  {
    var m, p, e := t.parsed.value.m, h.prevMedia.value, t.now - h.prevAt.value;
    RateIs(m.requests, p.requests, e);
    PerMinuteIs(Rate(m.requests, p.requests, e), m.requests - p.requests, e);
    DeltaIs(m.requests, p.requests);
    DeltaIs(m.errored, p.errored);
  }

  lemma PerMinuteIs(rate: real, n: int, elapsed: real)
    ensures IsRate(rate, n, elapsed) ==> IsRate(rate * 60.0, 60 * n, elapsed)
  {
    assert rate * 60.0 * elapsed == rate * elapsed * 60.0;
  }

  lemma MediaAverages(h: Held, t: Tick, stage: MediaStage)
    requires IsMediaTick(t)
    ensures var s, m := Report(h, t).value.media.value, t.parsed.value.m;
            IsAverage(MediaAverageOf(s, stage), MediaLatency(m, stage),
                      if h.prevMedia.Some? then MediaLatency(h.prevMedia.value, stage) else Latency(0.0, 0))
  {
    var m := t.parsed.value.m;
    var p := if h.prevMedia.Some? then h.prevMedia.value else M.ZERO;
    AverageIs(MediaLatency(m, stage), MediaLatency(p, stage));
  }
}
