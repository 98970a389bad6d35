// What one sample does to the round-trip estimates, and where they and the timeout settle under a constant sample.
module KcpSettle {
  import opened Word
  import opened Wire
  import opened KcpSpec
  import opened KcpTiming

  function Distance(a: int, b: int): int {
    if a >= b then a - b else b - a
  }

  /**
   * After the first sample the variation moves a quarter of the way to the sample's distance from the estimate,
   * and the estimate an eighth of the way to the sample, both rounded down, the estimate to 1 at least.
   */
  lemma SampleMoves(cfg: Cfg, M: int, r: Rtt, rtt: int)
    requires cfg.Ok() && 1 <= M && 8 * M < TWO31 && RttOk(M, r) && 0 <= rtt <= M
    ensures var r' := UpdateAck(cfg, r, rtt);
      if r.srtt == 0 then r'.srtt == rtt && 0 <= rtt - 2 * r'.rttval < 2
      else
        && 0 <= 3 * r.rttval + Distance(rtt, r.srtt) - 4 * r'.rttval < 4
        && (0 <= 7 * r.srtt + rtt - 8 * r'.srtt < 8 || (r'.srtt == 1 && 7 * r.srtt + rtt < 8))
    ensures var r' := UpdateAck(cfg, r, rtt);
      TimeoutIs(cfg, r'.srtt + Max(cfg.interval, 4 * r'.rttval), r'.rto)
  {
    RttStep(cfg, M, r, rtt);
    hide W;
  }

  /** rto is x, or the end of [minrto, 60000] nearest to it. */
  predicate TimeoutIs(cfg: Cfg, x: int, rto: int) {
    cfg.minrto <= rto <= 60000 && (rto == x || x < rto == cfg.minrto || x > rto == 60000)
  }

  /** One constant sample more: from above the estimate comes down, from below it climbs, and then it stays. */
  lemma EstimateStep(M: int, c: int, s: int, s': int)
    requires 0 <= s <= M && 1 <= c <= M
    requires if s == 0 then s' == c else 0 <= 7 * s + c - 8 * s' < 8 || (s' == 1 && 7 * s + c < 8)
    ensures 1 <= s'
    ensures s > c ==> c <= s' < s
    ensures s <= c ==> s <= s' <= c
    ensures s < c - 7 ==> s < s'
  {
  }

  /** Near the estimate the variation comes down to 7 or less. */
  lemma VariationStep(c: int, s: int, v: int, v': int)
    requires c - 7 <= s <= c && 0 <= v && 0 <= 3 * v + Distance(c, s) - 4 * v' < 4
    ensures v > 7 ==> v' < v
    ensures v <= 7 ==> v' <= 7
  {
  }

  predicate AllAre(samples: seq<int>, c: int) {
    forall i :: 0 <= i < |samples| ==> samples[i] == c
  }

  /** From anywhere in [0, M] the estimate is in [c - 7, c] after M samples of c, from above or below. */
  lemma {:induction false} EstimateArrives(cfg: Cfg, M: int, c: int, r: Rtt, samples: seq<int>)
    requires cfg.Ok() && 1 <= c <= M && 8 * M < TWO31 && RttOk(M, r) && AllAre(samples, c)
    ensures var e := Estimate(cfg, r, samples);
      RttOk(M, e) && Min(c - 7, |samples|) <= e.srtt <= Max(c, M - |samples|) && (samples != [] ==> 1 <= e.srtt)
  {
    if samples != [] {
      var rest := samples[..|samples| - 1];
      var e := Estimate(cfg, r, rest);
      EstimateArrives(cfg, M, c, r, rest);
      RttStep(cfg, M, e, c);
      SampleMoves(cfg, M, e, c);
      hide UpdateAck, TimeoutIs, RttOk;
      EstimateRange(M, e);
      EstimateStep(M, c, e.srtt, UpdateAck(cfg, e, c).srtt);
    }
  }

  lemma EstimateRange(M: int, r: Rtt)
    requires RttOk(M, r)
    ensures 0 <= r.srtt <= M && 0 <= r.rttval <= M
  {
  }

  lemma {:induction false} VariationArrives(cfg: Cfg, M: int, c: int, r: Rtt, samples: seq<int>)
    requires cfg.Ok() && 1 <= c <= M && 8 * M < TWO31 && RttOk(M, r) && AllAre(samples, c) && |samples| >= M
    ensures Estimate(cfg, r, samples).rttval <= Max(7, 2 * M - |samples|)
  {
    EstimateArrives(cfg, M, c, r, samples);
    EstimateRange(M, Estimate(cfg, r, samples));
    hide UpdateAck, RttOk, Distance, TimeoutIs;
    if |samples| > M {
      var rest := samples[..|samples| - 1];
      var e := Estimate(cfg, r, rest);
      VariationArrives(cfg, M, c, r, rest);
      EstimateArrives(cfg, M, c, r, rest);
      SampleMoves(cfg, M, e, c);
      EstimateRange(M, e);
      VariationStep(c, e.srtt, e.rttval, UpdateAck(cfg, e, c).rttval);
    }
  }

  /**
   * From whatever estimates in [0, M], after 2M samples of c and for good, the estimate is in [c - 7, c], the
   * variation 7 or less, and the timeout between c - 7 + interval and c + 28 or c + interval, whichever is more,
   * within its limits.
   */
  lemma TimeoutSettles(cfg: Cfg, M: int, c: int, r: Rtt, samples: seq<int>)
    requires cfg.Ok() && 1 <= c <= M && 8 * M < TWO31 && RttOk(M, r) && AllAre(samples, c) && |samples| >= 2 * M
    ensures var e := Estimate(cfg, r, samples);
      && c - 7 <= e.srtt <= c && 0 <= e.rttval <= 7
      && TimeoutIs(cfg, e.srtt + Max(cfg.interval, 4 * e.rttval), e.rto)
      && Clamp(cfg.minrto, c - 7 + cfg.interval, 60000) <= e.rto <= Clamp(cfg.minrto, c + Max(cfg.interval, 28), 60000)
  {
    EstimateArrives(cfg, M, c, r, samples);
    VariationArrives(cfg, M, c, r, samples);
    var rest := samples[..|samples| - 1];
    EstimateArrives(cfg, M, c, r, rest);
    SampleMoves(cfg, M, Estimate(cfg, r, rest), c);
    hide UpdateAck, Clamp, TimeoutIs, RttOk, AllAre;
    EstimateRange(M, Estimate(cfg, r, samples));
    assert Estimate(cfg, r, samples) == UpdateAck(cfg, Estimate(cfg, r, rest), c);
    SettledTimeout(cfg, c, Estimate(cfg, r, samples));
  }

  lemma SettledTimeout(cfg: Cfg, c: int, e: Rtt)
    requires c - 7 <= e.srtt <= c && 0 <= e.rttval <= 7
    requires TimeoutIs(cfg, e.srtt + Max(cfg.interval, 4 * e.rttval), e.rto)
    ensures Clamp(cfg.minrto, c - 7 + cfg.interval, 60000) <= e.rto
    ensures e.rto <= Clamp(cfg.minrto, c + Max(cfg.interval, 28), 60000)
  {
  }

  // ---------- the samples of a datagram ----------

  /** The time since then of each acknowledgement in ms that does not carry a time to come. */
  function Samples(now: u32, ms: seq<Msg>): seq<int> {
    if ms == [] then []
    else (if ms[0].cmd == 82 && TimeDiff(now, ms[0].ts) >= 0 then [TimeDiff(now, ms[0].ts)] else [])
         + Samples(now, ms[1..])
  }

  lemma {:induction false} EstimateFirst(cfg: Cfg, r: Rtt, x: int, samples: seq<int>)
    ensures Estimate(cfg, r, [x] + samples) == Estimate(cfg, UpdateAck(cfg, r, x), samples)
  {
    hide UpdateAck;
    var all := [x] + samples;
    if samples == [] {
      assert all[..|all| - 1] == [];
    } else {
      EstimateFirst(cfg, r, x, samples[..|samples| - 1]);
      assert all[..|all| - 1] == [x] + samples[..|samples| - 1];
    }
  }

  lemma {:induction false} InputMsgsSamples(cfg: Cfg, k: Pcb, ms: seq<Msg>)
    ensures InputMsgs(cfg, k, ms).rtt == Estimate(cfg, k.rtt, Samples(k.current, ms))
    decreases |ms|
  {
    hide InputSnd, InputRcv, UpdateAck, Off, TimeDiff;
    if ms != [] {
      var rest := Samples(k.current, ms[1..]);
      InputMsgsSamples(cfg, InputMsg(cfg, k, ms[0]), ms[1..]);
      EstimateFirst(cfg, k.rtt, TimeDiff(k.current, ms[0].ts), rest);
      assert [] + rest == rest;
    }
  }

  /** ikcp_input takes exactly these samples, in the order of the acknowledgements, of a broken datagram too. */
  lemma InputSamples(cfg: Cfg, k: Pcb, bytes: seq<u8>)
    requires cfg.Ok()
    ensures Input(cfg, k, bytes).k.rtt == Estimate(cfg, k.rtt, Samples(k.current, Parse(cfg.conv, bytes).ms))
  {
    hide InputMsgs, Grow, LatestAck, BumpFastack, Samples;
    InputMsgsSamples(cfg, k, Parse(cfg.conv, bytes).ms);
    if |bytes| < OVERHEAD {
      NoSamples(cfg, k);
    }
  }

  lemma NoSamples(cfg: Cfg, k: Pcb)
    ensures Estimate(cfg, k.rtt, Samples(k.current, [])) == k.rtt
  {
  }
}
