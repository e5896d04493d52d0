/**
 The round-trip estimator over whole runs: it stays inside the range of the samples it has heard,
 nothing overflows for samples below 2^28 ms, and the timeout always lies between 30 ms and 60 s.
 */
module KcpRtt {
  import opened Numbers
  import opened Serial
  import opened KcpWire
  import opened KcpSpec
  import opened KcpRuns

  /** The estimator after the first `n` samples. */
  function Estimate(r: Rtt, cfg: Config, samples: seq<int>, n: nat): Rtt
    requires n <= |samples|
  {
    if n == 0 then r else UpdateAck(Estimate(r, cfg, samples, n - 1), cfg, samples[n - 1])
  }

  /** One step of the estimator on unbounded integers, without any cut to 32 bits. */
  function Exact(r: Rtt, cfg: Config, rtt: nat): Rtt
    requires r.srtt >= 0 && r.rttval >= 0
  {
    var delta := if rtt >= r.srtt then rtt - r.srtt else r.srtt - rtt;
    var srtt := if r.srtt == 0 then rtt else Max(1, (7 * r.srtt + rtt) / 8);
    var rttval := if r.srtt == 0 then rtt / 2 else (3 * r.rttval + delta) / 4;
    Rtt(srtt, rttval, Min(Max(cfg.minRto, srtt + Max(cfg.interval, 4 * rttval)), RTO_MAX))
  }

  /** The minimum timeouts that `ikcp_create` and `ikcp_nodelay` set. */
  predicate Usual(cfg: Config) {
    cfg.minRto == 30 || cfg.minRto == 100
  }

  /** Smoothed time and deviation within the range [m, R] of the samples. */
  ghost predicate Within(r: Rtt, m: nat, R: nat) {
    m <= r.srtt <= R && 0 <= r.rttval <= R
  }

  lemma StepWithin(r: Rtt, cfg: Config, rtt: int, m: nat, R: nat)
    requires m <= rtt <= R && 1 <= R
    requires Within(r, m, R) || r.srtt == 0 == r.rttval
    ensures Within(Exact(r, cfg, rtt), m, R)
  {
  }

  lemma SmallIsExact(x: int)
    requires -TWO31 <= x < TWO31
    ensures I32(x) == x
    ensures 0 <= x ==> U32(x) == x
  {
  }

  /** The sums and products of a step: the two weighted sums fit a signed word, and the timeout before it
      is cut to its bounds fits an unsigned one. */
  predicate NoOverflow(r: Rtt, cfg: Config, rtt: nat)
    requires r.srtt >= 0 && r.rttval >= 0
  {
    var e, delta := Exact(r, cfg, rtt), rtt - r.srtt;
    && 7 * r.srtt + rtt < TWO31
    && -TWO31 <= delta < TWO31 && 3 * r.rttval + Max(delta, 0 - delta) < TWO31
    && 4 * e.rttval < TWO31 && e.srtt + Max(cfg.interval, 4 * e.rttval) < TWO32
  }

  lemma StepFits(r: Rtt, cfg: Config, rtt: nat, R: nat)
    requires cfg.interval < TWO31 && 8 * R < TWO31 && rtt <= R && 1 <= R && Within(r, 0, R)
    ensures NoOverflow(r, cfg, rtt)
  {
    StepWithin(r, cfg, rtt, 0, R);
    hide Exact;
  }

  /** Below 2^28 the 32-bit computation overflows nowhere, and so gives the exact result. */
  lemma StepExact(r: Rtt, cfg: Config, rtt: nat, R: nat)
    requires Usual(cfg) && cfg.interval < TWO31
    requires 8 * R < TWO31 && rtt <= R && 1 <= R && Within(r, 0, R)
    ensures NoOverflow(r, cfg, rtt) && UpdateAck(r, cfg, rtt) == Exact(r, cfg, rtt)
  {
    var e := Exact(r, cfg, rtt);
    hide I32, U32, NoOverflow;
    StepFits(r, cfg, rtt, R);
    StepWithin(r, cfg, rtt, 0, R);
    SmallIsExact(7 * r.srtt);
    SmallIsExact(7 * r.srtt + rtt);
    SmallIsExact(rtt - r.srtt);
    SmallIsExact(3 * r.rttval);
    SmallIsExact(e.rttval);
    SmallIsExact(cfg.minRto);
    U32Fits(4 * e.rttval);
    U32Fits(e.srtt + Max(cfg.interval, 4 * e.rttval));
  }

  /** Over any sequence of samples in [m, R] the smoothed time stays in that range and the
      deviation is at most R. */
  lemma {:induction false} EstimateWithin(cfg: Config, samples: seq<int>, n: nat, m: nat, R: nat)
    requires Usual(cfg) && cfg.interval < TWO31
    requires 1 <= R && 8 * R < TWO31
    requires n <= |samples| && forall i :: 0 <= i < |samples| ==> m <= samples[i] <= R
    ensures n > 0 ==> Within(Estimate(Rtt(0, 0, RTO_DEF), cfg, samples, n), m, R)
  {
    hide UpdateAck, Exact;
    if n > 0 {
      var r := Estimate(Rtt(0, 0, RTO_DEF), cfg, samples, n - 1);
      EstimateWithin(cfg, samples, n - 1, m, R);
      StepExact(r, cfg, samples[n - 1], R);
      StepWithin(r, cfg, samples[n - 1], m, R);
    }
  }

  /** The estimator on unbounded integers after the first `n` samples. */
  function Ideal(cfg: Config, samples: seq<int>, n: nat): (r: Rtt)
    requires n <= |samples| && forall i :: 0 <= i < |samples| ==> samples[i] >= 0
    ensures r.srtt >= 0 && r.rttval >= 0
  {
    if n == 0 then Rtt(0, 0, RTO_DEF) else Exact(Ideal(cfg, samples, n - 1), cfg, samples[n - 1])
  }

  lemma {:induction false} EstimateExact(cfg: Config, samples: seq<int>, n: nat, R: nat)
    requires Usual(cfg) && cfg.interval < TWO31
    requires 1 <= R && 8 * R < TWO31
    requires n <= |samples| && forall i :: 0 <= i < |samples| ==> 0 <= samples[i] <= R
    ensures Estimate(Rtt(0, 0, RTO_DEF), cfg, samples, n) == Ideal(cfg, samples, n)
  {
    hide UpdateAck, Exact;
    if n > 0 {
      EstimateExact(cfg, samples, n - 1, R);
      EstimateWithin(cfg, samples, n - 1, 0, R);
      StepExact(Ideal(cfg, samples, n - 1), cfg, samples[n - 1], R);
    }
  }

  /** The limit is sharp: the second of two samples of 2^28 ms makes the product wrap. */
  lemma LargeSampleWraps(cfg: Config)
    ensures var samples := [0x1000_0000, 0x1000_0000];
            && Estimate(Rtt(0, 0, RTO_DEF), cfg, samples, 1).srtt == 0x1000_0000
            && Estimate(Rtt(0, 0, RTO_DEF), cfg, samples, 1).rttval == 0x800_0000
            && Estimate(Rtt(0, 0, RTO_DEF), cfg, samples, 2).srtt == 1
            && Ideal(cfg, samples, 2).srtt == 0x1000_0000
  {
    var samples := [0x1000_0000, 0x1000_0000];
    assert Estimate(Rtt(0, 0, RTO_DEF), cfg, samples, 0) == Rtt(0, 0, RTO_DEF) == Ideal(cfg, samples, 0);
    var r := Estimate(Rtt(0, 0, RTO_DEF), cfg, samples, 1);
    assert r == UpdateAck(Rtt(0, 0, RTO_DEF), cfg, 0x1000_0000);
    assert Estimate(Rtt(0, 0, RTO_DEF), cfg, samples, 2) == UpdateAck(r, cfg, 0x1000_0000);
    var i := Ideal(cfg, samples, 1);
    assert i == Exact(Rtt(0, 0, RTO_DEF), cfg, 0x1000_0000);
    assert Ideal(cfg, samples, 2) == Exact(i, cfg, 0x1000_0000);
  }

  // ---------------------------------------------------------------- the samples of a run

  /** The samples that the first `n` segments of a datagram give. */
  function HeardIn(s: State, ws: seq<Wire>, n: nat): seq<int>
    requires n <= |ws|
  {
    if n == 0 then []
    else
      HeardIn(s, ws, n - 1)
      + (if ws[n - 1].cmd == CMD_ACK && Diff(s.timer.current, ws[n - 1].ts) >= 0
         then [Diff(s.timer.current, ws[n - 1].ts)] else [])
  }

  function HeardBy(s: State, op: Op): seq<int> {
    if op.Input? && I32(|op.datagram|) >= OVERHEAD
    then
      var ws := Parse(s.cfg.conv, op.datagram).ws;
      HeardIn(s, ws, |ws|)
    else []
  }

  /** Every sample of the first `n` calls. */
  function Heard(cfg: Config, ops: seq<Op>, n: nat): seq<int>
    requires n <= |ops|
  {
    if n == 0 then [] else Heard(cfg, ops, n - 1) + HeardBy(After(cfg, ops, n - 1), ops[n - 1])
  }

  lemma {:induction false} EstimateSplit(r: Rtt, cfg: Config, a: seq<int>, b: seq<int>, n: nat)
    requires n <= |b|
    ensures Estimate(r, cfg, a + b, |a| + n) == Estimate(Estimate(r, cfg, a, |a|), cfg, b, n)
  {
    hide UpdateAck;
    if n == 0 {
      EstimatePrefix(r, cfg, a, b, |a|);
    } else {
      EstimateSplit(r, cfg, a, b, n - 1);
    }
  }

  lemma {:induction false} EstimatePrefix(r: Rtt, cfg: Config, a: seq<int>, b: seq<int>, n: nat)
    requires n <= |a|
    ensures Estimate(r, cfg, a + b, n) == Estimate(r, cfg, a, n)
  {
    hide UpdateAck;
    if n > 0 {
      EstimatePrefix(r, cfg, a, b, n - 1);
    }
  }

  lemma {:induction false} RunHears(s: State, ws: seq<Wire>, n: nat)
    requires n <= |ws|
    ensures var h := HeardIn(s, ws, n);
            ProcessRun(s, ws, n).rtt == Estimate(s.rtt, s.cfg, h, |h|)
  {
    hide UpdateAck, HearAck, AcceptPush, QueueAck, Diff, Estimate;
    if n == 0 {
      EstimateNone(s.rtt, s.cfg);
    } else {
      RunHears(s, ws, n - 1);
      var before := HeardIn(s, ws, n - 1);
      var w := ws[n - 1];
      if w.cmd == CMD_ACK && Diff(s.timer.current, w.ts) >= 0 {
        EstimateOne(s.rtt, s.cfg, before, Diff(s.timer.current, w.ts));
      } else {
        assert before + [] == before;
      }
    }
  }

  lemma EstimateNone(r: Rtt, cfg: Config)
    ensures Estimate(r, cfg, [], 0) == r
  {
  }

  lemma EstimateOne(r: Rtt, cfg: Config, a: seq<int>, x: int)
    ensures Estimate(r, cfg, a + [x], |a| + 1) == UpdateAck(Estimate(r, cfg, a, |a|), cfg, x)
  {
    hide UpdateAck;
    EstimatePrefix(r, cfg, a, [x], |a|);
  }

  lemma ApplyHears(s: State, op: Op)
    ensures var h := HeardBy(s, op);
            Apply(s, op).rtt == Estimate(s.rtt, s.cfg, h, |h|)
  {
    hide UpdateAck, Estimate, Parse, ProcessRun, HeardIn, NoteRun, ParseFastack, Grow, Diff, I32;
    hide SendQueue, RecvCheck, AfterRecv, FlushSender, TransmitAll, LinkDead, CountDue, Backoff, FlushWires, Datagrams;
    EstimateNone(s.rtt, s.cfg);
    if op.Input? && I32(|op.datagram|) >= OVERHEAD {
      var ws := Parse(s.cfg.conv, op.datagram).ws;
      RunHears(s, ws, |ws|);
    }
  }

  lemma {:induction false} AfterHears(cfg: Config, ops: seq<Op>, n: nat)
    requires n <= |ops|
    ensures var h := Heard(cfg, ops, n);
            After(cfg, ops, n).rtt == Estimate(Rtt(0, 0, RTO_DEF), cfg, h, |h|)
    ensures After(cfg, ops, n).cfg == cfg
  {
    hide UpdateAck, Estimate, Apply, HeardBy;
    var r := Rtt(0, 0, RTO_DEF);
    if n == 0 {
      EstimateNone(r, cfg);
    } else {
      var s := After(cfg, ops, n - 1);
      AfterHears(cfg, ops, n - 1);
      ApplyHears(s, ops[n - 1]);
      ApplySameConfig(s, ops[n - 1]);
      var h := HeardBy(s, ops[n - 1]);
      EstimateSplit(r, cfg, Heard(cfg, ops, n - 1), h, |h|);
    }
  }

  /** In a run whose samples lie in [m, R], so does the smoothed time once there is a sample. */
  lemma RunWithin(cfg: Config, ops: seq<Op>, n: nat, m: nat, R: nat)
    requires Usual(cfg) && cfg.interval < TWO31
    requires n <= |ops| && 1 <= R && 8 * R < TWO31
    requires var h := Heard(cfg, ops, n);
             h != [] && forall i :: 0 <= i < |h| ==> m <= h[i] <= R
    ensures Within(After(cfg, ops, n).rtt, m, R)
  {
    hide After, Heard, Estimate, UpdateAck;
    AfterHears(cfg, ops, n);
    EstimateWithin(cfg, Heard(cfg, ops, n), |Heard(cfg, ops, n)|, m, R);
  }

  /** Such a run computes what the estimator on unbounded integers would. */
  lemma RunExact(cfg: Config, ops: seq<Op>, n: nat, R: nat)
    requires Usual(cfg) && cfg.interval < TWO31
    requires n <= |ops| && 1 <= R && 8 * R < TWO31
    requires var h := Heard(cfg, ops, n); forall i :: 0 <= i < |h| ==> 0 <= h[i] <= R
    ensures var h := Heard(cfg, ops, n); After(cfg, ops, n).rtt == Ideal(cfg, h, |h|)
  {
    hide After, Heard, Estimate, UpdateAck, Ideal;
    AfterHears(cfg, ops, n);
    EstimateExact(cfg, Heard(cfg, ops, n), |Heard(cfg, ops, n)|, R);
  }

  lemma {:induction false} EstimateRto(cfg: Config, samples: seq<int>, n: nat)
    requires Usual(cfg) && n <= |samples|
    ensures 30 <= Estimate(Rtt(0, 0, RTO_DEF), cfg, samples, n).rto <= 60000
  {
    if n > 0 {
      UpdateRto(Estimate(Rtt(0, 0, RTO_DEF), cfg, samples, n - 1), cfg, samples[n - 1]);
    }
  }

  lemma UpdateRto(r: Rtt, cfg: Config, rtt: int)
    requires Usual(cfg)
    ensures cfg.minRto <= UpdateAck(r, cfg, rtt).rto <= RTO_MAX
  {
    hide I32, TruncDiv;
  }

  /** Whatever arrives, and even if a product wraps, the timeout stays within its bounds. */
  lemma ReachableRto(cfg: Config, ops: seq<Op>, n: nat)
    requires Usual(cfg) && n <= |ops|
    ensures 30 <= After(cfg, ops, n).rtt.rto <= 60000
  {
    hide After, Heard, Estimate, UpdateAck;
    AfterHears(cfg, ops, n);
    EstimateRto(cfg, Heard(cfg, ops, n), |Heard(cfg, ops, n)|);
  }
}
