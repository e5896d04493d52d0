/**
 Window probing over a run: while the peer announces a closed window, the probe goes out with the first flush
 after the wait is over, however many flushes there are before.
 */
module KcpProbeRuns {
  import opened Numbers
  import opened Serial
  import opened KcpWire
  import opened KcpSpec
  import opened KcpPacking
  import opened KcpRuns
  import opened KcpProbing
  import opened KcpWindow
  import KcpBuffered

  /** A wait that is running is left alone. */
  lemma WaitRuns(s: State)
    requires Closed(s) && s.probe.wait != 0 && Diff(s.timer.current, s.probe.ts) < 0
    ensures FlushProbe(s) == s.probe
  {
  }

  /** A flush that finds the window closed for the first time, or a probe due, sets the time of the next
      probe one wait from now: 7 s at first, and then half as long again, up to 120 s. */
  lemma WaitSet(s: State)
    requires ProbeOk(s.probe) && Closed(s) && (s.probe.wait == 0 || ProbeDue(s))
    ensures var p := FlushProbe(s);
            && p.wait == (if s.probe.wait == 0 then 7000 else Min(s.probe.wait + s.probe.wait / 2, 120000))
            && p.ts == U32(s.timer.current + p.wait)
  {
    U32Fits(s.probe.wait + s.probe.wait / 2);
    hide U32, Diff;
  }

  lemma NotDueBefore(t0: uint32, now: uint32, w: nat)
    requires w <= PROBE_LIMIT && Dist(t0, now) < TWO31
    ensures Diff(now, U32(t0 + w)) < 0 <==> Dist(t0, now) < w
  {
  }

  lemma {:induction false} RunKeepsWait(s: State, ws: seq<Wire>, n: nat)
    requires n <= |ws|
    ensures var p := ProcessRun(s, ws, n).probe;
            p.wait == s.probe.wait && p.ts == s.probe.ts && p.askSend == s.probe.askSend
  {
    hide HearAck, AcceptPush, QueueAck, UpdateAck;
    if n > 0 {
      RunKeepsWait(s, ws, n - 1);
    }
  }

  /** Only a flush touches the wait. */
  lemma CallKeepsWait(s: State, op: Op)
    requires !FlushRuns(s, op)
    ensures Apply(s, op).probe.wait == s.probe.wait && Apply(s, op).probe.ts == s.probe.ts
  {
    hide SendQueue, RecvCheck, AfterRecv, ProcessRun, Parse, NoteRun, ParseFastack, Grow, Diff, NextTimer,
         UpdateFlushes, FlushSender, TransmitAll, LinkDead, CountDue, Backoff, FlushWires, Datagrams, FlushProbe;
    if op.Input? {
      var ws := Parse(s.cfg.conv, op.datagram).ws;
      RunKeepsWait(s, ws, |ws|);
    }
  }

  lemma FlushedProbe(s: State)
    requires s.timer.updated
    ensures KcpSpec.Flush(s).0.probe == FlushProbe(s).(askSend := false, askTell := false)
  {
    hide FlushSender, TransmitAll, LinkDead, CountDue, Backoff, FlushWires, Datagrams, FlushProbe;
  }

  /** The flush of call `n`. */
  function FlushState(cfg: Config, ops: seq<Op>, n: nat): State
    requires n < |ops|
  {
    AtFlush(After(cfg, ops, n), ops[n])
  }

  ghost predicate Flushing(cfg: Config, ops: seq<Op>, n: nat)
    requires n < |ops|
  {
    FlushRuns(After(cfg, ops, n), ops[n])
  }

  /** How long after the flush of call `m` the flush of call `n` runs. */
  function Since(cfg: Config, ops: seq<Op>, m: nat, n: nat): nat
    requires m < |ops| && n < |ops|
  {
    Dist(FlushState(cfg, ops, m).timer.current, FlushState(cfg, ops, n).timer.current)
  }

  lemma FlushStateIs(cfg: Config, ops: seq<Op>, n: nat)
    requires n < |ops| && Flushing(cfg, ops, n)
    ensures var s, f := After(cfg, ops, n), FlushState(cfg, ops, n);
            && f == s.(timer := f.timer) && f.timer.updated
            && After(cfg, ops, n + 1) == KcpSpec.Flush(f).0
  {
    var s := After(cfg, ops, n);
    hide KcpSpec.Flush, After, UpdateFlushes;
    TickUpdates(s.timer, if ops[n].Update? then ops[n].now else 0, s.cfg.interval);
    NextCall(cfg, ops, n);
    hide NextTimer;
  }

  lemma NextCall(cfg: Config, ops: seq<Op>, n: nat)
    requires n < |ops|
    ensures After(cfg, ops, n + 1) == Apply(After(cfg, ops, n), ops[n])
  {
    hide Apply;
  }

  lemma TickUpdates(t: Timer, now: uint32, interval: uint32)
    ensures NextTimer(t, now, interval).updated
  {
    hide Diff;
  }

  /** A wait that starts or is renewed in the flush of call `m`, and has not been over in any flush before
      call `n`. */
  ghost predicate Waiting(cfg: Config, ops: seq<Op>, m: nat, n: nat) {
    && m < n <= |ops| && Flushing(cfg, ops, m)
    && (var f := FlushState(cfg, ops, m); Closed(f) && (f.probe.wait == 0 || ProbeDue(f)))
    && (forall i :: m < i <= n ==> Closed(After(cfg, ops, i)))
    && (forall i :: m < i < n ==> Early(cfg, ops, m, i))
  }

  ghost predicate Early(cfg: Config, ops: seq<Op>, m: nat, i: nat)
    requires m < |ops| && i < |ops|
  {
    Flushing(cfg, ops, i) ==> Since(cfg, ops, m, i) < After(cfg, ops, m + 1).probe.wait
  }

  /** Until then the wait and the time of the probe stay. */
  lemma {:induction false} WaitStays(cfg: Config, ops: seq<Op>, m: nat, n: nat)
    requires Waiting(cfg, ops, m, n)
    ensures var p, first := After(cfg, ops, n).probe, After(cfg, ops, m + 1).probe;
            && p.wait == first.wait && 7000 <= p.wait <= 120000
            && p.ts == U32(FlushState(cfg, ops, m).timer.current + p.wait)
    decreases n
  {
    hide After, FlushRuns, FlushState, Since, KcpSpec.Flush, FlushProbe, ProbeOk, ProbeDue, Apply, U32;
    if n == m + 1 {
      WaitStarts(cfg, ops, m);
    } else {
      assert Early(cfg, ops, m, n - 1) && Closed(After(cfg, ops, n - 1));
      WaitStays(cfg, ops, m, n - 1);
      if Flushing(cfg, ops, n - 1) {
        WaitGoesOn(cfg, ops, m, n - 1);
      } else {
        NextCall(cfg, ops, n - 1);
        CallKeepsWait(After(cfg, ops, n - 1), ops[n - 1]);
      }
    }
  }

  lemma WaitStarts(cfg: Config, ops: seq<Op>, m: nat)
    requires m < |ops| && Flushing(cfg, ops, m)
    requires var f := FlushState(cfg, ops, m); Closed(f) && (f.probe.wait == 0 || ProbeDue(f))
    ensures var p := After(cfg, ops, m + 1).probe;
            7000 <= p.wait <= 120000 && p.ts == U32(FlushState(cfg, ops, m).timer.current + p.wait)
  {
    hide After, FlushRuns, FlushState, KcpSpec.Flush, FlushProbe, ProbeDue, U32;
    FlushStateIs(cfg, ops, m);
    ReachableProbe(cfg, ops, m);
    WaitSet(FlushState(cfg, ops, m));
    FlushedProbe(FlushState(cfg, ops, m));
  }

  lemma WaitGoesOn(cfg: Config, ops: seq<Op>, m: nat, i: nat)
    requires m < |ops| && i < |ops| && Flushing(cfg, ops, i) && Closed(After(cfg, ops, i))
    requires var p := After(cfg, ops, i).probe;
             && 7000 <= p.wait <= 120000 && p.ts == U32(FlushState(cfg, ops, m).timer.current + p.wait)
             && Since(cfg, ops, m, i) < p.wait
    ensures var p, r := After(cfg, ops, i).probe, After(cfg, ops, i + 1).probe; r.wait == p.wait && r.ts == p.ts
  {
    hide After, FlushRuns, FlushState, KcpSpec.Flush, FlushProbe, U32, Diff, Dist;
    var f := FlushState(cfg, ops, i);
    FlushStateIs(cfg, ops, i);
    NotDueBefore(FlushState(cfg, ops, m).timer.current, f.timer.current, f.probe.wait);
    WaitRuns(f);
    FlushedProbe(f);
  }

  /** While every announcement is a window of 0, a flush sends a probe exactly if the wait that started or was
      renewed last is over by then: none before, and the first one from then on does. */
  lemma ProbeGoesOut(cfg: Config, ops: seq<Op>, m: nat, n: nat)
    requires Waiting(cfg, ops, m, n) && n < |ops| && Flushing(cfg, ops, n) && Since(cfg, ops, m, n) < TWO31
    ensures Sends(FlushWires(FlushState(cfg, ops, n)), CMD_WASK)
        <==> Since(cfg, ops, m, n) >= After(cfg, ops, m + 1).probe.wait
  {
    hide After, FlushRuns, FlushState, KcpSpec.Flush, FlushProbe, FlushWires, Sends, AllOurs, ProbeOk, Apply;
    var f := FlushState(cfg, ops, n);
    WaitStays(cfg, ops, m, n);
    FlushStateIs(cfg, ops, n);
    ReachableProbe(cfg, ops, n);
    KcpBuffered.ReachableOurs(cfg, ops, n);
    KcpBuffered.OursProbes(f);
    NoRequest(f.probe);
    hide U32, Diff, Dist;
    NotDueBefore(FlushState(cfg, ops, m).timer.current, f.timer.current, f.probe.wait);
  }

  lemma NoRequest(p: Probe)
    requires ProbeOk(p)
    ensures !p.askSend
  {
  }
}
