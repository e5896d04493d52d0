/**
 What the send queue and the send buffer of an endpoint hold, whatever has been called on it and whatever
 bytes have arrived: segments that belong there, and, while the clock has not run too far, segments with
 sensible times. So what is proved of a flush from such a buffer holds in every reachable state.
 */
module KcpBuffered {
  import opened Serial
  import opened KcpWire
  import opened KcpSpec
  import opened KcpMessages
  import opened KcpPacking
  import opened KcpRuns
  import opened KcpProbing
  import KcpLink
  import KcpOverflow
  import KcpRtt
  import KcpSteps

  // ---------------------------------------------------------------- segments that belong here

  lemma CutQueued(cfg: Config, data: bytes) returns (q: seq<Segment>)
    requires FragmentCount(|data|, cfg.mss) <= 255
    ensures q == Cut(data, cfg.mss, FragmentCount(|data|, cfg.mss), cfg.stream)
    ensures forall i :: 0 <= i < |q| ==> Queued(cfg, q, i)
  {
    var count := FragmentCount(|data|, cfg.mss);
    CutShape(data, cfg.mss, count, cfg.stream);
    q := Cut(data, cfg.mss, count, cfg.stream);
    hide Cut, FragmentCount;
    forall i | 0 <= i < |q| ensures Queued(cfg, q, i) {
      assert CutAt(q, cfg.mss, cfg.stream, i);
    }
  }

  lemma TopUpQueued(cfg: Config, queue: seq<Segment>, data: bytes)
    requires forall i :: 0 <= i < |queue| ==> Queued(cfg, queue, i)
    ensures var q := TopUp(queue, data, cfg.mss).0;
            forall i :: 0 <= i < |q| ==> Queued(cfg, q, i)
  {
    var q := TopUp(queue, data, cfg.mss).0;
    forall i | 0 <= i < |q| ensures Queued(cfg, q, i) {
      assert Queued(cfg, queue, i);
    }
  }

  lemma QueuedConcat(cfg: Config, p: seq<Segment>, q: seq<Segment>)
    requires forall i :: 0 <= i < |p| ==> Queued(cfg, p, i)
    requires forall i :: 0 <= i < |q| ==> Queued(cfg, q, i)
    ensures forall i :: 0 <= i < |p + q| ==> Queued(cfg, p + q, i)
  {
    forall i | 0 <= i < |p + q| ensures Queued(cfg, p + q, i) {
      assert if i < |p| then Queued(cfg, p, i) else Queued(cfg, q, i - |p|);
    }
  }

  lemma SendOurs(s: State, data: bytes)
    requires AllOurs(s.cfg, s.snd)
    ensures AllOurs(s.cfg, KcpSpec.Send(s, data).0.snd)
  {
    hide TopUp, FragmentCount;
    var cfg := s.cfg;
    var (q, d) := if cfg.stream then TopUp(s.snd.queue, data, cfg.mss) else (s.snd.queue, data);
    TopUpQueued(cfg, s.snd.queue, data);
    if FragmentCount(|d|, cfg.mss) <= 255 {
      var more := CutQueued(cfg, d);
      QueuedConcat(cfg, q, more);
    }
  }

  lemma InputSending(s: State, datagram: bytes)
    requires I32(|datagram|) >= OVERHEAD
    ensures var p := Parse(s.cfg.conv, datagram);
            var heard := KcpLink.HearAll(s.snd, p.ws, |p.ws|);
            KcpSpec.Input(s, datagram).0.snd
            == if p.code == 0 then KcpSteps.AfterFastack(heard, NoteRun(p.ws, |p.ws|)) else heard
  {
    var p := Parse(s.cfg.conv, datagram);
    KcpLink.ProcessHears(s, p.ws, |p.ws|);
    hide Parse, ProcessRun, NoteRun, Grow, ParseFastack, KcpLink.HearAll;
  }

  lemma InputOurs(s: State, datagram: bytes)
    requires AllOurs(s.cfg, s.snd)
    ensures AllOurs(s.cfg, KcpSpec.Input(s, datagram).0.snd)
  {
    hide AllOurs, Parse, NoteRun, KcpLink.HearAll, KcpSteps.AfterFastack;
    if I32(|datagram|) >= OVERHEAD {
      var p := Parse(s.cfg.conv, datagram);
      InputSending(s, datagram);
      KcpSteps.HearAllOurs(s.cfg, s.snd, p.ws, |p.ws|);
      KcpSteps.FastackOurs(s.cfg, KcpLink.HearAll(s.snd, p.ws, |p.ws|), NoteRun(p.ws, |p.ws|));
      hide KcpSpec.Input;
    }
  }

  lemma FlushOurs(s: State)
    requires AllOurs(s.cfg, s.snd)
    ensures AllOurs(s.cfg, KcpSpec.Flush(s).0.snd)
  {
    AdmitOurs(s, s.snd, FlushWindow(s));
    TransmitOurs(s, FlushSender(s).buf);
    hide Admit, TransmitAll, LinkDead, CountDue, Backoff, FlushWires, Datagrams, Ours, Queued;
  }

  lemma ApplyOurs(s: State, op: Op)
    requires AllOurs(s.cfg, s.snd)
    ensures AllOurs(s.cfg, Apply(s, op).snd)
  {
    hide AllOurs, KcpSpec.Send, KcpSpec.Input, KcpSpec.Flush, RecvCheck, AfterRecv, NextTimer, UpdateFlushes;
    match op
    case Send(data) => SendOurs(s, data);
    case Recv(len) =>
    case Input(datagram) => InputOurs(s, datagram);
    case Flush => FlushOurs(s);
    case Update(now) => FlushOurs(s.(timer := NextTimer(s.timer, now, s.cfg.interval)));
  }

  /** In every reachable state, in message mode and in stream mode, each queued segment fits the payload
      limit and its fragment number one byte, and each buffered one is a data segment of the conversation. */
  lemma {:induction false} ReachableOurs(cfg: Config, ops: seq<Op>, n: nat)
    requires n <= |ops|
    ensures After(cfg, ops, n).cfg == cfg && AllOurs(cfg, After(cfg, ops, n).snd)
  {
    hide Apply, Ours, Queued;
    if n > 0 {
      ReachableOurs(cfg, ops, n - 1);
      ApplyOurs(After(cfg, ops, n - 1), ops[n - 1]);
      ApplySameConfig(After(cfg, ops, n - 1), ops[n - 1]);
    }
  }

  /** So in every reachable state the datagrams of a flush are 24 to mtu bytes of whole segments, together
      they are the segments of the flush in order, and the peer reads each as exactly its segments. */
  lemma ReachableFlush(cfg: Config, ops: seq<Op>, n: nat, peer: State)
    requires n <= |ops| && After(cfg, ops, n).timer.updated && peer.cfg.conv == cfg.conv
    ensures var s := After(cfg, ops, n);
            var groups := Split(FlushWires(s), cfg.Mtu());
            && KcpSpec.Flush(s).1 == Encodings(groups)
            && Joined(groups, |groups|) == FlushWires(s)
            && (forall g :: 0 <= g < |groups| ==> Fitting(groups, g, cfg.Mtu()))
            && (forall g :: 0 <= g < |groups| ==> ReadsAs(peer, KcpSpec.Flush(s).1[g], groups[g]))
  {
    ReachableOurs(cfg, ops, n);
    hide After, AllOurs, FlushWires, Split, KcpSpec.Flush, Joined, ReadsAs, Fitting;
    FlushThenInput(After(cfg, ops, n), peer);
  }

  lemma OursProbes(s: State)
    requires AllOurs(s.cfg, s.snd)
    ensures Sends(FlushWires(s), CMD_WASK) <==> s.probe.askSend || ProbeDue(s)
    ensures Sends(FlushWires(s), CMD_WINS) <==> s.probe.askTell
  {
    AdmitOurs(s, s.snd, FlushWindow(s));
    hide FlushWires, Sends, ProbeDue, Admit;
    forall i | 0 <= i < |FlushSender(s).buf| ensures FlushSender(s).buf[i].cmd == CMD_PUSH {
      assert Ours(s.cfg, FlushSender(s).buf, i);
    }
    ProbesSent(s);
  }

  /** And a flush asks for the remote window exactly if a probe is due, and announces its own exactly if
      that was requested. */
  lemma ReachableProbesSent(cfg: Config, ops: seq<Op>, n: nat)
    requires n <= |ops|
    ensures var s := After(cfg, ops, n);
            && (Sends(FlushWires(s), CMD_WASK) <==> s.probe.askSend || ProbeDue(s))
            && (Sends(FlushWires(s), CMD_WINS) <==> s.probe.askTell)
  {
    ReachableOurs(cfg, ops, n);
    hide After, FlushWires, Sends, ProbeDue, AllOurs;
    OursProbes(After(cfg, ops, n));
  }

  // ---------------------------------------------------------------- segments with sensible times

  /** Times are counted from `t0`, and the clock has stayed within `span` after it: a transmitted segment
      has a timeout above 0 that is not longer than from `t0` to its retransmission. */
  predicate Timed(seg: Segment, t0: uint32, span: nat) {
    seg.xmit != 0 ==>
      0 < seg.rto <= span + RTO_MAX && seg.rto <= Dist(t0, seg.resendts) <= 2 * span + 2 * RTO_MAX
  }

  ghost predicate AllTimed(buf: seq<Segment>, t0: uint32, span: nat) {
    forall seg :: seg in buf ==> Timed(seg, t0, span)
  }

  ghost predicate TimesOk(s: State, t0: uint32, span: nat) {
    && (if s.timer.updated then Dist(t0, s.timer.current) <= span else s.snd.buf == [])
    && AllTimed(s.snd.buf, t0, span)
  }

  /** 2^30 ms, about twelve days, less one minute. */
  predicate Short(span: nat) {
    2 * span + 2 * RTO_MAX < TWO31
  }

  lemma LaterBy(t0: uint32, t: uint32, d: nat)
    requires Dist(t0, t) + d < TWO32
    ensures Dist(t0, U32(t + d)) == Dist(t0, t) + d
  {
    U32Shift(t - t0, d);
  }

  lemma Compared(t0: uint32, t: uint32, u: uint32)
    requires Dist(t0, t) < TWO31 && Dist(t0, u) < TWO31
    ensures Diff(t, u) == Dist(t0, t) - Dist(t0, u) > -TWO31
  {
    hide U32, Diff;
    UnwrapWraps(t0, t);
    UnwrapWraps(t0, u);
    DiffOfIndices(Unwrap(t0, t), Unwrap(t0, u));
  }

  /** A segment that times out has waited for as long as its timeout, so that the timeout has stayed within
      the span. */
  lemma TransmitTimed(s: State, seg: Segment, t0: uint32, span: nat)
    requires Short(span) && Timed(seg, t0, span) && Dist(t0, s.timer.current) <= span
    requires 1 < s.rtt.rto <= RTO_MAX
    ensures Timed(Transmit(s, seg), t0, span)
  {
    var cur, rto := s.timer.current, s.rtt.rto;
    var later := seg.rto + (if s.cfg.nodelay then rto / 2 else rto);
    U32Fits(rto);
    U32Fits(later);
    hide U32, Diff, Dist;
    match Due(s, seg)
    case Keep =>
    case First => LaterBy(t0, cur, rto + RtoMin(s));
    case Timeout =>
      Compared(t0, cur, seg.resendts);
      LaterBy(t0, cur, later);
    case Fast => LaterBy(t0, cur, seg.rto);
  }

  lemma FlushTimes(s: State, t0: uint32, span: nat)
    requires Short(span) && TimesOk(s, t0, span) && 1 < s.rtt.rto <= RTO_MAX
    ensures TimesOk(KcpSpec.Flush(s).0, t0, span)
    ensures s.timer.updated ==> AllTimed(FlushSender(s).buf, t0, span)
  {
    hide Timed, Transmit, KcpSpec.Flush, FlushSender, Dist;
    if s.timer.updated {
      var b, out := FlushSender(s).buf, KcpSpec.Flush(s).0.snd.buf;
      FlushedBuffer(s);
      AdmittedTimes(s, t0, span);
      forall seg | seg in out ensures Timed(seg, t0, span) {
        var i :| 0 <= i < |out| && out[i] == seg;
        assert b[i] in b;
        TransmitTimed(s, b[i], t0, span);
      }
    } else {
      NoFlush(s);
    }
  }

  lemma NoFlush(s: State)
    requires !s.timer.updated
    ensures KcpSpec.Flush(s).0 == s
  {
  }

  lemma AdmittedTimes(s: State, t0: uint32, span: nat)
    requires AllTimed(s.snd.buf, t0, span)
    ensures AllTimed(FlushSender(s).buf, t0, span)
  {
    hide Timed, AdmitCount, FlushWindow;
    var n := AdmitCount(s.snd, FlushWindow(s));
    var added := Numbered(s, s.snd, n);
    forall seg | seg in s.snd.buf + added ensures Timed(seg, t0, span) {
      if seg !in s.snd.buf {
        var i :| 0 <= i < n && added[i] == seg;
        NewTimed(seg, t0, span);
      }
    }
  }

  lemma NewTimed(seg: Segment, t0: uint32, span: nat)
    requires seg.xmit == 0
    ensures Timed(seg, t0, span)
  {
  }

  /** Hearing answers removes segments and changes none. */
  lemma HeardFrom(snd: Sender, w: Wire, seg: Segment)
    requires seg in HearAck(snd, w).buf
    ensures seg in snd.buf
  {
    hide UnaCount, FindAck;
    var n := UnaCount(snd.buf, w.una);
    var cut := snd.buf[n..];
    assert seg in cut;
  }

  lemma {:induction false} HearTimes(snd: Sender, ws: seq<Wire>, n: nat, t0: uint32, span: nat)
    requires n <= |ws| && AllTimed(snd.buf, t0, span)
    ensures AllTimed(KcpLink.HearAll(snd, ws, n).buf, t0, span)
  {
    hide HearAck, Timed;
    if n > 0 {
      HearTimes(snd, ws, n - 1, t0, span);
      var before := KcpLink.HearAll(snd, ws, n - 1);
      forall seg | seg in HearAck(before, ws[n - 1]).buf ensures Timed(seg, t0, span) {
        HeardFrom(before, ws[n - 1], seg);
      }
    }
  }

  lemma FastackTimes(snd: Sender, m: MaxAck, t0: uint32, span: nat)
    requires AllTimed(snd.buf, t0, span)
    ensures AllTimed(KcpSteps.AfterFastack(snd, m).buf, t0, span)
  {
    hide PastAck, InFlight, Dist;
    var out := KcpSteps.AfterFastack(snd, m).buf;
    forall seg | seg in out ensures Timed(seg, t0, span) {
      var i :| 0 <= i < |out| && out[i] == seg;
      assert snd.buf[i] in snd.buf;
    }
  }

  lemma InputTimes(s: State, datagram: bytes, t0: uint32, span: nat)
    requires TimesOk(s, t0, span)
    ensures TimesOk(KcpSpec.Input(s, datagram).0, t0, span)
  {
    hide Parse, NoteRun, KcpLink.HearAll, KcpSteps.AfterFastack, AllTimed, Dist;
    InputClock(s, datagram);
    if I32(|datagram|) >= OVERHEAD {
      var p := Parse(s.cfg.conv, datagram);
      InputSending(s, datagram);
      HearTimes(s.snd, p.ws, |p.ws|, t0, span);
      FastackTimes(KcpLink.HearAll(s.snd, p.ws, |p.ws|), NoteRun(p.ws, |p.ws|), t0, span);
      if s.snd.buf == [] {
        InputEmpty(s.snd, p.ws, |p.ws|, NoteRun(p.ws, |p.ws|));
      }
    }
    hide KcpSpec.Input;
  }

  lemma InputClock(s: State, datagram: bytes)
    ensures KcpSpec.Input(s, datagram).0.timer == s.timer
  {
    hide Parse, ProcessRun, NoteRun, Grow, ParseFastack;
  }

  lemma {:induction false} InputEmpty(snd: Sender, ws: seq<Wire>, n: nat, m: MaxAck)
    requires n <= |ws| && snd.buf == []
    ensures KcpLink.HearAll(snd, ws, n).buf == []
    ensures KcpSteps.AfterFastack(KcpLink.HearAll(snd, ws, n), m).buf == []
  {
    if n > 0 {
      InputEmpty(snd, ws, n - 1, m);
    }
  }

  lemma ApplyTimes(s: State, op: Op, t0: uint32, span: nat)
    requires Short(span) && TimesOk(s, t0, span) && 1 < s.rtt.rto <= RTO_MAX
    requires op.Update? ==> Dist(t0, op.now) <= span
    ensures TimesOk(Apply(s, op), t0, span)
  {
    hide KcpSpec.Input, KcpSpec.Flush, AllTimed, RecvCheck, AfterRecv, SendQueue, Dist, Diff;
    match op
    case Send(data) =>
    case Recv(len) =>
    case Input(datagram) => InputTimes(s, datagram, t0, span);
    case Flush => FlushTimes(s, t0, span);
    case Update(now) => FlushTimes(s.(timer := NextTimer(s.timer, now, s.cfg.interval)), t0, span);
  }

  /** The clock of a run from call `m` on: the send buffer was empty then, and every time since then lies
      within `span` after `t0`. */
  ghost predicate ClockWithin(cfg: Config, ops: seq<Op>, m: nat, t0: uint32, span: nat) {
    && m <= |ops| && Short(span)
    && After(cfg, ops, m).snd.buf == []
    && (After(cfg, ops, m).timer.updated ==> Dist(t0, After(cfg, ops, m).timer.current) <= span)
    && forall i :: m <= i < |ops| && ops[i].Update? ==> Dist(t0, ops[i].now) <= span
  }

  lemma {:induction false} ReachableTimes(cfg: Config, ops: seq<Op>, m: nat, n: nat, t0: uint32, span: nat)
    requires KcpRtt.Usual(cfg) && ClockWithin(cfg, ops, m, t0, span) && m <= n <= |ops|
    ensures TimesOk(After(cfg, ops, n), t0, span)
  {
    hide Apply, Dist, Timed;
    if n > m {
      ReachableTimes(cfg, ops, m, n - 1, t0, span);
      KcpRtt.ReachableRto(cfg, ops, n - 1);
      ApplyTimes(After(cfg, ops, n - 1), ops[n - 1], t0, span);
    }
  }

  lemma TimedIsTempered(s: State, seg: Segment, t0: uint32, span: nat)
    requires Short(span) && Timed(seg, t0, span) && Dist(t0, s.timer.current) <= span
    ensures Tempered(s, seg)
  {
    if seg.xmit != 0 {
      Compared(t0, seg.resendts, s.timer.current);
    }
    hide Diff, Dist;
  }

  /** Every segment that a flush in such a run looks at has a timeout far from 2^31 and a time that is not
      2^31 away, so `RetransmissionTimes` says how long it waits next. */
  lemma ReachableTempered(cfg: Config, ops: seq<Op>, m: nat, n: nat, t0: uint32, span: nat)
    requires KcpRtt.Usual(cfg) && ClockWithin(cfg, ops, m, t0, span) && m <= n <= |ops|
    requires After(cfg, ops, n).timer.updated
    ensures var s := After(cfg, ops, n); forall seg :: seg in FlushSender(s).buf ==> Tempered(s, seg)
  {
    ReachableTimes(cfg, ops, m, n, t0, span);
    KcpRtt.ReachableRto(cfg, ops, n);
    hide After, Tempered, FlushSender, Timed, Dist, KcpSpec.Flush;
    var s := After(cfg, ops, n);
    FlushTimes(s, t0, span);
    forall seg | seg in FlushSender(s).buf ensures Tempered(s, seg) {
      TimedIsTempered(s, seg, t0, span);
    }
  }

  /** In such a run `ikcp_check` right after an update that flushes always names a later time. */
  lemma CheckNeverSpins(cfg: Config, ops: seq<Op>, m: nat, n: nat, t0: uint32, span: nat, now: uint32)
    requires KcpRtt.Usual(cfg) && 0 < cfg.interval <= 10000
    requires ClockWithin(cfg, ops, m, t0, span) && m <= n <= |ops| && Dist(t0, now) <= span
    requires UpdateFlushes(After(cfg, ops, n).timer, now)
    ensures Check(KcpSpec.Update(After(cfg, ops, n), now).0, now) != now
  {
    ReachableTimes(cfg, ops, m, n, t0, span);
    KcpRtt.ReachableRto(cfg, ops, n);
    ReachableOurs(cfg, ops, n);
    hide After, AllOurs;
    Unstuck(After(cfg, ops, n), now, t0, span);
  }

  lemma Unstuck(s: State, now: uint32, t0: uint32, span: nat)
    requires Short(span) && TimesOk(s, t0, span) && 1 < s.rtt.rto <= RTO_MAX && Dist(t0, now) <= span
    requires 0 < s.cfg.interval <= 10000 && UpdateFlushes(s.timer, now)
    ensures Check(KcpSpec.Update(s, now).0, now) != now
  {
    var s1 := s.(timer := NextTimer(s.timer, now, s.cfg.interval));
    KcpTimer.FlushIsScheduled(s.timer, now, s.cfg.interval);
    CheckMovesOn(s, now);
    hide NextTimer, UpdateFlushes, FlushSender, Stuck, Timed, Dist, Check, KcpSpec.Update;
    FlushTimes(s1, t0, span);
    forall i | 0 <= i < |FlushSender(s1).buf| ensures !StuckAt(s1, FlushSender(s1).buf, i) {
      TimedIsTempered(s1, FlushSender(s1).buf[i], t0, span);
      TemperedIsNotStuck(s1, FlushSender(s1).buf[i]);
    }
  }

  /** One message, the update that sends it at time 0, and an update 2^31 ms after its retransmission time:
      there the segment is stuck, and `ikcp_check` names the current time. */
  lemma JumpSpins()
    ensures exists cfg, ops, n: nat, now ::
              n <= |ops| && KcpRtt.Usual(cfg) && UpdateFlushes(After(cfg, ops, n).timer, now)
              && Check(KcpSpec.Update(After(cfg, ops, n), now).0, now) == now
  {
    var cfg, ops, now := KcpOverflow.Settings(2), [Op.Send([9]), Op.Update(0)], 0x8000_00e1;
    KcpOverflow.Loads(2, ops, 1);
    KcpOverflow.Starts(2, 1);
    hide Apply, UpdateFlushes, Check, KcpSpec.Update, KcpOverflow.Started, KcpOverflow.Loaded;
    KcpOverflow.OneMore(cfg, ops, 1);
    hide After;
    JumpSticks(KcpOverflow.Started(2, 1), now);
  }

  lemma JumpSticks(s: State, now: uint32)
    requires s == KcpOverflow.Started(2, 1) && now == 0x8000_00e1
    ensures UpdateFlushes(s.timer, now) && Check(KcpSpec.Update(s, now).0, now) == now
  {
    var s1 := s.(timer := NextTimer(s.timer, now, s.cfg.interval));
    CheckMovesOn(s, now);
    assert FlushSender(s1).buf[0] == s.snd.buf[0] == KcpOverflow.InFlightSegment(0, 0);
    assert Due(s1, s.snd.buf[0]) == Keep;
    assert StuckAt(s1, FlushSender(s1).buf, 0);
  }
}
