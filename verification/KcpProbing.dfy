/**
 Window probing, and what a flush leaves behind: which probes it sends, how the probes back off, and
 that nothing is overdue after it.
 */
module KcpProbing {
  import opened Numbers
  import opened Serial
  import opened KcpWire
  import opened KcpSpec
  import opened KcpRuns
  import KcpTimer

  predicate Closed(s: State) {
    s.cc.rmtWnd == 0
  }

  /** A probe is due: the remote window was closed at an earlier flush too, and its wait is over. */
  predicate ProbeDue(s: State) {
    Closed(s) && s.probe.wait != 0 && Diff(s.timer.current, s.probe.ts) >= 0
  }

  predicate Carries(ws: seq<Wire>, cmd: byte, i: nat)
    requires i < |ws|
  {
    ws[i].cmd == cmd
  }

  ghost predicate Sends(ws: seq<Wire>, cmd: byte) {
    exists i :: 0 <= i < |ws| && Carries(ws, cmd, i)
  }

  lemma SendsConcat(a: seq<Wire>, b: seq<Wire>, cmd: byte)
    ensures Sends(a + b, cmd) <==> Sends(a, cmd) || Sends(b, cmd)
  {
    if Sends(a + b, cmd) {
      var i :| 0 <= i < |a + b| && Carries(a + b, cmd, i);
      assert if i < |a| then Carries(a, cmd, i) else Carries(b, cmd, i - |a|);
    }
    if Sends(a, cmd) {
      var i :| 0 <= i < |a| && Carries(a, cmd, i);
      assert Carries(a + b, cmd, i);
    }
    if Sends(b, cmd) {
      var i :| 0 <= i < |b| && Carries(b, cmd, i);
      assert Carries(a + b, cmd, |a| + i);
    }
  }

  lemma {:induction false} DataOnly(s: State, buf: seq<Segment>, n: nat, cmd: byte)
    requires n <= |buf| && cmd != CMD_PUSH
    requires forall i :: 0 <= i < |buf| ==> buf[i].cmd == CMD_PUSH
    ensures !Sends(DataWires(s, buf, n), cmd)
  {
    hide Sends, Due;
    if n == 0 {
      NoneSends(cmd);
    } else {
      DataOnly(s, buf, n - 1, cmd);
      OneSends(ToWire(Transmit(s, buf[n - 1])), cmd);
      TransmitsPush(s, buf[n - 1]);
      NoneSends(cmd);
      SendsConcat(DataWires(s, buf, n - 1),
                  if Due(s, buf[n - 1]) == Keep then [] else [ToWire(Transmit(s, buf[n - 1]))], cmd);
    }
  }

  lemma TransmitsPush(s: State, seg: Segment)
    requires seg.cmd == CMD_PUSH
    ensures ToWire(Transmit(s, seg)).cmd == CMD_PUSH
  {
  }

  lemma NoneSends(cmd: byte)
    ensures !Sends([], cmd)
  {
  }

  lemma OneSends(w: Wire, cmd: byte)
    ensures Sends([w], cmd) <==> w.cmd == cmd
  {
    assert w.cmd == cmd ==> Carries([w], cmd, 0);
  }

  lemma AcksOnly(s: State, cmd: byte)
    requires cmd != CMD_ACK
    ensures !Sends(AckWires(s, |s.acks|), cmd)
  {
  }

  lemma ProbesOnly(s: State, p: Probe)
    ensures Sends(ProbeWires(s, p), CMD_WASK) <==> p.askSend
    ensures Sends(ProbeWires(s, p), CMD_WINS) <==> p.askTell
  {
    var last := if s.acks == [] then Ack(0, 0) else s.acks[|s.acks| - 1];
    var ask := if p.askSend then [Control(s, CMD_WASK, last)] else [];
    var tell := if p.askTell then [Control(s, CMD_WINS, last)] else [];
    NoneSends(CMD_WASK);
    NoneSends(CMD_WINS);
    OneSends(Control(s, CMD_WASK, last), CMD_WASK);
    OneSends(Control(s, CMD_WASK, last), CMD_WINS);
    OneSends(Control(s, CMD_WINS, last), CMD_WASK);
    OneSends(Control(s, CMD_WINS, last), CMD_WINS);
    hide Sends;
    SendsConcat(ask, tell, CMD_WASK);
    SendsConcat(ask, tell, CMD_WINS);
  }

  /** A probe segment repeats number and time of the last acknowledgement of the flush, or has 0 in both
      fields if there is none. */
  lemma ProbesRepeat(s: State, i: nat)
    requires i < |ProbeWires(s, FlushProbe(s))|
    ensures var w, n := ProbeWires(s, FlushProbe(s))[i], |s.acks|;
            && (w.cmd == 83 || w.cmd == 84) && w.data == []
            && (if n > 0 then w.sn == s.acks[n - 1].sn && w.ts == s.acks[n - 1].ts else w.sn == 0 == w.ts)
  {
    hide FlushProbe;
  }

  /** A flush asks the peer for its window exactly if a probe is due (or was left over), and announces
      its own exactly if that was requested. */
  lemma ProbesSent(s: State)
    requires forall i :: 0 <= i < |FlushSender(s).buf| ==> FlushSender(s).buf[i].cmd == CMD_PUSH
    ensures Sends(FlushWires(s), CMD_WASK) <==> s.probe.askSend || ProbeDue(s)
    ensures Sends(FlushWires(s), CMD_WINS) <==> s.probe.askTell
  {
    var buf := FlushSender(s).buf;
    var acks, probes, data := AckWires(s, |s.acks|), ProbeWires(s, FlushProbe(s)), DataWires(s, buf, |buf|);
    AskMeans(s);
    AcksOnly(s, CMD_WASK);
    AcksOnly(s, CMD_WINS);
    ProbesOnly(s, FlushProbe(s));
    DataOnly(s, buf, |buf|, CMD_WASK);
    DataOnly(s, buf, |buf|, CMD_WINS);
    hide Sends, FlushProbe, FlushSender, AckWires, ProbeWires, DataWires, ProbeDue;
    SendsConcat(acks, probes, CMD_WASK);
    SendsConcat(acks, probes, CMD_WINS);
    SendsConcat(acks + probes, data, CMD_WASK);
    SendsConcat(acks + probes, data, CMD_WINS);
  }

  lemma AskMeans(s: State)
    ensures FlushProbe(s).askSend <==> s.probe.askSend || ProbeDue(s)
    ensures FlushProbe(s).askTell <==> s.probe.askTell
  {
    hide U32, Diff;
  }

  /** The wait between probes is 0 while the window is open, and from 7 to 120 seconds otherwise; no
      request for a probe is left over. */
  ghost predicate ProbeOk(p: Probe) {
    !p.askSend && (p.wait == 0 || PROBE_INIT <= p.wait <= PROBE_LIMIT)
  }

  /** The first closed flush starts the wait, each probe lengthens it by half, and an open window ends
      it. A probe is not due again before the new wait is over. */
  lemma ProbeBackoff(s: State, t: uint32)
    requires ProbeOk(s.probe)
    ensures var p := FlushProbe(s);
            && (!Closed(s) ==> p.wait == 0 && p.ts == 0)
            && (Closed(s) && s.probe.wait == 0 ==> p.wait == PROBE_INIT)
            && (ProbeDue(s) ==> p.wait == Min(s.probe.wait + s.probe.wait / 2, PROBE_LIMIT))
            && (ProbeDue(s) || (Closed(s) && s.probe.wait == 0) ==>
                  (Dist(s.timer.current, t) < p.wait ==> Diff(t, p.ts) < 0))
            && ProbeOk(p.(askSend := false, askTell := false))
  {
    var p := FlushProbe(s);
    U32Fits(s.probe.wait + s.probe.wait / 2);
    hide U32;
    if p.wait <= PROBE_LIMIT {
      NotYet(s.timer.current, t, p.wait);
    }
  }

  lemma NotYet(now: uint32, t: uint32, wait: nat)
    requires wait <= PROBE_LIMIT
    ensures Dist(now, t) < wait ==> Diff(t, U32(now + wait)) < 0
  {
  }

  lemma ApplyProbe(s: State, op: Op)
    requires ProbeOk(s.probe)
    ensures ProbeOk(Apply(s, op).probe)
  {
    hide SendQueue, RecvCheck, AfterRecv, ProcessRun, Parse, NoteRun, ParseFastack, Grow, Diff, I32, Slap,
         FlushSender, TransmitAll, LinkDead, CountDue, Backoff, FlushWires, Datagrams, FlushProbe, ProbeOk;
    ProbeBackoff(s, 0);
    match op
    case Input(datagram) =>
      var ws := Parse(s.cfg.conv, datagram).ws;
      RunProbe(s, ws, |ws|);
    case Recv(_) => TellKeeps(s.probe);
    case Update(now) => ProbeBackoff(s.(timer := NextTimer(s.timer, now, s.cfg.interval)), 0);
    case _ =>
  }

  lemma TellKeeps(p: Probe)
    requires ProbeOk(p)
    ensures ProbeOk(p.(askTell := true))
  {
  }

  lemma {:induction false} RunProbe(s: State, ws: seq<Wire>, n: nat)
    requires n <= |ws| && ProbeOk(s.probe)
    ensures ProbeOk(ProcessRun(s, ws, n).probe)
  {
    hide HearAck, AcceptPush, QueueAck, UpdateAck;
    if n > 0 {
      RunProbe(s, ws, n - 1);
    }
  }

  lemma {:induction false} ReachableProbe(cfg: Config, ops: seq<Op>, n: nat)
    requires n <= |ops|
    ensures ProbeOk(After(cfg, ops, n).probe)
  {
    hide ProbeOk, Apply;
    if n == 0 {
      CreateProbe(cfg);
    } else {
      ReachableProbe(cfg, ops, n - 1);
      ApplyProbe(After(cfg, ops, n - 1), ops[n - 1]);
    }
  }

  lemma CreateProbe(cfg: Config)
    ensures ProbeOk(Create(cfg).probe)
  {
  }

  // ---------------------------------------------------------------- after a flush

  /** A segment that has been sent has a positive timeout, far from 2^31, and its retransmission time is
      not exactly 2^31 away. */
  predicate Tempered(s: State, seg: Segment) {
    seg.xmit != 0 ==> 0 < seg.rto < TWO31 - RTO_MAX && Diff(seg.resendts, s.timer.current) != -TWO31
  }

  /** How long a transmitted segment waits for its acknowledgement: the estimated timeout, at first with
      an eighth on top unless in no-delay mode; after each timeout longer by that estimate, or by half of
      it; and the segment's own timeout after a fast retransmission, which clears the skip count. */
  lemma RetransmissionTimes(s: State, seg: Segment)
    requires 0 < s.rtt.rto <= RTO_MAX && Tempered(s, seg)
    ensures var t, rto, why := Transmit(s, seg), s.rtt.rto, Due(s, seg);
            var wait := Diff(t.resendts, s.timer.current);
            && (why == First ==> t.rto == rto && wait == rto + (if s.cfg.nodelay then 0 else rto / 8))
            && (why == Timeout ==> wait == t.rto == seg.rto + (if s.cfg.nodelay then rto / 2 else rto))
            && (why == Fast ==> wait == t.rto == seg.rto && t.fastack == 0)
            && (why == First || why == Timeout ==> t.fastack == seg.fastack)
            && (why != Keep ==> t.xmit == U32(seg.xmit + 1) && t.ts == s.timer.current && t.una == s.rcv.nxt)
            && (why == Keep ==> t == seg)
  {
    var cur, rto := s.timer.current, s.rtt.rto;
    var later := seg.rto + (if s.cfg.nodelay then rto / 2 else rto);
    U32Fits(rto);
    U32Fits(later);
    hide U32, Diff;
    Wait(cur, rto + RtoMin(s));
    Wait(cur, later);
    Wait(cur, seg.rto);
  }

  lemma Wait(now: uint32, d: nat)
    ensures d < TWO31 ==> Diff(U32(now + d), now) == d
  {
  }

  /** A buffered segment that is overdue again right after a flush has looked at it: it is kept although
      its time is exactly 2^31 away, or the timeout that it gets, read as signed, is not positive. */
  predicate Stuck(s: State, seg: Segment) {
    match Due(s, seg)
    case Keep => Diff(seg.resendts, s.timer.current) == -TWO31
    case First => false
    case Timeout => I32(seg.rto + (if s.cfg.nodelay then s.rtt.rto / 2 else s.rtt.rto)) <= 0
    case Fast => I32(seg.rto) <= 0
  }

  lemma OverdueIsStuck(s: State, seg: Segment)
    requires 0 < s.rtt.rto <= RTO_MAX
    ensures Diff(Transmit(s, seg).resendts, s.timer.current) <= 0 <==> Stuck(s, seg)
  {
    var cur, rto := s.timer.current, s.rtt.rto;
    var later := seg.rto + (if s.cfg.nodelay then rto / 2 else rto);
    U32Fits(rto);
    hide U32, Diff, I32;
    match Due(s, seg)
    case Keep => Opposite(seg.resendts, cur);
    case First => Ahead(cur, rto + RtoMin(s));
    case Timeout => AheadWord(cur, later);
    case Fast => AheadBy(cur, seg.rto);
  }

  lemma Ahead(now: uint32, d: nat)
    ensures 0 < d < TWO31 ==> Diff(U32(now + d), now) > 0
  {
  }

  lemma AheadBy(now: uint32, d: int)
    ensures Diff(U32(now + d), now) == I32(d)
  {
  }

  lemma AheadWord(now: uint32, d: nat)
    ensures Diff(U32(now + U32(d)), now) == I32(d)
  {
    AheadBy(now, U32(d));
  }

  lemma Opposite(a: uint32, b: uint32)
    ensures Diff(b, a) < 0 ==> (Diff(a, b) <= 0 <==> Diff(a, b) == -TWO31)
  {
  }

  lemma TemperedIsNotStuck(s: State, seg: Segment)
    requires 0 < s.rtt.rto <= RTO_MAX && Tempered(s, seg)
    ensures !Stuck(s, seg)
  {
    var later := seg.rto + (if s.cfg.nodelay then s.rtt.rto / 2 else s.rtt.rto);
    hide Diff, I32;
    ShortIsPositive(later);
    ShortIsPositive(seg.rto);
  }

  lemma ShortIsPositive(d: int)
    ensures 0 < d < TWO31 ==> I32(d) > 0
  {
  }

  /** After an update that flushes, `ikcp_check` at the same time names a later one, so that a caller that
      obeys it does not spin, exactly unless some segment is stuck. */
  lemma CheckMovesOn(s: State, now: uint32)
    requires UpdateFlushes(s.timer, now) && 0 < s.cfg.interval <= 10000 && 0 < s.rtt.rto <= RTO_MAX
    ensures var s1 := s.(timer := NextTimer(s.timer, now, s.cfg.interval));
            Check(KcpSpec.Update(s, now).0, now) == now
            <==> exists i :: 0 <= i < |FlushSender(s1).buf| && StuckAt(s1, FlushSender(s1).buf, i)
  {
    var s1 := s.(timer := NextTimer(s.timer, now, s.cfg.interval));
    var t, b := KcpSpec.Update(s, now).0, FlushSender(s1).buf;
    KcpTimer.FlushIsScheduled(s.timer, now, s.cfg.interval);
    KcpTimer.NextFlush(s.timer, now, s.cfg.interval, 0);
    FlushedBuffer(s1);
    hide NextTimer, UpdateFlushes, KcpSpec.Flush, Check, Transmit, TransmitAll, FlushSender, Stuck;
    NoDelay(now);
    KcpTimer.CheckIsNow(t, now);
    forall i | 0 <= i < |b| ensures KcpTimer.Overdue(t.snd.buf, i, now) <==> StuckAt(s1, b, i) {
      OverdueIsStuck(s1, b[i]);
    }
  }

  predicate StuckAt(s: State, buf: seq<Segment>, i: nat)
    requires i < |buf|
  {
    Stuck(s, buf[i])
  }

  lemma NoDelay(now: uint32)
    ensures U32(now + 0) == now
  {
  }

  lemma FlushedBuffer(s: State)
    requires s.timer.updated
    ensures var t, b := KcpSpec.Flush(s).0, FlushSender(s).buf;
            && t.timer == s.timer && t.cfg == s.cfg && |t.snd.buf| == |b|
            && forall i :: 0 <= i < |b| ==> t.snd.buf[i] == Transmit(s, b[i])
  {
    hide FlushSender, Transmit, LinkDead, CountDue, Backoff, FlushWires, Datagrams, FlushProbe;
  }
}
