/**
 The byte accounting of the congestion window can fail in runs that every setter accepts: with an `mss`
 of 2^30 a byte count passes 2^32.
 */
module KcpOverflow {
  import opened Serial
  import opened KcpWire
  import opened KcpSpec
  import opened KcpPacking
  import opened KcpSender
  import opened KcpRuns
  import opened KcpCongestion

  const BIG: payload := 0x4000_0000

  /** No-congestion-control mode, fast retransmission after `resend` skips, and a huge mtu. */
  function Settings(resend: posint): Config {
    Config(0, BIG, 32, 32, false, false, resend, true, 100, 100, 20)
  }

  /** A segment after its first transmission at time 0. */
  function InFlightSegment(sn: uint32, skips: uint32): Segment {
    Segment(0, CMD_PUSH, 0, 32, 0, sn, 0, [9], 225, 200, skips, 1)
  }

  /** A datagram of one segment without payload. */
  function Note(cmd: byte, sn: uint32, una: uint32): bytes {
    EncodeAll([Wire(0, cmd, 0, 32, 0, sn, una, [])])
  }

  lemma InputOne(s: State, cmd: byte, sn: uint32, una: uint32)
    requires s.cfg.conv == 0 && KnownCommand(cmd)
    ensures var w := Wire(0, cmd, 0, 32, 0, sn, una, []);
            KcpSpec.Input(s, Note(cmd, sn, una)).0
            == AfterInput(Process(s, w), NoteAck(NoAck, w), s.snd.una)
  {
    var w := Wire(0, cmd, 0, 32, 0, sn, una, []);
    assert EncodeFrom([w], 1) == [];
    InputReads(s, [w]);
    hide KcpSpec.Input, Process, AfterInput, NoteAck, EncodeFrom;
    assert ProcessRun(s, [w], 1) == Process(ProcessRun(s, [w], 0), w);
    assert NoteRun([w], 1) == NoteAck(NoteRun([w], 0), w);
  }

  /** One more message of one byte in the queue. */
  lemma SendOne(s: State)
    requires !s.cfg.stream
    ensures KcpSpec.Send(s, [9]).0 == s.(snd := s.snd.(queue := s.snd.queue + [NewSegment(0, [9])]))
  {
    var d: bytes := [9];
    assert Cut(d, s.cfg.mss, 1, false) == [NewSegment(0, d)] + Cut(Rest(d, s.cfg.mss), s.cfg.mss, 0, false);
    assert [NewSegment(0, d)] + [] == [NewSegment(0, d)];
  }

  /** With `k` messages queued. */
  function Loaded(resend: posint, k: nat): State {
    Create(Settings(resend)).(snd := Sender(0, 0, seq(k, i => NewSegment(0, [9])), []))
  }

  /** With all of them sent once, at time 0. */
  function Started(resend: posint, k: uint32): State {
    State(Settings(resend), Sender(0, k, [], seq(k, i requires 0 <= i < k => InFlightSegment(i, 0))),
          Receiver(0, [], []), [], Rtt(0, 0, RTO_DEF), Congestion(1, BIG, 2, 32), Timer(0, 100, true),
          Probe(false, false, 0, 0), 0, false)
  }

  lemma {:induction false} Loads(resend: posint, ops: seq<Op>, k: nat)
    requires k <= |ops| && forall i :: 0 <= i < k ==> ops[i] == Op.Send([9])
    ensures After(Settings(resend), ops, k) == Loaded(resend, k)
  {
    if k == 0 {
      assert Loaded(resend, 0).snd.queue == [];
    } else {
      Loads(resend, ops, k - 1);
      SendOne(Loaded(resend, k - 1));
      hide KcpSpec.Send;
      assert Loaded(resend, k).snd.queue == Loaded(resend, k - 1).snd.queue + [NewSegment(0, [9])];
    }
  }

  /** The flush of the first update sends them all. */
  lemma Starts(resend: posint, k: uint32)
    requires k <= 32
    ensures Apply(Loaded(resend, k), Op.Update(0)) == Started(resend, k)
  {
    var s := Loaded(resend, k).(timer := Timer(0, 100, true));
    FirstTick();
    AllAdmitted(s, k);
    AllTransmitted(s, k);
    FlushesAll(s, k);
    hide KcpSpec.Flush, NextTimer, UpdateFlushes;
  }

  lemma FirstTick()
    ensures NextTimer(Timer(0, 100, false), 0, 100) == Timer(0, 100, true)
    ensures UpdateFlushes(Timer(0, 100, false), 0)
  {
  }

  /** The segments as they enter the send buffer. */
  function Fresh(k: uint32): seq<Segment> {
    seq(k, i requires 0 <= i < k => Segment(0, CMD_PUSH, 0, 32, 0, i, 0, [9], 0, 200, 0, 0))
  }

  lemma AllAdmitted(s: State, k: uint32)
    requires exists r: posint :: s == Loaded(r, k).(timer := Timer(0, 100, true))
    requires k <= 32
    ensures FlushSender(s) == Sender(0, k, [], Fresh(k))
  {
    AdmitsAll(s.snd, FlushWindow(s), 0, 0, 32);
    hide AdmitCount;
    assert Numbered(s, s.snd, k) == Fresh(k);
    assert s.snd.queue[k..] == [] && [] + Fresh(k) == Fresh(k);
  }

  lemma AllTransmitted(s: State, k: uint32)
    requires exists r: posint :: s == Loaded(r, k).(timer := Timer(0, 100, true))
    ensures TransmitAll(s, Fresh(k)) == Started(1, k).snd.buf
    ensures forall n :: 0 <= n <= k ==> CountDue(s, Fresh(k), n, Timeout) == 0 == CountDue(s, Fresh(k), n, Fast)
    ensures !LinkDead(s, Fresh(k), k)
  {
    forall n | 0 <= n <= k
      ensures CountDue(s, Fresh(k), n, Timeout) == 0 == CountDue(s, Fresh(k), n, Fast)
    {
      AllFirst(s, Fresh(k), n);
    }
  }

  lemma {:induction false} AllFirst(s: State, buf: seq<Segment>, n: nat)
    requires n <= |buf| && forall i :: 0 <= i < |buf| ==> buf[i].xmit == 0
    ensures CountDue(s, buf, n, Timeout) == 0 == CountDue(s, buf, n, Fast)
  {
    if n > 0 {
      AllFirst(s, buf, n - 1);
    }
  }

  lemma FlushesAll(s: State, k: uint32)
    requires exists r: posint :: s == Loaded(r, k).(timer := Timer(0, 100, true))
    requires FlushSender(s) == Sender(0, k, [], Fresh(k)) && TransmitAll(s, Fresh(k)) == Started(1, k).snd.buf
    requires CountDue(s, Fresh(k), k, Timeout) == 0 == CountDue(s, Fresh(k), k, Fast) && !LinkDead(s, Fresh(k), k)
    ensures KcpSpec.Flush(s).0 == Started(s.cfg.fastresend, k)
  {
    hide FlushSender, TransmitAll, CountDue, LinkDead, FlushWires, Datagrams;
  }

  /** The oldest segment is still missing, the next one has just been acknowledged. */
  lemma SkipsOne(s: State, n: uint32, j: uint32, f: nat, g: nat, rest: seq<Segment>)
    requires s.cfg.conv == 0 && 0 < j < n <= 32 && f < 10 && g < 10
    requires s.snd == Sender(0, n, [], [InFlightSegment(0, f), InFlightSegment(j, g)] + rest)
    requires rest != [] ==> j < rest[0].sn < 32
    ensures var t := KcpSpec.Input(s, Note(CMD_ACK, j, 0)).0;
            && t.snd == Sender(0, n, [], [InFlightSegment(0, f + 1)] + rest)
            && t.cfg == s.cfg && t.timer == s.timer && t.cc == s.cc.(rmtWnd := 32)
  {
    InputOne(s, CMD_ACK, j, 0);
    var w := Wire(0, CMD_ACK, 0, 32, 0, j, 0, []);
    HeardSkip(s.snd, w, j, f, g, rest);
    CountedSkip(Sender(0, n, [], [InFlightSegment(0, f)] + rest), j, f, rest);
    hide KcpSpec.Input, HearAck, ParseFastack, UpdateAck, Note, Grow;
    assert Diff(0, 0) == 0;
  }

  lemma HeardSkip(snd: Sender, w: Wire, j: uint32, f: nat, g: nat, rest: seq<Segment>)
    requires 0 < j < snd.nxt <= 32 && f < 10 && g < 10 && w.cmd == CMD_ACK && w.sn == j && w.una == 0
    requires snd == Sender(0, snd.nxt, [], [InFlightSegment(0, f), InFlightSegment(j, g)] + rest)
    ensures HearAck(snd, w) == Sender(0, snd.nxt, [], [InFlightSegment(0, f)] + rest)
  {
    var b := snd.buf;
    assert UnaCount(b, 0) == 0 by {
      assert !Covered(b, 0, 0);
    }
    assert b[0..] == b;
    assert FindAck(b, j, 1) == 1 && FindAck(b, j) == 1;
    assert RemoveAt(b, 1) == [InFlightSegment(0, f)] + rest;
  }

  lemma CountedSkip(snd: Sender, j: uint32, f: nat, rest: seq<Segment>)
    requires 0 < j < snd.nxt <= 32 && f < 10
    requires snd == Sender(0, snd.nxt, [], [InFlightSegment(0, f)] + rest)
    requires rest != [] ==> j < rest[0].sn < 32
    ensures ParseFastack(snd, j) == Sender(0, snd.nxt, [], [InFlightSegment(0, f + 1)] + rest)
  {
    var b := snd.buf;
    assert Reached(b, j, 0);
    assert rest != [] ==> !Reached(b, j, 1);
    assert PastAck(b, j, 1) == 1 && PastAck(b, j) == 1;
    assert BumpFastack(b, j, 1) == [InFlightSegment(0, f + 1)] + rest;
  }

  /** One segment in flight that has been skipped often enough: the flush sends it again at once and
      sets the window anew. */
  lemma Rescues(s: State, n: uint32, resend: posint)
    requires resend <= 2 && s.cfg == Settings(resend) && s.timer == Timer(0, 100, true) && 1 < n <= 5
    requires s.cc.rmtWnd == 32
    requires s.snd == Sender(0, n, [], [InFlightSegment(0, resend)])
    ensures var t := KcpSpec.Flush(s).0;
            && t.cc.cwnd == 2 + resend && t.cc.incr == U32((2 + resend) * BIG)
            && t.cc.ssthresh == 2 && t.cc.rmtWnd == 32
            && t.snd.una == 0 && t.snd.nxt == n && |t.snd.buf| == 1 && t.snd.buf[0].sn == 0 && t.cfg == s.cfg
  {
    var seg := InFlightSegment(0, resend);
    assert AdmitCount(s.snd, FlushWindow(s)) == 0;
    assert [seg] + [] == [seg];
    assert FlushSender(s) == s.snd;
    assert Due(s, seg) == Fast;
    assert CountDue(s, [seg], 1, Fast) == CountDue(s, [seg], 0, Fast) + 1;
    assert CountDue(s, [seg], 1, Timeout) == CountDue(s, [seg], 0, Timeout);
    FlushCc(s);
    FlushKeepsNumbers(s);
  }

  lemma FlushKeepsNumbers(s: State)
    requires s.timer.updated && FlushSender(s) == s.snd && |s.snd.buf| == 1
    ensures var t := KcpSpec.Flush(s).0;
            t.snd.una == s.snd.una && t.snd.nxt == s.snd.nxt && |t.snd.buf| == 1 && t.snd.buf[0].sn == s.snd.buf[0].sn
  {
    hide Backoff, CountDue, FlushWires, Datagrams, LinkDead, FlushSender;
  }

  /** Call number `n` of a run breaks the accounting. */
  ghost predicate Breaks(cfg: Config, ops: seq<Op>, n: nat) {
    && n < |ops|
    && Accounted(After(cfg, ops, n).cc, cfg.mss)
    && !Accounted(After(cfg, ops, n + 1).cc, cfg.mss)
  }

  /** Three messages, the last two acknowledged, and a flush before the timeout. */
  function FastRun(): seq<Op> {
    [Op.Send([9]), Op.Send([9]), Op.Send([9]), Op.Update(0), Op.Input(Note(CMD_ACK, 1, 0)),
     Op.Input(Note(CMD_ACK, 2, 0)), Op.Flush]
  }

  /** A fast retransmission breaks the accounting in a run. */
  lemma FastResendOverflows()
    ensures exists cfg, ops: seq<Op>, n: nat :: Breaks(cfg, ops, n) && ops[n] == Op.Flush
  {
    var cfg, ops := Settings(2), FastRun();
    hide KcpSpec.Input, KcpSpec.Flush, KcpSpec.Send, Note;
    FastRunSteps();
    assert Breaks(cfg, ops, 6);
  }

  lemma FastRunSteps()
    ensures Accounted(After(Settings(2), FastRun(), 6).cc, BIG)
    ensures !Accounted(After(Settings(2), FastRun(), 7).cc, BIG)
  {
    var cfg, ops := Settings(2), FastRun();
    Loads(2, ops, 3);
    Starts(2, 3);
    OneMore(cfg, ops, 3);
    InputApplies(KcpSpec.Input(KcpSpec.Input(Started(2, 3), Note(CMD_ACK, 1, 0)).0, Note(CMD_ACK, 2, 0)).0, ops[6]);
    FastStates();
    hide After, Apply, KcpSpec.Input, KcpSpec.Flush, KcpSpec.Update, Note, Started, Loaded, Accounted;
    OneMore(cfg, ops, 4);
    OneMore(cfg, ops, 5);
    OneMore(cfg, ops, 6);
    InputApplies(Started(2, 3), ops[4]);
    InputApplies(KcpSpec.Input(Started(2, 3), Note(CMD_ACK, 1, 0)).0, ops[5]);
  }

  lemma OneMore(cfg: Config, ops: seq<Op>, n: nat)
    requires n < |ops|
    ensures After(cfg, ops, n + 1) == Apply(After(cfg, ops, n), ops[n])
  {
    hide Apply;
  }

  lemma InputApplies(s: State, op: Op)
    ensures op.Input? ==> Apply(s, op) == KcpSpec.Input(s, op.datagram).0
    ensures op.Flush? ==> Apply(s, op) == KcpSpec.Flush(s).0
  {
    hide KcpSpec.Input, KcpSpec.Flush;
  }

  lemma FastStates()
    ensures var s5 := KcpSpec.Input(Started(2, 3), Note(CMD_ACK, 1, 0)).0;
            var s6 := KcpSpec.Input(s5, Note(CMD_ACK, 2, 0)).0;
            Accounted(s6.cc, BIG) && !Accounted(KcpSpec.Flush(s6).0.cc, BIG)
  {
    hide KcpSpec.Input, KcpSpec.Flush, Note;
    var s4 := Started(2, 3);
    assert s4.snd.buf == [InFlightSegment(0, 0), InFlightSegment(1, 0)] + [InFlightSegment(2, 0)];
    SkipsOne(s4, 3, 1, 0, 0, [InFlightSegment(2, 0)]);
    var s5 := KcpSpec.Input(s4, Note(CMD_ACK, 1, 0)).0;
    assert s5.snd.buf == [InFlightSegment(0, 1), InFlightSegment(2, 0)] + [];
    SkipsOne(s5, 3, 2, 1, 0, []);
    var s6 := KcpSpec.Input(s5, Note(CMD_ACK, 2, 0)).0;
    assert [InFlightSegment(0, 2)] + [] == [InFlightSegment(0, 2)];
    Rescues(s6, 3, 2);
  }

  /** Two messages, the second acknowledged, a flush that sends the first again, and then its
      acknowledgement. */
  function GrowRun(): seq<Op> {
    [Op.Send([9]), Op.Send([9]), Op.Update(0), Op.Input(Note(CMD_ACK, 1, 0)), Op.Flush,
     Op.Input(Note(CMD_WINS, 0, 2))]
  }

  /** Input breaks it in a run, too. */
  lemma GrowthOverflows()
    ensures exists cfg, ops: seq<Op>, n: nat :: Breaks(cfg, ops, n) && ops[n].Input?
  {
    var cfg, ops := Settings(1), GrowRun();
    hide KcpSpec.Input, KcpSpec.Flush, KcpSpec.Send, Note;
    GrowRunSteps();
    assert Breaks(cfg, ops, 5);
  }

  lemma GrowRunSteps()
    ensures Accounted(After(Settings(1), GrowRun(), 5).cc, BIG)
    ensures !Accounted(After(Settings(1), GrowRun(), 6).cc, BIG)
  {
    var cfg, ops := Settings(1), GrowRun();
    Loads(1, ops, 2);
    Starts(1, 2);
    GrowStates();
    hide After, Apply, KcpSpec.Input, KcpSpec.Flush, KcpSpec.Update, Note, Started, Loaded, Accounted;
    OneMore(cfg, ops, 2);
    OneMore(cfg, ops, 3);
    OneMore(cfg, ops, 4);
    OneMore(cfg, ops, 5);
    var s4 := KcpSpec.Input(Started(1, 2), Note(CMD_ACK, 1, 0)).0;
    InputApplies(Started(1, 2), ops[3]);
    InputApplies(s4, ops[4]);
    InputApplies(KcpSpec.Flush(s4).0, ops[5]);
  }

  lemma GrowStates()
    ensures var s4 := KcpSpec.Input(Started(1, 2), Note(CMD_ACK, 1, 0)).0;
            var s5 := KcpSpec.Flush(s4).0;
            Accounted(s5.cc, BIG) && !Accounted(KcpSpec.Input(s5, Note(CMD_WINS, 0, 2)).0.cc, BIG)
  {
    hide KcpSpec.Input, KcpSpec.Flush, Note;
    var s3 := Started(1, 2);
    assert s3.snd.buf == [InFlightSegment(0, 0), InFlightSegment(1, 0)] + [];
    SkipsOne(s3, 2, 1, 0, 0, []);
    var s4 := KcpSpec.Input(s3, Note(CMD_ACK, 1, 0)).0;
    assert [InFlightSegment(0, 1)] + [] == [InFlightSegment(0, 1)];
    Rescues(s4, 2, 1);
    LastAckGrows(KcpSpec.Flush(s4).0);
  }

  /** The window of three payloads cannot grow to four. */
  lemma LastAckGrows(s: State)
    requires s.cfg == Settings(1) && s.snd.una == 0 && s.snd.nxt == 2 && |s.snd.buf| == 1 && s.snd.buf[0].sn == 0
    requires s.cc == Congestion(3, 3 * BIG, 2, 32)
    ensures !Accounted(KcpSpec.Input(s, Note(CMD_WINS, 0, 2)).0.cc, BIG)
  {
    InputOne(s, CMD_WINS, 0, 2);
    GrowExact(s.cc, BIG);
    var b := s.snd.buf;
    assert Covered(b, 2, 0);
    assert UnaCount(b, 2, 1) == 1 && UnaCount(b, 2) == 1;
    assert b[1..] == [];
    hide KcpSpec.Input, Grow, Accounted, Note;
    assert Diff(2, 0) == 2;
  }
}
