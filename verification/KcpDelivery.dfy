/**
 The system of two endpoints does something: over a network that loses nothing, a message goes from one
 side to the other in five steps.
 */
module KcpDelivery {
  import opened Serial
  import opened KcpWire
  import opened KcpSpec
  import opened KcpPacking
  import opened KcpSystem

  /** An endpoint as it was created. */
  function Start(cfg: Config): Endpoint {
    Endpoint(Create(cfg), 0, 0, 0, 0, [], [])
  }

  /** After its first update at time 0. */
  function Ready(cfg: Config): Endpoint {
    Start(cfg).(st := Create(cfg).(timer := Timer(0, cfg.interval, true),
                                   cc := Congestion(1, cfg.mss, THRESH_MIN, 32)))
  }

  lemma NothingToSend(s: State)
    requires s.acks == [] && s.snd.queue == [] && s.snd.buf == [] && s.timer.updated
    requires !s.probe.askSend && !s.probe.askTell && s.cc.rmtWnd != 0 && s.probe.wait == 0 == s.probe.ts
    requires s.cc.cwnd == 0 && s.xmit == 0 && s.snd.nxt == 0
    ensures KcpSpec.Flush(s) == (s.(cc := s.cc.(cwnd := 1, incr := s.cfg.mss)), [])
  {
    assert AdmitCount(s.snd, FlushWindow(s)) == 0;
    assert FlushSender(s) == s.snd;
    assert TransmitAll(s, []) == [];
    assert FlushWires(s) == [];
    assert CountDue(s, [], 0, Timeout) == 0 == CountDue(s, [], 0, Fast);
    assert PutAll(Outbox([], []), [], 0, s.cfg.Mtu()) == Outbox([], []);
  }

  lemma FirstUpdate(age: nat, x: Config, y: Config)
    ensures var s := System(age, Start(x), Start(y), [], []);
            Do(s, Step.Update(0)) == s.(a := Ready(x))
  {
    var s := System(age, Start(x), Start(y), [], []);
    var t := Tick(s.a, 0);
    ClockStarts(x.interval);
    NothingToSend(t.st);
    hide KcpSpec.Flush, NextTimer, UpdateFlushes;
  }

  lemma ClockStarts(interval: uint32)
    ensures NextTimer(Timer(0, 100, false), 0, interval) == Timer(0, interval, true)
    ensures UpdateFlushes(Timer(0, 100, false), 0)
  {
  }

  /** With the message queued. */
  function Loaded(cfg: Config, m: bytes): Endpoint {
    var e := Ready(cfg);
    e.(st := e.st.(snd := Sender(0, 0, [NewSegment(0, m)], [])), accepted := [m])
  }

  lemma SendLoads(cfg: Config, m: bytes)
    requires !cfg.stream && |m| <= cfg.mss
    ensures SendStep(Ready(cfg), m) == Loaded(cfg, m)
  {
    assert Cut(m, cfg.mss, 1, false) == [NewSegment(0, m)] + Cut(Rest(m, cfg.mss), cfg.mss, 0, false);
    assert [] + [NewSegment(0, m)] == [NewSegment(0, m)];
    assert [] + [m] == [m];
  }

  /** The data segment that carries the message. */
  function Carrier(cfg: Config, m: bytes): Wire {
    Wire(cfg.conv, CMD_PUSH, 0, cfg.rcvWnd % 0x1_0000, 0, 0, 0, m)
  }

  lemma FlushCarries(cfg: Config, m: bytes)
    requires |m| <= cfg.mss
    ensures FlushWires(Loaded(cfg, m).st) == [Carrier(cfg, m)]
    ensures KcpSpec.Flush(Loaded(cfg, m).st).0.snd.nxt == 1
  {
    var s := Loaded(cfg, m).st;
    var seg := Number(s, NewSegment(0, m), 0);
    AdmitsOne(s, FlushWindow(s));
    assert FlushSender(s) == Sender(0, 1, [], [seg]);
    assert Due(s, seg) == First;
    assert ToWire(Transmit(s, seg)) == Carrier(cfg, m);
    assert DataWires(s, [seg], 1) == DataWires(s, [seg], 0) + [Carrier(cfg, m)];
    assert AckWires(s, 0) == [] && ProbeWires(s, FlushProbe(s)) == [];
  }

  lemma AdmitsOne(s: State, window: uint32)
    requires s.snd.una == 0 == s.snd.nxt && |s.snd.queue| == 1 && s.snd.buf == [] && 0 < window < TWO31
    ensures Admit(s, s.snd, window) == Sender(0, 1, [], [Number(s, s.snd.queue[0], 0)])
  {
    assert Fits(s.snd, window, 0);
    assert AdmitCount(s.snd, window) == AdmitCount(s.snd, window, 1) == 1;
    assert Numbered(s, s.snd, 1) == [Number(s, s.snd.queue[0], 0)];
  }

  lemma OneGroup(w: Wire, mtu: nat)
    requires OVERHEAD + |w.data| <= mtu
    ensures Split([w], mtu) == [[w]]
  {
    assert GroupAll([w], 0, mtu) == Groups([], []);
    assert GroupAll([w], 1, mtu) == AddTo(Groups([], []), w, mtu);
    assert EncodeAll([]) == [];
    assert [] + [w] == [w] && [] + [[w]] == [[w]];
  }

  /** The flush puts one datagram into the network. */
  lemma FlushMails(cfg: Config, m: bytes, peer: Endpoint)
    requires |m| <= cfg.mss && peer.S == 0
    ensures Mail(Loaded(cfg, m), peer) == [Item(EncodeAll([Carrier(cfg, m)]), [Carrier(cfg, m)], 1, 0)]
  {
    var e, w := Loaded(cfg, m), Carrier(cfg, m);
    FlushCarries(cfg, m);
    OneGroup(w, cfg.Mtu());
    DatagramsEncode([w], cfg.Mtu());
    FlushGives(e.st);
    hide KcpSpec.Flush, FlushWires, EncodeAll, Split;
    assert Encodings([[w]]) == [EncodeAll([w])];
  }

  lemma FlushGives(s: State)
    requires s.timer.updated
    ensures KcpSpec.Flush(s).1 == Datagrams(FlushWires(s), s.cfg.Mtu())
  {
    hide FlushWires, Datagrams, FlushSender, TransmitAll, LinkDead, CountDue, Backoff, FlushProbe;
  }

  lemma DeliveryQueues(x: Config, y: Config, m: bytes)
    requires x.conv == y.conv && |m| <= x.mss
    ensures var st := KcpSpec.Input(Create(y), EncodeAll([Carrier(x, m)])).0;
            st.cfg == y && st.rcv == Receiver(1, [FromWire(Carrier(x, m))], [])
  {
    var s, ws := Create(y), [Carrier(x, m)];
    OneEncoded(Carrier(x, m));
    InputReads(s, ws);
    hide KcpSpec.Input, EncodeAll;
    Stored(y.rcvWnd, Carrier(x, m));
    OneProcessed(s, ws[0]);
  }

  lemma OneEncoded(w: Wire)
    ensures |EncodeAll([w])| == OVERHEAD + |w.data|
  {
    assert EncodeFrom([w], 1) == [];
  }

  lemma OneProcessed(s: State, w: Wire)
    requires w.cmd == CMD_PUSH
    ensures var t := InputRun(s, [w], 0);
            t.cfg == s.cfg && t.rcv == AcceptPush(s.rcv, s.cfg.rcvWnd, w)
  {
    hide AcceptPush, QueueAck, HearAck, Grow, ParseFastack;
    assert ProcessRun(s, [w], 1) == Process(ProcessRun(s, [w], 0), w);
  }

  lemma Stored(wnd: posint, w: Wire)
    requires w.sn == 0
    ensures AcceptPush(Receiver(0, [], []), wnd, w) == Receiver(1, [FromWire(w)], [])
  {
    var seg := FromWire(w);
    assert InsertSegment([], seg) == [seg];
    assert RunLength([seg], 0, wnd, 0) == RunLength([seg], 0, wnd, 1) == 1;
  }

  lemma ReadsIt(s: State, w: Wire)
    requires s.rcv == Receiver(1, [FromWire(w)], []) && w.frg == 0
    ensures KcpSpec.Recv(s, |w.data|).1 == |w.data| && KcpSpec.Recv(s, |w.data|).2 == w.data
  {
    var q := s.rcv.queue;
    assert Last(q, 0) && MergeCount(q) == 1;
    assert Join(q, 1) == Join(q, 0) + w.data == w.data;
  }

  /** The five steps. */
  function Path(age: nat, x: Config, y: Config, m: bytes): seq<System>
    requires !x.stream && |m| <= x.mss
  {
    var s0 := System(age, Start(x), Start(y), [], []);
    var s1 := s0.(a := Ready(x));
    var s2 := s1.(a := Loaded(x, m));
    var s3 := FlushAt(s2);
    var s4 := s3.(b := HearStep(s3.b, EncodeAll([Carrier(x, m)])));
    var s5 := s4.(b := RecvStep(s4.b, |m|));
    [s0, s1, s2, s3, s4, s5]
  }

  lemma NextByStep(s: System, step: Step)
    requires Enabled(s, step)
    ensures Next(s, Do(s, step))
  {
  }

  lemma NextByPeer(s: System, step: Step)
    requires Enabled(Mirror(s), step)
    ensures Next(s, Mirror(Do(Mirror(s), step)))
  {
  }

  lemma SenderSteps(age: nat, x: Config, y: Config, m: bytes)
    requires !x.stream && |m| <= x.mss
    ensures var t := Path(age, x, y, m); Next(t[0], t[1]) && Next(t[1], t[2]) && Next(t[2], t[3])
  {
    hide Ready, Loaded, FlushAt, HearStep, RecvStep, Start, Next, Carrier;
    var t := Path(age, x, y, m);
    FirstUpdate(age, x, y);
    SendLoads(x, m);
    NextByStep(t[0], Step.Update(0));
    NextByStep(t[1], Step.Send(m));
    NextByStep(t[2], Step.Flush);
  }

  lemma DeliverNext(s: System, it: Item)
    requires s.toB == [it] && Fresh(Mirror(s), it)
    ensures Next(s, s.(b := HearStep(s.b, it.data)))
  {
    hide HearStep, Next;
    NextByPeer(s, Step.Deliver(0));
    assert Mirror(Do(Mirror(s), Step.Deliver(0))) == s.(b := HearStep(s.b, it.data));
  }

  lemma RecvNext(s: System, len: int)
    ensures Next(s, s.(b := RecvStep(s.b, len)))
  {
    hide RecvStep, Next;
    NextByPeer(s, Step.Recv(len));
    assert Mirror(Do(Mirror(s), Step.Recv(len))) == s.(b := RecvStep(s.b, len));
  }

  lemma ReceiverSteps(age: nat, x: Config, y: Config, m: bytes)
    requires !x.stream && |m| <= x.mss
    ensures var t := Path(age, x, y, m); Next(t[3], t[4]) && Next(t[4], t[5])
  {
    hide HearStep, RecvStep, Next, Carrier, EncodeAll, Ready, Loaded, FlushAt;
    var t := Path(age, x, y, m);
    AfterFlush(age, x, y, m);
    DeliverNext(t[3], Item(EncodeAll([Carrier(x, m)]), [Carrier(x, m)], 1, 0));
    RecvNext(t[4], |m|);
  }

  lemma AfterFlush(age: nat, x: Config, y: Config, m: bytes)
    requires |m| <= x.mss
    ensures var s := FlushAt(System(age, Loaded(x, m), Start(y), [], []));
            var it := Item(EncodeAll([Carrier(x, m)]), [Carrier(x, m)], 1, 0);
            s.toB == [it] && Fresh(Mirror(s), it)
  {
    FlushMails(x, m, Start(y));
    FlushCounts(x, m);
    hide Mail, FlushStep, Carrier, EncodeAll, Loaded;
  }

  lemma FlushCounts(x: Config, m: bytes)
    requires |m| <= x.mss
    ensures forall peer: Endpoint :: FlushStep(Loaded(x, m), peer).S == 1
  {
    FlushCarries(x, m);
    hide KcpSpec.Flush;
  }

  lemma Initial(age: nat, x: Config, y: Config)
    requires Sane(age, x, y) && Sane(age, y, x)
    ensures Init(System(age, Start(x), Start(y), [], []))
  {
  }

  lemma PathRuns(age: nat, x: Config, y: Config, m: bytes)
    requires Sane(age, x, y) && Sane(age, y, x) && |m| <= x.mss
    ensures Execution(Path(age, x, y, m))
  {
    Initial(age, x, y);
    SenderSteps(age, x, y, m);
    ReceiverSteps(age, x, y, m);
    hide Next, Init, FlushAt, Loaded, Ready, Start, HearStep, RecvStep;
  }

  /** Any message of one fragment can get through. */
  lemma MessageGetsThrough(age: nat, x: Config, y: Config, m: bytes)
    requires Sane(age, x, y) && Sane(age, y, x) && |m| <= x.mss
    ensures exists trace: seq<System> :: Execution(trace) && trace[|trace| - 1].b.received == [m]
  {
    var t := Path(age, x, y, m);
    PathRuns(age, x, y, m);
    DeliveryQueues(x, y, m);
    ReadsIt(t[4].b.st, Carrier(x, m));
    hide Execution, Loaded, Ready, FlushAt, KcpSpec.Input, KcpSpec.Recv, EncodeAll, Carrier;
    assert [] + [m] == [m];
  }
}
