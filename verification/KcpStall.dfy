/**
 A window announcement has 16 bits, and `ikcp_wndsize` takes any positive window. With a receive window
 that is a multiple of 2^16 an empty queue is announced as a window of 0, and a connection can stall for
 ever: the sender is told to wait, and asking for the window brings the same answer each time.
 */
module KcpStall {
  import opened KcpWire
  import opened KcpSpec
  import opened KcpSender
  import opened KcpMessages
  import opened KcpPacking
  import opened KcpLink
  import opened KcpSystem
  import opened KcpSteps
  import opened KcpSafety
  import opened KcpPaths
  import opened KcpProgress
  import KcpBuffered
  import KcpDelivery

  /** A datagram whose segments all announce a closed window. */
  predicate Shut(it: Item) {
    forall i :: 0 <= i < |it.wires| ==> it.wires[i].wnd == 0
  }

  ghost predicate AllShut(items: seq<Item>) {
    forall n :: 0 <= n < |items| ==> Shut(items[n])
  }

  /** Everything numbered has been received and acknowledged, `b` has nothing queued, and `a` takes the
      window of `b` for closed, as every datagram on its way says too. */
  ghost predicate Stalled(s: System) {
    && s.b.st.cfg.rcvWnd % 0x1_0000 == 0
    && s.b.st.rcv.queue == [] && s.b.R == s.a.S
    && s.a.st.snd.buf == [] && s.a.st.cc.rmtWnd == 0
    && AllShut(s.toA)
  }

  lemma FlushStays(e: Endpoint, peer: Endpoint)
    requires SenderOk(e.st.snd, e.U, e.S, e.st.cfg.sndWnd) && e.st.snd.buf == [] && e.st.cc.rmtWnd == 0
    ensures var f := FlushStep(e, peer); f.S == e.S && f.st.snd.buf == [] && f.st.cc.rmtWnd == 0
  {
    if e.st.timer.updated {
      hide FlushStep;
      EmptyFlush(e, peer);
    } else {
      NothingFlushed(e, peer);
    }
  }

  lemma HearStays(e: Endpoint, it: Item)
    requires Formed(it, e.st.cfg.conv) && Shut(it) && e.st.snd.buf == []
    ensures var f := HearStep(e, it.data); f.S == e.S && f.st.snd.buf == [] && f.st.cc.rmtWnd == 0
  {
    var ws := it.wires;
    HearReads(e, it);
    InputSender(e.st, ws);
    KcpBuffered.InputEmpty(e.st.snd, ws, |ws|, NoteRun(ws, |ws|));
    RunWindow(e.st, ws);
    InputWindow(e.st, ws);
    hide InputRun, KcpSpec.Input, HearAll, AfterFastack, ProcessRun;
  }

  lemma SendStays(e: Endpoint, data: bytes)
    ensures var f := SendStep(e, data);
            && f.S == e.S && f.st.snd.buf == e.st.snd.buf && f.st.cc == e.st.cc && f.st.cfg == e.st.cfg
            && f.st.rcv == e.st.rcv && f.R == e.R && f.received == e.received
  {
    hide SendQueue;
  }

  lemma RecvStays(e: Endpoint, len: int)
    ensures var f := RecvStep(e, len); f.S == e.S && f.st.snd == e.st.snd && f.st.cc == e.st.cc
  {
    hide RecvCheck, AfterRecv, Join;
  }

  /** Nothing that `a` does or hears ends the stall. */
  lemma SenderStays(s: System, step: Step)
    requires Inv(s) && Stalled(s) && Enabled(s, step)
    ensures Stalled(Do(s, step)) && Do(s, step).b == s.b
  {
    hide Inv, SendStep, RecvStep, HearStep, FlushStep, Mail, NextTimer, UpdateFlushes, SenderOk, Fresh;
    KnownSender(s);
    match step
    case Send(data) => SendStays(s.a, data);
    case Recv(len) => RecvStays(s.a, len);
    case Flush => FlushStays(s.a, s.b);
    case Update(now) => FlushStays(Tick(s.a, now), s.b);
    case Deliver(i) =>
      InvFormed(s, i);
      hide Formed;
      HearStays(s.a, s.toA[i]);
  }

  lemma InvFormed(s: System, i: nat)
    requires Inv(s) && i < |s.toA|
    ensures Formed(s.toA[i], s.a.st.cfg.conv)
  {
    hide Dir, Formed;
  }

  /** What `b` sends while its queue is empty announces a closed window. */
  lemma MailShut(e: Endpoint, peer: Endpoint)
    requires AllOurs(e.st.cfg, e.st.snd) && e.st.rcv.queue == [] && e.st.cfg.rcvWnd % 0x1_0000 == 0
    ensures AllShut(Mail(e, peer))
  {
    hide Mail, AllOurs;
    forall n | 0 <= n < |Mail(e, peer)| ensures Shut(Mail(e, peer)[n]) {
      forall i | 0 <= i < |Mail(e, peer)[n].wires| ensures Mail(e, peer)[n].wires[i].wnd == 0 {
        MailKind(e, peer, n, i);
      }
    }
  }

  /** A flush of `b` leaves its receiving side as it is. */
  lemma PeerFlush(e: Endpoint, peer: Endpoint)
    requires AllOurs(e.st.cfg, e.st.snd) && e.st.rcv.queue == [] && e.st.cfg.rcvWnd % 0x1_0000 == 0
    ensures var f := FlushStep(e, peer);
            f.st.cfg == e.st.cfg && f.st.rcv == e.st.rcv && f.R == e.R && f.received == e.received
    ensures AllShut(Mail(e, peer))
  {
    FlushFrame(e, peer);
    MailShut(e, peer);
    hide FlushStep, Mail;
  }

  /** Nothing that `b` does or hears ends it either. */
  lemma ReceiverStays(s: System, step: Step)
    requires Inv(s) && Stalled(s) && Enabled(Mirror(s), step)
    ensures var t := Mirror(Do(Mirror(s), step)); Stalled(t) && t.b.received == s.b.received
  {
    hide Inv, SendStep, RecvStep, HearStep, FlushStep, Mail, NextTimer, UpdateFlushes, Fresh, AllOurs, Shut;
    MirrorKeeps(s);
    InvOurs(Mirror(s));
    match step
    case Send(data) => SendStays(s.b, data);
    case Recv(len) => RecvFails(s.b, len);
    case Flush => PeerFlush(s.b, s.a);
    case Update(now) => PeerFlush(Tick(s.b, now), s.a);
    case Deliver(i) =>
      StepGoes(Mirror(s), step);
      var t := Do(Mirror(s), step);
      GoesInv(Mirror(s), t);
      MirrorKeeps(t);
      InvKnown(Mirror(t));
      hide Goes;
  }

  lemma NextStays(s: System, t: System)
    requires Inv(s) && Stalled(s) && Next(s, t)
    ensures Inv(t) && Stalled(t) && t.b.received == s.b.received
  {
    hide Inv, Stalled, Do, Enabled;
    NextKeeps(s, t);
    if step :| Enabled(s, step) && t == Do(s, step) {
      SenderStays(s, step);
    } else {
      var step :| Enabled(Mirror(s), step) && t == Mirror(Do(Mirror(s), step));
      ReceiverStays(s, step);
    }
  }

  lemma {:induction false} StallsOn(trace: seq<System>, i: nat, j: nat)
    requires Execution(trace) && i <= j < |trace| && Stalled(trace[i])
    ensures Stalled(trace[j]) && trace[j].b.received == trace[i].b.received
    decreases j
  {
    hide Next, Stalled, Inv;
    if i < j {
      StallsOn(trace, i, j - 1);
      InvHolds(trace, j - 1);
      NextStays(trace[j - 1], trace[j]);
    }
  }

  // ---------------------------------------------------------------- how to get there

  /** Message `m` has been sent, received and read, but not acknowledged. */
  ghost predicate ReadOnce(s: System, m: bytes) {
    && s.a.accepted == [m] == s.b.received && s.a.S == 1 && s.toA == []
    && |m| <= s.a.st.cfg.mss && s.b.st.acks != []
  }

  lemma FirstMessage(age: nat, x: Config, y: Config, m: bytes) returns (trace: seq<System>)
    requires Sane(age, x, y) && Sane(age, y, x) && |m| <= x.mss
    ensures Execution(trace) && ReadOnce(trace[|trace| - 1], m)
    ensures trace[|trace| - 1].b.st.cfg == y && trace[|trace| - 1].a.st.cfg == x
  {
    trace := KcpDelivery.Path(age, x, y, m);
    KcpDelivery.PathRuns(age, x, y, m);
    SenderThen(age, x, y, m);
    ReceiverThen(age, x, y, m);
    hide Next, Init, ReadOnce, RecvStep, HearStep, FlushAt, KcpDelivery.Loaded, KcpDelivery.Ready;
  }

  lemma SenderThen(age: nat, x: Config, y: Config, m: bytes)
    requires !x.stream && |m| <= x.mss
    ensures var s := KcpDelivery.Path(age, x, y, m)[5];
            s.a.accepted == [m] && s.a.S == 1 && s.a.st.cfg == x && s.toA == []
  {
    var e := KcpDelivery.Loaded(x, m);
    KcpDelivery.FlushCounts(x, m);
    SameStream(e, KcpDelivery.Start(y));
    FlushAccepts(e, KcpDelivery.Start(y));
    hide FlushStep, Mail, HearStep, RecvStep, EncodeAll, KcpDelivery.Carrier;
  }

  lemma ReceiverThen(age: nat, x: Config, y: Config, m: bytes)
    requires !x.stream && x.conv == y.conv && |m| <= x.mss
    ensures var s := KcpDelivery.Path(age, x, y, m)[5];
            s.b.received == [m] && s.b.st.cfg == y && s.b.st.acks != []
  {
    var e := KcpDelivery.Path(age, x, y, m)[4].b;
    KcpDelivery.DeliveryQueues(x, y, m);
    KcpDelivery.ReadsIt(e.st, KcpDelivery.Carrier(x, m));
    FirstOwes(x, y, m);
    AcksStay(e, |m|);
    hide FlushAt, KcpSpec.Input, KcpSpec.Recv, EncodeAll, KcpDelivery.Carrier, KcpDelivery.Loaded, KcpDelivery.Ready;
    assert [] + [m] == [m];
  }

  lemma FlushAccepts(e: Endpoint, peer: Endpoint)
    ensures FlushStep(e, peer).accepted == e.accepted
  {
  }

  lemma PushAcked(s: State, w: Wire)
    requires w.cmd == CMD_PUSH && BelowWindow(s.rcv, s.cfg.rcvWnd, w.sn)
    ensures ProcessRun(s, [w], 1).acks != []
  {
    hide HearAck, AcceptPush, BelowWindow;
    assert ProcessRun(s, [w], 0) == s;
  }

  lemma FirstInWindow(r: Receiver, wnd: posint)
    requires r.nxt == 0
    ensures BelowWindow(r, wnd, 0)
  {
  }

  lemma FirstOwes(x: Config, y: Config, m: bytes)
    requires x.conv == y.conv && |m| <= x.mss
    ensures KcpSpec.Input(Create(y), EncodeAll([KcpDelivery.Carrier(x, m)])).0.acks != []
  {
    hide KcpSpec.Input, InputRun, EncodeAll, ProcessRun, BelowWindow;
    var s, w := Create(y), KcpDelivery.Carrier(x, m);
    FirstInWindow(s.rcv, y.rcvWnd);
    PushAcked(s, w);
    KcpDelivery.OneEncoded(w);
    InputReads(s, [w]);
    InputReceiver(s, [w]);
  }

  lemma AcksStay(e: Endpoint, len: int)
    ensures RecvStep(e, len).st.acks == e.st.acks && RecvStep(e, len).st.cfg == e.st.cfg
  {
    hide RecvCheck, AfterRecv, Join;
  }

  /** Nothing is left in the receive queue then. */
  lemma NothingQueued(s: System, m: bytes)
    requires Inv(s) && ReadOnce(s, m)
    ensures s.b.st.rcv.queue == [] && s.b.R == s.a.S
  {
    InvDelivered(s);
    InvKnown(s);
    NextMessage(s.a, 0);
    hide Inv, Incoming, Continues, FragmentCount;
    assert AllFrags(s.a.accepted, 0, s.a.st.cfg.mss) == [];
    OneFragment(|m|, s.a.st.cfg.mss);
  }

  lemma OneFragment(len: nat, mss: payload)
    requires len <= mss
    ensures FragmentCount(len, mss) == 1
  {
  }

  /** The acknowledgement says that the window is closed. */
  lemma AnswerShuts(s: System, m: bytes) returns (t: System)
    requires Inv(s) && ReadOnce(s, m) && s.b.st.cfg.rcvWnd % 0x1_0000 == 0
    ensures Goes(s, t) && Stalled(t)
  {
    hide Inv, Goes, FlushStep, Mail, UpdateFlushes, AllOurs, Tick, FlushWires, InputRun, HearStep, Shut, Do;
    var now := s.b.st.timer.tsFlush;
    var e, p := Tick(s.b, now), Mirror(s);
    MirrorKeeps(s);
    InvOurs(p);
    NothingQueued(s, m);
    AtFlushTime(s.b.st.timer);
    Ticked(s.b, now);
    UpdateMails(p, now);
    SomethingSent(e.st);
    PeerFlush(e, s.a);
    var n, i := WireIsMailed(e, s.a, FlushWires(e.st)[0]);
    var u := Do(p, Step.Update(now));
    StepGoes(p, Step.Update(now));
    GoesInv(p, u);
    assert u.toB == Mail(e, s.a);
    var v := DeliverNow(u, n);
    GoesThen(p, u, v);
    GoesMirror(s, v);
    t := Mirror(v);
    Cleared(s, e, n);
    HearSame(s.a, u.toB[n].data);
  }

  lemma HearSame(e: Endpoint, datagram: bytes)
    ensures HearStep(e, datagram).S == e.S
  {
    hide KcpSpec.Input;
  }

  lemma Cleared(s: System, e: Endpoint, n: nat)
    requires Inv(s) && s.b.R == s.a.S && e == Tick(s.b, s.b.st.timer.tsFlush)
    requires n < |Mail(e, s.a)| && AllShut(Mail(e, s.a)) && AllOurs(e.st.cfg, e.st.snd)
    ensures var t := InputRun(s.a.st, Mail(e, s.a)[n].wires, 0); t.snd.buf == [] && t.cc.rmtWnd == 0
  {
    hide Inv, Mail, AllOurs, InputRun, NextTimer, SenderOk;
    var ws := Mail(e, s.a)[n].wires;
    MailFormed(e, s.a, n);
    assert ws != [] by {
      hide EncodeAll, Understood;
    }
    MailKind(e, s.a, n, 0);
    InvKnown(s);
    KnownNext(s);
    KnownSender(s);
    assert Shut(Mail(e, s.a)[n]);
    hide Formed, Known;
    AnswerClears(s.a.st, ws, s.a.U, s.a.S);
  }

  /** No continuation of the run delivers everything. */
  ghost predicate Hopeless(trace: seq<System>) {
    trace != [] && forall longer: seq<System> :: Extends(trace, longer) ==>
      longer[|longer| - 1].b.received != trace[|trace| - 1].a.accepted
  }

  lemma StalledIsHopeless(trace: seq<System>)
    requires Execution(trace) && Stalled(trace[|trace| - 1])
    requires trace[|trace| - 1].b.received != trace[|trace| - 1].a.accepted
    ensures Hopeless(trace)
  {
    hide Next, Init, Stalled;
    forall longer: seq<System> | Extends(trace, longer)
      ensures longer[|longer| - 1].b.received != trace[|trace| - 1].a.accepted
    {
      assert longer[|trace| - 1] == trace[|trace| - 1];
      StallsOn(longer, |trace| - 1, |longer| - 1);
    }
  }

  lemma SendAgain(s: System, m: bytes) returns (t: System)
    requires Inv(s) && Stalled(s) && |m| <= s.a.st.cfg.mss && !s.a.st.cfg.stream
    ensures Next(s, t) && Stalled(t)
    ensures t == s.(a := t.a) && t.a.accepted == s.a.accepted + [m] && t.a.st.cfg == s.a.st.cfg
  {
    var step := Step.Send(m);
    hide Inv, Stalled;
    SenderStays(s, step);
    t := Do(s, step);
    OneFragment(|m|, s.a.st.cfg.mss);
    hide Cut;
  }

  /** With any other settings: a receive window that is a multiple of 2^16 can stall although every message
      is a single fragment. */
  lemma WindowStalls(age: nat, x: Config, y: Config, m: bytes)
    requires Sane(age, x, y) && Sane(age, y, x) && |m| <= x.mss && y.rcvWnd % 0x1_0000 == 0
    ensures exists trace: seq<System> :: Execution(trace) && Hopeless(trace) && trace[|trace| - 1].a.accepted == [m, m]
  {
    hide Next, Init, Stalled, ReadOnce, Inv, Goes, Hopeless;
    var trace := FirstMessage(age, x, y, m);
    InvHolds(trace, |trace| - 1);
    var s := trace[|trace| - 1];
    var t := AnswerShuts(s, m);
    GoesInv(s, t);
    Once(s, m);
    var u := SendAgain(t, m);
    GoesLeads(s, t);
    LeadsNext(t, u);
    LeadsThen(s, t, u);
    hide Leads;
    var longer := LeadsExtends(trace, u);
    assert [m] + [m] == [m, m];
    StalledIsHopeless(longer);
  }

  lemma Once(s: System, m: bytes)
    requires ReadOnce(s, m)
    ensures s.a.accepted == [m] == s.b.received
  {
  }
}
