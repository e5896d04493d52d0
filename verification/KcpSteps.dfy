/**
 Every step of the two-endpoint system keeps the invariant of `KcpSystem`. Each direction is taken
 alone: `x` is the side that sends in it and `y` the side that receives.
 */
module KcpSteps {
  import opened Serial
  import opened KcpWire
  import opened KcpSpec
  import opened KcpSender
  import opened KcpReceiver
  import opened KcpMessages
  import opened KcpPacking
  import opened KcpLink
  import opened KcpSystem

  // ---------------------------------------------------------------- the first state

  lemma InitInv(s: System)
    requires Init(s)
    ensures Inv(s)
  {
    InitDir(s.a, s.b, s.age);
    InitDir(s.b, s.a, s.age);
  }

  lemma InitDir(x: Endpoint, y: Endpoint, age: nat)
    requires Sane(age, x.st.cfg, y.st.cfg)
    requires x == Endpoint(Create(x.st.cfg), 0, 0, 0, 0, [], [])
    requires y == Endpoint(Create(y.st.cfg), 0, 0, 0, 0, [], [])
    ensures Dir(x, y, [], [], age)
  {
  }

  // ---------------------------------------------------------------- the sender's steps

  lemma CarriesExtend(base: int, buf: seq<Segment>, all: seq<Frag>, all': seq<Frag>)
    requires Carries(base, buf, all) && all <= all'
    ensures Carries(base, buf, all')
  {
    hide Key;
    forall i | 0 <= i < |buf| ensures CarriesAt(base, buf, all', i) {
      assert CarriesAt(base, buf, all, i);
    }
  }

  lemma ContinuesExtend(q: seq<Segment>, all: seq<Frag>, all': seq<Frag>, p: nat)
    requires Continues(q, all, p) && all <= all'
    ensures Continues(q, all', p)
  {
    forall i | 0 <= i < |q| ensures ContinuesAt(q, all', p, i) {
      assert ContinuesAt(q, all, p, i);
    }
  }

  lemma ContinuesAppend(q: seq<Segment>, f: seq<Segment>, all: seq<Frag>, p: nat)
    requires Continues(q, all, p) && p + |q| == |all|
    ensures Continues(q + f, all + FragsOf(f), p)
  {
    var out, all' := q + f, all + FragsOf(f);
    forall i | 0 <= i < |out| ensures ContinuesAt(out, all', p, i) {
      assert i < |q| ==> ContinuesAt(q, all, p, i);
    }
  }

  lemma StreamGrows(x: Endpoint, data: bytes)
    requires SendStep(x, data).accepted == x.accepted + [data]
    ensures Stream(SendStep(x, data)) == Stream(x) + FragsOf(Fragments(data, x.st.cfg.mss))
    ensures forall r :: 0 <= r <= |x.accepted| ==>
              AllFrags(x.accepted + [data], r, x.st.cfg.mss) == AllFrags(x.accepted, r, x.st.cfg.mss)
  {
    hide Fragments;
    var all := x.accepted + [data];
    forall r | 0 <= r <= |x.accepted|
      ensures AllFrags(all, r, x.st.cfg.mss) == AllFrags(x.accepted, r, x.st.cfg.mss)
    {
      AllFragsExtends(x.accepted, data, r, x.st.cfg.mss);
    }
    assert all[|x.accepted|] == data;
  }

  lemma XSendSending(x: Endpoint, data: bytes)
    requires Sending(x) && !x.st.cfg.stream && Sendable(|data|, x.st.cfg.mss)
    requires SendStep(x, data).accepted == x.accepted + [data]
    ensures Sending(SendStep(x, data))
  {
    var f := Fragments(data, x.st.cfg.mss);
    StreamGrows(x, data);
    SendMessage(x.st.cfg, x.st.snd.queue, data);
    CarriesExtend(x.U, x.st.snd.buf, Stream(x), Stream(SendStep(x, data)));
    ContinuesAppend(x.st.snd.queue, f, Stream(x), x.S);
    AppendOurs(x.st.cfg, x.st.snd, data);
    hide Stream, Fragments, FragsOf, Carries, Continues, AllOurs, SendQueue;
  }

  lemma AppendOurs(cfg: Config, snd: Sender, data: bytes)
    requires AllOurs(cfg, snd) && Sendable(|data|, cfg.mss)
    ensures AllOurs(cfg, snd.(queue := snd.queue + Fragments(data, cfg.mss)))
  {
    var f := Fragments(data, cfg.mss);
    FragmentsShape(data, cfg.mss);
    hide Fragments;
    forall i | 0 <= i < |snd.queue + f| ensures Queued(cfg, snd.queue + f, i) {
      if i < |snd.queue| {
        assert Queued(cfg, snd.queue, i);
      } else {
        assert CutAt(f, cfg.mss, false, i - |snd.queue|);
      }
    }
  }

  lemma XSendReceiving(x: Endpoint, y: Endpoint, data: bytes)
    requires |y.received| <= |x.accepted| && Receiving(x, y)
    requires SendStep(x, data).accepted == x.accepted + [data]
    ensures Receiving(SendStep(x, data), y)
  {
    StreamGrows(x, data);
    CarriesExtend(y.R, y.st.rcv.buf, Stream(x), Stream(SendStep(x, data)));
    ContinuesExtend(y.st.rcv.queue, Stream(x), Stream(SendStep(x, data)),
                    |AllFrags(x.accepted, |y.received|, x.st.cfg.mss)|);
    hide Stream, AllFrags, Fragments, Carries, Continues, SendQueue;
  }

  lemma DataExtend(items: seq<Item>, sw: posint, all: seq<Frag>, all': seq<Frag>, S: nat, S': nat, n: nat)
    requires n < |items| && DataOk(items, sw, all, S, n) && all <= all' && S <= S'
    ensures DataOk(items, sw, all', S', n)
  {
    hide Unwrap;
    forall i | 0 <= i < |items[n].wires| ensures DataAt(items[n], i, sw, all') {
      assert DataAt(items[n], i, sw, all);
    }
  }

  /** `x` sends a message. */
  lemma XSend(x: Endpoint, y: Endpoint, toY: seq<Item>, toX: seq<Item>, age: nat, data: bytes)
    requires Dir(x, y, toY, toX, age)
    ensures Dir(SendStep(x, data), y, toY, toX, age)
  {
    hide Stream, Sending, Receiving, NewsOk, DataOk, SendQueue, Has, Held, AcksHeld, Fragments, Sendable;
    SendMessage(x.st.cfg, x.st.snd.queue, data);
    if Sendable(|data|, x.st.cfg.mss) {
      XSendSending(x, data);
      XSendReceiving(x, y, data);
      XSendInFlight(x, toY, data);
    } else {
      assert SendStep(x, data) == x;
    }
  }

  lemma XSendInFlight(x: Endpoint, toY: seq<Item>, data: bytes)
    requires DataInFlight(x, toY)
    requires SendStep(x, data).accepted == x.accepted + [data]
    ensures DataInFlight(SendStep(x, data), toY)
  {
    hide Stream, DataOk, SendQueue, Fragments;
    var x' := SendStep(x, data);
    StreamGrows(x, data);
    forall n | 0 <= n < |toY| ensures DataOk(toY, x.st.cfg.sndWnd, Stream(x'), x.S, n) {
      assert DataOk(toY, x.st.cfg.sndWnd, Stream(x), x.S, n);
      DataExtend(toY, x.st.cfg.sndWnd, Stream(x), Stream(x'), x.S, x.S, n);
    }
  }

  /** `x` numbers queued fragments and puts datagrams into the network. */
  lemma XFlushSending(x: Endpoint, y: Endpoint)
    requires Sending(x) && Linked(x, y)
    ensures Sending(FlushStep(x, y)) && Linked(FlushStep(x, y), y)
    ensures x.S <= FlushStep(x, y).S
  {
    if x.st.timer.updated {
      var s, snd := x.st, x.st.snd;
      var cwnd := FlushWindow(s);
      var mid := FlushSender(s);
      var n := AdmitCount(snd, cwnd);
      AdmitCarries(s, snd, cwnd, x.U, x.S, Stream(x));
      AdmitSafe(s, snd, cwnd, x.U, x.S, y.st.rcv, y.R, y.M);
      TransmitSafe(s, mid, x.U, x.S + n, Stream(x), s.cfg.sndWnd, y.st.rcv, y.R, y.M);
      AdmitOurs(s, snd, cwnd);
      TransmitOurs(s, mid.buf);
      NumberAdvances(x, y);
      hide Outgoing, Safe, Marked, Continues, Stream, FlushSender, TransmitAll, FlushWindow, Ours;
    } else {
      NothingFlushed(x, y);
    }
  }

  lemma NothingFlushed(x: Endpoint, y: Endpoint)
    requires !x.st.timer.updated
    ensures FlushStep(x, y) == x && Mail(x, y) == []
  {
  }

  lemma DistAdvances(base: nat, n: nat)
    requires n < TWO32
    ensures Dist(U32(base), U32(base + n)) == n
  {
  }

  lemma NumberAdvances(x: Endpoint, y: Endpoint)
    requires x.st.timer.updated
    requires SenderOk(x.st.snd, x.U, x.S, x.st.cfg.sndWnd)
    ensures FlushStep(x, y).S == x.S + AdmitCount(x.st.snd, FlushWindow(x.st))
    ensures FlushStep(x, y).st.snd == FlushSender(x.st).(buf := TransmitAll(x.st, FlushSender(x.st).buf))
  {
    var n := AdmitCount(x.st.snd, FlushWindow(x.st));
    AdmitLimit(x.st.snd, FlushWindow(x.st), x.U, x.S, x.st.cfg.sndWnd);
    U32Shift(x.S, n);
    DistAdvances(x.S, n);
    hide TransmitAll, DataWires, Datagrams, Numbered, CountDue, LinkDead, Backoff;
  }

  /** What is sent is made of whole segments of the flush. */
  lemma MailParts(e: Endpoint, peer: Endpoint, n: nat)
    requires AllOurs(e.st.cfg, e.st.snd) && n < |Mail(e, peer)|
    ensures e.st.timer.updated
    ensures var ws, mtu := FlushWires(e.st), e.st.cfg.Mtu();
            var it := Mail(e, peer)[n];
            && n < |Split(ws, mtu)|
            && it == Item(EncodeAll(Split(ws, mtu)[n]), Split(ws, mtu)[n], FlushStep(e, peer).S, peer.S)
  {
    if e.st.timer.updated {
      DatagramsEncode(FlushWires(e.st), e.st.cfg.Mtu());
    }
    hide FlushWires, Split, Datagrams, FlushSender, DataWires, CountDue, LinkDead, Backoff, TransmitAll;
  }

  lemma MailFormed(e: Endpoint, peer: Endpoint, n: nat)
    requires AllOurs(e.st.cfg, e.st.snd) && n < |Mail(e, peer)|
    ensures Formed(Mail(e, peer)[n], e.st.cfg.conv)
  {
    MailParts(e, peer, n);
    var groups := Split(FlushWires(e.st), e.st.cfg.Mtu());
    FlushOutbound(e.st);
    SplitFits(e.st);
    assert Fitting(groups, n, e.st.cfg.Mtu());
    GroupUnderstood(e.st, n);
    hide FlushWires, Split, Mail, EncodeAll;
  }

  /** Every segment in the mail is one of the flush's, and its kind is known. */
  lemma MailKind(e: Endpoint, peer: Endpoint, n: nat, i: nat)
    requires AllOurs(e.st.cfg, e.st.snd) && n < |Mail(e, peer)| && i < |Mail(e, peer)[n].wires|
    ensures Kind(e.st, Mail(e, peer)[n].wires[i])
  {
    MailParts(e, peer, n);
    hide Mail, FlushWires, Kind;
    var k := SplitMember(FlushWires(e.st), e.st.cfg.Mtu(), n, i);
    FlushKind(e.st, k);
  }

  /** A transmitted segment of a well-formed send buffer carries the fragment of its number. */
  lemma TransmitData(s: State, mid: Sender, U: nat, S: nat, all: seq<Frag>, j: nat)
    requires Outgoing(mid, U, S, all, s.cfg.sndWnd) && j < |mid.buf|
    requires forall k :: 0 <= k < |all| ==> all[k].frg < 0x100
    ensures DataWire(ToWire(Transmit(s, mid.buf[j])), S, s.cfg.sndWnd, all)
  {
    assert CarriesAt(U, mid.buf, all, j);
    NumberSeen(mid, U, S, s.cfg.sndWnd, j);
    TransmitOne(s, mid.buf[j]);
    hide Transmit, ToWire, Unwrap, U32, Key, SenderOk, Carries;
  }

  /** The number of a buffered segment, seen from one window below `S`. */
  lemma NumberSeen(snd: Sender, U: nat, S: nat, wnd: posint, j: nat)
    requires SenderOk(snd, U, S, wnd) && j < |snd.buf|
    ensures Unwrap(S - wnd, snd.buf[j].sn) == Key(U, snd.buf, j) < S
  {
    hide U32, Unwrap;
    UnwrapWraps(U, snd.buf[j].sn);
    UnwrapInverts(S - wnd, Key(U, snd.buf, j));
  }

  lemma TransmitOne(s: State, seg: Segment)
    ensures var w := ToWire(Transmit(s, seg));
            w.sn == seg.sn && w.data == seg.data && w.frg == seg.frg % 0x100
  {
  }

  lemma SendingOk(x: Endpoint)
    requires Sending(x)
    ensures SenderOk(x.st.snd, x.U, x.S, x.st.cfg.sndWnd)
  {
  }

  lemma FlushOutgoing(x: Endpoint, y: Endpoint)
    requires Sending(x) && x.st.timer.updated
    ensures Outgoing(FlushSender(x.st), x.U, FlushStep(x, y).S, Stream(x), x.st.cfg.sndWnd)
  {
    SendingOk(x);
    NumberAdvances(x, y);
    hide FlushStep, Stream, Admit, Outgoing, FlushWindow, Continues, AllOurs, TransmitAll;
    AdmitCarries(x.st, x.st.snd, FlushWindow(x.st), x.U, x.S, Stream(x));
  }

  lemma DataMail(x: Endpoint, y: Endpoint, n: nat, i: nat)
    requires Accepted(x) && Sending(x) && n < |Mail(x, y)| && i < |Mail(x, y)[n].wires|
    ensures DataAt(Mail(x, y)[n], i, x.st.cfg.sndWnd, Stream(x))
  {
    hide Mail, FlushWires, FlushStep, FlushSender, Transmit, ToWire, Outgoing, DataWire;
    var w := Mail(x, y)[n].wires[i];
    MailParts(x, y, n);
    MailKind(x, y, n, i);
    if w.cmd == CMD_PUSH {
      var j :| 0 <= j < |FlushSender(x.st).buf| && w == ToWire(Transmit(x.st, FlushSender(x.st).buf[j]));
      FlushOutgoing(x, y);
      StreamFits(x);
      TransmitData(x.st, FlushSender(x.st), x.U, FlushStep(x, y).S, Stream(x), j);
    } else {
      NotData(w, FlushStep(x, y).S, x.st.cfg.sndWnd, Stream(x));
    }
  }

  lemma NotData(w: Wire, S: nat, sw: posint, all: seq<Frag>)
    requires w.cmd != CMD_PUSH
    ensures DataWire(w, S, sw, all)
  {
  }

  lemma StreamFits(x: Endpoint)
    requires Accepted(x)
    ensures forall k :: 0 <= k < |Stream(x)| ==> Stream(x)[k].frg < 0x100
  {
    forall k | 0 <= k < |Stream(x)| ensures Stream(x)[k].frg < 0x100 {
      AllFragsFit(x.accepted, |x.accepted|, x.st.cfg.mss, k);
    }
  }

  lemma XFlushInFlight(x: Endpoint, y: Endpoint, toY: seq<Item>)
    requires Accepted(x) && Sending(x) && Linked(x, y) && DataInFlight(x, toY)
    ensures DataInFlight(FlushStep(x, y), toY + Mail(x, y))
  {
    hide FlushStep, Mail, Stream, DataAt, Sending, Linked, Accepted;
    var x', all := FlushStep(x, y), toY + Mail(x, y);
    XFlushSending(x, y);
    SameStream(x, y);
    forall n | 0 <= n < |all| ensures DataOk(all, x.st.cfg.sndWnd, Stream(x), x'.S, n) {
      if n < |toY| {
        assert DataOk(toY, x.st.cfg.sndWnd, Stream(x), x.S, n);
      } else {
        FreshData(x, y, n - |toY|);
      }
    }
  }

  lemma SameStream(x: Endpoint, y: Endpoint)
    ensures Stream(FlushStep(x, y)) == Stream(x) && FlushStep(x, y).st.cfg == x.st.cfg
  {
    hide FlushWires, Datagrams, TransmitAll, CountDue, LinkDead, Backoff, AllFrags, FlushSender;
  }

  lemma FreshData(x: Endpoint, y: Endpoint, n: nat)
    requires Accepted(x) && Sending(x) && n < |Mail(x, y)|
    ensures Mail(x, y)[n].sFrom == FlushStep(x, y).S
    ensures forall i :: 0 <= i < |Mail(x, y)[n].wires| ==> DataAt(Mail(x, y)[n], i, x.st.cfg.sndWnd, Stream(x))
  {
    MailParts(x, y, n);
    hide Mail, DataAt, Stream;
    forall i | 0 <= i < |Mail(x, y)[n].wires| ensures DataAt(Mail(x, y)[n], i, x.st.cfg.sndWnd, Stream(x)) {
      DataMail(x, y, n, i);
    }
  }

  /** `x` flushes. */
  lemma XFlush(x: Endpoint, y: Endpoint, toY: seq<Item>, toX: seq<Item>, age: nat)
    requires Dir(x, y, toY, toX, age)
    ensures Dir(FlushStep(x, y), y, toY + Mail(x, y), toX, age)
  {
    XFlushSending(x, y);
    XFlushInFlight(x, y, toY);
    SameStream(x, y);
    hide Stream, Mail, Sending, Continues, DataOk, NewsOk, KcpSpec.Flush, Carries, AllFrags, Linked, Answering,
         ReceiverOk;
    XFlushReceiving(x, y);
  }

  lemma XFlushReceiving(x: Endpoint, y: Endpoint)
    requires |y.received| <= |x.accepted| && Receiving(x, y)
    requires Stream(FlushStep(x, y)) == Stream(x) && FlushStep(x, y).st.cfg == x.st.cfg
    requires x.S <= FlushStep(x, y).S <= |Stream(x)|
    ensures Receiving(FlushStep(x, y), y)
  {
    hide Stream, KcpSpec.Flush, Carries, AllFrags, ReceiverOk, Continues, Key;
  }

  /** Steps of `x` that leave its sending side alone. */
  lemma XFrame(x: Endpoint, x': Endpoint, y: Endpoint, toY: seq<Item>, toX: seq<Item>, age: nat)
    requires Dir(x, y, toY, toX, age)
    requires x'.st.cfg == x.st.cfg && x'.st.snd == x.st.snd
    requires x'.U == x.U && x'.S == x.S && x'.accepted == x.accepted
    ensures Dir(x', y, toY, toX, age)
  {
    hide Outgoing, Incoming, AllOurs, Continues, Safe, Marked, AcksHeld, DataOk, NewsOk, AllFrags, Sendable;
  }

  /** Steps of `y` that leave its receiving side alone. */
  lemma YFrame(x: Endpoint, y: Endpoint, y': Endpoint, toY: seq<Item>, toX: seq<Item>, age: nat)
    requires Dir(x, y, toY, toX, age)
    requires y'.st.cfg == y.st.cfg && y'.st.rcv == y.st.rcv && y'.st.acks == y.st.acks
    requires y'.R == y.R && y'.M == y.M && y'.received == y.received
    ensures Dir(x, y', toY, toX, age)
  {
    hide Outgoing, Incoming, AllOurs, Continues, Safe, Marked, AcksHeld, DataOk, NewsOk, AllFrags, Sendable;
  }

  // ---------------------------------------------------------------- the receiver's steps

  /** An answer made from `rcv_nxt` and a queued acknowledgement is true. */
  lemma AnswerTrue(w: Wire, S: nat, age: nat, sw: posint, rw: posint, r: Receiver, R: nat, M: nat,
                   acks: seq<Ack>, all: seq<Frag>)
    requires Incoming(r, R, S, all, rw) && AcksHeld(acks, AckBase(age, sw, M), r, R)
    requires S <= R + sw + rw && M <= S <= M + sw && 2 * age + 2 * sw <= TWO31
    requires w.una == r.nxt
    requires w.cmd == CMD_ACK ==> exists j :: 0 <= j < |acks| && w.sn == acks[j].sn
    ensures NewsWire(w, S, age, sw, rw, r, R)
  {
    UnwrapInverts(S - sw - rw, R);
    if w.cmd == CMD_ACK {
      var j :| 0 <= j < |acks| && w.sn == acks[j].sn;
      var k := Unwrap(AckBase(age, sw, M), w.sn);
      assert AckAt(acks, j, AckBase(age, sw, M), r, R);
      HasBelow(R, r.buf, S);
      UnwrapWraps(AckBase(age, sw, M), w.sn);
      UnwrapInverts(S - age - 2 * sw, k);
    }
  }

  lemma NewsMail(x: Endpoint, y: Endpoint, age: nat, n: nat, i: nat)
    requires Sane(age, x.st.cfg, y.st.cfg) && |y.received| <= |x.accepted|
    requires Sending(x) && Receiving(x, y) && Linked(x, y) && Answering(x, y, age)
    requires AllOurs(y.st.cfg, y.st.snd)
    requires n < |Mail(y, x)| && i < |Mail(y, x)[n].wires|
    ensures NewsAt(Mail(y, x)[n], i, age, x.st.cfg.sndWnd, y.st.cfg.rcvWnd, y.st.rcv, y.R)
  {
    MailParts(y, x, n);
    MailKind(y, x, n, i);
    Gaps(x, y);
    hide Mail, FlushWires, Stream, FlushSender, Transmit, ToWire, FlushStep, Incoming, AcksHeld, Held;
    AnswerTrue(Mail(y, x)[n].wires[i], x.S, age, x.st.cfg.sndWnd, y.st.cfg.rcvWnd, y.st.rcv, y.R, y.M,
               y.st.acks, Stream(x));
  }

  lemma Gaps(x: Endpoint, y: Endpoint)
    requires |y.received| <= |x.accepted| && Sending(x) && Receiving(x, y) && Linked(x, y)
    ensures x.S <= y.R + y.st.cfg.rcvWnd + x.st.cfg.sndWnd
    ensures y.M <= x.S <= y.M + x.st.cfg.sndWnd
  {
    hide Stream, Safe, Has, Held, ReceiverBuf, Continues, Carries, AllOurs;
    WindowGap(x.st.snd, x.U, x.S, x.st.cfg.sndWnd, y.st.rcv, y.R, y.st.cfg.rcvWnd);
    MarkGap(x.st.snd, x.U, x.S, x.st.cfg.sndWnd, y.M);
  }

  lemma NewsKept(items: seq<Item>, age: nat, sw: posint, rw: posint, r: Receiver, R: nat, M: nat,
                 r': Receiver, R': nat, M': nat, n: nat)
    requires n < |items| && NewsOk(items, age, sw, rw, r, R, M, n)
    requires Grows(r, R, r', R') && M <= M'
    ensures NewsOk(items, age, sw, rw, r', R', M', n)
  {
    hide Unwrap, Held;
    forall i | 0 <= i < |items[n].wires| ensures NewsAt(items[n], i, age, sw, rw, r', R') {
      assert NewsAt(items[n], i, age, sw, rw, r, R);
    }
  }

  /** What the receiver said before stays true. */
  lemma AllNewsKept(x: Endpoint, y: Endpoint, y': Endpoint, toX: seq<Item>, age: nat)
    requires NewsInFlight(x, y, toX, age)
    requires Grows(y.st.rcv, y.R, y'.st.rcv, y'.R) && y.M <= y'.M && y'.st.cfg == y.st.cfg
    ensures NewsInFlight(x, y', toX, age)
  {
    hide NewsOk, Grows;
    forall n | 0 <= n < |toX|
      ensures NewsOk(toX, age, x.st.cfg.sndWnd, y.st.cfg.rcvWnd, y'.st.rcv, y'.R, y'.M, n)
    {
      assert NewsOk(toX, age, x.st.cfg.sndWnd, y.st.cfg.rcvWnd, y.st.rcv, y.R, y.M, n);
      NewsKept(toX, age, x.st.cfg.sndWnd, y.st.cfg.rcvWnd, y.st.rcv, y.R, y.M, y'.st.rcv, y'.R, y'.M, n);
    }
  }

  /** A flush leaves the receiving side as it is and empties the list of acknowledgements. */
  lemma FlushFrame(y: Endpoint, x: Endpoint)
    ensures var y' := FlushStep(y, x);
            && y'.st.cfg == y.st.cfg && y'.st.rcv == y.st.rcv && y'.R == y.R && y'.received == y.received
            && (if y.st.timer.updated then y'.M == x.S && y'.st.acks == [] else y' == y)
  {
    hide FlushWires, Datagrams, TransmitAll, CountDue, LinkDead, Backoff, FlushSender;
  }

  lemma YFlushInFlight(x: Endpoint, y: Endpoint, toX: seq<Item>, age: nat)
    requires Sane(age, x.st.cfg, y.st.cfg) && |y.received| <= |x.accepted|
    requires Sending(x) && Receiving(x, y) && Linked(x, y) && Answering(x, y, age)
    requires AllOurs(y.st.cfg, y.st.snd) && NewsInFlight(x, y, toX, age)
    ensures NewsInFlight(x, FlushStep(y, x), toX + Mail(y, x), age)
  {
    var y', all := FlushStep(y, x), toX + Mail(y, x);
    hide FlushStep, Mail, Sending, Receiving, Linked, Answering, AllOurs, NewsAt;
    FlushFrame(y, x);
    Gaps(x, y);
    forall n | 0 <= n < |all|
      ensures NewsOk(all, age, x.st.cfg.sndWnd, y.st.cfg.rcvWnd, y.st.rcv, y.R, y'.M, n)
    {
      if n < |toX| {
        assert NewsOk(toX, age, x.st.cfg.sndWnd, y.st.cfg.rcvWnd, y.st.rcv, y.R, y.M, n);
      } else {
        FreshNews(x, y, age, n - |toX|);
      }
    }
  }

  lemma FreshNews(x: Endpoint, y: Endpoint, age: nat, n: nat)
    requires Sane(age, x.st.cfg, y.st.cfg) && |y.received| <= |x.accepted|
    requires Sending(x) && Receiving(x, y) && Linked(x, y) && Answering(x, y, age)
    requires AllOurs(y.st.cfg, y.st.snd) && n < |Mail(y, x)|
    ensures y.st.timer.updated && Mail(y, x)[n].sTo == x.S
    ensures forall i :: 0 <= i < |Mail(y, x)[n].wires| ==>
              NewsAt(Mail(y, x)[n], i, age, x.st.cfg.sndWnd, y.st.cfg.rcvWnd, y.st.rcv, y.R)
  {
    MailParts(y, x, n);
    hide FlushStep, Mail, Sending, Receiving, Linked, Answering, AllOurs, NewsAt, Split, FlushWires;
    forall i | 0 <= i < |Mail(y, x)[n].wires|
      ensures NewsAt(Mail(y, x)[n], i, age, x.st.cfg.sndWnd, y.st.cfg.rcvWnd, y.st.rcv, y.R)
    {
      NewsMail(x, y, age, n, i);
    }
  }

  /** `y` flushes. */
  lemma YFlush(x: Endpoint, y: Endpoint, toY: seq<Item>, toX: seq<Item>, age: nat)
    requires Dir(x, y, toY, toX, age) && AllOurs(y.st.cfg, y.st.snd)
    ensures Dir(x, FlushStep(y, x), toY, toX + Mail(y, x), age)
  {
    FlushFrame(y, x);
    YFlushInFlight(x, y, toX, age);
    hide FlushStep, Mail, Sending, Stream, Incoming, Continues, Safe, Has, NewsInFlight, DataInFlight, AllFrags;
  }

  /** `y` takes a message, or peeks. */
  lemma YRecv(x: Endpoint, y: Endpoint, toY: seq<Item>, toX: seq<Item>, age: nat, len: int)
    requires Dir(x, y, toY, toX, age)
    ensures Dir(x, RecvStep(y, len), toY, toX, age)
  {
    hide RecvStep, Incoming, Continues, Sending, Stream, AllFrags, Grows, Safe, DataOk, NewsOk, RecvCheck;
    if RecvCheck(y.st.rcv.queue, len) >= 0 {
      RecvReceives(x, y, len);
      AllNewsKept(x, y, RecvStep(y, len), toX, age);
      KeptLinked(x, y, RecvStep(y, len), age);
    } else {
      RecvFails(y, len);
    }
  }

  lemma RecvFails(y: Endpoint, len: int)
    requires RecvCheck(y.st.rcv.queue, len) < 0
    ensures RecvStep(y, len) == y
  {
    hide RecvCheck;
  }

  lemma KeptLinked(x: Endpoint, y: Endpoint, y': Endpoint, age: nat)
    requires Linked(x, y) && Answering(x, y, age)
    requires Grows(y.st.rcv, y.R, y'.st.rcv, y'.R) && y'.M == y.M && y'.st.acks == y.st.acks
    ensures Linked(x, y') && Answering(x, y', age)
  {
    hide Has, Held, Unwrap;
    forall i | 0 <= i < |y.st.acks| ensures AckAt(y.st.acks, i, AckBase(age, x.st.cfg.sndWnd, y.M), y'.st.rcv, y'.R) {
      assert AckAt(y.st.acks, i, AckBase(age, x.st.cfg.sndWnd, y.M), y.st.rcv, y.R);
    }
  }

  /** What a successful `ikcp_recv` changes, without its results. */
  lemma RecvFrame(y: Endpoint, len: int)
    requires RecvCheck(y.st.rcv.queue, len) >= 0
    ensures var y', rcv' := RecvStep(y, len), AfterRecv(y.st.rcv, len < 0, y.st.cfg.rcvWnd);
            && y'.st.rcv == rcv' && y'.st.cfg == y.st.cfg && y'.st.acks == y.st.acks && y'.M == y.M
            && y'.R == y.R + Dist(y.st.rcv.nxt, rcv'.nxt)
            && y'.received == y.received +
               (if len < 0 then [] else [Join(y.st.rcv.queue, MergeCount(y.st.rcv.queue))])
  {
    hide AfterRecv, Join, RecvCheck;
  }

  lemma RecvChecked(q: seq<Segment>, len: int)
    requires RecvCheck(q, len) >= 0
    ensures q != [] && PeekSize(q) >= 0
  {
  }

  /** What is returned is the next message, and the rest of the queue continues after it. */
  lemma RecvTakes(x: Endpoint, y: Endpoint, len: int)
    requires Accepted(x) && Delivered(x, y) && Receiving(x, y)
    requires RecvCheck(y.st.rcv.queue, len) >= 0
    ensures Delivered(x, RecvStep(y, len))
    ensures var q, p := Popped(y.st.rcv, len < 0).queue,
                        |AllFrags(x.accepted, |RecvStep(y, len).received|, x.st.cfg.mss)|;
            Continues(q, Stream(x), p) && p + |q| == y.R
  {
    hide RecvStep, Join, AllFrags, PeekSize, MergeCount, Incoming, RecvCheck, ContinuesAt, AfterRecv, Popped,
         FragmentCount;
    var r, mss, q := |y.received|, x.st.cfg.mss, y.st.rcv.queue;
    RecvFrame(y, len);
    if len >= 0 {
      RecvChecked(q, len);
      PeekFindsMessage(q, x.accepted, r, mss);
      NextMessage(x, r);
    }
    PopContinues(y.st.rcv, len < 0, Stream(x), |AllFrags(x.accepted, r, mss)|,
                 |AllFrags(x.accepted, |RecvStep(y, len).received|, mss)|);
  }

  lemma RecvReceives(x: Endpoint, y: Endpoint, len: int)
    requires Accepted(x) && Delivered(x, y) && Receiving(x, y)
    requires RecvCheck(y.st.rcv.queue, len) >= 0
    ensures var y' := RecvStep(y, len);
            && Delivered(x, y') && Receiving(x, y') && Grows(y.st.rcv, y.R, y'.st.rcv, y'.R)
            && y'.M == y.M && y'.st.acks == y.st.acks && y'.st.cfg == y.st.cfg
  {
    hide RecvStep, RecvCheck, Join, AllFrags, Stream, Popped, Continues, Drain, Carries, Sorted, Held, ReceiverBuf;
    RecvFrame(y, len);
    RecvTakes(x, y, len);
    PoppedReady(y.st.rcv, y.R, x.S, Stream(x), y.st.cfg.rcvWnd, len < 0);
    RecvDrains(Popped(y.st.rcv, len < 0), y.R, x.S, Stream(x), y.st.cfg.rcvWnd,
               |AllFrags(x.accepted, |RecvStep(y, len).received|, x.st.cfg.mss)|);
  }

  lemma PoppedReady(r: Receiver, R: nat, S: nat, all: seq<Frag>, wnd: posint, peek: bool)
    requires Incoming(r, R, S, all, wnd)
    ensures var popped := Popped(r, peek);
            && ReceiverBuf(popped, R, wnd) && Sorted(R, popped.buf, S) && Carries(R, popped.buf, all)
            && Grows(r, R, popped, R)
  {
  }

  lemma NextMessage(x: Endpoint, r: nat)
    requires Accepted(x) && r < |x.accepted|
    ensures |AllFrags(x.accepted, r + 1, x.st.cfg.mss)|
            == |AllFrags(x.accepted, r, x.st.cfg.mss)| + FragmentCount(|x.accepted[r]|, x.st.cfg.mss)
  {
    FragmentsShape(x.accepted[r], x.st.cfg.mss);
  }

  lemma PopContinues(r: Receiver, peek: bool, all: seq<Frag>, p: nat, p': nat)
    requires Continues(r.queue, all, p)
    requires p' == if peek then p else p + MergeCount(r.queue)
    ensures var q := Popped(r, peek).queue; Continues(q, all, p') && p' + |q| == p + |r.queue|
  {
    var n, q := p' - p, Popped(r, peek).queue;
    forall i | 0 <= i < |q| ensures ContinuesAt(q, all, p', i) {
      assert ContinuesAt(r.queue, all, p, n + i);
    }
  }

  /** The move after taking a message. */
  lemma RecvDrains(popped: Receiver, R: nat, S: nat, all: seq<Frag>, wnd: posint, p: nat)
    requires ReceiverBuf(popped, R, wnd) && R <= S <= |all|
    requires Sorted(R, popped.buf, S) && Carries(R, popped.buf, all)
    requires Continues(popped.queue, all, p) && p + |popped.queue| == R
    ensures var out := Drain(popped, wnd);
            var R' := R + Dist(popped.nxt, out.nxt);
            && Incoming(out, R', S, all, wnd) && Grows(popped, R, out, R')
            && Continues(out.queue, all, p) && p + |out.queue| == R'
  {
    DrainIncoming(popped, R, S, all, wnd);
    DrainContinues(popped, R, all, wnd, p);
    U32Shift(R, KcpReceiver.Run(popped, wnd));
    BufferFits(popped, R, wnd);
    DistAdvances(R, KcpReceiver.Run(popped, wnd));
    hide Incoming, Grows, Continues, Carries, Sorted;
  }

  // ---------------------------------------------------------------- a datagram arrives

  /** What a datagram in flight does to an endpoint, without the parsing. */
  lemma HearReads(e: Endpoint, it: Item)
    requires Formed(it, e.st.cfg.conv)
    ensures KcpSpec.Input(e.st, it.data) == (InputRun(e.st, it.wires, 0), 0)
  {
    hide InputRun, Parse;
    InputReads(e.st, it.wires);
  }

  function AfterFastack(snd: Sender, m: MaxAck): Sender {
    if m.NoAck? then snd else ParseFastack(snd, m.sn)
  }

  lemma InputSender(s: State, ws: seq<Wire>)
    ensures InputRun(s, ws, 0).snd == AfterFastack(HearAll(s.snd, ws, |ws|), NoteRun(ws, |ws|))
    ensures InputRun(s, ws, 0).cfg == s.cfg
  {
    hide ProcessRun, NoteRun, ParseFastack, HearAll, Grow;
    ProcessHears(s, ws, |ws|);
  }

  lemma InputReceiver(s: State, ws: seq<Wire>)
    ensures InputRun(s, ws, 0).rcv == ProcessRun(s, ws, |ws|).rcv
    ensures InputRun(s, ws, 0).acks == ProcessRun(s, ws, |ws|).acks
    ensures InputRun(s, ws, 0).cfg == s.cfg
  {
    hide ProcessRun, NoteRun, ParseFastack, Grow;
  }

  /** A fresh segment from `y` is a true answer. */
  lemma FreshAnswer(it: Item, i: nat, age: nat, sw: posint, rw: posint, r: Receiver, R: nat, M: nat, S: nat)
    requires i < |it.wires| && NewsAt(it, i, age, sw, rw, r, R)
    requires it.sTo <= M && S - it.sTo <= age
    requires 2 * age + 2 * sw <= TWO31 && age + sw + rw < TWO31
    ensures AnswerAt(it.wires, i, S, r, R, M)
  {
    var w := it.wires[i];
    var u, k := Unwrap(it.sTo - sw - rw, w.una), Unwrap(it.sTo - age - 2 * sw, w.sn);
    UnwrapWraps(it.sTo - sw - rw, w.una);
    UnwrapWraps(it.sTo - age - 2 * sw, w.sn);
    hide Held, Unwrap, U32;
    assert Answer(w, S, r, R, M, u, k);
  }

  lemma FreshAnswers(x: Endpoint, y: Endpoint, toX: seq<Item>, age: nat, n: nat)
    requires Sane(age, x.st.cfg, y.st.cfg) && NewsInFlight(x, y, toX, age)
    requires n < |toX| && x.S - toX[n].sTo <= age
    ensures forall i :: 0 <= i < |toX[n].wires| ==> AnswerAt(toX[n].wires, i, x.S, y.st.rcv, y.R, y.M)
  {
    hide NewsAt, AnswerAt;
    assert NewsOk(toX, age, x.st.cfg.sndWnd, y.st.cfg.rcvWnd, y.st.rcv, y.R, y.M, n);
    forall i | 0 <= i < |toX[n].wires| ensures AnswerAt(toX[n].wires, i, x.S, y.st.rcv, y.R, y.M) {
      FreshAnswer(toX[n], i, age, x.st.cfg.sndWnd, y.st.cfg.rcvWnd, y.st.rcv, y.R, y.M, x.S);
    }
  }

  /** Hearing answers only removes segments and counts fast acknowledgements. */
  lemma {:induction false} HearAllOurs(cfg: Config, snd: Sender, ws: seq<Wire>, n: nat)
    requires n <= |ws| && AllOurs(cfg, snd)
    ensures AllOurs(cfg, HearAll(snd, ws, n)) && HearAll(snd, ws, n).queue == snd.queue
  {
    hide AllOurs, ParseUna, ParseAck;
    if n > 0 {
      HearAllOurs(cfg, snd, ws, n - 1);
      HearOurs(cfg, HearAll(snd, ws, n - 1), ws[n - 1]);
    }
  }

  lemma HearOurs(cfg: Config, snd: Sender, w: Wire)
    requires AllOurs(cfg, snd)
    ensures AllOurs(cfg, HearAck(snd, w)) && HearAck(snd, w).queue == snd.queue
  {
    UnaOurs(cfg, snd, w.una);
    AckOurs(cfg, Shrink(ParseUna(snd, w.una)), w.sn);
    hide AllOurs, ParseUna, ParseAck;
  }

  lemma UnaOurs(cfg: Config, snd: Sender, una: uint32)
    requires AllOurs(cfg, snd)
    ensures AllOurs(cfg, Shrink(ParseUna(snd, una))) && ParseUna(snd, una).queue == snd.queue
  {
    var n := UnaCount(snd.buf, una);
    var out := snd.buf[n..];
    forall i | 0 <= i < |out| ensures Ours(cfg, out, i) {
      assert Ours(cfg, snd.buf, n + i);
    }
  }

  lemma AckOurs(cfg: Config, snd: Sender, sn: uint32)
    requires AllOurs(cfg, snd)
    ensures AllOurs(cfg, Shrink(ParseAck(snd, sn))) && ParseAck(snd, sn).queue == snd.queue
  {
    var p := FindAck(snd.buf, sn);
    var out := ParseAck(snd, sn).buf;
    forall i | 0 <= i < |out| ensures Ours(cfg, out, i) {
      assert Ours(cfg, snd.buf, i);
      assert i + 1 < |snd.buf| ==> Ours(cfg, snd.buf, i + 1);
    }
  }

  lemma FastackOurs(cfg: Config, snd: Sender, m: MaxAck)
    requires AllOurs(cfg, snd)
    ensures AllOurs(cfg, AfterFastack(snd, m)) && AfterFastack(snd, m).queue == snd.queue
  {
    var out := AfterFastack(snd, m).buf;
    forall i | 0 <= i < |out| ensures Ours(cfg, out, i) {
      assert Ours(cfg, snd.buf, i);
    }
  }

  lemma AfterFastackSafe(snd: Sender, U: nat, S: nat, all: seq<Frag>, wnd: posint, r: Receiver, R: nat, M: nat,
                         m: MaxAck)
    requires Outgoing(snd, U, S, all, wnd) && Safe(snd, U, S, r, R) && Marked(snd, U, S, M)
    ensures var out := AfterFastack(snd, m);
            Outgoing(out, U, S, all, wnd) && Safe(out, U, S, r, R) && Marked(out, U, S, M)
  {
    hide Outgoing, Safe, Marked, ParseFastack;
    if m.MaxAck? {
      FastackSafe(snd, U, S, all, wnd, r, R, M, m.sn);
    }
  }

  /** The sending side after a datagram of true answers. */
  lemma HeardSender(x: Endpoint, y: Endpoint, ws: seq<Wire>) returns (U': nat)
    requires Sending(x) && Linked(x, y)
    requires forall i :: 0 <= i < |ws| ==> AnswerAt(ws, i, x.S, y.st.rcv, y.R, y.M)
    ensures var snd := InputRun(x.st, ws, 0).snd;
            && x.U <= U'
            && Outgoing(snd, U', x.S, Stream(x), x.st.cfg.sndWnd)
            && Safe(snd, U', x.S, y.st.rcv, y.R) && Marked(snd, U', x.S, y.M)
            && AllOurs(x.st.cfg, snd) && snd.queue == x.st.snd.queue
  {
    hide Outgoing, Safe, Marked, AllOurs, Stream, InputRun, AfterFastack, HearAll, AnswerAt, Continues;
    InputSender(x.st, ws);
    U' := HearAllSafe(x.st.snd, x.U, x.S, Stream(x), x.st.cfg.sndWnd, y.st.rcv, y.R, y.M, ws, |ws|);
    HearAllOurs(x.st.cfg, x.st.snd, ws, |ws|);
    var heard := HearAll(x.st.snd, ws, |ws|);
    AfterFastackSafe(heard, U', x.S, Stream(x), x.st.cfg.sndWnd, y.st.rcv, y.R, y.M, NoteRun(ws, |ws|));
    FastackOurs(x.st.cfg, heard, NoteRun(ws, |ws|));
  }

  lemma UnaAdvances(x: Endpoint, snd: Sender, U': nat)
    requires Sending(x) && x.U <= U' && Outgoing(snd, U', x.S, Stream(x), x.st.cfg.sndWnd)
    ensures x.U + Dist(x.st.snd.una, snd.una) == U'
  {
    DistAdvances(x.U, U' - x.U);
    hide Stream, Carries, Sorted;
  }

  /** `x` hears a datagram. */
  lemma XHear(x: Endpoint, y: Endpoint, toY: seq<Item>, toX: seq<Item>, age: nat, n: nat)
    requires Dir(x, y, toY, toX, age)
    requires n < |toX| && Formed(toX[n], x.st.cfg.conv) && x.S - toX[n].sTo <= age
    ensures Dir(HearStep(x, toX[n].data), y, toY, toX, age)
  {
    hide Outgoing, Safe, Marked, AllOurs, InputRun, Formed, AnswerAt, Incoming, DataOk, NewsOk, AcksHeld,
         KcpSpec.Input, AllFrags, Continues;
    HearReads(x, toX[n]);
    FreshAnswers(x, y, toX, age, n);
    var U' := HeardSender(x, y, toX[n].wires);
    InputSender(x.st, toX[n].wires);
    UnaAdvances(x, InputRun(x.st, toX[n].wires, 0).snd, U');
    hide HearAll, NoteRun, AfterFastack, Dist;
  }

  // ---------------------------------------------------------------- data arrives

  /** What an honest data segment says to a receiver; its number is not below `base`. */
  ghost predicate PushAt(ws: seq<Wire>, i: nat, S: nat, all: seq<Frag>, rw: posint, base: int)
    requires i < |ws|
  {
    ws[i].cmd == CMD_PUSH ==> exists k :: base <= k && Push(ws[i], S, all, rw, k)
  }

  /** The receiving side is well formed and every queued acknowledgement is of a held segment. */
  ghost predicate HeardOk(s: State, R: nat, S: nat, all: seq<Frag>, p: nat, base: int) {
    && Incoming(s.rcv, R, S, all, s.cfg.rcvWnd)
    && Continues(s.rcv.queue, all, p) && p + |s.rcv.queue| == R
    && AcksHeld(s.acks, base, s.rcv, R)
  }

  lemma AcksKept(acks: seq<Ack>, base: int, r: Receiver, R: nat, r': Receiver, R': nat)
    requires AcksHeld(acks, base, r, R) && Grows(r, R, r', R')
    ensures AcksHeld(acks, base, r', R')
  {
    hide Held, Unwrap;
    forall i | 0 <= i < |acks| ensures AckAt(acks, i, base, r', R') {
      assert AckAt(acks, i, base, r, R);
    }
  }

  lemma AckAdded(acks: seq<Ack>, a: Ack, base: int, r: Receiver, R: nat, k: int)
    requires AcksHeld(acks, base, r, R) && Held(r, R, k)
    requires a.sn == U32(k) && base <= k < base + TWO32
    ensures AcksHeld(acks + [a], base, r, R)
  {
    UnwrapInverts(base, k);
    hide Held, Unwrap;
    forall i | 0 <= i < |acks + [a]| ensures AckAt(acks + [a], i, base, r, R) {
      assert i < |acks| ==> AckAt(acks, i, base, r, R);
    }
  }

  /** One segment of a datagram: what is acknowledged is held, and what is held stays. */
  lemma ProcessPush(s: State, R: nat, S: nat, all: seq<Frag>, p: nat, base: int, w: Wire) returns (R': nat)
    requires HeardOk(s, R, S, all, p, base) && S < R + TWO31 && S <= base + TWO32
    requires w.cmd == CMD_PUSH ==> exists k :: base <= k && Push(w, S, all, s.cfg.rcvWnd, k)
    ensures R <= R' && HeardOk(Process(s, w), R', S, all, p, base)
    ensures Grows(s.rcv, R, Process(s, w).rcv, R')
  {
    hide Incoming, Continues, AcksHeld, HearAck, UpdateAck, AcceptPush, Held, BelowWindow;
    R' := R;
    if w.cmd == CMD_PUSH {
      var k :| base <= k && Push(w, S, all, s.cfg.rcvWnd, k);
      R' := AcceptPushSafe(s.rcv, R, S, all, s.cfg.rcvWnd, p, w, k);
      var rcv := AcceptPush(s.rcv, s.cfg.rcvWnd, w);
      AcksKept(s.acks, base, s.rcv, R, rcv, R');
      if BelowWindow(s.rcv, s.cfg.rcvWnd, w.sn) {
        AckAdded(s.acks, Ack(w.sn, w.ts), base, rcv, R', k);
      }
    }
  }

  lemma {:induction false} RunPush(s: State, R: nat, S: nat, all: seq<Frag>, p: nat, base: int,
                                   ws: seq<Wire>, n: nat) returns (R': nat)
    requires n <= |ws|
    requires HeardOk(s, R, S, all, p, base) && S < R + TWO31 && S <= base + TWO32
    requires forall i :: 0 <= i < |ws| ==> PushAt(ws, i, S, all, s.cfg.rcvWnd, base)
    ensures R <= R' && HeardOk(ProcessRun(s, ws, n), R', S, all, p, base)
    ensures Grows(s.rcv, R, ProcessRun(s, ws, n).rcv, R')
  {
    hide HeardOk, Process, Push, Held;
    R' := R;
    if n > 0 {
      var mid := RunPush(s, R, S, all, p, base, ws, n - 1);
      assert PushAt(ws, n - 1, S, all, s.cfg.rcvWnd, base);
      R' := ProcessPush(ProcessRun(s, ws, n - 1), mid, S, all, p, base, ws[n - 1]);
    }
  }

  /** A fresh data segment from `x` is an honest push. */
  lemma FreshPush(it: Item, i: nat, age: nat, sw: posint, rw: posint, all: seq<Frag>, S: nat, base: int)
    requires i < |it.wires| && DataAt(it, i, sw, all)
    requires it.sFrom <= S <= |all| && S - it.sFrom <= age
    requires age + sw + rw < TWO31 && base <= S - age - sw
    ensures PushAt(it.wires, i, S, all, rw, base)
  {
    var w := it.wires[i];
    if w.cmd == CMD_PUSH {
      var k := Unwrap(it.sFrom - sw, w.sn);
      UnwrapWraps(it.sFrom - sw, w.sn);
      assert base <= k && Push(w, S, all, rw, k);
    }
  }

  lemma FreshPushes(x: Endpoint, y: Endpoint, toY: seq<Item>, age: nat, n: nat)
    requires Sane(age, x.st.cfg, y.st.cfg) && DataInFlight(x, toY) && x.S <= |Stream(x)| && y.M <= x.S
    requires n < |toY| && x.S - toY[n].sFrom <= age
    ensures forall i :: 0 <= i < |toY[n].wires| ==>
              PushAt(toY[n].wires, i, x.S, Stream(x), y.st.cfg.rcvWnd, AckBase(age, x.st.cfg.sndWnd, y.M))
  {
    hide DataAt, PushAt, Stream;
    assert DataOk(toY, x.st.cfg.sndWnd, Stream(x), x.S, n);
    forall i | 0 <= i < |toY[n].wires|
      ensures PushAt(toY[n].wires, i, x.S, Stream(x), y.st.cfg.rcvWnd, AckBase(age, x.st.cfg.sndWnd, y.M))
    {
      FreshPush(toY[n], i, age, x.st.cfg.sndWnd, y.st.cfg.rcvWnd, Stream(x), x.S,
                AckBase(age, x.st.cfg.sndWnd, y.M));
    }
  }

  lemma NextAdvances(y: Endpoint, rcv: Receiver, R': nat, S: nat, all: seq<Frag>, wnd: posint)
    requires Incoming(y.st.rcv, y.R, S, all, wnd) && Incoming(rcv, R', S, all, wnd)
    requires y.R <= R' && S < y.R + TWO31
    ensures y.R + Dist(y.st.rcv.nxt, rcv.nxt) == R'
  {
    DistAdvances(y.R, R' - y.R);
    hide Carries, Sorted;
  }

  /** The receiving side after a datagram of honest data. */
  lemma HeardReceiver(x: Endpoint, y: Endpoint, toY: seq<Item>, age: nat, n: nat) returns (R': nat)
    requires Sane(age, x.st.cfg, y.st.cfg) && |y.received| <= |x.accepted|
    requires Sending(x) && Receiving(x, y) && Linked(x, y) && Answering(x, y, age) && DataInFlight(x, toY)
    requires n < |toY| && x.S - toY[n].sFrom <= age
    ensures var out := ProcessRun(y.st, toY[n].wires, |toY[n].wires|);
            && HeardOk(out, R', x.S, Stream(x), |AllFrags(x.accepted, |y.received|, x.st.cfg.mss)|,
                       AckBase(age, x.st.cfg.sndWnd, y.M))
            && Grows(y.st.rcv, y.R, out.rcv, R')
            && y.R + Dist(y.st.rcv.nxt, out.rcv.nxt) == R'
  {
    hide Stream, AllFrags, Continues, AcksHeld, AllOurs, DataOk, Safe, Has, Held, ProcessRun, PushAt, Carries,
         Sorted, SenderOk;
    var ws, base := toY[n].wires, AckBase(age, x.st.cfg.sndWnd, y.M);
    Gaps(x, y);
    FreshPushes(x, y, toY, age, n);
    R' := RunPush(y.st, y.R, x.S, Stream(x), |AllFrags(x.accepted, |y.received|, x.st.cfg.mss)|, base, ws, |ws|);
    NextAdvances(y, ProcessRun(y.st, ws, |ws|).rcv, R', x.S, Stream(x), y.st.cfg.rcvWnd);
  }

  /** `y` hears a datagram. */
  lemma YHear(x: Endpoint, y: Endpoint, toY: seq<Item>, toX: seq<Item>, age: nat, n: nat)
    requires Dir(x, y, toY, toX, age)
    requires n < |toY| && Formed(toY[n], y.st.cfg.conv) && x.S - toY[n].sFrom <= age
    ensures Dir(x, HearStep(y, toY[n].data), toY, toX, age)
  {
    hide Stream, AllFrags, Continues, AcksHeld, DataInFlight, Held, ProcessRun, Incoming, Sending, Formed, InputRun,
         KcpSpec.Input, Dist, Grows, NewsInFlight, Safe, Marked;
    HearReads(y, toY[n]);
    var R' := HeardReceiver(x, y, toY, age, n);
    InputReceiver(y.st, toY[n].wires);
    AllNewsKept(x, y, HearStep(y, toY[n].data), toX, age);
    GrownSafe(x, y, HearStep(y, toY[n].data));
  }

  lemma GrownSafe(x: Endpoint, y: Endpoint, y': Endpoint)
    requires Linked(x, y) && Grows(y.st.rcv, y.R, y'.st.rcv, y'.R) && y'.M == y.M
    ensures Linked(x, y')
  {
    hide Has, Held;
  }

  // ---------------------------------------------------------------- any step

  lemma MailAllFormed(e: Endpoint, peer: Endpoint, items: seq<Item>)
    requires AllOurs(e.st.cfg, e.st.snd) && AllFormed(items, e.st.cfg.conv)
    ensures AllFormed(items + Mail(e, peer), e.st.cfg.conv)
  {
    hide Mail, Formed, AllOurs;
    var all := items + Mail(e, peer);
    forall n | 0 <= n < |all| ensures Formed(all[n], e.st.cfg.conv) {
      if n >= |items| {
        MailFormed(e, peer, n - |items|);
      }
    }
  }

  lemma DirOurs(x: Endpoint, y: Endpoint, toY: seq<Item>, toX: seq<Item>, age: nat)
    requires Dir(x, y, toY, toX, age)
    ensures AllOurs(x.st.cfg, x.st.snd) && x.st.cfg.conv == y.st.cfg.conv
  {
  }

  lemma FlushKeeps(s: System)
    requires Inv(s)
    ensures Inv(FlushAt(s))
  {
    DirOurs(s.a, s.b, s.toB, s.toA, s.age);
    SameStream(s.a, s.b);
    hide Dir, Mail, FlushStep, Formed, AllOurs;
    XFlush(s.a, s.b, s.toB, s.toA, s.age);
    YFlush(s.b, s.a, s.toA, s.toB, s.age);
    MailAllFormed(s.a, s.b, s.toB);
  }

  lemma TickKeeps(s: System, now: uint32)
    requires Inv(s)
    ensures Inv(s.(a := Tick(s.a, now)))
  {
    hide Dir, Formed, NextTimer;
    XFrame(s.a, Tick(s.a, now), s.b, s.toB, s.toA, s.age);
    YFrame(s.b, s.a, Tick(s.a, now), s.toA, s.toB, s.age);
  }

  lemma SendKeeps(s: System, data: bytes)
    requires Inv(s)
    ensures Inv(s.(a := SendStep(s.a, data)))
  {
    hide Dir, Formed, SendQueue;
    XSend(s.a, s.b, s.toB, s.toA, s.age, data);
    YFrame(s.b, s.a, SendStep(s.a, data), s.toA, s.toB, s.age);
  }

  lemma RecvKeeps(s: System, len: int)
    requires Inv(s)
    ensures Inv(s.(a := RecvStep(s.a, len)))
  {
    hide Dir, Formed, RecvCheck, AfterRecv, Join;
    XFrame(s.a, RecvStep(s.a, len), s.b, s.toB, s.toA, s.age);
    YRecv(s.b, s.a, s.toA, s.toB, s.age, len);
  }

  lemma DeliverKeeps(s: System, i: nat)
    requires Inv(s) && i < |s.toA| && Fresh(s, s.toA[i])
    ensures Inv(s.(a := HearStep(s.a, s.toA[i].data)))
  {
    HearReads(s.a, s.toA[i]);
    InputReceiver(s.a.st, s.toA[i].wires);
    hide Dir, Formed, KcpSpec.Input, InputRun, ProcessRun;
    XHear(s.a, s.b, s.toB, s.toA, s.age, i);
    YHear(s.b, s.a, s.toA, s.toB, s.age, i);
  }

  lemma DoKeeps(s: System, step: Step)
    requires Inv(s) && Enabled(s, step)
    ensures Inv(Do(s, step))
  {
    hide Inv, SendStep, RecvStep, HearStep, FlushAt, NextTimer;
    match step
    case Send(data) => SendKeeps(s, data);
    case Recv(len) => RecvKeeps(s, len);
    case Flush => FlushKeeps(s);
    case Update(now) =>
      TickKeeps(s, now);
      if UpdateFlushes(s.a.st.timer, now) {
        FlushKeeps(s.(a := Tick(s.a, now)));
      }
    case Deliver(i) => DeliverKeeps(s, i);
  }

  lemma MirrorKeeps(s: System)
    requires Inv(s)
    ensures Inv(Mirror(s))
  {
    DirOurs(s.a, s.b, s.toB, s.toA, s.age);
    hide Dir, Formed;
  }

  lemma NextKeeps(s: System, t: System)
    requires Inv(s) && Next(s, t)
    ensures Inv(t)
  {
    hide Inv, Do, Enabled;
    if step :| Enabled(s, step) && t == Do(s, step) {
      DoKeeps(s, step);
    } else {
      var step :| Enabled(Mirror(s), step) && t == Mirror(Do(Mirror(s), step));
      MirrorKeeps(s);
      DoKeeps(Mirror(s), step);
      MirrorKeeps(Do(Mirror(s), step));
    }
  }
}
