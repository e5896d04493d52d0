/**
 What KCP promises its users, for every run of two endpoints in message mode over a network that
 drops, duplicates and reorders datagrams.
 */
module KcpSafety {
  import opened Serial
  import opened KcpWire
  import opened KcpSpec
  import opened KcpSender
  import opened KcpReceiver
  import opened KcpMessages
  import opened KcpPacking
  import opened KcpLink
  import opened KcpSystem
  import opened KcpSteps

  lemma {:induction false} InvHolds(trace: seq<System>, i: nat)
    requires Execution(trace) && i < |trace|
    ensures Inv(trace[i])
  {
    hide Inv, Next;
    if i == 0 {
      InitInv(trace[0]);
    } else {
      InvHolds(trace, i - 1);
      NextKeeps(trace[i - 1], trace[i]);
    }
  }

  function Mirrored(trace: seq<System>): (m: seq<System>)
    ensures |m| == |trace|
  {
    seq(|trace|, i requires 0 <= i < |trace| => Mirror(trace[i]))
  }

  /** A run seen from the other endpoint is a run, so what is shown for one direction below holds for
      both. */
  lemma MirrorRuns(trace: seq<System>)
    requires Execution(trace)
    ensures Execution(Mirrored(trace))
  {
    hide Do, Enabled;
    var m := Mirrored(trace);
    forall i | 0 <= i < |m| - 1 ensures Next(m[i], m[i + 1]) {
      MirrorNext(trace[i], trace[i + 1]);
    }
  }

  lemma MirrorNext(s: System, t: System)
    requires Next(s, t)
    ensures Next(Mirror(s), Mirror(t))
  {
    hide Do, Enabled;
    assert Mirror(Mirror(s)) == s && Mirror(Mirror(t)) == t;
    if step :| Enabled(s, step) && t == Do(s, step) {
      assert Enabled(Mirror(Mirror(s)), step) && Mirror(t) == Mirror(Do(Mirror(Mirror(s)), step));
    } else {
      var step :| Enabled(Mirror(s), step) && t == Mirror(Do(Mirror(s), step));
      assert Mirror(t) == Do(Mirror(s), step);
    }
  }

  /** End-to-end safety: at any time in any run, the messages received on either side are a prefix
      of the messages accepted on the other, byte for byte, none merged, split, repeated or lost. */
  lemma MessagesArriveInOrder(trace: seq<System>, i: nat)
    requires Execution(trace) && i < |trace|
    ensures trace[i].b.received <= trace[i].a.accepted
    ensures trace[i].a.received <= trace[i].b.accepted
  {
    InvHolds(trace, i);
    hide Sending, Receiving, Linked, Answering, DataInFlight, NewsInFlight, Formed;
  }

  /** No acknowledged loss: a number below `snd_nxt` is still in the send buffer, or the peer has it,
      in order or in its reorder buffer. */
  lemma NothingAcknowledgedIsLost(trace: seq<System>, i: nat, k: nat)
    requires Execution(trace) && i < |trace| && k < trace[i].a.S
    ensures var a, b := trace[i].a, trace[i].b;
            && a.st.snd.nxt == U32(a.S) && a.st.snd.una == U32(a.U) && b.st.rcv.nxt == U32(b.R)
            && (Has(a.U, a.st.snd.buf, k) || k < b.R || Has(b.R, b.st.rcv.buf, k))
  {
    InvHolds(trace, i);
    hide Has, Answering, DataInFlight, NewsInFlight, Formed, Delivered, Carries, AllOurs, Continues, Sorted;
    assert Has(trace[i].a.U, trace[i].a.st.snd.buf, k) || Held(trace[i].b.st.rcv, trace[i].b.R, k);
  }

  /** Every acknowledgement still queued at the receiver names a segment that it has. The number is
      meant as the one index in the 2^31 below the sender's `snd_nxt`. */
  lemma QueuedAcksAreHeld(trace: seq<System>, i: nat, j: nat)
    requires Execution(trace) && i < |trace| && j < |trace[i].b.st.acks|
    ensures var a, b := trace[i].a, trace[i].b; NamesHeld(b.st.acks[j].sn, a.S, b.st.rcv, b.R)
  {
    InvHolds(trace, i);
    var a, b := trace[i].a, trace[i].b;
    var sw := a.st.cfg.sndWnd;
    Gaps(a, b);
    hide Sending, Linked, Delivered, DataInFlight, NewsInFlight, Formed, Has, Carries, Continues, AllFrags;
    var base := AckBase(trace[i].age, sw, b.M);
    assert AckAt(b.st.acks, j, base, b.st.rcv, b.R);
    UnwrapWraps(base, b.st.acks[j].sn);
    HeldBelow(b.st.rcv, b.R, a.S, Stream(a), b.st.cfg.rcvWnd);
    hide Unwrap, U32;
    assert Held(b.st.rcv, b.R, Unwrap(base, b.st.acks[j].sn));
  }

  lemma HeldBelow(r: Receiver, R: nat, S: nat, all: seq<Frag>, wnd: posint)
    requires Incoming(r, R, S, all, wnd)
    ensures forall k :: Held(r, R, k) ==> k < S
  {
    HasBelow(R, r.buf, S);
  }

  /** The 32-bit number `sn` stands for an index below `S`, and no more than 2^31 below, which is held. */
  ghost predicate NamesHeld(sn: uint32, S: nat, r: Receiver, R: nat) {
    exists k: nat :: S - TWO31 <= k < S && sn == U32(k) && Held(r, R, k)
  }

  /** The 32-bit number `una` stands for an index up to `S`, and less than 2^31 below, and everything
      before it has been received in order. */
  ghost predicate NamesReceived(una: uint32, S: nat, R: nat) {
    exists u: int :: S - TWO31 < u <= S && u <= R && una == U32(u)
  }

  /** Only one index qualifies, so neither predicate can be met by wrapping round. */
  lemma IndexIsUnique(S: nat, u: int, v: int)
    requires S - TWO31 <= u <= S && S - TWO31 <= v <= S && U32(u) == U32(v)
    ensures u == v
  {
  }

  /** What an answering segment says to a peer that had numbered `S` fragments when it was sent. */
  ghost predicate TrueAnswer(w: Wire, S: nat, r: Receiver, R: nat) {
    NamesReceived(w.una, S, R) && (w.cmd == CMD_ACK ==> NamesHeld(w.sn, S, r, R))
  }

  lemma NewsIsTrue(w: Wire, S: nat, age: nat, sw: posint, rw: posint, r: Receiver, R: nat)
    requires NewsWire(w, S, age, sw, rw, r, R)
    requires 2 * age + 2 * sw <= TWO31 && age + sw + rw < TWO31
    ensures TrueAnswer(w, S, r, R)
  {
    UnwrapWraps(S - sw - rw, w.una);
    UnwrapWraps(S - age - 2 * sw, w.sn);
    hide Unwrap, U32, Has;
    var u, k := Unwrap(S - sw - rw, w.una), Unwrap(S - age - 2 * sw, w.sn);
    assert w.una == U32(u);
    assert w.cmd == CMD_ACK ==> w.sn == U32(k) && Held(r, R, k);
  }

  lemma InvNews(s: System, n: nat, j: nat)
    requires Inv(s) && n < |s.toA| && j < |s.toA[n].wires|
    ensures s.toA[n].data == EncodeAll(s.toA[n].wires)
    ensures NewsAt(s.toA[n], j, s.age, s.a.st.cfg.sndWnd, s.b.st.cfg.rcvWnd, s.b.st.rcv, s.b.R)
    ensures Sane(s.age, s.a.st.cfg, s.b.st.cfg) && s.toA[n].sTo <= s.a.S
  {
    assert Formed(s.toA[n], s.a.st.cfg.conv);
    hide Sending, Receiving, Safe, Has, Delivered, DataInFlight, Answering, Formed, NewsAt, EncodeAll, Understood;
    assert NewsOk(s.toA, s.age, s.a.st.cfg.sndWnd, s.b.st.cfg.rcvWnd, s.b.st.rcv, s.b.R, s.b.M, n);
  }

  /** Every `una` in flight, and every acknowledgement, names only segments that the sender of the
      datagram has; the indices are those in the 2^31 below what its peer had numbered. */
  lemma AnswersInFlightAreHeld(trace: seq<System>, i: nat, n: nat, j: nat)
    requires Execution(trace) && i < |trace|
    requires n < |trace[i].toA| && j < |trace[i].toA[n].wires|
    ensures var it := trace[i].toA[n];
            && it.data == EncodeAll(it.wires) && it.sTo <= trace[i].a.S
            && TrueAnswer(it.wires[j], it.sTo, trace[i].b.st.rcv, trace[i].b.R)
  {
    hide Inv, TrueAnswer, Execution, NewsWire, EncodeAll;
    InvHolds(trace, i);
    var s := trace[i];
    InvNews(s, n, j);
    NewsIsTrue(s.toA[n].wires[j], s.toA[n].sTo, s.age, s.a.st.cfg.sndWnd, s.b.st.cfg.rcvWnd, s.b.st.rcv, s.b.R);
  }

  /** Every datagram of a run is accepted with result 0 at any time. */
  lemma DatagramsAreAccepted(trace: seq<System>, i: nat, n: nat)
    requires Execution(trace) && i < |trace| && n < |trace[i].toA|
    ensures Input(trace[i].a.st, trace[i].toA[n].data).1 == 0
  {
    InvHolds(trace, i);
    assert Formed(trace[i].toA[n], trace[i].a.st.cfg.conv);
    hide Dir, Formed, KcpSpec.Input, InputRun;
    HearReads(trace[i].a, trace[i].toA[n]);
  }

  /** The age limit is no limit while neither side has numbered more than `age` fragments. */
  lemma YoungNetworkIsFree(s: System, it: Item)
    requires s.a.S <= s.age && s.b.S <= s.age
    ensures Fresh(s, it)
  {
  }

  /** What a successful read of message `m` by `b` looks like. */
  ghost predicate ReadsMessage(b: Endpoint, len: int, m: bytes) {
    var (st, ret, out) := KcpSpec.Recv(b.st, len);
    && ret == |m| && out == m
    && ReceiverOk(st.rcv, b.R + Dist(b.st.rcv.nxt, st.rcv.nxt), b.st.cfg.rcvWnd)
    && (st.probe.askTell <==> b.st.probe.askTell || |st.rcv.queue| < b.st.cfg.rcvWnd)
  }

  /** Receive deadlock, exactly: when the receive queue is full, the next message can be read if it has at
      most `rcv_wnd` fragments. Then `ikcp_recv` with room for it returns exactly that message, refills the
      queue as far as it can, and asks for a window announcement exactly if the queue ends below the
      window. With more fragments every call returns -2. */
  lemma FullQueueCanBeRead(trace: seq<System>, i: nat, len: nat)
    requires Execution(trace) && i < |trace|
    requires |trace[i].b.st.rcv.queue| == trace[i].b.st.cfg.rcvWnd
    ensures var a, b := trace[i].a, trace[i].b;
            var r := |b.received|;
            && r < |a.accepted|
            && (if FragmentCount(|a.accepted[r]|, a.st.cfg.mss) > b.st.cfg.rcvWnd
                then forall l: int :: KcpSpec.Recv(b.st, l).1 == -2
                else |a.accepted[r]| <= len ==> ReadsMessage(b, len, a.accepted[r]))
  {
    hide Dir, Formed, ReadsMessage, Execution, FragmentCount, KcpSpec.Recv;
    InvHolds(trace, i);
    FullQueueReads(trace[i].a, trace[i].b, trace[i].toB, trace[i].toA, trace[i].age, len);
  }

  lemma FullQueueReads(a: Endpoint, b: Endpoint, toB: seq<Item>, toA: seq<Item>, age: nat, len: nat)
    requires Dir(a, b, toB, toA, age) && |b.st.rcv.queue| == b.st.cfg.rcvWnd
    ensures var r := |b.received|;
            && r < |a.accepted|
            && (if FragmentCount(|a.accepted[r]|, a.st.cfg.mss) > b.st.cfg.rcvWnd
                then forall l: int :: KcpSpec.Recv(b.st, l).1 == -2
                else |a.accepted[r]| <= len ==> ReadsMessage(b, len, a.accepted[r]))
  {
    hide Sending, Linked, Answering, DataInFlight, NewsInFlight, Continues, AllFrags, RecvCheck, AfterRecv, Join,
         PeekSize, MergeCount, FragmentCount, Grows;
    NextMessageQueued(a, b);
    var r := |b.received|;
    if FragmentCount(|a.accepted[r]|, a.st.cfg.mss) > b.st.cfg.rcvWnd {
      forall l: int ensures KcpSpec.Recv(b.st, l).1 == -2 {
        NothingToPeek(b.st, l);
      }
    } else if |a.accepted[r]| <= len {
      RecvReturns(b.st, len, a.accepted[r]);
      RecvReceives(a, b, len);
    }
  }

  lemma NothingToPeek(s: State, len: int)
    requires s.rcv.queue != [] && PeekSize(s.rcv.queue) < 0
    ensures KcpSpec.Recv(s, len).1 == -2
  {
    hide PeekSize;
  }

  lemma NextMessageQueued(a: Endpoint, b: Endpoint)
    requires Accepted(a) && Delivered(a, b) && Receiving(a, b) && b.st.rcv.queue != []
    ensures var r, q := |b.received|, b.st.rcv.queue;
            && r < |a.accepted|
            && (PeekSize(q) >= 0 <==> FragmentCount(|a.accepted[r]|, a.st.cfg.mss) <= |q|)
            && (PeekSize(q) >= 0 ==> PeekSize(q) == |a.accepted[r]| && Join(q, MergeCount(q)) == a.accepted[r])
  {
    hide Incoming, Continues, AllFrags, PeekSize, Join, MergeCount, FragmentCount;
    PeekFindsMessage(b.st.rcv.queue, a.accepted, |b.received|, a.st.cfg.mss);
  }

  lemma RecvReturns(s: State, len: nat, m: bytes)
    requires var q := s.rcv.queue; q != [] && PeekSize(q) == |m| <= len && Join(q, MergeCount(q)) == m
    ensures RecvCheck(s.rcv.queue, len) >= 0
    ensures var (st, ret, out) := KcpSpec.Recv(s, len);
            && ret == |m| && out == m
            && (st.probe.askTell <==> s.probe.askTell || |st.rcv.queue| < s.cfg.rcvWnd <= |s.rcv.queue|)
  {
    hide PeekSize, Join, AfterRecv;
  }

  function Abs(x: int): nat { if x < 0 then 0 - x else x }

  /** The result of `ikcp_recv` at any time, with length `len` or as a peek with minus that length: -1 if
      nothing is queued, -2 if the next message is not complete, -3 if it is longer, and otherwise its length,
      with the message in the buffer. After an error everything is as before. */
  lemma ReceiveResult(trace: seq<System>, i: nat, len: int)
    requires Execution(trace) && i < |trace|
    ensures var a, b := trace[i].a, trace[i].b;
            var r, q := |b.received|, b.st.rcv.queue;
            var (st, ret, out) := KcpSpec.Recv(b.st, len);
            && (q != [] ==> r < |a.accepted|)
            && (ret < 0 ==> st == b.st && out == [])
            && if q == [] then ret == -1
               else if |q| < FragmentCount(|a.accepted[r]|, a.st.cfg.mss) then ret == -2
               else if Abs(len) < |a.accepted[r]| then ret == -3
               else ret == |a.accepted[r]| && out == a.accepted[r]
  {
    hide Dir, Formed, Execution, FragmentCount, KcpSpec.Recv;
    InvHolds(trace, i);
    ReceiveResultOf(trace[i].a, trace[i].b, trace[i].toB, trace[i].toA, trace[i].age, len);
  }

  lemma ReceiveResultOf(a: Endpoint, b: Endpoint, toB: seq<Item>, toA: seq<Item>, age: nat, len: int)
    requires Dir(a, b, toB, toA, age)
    ensures var r, q := |b.received|, b.st.rcv.queue;
            var (st, ret, out) := KcpSpec.Recv(b.st, len);
            && (q != [] ==> r < |a.accepted|)
            && (ret < 0 ==> st == b.st && out == [])
            && if q == [] then ret == -1
               else if |q| < FragmentCount(|a.accepted[r]|, a.st.cfg.mss) then ret == -2
               else if Abs(len) < |a.accepted[r]| then ret == -3
               else ret == |a.accepted[r]| && out == a.accepted[r]
  {
    hide Sending, Linked, Answering, DataInFlight, NewsInFlight, Continues, AllFrags, AfterRecv, Join,
         PeekSize, MergeCount, FragmentCount;
    if b.st.rcv.queue != [] {
      NextMessageQueued(a, b);
    }
  }

  // ---------------------------------------------------------------- messages that are too long

  /** Everything that `b` has read fits its window. */
  ghost predicate ReadsFit(a: Endpoint, b: Endpoint) {
    forall m :: m in b.received ==> FragmentCount(|m|, a.st.cfg.mss) <= b.st.cfg.rcvWnd
  }

  /** What a step at `a` does to the history. */
  lemma StepHistory(s: System, step: Step)
    requires Enabled(s, step)
    ensures var t := Do(s, step);
            && t.b == s.b && t.a.st.cfg == s.a.st.cfg && s.a.accepted <= t.a.accepted
            && (t.a.received == s.a.received
                || (RecvCheck(s.a.st.rcv.queue, if step.Recv? then step.len else 0) >= 0
                    && t.a.received
                       == s.a.received + [Join(s.a.st.rcv.queue, MergeCount(s.a.st.rcv.queue))]))
  {
    hide SendQueue, RecvCheck, AfterRecv, NextTimer, UpdateFlushes, Join, MergeCount, KcpSpec.Flush, KcpSpec.Input;
    match step
    case Flush => FlushConfig(s.a.st);
    case Update(now) => FlushConfig(Tick(s.a, now).st);
    case Deliver(i) => InputConfig(s.a.st, s.toA[i].data);
    case _ =>
  }

  lemma FlushConfig(s: State)
    ensures KcpSpec.Flush(s).0.cfg == s.cfg
  {
    hide FlushWires, Datagrams, TransmitAll, CountDue, LinkDead, Backoff, FlushSender;
  }

  lemma InputConfig(s: State, datagram: bytes)
    ensures KcpSpec.Input(s, datagram).0.cfg == s.cfg
  {
    hide Parse, ProcessRun, NoteRun, Grow, ParseFastack;
  }

  lemma NextReads(s: System, t: System)
    requires Inv(s) && Next(s, t) && ReadsFit(s.a, s.b)
    ensures ReadsFit(t.a, t.b)
    ensures t.a.st.cfg == s.a.st.cfg && t.b.st.cfg == s.b.st.cfg && s.a.accepted <= t.a.accepted
  {
    hide Do, Enabled, Dir, Formed, FragmentCount;
    if step :| Enabled(s, step) && t == Do(s, step) {
      StepHistory(s, step);
    } else {
      var step :| Enabled(Mirror(s), step) && t == Mirror(Do(Mirror(s), step));
      StepHistory(Mirror(s), step);
      if t.b.received != s.b.received {
        ReadFits(s.a, s.b, s.toB, s.toA, s.age, if step.Recv? then step.len else 0);
      }
    }
  }

  lemma ReadFits(a: Endpoint, b: Endpoint, toB: seq<Item>, toA: seq<Item>, age: nat, len: int)
    requires Dir(a, b, toB, toA, age) && RecvCheck(b.st.rcv.queue, len) >= 0
    ensures FragmentCount(|Join(b.st.rcv.queue, MergeCount(b.st.rcv.queue))|, a.st.cfg.mss) <= b.st.cfg.rcvWnd
  {
    hide Sending, Linked, Answering, DataInFlight, NewsInFlight, Continues, AllFrags, Join, PeekSize, MergeCount,
         FragmentCount;
    NextMessageQueued(a, b);
  }

  lemma {:induction false} LaterReads(trace: seq<System>, i: nat, j: nat)
    requires Execution(trace) && i <= j < |trace|
    ensures ReadsFit(trace[j].a, trace[j].b)
    ensures trace[j].a.st.cfg == trace[i].a.st.cfg && trace[j].b.st.cfg == trace[i].b.st.cfg
    ensures trace[i].a.accepted <= trace[j].a.accepted
    decreases j
  {
    hide Next, Inv, FragmentCount;
    if j > 0 {
      InvHolds(trace, j - 1);
      LaterReads(trace, if i < j then i else j - 1, j - 1);
      NextReads(trace[j - 1], trace[j]);
    }
  }

  /** A message of more fragments than the receive window is wide is accepted, but no continuation of the
      run ever reads it, nor anything behind it. */
  lemma TooLongIsNeverRead(trace: seq<System>, i: nat, j: nat, r: nat)
    requires Execution(trace) && i <= j < |trace| && r < |trace[i].a.accepted|
    requires FragmentCount(|trace[i].a.accepted[r]|, trace[i].a.st.cfg.mss) > trace[i].b.st.cfg.rcvWnd
    ensures |trace[j].b.received| <= r
  {
    hide Execution, FragmentCount;
    LaterReads(trace, i, j);
    MessagesArriveInOrder(trace, j);
    InPrefix(trace[j].b.received, trace[j].a.accepted, r);
  }

  lemma InPrefix(received: seq<bytes>, accepted: seq<bytes>, r: nat)
    requires received <= accepted && r < |accepted|
    ensures r < |received| ==> accepted[r] in received
  {
  }
}
