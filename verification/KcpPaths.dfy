/**
 Continuations of a run that neither send nor read a message, and how one segment of one endpoint is
 brought to the other in such a continuation.
 */
module KcpPaths {
  import opened Serial
  import opened KcpWire
  import opened KcpSpec
  import opened KcpSender
  import opened KcpReceiver
  import opened KcpMessages
  import opened KcpPacking
  import opened KcpLink
  import opened KcpSystem
  import opened KcpSteps
  import opened KcpSafety
  import KcpRuns

  // ---------------------------------------------------------------- continuations

  ghost predicate Path(p: seq<System>) {
    p != [] && forall i :: 0 <= i < |p| - 1 ==> Next(p[i], p[i + 1])
  }

  ghost predicate Leads(s: System, t: System) {
    exists p :: Path(p) && p[0] == s && p[|p| - 1] == t
  }

  lemma LeadsSelf(s: System)
    ensures Leads(s, s)
  {
    assert Path([s]);
  }

  lemma LeadsNext(s: System, t: System)
    requires Next(s, t)
    ensures Leads(s, t)
  {
    hide Next;
    assert Path([s, t]);
  }

  lemma Joining(p: seq<System>, q: seq<System>)
    requires Path(p) && Path(q) && p[|p| - 1] == q[0]
    ensures Path(p + q[1..]) && (p + q[1..])[|p + q[1..]| - 1] == q[|q| - 1]
  {
    hide Next;
    var all := p + q[1..];
    forall i | 0 <= i < |all| - 1 ensures Next(all[i], all[i + 1]) {
      if i >= |p| - 1 {
        assert all[i] == q[i - |p| + 1];
        assert Next(q[i - |p| + 1], q[i - |p| + 2]);
      }
    }
  }

  lemma LeadsThen(s: System, t: System, u: System)
    requires Leads(s, t) && Leads(t, u)
    ensures Leads(s, u)
  {
    hide Next;
    var p :| Path(p) && p[0] == s && p[|p| - 1] == t;
    var q :| Path(q) && q[0] == t && q[|q| - 1] == u;
    Joining(p, q);
  }

  lemma LeadsMirror(s: System, t: System)
    requires Leads(s, t)
    ensures Leads(Mirror(s), Mirror(t))
  {
    hide Next;
    var p :| Path(p) && p[0] == s && p[|p| - 1] == t;
    var m := Mirrored(p);
    forall i | 0 <= i < |m| - 1 ensures Next(m[i], m[i + 1]) {
      assert Next(p[i], p[i + 1]);
      MirrorNext(p[i], p[i + 1]);
    }
    assert Path(m);
  }

  // ---------------------------------------------------------------- what a step leaves alone

  /** `e` becomes `f`: no message has been accepted or read, numbers have only grown, and the receive queue
      has grown with `rcv_nxt`. */
  ghost predicate Onward(e: Endpoint, f: Endpoint) {
    && f.st.cfg == e.st.cfg && f.accepted == e.accepted && f.received == e.received
    && e.S <= f.S && e.R <= f.R && |f.st.rcv.queue| - |e.st.rcv.queue| == f.R - e.R
  }

  /** A continuation without calls of `ikcp_send` and `ikcp_recv`. */
  ghost predicate Goes(s: System, t: System) {
    Leads(s, t) && Inv(t) && Onward(s.a, t.a) && Onward(s.b, t.b)
  }

  lemma GoesThen(s: System, t: System, u: System)
    requires Goes(s, t) && Goes(t, u)
    ensures Goes(s, u)
  {
    hide Leads, Inv;
    LeadsThen(s, t, u);
  }

  lemma GoesInv(s: System, t: System)
    requires Goes(s, t)
    ensures Inv(t) && Onward(s.a, t.a) && Onward(s.b, t.b)
  {
  }

  lemma GoesMirror(s: System, t: System)
    requires Goes(Mirror(s), t)
    ensures Goes(s, Mirror(t))
  {
    hide Leads, Inv;
    LeadsMirror(Mirror(s), t);
    MirrorKeeps(t);
    assert Mirror(Mirror(s)) == s;
  }

  /** What the invariant says about the direction from `a` to `b`. */
  ghost predicate Known(a: Endpoint, b: Endpoint, age: nat) {
    && Sane(age, a.st.cfg, b.st.cfg)
    && KcpRuns.Sound(a.st, a.U, a.S, a.R) && KcpRuns.Sound(b.st, b.U, b.S, b.R)
    && AllOurs(a.st.cfg, a.st.snd)
    && Safe(a.st.snd, a.U, a.S, b.st.rcv, b.R)
    && b.R <= a.S && a.S + |a.st.snd.queue| == |Stream(a)|
  }

  lemma InvKnown(s: System)
    requires Inv(s)
    ensures Known(s.a, s.b, s.age)
  {
    hide DataInFlight, NewsInFlight, Answering, AllFormed, Safe, AllOurs, Continues, Stream, AllFrags, Accepted,
         Carries, Sorted;
    ReceiverKnown(s.a, s.b);
    ReceiverKnown(s.b, s.a);
    hide Receiving;
  }

  lemma ReceiverKnown(x: Endpoint, y: Endpoint)
    requires |y.received| <= |x.accepted| && Receiving(x, y)
    ensures ReceiverOk(y.st.rcv, y.R, y.st.cfg.rcvWnd) && y.R <= x.S
  {
    hide Continues, Stream, AllFrags, Carries, ReceiverOk, Sorted;
  }

  lemma StepGoes(s: System, step: Step)
    requires Inv(s) && Enabled(s, step) && !step.Send? && !step.Recv?
    ensures Goes(s, Do(s, step)) && Do(s, step).b == s.b
  {
    hide Inv, Onward, Leads, HearStep, FlushStep, Mail, NextTimer, UpdateFlushes, Fresh;
    DoKeeps(s, step);
    InvKnown(s);
    hide Known;
    assert Next(s, Do(s, step));
    LeadsNext(s, Do(s, step));
    SameOnward(s.b);
    match step
    case Flush => FlushOnward(s.a, s.b);
    case Update(now) =>
      TickOnward(s.a, now);
      FlushOnward(Tick(s.a, now), s.b);
      OnwardThen(s.a, Tick(s.a, now), FlushStep(Tick(s.a, now), s.b));
    case Deliver(i) =>
      KnownSound(s.a, s.b, s.age);
      HearOnward(s.a, s.toA[i].data);
  }

  lemma SameOnward(e: Endpoint)
    ensures Onward(e, e)
  {
  }

  lemma OnwardThen(e: Endpoint, f: Endpoint, g: Endpoint)
    requires Onward(e, f) && Onward(f, g)
    ensures Onward(e, g)
  {
  }

  lemma KnownSound(a: Endpoint, b: Endpoint, age: nat)
    requires Known(a, b, age)
    ensures KcpRuns.Sound(a.st, a.U, a.S, a.R)
  {
  }

  lemma TickOnward(e: Endpoint, now: uint32)
    ensures Onward(e, Tick(e, now))
  {
  }

  lemma FlushOnward(e: Endpoint, peer: Endpoint)
    ensures Onward(e, FlushStep(e, peer))
  {
    FlushFrame(e, peer);
    SameStream(e, peer);
    hide FlushWires, Datagrams, TransmitAll, CountDue, LinkDead, Backoff, FlushSender;
  }

  lemma HearOnward(e: Endpoint, datagram: bytes)
    requires KcpRuns.Sound(e.st, e.U, e.S, e.R)
    ensures Onward(e, HearStep(e, datagram))
  {
    var U', R' := KcpRuns.InputKeeps(e.st, datagram, e.U, e.S, e.R);
    InputConfig(e.st, datagram);
    hide KcpSpec.Input, KcpRuns.Sound, Dist;
  }

  // ---------------------------------------------------------------- one segment goes across

  lemma {:induction false} JoinedFrom(gs: seq<seq<Wire>>, n: nat, w: Wire) returns (g: nat, i: nat)
    requires n <= |gs| && w in Joined(gs, n)
    ensures g < n && i < |gs[g]| && gs[g][i] == w
  {
    if w in Joined(gs, n - 1) {
      g, i := JoinedFrom(gs, n - 1, w);
    } else {
      g := n - 1;
      i :| 0 <= i < |gs[g]| && gs[g][i] == w;
    }
  }

  lemma MailIsSplit(e: Endpoint, peer: Endpoint)
    requires e.st.timer.updated
    ensures |Mail(e, peer)| == |Split(FlushWires(e.st), e.st.cfg.Mtu())|
  {
    DatagramsEncode(FlushWires(e.st), e.st.cfg.Mtu());
    hide FlushWires, Split, Datagrams, FlushSender, DataWires, CountDue, LinkDead, Backoff, TransmitAll;
  }

  /** Every segment of a flush is in some datagram of it. */
  lemma WireIsMailed(e: Endpoint, peer: Endpoint, w: Wire) returns (n: nat, i: nat)
    requires e.st.timer.updated && AllOurs(e.st.cfg, e.st.snd) && w in FlushWires(e.st)
    ensures n < |Mail(e, peer)| && i < |Mail(e, peer)[n].wires| && Mail(e, peer)[n].wires[i] == w
    ensures Mail(e, peer)[n].sFrom == FlushStep(e, peer).S && Mail(e, peer)[n].sTo == peer.S
  {
    hide FlushWires, Split, AllOurs, Mail, FlushStep;
    var groups := Split(FlushWires(e.st), e.st.cfg.Mtu());
    SplitJoins(FlushWires(e.st), e.st.cfg.Mtu());
    n, i := JoinedFrom(groups, |groups|, w);
    MailIsSplit(e, peer);
    MailParts(e, peer, n);
  }

  /** The clock after an update that flushes. */
  lemma Ticked(e: Endpoint, now: uint32)
    ensures var f := Tick(e, now);
            f.st.timer.updated && f.st.timer.current == now && f == e.(st := e.st.(timer := f.st.timer))
  {
    hide Diff;
  }

  /** What `b` hears of an update of `a`: the segments of one datagram, among them the given one. */
  ghost predicate Carried(s: System, now: uint32, w: Wire, t: System, ws: seq<Wire>, k: nat) {
    && t.a == FlushStep(Tick(s.a, now), s.b)
    && t.b.st == InputRun(s.b.st, ws, 0)
    && k < |ws| && ws[k] == w
    && forall i :: 0 <= i < |ws| ==> Kind(Tick(s.a, now).st, ws[i])
  }

  /** `a` updates at a time when it flushes, and the datagram with one of its segments reaches `b`. */
  lemma Carry(s: System, now: uint32, w: Wire) returns (t: System, ws: seq<Wire>, k: nat)
    requires Inv(s) && UpdateFlushes(s.a.st.timer, now) && w in FlushWires(Tick(s.a, now).st)
    ensures Goes(s, t) && Carried(s, now, w, t, ws, k)
  {
    hide Inv, FlushWires, Goes, AllOurs, Mail, FlushStep, UpdateFlushes, Do, Kind, InputRun;
    var e, s1 := Tick(s.a, now), Do(s, Step.Update(now));
    InvOurs(s);
    Ticked(s.a, now);
    UpdateMails(s, now);
    StepGoes(s, Step.Update(now));
    hide Tick;
    var n, i := WireIsMailed(e, s.b, w);
    var it := Mail(e, s.b)[n];
    ws, k := it.wires, i;
    forall j | 0 <= j < |ws| ensures Kind(e.st, ws[j]) {
      MailKind(e, s.b, n, j);
    }
    GoesInv(s, s1);
    t := DeliverNow(s1, |s.toB| + n);
    GoesThen(s, s1, t);
  }

  lemma InvOurs(s: System)
    requires Inv(s)
    ensures AllOurs(s.a.st.cfg, s.a.st.snd)
  {
    DirOurs(s.a, s.b, s.toB, s.toA, s.age);
  }

  lemma UpdateMails(s: System, now: uint32)
    requires UpdateFlushes(s.a.st.timer, now)
    ensures var e := Tick(s.a, now);
            Do(s, Step.Update(now)) == s.(a := FlushStep(e, s.b), toB := s.toB + Mail(e, s.b))
  {
    hide FlushStep, Mail, UpdateFlushes, NextTimer;
  }

  /** A datagram in the network that is as young as can be is delivered to `b`. */
  lemma DeliverNow(s: System, n: nat) returns (t: System)
    requires Inv(s) && n < |s.toB| && s.toB[n].sFrom == s.a.S && s.toB[n].sTo == s.b.S
    ensures Goes(s, t) && t == s.(b := HearStep(s.b, s.toB[n].data))
    ensures t.b.st == InputRun(s.b.st, s.toB[n].wires, 0)
  {
    hide Inv, Goes, InputRun, HearStep, Fresh, Do;
    MirrorKeeps(s);
    YoungIsFresh(s, n);
    StepGoes(Mirror(s), Step.Deliver(n));
    var u := Do(Mirror(s), Step.Deliver(n));
    GoesMirror(s, u);
    DeliverHears(s, n);
    t := Mirror(u);
    ReadsWires(s, n);
  }

  lemma YoungIsFresh(s: System, n: nat)
    requires n < |s.toB| && s.toB[n].sFrom == s.a.S && s.toB[n].sTo == s.b.S
    ensures Enabled(Mirror(s), Step.Deliver(n))
  {
  }

  lemma DeliverHears(s: System, n: nat)
    requires n < |s.toB| && Enabled(Mirror(s), Step.Deliver(n))
    ensures Do(Mirror(s), Step.Deliver(n)) == Mirror(s.(b := HearStep(s.b, s.toB[n].data)))
    ensures HearStep(s.b, s.toB[n].data).st == KcpSpec.Input(s.b.st, s.toB[n].data).0
  {
    hide KcpSpec.Input, Fresh;
  }

  lemma ReadsWires(s: System, n: nat)
    requires Inv(s) && n < |s.toB|
    ensures KcpSpec.Input(s.b.st, s.toB[n].data).0 == InputRun(s.b.st, s.toB[n].wires, 0)
  {
    hide Formed, Sending, Receiving, Linked, Answering, DataInFlight, NewsInFlight, KcpSpec.Input, InputRun;
    assert Formed(s.toB[n], s.a.st.cfg.conv);
    HearReads(s.b, s.toB[n]);
  }
}
