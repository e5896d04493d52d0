/**
 What acknowledgements echo: every acknowledgement carries number and time of a transmission of the segment
 that it acknowledges, and the input loop notes the largest number acknowledged in a datagram.
 */
module KcpEcho {
  import opened Serial
  import opened KcpWire
  import opened KcpSpec
  import opened KcpPacking
  import opened KcpSystem
  import opened KcpSteps
  import opened KcpSafety

  predicate IsPush(items: seq<Item>, n: nat, j: nat, sn: uint32, ts: uint32) {
    n < |items| && j < |items[n].wires|
    && items[n].wires[j].cmd == CMD_PUSH && items[n].wires[j].sn == sn && items[n].wires[j].ts == ts
  }

  /** Some datagram carries the data segment with this number as it was sent at time `ts`. */
  ghost predicate Transmitted(items: seq<Item>, sn: uint32, ts: uint32) {
    exists n: nat, j: nat :: IsPush(items, n, j, sn, ts)
  }

  ghost predicate EchoAck(acks: seq<Ack>, i: nat, items: seq<Item>)
    requires i < |acks|
  {
    Transmitted(items, acks[i].sn, acks[i].ts)
  }

  ghost predicate AcksEcho(acks: seq<Ack>, items: seq<Item>) {
    forall i :: 0 <= i < |acks| ==> EchoAck(acks, i, items)
  }

  ghost predicate EchoWire(ws: seq<Wire>, j: nat, items: seq<Item>)
    requires j < |ws|
  {
    ws[j].cmd == CMD_ACK ==> Transmitted(items, ws[j].sn, ws[j].ts)
  }

  ghost predicate WiresEcho(ws: seq<Wire>, items: seq<Item>) {
    forall j :: 0 <= j < |ws| ==> EchoWire(ws, j, items)
  }

  ghost predicate ItemEchoes(answers: seq<Item>, n: nat, items: seq<Item>)
    requires n < |answers|
  {
    WiresEcho(answers[n].wires, items)
  }

  ghost predicate ItemsEcho(answers: seq<Item>, items: seq<Item>) {
    forall n :: 0 <= n < |answers| ==> ItemEchoes(answers, n, items)
  }

  /** Of the data that has been sent to `y` in `toY`, each acknowledgement of `y`, queued or sent in `toX`,
      echoes a transmission. */
  ghost predicate Echoes(y: Endpoint, toY: seq<Item>, toX: seq<Item>) {
    AcksEcho(y.st.acks, toY) && ItemsEcho(toX, toY)
  }

  lemma TransmittedStays(items: seq<Item>, more: seq<Item>, sn: uint32, ts: uint32)
    requires Transmitted(items, sn, ts)
    ensures Transmitted(items + more, sn, ts)
  {
    var n: nat, j: nat :| IsPush(items, n, j, sn, ts);
    assert IsPush(items + more, n, j, sn, ts);
  }

  lemma EchoesStay(y: Endpoint, toY: seq<Item>, toX: seq<Item>, more: seq<Item>)
    requires Echoes(y, toY, toX)
    ensures Echoes(y, toY + more, toX)
  {
    hide Transmitted;
    forall i | 0 <= i < |y.st.acks| ensures EchoAck(y.st.acks, i, toY + more) {
      assert EchoAck(y.st.acks, i, toY);
      TransmittedStays(toY, more, y.st.acks[i].sn, y.st.acks[i].ts);
    }
    forall n | 0 <= n < |toX| ensures ItemEchoes(toX, n, toY + more) {
      assert ItemEchoes(toX, n, toY);
      WiresStay(toX[n].wires, toY, more);
    }
  }

  lemma WiresStay(ws: seq<Wire>, items: seq<Item>, more: seq<Item>)
    requires WiresEcho(ws, items)
    ensures WiresEcho(ws, items + more)
  {
    hide Transmitted;
    forall j | 0 <= j < |ws| ensures EchoWire(ws, j, items + more) {
      assert EchoWire(ws, j, items);
      if ws[j].cmd == CMD_ACK {
        TransmittedStays(items, more, ws[j].sn, ws[j].ts);
      }
    }
  }

  /** A flush turns queued acknowledgements into segments. */
  lemma MailEchoes(y: Endpoint, x: Endpoint, toY: seq<Item>, toX: seq<Item>)
    requires Echoes(y, toY, toX) && AllOurs(y.st.cfg, y.st.snd)
    ensures Echoes(FlushStep(y, x), toY, toX + Mail(y, x))
  {
    hide Transmitted, Mail, FlushStep, AllOurs;
    FlushFrame(y, x);
    var all := toX + Mail(y, x);
    forall n | 0 <= n < |all| ensures ItemEchoes(all, n, toY) {
      if n < |toX| {
        assert ItemEchoes(toX, n, toY);
      } else {
        OneMailEchoes(y, x, toY, n - |toX|);
      }
    }
  }

  lemma OneMailEchoes(y: Endpoint, x: Endpoint, toY: seq<Item>, n: nat)
    requires AcksEcho(y.st.acks, toY) && AllOurs(y.st.cfg, y.st.snd) && n < |Mail(y, x)|
    ensures WiresEcho(Mail(y, x)[n].wires, toY)
  {
    hide Transmitted, Mail, AllOurs, FlushSender, Transmit, ToWire;
    var ws := Mail(y, x)[n].wires;
    forall j | 0 <= j < |ws| ensures EchoWire(ws, j, toY) {
      MailKind(y, x, n, j);
      if ws[j].cmd == CMD_ACK {
        var i :| 0 <= i < |y.st.acks| && ws[j].sn == y.st.acks[i].sn && ws[j].ts == y.st.acks[i].ts;
        assert EchoAck(y.st.acks, i, toY);
      }
    }
  }

  /** What the data segments of a datagram add to the list of acknowledgements. */
  lemma {:induction false} RunEchoes(s: State, ws: seq<Wire>, n: nat, items: seq<Item>)
    requires n <= |ws| && AcksEcho(s.acks, items)
    requires forall j :: 0 <= j < |ws| && ws[j].cmd == CMD_PUSH ==> Transmitted(items, ws[j].sn, ws[j].ts)
    ensures AcksEcho(ProcessRun(s, ws, n).acks, items)
  {
    hide Transmitted, Process;
    if n > 0 {
      RunEchoes(s, ws, n - 1, items);
      var before, after := ProcessRun(s, ws, n - 1).acks, ProcessRun(s, ws, n).acks;
      AckFrom(ProcessRun(s, ws, n - 1), ws[n - 1]);
      forall i | 0 <= i < |after| ensures EchoAck(after, i, items) {
        assert i < |before| ==> EchoAck(before, i, items);
      }
    }
  }

  lemma AckFrom(s: State, w: Wire)
    ensures var acks := Process(s, w).acks;
            acks == s.acks || (w.cmd == CMD_PUSH && acks == s.acks + [Ack(w.sn, w.ts)])
  {
    hide HearAck, AcceptPush, UpdateAck, BelowWindow;
  }

  lemma HearEchoes(y: Endpoint, toY: seq<Item>, toX: seq<Item>, n: nat)
    requires Echoes(y, toY, toX) && n < |toY| && Formed(toY[n], y.st.cfg.conv)
    ensures Echoes(HearStep(y, toY[n].data), toY, toX)
  {
    hide KcpSpec.Input, InputRun, ProcessRun, ItemsEcho, AcksEcho;
    var ws := toY[n].wires;
    HearReads(y, toY[n]);
    hide Formed;
    forall j | 0 <= j < |ws| && ws[j].cmd == CMD_PUSH ensures Transmitted(toY, ws[j].sn, ws[j].ts) {
      assert IsPush(toY, n, j, ws[j].sn, ws[j].ts);
    }
    RunEchoes(y.st, ws, |ws|, toY);
    InputReceiver(y.st, ws);
  }

  ghost predicate EchoInv(s: System) {
    Echoes(s.b, s.toB, s.toA) && Echoes(s.a, s.toA, s.toB)
  }

  lemma FlushEchoes(s: System)
    requires Inv(s) && EchoInv(s)
    ensures EchoInv(FlushAt(s))
  {
    hide Inv, Echoes, FlushStep, Mail, AllOurs;
    InvSends(s);
    EchoesStay(s.b, s.toB, s.toA, Mail(s.a, s.b));
    MailEchoes(s.a, s.b, s.toA, s.toB);
  }

  lemma InvSends(s: System)
    requires Inv(s)
    ensures AllOurs(s.a.st.cfg, s.a.st.snd)
    ensures forall n :: 0 <= n < |s.toA| ==> Formed(s.toA[n], s.a.st.cfg.conv)
  {
    DirOurs(s.a, s.b, s.toB, s.toA, s.age);
    hide Dir, Formed, AllOurs;
  }

  lemma SameAcks(e: Endpoint, f: Endpoint, toE: seq<Item>, toF: seq<Item>)
    requires Echoes(e, toE, toF) && f.st.acks == e.st.acks
    ensures Echoes(f, toE, toF)
  {
  }

  lemma CallAcks(e: Endpoint, data: bytes, len: int, now: uint32)
    ensures SendStep(e, data).st.acks == e.st.acks && RecvStep(e, len).st.acks == e.st.acks
    ensures Tick(e, now).st.acks == e.st.acks && Tick(e, now).st.snd == e.st.snd && Tick(e, now).st.cfg == e.st.cfg
  {
    hide SendQueue, RecvCheck, AfterRecv, Join, NextTimer;
  }

  lemma DoEchoes(s: System, step: Step)
    requires Inv(s) && EchoInv(s) && Enabled(s, step)
    ensures EchoInv(Do(s, step))
  {
    hide Inv, Echoes, SendStep, RecvStep, HearStep, FlushAt, Tick, UpdateFlushes, Fresh, Formed;
    CallAcks(s.a, if step.Send? then step.data else [], if step.Recv? then step.len else 0,
             if step.Update? then step.now else 0);
    match step
    case Send(data) => SameAcks(s.a, SendStep(s.a, data), s.toA, s.toB);
    case Recv(len) => SameAcks(s.a, RecvStep(s.a, len), s.toA, s.toB);
    case Flush => FlushEchoes(s);
    case Update(now) =>
      SameAcks(s.a, Tick(s.a, now), s.toA, s.toB);
      TickInv(s, now);
      FlushEchoes(s.(a := Tick(s.a, now)));
    case Deliver(i) =>
      InvSends(s);
      HearEchoes(s.a, s.toA, s.toB, i);
  }

  lemma TickInv(s: System, now: uint32)
    requires Inv(s)
    ensures Inv(s.(a := Tick(s.a, now)))
  {
    TickKeeps(s, now);
  }

  lemma NextEchoes(s: System, t: System)
    requires Inv(s) && EchoInv(s) && Next(s, t)
    ensures EchoInv(t)
  {
    hide Inv, Echoes, Do, Enabled;
    if step :| Enabled(s, step) && t == Do(s, step) {
      DoEchoes(s, step);
    } else {
      var step :| Enabled(Mirror(s), step) && t == Mirror(Do(Mirror(s), step));
      MirrorKeeps(s);
      DoEchoes(Mirror(s), step);
    }
  }

  lemma {:induction false} EchoHolds(trace: seq<System>, i: nat)
    requires Execution(trace) && i < |trace|
    ensures EchoInv(trace[i])
  {
    hide Inv, Next, Echoes;
    if i == 0 {
      NothingToEcho(trace[0]);
    } else {
      InvHolds(trace, i - 1);
      EchoHolds(trace, i - 1);
      NextEchoes(trace[i - 1], trace[i]);
    }
  }

  lemma NothingToEcho(s: System)
    requires Init(s)
    ensures EchoInv(s)
  {
  }

  /** At any time in any run, every acknowledgement that `b` has queued or sent carries the number and the
      time of a data segment that `a` has sent: what the round-trip estimator measures is the time since a
      transmission of that very segment. */
  lemma AcksEchoTransmissions(trace: seq<System>, i: nat, n: nat, j: nat)
    requires Execution(trace) && i < |trace|
    ensures j < |trace[i].b.st.acks| ==>
              Transmitted(trace[i].toB, trace[i].b.st.acks[j].sn, trace[i].b.st.acks[j].ts)
    ensures n < |trace[i].toA| && j < |trace[i].toA[n].wires| && trace[i].toA[n].wires[j].cmd == CMD_ACK ==>
              Transmitted(trace[i].toB, trace[i].toA[n].wires[j].sn, trace[i].toA[n].wires[j].ts)
  {
    hide Execution, Transmitted;
    EchoHolds(trace, i);
    var s := trace[i];
    if j < |s.b.st.acks| {
      assert EchoAck(s.b.st.acks, j, s.toB);
    }
    if n < |s.toA| && j < |s.toA[n].wires| {
      assert ItemEchoes(s.toA, n, s.toB);
      assert EchoWire(s.toA[n].wires, j, s.toB);
    }
  }

  // ---------------------------------------------------------------- the largest acknowledgement

  predicate AckWithin(ws: seq<Wire>, j: nat, base: int)
    requires j < |ws|
  {
    ws[j].cmd == CMD_ACK ==> Unwrap(base, ws[j].sn) < base + TWO31
  }

  predicate AcksNumber(ws: seq<Wire>, j: nat, k: int, base: int)
    requires j < |ws|
  {
    ws[j].cmd == CMD_ACK && Unwrap(base, ws[j].sn) == k
  }

  /** Of acknowledged numbers less than 2^31 apart the loop of `ikcp_input` notes the largest: it is one of
      them, and none is above it. Without an acknowledgement it notes none. */
  lemma {:induction false} NotesLargest(ws: seq<Wire>, n: nat, base: int)
    requires n <= |ws| && forall j :: 0 <= j < |ws| ==> AckWithin(ws, j, base)
    ensures var m := NoteRun(ws, n);
            if m.NoAck? then forall j :: 0 <= j < n ==> ws[j].cmd != CMD_ACK
            else
              var k := Unwrap(base, m.sn);
              && (exists j :: 0 <= j < n && AcksNumber(ws, j, k, base))
              && (forall j :: 0 <= j < n && ws[j].cmd == CMD_ACK ==> Unwrap(base, ws[j].sn) <= k)
  {
    hide Unwrap, Diff, U32;
    if n > 0 {
      NotesLargest(ws, n - 1, base);
      var before, w := NoteRun(ws, n - 1), ws[n - 1];
      assert AckWithin(ws, n - 1, base);
      if w.cmd == CMD_ACK {
        assert AcksNumber(ws, n - 1, Unwrap(base, w.sn), base);
        if before.MaxAck? {
          var j :| 0 <= j < n - 1 && AcksNumber(ws, j, Unwrap(base, before.sn), base);
          assert AckWithin(ws, j, base);
          Compared(base, w.sn, before.sn);
        }
      } else if before.MaxAck? {
        var j :| 0 <= j < n - 1 && AcksNumber(ws, j, Unwrap(base, before.sn), base);
      }
    }
  }

  lemma Compared(base: int, a: uint32, b: uint32)
    requires Unwrap(base, a) < base + TWO31 && Unwrap(base, b) < base + TWO31
    ensures Diff(a, b) > 0 <==> Unwrap(base, a) > Unwrap(base, b)
  {
    UnwrapWraps(base, a);
    UnwrapWraps(base, b);
    DiffOfIndices(Unwrap(base, a), Unwrap(base, b));
  }
}
