/**
 Nothing gets stuck: from every state that two endpoints can reach, however much has been lost, some
 continuation of the run delivers every message accepted so far, exactly if each of them fits the
 receiver's window.
 */
module KcpProgress {
  import opened Numbers
  import opened Serial
  import opened KcpWire
  import opened KcpSpec
  import opened KcpSender
  import opened KcpReceiver
  import opened KcpMessages
  import opened KcpPacking
  import opened KcpLink
  import opened KcpSystem
  import opened KcpSteps
  import opened KcpSafety
  import opened KcpPaths

  // ---------------------------------------------------------------- the next fragment arrives

  lemma HeadIs(base: int, buf: seq<Segment>, limit: int)
    requires Sorted(base, buf, limit) && Has(base, buf, base)
    ensures buf != [] && Key(base, buf, 0) == base && buf[0].sn == U32(base)
  {
    var i :| 0 <= i < |buf| && Key(base, buf, i) == base;
    UnwrapWraps(base, buf[0].sn);
  }

  /** The number `rcv_nxt` itself is always taken, and moves on at once, if the queue has room. */
  lemma NextAccepted(r: Receiver, R: int, wnd: posint, w: Wire)
    requires ReceiverOk(r, R, wnd) && |r.queue| < wnd && w.sn == U32(R)
    ensures |AcceptPush(r, wnd, w).queue| > |r.queue|
  {
    WindowTest(r, R, wnd, R);
    UnwrapInverts(R, R);
    InsertKeeps(R, r.buf, wnd, FromWire(w));
    var buf := InsertSegment(r.buf, FromWire(w));
    HeadIs(R, buf, R + wnd);
    U32Shift(R, 0);
    hide BelowWindow, Diff, InsertSegment, Sorted, Has;
    assert InOrder(buf, r.nxt, 0);
    assert RunLength(buf, r.nxt, Max(wnd - |r.queue|, 0)) > 0;
  }

  lemma {:induction false} RunReaches(s: State, ws: seq<Wire>, n: nat, k: nat, U: int, S: int, R: int)
    requires KcpRuns.Sound(s, U, S, R) && |s.rcv.queue| < s.cfg.rcvWnd
    requires k < n <= |ws| && ws[k].cmd == CMD_PUSH && ws[k].sn == U32(R)
    ensures |ProcessRun(s, ws, n).rcv.queue| > |s.rcv.queue|
  {
    hide Process;
    var U', R' := KcpRuns.ProcessRunKeeps(s, ws, n - 1, U, S, R);
    var before := ProcessRun(s, ws, n - 1);
    var U2, R2 := KcpRuns.ProcessKeeps(before, ws[n - 1], U', S, R');
    if k < n - 1 {
      RunReaches(s, ws, n - 1, k, U, S, R);
    } else if R' == R {
      SoundReceiver(before, U', S, R);
      NextAccepted(before.rcv, R, s.cfg.rcvWnd, ws[k]);
      PushProcessed(before, ws[k]);
    }
  }

  lemma SoundReceiver(s: State, U: int, S: int, R: int)
    requires KcpRuns.Sound(s, U, S, R)
    ensures ReceiverOk(s.rcv, R, s.cfg.rcvWnd)
  {
  }

  lemma PushProcessed(s: State, w: Wire)
    requires w.cmd == CMD_PUSH
    ensures Process(s, w).rcv == AcceptPush(s.rcv, s.cfg.rcvWnd, w)
  {
    hide AcceptPush, QueueAck, HearAck;
  }

  /** A time at which an update flushes and something due at `d` is due. */
  lemma DueTime(t: Timer, d: uint32) returns (now: uint32)
    ensures UpdateFlushes(t, now) && Diff(now, d) >= 0
  {
    now := d;
    DiffSelf(d);
    if !UpdateFlushes(t, d) {
      now := U32(d + 10000);
      TenSeconds(t, d);
    }
  }

  lemma TenSeconds(t: Timer, d: uint32)
    requires !UpdateFlushes(t, d)
    ensures UpdateFlushes(t, U32(d + 10000)) && Diff(U32(d + 10000), d) >= 0
  {
  }

  /** `a` sends its buffered segment `j` again, and `b` hears it. */
  lemma Resend(s: System, j: nat) returns (t: System, ws: seq<Wire>, k: nat)
    requires Inv(s) && j < |s.a.st.snd.buf|
    ensures Goes(s, t) && t.b.st == InputRun(s.b.st, ws, 0)
    ensures k < |ws| && ws[k].cmd == CMD_PUSH && ws[k].sn == s.a.st.snd.buf[j].sn
  {
    hide Inv, Goes, Kind, InputRun, UpdateFlushes, FlushWires, Transmit, Due, Tick, FlushStep, ToWire;
    var seg := s.a.st.snd.buf[j];
    var now := DueTime(s.a.st.timer, seg.resendts);
    InvOurs(s);
    Ticked(s.a, now);
    var e := Tick(s.a, now).st;
    assert Ours(s.a.st.cfg, s.a.st.snd.buf, j);
    StillBuffered(e, j);
    OverdueIsDue(e, seg);
    DueIsSent(e);
    assert ToWire(Transmit(e, FlushSender(e).buf[j])) in FlushWires(e);
    TransmitOne(e, seg);
    PushStays(e, seg);
    hide FlushSender, AllOurs;
    t, ws, k := Carry(s, now, ToWire(Transmit(e, seg)));
  }

  lemma StillBuffered(s: State, j: nat)
    requires j < |s.snd.buf|
    ensures j < |FlushSender(s).buf| && FlushSender(s).buf[j] == s.snd.buf[j]
  {
    hide AdmitCount, FlushWindow;
  }

  lemma OverdueIsDue(s: State, seg: Segment)
    requires Diff(s.timer.current, seg.resendts) >= 0
    ensures Due(s, seg) != Keep
  {
  }

  lemma PushStays(s: State, seg: Segment)
    requires seg.cmd == CMD_PUSH
    ensures ToWire(Transmit(s, seg)).cmd == CMD_PUSH
  {
  }

  /** The fragment that `b` waits for is in the send buffer of `a`. */
  lemma NextIsBuffered(s: System) returns (j: nat)
    requires Known(s.a, s.b, s.age) && s.b.R < s.a.S && |s.b.st.rcv.queue| < s.b.st.cfg.rcvWnd
    ensures j < |s.a.st.snd.buf| && s.a.st.snd.buf[j].sn == U32(s.b.R)
  {
    var R, rcv := s.b.R, s.b.st.rcv;
    hide AllOurs, Stream, SenderOk;
    if Has(R, rcv.buf, R) {
      HeadIs(R, rcv.buf, R + s.b.st.cfg.rcvWnd);
      assert false;
    }
    assert Has(s.a.U, s.a.st.snd.buf, R) || Held(rcv, R, R);
    j :| 0 <= j < |s.a.st.snd.buf| && Key(s.a.U, s.a.st.snd.buf, j) == R;
    UnwrapWraps(s.a.U, s.a.st.snd.buf[j].sn);
  }

  lemma DeliverNext(s: System) returns (t: System)
    requires Inv(s) && s.b.R < s.a.S && |s.b.st.rcv.queue| < s.b.st.cfg.rcvWnd
    ensures Goes(s, t) && t.b.R > s.b.R
  {
    hide Inv, Goes, ProcessRun;
    InvKnown(s);
    var j := NextIsBuffered(s);
    var ws, k;
    t, ws, k := Resend(s, j);
    SoundOf(s.a, s.b, s.age);
    hide Known;
    RunReaches(s.b.st, ws, |ws|, k, s.b.U, s.b.S, s.b.R);
    InputReceiver(s.b.st, ws);
    hide InputRun;
    GoesInv(s, t);
  }

  lemma SoundOf(a: Endpoint, b: Endpoint, age: nat)
    requires Known(a, b, age)
    ensures KcpRuns.Sound(b.st, b.U, b.S, b.R) && KcpRuns.Sound(a.st, a.U, a.S, a.R)
  {
  }

  // ---------------------------------------------------------------- b owes an answer, and a hears it

  /** The next flush sends at least one segment. */
  predicate Owing(s: State) {
    s.acks != [] || s.probe.askTell
  }

  lemma ProcessOwes(s: State, w: Wire)
    ensures Owing(s) ==> Owing(Process(s, w))
    ensures w.cmd == CMD_WASK ==> Owing(Process(s, w))
    ensures w.cmd == CMD_PUSH && BelowWindow(s.rcv, s.cfg.rcvWnd, w.sn) ==> Owing(Process(s, w))
  {
    hide AcceptPush, HearAck, UpdateAck, BelowWindow, Diff;
  }

  lemma {:induction false} RunOwes(s: State, ws: seq<Wire>, n: nat, k: nat)
    requires k < n <= |ws|
    requires var r := ProcessRun(s, ws, k);
             ws[k].cmd == CMD_WASK || (ws[k].cmd == CMD_PUSH && BelowWindow(r.rcv, s.cfg.rcvWnd, ws[k].sn))
    ensures Owing(ProcessRun(s, ws, n))
  {
    hide Process, Owing, BelowWindow;
    ProcessOwes(ProcessRun(s, ws, n - 1), ws[n - 1]);
    if k < n - 1 {
      RunOwes(s, ws, n - 1, k);
    }
  }

  lemma InputOwes(s: State, ws: seq<Wire>)
    ensures Owing(ProcessRun(s, ws, |ws|)) ==> Owing(InputRun(s, ws, 0))
  {
    hide ProcessRun, NoteRun, ParseFastack, Grow;
  }

  lemma {:induction false} QueueGrows(s: State, ws: seq<Wire>, k: nat, n: nat, U: int, S: int, R: int)
    requires KcpRuns.Sound(s, U, S, R) && k <= n <= |ws|
    ensures |ProcessRun(s, ws, k).rcv.queue| <= |ProcessRun(s, ws, n).rcv.queue|
  {
    hide Process, KcpRuns.Sound;
    if k < n {
      QueueGrows(s, ws, k, n - 1, U, S, R);
      var U', R' := KcpRuns.ProcessRunKeeps(s, ws, n - 1, U, S, R);
      var U2, R2 := KcpRuns.ProcessKeeps(ProcessRun(s, ws, n - 1), ws[n - 1], U', S, R');
    }
  }

  /** A repeated segment that brings nothing new is acknowledged once more. */
  lemma RepeatOwes(s: State, ws: seq<Wire>, k: nat, U: int, S: int, R: int, j: int)
    requires KcpRuns.Sound(s, U, S, R)
    requires |ProcessRun(s, ws, |ws|).rcv.queue| == |s.rcv.queue|
    requires k < |ws| && ws[k].cmd == CMD_PUSH && ws[k].sn == U32(j)
    requires R + s.cfg.rcvWnd - TWO31 <= j < R
    ensures Owing(InputRun(s, ws, 0))
  {
    hide ProcessRun, Owing, InputRun, BelowWindow, U32;
    var U', R' := KcpRuns.ProcessRunKeeps(s, ws, k, U, S, R);
    QueueGrows(s, ws, k, |ws|, U, S, R);
    var r := ProcessRun(s, ws, k);
    SoundReceiver(r, U', S, R);
    WindowTest(r.rcv, R, s.cfg.rcvWnd, j);
    RunOwes(s, ws, |ws|, k);
    InputOwes(s, ws);
  }

  /** Everything numbered is acknowledged: nothing is left in the send buffer. */
  lemma UnaClears(snd: Sender, U: int, S: int, wnd: posint, w: Wire)
    requires SenderOk(snd, U, S, wnd) && w.una == U32(S)
    ensures HearAck(snd, w).buf == []
  {
    var n := UnaCount(snd.buf, w.una);
    if n < |snd.buf| {
      CoveredMeans(snd, U, S, wnd, S, n);
    }
    assert ParseUna(snd, w.una).buf == [];
    HeardNothing(Shrink(ParseUna(snd, w.una)), w);
  }

  lemma HeardNothing(snd: Sender, w: Wire)
    requires snd.buf == []
    ensures ParseAck(snd, w.sn).buf == [] && HearAck(snd, w).buf == [] && ParseFastack(snd, w.sn).buf == []
  {
  }

  lemma {:induction false} HearAllClears(snd: Sender, ws: seq<Wire>, n: nat, U: int, S: int, wnd: posint)
    requires SenderOk(snd, U, S, wnd) && 0 < n <= |ws| && ws[0].una == U32(S)
    ensures HearAll(snd, ws, n).buf == []
  {
    hide HearAck, SenderOk;
    if n == 1 {
      UnaClears(snd, U, S, wnd, ws[0]);
      assert HearAll(snd, ws, 0) == snd;
    } else {
      HearAllClears(snd, ws, n - 1, U, S, wnd);
      HeardNothing(HearAll(snd, ws, n - 1), ws[n - 1]);
    }
  }

  lemma AnswerClears(s: State, ws: seq<Wire>, U: int, S: int)
    requires SenderOk(s.snd, U, S, s.cfg.sndWnd)
    requires ws != [] && ws[0].una == U32(S)
    ensures InputRun(s, ws, 0).snd.buf == []
    ensures InputRun(s, ws, 0).cc.rmtWnd == ws[|ws| - 1].wnd
  {
    hide SenderOk, HearAll, NoteRun;
    HearAllClears(s.snd, ws, |ws|, U, S, s.cfg.sndWnd);
    InputSender(s, ws);
    FastackClears(HearAll(s.snd, ws, |ws|), NoteRun(ws, |ws|));
    RunWindow(s, ws);
    InputWindow(s, ws);
    hide InputRun, AfterFastack;
  }

  lemma FastackClears(snd: Sender, m: MaxAck)
    requires snd.buf == []
    ensures AfterFastack(snd, m).buf == []
  {
  }

  lemma RunWindow(s: State, ws: seq<Wire>)
    requires ws != []
    ensures ProcessRun(s, ws, |ws|).cc.rmtWnd == ws[|ws| - 1].wnd
  {
    hide AcceptPush, HearAck, UpdateAck, QueueAck;
  }

  lemma InputWindow(s: State, ws: seq<Wire>)
    ensures InputRun(s, ws, 0).cc.rmtWnd == ProcessRun(s, ws, |ws|).cc.rmtWnd
  {
    hide ProcessRun, NoteRun, ParseFastack, U32;
  }

  // ---------------------------------------------------------------- the sender gets another fragment out

  lemma AtFlushTime(t: Timer)
    ensures UpdateFlushes(t, t.tsFlush)
  {
    DiffSelf(t.tsFlush);
  }

  /** A flush with nothing in the send buffer numbers as much of the queue as the window allows, and leaves
      a congestion window of at least 1. */
  lemma EmptyFlush(e: Endpoint, peer: Endpoint)
    requires e.st.timer.updated && SenderOk(e.st.snd, e.U, e.S, e.st.cfg.sndWnd) && e.st.snd.buf == []
    ensures var f, n := FlushStep(e, peer), Min(|e.st.snd.queue|, FlushWindow(e.st));
            && f.S == e.S + n && f.U == e.U && (n == 0 ==> f.st.snd == e.st.snd)
            && f.st.cfg == e.st.cfg && f.st.timer == e.st.timer
            && f.st.cc.cwnd >= 1 && f.st.cc.rmtWnd == e.st.cc.rmtWnd
            && f.st.probe == FlushProbe(e.st).(askSend := false, askTell := false)
  {
    AdmitsAll(e.st.snd, FlushWindow(e.st), e.U, e.S, e.st.cfg.sndWnd);
    NumberAdvances(e, peer);
    WindowOpens(e.st);
    FlushRest(e, peer);
    hide FlushStep, FlushWindow, FlushProbe, AdmitCount, TransmitAll;
    assert e.st.snd.queue[0..] == e.st.snd.queue;
    assert [] + Numbered(e.st, e.st.snd, 0) == [];
    assert TransmitAll(e.st, []) == [];
  }

  lemma WindowOpens(s: State)
    requires s.timer.updated
    ensures KcpSpec.Flush(s).0.cc.cwnd >= 1 && KcpSpec.Flush(s).0.cc.rmtWnd == s.cc.rmtWnd
  {
    hide FlushWires, Datagrams, TransmitAll, CountDue, LinkDead, FlushSender, U32;
  }

  lemma FlushRest(e: Endpoint, peer: Endpoint)
    requires e.st.timer.updated
    ensures var f := FlushStep(e, peer);
            && f.st.cc == KcpSpec.Flush(e.st).0.cc && f.U == e.U && f.st.cfg == e.st.cfg && f.st.timer == e.st.timer
            && f.st.probe == FlushProbe(e.st).(askSend := false, askTell := false)
  {
    hide FlushWires, Datagrams, TransmitAll, CountDue, LinkDead, Backoff, FlushSender, FlushProbe;
  }

  /** With an open remote window two flushes number a fragment. */
  lemma Raise(s: System) returns (t: System)
    requires Inv(s) && s.a.st.snd.buf == [] && s.a.st.cc.rmtWnd > 0 && s.a.st.snd.queue != []
    ensures Goes(s, t) && t.a.S > s.a.S
  {
    hide Inv, Goes, FlushStep, Mail, SenderOk, FlushWindow;
    var now := s.a.st.timer.tsFlush;
    AtFlushTime(s.a.st.timer);
    Ticked(s.a, now);
    UpdateMails(s, now);
    KnownSender(s);
    EmptyFlush(Tick(s.a, now), s.b);
    t := Do(s, Step.Update(now));
    StepGoes(s, Step.Update(now));
    if t.a.S == s.a.S {
      hide UpdateFlushes, Tick;
      GoesInv(s, t);
      KnownSender(t);
      EmptyFlush(t.a, t.b);
      OpenWindow(t.a.st);
      StepGoes(t, Step.Flush);
      GoesThen(s, t, Do(t, Step.Flush));
      t := Do(t, Step.Flush);
    }
  }

  lemma OpenWindow(s: State)
    requires s.cc.cwnd >= 1 && s.cc.rmtWnd >= 1
    ensures FlushWindow(s) >= 1
  {
  }

  lemma KnownSender(s: System)
    requires Inv(s)
    ensures SenderOk(s.a.st.snd, s.a.U, s.a.S, s.a.st.cfg.sndWnd)
  {
    InvKnown(s);
    hide Inv;
  }

  /** While everything numbered has arrived, `a` gets `b` to owe an answer by sending its first buffered
      segment again. */
  lemma AskByData(s: System) returns (t: System)
    requires Inv(s) && s.b.R == s.a.S && s.a.st.snd.buf != []
    ensures Goes(s, t) && (t.a.S > s.a.S || Owing(t.b.st))
  {
    hide Inv, Goes, InputRun, ProcessRun, Owing;
    var ws, k;
    t, ws, k := Resend(s, 0);
    GoesInv(s, t);
    if t.a.S == s.a.S {
      InvKnown(s);
      InvKnown(t);
      FirstNumber(s.a);
      SoundOf(s.a, s.b, s.age);
      InputReceiver(s.b.st, ws);
      RepeatOwes(s.b.st, ws, k, s.b.U, s.b.S, s.b.R, s.a.U);
    }
  }

  lemma FirstNumber(e: Endpoint)
    requires KcpRuns.Sound(e.st, e.U, e.S, e.R) && e.st.snd.buf != []
    ensures e.st.snd.buf[0].sn == U32(e.U) && e.U < e.S <= e.U + e.st.cfg.sndWnd
  {
    UnwrapWraps(e.U, e.st.snd.buf[0].sn);
  }

  /** With a closed remote window the first flush starts the wait for a probe. */
  lemma StartWait(s: System) returns (t: System)
    requires Inv(s) && s.a.st.snd.buf == [] && s.a.st.cc.rmtWnd == 0 && s.a.st.probe.wait == 0
    ensures Goes(s, t) && t.a.st.snd.buf == [] && t.a.st.cc.rmtWnd == 0 && t.a.st.probe.wait != 0
    ensures t.a.S == s.a.S && t.b == s.b
  {
    hide Inv, Goes, FlushStep, Mail, SenderOk;
    var now := s.a.st.timer.tsFlush;
    AtFlushTime(s.a.st.timer);
    Ticked(s.a, now);
    UpdateMails(s, now);
    KnownSender(s);
    EmptyFlush(Tick(s.a, now), s.b);
    hide UpdateFlushes, Tick;
    t := Do(s, Step.Update(now));
    StepGoes(s, Step.Update(now));
  }

  /** When the wait is over, the probe gets `b` to owe an answer. */
  lemma AskByProbe(s: System) returns (t: System)
    requires Inv(s) && s.a.st.cc.rmtWnd == 0 && s.a.st.probe.wait != 0
    ensures Goes(s, t) && Owing(t.b.st)
  {
    hide Inv, Goes, Kind, InputRun, ProcessRun, UpdateFlushes, Tick, FlushStep, Owing;
    var now := DueTime(s.a.st.timer, s.a.st.probe.ts);
    Ticked(s.a, now);
    var e := Tick(s.a, now).st;
    var w := ProbeIsSent(e);
    hide FlushWires;
    var ws, k;
    t, ws, k := Carry(s, now, w);
    RunOwes(s.b.st, ws, |ws|, k);
    InputOwes(s.b.st, ws);
  }

  lemma ProbeIsSent(s: State) returns (w: Wire)
    requires s.cc.rmtWnd == 0 && s.probe.wait != 0 && Diff(s.timer.current, s.probe.ts) >= 0
    ensures w.cmd == CMD_WASK && w in FlushWires(s)
  {
    hide FlushSender, DataWires, Control, U32;
    w := ProbeWires(s, FlushProbe(s))[0];
    assert FlushWires(s)[|s.acks|] == w;
    AskCommand(s);
  }

  lemma AskCommand(s: State)
    ensures forall ack :: Control(s, CMD_WASK, ack).cmd == CMD_WASK
  {
  }

  lemma Ask(s: System) returns (t: System)
    requires Inv(s) && s.b.R == s.a.S && (s.a.st.snd.buf != [] || s.a.st.cc.rmtWnd == 0)
    ensures Goes(s, t) && (t.a.S > s.a.S || Owing(t.b.st))
  {
    hide Inv, Goes, Owing;
    if s.a.st.snd.buf != [] {
      t := AskByData(s);
    } else if s.a.st.probe.wait != 0 {
      t := AskByProbe(s);
    } else {
      var s1 := StartWait(s);
      GoesInv(s, s1);
      t := AskByProbe(s1);
      GoesThen(s, s1, t);
    }
  }

  /** The window that a flush announces is not 0. */
  predicate Shown(s: State) {
    WndUnused(s) % 0x1_0000 != 0
  }

  /** The answer empties the send buffer and opens the remote window. */
  lemma Answer(s: System) returns (t: System)
    requires Inv(s) && s.b.R == s.a.S && Owing(s.b.st) && Shown(s.b.st)
    ensures Goes(s, t) && t.a.st.snd.buf == [] && t.a.st.cc.rmtWnd > 0
  {
    hide Inv, Goes, InputRun, UpdateFlushes, FlushStep, Tick;
    var m, now := Mirror(s), s.b.st.timer.tsFlush;
    MirrorKeeps(s);
    InvKnown(s);
    AtFlushTime(s.b.st.timer);
    Ticked(s.b, now);
    var e := Tick(s.b, now).st;
    SomethingSent(e);
    hide FlushWires;
    var u, ws, k := Carry(m, now, FlushWires(e)[0]);
    GoesMirror(s, u);
    t := Mirror(u);
    KnownNext(s);
    hide Known;
    assert Kind(e, ws[0]) && Kind(e, ws[|ws| - 1]);
    hide Kind;
    KnownSender(s);
    AnswerClears(s.a.st, ws, s.a.U, s.a.S);
  }

  lemma KnownNext(s: System)
    requires Known(s.a, s.b, s.age)
    ensures s.b.st.rcv.nxt == U32(s.b.R)
  {
  }

  lemma SomethingSent(s: State)
    requires Owing(s)
    ensures FlushWires(s) != []
  {
    hide FlushSender, DataWires, Control;
  }

  lemma StreamStays(e: Endpoint, f: Endpoint)
    requires Onward(e, f)
    ensures Stream(f) == Stream(e)
  {
  }

  /** When `b` has received everything numbered, and something is left to number, `a` can number more. */
  lemma NumberMore(s: System) returns (t: System)
    requires Inv(s) && s.b.R == s.a.S < |Stream(s.a)| && Shown(s.b.st)
    ensures Goes(s, t) && (t.a.S > s.a.S || t.b.R > s.b.R)
  {
    hide Inv, Goes, Owing, Stream;
    t := s;
    if s.a.st.snd.buf != [] || s.a.st.cc.rmtWnd == 0 {
      t := Ask(s);
      GoesInv(s, t);
      if t.a.S == s.a.S && t.b.R == s.b.R {
        var t1 := Answer(t);
        GoesThen(s, t, t1);
        t := t1;
      }
    } else {
      GoesSelf(s);
    }
    GoesInv(s, t);
    if t.a.S == s.a.S && t.b.R == s.b.R {
      StreamStays(s.a, t.a);
      InvKnown(t);
      hide Onward;
      var t1 := Raise(t);
      GoesInv(t, t1);
      GoesThen(s, t, t1);
      t := t1;
    }
  }

  lemma GoesSelf(s: System)
    requires Inv(s)
    ensures Goes(s, s)
  {
    hide Inv;
    LeadsSelf(s);
  }

  /** As long as a fragment is missing and the receive queue has room, `rcv_nxt` can move on. */
  lemma Advance(s: System) returns (t: System)
    requires Inv(s) && s.b.R < |Stream(s.a)|
    requires |s.b.st.rcv.queue| < s.b.st.cfg.rcvWnd && Shown(s.b.st)
    ensures Goes(s, t) && t.b.R > s.b.R
  {
    hide Inv, Goes, Stream, Shown;
    InvKnown(s);
    if s.b.R < s.a.S {
      t := DeliverNext(s);
    } else {
      t := NumberMore(s);
      GoesInv(s, t);
      if t.b.R == s.b.R {
        var u := DeliverNext(t);
        GoesThen(s, t, u);
        t := u;
      }
    }
  }

  // ---------------------------------------------------------------- reading

  /** No whole message is queued. */
  predicate Blocked(s: State) {
    s.rcv.queue == [] || PeekSize(s.rcv.queue) < 0
  }

  lemma ReadStep(s: System, len: int)
    requires Inv(s)
    ensures var t := s.(b := RecvStep(s.b, len)); Next(s, t) && Inv(t)
  {
    hide RecvStep, Inv;
    var step, t := Step.Recv(len), s.(b := RecvStep(s.b, len));
    MirrorKeeps(s);
    DoKeeps(Mirror(s), step);
    MirrorKeeps(Do(Mirror(s), step));
    assert Enabled(Mirror(s), step) && Mirror(Do(Mirror(s), step)) == t;
  }

  /** `b` reads the next message. */
  lemma ReadOne(s: System) returns (t: System)
    requires Inv(s) && !Blocked(s.b.st)
    ensures Next(s, t) && Inv(t)
    ensures t == s.(b := t.b) && t.b.st.cfg == s.b.st.cfg && t.b.accepted == s.b.accepted && s.b.R <= t.b.R
    ensures |t.b.received| == |s.b.received| + 1
  {
    var len := PeekSize(s.b.st.rcv.queue);
    ReadStep(s, len);
    RecvFrame(s.b, len);
    RecvAccepts(s.b, len);
    hide RecvStep, Inv, Next, PeekSize, Join, AfterRecv;
    t := s.(b := RecvStep(s.b, len));
  }

  lemma RecvAccepts(e: Endpoint, len: int)
    ensures RecvStep(e, len).accepted == e.accepted
  {
    hide RecvCheck, AfterRecv, Join;
  }

  lemma {:induction false} ReadAll(s: System) returns (t: System)
    requires Inv(s)
    ensures Leads(s, t) && Inv(t) && Blocked(t.b.st)
    ensures t == s.(b := t.b) && t.b.st.cfg == s.b.st.cfg && t.b.accepted == s.b.accepted && s.b.R <= t.b.R
    decreases |s.a.accepted| - |s.b.received|
  {
    hide Inv, Leads, Blocked, Next;
    if Blocked(s.b.st) {
      t := s;
      LeadsSelf(s);
    } else {
      var u := ReadOne(s);
      InvDelivered(u);
      t := ReadAll(u);
      LeadsNext(s, u);
      LeadsThen(s, u, t);
    }
  }

  lemma InvDelivered(s: System)
    requires Inv(s)
    ensures s.b.received <= s.a.accepted && Accepted(s.a) && Receiving(s.a, s.b)
  {
    hide Receiving, Sending, Linked, Answering, DataInFlight, NewsInFlight, Formed, Accepted;
  }

  /** Every message that `a` has accepted fits the receive window of `b`. */
  ghost predicate AllFit(a: Endpoint, b: Endpoint) {
    forall m :: m in a.accepted ==> FragmentCount(|m|, a.st.cfg.mss) <= b.st.cfg.rcvWnd
  }

  /** The announcement has 16 bits. It is not cut to 0 while less than one message is queued if the window
      fits 16 bits, or is at least one message above a multiple of 2^16. */
  predicate Announced(cfg: Config) {
    cfg.rcvWnd < 0x1_0000 || cfg.rcvWnd % 0x1_0000 >= 255
  }

  lemma BlockedRoom(s: System)
    requires Inv(s) && Blocked(s.b.st) && AllFit(s.a, s.b) && Announced(s.b.st.cfg)
    ensures |s.b.st.rcv.queue| < s.b.st.cfg.rcvWnd && Shown(s.b.st)
  {
    hide Inv, PeekSize, FragmentCount, Join, MergeCount, Receiving;
    InvDelivered(s);
    var q, wnd := s.b.st.rcv.queue, s.b.st.cfg.rcvWnd;
    if q != [] {
      NextMessageQueued(s.a, s.b);
    }
    assert |q| < wnd && |q| < 255;
    AnnouncedMeans(s.b.st.cfg);
    assert !CutToZero(wnd, |q|);
  }

  predicate CutToZero(wnd: posint, n: nat) {
    (wnd - n) % 0x1_0000 == 0
  }

  /** These are exactly the windows for which that never happens. */
  lemma AnnouncedMeans(cfg: Config)
    ensures Announced(cfg) <==> forall n: nat :: n < cfg.rcvWnd && n < 255 ==> !CutToZero(cfg.rcvWnd, n)
  {
    var wnd := cfg.rcvWnd;
    if Announced(cfg) {
      forall n: nat | n < wnd && n < 255 ensures !CutToZero(wnd, n) {
        assert wnd - n == wnd / 0x1_0000 * 0x1_0000 + (wnd % 0x1_0000 - n);
      }
    } else {
      assert CutToZero(wnd, wnd % 0x1_0000);
    }
  }

  /** When every fragment is there and no message is left to read, all have been read. */
  lemma BlockedDone(s: System)
    requires Inv(s) && Blocked(s.b.st) && s.b.R == |Stream(s.a)|
    ensures s.b.received == s.a.accepted
  {
    InvDelivered(s);
    hide Inv, PeekSize, FragmentCount, Join, MergeCount, AllFrags, Incoming, Continues;
    var r, msgs, mss := |s.b.received|, s.a.accepted, s.a.st.cfg.mss;
    if r < |msgs| {
      AllFragsPrefix(msgs, r + 1, |msgs|, mss);
      NextMessage(s.a, r);
      CountPositive(|msgs[r]|, mss);
      NextMessageQueued(s.a, s.b);
    }
  }

  // ---------------------------------------------------------------- everything arrives

  /** What `b` receives changes neither what has been accepted nor what `a` has received. */
  ghost predicate OneWay(s: System, t: System) {
    && t.a.st.cfg == s.a.st.cfg && t.b.st.cfg == s.b.st.cfg
    && t.a.accepted == s.a.accepted && t.b.accepted == s.b.accepted && t.a.received == s.a.received
  }

  lemma {:induction false} Finish(s: System) returns (t: System)
    requires Inv(s) && AllFit(s.a, s.b) && Announced(s.b.st.cfg)
    ensures Leads(s, t) && Inv(t) && OneWay(s, t) && t.b.received == t.a.accepted
    decreases |Stream(s.a)| - s.b.R
  {
    hide Inv, Leads, Blocked, Stream, FragmentCount, Shown, Announced;
    t := ReadAll(s);
    InvKnown(t);
    if t.b.R < |Stream(t.a)| {
      BlockedRoom(t);
      var u := Advance(t);
      GoesLeads(t, u);
      StreamStays(t.a, u.a);
      InvKnown(u);
      hide Known;
      var v := Finish(u);
      LeadsThen(s, t, u);
      LeadsThen(s, u, v);
      t := v;
    } else {
      BlockedDone(t);
    }
  }

  lemma GoesLeads(s: System, t: System)
    requires Goes(s, t)
    ensures Leads(s, t) && Inv(t) && OneWay(s, t) && Onward(s.a, t.a)
  {
    hide Inv, Leads;
  }

  /** A run that goes on from the end of another. */
  ghost predicate Extends(trace: seq<System>, longer: seq<System>) {
    Execution(longer) && |trace| <= |longer| && longer[..|trace|] == trace
  }

  lemma LeadsExtends(trace: seq<System>, t: System) returns (longer: seq<System>)
    requires Execution(trace) && Leads(trace[|trace| - 1], t)
    ensures Extends(trace, longer) && longer[|longer| - 1] == t
  {
    hide Next, Init;
    var p :| Path(p) && p[0] == trace[|trace| - 1] && p[|p| - 1] == t;
    Joining(trace, p);
    longer := trace + p[1..];
  }

  lemma DeliveredFit(trace: seq<System>, longer: seq<System>)
    requires Execution(trace) && Extends(trace, longer)
    requires longer[|longer| - 1].b.received == trace[|trace| - 1].a.accepted
    ensures AllFit(trace[|trace| - 1].a, trace[|trace| - 1].b)
  {
    hide Next, Init, FragmentCount;
    LaterReads(longer, |trace| - 1, |longer| - 1);
    assert longer[|trace| - 1] == trace[|trace| - 1];
  }

  /** Progress in one direction: from the end of any run, some continuation delivers to `b` every message
      that `a` has accepted, exactly if each of them has at most `rcv_wnd` fragments. */
  lemma MessagesGetThrough(trace: seq<System>)
    requires Execution(trace) && Announced(trace[|trace| - 1].b.st.cfg)
    ensures var s := trace[|trace| - 1];
            AllFit(s.a, s.b)
            <==> exists longer: seq<System> :: Extends(trace, longer) && longer[|longer| - 1].b.received == s.a.accepted
  {
    hide Next, Init, AllFit, Announced, Leads, Inv;
    var s := trace[|trace| - 1];
    if AllFit(s.a, s.b) {
      InvHolds(trace, |trace| - 1);
      var t := Finish(s);
      var longer := LeadsExtends(trace, t);
    }
    if longer: seq<System> :| Extends(trace, longer) && longer[|longer| - 1].b.received == s.a.accepted {
      DeliveredFit(trace, longer);
    }
  }

  /** All messages of both sides have been read. */
  ghost predicate AllRead(s: System, t: System) {
    t.b.received == s.a.accepted && t.a.received == s.b.accepted
  }

  /** Progress in both directions at once. */
  lemma EverythingGetsThrough(trace: seq<System>)
    requires Execution(trace)
    requires Announced(trace[|trace| - 1].a.st.cfg) && Announced(trace[|trace| - 1].b.st.cfg)
    ensures var s := trace[|trace| - 1];
            AllFit(s.a, s.b) && AllFit(s.b, s.a)
            <==> exists longer: seq<System> :: Extends(trace, longer) && AllRead(s, longer[|longer| - 1])
  {
    hide Next, Init, AllFit, Announced, Leads, Inv;
    var s := trace[|trace| - 1];
    if AllFit(s.a, s.b) && AllFit(s.b, s.a) {
      InvHolds(trace, |trace| - 1);
      var t := FinishBoth(s);
      var longer := LeadsExtends(trace, t);
    }
    if longer: seq<System> :| Extends(trace, longer) && AllRead(s, longer[|longer| - 1]) {
      DeliveredFit(trace, longer);
      MirroredFit(trace, longer);
    }
  }

  lemma FinishBoth(s: System) returns (t: System)
    requires Inv(s) && AllFit(s.a, s.b) && AllFit(s.b, s.a) && Announced(s.a.st.cfg) && Announced(s.b.st.cfg)
    ensures Leads(s, t) && AllRead(s, t)
  {
    hide Inv, Leads, FragmentCount, Announced;
    var u := Finish(s);
    MirrorKeeps(u);
    var v := Finish(Mirror(u));
    LeadsMirror(Mirror(u), v);
    assert Mirror(Mirror(u)) == u;
    t := Mirror(v);
    LeadsThen(s, u, t);
  }

  lemma MirroredFit(trace: seq<System>, longer: seq<System>)
    requires Execution(trace) && Extends(trace, longer)
    requires longer[|longer| - 1].a.received == trace[|trace| - 1].b.accepted
    ensures AllFit(trace[|trace| - 1].b, trace[|trace| - 1].a)
  {
    hide Next, Init, AllFit;
    MirrorRuns(trace);
    MirrorRuns(longer);
    var m, l := Mirrored(trace), Mirrored(longer);
    assert l[..|m|] == m;
    DeliveredFit(m, l);
  }
}
