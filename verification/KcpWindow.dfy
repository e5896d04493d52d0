/**
 What the windows are for: how much a flush may put in flight, how the congestion window grows with the
 acknowledgements, and how it falls when a flush has to retransmit.
 */
module KcpWindow {
  import opened Numbers
  import opened Serial
  import opened KcpWire
  import opened KcpSpec
  import opened KcpSender
  import opened KcpCongestion
  import opened KcpRuns

  /** The least of the send window, the announced window and, unless it is switched off, the congestion
      window. */
  predicate Least(s: State, w: nat) {
    && w <= s.cfg.sndWnd && w <= s.cc.rmtWnd && (s.cfg.nocwnd || w <= s.cc.cwnd)
    && (w == s.cfg.sndWnd || w == s.cc.rmtWnd || (!s.cfg.nocwnd && w == s.cc.cwnd))
  }

  lemma LeastIs(s: State, w: nat)
    requires Least(s, w)
    ensures FlushWindow(s) == w <= s.cfg.sndWnd
  {
  }

  // ---------------------------------------------------------------- what is put in flight

  function InFlightCount(s: State): nat {
    Dist(s.snd.una, s.snd.nxt)
  }

  /** The call runs a flush. */
  predicate FlushRuns(s: State, op: Op) {
    (op.Flush? && s.timer.updated) || (op.Update? && UpdateFlushes(s.timer, op.now))
  }

  /** The state in which that flush runs. */
  function AtFlush(s: State, op: Op): State {
    if op.Update? then s.(timer := NextTimer(s.timer, op.now, s.cfg.interval)) else s
  }

  /** A flush numbers exactly as many queued segments, from the front, as fit between what is in flight and
      the least window. */
  lemma FlushAdmits(s: State, U: int, S: int, w: nat)
    requires s.timer.updated && SenderOk(s.snd, U, S, s.cfg.sndWnd) && Least(s, w)
    ensures var t, n := KcpSpec.Flush(s).0, Min(|s.snd.queue|, Max(0, w - (S - U)));
            && Dist(s.snd.nxt, t.snd.nxt) == n && t.snd.una == s.snd.una
            && t.snd.queue == s.snd.queue[n..] && |t.snd.buf| == |s.snd.buf| + n
            && InFlightCount(s) == S - U && InFlightCount(t) == S - U + n
  {
    hide KcpSpec.Flush, AdmitCount, Numbered, TransmitAll, FlushWindow, SenderOk, U32, Dist, Least;
    LeastIs(s, w);
    AdmitsAll(s.snd, w, U, S, s.cfg.sndWnd);
    FlushedSender(s);
    SenderNumbers(s, U, S);
    Advances(U, S, AdmitCount(s.snd, w));
    Advances(U, S, 0);
  }

  lemma SenderNumbers(s: State, U: int, S: int)
    requires SenderOk(s.snd, U, S, s.cfg.sndWnd)
    ensures s.snd.una == U32(U) && s.snd.nxt == U32(S) && U <= S <= U + s.cfg.sndWnd
  {
  }

  lemma FlushedSender(s: State)
    requires s.timer.updated
    ensures var snd, t := FlushSender(s), KcpSpec.Flush(s).0; t.snd == snd.(buf := TransmitAll(s, snd.buf))
  {
    hide FlushSender, TransmitAll, CountDue, LinkDead, Backoff, FlushWires, Datagrams, FlushProbe;
  }

  lemma Advances(U: int, S: int, n: nat)
    requires U <= S && S + n < U + TWO32
    ensures U32(U32(S) + n) == U32(S + n)
    ensures Dist(U32(S), U32(S + n)) == n && Dist(U32(U), U32(S)) == S - U && Dist(U32(U), U32(S + n)) == S + n - U
  {
    hide U32, Dist;
    U32Shift(S, n);
    WidthIs(U, S);
    WidthIs(U, S + n);
    WidthIs(S, S + n);
  }

  /** In every run the number in flight rises in a flush only, there to the least window or by the whole
      queue, and never past that window: from `f` to the larger of `f` and the smaller of the window and `f`
      plus the queue. */
  lemma InFlightIsLimited(cfg: Config, ops: seq<Op>, n: nat, w: nat)
    requires n < |ops| && Least(After(cfg, ops, n), w)
    ensures var s, t := After(cfg, ops, n), After(cfg, ops, n + 1);
            var f, g := InFlightCount(s), InFlightCount(t);
            if FlushRuns(s, ops[n])
            then g == Max(f, Min(f + |s.snd.queue|, w)) && |s.snd.queue| - |t.snd.queue| == g - f
            else g <= f
  {
    hide Apply, Sound, Least, FlushRuns, InFlightCount;
    var U, S, R := AfterSound(cfg, ops, n);
    CallInFlight(After(cfg, ops, n), ops[n], w, U, S, R);
  }

  lemma CallInFlight(s: State, op: Op, w: nat, U: int, S: int, R: int)
    requires Sound(s, U, S, R) && Least(s, w)
    ensures var t, f := Apply(s, op), InFlightCount(s);
            var g := InFlightCount(t);
            if FlushRuns(s, op)
            then g == Max(f, Min(f + |s.snd.queue|, w)) && |s.snd.queue| - |t.snd.queue| == g - f
            else g <= f
  {
    hide Least, FlushRuns, AtFlush, KcpSpec.Flush, SenderOk, Sound, InFlightCount, Apply;
    if FlushRuns(s, op) {
      SoundSender(s, U, S, R);
      SameWindow(s, op, w);
      FlushAdmits(AtFlush(s, op), U, S, w);
    } else {
      StaysInFlight(s, op, U, S, R);
    }
  }

  lemma SoundSender(s: State, U: int, S: int, R: int)
    requires Sound(s, U, S, R)
    ensures SenderOk(s.snd, U, S, s.cfg.sndWnd) && InFlightCount(s) == S - U
  {
    Advances(U, S, 0);
  }

  lemma SameWindow(s: State, op: Op, w: nat)
    requires FlushRuns(s, op) && Least(s, w)
    ensures var f := AtFlush(s, op);
            && f == s.(timer := f.timer) && f.timer.updated && Least(f, w) && Apply(s, op) == KcpSpec.Flush(f).0
  {
    hide KcpSpec.Flush, Diff;
  }

  lemma StaysInFlight(s: State, op: Op, U: int, S: int, R: int)
    requires Sound(s, U, S, R) && !FlushRuns(s, op)
    ensures InFlightCount(Apply(s, op)) <= InFlightCount(s)
  {
    hide Sound, InFlightCount, KcpSpec.Input, NextTimer, UpdateFlushes, SendQueue, RecvCheck, AfterRecv;
    SoundSender(s, U, S, R);
    match op
    case Send(_) => SameFlight(s, Apply(s, op));
    case Recv(_) => SameFlight(s, Apply(s, op));
    case Input(datagram) =>
      var U', R' := InputKeeps(s, datagram, U, S, R);
      SoundSender(KcpSpec.Input(s, datagram).0, U', S, R');
    case Flush => SameFlight(s, Apply(s, op));
    case Update(_) => SameFlight(s, Apply(s, op));
  }

  lemma SameFlight(s: State, t: State)
    requires t.snd.una == s.snd.una && t.snd.nxt == s.snd.nxt
    ensures InFlightCount(t) == InFlightCount(s)
  {
  }

  // ---------------------------------------------------------------- how the window grows

  /** An input that is read to its end and has moved `snd_una`, while the window is below the announced one,
      raises the window by one and its bytes by a payload in slow start. From the threshold on the bytes
      grow by the avoidance step, and the window by one if they suffice for one more segment. Every other
      input leaves both as they are, and none touches the threshold. */
  lemma InputGrows(s: State, datagram: bytes)
    ensures var (t, r) := KcpSpec.Input(s, datagram);
            var c, m := s.cc, s.cfg.mss;
            && t.cc.ssthresh == c.ssthresh
            && if r == 0 && Diff(t.snd.una, s.snd.una) > 0 && c.cwnd < t.cc.rmtWnd
               then
                 if c.cwnd < c.ssthresh then t.cc.cwnd == c.cwnd + 1 && t.cc.incr == U32(c.incr + m)
                 else
                   var b := Max(c.incr, m);
                   && t.cc.incr == U32(b + U32(m * m) / b + m / 16)
                   && t.cc.cwnd == if U32((c.cwnd + 1) * m) <= t.cc.incr then c.cwnd + 1 else c.cwnd
               else t.cc.cwnd == c.cwnd && t.cc.incr == c.incr
  {
    hide Parse, ProcessRun, NoteRun, ParseFastack, Grow, Diff, U32;
    if I32(|datagram|) >= OVERHEAD {
      var p := Parse(s.cfg.conv, datagram);
      var run := ProcessRun(s, p.ws, |p.ws|);
      FastackUna(run.snd, NoteRun(p.ws, |p.ws|));
      GrowByOne(run.cc, s.cfg.mss);
      if run.cc.cwnd < run.cc.rmtWnd {
        GrowResult(run.cc, s.cfg.mss);
      } else {
        NoGrowth(run.cc, s.cfg.mss);
      }
      SameUna(s, datagram);
    }
  }

  lemma NoGrowth(cc: Congestion, m: payload)
    requires cc.cwnd >= cc.rmtWnd
    ensures Grow(cc, m) == cc
  {
  }

  lemma SameUna(s: State, datagram: bytes)
    requires I32(|datagram|) >= OVERHEAD
    ensures var p := Parse(s.cfg.conv, datagram);
            KcpSpec.Input(s, datagram).0.snd.una == ProcessRun(s, p.ws, |p.ws|).snd.una
  {
    hide Parse, ProcessRun, NoteRun, Grow, Diff, InFlight, BumpFastack, PastAck;
  }

  /** The input has moved `snd_una`. */
  predicate Moves(s: State, op: Op) {
    && op.Input? && KcpSpec.Input(s, op.datagram).1 == 0
    && Diff(KcpSpec.Input(s, op.datagram).0.snd.una, s.snd.una) > 0
  }

  /** How many of the calls from number `m` up to `n`, exclusive, do. */
  function Moved(cfg: Config, ops: seq<Op>, m: nat, n: nat): nat
    requires m <= n <= |ops|
  {
    if n == m then 0 else Moved(cfg, ops, m, n - 1) + (if Moves(After(cfg, ops, n - 1), ops[n - 1]) then 1 else 0)
  }

  /** A segment that has been sent before and whose retransmission time has come. */
  predicate OverdueAt(s: State, i: nat)
    requires i < |s.snd.buf|
  {
    s.snd.buf[i].xmit != 0 && Diff(s.timer.current, s.snd.buf[i].resendts) >= 0
  }

  /** How many skips trigger a fast retransmission: `fastresend`, or, when that is 0, the largest word. */
  function Skips(cfg: Config): uint32 {
    if cfg.fastresend > 0 then U32(cfg.fastresend) else 0xffff_ffff
  }

  /** One that is not overdue and has been skipped often enough. */
  predicate SkippedAt(s: State, i: nat)
    requires i < |s.snd.buf|
  {
    && s.snd.buf[i].xmit != 0 && !OverdueAt(s, i)
    && s.snd.buf[i].fastack >= Skips(s.cfg)
  }

  predicate SomeOverdue(s: State) {
    exists i :: 0 <= i < |s.snd.buf| && OverdueAt(s, i)
  }

  predicate SomeSkipped(s: State) {
    exists i :: 0 <= i < |s.snd.buf| && SkippedAt(s, i)
  }

  /** How many of the first `n` are overdue. */
  function OverdueCount(s: State, n: nat): nat
    requires n <= |s.snd.buf|
  {
    if n == 0 then 0 else OverdueCount(s, n - 1) + (if OverdueAt(s, n - 1) then 1 else 0)
  }

  lemma DueMeans(s: State, i: nat)
    requires i < |s.snd.buf|
    ensures Due(s, s.snd.buf[i]) == Timeout <==> OverdueAt(s, i)
    ensures Due(s, s.snd.buf[i]) == Fast <==> SkippedAt(s, i)
    ensures Due(s, s.snd.buf[i]) == First <==> s.snd.buf[i].xmit == 0
  {
  }

  lemma {:induction false} CountOld(s: State, buf: seq<Segment>, n: nat)
    requires n <= |s.snd.buf| <= |buf| && buf[..|s.snd.buf|] == s.snd.buf
    ensures CountDue(s, buf, n, Timeout) == OverdueCount(s, n)
    ensures CountDue(s, buf, n, Timeout) > 0 <==> exists i :: 0 <= i < n && OverdueAt(s, i)
    ensures CountDue(s, buf, n, Fast) > 0 <==> exists i :: 0 <= i < n && SkippedAt(s, i)
  {
    hide Due, OverdueAt, SkippedAt;
    if n > 0 {
      CountOld(s, buf, n - 1);
      DueMeans(s, n - 1);
      assert buf[n - 1] == buf[..|s.snd.buf|][n - 1];
      assert OverdueAt(s, n - 1) || !OverdueAt(s, n - 1);
      assert SkippedAt(s, n - 1) || !SkippedAt(s, n - 1);
    }
  }

  lemma {:induction false} CountNew(s: State, buf: seq<Segment>, m: nat, n: nat, why: Reason)
    requires m <= n <= |buf| && forall i :: m <= i < n ==> buf[i].xmit == 0
    requires why != First
    ensures CountDue(s, buf, n, why) == CountDue(s, buf, m, why)
  {
    if n > m {
      CountNew(s, buf, m, n - 1, why);
    }
  }

  /** The segments that a flush has just numbered are sent for the first time. */
  lemma FlushReasons(s: State)
    ensures Any(s, Timeout) <==> SomeOverdue(s)
    ensures Any(s, Fast) <==> SomeSkipped(s)
    ensures CountDue(s, FlushSender(s).buf, |FlushSender(s).buf|, Timeout) == OverdueCount(s, |s.snd.buf|)
  {
    var buf, m := FlushSender(s).buf, |s.snd.buf|;
    assert buf[..m] == s.snd.buf;
    hide Due, OverdueAt, SkippedAt;
    CountOld(s, buf, m);
    CountNew(s, buf, m, |buf|, Timeout);
    CountNew(s, buf, m, |buf|, Fast);
  }

  /** What a flush does to the congestion window. A timeout halves the threshold from the window that was in
      use and starts again from one segment. Otherwise a segment skipped often enough halves it from what is
      in flight after the flush, and sets the window to that many segments and the trigger. Otherwise nothing
      changes, except that the window is never left at 0. */
  lemma FlushBacksOff(s: State, w: nat)
    requires s.timer.updated && Least(s, w)
    ensures var t, c, m := KcpSpec.Flush(s).0, s.cc, s.cfg.mss;
            && t.cc.rmtWnd == c.rmtWnd
            && t.xmit == U32(s.xmit + OverdueCount(s, |s.snd.buf|))
            && if SomeOverdue(s) then t.cc.ssthresh == Max(w / 2, 2) && t.cc.cwnd == 1 && t.cc.incr == m
               else if SomeSkipped(s) then
                 var wide := U32(t.cc.ssthresh + Skips(s.cfg));
                 && t.cc.ssthresh == Max(InFlightCount(t) / 2, 2)
                 && t.cc.cwnd == Max(wide, 1) && t.cc.incr == if wide == 0 then m else U32(wide * m)
               else t.cc.ssthresh == c.ssthresh && t.cc.cwnd == Max(c.cwnd, 1)
                    && t.cc.incr == if c.cwnd == 0 then m else c.incr
  {
    hide KcpSpec.Flush, FlushSender, Any, SomeOverdue, SomeSkipped, TransmitAll, FlushWindow, CountDue, OverdueCount,
         U32, Least, Backoff, Skips;
    LeastIs(s, w);
    FlushReasons(s);
    FlushCc(s);
    FlushedSender(s);
    FlushXmit(s);
    BackoffMeans(s, FlushSender(s), w, Any(s, Fast), Any(s, Timeout));
  }

  lemma BackoffMeans(s: State, snd: Sender, w: uint32, change: bool, lost: bool)
    ensures var t, c, m := Backoff(s, snd, w, change, lost), s.cc, s.cfg.mss;
            && t.rmtWnd == c.rmtWnd
            && if lost then t.ssthresh == Max(w / 2, 2) && t.cwnd == 1 && t.incr == m
               else if change then
                 var wide := U32(t.ssthresh + Skips(s.cfg));
                 && t.ssthresh == Max(Dist(snd.una, snd.nxt) / 2, 2)
                 && t.cwnd == Max(wide, 1) && t.incr == if wide == 0 then m else U32(wide * m)
               else t.ssthresh == c.ssthresh && t.cwnd == Max(c.cwnd, 1) && t.incr == if c.cwnd == 0 then m else c.incr
  {
    hide U32;
  }

  lemma FlushXmit(s: State)
    requires s.timer.updated
    ensures KcpSpec.Flush(s).0.xmit == U32(s.xmit + CountDue(s, FlushSender(s).buf, |FlushSender(s).buf|, Timeout))
  {
    hide FlushSender, TransmitAll, CountDue, LinkDead, Backoff, FlushWires, Datagrams, FlushProbe;
  }

  /** Segment `i` of the buffer after the flush has been sent by it. */
  predicate SentNow(s: State, t: State, i: nat)
    requires i < |t.snd.buf|
  {
    i >= |s.snd.buf| || t.snd.buf[i].xmit != s.snd.buf[i].xmit
  }

  /** The link counts as dead from the first flush on that sends some segment for the `dead_link`th time. */
  lemma FlushKills(s: State)
    requires s.timer.updated
    ensures var t := KcpSpec.Flush(s).0;
            t.dead <==>
            s.dead || exists i :: 0 <= i < |t.snd.buf| && SentNow(s, t, i) && t.snd.buf[i].xmit >= s.cfg.deadLink
  {
    var b, t := FlushSender(s).buf, KcpSpec.Flush(s).0;
    FlushedSender(s);
    FlushDead(s);
    OldFirst(s);
    hide KcpSpec.Flush, FlushSender, Due, Transmit, U32;
    forall i | 0 <= i < |b| ensures SentNow(s, t, i) <==> Due(s, b[i]) != Keep {
      CountedOnce(s, b[i]);
    }
    if t.dead && !s.dead {
      var i :| 0 <= i < |b| && Due(s, b[i]) != Keep && Transmit(s, b[i]).xmit >= s.cfg.deadLink;
      assert SentNow(s, t, i);
    }
  }

  lemma OldFirst(s: State)
    ensures var b := FlushSender(s).buf;
            && |s.snd.buf| <= |b|
            && (forall i :: 0 <= i < |s.snd.buf| ==> b[i] == s.snd.buf[i])
            && (forall i :: |s.snd.buf| <= i < |b| ==> b[i].xmit == 0)
  {
    hide AdmitCount, FlushWindow;
  }

  lemma FlushDead(s: State)
    requires s.timer.updated
    ensures KcpSpec.Flush(s).0.dead == (s.dead || LinkDead(s, FlushSender(s).buf, |FlushSender(s).buf|))
  {
    hide FlushSender, TransmitAll, CountDue, LinkDead, Backoff, FlushWires, Datagrams, FlushProbe;
  }

  lemma CountedOnce(s: State, seg: Segment)
    ensures Transmit(s, seg).xmit == if Due(s, seg) == Keep then seg.xmit else U32(seg.xmit + 1)
    ensures U32(seg.xmit + 1) != seg.xmit
    ensures seg.xmit == 0 ==> Due(s, seg) == First
  {
  }

  // ---------------------------------------------------------------- slow start

  /** A call that retransmits nothing. */
  predicate Calm(s: State, op: Op) {
    FlushRuns(s, op) ==> !SomeOverdue(AtFlush(s, op)) && !SomeSkipped(AtFlush(s, op))
  }

  lemma StepGrows(s: State, op: Op, W: nat)
    requires Calm(s, op) && s.cc.cwnd >= 1 && Apply(s, op).cc.rmtWnd >= W
    ensures var t, step := Apply(s, op), if Moves(s, op) then 1 else 0;
            && t.cc.ssthresh == s.cc.ssthresh
            && s.cc.cwnd <= t.cc.cwnd <= s.cc.cwnd + step
            && (s.cc.cwnd < s.cc.ssthresh && s.cc.cwnd < W ==> t.cc.cwnd == s.cc.cwnd + step)
  {
    hide SomeOverdue, SomeSkipped, KcpSpec.Input, KcpSpec.Flush, SendQueue, RecvCheck, AfterRecv, NextTimer,
         UpdateFlushes, Diff, U32;
    match op
    case Input(datagram) => InputGrows(s, datagram);
    case Send(_) =>
    case Recv(_) =>
    case Flush => CalmFlush(s);
    case Update(now) => UpdateCalm(s, now);
  }

  lemma UpdateCalm(s: State, now: uint32)
    requires Calm(s, Op.Update(now)) && s.cc.cwnd >= 1
    ensures KcpSpec.Update(s, now).0.cc == s.cc
  {
    hide SomeOverdue, SomeSkipped, KcpSpec.Flush, NextTimer, UpdateFlushes;
    if UpdateFlushes(s.timer, now) {
      CalmFlush(AtFlush(s, Op.Update(now)));
    }
  }

  lemma CalmFlush(s: State)
    requires s.cc.cwnd >= 1 && (s.timer.updated ==> !SomeOverdue(s) && !SomeSkipped(s))
    ensures KcpSpec.Flush(s).0.cc == s.cc
  {
    if s.timer.updated {
      hide KcpSpec.Flush, SomeOverdue, SomeSkipped;
      FlushBacksOff(s, FlushWindow(s));
    }
  }

  /** Slow start over a run: while nothing is retransmitted and at least `W` segments are announced, `k`
      inputs that move `snd_una` take the window from `c` to `c + k`, until it reaches the threshold or
      `W`. It never falls, and never rises by more. */
  lemma {:induction false} SlowStart(cfg: Config, ops: seq<Op>, m: nat, n: nat, W: nat)
    requires m <= n <= |ops| && After(cfg, ops, m).cc.cwnd >= 1
    requires forall i :: m <= i < n ==> Calm(After(cfg, ops, i), ops[i])
    requires forall i :: m <= i <= n ==> After(cfg, ops, i).cc.rmtWnd >= W
    ensures var c, d, k := After(cfg, ops, m).cc, After(cfg, ops, n).cc, Moved(cfg, ops, m, n);
            && d.ssthresh == c.ssthresh
            && Min(c.cwnd + k, Min(c.ssthresh, W)) <= d.cwnd <= c.cwnd + k
            && (c.cwnd + k <= c.ssthresh && c.cwnd + k <= W ==> d.cwnd == c.cwnd + k)
            && c.cwnd <= d.cwnd
  {
    hide Calm, Moves, Apply;
    if n > m {
      SlowStart(cfg, ops, m, n - 1, W);
      assert Calm(After(cfg, ops, n - 1), ops[n - 1]) && After(cfg, ops, n).cc.rmtWnd >= W;
      StepGrows(After(cfg, ops, n - 1), ops[n - 1], W);
    }
  }
}
