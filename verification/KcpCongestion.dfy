/**
 Congestion accounting: `incr` is the congestion window in bytes, so it stays between
 `cwnd * mss` and `(cwnd + 1) * mss`.
 */
module KcpCongestion {
  import opened Numbers
  import opened Serial
  import opened KcpWire
  import opened KcpSpec
  import opened KcpRuns

  /** `incr` counts the bytes of `cwnd` segments and of part of one more. */
  ghost predicate Accounted(cc: Congestion, mss: payload) {
    cc.cwnd * mss <= cc.incr < (cc.cwnd + 1) * mss
  }

  lemma Successor(k: int, m: int)
    ensures (k + 1) * m == k * m + m
    ensures (k + 2) * m == k * m + 2 * m
  {
  }

  lemma QuotientBelow(a: nat, b: int)
    requires 0 < b
    ensures 0 <= b * (a / b) <= a && 0 <= a / b
  {
  }

  lemma Cancel(a: int, b: int, x: int)
    requires 0 < x && a * x < b * x
    ensures a < b
  {
  }

  /** Between `m` and `2 * m` the curve x + m * m / x stays below its value 2.5 * m at the ends. */
  lemma FirstStep(x: int, m: int, q: int)
    requires 0 < m <= x < 2 * m && x * q <= m * m
    ensures 2 * (x + q) < 5 * m
  {
    ParabolaBelow(x, m);
    Regroup(x, q);
    Cancel(2 * q, 5 * m - 2 * x, x);
  }

  lemma Regroup(x: int, q: int)
    ensures (2 * q) * x == 2 * (x * q)
  {
  }

  lemma ParabolaBelow(x: int, m: int)
    requires 0 < m <= x < 2 * m
    ensures 2 * (m * m) < (5 * m - 2 * x) * x
  {
    assert (2 * x - m) * (2 * m - x) > 0;
    assert (2 * x - m) * (2 * m - x) == (5 * m - 2 * x) * x - 2 * (m * m);
  }

  lemma LaterStep(x: int, m: int, q: int)
    requires 0 < m && 2 * m <= x && x * q <= m * m
    ensures 2 * q <= m
  {
    Regroup(x, q);
    Product(2 * m, x, m);
    SquareTwice(m);
    Below(2 * q, m, x);
  }

  lemma SquareTwice(m: int)
    ensures (2 * m) * m == 2 * (m * m)
  {
  }

  lemma Below(a: int, b: int, x: int)
    requires 0 < x && a * x <= x * b
    ensures a <= b
  {
  }

  /** The step of congestion avoidance never reaches the second next segment. */
  lemma StepSmall(cwnd: int, x: int, m: int, q: int)
    requires 1 <= cwnd && 0 < m && cwnd * m <= x < (cwnd + 1) * m && x * q <= m * m
    ensures m <= x && x + q + m / 16 < (cwnd + 2) * m
  {
    Successor(cwnd, m);
    Product(1, cwnd, m);
    if cwnd == 1 {
      FirstStep(x, m, q);
    } else {
      Product(2, cwnd, m);
      LaterStep(x, m, q);
    }
  }

  /** `incr` after the growth of one input, before it is cut to 32 bits. */
  function Grown(cc: Congestion, m: payload): int {
    if cc.cwnd < cc.ssthresh then cc.incr + m
    else
      var base := if cc.incr < m then m else cc.incr;
      base + U32(m * m) / base + m / 16
  }

  /** When the growth stays below 2^32. */
  predicate Roomy(cc: Congestion, m: payload) {
    cc.cwnd >= cc.rmtWnd || (Grown(cc, m) < TWO32 && (cc.cwnd + 1) * m < TWO32)
  }

  lemma GrownBelow(cc: Congestion, m: payload)
    requires Accounted(cc, m) && 2 <= cc.ssthresh
    ensures cc.incr <= Grown(cc, m) < (cc.cwnd + 2) * m
    ensures cc.ssthresh <= cc.cwnd ==> m <= cc.incr
  {
    hide U32;
    Successor(cc.cwnd, m);
    if cc.ssthresh <= cc.cwnd {
      Product(1, cc.cwnd, m);
      CutSquare(m);
      QuotientBelow(U32(m * m), cc.incr);
      StepSmall(cc.cwnd, cc.incr, m, U32(m * m) / cc.incr);
    }
  }

  lemma CutSquare(m: payload)
    ensures 0 <= U32(m * m) <= m * m
  {
  }

  /** The window after the growth, given the products. */
  lemma GrowResult(cc: Congestion, m: payload)
    requires cc.cwnd < cc.rmtWnd
    ensures var g := Grow(cc, m);
            && g.incr == U32(Grown(cc, m))
            && g.cwnd == (if cc.cwnd < cc.ssthresh || U32((cc.cwnd + 1) * m) <= g.incr
                          then cc.cwnd + 1 else cc.cwnd)
  {
    assert U32(cc.cwnd + 1) == cc.cwnd + 1;
  }

  /** Input keeps the accounting exactly when nothing passes 2^32. */
  lemma GrowExact(cc: Congestion, m: payload)
    requires Accounted(cc, m) && 2 <= cc.ssthresh
    ensures Accounted(Grow(cc, m), m) <==> Roomy(cc, m)
  {
    if cc.cwnd < cc.rmtWnd {
      GrownBelow(cc, m);
      GrowResult(cc, m);
      hide Grow, Grown;
      Successor(cc.cwnd, m);
      CutCases(cc.cwnd * m, cc.incr, m, Grown(cc, m));
    }
  }

  lemma CutCases(a: nat, incr: uint32, m: payload, x: nat)
    requires a <= incr <= x < a + 2 * m
    ensures x >= TWO32 ==> U32(x) < a
    ensures x < TWO32 ==> U32(x) == x
    ensures TWO32 <= a + m && m <= incr && x < TWO32 ==> U32(a + m) <= x
    ensures a + m < TWO32 ==> U32(a + m) == a + m
  {
  }

  /** A flush that retransmits because of skipped acknowledgements sets the window to this. */
  function Rescued(s: State): uint32 {
    U32(Max(U32(FlushSender(s).nxt - s.snd.una) / 2, THRESH_MIN) + s.cfg.Resent())
  }

  predicate Any(s: State, why: Reason) {
    CountDue(s, FlushSender(s).buf, |FlushSender(s).buf|, why) > 0
  }

  /** A flush keeps the accounting exactly when the window it sets is below 2^32 bytes. */
  lemma FlushExact(s: State)
    requires s.timer.updated && Accounted(s.cc, s.cfg.mss)
    ensures var cc := KcpSpec.Flush(s).0.cc;
            Accounted(cc, s.cfg.mss) <==> Any(s, Timeout) || !Any(s, Fast) || Rescued(s) * s.cfg.mss < TWO32
  {
    FlushCc(s);
    hide KcpSpec.Flush, Any, FlushSender, Backoff, Accounted;
    BackoffExact(s, FlushSender(s), FlushWindow(s), Any(s, Fast), Any(s, Timeout));
  }

  lemma FlushCc(s: State)
    requires s.timer.updated
    ensures KcpSpec.Flush(s).0.cc == Backoff(s, FlushSender(s), FlushWindow(s), Any(s, Fast), Any(s, Timeout))
    ensures FlushSender(s).una == s.snd.una
  {
    hide Backoff, CountDue, TransmitAll, FlushWires, Datagrams, LinkDead, AdmitCount, Numbered, FlushWindow;
  }

  lemma BackoffExact(s: State, snd: Sender, cwnd: uint32, change: bool, lost: bool)
    requires Accounted(s.cc, s.cfg.mss)
    ensures var w := U32(Max(U32(snd.nxt - snd.una) / 2, THRESH_MIN) + s.cfg.Resent());
            Accounted(Backoff(s, snd, cwnd, change, lost), s.cfg.mss) <==> lost || !change || w * s.cfg.mss < TWO32
  {
    var w := U32(Max(U32(snd.nxt - snd.una) / 2, THRESH_MIN) + s.cfg.Resent());
    hide U32;
    SetExact(s.cc, w, s.cfg.mss);
    OneSegment(s.cc, s.cfg.mss);
  }

  /** A window set together with its byte count is accounted for exactly if the count fits. */
  lemma SetExact(cc: Congestion, w: uint32, m: payload)
    ensures Accounted(cc.(cwnd := w, incr := U32(w * m)), m) <==> w * m < TWO32
  {
    hide U32;
    Successor(w, m);
    U32Fits(w * m);
  }

  lemma OneSegment(cc: Congestion, m: payload)
    ensures Accounted(cc.(cwnd := 1, incr := m), m)
  {
  }

  // ---------------------------------------------------------------- input

  /** Input raises the window by one at most, only when `snd_una` has moved, and never past the
      window that the peer announced. */
  lemma InputRaisesByOne(s: State, datagram: bytes)
    ensures var t := KcpSpec.Input(s, datagram).0;
            && t.cc.ssthresh == s.cc.ssthresh
            && (t.cc.cwnd == s.cc.cwnd
                || (t.cc.cwnd == s.cc.cwnd + 1 <= t.cc.rmtWnd && Diff(t.snd.una, s.snd.una) > 0))
  {
    hide Parse, ProcessRun, NoteRun, ParseFastack, Grow, Diff;
    var p := Parse(s.cfg.conv, datagram);
    var run := ProcessRun(s, p.ws, |p.ws|);
    GrowByOne(run.cc, s.cfg.mss);
    FastackUna(run.snd, NoteRun(p.ws, |p.ws|));
  }

  lemma FastackUna(snd: Sender, m: MaxAck)
    ensures m.MaxAck? ==> ParseFastack(snd, m.sn).una == snd.una
  {
  }

  lemma GrowByOne(cc: Congestion, m: payload)
    ensures var g := Grow(cc, m);
            && g.ssthresh == cc.ssthresh && g.rmtWnd == cc.rmtWnd
            && (g.cwnd == cc.cwnd || g.cwnd == cc.cwnd + 1 <= cc.rmtWnd)
  {
    hide U32;
    if cc.cwnd < cc.rmtWnd {
      assert U32(cc.cwnd + 1) == cc.cwnd + 1 by {
        U32Fits(cc.cwnd + 1);
      }
    }
  }

  lemma {:induction false} WindowIs16Bits(s: State, ws: seq<Wire>, n: nat)
    requires n <= |ws| && s.cc.rmtWnd < 0x1_0000
    ensures ProcessRun(s, ws, n).cc.rmtWnd < 0x1_0000
  {
    hide HearAck, AcceptPush, QueueAck, UpdateAck;
    if n > 0 {
      WindowIs16Bits(s, ws, n - 1);
    }
  }

  /** A flush that runs leaves a window of at least one segment. */
  lemma FlushOpensWindow(s: State)
    requires s.timer.updated && s.cc.ssthresh >= 2
    ensures var cc := KcpSpec.Flush(s).0.cc; cc.cwnd >= 1 && cc.ssthresh >= 2 && cc.rmtWnd == s.cc.rmtWnd
  {
    FlushCc(s);
    hide KcpSpec.Flush, Any, FlushSender, FlushWindow, U32;
  }

  // ---------------------------------------------------------------- every reachable state

  /** Settings for which no byte count passes 2^32: a payload that fits a UDP datagram, and windows
      in proportion. */
  predicate Tame(cfg: Config) {
    cfg.mss <= 0xffff && Widest(cfg) * cfg.mss < TWO32
  }

  /** No fast retransmission sets a larger window. */
  function Widest(cfg: Config): nat {
    Max(cfg.sndWnd / 2, 2) + cfg.fastresend
  }

  ghost predicate Counted(cc: Congestion, cfg: Config) {
    && cc.ssthresh >= 2 && cc.rmtWnd < 0x1_0000
    && (Tame(cfg) ==> Accounted(cc, cfg.mss))
  }

  lemma TameIsRoomy(cc: Congestion, cfg: Config)
    requires Counted(cc, cfg) && Tame(cfg)
    ensures Roomy(cc, cfg.mss)
  {
    if cc.cwnd < cc.rmtWnd {
      GrownBelow(cc, cfg.mss);
      hide Grown;
      Product(cc.cwnd + 1, 0x1_0000, cfg.mss);
      Product(cc.cwnd + 2, 0x1_0000, cfg.mss);
    }
  }

  lemma InputCounted(s: State, datagram: bytes)
    requires Counted(s.cc, s.cfg)
    ensures Counted(KcpSpec.Input(s, datagram).0.cc, s.cfg)
  {
    hide Parse, ProcessRun, NoteRun, ParseFastack, Grow, Diff, Tame, Roomy;
    var p := Parse(s.cfg.conv, datagram);
    var run := ProcessRun(s, p.ws, |p.ws|);
    WindowIs16Bits(s, p.ws, |p.ws|);
    GrowByOne(run.cc, s.cfg.mss);
    if Tame(s.cfg) {
      TameIsRoomy(run.cc, s.cfg);
      GrowExact(run.cc, s.cfg.mss);
    }
  }

  lemma RescuedBelow(s: State)
    requires Dist(s.snd.una, FlushSender(s).nxt) <= s.cfg.sndWnd && Widest(s.cfg) < TWO32
    ensures Rescued(s) <= Widest(s.cfg)
  {
    hide FlushSender;
  }

  lemma WidestFits(k: nat, r: nat, m: nat)
    requires 1 <= m && k * m < TWO32
    ensures k < TWO32
    ensures r <= k ==> r * m < TWO32
  {
    Product(1, m, k + 1);
    if r <= k {
      Product(r, k, m);
    }
  }

  lemma RescuedIsTame(s: State)
    requires Tame(s.cfg) && Dist(s.snd.una, FlushSender(s).nxt) <= s.cfg.sndWnd
    ensures Rescued(s) * s.cfg.mss < TWO32
  {
    hide FlushSender, Widest, Rescued, Dist;
    WidestFits(Widest(s.cfg), 0, s.cfg.mss);
    RescuedBelow(s);
    WidestFits(Widest(s.cfg), Rescued(s), s.cfg.mss);
  }

  lemma FlushCounted(s: State)
    requires Counted(s.cc, s.cfg) && s.timer.updated
    requires SenderShape(KcpSpec.Flush(s).0)
    ensures Counted(KcpSpec.Flush(s).0.cc, s.cfg)
  {
    FlushOpensWindow(s);
    if Tame(s.cfg) {
      FlushNumbers(s);
      RescuedIsTame(s);
      FlushExact(s);
    }
    hide KcpSpec.Flush, Tame, Rescued, Any;
  }

  lemma FlushNumbers(s: State)
    requires s.timer.updated
    ensures var t := KcpSpec.Flush(s).0; t.snd.una == s.snd.una && t.snd.nxt == FlushSender(s).nxt && t.cfg == s.cfg
  {
    hide Backoff, CountDue, TransmitAll, FlushWires, Datagrams, LinkDead, AdmitCount, Numbered, FlushWindow;
  }

  lemma ApplyCounted(s: State, op: Op)
    requires Counted(s.cc, s.cfg) && SenderShape(Apply(s, op))
    ensures Counted(Apply(s, op).cc, s.cfg)
  {
    hide Counted, SenderShape, KcpSpec.Input, KcpSpec.Flush, SendQueue, RecvCheck, AfterRecv, Slap;
    match op
    case Send(_) =>
    case Recv(_) =>
    case Input(datagram) => InputCounted(s, datagram);
    case Flush => FlushIf(s);
    case Update(now) =>
      if UpdateFlushes(s.timer, now) {
        FlushIf(s.(timer := NextTimer(s.timer, now, s.cfg.interval)));
      }
  }

  lemma FlushIf(s: State)
    requires Counted(s.cc, s.cfg)
    requires SenderShape(KcpSpec.Flush(s).0)
    ensures Counted(KcpSpec.Flush(s).0.cc, s.cfg)
  {
    if s.timer.updated {
      FlushCounted(s);
    } else {
      assert KcpSpec.Flush(s).0 == s;
    }
  }

  /** In every reachable state the accounting is right, the threshold is at least 2 and the
      announced window has 16 bits. */
  lemma {:induction false} ReachableAccounted(cfg: Config, ops: seq<Op>, n: nat)
    requires n <= |ops|
    ensures After(cfg, ops, n).cfg == cfg && Counted(After(cfg, ops, n).cc, cfg)
  {
    hide Counted, Apply;
    if n == 0 {
      CreateCounted(cfg);
    } else {
      ReachableAccounted(cfg, ops, n - 1);
      ReachableShape(cfg, ops, n);
      ApplySameConfig(After(cfg, ops, n - 1), ops[n - 1]);
      ApplyCounted(After(cfg, ops, n - 1), ops[n - 1]);
    }
  }

  lemma CreateCounted(cfg: Config)
    ensures Counted(Create(cfg).cc, cfg)
  {
  }
}
