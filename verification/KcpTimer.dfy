/**
 `ikcp_check` and `ikcp_update` agree, in 32-bit time that wraps. Times are compared through
 `Dist(t, u)`, how long after `t` the clock shows `u`.
 */
module KcpTimer {
  import opened Numbers
  import opened Serial
  import opened KcpSpec

  /** The retransmission time of a buffered segment has come. */
  predicate Overdue(buf: seq<Segment>, i: nat, t: uint32)
    requires i < |buf|
  {
    Diff(buf[i].resendts, t) <= 0
  }

  lemma FlushesMeans(t: Timer, now: uint32)
    ensures !UpdateFlushes(t, now) <==> t.updated && -10000 <= Diff(now, t.tsFlush) < 0
    ensures !UpdateFlushes(t, now) ==> Diff(t.tsFlush, now) == -Diff(now, t.tsFlush)
  {
  }

  /** What `ikcp_check` computes while the flush time has not come. */
  lemma CheckValue(s: State, t: uint32)
    requires !UpdateFlushes(s.timer, t)
    ensures var packet, wait := PacketTime(s.snd.buf, |s.snd.buf|, t), Diff(s.timer.tsFlush, t);
            && 0 < wait <= 10000
            && Check(s, t) == if packet == 0 then t else U32(t + Min(Min(packet, wait), s.cfg.interval))
  {
    FlushesMeans(s.timer, t);
    hide UpdateFlushes, Diff, PacketTime;
  }

  /** `ikcp_check` returns the current time exactly when an update would flush, when a
      retransmission is overdue, or when the flush interval is 0. */
  lemma CheckIsNow(s: State, t: uint32)
    ensures Check(s, t) == t <==>
            || UpdateFlushes(s.timer, t)
            || s.cfg.interval == 0
            || exists i :: 0 <= i < |s.snd.buf| && Overdue(s.snd.buf, i, t)
  {
    FlushesMeans(s.timer, t);
    if !UpdateFlushes(s.timer, t) {
      var n := |s.snd.buf|;
      CheckValue(s, t);
      hide Check, UpdateFlushes, Diff, PacketTime, Overdue;
      PacketZero(s.snd.buf, n, t);
      AheadOfNow(t, Min(Min(PacketTime(s.snd.buf, n, t), Diff(s.timer.tsFlush, t)), s.cfg.interval));
    }
  }

  lemma AheadOfNow(t: uint32, d: nat)
    requires d < TWO31
    ensures U32(t + d) == t <==> d == 0
    ensures Dist(t, U32(t + d)) == d
  {
  }

  lemma {:induction false} PacketZero(buf: seq<Segment>, n: nat, t: uint32)
    requires n <= |buf|
    ensures PacketTime(buf, n, t) == 0 <==> exists i :: 0 <= i < n && Overdue(buf, i, t)
  {
    if n > 0 {
      PacketZero(buf, n - 1, t);
      if PacketTime(buf, n, t) == 0 && PacketTime(buf, n - 1, t) != 0 {
        assert Overdue(buf, n - 1, t);
      }
    }
  }

  lemma {:induction false} PacketLeast(buf: seq<Segment>, n: nat, t: uint32, i: nat)
    requires i < n <= |buf|
    ensures PacketTime(buf, n, t) <= Max(Diff(buf[i].resendts, t), 0)
  {
    if i < n - 1 {
      PacketLeast(buf, n - 1, t, i);
    }
  }

  lemma {:induction false} PacketAttained(buf: seq<Segment>, n: nat, t: uint32)
    requires n <= |buf| && 0 < PacketTime(buf, n, t) < 0x7fff_ffff
    ensures exists i :: 0 <= i < n && DueIn(buf, i, t, PacketTime(buf, n, t))
  {
    hide Diff;
    if PacketTime(buf, n - 1, t) == PacketTime(buf, n, t) {
      PacketAttained(buf, n - 1, t);
      var i :| 0 <= i < n - 1 && DueIn(buf, i, t, PacketTime(buf, n - 1, t));
      assert DueIn(buf, i, t, PacketTime(buf, n, t));
    } else {
      assert DueIn(buf, n - 1, t, PacketTime(buf, n, t));
    }
  }

  /** The segment is to be retransmitted `d` from now. */
  predicate DueIn(buf: seq<Segment>, i: nat, t: uint32, d: int)
    requires i < |buf|
  {
    Diff(buf[i].resendts, t) == d
  }

  /** A later time that `ikcp_check` returns is the first of three: the flush time, one interval from
      now, and the earliest retransmission. */
  lemma CheckIsFirst(s: State, t: uint32)
    requires Check(s, t) != t
    ensures var d := Dist(t, Check(s, t));
            && s.timer.updated
            && 0 < d <= Diff(s.timer.tsFlush, t) <= 10000
            && d <= s.cfg.interval
            && (forall i :: 0 <= i < |s.snd.buf| ==> d <= Diff(s.snd.buf[i].resendts, t))
            && (d == Diff(s.timer.tsFlush, t) || d == s.cfg.interval
                || exists i :: 0 <= i < |s.snd.buf| && DueIn(s.snd.buf, i, t, d))
  {
    var buf := s.snd.buf;
    CheckIsNow(s, t);
    CheckValue(s, t);
    FlushesMeans(s.timer, t);
    hide Check, UpdateFlushes, Diff, PacketTime, DueIn;
    PacketZero(buf, |buf|, t);
    var packet := PacketTime(buf, |buf|, t);
    AheadOfNow(t, Min(Min(packet, Diff(s.timer.tsFlush, t)), s.cfg.interval));
    forall i | 0 <= i < |buf| ensures packet <= Diff(buf[i].resendts, t) {
      PacketLeast(buf, |buf|, t, i);
      assert !Overdue(buf, i, t);
    }
    if packet <= 10000 {
      PacketAttained(buf, |buf|, t);
    }
  }

  /** Until then nothing happens: an update does not flush, and no segment would be retransmitted
      because its time has come. */
  lemma NothingBeforeCheck(s: State, t: uint32, u: uint32)
    requires Dist(t, u) < Dist(t, Check(s, t))
    ensures !UpdateFlushes(s.timer, u)
    ensures NextTimer(s.timer, u, s.cfg.interval) == s.timer.(current := u)
    ensures forall i :: 0 <= i < |s.snd.buf| ==> Diff(u, s.snd.buf[i].resendts) < 0
  {
    hide Check;
    CheckIsFirst(s, t);
    Between(t, u, s.timer.tsFlush);
    forall i | 0 <= i < |s.snd.buf| ensures Diff(u, s.snd.buf[i].resendts) < 0 {
      Between(t, u, s.snd.buf[i].resendts);
    }
  }

  lemma Between(t: uint32, u: uint32, later: uint32)
    requires Dist(t, u) < Diff(later, t)
    ensures -Diff(later, t) <= Diff(u, later) < 0
  {
  }

  /** The state after updates at the first `n` of the times `us`. */
  function Updates(s: State, us: seq<uint32>, n: nat): State
    requires n <= |us|
  {
    if n == 0 then s else Update(Updates(s, us, n - 1), us[n - 1]).0
  }

  /** However often `ikcp_update` is called before the time that `ikcp_check` returned, none of the
      calls sends anything or changes more than the current time. */
  lemma {:induction false} QuietUntilCheck(s: State, t: uint32, us: seq<uint32>, n: nat)
    requires n < |us|
    requires forall i :: 0 <= i < |us| ==> Dist(t, us[i]) < Dist(t, Check(s, t))
    ensures Update(Updates(s, us, n), us[n]) == (s.(timer := s.timer.(current := us[n])), [])
  {
    hide Check, Flush, UpdateFlushes, NextTimer;
    if n > 0 {
      QuietUntilCheck(s, t, us, n - 1);
    }
    NothingBeforeCheck(s, t, us[n]);
    var before := Updates(s, us, n);
    OnlyFlushTimeMatters(before.timer, s.timer, us[n], s.cfg.interval);
  }

  lemma OnlyFlushTimeMatters(t: Timer, t': Timer, u: uint32, interval: uint32)
    requires t.tsFlush == t'.tsFlush && t.updated == t'.updated
    ensures UpdateFlushes(t, u) == UpdateFlushes(t', u)
    ensures NextTimer(t, u, interval) == NextTimer(t', u, interval)
  {
  }

  /** After a flush the next one is due later, and no later than one interval. */
  lemma FlushIsScheduled(t: Timer, now: uint32, interval: uint32)
    requires UpdateFlushes(t, now) && 0 < interval < TWO31
    ensures var next := NextTimer(t, now, interval);
            next.updated && next.current == now && 0 < Dist(now, next.tsFlush) <= interval
  {
    var (t1, slap) := Slap(t, now);
    SlapRange(t, now);
    hide Slap, Diff, Dist, U32;
    Postpone(now, t1.tsFlush, interval);
    DiffSelf(now);
    Postpone(now, now, interval);
  }

  lemma SlapRange(t: Timer, now: uint32)
    ensures var (t1, slap) := Slap(t, now);
            && t1.updated && t1.current == now && slap == Diff(now, t1.tsFlush) && slap < 10000
  {
    hide Diff;
    DiffSelf(now);
  }

  lemma Postpone(now: uint32, from: uint32, interval: uint32)
    requires 0 <= Diff(now, from) < 10000 && interval < TWO31
    ensures var next := U32(from + interval);
            && Diff(now, next) == Diff(now, from) - interval
            && (Diff(now, next) < 0 ==> Dist(now, next) == interval - Diff(now, from))
  {
    hide U32;
    var d := Diff(now, from);
    U32Sub(now, from + interval);
    U32Shift(now - from, 0 - interval);
    U32Shift(from + interval, 0 - now);
    U32Sub(interval, now - from);
    SmallGap(d, interval);
    assert U32(now - from) == d;
  }

  lemma SmallGap(d: nat, interval: nat)
    requires d < 10000 && interval < TWO31
    ensures I32(d - interval) == d - interval
    ensures d < interval ==> U32(interval - d) == interval - d
  {
  }

  /** After that an update flushes exactly from the scheduled time on. */
  lemma NextFlush(t: Timer, now: uint32, interval: uint32, d: nat)
    requires UpdateFlushes(t, now) && 0 < interval <= 10000 && d < TWO31
    ensures var next := NextTimer(t, now, interval);
            UpdateFlushes(next, U32(now + d)) <==> Dist(now, next.tsFlush) <= d
  {
    FlushIsScheduled(t, now, interval);
    var next := NextTimer(t, now, interval);
    hide NextTimer;
    Elapsed(now, next.tsFlush, d);
  }

  lemma Elapsed(now: uint32, later: uint32, d: nat)
    requires Dist(now, later) <= 10000 && d < TWO31
    ensures Diff(U32(now + d), later) == d - Dist(now, later)
  {
  }

  // ---------------------------------------------------------------- cadence

  /** When a flush that is less than ten seconds late runs, the next flush time is the old one plus the
      interval if that is still ahead, and one interval from now otherwise. The first update, and one after
      a jump of the clock, count one interval from now. */
  lemma FlushPace(t: Timer, now: uint32, interval: uint32)
    requires UpdateFlushes(t, now) && interval < TWO31
    ensures var next := NextTimer(t, now, interval).tsFlush;
            if t.updated && 0 <= Diff(now, t.tsFlush) < 10000 && Diff(now, t.tsFlush) < interval
            then next == U32(t.tsFlush + interval)
            else next == U32(now + interval)
  {
    var (t1, slap) := Slap(t, now);
    SlapRange(t, now);
    Paces(t, now);
    hide Slap, Diff, Dist, U32;
    Postpone(now, t1.tsFlush, interval);
  }

  /** Where the flush time is counted from. */
  lemma Paces(t: Timer, now: uint32)
    requires UpdateFlushes(t, now)
    ensures Slap(t, now).0.tsFlush == if t.updated && 0 <= Diff(now, t.tsFlush) < 10000 then t.tsFlush else now
  {
    hide Diff;
    DiffSelf(now);
  }

  /** The timer after updates at the first `n` of the times `us`. */
  function Timers(t: Timer, us: seq<uint32>, interval: uint32, n: nat): Timer
    requires n <= |us|
  {
    if n == 0 then t else NextTimer(Timers(t, us, interval, n - 1), us[n - 1], interval)
  }

  /** How many of them flush. */
  function Flushes(t: Timer, us: seq<uint32>, interval: uint32, n: nat): nat
    requires n <= |us|
  {
    if n == 0 then 0
    else Flushes(t, us, interval, n - 1)
         + (if UpdateFlushes(Timers(t, us, interval, n - 1), us[n - 1]) then 1 else 0)
  }

  /** The update is less than one interval late, or early by at most ten seconds. */
  predicate InTime(t: Timer, now: uint32, interval: uint32) {
    t.updated && -10000 <= Diff(now, t.tsFlush) < Min(10000, interval)
  }

  /** The clock of the flushes does not drift: while every update is in time, the flush times are whole
      intervals after the first one. */
  lemma {:induction false} FlushesKeepTime(t: Timer, us: seq<uint32>, interval: uint32, n: nat)
    requires n <= |us| && interval < TWO31
    requires forall i :: 0 <= i < n ==> InTime(Timers(t, us, interval, i), us[i], interval)
    ensures Timers(t, us, interval, n).tsFlush
         == if Flushes(t, us, interval, n) == 0 then t.tsFlush
            else U32(t.tsFlush + Flushes(t, us, interval, n) * interval)
  {
    hide UpdateFlushes, NextTimer, U32, InTime;
    if n > 0 {
      FlushesKeepTime(t, us, interval, n - 1);
      var before, k := Timers(t, us, interval, n - 1), Flushes(t, us, interval, n - 1);
      assert InTime(before, us[n - 1], interval);
      OneUpdate(before, us[n - 1], interval);
      IntervalMore(t.tsFlush, k, interval);
    }
  }

  lemma OneUpdate(t: Timer, now: uint32, interval: uint32)
    requires InTime(t, now, interval) && interval < TWO31
    ensures NextTimer(t, now, interval).tsFlush
         == if UpdateFlushes(t, now) then U32(t.tsFlush + interval) else t.tsFlush
  {
    FlushesMeans(t, now);
    if UpdateFlushes(t, now) {
      FlushPace(t, now, interval);
    }
    hide U32, Diff;
  }

  lemma IntervalMore(from: uint32, k: nat, interval: uint32)
    ensures U32(U32(from + k * interval) + interval) == U32(from + (k + 1) * interval)
    ensures U32(from + interval) == U32(from + 1 * interval)
  {
    U32Shift(from + k * interval, interval);
    assert k * interval + interval == (k + 1) * interval;
  }
}
