/**
 The RTP reordering queue. Sequence numbers have 16 bits and wrap; the queue is proved to behave
 like a sorted list of unbounded indices as long as no two numbers in play are 2^15 or more apart.
 */
module RtpPacketQueue {
  import opened Numbers
  import opened Serial

  const DEFAULT_DEPTH := 3.0
  const DEFAULT_MAX := 5.0

  datatype Packet = Packet(seqNumber: uint16, timestamp: uint32, data: seq<byte>)

  /** The queue, newest packet first, and the last number handed out, or -1. */
  datatype Queue = Queue(packets: seq<Packet>, last: int, timebase: uint32, depth: real, max: real)

  /** `rtpSequenceLessThan` */
  predicate Less(x: uint16, y: uint16) {
    var diff := y - x;
    if diff > 0 then diff < 0x8000 else diff < 0 && diff < -0x8000
  }

  /** The comparison is the order of the indices, for indices less than 2^15 apart. */
  lemma LessIsSerial(a: int, b: int)
    requires -0x8000 < a - b < 0x8000
    ensures Less(U16(a), U16(b)) <==> a < b
    ensures U16(a) == U16(b) <==> a == b
  {
  }

  /** At a distance of 2^15 neither number is less than the other, and beyond it the order turns. */
  lemma LessBeyond(a: int, b: int)
    requires 0x8000 <= b - a < 0x1_0000
    ensures !Less(U16(a), U16(b))
    ensures Less(U16(b), U16(a)) <==> b - a > 0x8000
  {
  }

  // ---------------------------------------------------------------- operations

  /** Where the loop of `pushPacket` puts a packet, from position `i` on. */
  function Insert(q: seq<Packet>, p: Packet, i: nat := 0): seq<Packet>
    requires i <= |q|
    decreases |q| - i
  {
    if i == |q| then q + [p]
    else if q[i].seqNumber == p.seqNumber then q
    else if Less(q[i].seqNumber, p.seqNumber) then q[..i] + [p] + q[i..]
    else Insert(q, p, i + 1)
  }

  /** Seconds of media between the oldest and the newest packet. */
  function Depth(q: seq<Packet>, timebase: uint32): (d: real)
    ensures d >= 0.0
  {
    if timebase > 0 && |q| > 1
    then U32(q[0].timestamp - q[|q| - 1].timestamp) as real / timebase as real
    else 0.0
  }

  /** The oldest packets are dropped until the depth is allowed. */
  function Trim(q: seq<Packet>, timebase: uint32, max: real): (t: seq<Packet>)
    requires max >= 0.0
    ensures t <= q && Depth(t, timebase) <= max && (q != [] ==> t != [])
  {
    if Depth(q, timebase) > max then Trim(q[..|q| - 1], timebase, max) else q
  }

  predicate TooLate(last: int, p: Packet) {
    last >= 0 && (Less(p.seqNumber, U16(last)) || p.seqNumber == last)
  }

  function Push(q: Queue, p: Packet): Queue
    requires TooLate(q.last, p) || q.max >= 0.0
  {
    if TooLate(q.last, p) then q else q.(packets := Trim(Insert(q.packets, p), q.timebase, q.max))
  }

  /** The new queue and the packet handed out, if there is one. */
  function Pop(q: Queue, ignoreDepth: bool): (Queue, seq<Packet>) {
    var n := |q.packets|;
    if n > 0 && (ignoreDepth || Depth(q.packets, q.timebase) > q.depth)
    then (q.(packets := q.packets[..n - 1], last := q.packets[n - 1].seqNumber), [q.packets[n - 1]])
    else (q, [])
  }

  /** The trimming loop can end exactly if the maximum is not negative. */
  lemma TrimmingEnds(q: seq<Packet>, timebase: uint32, max: real)
    ensures (exists n :: 0 <= n <= |q| && Depth(q[..n], timebase) <= max) <==> max >= 0.0
  {
    if max >= 0.0 {
      assert Depth(q[..0], timebase) <= max;
    }
  }

  /** A push that is not late leaves at least one packet and no more than the maximal depth, and it
      drops nothing that it need not drop. */
  lemma PushDepth(q: Queue, p: Packet)
    requires q.max >= 0.0 && !TooLate(q.last, p)
    ensures var t, all := Push(q, p).packets, Insert(q.packets, p);
            && t != [] && t <= all && Depth(t, q.timebase) <= q.max
            && forall n :: |t| < n <= |all| ==> Depth(all[..n], q.timebase) > q.max
  {
    InsertNonempty(q.packets, p, 0);
    TrimIsLongest(Insert(q.packets, p), q.timebase, q.max);
  }

  lemma {:induction false} InsertNonempty(q: seq<Packet>, p: Packet, i: nat)
    requires i <= |q|
    ensures Insert(q, p, i) != []
    decreases |q| - i
  {
    if i < |q| {
      InsertNonempty(q, p, i + 1);
    }
  }

  lemma {:induction false} TrimIsLongest(q: seq<Packet>, timebase: uint32, max: real)
    requires max >= 0.0
    ensures forall n :: |Trim(q, timebase, max)| < n <= |q| ==> Depth(q[..n], timebase) > max
  {
    if Depth(q, timebase) > max {
      var r := q[..|q| - 1];
      TrimIsLongest(r, timebase, max);
      forall n | |Trim(q, timebase, max)| < n <= |q| ensures Depth(q[..n], timebase) > max {
        assert n < |q| ==> r[..n] == q[..n];
        assert q[..|q|] == q;
      }
    }
  }

  // ---------------------------------------------------------------- depth in ticks

  /** The oldest packet was stamped `d` ticks before the newest one, counted through the 32-bit wrap. */
  ghost predicate Spans(q: seq<Packet>, d: nat) {
    && |q| > 1 && d < TWO32
    && exists t: int :: q[|q| - 1].timestamp == U32(t) && q[0].timestamp == U32(t + d)
  }

  /** The depth is that time in seconds; without a timebase or a second packet it is 0. */
  lemma DepthIsTime(q: seq<Packet>, timebase: uint32, d: nat)
    ensures timebase > 0 && Spans(q, d) ==> Depth(q, timebase) * timebase as real == d as real
    ensures timebase == 0 || |q| < 2 ==> Depth(q, timebase) == 0.0
  {
    if timebase > 0 && Spans(q, d) {
      SpanTicks(q, d);
      hide U32, Spans;
      Quotient(d as real, timebase as real);
    }
  }

  lemma SpanTicks(q: seq<Packet>, d: nat)
    requires Spans(q, d)
    ensures |q| > 1 && U32(q[0].timestamp - q[|q| - 1].timestamp) == d
  {
    hide U32;
    var t: int :| q[|q| - 1].timestamp == U32(t) && q[0].timestamp == U32(t + d);
    TicksApart(t, d);
  }

  lemma TicksApart(t: int, d: nat)
    requires d < TWO32
    ensures U32(U32(t + d) - U32(t)) == d
  {
  }

  lemma Quotient(x: real, y: real)
    requires y > 0.0
    ensures x / y * y == x
  {
  }

  lemma Scaled(x: real, y: real, m: real)
    requires m > 0.0
    ensures x > y <==> x * m > y * m
  {
    if x > y {
      assert (x - y) * m > 0.0;
    } else {
      assert (y - x) * m >= 0.0;
    }
  }

  /** The packet has been put at one place of the queue and nothing else has changed, or its number was
      there already and the packet that came first stays. */
  ghost predicate Placed(q: seq<Packet>, p: Packet, r: seq<Packet>) {
    || (exists i :: 0 <= i <= |q| && r == q[..i] + [p] + q[i..])
    || (r == q && exists i :: 0 <= i < |q| && q[i].seqNumber == p.seqNumber)
  }

  lemma {:induction false} InsertPlaces(q: seq<Packet>, p: Packet, i: nat)
    requires i <= |q|
    ensures Placed(q, p, Insert(q, p, i))
    decreases |q| - i
  {
    hide Less;
    if i == |q| {
      assert q[..i] + [p] + q[i..] == q + [p];
    } else if q[i].seqNumber != p.seqNumber && !Less(q[i].seqNumber, p.seqNumber) {
      InsertPlaces(q, p, i + 1);
    }
  }

  /** A push that is not late, in ticks: of the queue with the packet in its place, a front part is left
      that spans at most the maximal depth, and every longer part that spans `d` ticks spans more. Without
      a timebase everything is left. A late push changes nothing. */
  lemma PushInTicks(q: Queue, p: Packet) returns (all: seq<Packet>)
    requires TooLate(q.last, p) || q.max >= 0.0
    ensures TooLate(q.last, p) ==> Push(q, p) == q
    ensures !TooLate(q.last, p) ==>
              Placed(q.packets, p, all) && forall d: nat, n: nat :: Left(q, all, Push(q, p), d, n)
  {
    all := Insert(q.packets, p);
    if !TooLate(q.last, p) {
      InsertPlaces(q.packets, p, 0);
      PushDepth(q, p);
      PushFrame(q, p);
      hide Insert, Push, Spans, Placed, Depth, Left;
      forall d: nat, n: nat ensures Left(q, all, Push(q, p), d, n) {
        LeftOf(q, all, Push(q, p), d, n);
      }
    }
  }

  lemma PushFrame(q: Queue, p: Packet)
    requires TooLate(q.last, p) || q.max >= 0.0
    ensures Push(q, p) == q.(packets := Push(q, p).packets)
  {
    hide Insert, Trim;
  }

  /** What a push leaves of `all`. */
  ghost predicate Left(q: Queue, all: seq<Packet>, r: Queue, d: nat, n: nat) {
    && r == q.(packets := r.packets) && r.packets <= all && r.packets != []
    && (q.timebase == 0 ==> r.packets == all)
    && (q.timebase > 0 && Spans(r.packets, d) ==> d as real <= q.max * q.timebase as real)
    && (q.timebase > 0 && |r.packets| < n <= |all| && Spans(all[..n], d) ==> d as real > q.max * q.timebase as real)
  }

  lemma LeftOf(q: Queue, all: seq<Packet>, r: Queue, d: nat, n: nat)
    requires r == q.(packets := r.packets) && r.packets <= all && r.packets != [] && q.max >= 0.0
    requires Depth(r.packets, q.timebase) <= q.max
    requires forall k :: |r.packets| < k <= |all| ==> Depth(all[..k], q.timebase) > q.max
    ensures Left(q, all, r, d, n)
  {
    hide Spans, Depth;
    if q.timebase == 0 {
      if |r.packets| < |all| {
        DepthIsTime(all[..|all|], 0, d);
        assert false;
      }
      assert r.packets == all;
    } else {
      AtMost(r.packets, q.timebase, q.max, d);
      if |r.packets| < n <= |all| {
        MoreThan(all[..n], q.timebase, q.max, d);
      }
    }
  }

  lemma AtMost(q: seq<Packet>, timebase: uint32, max: real, d: nat)
    requires timebase > 0 && Depth(q, timebase) <= max
    ensures Spans(q, d) ==> d as real <= max * timebase as real
  {
    hide Spans, Depth;
    DepthIsTime(q, timebase, d);
    Scaled(Depth(q, timebase), max, timebase as real);
  }

  lemma MoreThan(q: seq<Packet>, timebase: uint32, max: real, d: nat)
    requires timebase > 0 && Depth(q, timebase) > max
    ensures Spans(q, d) ==> d as real > max * timebase as real
  {
    hide Spans, Depth;
    DepthIsTime(q, timebase, d);
    Scaled(Depth(q, timebase), max, timebase as real);
  }

  /** A pop, in ticks: the oldest packet is handed out if the depth is ignored or the queue spans more
      than the wanted depth, and then just that packet leaves the queue and its number is noted. Otherwise
      nothing changes. */
  lemma PopInTicks(q: Queue, ignoreDepth: bool, d: nat)
    requires q.timebase > 0 && Spans(q.packets, d)
    ensures var (r, out) := Pop(q, ignoreDepth);
            var n := |q.packets| - 1;
            if ignoreDepth || d as real > q.depth * q.timebase as real
            then out == [q.packets[n]] && r == q.(packets := r.packets, last := out[0].seqNumber)
                 && r.packets + out == q.packets
            else out == [] && r == q
  {
    DepthIsTime(q.packets, q.timebase, d);
    hide Depth;
    Scaled(Depth(q.packets, q.timebase), q.depth, q.timebase as real);
  }

  /** A queue without a timebase or a second packet has no depth: it hands out its oldest packet if the
      depth is ignored or the wanted one is negative. An empty queue has nothing to hand out. */
  lemma PopWithoutDepth(q: Queue, ignoreDepth: bool)
    requires q.timebase == 0 || |q.packets| < 2
    ensures var (r, out) := Pop(q, ignoreDepth);
            if q.packets != [] && (ignoreDepth || q.depth < 0.0)
            then r.packets + out == q.packets && |out| == 1 && r == q.(packets := r.packets, last := out[0].seqNumber)
            else out == [] && r == q
  {
  }

  // ---------------------------------------------------------------- the queue on unbounded indices

  /** The same queue on indices that do not wrap, and the indices handed out so far. */
  datatype Ideal = Ideal(keys: seq<int>, given: seq<int>)
  {
    predicate Late(k: int) { given != [] && k <= given[|given| - 1] }
  }

  function InsertKey(keys: seq<int>, k: int, i: nat := 0): (r: seq<int>)
    requires i <= |keys|
    decreases |keys| - i
  {
    if i == |keys| then keys + [k]
    else if keys[i] == k then keys
    else if keys[i] < k then keys[..i] + [k] + keys[i..]
    else InsertKey(keys, k, i + 1)
  }

  /** `size` packets are left after the trimming. */
  function IdealPush(d: Ideal, k: int, size: nat): Ideal {
    if d.Late(k) then d
    else
      var all := InsertKey(d.keys, k);
      d.(keys := if size <= |all| then all[..size] else all)
  }

  function IdealPop(d: Ideal, pops: bool): Ideal {
    var n := |d.keys|;
    if pops && n > 0 then Ideal(d.keys[..n - 1], d.given + [d.keys[n - 1]]) else d
  }

  ghost predicate Decreasing(keys: seq<int>) {
    forall i, j :: 0 <= i < j < |keys| ==> keys[i] > keys[j]
  }

  ghost predicate Increasing(given: seq<int>) {
    forall i, j :: 0 <= i < j < |given| ==> given[i] < given[j]
  }

  ghost predicate SmallSteps(given: seq<int>) {
    forall i :: 0 < i < |given| ==> given[i] - given[i - 1] < 0x8000
  }

  ghost predicate AllLater(keys: seq<int>, given: seq<int>) {
    forall i, j :: 0 <= i < |keys| && 0 <= j < |given| ==> given[j] < keys[i]
  }

  /** The newest index is less than 2^15 ahead of the oldest, and of the last one handed out. */
  ghost predicate Narrow(d: Ideal) {
    d.keys != [] ==>
      && d.keys[0] - d.keys[|d.keys| - 1] < 0x8000
      && (d.given != [] ==> d.keys[0] - d.given[|d.given| - 1] < 0x8000)
  }

  /** Strictly sorted without duplicates, and everything handed out came in strictly increasing
      order, before all that is still queued. */
  ghost predicate Tidy(d: Ideal) {
    Decreasing(d.keys) && Increasing(d.given) && SmallSteps(d.given) && AllLater(d.keys, d.given) && Narrow(d)
  }

  predicate Near(a: int, b: int) {
    -0x8000 < a - b < 0x8000
  }

  /** Index `k` is less than 2^15 from every queued index and from the last one handed out. */
  ghost predicate Close(d: Ideal, k: int) {
    && (forall i :: 0 <= i < |d.keys| ==> Near(d.keys[i], k))
    && (d.given != [] ==> Near(d.given[|d.given| - 1], k))
  }

  /** The queue holds the packets with these indices. */
  ghost predicate Wraps(packets: seq<Packet>, keys: seq<int>) {
    |packets| == |keys| && forall i :: 0 <= i < |keys| ==> packets[i].seqNumber == U16(keys[i])
  }

  ghost predicate Represents(q: Queue, d: Ideal) {
    && Wraps(q.packets, d.keys)
    && q.last == if d.given == [] then -1 else U16(d.given[|d.given| - 1])
  }

  lemma {:induction false} InsertKeyShape(keys: seq<int>, k: int, i: nat)
    requires i <= |keys| && Decreasing(keys)
    requires forall j :: 0 <= j < i ==> keys[j] > k
    ensures var r := InsertKey(keys, k, i);
            && Decreasing(r) && r != []
            && forall x :: x in r <==> x in keys || x == k
    decreases |keys| - i
  {
    if i < |keys| && keys[i] > k {
      InsertKeyShape(keys, k, i + 1);
    } else if i < |keys| && keys[i] < k {
      InsertBetween(keys, k, i);
    }
  }

  lemma InsertBetween(keys: seq<int>, k: int, i: nat)
    requires i < |keys| && Decreasing(keys) && keys[i] < k
    requires forall j :: 0 <= j < i ==> keys[j] > k
    ensures var r := keys[..i] + [k] + keys[i..];
            Decreasing(r) && forall x :: x in r <==> x in keys || x == k
  {
    var r := keys[..i] + [k] + keys[i..];
    assert keys == keys[..i] + keys[i..];
    forall a, b | 0 <= a < b < |r| ensures r[a] > r[b] {
      BetweenAt(keys, k, i, a);
      BetweenAt(keys, k, i, b);
    }
  }

  lemma BetweenAt(keys: seq<int>, k: int, i: nat, j: nat)
    requires i < |keys| && j <= |keys|
    ensures (keys[..i] + [k] + keys[i..])[j] == if j < i then keys[j] else if j == i then k else keys[j - 1]
  {
  }

  /** On 16-bit numbers the loop finds the same place. */
  lemma {:induction false} InsertAgrees(q: seq<Packet>, keys: seq<int>, p: Packet, k: int, i: nat)
    requires i <= |q| && Wraps(q, keys) && p.seqNumber == U16(k)
    requires forall j :: 0 <= j < |keys| ==> Near(keys[j], k)
    ensures Wraps(Insert(q, p, i), InsertKey(keys, k, i))
    decreases |q| - i
  {
    if i < |q| {
      LessIsSerial(keys[i], k);
      hide Less, U16;
      if keys[i] > k {
        InsertAgrees(q, keys, p, k, i + 1);
      }
    }
  }

  lemma LateAgrees(q: Queue, d: Ideal, p: Packet, k: int)
    requires Represents(q, d) && Close(d, k) && p.seqNumber == U16(k)
    ensures TooLate(q.last, p) <==> d.Late(k)
  {
    if d.given != [] {
      var g := d.given[|d.given| - 1];
      LessIsSerial(k, g);
      assert U16(U16(g)) == U16(g);
    }
  }

  lemma PushAgrees(q: Queue, d: Ideal, p: Packet, k: int)
    requires q.max >= 0.0 && Represents(q, d) && Tidy(d) && Close(d, k) && p.seqNumber == U16(k)
    ensures var d' := IdealPush(d, k, |Push(q, p).packets|);
            Represents(Push(q, p), d') && Tidy(d')
  {
    LateAgrees(q, d, p, k);
    if !d.Late(k) {
      PushInserts(q, d, p, k);
    }
  }

  lemma PushInserts(q: Queue, d: Ideal, p: Packet, k: int)
    requires q.max >= 0.0 && Represents(q, d) && Tidy(d) && Close(d, k) && p.seqNumber == U16(k)
    requires !d.Late(k) && !TooLate(q.last, p)
    ensures var d' := IdealPush(d, k, |Push(q, p).packets|);
            Represents(Push(q, p), d') && Tidy(d')
  {
    hide U16, Depth, Less, Insert, InsertKey, Trim, TooLate, Tidy, Narrow, Increasing, SmallSteps, AllLater;
    InsertAgrees(q.packets, d.keys, p, k, 0);
    TidyDecreases(d);
    InsertKeyShape(d.keys, k, 0);
    InsertNonempty(q.packets, p, 0);
    var all, t := InsertKey(d.keys, k), Push(q, p).packets;
    NewestClose(d, k, all);
    assert t <= Insert(q.packets, p) && t != [];
    assert Tidy(d.(keys := all[..|t|]));
  }

  lemma TidyDecreases(d: Ideal)
    requires Tidy(d)
    ensures Decreasing(d.keys)
  {
  }

  lemma NewestClose(d: Ideal, k: int, all: seq<int>)
    requires Tidy(d) && Close(d, k) && !d.Late(k) && Decreasing(all) && all != []
    requires forall x :: x in all <==> x in d.keys || x == k
    ensures forall n :: 0 < n <= |all| ==> Tidy(d.(keys := all[..n]))
  {
    KeysClose(d, k, all);
    LaterClose(d, k, all);
    forall n | 0 < n <= |all| ensures Tidy(d.(keys := all[..n])) {
      assert all[..n][0] == all[0] && all[..n][n - 1] == all[n - 1];
    }
  }

  lemma KeysClose(d: Ideal, k: int, all: seq<int>)
    requires Tidy(d) && Close(d, k) && Decreasing(all) && all != []
    requires forall x :: x in all <==> x in d.keys || x == k
    ensures forall n :: 0 <= n < |all| ==> all[0] - all[n] < 0x8000
  {
    forall n | 0 <= n < |all| ensures all[0] - all[n] < 0x8000 {
      assert all[0] in all && all[n] in all;
      if all[0] != k {
        var i :| 0 <= i < |d.keys| && d.keys[i] == all[0];
      }
      if all[n] != k {
        var j :| 0 <= j < |d.keys| && d.keys[j] == all[n];
      }
    }
  }

  lemma LaterClose(d: Ideal, k: int, all: seq<int>)
    requires Tidy(d) && Close(d, k) && !d.Late(k) && all != []
    requires forall x :: x in all <==> x in d.keys || x == k
    ensures AllLater(all, d.given)
    ensures d.given != [] ==> all[0] - d.given[|d.given| - 1] < 0x8000
  {
    forall i, j | 0 <= i < |all| && 0 <= j < |d.given| ensures d.given[j] < all[i] {
      assert all[i] in all;
      assert j < |d.given| - 1 ==> d.given[j] < d.given[|d.given| - 1];
    }
    assert all[0] in all;
  }

  lemma PopAgrees(q: Queue, d: Ideal, ignoreDepth: bool)
    requires Represents(q, d) && Tidy(d)
    ensures var (q', out) := Pop(q, ignoreDepth);
            var d' := IdealPop(d, out != []);
            && Represents(q', d') && Tidy(d')
            && |d'.given| == |d.given| + |out|
            && (out != [] ==> out[0].seqNumber == U16(d'.given[|d.given|]))
  {
    hide U16, Depth;
  }

  // ---------------------------------------------------------------- runs

  /** A call; a push also tells the unbounded index that the sender gave the packet. */
  datatype Op = PushOp(p: Packet, k: int) | PopOp(ignoreDepth: bool) | SetTimebase(timebase: uint32)

  function Create(depth: real, max: real): Queue {
    if depth >= max then Queue([], -1, 0, DEFAULT_DEPTH, DEFAULT_MAX) else Queue([], -1, 0, depth, max)
  }

  /** A new queue is empty and has handed out nothing. Its depths are the given ones if the wanted depth is
      below the maximal one, and 3 and 5 seconds otherwise. */
  lemma CreateMeans(depth: real, max: real)
    ensures var q := Create(depth, max);
            && q.packets == [] && q.last == -1 && q.timebase == 0
            && (if depth < max then q.depth == depth && q.max == max else q.depth == 3.0 && q.max == 5.0)
  {
  }

  function Apply(q: Queue, op: Op): (Queue, seq<Packet>)
    requires q.max >= 0.0
  {
    match op
    case PushOp(p, _) => (Push(q, p), [])
    case PopOp(ignoreDepth) => Pop(q, ignoreDepth)
    case SetTimebase(timebase) => (q.(timebase := timebase), [])
  }

  /** The queue and the packets handed out after the first `n` calls. */
  function After(q: Queue, ops: seq<Op>, n: nat): (r: (Queue, seq<Packet>))
    requires n <= |ops| && q.max >= 0.0
    ensures r.0.max == q.max
  {
    if n == 0 then (q, [])
    else
      var (q1, out) := After(q, ops, n - 1);
      var (q2, more) := Apply(q1, ops[n - 1]);
      (q2, out + more)
  }

  function IdealApply(d: Ideal, q: Queue, op: Op): Ideal
    requires q.max >= 0.0
  {
    match op
    case PushOp(p, k) => IdealPush(d, k, |Push(q, p).packets|)
    case PopOp(ignoreDepth) => IdealPop(d, Pop(q, ignoreDepth).1 != [])
    case SetTimebase(_) => d
  }

  function IdealAfter(q: Queue, ops: seq<Op>, n: nat): Ideal
    requires n <= |ops| && q.max >= 0.0
  {
    if n == 0 then Ideal([], []) else IdealApply(IdealAfter(q, ops, n - 1), After(q, ops, n - 1).0, ops[n - 1])
  }

  /** Every packet pushed carries its index and is less than 2^15 from the numbers in play. */
  ghost predicate Spread(q: Queue, ops: seq<Op>)
    requires q.max >= 0.0
  {
    forall i :: 0 <= i < |ops| && ops[i].PushOp? ==> Fair(q, ops, i)
  }

  ghost predicate Fair(q: Queue, ops: seq<Op>, i: nat)
    requires i < |ops| && ops[i].PushOp? && q.max >= 0.0
  {
    ops[i].p.seqNumber == U16(ops[i].k) && Close(IdealAfter(q, ops, i), ops[i].k)
  }

  /** Over any run the 16-bit queue is the unbounded one: sorted, without duplicates, and the packets
      handed out are those with the indices that the unbounded queue hands out. */
  lemma {:induction false} RunAgrees(q: Queue, ops: seq<Op>, n: nat)
    requires n <= |ops| && q.max >= 0.0 && q.packets == [] && q.last == -1 && Spread(q, ops)
    ensures var (r, out) := After(q, ops, n);
            var d := IdealAfter(q, ops, n);
            Represents(r, d) && Tidy(d) && Wraps(out, d.given)
  {
    hide Tidy, Represents, Apply, IdealApply, Close, U16;
    if n == 0 {
      StartAgrees(q);
    } else {
      RunAgrees(q, ops, n - 1);
      assert ops[n - 1].PushOp? ==> Fair(q, ops, n - 1);
      StepAgrees(After(q, ops, n - 1).0, After(q, ops, n - 1).1, IdealAfter(q, ops, n - 1), ops[n - 1]);
    }
  }

  /** One call. */
  lemma StepAgrees(r: Queue, out: seq<Packet>, d: Ideal, op: Op)
    requires r.max >= 0.0 && Represents(r, d) && Tidy(d) && Wraps(out, d.given)
    requires op.PushOp? ==> op.p.seqNumber == U16(op.k) && Close(d, op.k)
    ensures var (r', more) := Apply(r, op);
            var d' := IdealApply(d, r, op);
            Represents(r', d') && Tidy(d') && Wraps(out + more, d'.given)
  {
    hide Tidy, Represents, Pop, Push, IdealPush, IdealPop, Close, U16;
    match op
    case PushOp(p, k) =>
      PushAgrees(r, d, p, k);
      PushGives(d, k, |Push(r, p).packets|);
    case PopOp(ignoreDepth) =>
      PopAgrees(r, d, ignoreDepth);
      PopGives(r, d, ignoreDepth);
    case SetTimebase(timebase) =>
      TimebaseAgrees(r, d, timebase);
  }

  lemma StartAgrees(q: Queue)
    requires q.packets == [] && q.last == -1
    ensures Represents(q, Ideal([], [])) && Tidy(Ideal([], []))
  {
  }

  lemma PushGives(d: Ideal, k: int, size: nat)
    ensures IdealPush(d, k, size).given == d.given
  {
  }

  lemma PopGives(q: Queue, d: Ideal, ignoreDepth: bool)
    requires Represents(q, d)
    ensures var out := Pop(q, ignoreDepth).1;
            var given := IdealPop(d, out != []).given;
            |out| <= 1 && given[..|d.given|] == d.given
  {
  }

  lemma TimebaseAgrees(q: Queue, d: Ideal, timebase: uint32)
    requires Represents(q, d)
    ensures Represents(q.(timebase := timebase), d)
  {
  }

  ghost predicate PushedBy(ops: seq<Op>, n: nat, p: Packet)
    requires n <= |ops|
  {
    exists i :: 0 <= i < n && ops[i].PushOp? && ops[i].p == p
  }

  /** Whatever is queued or has been handed out is a packet that was pushed, unchanged. */
  lemma {:induction false} RunHonest(q: Queue, ops: seq<Op>, n: nat, p: Packet)
    requires n <= |ops| && q.max >= 0.0 && q.packets == []
    requires p in After(q, ops, n).0.packets || p in After(q, ops, n).1
    ensures PushedBy(ops, n, p)
  {
    hide Apply;
    var (r, out) := After(q, ops, n - 1);
    ApplyHonest(r, ops[n - 1], p);
    if p in r.packets || p in out {
      RunHonest(q, ops, n - 1, p);
      var i :| 0 <= i < n - 1 && ops[i].PushOp? && ops[i].p == p;
    }
  }

  lemma ApplyHonest(q: Queue, op: Op, p: Packet)
    requires q.max >= 0.0
    ensures var (r, more) := Apply(q, op);
            p in r.packets || p in more ==> p in q.packets || (op.PushOp? && op.p == p)
  {
    hide Depth, Less, Insert, Trim;
    if op.PushOp? {
      InsertPlaces(q.packets, op.p, 0);
      var all := Insert(q.packets, op.p);
      assert p in Trim(all, q.timebase, q.max) ==> p in all;
    }
  }

  /** In the queue every packet is less than those in front of it. */
  ghost predicate QueueOrdered(packets: seq<Packet>) {
    forall i, j :: 0 <= i < j < |packets| ==> Less(packets[j].seqNumber, packets[i].seqNumber)
  }

  /** Each packet handed out is greater than the one before it. */
  ghost predicate GivenOrdered(out: seq<Packet>) {
    forall i :: 0 < i < |out| ==> Less(out[i - 1].seqNumber, out[i].seqNumber)
  }

  /** What is still queued is greater than the last packet handed out. */
  ghost predicate LastBelow(packets: seq<Packet>, out: seq<Packet>) {
    out != [] ==> forall i :: 0 <= i < |packets| ==> Less(out[|out| - 1].seqNumber, packets[i].seqNumber)
  }

  lemma QueueSeen(packets: seq<Packet>, d: Ideal)
    requires Wraps(packets, d.keys) && Tidy(d)
    ensures QueueOrdered(packets)
  {
    hide Less, U16;
    forall i, j | 0 <= i < j < |packets| ensures Less(packets[j].seqNumber, packets[i].seqNumber) {
      LessIsSerial(d.keys[j], d.keys[i]);
    }
  }

  lemma GivenSeen(out: seq<Packet>, d: Ideal)
    requires Wraps(out, d.given) && Tidy(d)
    ensures GivenOrdered(out)
  {
    hide Less, U16;
    forall i | 0 < i < |out| ensures Less(out[i - 1].seqNumber, out[i].seqNumber) {
      LessIsSerial(d.given[i - 1], d.given[i]);
    }
  }

  lemma LastSeen(packets: seq<Packet>, out: seq<Packet>, d: Ideal)
    requires Wraps(packets, d.keys) && Wraps(out, d.given) && Tidy(d)
    ensures LastBelow(packets, out)
  {
    hide Less, U16;
    if out != [] {
      var g := |out| - 1;
      forall i | 0 <= i < |packets| ensures Less(out[g].seqNumber, packets[i].seqNumber) {
        LessIsSerial(d.given[g], d.keys[i]);
      }
    }
  }

  /** As a user of the queue sees it, in the 16-bit order. */
  lemma OrderSeen(q: Queue, ops: seq<Op>, n: nat)
    requires n <= |ops| && q.max >= 0.0 && q.packets == [] && q.last == -1 && Spread(q, ops)
    ensures var (r, out) := After(q, ops, n);
            QueueOrdered(r.packets) && GivenOrdered(out) && LastBelow(r.packets, out)
  {
    RunAgrees(q, ops, n);
    hide Tidy, Wraps, QueueOrdered, GivenOrdered, LastBelow;
    var (r, out) := After(q, ops, n);
    var d := IdealAfter(q, ops, n);
    QueueSeen(r.packets, d);
    GivenSeen(out, d);
    LastSeen(r.packets, out, d);
  }

  // ---------------------------------------------------------------- the class

  class PacketQueue {
    var queue: seq<Packet>
    var lastSequenceNumberGiven: int
    var timebase: uint32
    var depthInSeconds: real
    var maxDepthInSeconds: real

    ghost function Value(): Queue
      reads this
    {
      Queue(queue, lastSequenceNumberGiven, timebase, depthInSeconds, maxDepthInSeconds)
    }

    constructor (depth: real, max: real)
      ensures Value() == Create(depth, max)
    {
      queue := [];
      lastSequenceNumberGiven := -1;
      timebase := 0;
      depthInSeconds := depth;
      maxDepthInSeconds := max;
      if depth >= max {
        depthInSeconds := DEFAULT_DEPTH;
        maxDepthInSeconds := DEFAULT_MAX;
      }
    }

    /** With a negative maximal depth the loop of `TrimQueue` would not end, unless the packet is too late. */
    method PushPacket(packet: Packet)
      requires TooLate(lastSequenceNumberGiven, packet) || maxDepthInSeconds >= 0.0
      modifies `queue
      ensures Value() == Push(old(Value()), packet)
    {
      var current := packet.seqNumber;
      if lastSequenceNumberGiven >= 0
         && (Less(current, U16(lastSequenceNumberGiven)) || current == lastSequenceNumberGiven) {
        return;
      }
      hide Less, Depth;
      ghost var q := queue;
      var it := 0;
      while it < |queue|
        invariant it <= |queue| && queue == q
        invariant Insert(q, packet, it) == Insert(q, packet)
      {
        var number := queue[it].seqNumber;
        if number == current {
          break;
        }
        if Less(number, current) {
          queue := queue[..it] + [packet] + queue[it..];
          break;
        }
        it := it + 1;
      }
      if it == |queue| {
        queue := queue + [packet];
      }
      TrimQueue();
    }

    /** The loop that enforces the maximal depth. */
    method TrimQueue()
      requires maxDepthInSeconds >= 0.0
      modifies `queue
      ensures queue == Trim(old(queue), timebase, maxDepthInSeconds)
    {
      var depth := GetDepthInSeconds();
      while depth > maxDepthInSeconds
        invariant depth == Depth(queue, timebase)
        invariant Trim(queue, timebase, maxDepthInSeconds) == Trim(old(queue), timebase, maxDepthInSeconds)
        decreases |queue|
      {
        queue := queue[..|queue| - 1];
        depth := GetDepthInSeconds();
      }
    }

    method PopPacket(ignoreDepth: bool) returns (packet: Option<Packet>)
      modifies `queue, `lastSequenceNumberGiven
      ensures var (q, out) := Pop(old(Value()), ignoreDepth);
              Value() == q && packet == if out == [] then None else Some(out[0])
    {
      packet := None;
      if |queue| > 0 {
        var depth := GetDepthInSeconds();
        if ignoreDepth || depth > depthInSeconds {
          var oldest := queue[|queue| - 1];
          packet := Some(oldest);
          queue := queue[..|queue| - 1];
          lastSequenceNumberGiven := oldest.seqNumber;
        }
      }
    }

    method GetDepthInSeconds() returns (depth: real)
      ensures depth == Depth(queue, timebase)
    {
      depth := 0.0;
      if timebase > 0 && |queue| > 1 {
        var oldest, newest := queue[|queue| - 1], queue[0];
        depth := U32(newest.timestamp - oldest.timestamp) as real / timebase as real;
      }
    }

    /** Whether a packet would be handed out now, unless the queue is empty and the depth negative: then
        the answer is yes although there is none. */
    method HasData() returns (r: bool)
      ensures queue != [] || depthInSeconds >= 0.0 ==> r == (Pop(Value(), false).1 != [])
      ensures queue == [] && depthInSeconds < 0.0 ==> r && Pop(Value(), false).1 == []
    {
      var depth := GetDepthInSeconds();
      r := depth > depthInSeconds;
    }
  }
}
