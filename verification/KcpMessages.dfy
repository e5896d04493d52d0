/**
 Messages: `ikcp_send` cuts a message into fragments that count down to 0, and `ikcp_recv` on a
 run of such fragments gives back exactly the message.
 */
module KcpMessages {
  import opened Numbers
  import opened KcpWire
  import opened KcpSpec

  /** What the protocol carries of a segment: its fragment number and its payload. */
  datatype Frag = Frag(frg: nat, data: bytes)

  function FragAt(q: seq<Segment>, i: nat): Frag
    requires i < |q|
  {
    Frag(q[i].frg, q[i].data)
  }

  function FragsOf(q: seq<Segment>): (fs: seq<Frag>)
    ensures |fs| == |q|
  {
    seq(|q|, i requires 0 <= i < |q| => FragAt(q, i))
  }

  /** Whether `ikcp_send` takes a message of this length; a longer one gets -2. */
  predicate Sendable(len: nat, mss: payload) {
    FragmentCount(len, mss) <= 255
  }

  function Fragments(msg: bytes, mss: payload): seq<Segment> {
    if Sendable(|msg|, mss) then Cut(msg, mss, FragmentCount(|msg|, mss), false) else []
  }

  lemma CountStep(len: nat, mss: payload)
    requires len > mss
    ensures FragmentCount(len, mss) == FragmentCount(len - mss, mss) + 1
  {
    var a := len - 1;
    assert (a + mss) / mss == a / mss + 1 by {
      DivShift(a, mss);
    }
    if len - mss <= mss {
      DivShift(len - 1 - mss, mss);
    }
  }

  lemma DivShift(a: nat, m: posint)
    ensures (a + m) / m == a / m + 1
    ensures a < m ==> a / m == 0
  {
    var q, r := a / m, a % m;
    assert a == q * m + r;
    assert a + m == (q + 1) * m + r;
    DivUnique(a + m, m, q + 1, r);
    if a < m {
      DivUnique(a, m, 0, a);
    }
  }

  lemma DivUnique(a: nat, m: posint, q: nat, r: nat)
    requires a == q * m + r && r < m
    ensures a / m == q
  {
    var d := q - a / m;
    assert a == (a / m) * m + a % m;
    assert d * m == a % m - r by {
      Distribute(q, a / m, m);
    }
    if d >= 1 {
      ProductGrows(d, m);
    } else if d <= -1 {
      ProductFalls(d, m);
    }
  }

  lemma Distribute(a: int, b: int, m: int)
    ensures (a - b) * m == a * m - b * m
  {
  }

  lemma ProductFalls(d: int, m: posint)
    requires d <= -1
    ensures d * m + m <= 0
  {
  }

  lemma ProductGrows(d: int, m: posint)
    requires d >= 1
    ensures d * m >= m
  {
  }

  /** The fragment at position `i` of `count`. */
  ghost predicate CutAt(q: seq<Segment>, mss: payload, stream: bool, i: nat)
    requires i < |q|
  {
    |q[i].data| <= mss && q[i].frg == if stream then 0 else |q| - 1 - i
  }

  /** The fragments of a buffer: one after the other they are the buffer, each fits, and the
      fragment numbers count down to 0 (or are all 0 in stream mode). */
  lemma {:induction false} CutShape(data: bytes, mss: payload, count: nat, stream: bool)
    requires count == FragmentCount(|data|, mss) <= 255
    ensures var q := Cut(data, mss, count, stream);
            && |q| == count
            && Join(q, count) == data
            && forall i :: 0 <= i < count ==> CutAt(q, mss, stream, i)
    decreases count
  {
    if |data| <= mss {
      CutLast(data, mss, stream);
    } else {
      CountStep(|data|, mss);
      CutShape(data[mss..], mss, count - 1, stream);
      var tail := Cut(data[mss..], mss, count - 1, stream);
      assert Cut(data, mss, count, stream)
          == [NewSegment(if stream then 0 else count - 1, data[..mss])] + tail;
      CutConsShape(data, mss, count, stream, tail);
    }
  }

  lemma CutLast(data: bytes, mss: payload, stream: bool)
    requires |data| <= mss
    ensures var q := Cut(data, mss, 1, stream);
            |q| == 1 && Join(q, 1) == data && CutAt(q, mss, stream, 0)
  {
    var q := Cut(data, mss, 1, stream);
    assert q == [NewSegment(0, data)] + Cut(Rest(data, mss), mss, 0, stream);
    assert q[0] == NewSegment(0, data);
    assert Join(q, 1) == Join(q, 0) + data;
  }

  lemma CutConsShape(data: bytes, mss: payload, count: nat, stream: bool, tail: seq<Segment>)
    requires |data| > mss && 0 < count <= 255 && |tail| == count - 1
    requires Join(tail, count - 1) == data[mss..]
    requires forall i :: 0 <= i < count - 1 ==> CutAt(tail, mss, stream, i)
    ensures var q := [NewSegment(if stream then 0 else count - 1, data[..mss])] + tail;
            Join(q, count) == data && forall i :: 0 <= i < count ==> CutAt(q, mss, stream, i)
  {
    var head := NewSegment(if stream then 0 else count - 1, data[..mss]);
    var q := [head] + tail;
    JoinCons(head, tail, count - 1);
    forall i | 0 <= i < count ensures CutAt(q, mss, stream, i) {
      assert i > 0 ==> CutAt(tail, mss, stream, i - 1);
    }
  }

  lemma {:induction false} JoinCons(s: Segment, q: seq<Segment>, n: nat)
    requires n <= |q|
    ensures Join([s] + q, n + 1) == s.data + Join(q, n)
  {
    var all := [s] + q;
    if n == 0 {
      assert Join(all, 1) == Join(all, 0) + s.data;
    } else {
      JoinCons(s, q, n - 1);
      assert all[n] == q[n - 1];
      assert (s.data + Join(q, n - 1)) + q[n - 1].data == s.data + (Join(q, n - 1) + q[n - 1].data);
    }
  }

  /** Only the fragments matter for what is joined. */
  lemma {:induction false} JoinSame(q: seq<Segment>, p: seq<Segment>, n: nat)
    requires n <= |q| && n <= |p|
    requires forall i :: 0 <= i < n ==> FragAt(q, i) == FragAt(p, i)
    ensures Join(q, n) == Join(p, n)
  {
    if n > 0 {
      JoinSame(q, p, n - 1);
      assert FragAt(q, n - 1) == FragAt(p, n - 1);
    }
  }

  /** Message mode: 0 appends exactly the fragments of the message, and anything else nothing. */
  lemma SendMessage(cfg: Config, queue: seq<Segment>, data: bytes)
    requires !cfg.stream
    ensures var (q, r) := SendQueue(cfg, queue, data);
            && (r == 0 <==> Sendable(|data|, cfg.mss))
            && (if r == 0 then q == queue + Fragments(data, cfg.mss) else r == -2 && q == queue)
  {
  }

  /** All payload bytes of a queue, in order. */
  function Bytes(q: seq<Segment>): bytes {
    Join(q, |q|)
  }

  lemma {:induction false} JoinConcat(p: seq<Segment>, q: seq<Segment>, n: nat)
    requires n <= |q|
    ensures Join(p + q, |p| + n) == Bytes(p) + Join(q, n)
  {
    if n == 0 {
      JoinPrefix(p, q, |p|);
    } else {
      JoinConcat(p, q, n - 1);
    }
  }

  lemma {:induction false} JoinPrefix(p: seq<Segment>, q: seq<Segment>, n: nat)
    requires n <= |p|
    ensures Join(p + q, n) == Join(p, n)
  {
    if n > 0 {
      JoinPrefix(p, q, n - 1);
    }
  }

  lemma TopUpBytes(queue: seq<Segment>, data: bytes, mss: payload)
    ensures var (q, rest) := TopUp(queue, data, mss);
            && |q| == |queue|
            && Bytes(q) + rest == Bytes(queue) + data
  {
    var (q, rest) := TopUp(queue, data, mss);
    if q != queue || rest != data {
      var n := |queue| - 1;
      var last := queue[n];
      assert queue == queue[..n] + [last];
      assert q == queue[..n] + [q[n]];
      JoinPrefix(queue[..n], [last], n);
      JoinPrefix(queue[..n], [q[n]], n);
      assert Bytes(queue) == Join(queue, n) + last.data;
      assert Bytes(q) == Join(q, n) + q[n].data;
      assert q[n].data + rest == last.data + data;
    }
  }

  /** Stream mode: 0 appends exactly the buffer's bytes to the byte stream of the queue, and adds
      a segment only for what the last one has no room for. */
  lemma SendStream(cfg: Config, queue: seq<Segment>, data: bytes)
    requires cfg.stream && SendQueue(cfg, queue, data).1 == 0
    ensures var q := SendQueue(cfg, queue, data).0;
            Bytes(q) == Bytes(queue) + data && |queue| <= |q|
  {
    TopUpBytes(queue, data, cfg.mss);
    var (q, rest) := TopUp(queue, data, cfg.mss);
    if rest == [] {
      assert Bytes(q) + [] == Bytes(q);
    } else {
      var count := FragmentCount(|rest|, cfg.mss);
      CutShape(rest, cfg.mss, count, true);
      JoinConcat(q, Cut(rest, cfg.mss, count, true), count);
    }
  }

  /** How many bytes the last queued segment has room for. */
  function Room(queue: seq<Segment>, mss: payload): nat {
    if queue == [] || |queue[|queue| - 1].data| >= mss then 0 else mss - |queue[|queue| - 1].data|
  }

  lemma QuotientAtLeast(a: nat, m: posint, k: nat)
    ensures a / m >= k <==> a >= k * m
  {
    var q := a / m;
    assert a == q * m + a % m;
    if q >= k {
      Product(k, q, m);
    } else {
      Product(q + 1, k, m);
      assert (q + 1) * m == q * m + m;
    }
  }

  /** A buffer is cut into at most 255 fragments exactly if it is no longer than 255 payloads. */
  lemma SendableMeans(len: nat, mss: payload)
    ensures Sendable(len, mss) <==> len <= 255 * mss
  {
    if len > mss {
      QuotientAtLeast(len + mss - 1, mss, 256);
    }
  }

  /** Stream mode in full: -2 comes exactly if more than 255 payloads are left once the last segment has
      been topped up, and then exactly that top-up has been taken. So a refused call leaves the byte
      stream as it was exactly if the last segment had no room. */
  lemma StreamRefused(cfg: Config, queue: seq<Segment>, data: bytes)
    requires cfg.stream
    ensures var (q, r) := SendQueue(cfg, queue, data);
            var room := Room(queue, cfg.mss);
            && (r == -2 <==> |data| > room + 255 * cfg.mss)
            && (r == -2 ==> room <= |data| && Bytes(q) == Bytes(queue) + data[..room])
            && (r == -2 ==> (Bytes(q) == Bytes(queue)
                             <==> queue == [] || |queue[|queue| - 1].data| >= cfg.mss))
  {
    var (q, rest) := TopUp(queue, data, cfg.mss);
    var room := Room(queue, cfg.mss);
    TopUpBytes(queue, data, cfg.mss);
    SendableMeans(|rest|, cfg.mss);
    if |data| > room {
      assert rest == data[room..] && data == data[..room] + rest;
      SameTail(Bytes(q), Bytes(queue) + data[..room], rest);
      assert Bytes(queue) + data == (Bytes(queue) + data[..room]) + rest;
    }
  }

  lemma SameTail(a: bytes, b: bytes, tail: bytes)
    requires a + tail == b + tail
    ensures a == b
  {
    assert |a| == |b|;
    assert a == (a + tail)[..|a|] && b == (b + tail)[..|b|];
  }

  /** A second call that is refused although it has taken bytes. */
  predicate TakesPart(cfg: Config, first: bytes, second: bytes) {
    var (q, r) := SendQueue(cfg, [], first);
    r == 0 && SendQueue(cfg, q, second).1 == -2 && Bytes(SendQueue(cfg, q, second).0) != Bytes(q)
  }

  /** Two calls from the start, with the smallest payload that `ikcp_setmtu` allows: the second is
      refused after it has taken 25 bytes. */
  lemma StreamTakesPart(cfg: Config)
    requires cfg.stream && cfg.mss == 26
    ensures exists first, second :: TakesPart(cfg, first, second)
  {
    OneByteQueued(cfg);
    var first: bytes, second: bytes := [7], seq(7000, i => 9);
    StreamRefused(cfg, [NewSegment(0, first)], second);
    hide SendQueue, Bytes;
    assert TakesPart(cfg, first, second);
  }

  lemma OneByteQueued(cfg: Config)
    requires cfg.stream && cfg.mss == 26
    ensures SendQueue(cfg, [], [7]) == ([NewSegment(0, [7])], 0)
  {
    var first: bytes, q := [7], [NewSegment(0, [7])];
    assert Cut(first, 26, 1, true) == [NewSegment(0, first)] + Cut(Rest(first, 26), 26, 0, true);
    assert [] + q == q && q + [] == q;
  }

  // ---------------------------------------------------------------- a sequence of messages

  /** The fragments of the first `n` messages. */
  function AllFrags(msgs: seq<bytes>, n: nat, mss: payload): seq<Frag>
    requires n <= |msgs|
  {
    if n == 0 then [] else AllFrags(msgs, n - 1, mss) + FragsOf(Fragments(msgs[n - 1], mss))
  }

  lemma {:induction false} AllFragsPrefix(msgs: seq<bytes>, n: nat, m: nat, mss: payload)
    requires n <= m <= |msgs|
    requires forall m :: m in msgs ==> Sendable(|m|, mss)
    ensures AllFrags(msgs, n, mss) <= AllFrags(msgs, m, mss)
    ensures n < m ==> |AllFrags(msgs, n, mss)| < |AllFrags(msgs, m, mss)|
    decreases m
  {
    hide Fragments, FragmentCount, FragAt;
    if n < m {
      AllFragsPrefix(msgs, n, m - 1, mss);
      FragmentsShape(msgs[m - 1], mss);
    }
  }

  lemma FragmentsShape(msg: bytes, mss: payload)
    requires Sendable(|msg|, mss)
    ensures var f := Fragments(msg, mss);
            && |f| == FragmentCount(|msg|, mss) > 0
            && Join(f, |f|) == msg
            && forall i :: 0 <= i < |f| ==> CutAt(f, mss, false, i)
  {
    CutShape(msg, mss, FragmentCount(|msg|, mss), false);
    CountPositive(|msg|, mss);
  }

  lemma CountPositive(len: nat, mss: payload)
    ensures FragmentCount(len, mss) > 0
  {
    if len > mss {
      CountStep(len, mss);
    }
  }

  /** One more message leaves the fragments of the earlier ones as they are. */
  lemma {:induction false} AllFragsExtends(msgs: seq<bytes>, m: bytes, n: nat, mss: payload)
    requires n <= |msgs|
    ensures AllFrags(msgs + [m], n, mss) == AllFrags(msgs, n, mss)
  {
    hide Fragments, FragAt;
    if n > 0 {
      AllFragsExtends(msgs, m, n - 1, mss);
      assert (msgs + [m])[n - 1] == msgs[n - 1];
    }
  }

  /** Every fragment fits the payload limit and the one-byte fragment number. */
  lemma {:induction false} AllFragsFit(msgs: seq<bytes>, n: nat, mss: payload, k: nat)
    requires n <= |msgs| && forall m :: m in msgs ==> Sendable(|m|, mss)
    requires k < |AllFrags(msgs, n, mss)|
    ensures AllFrags(msgs, n, mss)[k].frg < 0x100 && |AllFrags(msgs, n, mss)[k].data| <= mss
  {
    hide Fragments, FragmentCount, Sendable, FragsOf;
    var before := AllFrags(msgs, n - 1, mss);
    if k < |before| {
      AllFragsFit(msgs, n - 1, mss, k);
    } else {
      FragmentFits(msgs[n - 1], mss, k - |before|);
    }
  }

  lemma FragmentFits(msg: bytes, mss: payload, i: nat)
    requires Sendable(|msg|, mss) && i < |Fragments(msg, mss)|
    ensures FragsOf(Fragments(msg, mss))[i].frg < 0x100 && |FragsOf(Fragments(msg, mss))[i].data| <= mss
  {
    FragmentsShape(msg, mss);
    hide Fragments;
    assert CutAt(Fragments(msg, mss), mss, false, i);
  }

  ghost predicate ContinuesAt(q: seq<Segment>, all: seq<Frag>, p: nat, i: nat)
    requires i < |q| && p + |q| <= |all|
  {
    FragAt(q, i) == all[p + i]
  }

  /** A queue that holds the fragments from position `p` on. */
  ghost predicate Continues(q: seq<Segment>, all: seq<Frag>, p: nat) {
    p + |q| <= |all| && forall i :: 0 <= i < |q| ==> ContinuesAt(q, all, p, i)
  }

  /** A queue that continues the fragments of `msgs` after the first `r` messages. */
  ghost predicate Delivers(q: seq<Segment>, msgs: seq<bytes>, r: nat, mss: payload)
    requires r <= |msgs|
  {
    Continues(q, AllFrags(msgs, |msgs|, mss), |AllFrags(msgs, r, mss)|)
  }

  /** The front of such a queue holds the fragments of message `r`. */
  lemma FrontOfQueue(q: seq<Segment>, msgs: seq<bytes>, r: nat, mss: payload)
    requires r <= |msgs|
    requires forall m :: m in msgs ==> Sendable(|m|, mss)
    requires Delivers(q, msgs, r, mss) && q != []
    ensures r < |msgs|
    ensures var f := Fragments(msgs[r], mss);
            forall i :: 0 <= i < |f| && i < |q| ==> FragAt(q, i) == FragAt(f, i)
  {
    hide Fragments, FragmentCount, FragAt, Sendable;
    if r < |msgs| {
      AllFragsPrefix(msgs, r + 1, |msgs|, mss);
      var before, upTo := AllFrags(msgs, r, mss), AllFrags(msgs, r + 1, mss);
      var all := AllFrags(msgs, |msgs|, mss);
      var f := Fragments(msgs[r], mss);
      assert upTo == before + FragsOf(f);
      forall i | 0 <= i < |f| && i < |q| ensures FragAt(q, i) == FragAt(f, i) {
        assert ContinuesAt(q, all, |before|, i);
        assert all[|before| + i] == upTo[|before| + i] == FragsOf(f)[i];
      }
    }
  }

  /** `ikcp_peeksize` succeeds exactly when the whole next message is queued; then it is the
      message's length and the fragments up to the first 0 are the message. */
  lemma PeekFindsMessage(q: seq<Segment>, msgs: seq<bytes>, r: nat, mss: payload)
    requires r <= |msgs|
    requires forall m :: m in msgs ==> Sendable(|m|, mss)
    requires Delivers(q, msgs, r, mss) && q != []
    ensures r < |msgs|
    ensures PeekSize(q) >= 0 <==> |q| >= FragmentCount(|msgs[r]|, mss)
    ensures PeekSize(q) >= 0 ==>
              && PeekSize(q) == |msgs[r]|
              && MergeCount(q) == FragmentCount(|msgs[r]|, mss)
              && Join(q, MergeCount(q)) == msgs[r]
  {
    FrontOfQueue(q, msgs, r, mss);
    var f := Fragments(msgs[r], mss);
    FragmentsShape(msgs[r], mss);
    hide Fragments, FragmentCount, Delivers, PeekSize, MergeCount, Join, FragAt, CutAt, Sendable;
    PeekFront(q, f, mss);
    if |q| >= |f| {
      JoinSame(q, f, |f|);
    }
  }

  /** The same for a queue that starts with the fragments `f` of a message, or with some of them. */
  lemma PeekFront(q: seq<Segment>, f: seq<Segment>, mss: payload)
    requires q != [] && f != []
    requires forall i :: 0 <= i < |f| && i < |q| ==> FragAt(q, i) == FragAt(f, i)
    requires forall i :: 0 <= i < |f| ==> CutAt(f, mss, false, i)
    ensures PeekSize(q) >= 0 <==> |q| >= |f|
    ensures PeekSize(q) >= 0 ==> MergeCount(q) == |f| && PeekSize(q) == |Join(q, |f|)|
  {
    assert FragAt(q, 0) == FragAt(f, 0) && CutAt(f, mss, false, 0);
    if |q| >= |f| {
      MergeStops(q, f, mss);
      OnlyFragment(q);
    }
    hide MergeCount, Join;
  }

  lemma OnlyFragment(q: seq<Segment>)
    requires q != []
    ensures Join(q, 1) == q[0].data
  {
    assert Join(q, 1) == Join(q, 0) + q[0].data;
  }

  lemma MergeStops(q: seq<Segment>, f: seq<Segment>, mss: payload)
    requires 0 < |f| <= |q|
    requires forall i :: 0 <= i < |f| ==> FragAt(q, i) == FragAt(f, i)
    requires forall i :: 0 <= i < |f| ==> CutAt(f, mss, false, i)
    ensures MergeCount(q) == |f|
  {
    var n := MergeCount(q);
    assert FragAt(q, |f| - 1) == FragAt(f, |f| - 1) && CutAt(f, mss, false, |f| - 1);
    assert Last(q, |f| - 1);
    if 0 < n {
      assert n - 1 < |f| - 1 ==> CutAt(f, mss, false, n - 1) && FragAt(q, n - 1) == FragAt(f, n - 1);
    }
  }
}
