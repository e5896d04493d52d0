/**
 The receiving side of one endpoint: the reorder buffer is strictly increasing, without
 duplicates and inside the window, whatever bytes arrive. `R` is any integer whose low 32 bits
 are `rcv_nxt`.
 */
module KcpReceiver {
  import opened Numbers
  import opened Serial
  import opened KcpWire
  import opened KcpSpec
  import opened KcpSender

  ghost predicate ReceiverBuf(r: Receiver, R: int, wnd: posint) {
    && r.nxt == U32(R)
    && |r.queue| <= wnd
    && Sorted(R, r.buf, R + wnd)
  }

  ghost predicate ReceiverOk(r: Receiver, R: int, wnd: posint) {
    && ReceiverBuf(r, R, wnd)
    && (r.buf != [] && Key(R, r.buf, 0) == R ==> |r.queue| == wnd)
  }

  /** Increasing numbers in a window are at most as many as the window is wide. */
  lemma {:induction false} SortedLength(base: int, buf: seq<Segment>, limit: int, n: nat)
    requires Sorted(base, buf, limit) && n < |buf|
    ensures base + n <= Key(base, buf, n) < limit
  {
    UnwrapWraps(base, buf[n].sn);
    if n > 0 {
      SortedLength(base, buf, limit, n - 1);
    }
  }

  lemma BufferFits(r: Receiver, R: int, wnd: posint)
    requires ReceiverBuf(r, R, wnd)
    ensures |r.buf| <= wnd
  {
    if r.buf != [] {
      SortedLength(R, r.buf, R + wnd, |r.buf| - 1);
    }
  }

  /** The two comparisons of `ikcp_input` accept exactly the window. */
  lemma WindowTest(r: Receiver, R: int, wnd: posint, k: int)
    requires r.nxt == U32(R)
    requires R + wnd - TWO31 <= k < R + TWO31
    ensures BelowWindow(r, wnd, U32(k)) <==> k < R + wnd
    ensures Diff(U32(k), r.nxt) >= 0 <==> k >= R
  {
    U32Shift(R, wnd);
    DiffOfIndices(k, R + wnd);
    DiffOfIndices(k, R);
  }

  /** For an arbitrary number too: whatever passes both tests is inside the window. */
  lemma AcceptedInWindow(r: Receiver, R: int, wnd: posint, sn: uint32)
    requires r.nxt == U32(R)
    requires BelowWindow(r, wnd, sn) && Diff(sn, r.nxt) >= 0
    ensures R <= Unwrap(R, sn) < R + wnd
  {
    var k := Unwrap(R, sn);
    UnwrapWraps(R, sn);
    U32Sub(sn, R);
    hide U32;
    assert k < R + TWO31;
    WindowTest(r, R, wnd, k);
  }

  /** The backward search finds the number or the one place where it belongs. */
  lemma {:induction false} SearchBackFinds(R: int, buf: seq<Segment>, wnd: posint, k: int, p: nat)
    requires p <= |buf|
    requires Sorted(R, buf, R + wnd) && R <= k < R + wnd
    ensures var (q, repeated) := SearchBack(buf, U32(k), p);
            && (repeated ==> q > 0 && Key(R, buf, q - 1) == k)
            && (!repeated ==> forall i :: 0 <= i < q ==> Key(R, buf, i) < k)
            && (!repeated ==> forall i :: q <= i < p ==> k < Key(R, buf, i))
  {
    if p > 0 {
      UnwrapWraps(R, buf[p - 1].sn);
      UnwrapInverts(R, k);
      DiffOfIndices(k, Key(R, buf, p - 1));
      if buf[p - 1].sn != U32(k) && Key(R, buf, p - 1) > k {
        SearchBackFinds(R, buf, wnd, k, p - 1);
      }
    }
  }

  lemma InsertAt(R: int, buf: seq<Segment>, limit: int, p: nat, seg: Segment)
    requires p <= |buf| && Sorted(R, buf, limit) && Unwrap(R, seg.sn) < limit
    requires forall i :: 0 <= i < p ==> Key(R, buf, i) < Unwrap(R, seg.sn)
    requires forall i :: p <= i < |buf| ==> Unwrap(R, seg.sn) < Key(R, buf, i)
    ensures Sorted(R, buf[..p] + [seg] + buf[p..], limit)
  {
    var out := buf[..p] + [seg] + buf[p..];
    assert Key(R, out, p) == Unwrap(R, seg.sn);
    forall i | 0 <= i < p ensures Key(R, out, i) == Key(R, buf, i) {}
    forall i | p < i < |out| ensures Key(R, out, i) == Key(R, buf, i - 1) {}
  }

  lemma InsertAdds(R: int, buf: seq<Segment>, p: nat, seg: Segment)
    requires p <= |buf|
    ensures forall j :: Has(R, buf[..p] + [seg] + buf[p..], j)
                        <==> Has(R, buf, j) || j == Unwrap(R, seg.sn)
  {
    var out := buf[..p] + [seg] + buf[p..];
    forall j ensures Has(R, out, j) <==> Has(R, buf, j) || j == Unwrap(R, seg.sn) {
      if Has(R, out, j) {
        var i :| 0 <= i < |out| && Key(R, out, i) == j;
        assert i == p || Key(R, buf, if i < p then i else i - 1) == j;
      }
      if Has(R, buf, j) {
        var i :| 0 <= i < |buf| && Key(R, buf, i) == j;
        assert Key(R, out, if i < p then i else i + 1) == j;
      }
      assert Key(R, out, p) == Unwrap(R, seg.sn);
    }
  }

  /** Inserting keeps the order and adds the number exactly once. */
  lemma InsertKeeps(R: int, buf: seq<Segment>, wnd: posint, seg: Segment)
    requires Sorted(R, buf, R + wnd) && Unwrap(R, seg.sn) < R + wnd
    ensures Sorted(R, InsertSegment(buf, seg), R + wnd)
    ensures forall j :: Has(R, InsertSegment(buf, seg), j) <==> Has(R, buf, j) || j == Unwrap(R, seg.sn)
    ensures forall s :: s in InsertSegment(buf, seg) ==> s in buf || s == seg
  {
    var k := Unwrap(R, seg.sn);
    UnwrapWraps(R, seg.sn);
    SearchBackFinds(R, buf, wnd, k, |buf|);
    var (p, repeated) := SearchBack(buf, seg.sn, |buf|);
    if repeated {
      assert Has(R, buf, k);
    } else {
      InsertAt(R, buf, R + wnd, p, seg);
      InsertAdds(R, buf, p, seg);
    }
  }

  /** How many segments the next move takes. */
  function Run(r: Receiver, wnd: posint): (n: nat)
    ensures n <= |r.buf| && (|r.queue| <= wnd ==> n <= wnd - |r.queue|)
  {
    RunLength(r.buf, r.nxt, Max(wnd - |r.queue|, 0))
  }

  /** What `ikcp_recv` and `ikcp_parse_data` move from the buffer to the queue continues the
      numbers from `rcv_nxt` without a gap. */
  lemma RunKeys(r: Receiver, R: int, wnd: posint, i: nat)
    requires ReceiverBuf(r, R, wnd) && i < Run(r, wnd)
    ensures Key(R, r.buf, i) == R + i
  {
    assert InOrder(r.buf, r.nxt, i);
    U32Shift(R, i);
    UnwrapInverts(R, R + i);
  }

  lemma RestKeys(r: Receiver, R: int, wnd: posint)
    requires ReceiverBuf(r, R, wnd)
    ensures var n := Run(r, wnd);
            && Sorted(R + n, r.buf[n..], R + wnd)
            && SameKeys(R, r.buf[n..], R + n, r.buf[n..])
  {
    var n := Run(r, wnd);
    SortedSuffix(R, r.buf, R + wnd, n);
    if n < |r.buf| {
      SortedLength(R, r.buf, R + wnd, n);
      assert Key(R, r.buf[n..], 0) == Key(R, r.buf, n);
    }
    RebaseSorted(R, R + n, r.buf[n..], R + wnd);
  }

  /** The move leaves the receiving side well formed: it stops only at a gap or a full queue. */
  lemma DrainKeeps(r: Receiver, R: int, wnd: posint)
    requires ReceiverBuf(r, R, wnd)
    ensures ReceiverOk(Drain(r, wnd), R + Run(r, wnd), wnd)
  {
    var n := Run(r, wnd);
    RestKeys(r, R, wnd);
    U32Shift(R, n);
    if n < |r.buf| {
      UnwrapWraps(R + n, r.buf[n].sn);
      assert Key(R + n, r.buf[n..], 0) == R + n ==> InOrder(r.buf, r.nxt, n);
    }
  }

  /** Any data segment leaves the receiving side well formed, and moves `rcv_nxt` forward by as many
      segments as the queue gains, at most a window. */
  lemma AcceptPushKeeps(r: Receiver, R: int, wnd: posint, w: Wire) returns (R': int)
    requires ReceiverOk(r, R, wnd)
    ensures ReceiverOk(AcceptPush(r, wnd, w), R', wnd)
    ensures 0 <= R' - R == |AcceptPush(r, wnd, w).queue| - |r.queue| <= wnd
    ensures Dist(r.nxt, AcceptPush(r, wnd, w).nxt) == R' - R
  {
    R' := R;
    if BelowWindow(r, wnd, w.sn) && Diff(w.sn, r.nxt) >= 0 {
      AcceptedInWindow(r, R, wnd, w.sn);
      InsertKeeps(R, r.buf, wnd, FromWire(w));
      var inserted := r.(buf := InsertSegment(r.buf, FromWire(w)));
      DrainKeeps(inserted, R, wnd);
      R' := R + Run(inserted, wnd);
    }
    NextDistance(R, R', wnd);
  }

  lemma NextDistance(R: int, R': int, wnd: posint)
    requires 0 <= R' - R <= wnd
    ensures Dist(U32(R), U32(R')) == R' - R
    ensures Diff(U32(R'), U32(R)) == R' - R
  {
  }

  /** So does any successful call of `ikcp_recv`. */
  lemma AfterRecvKeeps(r: Receiver, R: int, peek: bool, wnd: posint) returns (R': int)
    requires ReceiverOk(r, R, wnd)
    ensures ReceiverOk(AfterRecv(r, peek, wnd), R', wnd)
    ensures 0 <= R' - R == |AfterRecv(r, peek, wnd).queue| - |Popped(r, peek).queue| <= wnd
    ensures Dist(r.nxt, AfterRecv(r, peek, wnd).nxt) == R' - R
  {
    var popped := Popped(r, peek);
    DrainKeeps(popped, R, wnd);
    R' := R + Run(popped, wnd);
    NextDistance(R, R', wnd);
  }
}
