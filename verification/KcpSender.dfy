/**
 The sending side of one endpoint: the send buffer holds strictly increasing numbers inside
 [snd_una, snd_nxt), whatever bytes arrive. Numbers are unwrapped: `U` and `S` are any integers
 whose low 32 bits are `snd_una` and `snd_nxt`.
 */
module KcpSender {
  import opened Numbers
  import opened Serial
  import opened KcpWire
  import opened KcpSpec

  /** The unwrapped number, at or above `base`, of the segment at position `i`. */
  function Key(base: int, buf: seq<Segment>, i: nat): int
    requires i < |buf|
  {
    Unwrap(base, buf[i].sn)
  }

  ghost predicate Has(base: int, buf: seq<Segment>, k: int) {
    exists i :: 0 <= i < |buf| && Key(base, buf, i) == k
  }

  /** Strictly increasing numbers from `base` on, all below `limit`. */
  ghost predicate Sorted(base: int, buf: seq<Segment>, limit: int) {
    && (forall i :: 0 <= i < |buf| ==> Key(base, buf, i) < limit)
    && (forall i, j :: 0 <= i < j < |buf| ==> Key(base, buf, i) < Key(base, buf, j))
  }

  /** Every number is seen from base `b'` as from base `b`. */
  ghost predicate SameKeys(b: int, buf: seq<Segment>, b': int, buf': seq<Segment>) {
    && |buf| == |buf'|
    && forall i :: 0 <= i < |buf| ==> Key(b', buf', i) == Key(b, buf, i)
  }

  ghost predicate SenderOk(snd: Sender, U: int, S: int, wnd: posint) {
    && SenderBuf(snd, U, S, wnd)
    && snd.una == U32(U)
    && (if snd.buf == [] then U == S else Key(U, snd.buf, 0) == U)
  }

  /** The part that holds before `ikcp_shrink_buf` too. */
  ghost predicate SenderBuf(snd: Sender, U: int, S: int, wnd: posint) {
    && snd.nxt == U32(S)
    && U <= S <= U + wnd
    && Sorted(U, snd.buf, S)
  }

  /** A number is seen from a later base as it was from an earlier one. */
  lemma Rebase(base: int, base': int, buf: seq<Segment>, i: nat)
    requires i < |buf| && base <= base' <= Key(base, buf, i)
    ensures Key(base', buf, i) == Key(base, buf, i)
  {
    UnwrapInverts(base', Key(base, buf, i));
    UnwrapWraps(base, buf[i].sn);
  }

  lemma RebaseSorted(base: int, base': int, buf: seq<Segment>, limit: int)
    requires Sorted(base, buf, limit)
    requires base <= base'
    requires buf != [] ==> base' <= Key(base, buf, 0)
    ensures Sorted(base', buf, limit) && SameKeys(base, buf, base', buf)
  {
    forall i | 0 <= i < |buf| ensures Key(base', buf, i) == Key(base, buf, i) {
      assert i > 0 ==> Key(base, buf, 0) < Key(base, buf, i);
      Rebase(base, base', buf, i);
    }
  }

  lemma SortedSuffix(base: int, buf: seq<Segment>, limit: int, n: nat)
    requires n <= |buf| && Sorted(base, buf, limit)
    ensures Sorted(base, buf[n..], limit)
  {
    forall i | 0 <= i < |buf| - n ensures Key(base, buf[n..], i) == Key(base, buf, n + i) {}
  }

  lemma SortedRemove(base: int, buf: seq<Segment>, limit: int, p: nat)
    requires p <= |buf| && Sorted(base, buf, limit)
    ensures Sorted(base, RemoveAt(buf, p), limit)
  {
    var out := RemoveAt(buf, p);
    forall i | 0 <= i < |out| ensures Key(base, out, i) == Key(base, buf, if i < p then i else i + 1) {}
  }

  /** `ikcp_shrink_buf` puts `snd_una` on the first number still in the buffer. */
  lemma ShrinkKeeps(snd: Sender, U: int, S: int, wnd: posint) returns (U': int)
    requires SenderBuf(snd, U, S, wnd)
    ensures U' == if snd.buf == [] then S else Key(U, snd.buf, 0)
    ensures U <= U' && SenderOk(Shrink(snd), U', S, wnd)
    ensures SameKeys(U, snd.buf, U', snd.buf)
  {
    U' := if snd.buf == [] then S else Key(U, snd.buf, 0);
    if snd.buf != [] {
      UnwrapWraps(U, snd.buf[0].sn);
    }
    RebaseSorted(U, U', snd.buf, S);
  }

  lemma ParseUnaKeeps(snd: Sender, U: int, S: int, wnd: posint, una: uint32) returns (U': int)
    requires SenderOk(snd, U, S, wnd)
    ensures U <= U' && SenderOk(Shrink(ParseUna(snd, una)), U', S, wnd)
    ensures SameKeys(U, ParseUna(snd, una).buf, U', ParseUna(snd, una).buf)
  {
    SortedSuffix(U, snd.buf, S, UnaCount(snd.buf, una));
    U' := ShrinkKeeps(ParseUna(snd, una), U, S, wnd);
  }

  lemma ParseAckKeeps(snd: Sender, U: int, S: int, wnd: posint, sn: uint32) returns (U': int)
    requires SenderOk(snd, U, S, wnd)
    ensures U <= U' && SenderOk(Shrink(ParseAck(snd, sn)), U', S, wnd)
    ensures SameKeys(U, ParseAck(snd, sn).buf, U', ParseAck(snd, sn).buf)
  {
    SortedRemove(U, snd.buf, S, FindAck(snd.buf, sn));
    U' := ShrinkKeeps(ParseAck(snd, sn), U, S, wnd);
  }

  /** Any `una` and any acknowledged number leave the sending side well formed, and `snd_una`
      never moves backwards. */
  lemma HearAckKeeps(snd: Sender, U: int, S: int, wnd: posint, w: Wire) returns (U': int)
    requires SenderOk(snd, U, S, wnd)
    ensures U <= U' && SenderOk(HearAck(snd, w), U', S, wnd)
  {
    U' := ParseUnaKeeps(snd, U, S, wnd, w.una);
    if w.cmd == CMD_ACK {
      U' := ParseAckKeeps(Shrink(ParseUna(snd, w.una)), U', S, wnd, w.sn);
    }
  }

  /** `ikcp_parse_ack` finds the acknowledged number wherever it stands in a sorted buffer. */
  lemma {:induction false} FindAckFinds(U: int, buf: seq<Segment>, limit: int, k: int, i: nat)
    requires Sorted(U, buf, limit) && limit <= U + TWO31
    requires U <= k < limit && i <= |buf|
    requires forall j :: 0 <= j < i ==> Key(U, buf, j) < k
    ensures var p := FindAck(buf, U32(k), i);
            if p < |buf| then Key(U, buf, p) == k else !Has(U, buf, k)
    decreases |buf| - i
  {
    UnwrapInverts(U, k);
    if i < |buf| {
      UnwrapWraps(U, buf[i].sn);
      DiffOfIndices(k, Key(U, buf, i));
      if Key(U, buf, i) < k {
        FindAckFinds(U, buf, limit, k, i + 1);
      }
    }
  }

  /** An acknowledgement in flight removes its number and no other. */
  lemma ParseAckRemoves(snd: Sender, U: int, S: int, wnd: posint, k: int)
    requires SenderOk(snd, U, S, wnd) && U <= k < S
    ensures forall j :: Has(U, ParseAck(snd, U32(k)).buf, j) <==> Has(U, snd.buf, j) && j != k
  {
    DiffOfIndices(k, U);
    DiffOfIndices(k, S);
    FindAckFinds(U, snd.buf, S, k, 0);
    var p := FindAck(snd.buf, U32(k));
    if p < |snd.buf| {
      RemoveAtHas(U, snd.buf, S, p);
    }
  }

  lemma RemoveAtHas(base: int, buf: seq<Segment>, limit: int, p: nat)
    requires p < |buf| && Sorted(base, buf, limit)
    ensures forall j :: Has(base, RemoveAt(buf, p), j) <==> Has(base, buf, j) && j != Key(base, buf, p)
  {
    var out := RemoveAt(buf, p);
    forall j ensures Has(base, out, j) <==> Has(base, buf, j) && j != Key(base, buf, p) {
      if Has(base, out, j) {
        var i :| 0 <= i < |out| && Key(base, out, i) == j;
        assert Key(base, buf, if i < p then i else i + 1) == j;
      }
      if Has(base, buf, j) && j != Key(base, buf, p) {
        var i :| 0 <= i < |buf| && Key(base, buf, i) == j;
        assert Key(base, out, if i < p then i else i - 1) == j;
      }
    }
  }

  /** `una` in range removes exactly the numbers below it. */
  lemma ParseUnaRemoves(snd: Sender, U: int, S: int, wnd: posint, u: int)
    requires SenderOk(snd, U, S, wnd) && S - TWO31 < u <= S
    ensures forall j :: Has(U, ParseUna(snd, U32(u)).buf, j) <==> Has(U, snd.buf, j) && u <= j
  {
    var n := UnaCount(snd.buf, U32(u));
    var out := snd.buf[n..];
    forall j ensures Has(U, out, j) <==> Has(U, snd.buf, j) && u <= j {
      if Has(U, out, j) {
        var i :| 0 <= i < |out| && Key(U, out, i) == j;
        assert Key(U, snd.buf, n + i) == j;
        UnaOrder(snd, U, S, wnd, u, n + i);
      }
      if Has(U, snd.buf, j) && u <= j {
        var i :| 0 <= i < |snd.buf| && Key(U, snd.buf, i) == j;
        UnaOrder(snd, U, S, wnd, u, i);
        assert Key(U, out, i - n) == j;
      }
    }
  }

  lemma UnaOrder(snd: Sender, U: int, S: int, wnd: posint, u: int, i: nat)
    requires SenderOk(snd, U, S, wnd) && S - TWO31 < u <= S && i < |snd.buf|
    ensures i < UnaCount(snd.buf, U32(u)) <==> Key(U, snd.buf, i) < u
  {
    var n := UnaCount(snd.buf, U32(u));
    CoveredMeans(snd, U, S, wnd, u, i);
    if n < |snd.buf| {
      CoveredMeans(snd, U, S, wnd, u, n);
    }
  }

  lemma CoveredMeans(snd: Sender, U: int, S: int, wnd: posint, u: int, i: nat)
    requires SenderOk(snd, U, S, wnd) && S - TWO31 < u <= S && i < |snd.buf|
    ensures Covered(snd.buf, U32(u), i) <==> Key(U, snd.buf, i) < u
  {
    UnwrapWraps(U, snd.buf[i].sn);
    DiffOfIndices(u, Key(U, snd.buf, i));
  }

  lemma ParseFastackKeeps(snd: Sender, U: int, S: int, wnd: posint, sn: uint32)
    requires SenderOk(snd, U, S, wnd)
    ensures SenderOk(ParseFastack(snd, sn), U, S, wnd)
    ensures SameKeys(U, snd.buf, U, ParseFastack(snd, sn).buf)
  {
    var out := ParseFastack(snd, sn);
    forall i | 0 <= i < |snd.buf| ensures Key(U, out.buf, i) == Key(U, snd.buf, i) {}
  }

  /** An acknowledged number in flight counts one skip for every buffered number below it, and for no
      other. */
  lemma ParseFastackCounts(snd: Sender, U: int, S: int, wnd: posint, k: int)
    requires SenderOk(snd, U, S, wnd) && U <= k < S
    ensures forall i :: 0 <= i < |snd.buf| ==> Skipped(U, snd.buf, ParseFastack(snd, U32(k)).buf, k, i)
  {
    hide U32, Diff, PastAck, Key;
    DiffOfIndices(k, U);
    DiffOfIndices(k, S);
    var b := snd.buf;
    forall i | 0 <= i < |b| ensures Skipped(U, b, ParseFastack(snd, U32(k)).buf, k, i) {
      PastAckOrder(snd, U, S, wnd, k, i);
      KeyIsNumber(snd, U, S, wnd, k, i);
    }
  }

  lemma KeyIsNumber(snd: Sender, U: int, S: int, wnd: posint, k: int, i: nat)
    requires SenderOk(snd, U, S, wnd) && U <= k < S && i < |snd.buf|
    ensures snd.buf[i].sn == U32(k) <==> Key(U, snd.buf, i) == k
  {
    UnwrapWraps(U, snd.buf[i].sn);
    UnwrapInverts(U, k);
  }

  ghost predicate Skipped(U: int, buf: seq<Segment>, out: seq<Segment>, k: int, i: nat)
    requires i < |buf|
  {
    && |out| == |buf|
    && out[i] == if Key(U, buf, i) < k then buf[i].(fastack := U32(buf[i].fastack + 1)) else buf[i]
  }

  lemma PastAckOrder(snd: Sender, U: int, S: int, wnd: posint, k: int, i: nat)
    requires SenderOk(snd, U, S, wnd) && U <= k < S && i < |snd.buf|
    ensures i < PastAck(snd.buf, U32(k)) <==> Key(U, snd.buf, i) <= k
  {
    var n := PastAck(snd.buf, U32(k));
    ReachedMeans(snd, U, S, wnd, k, i);
    if n < |snd.buf| {
      ReachedMeans(snd, U, S, wnd, k, n);
    }
  }

  lemma ReachedMeans(snd: Sender, U: int, S: int, wnd: posint, k: int, i: nat)
    requires SenderOk(snd, U, S, wnd) && U <= k < S && i < |snd.buf|
    ensures Reached(snd.buf, U32(k), i) <==> Key(U, snd.buf, i) <= k
  {
    UnwrapWraps(U, snd.buf[i].sn);
    DiffOfIndices(k, Key(U, snd.buf, i));
  }

  /** `ikcp_flush` never puts more than the window in flight. */
  lemma AdmitKeeps(s: State, snd: Sender, cwnd: uint32, U: int, S: int)
    requires SenderOk(snd, U, S, s.cfg.sndWnd)
    requires cwnd <= s.cfg.sndWnd
    ensures SenderOk(Admit(s, snd, cwnd), U, S + AdmitCount(snd, cwnd), s.cfg.sndWnd)
  {
    var n := AdmitCount(snd, cwnd);
    AdmitLimit(snd, cwnd, U, S, s.cfg.sndWnd);
    U32Shift(S, n);
    var out := Admit(s, snd, cwnd).buf;
    forall i | 0 <= i < |out|
      ensures Key(U, out, i) == if i < |snd.buf| then Key(U, snd.buf, i) else S + i - |snd.buf|
    {
      AdmittedKey(s, snd, U, S, n, i);
    }
  }

  lemma AdmittedKey(s: State, snd: Sender, U: int, S: int, n: nat, i: nat)
    requires n <= |snd.queue| && i < |snd.buf| + n
    requires snd.nxt == U32(S) && U <= S && S + n <= U + TWO31
    ensures Key(U, snd.buf + Numbered(s, snd, n), i)
            == if i < |snd.buf| then Key(U, snd.buf, i) else S + i - |snd.buf|
  {
    if i >= |snd.buf| {
      U32Shift(S, i - |snd.buf|);
      UnwrapInverts(U, S + i - |snd.buf|);
    }
  }

  lemma AdmitLimit(snd: Sender, cwnd: uint32, U: int, S: int, wnd: posint)
    requires SenderOk(snd, U, S, wnd) && cwnd <= wnd
    ensures S + AdmitCount(snd, cwnd) <= U + wnd
  {
    var n := AdmitCount(snd, cwnd);
    var room := wnd - (S - U);
    FitsMeans(snd, cwnd, U, S, wnd, room);
  }

  lemma FitsMeans(snd: Sender, cwnd: uint32, U: int, S: int, wnd: posint, i: nat)
    requires SenderOk(snd, U, S, wnd) && cwnd <= wnd && S + i <= U + wnd
    ensures Fits(snd, cwnd, i) <==> S + i < U + cwnd
  {
    U32Shift(U, cwnd);
    U32Shift(S, i);
    DiffOfIndices(S + i, U + cwnd);
  }

  /** A flush admits exactly as many segments as the window or the queue allows. */
  lemma AdmitsAll(snd: Sender, cwnd: uint32, U: int, S: int, wnd: posint)
    requires SenderOk(snd, U, S, wnd) && cwnd <= wnd
    ensures AdmitCount(snd, cwnd) == Min(|snd.queue|, Max(0, cwnd - (S - U)))
  {
    var n := AdmitCount(snd, cwnd);
    AdmitLimit(snd, cwnd, U, S, wnd);
    FitsMeans(snd, cwnd, U, S, wnd, n);
    if n > 0 {
      FitsMeans(snd, cwnd, U, S, wnd, n - 1);
      assert Fits(snd, cwnd, n - 1);
    }
  }

  /** A flush never changes the number, fragment number or payload of a buffered segment. */
  lemma TransmitKeeps(s: State, buf: seq<Segment>)
    ensures forall i :: 0 <= i < |buf| ==>
              var t := TransmitAll(s, buf)[i];
              t.sn == buf[i].sn && t.frg == buf[i].frg && t.data == buf[i].data
  {
  }

  lemma FlushSenderKeeps(s: State, U: int, S: int) returns (S': int)
    requires SenderOk(s.snd, U, S, s.cfg.sndWnd)
    ensures S <= S' && SenderOk(Flush(s).0.snd, U, S', s.cfg.sndWnd)
  {
    S' := S;
    if s.timer.updated {
      S' := S + AdmitCount(s.snd, FlushWindow(s));
      AdmitKeeps(s, s.snd, FlushWindow(s), U, S);
      TransmitSorted(s, FlushSender(s).buf, U, S');
    }
  }

  lemma TransmitSorted(s: State, buf: seq<Segment>, base: int, limit: int)
    requires Sorted(base, buf, limit)
    ensures Sorted(base, TransmitAll(s, buf), limit)
    ensures SameKeys(base, buf, base, TransmitAll(s, buf))
  {
    var out := TransmitAll(s, buf);
    TransmitKeeps(s, buf);
    forall i | 0 <= i < |buf| ensures Key(base, out, i) == Key(base, buf, i) {}
  }
}
