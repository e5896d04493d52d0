/**
 One direction of a connection: a sending side, the receiving side of its peer, and the fragments
 `all` that are to go across. Numbers are unbounded here: `U`, `S` and `R` are how often `snd_una`,
 `snd_nxt` and `rcv_nxt` have been incremented.
 */
module KcpLink {
  import opened Serial
  import opened KcpWire
  import opened KcpSpec
  import opened KcpSender
  import opened KcpReceiver
  import opened KcpMessages

  ghost predicate CarriesAt(base: int, buf: seq<Segment>, all: seq<Frag>, i: nat)
    requires i < |buf|
  {
    0 <= Key(base, buf, i) < |all| && FragAt(buf, i) == all[Key(base, buf, i)]
  }

  /** Every buffered segment carries the fragment that its number stands for. */
  ghost predicate Carries(base: int, buf: seq<Segment>, all: seq<Frag>) {
    forall i :: 0 <= i < |buf| ==> CarriesAt(base, buf, all, i)
  }

  /** The receiver has the fragment: it is in order already, or in the reorder buffer. */
  ghost predicate Held(r: Receiver, R: nat, k: int) {
    0 <= k && (k < R || Has(R, r.buf, k))
  }

  ghost predicate Outgoing(snd: Sender, U: nat, S: nat, all: seq<Frag>, wnd: posint) {
    && SenderOk(snd, U, S, wnd)
    && S <= |all|
    && Carries(U, snd.buf, all)
  }

  ghost predicate Incoming(r: Receiver, R: nat, S: nat, all: seq<Frag>, wnd: posint) {
    && ReceiverOk(r, R, wnd)
    && R <= S <= |all|
    && Sorted(R, r.buf, S)
    && Carries(R, r.buf, all)
  }

  /** No acknowledged loss: what was numbered and is not in the send buffer, the receiver has. */
  ghost predicate Safe(snd: Sender, U: nat, S: nat, r: Receiver, R: nat) {
    forall k :: 0 <= k < S ==> Has(U, snd.buf, k) || Held(r, R, k)
  }

  /** Only numbers below `M` have been acknowledged. */
  ghost predicate Marked(snd: Sender, U: nat, S: nat, M: nat) {
    M <= S && forall k :: 0 <= k < S ==> Has(U, snd.buf, k) || k < M
  }

  // ---------------------------------------------------------------- the sender hears an answer

  lemma SameHas(b: int, buf: seq<Segment>, b': int, buf': seq<Segment>)
    requires SameKeys(b, buf, b', buf')
    ensures forall j :: Has(b', buf', j) <==> Has(b, buf, j)
  {
    forall j ensures Has(b', buf', j) <==> Has(b, buf, j) {
      if Has(b, buf, j) {
        var i :| 0 <= i < |buf| && Key(b, buf, i) == j;
        assert Key(b', buf', i) == j;
      }
      if Has(b', buf', j) {
        var i :| 0 <= i < |buf'| && Key(b', buf', i) == j;
        assert Key(b, buf, i) == j;
      }
    }
  }

  lemma SameCarries(b: int, buf: seq<Segment>, b': int, buf': seq<Segment>, all: seq<Frag>)
    requires SameKeys(b, buf, b', buf') && Carries(b, buf, all)
    requires forall i :: 0 <= i < |buf| ==> FragAt(buf', i) == FragAt(buf, i)
    ensures Carries(b', buf', all)
  {
    hide Key;
    forall i | 0 <= i < |buf'| ensures CarriesAt(b', buf', all, i) {
      assert CarriesAt(b, buf, all, i);
    }
  }

  lemma CarriesSuffix(base: int, buf: seq<Segment>, all: seq<Frag>, n: nat)
    requires n <= |buf| && Carries(base, buf, all)
    ensures Carries(base, buf[n..], all)
  {
    forall i | 0 <= i < |buf| - n ensures CarriesAt(base, buf[n..], all, i) {
      assert CarriesAt(base, buf, all, n + i);
    }
  }

  lemma CarriesRemove(base: int, buf: seq<Segment>, all: seq<Frag>, p: nat)
    requires p <= |buf| && Carries(base, buf, all)
    ensures Carries(base, RemoveAt(buf, p), all)
  {
    var out := RemoveAt(buf, p);
    forall i | 0 <= i < |out| ensures CarriesAt(base, out, all, i) {
      assert CarriesAt(base, buf, all, if i < p then i else i + 1);
    }
  }

  /** `una` removes only numbers that the receiver has. */
  lemma UnaSafe(snd: Sender, U: nat, S: nat, all: seq<Frag>, wnd: posint, r: Receiver, R: nat, M: nat, u: int)
    returns (U': nat)
    requires Outgoing(snd, U, S, all, wnd) && Safe(snd, U, S, r, R) && Marked(snd, U, S, M)
    requires S - TWO31 < u <= R && u <= M
    ensures var out := Shrink(ParseUna(snd, U32(u)));
            U <= U' && Outgoing(out, U', S, all, wnd) && Safe(out, U', S, r, R) && Marked(out, U', S, M)
  {
    var cut := ParseUna(snd, U32(u));
    ParseUnaRemoves(snd, U, S, wnd, u);
    CarriesSuffix(U, snd.buf, all, UnaCount(snd.buf, U32(u)));
    var V := ParseUnaKeeps(snd, U, S, wnd, U32(u));
    SameHas(U, cut.buf, V, cut.buf);
    SameCarries(U, cut.buf, V, cut.buf, all);
    U' := V;
    StillSafe(snd, U, cut, V, S, r, R, M);
  }

  /** An acknowledgement removes only a number that the receiver has. */
  lemma AckSafe(snd: Sender, U: nat, S: nat, all: seq<Frag>, wnd: posint, r: Receiver, R: nat, M: nat, k: int)
    returns (U': nat)
    requires Outgoing(snd, U, S, all, wnd) && Safe(snd, U, S, r, R) && Marked(snd, U, S, M)
    requires S - TWO31 <= k < M && Held(r, R, k)
    ensures var out := Shrink(ParseAck(snd, U32(k)));
            U <= U' && Outgoing(out, U', S, all, wnd) && Safe(out, U', S, r, R) && Marked(out, U', S, M)
  {
    var cut := ParseAck(snd, U32(k));
    if k < U {
      DiffOfIndices(k, U);
    } else {
      ParseAckRemoves(snd, U, S, wnd, k);
    }
    CarriesRemove(U, snd.buf, all, FindAck(snd.buf, U32(k)));
    var V := ParseAckKeeps(snd, U, S, wnd, U32(k));
    SameHas(U, cut.buf, V, cut.buf);
    SameCarries(U, cut.buf, V, cut.buf, all);
    U' := V;
    StillSafe(snd, U, cut, V, S, r, R, M);
  }

  lemma StillSafe(snd: Sender, U: nat, cut: Sender, V: nat, S: nat, r: Receiver, R: nat, M: nat)
    requires Safe(snd, U, S, r, R) && Marked(snd, U, S, M)
    requires forall j :: 0 <= j < S && Has(U, snd.buf, j) ==> Has(V, cut.buf, j) || (Held(r, R, j) && j < M)
    ensures Safe(Shrink(cut), V, S, r, R) && Marked(Shrink(cut), V, S, M)
  {
    hide Has, Held;
  }

  /** What an honest segment says to a sender whose numbers run to `S`. */
  ghost predicate Answer(w: Wire, S: nat, r: Receiver, R: nat, M: nat, u: int, k: int) {
    && w.una == U32(u) && S - TWO31 < u <= R && u <= M
    && (w.cmd == CMD_ACK ==> w.sn == U32(k) && S - TWO31 <= k < M && Held(r, R, k))
  }

  lemma HearAckSafe(snd: Sender, U: nat, S: nat, all: seq<Frag>, wnd: posint, r: Receiver, R: nat, M: nat,
                    w: Wire, u: int, k: int)
    returns (U': nat)
    requires Outgoing(snd, U, S, all, wnd) && Safe(snd, U, S, r, R) && Marked(snd, U, S, M)
    requires Answer(w, S, r, R, M, u, k)
    ensures var out := HearAck(snd, w);
            U <= U' && Outgoing(out, U', S, all, wnd) && Safe(out, U', S, r, R) && Marked(out, U', S, M)
  {
    hide Outgoing, Safe, Marked, ParseUna, ParseAck, Shrink, Held;
    U' := UnaSafe(snd, U, S, all, wnd, r, R, M, u);
    if w.cmd == CMD_ACK {
      U' := AckSafe(Shrink(ParseUna(snd, w.una)), U', S, all, wnd, r, R, M, k);
    }
  }

  /** The sending side after the first `n` segments of a datagram. */
  function HearAll(snd: Sender, ws: seq<Wire>, n: nat): Sender
    requires n <= |ws|
  {
    if n == 0 then snd else HearAck(HearAll(snd, ws, n - 1), ws[n - 1])
  }

  lemma {:induction false} ProcessHears(s: State, ws: seq<Wire>, n: nat)
    requires n <= |ws|
    ensures ProcessRun(s, ws, n).snd == HearAll(s.snd, ws, n)
  {
    hide HearAck, AcceptPush, QueueAck, UpdateAck;
    if n > 0 {
      ProcessHears(s, ws, n - 1);
    }
  }

  ghost predicate AnswerAt(ws: seq<Wire>, i: nat, S: nat, r: Receiver, R: nat, M: nat) {
    i < |ws| && exists u, k :: Answer(ws[i], S, r, R, M, u, k)
  }

  /** A whole datagram of answers keeps the sender safe. */
  lemma {:induction false} HearAllSafe(snd: Sender, U: nat, S: nat, all: seq<Frag>, wnd: posint,
                                       r: Receiver, R: nat, M: nat, ws: seq<Wire>, n: nat)
    returns (U': nat)
    requires n <= |ws|
    requires Outgoing(snd, U, S, all, wnd) && Safe(snd, U, S, r, R) && Marked(snd, U, S, M)
    requires forall i :: 0 <= i < |ws| ==> AnswerAt(ws, i, S, r, R, M)
    ensures var out := HearAll(snd, ws, n);
            U <= U' && Outgoing(out, U', S, all, wnd) && Safe(out, U', S, r, R) && Marked(out, U', S, M)
  {
    hide Outgoing, Safe, Marked, HearAck, Answer;
    U' := U;
    if n > 0 {
      U' := HearAllSafe(snd, U, S, all, wnd, r, R, M, ws, n - 1);
      assert AnswerAt(ws, n - 1, S, r, R, M);
      var u, k :| Answer(ws[n - 1], S, r, R, M, u, k);
      U' := HearAckSafe(HearAll(snd, ws, n - 1), U', S, all, wnd, r, R, M, ws[n - 1], u, k);
    }
  }

  lemma FastackSafe(snd: Sender, U: nat, S: nat, all: seq<Frag>, wnd: posint, r: Receiver, R: nat, M: nat, sn: uint32)
    requires Outgoing(snd, U, S, all, wnd) && Safe(snd, U, S, r, R) && Marked(snd, U, S, M)
    ensures var out := ParseFastack(snd, sn);
            Outgoing(out, U, S, all, wnd) && Safe(out, U, S, r, R) && Marked(out, U, S, M)
  {
    var out := ParseFastack(snd, sn);
    ParseFastackKeeps(snd, U, S, wnd, sn);
    SameHas(U, snd.buf, U, out.buf);
    FastackFrags(snd, sn);
    SameCarries(U, snd.buf, U, out.buf, all);
    StillSafeSame(snd, U, out, U, S, r, R, M);
  }

  lemma FastackFrags(snd: Sender, sn: uint32)
    ensures var out := ParseFastack(snd, sn);
            |out.buf| == |snd.buf| && forall i :: 0 <= i < |snd.buf| ==> FragAt(out.buf, i) == FragAt(snd.buf, i)
  {
  }

  lemma StillSafeSame(snd: Sender, U: nat, out: Sender, V: nat, S: nat, r: Receiver, R: nat, M: nat)
    requires Safe(snd, U, S, r, R) && Marked(snd, U, S, M)
    requires forall j :: Has(V, out.buf, j) <==> Has(U, snd.buf, j)
    ensures Safe(out, V, S, r, R) && Marked(out, V, S, M)
  {
    hide Has, Held;
  }

  // ---------------------------------------------------------------- the sender flushes

  /** Numbering queued segments keeps every fragment where it belongs. */
  lemma AdmitCarries(s: State, snd: Sender, cwnd: uint32, U: nat, S: nat, all: seq<Frag>)
    requires Outgoing(snd, U, S, all, s.cfg.sndWnd) && cwnd <= s.cfg.sndWnd
    requires Continues(snd.queue, all, S)
    ensures var out, n := Admit(s, snd, cwnd), AdmitCount(snd, cwnd);
            && Outgoing(out, U, S + n, all, s.cfg.sndWnd)
            && Continues(out.queue, all, S + n)
  {
    var out := Admit(s, snd, cwnd);
    AdmitKeeps(s, snd, cwnd, U, S);
    AdmitContinues(s, snd, cwnd, S, all);
    forall i | 0 <= i < |out.buf| ensures CarriesAt(U, out.buf, all, i) {
      AdmitCarriesAt(s, snd, cwnd, U, S, all, i);
    }
    hide Admit, CarriesAt, ContinuesAt, SenderOk;
  }

  lemma AdmitContinues(s: State, snd: Sender, cwnd: uint32, S: nat, all: seq<Frag>)
    requires Continues(snd.queue, all, S)
    ensures Continues(Admit(s, snd, cwnd).queue, all, S + AdmitCount(snd, cwnd))
  {
    var n := AdmitCount(snd, cwnd);
    var rest, p := snd.queue[n..], S + n;
    forall i | 0 <= i < |rest| ensures ContinuesAt(rest, all, p, i) {
      assert ContinuesAt(snd.queue, all, S, n + i);
    }
  }

  lemma AdmitCarriesAt(s: State, snd: Sender, cwnd: uint32, U: nat, S: nat, all: seq<Frag>, i: nat)
    requires Outgoing(snd, U, S, all, s.cfg.sndWnd) && cwnd <= s.cfg.sndWnd
    requires Continues(snd.queue, all, S)
    requires i < |Admit(s, snd, cwnd).buf|
    ensures CarriesAt(U, Admit(s, snd, cwnd).buf, all, i)
  {
    var n := AdmitCount(snd, cwnd);
    AdmitLimit(snd, cwnd, U, S, s.cfg.sndWnd);
    AdmittedKey(s, snd, U, S, n, i);
    hide SenderOk, Key, AdmitCount, U32;
    if i < |snd.buf| {
      assert CarriesAt(U, snd.buf, all, i);
    } else {
      assert ContinuesAt(snd.queue, all, S, i - |snd.buf|);
    }
  }

  lemma AdmitHas(s: State, snd: Sender, cwnd: uint32, U: nat, S: nat, wnd: posint)
    requires SenderOk(snd, U, S, s.cfg.sndWnd) && cwnd <= s.cfg.sndWnd
    ensures var out, n := Admit(s, snd, cwnd), AdmitCount(snd, cwnd);
            forall j :: Has(U, snd.buf, j) || S <= j < S + n ==> Has(U, out.buf, j)
  {
    var out, n := Admit(s, snd, cwnd), AdmitCount(snd, cwnd);
    AdmitLimit(snd, cwnd, U, S, s.cfg.sndWnd);
    forall j | Has(U, snd.buf, j) || S <= j < S + n ensures Has(U, out.buf, j) {
      if Has(U, snd.buf, j) {
        var i :| 0 <= i < |snd.buf| && Key(U, snd.buf, i) == j;
        AdmittedKey(s, snd, U, S, n, i);
      } else {
        AdmittedKey(s, snd, U, S, n, |snd.buf| + j - S);
      }
    }
  }

  /** Nothing leaves the send buffer in a flush. */
  lemma AdmitSafe(s: State, snd: Sender, cwnd: uint32, U: nat, S: nat, r: Receiver, R: nat, M: nat)
    requires SenderOk(snd, U, S, s.cfg.sndWnd) && cwnd <= s.cfg.sndWnd
    requires Safe(snd, U, S, r, R) && Marked(snd, U, S, M)
    ensures var out, n := Admit(s, snd, cwnd), AdmitCount(snd, cwnd);
            Safe(out, U, S + n, r, R) && Marked(out, U, S + n, M)
  {
    AdmitHas(s, snd, cwnd, U, S, s.cfg.sndWnd);
    hide Has, Held, SenderOk;
  }

  lemma TransmitSafe(s: State, snd: Sender, U: nat, S: nat, all: seq<Frag>, wnd: posint, r: Receiver, R: nat, M: nat)
    requires Outgoing(snd, U, S, all, wnd) && Safe(snd, U, S, r, R) && Marked(snd, U, S, M)
    ensures var out := snd.(buf := TransmitAll(s, snd.buf));
            Outgoing(out, U, S, all, wnd) && Safe(out, U, S, r, R) && Marked(out, U, S, M)
  {
    var out := snd.(buf := TransmitAll(s, snd.buf));
    TransmitSorted(s, snd.buf, U, S);
    TransmitFrags(s, snd.buf);
    SameHas(U, snd.buf, U, out.buf);
    SameCarries(U, snd.buf, U, out.buf, all);
    StillSafeSame(snd, U, out, U, S, r, R, M);
  }

  lemma TransmitFrags(s: State, buf: seq<Segment>)
    ensures forall i :: 0 <= i < |buf| ==> FragAt(TransmitAll(s, buf), i) == FragAt(buf, i)
  {
    TransmitKeeps(s, buf);
  }

  // ---------------------------------------------------------------- the receiver hears data

  /** The peer is never further ahead than the two windows. */
  lemma WindowGap(snd: Sender, U: nat, S: nat, sw: posint, r: Receiver, R: nat, rw: posint)
    requires SenderOk(snd, U, S, sw) && Safe(snd, U, S, r, R) && ReceiverOk(r, R, rw)
    ensures U <= R + rw && S <= R + rw + sw
  {
    if U > 0 {
      assert !Has(U, snd.buf, U - 1) by {
        AtLeastBase(U, snd.buf, U - 1);
      }
      assert Held(r, R, U - 1);
    }
  }

  lemma AtLeastBase(base: int, buf: seq<Segment>, k: int)
    requires k < base
    ensures !Has(base, buf, k)
  {
    forall i | 0 <= i < |buf| ensures Key(base, buf, i) >= base {
      UnwrapWraps(base, buf[i].sn);
    }
  }

  /** Nor has more been acknowledged than the mark allows. */
  lemma MarkGap(snd: Sender, U: nat, S: nat, sw: posint, M: nat)
    requires SenderOk(snd, U, S, sw) && Marked(snd, U, S, M)
    ensures S <= M + sw
  {
    if U > 0 {
      AtLeastBase(U, snd.buf, U - 1);
    }
  }

  /** What the receiver has it keeps. */
  ghost predicate Grows(r: Receiver, R: nat, r': Receiver, R': nat) {
    R <= R' && forall j :: Held(r, R, j) ==> Held(r', R', j)
  }

  /** Moving segments to the queue keeps them held, in order, and each in its place. */
  lemma DrainIncoming(r: Receiver, R: nat, S: nat, all: seq<Frag>, wnd: posint)
    requires ReceiverBuf(r, R, wnd) && R <= S <= |all|
    requires Sorted(R, r.buf, S) && Carries(R, r.buf, all)
    ensures var n := Run(r, wnd);
            && Incoming(Drain(r, wnd), R + n, S, all, wnd)
            && Grows(r, R, Drain(r, wnd), R + n)
  {
    var n := Run(r, wnd);
    var out := Drain(r, wnd);
    DrainKeeps(r, R, wnd);
    RestKeys(r, R, wnd);
    if n > 0 {
      RunKeys(r, R, wnd, n - 1);
    }
    SortedSuffix(R, r.buf, S, n);
    SameSorted(R, r.buf[n..], R + n, out.buf, S);
    CarriesSuffix(R, r.buf, all, n);
    SameCarries(R, r.buf[n..], R + n, out.buf, all);
    forall j | Held(r, R, j) ensures Held(out, R + n, j) {
      DrainHolds(r, R, wnd, j);
    }
  }

  lemma SameSorted(b: int, buf: seq<Segment>, b': int, buf': seq<Segment>, limit: int)
    requires SameKeys(b, buf, b', buf') && Sorted(b, buf, limit)
    ensures Sorted(b', buf', limit)
  {
    hide Key;
  }

  lemma DrainHolds(r: Receiver, R: nat, wnd: posint, j: int)
    requires ReceiverBuf(r, R, wnd) && Held(r, R, j)
    ensures Held(Drain(r, wnd), R + Run(r, wnd), j)
  {
    var n := Run(r, wnd);
    if j >= R + n {
      var i :| 0 <= i < |r.buf| && Key(R, r.buf, i) == j;
      if i < n {
        RunKeys(r, R, wnd, i);
      } else {
        RestKeys(r, R, wnd);
        assert Key(R, r.buf[n..], i - n) == Key(R, r.buf, i);
        assert Key(R + n, Drain(r, wnd).buf, i - n) == j;
      }
    }
  }

  /** What is moved to the queue continues it. */
  lemma DrainContinues(r: Receiver, R: nat, all: seq<Frag>, wnd: posint, p: nat)
    requires ReceiverBuf(r, R, wnd) && Carries(R, r.buf, all)
    requires Continues(r.queue, all, p) && p + |r.queue| == R
    ensures var out := Drain(r, wnd);
            && Continues(out.queue, all, p)
            && p + |out.queue| == R + Run(r, wnd)
  {
    var out, n := Drain(r, wnd), Run(r, wnd);
    if n > 0 {
      RunKeys(r, R, wnd, n - 1);
      assert CarriesAt(R, r.buf, all, n - 1);
    }
    forall i | 0 <= i < |out.queue| ensures ContinuesAt(out.queue, all, p, i) {
      if i < |r.queue| {
        assert ContinuesAt(r.queue, all, p, i);
      } else {
        RunKeys(r, R, wnd, i - |r.queue|);
        assert CarriesAt(R, r.buf, all, i - |r.queue|);
      }
    }
  }

  /** Number `k` of the peer carries its fragment. */
  ghost predicate Push(w: Wire, S: nat, all: seq<Frag>, rw: posint, k: int) {
    && w.sn == U32(k) && 0 <= k < S <= |all|
    && S + rw - TWO31 <= k
    && Frag(w.frg, w.data) == all[k]
  }

  lemma InsertCarries(R: nat, buf: seq<Segment>, wnd: posint, all: seq<Frag>, seg: Segment)
    requires Sorted(R, buf, R + wnd) && Carries(R, buf, all)
    requires var k := Unwrap(R, seg.sn);
             R <= k < R + wnd && k < |all| && Frag(seg.frg, seg.data) == all[k]
    ensures Carries(R, InsertSegment(buf, seg), all)
  {
    hide Unwrap, U32, SearchBack, Sorted, CarriesAt;
    var (p, repeated) := SearchBack(buf, seg.sn, |buf|);
    if !repeated {
      forall i | 0 <= i <= |buf| ensures CarriesAt(R, buf[..p] + [seg] + buf[p..], all, i) {
        InsertCarriesAt(R, buf, all, seg, p, i);
      }
    }
  }

  lemma InsertCarriesAt(R: nat, buf: seq<Segment>, all: seq<Frag>, seg: Segment, p: nat, i: nat)
    requires p <= |buf| && i <= |buf| && Carries(R, buf, all)
    requires 0 <= Unwrap(R, seg.sn) < |all| && Frag(seg.frg, seg.data) == all[Unwrap(R, seg.sn)]
    ensures CarriesAt(R, buf[..p] + [seg] + buf[p..], all, i)
  {
    hide Unwrap, U32;
    if i != p {
      assert CarriesAt(R, buf, all, if i < p then i else i - 1);
    }
  }

  lemma SortedByHas(R: nat, buf: seq<Segment>, limit: int, S: int)
    requires Sorted(R, buf, limit)
    requires forall j :: Has(R, buf, j) ==> j < S
    ensures Sorted(R, buf, S)
  {
    hide Key;
    forall i | 0 <= i < |buf| ensures Key(R, buf, i) < S {
      assert Has(R, buf, Key(R, buf, i));
    }
  }

  /** The buffer with an accepted segment inserted. */
  lemma InsertIncoming(r: Receiver, R: nat, S: nat, all: seq<Frag>, wnd: posint, w: Wire, k: int)
    requires Incoming(r, R, S, all, wnd)
    requires Push(w, S, all, wnd, k) && R <= k < R + wnd
    ensures var mid := r.(buf := InsertSegment(r.buf, FromWire(w)));
            && ReceiverBuf(mid, R, wnd) && Sorted(R, mid.buf, S) && Carries(R, mid.buf, all)
            && Grows(r, R, mid, R) && Held(mid, R, k)
  {
    UnwrapInverts(R, k);
    InsertKeeps(R, r.buf, wnd, FromWire(w));
    InsertCarries(R, r.buf, wnd, all, FromWire(w));
    HasBelow(R, r.buf, S);
    SortedByHas(R, InsertSegment(r.buf, FromWire(w)), R + wnd, S);
  }

  lemma HasBelow(base: int, buf: seq<Segment>, limit: int)
    requires Sorted(base, buf, limit)
    ensures forall j :: Has(base, buf, j) ==> j < limit
  {
  }

  /** An honest data segment: it is stored once if it is inside the window, the queue only grows,
      and if it is acknowledged then it is held. */
  lemma AcceptPushSafe(r: Receiver, R: nat, S: nat, all: seq<Frag>, wnd: posint, p: nat, w: Wire, k: int)
    returns (R': nat)
    requires Incoming(r, R, S, all, wnd) && Continues(r.queue, all, p) && p + |r.queue| == R
    requires Push(w, S, all, wnd, k) && S < R + TWO31
    ensures var out := AcceptPush(r, wnd, w);
            && Incoming(out, R', S, all, wnd) && Grows(r, R, out, R')
            && Continues(out.queue, all, p) && p + |out.queue| == R'
            && (BelowWindow(r, wnd, w.sn) ==> Held(out, R', k))
  {
    WindowTest(r, R, wnd, k);
    R' := R;
    if R <= k < R + wnd {
      var mid := r.(buf := InsertSegment(r.buf, FromWire(w)));
      InsertIncoming(r, R, S, all, wnd, w, k);
      hide InsertSegment, Carries;
      DrainIncoming(mid, R, S, all, wnd);
      DrainContinues(mid, R, all, wnd, p);
      R' := R + Run(mid, wnd);
    }
  }
}
