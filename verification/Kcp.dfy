/**
 The KCP control block as `ikcp.c` keeps it: flat fields, queues with separate counters, the
 acknowledgement list in a growing array, and an output buffer written through a moving position.
 Every method is proved to compute the function of the same name in `KcpSpec`.
 */
module Kcp {
  import opened Numbers
  import opened Serial
  import opened KcpWire
  import opened KcpSpec

  /** The acknowledgement list: number and time alternate. */
  function Pairs(list: seq<uint32>, n: nat): (acks: seq<Ack>)
    requires 2 * n <= |list|
    ensures |acks| == n
  {
    seq(n, i requires 0 <= i < n => Ack(list[2 * i], list[2 * i + 1]))
  }

  lemma PairsAppend(a: seq<uint32>, b: seq<uint32>, n: nat)
    requires 2 * n <= |a| && 2 * n + 2 <= |b| && a[..2 * n] == b[..2 * n]
    ensures Pairs(b, n + 1) == Pairs(a, n) + [Ack(b[2 * n], b[2 * n + 1])]
  {
    forall i | 0 <= i < n ensures Pairs(b, n + 1)[i] == Pairs(a, n)[i] {
      assert a[..2 * n][2 * i] == b[..2 * n][2 * i];
      assert a[..2 * n][2 * i + 1] == b[..2 * n][2 * i + 1];
    }
  }

  /** What the loop of a flush over the send buffer starts with: the state of the flush, the buffer, the
      datagrams sent before, the segments packed since, and `xmit` and `state`. */
  datatype Pass = Pass(s: State, b: seq<Segment>, base: seq<bytes>, ws: seq<Wire>, xmit: uint32, dead: bool)

  class ControlBlock {
    const cfg: Config

    var sndUna: uint32
    var sndNxt: uint32
    var rcvNxt: uint32
    var ssthresh: uint32
    var rxRttval: int
    var rxSrtt: int
    var rxRto: nat
    var rmtWnd: uint32
    var cwnd: uint32
    var incr: uint32
    var askSend: bool
    var askTell: bool
    var tsProbe: uint32
    var probeWait: uint32
    var current: uint32
    var tsFlush: uint32
    var updated: bool
    var xmit: uint32
    var dead: bool
    var sndQueue: seq<Segment>
    var rcvQueue: seq<Segment>
    var sndBuf: seq<Segment>
    var rcvBuf: seq<Segment>
    var nsndQue: nat
    var nrcvQue: nat
    var nsndBuf: nat
    var nrcvBuf: nat
    var acklist: array<uint32>
    var ackcount: nat
    var ackblock: nat
    const buffer: array<byte>

    /** The datagrams given to the output callback. */
    ghost var sent: seq<bytes>

    ghost predicate Fit(q: seq<Segment>) {
      forall i :: 0 <= i < |q| ==> |q[i].data| <= cfg.mss
    }

    ghost predicate Counted()
      reads `sndQueue, `rcvQueue, `sndBuf, `rcvBuf, `nsndQue, `nrcvQue, `nsndBuf, `nrcvBuf
    {
      nsndQue == |sndQueue| && nrcvQue == |rcvQueue| && nsndBuf == |sndBuf| && nrcvBuf == |rcvBuf|
    }

    ghost predicate AcksOk()
      reads `acklist, `ackcount, `ackblock
    {
      acklist.Length == 2 * ackblock && ackcount <= ackblock
    }

    /** The counters are the lengths, the arrays have their sizes, and what is to be sent fits. */
    ghost predicate Valid()
      reads this
    {
      Counted() && AcksOk() && Fit(sndQueue) && Fit(sndBuf) && buffer.Length == (cfg.Mtu() + OVERHEAD) * 3
    }

    ghost function Acks(): seq<Ack>
      requires AcksOk()
      reads `acklist, `ackcount, `ackblock, acklist
    {
      Pairs(acklist[..], ackcount)
    }

    ghost function Snd(): Sender
      reads `sndUna, `sndNxt, `sndQueue, `sndBuf
    {
      Sender(sndUna, sndNxt, sndQueue, sndBuf)
    }

    ghost function Rcv(): Receiver
      reads `rcvNxt, `rcvQueue, `rcvBuf
    {
      Receiver(rcvNxt, rcvQueue, rcvBuf)
    }

    ghost function Rx(): Rtt
      reads `rxSrtt, `rxRttval, `rxRto
    {
      Rtt(rxSrtt, rxRttval, rxRto)
    }

    ghost function Cc(): Congestion
      reads `cwnd, `incr, `ssthresh, `rmtWnd
    {
      Congestion(cwnd, incr, ssthresh, rmtWnd)
    }

    ghost function Clock(): Timer
      reads `current, `tsFlush, `updated
    {
      Timer(current, tsFlush, updated)
    }

    ghost function Probing(): Probe
      reads `askSend, `askTell, `tsProbe, `probeWait
    {
      Probe(askSend, askTell, tsProbe, probeWait)
    }

    /** The control block as a value. */
    ghost function Value(): State
      requires AcksOk()
      reads this, acklist
    {
      State(cfg, Snd(), Rcv(), Acks(), Rx(), Cc(), Clock(), Probing(), xmit, dead)
    }

    /** `ikcp_create` */
    constructor (cfg: Config)
      ensures Valid() && Value() == Create(cfg) && sent == []
      ensures fresh(acklist) && fresh(buffer)
    {
      this.cfg := cfg;
      sndUna, sndNxt, rcvNxt := 0, 0, 0;
      tsProbe, probeWait := 0, 0;
      rmtWnd, cwnd, incr := 32, 0, 0;
      askSend, askTell := false, false;
      buffer := new byte[(cfg.Mtu() + OVERHEAD) * 3];
      sndQueue, rcvQueue, sndBuf, rcvBuf := [], [], [], [];
      nrcvBuf, nsndBuf, nrcvQue, nsndQue := 0, 0, 0, 0;
      dead := false;
      acklist := new uint32[0];
      ackblock, ackcount := 0, 0;
      rxSrtt, rxRttval, rxRto := 0, 0, RTO_DEF;
      current, tsFlush, updated := 0, 100, false;
      ssthresh, xmit := THRESH_MIN, 0;
      sent := [];
    }

    // -------------------------------------------------------------- send

    /** Stream mode: the last queued segment is replaced by a longer one. */
    method TopUpLast(data: bytes) returns (rest: bytes)
      requires Valid()
      modifies `sndQueue
      ensures Valid() && (sndQueue, rest) == TopUp(old(sndQueue), data, cfg.mss)
    {
      rest := data;
      if sndQueue != [] {
        var last := sndQueue[|sndQueue| - 1];
        if |last.data| < cfg.mss {
          var capacity := cfg.mss - |last.data|;
          var extend := if |data| < capacity then |data| else capacity;
          var seg := NewSegment(0, last.data + data[..extend]);
          sndQueue := sndQueue[..|sndQueue| - 1] + [seg];
          rest := data[extend..];
          assert data[..extend] == Front(data, capacity) && rest == Rest(data, capacity);
        }
      }
    }

    /** The fragments of what is left. */
    method Fragment(data: bytes, count: nat)
      requires Valid() && count <= 255
      requires count == FragmentCount(|data|, cfg.mss)
      modifies `sndQueue, `nsndQue
      ensures Valid() && sndQueue == old(sndQueue) + Cut(data, cfg.mss, count, cfg.stream)
    {
      hide Cut, Fit, FragmentCount;
      var i, rest := 0, data;
      while i < count
        invariant 0 <= i <= count
        invariant Valid()
        invariant sndQueue + Cut(rest, cfg.mss, count - i, cfg.stream)
               == old(sndQueue) + Cut(data, cfg.mss, count, cfg.stream)
      {
        var size := if |rest| > cfg.mss then cfg.mss else |rest|;
        var seg := NewSegment(if !cfg.stream then count - i - 1 else 0, rest[..size]);
        CutHead(rest, cfg.mss, count - i, cfg.stream);
        AppendFits(sndQueue, seg);
        MoveBracket(sndQueue, seg, Cut(rest[size..], cfg.mss, count - i - 1, cfg.stream));
        sndQueue := sndQueue + [seg];
        nsndQue := nsndQue + 1;
        rest := rest[size..];
        i := i + 1;
      }
      NoneLeft(sndQueue, rest, cfg.mss, cfg.stream);
    }

    lemma AppendFits(q: seq<Segment>, seg: Segment)
      requires Fit(q) && |seg.data| <= cfg.mss
      ensures Fit(q + [seg])
    {
    }

    /** `ikcp_send` */
    method Send(data: bytes, len: int) returns (r: int)
      requires Valid() && len <= |data|
      modifies `sndQueue, `nsndQue
      ensures Valid()
      ensures len < 0 ==> r == -1 && Value() == old(Value())
      ensures len >= 0 ==> (Value(), r) == KcpSpec.Send(old(Value()), data[..len])
    {
      hide Cut;
      if len < 0 {
        return -1;
      }
      var rest := data[..len];
      if cfg.stream {
        rest := TopUpLast(rest);
        if |rest| <= 0 {
          return 0;
        }
      }
      var count := if |rest| <= cfg.mss then 1 else (|rest| + cfg.mss - 1) / cfg.mss;
      if count > 255 {
        return -2;
      }
      Fragment(rest, count);
      return 0;
    }

    // -------------------------------------------------------------- receive

    /** `ikcp_peeksize` */
    method PeekSize() returns (r: int)
      requires Counted()
      ensures r == KcpSpec.PeekSize(rcvQueue)
    {
      if rcvQueue == [] {
        return -1;
      }
      var seg := rcvQueue[0];
      if seg.frg == 0 {
        return |seg.data|;
      }
      if nrcvQue < seg.frg + 1 {
        return -1;
      }
      var length, p := 0, 0;
      while p < |rcvQueue|
        invariant p <= |rcvQueue| && length == |Join(rcvQueue, p)|
        invariant MergeCount(rcvQueue, p) == MergeCount(rcvQueue)
      {
        seg := rcvQueue[p];
        length := length + |seg.data|;
        p := p + 1;
        if seg.frg == 0 {
          break;
        }
      }
      return length;
    }

    /** The merge loop of `ikcp_recv`: copies one message out, and unlinks it unless peeking. */
    method Merge(out: array<byte>, peek: bool) returns (len: nat)
      requires Counted()
      requires |Join(rcvQueue, MergeCount(rcvQueue))| <= out.Length
      modifies `rcvQueue, `nrcvQue, out
      ensures Counted() && Rcv() == Popped(old(Rcv()), peek)
      ensures var all := Join(old(rcvQueue), MergeCount(old(rcvQueue)));
              len == |all| <= out.Length && out[..len] == all
    {
      hide Join, MergeCount;
      var q, i := rcvQueue, 0;
      len := 0;
      JoinNothing(q);
      while i < |q|
        invariant 0 <= i <= |q| && MergeCount(q, i) == MergeCount(q)
        invariant Counted() && rcvQueue == if peek then q else q[i..]
        invariant len == |Join(q, i)| <= out.Length && out[..len] == Join(q, i)
      {
        var seg := q[i];
        MergeStep(q, i);
        JoinGrows(q, i + 1, MergeCount(q));
        JoinNext(q, i);
        Memcpy(out, len, seg.data);
        len := len + |seg.data|;
        i := i + 1;
        if !peek {
          rcvQueue := rcvQueue[1..];
          nrcvQue := nrcvQue - 1;
        }
        if seg.frg == 0 {
          break;
        }
      }
      MergeEnd(q);
    }

    /** Moves what has become in order from the reorder buffer to the queue. */
    method MoveAvailable()
      requires Counted()
      modifies `rcvQueue, `nrcvQue, `rcvBuf, `nrcvBuf, `rcvNxt
      ensures Counted() && Rcv() == Drain(old(Rcv()), cfg.rcvWnd)
    {
      hide RunLength, U32, Moved, Drain;
      ghost var r0, room, i := Rcv(), Max(cfg.rcvWnd - |rcvQueue|, 0), 0;
      NextInLine(r0, room, 0);
      while rcvBuf != []
        invariant 0 <= i <= room && i <= |r0.buf|
        invariant Counted()
        invariant Rcv() == Moved(r0, i)
        invariant RunLength(r0.buf, r0.nxt, room, i) == RunLength(r0.buf, r0.nxt, room)
        decreases |rcvBuf|
      {
        var seg := rcvBuf[0];
        NextInLine(r0, room, i);
        MoveOne(r0, i);
        if seg.sn == rcvNxt && nrcvQue < cfg.rcvWnd {
          rcvBuf := rcvBuf[1..];
          nrcvBuf := nrcvBuf - 1;
          rcvQueue := rcvQueue + [seg];
          nrcvQue := nrcvQue + 1;
          rcvNxt := U32(rcvNxt + 1);
          i := i + 1;
        } else {
          break;
        }
      }
      NextInLine(r0, room, i);
      MoveOne(r0, i);
      DrainMoves(r0, cfg.rcvWnd);
    }

    /** A read whose length check has passed. */
    method Take(out: array<byte>, peek: bool) returns (len: nat)
      requires Counted()
      requires |Join(rcvQueue, MergeCount(rcvQueue))| <= out.Length
      modifies `rcvQueue, `nrcvQue, `rcvBuf, `nrcvBuf, `rcvNxt, `askTell, out
      ensures Counted() && Rcv() == AfterRecv(old(Rcv()), peek, cfg.rcvWnd)
      ensures var all := Join(old(rcvQueue), MergeCount(old(rcvQueue)));
              len == |all| <= out.Length && out[..len] == all
      ensures askTell == (old(askTell) || |rcvQueue| < cfg.rcvWnd <= |old(rcvQueue)|)
    {
      hide MergeCount, Join, Drain, Popped;
      var recover := nrcvQue >= cfg.rcvWnd;
      len := Merge(out, peek);
      MoveAvailable();
      if nrcvQue < cfg.rcvWnd && recover {
        askTell := true;
      }
    }

    /** The checks at the head of `ikcp_recv`. */
    method CheckRecv(size: int) returns (r: int)
      requires Counted()
      ensures r == RecvCheck(rcvQueue, size)
      ensures r >= 0 ==> r == |Join(rcvQueue, MergeCount(rcvQueue))| <= if size < 0 then -size else size
    {
      hide MergeCount, Join, KcpSpec.PeekSize;
      if rcvQueue == [] {
        return -1;
      }
      var len := if size < 0 then -size else size;
      var peeksize := PeekSize();
      if peeksize < 0 {
        return -2;
      }
      if peeksize > len {
        return -3;
      }
      PeekIsMerged(rcvQueue);
      return peeksize;
    }

    /** `ikcp_recv` with a buffer of at least the given length. */
    method Recv(out: array<byte>, size: int) returns (ret: int)
      requires Valid() && -out.Length <= size <= out.Length
      modifies `rcvQueue, `nrcvQue, `rcvBuf, `nrcvBuf, `rcvNxt, `askTell, out
      ensures Valid() && ret <= out.Length
      ensures Value() == KcpSpec.Recv(old(Value()), size).0 && ret == KcpSpec.Recv(old(Value()), size).1
      ensures ret >= 0 ==> out[..ret] == KcpSpec.Recv(old(Value()), size).2
    {
      hide MergeCount, Join, AfterRecv, RecvCheck, Pairs, Fit, Snd, Rx, Cc, Clock;
      ret := CheckRecv(size);
      if ret >= 0 {
        ret := Take(out, size < 0);
      }
    }

    // -------------------------------------------------------------- acknowledgements in

    /** `ikcp_update_ack` */
    method UpdateAck(rtt: int)
      modifies `rxSrtt, `rxRttval, `rxRto
      ensures Rx() == KcpSpec.UpdateAck(old(Rx()), cfg, rtt)
    {
      hide I32, U32, TruncDiv;
      if rxSrtt == 0 {
        rxSrtt := rtt;
        rxRttval := TruncDiv(rtt, 2);
      } else {
        var delta := I32(rtt - rxSrtt);
        if delta < 0 {
          delta := -delta;
        }
        rxRttval := I32(TruncDiv(I32(3 * rxRttval) + delta, 4));
        rxSrtt := TruncDiv(I32(I32(7 * rxSrtt) + rtt), 8);
        if rxSrtt < 1 {
          rxSrtt := 1;
        }
      }
      var rto := U32(rxSrtt + Max(cfg.interval, U32(4 * rxRttval)));
      rxRto := Bound(U32(cfg.minRto), rto, RTO_MAX);
    }

    /** `ikcp_shrink_buf` */
    method ShrinkBuf()
      modifies `sndUna
      ensures Snd() == Shrink(old(Snd()))
    {
      if sndBuf != [] {
        sndUna := sndBuf[0].sn;
      } else {
        sndUna := sndNxt;
      }
    }

    /** `ikcp_parse_ack` */
    method ParseAck(sn: uint32)
      requires Counted() && Fit(sndBuf)
      modifies `sndBuf, `nsndBuf
      ensures Counted() && Fit(sndBuf) && Snd() == KcpSpec.ParseAck(old(Snd()), sn)
    {
      hide Diff;
      if Diff(sn, sndUna) < 0 || Diff(sn, sndNxt) >= 0 {
        return;
      }
      var p := 0;
      while p < |sndBuf|
        invariant p <= |sndBuf| && sndBuf == old(sndBuf) && nsndBuf == old(nsndBuf)
        invariant FindAck(sndBuf, sn, p) == FindAck(sndBuf, sn)
      {
        var seg := sndBuf[p];
        if sn == seg.sn {
          sndBuf := sndBuf[..p] + sndBuf[p + 1..];
          nsndBuf := nsndBuf - 1;
          break;
        }
        if Diff(sn, seg.sn) < 0 {
          break;
        }
        p := p + 1;
      }
    }

    /** `ikcp_parse_una` */
    method ParseUna(una: uint32)
      requires Counted() && Fit(sndBuf)
      modifies `sndBuf, `nsndBuf
      ensures Counted() && Fit(sndBuf) && Snd() == KcpSpec.ParseUna(old(Snd()), una)
    {
      hide Diff;
      ghost var b, n := sndBuf, 0;
      while sndBuf != []
        invariant 0 <= n <= |b| && sndBuf == b[n..] && Counted()
        invariant UnaCount(b, una, n) == UnaCount(b, una)
        decreases |sndBuf|
      {
        var seg := sndBuf[0];
        if Diff(una, seg.sn) > 0 {
          sndBuf := sndBuf[1..];
          nsndBuf := nsndBuf - 1;
          n := n + 1;
        } else {
          break;
        }
      }
    }

    /** `ikcp_parse_fastack` */
    method ParseFastack(sn: uint32)
      requires Counted() && Fit(sndBuf)
      modifies `sndBuf
      ensures Counted() && Fit(sndBuf) && Snd() == KcpSpec.ParseFastack(old(Snd()), sn)
    {
      hide Diff, U32;
      if Diff(sn, sndUna) < 0 || Diff(sn, sndNxt) >= 0 {
        return;
      }
      ghost var b := sndBuf;
      var p := 0;
      while p < |sndBuf|
        invariant p <= |b| && sndBuf == BumpFastack(b, sn, p)
        invariant PastAck(b, sn, p) == PastAck(b, sn)
      {
        var seg := sndBuf[p];
        if Diff(sn, seg.sn) < 0 {
          break;
        } else if sn != seg.sn {
          sndBuf := sndBuf[p := seg.(fastack := U32(seg.fastack + 1))];
        }
        p := p + 1;
      }
    }

    /** The list is replaced by one with room for `newsize` entries. */
    method GrowAcks(newsize: nat)
      requires AcksOk() && ackcount < newsize
      modifies `acklist, `ackblock
      ensures acklist.Length == 2 * ackblock && newsize <= ackblock && fresh(acklist)
      ensures acklist[..2 * ackcount] == old(acklist[..2 * ackcount])
    {
      var newblock := 8;
      while newblock < newsize
        invariant newblock >= 8
      {
        newblock := 2 * newblock;
      }
      var list := new uint32[2 * newblock];
      var x := 0;
      while x < ackcount
        modifies list
        invariant 0 <= x <= ackcount
        invariant list[..2 * x] == acklist[..2 * x]
      {
        list[2 * x] := acklist[2 * x];
        list[2 * x + 1] := acklist[2 * x + 1];
        x := x + 1;
      }
      acklist := list;
      ackblock := newblock;
    }

    /** `ikcp_ack_push` */
    method AckPush(sn: uint32, ts: uint32)
      requires AcksOk()
      modifies `acklist, `ackcount, `ackblock, acklist
      ensures AcksOk() && Acks() == old(Acks()) + [Ack(sn, ts)]
      ensures acklist == old(acklist) || fresh(acklist)
    {
      hide Pairs;
      ghost var before, n := acklist[..], ackcount;
      var newsize := ackcount + 1;
      if newsize > ackblock {
        GrowAcks(newsize);
      }
      acklist[2 * ackcount] := sn;
      acklist[2 * ackcount + 1] := ts;
      ackcount := ackcount + 1;
      PairsAppend(before, acklist[..], n);
    }

    // -------------------------------------------------------------- data in

    /** `ikcp_parse_data` */
    method ParseData(seg: Segment)
      requires Counted()
      modifies `rcvQueue, `nrcvQue, `rcvBuf, `nrcvBuf, `rcvNxt
      ensures Counted()
      ensures Rcv() == KcpSpec.ParseData(old(Rcv()), cfg.rcvWnd, seg)
    {
      hide Diff, U32, Drain;
      var sn := seg.sn;
      if Diff(sn, U32(rcvNxt + cfg.rcvWnd)) >= 0 || Diff(sn, rcvNxt) < 0 {
        return;
      }
      var p, repeated := |rcvBuf|, false;
      while p > 0
        invariant 0 <= p <= |rcvBuf| && !repeated
        invariant SearchBack(rcvBuf, sn, p) == SearchBack(rcvBuf, sn, |rcvBuf|)
      {
        var other := rcvBuf[p - 1];
        if other.sn == sn {
          repeated := true;
          break;
        }
        if Diff(sn, other.sn) > 0 {
          break;
        }
        p := p - 1;
      }
      if !repeated {
        rcvBuf := rcvBuf[..p] + [seg] + rcvBuf[p..];
        nrcvBuf := nrcvBuf + 1;
      }
      MoveAvailable();
    }

    method HearUna(una: uint32)
      requires Counted() && Fit(sndBuf)
      modifies `sndBuf, `nsndBuf, `sndUna
      ensures Counted() && Fit(sndBuf)
      ensures Snd() == Shrink(KcpSpec.ParseUna(old(Snd()), una))
    {
      hide KcpSpec.ParseUna, Shrink;
      ParseUna(una);
      ShrinkBuf();
    }

    /** An acknowledgement segment. */
    method TakeAck(sn: uint32, ts: uint32)
      requires Counted() && Fit(sndBuf)
      modifies `sndBuf, `nsndBuf, `sndUna, `rxSrtt, `rxRttval, `rxRto
      ensures Counted() && Fit(sndBuf)
      ensures Snd() == Shrink(KcpSpec.ParseAck(old(Snd()), sn))
      ensures Rx() == if Diff(current, ts) >= 0 then KcpSpec.UpdateAck(old(Rx()), cfg, Diff(current, ts)) else old(Rx())
    {
      hide KcpSpec.UpdateAck, KcpSpec.ParseAck, Shrink, Diff;
      if Diff(current, ts) >= 0 {
        UpdateAck(Diff(current, ts));
      }
      ParseAck(sn);
      ShrinkBuf();
    }

    /** A data segment. */
    method TakePush(w: Wire)
      requires Counted() && AcksOk()
      modifies `rcvQueue, `nrcvQue, `rcvBuf, `nrcvBuf, `rcvNxt, `acklist, `ackcount, `ackblock, acklist
      ensures Counted() && AcksOk() && (acklist == old(acklist) || fresh(acklist))
      ensures Rcv() == AcceptPush(old(Rcv()), cfg.rcvWnd, w)
      ensures Acks() == QueueAck(old(Acks()), old(Rcv()), cfg.rcvWnd, w)
    {
      hide KcpSpec.ParseData, Diff, U32, Pairs;
      if Diff(w.sn, U32(rcvNxt + cfg.rcvWnd)) < 0 {
        AckPush(w.sn, w.ts);
        if Diff(w.sn, rcvNxt) >= 0 {
          ParseData(FromWire(w));
        }
      }
    }

    /** One round of the loop of `ikcp_input`, once the segment has been read, part by part. */
    method Act(w: Wire)
      requires Valid()
      modifies `rmtWnd, `sndBuf, `nsndBuf, `sndUna, `rxSrtt, `rxRttval, `rxRto, `askTell
      modifies `rcvQueue, `nrcvQue, `rcvBuf, `nrcvBuf, `rcvNxt, `acklist, `ackcount, `ackblock, acklist
      ensures Valid() && (acklist == old(acklist) || fresh(acklist))
      ensures rmtWnd == w.wnd && askTell == (old(askTell) || w.cmd == CMD_WASK)
      ensures Snd() == HearAck(old(Snd()), w)
      ensures Rx() == if w.cmd == CMD_ACK && Diff(current, w.ts) >= 0
                      then KcpSpec.UpdateAck(old(Rx()), cfg, Diff(current, w.ts)) else old(Rx())
      ensures w.cmd == CMD_PUSH ==>
                && Rcv() == AcceptPush(old(Rcv()), cfg.rcvWnd, w)
                && Acks() == QueueAck(old(Acks()), old(Rcv()), cfg.rcvWnd, w)
      ensures w.cmd != CMD_PUSH ==> Rcv() == old(Rcv()) && Acks() == old(Acks())
    {
      hide KcpSpec.UpdateAck, KcpSpec.ParseAck, KcpSpec.ParseUna, Shrink, Diff, AcceptPush, QueueAck, Pairs, Fit;
      hide Rx, Snd, Rcv;
      HearUna(w.una);
      rmtWnd := w.wnd;
      if w.cmd == CMD_ACK {
        TakeAck(w.sn, w.ts);
      } else if w.cmd == CMD_PUSH {
        TakePush(w);
      } else if w.cmd == CMD_WASK {
        askTell := true;
      }
    }

    /** All parts together. */
    method Process(w: Wire)
      requires Valid()
      modifies `rmtWnd, `sndBuf, `nsndBuf, `sndUna, `rxSrtt, `rxRttval, `rxRto, `askTell
      modifies `rcvQueue, `nrcvQue, `rcvBuf, `nrcvBuf, `rcvNxt, `acklist, `ackcount, `ackblock, acklist
      ensures Valid() && (acklist == old(acklist) || fresh(acklist))
      ensures Value() == KcpSpec.Process(old(Value()), w)
    {
      hide KcpSpec.UpdateAck, HearAck, Diff, AcceptPush, QueueAck, Fit, Rx, Snd, Rcv, Acks, KcpSpec.Process;
      ghost var s := Value();
      Act(w);
      ProcessParts(s, Value(), w);
    }

    /** The loop of `ikcp_input`: the result, and the largest acknowledged number if there was one. */
    method InputLoop(data: bytes) returns (r: int, flag: bool, maxack: uint32)
      requires Valid()
      modifies `rmtWnd, `sndBuf, `nsndBuf, `sndUna, `rxSrtt, `rxRttval, `rxRto, `askTell
      modifies `rcvQueue, `nrcvQue, `rcvBuf, `nrcvBuf, `rcvNxt, `acklist, `ackcount, `ackblock, acklist
      ensures Valid() && (acklist == old(acklist) || fresh(acklist))
      ensures var p := Parse(cfg.conv, data);
              && r == p.code && Value() == ProcessRun(old(Value()), p.ws, |p.ws|)
              && (r == 0 ==> NoteRun(p.ws, |p.ws|) == if flag then MaxAck(maxack) else NoAck)
    {
      hide Parse, Decode, DecodeConv, DecodeLen, KcpSpec.Process, ProcessRun, NoteRun, Diff, Counted, Fit;
      hide Acks, Snd, Rcv, Rx, Cc, Clock, Probing, Value;
      ghost var s, p, n := Value(), Parse(cfg.conv, data), 0;
      var pos, size := 0, |data|;
      r, flag, maxack := 0, false, 0;
      RunStarts(s, p.ws);
      assert data[0..] == data && p.ws[0..] == p.ws;
      while size >= OVERHEAD
        invariant 0 <= pos <= |data| && size == |data| - pos
        invariant 0 <= n <= |p.ws| && Parse(cfg.conv, data[pos..]) == Parsed(p.ws[n..], p.code)
        invariant Valid() && (acklist == old(acklist) || fresh(acklist))
        invariant Value() == ProcessRun(s, p.ws, n)
        invariant NoteRun(p.ws, n) == if flag then MaxAck(maxack) else NoAck
        decreases size
      {
        var seg := data[pos..];
        ParseFront(cfg.conv, seg, p.ws, n, p.code);
        if DecodeConv(seg) != cfg.conv {
          r := -1;
          return;
        }
        size := size - OVERHEAD;
        if size < DecodeLen(seg) {
          r := -2;
          return;
        }
        if !KnownCommand(seg[4]) {
          r := -3;
          return;
        }
        var w := Decode(seg);
        RunStep(s, p.ws, n);
        Process(w);
        if w.cmd == CMD_ACK {
          if !flag {
            flag, maxack := true, w.sn;
          } else if Diff(w.sn, maxack) > 0 {
            maxack := w.sn;
          }
        }
        assert seg[OVERHEAD + |w.data|..] == data[pos + OVERHEAD + |w.data|..];
        pos := pos + OVERHEAD + |w.data|;
        size := size - |w.data|;
        n := n + 1;
      }
      ParseEnd(cfg.conv, data[pos..], p.ws, n, p.code);
    }

    /** The growth of the congestion window at the end of `ikcp_input`. */
    method GrowWindow()
      modifies `cwnd, `incr
      ensures Cc() == Grow(old(Cc()), cfg.mss)
    {
      hide U32;
      if cwnd < rmtWnd {
        var mss: int := cfg.mss;
        if cwnd < ssthresh {
          cwnd := U32(cwnd + 1);
          incr := U32(incr + mss);
        } else {
          if incr < mss {
            incr := mss;
          }
          incr := U32(incr + U32(mss * mss) / incr + mss / 16);
          if U32(U32(cwnd + 1) * mss) <= incr {
            cwnd := U32(cwnd + 1);
          }
        }
        if cwnd > rmtWnd {
          cwnd := rmtWnd;
          incr := U32(rmtWnd * mss);
        }
      }
    }

    /** `ikcp_input` */
    method Input(data: bytes) returns (r: int)
      requires Valid()
      modifies `rmtWnd, `sndBuf, `nsndBuf, `sndUna, `rxSrtt, `rxRttval, `rxRto, `askTell, `cwnd, `incr
      modifies `rcvQueue, `nrcvQue, `rcvBuf, `nrcvBuf, `rcvNxt, `acklist, `ackcount, `ackblock, acklist
      ensures Valid() && (acklist == old(acklist) || fresh(acklist))
      ensures (Value(), r) == KcpSpec.Input(old(Value()), data)
    {
      hide Parse, ProcessRun, NoteRun, Diff, Counted, Fit, KcpSpec.ParseFastack, Grow, I32, Rcv, Rx, Clock, Probing,
           Acks;
      var una := sndUna;
      if I32(|data|) < OVERHEAD {
        return -1;
      }
      var flag, maxack;
      r, flag, maxack := InputLoop(data);
      if r == 0 {
        Finish(flag, maxack, una);
      }
    }

    /** What follows the loop. */
    method Finish(flag: bool, maxack: uint32, una: uint32)
      requires Valid()
      modifies `sndBuf, `cwnd, `incr
      ensures Valid()
      ensures Value() == AfterInput(old(Value()), if flag then MaxAck(maxack) else NoAck, una)
    {
      hide Diff, KcpSpec.ParseFastack, Grow, Rcv, Rx, Clock, Probing, Acks;
      if flag {
        ParseFastack(maxack);
      }
      if Diff(sndUna, una) > 0 {
        GrowWindow();
      }
    }

    // -------------------------------------------------------------- flush

    /** The segments `ws` have been written: full datagrams are sent, and the rest is in the buffer
        up to `ptr`. */
    ghost predicate Written(base: seq<bytes>, ws: seq<Wire>, ptr: nat)
      reads `sent, buffer
    {
      var o := PutAll(Outbox([], []), ws, |ws|, cfg.Mtu());
      ptr <= cfg.Mtu() <= buffer.Length && sent == base + o.sent && buffer[..ptr] == o.pending
    }

    /** `ikcp_output`: the callback gets the front of the buffer. */
    method Output(size: nat)
      requires size <= buffer.Length
      modifies `sent
      ensures sent == if size == 0 then old(sent) else old(sent) + [buffer[..size]]
    {
      if size == 0 {
        return;
      }
      sent := sent + [buffer[..size]];
    }

    /** Writes one segment, after sending what is there if it would pass the mtu. */
    method Emit(ptr: nat, seg: Segment, ghost base: seq<bytes>, ghost ws: seq<Wire>) returns (next: nat)
      requires |seg.data| <= cfg.mss && cfg.Mtu() <= buffer.Length && Written(base, ws, ptr)
      modifies `sent, buffer
      ensures Written(base, ws + [ToWire(seg)], next)
    {
      hide PutAll, EncodeHeader;
      PutOne(ws, ToWire(seg), cfg.Mtu());
      ghost var o, header := PutAll(Outbox([], []), ws, |ws|, cfg.Mtu()), EncodeHeader(ToWire(seg));
      assert base + (o.sent + [o.pending]) == (base + o.sent) + [o.pending];
      assert [] + header == header && (o.pending + header) + seg.data == o.pending + (header + seg.data);
      var size, need := ptr, OVERHEAD + |seg.data|;
      next := ptr;
      if size + need > cfg.Mtu() {
        Output(size);
        next := 0;
      }
      next := EncodeSeg(buffer, next, seg);
      Memcpy(buffer, next, seg.data);
      next := next + |seg.data|;
    }

    /** The acknowledgements. */
    method FlushAcks(control: Segment, ghost s: State, ghost base: seq<bytes>) returns (ptr: nat, seg: Segment)
      requires AcksOk() && Acks() == s.acks && cfg.Mtu() <= buffer.Length && sent == base
      requires control == ControlSegment(s, CMD_ACK, Ack(0, 0))
      modifies `sent, buffer
      ensures Written(base, AckWires(s, |s.acks|), ptr)
      ensures seg == ControlSegment(s, CMD_ACK, LastAck(s))
    {
      hide PutAll, ToWire, WndUnused, Pairs;
      ptr, seg := 0, control;
      var count, i := ackcount, 0;
      WrittenNothing(base);
      while i < count
        invariant 0 <= i <= count && Acks() == s.acks
        invariant Written(base, AckWires(s, i), ptr)
        invariant seg == ControlSegment(s, CMD_ACK, if i == 0 then Ack(0, 0) else s.acks[i - 1])
      {
        var sn, ts := AckGet(i);
        seg := seg.(sn := sn, ts := ts);
        AckWiresNext(s, i);
        ptr := Emit(ptr, seg, base, AckWires(s, i));
        i := i + 1;
      }
    }

    /** `ikcp_ack_get` */
    method AckGet(p: nat) returns (sn: uint32, ts: uint32)
      requires AcksOk() && p < ackcount
      ensures Ack(sn, ts) == Acks()[p]
    {
      sn, ts := acklist[2 * p], acklist[2 * p + 1];
    }

    lemma WrittenNothing(base: seq<bytes>)
      requires sent == base && cfg.Mtu() <= buffer.Length
      ensures Written(base, [], 0)
    {
    }

    /** Window probing while the remote window is closed. */
    method ProbeWindow()
      modifies `tsProbe, `probeWait, `askSend
      ensures Probing() == ProbeTimer(old(Probing()), rmtWnd, current)
    {
      hide U32, Diff;
      if rmtWnd == 0 {
        if probeWait == 0 {
          probeWait := PROBE_INIT;
          tsProbe := U32(current + probeWait);
        } else if Diff(current, tsProbe) >= 0 {
          if probeWait < PROBE_INIT {
            probeWait := PROBE_INIT;
          }
          probeWait := U32(probeWait + probeWait / 2);
          if probeWait > PROBE_LIMIT {
            probeWait := PROBE_LIMIT;
          }
          tsProbe := U32(current + probeWait);
          askSend := true;
        }
      } else {
        tsProbe := 0;
        probeWait := 0;
      }
    }

    /** The probe segments. */
    method FlushProbes(ptr: nat, control: Segment, ghost s: State, ghost base: seq<bytes>, ghost ws: seq<Wire>)
      returns (next: nat)
      requires cfg.Mtu() <= buffer.Length && Written(base, ws, ptr)
      requires control == ControlSegment(s, CMD_ACK, LastAck(s))
      modifies `sent, buffer, `askSend, `askTell
      ensures Written(base, ws + ProbeWires(s, old(Probing())), next)
      ensures !askSend && !askTell
    {
      hide PutAll, ToWire, WndUnused, Written;
      ghost var done, last := ws, LastAck(s);
      var seg := control;
      next := ptr;
      if askSend {
        seg := seg.(cmd := CMD_WASK);
        ControlIsWire(s, CMD_WASK, last);
        next := Emit(next, seg, base, done);
        done := done + [Control(s, CMD_WASK, last)];
      }
      if askTell {
        seg := seg.(cmd := CMD_WINS);
        ControlIsWire(s, CMD_WINS, last);
        next := Emit(next, seg, base, done);
        done := done + [Control(s, CMD_WINS, last)];
      }
      assert done == ws + ProbeWires(s, Probing());
      askSend, askTell := false, false;
    }

    /** Moves the first queued segment to the send buffer. */
    method AdmitOne(wnd: uint32, ghost s: State)
      requires Counted() && Fit(sndQueue) && Fit(sndBuf) && sndQueue != []
      requires cfg == s.cfg && Rcv() == s.rcv && Rx() == s.rtt && Clock() == s.timer && wnd == WndUnused(s)
      modifies `sndQueue, `sndBuf, `nsndQue, `nsndBuf, `sndNxt
      ensures Counted() && Fit(sndQueue) && Fit(sndBuf)
      ensures var o := old(Snd());
              Snd() == Sender(o.una, U32(o.nxt + 1), o.queue[1..], o.buf + [Number(s, o.queue[0], o.nxt)])
    {
      hide U32, Number, WndUnused;
      var seg := sndQueue[0];
      sndQueue := sndQueue[1..];
      nsndQue := nsndQue - 1;
      nsndBuf := nsndBuf + 1;
      NumberIs(s, seg, sndNxt);
      seg := seg.(conv := cfg.conv, cmd := CMD_PUSH, wnd := wnd, ts := current, sn := sndNxt, una := rcvNxt,
                  resendts := current, rto := U32(rxRto), fastack := 0, xmit := 0);
      sndBuf := sndBuf + [seg];
      sndNxt := U32(sndNxt + 1);
    }

    /** Moves segments from the queue into the send window. */
    method AdmitQueued(cwnd: uint32, wnd: uint32, ghost s: State)
      requires Counted() && Fit(sndQueue) && Fit(sndBuf)
      requires cfg == s.cfg && Rcv() == s.rcv && Rx() == s.rtt && Clock() == s.timer && wnd == WndUnused(s)
      modifies `sndQueue, `sndBuf, `nsndQue, `nsndBuf, `sndNxt
      ensures Counted() && Fit(sndQueue) && Fit(sndBuf)
      ensures Snd() == Admit(s, old(Snd()), cwnd)
    {
      hide Diff, U32, Admit, AdmitCount, Number, WndUnused, Admitted, Fits, Fit, Rcv, Rx, Clock;
      ghost var snd, n := Snd(), 0;
      AdmitStart(s, snd, cwnd);
      while Diff(sndNxt, U32(sndUna + cwnd)) < 0
        invariant 0 <= n <= |snd.queue| && Snd() == Admitted(s, snd, n)
        invariant Counted() && Fit(sndQueue) && Fit(sndBuf)
        invariant AdmitCount(snd, cwnd, n) == AdmitCount(snd, cwnd)
        decreases |sndQueue|
      {
        AdmitStep(s, snd, cwnd, n);
        if sndQueue == [] {
          break;
        }
        AdmitOne(wnd, s);
        n := n + 1;
      }
      AdmitStep(s, snd, cwnd, n);
      AdmitEnd(s, snd, cwnd);
    }

    /** What the flush does to one segment of the send buffer, and why it is to be sent. */
    method Mark(seg: Segment, wnd: uint32, resent: uint32, rtomin: nat, ghost s: State)
      returns (out: Segment, why: Reason)
      requires cfg == s.cfg && Rcv() == s.rcv && Rx() == s.rtt && Clock() == s.timer
      requires wnd == WndUnused(s) && resent == cfg.Resent() && rtomin == RtoMin(s)
      modifies `xmit
      ensures why == Due(s, seg) && out == Transmit(s, seg)
      ensures xmit == if why == Timeout then U32(old(xmit) + 1) else old(xmit)
    {
      hide Diff, U32, WndUnused, RtoMin;
      out, why := seg, Keep;
      if seg.xmit == 0 {
        why := First;
        out := out.(xmit := U32(out.xmit + 1), rto := U32(rxRto));
        out := out.(resendts := U32(current + out.rto + rtomin));
      } else if Diff(current, seg.resendts) >= 0 {
        why := Timeout;
        out := out.(xmit := U32(out.xmit + 1));
        xmit := U32(xmit + 1);
        if !cfg.nodelay {
          out := out.(rto := U32(out.rto + rxRto));
        } else {
          out := out.(rto := U32(out.rto + rxRto / 2));
        }
        out := out.(resendts := U32(current + out.rto));
      } else if seg.fastack >= resent {
        why := Fast;
        out := out.(xmit := U32(out.xmit + 1), fastack := 0, resendts := U32(current + out.rto));
      }
      if why != Keep {
        out := out.(ts := current, wnd := wnd, una := rcvNxt);
      }
    }

    /** What the loop over the send buffer knows after the first `n` segments. */
    ghost predicate Progress(p: Pass, n: nat, lost: bool, change: nat, ptr: nat)
      requires n <= |p.b|
      reads `sndBuf, `xmit, `dead, `sent, buffer
    {
      && sndBuf == Touched(p.s, p.b, n)
      && xmit == U32(p.xmit + CountDue(p.s, p.b, n, Timeout))
      && lost == (CountDue(p.s, p.b, n, Timeout) > 0)
      && change == CountDue(p.s, p.b, n, Fast)
      && dead == (p.dead || LinkDead(p.s, p.b, n))
      && Written(p.base, p.ws + DataWires(p.s, p.b, n), ptr)
    }

    /** One round of the loop over the send buffer. */
    method FlushSegment(n: nat, ptr: nat, lost: bool, change: nat, wnd: uint32, resent: uint32, rtomin: nat,
                        ghost p: Pass)
      returns (next: nat, lost': bool, change': nat)
      requires cfg.Mtu() <= buffer.Length && Fit(p.b)
      requires n < |p.b| && Progress(p, n, lost, change, ptr)
      requires cfg == p.s.cfg && Rcv() == p.s.rcv && Rx() == p.s.rtt && Clock() == p.s.timer
      requires wnd == WndUnused(p.s) && resent == cfg.Resent() && rtomin == RtoMin(p.s)
      modifies `sndBuf, `xmit, `dead, `sent, buffer
      ensures Progress(p, n + 1, lost', change', next)
    {
      hide WndUnused, RtoMin, Due, Transmit, Written, CountDue, DataWires, LinkDead, U32, Touched, ToWire, Rcv, Rx,
           Clock;
      TouchStep(p.s, p.b, n, p.xmit);
      next, lost', change' := ptr, lost, change;
      var seg, why := Mark(sndBuf[n], wnd, resent, rtomin, p.s);
      sndBuf := sndBuf[n := seg];
      if why == Timeout {
        lost' := true;
      } else if why == Fast {
        change' := change' + 1;
      }
      if why != Keep {
        MoveWire(p.ws, DataWires(p.s, p.b, n), ToWire(seg));
        next := Emit(next, seg, p.base, p.ws + DataWires(p.s, p.b, n));
        if seg.xmit >= cfg.deadLink {
          dead := true;
        }
      }
    }

    /** The loop over the send buffer. */
    method FlushData(ptr: nat, wnd: uint32, resent: uint32, rtomin: nat,
                     ghost s: State, ghost base: seq<bytes>, ghost ws: seq<Wire>)
      returns (next: nat, lost: bool, change: nat)
      requires cfg == s.cfg && Rcv() == s.rcv && Rx() == s.rtt && Clock() == s.timer
      requires wnd == WndUnused(s) && resent == cfg.Resent() && rtomin == RtoMin(s)
      requires cfg.Mtu() <= buffer.Length && Written(base, ws, ptr) && Fit(sndBuf)
      modifies `sndBuf, `xmit, `dead, `sent, buffer
      ensures Fit(sndBuf)
      ensures var b := old(sndBuf);
              && sndBuf == TransmitAll(s, b)
              && xmit == U32(old(xmit) + CountDue(s, b, |b|, Timeout))
              && lost == (CountDue(s, b, |b|, Timeout) > 0)
              && change == CountDue(s, b, |b|, Fast)
              && dead == (old(dead) || LinkDead(s, b, |b|))
              && Written(base, ws + DataWires(s, b, |b|), next)
    {
      hide WndUnused, RtoMin, Due, Transmit, Written, CountDue, DataWires, LinkDead, U32, Touched, Rcv, Rx, Clock;
      ghost var p := Pass(s, sndBuf, base, ws, xmit, dead);
      next, lost, change := ptr, false, 0;
      TouchNone(s, p.b, xmit, ws);
      var n := 0;
      while n < |sndBuf|
        invariant n <= |p.b| == |sndBuf|
        invariant Progress(p, n, lost, change, next)
      {
        next, lost, change := FlushSegment(n, next, lost, change, wnd, resent, rtomin, p);
        n := n + 1;
      }
      TouchDone(s, p.b);
    }

    /** Acknowledgements and probes. */
    method FlushControl(wnd: uint32, ghost s: State, ghost base: seq<bytes>) returns (ptr: nat)
      requires AcksOk() && Acks() == s.acks && Probing() == s.probe && Rcv() == s.rcv && Clock() == s.timer
      requires cfg == s.cfg && Cc() == s.cc && wnd == WndUnused(s)
      requires cfg.Mtu() <= buffer.Length && sent == base
      modifies `ackcount, `tsProbe, `probeWait, `askSend, `askTell, `sent, buffer
      ensures ackcount == 0
      ensures Probing() == FlushProbe(s).(askSend := false, askTell := false)
      ensures Written(base, AckWires(s, |s.acks|) + ProbeWires(s, FlushProbe(s)), ptr)
    {
      hide WndUnused, AckWires, ProbeWires, Written, Pairs, ProbeTimer, Acks;
      var control := Segment(cfg.conv, CMD_ACK, 0, wnd, 0, 0, rcvNxt, [], 0, 0, 0, 0);
      var seg;
      ptr, seg := FlushAcks(control, s, base);
      ackcount := 0;
      ProbeWindow();
      ptr := FlushProbes(ptr, seg, s, base, AckWires(s, |s.acks|));
    }

    /** The congestion window at the end of `ikcp_flush`. */
    method UpdateThresh(window: uint32, resent: uint32, change: bool, lost: bool, ghost s: State)
      requires cfg == s.cfg && Cc() == s.cc && resent == cfg.Resent()
      modifies `ssthresh, `cwnd, `incr
      ensures Cc() == Backoff(s, Snd(), window, change, lost)
    {
      hide U32;
      var mss: int := cfg.mss;
      if change {
        var inflight := U32(sndNxt - sndUna);
        ssthresh := inflight / 2;
        if ssthresh < THRESH_MIN {
          ssthresh := THRESH_MIN;
        }
        cwnd := U32(ssthresh + resent);
        incr := U32(cwnd * mss);
      }
      if lost {
        ssthresh := window / 2;
        if ssthresh < THRESH_MIN {
          ssthresh := THRESH_MIN;
        }
        cwnd := 1;
        incr := mss;
      }
      if cwnd < 1 {
        cwnd := 1;
        incr := mss;
      }
    }

    /** Data segments and the last datagram. */
    method FlushQueue(start: nat, wnd: uint32, ghost s: State, ghost base: seq<bytes>, ghost ws: seq<Wire>)
      returns (window: uint32, lost: bool, change: nat)
      requires Counted() && Fit(sndQueue) && Fit(sndBuf) && cfg.Mtu() <= buffer.Length
      requires cfg == s.cfg && Rcv() == s.rcv && Rx() == s.rtt && Clock() == s.timer && Cc() == s.cc && Snd() == s.snd
      requires wnd == WndUnused(s) && Written(base, ws, start)
      modifies `sndQueue, `sndBuf, `nsndQue, `nsndBuf, `sndNxt, `xmit, `dead, `sent, buffer
      ensures Counted() && Fit(sndQueue) && Fit(sndBuf) && window == FlushWindow(s)
      ensures var snd := FlushSender(s);
              var n := |snd.buf|;
              && Snd() == snd.(buf := TransmitAll(s, snd.buf))
              && xmit == U32(old(xmit) + CountDue(s, snd.buf, n, Timeout))
              && lost == (CountDue(s, snd.buf, n, Timeout) > 0)
              && change == CountDue(s, snd.buf, n, Fast)
              && dead == (old(dead) || LinkDead(s, snd.buf, n))
              && sent == base + Datagrams(ws + DataWires(s, snd.buf, n), cfg.Mtu())
    {
      hide WndUnused, Due, Transmit, CountDue, DataWires, LinkDead, U32, Admit, TransmitAll, PutAll, Rcv, Clock, Fit;
      window := Min(cfg.sndWnd, rmtWnd);
      if !cfg.nocwnd {
        window := Min(cwnd, window);
      }
      AdmitQueued(window, wnd, s);
      var resent := if cfg.fastresend > 0 then U32(cfg.fastresend) else NO_RESEND;
      var rtomin := if !cfg.nodelay then rxRto / 8 else 0;
      var ptr;
      ptr, lost, change := FlushData(start, wnd, resent, rtomin, s, base, ws);
      FinishDatagrams(base, PutAll(Outbox([], []), ws + DataWires(s, FlushSender(s).buf, |FlushSender(s).buf|),
                                   |ws + DataWires(s, FlushSender(s).buf, |FlushSender(s).buf|)|, cfg.Mtu()));
      var size := ptr;
      if size > 0 {
        Output(size);
      }
    }

    /** All that follows the control segments. */
    method FlushRest(start: nat, wnd: uint32, ghost s: State, ghost base: seq<bytes>, ghost ws: seq<Wire>)
      requires Counted() && Fit(sndQueue) && Fit(sndBuf) && cfg.Mtu() <= buffer.Length
      requires cfg == s.cfg && Rcv() == s.rcv && Rx() == s.rtt && Clock() == s.timer && Cc() == s.cc && Snd() == s.snd
      requires xmit == s.xmit && dead == s.dead
      requires wnd == WndUnused(s) && Written(base, ws, start)
      modifies `sndQueue, `sndBuf, `nsndQue, `nsndBuf, `sndNxt, `xmit, `dead, `ssthresh, `cwnd, `incr, `sent, buffer
      ensures Counted() && Fit(sndQueue) && Fit(sndBuf)
      ensures FlushedData(s, Snd(), Cc(), xmit, dead)
      ensures sent == base + Datagrams(ws + DataWires(s, FlushSender(s).buf, |FlushSender(s).buf|), cfg.Mtu())
    {
      hide WndUnused, CountDue, DataWires, LinkDead, U32, TransmitAll, Written, Datagrams;
      hide Fit, Rcv, Rx, Clock, Counted, FlushSender, FlushWindow, Backoff;
      var window, lost, change := FlushQueue(start, wnd, s, base, ws);
      var resent := if cfg.fastresend > 0 then U32(cfg.fastresend) else NO_RESEND;
      UpdateThresh(window, resent, change > 0, lost, s);
      SameBackoff(s, FlushSender(s), window, change > 0, lost);
    }

    /** A flush that is not refused. */
    method FlushUpdated()
      requires Valid() && updated
      modifies `ackcount, `tsProbe, `probeWait, `askSend, `askTell, `sndQueue, `sndBuf, `nsndQue, `nsndBuf, `sndNxt
      modifies `xmit, `dead, `ssthresh, `cwnd, `incr, `sent, buffer
      ensures Valid()
      ensures Value() == KcpSpec.Flush(old(Value())).0 && sent == old(sent) + KcpSpec.Flush(old(Value())).1
    {
      hide WndUnused, DataWires, U32, TransmitAll, Pairs, Written, FlushProbe, AckWires, ProbeWires, FlushedData;
      hide Fit, Rcv, Rx, Snd, Cc, Probing, FlushSender, Datagrams, KcpSpec.Flush;
      ghost var s, base := Value(), sent;
      ghost var control := AckWires(s, |s.acks|) + ProbeWires(s, FlushProbe(s));
      var wnd := FreeWindow(s);
      var ptr := FlushControl(wnd, s, base);
      FlushRest(ptr, wnd, s, base, control);
      FlushParts(s, Value());
      FlushSends(s);
    }

    /** `ikcp_flush` */
    method Flush()
      requires Valid()
      modifies `ackcount, `tsProbe, `probeWait, `askSend, `askTell, `sndQueue, `sndBuf, `nsndQue, `nsndBuf, `sndNxt
      modifies `xmit, `dead, `ssthresh, `cwnd, `incr, `sent, buffer
      ensures Valid()
      ensures Value() == KcpSpec.Flush(old(Value())).0 && sent == old(sent) + KcpSpec.Flush(old(Value())).1
    {
      hide KcpSpec.Flush, Fit, Counted, Pairs;
      if !updated {
        FlushNothing(Value());
        return;
      }
      FlushUpdated();
    }

    /** `ikcp_wnd_unused` */
    method FreeWindow(ghost s: State) returns (wnd: uint32)
      requires Counted() && cfg == s.cfg && Rcv() == s.rcv
      ensures wnd == WndUnused(s)
    {
      if nrcvQue < cfg.rcvWnd {
        return cfg.rcvWnd - nrcvQue;
      }
      return 0;
    }

    // -------------------------------------------------------------- clock

    /** The clock part of `ikcp_update`: whether a flush follows. */
    method Schedule(now: uint32) returns (flush: bool)
      modifies `current, `tsFlush, `updated
      ensures Clock() == NextTimer(old(Clock()), now, cfg.interval) && flush == UpdateFlushes(old(Clock()), now)
    {
      hide Diff, U32;
      current := now;
      if !updated {
        updated := true;
        tsFlush := current;
      }
      var slap := Diff(current, tsFlush);
      if slap >= 10000 || slap < -10000 {
        tsFlush := current;
        slap := 0;
      }
      if slap >= 0 {
        tsFlush := U32(tsFlush + cfg.interval);
        if Diff(current, tsFlush) >= 0 {
          tsFlush := U32(current + cfg.interval);
        }
      }
      return slap >= 0;
    }

    /** `ikcp_update` */
    method Update(now: uint32)
      requires Valid()
      modifies `current, `tsFlush, `updated
      modifies `ackcount, `tsProbe, `probeWait, `askSend, `askTell, `sndQueue, `sndBuf, `nsndQue, `nsndBuf, `sndNxt
      modifies `xmit, `dead, `ssthresh, `cwnd, `incr, `sent, buffer
      ensures Valid()
      ensures Value() == KcpSpec.Update(old(Value()), now).0 && sent == old(sent) + KcpSpec.Update(old(Value()), now).1
    {
      hide KcpSpec.Flush, Fit, Counted, Pairs, NextTimer, UpdateFlushes, Rcv, Rx, Snd, Cc, Probing;
      var flush := Schedule(now);
      if flush {
        Flush();
      }
    }

    /** `ikcp_check` */
    method Check(now: uint32) returns (time: uint32)
      requires AcksOk()
      ensures time == KcpSpec.Check(Value(), now)
    {
      hide Diff, U32, Acks;
      var due := tsFlush;
      if !updated {
        return now;
      }
      if Diff(now, due) >= 10000 || Diff(now, due) < -10000 {
        due := now;
        DiffSelf(now);
      }
      if Diff(now, due) >= 0 {
        return now;
      }
      var tmFlush, tmPacket, p := Diff(due, now), 0x7fff_ffff, 0;
      while p < |sndBuf|
        invariant 0 <= p <= |sndBuf| && tmPacket == PacketTime(sndBuf, p, now) && tmPacket > 0
      {
        var diff := Diff(sndBuf[p].resendts, now);
        if diff <= 0 {
          PacketStays(sndBuf, p + 1, |sndBuf|, now);
          return now;
        }
        if diff < tmPacket {
          tmPacket := diff;
        }
        p := p + 1;
      }
      var minimal := U32(if tmPacket < tmFlush then tmPacket else tmFlush);
      if minimal >= cfg.interval {
        minimal := cfg.interval;
      }
      return U32(now + minimal);
    }
  }

  /** The C library's copy. */
  method Memcpy(dst: array<byte>, at: nat, src: bytes)
    requires at + |src| <= dst.Length
    modifies dst
    ensures dst[..at + |src|] == old(dst[..at]) + src
    ensures dst[at + |src|..] == old(dst[at + |src|..])
  {
    forall k | 0 <= k < |src| {
      dst[at + k] := src[k];
    }
  }

  lemma MergeStep(q: seq<Segment>, i: nat)
    requires i < |q|
    ensures i + 1 <= MergeCount(q, i)
    ensures MergeCount(q, i) == if q[i].frg == 0 then i + 1 else MergeCount(q, i + 1)
  {
  }

  lemma MergeEnd(q: seq<Segment>)
    ensures MergeCount(q, |q|) == |q|
  {
  }

  lemma JoinNothing(q: seq<Segment>)
    ensures Join(q, 0) == []
  {
  }

  lemma JoinNext(q: seq<Segment>, n: nat)
    requires n < |q|
    ensures Join(q, n + 1) == Join(q, n) + q[n].data
  {
  }

  lemma {:induction false} JoinGrows(q: seq<Segment>, i: nat, n: nat)
    requires i <= n <= |q|
    ensures |Join(q, i)| <= |Join(q, n)|
  {
    if i < n {
      JoinGrows(q, i, n - 1);
    }
  }

  /** The receiving side after the first `i` segments of the reorder buffer have been moved. */
  function Moved(r: Receiver, i: nat): Receiver
    requires i <= |r.buf|
  {
    Receiver(U32(r.nxt + i), r.queue + r.buf[..i], r.buf[i..])
  }

  lemma MoveOne(r: Receiver, i: nat)
    requires i <= |r.buf|
    ensures var m := Moved(r, i);
            && m.nxt == U32(r.nxt + i) && |m.queue| == |r.queue| + i && |m.buf| == |r.buf| - i
            && (i < |r.buf| ==>
                 && m.buf[0] == r.buf[i]
                 && Moved(r, i + 1) == Receiver(U32(m.nxt + 1), m.queue + [r.buf[i]], m.buf[1..]))
  {
    U32Shift(r.nxt + i, 1);
  }

  lemma DrainMoves(r: Receiver, wnd: posint)
    ensures Drain(r, wnd) == Moved(r, RunLength(r.buf, r.nxt, Max(wnd - |r.queue|, 0)))
  {
  }

  lemma NextInLine(r: Receiver, room: nat, i: nat)
    requires i <= |r.buf| && i <= room
    ensures i < |r.buf| && i < room && r.buf[i].sn == U32(r.nxt + i) ==>
              RunLength(r.buf, r.nxt, room, i) == RunLength(r.buf, r.nxt, room, i + 1)
    ensures !(i < |r.buf| && i < room && r.buf[i].sn == U32(r.nxt + i)) ==> RunLength(r.buf, r.nxt, room, i) == i
    ensures i == 0 ==> Moved(r, 0) == r
  {
  }

  lemma ProcessParts(s: State, t: State, w: Wire)
    requires t == s.(snd := HearAck(s.snd, w), rtt := t.rtt, rcv := t.rcv, acks := t.acks, cc := t.cc, probe := t.probe)
    requires t.cc == s.cc.(rmtWnd := w.wnd)
    requires t.probe == s.probe.(askTell := s.probe.askTell || w.cmd == CMD_WASK)
    requires t.rtt == if w.cmd == CMD_ACK && Diff(s.timer.current, w.ts) >= 0
                      then UpdateAck(s.rtt, s.cfg, Diff(s.timer.current, w.ts)) else s.rtt
    requires w.cmd == CMD_PUSH ==>
               t.rcv == AcceptPush(s.rcv, s.cfg.rcvWnd, w) && t.acks == QueueAck(s.acks, s.rcv, s.cfg.rcvWnd, w)
    requires w.cmd != CMD_PUSH ==> t.rcv == s.rcv && t.acks == s.acks
    ensures t == Process(s, w)
  {
    hide HearAck, UpdateAck, AcceptPush, QueueAck, Diff;
  }

  lemma RunStarts(s: State, ws: seq<Wire>)
    ensures ProcessRun(s, ws, 0) == s && NoteRun(ws, 0) == NoAck
  {
  }

  lemma RunStep(s: State, ws: seq<Wire>, n: nat)
    requires n < |ws|
    ensures ProcessRun(s, ws, n + 1) == KcpSpec.Process(ProcessRun(s, ws, n), ws[n])
    ensures NoteRun(ws, n + 1) == NoteAck(NoteRun(ws, n), ws[n])
  {
    hide KcpSpec.Process, NoteAck;
  }

  /** What the next segment, or its fault, means for the segments that are still to be read. */
  lemma ParseFront(conv: uint32, rest: bytes, ws: seq<Wire>, n: nat, code: int)
    requires n <= |ws| && |rest| >= OVERHEAD && Parse(conv, rest) == Parsed(ws[n..], code)
    ensures DecodeConv(rest) != conv ==> n == |ws| && code == -1
    ensures DecodeConv(rest) == conv ==>
              if |rest| - OVERHEAD < DecodeLen(rest) then n == |ws| && code == -2
              else if !KnownCommand(rest[4]) then n == |ws| && code == -3
              else
                var w := Decode(rest);
                && n < |ws| && ws[n] == w && w.cmd == rest[4] && |w.data| == DecodeLen(rest)
                && Parse(conv, rest[OVERHEAD + |w.data|..]) == Parsed(ws[n + 1..], code)
  {
    hide DecodeConv, DecodeLen, KnownCommand;
    if DecodeConv(rest) == conv && |rest| - OVERHEAD >= DecodeLen(rest) && KnownCommand(rest[4]) {
      var w := Decode(rest);
      var p := Parse(conv, rest[OVERHEAD + |w.data|..]);
      assert ws[n..] == [w] + p.ws;
      assert ws[n..][0] == w && ws[n..][1..] == p.ws;
    }
  }

  lemma ParseEnd(conv: uint32, rest: bytes, ws: seq<Wire>, n: nat, code: int)
    requires n <= |ws| && |rest| < OVERHEAD && Parse(conv, rest) == Parsed(ws[n..], code)
    ensures n == |ws| && code == 0
  {
  }

  /** The assertion in `ikcp_recv`: what is merged is as long as what was announced. */
  lemma PeekIsMerged(q: seq<Segment>)
    requires KcpSpec.PeekSize(q) >= 0
    ensures |Join(q, MergeCount(q))| == KcpSpec.PeekSize(q)
  {
    if q[0].frg == 0 {
      assert Last(q, 0);
      JoinNext(q, 0);
      JoinNothing(q);
    }
  }

  /** A control segment before it is encoded. */
  function ControlSegment(s: State, cmd: byte, ack: Ack): Segment {
    Segment(s.cfg.conv, cmd, 0, WndUnused(s), ack.ts, ack.sn, s.rcv.nxt, [], 0, 0, 0, 0)
  }

  function LastAck(s: State): Ack {
    if s.acks == [] then Ack(0, 0) else s.acks[|s.acks| - 1]
  }

  lemma ControlIsWire(s: State, cmd: byte, ack: Ack)
    ensures ToWire(ControlSegment(s, cmd, ack)) == Control(s, cmd, ack)
  {
  }

  lemma AckWiresNext(s: State, i: nat)
    requires i < |s.acks|
    ensures AckWires(s, i + 1) == AckWires(s, i) + [ToWire(ControlSegment(s, CMD_ACK, s.acks[i]))]
  {
  }

  lemma PutOne(ws: seq<Wire>, w: Wire, mtu: nat)
    ensures PutAll(Outbox([], []), ws + [w], |ws| + 1, mtu)
         == Put(PutAll(Outbox([], []), ws, |ws|, mtu), Encode(w), mtu)
  {
    hide Encode;
    PutPrefix(ws, w, |ws|, mtu);
  }

  lemma {:induction false} PutPrefix(ws: seq<Wire>, w: Wire, n: nat, mtu: nat)
    requires n <= |ws|
    ensures PutAll(Outbox([], []), ws + [w], n, mtu) == PutAll(Outbox([], []), ws, n, mtu)
  {
    hide Encode;
    if n > 0 {
      PutPrefix(ws, w, n - 1, mtu);
    }
  }

  // ---------------------------------------------------------------- encoding

  method Encode8u(buf: array<byte>, p: nat, c: byte) returns (q: nat)
    requires p + 1 <= buf.Length
    modifies buf
    ensures q == p + 1 && buf[..q] == old(buf[..p]) + [c]
  {
    buf[p] := c;
    return p + 1;
  }

  method Encode16u(buf: array<byte>, p: nat, w: uint16) returns (q: nat)
    requires p + 2 <= buf.Length
    modifies buf
    ensures q == p + 2 && buf[..q] == old(buf[..p]) + Encode16(w)
  {
    buf[p] := w % 0x100;
    buf[p + 1] := w / 0x100;
    return p + 2;
  }

  method Encode32u(buf: array<byte>, p: nat, l: uint32) returns (q: nat)
    requires p + 4 <= buf.Length
    modifies buf
    ensures q == p + 4 && buf[..q] == old(buf[..p]) + Encode32(l)
  {
    buf[p] := l % 0x100;
    buf[p + 1] := l / 0x100 % 0x100;
    buf[p + 2] := l / 0x1_0000 % 0x100;
    buf[p + 3] := l / 0x100_0000;
    return p + 4;
  }

  /** `ikcp_encode_seg` */
  method EncodeSeg(buf: array<byte>, p: nat, seg: Segment) returns (q: nat)
    requires p + OVERHEAD <= buf.Length
    modifies buf
    ensures q == p + OVERHEAD && buf[..q] == old(buf[..p]) + EncodeHeader(ToWire(seg))
  {
    hide Encode16, Encode32, U32;
    q := Encode32u(buf, p, seg.conv);
    q := Encode8u(buf, q, seg.cmd % 0x100);
    q := Encode8u(buf, q, seg.frg % 0x100);
    q := Encode16u(buf, q, seg.wnd % 0x1_0000);
    q := Encode32u(buf, q, seg.ts);
    q := Encode32u(buf, q, seg.sn);
    q := Encode32u(buf, q, seg.una);
    q := Encode32u(buf, q, U32(|seg.data|));
  }

  /** The sending side after `n` segments have been moved. */
  function Admitted(s: State, snd: Sender, n: nat): Sender
    requires n <= |snd.queue|
  {
    Sender(snd.una, U32(snd.nxt + n), snd.queue[n..], snd.buf + Numbered(s, snd, n))
  }

  lemma AdmitStart(s: State, snd: Sender, cwnd: uint32)
    ensures Admitted(s, snd, 0) == snd
  {
    assert snd.buf + Numbered(s, snd, 0) == snd.buf;
  }

  lemma AdmitStep(s: State, snd: Sender, cwnd: uint32, n: nat)
    requires n <= |snd.queue|
    ensures var a := Admitted(s, snd, n);
            && a.una == snd.una && a.queue == snd.queue[n..]
            && (Diff(a.nxt, U32(a.una + cwnd)) < 0 && n < |snd.queue| ==>
                 && AdmitCount(snd, cwnd, n + 1) == AdmitCount(snd, cwnd, n)
                 && Admitted(s, snd, n + 1)
                    == Sender(a.una, U32(a.nxt + 1), a.queue[1..], a.buf + [Number(s, a.queue[0], a.nxt)]))
            && (!(Diff(a.nxt, U32(a.una + cwnd)) < 0 && n < |snd.queue|) ==> AdmitCount(snd, cwnd, n) == n)
  {
    hide Diff, Number;
    if n < |snd.queue| {
      U32Shift(snd.nxt + n, 1);
      hide U32;
      assert Numbered(s, snd, n + 1) == Numbered(s, snd, n) + [Number(s, snd.queue[n], U32(snd.nxt + n))];
    }
  }

  lemma AdmitEnd(s: State, snd: Sender, cwnd: uint32)
    ensures Admit(s, snd, cwnd) == Admitted(s, snd, AdmitCount(snd, cwnd))
  {
    hide AdmitCount, Numbered;
  }

  lemma NumberIs(s: State, seg: Segment, sn: uint32)
    ensures Number(s, seg, sn)
         == seg.(conv := s.cfg.conv, cmd := CMD_PUSH, wnd := WndUnused(s), ts := s.timer.current, sn := sn,
                 una := s.rcv.nxt, resendts := s.timer.current, rto := U32(s.rtt.rto), fastack := 0, xmit := 0)
  {
  }

  /** The send buffer after the flush has looked at its first `n` segments. */
  function Touched(s: State, b: seq<Segment>, n: nat): (t: seq<Segment>)
    requires n <= |b|
    ensures |t| == |b|
  {
    seq(|b|, i requires 0 <= i < |b| => if i < n then Transmit(s, b[i]) else b[i])
  }

  lemma TouchNone(s: State, b: seq<Segment>, xmit: uint32, ws: seq<Wire>)
    ensures Touched(s, b, 0) == b && U32(xmit + CountDue(s, b, 0, Timeout)) == xmit && !LinkDead(s, b, 0)
    ensures CountDue(s, b, 0, Timeout) == 0 == CountDue(s, b, 0, Fast) && ws + DataWires(s, b, 0) == ws
  {
    hide Due, Transmit;
  }

  lemma TouchDone(s: State, b: seq<Segment>)
    ensures Touched(s, b, |b|) == TransmitAll(s, b)
    ensures forall i :: 0 <= i < |b| ==> |TransmitAll(s, b)[i].data| == |b[i].data|
  {
  }

  lemma TouchStep(s: State, b: seq<Segment>, n: nat, xmit: uint32)
    requires n < |b|
    ensures Touched(s, b, n)[n] == b[n]
    ensures Touched(s, b, n + 1) == Touched(s, b, n)[n := Transmit(s, b[n])]
    ensures |Transmit(s, b[n]).data| == |b[n].data|
    ensures forall why :: CountDue(s, b, n + 1, why) == CountDue(s, b, n, why) + (if Due(s, b[n]) == why then 1 else 0)
    ensures U32(U32(xmit + CountDue(s, b, n, Timeout)) + 1) == U32(xmit + (CountDue(s, b, n, Timeout) + 1))
    ensures DataWires(s, b, n + 1) == if Due(s, b[n]) == Keep then DataWires(s, b, n)
                                      else DataWires(s, b, n) + [ToWire(Transmit(s, b[n]))]
    ensures LinkDead(s, b, n + 1)
        <==> LinkDead(s, b, n) || (Due(s, b[n]) != Keep && Transmit(s, b[n]).xmit >= s.cfg.deadLink)
  {
    TransmitLength(s, b[n]);
    hide Due, Transmit;
    U32Shift(xmit + CountDue(s, b, n, Timeout), 1);
  }

  lemma TransmitLength(s: State, seg: Segment)
    ensures |Transmit(s, seg).data| == |seg.data|
  {
  }

  lemma MoveWire(a: seq<Wire>, b: seq<Wire>, w: Wire)
    ensures a + (b + [w]) == (a + b) + [w]
  {
  }

  lemma FinishDatagrams(base: seq<bytes>, o: Outbox)
    ensures base + FlushPending(o) == if o.pending == [] then base + o.sent else (base + o.sent) + [o.pending]
  {
    assert base + (o.sent + [o.pending]) == (base + o.sent) + [o.pending];
  }

  lemma FlushNothing(s: State)
    requires !s.timer.updated
    ensures KcpSpec.Flush(s) == (s, [])
  {
  }

  lemma SameBackoff(s: State, snd: Sender, window: uint32, change: bool, lost: bool)
    ensures Backoff(s, snd.(buf := TransmitAll(s, snd.buf)), window, change, lost)
         == Backoff(s, snd, window, change, lost)
  {
    hide TransmitAll;
  }

  /** The sending side, the window and the counters after the data part of a flush. */
  ghost predicate FlushedData(s: State, out: Sender, cc: Congestion, xmit: uint32, dead: bool) {
    var snd := FlushSender(s);
    var n := |snd.buf|;
    var lost, change := CountDue(s, snd.buf, n, Timeout), CountDue(s, snd.buf, n, Fast);
    && out == snd.(buf := TransmitAll(s, snd.buf))
    && cc == Backoff(s, snd, FlushWindow(s), change > 0, lost > 0)
    && xmit == U32(s.xmit + lost)
    && dead == (s.dead || LinkDead(s, snd.buf, n))
  }

  lemma FlushParts(s: State, t: State)
    requires s.timer.updated
    requires t.cfg == s.cfg && t.rcv == s.rcv && t.rtt == s.rtt && t.timer == s.timer && t.acks == []
    requires t.probe == FlushProbe(s).(askSend := false, askTell := false)
    requires FlushedData(s, t.snd, t.cc, t.xmit, t.dead)
    ensures t == KcpSpec.Flush(s).0
  {
    hide CountDue, LinkDead, U32, TransmitAll, FlushProbe, FlushSender, FlushWindow, Datagrams, FlushWires, Backoff;
  }

  lemma FlushSends(s: State)
    requires s.timer.updated
    ensures var b := FlushSender(s).buf;
            KcpSpec.Flush(s).1
            == Datagrams(AckWires(s, |s.acks|) + ProbeWires(s, FlushProbe(s)) + DataWires(s, b, |b|), s.cfg.Mtu())
  {
    hide CountDue, DataWires, LinkDead, U32, TransmitAll, FlushProbe, AckWires, ProbeWires, FlushSender, FlushWindow,
         Datagrams, Backoff;
  }

  lemma {:induction false} PacketStays(buf: seq<Segment>, p: nat, n: nat, now: uint32)
    requires p <= n <= |buf| && PacketTime(buf, p, now) == 0
    ensures PacketTime(buf, n, now) == 0
  {
    hide Diff;
    if p < n {
      PacketStays(buf, p, n - 1, now);
    }
  }

  lemma NoneLeft(q: seq<Segment>, rest: bytes, mss: payload, stream: bool)
    ensures q + Cut(rest, mss, 0, stream) == q
  {
  }

  lemma CutHead(data: bytes, mss: payload, count: nat, stream: bool)
    requires 0 < count <= 256
    ensures var size := if |data| > mss then mss else |data|;
            Cut(data, mss, count, stream)
            == [NewSegment(if stream then 0 else count - 1, data[..size])] + Cut(data[size..], mss, count - 1, stream)
  {
    if |data| <= mss {
      assert data[..|data|] == data && data[|data|..] == [];
    }
  }
}
