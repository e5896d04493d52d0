/**
 One endpoint on its own: whatever is called on it and whatever bytes arrive, in any order, from
 `ikcp_create` on.
 */
module KcpRuns {
  import opened Serial
  import opened KcpWire
  import opened KcpSpec
  import opened KcpSender
  import opened KcpReceiver

  datatype Op = Send(data: bytes) | Recv(len: int) | Input(datagram: bytes) | Flush | Update(now: uint32)

  function Apply(s: State, op: Op): State {
    match op
    case Send(data) => KcpSpec.Send(s, data).0
    case Recv(len) => KcpSpec.Recv(s, len).0
    case Input(datagram) => KcpSpec.Input(s, datagram).0
    case Flush => KcpSpec.Flush(s).0
    case Update(now) => KcpSpec.Update(s, now).0
  }

  /** The state after the first `n` calls. */
  function After(cfg: Config, ops: seq<Op>, n: nat): State
    requires n <= |ops|
  {
    if n == 0 then Create(cfg) else Apply(After(cfg, ops, n - 1), ops[n - 1])
  }

  /** Both sides well formed, for some unwrapped `snd_una`, `snd_nxt` and `rcv_nxt`. */
  ghost predicate Sound(s: State, U: int, S: int, R: int) {
    SenderOk(s.snd, U, S, s.cfg.sndWnd) && ReceiverOk(s.rcv, R, s.cfg.rcvWnd)
  }

  lemma ProcessKeeps(s: State, w: Wire, U: int, S: int, R: int) returns (U': int, R': int)
    requires Sound(s, U, S, R)
    ensures U <= U' && Sound(Process(s, w), U', S, R')
    ensures 0 <= R' - R == |Process(s, w).rcv.queue| - |s.rcv.queue|
  {
    hide SenderOk, ReceiverOk, HearAck, AcceptPush, QueueAck, UpdateAck;
    U' := HearAckKeeps(s.snd, U, S, s.cfg.sndWnd, w);
    R' := R;
    if w.cmd == CMD_PUSH {
      R' := AcceptPushKeeps(s.rcv, R, s.cfg.rcvWnd, w);
    }
  }

  lemma {:induction false} ProcessRunKeeps(s: State, ws: seq<Wire>, n: nat, U: int, S: int, R: int)
    returns (U': int, R': int)
    requires n <= |ws| && Sound(s, U, S, R)
    ensures U <= U' && Sound(ProcessRun(s, ws, n), U', S, R')
    ensures 0 <= R' - R == |ProcessRun(s, ws, n).rcv.queue| - |s.rcv.queue|
  {
    hide Sound, Process;
    U', R' := U, R;
    if n > 0 {
      U', R' := ProcessRunKeeps(s, ws, n - 1, U, S, R);
      U', R' := ProcessKeeps(ProcessRun(s, ws, n - 1), ws[n - 1], U', S, R');
    }
  }

  lemma AfterInputKeeps(s: State, m: MaxAck, una: uint32, U: int, S: int, R: int)
    requires Sound(s, U, S, R)
    ensures Sound(AfterInput(s, m, una), U, S, R) && AfterInput(s, m, una).rcv == s.rcv
  {
    hide SenderOk, ReceiverOk, ParseFastack, Grow;
    if m.MaxAck? {
      ParseFastackKeeps(s.snd, U, S, s.cfg.sndWnd, m.sn);
    }
  }

  /** Arbitrary bytes, whatever `ikcp_input` returns for them; `rcv_nxt` moves forward by as many segments
      as the queue gains, which is at most a window. */
  lemma InputKeeps(s: State, datagram: bytes, U: int, S: int, R: int) returns (U': int, R': int)
    requires Sound(s, U, S, R)
    ensures U <= U' && Sound(KcpSpec.Input(s, datagram).0, U', S, R')
    ensures 0 <= R' - R == |KcpSpec.Input(s, datagram).0.rcv.queue| - |s.rcv.queue| <= s.cfg.rcvWnd
    ensures Dist(s.rcv.nxt, KcpSpec.Input(s, datagram).0.rcv.nxt) == R' - R
  {
    hide Sound, Parse, ProcessRun, AfterInput, NoteRun;
    U', R' := U, R;
    if I32(|datagram|) >= OVERHEAD {
      var p := Parse(s.cfg.conv, datagram);
      var run := ProcessRun(s, p.ws, |p.ws|);
      U', R' := ProcessRunKeeps(s, p.ws, |p.ws|, U, S, R);
      AfterInputKeeps(run, NoteRun(p.ws, |p.ws|), s.snd.una, U', S, R');
    }
    SoundQueue(s, U, S, R);
    SoundQueue(KcpSpec.Input(s, datagram).0, U', S, R');
    InputSameConfig(s, datagram);
    NextDistance(R, R', s.cfg.rcvWnd);
  }

  lemma SoundQueue(s: State, U: int, S: int, R: int)
    requires Sound(s, U, S, R)
    ensures |s.rcv.queue| <= s.cfg.rcvWnd && s.rcv.nxt == U32(R)
  {
  }

  lemma FlushKeeps(s: State, U: int, S: int, R: int) returns (S': int)
    requires Sound(s, U, S, R)
    ensures S <= S' && Sound(KcpSpec.Flush(s).0, U, S', R)
  {
    S' := FlushSenderKeeps(s, U, S);
    hide SenderOk, ReceiverOk, FlushSender, TransmitAll, LinkDead, CountDue, Backoff, FlushWires, Datagrams;
  }

  lemma RecvKeeps(s: State, len: int, U: int, S: int, R: int) returns (R': int)
    requires Sound(s, U, S, R)
    ensures R <= R' <= R + s.cfg.rcvWnd && Sound(KcpSpec.Recv(s, len).0, U, S, R')
  {
    hide SenderOk, ReceiverOk, RecvCheck, AfterRecv, Join, MergeCount;
    R' := R;
    if RecvCheck(s.rcv.queue, len) >= 0 {
      R' := AfterRecvKeeps(s.rcv, R, len < 0, s.cfg.rcvWnd);
    }
  }

  lemma SendKeeps(s: State, data: bytes, U: int, S: int, R: int)
    requires Sound(s, U, S, R)
    ensures Sound(KcpSpec.Send(s, data).0, U, S, R)
  {
    hide SendQueue, ReceiverOk;
  }

  lemma SoundOrder(s: State, U: int, S: int, R: int)
    requires Sound(s, U, S, R)
    ensures U <= S <= U + s.cfg.sndWnd && s.snd.una == U32(U) && s.snd.nxt == U32(S)
  {
  }

  /** Every operation keeps both sides well formed and moves no number backwards: `snd_una` at most to
      the `snd_nxt` before the call, `rcv_nxt` by at most a window. */
  lemma ApplyKeeps(s: State, op: Op, U: int, S: int, R: int) returns (U': int, S': int, R': int)
    requires Sound(s, U, S, R)
    ensures U <= U' <= S <= S' && R <= R' <= R + s.cfg.rcvWnd && Sound(Apply(s, op), U', S', R')
  {
    hide SenderOk, ReceiverOk, KcpSpec.Send, KcpSpec.Recv, KcpSpec.Input, KcpSpec.Flush;
    U', S', R' := U, S, R;
    SoundOrder(s, U, S, R);
    match op
    case Send(data) => SendKeeps(s, data, U, S, R);
    case Recv(len) => R' := RecvKeeps(s, len, U, S, R);
    case Input(datagram) =>
      U', R' := InputKeeps(s, datagram, U, S, R);
      SoundOrder(KcpSpec.Input(s, datagram).0, U', S, R');
    case Flush => S' := FlushKeeps(s, U, S, R);
    case Update(now) =>
      var t := s.(timer := NextTimer(s.timer, now, s.cfg.interval));
      S' := FlushKeeps(t, U, S, R);
      if !UpdateFlushes(s.timer, now) {
        S' := S;
      }
  }

  lemma ApplySameConfig(s: State, op: Op)
    ensures Apply(s, op).cfg == s.cfg
  {
    hide SendQueue, RecvCheck, AfterRecv, Parse, ProcessRun, AfterInput, FlushSender, TransmitAll, LinkDead, CountDue,
         Backoff, FlushWires, Datagrams;
    if op.Input? {
      hide KcpSpec.Send, KcpSpec.Recv, KcpSpec.Flush;
      InputSameConfig(s, op.datagram);
    }
  }

  lemma InputSameConfig(s: State, datagram: bytes)
    ensures KcpSpec.Input(s, datagram).0.cfg == s.cfg
  {
    hide Parse, ProcessRun, NoteRun, Grow, ParseFastack;
  }

  lemma {:induction false} AfterSound(cfg: Config, ops: seq<Op>, n: nat) returns (U: int, S: int, R: int)
    requires n <= |ops|
    ensures After(cfg, ops, n).cfg == cfg && Sound(After(cfg, ops, n), U, S, R)
  {
    hide Sound, Apply;
    if n == 0 {
      U, S, R := 0, 0, 0;
      CreateSound(cfg);
    } else {
      U, S, R := AfterSound(cfg, ops, n - 1);
      U, S, R := ApplyKeeps(After(cfg, ops, n - 1), ops[n - 1], U, S, R);
      ApplySameConfig(After(cfg, ops, n - 1), ops[n - 1]);
    }
  }

  lemma CreateSound(cfg: Config)
    ensures Sound(Create(cfg), 0, 0, 0)
  {
  }

  // ---------------------------------------------------------------- as the code sees it

  /** How far past `base` the number of the segment at position `i` is. */
  function Offset(base: uint32, buf: seq<Segment>, i: nat): nat
    requires i < |buf|
  {
    Dist(base, buf[i].sn)
  }

  /** Increasing numbers without duplicates, all fewer than `width` past `base`. */
  ghost predicate Increasing(base: uint32, buf: seq<Segment>, width: int) {
    && (forall i :: 0 <= i < |buf| ==> Offset(base, buf, i) < width)
    && (forall i, j :: 0 <= i < j < |buf| ==> Offset(base, buf, i) < Offset(base, buf, j))
  }

  /** The send buffer increases inside [snd_una, snd_nxt), at most `snd_wnd` numbers wide, and
      `snd_una` is its first number, or `snd_nxt` if it is empty. */
  ghost predicate SenderShape(s: State) {
    var snd := s.snd;
    && Dist(snd.una, snd.nxt) <= s.cfg.sndWnd
    && Increasing(snd.una, snd.buf, Dist(snd.una, snd.nxt))
    && snd.una == if snd.buf == [] then snd.nxt else snd.buf[0].sn
  }

  /** The reorder buffer increases inside [rcv_nxt, rcv_nxt + rcv_wnd), neither it nor the queue is
      longer than the window, and its first number is not `rcv_nxt` unless the queue is full. */
  ghost predicate ReceiverShape(s: State) {
    var rcv := s.rcv;
    && Increasing(rcv.nxt, rcv.buf, s.cfg.rcvWnd)
    && |rcv.queue| <= s.cfg.rcvWnd && |rcv.buf| <= s.cfg.rcvWnd
    && (rcv.buf != [] && rcv.buf[0].sn == rcv.nxt ==> |rcv.queue| == s.cfg.rcvWnd)
  }

  lemma OffsetIsKey(base: int, buf: seq<Segment>, i: nat)
    requires i < |buf|
    ensures Key(base, buf, i) == base + Offset(U32(base), buf, i)
  {
  }

  lemma SortedIncreases(base: int, buf: seq<Segment>, limit: int)
    requires Sorted(base, buf, limit)
    ensures Increasing(U32(base), buf, limit - base)
  {
    hide Key, Offset;
    forall i | 0 <= i < |buf| ensures Key(base, buf, i) == base + Offset(U32(base), buf, i) {
      OffsetIsKey(base, buf, i);
    }
  }

  lemma SenderSeen(s: State, U: int, S: int)
    requires SenderOk(s.snd, U, S, s.cfg.sndWnd)
    ensures SenderShape(s)
  {
    hide Increasing, Sorted, U32, Dist, Unwrap;
    SortedIncreases(U, s.snd.buf, S);
    WidthIs(U, S);
    if s.snd.buf != [] {
      UnwrapWraps(U, s.snd.buf[0].sn);
    }
  }

  lemma WidthIs(U: int, S: int)
    requires U <= S < U + TWO32
    ensures Dist(U32(U), U32(S)) == S - U
  {
    UnwrapInverts(U, S);
  }

  lemma ReceiverSeen(s: State, R: int)
    requires ReceiverOk(s.rcv, R, s.cfg.rcvWnd)
    ensures ReceiverShape(s)
  {
    SortedIncreases(R, s.rcv.buf, R + s.cfg.rcvWnd);
    BufferFits(s.rcv, R, s.cfg.rcvWnd);
    hide Increasing, Sorted;
  }

  /** The invariants of the two sides hold in every reachable state of an endpoint. */
  lemma ReachableShape(cfg: Config, ops: seq<Op>, n: nat)
    requires n <= |ops|
    ensures SenderShape(After(cfg, ops, n)) && ReceiverShape(After(cfg, ops, n))
  {
    var U, S, R := AfterSound(cfg, ops, n);
    hide SenderShape, ReceiverShape, SenderOk, ReceiverOk, After;
    SenderSeen(After(cfg, ops, n), U, S);
    ReceiverSeen(After(cfg, ops, n), R);
  }

  /** In wrapping 32-bit terms too, none of the three numbers moves backwards, `snd_una` never past the
      `snd_nxt` that was there before the call, and `rcv_nxt` by at most a window. */
  lemma NumbersMoveForward(cfg: Config, ops: seq<Op>, n: nat)
    requires n < |ops|
    ensures var s, t := After(cfg, ops, n), After(cfg, ops, n + 1);
            && Diff(t.snd.una, s.snd.una) >= 0
            && Diff(s.snd.nxt, t.snd.una) >= 0
            && Diff(t.snd.nxt, t.snd.una) >= 0
            && 0 <= Diff(t.rcv.nxt, s.rcv.nxt) <= cfg.rcvWnd
            && 0 <= Diff(t.snd.nxt, s.snd.nxt) <= cfg.sndWnd
  {
    hide Sound, Apply, U32, Diff;
    var s := After(cfg, ops, n);
    var t := Apply(s, ops[n]);
    var U, S, R := AfterSound(cfg, ops, n);
    var U', S', R' := ApplyKeeps(s, ops[n], U, S, R);
    SoundOrder(s, U, S, R);
    SoundOrder(t, U', S', R');
    DiffOfIndices(U', U);
    DiffOfIndices(S, U');
    DiffOfIndices(S', U');
    DiffOfIndices(S', S);
    ApplySameConfig(s, ops[n]);
    SoundQueue(s, U, S, R);
    SoundQueue(t, U', S', R');
    NextDistance(R, R', cfg.rcvWnd);
  }
}
