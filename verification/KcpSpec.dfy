/**
 The KCP endpoint as a value, and what each operation of `ikcp.c` does to it. The class in
 `Kcp.dfy` is proved to compute exactly these functions; the other KCP modules prove what the
 functions achieve.
 */
module KcpSpec {
  import opened Numbers
  import opened Serial
  import opened KcpWire

  const RTO_MAX := 60000
  const RTO_DEF := 200
  const THRESH_MIN: uint32 := 2
  const PROBE_INIT: uint32 := 7000
  const PROBE_LIMIT: uint32 := 120000
  const NO_RESEND: uint32 := 0xffff_ffff

  /** A C `int` that is above zero: a payload limit or a window. */
  type posint = x: int | 0 < x < 0x8000_0000 witness 32

  /** The payload limit, from `mtu - IKCP_OVERHEAD` for an `int` mtu above the overhead. */
  type payload = x: int | 0 < x < 0x7fff_ffe8 witness 1376

  /** What is set before the first send and then left alone. */
  datatype Config = Config(conv: uint32, mss: payload, sndWnd: posint, rcvWnd: posint,
                           stream: bool, nodelay: bool, fastresend: nat, nocwnd: bool,
                           interval: uint32, minRto: nat, deadLink: uint32)
  {
    function Mtu(): nat { mss + OVERHEAD }
    function Resent(): uint32 { if fastresend > 0 then U32(fastresend) else NO_RESEND }
  }

  datatype Segment = Segment(conv: uint32, cmd: uint32, frg: uint32, wnd: uint32, ts: uint32,
                             sn: uint32, una: uint32, data: bytes,
                             resendts: uint32, rto: uint32, fastack: uint32, xmit: uint32)

  datatype Ack = Ack(sn: uint32, ts: uint32)
  datatype Sender = Sender(una: uint32, nxt: uint32, queue: seq<Segment>, buf: seq<Segment>)
  datatype Receiver = Receiver(nxt: uint32, queue: seq<Segment>, buf: seq<Segment>)
  datatype Rtt = Rtt(srtt: int, rttval: int, rto: nat)
  datatype Congestion = Congestion(cwnd: uint32, incr: uint32, ssthresh: uint32, rmtWnd: uint32)
  datatype Timer = Timer(current: uint32, tsFlush: uint32, updated: bool)
  datatype Probe = Probe(askSend: bool, askTell: bool, ts: uint32, wait: uint32)

  datatype State = State(cfg: Config, snd: Sender, rcv: Receiver, acks: seq<Ack>, rtt: Rtt,
                         cc: Congestion, timer: Timer, probe: Probe, xmit: uint32, dead: bool)

  /** `ikcp_create`, with the settings that the caller makes right after it. */
  function Create(cfg: Config): State {
    State(cfg, Sender(0, 0, [], []), Receiver(0, [], []), [], Rtt(0, 0, RTO_DEF),
          Congestion(0, 0, THRESH_MIN, 32), Timer(0, 100, false), Probe(false, false, 0, 0), 0, false)
  }

  /** A segment as `ikcp_send` leaves it: only the fragment number and the payload are set. */
  function NewSegment(frg: uint32, data: bytes): Segment {
    Segment(0, 0, frg, 0, 0, 0, 0, data, 0, 0, 0, 0)
  }

  /** A segment as `ikcp_input` makes it. */
  function FromWire(w: Wire): Segment {
    Segment(w.conv, w.cmd, w.frg, w.wnd, w.ts, w.sn, w.una, w.data, 0, 0, 0, 0)
  }

  /** A segment as `ikcp_encode_seg` writes it, with the narrow fields cut to their width. */
  function ToWire(s: Segment): Wire {
    Wire(s.conv, s.cmd % 0x100, s.frg % 0x100, s.wnd % 0x1_0000, s.ts, s.sn, s.una, s.data)
  }

  /** The payloads of the first `n` segments, joined. */
  function Join(q: seq<Segment>, n: nat): bytes
    requires n <= |q|
  {
    if n == 0 then [] else Join(q, n - 1) + q[n - 1].data
  }

  // ---------------------------------------------------------------- send

  function Front(data: bytes, n: nat): bytes { if |data| > n then data[..n] else data }
  function Rest(data: bytes, n: nat): bytes { if |data| > n then data[n..] else [] }

  /** How many fragments a buffer of length `len` is cut into. */
  function FragmentCount(len: nat, mss: payload): nat {
    if len <= mss then 1 else (len + mss - 1) / mss
  }

  /** The fragments that the loop of `ikcp_send` still has to append. */
  function Cut(data: bytes, mss: payload, count: nat, stream: bool): seq<Segment>
    requires count <= 256
    decreases count
  {
    if count == 0 then []
    else [NewSegment(if stream then 0 else count - 1, Front(data, mss))]
         + Cut(Rest(data, mss), mss, count - 1, stream)
  }

  /** Stream mode tops up the last queued segment first: the new queue and what is left over. */
  function TopUp(queue: seq<Segment>, data: bytes, mss: payload): (seq<Segment>, bytes) {
    if queue == [] || |queue[|queue| - 1].data| >= mss then (queue, data)
    else
      var last := queue[|queue| - 1];
      var capacity := mss - |last.data|;
      (queue[..|queue| - 1] + [NewSegment(0, last.data + Front(data, capacity))],
       Rest(data, capacity))
  }

  function SendQueue(cfg: Config, queue: seq<Segment>, data: bytes): (seq<Segment>, int) {
    var (q, d) := if cfg.stream then TopUp(queue, data, cfg.mss) else (queue, data);
    if cfg.stream && d == [] then (q, 0)
    else
      var count := FragmentCount(|d|, cfg.mss);
      if count > 255 then (q, -2)
      else (q + Cut(d, cfg.mss, count, cfg.stream), 0)
  }

  function Send(s: State, data: bytes): (State, int) {
    var (q, r) := SendQueue(s.cfg, s.snd.queue, data);
    (s.(snd := s.snd.(queue := q)), r)
  }

  // ---------------------------------------------------------------- receive

  /** Whether a segment ends its message. */
  predicate Last(q: seq<Segment>, i: nat)
    requires i < |q|
  {
    q[i].frg == 0
  }

  /** How many queued segments one `ikcp_recv` merges: up to the first one from position `i` on
      that has fragment number 0. */
  function MergeCount(q: seq<Segment>, i: nat := 0): (n: nat)
    requires i <= |q|
    ensures i <= n <= |q|
    ensures forall j :: i <= j < n - 1 ==> !Last(q, j)
    ensures i < n < |q| ==> Last(q, n - 1)
    decreases |q| - i
  {
    if i == |q| then i else if Last(q, i) then i + 1 else MergeCount(q, i + 1)
  }

  function PeekSize(q: seq<Segment>): int {
    if q == [] then -1
    else if q[0].frg == 0 then |q[0].data|
    else if |q| < q[0].frg + 1 then -1
    else |Join(q, MergeCount(q))|
  }

  predicate InOrder(buf: seq<Segment>, nxt: uint32, i: nat)
    requires i < |buf|
  {
    buf[i].sn == U32(nxt + i)
  }

  /** How many segments from the front of the reorder buffer are next in order, `room` at most. */
  function RunLength(buf: seq<Segment>, nxt: uint32, room: nat, i: nat := 0): (n: nat)
    requires i <= |buf| && i <= room
    ensures i <= n <= |buf| && n <= room
    ensures forall j :: i <= j < n ==> InOrder(buf, nxt, j)
    ensures n < |buf| && n < room ==> !InOrder(buf, nxt, n)
    decreases |buf| - i
  {
    if i < |buf| && i < room && InOrder(buf, nxt, i) then RunLength(buf, nxt, room, i + 1) else i
  }

  /** Moving what has become in order from the reorder buffer to the queue. */
  function Drain(r: Receiver, wnd: posint): Receiver {
    var n := RunLength(r.buf, r.nxt, Max(wnd - |r.queue|, 0));
    Receiver(U32(r.nxt + n), r.queue + r.buf[..n], r.buf[n..])
  }

  /** Whether a call of `ikcp_recv` with length `len` succeeds, and its result if it does not. */
  function RecvCheck(q: seq<Segment>, len: int): int {
    if q == [] then -1
    else
      var peek := PeekSize(q);
      if peek < 0 then -2
      else if peek > (if len < 0 then -len else len) then -3
      else peek
  }

  /** A successful `ikcp_recv` takes one message off the queue, unless it only peeks. */
  function Popped(r: Receiver, peek: bool): (p: Receiver)
    ensures p.nxt == r.nxt && p.buf == r.buf && |p.queue| <= |r.queue|
  {
    if peek then r else r.(queue := r.queue[MergeCount(r.queue)..])
  }

  /** Then, also after a peek, it moves what is in order from the reorder buffer. */
  function AfterRecv(r: Receiver, peek: bool, wnd: posint): Receiver {
    Drain(Popped(r, peek), wnd)
  }

  /** The new state, the result and the bytes handed to the caller. */
  function Recv(s: State, len: int): (State, int, bytes) {
    var check := RecvCheck(s.rcv.queue, len);
    if check < 0 then (s, check, [])
    else
      var out := Join(s.rcv.queue, MergeCount(s.rcv.queue));
      var rcv := AfterRecv(s.rcv, len < 0, s.cfg.rcvWnd);
      var tell := |rcv.queue| < s.cfg.rcvWnd <= |s.rcv.queue|;
      (s.(rcv := rcv, probe := if tell then s.probe.(askTell := true) else s.probe), |out|, out)
  }

  // ---------------------------------------------------------------- acknowledgements in

  /** C's division, which truncates toward zero. */
  function TruncDiv(a: int, b: posint): int {
    if a >= 0 then a / b else -((-a) / b)
  }

  function Bound(lower: uint32, middle: uint32, upper: uint32): uint32 {
    Min(Max(lower, middle), upper)
  }

  /** `ikcp_update_ack`, with 32-bit products that wrap. */
  function UpdateAck(r: Rtt, cfg: Config, rtt: int): Rtt {
    var srtt, rttval :=
      if r.srtt == 0 then rtt else Max(1, TruncDiv(I32(I32(7 * r.srtt) + rtt), 8)),
      if r.srtt == 0 then TruncDiv(rtt, 2)
      else
        var delta := I32(rtt - r.srtt);
        I32(TruncDiv(I32(3 * r.rttval) + (if delta < 0 then -delta else delta), 4));
    var rto := U32(srtt + Max(cfg.interval, U32(4 * rttval)));
    Rtt(srtt, rttval, Bound(U32(cfg.minRto), rto, RTO_MAX))
  }

  predicate Covered(buf: seq<Segment>, una: uint32, i: nat)
    requires i < |buf|
  {
    Diff(una, buf[i].sn) > 0
  }

  /** How many segments, counting from position `i`, `ikcp_parse_una` has dropped when it stops. */
  function UnaCount(buf: seq<Segment>, una: uint32, i: nat := 0): (n: nat)
    requires i <= |buf|
    ensures i <= n <= |buf|
    ensures forall j :: i <= j < n ==> Covered(buf, una, j)
    ensures n < |buf| ==> !Covered(buf, una, n)
    decreases |buf| - i
  {
    if i < |buf| && Covered(buf, una, i) then UnaCount(buf, una, i + 1) else i
  }

  /** Where the loop of `ikcp_parse_ack` finds number `sn`, or the length if it does not. */
  function FindAck(buf: seq<Segment>, sn: uint32, i: nat := 0): (p: nat)
    requires i <= |buf|
    ensures i <= p <= |buf|
    ensures p < |buf| ==> buf[p].sn == sn
    decreases |buf| - i
  {
    if i == |buf| || sn == buf[i].sn then i
    else if Diff(sn, buf[i].sn) < 0 then |buf|
    else FindAck(buf, sn, i + 1)
  }

  function RemoveAt(buf: seq<Segment>, p: nat): seq<Segment>
    requires p <= |buf|
  {
    if p < |buf| then buf[..p] + buf[p + 1..] else buf
  }

  predicate InFlight(snd: Sender, sn: uint32) {
    Diff(sn, snd.una) >= 0 && Diff(sn, snd.nxt) < 0
  }

  function ParseUna(snd: Sender, una: uint32): Sender {
    snd.(buf := snd.buf[UnaCount(snd.buf, una)..])
  }

  function ParseAck(snd: Sender, sn: uint32): Sender {
    if InFlight(snd, sn) then snd.(buf := RemoveAt(snd.buf, FindAck(snd.buf, sn))) else snd
  }

  /** `ikcp_shrink_buf` */
  function Shrink(snd: Sender): Sender {
    snd.(una := if snd.buf == [] then snd.nxt else snd.buf[0].sn)
  }

  predicate Reached(buf: seq<Segment>, sn: uint32, i: nat)
    requires i < |buf|
  {
    Diff(sn, buf[i].sn) >= 0
  }

  /** The first position from `i` on whose number is past `sn`. */
  function PastAck(buf: seq<Segment>, sn: uint32, i: nat := 0): (p: nat)
    requires i <= |buf|
    ensures i <= p <= |buf|
    ensures forall j :: i <= j < p ==> Reached(buf, sn, j)
    ensures p < |buf| ==> !Reached(buf, sn, p)
    decreases |buf| - i
  {
    if i == |buf| || !Reached(buf, sn, i) then i else PastAck(buf, sn, i + 1)
  }

  /** A segment that was passed over by an acknowledgement of `sn`. */
  function Bump(seg: Segment, sn: uint32): Segment {
    if sn == seg.sn then seg else seg.(fastack := U32(seg.fastack + 1))
  }

  /** The loop of `ikcp_parse_fastack` over the first `n` segments. */
  function BumpFastack(buf: seq<Segment>, sn: uint32, n: nat): (b: seq<Segment>)
    requires n <= |buf|
    ensures |b| == |buf|
  {
    seq(|buf|, i requires 0 <= i < |buf| => if i < n then Bump(buf[i], sn) else buf[i])
  }

  function ParseFastack(snd: Sender, sn: uint32): Sender {
    if InFlight(snd, sn) then snd.(buf := BumpFastack(snd.buf, sn, PastAck(snd.buf, sn))) else snd
  }

  // ---------------------------------------------------------------- data in

  /** The backward search of `ikcp_parse_data` from position `p`: where the new segment goes,
      and whether it is there already. */
  function SearchBack(buf: seq<Segment>, sn: uint32, p: nat): (r: (nat, bool))
    requires p <= |buf|
    ensures r.0 <= p
  {
    if p == 0 then (0, false)
    else if buf[p - 1].sn == sn then (p, true)
    else if Diff(sn, buf[p - 1].sn) > 0 then (p, false)
    else SearchBack(buf, sn, p - 1)
  }

  function InsertSegment(buf: seq<Segment>, seg: Segment): seq<Segment> {
    var (p, repeated) := SearchBack(buf, seg.sn, |buf|);
    if repeated then buf else buf[..p] + [seg] + buf[p..]
  }

  predicate BelowWindow(r: Receiver, wnd: posint, sn: uint32) {
    Diff(sn, U32(r.nxt + wnd)) < 0
  }

  /** `ikcp_parse_data` */
  function ParseData(r: Receiver, wnd: posint, seg: Segment): Receiver {
    if !BelowWindow(r, wnd, seg.sn) || Diff(seg.sn, r.nxt) < 0 then r
    else Drain(r.(buf := InsertSegment(r.buf, seg)), wnd)
  }

  /** What a data segment does to the receiving side. */
  function AcceptPush(r: Receiver, wnd: posint, w: Wire): Receiver {
    if BelowWindow(r, wnd, w.sn) && Diff(w.sn, r.nxt) >= 0
    then ParseData(r, wnd, FromWire(w)) else r
  }

  function QueueAck(acks: seq<Ack>, r: Receiver, wnd: posint, w: Wire): seq<Ack> {
    if BelowWindow(r, wnd, w.sn) then acks + [Ack(w.sn, w.ts)] else acks
  }

  predicate KnownCommand(cmd: byte) {
    cmd == CMD_PUSH || cmd == CMD_ACK || cmd == CMD_WASK || cmd == CMD_WINS
  }

  /** What a segment's `una`, and its `sn` if it is an acknowledgement, do to the sending side. */
  function HearAck(snd: Sender, w: Wire): Sender {
    var heard := Shrink(ParseUna(snd, w.una));
    if w.cmd == CMD_ACK then Shrink(ParseAck(heard, w.sn)) else heard
  }

  /** One round of the loop of `ikcp_input`. */
  function Process(s: State, w: Wire): State {
    s.(
      cc := s.cc.(rmtWnd := w.wnd),
      snd := HearAck(s.snd, w),
      rtt := if w.cmd == CMD_ACK && Diff(s.timer.current, w.ts) >= 0
             then UpdateAck(s.rtt, s.cfg, Diff(s.timer.current, w.ts)) else s.rtt,
      rcv := if w.cmd == CMD_PUSH then AcceptPush(s.rcv, s.cfg.rcvWnd, w) else s.rcv,
      acks := if w.cmd == CMD_PUSH then QueueAck(s.acks, s.rcv, s.cfg.rcvWnd, w) else s.acks,
      probe := if w.cmd == CMD_WASK then s.probe.(askTell := true) else s.probe)
  }

  /** The largest acknowledged number of the datagram so far, once there is one. */
  datatype MaxAck = NoAck | MaxAck(sn: uint32)

  function NoteAck(m: MaxAck, w: Wire): MaxAck {
    if w.cmd != CMD_ACK then m
    else if m.NoAck? || Diff(w.sn, m.sn) > 0 then MaxAck(w.sn)
    else m
  }

  /** The congestion window grows when the datagram has moved `snd_una`. */
  function Grow(cc: Congestion, mss: payload): Congestion {
    if cc.cwnd >= cc.rmtWnd then cc
    else
      var m := mss;
      var grown :=
        if cc.cwnd < cc.ssthresh then cc.(cwnd := U32(cc.cwnd + 1), incr := U32(cc.incr + m))
        else
          var base := if cc.incr < m then m else cc.incr;
          var incr := U32(base + U32(m * m) / base + m / 16);
          cc.(incr := incr,
              cwnd := if U32(U32(cc.cwnd + 1) * m) <= incr then U32(cc.cwnd + 1) else cc.cwnd);
      if grown.cwnd > grown.rmtWnd
      then grown.(cwnd := grown.rmtWnd, incr := U32(grown.rmtWnd * m)) else grown
  }

  /** What `ikcp_input` does after its loop. */
  function AfterInput(s: State, m: MaxAck, una: uint32): State {
    var snd := if m.NoAck? then s.snd else ParseFastack(s.snd, m.sn);
    s.(snd := snd, cc := if Diff(snd.una, una) > 0 then Grow(s.cc, s.cfg.mss) else s.cc)
  }

  /** The state after the first `n` segments of a datagram. */
  function ProcessRun(s: State, ws: seq<Wire>, n: nat): (r: State)
    requires n <= |ws|
    ensures r.cfg == s.cfg && r.timer == s.timer && r.cc == s.cc.(rmtWnd := r.cc.rmtWnd)
    ensures r.snd.nxt == s.snd.nxt && r.snd.queue == s.snd.queue
  {
    if n == 0 then s else Process(ProcessRun(s, ws, n - 1), ws[n - 1])
  }

  function NoteRun(ws: seq<Wire>, n: nat): MaxAck
    requires n <= |ws|
  {
    if n == 0 then NoAck else NoteAck(NoteRun(ws, n - 1), ws[n - 1])
  }

  /** The segments read from a datagram before its end or the first fault, and the result. */
  datatype Parsed = Parsed(ws: seq<Wire>, code: int)

  function Parse(conv: uint32, rest: bytes): Parsed
    decreases |rest|
  {
    if |rest| < OVERHEAD then Parsed([], 0)
    else if DecodeConv(rest) != conv then Parsed([], -1)
    else if |rest| - OVERHEAD < DecodeLen(rest) then Parsed([], -2)
    else if !KnownCommand(rest[4]) then Parsed([], -3)
    else
      var w := Decode(rest);
      var p := Parse(conv, rest[OVERHEAD + |w.data|..]);
      Parsed([w] + p.ws, p.code)
  }

  /** A datagram whose segments are `ws` has been read to its end or to a fault. */
  function InputRun(s: State, ws: seq<Wire>, code: int): State {
    var run := ProcessRun(s, ws, |ws|);
    if code == 0 then AfterInput(run, NoteRun(ws, |ws|), s.snd.una) else run
  }

  function Input(s: State, datagram: bytes): (State, int) {
    if I32(|datagram|) < OVERHEAD then (s, -1)
    else
      var p := Parse(s.cfg.conv, datagram);
      (InputRun(s, p.ws, p.code), p.code)
  }

  // ---------------------------------------------------------------- flush

  /** The bytes given to the output callback so far, and those waiting in the buffer. */
  datatype Outbox = Outbox(sent: seq<bytes>, pending: bytes)

  function FlushPending(o: Outbox): seq<bytes> {
    if o.pending == [] then o.sent else o.sent + [o.pending]
  }

  /** One encoded segment is added, after a flush of the buffer when it would pass the mtu. */
  function Put(o: Outbox, e: bytes, mtu: nat): Outbox {
    if |o.pending| + |e| > mtu then Outbox(FlushPending(o), e)
    else o.(pending := o.pending + e)
  }

  /** The first `n` of the segments `ws` are added. */
  function PutAll(o: Outbox, ws: seq<Wire>, n: nat, mtu: nat): Outbox
    requires n <= |ws|
  {
    if n == 0 then o else Put(PutAll(o, ws, n - 1, mtu), Encode(ws[n - 1]), mtu)
  }

  /** The datagrams that carry the segments `ws`. */
  function Datagrams(ws: seq<Wire>, mtu: nat): seq<bytes> {
    FlushPending(PutAll(Outbox([], []), ws, |ws|, mtu))
  }

  function WndUnused(s: State): nat {
    if |s.rcv.queue| < s.cfg.rcvWnd then s.cfg.rcvWnd - |s.rcv.queue| else 0
  }

  /** A control segment, as the local `seg` of `ikcp_flush` is encoded. */
  function Control(s: State, cmd: byte, ack: Ack): Wire {
    Wire(s.cfg.conv, cmd, 0, WndUnused(s) % 0x1_0000, ack.ts, ack.sn, s.rcv.nxt, [])
  }

  function AckWires(s: State, n: nat): seq<Wire>
    requires n <= |s.acks|
  {
    seq(n, i requires 0 <= i < n => Control(s, CMD_ACK, s.acks[i]))
  }

  /** Window probing: what becomes due when the remote window is closed. */
  function ProbeTimer(p: Probe, rmtWnd: uint32, current: uint32): Probe {
    if rmtWnd != 0 then p.(ts := 0, wait := 0)
    else if p.wait == 0 then p.(wait := PROBE_INIT, ts := U32(current + PROBE_INIT))
    else if Diff(current, p.ts) >= 0 then
      var base := if p.wait < PROBE_INIT then PROBE_INIT else p.wait;
      var wait := if U32(base + base / 2) > PROBE_LIMIT then PROBE_LIMIT else U32(base + base / 2);
      p.(wait := wait, ts := U32(current + wait), askSend := true)
    else p
  }

  /** The probe segments. They still carry the number and time of the last acknowledgement. */
  function ProbeWires(s: State, p: Probe): seq<Wire> {
    var last := if s.acks == [] then Ack(0, 0) else s.acks[|s.acks| - 1];
    (if p.askSend then [Control(s, CMD_WASK, last)] else [])
    + (if p.askTell then [Control(s, CMD_WINS, last)] else [])
  }

  /** The send window that a flush works with. */
  function FlushWindow(s: State): uint32 {
    var w := Min(s.cfg.sndWnd, s.cc.rmtWnd);
    if s.cfg.nocwnd then w else Min(s.cc.cwnd, w)
  }

  /** A queued segment as it enters the send buffer with number `sn`. */
  function Number(s: State, seg: Segment, sn: uint32): Segment {
    seg.(conv := s.cfg.conv, cmd := CMD_PUSH, wnd := WndUnused(s), ts := s.timer.current,
         sn := sn, una := s.rcv.nxt, resendts := s.timer.current, rto := U32(s.rtt.rto),
         fastack := 0, xmit := 0)
  }

  /** Whether another segment fits the window when `n` have been moved already. */
  predicate Fits(snd: Sender, cwnd: uint32, n: nat) {
    Diff(U32(snd.nxt + n), U32(snd.una + cwnd)) < 0
  }

  /** How many queued segments are moved in the end, when `i` of them have been already. */
  function AdmitCount(snd: Sender, cwnd: uint32, i: nat := 0): (n: nat)
    requires i <= |snd.queue|
    ensures i <= n <= |snd.queue|
    ensures forall j :: i <= j < n ==> Fits(snd, cwnd, j)
    ensures n < |snd.queue| ==> !Fits(snd, cwnd, n)
    decreases |snd.queue| - i
  {
    if Fits(snd, cwnd, i) && i < |snd.queue| then AdmitCount(snd, cwnd, i + 1) else i
  }

  function Numbered(s: State, snd: Sender, n: nat): (b: seq<Segment>)
    requires n <= |snd.queue|
    ensures |b| == n
  {
    seq(n, i requires 0 <= i < n => Number(s, snd.queue[i], U32(snd.nxt + i)))
  }

  /** Moving segments from the queue into the send window. */
  function Admit(s: State, snd: Sender, cwnd: uint32): Sender {
    var n := AdmitCount(snd, cwnd);
    Sender(snd.una, U32(snd.nxt + n), snd.queue[n..], snd.buf + Numbered(s, snd, n))
  }

  /** Why a segment of the send buffer is transmitted by this flush. */
  datatype Reason = Keep | First | Timeout | Fast

  function Due(s: State, seg: Segment): Reason {
    if seg.xmit == 0 then First
    else if Diff(s.timer.current, seg.resendts) >= 0 then Timeout
    else if seg.fastack >= s.cfg.Resent() then Fast
    else Keep
  }

  function RtoMin(s: State): nat {
    if s.cfg.nodelay then 0 else s.rtt.rto / 8
  }

  /** The segment after this flush has looked at it. */
  function Transmit(s: State, seg: Segment): Segment {
    var cur := s.timer.current;
    var out := seg.(xmit := U32(seg.xmit + 1), ts := cur, wnd := WndUnused(s), una := s.rcv.nxt);
    match Due(s, seg)
    case Keep => seg
    case First => out.(rto := U32(s.rtt.rto), resendts := U32(cur + U32(s.rtt.rto) + RtoMin(s)))
    case Timeout =>
      var rto := U32(seg.rto + (if s.cfg.nodelay then s.rtt.rto / 2 else s.rtt.rto));
      out.(rto := rto, resendts := U32(cur + rto))
    case Fast => out.(fastack := 0, resendts := U32(cur + seg.rto))
  }

  function TransmitAll(s: State, buf: seq<Segment>): (r: seq<Segment>)
    ensures |r| == |buf|
  {
    seq(|buf|, i requires 0 <= i < |buf| => Transmit(s, buf[i]))
  }

  /** The data segments that go out among the first `n`, in order. */
  function DataWires(s: State, buf: seq<Segment>, n: nat): seq<Wire>
    requires n <= |buf|
  {
    if n == 0 then []
    else DataWires(s, buf, n - 1)
         + (if Due(s, buf[n - 1]) == Keep then [] else [ToWire(Transmit(s, buf[n - 1]))])
  }

  /** How many of the first `n` segments go out for the given reason. */
  function CountDue(s: State, buf: seq<Segment>, n: nat, why: Reason): nat
    requires n <= |buf|
  {
    if n == 0 then 0
    else CountDue(s, buf, n - 1, why) + (if Due(s, buf[n - 1]) == why then 1 else 0)
  }

  predicate LinkDead(s: State, buf: seq<Segment>, n: nat)
    requires n <= |buf|
  {
    exists i :: 0 <= i < n && Due(s, buf[i]) != Keep && Transmit(s, buf[i]).xmit >= s.cfg.deadLink
  }

  /** The congestion window after the flush. */
  function Backoff(s: State, snd: Sender, cwnd: uint32, change: bool, lost: bool): Congestion {
    var m := s.cfg.mss;
    var c1 :=
      if change then
        var thresh := Max(U32(snd.nxt - snd.una) / 2, THRESH_MIN);
        var w := U32(thresh + s.cfg.Resent());
        s.cc.(ssthresh := thresh, cwnd := w, incr := U32(w * m))
      else s.cc;
    var c2 := if lost then c1.(ssthresh := Max(cwnd / 2, THRESH_MIN), cwnd := 1, incr := m) else c1;
    if c2.cwnd < 1 then c2.(cwnd := 1, incr := m) else c2
  }

  function FlushProbe(s: State): Probe {
    ProbeTimer(s.probe, s.cc.rmtWnd, s.timer.current)
  }

  function FlushSender(s: State): Sender {
    Admit(s, s.snd, FlushWindow(s))
  }

  /** Every segment that a flush sends, in order. */
  function FlushWires(s: State): seq<Wire> {
    AckWires(s, |s.acks|) + ProbeWires(s, FlushProbe(s)) + DataWires(s, FlushSender(s).buf, |FlushSender(s).buf|)
  }

  /** The state after a flush and the datagrams it gives to the output callback. */
  function Flush(s: State): (State, seq<bytes>) {
    if !s.timer.updated then (s, [])
    else
      var snd := FlushSender(s);
      var timeouts := CountDue(s, snd.buf, |snd.buf|, Timeout);
      (s.(acks := [],
          probe := FlushProbe(s).(askSend := false, askTell := false),
          snd := snd.(buf := TransmitAll(s, snd.buf)),
          xmit := U32(s.xmit + timeouts),
          dead := s.dead || LinkDead(s, snd.buf, |snd.buf|),
          cc := Backoff(s, snd, FlushWindow(s), CountDue(s, snd.buf, |snd.buf|, Fast) > 0, timeouts > 0)),
       Datagrams(FlushWires(s), s.cfg.Mtu()))
  }

  // ---------------------------------------------------------------- clock

  /** How far the flush time has passed, after the reset of a clock that jumped. */
  function Slap(t: Timer, current: uint32): (Timer, int) {
    var t1 := Timer(current, if t.updated then t.tsFlush else current, true);
    var slap := Diff(current, t1.tsFlush);
    if slap >= 10000 || slap < -10000 then (t1.(tsFlush := current), 0) else (t1, slap)
  }

  predicate UpdateFlushes(t: Timer, current: uint32) {
    Slap(t, current).1 >= 0
  }

  function NextTimer(t: Timer, current: uint32, interval: uint32): Timer {
    var (t1, slap) := Slap(t, current);
    if slap < 0 then t1
    else
      var next := U32(t1.tsFlush + interval);
      t1.(tsFlush := if Diff(current, next) >= 0 then U32(current + interval) else next)
  }

  function Update(s: State, current: uint32): (State, seq<bytes>) {
    var s1 := s.(timer := NextTimer(s.timer, current, s.cfg.interval));
    if UpdateFlushes(s.timer, current) then Flush(s1) else (s1, [])
  }

  /** The loop of `ikcp_check` over the first `n` segments: the least time to a retransmission,
      0 when one is due. */
  function PacketTime(buf: seq<Segment>, n: nat, current: uint32): nat
    requires n <= |buf|
  {
    if n == 0 then 0x7fff_ffff
    else Min(PacketTime(buf, n - 1, current), Max(Diff(buf[n - 1].resendts, current), 0))
  }

  function Check(s: State, current: uint32): uint32 {
    if !s.timer.updated then current
    else if Diff(current, s.timer.tsFlush) >= 10000 || Diff(current, s.timer.tsFlush) < -10000 then current
    else if Diff(current, s.timer.tsFlush) >= 0 then current
    else
      var packet := PacketTime(s.snd.buf, |s.snd.buf|, current);
      if packet == 0 then current
      else
        var minimal := Min(packet, Diff(s.timer.tsFlush, current));
        U32(current + Min(U32(minimal), s.cfg.interval))
  }
}
