/**
 Two endpoints and a network that drops, duplicates and reorders datagrams. Every datagram ever
 sent stays available, so any of them can be delivered at any time, any number of times or never.
 The only limit is age: a datagram is not delivered once more than `age` further fragments have
 been numbered on either side, since sequence numbers have 32 bits.
 */
module KcpSystem {
  import opened Serial
  import opened KcpWire
  import opened KcpSpec
  import opened KcpMessages
  import opened KcpPacking
  import opened KcpLink

  /** A datagram in the network. `data` is what is delivered; the rest is history: the segments it
      was made from, and how many fragments the sender and its peer had numbered then. */
  datatype Item = Item(data: bytes, wires: seq<Wire>, sFrom: nat, sTo: nat)

  /** An endpoint with its history: how often `snd_una`, `snd_nxt` and `rcv_nxt` have been
      incremented, the peer's `S` at the last flush, the messages that `ikcp_send` accepted with 0
      and the messages that `ikcp_recv` returned other than by peeking. */
  datatype Endpoint = Endpoint(st: State, U: nat, S: nat, R: nat, M: nat,
                               accepted: seq<bytes>, received: seq<bytes>)

  datatype System = System(age: nat, a: Endpoint, b: Endpoint, toA: seq<Item>, toB: seq<Item>)

  /** A call at endpoint `a`, or the delivery of the datagram at a position of `toA`. */
  datatype Step = Send(data: bytes) | Recv(len: int) | Flush | Update(now: uint32) | Deliver(i: nat)

  // ---------------------------------------------------------------- steps

  function SendStep(e: Endpoint, data: bytes): Endpoint {
    var (st, r) := KcpSpec.Send(e.st, data);
    e.(st := st, accepted := if r == 0 then e.accepted + [data] else e.accepted)
  }

  function RecvStep(e: Endpoint, len: int): Endpoint {
    var (st, r, out) := KcpSpec.Recv(e.st, len);
    e.(st := st, R := e.R + Dist(e.st.rcv.nxt, st.rcv.nxt),
       received := if r >= 0 && len >= 0 then e.received + [out] else e.received)
  }

  function FlushStep(e: Endpoint, peer: Endpoint): Endpoint {
    var st := KcpSpec.Flush(e.st).0;
    e.(st := st, S := e.S + Dist(e.st.snd.nxt, st.snd.nxt),
       M := if e.st.timer.updated then peer.S else e.M)
  }

  /** The datagrams that a flush puts into the network. */
  function Mail(e: Endpoint, peer: Endpoint): seq<Item> {
    var out, groups := KcpSpec.Flush(e.st).1, Split(FlushWires(e.st), e.st.cfg.Mtu());
    var S := FlushStep(e, peer).S;
    seq(|out|, i requires 0 <= i < |out| => Item(out[i], if i < |groups| then groups[i] else [], S, peer.S))
  }

  function Tick(e: Endpoint, now: uint32): Endpoint {
    e.(st := e.st.(timer := NextTimer(e.st.timer, now, e.st.cfg.interval)))
  }

  function HearStep(e: Endpoint, datagram: bytes): Endpoint {
    var st := KcpSpec.Input(e.st, datagram).0;
    e.(st := st, U := e.U + Dist(e.st.snd.una, st.snd.una), R := e.R + Dist(e.st.rcv.nxt, st.rcv.nxt))
  }

  function FlushAt(s: System): System {
    s.(a := FlushStep(s.a, s.b), toB := s.toB + Mail(s.a, s.b))
  }

  predicate Fresh(s: System, it: Item) {
    s.b.S - it.sFrom <= s.age && s.a.S - it.sTo <= s.age
  }

  predicate Enabled(s: System, step: Step) {
    step.Deliver? ==> step.i < |s.toA| && Fresh(s, s.toA[step.i])
  }

  function Do(s: System, step: Step): System
    requires Enabled(s, step)
  {
    match step
    case Send(data) => s.(a := SendStep(s.a, data))
    case Recv(len) => s.(a := RecvStep(s.a, len))
    case Flush => FlushAt(s)
    case Update(now) =>
      var t := s.(a := Tick(s.a, now));
      if UpdateFlushes(s.a.st.timer, now) then FlushAt(t) else t
    case Deliver(i) => s.(a := HearStep(s.a, s.toA[i].data))
  }

  /** The same system with the endpoints exchanged. */
  function Mirror(s: System): System {
    System(s.age, s.b, s.a, s.toB, s.toA)
  }

  ghost predicate Next(s: System, t: System) {
    || (exists step :: Enabled(s, step) && t == Do(s, step))
    || (exists step :: Enabled(Mirror(s), step) && t == Mirror(Do(Mirror(s), step)))
  }

  /** Both sides in message mode with the same conversation number, and windows and age that
      32-bit numbers can tell apart. */
  predicate Sane(age: nat, x: Config, y: Config) {
    && !x.stream && x.conv == y.conv
    && 2 * age + 2 * x.sndWnd <= TWO31
    && age + x.sndWnd + y.rcvWnd < TWO31
  }

  ghost predicate Init(s: System) {
    && Sane(s.age, s.a.st.cfg, s.b.st.cfg) && Sane(s.age, s.b.st.cfg, s.a.st.cfg)
    && s.a == Endpoint(Create(s.a.st.cfg), 0, 0, 0, 0, [], [])
    && s.b == Endpoint(Create(s.b.st.cfg), 0, 0, 0, 0, [], [])
    && s.toA == [] && s.toB == []
  }

  /** A run of the system. */
  ghost predicate Execution(trace: seq<System>) {
    trace != [] && Init(trace[0]) && forall i :: 0 <= i < |trace| - 1 ==> Next(trace[i], trace[i + 1])
  }

  // ---------------------------------------------------------------- invariant, direction x to y

  function Stream(x: Endpoint): seq<Frag> {
    AllFrags(x.accepted, |x.accepted|, x.st.cfg.mss)
  }

  ghost predicate Accepted(x: Endpoint) {
    forall m :: m in x.accepted ==> Sendable(|m|, x.st.cfg.mss)
  }

  /** The received messages are the first of the accepted ones, unchanged. */
  ghost predicate Delivered(x: Endpoint, y: Endpoint) {
    y.received <= x.accepted
  }

  ghost predicate Sending(x: Endpoint) {
    var snd := x.st.snd;
    && Outgoing(snd, x.U, x.S, Stream(x), x.st.cfg.sndWnd)
    && AllOurs(x.st.cfg, snd)
    && Continues(snd.queue, Stream(x), x.S)
    && x.S + |snd.queue| == |Stream(x)|
  }

  ghost predicate Receiving(x: Endpoint, y: Endpoint)
    requires |y.received| <= |x.accepted|
  {
    var rcv := y.st.rcv;
    var p := |AllFrags(x.accepted, |y.received|, x.st.cfg.mss)|;
    && Incoming(rcv, y.R, x.S, Stream(x), y.st.cfg.rcvWnd)
    && Continues(rcv.queue, Stream(x), p)
    && p + |rcv.queue| == y.R
  }

  /** No acknowledged loss. */
  ghost predicate Linked(x: Endpoint, y: Endpoint) {
    && Safe(x.st.snd, x.U, x.S, y.st.rcv, y.R)
    && Marked(x.st.snd, x.U, x.S, y.M)
  }

  ghost predicate AckAt(acks: seq<Ack>, i: nat, base: int, r: Receiver, R: nat)
    requires i < |acks|
  {
    Held(r, R, Unwrap(base, acks[i].sn))
  }

  /** Every queued acknowledgement names a segment that is held. */
  ghost predicate AcksHeld(acks: seq<Ack>, base: int, r: Receiver, R: nat) {
    forall i :: 0 <= i < |acks| ==> AckAt(acks, i, base, r, R)
  }

  /** The numbers of queued acknowledgements are unwrapped from here. */
  function AckBase(age: nat, sw: posint, M: nat): int { M - age - sw }

  ghost predicate Formed(it: Item, conv: uint32) {
    && it.wires != [] && it.data == EncodeAll(it.wires) && |it.data| < TWO31
    && forall i :: 0 <= i < |it.wires| ==> Understood(it.wires, conv, i)
  }

  /** A data segment that was sent when `S` fragments had been numbered carries the fragment of its
      number. */
  ghost predicate DataWire(w: Wire, S: nat, sw: posint, all: seq<Frag>) {
    w.cmd == CMD_PUSH ==>
      var k := Unwrap(S - sw, w.sn);
      0 <= k < S <= |all| && Frag(w.frg, w.data) == all[k]
  }

  ghost predicate DataAt(it: Item, i: nat, sw: posint, all: seq<Frag>)
    requires i < |it.wires|
  {
    DataWire(it.wires[i], it.sFrom, sw, all)
  }

  ghost predicate DataOk(items: seq<Item>, sw: posint, all: seq<Frag>, S: nat, n: nat)
    requires n < |items|
  {
    items[n].sFrom <= S && forall i :: 0 <= i < |items[n].wires| ==> DataAt(items[n], i, sw, all)
  }

  /** What `y` says in a segment sent when `x` had numbered `S` fragments. */
  ghost predicate NewsWire(w: Wire, S: nat, age: nat, sw: posint, rw: posint, r: Receiver, R: nat) {
    && Unwrap(S - sw - rw, w.una) <= R
    && Unwrap(S - sw - rw, w.una) <= S
    && (w.cmd == CMD_ACK ==>
          var k := Unwrap(S - age - 2 * sw, w.sn);
          k < S && Held(r, R, k))
  }

  /** Every `una` and every acknowledgement in flight names only what is held. */
  ghost predicate NewsAt(it: Item, i: nat, age: nat, sw: posint, rw: posint, r: Receiver, R: nat)
    requires i < |it.wires|
  {
    NewsWire(it.wires[i], it.sTo, age, sw, rw, r, R)
  }

  ghost predicate NewsOk(items: seq<Item>, age: nat, sw: posint, rw: posint, r: Receiver, R: nat, M: nat, n: nat)
    requires n < |items|
  {
    items[n].sTo <= M && forall i :: 0 <= i < |items[n].wires| ==> NewsAt(items[n], i, age, sw, rw, r, R)
  }

  ghost predicate DataInFlight(x: Endpoint, toY: seq<Item>) {
    forall n :: 0 <= n < |toY| ==> DataOk(toY, x.st.cfg.sndWnd, Stream(x), x.S, n)
  }

  ghost predicate NewsInFlight(x: Endpoint, y: Endpoint, toX: seq<Item>, age: nat) {
    forall n :: 0 <= n < |toX| ==>
      NewsOk(toX, age, x.st.cfg.sndWnd, y.st.cfg.rcvWnd, y.st.rcv, y.R, y.M, n)
  }

  ghost predicate Answering(x: Endpoint, y: Endpoint, age: nat) {
    AcksHeld(y.st.acks, AckBase(age, x.st.cfg.sndWnd, y.M), y.st.rcv, y.R)
  }

  ghost predicate Dir(x: Endpoint, y: Endpoint, toY: seq<Item>, toX: seq<Item>, age: nat) {
    && Sane(age, x.st.cfg, y.st.cfg)
    && Accepted(x) && Delivered(x, y) && Sending(x) && Receiving(x, y)
    && Linked(x, y) && Answering(x, y, age)
    && DataInFlight(x, toY) && NewsInFlight(x, y, toX, age)
  }

  ghost predicate AllFormed(items: seq<Item>, conv: uint32) {
    forall n :: 0 <= n < |items| ==> Formed(items[n], conv)
  }

  ghost predicate Inv(s: System) {
    && Dir(s.a, s.b, s.toB, s.toA, s.age) && Dir(s.b, s.a, s.toA, s.toB, s.age)
    && AllFormed(s.toA, s.a.st.cfg.conv) && AllFormed(s.toB, s.a.st.cfg.conv)
  }
}
