/**
 `ikcp_flush` and `ikcp_input` undo each other: every datagram is a run of whole segments, of 24
 to mtu bytes, and reading it processes exactly those segments in order.
 */
module KcpPacking {
  import opened Serial
  import opened KcpWire
  import opened KcpSpec

  /** The segments of the datagrams sent so far and of the one still in the buffer. */
  datatype Groups = Groups(sent: seq<seq<Wire>>, pending: seq<Wire>)

  function CloseGroup(g: Groups): seq<seq<Wire>> {
    if g.pending == [] then g.sent else g.sent + [g.pending]
  }

  function AddTo(g: Groups, w: Wire, mtu: nat): Groups {
    if |EncodeAll(g.pending)| + |Encode(w)| > mtu then Groups(CloseGroup(g), [w])
    else g.(pending := g.pending + [w])
  }

  function GroupAll(ws: seq<Wire>, n: nat, mtu: nat): Groups
    requires n <= |ws|
  {
    if n == 0 then Groups([], []) else AddTo(GroupAll(ws, n - 1, mtu), ws[n - 1], mtu)
  }

  /** How the segments `ws` are divided among datagrams. */
  function Split(ws: seq<Wire>, mtu: nat): seq<seq<Wire>> {
    CloseGroup(GroupAll(ws, |ws|, mtu))
  }

  function Joined(gs: seq<seq<Wire>>, n: nat): seq<Wire>
    requires n <= |gs|
  {
    if n == 0 then [] else Joined(gs, n - 1) + gs[n - 1]
  }

  lemma {:induction false} JoinedSnoc(gs: seq<seq<Wire>>, g: seq<Wire>, n: nat)
    requires n <= |gs|
    ensures Joined(gs + [g], n) == Joined(gs, n)
  {
    if n > 0 {
      JoinedSnoc(gs, g, n - 1);
    }
  }

  lemma CloseJoined(g: Groups)
    ensures Joined(CloseGroup(g), |CloseGroup(g)|) == Joined(g.sent, |g.sent|) + g.pending
  {
    if g.pending == [] {
      assert Joined(g.sent, |g.sent|) + [] == Joined(g.sent, |g.sent|);
    } else {
      JoinedSnoc(g.sent, g.pending, |g.sent|);
    }
  }

  /** No segment is lost, repeated, torn or moved. */
  lemma {:induction false} GroupAllJoins(ws: seq<Wire>, n: nat, mtu: nat)
    requires n <= |ws|
    ensures var g := GroupAll(ws, n, mtu);
            Joined(g.sent, |g.sent|) + g.pending == ws[..n]
  {
    hide Encode, EncodeAll;
    if n > 0 {
      GroupAllJoins(ws, n - 1, mtu);
      var before := GroupAll(ws, n - 1, mtu);
      AddJoins(before, ws[n - 1], mtu);
      assert ws[..n] == ws[..n - 1] + [ws[n - 1]];
    }
  }

  lemma AddJoins(g: Groups, w: Wire, mtu: nat)
    ensures var a := AddTo(g, w, mtu);
            Joined(a.sent, |a.sent|) + a.pending == Joined(g.sent, |g.sent|) + g.pending + [w]
  {
    CloseJoined(g);
  }

  lemma SplitJoins(ws: seq<Wire>, mtu: nat)
    ensures Joined(Split(ws, mtu), |Split(ws, mtu)|) == ws
  {
    GroupAllJoins(ws, |ws|, mtu);
    CloseJoined(GroupAll(ws, |ws|, mtu));
  }

  predicate Fitting(gs: seq<seq<Wire>>, i: nat, mtu: nat)
    requires i < |gs|
  {
    gs[i] != [] && OVERHEAD <= |EncodeAll(gs[i])| <= mtu
  }

  /** No datagram is empty or longer than the mtu. */
  lemma {:induction false} GroupAllFits(ws: seq<Wire>, n: nat, mtu: nat)
    requires n <= |ws|
    requires forall i :: 0 <= i < |ws| ==> |ws[i].data| + OVERHEAD <= mtu
    ensures var g := GroupAll(ws, n, mtu);
            && |EncodeAll(g.pending)| <= mtu
            && forall i :: 0 <= i < |g.sent| ==> Fitting(g.sent, i, mtu)
  {
    hide EncodeHeader;
    if n > 0 {
      GroupAllFits(ws, n - 1, mtu);
      var g := GroupAll(ws, n - 1, mtu);
      EncodeFromSnoc([], ws[n - 1], 0);
      EncodeFromSnoc(g.pending, ws[n - 1], 0);
      assert [] + [ws[n - 1]] == [ws[n - 1]];
      CloseFits(g, mtu);
    }
  }

  lemma CloseFits(g: Groups, mtu: nat)
    requires |EncodeAll(g.pending)| <= mtu
    requires forall i :: 0 <= i < |g.sent| ==> Fitting(g.sent, i, mtu)
    ensures forall i :: 0 <= i < |CloseGroup(g)| ==> Fitting(CloseGroup(g), i, mtu)
  {
    EncodeAllEmpty(g.pending);
    var gs := CloseGroup(g);
    forall i | 0 <= i < |gs| ensures Fitting(gs, i, mtu) {
      assert i < |g.sent| ==> Fitting(g.sent, i, mtu);
    }
  }

  function Encodings(gs: seq<seq<Wire>>): (r: seq<bytes>)
    ensures |r| == |gs|
  {
    seq(|gs|, i requires 0 <= i < |gs| => EncodeAll(gs[i]))
  }

  lemma EncodingsSnoc(gs: seq<seq<Wire>>, g: seq<Wire>)
    ensures Encodings(gs + [g]) == Encodings(gs) + [EncodeAll(g)]
  {
  }

  /** The buffer always holds the encoding of the segments not sent yet. */
  lemma {:induction false} PutAllEncodes(ws: seq<Wire>, n: nat, mtu: nat)
    requires n <= |ws|
    ensures var g := GroupAll(ws, n, mtu);
            PutAll(Outbox([], []), ws, n, mtu) == Outbox(Encodings(g.sent), EncodeAll(g.pending))
  {
    hide EncodeHeader, Encodings;
    if n > 0 {
      PutAllEncodes(ws, n - 1, mtu);
      var g := GroupAll(ws, n - 1, mtu);
      var w := ws[n - 1];
      EncodeFromSnoc([], w, 0);
      assert [] + [w] == [w] && [] + Encode(w) == Encode(w);
      EncodeFromSnoc(g.pending, w, 0);
      CloseEncodes(g);
    }
  }

  lemma CloseEncodes(g: Groups)
    ensures FlushPending(Outbox(Encodings(g.sent), EncodeAll(g.pending))) == Encodings(CloseGroup(g))
  {
    EncodeAllEmpty(g.pending);
    if g.pending != [] {
      EncodingsSnoc(g.sent, g.pending);
    }
  }

  /** Every datagram is the encoding of its group. */
  lemma DatagramsEncode(ws: seq<Wire>, mtu: nat)
    ensures Datagrams(ws, mtu) == Encodings(Split(ws, mtu))
  {
    PutAllEncodes(ws, |ws|, mtu);
    CloseEncodes(GroupAll(ws, |ws|, mtu));
  }

  // ---------------------------------------------------------------- reading back

  /** A segment that the receiver with conversation number `conv` understands. */
  predicate Understood(ws: seq<Wire>, conv: uint32, i: nat)
    requires i < |ws|
  {
    ws[i].conv == conv && KnownCommand(ws[i].cmd) && |ws[i].data| < TWO32
  }

  lemma ParseOne(conv: uint32, w: Wire, rest: bytes)
    requires w.conv == conv && KnownCommand(w.cmd) && |w.data| < TWO32
    ensures var p := Parse(conv, rest); Parse(conv, Encode(w) + rest) == Parsed([w] + p.ws, p.code)
  {
    HeaderFields(w, rest);
    DecodeInverts(w, rest);
  }

  lemma {:induction false} ParseReads(conv: uint32, ws: seq<Wire>, i: nat)
    requires i <= |ws|
    requires forall j :: 0 <= j < |ws| ==> Understood(ws, conv, j)
    ensures Parse(conv, EncodeFrom(ws, i)) == Parsed(ws[i..], 0)
    decreases |ws| - i
  {
    hide Encode, Parse;
    if i < |ws| {
      assert Understood(ws, conv, i);
      ParseOne(conv, ws[i], EncodeFrom(ws, i + 1));
      ParseReads(conv, ws, i + 1);
      assert ws[i..] == [ws[i]] + ws[i + 1..];
    } else {
      ParseNothing(conv);
    }
  }

  lemma ParseNothing(conv: uint32)
    ensures Parse(conv, []) == Parsed([], 0)
  {
  }

  /** `ikcp_input` accepts the datagram and does with it what the run `ws` asks for. */
  ghost predicate ReadsAs(s: State, datagram: bytes, ws: seq<Wire>) {
    Input(s, datagram) == (InputRun(s, ws, 0), 0)
  }

  lemma InputParsed(s: State, datagram: bytes, ws: seq<Wire>)
    requires OVERHEAD <= |datagram| < TWO31
    requires Parse(s.cfg.conv, datagram) == Parsed(ws, 0)
    ensures ReadsAs(s, datagram, ws)
  {
    hide InputRun, Parse;
  }

  lemma ParseReadsAll(conv: uint32, ws: seq<Wire>)
    requires forall j :: 0 <= j < |ws| ==> Understood(ws, conv, j)
    ensures Parse(conv, EncodeAll(ws)) == Parsed(ws, 0)
  {
    ParseReads(conv, ws, 0);
    assert ws[0..] == ws;
  }

  /** A datagram that carries a run of segments is read as exactly that run, and accepted. */
  lemma InputReads(s: State, ws: seq<Wire>)
    requires ws != [] && |EncodeAll(ws)| < TWO31
    requires forall j :: 0 <= j < |ws| ==> Understood(ws, s.cfg.conv, j)
    ensures ReadsAs(s, EncodeAll(ws), ws)
  {
    EncodeAllEmpty(ws);
    ParseReadsAll(s.cfg.conv, ws);
    InputParsed(s, EncodeAll(ws), ws);
  }

  // ---------------------------------------------------------------- what a flush sends

  /** What every buffered segment satisfies: it belongs here and its payload fits. */
  ghost predicate Ours(cfg: Config, buf: seq<Segment>, i: nat)
    requires i < |buf|
  {
    buf[i].conv == cfg.conv && buf[i].cmd == CMD_PUSH && buf[i].frg < 0x100 && |buf[i].data| <= cfg.mss
  }

  ghost predicate Queued(cfg: Config, q: seq<Segment>, i: nat)
    requires i < |q|
  {
    q[i].frg < 0x100 && |q[i].data| <= cfg.mss
  }

  ghost predicate AllOurs(cfg: Config, snd: Sender) {
    && (forall i :: 0 <= i < |snd.buf| ==> Ours(cfg, snd.buf, i))
    && (forall i :: 0 <= i < |snd.queue| ==> Queued(cfg, snd.queue, i))
  }

  lemma AdmitOurs(s: State, snd: Sender, cwnd: uint32)
    requires AllOurs(s.cfg, snd)
    ensures AllOurs(s.cfg, Admit(s, snd, cwnd))
  {
    var out := Admit(s, snd, cwnd);
    var n := AdmitCount(snd, cwnd);
    forall i | 0 <= i < |out.buf| ensures Ours(s.cfg, out.buf, i) {
      if i < |snd.buf| {
        assert Ours(s.cfg, snd.buf, i);
      } else {
        assert Queued(s.cfg, snd.queue, i - |snd.buf|);
      }
    }
    forall i | 0 <= i < |out.queue| ensures Queued(s.cfg, out.queue, i) {
      assert Queued(s.cfg, snd.queue, n + i);
    }
  }

  lemma TransmitOurs(s: State, buf: seq<Segment>)
    requires forall i :: 0 <= i < |buf| ==> Ours(s.cfg, buf, i)
    ensures forall i :: 0 <= i < |buf| ==> Ours(s.cfg, TransmitAll(s, buf), i)
  {
    forall i | 0 <= i < |buf| ensures Ours(s.cfg, TransmitAll(s, buf), i) {
      assert Ours(s.cfg, buf, i);
    }
  }

  /** What every transmitted segment satisfies. */
  predicate Outbound(cfg: Config, ws: seq<Wire>, i: nat)
    requires i < |ws|
  {
    ws[i].conv == cfg.conv && KnownCommand(ws[i].cmd) && |ws[i].data| <= cfg.mss
  }

  lemma {:induction false} DataOutbound(s: State, buf: seq<Segment>, n: nat)
    requires n <= |buf|
    requires forall i :: 0 <= i < |buf| ==> Ours(s.cfg, buf, i)
    ensures forall i :: 0 <= i < |DataWires(s, buf, n)| ==> Outbound(s.cfg, DataWires(s, buf, n), i)
  {
    if n > 0 {
      DataOutbound(s, buf, n - 1);
      assert Ours(s.cfg, buf, n - 1);
      var before, after := DataWires(s, buf, n - 1), DataWires(s, buf, n);
      forall i | 0 <= i < |after| ensures Outbound(s.cfg, after, i) {
        assert i < |before| ==> Outbound(s.cfg, before, i);
      }
    }
  }

  lemma FlushOutbound(s: State)
    requires AllOurs(s.cfg, s.snd)
    ensures forall i :: 0 <= i < |FlushWires(s)| ==> Outbound(s.cfg, FlushWires(s), i)
  {
    AdmitOurs(s, s.snd, FlushWindow(s));
    var buf := FlushSender(s).buf;
    DataOutbound(s, buf, |buf|);
    var acks, probes, data := AckWires(s, |s.acks|), ProbeWires(s, FlushProbe(s)), DataWires(s, buf, |buf|);
    forall i | 0 <= i < |FlushWires(s)| ensures Outbound(s.cfg, FlushWires(s), i) {
      var j := i - |acks| - |probes|;
      assert j >= 0 ==> Outbound(s.cfg, data, j);
    }
  }

  /** What one segment of a flush is: a queued acknowledgement, a window probe, or the data of a
      segment in the send buffer, stamped with the current time. All of them announce `rcv_nxt` and the
      free window. */
  ghost predicate Kind(s: State, w: Wire) {
    && w.una == s.rcv.nxt && w.wnd == WndUnused(s) % 0x1_0000
    && (w.cmd == CMD_PUSH ==> w.ts == s.timer.current)
    && match w.cmd
       case 82 => exists j :: 0 <= j < |s.acks| && w.sn == s.acks[j].sn && w.ts == s.acks[j].ts
       case 81 => exists j :: 0 <= j < |FlushSender(s).buf| && w == ToWire(Transmit(s, FlushSender(s).buf[j]))
       case _ => true
  }

  lemma {:induction false} DataKind(s: State, n: nat, i: nat)
    requires n <= |FlushSender(s).buf| && i < |DataWires(s, FlushSender(s).buf, n)|
    requires forall j :: 0 <= j < |FlushSender(s).buf| ==> Ours(s.cfg, FlushSender(s).buf, j)
    ensures Kind(s, DataWires(s, FlushSender(s).buf, n)[i])
  {
    hide FlushSender;
    var buf := FlushSender(s).buf;
    var before := DataWires(s, buf, n - 1);
    if i < |before| {
      DataKind(s, n - 1, i);
    } else {
      assert Ours(s.cfg, buf, n - 1);
      assert DataWires(s, buf, n)[i] == ToWire(Transmit(s, buf[n - 1]));
    }
  }

  lemma ControlKind(s: State, p: Probe, i: nat)
    requires i < |AckWires(s, |s.acks|) + ProbeWires(s, p)|
    ensures Kind(s, (AckWires(s, |s.acks|) + ProbeWires(s, p))[i])
  {
    hide FlushSender;
    if i < |s.acks| {
      assert AckWires(s, |s.acks|)[i] == Control(s, CMD_ACK, s.acks[i]);
    }
  }

  lemma FlushKind(s: State, i: nat)
    requires AllOurs(s.cfg, s.snd) && i < |FlushWires(s)|
    ensures Kind(s, FlushWires(s)[i])
  {
    var control := AckWires(s, |s.acks|) + ProbeWires(s, FlushProbe(s));
    if i < |control| {
      ControlKind(s, FlushProbe(s), i);
    } else {
      AdmitOurs(s, s.snd, FlushWindow(s));
      DataKind(s, |FlushSender(s).buf|, i - |control|);
    }
  }

  lemma {:induction false} DataSent(s: State, buf: seq<Segment>, n: nat, j: nat)
    requires j < n <= |buf| && Due(s, buf[j]) != Keep
    ensures ToWire(Transmit(s, buf[j])) in DataWires(s, buf, n)
  {
    hide Due, Transmit, ToWire;
    if j < n - 1 {
      DataSent(s, buf, n - 1, j);
    }
  }

  /** A flush answers every queued acknowledgement, and sends every segment that is new, overdue or
      skipped often enough. */
  lemma DueIsSent(s: State)
    ensures forall i :: 0 <= i < |s.acks| ==> Control(s, CMD_ACK, s.acks[i]) in FlushWires(s)
    ensures forall j :: 0 <= j < |FlushSender(s).buf| && Due(s, FlushSender(s).buf[j]) != Keep ==>
              ToWire(Transmit(s, FlushSender(s).buf[j])) in FlushWires(s)
  {
    hide Due, Transmit, ToWire, FlushSender, Control, ProbeWires, DataWires;
    var buf := FlushSender(s).buf;
    forall i | 0 <= i < |s.acks| ensures Control(s, CMD_ACK, s.acks[i]) in FlushWires(s) {
      assert AckWires(s, |s.acks|)[i] == Control(s, CMD_ACK, s.acks[i]);
    }
    forall j | 0 <= j < |buf| && Due(s, buf[j]) != Keep ensures ToWire(Transmit(s, buf[j])) in FlushWires(s) {
      DataSent(s, buf, |buf|, j);
    }
  }

  lemma {:induction false} JoinedMember(gs: seq<seq<Wire>>, n: nat, g: nat, i: nat) returns (k: nat)
    requires g < n <= |gs| && i < |gs[g]|
    ensures k < |Joined(gs, n)| && Joined(gs, n)[k] == gs[g][i]
  {
    if g == n - 1 {
      k := |Joined(gs, n - 1)| + i;
    } else {
      k := JoinedMember(gs, n - 1, g, i);
    }
  }

  /** The segments of one datagram are among those of the flush. */
  lemma SplitMember(ws: seq<Wire>, mtu: nat, g: nat, i: nat) returns (k: nat)
    requires g < |Split(ws, mtu)| && i < |Split(ws, mtu)[g]|
    ensures k < |ws| && ws[k] == Split(ws, mtu)[g][i]
  {
    SplitJoins(ws, mtu);
    k := JoinedMember(Split(ws, mtu), |Split(ws, mtu)|, g, i);
  }

  /** Flush and input undo each other. Every datagram of a flush is 24 to mtu bytes of whole
      segments, all together they are the flush's segments in order, and an endpoint with the same
      conversation number reads each datagram as exactly its segments. */
  lemma FlushThenInput(s: State, peer: State)
    requires AllOurs(s.cfg, s.snd) && s.timer.updated
    requires peer.cfg.conv == s.cfg.conv
    ensures var groups := Split(FlushWires(s), s.cfg.Mtu());
            && Flush(s).1 == Encodings(groups)
            && Joined(groups, |groups|) == FlushWires(s)
            && (forall g :: 0 <= g < |groups| ==> Fitting(groups, g, s.cfg.Mtu()))
            && (forall g :: 0 <= g < |groups| ==> ReadsAs(peer, Flush(s).1[g], groups[g]))
  {
    var ws, mtu := FlushWires(s), s.cfg.Mtu();
    var groups := Split(ws, mtu);
    FlushOutbound(s);
    DatagramsEncode(ws, mtu);
    SplitJoins(ws, mtu);
    SplitFits(s);
    forall g | 0 <= g < |groups| ensures ReadsAs(peer, Encodings(groups)[g], groups[g]) {
      assert Fitting(groups, g, mtu);
      GroupUnderstood(s, g);
      InputReads(peer, groups[g]);
    }
  }

  lemma SplitFits(s: State)
    requires forall i :: 0 <= i < |FlushWires(s)| ==> Outbound(s.cfg, FlushWires(s), i)
    ensures forall g :: 0 <= g < |Split(FlushWires(s), s.cfg.Mtu())| ==>
              Fitting(Split(FlushWires(s), s.cfg.Mtu()), g, s.cfg.Mtu())
  {
    var ws := FlushWires(s);
    forall i | 0 <= i < |ws| ensures |ws[i].data| + OVERHEAD <= s.cfg.Mtu() {
      assert Outbound(s.cfg, ws, i);
    }
    GroupAllFits(ws, |ws|, s.cfg.Mtu());
    CloseFits(GroupAll(ws, |ws|, s.cfg.Mtu()), s.cfg.Mtu());
  }

  lemma GroupUnderstood(s: State, g: nat)
    requires forall i :: 0 <= i < |FlushWires(s)| ==> Outbound(s.cfg, FlushWires(s), i)
    requires g < |Split(FlushWires(s), s.cfg.Mtu())|
    ensures var ws := Split(FlushWires(s), s.cfg.Mtu())[g];
            forall i :: 0 <= i < |ws| ==> Understood(ws, s.cfg.conv, i)
  {
    var ws := Split(FlushWires(s), s.cfg.Mtu())[g];
    forall i | 0 <= i < |ws| ensures Understood(ws, s.cfg.conv, i) {
      var k := SplitMember(FlushWires(s), s.cfg.Mtu(), g, i);
      assert Outbound(s.cfg, FlushWires(s), k);
    }
  }

  /** The datagrams are as full as they can be: none had room for the first segment of the next. */
  predicate Greedy(gs: seq<seq<Wire>>, g: nat, mtu: nat)
    requires g + 1 < |gs|
  {
    gs[g + 1] != [] && |EncodeAll(gs[g])| + |Encode(gs[g + 1][0])| > mtu
  }

  lemma {:induction false} GroupAllGreedy(ws: seq<Wire>, n: nat, mtu: nat)
    requires n <= |ws|
    ensures var gs := CloseGroup(GroupAll(ws, n, mtu));
            forall g :: 0 <= g < |gs| - 1 ==> Greedy(gs, g, mtu)
    ensures var g := GroupAll(ws, n, mtu); g.pending == [] ==> g.sent == []
  {
    hide Encode, EncodeAll;
    if n > 0 {
      GroupAllGreedy(ws, n - 1, mtu);
      AddGreedy(GroupAll(ws, n - 1, mtu), ws[n - 1], mtu);
    }
  }

  lemma AddGreedy(g: Groups, w: Wire, mtu: nat)
    requires g.pending == [] ==> g.sent == []
    requires var gs := CloseGroup(g); forall k :: 0 <= k < |gs| - 1 ==> Greedy(gs, k, mtu)
    ensures var gs := CloseGroup(AddTo(g, w, mtu)); forall k :: 0 <= k < |gs| - 1 ==> Greedy(gs, k, mtu)
    ensures AddTo(g, w, mtu).pending != []
  {
    hide Encode, EncodeAll;
    var before, after := CloseGroup(g), CloseGroup(AddTo(g, w, mtu));
    forall k | 0 <= k < |after| - 1 ensures Greedy(after, k, mtu) {
      assert k < |before| - 1 ==> Greedy(before, k, mtu);
    }
  }

  lemma SplitIsGreedy(ws: seq<Wire>, mtu: nat, g: nat)
    requires g + 1 < |Split(ws, mtu)|
    ensures Greedy(Split(ws, mtu), g, mtu)
  {
    GroupAllGreedy(ws, |ws|, mtu);
    hide GroupAll, Greedy;
  }

  /** The order of a flush: acknowledgements first, as they were queued, then a probe, then an announcement,
      then data. */
  function Rank(cmd: byte): nat {
    match cmd
    case 82 => 0
    case 83 => 1
    case 84 => 2
    case _ => 3
  }

  lemma {:induction false} DataPlace(s: State, buf: seq<Segment>, n: nat, i: nat) returns (j: nat)
    requires n <= |buf| && i < |DataWires(s, buf, n)|
    ensures i <= j < n && Due(s, buf[j]) != Keep && DataWires(s, buf, n)[i] == ToWire(Transmit(s, buf[j]))
    ensures |DataWires(s, buf, j)| == i
  {
    hide Due, Transmit, ToWire;
    if i < |DataWires(s, buf, n - 1)| {
      j := DataPlace(s, buf, n - 1, i);
    } else {
      j := n - 1;
      DataCount(s, buf, n - 1);
    }
  }

  lemma {:induction false} DataCount(s: State, buf: seq<Segment>, n: nat)
    requires n <= |buf|
    ensures |DataWires(s, buf, n)| <= n
  {
    if n > 0 {
      DataCount(s, buf, n - 1);
    }
  }

  lemma {:induction false} DataGrows(s: State, buf: seq<Segment>, m: nat, n: nat)
    requires m <= n <= |buf|
    ensures DataWires(s, buf, m) <= DataWires(s, buf, n)
    decreases n
  {
    if m < n {
      DataGrows(s, buf, m, n - 1);
    }
  }

  /** The segments of a flush in order: acknowledgement `i` is the `i`th queued one, the ranks never fall, and
      data goes out in the order of the send buffer. */
  lemma FlushOrder(s: State, i: nat, k: nat)
    requires AllOurs(s.cfg, s.snd) && i < k < |FlushWires(s)|
    ensures var ws := FlushWires(s);
            && Rank(ws[i].cmd) <= Rank(ws[k].cmd)
            && (k < |s.acks| ==> ws[k].cmd == 82 && ws[k].sn == s.acks[k].sn && ws[k].ts == s.acks[k].ts)
            && (k >= |s.acks| ==> ws[k].cmd != 82)
            && (ws[i].cmd == 81 ==> exists a, b :: 0 <= a < b < |FlushSender(s).buf| && InTurn(s, a, b, ws[i], ws[k]))
  {
    var buf := FlushSender(s).buf;
    var acks, probes, data := AckWires(s, |s.acks|), ProbeWires(s, FlushProbe(s)), DataWires(s, buf, |buf|);
    var ws, base := FlushWires(s), |s.acks| + |probes|;
    AdmitOurs(s, s.snd, FlushWindow(s));
    ProbesAre(s, FlushProbe(s));
    hide FlushSender, Transmit, ToWire, Due, ProbeWires, FlushProbe, DataWires, Ours, AdmitCount;
    if k < base {
      assert ws[k] == (acks + probes)[k] && ws[i] == (acks + probes)[i];
    } else {
      var b := DataPlace(s, buf, |buf|, k - base);
      DataIsPush(s, buf, b);
      if i >= base {
        var a := DataPlace(s, buf, |buf|, i - base);
        DataIsPush(s, buf, a);
        if a >= b {
          DataGrows(s, buf, b, a);
        }
        assert InTurn(s, a, b, ws[i], ws[k]);
      } else {
        assert ws[i] == (acks + probes)[i];
      }
    }
  }

  predicate InTurn(s: State, a: nat, b: nat, v: Wire, w: Wire)
    requires a < |FlushSender(s).buf| && b < |FlushSender(s).buf|
  {
    v == ToWire(Transmit(s, FlushSender(s).buf[a])) && w == ToWire(Transmit(s, FlushSender(s).buf[b]))
  }

  lemma DataIsPush(s: State, buf: seq<Segment>, j: nat)
    requires j < |buf| && Ours(s.cfg, buf, j)
    ensures ToWire(Transmit(s, buf[j])).cmd == 81
  {
  }

  lemma ProbesAre(s: State, p: Probe)
    ensures var ws := ProbeWires(s, p);
            && |ws| <= 2 && (forall i :: 0 <= i < |ws| ==> ws[i].cmd == 83 || ws[i].cmd == 84)
            && (|ws| == 2 ==> ws[0].cmd == 83 && ws[1].cmd == 84)
  {
  }

  /** With a receive window below 2^16 the narrow header fields lose nothing. */
  lemma HeaderExact(s: State, seg: Segment)
    requires s.cfg.rcvWnd < 0x1_0000 && seg.cmd == CMD_PUSH && seg.frg < 0x100
    requires Due(s, seg) != Keep
    ensures var w, t := ToWire(Transmit(s, seg)), Transmit(s, seg);
            w == Wire(t.conv, t.cmd, t.frg, WndUnused(s), t.ts, t.sn, s.rcv.nxt, t.data)
  {
  }
}
