/**
 The NACK scheduler: which lost packets are remembered, which of them a report asks for again and
 when, and how the request is packed into PID/BLP blocks (section 6.2.1 of RFC 4585).
 */
module NackGenerator {
  import opened Numbers
  import opened Serial

  const MAX_RETRANSMITS := 2
  const MAX_NACKS := 150
  const MIN_NACK_DELAY_MS := 20
  const COMMON_HEADER_LENGTH := 12
  const RTP_FEEDBACK: byte := 205

  /** A lost packet. `asked` is history: the times at which it has been requested. */
  datatype NackInfo = NackInfo(seqNum: uint16, retransmits: nat, sentTime: uint64, asked: seq<uint64>)

  /** A 16-bit mask, lowest bit first. */
  type Mask = m: seq<bool> | |m| == 16 witness ZEROS

  const ZEROS := [false, false, false, false, false, false, false, false,
                  false, false, false, false, false, false, false, false]

  datatype Block = Block(pid: uint16, blp: Mask)

  /** `RtpUtils::sequenceNumberLessThan` */
  predicate LessThan(first: uint16, last: uint16) {
    U16(first - last) > 0xF000
  }

  /** A packet counts as old exactly if it is less than 4096 behind; one that is further behind is
      taken for a newer one. */
  lemma LessThanMeans(k: int, h: int)
    requires -0x1_0000 < k - h < 0x1_0000
    ensures LessThan(U16(k), U16(h)) <==> -0x1000 < k - h < 0 || 0xF000 < k - h
  {
  }

  // ---------------------------------------------------------------- what is remembered

  function Lost(seqNum: uint16): NackInfo {
    NackInfo(seqNum, 0, 0, [])
  }

  /** The numbers from `current` up to `end`, exclusive, counting on through the wrap. */
  function Missing(current: uint16, end: uint16): seq<NackInfo>
    decreases U16(end - current)
  {
    if current == end then [] else [Lost(current)] + Missing(U16(current + 1), end)
  }

  lemma {:induction false} MissingIs(current: uint16, end: uint16, i: nat)
    ensures |Missing(current, end)| == U16(end - current)
    ensures i < U16(end - current) ==> Missing(current, end)[i] == Lost(U16(current + i))
    decreases U16(end - current)
  {
    hide U16;
    OneOn(current, end, i);
    if current != end {
      MissingIs(U16(current + 1), end, if i > 0 then i - 1 else 0);
    }
  }

  lemma OneOn(current: uint16, end: uint16, i: nat)
    ensures current == end ==> U16(end - current) == 0
    ensures current != end ==> 0 <= U16(end - U16(current + 1)) == U16(end - current) - 1
    ensures i > 0 ==> U16(U16(current + 1) + (i - 1)) == U16(current + i)
    ensures U16(current + 0) == current
  {
  }

  /** `addNacks`: only the first `MAX_NACKS` are kept. */
  function AddNacks(list: seq<NackInfo>, highest: uint16, seqNum: uint16): seq<NackInfo> {
    var all := list + Missing(U16(highest + 1), seqNum);
    if |all| > MAX_NACKS then all[..MAX_NACKS] else all
  }

  /** Where the number first stands in the list, or its length. */
  function Find(list: seq<NackInfo>, seqNum: uint16, i: nat := 0): (p: nat)
    requires i <= |list|
    ensures i <= p <= |list|
    ensures p < |list| ==> list[p].seqNum == seqNum
    ensures forall j :: i <= j < p ==> list[j].seqNum != seqNum
    decreases |list| - i
  {
    if i == |list| || list[i].seqNum == seqNum then i else Find(list, seqNum, i + 1)
  }

  function Recovered(list: seq<NackInfo>, seqNum: uint16): seq<NackInfo> {
    var p := Find(list, seqNum);
    if p < |list| then list[..p] + list[p + 1..] else list
  }

  datatype State = State(initialized: bool, highest: uint16, ssrc: uint32, list: seq<NackInfo>)

  datatype RtpPacket = RtpPacket(video: bool, ssrc: uint32, seqNum: uint16)

  /** `handleRtpPacket` */
  function Handle(s: State, p: RtpPacket): (State, bool) {
    if !p.video || p.ssrc != s.ssrc then (s, false)
    else if !s.initialized then (s.(highest := p.seqNum, initialized := true), false)
    else if p.seqNum == s.highest then (s, false)
    else if LessThan(p.seqNum, s.highest) then (s.(list := Recovered(s.list, p.seqNum)), false)
    else
      var list := AddNacks(s.list, s.highest, p.seqNum);
      (s.(list := list, highest := p.seqNum), list != [])
  }

  /** Packets that are not video of the stream change nothing, nor does the highest one once more. The first
      packet of the stream only sets the highest number. None of these has anything to ask for. */
  lemma OthersChangeNothing(s: State, p: RtpPacket)
    ensures !p.video || p.ssrc != s.ssrc ==> Handle(s, p) == (s, false)
    ensures p.video && p.ssrc == s.ssrc && !s.initialized ==>
              Handle(s, p) == (State(true, p.seqNum, s.ssrc, s.list), false)
    ensures p.video && p.ssrc == s.ssrc && s.initialized && p.seqNum == s.highest ==> Handle(s, p) == (s, false)
  {
  }

  /** Packet number `h + n + 1` after `h` puts exactly the `n` numbers between them on the list, as
      far as there is room, and reports whether there is anything to ask for. */
  lemma GapIsRemembered(s: State, h: int, n: nat)
    requires s.initialized && s.highest == U16(h) && 0 <= n < 0xF000
    ensures var (t, r) := Handle(s, RtpPacket(true, s.ssrc, U16(h + n + 1)));
            && t.highest == U16(h + n + 1) && r == (t.list != [])
            && |t.list| == (if |s.list| + n > 150 then 150 else |s.list| + n)
            && forall i :: 0 <= i < |t.list| ==>
                 t.list[i] == if i < |s.list| then s.list[i] else Lost(U16(h + 1 + (i - |s.list|)))
  {
    LessThanMeans(h + n + 1, h);
    var from, to := U16(h + 1), U16(h + n + 1);
    SameStart(h, n);
    MissingIs(from, to, 0);
    var t := Handle(s, RtpPacket(true, s.ssrc, to)).0;
    hide LessThan, Missing;
    forall i | |s.list| <= i < |t.list| ensures t.list[i] == Lost(U16(h + 1 + (i - |s.list|))) {
      MissingIs(from, to, i - |s.list|);
      NextNumber(h, i - |s.list|);
    }
  }

  lemma SameStart(h: int, n: nat)
    requires n < 0xF000
    ensures U16(U16(h) + 1) == U16(h + 1) && U16(U16(h + n + 1) - U16(h + 1)) == n
    ensures U16(h + n + 1) != U16(h)
  {
  }

  lemma NextNumber(h: int, i: nat)
    ensures U16(U16(h + 1) + i) == U16(h + 1 + i)
  {
  }

  // ---------------------------------------------------------------- a late packet

  /** The entry that a late packet with this number takes off the list. */
  ghost predicate FirstWith(list: seq<NackInfo>, seqNum: uint16, i: nat) {
    i < |list| && list[i].seqNum == seqNum && forall j :: 0 <= j < i ==> list[j].seqNum != seqNum
  }

  ghost predicate Remembered(list: seq<NackInfo>, seqNum: uint16) {
    exists i :: 0 <= i < |list| && list[i].seqNum == seqNum
  }

  /** `after` is `before` without the entry at position `i`. */
  ghost predicate Without(before: seq<NackInfo>, i: nat, after: seq<NackInfo>) {
    && |after| == |before| - 1
    && forall j :: 0 <= j < |after| ==> after[j] == before[if j < i then j else j + 1]
  }

  /** A video packet of the stream whose number is 1 to 4095 behind the highest one asks for nothing and
      leaves the highest number. It takes exactly the first entry with its number off the list, if there
      is one, and every other entry stays, in order. */
  lemma LateIsRecovered(s: State, h: int, n: nat)
    requires s.initialized && s.highest == U16(h) && 0 < n < 0x1000
    ensures var seqNum := U16(h - n);
            var (t, r) := Handle(s, RtpPacket(true, s.ssrc, seqNum));
            && !r && t.initialized && t.highest == s.highest && t.ssrc == s.ssrc
            && (forall i :: FirstWith(s.list, seqNum, i) ==> Without(s.list, i, t.list))
            && (!Remembered(s.list, seqNum) ==> t.list == s.list)
  {
    var seqNum := U16(h - n);
    LessThanMeans(h - n, h);
    hide LessThan, U16;
    var p := Find(s.list, seqNum);
    var t := Handle(s, RtpPacket(true, s.ssrc, seqNum)).0;
    forall i | FirstWith(s.list, seqNum, i) ensures Without(s.list, i, t.list) {
      assert p == i;
    }
  }

  ghost predicate NoRepeats(list: seq<NackInfo>) {
    forall i, j :: 0 <= i < j < |list| ==> list[i].seqNum != list[j].seqNum
  }

  /** In a list without repeated numbers, a packet that has arrived late is no longer on it, and every
      other number still is. */
  lemma LateIsOff(s: State, h: int, n: nat, other: uint16)
    requires s.initialized && s.highest == U16(h) && 0 < n < 0x1000 && NoRepeats(s.list)
    ensures var seqNum := U16(h - n);
            var list := Handle(s, RtpPacket(true, s.ssrc, seqNum)).0.list;
            && NoRepeats(list) && !Remembered(list, seqNum)
            && (other != seqNum ==> (Remembered(list, other) <==> Remembered(s.list, other)))
  {
    LateIsRecovered(s, h, n);
    var seqNum := U16(h - n);
    var list := Handle(s, RtpPacket(true, s.ssrc, seqNum)).0.list;
    hide Handle, U16;
    if i :| 0 <= i < |s.list| && s.list[i].seqNum == seqNum {
      assert FirstWith(s.list, seqNum, i);
      if other != seqNum {
        StillThere(s.list, i, list, other);
      }
    }
  }

  lemma StillThere(before: seq<NackInfo>, i: nat, after: seq<NackInfo>, other: uint16)
    requires i < |before| && Without(before, i, after) && other != before[i].seqNum
    ensures Remembered(after, other) <==> Remembered(before, other)
  {
    if j :| 0 <= j < |before| && before[j].seqNum == other {
      assert after[if j < i then j else j - 1].seqNum == other;
    }
    if j :| 0 <= j < |after| && after[j].seqNum == other {
      assert before[if j < i then j else j + 1].seqNum == other;
    }
  }

  // ---------------------------------------------------------------- what a report asks for

  predicate Due(e: NackInfo, now: uint64) {
    e.sentTime == 0 || U64(now - e.sentTime) > MIN_NACK_DELAY_MS
  }

  /** What a report does with an entry of the list. */
  datatype Act = Leave | Drop | Ask

  /** Only an entry that is due is touched: it is asked for unless it has been twice already. */
  predicate Justified(a: Act, e: NackInfo, now: uint64) {
    a != Leave ==> Due(e, now) && (a == Ask <==> e.retransmits < MAX_RETRANSMITS)
  }

  /** The entries that one block covers: what is done with those from position `i` on until the block
      ends, its mask, and the position after which the next block is looked for. */
  datatype Cover = Cover(acts: seq<Act>, blp: Mask, next: nat)

  function Distance(e: NackInfo, pid: uint16): uint16 {
    U16(e.seqNum - pid - 1)
  }

  function SetBit(blp: Mask, d: uint16): Mask
    requires d <= 15
  {
    blp[d := true]
  }

  /** The inner loop of `addNackPacketToRr`. An entry that is too far away ends the block and is passed
      over, and so is the entry that follows a dropped one. */
  function Fill(list: seq<NackInfo>, pid: uint16, now: uint64, i: nat, blp: Mask): (c: Cover)
    requires i <= |list|
    ensures i <= c.next <= |list| && |c.acts| == c.next - i
    ensures forall j :: 0 <= j < |c.acts| ==> Justified(c.acts[j], list[i + j], now)
    decreases |list| - i
  {
    if i == |list| then Cover([], blp, i)
    else
      var e, d := list[i], Distance(list[i], pid);
      if d > 15 then Cover([Leave], blp, i + 1)
      else if !Due(e, now) then
        var c := Fill(list, pid, now, i + 1, blp);
        c.(acts := [Leave] + c.acts)
      else if e.retransmits >= MAX_RETRANSMITS then
        if i + 1 == |list| then Cover([Drop], blp, i + 1)
        else
          var c := Fill(list, pid, now, i + 2, blp);
          c.(acts := [Drop, Leave] + c.acts)
      else
        var c := Fill(list, pid, now, i + 1, SetBit(blp, d));
        c.(acts := [Ask] + c.acts)
  }

  datatype Plan = Plan(acts: seq<Act>, blocks: seq<Block>)

  /** The outer loop, from position `i` on. */
  function Report(list: seq<NackInfo>, now: uint64, i: nat := 0): (p: Plan)
    requires i <= |list|
    ensures |p.acts| == |list| - i && |p.blocks| <= |list| - i
    ensures forall j :: 0 <= j < |p.acts| ==> Justified(p.acts[j], list[i + j], now)
    decreases |list| - i
  {
    if i == |list| then Plan([], [])
    else
      var e := list[i];
      if !Due(e, now) then
        var p := Report(list, now, i + 1);
        p.(acts := [Leave] + p.acts)
      else if e.retransmits >= MAX_RETRANSMITS then
        var p := Report(list, now, i + 1);
        p.(acts := [Drop] + p.acts)
      else
        var c := Fill(list, e.seqNum, now, i + 1, ZEROS);
        var p := Report(list, now, c.next);
        Plan([Ask] + c.acts + p.acts, [Block(e.seqNum, c.blp)] + p.blocks)
  }

  /** An entry that has just been asked for. */
  function Asked(e: NackInfo, now: uint64): NackInfo {
    e.(retransmits := e.retransmits + 1, sentTime := now, asked := e.asked + [now])
  }

  /** The list after the first `n` acts of a report. */
  function Apply(list: seq<NackInfo>, acts: seq<Act>, now: uint64, n: nat): seq<NackInfo>
    requires n <= |acts| && n <= |list|
  {
    if n == 0 then []
    else
      Apply(list, acts, now, n - 1)
      + match acts[n - 1]
        case Leave => [list[n - 1]]
        case Drop => []
        case Ask => [Asked(list[n - 1], now)]
  }

  function AfterReport(list: seq<NackInfo>, now: uint64): seq<NackInfo> {
    Apply(list, Report(list, now).acts, now, |list|)
  }

  // ---------------------------------------------------------------- the blocks name what was asked

  /** A block requests its PID, and PID + d + 1 for every bit d of its mask. */
  predicate Names(b: Block, s: uint16) {
    s == b.pid || (U16(s - b.pid - 1) <= 15 && b.blp[U16(s - b.pid - 1)])
  }

  predicate NamedIn(blocks: seq<Block>, s: uint16) {
    exists k :: 0 <= k < |blocks| && Names(blocks[k], s)
  }

  predicate AskedAt(list: seq<NackInfo>, acts: seq<Act>, i: nat, j: nat, s: uint16)
    requires i + |acts| <= |list| && j < |acts|
  {
    acts[j] == Ask && list[i + j].seqNum == s
  }

  /** Among the entries from position `i` on, those with an `Ask` include number `s`. */
  predicate AskedIn(list: seq<NackInfo>, acts: seq<Act>, i: nat, s: uint16)
    requires i + |acts| <= |list|
  {
    exists j :: 0 <= j < |acts| && AskedAt(list, acts, i, j, s)
  }

  lemma AskedCons(list: seq<NackInfo>, a: Act, acts: seq<Act>, i: nat, s: uint16)
    requires i + 1 + |acts| <= |list|
    ensures AskedIn(list, [a] + acts, i, s)
        <==> (a == Ask && list[i].seqNum == s) || AskedIn(list, acts, i + 1, s)
  {
    var all := [a] + acts;
    if AskedIn(list, all, i, s) {
      var j :| 0 <= j < |all| && AskedAt(list, all, i, j, s);
      assert j > 0 ==> AskedAt(list, acts, i + 1, j - 1, s);
    }
    if AskedIn(list, acts, i + 1, s) {
      var j :| 0 <= j < |acts| && AskedAt(list, acts, i + 1, j, s);
      assert AskedAt(list, all, i, j + 1, s);
    }
    if a == Ask && list[i].seqNum == s {
      assert AskedAt(list, all, i, 0, s);
    }
  }

  lemma {:induction false} AskedConcat(list: seq<NackInfo>, a: seq<Act>, b: seq<Act>, i: nat, s: uint16)
    requires i + |a| + |b| <= |list|
    ensures AskedIn(list, a + b, i, s) <==> AskedIn(list, a, i, s) || AskedIn(list, b, i + |a|, s)
  {
    if a == [] {
      assert a + b == b;
    } else {
      AskedConcat(list, a[1..], b, i + 1, s);
      assert a == [a[0]] + a[1..] && a + b == [a[0]] + (a[1..] + b);
      AskedCons(list, a[0], a[1..], i, s);
      AskedCons(list, a[0], a[1..] + b, i, s);
    }
  }

  /** Bit d of the mask is set exactly for the entries asked for at distance d, besides the bits that
      were set before. */
  lemma {:induction false} FillNames(list: seq<NackInfo>, pid: uint16, now: uint64, i: nat, blp: Mask, s: uint16)
    requires i <= |list|
    ensures var c := Fill(list, pid, now, i, blp);
            var d := U16(s - pid - 1);
            && (d <= 15 ==> (c.blp[d] <==> blp[d] || AskedIn(list, c.acts, i, s)))
            && (d > 15 ==> !AskedIn(list, c.acts, i, s))
    decreases |list| - i
  {
    hide AskedIn, Due, U16;
    AskedNone(list, i, s);
    if i < |list| {
      var e := list[i];
      if Distance(e, pid) > 15 {
        assert [Leave] + [] == [Leave];
        AskedCons(list, Leave, [], i, s);
        AskedNone(list, i + 1, s);
      } else if !Due(e, now) {
        FillNames(list, pid, now, i + 1, blp, s);
        AskedCons(list, Leave, Fill(list, pid, now, i + 1, blp).acts, i, s);
      } else if e.retransmits >= MAX_RETRANSMITS {
        FillNamesDrop(list, pid, now, i, blp, s);
      } else {
        var more := SetBit(blp, Distance(e, pid));
        FillNames(list, pid, now, i + 1, more, s);
        SameDistance(e.seqNum, s, pid);
        AskedCons(list, Ask, Fill(list, pid, now, i + 1, more).acts, i, s);
      }
    }
  }

  lemma {:induction false} FillNamesDrop(list: seq<NackInfo>, pid: uint16, now: uint64, i: nat, blp: Mask, s: uint16)
    requires i < |list| && Distance(list[i], pid) <= 15 && Due(list[i], now) && list[i].retransmits >= MAX_RETRANSMITS
    ensures var c := Fill(list, pid, now, i, blp);
            var d := U16(s - pid - 1);
            && (d <= 15 ==> (c.blp[d] <==> blp[d] || AskedIn(list, c.acts, i, s)))
            && (d > 15 ==> !AskedIn(list, c.acts, i, s))
    decreases |list| - i, 0
  {
    hide AskedIn, U16;
    if i + 1 == |list| {
      assert [Drop] + [] == [Drop];
      AskedCons(list, Drop, [], i, s);
      AskedNone(list, i + 1, s);
    } else {
      FillNames(list, pid, now, i + 2, blp, s);
      var acts := Fill(list, pid, now, i + 2, blp).acts;
      assert [Drop, Leave] + acts == [Drop] + ([Leave] + acts);
      AskedCons(list, Leave, acts, i + 1, s);
      AskedCons(list, Drop, [Leave] + acts, i, s);
    }
  }

  lemma AskedNone(list: seq<NackInfo>, i: nat, s: uint16)
    requires i <= |list|
    ensures !AskedIn(list, [], i, s)
  {
  }

  lemma SameDistance(a: uint16, b: uint16, pid: uint16)
    ensures U16(a - pid - 1) == U16(b - pid - 1) <==> a == b
  {
  }

  lemma NamedCons(b: Block, blocks: seq<Block>, s: uint16)
    ensures NamedIn([b] + blocks, s) <==> Names(b, s) || NamedIn(blocks, s)
  {
    hide Names;
    var all := [b] + blocks;
    if NamedIn(blocks, s) {
      var k :| 0 <= k < |blocks| && Names(blocks[k], s);
      assert Names(all[k + 1], s);
    }
    if Names(b, s) {
      assert Names(all[0], s);
    }
    if NamedIn(all, s) {
      var k :| 0 <= k < |all| && Names(all[k], s);
      assert k > 0 ==> Names(blocks[k - 1], s);
    }
  }

  /** The blocks request exactly the numbers of the entries that were asked for. */
  lemma {:induction false} ReportNames(list: seq<NackInfo>, now: uint64, i: nat, s: uint16)
    requires i <= |list|
    ensures NamedIn(Report(list, now, i).blocks, s) <==> AskedIn(list, Report(list, now, i).acts, i, s)
    decreases |list| - i
  {
    hide AskedIn, NamedIn, Due, Fill;
    if i == |list| {
      AskedNone(list, i, s);
      NamedNone(s);
    } else {
      var e := list[i];
      if !Due(e, now) {
        ReportNames(list, now, i + 1, s);
        AskedCons(list, Leave, Report(list, now, i + 1).acts, i, s);
      } else if e.retransmits >= MAX_RETRANSMITS {
        ReportNames(list, now, i + 1, s);
        AskedCons(list, Drop, Report(list, now, i + 1).acts, i, s);
      } else {
        var c := Fill(list, e.seqNum, now, i + 1, ZEROS);
        var p := Report(list, now, c.next);
        ReportNames(list, now, c.next, s);
        BlockNames(list, e, now, i, s);
        NamedCons(Block(e.seqNum, c.blp), p.blocks, s);
        AskedConcat(list, [Ask] + c.acts, p.acts, i, s);
      }
    }
  }

  lemma NamedNone(s: uint16)
    ensures !NamedIn([], s)
  {
  }

  lemma BlockNames(list: seq<NackInfo>, e: NackInfo, now: uint64, i: nat, s: uint16)
    requires i < |list| && e == list[i]
    ensures var c := Fill(list, e.seqNum, now, i + 1, ZEROS);
            Names(Block(e.seqNum, c.blp), s) <==> AskedIn(list, [Ask] + c.acts, i, s)
  {
    hide AskedIn, Fill, U16;
    var c := Fill(list, e.seqNum, now, i + 1, ZEROS);
    FillNames(list, e.seqNum, now, i + 1, ZEROS, s);
    AskedCons(list, Ask, c.acts, i, s);
    assert forall d :: 0 <= d < 16 ==> !ZEROS[d];
  }

  // ---------------------------------------------------------------- the list after a report

  lemma {:induction false} ApplyAt(list: seq<NackInfo>, acts: seq<Act>, now: uint64, n: nat, j: nat)
    requires j < n <= |acts| && n <= |list| && acts[j] != Drop
    ensures var k := |Apply(list, acts, now, j)|;
            && k < |Apply(list, acts, now, n)|
            && Apply(list, acts, now, n)[k] == if acts[j] == Ask then Asked(list[j], now) else list[j]
  {
    hide Asked;
    if j < n - 1 {
      ApplyAt(list, acts, now, n - 1, j);
    }
  }

  /** A report requests exactly the numbers whose retransmit counters it raises: each entry that is
      asked for stays in the list with its counter raised by one, and no other counter changes. */
  lemma RequestsWhatItCounts(list: seq<NackInfo>, now: uint64)
    ensures var p := Report(list, now);
            && (forall s: uint16 :: NamedIn(p.blocks, s) <==> AskedIn(list, p.acts, 0, s))
            && forall j :: 0 <= j < |list| && p.acts[j] != Drop ==>
                 var k := |Apply(list, p.acts, now, j)|;
                 && k < |AfterReport(list, now)|
                 && AfterReport(list, now)[k] == if p.acts[j] == Ask then Asked(list[j], now) else list[j]
  {
    var p := Report(list, now);
    hide Report, NamedIn, AskedIn, Asked;
    forall s: uint16 ensures NamedIn(p.blocks, s) <==> AskedIn(list, p.acts, 0, s) {
      ReportNames(list, now, 0, s);
    }
    forall j | 0 <= j < |list| && p.acts[j] != Drop
      ensures |Apply(list, p.acts, now, j)| < |AfterReport(list, now)|
      ensures AfterReport(list, now)[|Apply(list, p.acts, now, j)|]
           == if p.acts[j] == Ask then Asked(list[j], now) else list[j]
    {
      ApplyAt(list, p.acts, now, |list|, j);
    }
  }

  // ---------------------------------------------------------------- which due entries are left out

  /** Where a report stands before it looks at an entry: between blocks, in the block of a PID, or in
      such a block just behind a dropped entry. */
  datatype Standing = Between | In(pid: uint16) | Behind(pid: uint16)

  predicate Exhausted(e: NackInfo, now: uint64) {
    Due(e, now) && e.retransmits >= MAX_RETRANSMITS
  }

  predicate Askable(e: NackInfo, now: uint64) {
    Due(e, now) && e.retransmits < MAX_RETRANSMITS
  }

  function Onward(st: Standing, e: NackInfo, now: uint64): Standing {
    match st
    case Between => if Askable(e, now) then In(e.seqNum) else Between
    case In(pid) =>
      if Distance(e, pid) > 15 then Between else if Exhausted(e, now) then Behind(pid) else st
    case Behind(pid) => In(pid)
  }

  /** Where a report that stands at `st` before entry `i` stands before entry `j`. */
  function StandingAt(list: seq<NackInfo>, now: uint64, st: Standing, i: nat, j: nat): Standing
    requires i <= j <= |list|
    decreases j - i
  {
    if i == j then st else StandingAt(list, now, Onward(st, list[i], now), i + 1, j)
  }

  /** The entry ends the block that is open, or stands behind one that was dropped from it. */
  predicate PassedOver(st: Standing, e: NackInfo) {
    st.Behind? || (st.In? && Distance(e, st.pid) > 15)
  }

  function ActThere(st: Standing, e: NackInfo, now: uint64): Act {
    if PassedOver(st, e) || !Due(e, now) then Leave else if Exhausted(e, now) then Drop else Ask
  }

  predicate ActsAs(list: seq<NackInfo>, now: uint64, st: Standing, i: nat, acts: seq<Act>, j: nat)
    requires i + |acts| <= |list| && j < |acts|
  {
    acts[j] == ActThere(StandingAt(list, now, st, i, i + j), list[i + j], now)
  }

  predicate AllActAs(list: seq<NackInfo>, now: uint64, st: Standing, i: nat, acts: seq<Act>)
    requires i + |acts| <= |list|
  {
    forall j :: 0 <= j < |acts| ==> ActsAs(list, now, st, i, acts, j)
  }

  lemma ActsCons(list: seq<NackInfo>, now: uint64, st: Standing, i: nat, a: Act, acts: seq<Act>)
    requires i + 1 + |acts| <= |list| && a == ActThere(st, list[i], now)
    requires AllActAs(list, now, Onward(st, list[i], now), i + 1, acts)
    ensures AllActAs(list, now, st, i, [a] + acts)
  {
    hide ActThere, Onward;
    var all := [a] + acts;
    forall j | 0 <= j < |all| ensures ActsAs(list, now, st, i, all, j) {
      if j > 0 {
        assert ActsAs(list, now, Onward(st, list[i], now), i + 1, acts, j - 1);
      }
    }
  }

  lemma {:induction false} StandingJoins(list: seq<NackInfo>, now: uint64, st: Standing, i: nat, k: nat, j: nat)
    requires i <= k <= j <= |list|
    ensures StandingAt(list, now, st, i, j) == StandingAt(list, now, StandingAt(list, now, st, i, k), k, j)
    decreases k - i
  {
    hide Onward;
    if i < k {
      StandingJoins(list, now, Onward(st, list[i], now), i + 1, k, j);
    }
  }

  /** The inner loop acts as the standing says, and afterwards the report stands between blocks. */
  lemma {:induction false} FillActs(list: seq<NackInfo>, pid: uint16, now: uint64, i: nat, blp: Mask)
    requires i <= |list|
    ensures var c := Fill(list, pid, now, i, blp);
            && AllActAs(list, now, In(pid), i, c.acts)
            && (c.next < |list| ==> StandingAt(list, now, In(pid), i, c.next) == Between)
    decreases |list| - i
  {
    hide ActsAs, Due, Distance;
    if i < |list| {
      var e := list[i];
      if Distance(e, pid) > 15 {
        assert [Leave] + [] == [Leave];
        ActsCons(list, now, In(pid), i, Leave, []);
        assert StandingAt(list, now, In(pid), i, i + 1) == StandingAt(list, now, Between, i + 1, i + 1);
      } else if !Due(e, now) {
        FillActs(list, pid, now, i + 1, blp);
        ActsCons(list, now, In(pid), i, Leave, Fill(list, pid, now, i + 1, blp).acts);
      } else if e.retransmits >= MAX_RETRANSMITS {
        FillActsDrop(list, pid, now, i, blp);
      } else {
        var more := SetBit(blp, Distance(e, pid));
        FillActs(list, pid, now, i + 1, more);
        ActsCons(list, now, In(pid), i, Ask, Fill(list, pid, now, i + 1, more).acts);
      }
    }
  }

  lemma {:induction false} FillActsDrop(list: seq<NackInfo>, pid: uint16, now: uint64, i: nat, blp: Mask)
    requires i < |list| && Distance(list[i], pid) <= 15 && Exhausted(list[i], now)
    ensures var c := Fill(list, pid, now, i, blp);
            && AllActAs(list, now, In(pid), i, c.acts)
            && (c.next < |list| ==> StandingAt(list, now, In(pid), i, c.next) == Between)
    decreases |list| - i, 0
  {
    hide ActsAs, Due, Distance;
    if i + 1 == |list| {
      assert [Drop] + [] == [Drop];
      ActsCons(list, now, In(pid), i, Drop, []);
    } else {
      FillActs(list, pid, now, i + 2, blp);
      var acts := Fill(list, pid, now, i + 2, blp).acts;
      assert [Drop, Leave] + acts == [Drop] + ([Leave] + acts);
      ActsCons(list, now, Behind(pid), i + 1, Leave, acts);
      ActsCons(list, now, In(pid), i, Drop, [Leave] + acts);
    }
  }

  lemma {:induction false} ReportActs(list: seq<NackInfo>, now: uint64, i: nat)
    requires i <= |list|
    ensures AllActAs(list, now, Between, i, Report(list, now, i).acts)
    decreases |list| - i
  {
    hide ActsAs, Due, Fill;
    if i < |list| {
      var e := list[i];
      if !Due(e, now) {
        ReportActs(list, now, i + 1);
        ActsCons(list, now, Between, i, Leave, Report(list, now, i + 1).acts);
      } else if e.retransmits >= MAX_RETRANSMITS {
        ReportActs(list, now, i + 1);
        ActsCons(list, now, Between, i, Drop, Report(list, now, i + 1).acts);
      } else {
        var c := Fill(list, e.seqNum, now, i + 1, ZEROS);
        FillActs(list, e.seqNum, now, i + 1, ZEROS);
        ReportActs(list, now, c.next);
        var rest := Report(list, now, c.next).acts;
        ActsConcat(list, now, In(e.seqNum), i + 1, c.acts, rest);
        ActsCons(list, now, Between, i, Ask, c.acts + rest);
        assert [Ask] + c.acts + rest == [Ask] + (c.acts + rest);
      }
    }
  }

  lemma ActsConcat(list: seq<NackInfo>, now: uint64, st: Standing, i: nat, a: seq<Act>, b: seq<Act>)
    requires i + |a| + |b| <= |list|
    requires AllActAs(list, now, st, i, a)
    requires AllActAs(list, now, Between, i + |a|, b)
    requires b != [] ==> StandingAt(list, now, st, i, i + |a|) == Between
    ensures AllActAs(list, now, st, i, a + b)
  {
    hide ActThere, StandingAt;
    forall j | 0 <= j < |a + b| ensures ActsAs(list, now, st, i, a + b, j) {
      if j < |a| {
        assert ActsAs(list, now, st, i, a, j);
      } else {
        assert ActsAs(list, now, Between, i + |a|, b, j - |a|);
        StandingJoins(list, now, st, i, i + |a|, i + j);
      }
    }
  }

  /** Exactly which due entries below the limit a report leaves out: those that end a block, being more
      than 16 numbers after its PID, and those that follow an entry dropped inside a block. */
  lemma LeftOutExactly(list: seq<NackInfo>, now: uint64, j: nat)
    requires j < |list| && Askable(list[j], now)
    ensures Report(list, now).acts[j] != Ask
        <==> PassedOver(StandingAt(list, now, Between, 0, j), list[j])
  {
    ReportActs(list, now, 0);
    assert ActsAs(list, now, Between, 0, Report(list, now).acts, j);
  }

  /** Two due entries, of which one report asks for the first only. */
  lemma DueEntryLeftOut()
    ensures var list := [Lost(0), Lost(20)];
            Askable(list[1], 1) && Report(list, 1).acts == [Ask, Leave] && Report(list, 1).blocks == [Block(0, ZEROS)]
  {
    var list := [Lost(0), Lost(20)];
    assert Fill(list, 0, 1, 1, ZEROS) == Cover([Leave], ZEROS, 2);
    assert Report(list, 1, 2) == Plan([], []);
    assert Report(list, 1) == Plan([Ask] + [Leave] + [], [Block(0, ZEROS)] + []);
  }

  /** So a report includes everything that is due if no entry has been asked for twice already and all
      due entries lie within 16 numbers after the first of them. */
  lemma NothingLeftOut(list: seq<NackInfo>, now: uint64, first: nat)
    requires first < |list| && Askable(list[first], now)
    requires forall j :: 0 <= j < first ==> !Askable(list[j], now)
    requires forall j :: 0 <= j < |list| ==> !Exhausted(list[j], now)
    requires forall j :: first < j < |list| ==> Distance(list[j], list[first].seqNum) <= 15
    ensures forall j :: 0 <= j < |list| && Askable(list[j], now) ==> Report(list, now).acts[j] == Ask
  {
    hide Askable, Exhausted, Distance, Report;
    forall j | 0 <= j < |list| && Askable(list[j], now) ensures Report(list, now).acts[j] == Ask {
      LeftOutExactly(list, now, j);
      OneBlock(list, now, first, j);
    }
  }

  lemma {:induction false} OneBlock(list: seq<NackInfo>, now: uint64, first: nat, j: nat)
    requires first < |list| && Askable(list[first], now) && j < |list|
    requires forall i :: 0 <= i < first ==> !Askable(list[i], now)
    requires forall i :: 0 <= i < |list| ==> !Exhausted(list[i], now)
    requires forall i :: first < i < |list| ==> Distance(list[i], list[first].seqNum) <= 15
    ensures StandingAt(list, now, Between, 0, j) == if j <= first then Between else In(list[first].seqNum)
  {
    hide Askable, Exhausted, Distance;
    if j > 0 {
      OneBlock(list, now, first, j - 1);
      StandingJoins(list, now, Between, 0, j - 1, j);
      var st := StandingAt(list, now, Between, 0, j - 1);
      assert StandingAt(list, now, st, j - 1, j) == StandingAt(list, now, Onward(st, list[j - 1], now), j, j);
    }
  }

  // ---------------------------------------------------------------- whole runs

  /** The counters tell the history: at most two requests, more than 20 ms apart. */
  ghost predicate Spaced(e: NackInfo, now: uint64) {
    && e.retransmits == |e.asked| <= 2
    && e.sentTime == (if e.asked == [] then 0 else e.asked[|e.asked| - 1])
    && (forall i :: 0 <= i < |e.asked| ==> 0 < e.asked[i] <= now)
    && (|e.asked| == 2 ==> (e.asked[1] as int) - e.asked[0] > 20)
  }

  ghost predicate AllSpaced(list: seq<NackInfo>, now: uint64) {
    |list| <= 150 && forall i :: 0 <= i < |list| ==> Spaced(list[i], now)
  }

  lemma AskKeeps(e: NackInfo, before: uint64, now: uint64)
    requires Spaced(e, before) && before <= now && 0 < now && Due(e, now) && e.retransmits < MAX_RETRANSMITS
    ensures Spaced(Asked(e, now), now)
  {
  }

  lemma {:induction false} ApplyKeeps(list: seq<NackInfo>, acts: seq<Act>, before: uint64, now: uint64, n: nat)
    requires n <= |acts| == |list| && before <= now && 0 < now
    requires forall i :: 0 <= i < |list| ==> Spaced(list[i], before)
    requires forall i :: 0 <= i < |list| ==> Justified(acts[i], list[i], now)
    ensures var r := Apply(list, acts, now, n);
            |r| <= n && forall i :: 0 <= i < |r| ==> Spaced(r[i], now)
  {
    hide Asked, Due;
    if n > 0 {
      ApplyKeeps(list, acts, before, now, n - 1);
      if acts[n - 1] == Ask {
        AskKeeps(list[n - 1], before, now);
      }
    }
  }

  lemma ReportKeeps(list: seq<NackInfo>, before: uint64, now: uint64)
    requires AllSpaced(list, before) && before <= now && 0 < now
    ensures AllSpaced(AfterReport(list, now), now)
  {
    hide Spaced, Justified, Apply;
    var p := Report(list, now);
    hide Report;
    ApplyKeeps(list, p.acts, before, now, |list|);
  }

  lemma HandleKeeps(s: State, p: RtpPacket, now: uint64)
    requires AllSpaced(s.list, now)
    ensures AllSpaced(Handle(s, p).0.list, now)
  {
    hide LessThan, Missing;
    var t := Handle(s, p).0;
    forall i | 0 <= i < |t.list| ensures Spaced(t.list[i], now) {
      if s.initialized && p.seqNum != s.highest && !LessThan(p.seqNum, s.highest) && i >= |s.list| {
        MissingIs(U16(s.highest + 1), p.seqNum, i - |s.list|);
      }
    }
  }

  /** A call, with the clock reading of a report. */
  datatype Op = HandleOp(p: RtpPacket) | ReportOp(now: uint64)

  function Do(s: State, op: Op): State {
    match op
    case HandleOp(p) => Handle(s, p).0
    case ReportOp(now) => s.(list := AfterReport(s.list, now))
  }

  function After(ssrc: uint32, ops: seq<Op>, n: nat): State
    requires n <= |ops|
  {
    if n == 0 then State(false, 0, ssrc, []) else Do(After(ssrc, ops, n - 1), ops[n - 1])
  }

  /** The last clock reading. */
  function Clock(ops: seq<Op>, n: nat): uint64
    requires n <= |ops|
  {
    if n == 0 then 0 else if ops[n - 1].ReportOp? then ops[n - 1].now else Clock(ops, n - 1)
  }

  /** The clock is positive and does not go back. */
  ghost predicate Ticking(ops: seq<Op>) {
    forall n :: 0 <= n < |ops| && ops[n].ReportOp? ==> TicksAt(ops, n)
  }

  ghost predicate TicksAt(ops: seq<Op>, n: nat)
    requires n < |ops| && ops[n].ReportOp?
  {
    0 < ops[n].now && Clock(ops, n) <= ops[n].now
  }

  /** Over any run every entry is requested at most twice, more than 20 ms apart, and no more than 150
      entries are remembered. */
  lemma {:induction false} RunSpaced(ssrc: uint32, ops: seq<Op>, n: nat)
    requires n <= |ops| && Ticking(ops)
    ensures AllSpaced(After(ssrc, ops, n).list, Clock(ops, n))
  {
    hide AllSpaced, Handle, AfterReport;
    if n == 0 {
      NoneSpaced();
    } else {
      RunSpaced(ssrc, ops, n - 1);
      var s := After(ssrc, ops, n - 1);
      match ops[n - 1]
      case HandleOp(p) => HandleKeeps(s, p, Clock(ops, n - 1));
      case ReportOp(now) =>
        assert TicksAt(ops, n - 1);
        ReportKeeps(s.list, Clock(ops, n - 1), now);
    }
  }

  /** The packet belongs to the stream. */
  predicate OfStream(ssrc: uint32, op: Op) {
    op.HandleOp? && op.p.video && op.p.ssrc == ssrc
  }

  /** Only packets of the stream and reports count: all other calls could as well be left out. */
  lemma {:induction false} OnlyStreamCounts(ssrc: uint32, ops: seq<Op>, n: nat)
    requires n <= |ops|
    ensures var s := After(ssrc, ops, n);
            && s.ssrc == ssrc
            && (s.initialized <==> exists i :: 0 <= i < n && OfStream(ssrc, ops[i]))
            && (n > 0 && ops[n - 1].HandleOp? && !OfStream(ssrc, ops[n - 1]) ==> s == After(ssrc, ops, n - 1))
  {
    hide LessThan, AddNacks, AfterReport, Find;
    if n > 0 {
      OnlyStreamCounts(ssrc, ops, n - 1);
      assert OfStream(ssrc, ops[n - 1]) || !OfStream(ssrc, ops[n - 1]);
    }
  }

  /** An entry that has never been asked for is due at once, and otherwise as soon as more than 20 ms have
      passed since it was last asked for. */
  lemma DueMeans(e: NackInfo, before: uint64, now: uint64)
    requires Spaced(e, before) && before <= now
    ensures Due(e, now) <==> e.asked == [] || now - e.asked[|e.asked| - 1] > 20
  {
  }

  // ---------------------------------------------------------------- the list stays in order

  /** How far an entry is behind the highest number. */
  function Age(highest: uint16, e: NackInfo): uint16 {
    U16(highest - e.seqNum)
  }

  /** The entries stand in the order in which they were lost, oldest first, without repeats. */
  ghost predicate Ordered(highest: uint16, list: seq<NackInfo>) {
    && (forall i :: 0 <= i < |list| ==> Age(highest, list[i]) > 0)
    && (forall i, j :: 0 <= i < j < |list| ==> Age(highest, list[i]) > Age(highest, list[j]))
  }

  /** The packet does not take the highest number 2^16 past the oldest entry. */
  predicate InReach(s: State, op: Op) {
    op.HandleOp? && s.list != [] ==> Age(s.highest, s.list[0]) + U16(op.p.seqNum - s.highest) < 0x1_0000
  }

  lemma MovesOn(highest: uint16, seqNum: uint16, e: NackInfo)
    requires Age(highest, e) + U16(seqNum - highest) < 0x1_0000
    ensures Age(seqNum, e) == Age(highest, e) + U16(seqNum - highest)
  {
  }

  lemma NewBehind(highest: uint16, seqNum: uint16, i: nat)
    requires seqNum != highest && i < U16(seqNum - U16(highest + 1))
    ensures U16(seqNum - U16(U16(highest + 1) + i)) == U16(seqNum - highest) - 1 - i
  {
  }

  lemma AddKeepsOrder(list: seq<NackInfo>, highest: uint16, seqNum: uint16)
    requires Ordered(highest, list) && seqNum != highest
    requires list != [] ==> Age(highest, list[0]) + U16(seqNum - highest) < 0x1_0000
    ensures Ordered(seqNum, AddNacks(list, highest, seqNum))
  {
    hide U16, Missing;
    var from, step := U16(highest + 1), U16(seqNum - highest);
    var more := Missing(from, seqNum);
    MissingIs(from, seqNum, 0);
    OneOn(highest, seqNum, 0);
    forall i | 0 <= i < |list| ensures Age(seqNum, list[i]) == Age(highest, list[i]) + step {
      assert i > 0 ==> Age(highest, list[0]) > Age(highest, list[i]);
      MovesOn(highest, seqNum, list[i]);
    }
    forall i | 0 <= i < |more| ensures Age(seqNum, more[i]) == step - 1 - i {
      MissingIs(from, seqNum, i);
      NewBehind(highest, seqNum, i);
    }
    hide Age;
    assert Ordered(seqNum, list + more);
  }

  lemma WithoutOrdered(highest: uint16, before: seq<NackInfo>, i: nat, after: seq<NackInfo>)
    requires Ordered(highest, before) && i < |before| && Without(before, i, after)
    ensures Ordered(highest, after)
  {
    hide Age;
  }

  lemma OrderedSnoc(highest: uint16, list: seq<NackInfo>, e: NackInfo)
    requires Ordered(highest, list) && Age(highest, e) > 0
    requires list != [] ==> Age(highest, list[|list| - 1]) > Age(highest, e)
    ensures Ordered(highest, list + [e])
  {
    hide Age;
    var all, n := list + [e], |list|;
    forall i, j | 0 <= i < j < |all| ensures Age(highest, all[i]) > Age(highest, all[j]) {
      assert i < n - 1 ==> Age(highest, list[i]) > Age(highest, list[n - 1]);
    }
  }

  lemma SameAge(highest: uint16, e: NackInfo, now: uint64)
    ensures Age(highest, Asked(e, now)) == Age(highest, e)
  {
  }

  lemma {:induction false} ApplyOrdered(highest: uint16, list: seq<NackInfo>, acts: seq<Act>, now: uint64, n: nat)
    requires n <= |acts| && n <= |list| && Ordered(highest, list)
    ensures var r := Apply(list, acts, now, n);
            && Ordered(highest, r)
            && (r != [] && n < |list| ==> Age(highest, r[|r| - 1]) > Age(highest, list[n]))
  {
    hide Age, Asked;
    if n > 0 {
      ApplyOrdered(highest, list, acts, now, n - 1);
      var r, e := Apply(list, acts, now, n - 1), list[n - 1];
      SameAge(highest, e, now);
      if acts[n - 1] != Drop {
        OrderedSnoc(highest, r, if acts[n - 1] == Leave then e else Asked(e, now));
      }
    }
  }

  lemma DoOrdered(s: State, op: Op)
    requires Ordered(s.highest, s.list) && InReach(s, op) && (!s.initialized ==> s.list == [])
    ensures var t := Do(s, op); Ordered(t.highest, t.list) && (!t.initialized ==> t.list == [])
  {
    hide LessThan, AddNacks, Report, Age, Find;
    match op
    case ReportOp(now) => ApplyOrdered(s.highest, s.list, Report(s.list, now).acts, now, |s.list|);
    case HandleOp(p) =>
      if s.initialized && p.seqNum != s.highest {
        AddKeepsOrder(s.list, s.highest, p.seqNum);
        var i := Find(s.list, p.seqNum);
        if i < |s.list| {
          WithoutOrdered(s.highest, s.list, i, s.list[..i] + s.list[i + 1..]);
        }
      }
  }

  /** Over any run in which no packet goes 2^16 past the oldest entry, the list is in order and without
      repeats, so that a late packet is off it for good. */
  lemma {:induction false} RunOrdered(ssrc: uint32, ops: seq<Op>, n: nat)
    requires n <= |ops| && forall i :: 0 <= i < n ==> InReach(After(ssrc, ops, i), ops[i])
    ensures var s := After(ssrc, ops, n);
            && Ordered(s.highest, s.list) && NoRepeats(s.list)
            && (!s.initialized ==> s.list == [])
  {
    hide Do, InReach, Age;
    if n > 0 {
      RunOrdered(ssrc, ops, n - 1);
      assert InReach(After(ssrc, ops, n - 1), ops[n - 1]);
      DoOrdered(After(ssrc, ops, n - 1), ops[n - 1]);
      OrderedOnce(After(ssrc, ops, n).highest, After(ssrc, ops, n).list);
    }
  }

  lemma OrderedOnce(highest: uint16, list: seq<NackInfo>)
    requires Ordered(highest, list)
    ensures NoRepeats(list)
  {
    forall i, j | 0 <= i < j < |list| ensures list[i].seqNum != list[j].seqNum {
      assert Age(highest, list[i]) > Age(highest, list[j]);
    }
    hide U16;
  }

  lemma NoneSpaced()
    ensures AllSpaced([], 0)
  {
  }

  // ---------------------------------------------------------------- the feedback packet

  function Be16(w: uint16): seq<byte> {
    [w / 0x100, w % 0x100]
  }

  function Be32(l: uint32): seq<byte> {
    Be16(l / 0x1_0000) + Be16(l % 0x1_0000)
  }

  function ReadBe16(s: seq<byte>, at: nat): uint16
    requires at + 2 <= |s|
  {
    (s[at] as int) * 0x100 + s[at + 1]
  }

  /** The number that bits stand for, lowest bit first. */
  function Value(bits: seq<bool>): nat {
    if bits == [] then 0 else (if bits[0] then 1 else 0) + 2 * Value(bits[1..])
  }

  function Bits(v: nat, n: nat): (b: seq<bool>)
    ensures |b| == n
  {
    if n == 0 then [] else [v % 2 == 1] + Bits(v / 2, n - 1)
  }

  lemma {:induction false} BitsOfValue(bits: seq<bool>)
    ensures Bits(Value(bits), |bits|) == bits
  {
    if bits != [] {
      BitsOfValue(bits[1..]);
      assert bits == [bits[0]] + bits[1..];
    }
  }

  lemma {:induction false} ValueBound(bits: seq<bool>)
    ensures Value(bits) < Pow2(|bits|)
  {
    if bits != [] {
      ValueBound(bits[1..]);
    }
  }

  /** The mask as a 16-bit word. */
  function MaskWord(m: Mask): (w: uint16)
    ensures w == Value(m)
  {
    ValueBound(m);
    assert Pow2(16) == 0x1_0000 by {
      assert Pow2(8) == 0x100;
    }
    Value(m)
  }

  function EncodeBlock(b: Block): (e: seq<byte>)
    ensures |e| == 4
  {
    Be16(b.pid) + Be16(MaskWord(b.blp))
  }

  function EncodeBlocks(bs: seq<Block>): (e: seq<byte>)
    ensures |e| == 4 * |bs|
  {
    if bs == [] then [] else EncodeBlock(bs[0]) + EncodeBlocks(bs[1..])
  }

  /** The header: version 2, format 1, type 205, the length in words less one, and the two SSRCs. */
  function Header(ssrc: uint32, n: nat): (h: seq<byte>)
    ensures |h| == COMMON_HEADER_LENGTH
  {
    [0x81, RTP_FEEDBACK] + Be16(U16(COMMON_HEADER_LENGTH / 4 - 1 + n)) + Be32(ssrc) + Be32(ssrc)
  }

  function Message(ssrc: uint32, bs: seq<Block>): seq<byte> {
    Header(ssrc, |bs|) + EncodeBlocks(bs)
  }

  /** The length of a packet in bytes, from its header. */
  function PacketLength(m: seq<byte>): nat
    requires |m| >= 4
  {
    (ReadBe16(m, 2) + 1) * 4
  }

  /** The loop of `RtpUtils::forEachNack` from position `at` on. */
  function ReadBlocks(m: seq<byte>, at: nat, length: nat): seq<Block>
    requires length <= |m| && (length - at) % 4 == 0
    decreases length - at
  {
    if at >= length then []
    else [Block(ReadBe16(m, at), Bits(ReadBe16(m, at + 2), 16))] + ReadBlocks(m, at + 4, length)
  }

  /** The blocks of a feedback packet. */
  function ForEachNack(m: seq<byte>): seq<Block>
    requires |m| >= COMMON_HEADER_LENGTH && PacketLength(m) <= |m|
  {
    if m[1] == RTP_FEEDBACK then ReadBlocks(m, COMMON_HEADER_LENGTH, PacketLength(m)) else []
  }

  lemma Be16Inverts(a: seq<byte>, w: uint16, b: seq<byte>)
    ensures ReadBe16(a + Be16(w) + b, |a|) == w
  {
    var s := a + Be16(w) + b;
    assert s[|a|] == w / 0x100 && s[|a| + 1] == w % 0x100;
  }

  lemma BlockInverts(a: seq<byte>, x: Block, b: seq<byte>)
    ensures var m := a + EncodeBlock(x) + b;
            ReadBe16(m, |a|) == x.pid && Bits(ReadBe16(m, |a| + 2), 16) == x.blp
  {
    var m := a + EncodeBlock(x) + b;
    Be16Inverts(a, x.pid, Be16(MaskWord(x.blp)) + b);
    Be16Inverts(a + Be16(x.pid), MaskWord(x.blp), b);
    assert m == a + Be16(x.pid) + (Be16(MaskWord(x.blp)) + b);
    assert m == (a + Be16(x.pid)) + Be16(MaskWord(x.blp)) + b;
    BitsOfValue(x.blp);
  }

  lemma {:induction false} BlocksInvert(a: seq<byte>, bs: seq<Block>)
    ensures var m := a + EncodeBlocks(bs); ReadBlocks(m, |a|, |m|) == bs
    decreases |bs|
  {
    hide EncodeBlock, Bits, ReadBe16;
    if bs != [] {
      var m := a + EncodeBlocks(bs);
      BlockInverts(a, bs[0], EncodeBlocks(bs[1..]));
      BlocksInvert(a + EncodeBlock(bs[0]), bs[1..]);
      assert m == a + EncodeBlock(bs[0]) + EncodeBlocks(bs[1..]);
      assert bs == [bs[0]] + bs[1..];
    }
  }

  /** The reader of the other side gets back exactly the blocks that were written. */
  lemma MessageInverts(ssrc: uint32, bs: seq<Block>)
    requires 2 + |bs| < 0x1_0000
    ensures var m := Message(ssrc, bs);
            PacketLength(m) == |m| == COMMON_HEADER_LENGTH + 4 * |bs| && ForEachNack(m) == bs
  {
    hide Be16, Be32, ReadBe16, EncodeBlocks, ReadBlocks;
    HeaderRead(ssrc, |bs|, EncodeBlocks(bs));
    BlocksInvert(Header(ssrc, |bs|), bs);
  }

  /** One message byte by byte, in network byte order: it asks for packets 0x0102, 0x0103 and 0x0112. */
  lemma MessageBytes()
    ensures Message(0x0A0B_0C0D, [Block(0x0102, ZEROS[0 := true][15 := true])])
         == [0x81, 205, 0, 3, 10, 11, 12, 13, 10, 11, 12, 13, 1, 2, 0x80, 0x01]
  {
    var m := ZEROS[0 := true][15 := true];
    FirstAndLast(m);
    assert EncodeBlocks([]) == [];
    assert [Block(0x0102, m)][1..] == [];
    assert EncodeBlocks([Block(0x0102, m)]) == EncodeBlock(Block(0x0102, m)) + [];
  }

  lemma FirstAndLast(m: Mask)
    requires m == ZEROS[0 := true][15 := true]
    ensures MaskWord(m) == 0x8001
  {
    assert Value(m[16..]) == 0;
    assert Value(m[15..]) == 1 + 2 * Value(m[15..][1..]) && m[15..][1..] == m[16..];
    ValueOfZeros(m, 14);
    assert m[0..] == m && m[0..][1..] == m[1..];
  }

  lemma {:induction false} ValueOfZeros(m: Mask, n: nat)
    requires n <= 14 && forall i :: 1 <= i <= 14 ==> !m[i]
    ensures Value(m[15 - n..]) == Pow2(n) * Value(m[15..])
    ensures Pow2(14) == 0x4000
  {
    assert Pow2(7) == 0x80;
    assert Pow2(14) == 0x4000;
    if n > 0 {
      ValueOfZeros(m, n - 1);
      assert m[15 - n..][1..] == m[15 - (n - 1)..];
    }
  }

  /** The header as a reader gets it (section 6.1 of RFC 4585): version 2 without padding, format 1, packet
      type 205, and the media stream named twice. */
  lemma HeaderFields(ssrc: uint32, bs: seq<Block>)
    ensures var m := Message(ssrc, bs);
            && m[0] / 0x40 == 2 && m[0] / 0x20 % 2 == 0 && m[0] % 0x20 == 1 && m[1] == 205
            && ReadBe16(m, 4) * 0x1_0000 + ReadBe16(m, 6) == ssrc
            && ReadBe16(m, 8) * 0x1_0000 + ReadBe16(m, 10) == ssrc
  {
    var hi, lo := ssrc / 0x1_0000, ssrc % 0x1_0000;
    var front := [0x81, RTP_FEEDBACK] + Be16(U16(COMMON_HEADER_LENGTH / 4 - 1 + |bs|));
    var m, blocks := Message(ssrc, bs), EncodeBlocks(bs);
    Be16Inverts(front, hi, Be16(lo) + Be32(ssrc) + blocks);
    Be16Inverts(front + Be16(hi), lo, Be32(ssrc) + blocks);
    Be16Inverts(front + Be32(ssrc), hi, Be16(lo) + blocks);
    Be16Inverts(front + Be32(ssrc) + Be16(hi), lo, blocks);
    hide Be16, ReadBe16, EncodeBlocks;
    assert m == front + Be16(hi) + (Be16(lo) + Be32(ssrc) + blocks);
    assert m == (front + Be16(hi)) + Be16(lo) + (Be32(ssrc) + blocks);
    assert m == (front + Be32(ssrc)) + Be16(hi) + (Be16(lo) + blocks);
    assert m == (front + Be32(ssrc) + Be16(hi)) + Be16(lo) + blocks;
  }

  lemma HeaderRead(ssrc: uint32, n: nat, rest: seq<byte>)
    requires 2 + n < 0x1_0000
    ensures var m := Header(ssrc, n) + rest; m[1] == RTP_FEEDBACK && ReadBe16(m, 2) == 2 + n
  {
    var m := Header(ssrc, n) + rest;
    var tail := Be32(ssrc) + Be32(ssrc) + rest;
    Be16Inverts([0x81, RTP_FEEDBACK], U16(2 + n), tail);
    hide Be16, Be32, ReadBe16;
    assert m == [0x81, RTP_FEEDBACK] + Be16(U16(2 + n)) + tail;
  }

  // ---------------------------------------------------------------- the class

  lemma Onwards(current: uint16, end: uint16)
    requires current != end
    ensures U16(end - U16(current + 1)) < U16(end - current)
  {
  }

  lemma Bounds(list: seq<NackInfo>, acts: seq<Act>, now: uint64, n: nat)
    requires n <= |acts| == |list|
    ensures |Midway(list, acts, now, n)| == |Apply(list, acts, now, n)| + |list| - n
    ensures |Apply(list, acts, now, n)| <= n
  {
    ApplyShort(list, acts, now, n);
  }

  lemma {:induction false} ApplyShort(list: seq<NackInfo>, acts: seq<Act>, now: uint64, n: nat)
    requires n <= |acts| == |list|
    ensures |Apply(list, acts, now, n)| <= n
  {
    if n > 0 {
      ApplyShort(list, acts, now, n - 1);
    }
  }

  /** The list in the middle of a report: the first `n` entries of `list` have been dealt with. */
  function Midway(list: seq<NackInfo>, acts: seq<Act>, now: uint64, n: nat): seq<NackInfo>
    requires n <= |acts| == |list|
  {
    Apply(list, acts, now, n) + list[n..]
  }

  lemma MidwayStarts(list: seq<NackInfo>, acts: seq<Act>, now: uint64)
    requires |acts| == |list|
    ensures Midway(list, acts, now, 0) == list && |Apply(list, acts, now, 0)| == 0
    ensures Midway(list, acts, now, |list|) == Apply(list, acts, now, |list|)
  {
  }

  /** What dealing with the next entry does to the list. */
  lemma MidwayNext(list: seq<NackInfo>, acts: seq<Act>, now: uint64, n: nat)
    requires n < |acts| == |list|
    ensures var m, k := Midway(list, acts, now, n), |Apply(list, acts, now, n)|;
            && k < |m| && m[k] == list[n] && |m| == k + |list| - n
            && |Apply(list, acts, now, n + 1)| == (if acts[n] == Drop then k else k + 1)
            && Midway(list, acts, now, n + 1)
               == match acts[n]
                  case Leave => m
                  case Drop => m[..k] + m[k + 1..]
                  case Ask => m[k := Asked(list[n], now)]
  {
    hide Asked;
  }

  /** One step of the inner loop, in terms of what the whole loop does. */
  lemma FillStep(list: seq<NackInfo>, pid: uint16, now: uint64, i: nat, blp: Mask, acts: seq<Act>)
    requires i < |list| == |acts|
    requires var c := Fill(list, pid, now, i, blp); acts[i..c.next] == c.acts
    ensures var c, e, d := Fill(list, pid, now, i, blp), list[i], Distance(list[i], pid);
            if d > 15 then c == Cover([Leave], blp, i + 1) && acts[i] == Leave
            else if !Due(e, now) then acts[i] == Leave && Continues(list, pid, now, i + 1, blp, acts, c)
            else if e.retransmits >= MAX_RETRANSMITS then
              && acts[i] == Drop
              && (if i + 1 == |list| then Continues(list, pid, now, i + 1, blp, acts, c)
                  else acts[i + 1] == Leave && Continues(list, pid, now, i + 2, blp, acts, c))
            else acts[i] == Ask && Continues(list, pid, now, i + 1, SetBit(blp, d), acts, c)
  {
    hide Due, Justified;
    var c := Fill(list, pid, now, i, blp);
    assert forall j :: i <= j < c.next ==> acts[i..c.next][j - i] == acts[j];
    if Distance(list[i], pid) <= 15 {
      var n := if Due(list[i], now) && list[i].retransmits >= MAX_RETRANSMITS then i + 2 else i + 1;
      if n <= |list| {
        assert acts[n..c.next] == acts[i..c.next][n - i..];
      }
    }
  }

  lemma FillEnds(list: seq<NackInfo>, pid: uint16, now: uint64, blp: Mask)
    ensures Fill(list, pid, now, |list|, blp) == Cover([], blp, |list|)
  {
  }

  /** From position `i` on the loop ends as `c` does. */
  ghost predicate Continues(list: seq<NackInfo>, pid: uint16, now: uint64, i: nat, blp: Mask, acts: seq<Act>, c: Cover)
    requires |acts| == |list|
  {
    && i <= c.next <= |list|
    && var r := Fill(list, pid, now, i, blp); r.blp == c.blp && r.next == c.next && acts[i..c.next] == r.acts
  }

  /** What the outer loop still has to do from position `p` on. */
  ghost predicate Remains(list: seq<NackInfo>, now: uint64, p: nat, blocks: seq<Block>, plan: Plan)
    requires p <= |list| == |plan.acts|
  {
    var r := Report(list, now, p);
    plan.acts[p..] == r.acts && blocks + r.blocks == plan.blocks
  }

  lemma ReportStarts(list: seq<NackInfo>, now: uint64)
    ensures Remains(list, now, 0, [], Report(list, now))
  {
    var plan := Report(list, now);
    assert plan.acts[0..] == plan.acts && [] + plan.blocks == plan.blocks;
  }

  /** Going back from index 0 wraps, and the next increment undoes it. */
  lemma BackAndOn(index: uint16)
    ensures U16(U16(index - 1) + 1) == index
  {
  }

  lemma OneMore(index: uint16)
    ensures index < 0xFFFF ==> U16(index + 1) == index + 1
  {
  }

  lemma ReportEnds(list: seq<NackInfo>, now: uint64, blocks: seq<Block>, plan: Plan)
    requires |plan.acts| == |list|
    ensures Remains(list, now, |list|, blocks, plan) ==> blocks == plan.blocks
    ensures AfterReport(list, now) == Apply(list, Report(list, now).acts, now, |list|)
  {
  }

  lemma ReportStep(list: seq<NackInfo>, now: uint64, p: nat, blocks: seq<Block>, plan: Plan)
    requires p < |list| == |plan.acts| && Remains(list, now, p, blocks, plan)
    ensures var e := list[p];
            if !Due(e, now) then plan.acts[p] == Leave && Remains(list, now, p + 1, blocks, plan)
            else if e.retransmits >= MAX_RETRANSMITS then
              plan.acts[p] == Drop && Remains(list, now, p + 1, blocks, plan)
            else
              var c := Fill(list, e.seqNum, now, p + 1, ZEROS);
              && plan.acts[p] == Ask
              && Continues(list, e.seqNum, now, p + 1, ZEROS, plan.acts, c)
              && Remains(list, now, c.next, blocks + [Block(e.seqNum, c.blp)], plan)
  {
    hide Due, Fill;
    var e, acts := list[p], plan.acts[p..];
    assert acts[0] == plan.acts[p] && acts[1..] == plan.acts[p + 1..];
    if Due(e, now) && e.retransmits < MAX_RETRANSMITS {
      var c := Fill(list, e.seqNum, now, p + 1, ZEROS);
      var r := Report(list, now, c.next);
      assert acts == [Ask] + c.acts + r.acts;
      assert acts[1..c.next - p] == c.acts == plan.acts[p + 1..c.next];
      assert acts[c.next - p..] == r.acts == plan.acts[c.next..];
      assert (blocks + [Block(e.seqNum, c.blp)]) + r.blocks == blocks + ([Block(e.seqNum, c.blp)] + r.blocks);
    }
  }

  lemma FitsPacket(ssrc: uint32, blocks: seq<Block>)
    requires |blocks| <= MAX_NACKS
    ensures var m := Message(ssrc, blocks);
            |m| >= 4 && PacketLength(m) == |m| == COMMON_HEADER_LENGTH + 4 * |blocks|
  {
    MessageInverts(ssrc, blocks);
  }

  lemma PlacedStep(list: seq<NackInfo>, acts: seq<Act>, now: uint64, q: nat, index: nat)
    requires q < |list| == |acts| <= MAX_NACKS && index == |Apply(list, acts, now, q)|
    ensures var m := Midway(list, acts, now, q);
            && index < |m| && m[index] == list[q]
            && (acts[q] == Leave ==> Placed(list, acts, now, q + 1, index) && Midway(list, acts, now, q + 1) == m)
            && (acts[q] == Ask ==>
                  && Placed(list, acts, now, q + 1, index)
                  && Midway(list, acts, now, q + 1) == m[index := Asked(list[q], now)])
            && (acts[q] == Drop ==>
                  if q + 1 == |list| then
                    && Placed(list, acts, now, q + 1, index)
                    && Midway(list, acts, now, q + 1) == m[..index] + m[index + 1..]
                  else acts[q + 1] == Leave ==>
                    && Placed(list, acts, now, q + 2, index)
                    && Midway(list, acts, now, q + 2) == m[..index] + m[index + 1..])
  {
    hide Apply, Asked, Midway;
    MidwayNext(list, acts, now, q);
    Bounds(list, acts, now, q);
    if acts[q] == Drop && q + 1 < |list| {
      MidwayNext(list, acts, now, q + 1);
    }
  }

  /** A packet buffer and how many bytes of it are in use. */
  class DataPacket {
    const data: array<byte>
    var length: nat

    constructor (data: array<byte>, length: nat)
      ensures this.data == data && this.length == length
    {
      this.data := data;
      this.length := length;
    }
  }

  class Generator {
    var initialized: bool
    var highestSeqNum: uint16
    const ssrc: uint32
    var nackInfoList: seq<NackInfo>

    ghost function Value(): State
      reads this
    {
      State(initialized, highestSeqNum, ssrc, nackInfoList)
    }

    constructor (ssrc: uint32)
      ensures Value() == State(false, 0, ssrc, [])
    {
      initialized := false;
      highestSeqNum := 0;
      this.ssrc := ssrc;
      nackInfoList := [];
    }

    method HandleRtpPacket(packet: RtpPacket) returns (r: bool)
      modifies this
      ensures (Value(), r) == Handle(old(Value()), packet)
    {
      hide LessThan, Missing;
      if !packet.video {
        return false;
      }
      var seqNum := packet.seqNum;
      if packet.ssrc != ssrc {
        return false;
      }
      if !initialized {
        highestSeqNum := seqNum;
        initialized := true;
        return false;
      }
      if seqNum == highestSeqNum {
        return false;
      }
      if LessThan(seqNum, highestSeqNum) {
        var i := FindIf(seqNum);
        if i < |nackInfoList| {
          nackInfoList := nackInfoList[..i] + nackInfoList[i + 1..];
        }
        return false;
      }
      r := AddNacksFor(seqNum);
      highestSeqNum := seqNum;
    }

    /** The search for a recovered packet. */
    method FindIf(seqNum: uint16) returns (i: nat)
      ensures i == Find(nackInfoList, seqNum)
    {
      i := 0;
      while i < |nackInfoList| && nackInfoList[i].seqNum != seqNum
        invariant i <= |nackInfoList| && Find(nackInfoList, seqNum, i) == Find(nackInfoList, seqNum)
      {
        i := i + 1;
      }
    }

    /** `addNacks` */
    method AddNacksFor(seqNum: uint16) returns (r: bool)
      modifies `nackInfoList
      ensures nackInfoList == AddNacks(old(nackInfoList), highestSeqNum, seqNum) && r == (nackInfoList != [])
    {
      hide U16;
      var current: uint16 := U16(highestSeqNum + 1);
      ghost var all := nackInfoList + Missing(current, seqNum);
      while current != seqNum
        invariant nackInfoList + Missing(current, seqNum) == all
        decreases U16(seqNum - current)
      {
        Onwards(current, seqNum);
        var next := U16((current as int) + 1);
        MoveBracket(nackInfoList, Lost(current), Missing(next, seqNum));
        nackInfoList := nackInfoList + [Lost(current)];
        current := next;
      }
      assert nackInfoList + [] == nackInfoList;
      while |nackInfoList| > MAX_NACKS
        invariant nackInfoList == all[..|nackInfoList|] && |nackInfoList| <= |all|
        invariant |all| > MAX_NACKS ==> |nackInfoList| >= MAX_NACKS
        invariant |all| <= MAX_NACKS ==> |nackInfoList| == |all|
      {
        nackInfoList := nackInfoList[..|nackInfoList| - 1];
      }
      return nackInfoList != [];
    }

    /** What the inner loop does with the entry at `index`: it is too far away, it is left as it is,
        dropped, or asked for. */
    method Examine(index: uint16, pid: uint16, now: uint64, mask: Mask) returns (blp: Mask, far: bool)
      requires index < |nackInfoList|
      modifies `nackInfoList
      ensures var e, d, l := old(nackInfoList)[index], Distance(old(nackInfoList)[index], pid), old(nackInfoList);
              && far == (d > 15)
              && (if far || !Due(e, now) then blp == mask && nackInfoList == l
                  else if e.retransmits >= MAX_RETRANSMITS then
                    blp == mask && nackInfoList == l[..index] + l[index + 1..]
                  else blp == SetBit(mask, d) && nackInfoList == l[index := Asked(e, now)])
    {
      hide Due, U16, Asked;
      var info := nackInfoList[index];
      var distance := U16(info.seqNum - pid - 1);
      blp, far := mask, false;
      if distance <= 15 {
        if !Due(info, now) {
          return;
        }
        if info.retransmits >= MAX_RETRANSMITS {
          nackInfoList := nackInfoList[..index] + nackInfoList[index + 1..];
          return;
        }
        blp := SetBit(blp, distance);
        nackInfoList := nackInfoList[index := Asked(info, now)];
      } else {
        far := true;
      }
    }

    /** The inner loop of the report. Position `n` of the list at the start of the report is the next one
        to look at. */
    method FillBlock(pid: uint16, now: uint64, start: uint16, ghost list: seq<NackInfo>, ghost acts: seq<Act>,
                     ghost n: nat, ghost c: Cover)
      returns (blp: Mask, index: uint16)
      requires n <= |list| == |acts| <= MAX_NACKS
      requires Continues(list, pid, now, n, ZEROS, acts, c)
      requires nackInfoList == Midway(list, acts, now, n) && start + 1 == |Apply(list, acts, now, n)|
      modifies `nackInfoList
      ensures n <= c.next <= |list|
      ensures blp == c.blp && nackInfoList == Midway(list, acts, now, c.next)
      ensures c.next < |list| ==> index + 1 == |Apply(list, acts, now, c.next)|
      ensures c.next == |list| ==> |nackInfoList| <= index + 1 <= MAX_NACKS + 1
    {
      hide Due, Fill, Apply, Midway, U16, Asked, Distance, SetBit;
      ghost var q := n;
      blp, index := ZEROS, start;
      Bounds(list, acts, now, q);
      while index + 1 < |nackInfoList|
        invariant n <= q <= c.next
        invariant nackInfoList == Midway(list, acts, now, q) && |nackInfoList| <= MAX_NACKS
        invariant Placed(list, acts, now, q, index)
        invariant Continues(list, pid, now, q, blp, acts, c)
        decreases |list| - q
      {
        index := index + 1;
        Bounds(list, acts, now, q);
        FillStep(list, pid, now, q, blp, acts);
        PlacedStep(list, acts, now, q, index);
        var far;
        blp, far := Examine(index, pid, now, blp);
        if far {
          q := q + 1;
          break;
        }
        q := if acts[q] == Drop && q + 1 < |list| then q + 2 else q + 1;
        Bounds(list, acts, now, q);
      }
      Bounds(list, acts, now, q);
      FillEnds(list, pid, now, blp);
    }

    /** The outer loop of the report. */
    method CollectBlocks(now: uint64) returns (blocks: seq<Block>)
      requires |nackInfoList| <= MAX_NACKS
      modifies `nackInfoList
      ensures nackInfoList == AfterReport(old(nackInfoList), now)
      ensures blocks == Report(old(nackInfoList), now).blocks
    {
      hide Due, Fill, Report, Apply, Midway, Asked, Continues, Remains, U16;
      ghost var list, p := nackInfoList, 0;
      ghost var plan := Report(list, now);
      var index: uint16 := 0;
      blocks := [];
      MidwayStarts(list, plan.acts, now);
      ReportStarts(list, now);
      while index < |nackInfoList|
        invariant 0 <= p <= |list| && nackInfoList == Midway(list, plan.acts, now, p)
        invariant p < |list| ==> index == |Apply(list, plan.acts, now, p)|
        invariant p == |list| ==> |nackInfoList| <= index
        invariant Remains(list, now, p, blocks, plan)
        decreases |list| - p
      {
        Bounds(list, plan.acts, now, p);
        BackAndOn(index);
        ReportStep(list, now, p, blocks, plan);
        MidwayNext(list, plan.acts, now, p);
        var base := nackInfoList[index];
        if !Due(base, now) {
          p := p + 1;
        } else if base.retransmits >= MAX_RETRANSMITS {
          nackInfoList := nackInfoList[..index] + nackInfoList[index + 1..];
          index := U16(index - 1);
          p := p + 1;
        } else {
          var pid := base.seqNum;
          ghost var c := Fill(list, pid, now, p + 1, ZEROS);
          nackInfoList := nackInfoList[index := Asked(base, now)];
          var blp;
          blp, index := FillBlock(pid, now, index, list, plan.acts, p + 1, c);
          blocks := blocks + [Block(pid, blp)];
          p := c.next;
        }
        OneMore(index);
        index := U16(index + 1);
        Bounds(list, plan.acts, now, p);
      }
      Bounds(list, plan.acts, now, p);
      ReportEnds(list, now, blocks, plan);
      MidwayStarts(list, plan.acts, now);
      assert nackInfoList == AfterReport(list, now);
    }

    /** `addNackPacketToRr` at time `now`: the request is appended to the packet, which has room for it. */
    method AddNackPacketToRr(rr: DataPacket, now: uint64) returns (r: bool)
      requires |nackInfoList| <= MAX_NACKS
      requires rr.length + COMMON_HEADER_LENGTH + 4 * |nackInfoList| <= rr.data.Length
      modifies `nackInfoList, rr`length, rr.data
      ensures nackInfoList == AfterReport(old(nackInfoList), now)
      ensures var blocks := Report(old(nackInfoList), now).blocks;
              && r == (blocks != [])
              && rr.length <= rr.data.Length
              && rr.data[..rr.length] == old(rr.data[..rr.length]) + if r then Message(ssrc, blocks) else []
    {
      hide Report, AfterReport, Message;
      var blocks := CollectBlocks(now);
      if |blocks| == 0 {
        return false;
      }
      FitsPacket(ssrc, blocks);
      var message := Message(ssrc, blocks);
      var at := rr.length;
      forall k | 0 <= k < |message| {
        rr.data[at + k] := message[k];
      }
      rr.length := rr.length + PacketLength(message);
      return true;
    }
  }

  /** The position of the scan: `index` is that of the last entry dealt with, or past the end. */
  ghost predicate Placed(list: seq<NackInfo>, acts: seq<Act>, now: uint64, q: nat, index: nat)
    requires q <= |list| == |acts|
  {
    var k := |Apply(list, acts, now, q)|;
    (q < |list| ==> index + 1 == k) && (q == |list| ==> k <= index + 1 <= MAX_NACKS + 1)
  }
}
