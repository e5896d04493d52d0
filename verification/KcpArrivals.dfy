/**
 What `ikcp_input` answers to any bytes: whole segments at the front of a datagram are always processed, and
 the first thing that is not one decides the result.
 */
module KcpArrivals {
  import opened Serial
  import opened KcpWire
  import opened KcpSpec
  import opened KcpPacking

  /** What stands behind the whole segments of a datagram. */
  datatype Ending = Short | Foreign | Truncated | Unknown

  /** Fewer than 24 bytes; or a header of another conversation; or one that announces more payload than
      there is; or one with a command that is none of the four. */
  ghost predicate EndsIn(conv: uint32, rest: bytes, e: Ending) {
    if |rest| < 24 then e == Short
    else if rest[..4] != Encode32(conv) then e == Foreign
    else if Decode32(rest[20..24]) > |rest| - 24 then e == Truncated
    else rest[4] !in {81, 82, 83, 84} && e == Unknown
  }

  function Code(e: Ending): int {
    match e
    case Short => 0
    case Foreign => -1
    case Truncated => -2
    case Unknown => -3
  }

  lemma ParseEnding(conv: uint32, rest: bytes, e: Ending)
    requires EndsIn(conv, rest, e)
    ensures Parse(conv, rest) == Parsed([], Code(e))
  {
    if |rest| >= 24 {
      Encode32Inverts(rest[0..4]);
      Decode32Inverts(conv);
      assert rest[0..4] == rest[..4];
      hide Encode32, Decode32, Decode;
    }
  }

  lemma {:induction false} ParseUpTo(conv: uint32, ws: seq<Wire>, i: nat, rest: bytes, e: Ending)
    requires i <= |ws| && EndsIn(conv, rest, e)
    requires forall j :: 0 <= j < |ws| ==> Understood(ws, conv, j)
    ensures Parse(conv, EncodeFrom(ws, i) + rest) == Parsed(ws[i..], Code(e))
    decreases |ws| - i
  {
    hide Encode, Parse, EndsIn;
    if i < |ws| {
      assert Understood(ws, conv, i);
      var more := EncodeFrom(ws, i + 1) + rest;
      assert EncodeFrom(ws, i) + rest == Encode(ws[i]) + more;
      ParseOne(conv, ws[i], more);
      ParseUpTo(conv, ws, i + 1, rest, e);
      assert ws[i..] == [ws[i]] + ws[i + 1..];
    } else {
      ParseEnding(conv, rest, e);
      assert EncodeFrom(ws, i) + rest == rest;
    }
  }

  /** A datagram of whole segments with something else behind them: the segments are processed, up to 23
      bytes behind them are ignored with result 0, and otherwise the result is -1 for another conversation,
      -2 for missing payload and -3 for an unknown command. Only with result 0 do fast acknowledgements and
      window growth follow. Fewer than 24 bytes in all get -1 and change nothing. */
  lemma InputResult(s: State, ws: seq<Wire>, rest: bytes, e: Ending)
    requires EndsIn(s.cfg.conv, rest, e) && |EncodeAll(ws) + rest| < TWO31
    requires forall j :: 0 <= j < |ws| ==> Understood(ws, s.cfg.conv, j)
    ensures KcpSpec.Input(s, EncodeAll(ws) + rest)
         == if |EncodeAll(ws) + rest| < 24 then (s, -1)
            else if e == Short then (AfterInput(ProcessRun(s, ws, |ws|), NoteRun(ws, |ws|), s.snd.una), 0)
            else (ProcessRun(s, ws, |ws|), Code(e))
  {
    ParseUpTo(s.cfg.conv, ws, 0, rest, e);
    assert ws[0..] == ws;
    hide Parse, ProcessRun, NoteRun, AfterInput, EndsIn, EncodeFrom;
    AsSigned(|EncodeAll(ws) + rest|);
  }

  lemma AsSigned(n: nat)
    requires n < TWO31
    ensures I32(n) == n
  {
  }

  /** Every byte string is whole segments and such an ending, so these are all cases. */
  lemma {:induction false} EveryDatagram(conv: uint32, datagram: bytes) returns (ws: seq<Wire>, rest: bytes, e: Ending)
    ensures datagram == EncodeAll(ws) + rest && EndsIn(conv, rest, e)
    ensures forall j :: 0 <= j < |ws| ==> Understood(ws, conv, j)
    decreases |datagram|
  {
    if e' :| EndsIn(conv, datagram, e') {
      ws, rest, e := [], datagram, e';
    } else {
      var w, tail := FirstSegment(conv, datagram);
      var more;
      hide EndsIn, Encode;
      more, rest, e := EveryDatagram(conv, tail);
      ws := [w] + more;
      EncodeCons(w, more);
      assert datagram == EncodeAll(ws) + rest;
      forall j | 0 <= j < |ws| ensures Understood(ws, conv, j) {
        assert j > 0 ==> Understood(more, conv, j - 1);
      }
    }
  }

  lemma FirstSegment(conv: uint32, s: bytes) returns (w: Wire, tail: bytes)
    requires !exists e :: EndsIn(conv, s, e)
    ensures w.conv == conv && KnownCommand(w.cmd) && |w.data| < TWO32
    ensures s == Encode(w) + tail && |tail| < |s|
  {
    assert !EndsIn(conv, s, Short) && !EndsIn(conv, s, Foreign) && !EndsIn(conv, s, Truncated)
        && !EndsIn(conv, s, Unknown);
    var n := Decode32(s[20..24]);
    w := Wire(conv, s[4], s[5], Decode16(s[6..8]), Decode32(s[8..12]), Decode32(s[12..16]), Decode32(s[16..20]),
              s[24..24 + n]);
    tail := s[24 + n..];
    HeaderBack(w, s);
    hide Encode32, Decode32, Encode16, Decode16;
    assert s == s[..24] + s[24..24 + n] + s[24 + n..];
  }

  lemma HeaderBack(w: Wire, s: bytes)
    requires |s| >= 24 && s[..4] == Encode32(w.conv) && s[4] == w.cmd && s[5] == w.frg
    requires w.wnd == Decode16(s[6..8]) && w.ts == Decode32(s[8..12]) && w.sn == Decode32(s[12..16])
    requires w.una == Decode32(s[16..20]) && |w.data| == Decode32(s[20..24])
    ensures EncodeHeader(w) == s[..24]
  {
    Encode16Inverts(s[6..8]);
    Encode32Inverts(s[8..12]);
    Encode32Inverts(s[12..16]);
    Encode32Inverts(s[16..20]);
    Encode32Inverts(s[20..24]);
    Fits(|w.data|);
    hide Encode32, Decode32, Encode16, Decode16, U32;
    assert s[..24] == s[..4] + [s[4], s[5]] + s[6..8] + s[8..12] + s[12..16] + s[16..20] + s[20..24];
  }

  lemma Fits(n: uint32)
    ensures U32(n) == n
  {
  }

  lemma Encode16Inverts(s: bytes)
    requires |s| == 2
    ensures Encode16(Decode16(s)) == s
  {
    TwoDigits(s[0], s[1]);
  }

  lemma EncodeCons(w: Wire, ws: seq<Wire>)
    ensures EncodeAll([w] + ws) == Encode(w) + EncodeAll(ws)
  {
    EncodeShift(w, ws, 0);
    hide Encode;
    assert ([w] + ws)[0] == w;
  }

  lemma {:induction false} EncodeShift(w: Wire, ws: seq<Wire>, i: nat)
    requires i <= |ws|
    ensures EncodeFrom([w] + ws, i + 1) == EncodeFrom(ws, i)
    decreases |ws| - i
  {
    hide Encode;
    var all := [w] + ws;
    if i < |ws| {
      EncodeShift(w, ws, i + 1);
      assert all[i + 1] == ws[i];
    } else {
      assert i + 1 == |all|;
    }
  }

  // ---------------------------------------------------------------- parts of the state

  lemma {:induction false} RunTells(s: State, ws: seq<Wire>, n: nat)
    requires n <= |ws|
    ensures ProcessRun(s, ws, n).probe.askTell <==> s.probe.askTell || exists j :: 0 <= j < n && Asks(ws, j)
    ensures ProcessRun(s, ws, n).probe == s.probe.(askTell := ProcessRun(s, ws, n).probe.askTell)
  {
    hide HearAck, AcceptPush, QueueAck, UpdateAck;
    if n > 0 {
      RunTells(s, ws, n - 1);
      assert Asks(ws, n - 1) || !Asks(ws, n - 1);
    }
  }

  predicate Asks(ws: seq<Wire>, j: nat)
    requires j < |ws|
  {
    ws[j].cmd == 83
  }

  /** Input asks for an announcement of the window exactly if the datagram has a probe, an announcement itself
      does not. Nothing else of the probing changes. */
  lemma InputTells(s: State, ws: seq<Wire>)
    requires ws != [] && |EncodeAll(ws)| < TWO31
    requires forall j :: 0 <= j < |ws| ==> Understood(ws, s.cfg.conv, j)
    ensures var t := KcpSpec.Input(s, EncodeAll(ws)).0;
            && t.probe == s.probe.(askTell := t.probe.askTell)
            && (t.probe.askTell <==> s.probe.askTell || exists j :: 0 <= j < |ws| && Asks(ws, j))
  {
    InputReads(s, ws);
    RunTells(s, ws, |ws|);
    hide KcpSpec.Input, ProcessRun, NoteRun, ParseFastack, Grow, EncodeAll;
  }

  // ---------------------------------------------------------------- the layout

  /** One header byte by byte: conversation, command, fragment, window, time, number, `una` and length, each
      with its lowest byte first. */
  lemma HeaderLayout()
    ensures EncodeHeader(Wire(0x0403_0201, 81, 5, 0x0706, 0x0b0a_0908, 0x0f0e_0d0c, 0x1312_1110, [7]))
         == [1, 2, 3, 4, 81, 5, 6, 7, 8, 9, 10, 11, 12, 13, 14, 15, 16, 17, 18, 19, 1, 0, 0, 0]
  {
  }

  /** What every segment of a flush announces: the room left in the receive queue, cut to 16 bits. */
  lemma AnnouncesRoom(s: State, i: nat)
    requires AllOurs(s.cfg, s.snd) && i < |FlushWires(s)| && |s.rcv.queue| <= s.cfg.rcvWnd
    ensures FlushWires(s)[i].wnd == (s.cfg.rcvWnd - |s.rcv.queue|) % 0x1_0000
    ensures FlushWires(s)[i].una == s.rcv.nxt
  {
    hide FlushWires, AllOurs;
    FlushKind(s, i);
  }
}
