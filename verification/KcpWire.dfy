/** The KCP wire format: a 24-byte little-endian header followed by the payload. */
module KcpWire {
  import opened Serial

  const OVERHEAD := 24
  const CMD_PUSH: byte := 81
  const CMD_ACK: byte := 82
  const CMD_WASK: byte := 83
  const CMD_WINS: byte := 84

  type bytes = seq<byte>

  /** One segment as it travels: the eight header fields and the payload. */
  datatype Wire = Wire(conv: uint32, cmd: byte, frg: byte, wnd: uint16,
                       ts: uint32, sn: uint32, una: uint32, data: bytes)

  function Encode16(w: uint16): bytes {
    [w % 0x100, w / 0x100]
  }

  function Encode32(l: uint32): bytes {
    [l % 0x100, l / 0x100 % 0x100, l / 0x1_0000 % 0x100, l / 0x100_0000]
  }

  function Decode16(s: bytes): uint16
    requires |s| == 2
  {
    (s[0] as int) + (s[1] as int) * 0x100
  }

  function Decode32(s: bytes): uint32
    requires |s| == 4
  {
    (s[0] as int) + (s[1] as int) * 0x100 + (s[2] as int) * 0x1_0000 + (s[3] as int) * 0x100_0000
  }

  /** `ikcp_encode_seg`: the header of a segment. */
  function EncodeHeader(w: Wire): (h: bytes)
    ensures |h| == OVERHEAD
  {
    Encode32(w.conv) + [w.cmd, w.frg] + Encode16(w.wnd) + Encode32(w.ts)
    + Encode32(w.sn) + Encode32(w.una) + Encode32(U32(|w.data|))
  }

  function Encode(w: Wire): (e: bytes)
    ensures |e| == OVERHEAD + |w.data|
  {
    EncodeHeader(w) + w.data
  }

  /** The segments of a run from position `i` on, one after the other. */
  function EncodeFrom(ws: seq<Wire>, i: nat): bytes
    requires i <= |ws|
    decreases |ws| - i
  {
    if i == |ws| then [] else Encode(ws[i]) + EncodeFrom(ws, i + 1)
  }

  /** A run of segments, as one datagram carries it. */
  function EncodeAll(ws: seq<Wire>): bytes {
    EncodeFrom(ws, 0)
  }

  /** The length field of a header. */
  function DecodeLen(s: bytes): uint32
    requires |s| >= OVERHEAD
  {
    Decode32(s[20..24])
  }

  function DecodeConv(s: bytes): uint32
    requires |s| >= OVERHEAD
  {
    Decode32(s[0..4])
  }

  /** The segment at the front of `s`, whose length field is known to fit. */
  function Decode(s: bytes): Wire
    requires |s| >= OVERHEAD
    requires |s| - OVERHEAD >= DecodeLen(s)
  {
    Wire(DecodeConv(s), s[4], s[5], Decode16(s[6..8]), Decode32(s[8..12]), Decode32(s[12..16]),
         Decode32(s[16..20]), s[24..24 + DecodeLen(s)])
  }

  lemma Decode16Inverts(w: uint16)
    ensures Decode16(Encode16(w)) == w
  {
  }

  lemma Decode32Inverts(l: uint32)
    ensures Decode32(Encode32(l)) == l
  {
    var b, c := l / 0x100, l / 0x1_0000;
    assert l == l % 0x100 + b * 0x100;
    assert b == b % 0x100 + c * 0x100;
    assert c == c % 0x100 + (l / 0x100_0000) * 0x100;
  }

  /** Encoding also undoes decoding, so every 4 bytes are some number's encoding. */
  lemma Encode32Inverts(s: bytes)
    requires |s| == 4
    ensures Encode32(Decode32(s)) == s
  {
    var h1: int := (s[1] as int) + (s[2] as int) * 0x100 + (s[3] as int) * 0x1_0000;
    var h2: int := (s[2] as int) + (s[3] as int) * 0x100;
    TwoDigits(s[0], h1);
    TwoDigits(s[1], h2);
    TwoDigits(s[2], s[3]);
    assert Decode32(s) == s[0] + h1 * 0x100;
    Quotients(Decode32(s));
  }

  lemma HeaderSlices(w: Wire, rest: bytes)
    ensures var s := Encode(w) + rest;
            && s[0..4] == Encode32(w.conv) && s[4] == w.cmd && s[5] == w.frg
            && s[6..8] == Encode16(w.wnd) && s[8..12] == Encode32(w.ts)
            && s[12..16] == Encode32(w.sn) && s[16..20] == Encode32(w.una)
            && s[20..24] == Encode32(U32(|w.data|))
  {
  }

  /** Reading a header back field by field. */
  lemma HeaderFields(w: Wire, rest: bytes)
    requires |w.data| < TWO32
    ensures var s := Encode(w) + rest;
            && DecodeConv(s) == w.conv && s[4] == w.cmd && s[5] == w.frg
            && Decode16(s[6..8]) == w.wnd && DecodeLen(s) == |w.data|
  {
    hide Encode, EncodeHeader, Encode16, Encode32, Decode16, Decode32;
    HeaderSlices(w, rest);
    Decode16Inverts(w.wnd);
    Decode32Inverts(w.conv);
    Decode32Inverts(|w.data|);
  }

  lemma HeaderNumbers(w: Wire, rest: bytes)
    ensures var s := Encode(w) + rest;
            && Decode32(s[8..12]) == w.ts && Decode32(s[12..16]) == w.sn && Decode32(s[16..20]) == w.una
  {
    hide Encode, EncodeHeader, Encode16, Encode32, Decode16, Decode32;
    HeaderSlices(w, rest);
    Decode32Inverts(w.ts);
    Decode32Inverts(w.sn);
    Decode32Inverts(w.una);
  }

  /** The segment at the front of a datagram is read back whole, whatever follows it. */
  lemma DecodeInverts(w: Wire, rest: bytes)
    requires |w.data| < TWO32
    ensures var s := Encode(w) + rest;
            && DecodeLen(s) == |w.data| && Decode(s) == w
            && s[OVERHEAD + |w.data|..] == rest
  {
    HeaderFields(w, rest);
    HeaderNumbers(w, rest);
    var s := Encode(w) + rest;
    assert s[24..24 + |w.data|] == w.data;
    assert s[OVERHEAD + |w.data|..] == rest;
  }

  lemma {:induction false} EncodeFromSnoc(ws: seq<Wire>, w: Wire, i: nat)
    requires i <= |ws|
    ensures EncodeFrom(ws + [w], i) == EncodeFrom(ws, i) + Encode(w)
    decreases |ws| - i
  {
    if i == |ws| {
      assert EncodeFrom(ws + [w], i + 1) == [];
    } else {
      EncodeFromSnoc(ws, w, i + 1);
    }
  }

  lemma EncodeAllEmpty(ws: seq<Wire>)
    ensures EncodeAll(ws) == [] <==> ws == []
    ensures ws != [] ==> |EncodeAll(ws)| >= OVERHEAD
  {
  }
}
