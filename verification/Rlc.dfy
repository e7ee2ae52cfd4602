/**
 RLC and PDCP (rlc_encode, rlc_decode, pdcp_encode, pdcp_decode of mac_msg_parsing.c):
 headers by logical channel, and reassembly of segments into a buffer whose index is a byte.
*/
module Rlc {
  import opened Checksum
  import opened MacPdu

  const BUFFER := 2048

  predicate Transparent(lcid: nat) {
    lcid == 0 || lcid >= 28
  }

  predicate Acknowledged(lcid: nat) {
    lcid == 1 || lcid == 2
  }

  // ------------------------------------------------------------ sending

  function RlcHeader(lcid: nat, sn: nat): (h: seq<byte>)
    ensures |h| <= 2
  {
    if Transparent(lcid) then [] else if Acknowledged(lcid) then [128 + 32 + sn / 256 % 4, sn % 256] else [sn % 32]
  }

  function PdcpHeader(lcid: nat, sn: nat): (h: seq<byte>)
    ensures |h| <= 1
  {
    if Transparent(lcid) then [] else if Acknowledged(lcid) then [sn % 32] else [128 + sn % 128]
  }

  // The integrity code of the control plane, which is not computed.
  function MacI(lcid: nat): (t: seq<byte>) {
    if Acknowledged(lcid) then [0, 0, 0, 0] else []
  }

  function RlcPdu(lcid: nat, sn: nat, data: seq<byte>): seq<byte> {
    RlcHeader(lcid, sn) + data
  }

  function PdcpPdu(lcid: nat, sn: nat, data: seq<byte>): seq<byte> {
    PdcpHeader(lcid, sn) + data + MacI(lcid)
  }

  // A sequence counter of the program: 32 bits.
  function NextSn(lcid: nat, sn: nat): nat {
    if Transparent(lcid) then sn else (sn + 1) % WRAP
  }

  /** The PDUs byte by byte; the acknowledged mode asks for a status report in every PDU. */
  lemma PduFormats(lcid: nat, sn: nat, data: seq<byte>)
    ensures RlcPdu(lcid, sn, data) ==
            if lcid == 0 || lcid >= 28 then data
            else if lcid == 1 || lcid == 2 then [0xA0 + sn / 256 % 4, sn % 256] + data
            else [sn % 32] + data
    ensures PdcpPdu(lcid, sn, data) ==
            if lcid == 0 || lcid >= 28 then data
            else if lcid == 1 || lcid == 2 then [sn % 32] + data + [0, 0, 0, 0]
            else [0x80 + sn % 128] + data
    ensures NextSn(lcid, sn) == if lcid == 0 || lcid >= 28 then sn else (sn + 1) % 0x1_0000_0000
  {
  }

  method RlcEncode(out: array<byte>, outlen: nat, lcid: nat, sn0: nat, data: seq<byte>) returns (n: nat, sn: nat)
    requires 3 <= outlen <= out.Length
    modifies out
    ensures sn == NextSn(lcid, sn0) && n <= outlen
    ensures |RlcPdu(lcid, sn0, data)| <= outlen ==> n == |RlcPdu(lcid, sn0, data)| && out[..n] == RlcPdu(lcid, sn0, data)
  {
    n, sn := 0, sn0;
    if Acknowledged(lcid) {
      n := PutByte(out, n, outlen, 128 + 32 + sn / 256 % 4);
      n := PutByte(out, n, outlen, sn % 256);
      sn := (sn + 1) % WRAP;
    } else if !Transparent(lcid) {
      n := PutByte(out, n, outlen, sn % 32);
      sn := (sn + 1) % WRAP;
    }
    assert out[..n] == RlcHeader(lcid, sn0);
    n := PutBytes(out, n, outlen, data);
  }

  method PdcpEncode(out: array<byte>, outlen: nat, lcid: nat, sn0: nat, data: seq<byte>) returns (n: nat, sn: nat)
    requires 2 <= outlen <= out.Length
    modifies out
    ensures sn == NextSn(lcid, sn0) && n <= outlen
    ensures |PdcpPdu(lcid, sn0, data)| <= outlen ==> n == |PdcpPdu(lcid, sn0, data)| && out[..n] == PdcpPdu(lcid, sn0, data)
  {
    n, sn := 0, sn0;
    if !Transparent(lcid) {
      n := PutByte(out, n, outlen, if Acknowledged(lcid) then sn % 32 else 128 + sn % 128);
      sn := (sn + 1) % WRAP;
    }
    assert out[..n] == PdcpHeader(lcid, sn0);
    n := PutBytes(out, n, outlen, data);
    if Acknowledged(lcid) {
      n := PutBytes(out, n, outlen, [0, 0, 0, 0]);
    }
  }

  // ------------------------------------------------------------ receiving

  // The receiver of one channel: the reassembly buffer and its index, and what the last header said.
  datatype Rx = Rx(buffer: seq<byte>, index: byte, sn: nat, poll: bool)

  // A segment's data goes behind what is there, or to the front if it is the first; the index keeps its low byte.
  function Stored(s: Rx, first: bool, data: seq<byte>): (t: Rx)
    requires |s.buffer| == BUFFER
    ensures |t.buffer| == BUFFER && t.sn == s.sn && t.poll == s.poll
  {
    var i: nat := if first then 0 else s.index;
    var n := if |data| < BUFFER - i then |data| else BUFFER - i;
    s.(buffer := s.buffer[..i] + data[..n] + s.buffer[i + n..], index := (i + n) % 256)
  }

  // The position after the first k header bytes, which stops at the last byte.
  function After(len: nat, k: nat): (i: nat)
    requires 0 < len
    ensures i < len
  {
    if k < len then k else len - 1
  }

  // The framing bits and the extension bit in the first byte of a PDU.
  function FramingBits(lcid: nat, h: byte): int {
    if Acknowledged(lcid) then h as int / 8 % 4 else h as int / 64
  }

  function ExtensionBit(lcid: nat, h: byte): int {
    if Acknowledged(lcid) then h as int / 4 % 2 else h as int / 32 % 2
  }

  // One received PDU: the new state, and what is handed up.
  function Received(s: Rx, lcid: nat, b: seq<byte>): (r: (Rx, seq<byte>))
    requires |s.buffer| == BUFFER && (lcid != 0 ==> b != [])
    ensures |r.0.buffer| == BUFFER
  {
    if lcid == 0 then (s, b)
    else if Acknowledged(lcid) then
      if b[0] < 128 then (s, [])
      else
        var t := s.(sn := (b[0] as int % 4) * 256 + b[After(|b|, 1)] as int, poll := b[0] as int / 32 % 2 == 1);
        Segment(t, FramingBits(lcid, b[0]), ExtensionBit(lcid, b[0]), b[After(|b|, 2)..])
    else Segment(s, FramingBits(lcid, b[0]), ExtensionBit(lcid, b[0]), b[After(|b|, 1)..])
  }

  function Segment(s: Rx, fi: int, e: int, data: seq<byte>): (r: (Rx, seq<byte>))
    requires |s.buffer| == BUFFER
    ensures |r.0.buffer| == BUFFER
  {
    if e != 0 then (s, [])
    else
      var t := Stored(s, fi / 2 % 2 == 0, data);
      (t, if fi % 2 == 0 then t.buffer[..t.index] else [])
  }

  lemma SegmentParts(s: Rx, fi: int, e: int, data: seq<byte>)
    requires |s.buffer| == BUFFER
    ensures var t := Stored(s, fi / 2 % 2 == 0, data);
            Segment(s, fi, e, data) == if e != 0 then (s, []) else (t, if fi % 2 == 0 then t.buffer[..t.index] else [])
  {
    hide Stored;
  }

  /**
   What the program reads as the PDU. An empty one outside transparent mode makes the position after the first header byte
   -1: its header is what the buffer held before, and the byte in front of the buffer is read as the rest.
  */
  function AsRead(lcid: nat, b: seq<byte>, stale: byte, before: byte): (r: seq<byte>)
    ensures lcid != 0 ==> r != []
  {
    if b != [] || lcid == 0 then b else if Acknowledged(lcid) then [stale, before, before] else [stale, before]
  }

  // A position moves on by one, up to a bound that may be negative.
  function IncTo(i: int, bound: int): int {
    if i + 1 > bound then bound else i + 1
  }

  function ByteAt(b: seq<byte>, i: int, stale: byte, before: byte): byte {
    if i < 0 then before else if i < |b| then b[i] else stale
  }

  function BytesFrom(b: seq<byte>, i: int, before: byte): seq<byte>
    requires i <= |b|
  {
    if i < 0 then [before] + b else b[i..]
  }

  lemma FramingOf(lcid: nat, h: byte)
    requires lcid == 1 || lcid == 2
    ensures FramingBits(lcid, h) / 2 % 2 == h as int / 16 % 2 && FramingBits(lcid, h) % 2 == h as int / 8 % 2
  {
    assert h as int / 8 / 2 == h as int / 16;
  }

  /**
   A PDU in acknowledged mode: a status PDU changes nothing; of a data PDU the number and the poll bit are kept, and one with
   an extension bit is otherwise ignored. A first part (bit 4 clear) goes to the front of the buffer, another one behind what
   is there; after the last one (bit 3 clear) the buffer is handed up.
  */
  lemma AcknowledgedIs(s: Rx, lcid: nat, h: byte, l: byte, data: seq<byte>)
    requires |s.buffer| == BUFFER && (lcid == 1 || lcid == 2) && data != []
    ensures var (t, up) := Received(s, lcid, [h, l] + data);
            var u := Stored(s, h as int / 16 % 2 == 0, data);
            if h < 128 then t == s && up == []
            else && t.sn == 256 * (h as int % 4) + l as int && t.poll == (h as int / 32 % 2 == 1)
                 && if h as int / 4 % 2 == 1 then t.buffer == s.buffer && t.index == s.index && up == []
                    else t.buffer == u.buffer && t.index == u.index && up == if h as int / 8 % 2 == 0 then u.buffer[..u.index] else []
  {
    hide Stored, FramingBits;
    var b := [h, l] + data;
    assert b[After(|b|, 2)..] == data && b[0] == h && b[1] == l;
    FramingOf(lcid, h);
    StoredSame(s, s.(sn := h as int % 4 * 256 + l as int, poll := h as int / 32 % 2 == 1), h as int / 16 % 2 == 0, data);
  }

  /** A PDU in unacknowledged mode: bits 7 and 6 of the header are the framing, bit 5 the extension; the number is not looked at. */
  lemma UnacknowledgedIs(s: Rx, lcid: nat, h: byte, data: seq<byte>)
    requires |s.buffer| == BUFFER && lcid > 2 && data != []
    ensures var (t, up) := Received(s, lcid, [h] + data);
            var u := Stored(s, h < 128, data);
            if h as int / 32 % 2 == 1 then t == s && up == [] else t == u && up == if h as int / 64 % 2 == 0 then u.buffer[..u.index] else []
  {
    hide Stored;
    var b := [h] + data;
    assert b[After(|b|, 1)..] == data && b[0] == h;
  }

  // The number of bytes that pdcp_decode copies: a signed number.
  function PdcpLength(lcid: nat, b: seq<byte>): int {
    if b == [] || lcid == 0 then |b|
    else if Acknowledged(lcid) then |b| - 4 - 1
    else if b[0] >= 128 then |b| - 1 else 0
  }

  // What pdcp_decode takes out of a PDU.
  function PdcpData(lcid: nat, b: seq<byte>): (data: seq<byte>)
    requires 0 <= PdcpLength(lcid, b)
    ensures |data| == PdcpLength(lcid, b)
  {
    if b == [] || lcid == 0 then b
    else if Acknowledged(lcid) then b[1..|b| - 4]
    else if b[0] >= 128 then b[1..] else []
  }

  /** Channel 0 has no header; the control plane drops the header and four bytes of integrity code; user-plane control PDUs give nothing. */
  lemma PdcpTakesOut(lcid: nat, b: seq<byte>)
    requires b != []
    ensures PdcpLength(lcid, b) == if lcid == 0 then |b| else if lcid == 1 || lcid == 2 then |b| - 5 else if b[0] < 128 then 0 else |b| - 1
    ensures PdcpLength(lcid, b) > 0 ==> PdcpData(lcid, b) == if lcid == 0 then b else if lcid == 1 || lcid == 2 then b[1..|b| - 4] else b[1..]
  {
  }

  class Receiver {
    const buffer: array<byte>
    var index: byte
    var sn: nat
    var poll: bool

    ghost function State(): Rx
      reads this, buffer
    {
      Rx(buffer[..], index, sn, poll)
    }

    constructor ()
      ensures buffer.Length == BUFFER == 2048 && fresh(buffer) && index == 0
    {
      buffer := new byte[BUFFER](_ => 0);
      index, sn, poll := 0, 0, false;
    }

    method StoreBytes(first: bool, data: seq<byte>)
      requires buffer.Length == BUFFER
      modifies this`index, buffer
      ensures State() == Stored(old(State()), first, data)
    {
      if first {
        index := 0;
      }
      var next := PutBytesInto(buffer, index, data);
      index := next % 256;
    }

    // Stores one segment (the reassembly code of both modes).
    method Store(fi: int, e: int, data: seq<byte>, out: array<byte>, outlen: nat) returns (n: nat)
      requires buffer.Length == BUFFER && outlen <= out.Length && out != buffer
      modifies this`index, buffer, out
      ensures State() == Segment(old(State()), fi, e, data).0
      ensures var up := Segment(old(State()), fi, e, data).1;
              n == (if |up| < outlen then |up| else outlen) && out[..n] == up[..n]
    {
      hide Stored, Segment;
      SegmentParts(State(), fi, e, data);
      if e != 0 {
        return 0;
      }
      StoreBytes(fi / 2 % 2 == 0, data);
      if fi % 2 == 0 {
        var cplen: nat := if index < outlen then index else outlen;
        n := PutBytes(out, 0, outlen, buffer[..cplen]);
      } else {
        n := 0;
      }
    }

    /** rlc_decode: one PDU of any content, even an empty one. */
    method Decode(out: array<byte>, outlen: nat, lcid: nat, b: seq<byte>, stale: byte, before: byte) returns (n: nat)
      requires buffer.Length == BUFFER && outlen <= out.Length && out != buffer
      modifies this, buffer, out
      ensures State() == Received(old(State()), lcid, AsRead(lcid, b, stale, before)).0
      ensures var up := Received(old(State()), lcid, AsRead(lcid, b, stale, before)).1;
              n == (if |up| < outlen then |up| else outlen) && out[..n] == up[..n]
    {
      hide Segment;
      if lcid == 0 {
        n := PutBytes(out, 0, outlen, b);
        return;
      }
      var h := ByteAt(b, 0, stale, before) as int;
      var i := IncTo(0, |b| - 1);
      if Acknowledged(lcid) {
        if h >= 128 {
          sn := h % 4 * 256 + ByteAt(b, i, stale, before) as int;
          i := IncTo(i, |b| - 1);
          poll := h / 32 % 2 == 1;
          assert BytesFrom(b, i, before) == AsRead(lcid, b, stale, before)[After(|AsRead(lcid, b, stale, before)|, 2)..];
          n := Store(h / 8 % 4, h / 4 % 2, BytesFrom(b, i, before), out, outlen);
        } else {
          return 0;
        }
      } else {
        assert BytesFrom(b, i, before) == AsRead(lcid, b, stale, before)[After(|AsRead(lcid, b, stale, before)|, 1)..];
        n := Store(h / 64, h / 32 % 2, BytesFrom(b, i, before), out, outlen);
      }
    }
  }

  // Copies data to position i of a buffer as far as it goes; the rest of the buffer stays.
  method PutBytesInto(buffer: array<byte>, i: nat, data: seq<byte>) returns (next: nat)
    requires i <= buffer.Length
    modifies buffer
    ensures var n := if |data| < buffer.Length - i then |data| else buffer.Length - i;
            next == i + n && buffer[..] == old(buffer[..i]) + data[..n] + old(buffer[i + n..])
  {
    var n := if |data| < buffer.Length - i then |data| else buffer.Length - i;
    for k := 0 to n
      invariant buffer[..i] == old(buffer[..i]) && buffer[i..i + k] == data[..k] && buffer[i + k..] == old(buffer[i + k..])
    {
      buffer[i + k] := data[k];
    }
    next := i + n;
  }

  /** pdcp_decode, whenever the length that it passes on is not negative. The program does not look at the room in out. */
  method PdcpDecode(out: array<byte>, lcid: nat, b: seq<byte>) returns (n: nat)
    requires 0 <= PdcpLength(lcid, b) <= out.Length
    modifies out
    ensures n == |PdcpData(lcid, b)| && out[..n] == PdcpData(lcid, b)
  {
    var i, j := 0, 0;
    if |b| == 0 {
      return 0;
    }
    if Acknowledged(lcid) {
      i, j := 1, 4;
    } else if lcid != 0 {
      i := 1;
      if b[0] < 128 {
        i := |b|;
      }
    }
    n := PutBytes(out, 0, out.Length, b[i..|b| - j]);
  }

  // ------------------------------------------------------------ reassembly

  // The framing bits of part k of n: whether it is not the first, and not the last.
  function Framing(k: nat, n: nat): (fi: nat)
    ensures fi < 4
  {
    (if k == 0 then 0 else 2) + (if k == n - 1 then 0 else 1)
  }

  // Part k of n as a peer sends it.
  function SegmentPdu(lcid: nat, k: nat, n: nat, sn: nat, data: seq<byte>): (b: seq<byte>)
    requires lcid != 0 && k < n
    ensures b != []
  {
    var fi := Framing(k, n);
    if Acknowledged(lcid) then [128 + 8 * fi + sn / 256 % 4, sn % 256] + data else [64 * fi + sn % 32] + data
  }

  /** The framing: 0 is whole, 1 the first part, 2 the last, 3 any other. */
  lemma SegmentFormat(lcid: nat, k: nat, n: nat, sn: nat, data: seq<byte>)
    requires lcid != 0 && k < n
    ensures var fi := if n == 1 then 0 else if k == 0 then 1 else if k == n - 1 then 2 else 3;
            SegmentPdu(lcid, k, n, sn, data) ==
            (if lcid == 1 || lcid == 2 then [0x80 + 8 * fi + sn / 256 % 4, sn % 256] else [64 * fi + sn % 32]) + data
  {
  }

  function Joined(parts: seq<seq<byte>>, n: nat): seq<byte>
    requires n <= |parts|
  {
    if n == 0 then [] else Joined(parts, n - 1) + parts[n - 1]
  }

  // The receiver after the first n parts.
  function Fed(s: Rx, lcid: nat, parts: seq<seq<byte>>, sns: seq<nat>, n: nat): (t: Rx)
    requires |s.buffer| == BUFFER && lcid != 0 && n <= |parts| == |sns|
    ensures |t.buffer| == BUFFER
  {
    if n == 0 then s
    else Received(Fed(s, lcid, parts, sns, n - 1), lcid, SegmentPdu(lcid, n - 1, |parts|, sns[n - 1], parts[n - 1])).0
  }

  // What part n - 1 makes the receiver hand up.
  function HandedUp(s: Rx, lcid: nat, parts: seq<seq<byte>>, sns: seq<nat>, n: nat): seq<byte>
    requires |s.buffer| == BUFFER && lcid != 0 && 0 < n <= |parts| == |sns|
  {
    Received(Fed(s, lcid, parts, sns, n - 1), lcid, SegmentPdu(lcid, n - 1, |parts|, sns[n - 1], parts[n - 1])).1
  }

  // A segment is taken for what it is.
  lemma SegmentSeen(s: Rx, lcid: nat, k: nat, n: nat, sn: nat, data: seq<byte>)
    requires |s.buffer| == BUFFER && lcid != 0 && k < n && data != []
    ensures var (t, up) := Received(s, lcid, SegmentPdu(lcid, k, n, sn, data));
            var u := Stored(s, k == 0, data);
            && t.buffer == u.buffer && t.index == u.index && (Acknowledged(lcid) ==> t.sn == sn % 1024)
            && up == if k == n - 1 then u.buffer[..u.index] else []
  {
    hide Stored;
    var b, m := SegmentPdu(lcid, k, n, sn, data), if Acknowledged(lcid) then 2 else 1;
    assert After(|b|, m) == m && b[m..] == data;
    if Acknowledged(lcid) {
      SnBits(sn);
      HeaderBits(Framing(k, n), sn / 256 % 4, 0);
      StoredSame(s, s.(sn := sn % 1024, poll := b[0] as int / 32 % 2 == 1), k == 0, data);
    } else {
      HeaderBits(Framing(k, n), 0, sn % 32);
    }
  }

  lemma StoredSame(s: Rx, t: Rx, first: bool, data: seq<byte>)
    requires |s.buffer| == BUFFER && s.buffer == t.buffer && s.index == t.index
    ensures Stored(s, first, data).buffer == Stored(t, first, data).buffer && Stored(s, first, data).index == Stored(t, first, data).index
  {
  }

  // The framing bits and the extension bit of the two headers.
  lemma HeaderBits(fi: nat, q: nat, r: nat)
    requires fi < 4 && q < 4 && r < 32
    ensures var x := 128 + 8 * fi + q; 128 <= x < 256 && x / 8 % 4 == fi && x / 4 % 2 == 0 && x % 4 == q
    ensures var y := 64 * fi + r; y < 256 && y / 64 == fi && y / 32 % 2 == 0
  {
  }

  lemma SnBits(sn: nat)
    ensures sn / 256 % 4 * 256 + sn % 256 == sn % 1024
  {
  }

  lemma {:induction false} JoinedGrows(parts: seq<seq<byte>>, m: nat, n: nat)
    requires m <= n <= |parts|
    ensures |Joined(parts, m)| <= |Joined(parts, n)|
  {
    if m < n {
      JoinedGrows(parts, m, n - 1);
    }
  }

  // As long as the parts are at most 255 bytes, the buffer holds them joined.
  lemma {:induction false} FedHolds(s: Rx, lcid: nat, parts: seq<seq<byte>>, sns: seq<nat>, n: nat)
    requires |s.buffer| == BUFFER && lcid != 0 && 0 < n <= |parts| == |sns| && forall k :: 0 <= k < |parts| ==> parts[k] != []
    requires |Joined(parts, n)| <= 255
    ensures var t := Fed(s, lcid, parts, sns, n); t.index == |Joined(parts, n)| && t.buffer[..t.index] == Joined(parts, n)
    ensures n < |parts| ==> HandedUp(s, lcid, parts, sns, n) == []
    ensures n == |parts| ==> HandedUp(s, lcid, parts, sns, n) == Joined(parts, n)
  {
    hide Received, SegmentPdu, Stored;
    var t := Fed(s, lcid, parts, sns, n - 1);
    JoinedGrows(parts, n - 1, n);
    if n > 1 {
      FedHolds(s, lcid, parts, sns, n - 1);
    }
    SegmentSeen(t, lcid, n - 1, |parts|, sns[n - 1], parts[n - 1]);
    StoredBehind(t, n == 1, Joined(parts, n - 1), parts[n - 1]);
  }

  // Data goes behind what is held, if the index can count it.
  lemma StoredBehind(s: Rx, first: bool, held: seq<byte>, data: seq<byte>)
    requires |s.buffer| == BUFFER && |held| + |data| <= 255
    requires if first then held == [] else s.index == |held| && s.buffer[..s.index] == held
    ensures var u := Stored(s, first, data); u.index == |held| + |data| && u.buffer[..u.index] == held + data
  {
  }

  lemma NothingYet(s: Rx, lcid: nat, parts: seq<seq<byte>>, sns: seq<nat>, n: nat)
    requires |s.buffer| == BUFFER && lcid != 0 && 0 < n < |parts| == |sns| && parts[n - 1] != []
    ensures HandedUp(s, lcid, parts, sns, n) == []
  {
    hide Received, SegmentPdu;
    SegmentSeen(Fed(s, lcid, parts, sns, n - 1), lcid, n - 1, |parts|, sns[n - 1], parts[n - 1]);
  }

  lemma AtMostAByte(s: Rx, lcid: nat, parts: seq<seq<byte>>, sns: seq<nat>)
    requires |s.buffer| == BUFFER && lcid != 0 && 0 < |parts| == |sns| && parts[|parts| - 1] != []
    ensures |HandedUp(s, lcid, parts, sns, |parts|)| <= 255
  {
    hide Received, SegmentPdu, Fed;
    var n := |parts|;
    SegmentSeen(Fed(s, lcid, parts, sns, n - 1), lcid, n - 1, n, sns[n - 1], parts[n - 1]);
  }

  /**
   Reassembly, from any earlier state of the receiver and for any split into non-empty parts: nothing is handed up
   before the last part, and then the whole PDU exactly if it has at most 255 bytes, because the buffer
   index is a byte.
  */
  lemma Reassembled(s: Rx, lcid: nat, parts: seq<seq<byte>>, sns: seq<nat>, n: nat)
    requires |s.buffer| == BUFFER && lcid != 0 && 0 < n <= |parts| == |sns| && forall k :: 0 <= k < |parts| ==> parts[k] != []
    ensures n < |parts| ==> HandedUp(s, lcid, parts, sns, n) == []
    ensures n == |parts| ==> (HandedUp(s, lcid, parts, sns, n) == Joined(parts, n) <==> |Joined(parts, n)| <= 255)
  {
    hide HandedUp, Joined;
    if n < |parts| {
      NothingYet(s, lcid, parts, sns, n);
    } else {
      AtMostAByte(s, lcid, parts, sns);
      if |Joined(parts, n)| <= 255 {
        FedHolds(s, lcid, parts, sns, n);
      }
    }
  }

  /**
   The stack is its own inverse: what PDCP and RLC send on channels 0 to 3, the receiver takes apart again, from any
   state; on channels other than 0 exactly if the PDCP PDU has at most 255 bytes. In acknowledged mode the
   sequence number arrives modulo 1024.
  */
  lemma StackInverse(s: Rx, lcid: nat, sn: nat, psn: nat, data: seq<byte>)
    requires |s.buffer| == BUFFER && lcid <= 3
    ensures var (t, up) := Received(s, lcid, RlcPdu(lcid, sn, PdcpPdu(lcid, psn, data)));
            && (up == PdcpPdu(lcid, psn, data) <==> lcid == 0 || |PdcpPdu(lcid, psn, data)| <= 255)
            && (Acknowledged(lcid) ==> t.sn == sn % 1024)
    ensures PdcpData(lcid, PdcpPdu(lcid, psn, data)) == data
  {
    var p := PdcpPdu(lcid, psn, data);
    PdcpInverse(lcid, psn, data);
    hide PdcpPdu, PdcpData;
    if lcid != 0 {
      WholeSeen(s, lcid, sn, p);
    }
  }

  lemma OneStored(s: Rx, first: bool, x: byte)
    requires |s.buffer| == BUFFER
    ensures var u := Stored(s, first, [x]);
            u.buffer[..u.index] == if first then [x] else if s.index < 255 then s.buffer[..s.index] + [x] else []
  {
  }

  // What an empty PDU makes the receiver do depends on a header h that was left over.
  predicate HandsUp(lcid: nat, h: byte, index: byte) {
    var fi := FramingBits(lcid, h);
    && (Acknowledged(lcid) ==> h >= 128) && ExtensionBit(lcid, h) == 0 && fi % 2 == 0
    && (fi / 2 % 2 == 0 || index < 255)
  }

  /**
   An empty PDU outside transparent mode hands something up exactly if the header left over in its buffer is that of the
   last part of a data PDU, without extension, and the index does not wrap: what there is of the PDU so far, unless the
   left-over header begins one, and the byte in front of the buffer.
  */
  lemma EmptyHandsUp(s: Rx, lcid: nat, stale: byte, before: byte)
    requires |s.buffer| == BUFFER && lcid != 0
    ensures Received(s, lcid, AsRead(lcid, [], stale, before)).1 ==
            if !HandsUp(lcid, stale, s.index) then []
            else (if FramingBits(lcid, stale) / 2 % 2 == 0 then [] else s.buffer[..s.index]) + [before]
  {
    var b := AsRead(lcid, [], stale, before);
    var first := FramingBits(lcid, stale) / 2 % 2 == 0;
    assert b[0] == stale && b[After(|b|, if Acknowledged(lcid) then 2 else 1)..] == [before];
    OneStored(s, first, before);
    if Acknowledged(lcid) {
      var t := s.(sn := (b[0] as int % 4) * 256 + b[After(|b|, 1)] as int, poll := b[0] as int / 32 % 2 == 1);
      StoredSame(s, t, first, [before]);
    }
    hide Stored, FramingBits, ExtensionBit;
  }

  // A PDU that is only a header is read like an empty one with its last header byte in front of the buffer.
  lemma HeaderOnly(s: Rx, lcid: nat, sn: nat)
    requires |s.buffer| == BUFFER && 0 < lcid <= 3
    ensures Received(s, lcid, RlcPdu(lcid, sn, [])).1 == [if Acknowledged(lcid) then sn % 256 else sn % 32]
  {
    hide Segment, Stored;
    var b := RlcPdu(lcid, sn, []);
    var h, last := b[0], b[|b| - 1];
    var a := AsRead(lcid, [], h, last);
    assert b[|b| - 1..] == [last] && a[|a| - 1..] == [last];
    assert Received(s, lcid, b) == Received(s, lcid, a);
    EmptyHandsUp(s, lcid, h, last);
    UnsegmentedHeader(lcid, sn);
    hide Received;
  }

  lemma UnsegmentedHeader(lcid: nat, sn: nat)
    requires 0 < lcid <= 3
    ensures var h := RlcPdu(lcid, sn, [])[0]; (Acknowledged(lcid) ==> h >= 128) && ExtensionBit(lcid, h) == 0 && FramingBits(lcid, h) == 0
  {
  }

  // What is handed up of a whole PDU is as long as its index, a byte, allows.
  lemma WholeLength(s: Rx, lcid: nat, sn: nat, p: seq<byte>)
    requires |s.buffer| == BUFFER && 0 < lcid <= 3 && p != []
    ensures |Received(s, lcid, RlcPdu(lcid, sn, p)).1| == (if |p| < BUFFER then |p| else BUFFER) % 256
  {
    var b := RlcPdu(lcid, sn, p);
    var m := |b| - |p|;
    assert After(|b|, m) == m && b[m..] == p;
    var u := Stored(s, true, p);
    assert |u.buffer[..u.index]| == u.index;
    if Acknowledged(lcid) {
      SnBits(sn);
    }
  }

  /**
   A PDU of any length, sent whole, makes pdcp_decode copy a negative number of bytes exactly if it is a control-plane PDU
   that is empty or leaves, after what the buffer cannot hold is cut off, 1 to 4 modulo 256.
  */
  lemma NegativeLengthIff(s: Rx, lcid: nat, sn: nat, p: seq<byte>)
    requires |s.buffer| == BUFFER && lcid <= 3
    ensures PdcpLength(lcid, Received(s, lcid, RlcPdu(lcid, sn, p)).1) < 0 <==>
            (lcid == 1 || lcid == 2) && (p == [] || 0 < (if |p| < 2048 then |p| else 2048) % 256 < 5)
  {
    if lcid != 0 {
      if p == [] {
        HeaderOnly(s, lcid, sn);
      } else {
        WholeLength(s, lcid, sn, p);
      }
      hide Received, RlcPdu;
    }
  }

  /** Whatever is left over, nothing is handed up exactly in transparent mode. */
  lemma EmptyIgnoredIff(lcid: nat)
    ensures (forall s: Rx, stale, before :: |s.buffer| == BUFFER ==> Received(s, lcid, AsRead(lcid, [], stale, before)).1 == []) <==> lcid == 0
  {
    if lcid != 0 {
      var stale: byte := if Acknowledged(lcid) then 128 else 0;
      Unsegmented(lcid, stale, 0);
      hide Received, AsRead, HandsUp, FramingBits;
      var s := Rx(seq(BUFFER, _ => 0), 0, 0, false);
      EmptyHandsUp(s, lcid, stale, 0);
      assert Received(s, lcid, AsRead(lcid, [], stale, 0)).1 != [];
    }
  }

  lemma Unsegmented(lcid: nat, h: byte, index: byte)
    requires h == if Acknowledged(lcid) then 128 else 0
    ensures HandsUp(lcid, h, index) && FramingBits(lcid, h) == 0
  {
  }

  lemma PdcpInverse(lcid: nat, psn: nat, data: seq<byte>)
    requires lcid <= 3
    ensures PdcpData(lcid, PdcpPdu(lcid, psn, data)) == data && (lcid != 0 ==> PdcpPdu(lcid, psn, data) != [])
  {
  }

  // A PDU that is sent whole.
  lemma WholeSeen(s: Rx, lcid: nat, sn: nat, p: seq<byte>)
    requires |s.buffer| == BUFFER && 0 < lcid <= 3 && p != []
    ensures var (t, up) := Received(s, lcid, RlcPdu(lcid, sn, p));
            (up == p <==> |p| <= 255) && (Acknowledged(lcid) ==> t.sn == sn % 1024)
  {
    var b := RlcPdu(lcid, sn, p);
    var m := |b| - |p|;
    assert After(|b|, m) == m && b[m..] == p;
    var u := Stored(s, true, p);
    assert |p| <= 255 ==> u.buffer[..u.index] == p;
    if Acknowledged(lcid) {
      SnBits(sn);
    }
  }
}
