/**
 Answering a ping (ip and icmp of mac_msg_parsing.c): the reply is built from the request,
 and each checksum is computed over everything that has been written so far.
*/
module Ping {
  import opened Checksum

  // ------------------------------------------------------------ ICMP

  // The request with type 0 and an empty checksum field.
  function Unchecked(p: seq<byte>): (r: seq<byte>)
    requires |p| >= 8
    ensures |r| == |p| && Word(r, 1) == 0 && r[0] == 0
  {
    p[0 := 0][2 := 0][3 := 0]
  }

  function EchoReply(p: seq<byte>): (r: seq<byte>)
    requires |p| >= 8
    ensures |r| == |p|
  {
    WithWord(Unchecked(p), 1, Check(Unchecked(p)))
  }

  /** The reply carries the request's code, identifier, number and data, and checks to zero. */
  lemma EchoReplyOk(p: seq<byte>)
    requires |p| >= 8
    ensures Check(EchoReply(p)) == 0
    ensures EchoReply(p)[0] == 0 && EchoReply(p)[1] == p[1] && EchoReply(p)[4..] == p[4..]
  {
    InsertedChecks(Unchecked(p), 1);
  }

  // The length of the reply to the first len bytes of p: nothing but an echo request that fits is answered.
  function IcmpLength(p: seq<byte>, len: int, outlen: int): (n: nat)
    requires len <= |p|
  {
    if len >= 8 && p[0] == 8 && len <= outlen then len else 0
  }

  method Icmp(rx: seq<byte>, rxLen: int, tx: array<byte>, off: nat, outlen: int) returns (n: nat)
    requires rxLen <= |rx| && rxLen <= 65535 && (outlen > 0 ==> off + outlen <= tx.Length)
    modifies tx
    ensures n == IcmpLength(rx, rxLen, outlen) == if rxLen >= 8 && rx[0] == 8 && rxLen <= outlen then rxLen else 0
    ensures n == 0 ==> tx[..] == old(tx[..])
    ensures n > 0 ==> off + n <= tx.Length && tx[..] == old(tx[..off]) + EchoReply(rx[..n]) + old(tx[off + n..])
  {
    hide Check;
    if rxLen < 8 {
      return 0;
    }
    match rx[0] {
      case 8 =>
        if outlen < rxLen {
          return 0;
        }
        WriteEcho(rx[..rxLen], tx, off);
        return rxLen;
      case _ =>
        return 0;
    }
  }

  method WriteEcho(p: seq<byte>, tx: array<byte>, off: nat)
    requires 8 <= |p| <= 65535 && off + |p| <= tx.Length
    modifies tx
    ensures tx[..] == old(tx[..off]) + EchoReply(p) + old(tx[off + |p|..])
  {
    hide Check, Word;
    var n := |p|;
    CopyInto(tx, off, p);
    tx[off] := 0;
    tx[off + 2], tx[off + 3] := 0, 0;
    ghost var a, z, u := old(tx[..off]), old(tx[off + n..]), Unchecked(p);
    assert tx[..] == a + u + z;
    hide Unchecked;
    FillCheck(tx, off, n, 1, a, u, z);
  }

  // Computes the checksum of the part u and stores it in its word k.
  method FillCheck(tx: array<byte>, off: nat, n: nat, k: nat, ghost a: seq<byte>, ghost u: seq<byte>, ghost z: seq<byte>)
    requires tx[..] == a + u + z && |a| == off && |u| == n <= ONES && 2 * k + 1 < n
    modifies tx
    ensures tx[..] == a + WithWord(u, k, Check(u)) + z
  {
    hide Check;
    assert tx[off..off + n] == u && u[..n] == u;
    var c := ComputeChecksum(tx[off..off + n], n);
    hide WithWord;
    ghost var w: seq<byte> := tx[..];
    tx[off + 2 * k], tx[off + 2 * k + 1] := c / 256, c % 256;
    WordInside(a, u, z, k, c / 256, c % 256);
    ghost var w': seq<byte> := w[off + 2 * k := tx[off + 2 * k]];
    assert tx[..] == w'[off + 2 * k + 1 := tx[off + 2 * k + 1]];
  }

  // Writing a word of the middle part.
  lemma WordInside(a: seq<byte>, u: seq<byte>, z: seq<byte>, k: nat, x: byte, y: byte)
    requires 2 * k + 1 < |u|
    ensures (a + u + z)[|a| + 2 * k := x][|a| + 2 * k + 1 := y] == a + WithWord(u, k, (x as int) * 256 + y as int) + z
  {
  }

  method CopyInto(tx: array<byte>, off: nat, data: seq<byte>)
    requires off + |data| <= tx.Length
    modifies tx
    ensures tx[..] == old(tx[..off]) + data + old(tx[off + |data|..])
  {
    for i := 0 to |data|
      invariant tx[..off] == old(tx[..off]) && tx[off..off + i] == data[..i] && tx[off + i..] == old(tx[off + i..])
    {
      tx[off + i] := data[i];
    }
  }

  // ------------------------------------------------------------ IP

  function HeaderLength(rx: seq<byte>): nat
    requires |rx| >= 20
  {
    4 * (rx[0] as int % 16)
  }

  function TotalLength(rx: seq<byte>): nat
    requires |rx| >= 20
  {
    Word(rx, 1)
  }

  // The packets that ip goes on to answer.
  predicate Accepted(rx: seq<byte>) {
    && |rx| >= 20 && rx[0] as int / 16 == 4 && 20 <= HeaderLength(rx) <= |rx| && TotalLength(rx) <= |rx| && rx[9] == 1
  }

  /** These are IPv4 packets with a header of at least five words, no longer than what was received, that carry ICMP. */
  lemma AcceptedIff(rx: seq<byte>)
    ensures Accepted(rx) <==>
            |rx| >= 20 && 0x40 <= rx[0] < 0x50 && rx[0] as int % 16 >= 5 && 4 * (rx[0] as int % 16) <= |rx|
            && 256 * rx[2] as int + rx[3] as int <= |rx| && rx[9] == 1
  {
  }

  // The request's header with the new length, the addresses exchanged and no checksum.
  function BareHeader(rx: seq<byte>, total: nat): (h: seq<byte>)
    requires Accepted(rx) && total <= ONES
    ensures |h| == HeaderLength(rx) >= 20 && |h| % 2 == 0 && Word(h, 5) == 0 && h[0] == rx[0] && h[0] > 0
  {
    rx[..2] + [total / 256, total % 256] + rx[4..10] + [0, 0] + rx[16..20] + rx[12..16] + rx[20..HeaderLength(rx)]
  }

  function Body(rx: seq<byte>, m: nat): (b: seq<byte>)
    requires Accepted(rx) && HeaderLength(rx) + m <= |rx| && (m == 0 || m >= 8)
    ensures |b| == m
  {
    if m == 0 then [] else EchoReply(rx[HeaderLength(rx)..HeaderLength(rx) + m])
  }

  // The reply with an ICMP part of m bytes.
  function IpReply(rx: seq<byte>, m: nat): (r: seq<byte>)
    requires Accepted(rx) && HeaderLength(rx) + m <= |rx| && HeaderLength(rx) + m <= ONES && (m == 0 || m >= 8)
    ensures |r| == HeaderLength(rx) + m
  {
    var bare := BareHeader(rx, HeaderLength(rx) + m) + Body(rx, m);
    WithWord(bare, 5, Check(bare))
  }

  /**
   Although its checksum is computed over the whole packet, the reply's header checks to zero by itself, and so does
   the ICMP part.
  */
  lemma IpReplyOk(rx: seq<byte>, m: nat)
    requires Accepted(rx) && HeaderLength(rx) + m <= |rx| && HeaderLength(rx) + m <= ONES && (m == 0 || m >= 8)
    ensures var r, n := IpReply(rx, m), HeaderLength(rx);
            && r[..n] == WithWord(BareHeader(rx, n + m), 5, Check(BareHeader(rx, n + m))) && r[n..] == Body(rx, m)
            && Check(r[..n]) == 0 && (m > 0 ==> Check(r[n..]) == 0)
  {
    hide Check, Sum, EchoReply, WithWord, BareHeader, HeaderLength, TotalLength;
    var n := HeaderLength(rx);
    var h, b := BareHeader(rx, n + m), Body(rx, m);
    FirstWordCounts(h);
    if m > 0 {
      EchoReplyOk(rx[n..n + m]);
      CheckedTail(h, b);
    } else {
      assert h + b == h;
    }
    InsertedChecks(h, 5);
    WithWordFirst(h, b, 5, Check(h));
  }

  lemma WithWordFirst(h: seq<byte>, b: seq<byte>, k: nat, v: nat)
    requires 2 * k + 1 < |h| && v <= ONES
    ensures WithWord(h + b, k, v)[..|h|] == WithWord(h, k, v) && WithWord(h + b, k, v)[|h|..] == b
  {
  }

  /** The header goes back to the sender, with the new length; everything else in it is that of the request. */
  lemma HeaderFields(rx: seq<byte>, total: nat, c: nat)
    requires Accepted(rx) && total <= ONES && c <= ONES
    ensures var w := WithWord(BareHeader(rx, total), 5, c);
            && |w| == 4 * (rx[0] as int % 16)
            && w[12..16] == rx[16..20] && w[16..20] == rx[12..16] && 256 * w[2] as int + w[3] as int == total
            && 256 * w[10] as int + w[11] as int == c
            && w[0] == rx[0] && w[1] == rx[1] && w[4..10] == rx[4..10] && w[20..] == rx[20..4 * (rx[0] as int % 16)]
  {
  }

  // The version makes the first word, and so the sum, positive.
  lemma FirstWordCounts(h: seq<byte>)
    requires |h| >= 20 && h[0] > 0
    ensures Sum(h, |h| / 2) > 0
  {
    SumMonotone(h, 1, |h| / 2);
  }

  lemma {:induction false} SumMonotone(b: seq<byte>, m: nat, n: nat)
    requires m <= n && 2 * n <= |b|
    ensures Sum(b, m) <= Sum(b, n)
  {
    if m < n {
      SumMonotone(b, m, n - 1);
    }
  }

  // The length of the ICMP part of the reply: nothing but an echo request that fits is answered.
  function ReplyPart(rx: seq<byte>, outlen: nat): (m: nat)
    requires Accepted(rx)
    ensures HeaderLength(rx) + m <= |rx| && HeaderLength(rx) + m <= ONES && (m == 0 || m >= 8)
  {
    var n := HeaderLength(rx);
    IcmpLength(rx[n..], TotalLength(rx) - n, outlen - n)
  }

  /**
   Everything is ignored that is not an accepted IPv4 packet carrying ICMP, or whose reply would not fit. An accepted
   packet whose ICMP part is not an echo request is answered too, with a header alone.
  */
  method Ip(rx: seq<byte>, tx: array<byte>, outlen: nat) returns (n: nat)
    requires outlen <= tx.Length
    modifies tx
    ensures n == if Accepted(rx) && HeaderLength(rx) + ReplyPart(rx, outlen) <= outlen then HeaderLength(rx) + ReplyPart(rx, outlen) else 0
    ensures n > 0 ==> tx[..n] == IpReply(rx, ReplyPart(rx, outlen))
  {
    hide Check, EchoReply, WithWord;
    if |rx| < 20 {
      return 0;
    }
    var version, headerLength := rx[0] as int / 16, HeaderLength(rx);
    if version != 4 {
      return 0;
    }
    if headerLength < 20 {
      return 0;
    }
    if headerLength > |rx| {
      return 0;
    }
    if TotalLength(rx) > |rx| {
      return 0;
    }
    var payload := 0;
    match rx[9] {
      case 1 =>
        payload := Icmp(rx[headerLength..], TotalLength(rx) - headerLength, tx, headerLength, outlen - headerLength);
      case 17 =>
        return 0;
      case _ =>
        return 0;
    }
    n := headerLength + payload;
    if outlen < n {
      return 0;
    }
    assert payload > 0 ==> rx[headerLength..][..payload] == rx[headerLength..n];
    assert tx[headerLength..n] == Body(rx, payload);
    WriteHeader(rx, tx, payload);
  }

  // Writes the IP header in front of the ICMP part and fills in the checksum.
  method WriteHeader(rx: seq<byte>, tx: array<byte>, m: nat)
    requires Accepted(rx) && (m == 0 || m >= 8)
    requires HeaderLength(rx) + m <= |rx| && HeaderLength(rx) + m <= ONES && HeaderLength(rx) + m <= tx.Length
    requires tx[HeaderLength(rx)..HeaderLength(rx) + m] == Body(rx, m)
    modifies tx
    ensures tx[..HeaderLength(rx) + m] == IpReply(rx, m)
  {
    hide Check, EchoReply, Body, WithWord;
    var h, n := HeaderLength(rx), HeaderLength(rx) + m;
    CopyInto(tx, 0, BareHeader(rx, n));
    assert tx[..n] == BareHeader(rx, n) + Body(rx, m);
    hide BareHeader, Accepted;
    assert tx[..] == [] + (BareHeader(rx, n) + Body(rx, m)) + tx[n..];
    FillCheck(tx, 0, n, 5, [], BareHeader(rx, n) + Body(rx, m), tx[n..]);
  }
}
