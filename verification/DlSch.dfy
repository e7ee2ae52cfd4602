/**
 The transport channel: CRC, turbo code and rate matching on the way down (dlsch.zir),
 rate dematching and the CRC test on the way up (sch_decode.zir).
*/
module DlSch {
  import opened ModArith
  import opened Options
  import opened SubBlock
  import opened RateMatch
  import opened DeRateMatch
  import DeRateMatchLoops
  import opened Qpp
  import opened TurboCode
  import Crc
  import CrcLoops

  // ------------------------------------------------------------ what is sent

  function Check24(block: seq<bool>): (c: seq<bool>)
    ensures |c| == 24
  {
    Crc.Reversed(Crc.Register(24, Crc.TAPS_24A, block))
  }

  /** Block and check together are a multiple of the generator polynomial. */
  lemma CheckedBlock(block: seq<bool>)
    ensures block + Check24(block) ==
            Crc.Times(Crc.Quotient(24, Crc.TAPS_24A, block), Crc.Generator(24, Crc.TAPS_24A), |block|)
  {
    Crc.BlockIsMultiple(24, Crc.TAPS_24A, block);
  }

  // The streams that rate matching sees, for a block whose size with check is that of row r.
  function Streams(r: TurboRow, block: seq<bool>): (s: seq<seq<bool>>)
    requires |block| + 24 == r.k
    ensures |s| == 3 && |s[0]| == |s[1]| == |s[2]| == r.k + 4
  {
    var m := block + Check24(block);
    [TurboStream(r, m, 0), TurboStream(r, m, 1), TurboStream(r, m, 2)]
  }

  function SentBuffer(cols: Columns, r: TurboRow, block: seq<bool>): (w: seq<Option<bool>>)
    requires |block| + 24 == r.k
    ensures |w| == 3 * Size(r.k + 4) && Rank(w, |w|) == 3 * (r.k + 4)
  {
    var s := Streams(r, block);
    LapCount(cols, s[0], s[1], s[2]);
    CircularBuffer(cols, s[0], s[1], s[2])
  }

  function SentBits(cols: Columns, r: TurboRow, block: seq<bool>, rv: nat, outlen: nat): (e: seq<bool>)
    requires |block| + 24 == r.k
    ensures |e| == outlen
  {
    RateMatched(SentBuffer(cols, r, block), r.k + 4, rv, outlen)
  }

  // The check is appended in place.
  method AppendCheck(input: array<bool>, inlen: nat)
    requires inlen + 24 <= input.Length
    modifies input
    ensures input[..inlen] == old(input[..inlen])
    ensures input[..inlen + 24] == old(input[..inlen]) + Check24(old(input[..inlen]))
  {
    ghost var block := input[..inlen];
    var crc := CrcLoops.Crc24a(input[..], inlen);
    Crc.RunPrefix(Crc.TAPS_24A, Crc.Zeros(24), input[..], block, inlen);
    for i := 0 to 24
      invariant input[..inlen] == block && input[inlen..inlen + i] == crc[..i]
    {
      input[inlen + i] := crc[i];
    }
  }

  // The entries of the program's bit buffers.
  const MAX_BIT_MSG_SIZE := 16800

  // The turbo code and the interleaver stay inside such buffers.
  predicate BuffersSuffice(k: nat) {
    2 * ByteAligned(k + 4) + k + 4 <= MAX_BIT_MSG_SIZE && 3 * Size(k + 4) <= MAX_BIT_MSG_SIZE
  }

  /** They do for every legal size up to 5568; for the nine sizes from 5632 on an index goes past their end. */
  lemma BuffersSufficeIff(k: nat)
    requires IsTurboSize(k)
    ensures BuffersSuffice(k) <==> k <= 5568
  {
    var i :| 0 <= i < ROWS && SizeAt(i) == k;
    assert i >= 179 <==> k > 5568;
    assert i >= 179 ==> k >= 5632;
  }

  // The encoder side. The input array gets its check appended.
  method Encode(input: array<bool>, inlen: nat, outlen: nat, rv: nat, r: TurboRow) returns (output: array<bool>)
    requires inlen + 24 == r.k && r.k <= input.Length && BuffersSuffice(r.k) && outlen <= MAX_BIT_MSG_SIZE
    modifies input
    ensures fresh(output) && output.Length == MAX_BIT_MSG_SIZE
    ensures input[..r.k] == old(input[..inlen]) + Check24(old(input[..inlen]))
    ensures output[..outlen] == SentBits(ColumnsOf(Turbo), r, old(input[..inlen]), rv, outlen)
  {
    AppendCheck(input, inlen);
    output := EncodeChecked(input[..r.k], outlen, rv, r, old(input[..inlen]));
  }

  method EncodeChecked(m: seq<bool>, outlen: nat, rv: nat, r: TurboRow, ghost block: seq<bool>) returns (output: array<bool>)
    requires |block| + 24 == r.k && m == block + Check24(block) && BuffersSuffice(r.k) && outlen <= MAX_BIT_MSG_SIZE
    ensures fresh(output) && output.Length == MAX_BIT_MSG_SIZE
    ensures output[..outlen] == SentBits(ColumnsOf(Turbo), r, block, rv, outlen)
  {
    var outcode := new bool[MAX_BIT_MSG_SIZE];
    var codelen := TurboCode.Encode(m, outcode, r);
    assert codelen / 3 == r.k + 4;
    output := new bool[MAX_BIT_MSG_SIZE];
    ghost var coded := outcode[..];
    RateMatchTurbo(outcode, codelen, output, outlen, rv);
    assert TurboBuffer(coded, r.k + 4) == SentBuffer(ColumnsOf(Turbo), r, block);
  }

  /** dlsch, for every legal block size that its buffers can hold; the row is found from the block size. */
  method Dlsch(input: array<bool>, inlen: nat, outlen: nat, rv: nat) returns (output: array<bool>)
    requires IsTurboSize(inlen + 24) && inlen + 24 <= input.Length && BuffersSuffice(inlen + 24) && outlen <= MAX_BIT_MSG_SIZE
    modifies input
    ensures fresh(output) && output.Length == MAX_BIT_MSG_SIZE
    ensures input[..inlen + 24] == old(input[..inlen]) + Check24(old(input[..inlen]))
    ensures output[..outlen] == SentBits(ColumnsOf(Turbo), RowOf(inlen + 24), old(input[..inlen]), rv, outlen)
  {
    output := Encode(input, inlen, outlen, rv, RowOf(inlen + 24));
  }

  // ------------------------------------------------------------ what is received

  // The test that sch_decode really makes.
  predicate Accepted(data: seq<bool>, a: nat)
    requires a + 24 <= |data|
  {
    data[a..a + 16] == Check24(data[..a])[..16]
  }

  /**
   The receiver, around any turbo decoder: the decoder sees the three dematched streams,
   and the block is accepted by comparing the whole bytes of a 22-bit prefix of the check.
  */
  method SchDecode(e: seq<int>, trblklen: nat, rv: nat, decode: seq<int> -> seq<bool>) returns (data: seq<bool>, crcOK: bool)
    requires rv < 4 && 3 * (trblklen + 28) <= |e|
    requires forall dk :: trblklen + 24 <= |decode(dk)|
    ensures data == decode(Derated(ColumnsOf(Turbo), e, trblklen + 28, rv))
    ensures crcOK <==> Accepted(data, trblklen)
    ensures crcOK <==> data[trblklen..trblklen + 16] == Crc.Reversed(Crc.Register(24, Crc.TAPS_24A, data[..trblklen]))[..16]
  {
    hide Derated;
    var d := trblklen + 24 + 4;
    var dk := new int[3 * d];
    var cnt := DerateMatch(e, dk, d, rv);
    data := decode(dk[..cnt]);
    crcOK := CheckBlock(data, trblklen);
  }

  method DerateMatch(e: seq<int>, dk: array<int>, d: nat, rv: nat) returns (cnt: nat)
    requires 0 < d && rv < 4 && 3 * d <= |e| && 3 * d <= dk.Length
    modifies dk
    ensures cnt <= dk.Length && dk[..cnt] == Derated(ColumnsOf(Turbo), e, d, rv)
  {
    cnt := DeRateMatchLoops.DerateMatchTurbo(e, dk, d, rv);
  }

  method CheckBlock(data: seq<bool>, a: nat) returns (crcOK: bool)
    requires a + 24 <= |data|
    ensures crcOK <==> Accepted(data, a)
  {
    var crc := CrcLoops.Crc24a(data, a);
    Crc.RunPrefix(Crc.TAPS_24A, Crc.Zeros(24), data, data[..a], a);
    var x, y := data[a..a + 22], crc[..22];
    crcOK := CrcLoops.CompareBits(x, y);
    assert x[..16] == data[a..a + 16] && y[..16] == crc[..16];
  }

  /**
   The noise-free chain, for every block of a legal size, every redundancy version and
   every output length that carries each coded bit once: the systematic stream that the
   receiver hands to its decoder is the block followed by its check.
  */
  lemma SystematicRecovered(cols: Columns, r: TurboRow, block: seq<bool>, rv: nat, outlen: nat, soft: bool -> int, e: seq<int>)
    requires |block| + 24 == r.k && rv < 4 && 3 * (r.k + 4) <= outlen && 3 * (r.k + 4) <= |e|
    requires forall x :: soft(x) != PUNCTURE
    requires Softened(SentBits(cols, r, block, rv, outlen), soft, e, 3 * (r.k + 4))
    ensures var dk := Derated(cols, e, r.k + 4, rv);
            |dk| == 3 * (r.k + 4) && Mapped(block + Check24(block), soft) <= dk
  {
    SentBitsAreSent(cols, r, block, rv, outlen);
    SystematicPart(cols, Streams(r, block), r.k + 4, SentBits(cols, r, block, rv, outlen), rv, soft, e, block + Check24(block));
  }

  lemma SentBitsAreSent(cols: Columns, r: TurboRow, block: seq<bool>, rv: nat, outlen: nat)
    requires |block| + 24 == r.k
    ensures Sends(cols, Streams(r, block), SentBits(cols, r, block, rv, outlen), rv)
    ensures block + Check24(block) <= Streams(r, block)[0]
  {
  }

  lemma SystematicPart(cols: Columns, s: seq<seq<bool>>, d: nat, sent: seq<bool>, rv: nat, soft: bool -> int, e: seq<int>, m: seq<bool>)
    requires |s| == 3 && |s[0]| == |s[1]| == |s[2]| == d && 0 < d && rv < 4 && m <= s[0]
    requires Sends(cols, s, sent, rv) && 3 * d <= |sent| && 3 * d <= |e|
    requires forall x :: soft(x) != PUNCTURE
    requires Softened(sent, soft, e, 3 * d)
    ensures |Derated(cols, e, d, rv)| == 3 * d && Mapped(m, soft) <= Derated(cols, e, d, rv)
  {
    RoundTrip(cols, s, d, sent, rv, soft, e);
    PrefixOfSum(Derated(cols, e, d, rv), s, d, soft, m);
    assert Mapped(m, soft) <= Derated(cols, e, d, rv);
  }

  lemma PrefixOfSum(dk: seq<int>, s: seq<seq<bool>>, d: nat, soft: bool -> int, m: seq<bool>)
    requires |s| == 3 && |s[0]| == |s[1]| == |s[2]| == d && m <= s[0]
    requires dk == Mapped(s[0], soft) + Mapped(s[1], soft) + Mapped(s[2], soft)
    ensures |dk| == 3 * d && Mapped(m, soft) <= dk
  {
  }

  /** A decoder that returns the systematic bits gets its block accepted. */
  lemma CorrectIsAccepted(block: seq<bool>, data: seq<bool>)
    requires |block| + 24 <= |data| && data[..|block| + 24] == block + Check24(block)
    ensures Accepted(data, |block|)
  {
    var a := |block|;
    assert data[..a] == data[..a + 24][..a] == block;
    assert data[a..a + 16] == data[..a + 24][a..a + 16];
  }

  // The first k bits that come out are hard decisions on the first k values that go in.
  ghost predicate HardDecides(decode: seq<int> -> seq<bool>, hard: int -> bool, k: nat) {
    forall dk: seq<int> :: k <= |dk| ==> k <= |decode(dk)| && forall i :: 0 <= i < k ==> decode(dk)[i] == hard(dk[i])
  }

  /**
   The whole chain without noise: what Dlsch sends for a block, for every redundancy version and every output length that
   carries each coded bit once, makes SchDecode return the block and accept it, around any decoder that decides the
   systematic values right.
  */
  lemma ChainAccepts(k: nat, block: seq<bool>, rv: nat, outlen: nat, soft: bool -> int, hard: int -> bool, e: seq<int>, decode: seq<int> -> seq<bool>)
    requires IsTurboSize(k) && |block| + 24 == k && rv < 4 && 3 * (k + 4) <= outlen && 3 * (k + 4) <= |e|
    requires (forall x :: soft(x) != PUNCTURE && hard(soft(x)) == x) && HardDecides(decode, hard, k)
    requires Softened(SentBits(ColumnsOf(Turbo), RowOf(k), block, rv, outlen), soft, e, 3 * (k + 4))
    ensures var data := decode(Derated(ColumnsOf(Turbo), e, k + 4, rv)); k <= |data| && data[..|block|] == block && Accepted(data, |block|)
  {
    hide Derated, Accepted, SentBits, Check24, Softened;
    var dk, m := Derated(ColumnsOf(Turbo), e, k + 4, rv), block + Check24(block);
    SystematicRecovered(ColumnsOf(Turbo), RowOf(k), block, rv, outlen, soft, e);
    DecidesRight(dk, m, soft, hard, decode);
    assert decode(dk)[..|block|] == m[..|block|];
    CorrectIsAccepted(block, decode(dk));
  }

  lemma DecidesRight(dk: seq<int>, m: seq<bool>, soft: bool -> int, hard: int -> bool, decode: seq<int> -> seq<bool>)
    requires Mapped(m, soft) <= dk && (forall x :: hard(soft(x)) == x) && HardDecides(decode, hard, |m|)
    ensures |m| <= |decode(dk)| && decode(dk)[..|m|] == m
  {
    var d := decode(dk);
    forall i | 0 <= i < |m|
      ensures d[i] == m[i]
    {
      assert dk[i] == dk[..|m|][i] == Mapped(m, soft)[i];
      assert d[i] == hard(dk[i]);
    }
  }

  /** The last eight check bits have no effect on acceptance. */
  lemma LastCheckByteIgnored(data: seq<bool>, other: seq<bool>, a: nat)
    requires a + 24 <= |data| == |other| && data[..a + 16] == other[..a + 16]
    ensures Accepted(data, a) <==> Accepted(other, a)
  {
    assert data[..a] == data[..a + 16][..a] && other[..a] == other[..a + 16][..a];
    assert data[a..a + 16] == data[..a + 16][a..] && other[a..a + 16] == other[..a + 16][a..];
  }
}
