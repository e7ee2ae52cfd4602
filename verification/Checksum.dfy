/**
 The Internet checksum of RFC 1071 as mac_msg_parsing.c computes it: 16-bit big-endian
 words are added up, the sum is folded to 16 bits, and the result is complemented.
*/
module Checksum {
  import opened ModArith

  type byte = x: int | 0 <= x < 256

  const WRAP := 0x1_0000_0000
  const ONES := 0xFFFF

  function Word(b: seq<byte>, k: nat): (w: nat)
    requires 2 * k + 1 < |b|
    ensures w <= ONES
  {
    (b[2 * k] as int) * 256 + b[2 * k + 1] as int
  }

  // The sum of the first n words.
  function Sum(b: seq<byte>, n: nat): (s: nat)
    requires 2 * n <= |b|
    ensures s <= n * ONES
  {
    if n == 0 then 0 else Sum(b, n - 1) + Word(b, n - 1)
  }

  function Fold(x: nat): (r: nat)
    ensures r <= ONES
  {
    if x <= ONES then x else Fold(x % (ONES + 1) + x / (ONES + 1))
  }

  // The checksum of all whole words of b. A last odd byte does not count.
  function Check(b: seq<byte>): (c: nat)
    ensures c <= ONES
  {
    ONES - Fold(Sum(b, |b| / 2))
  }

  /** Folding keeps the value modulo 65535; zero stays zero and nothing else becomes zero. */
  lemma {:induction false} FoldExact(x: nat)
    ensures Fold(x) == if x == 0 then 0 else if x % ONES == 0 then ONES else x % ONES
    decreases x
  {
    if x > ONES {
      var q, r := x / (ONES + 1), x % (ONES + 1);
      FoldExact(r + q);
      assert x == (r + q) + q * ONES;
      ModPlusMultiple(r + q, q, ONES);
    }
  }

  lemma FoldStep(x: nat)
    ensures Fold(x) == if x <= ONES then x else Fold(x % 65536 + x / 65536)
  {
  }

  /** Words are big-endian: two bytes check to the complement of 256 x + y. */
  lemma TwoBytes(x: byte, y: byte)
    ensures Word([x, y], 0) == 256 * x as int + y as int && Check([x, y]) == 0xFFFF - (256 * x as int + y as int)
  {
    assert Sum([x, y], 1) == Word([x, y], 0);
  }

  /** The example of section 3 of RFC 1071: the sum is DDF2 (hexadecimal), with a carry of two. */
  lemma RfcExample()
    ensures var b: seq<byte> := [0x00, 0x01, 0xF2, 0x03, 0xF4, 0xF5, 0xF6, 0xF7]; Sum(b, 4) == 0x2DDF0 && Check(b) == 0xFFFF - 0xDDF2
  {
    var b: seq<byte> := [0x00, 0x01, 0xF2, 0x03, 0xF4, 0xF5, 0xF6, 0xF7];
    assert Sum(b, 1) == 0x0001;
    assert Sum(b, 2) == 0xF204;
    assert Sum(b, 3) == 0x1E6F9;
    assert Sum(b, 4) == 0x2DDF0;
    FoldExact(0x2DDF0);
    hide Fold;
  }

  // Ones-complement addition as RFC 1071 defines it: the carry is added in again.
  function Plus(a: nat, b: nat): nat
    requires a <= ONES && b <= ONES
  {
    if a + b > ONES then a + b - ONES else a + b
  }

  function OnesSum(b: seq<byte>, n: nat): (s: nat)
    requires 2 * n <= |b|
    ensures s <= ONES
  {
    if n == 0 then 0 else Plus(OnesSum(b, n - 1), Word(b, n - 1))
  }

  /** Adding first and folding once is adding with end-around carry all along. */
  lemma {:induction false} FoldIsOnesSum(b: seq<byte>, n: nat)
    requires 2 * n <= |b|
    ensures Fold(Sum(b, n)) == OnesSum(b, n)
  {
    if n > 0 {
      FoldIsOnesSum(b, n - 1);
      FoldPlus(Sum(b, n - 1), Word(b, n - 1));
    }
  }

  lemma FoldPlus(x: nat, w: nat)
    requires w <= ONES
    ensures Fold(x + w) == Plus(Fold(x), w)
  {
    hide Fold;
    FoldExact(x);
    FoldExact(x + w);
    ModSum(x, w);
  }

  // The remainder of a sum, where the second term is at most the modulus.
  lemma ModSum(x: nat, w: nat)
    requires w <= ONES
    ensures (x + w) % ONES == if x % ONES + w < ONES then x % ONES + w else if x % ONES + w < 2 * ONES then x % ONES + w - ONES else 0
  {
    var q, r := x / ONES, x % ONES;
    DivMod(x, ONES);
    if r + w < ONES {
      DivModUnique(q, ONES, r + w);
    } else {
      DivModUnique(q + 1, ONES, r + w - ONES);
    }
  }

  method ComputeChecksum(bytes: seq<byte>, len: nat) returns (c: nat)
    requires len <= |bytes|
    ensures c == ONES - Fold(Sum(bytes, len / 2) % WRAP)
    ensures len <= 131074 ==> c == Check(bytes[..len])
  {
    hide Word, Fold;
    var checksum := 0;
    for i := 0 to len / 2
      invariant checksum == Sum(bytes, i) % WRAP
    {
      checksum := (checksum + Word(bytes, i)) % WRAP;
    }
    ghost var s := checksum;
    while checksum / 65536 != 0
      invariant 0 <= checksum && Fold(checksum) == Fold(s)
      decreases checksum
    {
      FoldStep(checksum);
      checksum := checksum % 65536 + checksum / 65536;
    }
    FoldStep(checksum);
    SumPrefix(bytes, bytes[..len], len / 2);
    return ONES - checksum;
  }

  lemma {:induction false} SumPrefix(a: seq<byte>, b: seq<byte>, n: nat)
    requires 2 * n <= |a| && 2 * n <= |b| && a[..2 * n] == b[..2 * n]
    ensures Sum(a, n) == Sum(b, n)
  {
    if n > 0 {
      var k := 2 * (n - 1);
      assert a[..k] == a[..2 * n][..k] == b[..k];
      assert a[k] == a[..2 * n][k] == b[k] && a[k + 1] == a[..2 * n][k + 1] == b[k + 1];
      SumPrefix(a, b, n - 1);
    }
  }

  lemma {:induction false} SumAppend(a: seq<byte>, b: seq<byte>, n: nat)
    requires |a| % 2 == 0 && 2 * n <= |b|
    ensures Sum(a + b, |a| / 2 + n) == Sum(a, |a| / 2) + Sum(b, n)
  {
    if n == 0 {
      SumPrefix(a + b, a, |a| / 2);
    } else {
      SumAppend(a, b, n - 1);
      assert Word(a + b, |a| / 2 + n - 1) == Word(b, n - 1);
    }
  }

  // Word k of b replaced.
  function WithWord(b: seq<byte>, k: nat, v: nat): (r: seq<byte>)
    requires 2 * k + 1 < |b| && v <= ONES
    ensures |r| == |b| && Word(r, k) == v
  {
    b[2 * k := v / 256][2 * k + 1 := v % 256]
  }

  lemma {:induction false} SumWithWord(b: seq<byte>, k: nat, v: nat, n: nat)
    requires 2 * k + 1 < |b| && v <= ONES && 2 * n <= |b|
    ensures Sum(WithWord(b, k, v), n) == Sum(b, n) + if k < n then v - Word(b, k) else 0
  {
    if n > 0 {
      SumWithWord(b, k, v, n - 1);
    }
  }

  /**
   A field that was zero is filled with v: the buffer then checks to zero exactly if v is the checksum
   (or the other ones-complement zero), unless the whole buffer is zero.
  */
  lemma CheckIsZeroIff(b: seq<byte>, k: nat, v: nat)
    requires 2 * k + 1 < |b| && Word(b, k) == 0 && v <= ONES
    ensures Check(WithWord(b, k, v)) == 0 <==> v % ONES == Check(b) % ONES && (v != 0 || Sum(b, |b| / 2) != 0)
  {
    hide Fold, Sum, WithWord;
    SumWithWord(b, k, v, |b| / 2);
    CheckSum(Sum(b, |b| / 2), v);
  }

  lemma CheckSum(s: nat, v: nat)
    requires v <= ONES
    ensures Fold(s + v) == ONES <==> v % ONES == (ONES - Fold(s)) % ONES && (v != 0 || s != 0)
  {
    hide Fold;
    FoldExact(s);
    FoldExact(s + v);
    ModSum(s, v);
  }

  /** In particular the computed checksum makes the buffer check to zero. */
  lemma InsertedChecks(b: seq<byte>, k: nat)
    requires 2 * k + 1 < |b| && Word(b, k) == 0
    ensures Check(WithWord(b, k, Check(b))) == 0
  {
    CheckIsZeroIff(b, k, Check(b));
    assert Check(b) == 0 ==> Sum(b, |b| / 2) != 0;
  }

  /** A part that already checks to zero does not change the checksum of what precedes it. */
  lemma CheckedTail(h: seq<byte>, t: seq<byte>)
    requires |h| % 2 == 0 && Sum(h, |h| / 2) > 0 && Check(t) == 0
    ensures Check(h + t) == Check(h)
  {
    hide Fold, Sum, Check;
    var x, y := Sum(h, |h| / 2), Sum(t, |t| / 2);
    SumAppend(h, t, |t| / 2);
    CheckOfSum(h, |h| / 2, x);
    CheckOfSum(t, |t| / 2, y);
    CheckOfSum(h + t, |h| / 2 + |t| / 2, x + y);
    FoldExact(x);
    FoldExact(y);
    FoldExact(x + y);
    ModAdd(y, x, ONES);
  }

  /** RFC 1071 pads an odd buffer with a zero byte; this program leaves the last byte out. */
  lemma OddByteIgnored(b: seq<byte>, x: byte, y: byte)
    requires |b| % 2 == 0
    ensures Check(b + [x]) == Check(b + [y])
    ensures Check(b + [x]) == Check(b + [x, 0]) <==> x == 0
  {
    assert Sum([x, 0], 1) == 256 * x;
    hide Fold, Sum, Word, Check;
    var n, s := |b| / 2, Sum(b, |b| / 2);
    SumPrefix(b + [x], b, n);
    SumPrefix(b + [y], b, n);
    SumAppend(b, [x, 0], 1);
    CheckOfSum(b + [x], n, s);
    CheckOfSum(b + [y], n, s);
    CheckOfSum(b + [x, 0], n + 1, s + 256 * x);
    if x != 0 {
      MovesFold(s, 256 * x);
    }
  }

  lemma CheckOfSum(b: seq<byte>, n: nat, s: nat)
    requires n == |b| / 2 && Sum(b, n) == s
    ensures Check(b) == ONES - Fold(s)
  {
  }

  lemma MovesFold(s: nat, d: nat)
    requires 0 < d < ONES
    ensures Fold(s + d) != Fold(s)
  {
    hide Fold;
    FoldExact(s);
    FoldExact(s + d);
    ModApart(s, s + d, ONES);
  }
}
