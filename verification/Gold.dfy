/**
 The Gold sequence of section 7.2 of 3GPP TS 36.211 (gold.zir): two shift registers of
 length 31, produced eight bits at a time from a window of sixteen bits.
*/
module Gold {
  import opened ModArith

  const NC := 1600
  const MAX_GOLD_SEQUENCE_LEN := 16800
  const X1_LENGTH := MAX_GOLD_SEQUENCE_LEN + 1616

  // ------------------------------------------------------------ the serial definition

  // Bit i of a seed.
  predicate SeedBit(seed: nat, i: nat) {
    if i == 0 then seed % 2 == 1 else SeedBit(seed / 2, i - 1)
  }

  // The feedback taps, counted from the oldest of the 31 bits.
  datatype Register = First | Second(cinit: nat)

  // Bit n of a register.
  predicate Bit(r: Register, n: nat) {
    if n < 31 then (if r.First? then n == 0 else SeedBit(r.cinit, n))
    else if r.First? then Bit(r, n - 28) != Bit(r, n - 31)
    else ((Bit(r, n - 28) != Bit(r, n - 29)) != Bit(r, n - 30)) != Bit(r, n - 31)
  }

  // Bit n of the Gold sequence.
  predicate GoldBit(cinit: nat, n: nat) {
    Bit(First, n + NC) != Bit(Second(cinit), n + NC)
  }

  /**
   The two recurrences of the standard, x1(n+31) = x1(n+3) + x1(n) and x2(n+31) = x2(n+3) + x2(n+2) + x2(n+1) + x2(n), the
   start of the first with a single one, and the sum of both from place 1600 on.
  */
  lemma Recurrences(cinit: nat, n: nat)
    ensures Bit(First, n + 31) == (Bit(First, n + 3) != Bit(First, n)) && (n < 31 ==> Bit(First, n) == (n == 0))
    ensures var x := Second(cinit); Bit(x, n + 31) == (Bit(x, n + 3) != (Bit(x, n + 2) != (Bit(x, n + 1) != Bit(x, n))))
    ensures GoldBit(cinit, n) == (Bit(First, n + 1600) != Bit(Second(cinit), n + 1600))
  {
  }

  function Pow2(n: nat): (p: nat)
    ensures p > 0
  {
    if n == 0 then 1 else 2 * Pow2(n - 1)
  }

  /** The start of the second is the seed in binary, the lowest digit first. */
  lemma {:induction false} SeedDigits(cinit: nat, i: nat)
    requires i < 31
    ensures Bit(Second(cinit), i) == (cinit / Pow2(i) % 2 == 1)
  {
    SeedDigit(cinit, i);
  }

  lemma {:induction false} SeedDigit(seed: nat, i: nat)
    ensures SeedBit(seed, i) == (seed / Pow2(i) % 2 == 1)
  {
    if i > 0 {
      SeedDigit(seed / 2, i - 1);
      HalfFirst(seed, Pow2(i - 1));
    }
  }

  lemma HalfFirst(seed: nat, p: nat)
    requires p > 0
    ensures seed / 2 / p == seed / (2 * p)
  {
    var q := seed / 2 / p;
    DivMod(seed / 2, p);
    assert seed == 2 * (q * p + seed / 2 % p) + seed % 2;
    assert q * (2 * p) == 2 * (q * p);
    DivModUnique(q, 2 * p, 2 * (seed / 2 % p) + seed % 2);
  }

  // ------------------------------------------------------------ eight bits at a time

  // The first n bits of x are those of the register.
  ghost predicate Holds(x: array<bool>, r: Register, n: nat)
    reads x
  {
    n <= x.Length && forall k :: 0 <= k < n ==> x[k] == Bit(r, k)
  }

  // The feedback of one register at position j of a window.
  function Feedback(r: Register, w: seq<bool>, j: nat): bool
    requires j + 3 < |w|
  {
    if r.First? then w[j + 3] != w[j] else ((w[j + 3] != w[j + 2]) != w[j + 1]) != w[j]
  }

  /** Eight more bits from the sixteen that start at position o; the window only uses bits that are there. */
  method Block(x: array<bool>, r: Register, o: nat)
    requires Holds(x, r, o + 31) && o + 39 <= x.Length
    modifies x
    ensures Holds(x, r, o + 39)
  {
    hide Bit;
    var window, bits := x[o..o + 16], new bool[8];
    for j := 0 to 8
      invariant forall k :: 0 <= k < j ==> bits[k] == Bit(r, o + 31 + k)
      invariant Holds(x, r, o + 31)
    {
      bits[j] := Feedback(r, window, j);
      NextBit(r, o + 31 + j);
    }
    for j := 0 to 8
      invariant Holds(x, r, o + 31 + j)
      invariant forall k :: 0 <= k < 8 ==> bits[k] == Bit(r, o + 31 + k)
    {
      x[o + 31 + j] := bits[j];
    }
  }

  lemma NextBit(r: Register, n: nat)
    requires n >= 31
    ensures Bit(r, n) == if r.First? then Bit(r, n - 28) != Bit(r, n - 31)
              else ((Bit(r, n - 28) != Bit(r, n - 29)) != Bit(r, n - 30)) != Bit(r, n - 31)
  {
  }

  // n rounded up to a multiple of m.
  function Padded(n: nat, m: nat): (p: nat)
    requires m == 8 || m == 16
    ensures n <= p < n + m && p % m == 0 && p % 8 == 0
  {
    if n % m > 0 then (n / m + 1) * m else n
  }

  method Fill(x: array<bool>, r: Register, xlength: nat)
    requires 31 <= xlength && xlength + 16 <= x.Length && Holds(x, r, 31)
    modifies x
    ensures Holds(x, r, xlength)
  {
    hide Bit;
    var paddedLen := Padded(xlength - 31, 16);
    for i := 0 to paddedLen / 8
      invariant Holds(x, r, 8 * i + 31)
    {
      Block(x, r, 8 * i);
    }
  }

  // The first 31 bits of the second register are those of the seed; what follows is overwritten.
  method Seed(x: array<bool>, cinit: nat)
    requires 32 <= x.Length && cinit < 0x8000_0000
    modifies x
    ensures Holds(x, Second(cinit), 31)
  {
    var rest := cinit;
    for ind := 0 to 32
      invariant forall k :: 0 <= k < ind ==> x[k] == SeedBit(cinit, k)
      invariant 0 <= rest && forall k: nat {:trigger SeedBit(rest, k)} :: SeedBit(rest, k) == SeedBit(cinit, ind + k)
    {
      x[ind] := rest % 2 == 1;
      assert SeedBit(rest, 0) == SeedBit(cinit, ind + 0);
      ghost var before := rest;
      rest := rest / 2;
      forall k: nat
        ensures SeedBit(rest, k) == SeedBit(cinit, ind + 1 + k)
      {
        assert SeedBit(before, k + 1) == SeedBit(cinit, ind + (k + 1));
      }
    }
  }

  /**
   The block-wise generator gives the bits of the serial recurrences, for every seed and every length up to the
   maximum; its buffers of fixed size are long enough for the padding.
  */
  method Gold(cinit: nat, nCLength: nat) returns (c: array<bool>)
    requires cinit < 0x8000_0000 && nCLength <= MAX_GOLD_SEQUENCE_LEN
    ensures fresh(c) && c.Length == MAX_GOLD_SEQUENCE_LEN
    ensures forall n :: 0 <= n < nCLength ==> c[n] == GoldBit(cinit, n)
  {
    hide Bit;
    var x1 := new bool[X1_LENGTH](_ => false);
    var x2 := new bool[X1_LENGTH](_ => false);
    c := new bool[MAX_GOLD_SEQUENCE_LEN](_ => false);
    var xlength := NC + nCLength;
    x1[0] := true;
    FirstStart();
    Seed(x2, cinit);
    Fill(x1, First, xlength);
    Fill(x2, Second(cinit), xlength);
    var paddedLength := Padded(nCLength, 8);
    for i := 0 to paddedLength / 8
      invariant Holds(x1, First, xlength) && Holds(x2, Second(cinit), xlength)
      invariant forall n :: 0 <= n < 8 * i && n < nCLength ==> c[n] == GoldBit(cinit, n)
    {
      for j := 0 to 8
        invariant Holds(x1, First, xlength) && Holds(x2, Second(cinit), xlength)
        invariant forall n :: 0 <= n < 8 * i + j && n < nCLength ==> c[n] == GoldBit(cinit, n)
      {
        c[8 * i + j] := x1[8 * i + NC + j] != x2[8 * i + NC + j];
        assert 8 * i + j < nCLength ==> c[8 * i + j] == GoldBit(cinit, 8 * i + j);
      }
    }
  }

  lemma FirstStart()
    ensures forall k: nat :: k < 31 ==> Bit(First, k) == (k == 0)
  {
  }
}
