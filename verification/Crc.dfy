/**
 The cyclic redundancy checks of section 5.1.1 of 3GPP TS 36.212: the bit-serial
 register, the polynomial it divides by, and the byte-sliced form of CRC24A.
*/
module Crc {

  // ------------------------------------------------------------ bit sequences

  function Zeros(n: nat): (s: seq<bool>)
    ensures |s| == n
  {
    seq(n, i => false)
  }

  function Xor(a: seq<bool>, b: seq<bool>): (s: seq<bool>)
    requires |a| == |b|
    ensures |s| == |a|
  {
    seq(|a|, i requires 0 <= i < |a| => a[i] != b[i])
  }

  function Reversed(a: seq<bool>): (s: seq<bool>)
    ensures |s| == |a|
  {
    seq(|a|, i requires 0 <= i < |a| => a[|a| - 1 - i])
  }

  // ------------------------------------------------------------ the serial register

  // The taps of CRC24A in the source's register.
  const TAPS_24A: seq<int> := [0, 2, 3, 4, 5, 6, 9, 10, 13, 16, 17, 22]

  // Taps are register positions, none given twice.
  ghost predicate Taps(g: seq<int>) {
    (forall i :: 0 <= i < |g| ==> 0 <= g[i]) && (forall i, j :: 0 <= i < j < |g| ==> g[i] != g[j])
  }

  // One bit enters a register of length |r| with taps g.
  function Step(g: seq<int>, r: seq<bool>, b: bool): (s: seq<bool>)
    requires 0 < |r|
    ensures |s| == |r|
  {
    var inv := b != r[|r| - 1];
    seq(|r|, i requires 0 <= i < |r| => if i == 0 then inv else r[i - 1] != (inv && i - 1 in g))
  }

  // The register after the first n bits of m, started in state r.
  function Run(g: seq<int>, r: seq<bool>, m: seq<bool>, n: nat): (s: seq<bool>)
    requires 0 < |r| && n <= |m|
    ensures |s| == |r|
  {
    if n == 0 then r else Step(g, Run(g, r, m, n - 1), m[n - 1])
  }

  // The register after the whole of m, started at zero.
  function Register(len: nat, g: seq<int>, m: seq<bool>): (s: seq<bool>)
    requires 0 < len
    ensures |s| == len
  {
    Run(g, Zeros(len), m, |m|)
  }

  lemma {:induction false} RunPrefix(g: seq<int>, r: seq<bool>, a: seq<bool>, b: seq<bool>, n: nat)
    requires 0 < |r| && n <= |a| && n <= |b| && a[..n] == b[..n]
    ensures Run(g, r, a, n) == Run(g, r, b, n)
  {
    if n > 0 {
      assert a[..n - 1] == a[..n][..n - 1] == b[..n][..n - 1] == b[..n - 1];
      assert a[n - 1] == a[..n][n - 1] == b[..n][n - 1] == b[n - 1];
      RunPrefix(g, r, a, b, n - 1);
    }
  }

  lemma {:induction false} RunAppend(g: seq<int>, r: seq<bool>, a: seq<bool>, b: seq<bool>, n: nat)
    requires 0 < |r| && n <= |b|
    ensures Run(g, r, a + b, |a| + n) == Run(g, Run(g, r, a, |a|), b, n)
  {
    if n == 0 {
      assert (a + b)[..|a|] == a[..|a|];
      RunPrefix(g, r, a + b, a, |a|);
    } else {
      RunAppend(g, r, a, b, n - 1);
      assert (a + b)[|a| + n - 1] == b[n - 1];
    }
  }

  /** The check is linear: the register of a sum is the sum of the registers. */
  lemma {:induction false} RunXor(g: seq<int>, r: seq<bool>, s: seq<bool>, a: seq<bool>, b: seq<bool>, n: nat)
    requires 0 < |r| == |s| && |a| == |b| && n <= |a|
    ensures Run(g, Xor(r, s), Xor(a, b), n) == Xor(Run(g, r, a, n), Run(g, s, b, n))
  {
    if n > 0 {
      RunXor(g, r, s, a, b, n - 1);
      StepXor(g, Run(g, r, a, n - 1), Run(g, s, b, n - 1), a[n - 1], b[n - 1]);
    }
  }

  lemma StepXor(g: seq<int>, r: seq<bool>, s: seq<bool>, x: bool, y: bool)
    requires 0 < |r| == |s|
    ensures Step(g, Xor(r, s), x != y) == Xor(Step(g, r, x), Step(g, s, y))
  {
  }

  // ------------------------------------------------------------ the check

  /**
   Feeding n bits that equal the top of the register, in order, shifts zeros in: this is
   what the receiver sees when it appends the check to the block.
  */
  lemma {:induction false} RunOwnBits(g: seq<int>, r: seq<bool>, c: seq<bool>, n: nat)
    requires 0 < |r| && n <= |c| && n <= |r|
    requires forall i :: 0 <= i < n ==> c[i] == r[|r| - 1 - i]
    ensures Run(g, r, c, n) == Zeros(n) + r[..|r| - n]
  {
    if n > 0 {
      RunOwnBits(g, r, c, n - 1);
    }
  }

  // The state before a step that ends at zero.
  lemma {:induction false} RunToZero(g: seq<int>, r: seq<bool>, c: seq<bool>, n: nat, k: nat)
    requires 0 < |r| && k <= n <= |c| && k <= |r|
    requires Run(g, r, c, n) == Zeros(|r|)
    ensures EndsAtZero(Run(g, r, c, n - k), c, n, k)
  {
    if k > 0 {
      RunToZero(g, r, c, n, k - 1);
      StepBack(g, Run(g, r, c, n - k), c, n, k);
    }
  }

  // The state k bits before the end of a run that ends at zero: the last k bits on top, zeros below.
  ghost predicate EndsAtZero(s: seq<bool>, c: seq<bool>, n: nat, k: nat)
    requires k <= n <= |c| && k <= |s|
  {
    forall i :: 0 <= i < |s| ==> s[i] == (|s| - k <= i && c[n - k + (|s| - 1 - i)])
  }

  lemma StepBack(g: seq<int>, s: seq<bool>, c: seq<bool>, n: nat, k: nat)
    requires 0 < k <= n <= |c| && k <= |s|
    requires EndsAtZero(Step(g, s, c[n - k]), c, n, k - 1)
    ensures EndsAtZero(s, c, n, k)
  {
    var t := Step(g, s, c[n - k]);
    assert !t[0];
    forall i | 0 <= i < |s| - 1
      ensures s[i] == t[i + 1]
    {
    }
  }

  /**
   The receiver's test, in both directions: block plus check drives the register to zero
   exactly when the check is the reversed register of the block.
  */
  lemma CheckPasses(len: nat, g: seq<int>, m: seq<bool>, c: seq<bool>)
    requires 0 < len == |c|
    ensures Register(len, g, m + c) == Zeros(len) <==> c == Reversed(Register(len, g, m))
  {
    var r := Register(len, g, m);
    RunAppend(g, Zeros(len), m, c, |c|);
    if c == Reversed(r) {
      RunOwnBits(g, r, c, len);
    }
    if Register(len, g, m + c) == Zeros(len) {
      RunToZero(g, r, c, len, len);
      assert forall i :: 0 <= i < len ==> c[i] == r[len - 1 - i];
    }
  }

  // ------------------------------------------------------------ errors that are always caught

  lemma {:induction false} ZerosStayZero(g: seq<int>, len: nat, m: seq<bool>, n: nat)
    requires 0 < len && n <= |m| && forall i :: 0 <= i < n ==> !m[i]
    ensures Run(g, Zeros(len), m, n) == Zeros(len)
  {
    if n > 0 {
      ZerosStayZero(g, len, m, n - 1);
    }
  }

  // Zeros cannot bring a register back to zero.
  lemma {:induction false} NonZeroStays(g: seq<int>, r: seq<bool>, m: seq<bool>, n: nat)
    requires 0 < |r| && n <= |m| && r != Zeros(|r|) && forall i :: 0 <= i < n ==> !m[i]
    ensures Run(g, r, m, n) != Zeros(|r|)
  {
    if n > 0 {
      NonZeroStays(g, r, m, n - 1);
      var s := Run(g, r, m, n - 1);
      if Step(g, s, false) == Zeros(|r|) {
        StepToZero(g, s);
      }
    }
  }

  lemma StepToZero(g: seq<int>, s: seq<bool>)
    requires 0 < |s| && Step(g, s, false) == Zeros(|s|)
    ensures s == Zeros(|s|)
  {
    var t := Step(g, s, false);
    assert !t[0];
    forall i | 0 <= i < |s| - 1
      ensures !s[i]
    {
      assert !t[i + 1];
    }
  }

  // A burst no longer than the register leaves a non-zero register.
  lemma BurstLeavesTrace(g: seq<int>, len: nat, b: seq<bool>, i: nat)
    requires 0 < len && i < |b| <= len && b[i]
    ensures Register(len, g, b) != Zeros(len)
  {
    if Register(len, g, b) == Zeros(len) {
      RunToZero(g, Zeros(len), b, |b|, |b|);
      assert b[i] == Zeros(len)[len - 1 - i] by {
        assert EndsAtZero(Zeros(len), b, |b|, |b|);
      }
    }
  }

  lemma LeadingZeros(g: seq<int>, len: nat, before: nat, b: seq<bool>)
    requires 0 < len
    ensures Register(len, g, Zeros(before) + b) == Register(len, g, b)
  {
    ZerosStayZero(g, len, Zeros(before), before);
    RunAppend(g, Zeros(len), Zeros(before), b, |b|);
  }

  lemma PaddedBurst(g: seq<int>, len: nat, before: nat, b: seq<bool>, after: nat, i: nat)
    requires 0 < len && i < |b| <= len && b[i]
    ensures Register(len, g, Zeros(before) + b + Zeros(after)) != Zeros(len)
  {
    BurstLeavesTrace(g, len, b, i);
    LeadingZeros(g, len, before, b);
    RunAppend(g, Zeros(len), Zeros(before) + b, Zeros(after), after);
    NonZeroStays(g, Register(len, g, b), Zeros(after), after);
  }

  lemma RegisterXor(g: seq<int>, len: nat, a: seq<bool>, b: seq<bool>)
    requires 0 < len && |a| == |b|
    ensures Register(len, g, Xor(a, b)) == Xor(Register(len, g, a), Register(len, g, b))
  {
    RunXor(g, Zeros(len), Zeros(len), a, b, |a|);
    assert Xor(Zeros(len), Zeros(len)) == Zeros(len);
  }

  /**
   Every error burst no longer than the register is detected: a word that passes the test
   fails it after at most len consecutive bits have been changed in any way.
  */
  lemma BurstDetected(g: seq<int>, len: nat, w: seq<bool>, before: nat, b: seq<bool>, after: nat, i: nat)
    requires 0 < len && i < |b| <= len && b[i] && |w| == before + |b| + after
    requires Register(len, g, w) == Zeros(len)
    ensures Register(len, g, Xor(w, Zeros(before) + b + Zeros(after))) != Zeros(len)
  {
    var e := Zeros(before) + b + Zeros(after);
    PaddedBurst(g, len, before, b, after, i);
    RegisterXor(g, len, w, e);
    assert Xor(Zeros(len), Register(len, g, e)) == Register(len, g, e);
  }

  // ------------------------------------------------------------ division by the generator

  // The generator polynomial of a register, highest power first.
  function Generator(len: nat, g: seq<int>): (p: seq<bool>)
    ensures |p| == len + 1
  {
    seq(len + 1, i requires 0 <= i < len + 1 => i == 0 || i == len || len - i - 1 in g)
  }

  // The source's taps are gCRC24A(D) of section 5.1.1.
  lemma GeneratorIsCrc24A()
    ensures forall i :: 0 <= i <= 24 ==>
              (Generator(24, TAPS_24A)[i] <==> 24 - i in {24, 23, 18, 17, 14, 11, 10, 7, 6, 5, 4, 3, 1, 0})
  {
  }

  // The product of q and a polynomial p of degree |p| - 1, highest power first, over GF(2).
  function Times(q: seq<bool>, p: seq<bool>, n: nat): (s: seq<bool>)
    requires 0 < |p| && n <= |q|
    ensures |s| == n + |p| - 1
  {
    if n == 0 then Zeros(|p| - 1)
    else Xor(Times(q, p, n - 1) + [false], Zeros(n - 1) + (if q[n - 1] then p else Zeros(|p|)))
  }

  // The feedback bits: the quotient of the division.
  function Quotient(len: nat, g: seq<int>, m: seq<bool>): (q: seq<bool>)
    requires 0 < len
    ensures |q| == |m|
  {
    seq(|m|, i requires 0 <= i < |m| => m[i] != Run(g, Zeros(len), m, i)[len - 1])
  }

  lemma ReversedZeros(n: nat)
    ensures Reversed(Zeros(n)) == Zeros(n)
  {
  }

  lemma {:induction false} DivisionStep(len: nat, g: seq<int>, m: seq<bool>, n: nat)
    requires 0 < len && n <= |m|
    ensures Times(Quotient(len, g, m), Generator(len, g), n) == m[..n] + Reversed(Run(g, Zeros(len), m, n))
  {
    hide Step, Xor, Reversed, Generator, Zeros;
    if n == 0 {
      ReversedZeros(len);
    } else {
      var r, p := Run(g, Zeros(len), m, n - 1), Generator(len, g);
      DivisionStep(len, g, m, n - 1);
      var inv := m[n - 1] != r[len - 1];
      assert Quotient(len, g, m)[n - 1] == inv;
      DivisionBit(len, g, m[..n - 1], r, m[n - 1], Times(Quotient(len, g, m), p, n - 1));
      assert m[..n] == m[..n - 1] + [m[n - 1]];
    }
  }

  // One step of long division.
  lemma DivisionBit(len: nat, g: seq<int>, a: seq<bool>, r: seq<bool>, b: bool, t: seq<bool>)
    requires 0 < len == |r| && t == a + Reversed(r)
    ensures var inv := b != r[len - 1];
            Xor(t + [false], Zeros(|a|) + (if inv then Generator(len, g) else Zeros(len + 1)))
            == a + [b] + Reversed(Step(g, r, b))
  {
  }

  /**
   The check makes the block divisible: block followed by check is a multiple of the
   generator polynomial, as section 5.1.1 of 3GPP TS 36.212 requires.
  */
  lemma BlockIsMultiple(len: nat, g: seq<int>, m: seq<bool>)
    requires 0 < len
    ensures m + Reversed(Register(len, g, m)) == Times(Quotient(len, g, m), Generator(len, g), |m|)
  {
    DivisionStep(len, g, m, |m|);
    assert m[..|m|] == m;
  }
}
