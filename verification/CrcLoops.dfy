/** The loops of crc.zir, and the comparison of sch_decode.zir, proved against module Crc. */
module CrcLoops {
  import opened Crc

  // ------------------------------------------------------------ the serial loops

  // Toggles the taps: one pass over g.
  method XorTaps(a: array<bool>, g: seq<int>, offset: int, v: bool)
    requires Taps(g)
    modifies a
    ensures forall x :: 0 <= x < a.Length ==> a[x] == (old(a[x]) != (v && x + offset in g))
  {
    for k := 0 to |g|
      invariant forall x :: 0 <= x < a.Length ==> a[x] == (old(a[x]) != (v && x + offset in g[..k]))
    {
      var ind := g[k] - offset;
      assert g[..k + 1] == g[..k] + [g[k]];
      if 0 <= ind < a.Length {
        a[ind] := v != a[ind];
      }
    }
    assert g[..|g|] == g;
  }

  method SerialStep(r: array<bool>, len: nat, g: seq<int>, b: bool)
    requires 0 < len <= r.Length && Taps(g)
    modifies r
    ensures r[..len] == Step(g, old(r[..len]), b)
  {
    var inv := b != r[len - 1];
    XorTaps(r, g, 0, inv);
    ghost var t := r[..];
    for l := 0 to len - 1
      invariant forall i :: 0 <= i < len - l ==> r[i] == t[i]
      invariant forall i :: len - l <= i < len ==> r[i] == t[i - 1]
    {
      r[len - 1 - l] := r[len - 1 - l - 1];
    }
    r[0] := inv;
  }

  /** The bit-serial check of any length up to 24. */
  method SerialCrc(len: nat, g: seq<int>, input: seq<bool>, inlen: nat) returns (r: array<bool>)
    requires 0 < len <= 24 && Taps(g) && inlen <= |input|
    ensures fresh(r) && r.Length == 24 && r[..len] == Run(g, Zeros(len), input, inlen)
  {
    hide Step;
    r := new bool[24](i => false);
    ghost var n, s := 0, Zeros(len);
    for i := 0 to inlen / 8 + 1
      invariant n == (if 8 * i < inlen then 8 * i else inlen)
      invariant r[..len] == s && s == Run(g, Zeros(len), input, n)
    {
      for j := 0 to 8
        invariant n == (if 8 * i + j < inlen then 8 * i + j else inlen)
        invariant r[..len] == s && s == Run(g, Zeros(len), input, n)
      {
        var ii := i * 8 + j;
        if ii < inlen {
          SerialStep(r, len, g, input[ii]);
          n, s := n + 1, Step(g, s, input[n]);
        }
      }
    }
  }

  // ------------------------------------------------------------ eight steps at once

  /**
   The register seen without shifting: after j steps, register bit i is the cell at
   position i - j. Cells at negative positions are the feedback bits that have entered.
  */
  ghost function Cell(g: seq<int>, r: seq<bool>, m: seq<bool>, p: int, j: nat): bool
    requires |r| == 24 && j <= |m| <= 8 && -8 <= p < 24
    decreases j, 0
  {
    if j == 0 then 0 <= p && r[p]
    else if p + j == 0 then Feedback(g, r, m, j - 1)
    else Cell(g, r, m, p, j - 1) != (Feedback(g, r, m, j - 1) && p + j - 1 in g)
  }

  ghost function Feedback(g: seq<int>, r: seq<bool>, m: seq<bool>, j: nat): bool
    requires |r| == 24 && j < |m| <= 8
    decreases j, 1
  {
    m[j] != Cell(g, r, m, 23 - j, j)
  }

  lemma {:induction false} CellIsRegister(g: seq<int>, r: seq<bool>, m: seq<bool>, j: nat)
    requires |r| == 24 && j <= |m| <= 8
    ensures forall i :: 0 <= i < 24 ==> Run(g, r, m, j)[i] == Cell(g, r, m, i - j, j)
  {
    if j > 0 {
      CellIsRegister(g, r, m, j - 1);
      var s := Run(g, r, m, j - 1);
      assert Feedback(g, r, m, j - 1) == (m[j - 1] != s[23]);
      forall i | 0 <= i < 24
        ensures Run(g, r, m, j)[i] == Cell(g, r, m, i - j, j)
      {
        if i > 0 {
          assert s[i - 1] == Cell(g, r, m, i - 1 - (j - 1), j - 1);
        }
      }
    }
  }

  // The first pass: the feedback bits replace the message bits, and the top byte slides out.
  method FeedbackPass(inv: array<bool>, r2: array<bool>, g: seq<int>, ghost r: seq<bool>, ghost byte: seq<bool>)
    requires inv.Length == r2.Length == |byte| == 8 && |r| == 24 && inv != r2 && Taps(g)
    requires inv[..] == byte && r2[..] == r[16..]
    modifies inv, r2
    ensures forall t :: 0 <= t < 8 ==> inv[t] == Feedback(g, r, byte, t)
  {
    for j := 0 to 8
      invariant forall t :: 0 <= t < 8 ==> inv[t] == if t < j then Feedback(g, r, byte, t) else byte[t]
      invariant forall x :: 0 <= x < 8 ==> r2[x] == Cell(g, r, byte, 16 + x, j)
    {
      inv[j] := inv[j] != r2[7 - j];
      XorTaps(r2, g, j + 16, inv[j]);
    }
  }

  // What the three old bytes and the byte of feedback bits become.
  method ByteStep(r0: array<bool>, r1: array<bool>, r2: array<bool>, byte: seq<bool>, g: seq<int>) returns (inv1: array<bool>)
    requires r0.Length == r1.Length == r2.Length == |byte| == 8 && Taps(g)
    requires r0 != r1 && r0 != r2 && r1 != r2
    modifies r0, r1, r2
    ensures fresh(inv1) && inv1.Length == 8
    ensures inv1[..] + r0[..] + r1[..] == Run(g, old(r0[..] + r1[..] + r2[..]), byte, 8)
  {
    ghost var r := r0[..] + r1[..] + r2[..];
    var inv := new bool[8](i requires 0 <= i < 8 => byte[i]);
    FeedbackPass(inv, r2, g, r, byte);
    inv1 := new bool[8](i requires 0 <= i < 8 reads inv => inv[7 - i]);
    SlideTaps(r1, inv, g, r, byte, 8);
    SlideTaps(r0, inv, g, r, byte, 0);
    SlideNewTaps(inv1, inv, g, r, byte);
    CellIsRegister(g, r, byte, 8);
  }

  // One of the passes over an old byte: the cells from position base on, after all eight steps.
  method SlideTaps(a: array<bool>, imm: array<bool>, g: seq<int>, ghost r: seq<bool>, ghost byte: seq<bool>, base: nat)
    requires a.Length == imm.Length == |byte| == 8 && |r| == 24 && a != imm && Taps(g) && base <= 16
    requires a[..] == r[base..base + 8]
    requires forall t :: 0 <= t < 8 ==> imm[t] == Feedback(g, r, byte, t)
    modifies a
    ensures forall x :: 0 <= x < 8 ==> a[x] == Cell(g, r, byte, base + x, 8)
  {
    for j := 0 to 8
      invariant forall x :: 0 <= x < 8 ==> a[x] == Cell(g, r, byte, base + x, j)
    {
      XorTaps(a, g, j + base, imm[j]);
    }
  }

  // The pass over the reversed feedback bits, which are the cells at the new positions.
  method SlideNewTaps(a: array<bool>, imm: array<bool>, g: seq<int>, ghost r: seq<bool>, ghost byte: seq<bool>)
    requires a.Length == imm.Length == |byte| == 8 && |r| == 24 && a != imm && Taps(g)
    requires forall t :: 0 <= t < 8 ==> imm[t] == Feedback(g, r, byte, t)
    requires forall x :: 0 <= x < 8 ==> a[x] == imm[7 - x]
    modifies a
    ensures forall x :: 0 <= x < 8 ==> a[x] == Cell(g, r, byte, x - 8, 8)
  {
    for j := 0 to 8
      invariant forall x :: 0 <= x < 8 ==>
                  a[x] == if 8 - x <= j then Cell(g, r, byte, x - 8, j) else Feedback(g, r, byte, 7 - x)
    {
      XorTaps(a, g, j - 8, imm[j]);
    }
  }

  lemma RunStartsAt(g: seq<int>, m: seq<bool>, n: nat, k: nat)
    requires n + k <= |m|
    ensures Run(g, Zeros(24), m, n + k) == Run(g, Run(g, Zeros(24), m, n), m[n..n + k], k)
  {
    RunAppend(g, Zeros(24), m[..n], m[n..n + k], k);
    RunPrefix(g, Zeros(24), m[..n], m, n);
    assert (m[..n] + m[n..n + k])[..n + k] == m[..n + k];
    RunPrefix(g, Zeros(24), m[..n] + m[n..n + k], m, n + k);
  }

  // The register after the whole bytes of the message.
  method ByteSlicedRegister(input: seq<bool>, n: nat, g: seq<int>) returns (r: array<bool>)
    requires 8 * n <= |input| && Taps(g)
    ensures fresh(r) && r.Length == 24 && r[..] == Run(g, Zeros(24), input, 8 * n)
  {
    var r0, r1, r2 := new bool[8](i => false), new bool[8](i => false), new bool[8](i => false);
    ghost var s := Zeros(24);
    for i := 0 to n
      invariant r0 != r1 && r0 != r2 && r1 != r2 && fresh(r0) && fresh(r1) && fresh(r2)
      invariant r0.Length == r1.Length == r2.Length == 8
      invariant r0[..] + r1[..] + r2[..] == s && s == Run(g, Zeros(24), input, 8 * i)
    {
      var inv1 := ByteStep(r0, r1, r2, input[i * 8..i * 8 + 8], g);
      RunStartsAt(g, input, 8 * i, 8);
      s := inv1[..] + r0[..] + r1[..];
      r2 := r1;
      r1 := r0;
      r0 := inv1;
    }
    r := Joined(r0[..], r1[..], r2[..]);
  }

  method Joined(r0: seq<bool>, r1: seq<bool>, r2: seq<bool>) returns (r: array<bool>)
    requires |r0| == |r1| == |r2| == 8
    ensures fresh(r) && r.Length == 24 && r[..] == r0 + r1 + r2
  {
    r := new bool[24](i requires 0 <= i < 24 => if i < 8 then r0[i] else if i < 16 then r1[i - 8] else r2[i - 16]);
  }

  /**
   The byte-sliced CRC24A, with its serial tail, is the reversed bit-serial register on
   every message of every length.
  */
  method Crc24a(input: seq<bool>, inlen: nat) returns (crc: seq<bool>)
    requires inlen <= |input|
    ensures crc == Reversed(Run(TAPS_24A, Zeros(24), input, inlen))
  {
    var g := TAPS_24A;
    var r := ByteSlicedRegister(input, inlen / 8, g);
    ghost var s := r[..24];
    for j := 0 to inlen % 8
      invariant r[..24] == s && s == Run(g, Zeros(24), input, inlen / 8 * 8 + j)
    {
      var ii := inlen / 8 * 8 + j;
      SerialStep(r, 24, g, input[ii]);
      s := Step(g, s, input[ii]);
    }
    crc := Reversed(r[..24]);
  }

  // ------------------------------------------------------------ compare_bits

  /** Only whole bytes are compared: the last |a1| % 8 bits never matter. */
  method CompareBits(a1: seq<bool>, a2: seq<bool>) returns (res: bool)
    requires |a1| == |a2|
    ensures res <==> a1[..|a1| / 8 * 8] == a2[..|a1| / 8 * 8]
  {
    res := true;
    for i := 0 to |a1| / 8
      invariant res <==> a1[..8 * i] == a2[..8 * i]
    {
      for j := 0 to 8
        invariant res <==> a1[..8 * i + j] == a2[..8 * i + j]
      {
        PrefixStep(a1, a2, 8 * i + j);
        res := if a1[i * 8 + j] == a2[i * 8 + j] then res else false;
      }
    }
  }

  lemma PrefixStep(a: seq<bool>, b: seq<bool>, n: nat)
    requires n < |a| == |b|
    ensures a[..n + 1] == b[..n + 1] <==> a[..n] == b[..n] && a[n] == b[n]
  {
    assert a[..n + 1] == a[..n] + [a[n]] && b[..n + 1] == b[..n] + [b[n]];
  }
}
