/**
 The tail-biting convolutional code of section 5.1.3.1 of 3GPP TS 36.212 (convCode.zir):
 the encoder starts in the state that the end of the message leaves behind.
*/
module ConvCode {
  import Crc
  import opened ModArith

  // ------------------------------------------------------------ the code as a cyclic convolution

  // The message bit at position p, counted around the message.
  function Around(m: seq<bool>, p: int): bool
    requires -|m| <= p < |m|
  {
    if p < 0 then m[p + |m|] else m[p]
  }

  // Bit k of output stream g: the sum of the message bits at the generator's taps before k.
  function CodeBit(m: seq<bool>, g: nat, k: nat): bool
    requires g < 3 && 6 <= |m| && k < |m|
  {
    var b, a := Around(m, k), Around(m, k - 6);
    if g == 0 then (((b != Around(m, k - 2)) != Around(m, k - 3)) != Around(m, k - 5)) != a
    else if g == 1 then (((b != Around(m, k - 1)) != Around(m, k - 2)) != Around(m, k - 3)) != a
    else (((b != Around(m, k - 1)) != Around(m, k - 2)) != Around(m, k - 4)) != a
  }

  // The six bits before position k, the latest first.
  function State(m: seq<bool>, k: nat): (s: seq<bool>)
    requires 6 <= |m| && k <= |m|
    ensures |s| == 6
  {
    [Around(m, k - 1), Around(m, k - 2), Around(m, k - 3), Around(m, k - 4), Around(m, k - 5), Around(m, k - 6)]
  }

  lemma StateCloses(m: seq<bool>)
    requires 6 <= |m|
    ensures State(m, |m|) == State(m, 0)
  {
  }

  function Rotated(m: seq<bool>, d: nat): (r: seq<bool>)
    requires d <= |m|
    ensures |r| == |m|
  {
    m[d..] + m[..d]
  }

  /**
   The generators are 133, 171 and 165 in octal: these are the outputs for a single one, its own output first. All
   others follow by rotation and linearity.
  */
  lemma ImpulseResponse(m: seq<bool>, g: nat, k: nat)
    requires 7 <= |m| && g < 3 && k < |m| && forall i :: 0 <= i < |m| ==> m[i] == (i == 0)
    ensures CodeBit(m, g, k) == (k <= 6 && [0x5B, 0x79, 0x75][g] / [64, 32, 16, 8, 4, 2, 1][k] % 2 == 1)
  {
  }

  /** Rotating the message rotates each of the output streams. */
  lemma RotationInvariant(m: seq<bool>, d: nat, g: nat, k: nat)
    requires 6 <= |m| && d <= |m| && g < 3 && k < |m|
    ensures CodeBit(Rotated(m, d), g, k) == CodeBit(m, g, if k + d < |m| then k + d else k + d - |m|)
  {
    RotatedAround(m, d, k, 0);
    RotatedAround(m, d, k, 1);
    RotatedAround(m, d, k, 2);
    RotatedAround(m, d, k, 3);
    RotatedAround(m, d, k, 4);
    RotatedAround(m, d, k, 5);
    RotatedAround(m, d, k, 6);
    hide Around, Rotated;
  }

  lemma RotatedAround(m: seq<bool>, d: nat, k: nat, t: nat)
    requires 6 <= |m| && d <= |m| && k < |m| && t <= 6
    ensures Around(Rotated(m, d), k - t) == Around(m, (if k + d < |m| then k + d else k + d - |m|) - t)
  {
  }

  /** The code is linear. */
  lemma Linear(a: seq<bool>, b: seq<bool>, g: nat, k: nat)
    requires 6 <= |a| == |b| && g < 3 && k < |a|
    ensures CodeBit(Crc.Xor(a, b), g, k) == (CodeBit(a, g, k) != CodeBit(b, g, k))
  {
    XorAround(a, b, k);
    XorAround(a, b, k - 1);
    XorAround(a, b, k - 2);
    XorAround(a, b, k - 3);
    XorAround(a, b, k - 4);
    XorAround(a, b, k - 5);
    XorAround(a, b, k - 6);
    hide Around, Crc.Xor;
  }

  lemma XorAround(a: seq<bool>, b: seq<bool>, p: int)
    requires |a| == |b| && -|a| <= p < |a|
    ensures Around(Crc.Xor(a, b), p) == (Around(a, p) != Around(b, p))
  {
  }

  // ------------------------------------------------------------ the encoder

  // The outputs for one message bit, from the state before it.
  function Outputs(b: bool, s: seq<bool>, g: nat): bool
    requires |s| == 6 && g < 3
  {
    if g == 0 then (((b != s[1]) != s[2]) != s[4]) != s[5]
    else if g == 1 then (((b != s[0]) != s[1]) != s[2]) != s[5]
    else (((b != s[0]) != s[1]) != s[3]) != s[5]
  }

  // A shift register step gives the code bit and the next state.
  lemma StepIsCode(m: seq<bool>, k: nat, g: nat)
    requires 6 <= |m| && k < |m| && g < 3
    ensures Outputs(m[k], State(m, k), g) == CodeBit(m, g, k)
    ensures State(m, k + 1) == [m[k]] + State(m, k)[..5]
  {
  }

  // The first k bits of each stream, in streams of length b.
  ghost predicate Encoded(output: array<bool>, m: seq<bool>, b: nat, k: nat)
    requires 6 <= |m| <= b
    reads output
  {
    3 * b <= output.Length && forall g, j :: 0 <= g < 3 && 0 <= j < k && j < |m| ==> output[g * b + j] == CodeBit(m, g, j)
  }

  // What the register is filled with: the last bits of the message, the latest first.
  function Start(m: seq<bool>): (s: seq<bool>)
    requires 6 <= |m|
  {
    var n := |m|;
    [m[n - 1], m[n - 2], m[n - 3], m[n - 4], m[n - 5], m[n - 6]]
  }

  /**
   The encoder, in blocks of eight bits, for every message of at least six. It bites its tail: the register s ends
   with what it was filled with at the start.
  */
  method Encode(input: seq<bool>, inlen: nat, output: array<bool>) returns (outlen: nat, s: seq<bool>)
    requires 6 <= inlen <= |input| && 3 * ByteAligned(inlen) <= output.Length
    modifies output
    ensures s == Start(input[..inlen])
    ensures outlen == 3 * inlen && Encoded(output, input[..inlen], ByteAligned(inlen), inlen)
  {
    hide CodeBit, State;
    var inlenB := ByteAligned(inlen);
    ghost var m := input[..inlen];
    s := [input[inlen - 1], input[inlen - 2], input[inlen - 3], input[inlen - 4], input[inlen - 5], input[inlen - 6]];
    StartState(m);
    StateCloses(m);
    var r := new bool[24](_ => false);
    for i := 0 to inlenB / 8
      invariant s == State(m, if 8 * i < inlen then 8 * i else inlen) && Encoded(output, m, inlenB, 8 * i)
    {
      s := EncodeByte(input, inlen, i, s, r, m);
      StoreByte(output, inlenB, i, r, m);
    }
    outlen := 3 * inlen;
  }

  lemma StartState(m: seq<bool>)
    requires 6 <= |m|
    ensures State(m, 0) == Start(m)
  {
  }

  // Scratch bit j of stream g is that of byte i; positions after the message keep what they had.
  ghost predicate ScratchBit(r: seq<bool>, m: seq<bool>, i: nat, g: nat, j: nat)
    requires 6 <= |m| && |r| == 24 && g < 3 && j < 8
  {
    8 * i + j < |m| ==> r[8 * g + j] == CodeBit(m, g, 8 * i + j)
  }

  ghost predicate Scratch(r: array<bool>, m: seq<bool>, i: nat, n: nat)
    requires 6 <= |m| && n <= 8
    reads r
  {
    r.Length == 24 && forall g, j :: 0 <= g < 3 && 0 <= j < n ==> ScratchBit(r[..], m, i, g, j)
  }

  // Bit j of each stream was written.
  lemma ScratchKept(was: seq<bool>, r: seq<bool>, m: seq<bool>, i: nat, n: nat)
    requires 6 <= |m| && |was| == |r| == 24 && n < 8
    requires forall g, j :: 0 <= g < 3 && 0 <= j < n ==> ScratchBit(was, m, i, g, j)
    requires r == was[n := r[n]][8 + n := r[8 + n]][16 + n := r[16 + n]]
    requires ScratchBit(r, m, i, 0, n) && ScratchBit(r, m, i, 1, n) && ScratchBit(r, m, i, 2, n)
    ensures forall g, j :: 0 <= g < 3 && 0 <= j < n + 1 ==> ScratchBit(r, m, i, g, j)
  {
    hide CodeBit;
    forall g, j | 0 <= g < 3 && 0 <= j < n
      ensures ScratchBit(r, m, i, g, j)
    {
      assert ScratchBit(was, m, i, g, j);
    }
  }

  method EncodeByte(input: seq<bool>, inlen: nat, i: nat, s0: seq<bool>, r: array<bool>, ghost m: seq<bool>) returns (s: seq<bool>)
    requires 6 <= inlen <= |input| && m == input[..inlen] && r.Length == 24 && 8 * i < inlen && s0 == State(m, 8 * i)
    modifies r
    ensures s == State(m, if 8 * i + 8 < inlen then 8 * i + 8 else inlen) && Scratch(r, m, i, 8)
  {
    hide CodeBit, State;
    s := s0;
    for j := 0 to 8
      invariant s == State(m, if 8 * i + j < inlen then 8 * i + j else inlen) && Scratch(r, m, i, j)
    {
      ghost var was := r[..];
      var ii := 8 * i + j;
      if ii < inlen {
        var b := input[ii];
        StepIsCode(m, ii, 0);
        StepIsCode(m, ii, 1);
        StepIsCode(m, ii, 2);
        r[j] := (((b != s[1]) != s[2]) != s[4]) != s[5];
        r[8 + j] := (((b != s[0]) != s[1]) != s[2]) != s[5];
        r[16 + j] := (((b != s[0]) != s[1]) != s[3]) != s[5];
        s := [b] + s[..5];
      }
      ScratchKept(was, r[..], m, i, j);
    }
  }

  method StoreByte(output: array<bool>, inlenB: nat, i: nat, r: array<bool>, ghost m: seq<bool>)
    requires 6 <= |m| <= inlenB && 8 * i + 8 <= inlenB && 3 * inlenB <= output.Length && output != r
    requires Encoded(output, m, inlenB, 8 * i) && Scratch(r, m, i, 8)
    modifies output
    ensures Encoded(output, m, inlenB, 8 * i + 8)
  {
    hide CodeBit;
    ghost var was, bits := output[..], r[..];
    assert forall g, j :: 0 <= g < 3 && 0 <= j < 8 ==> ScratchBit(bits, m, i, g, j);
    forall j | 0 <= j < 8 {
      output[8 * i + j] := r[j];
    }
    forall j | 0 <= j < 8 {
      output[inlenB + 8 * i + j] := r[8 + j];
    }
    forall j | 0 <= j < 8 {
      output[2 * inlenB + 8 * i + j] := r[16 + j];
    }
    forall g, j | 0 <= g < 3 && 0 <= j < 8 * i + 8 && j < |m|
      ensures output[g * inlenB + j] == CodeBit(m, g, j)
    {
      if j < 8 * i {
        assert was[g * inlenB + j] == CodeBit(m, g, j);
      } else {
        assert ScratchBit(bits, m, i, g, j - 8 * i);
      }
    }
  }
}
