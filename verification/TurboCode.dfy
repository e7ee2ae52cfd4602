/** The turbo encoder of section 5.1.3.2 of 3GPP TS 36.212, with trellis termination. */
module TurboCode {
  import opened ModArith
  import opened RateMatch
  import opened Qpp

  // ------------------------------------------------------------ the constituent encoder

  // The three delay elements.
  datatype Regs = Regs(r0: bool, r1: bool, r2: bool)

  const ZERO := Regs(false, false, false)

  // The bit that enters the first delay element for input x.
  function Entering(s: Regs, x: bool): bool { (x != s.r1) != s.r2 }

  function Next(s: Regs, x: bool): Regs { Regs(Entering(s, x), s.r0, s.r1) }

  function ParityBit(s: Regs, x: bool): bool { (Entering(s, x) != s.r0) != s.r2 }

  // The state after the first n bits of m.
  function State(m: seq<bool>, n: nat): Regs
    requires n <= |m|
  {
    if n == 0 then ZERO else Next(State(m, n - 1), m[n - 1])
  }

  function Parity(m: seq<bool>, k: nat): bool
    requires k < |m|
  {
    ParityBit(State(m, k), m[k])
  }

  // The bits in the delay elements are the last three that entered.
  lemma Delayed(m: seq<bool>, k: nat)
    requires k <= |m|
    ensures var s := State(m, k);
            && s.r0 == (k >= 1 && Entering(State(m, k - 1), m[k - 1])) && s.r1 == (k >= 2 && Entering(State(m, k - 2), m[k - 2]))
            && s.r2 == (k >= 3 && Entering(State(m, k - 3), m[k - 3]))
  {
    if k >= 2 {
      assert State(m, k - 1) == Next(State(m, k - 2), m[k - 2]);
    }
    if k >= 3 {
      assert State(m, k - 2) == Next(State(m, k - 3), m[k - 3]);
    }
  }

  /**
   The parity is the message times (1 + D + D^3) / (1 + D^2 + D^3), the transfer function of section 5.1.3.2.1 of
   3GPP TS 36.212, with zeros before the message. It holds for the tail bits too, which are a longer message.
  */
  lemma ParityLaw(m: seq<bool>, k: nat)
    requires k < |m|
    ensures ((Parity(m, k) != (k >= 2 && Parity(m, k - 2))) != (k >= 3 && Parity(m, k - 3))) ==
            ((m[k] != (k >= 1 && m[k - 1])) != (k >= 3 && m[k - 3]))
  {
    hide State;
    Delayed(m, k);
    if k >= 1 {
      Delayed(m, k - 1);
    }
    if k >= 2 {
      Delayed(m, k - 2);
    }
    if k >= 3 {
      Delayed(m, k - 3);
    }
  }

  // The input that makes the entering bit zero.
  function TailBit(s: Regs): bool { s.r1 != s.r2 }

  // m followed by n tail bits.
  function Terminated(m: seq<bool>, n: nat): (e: seq<bool>)
    ensures |e| == |m| + n && e[..|m|] == m
  {
    if n == 0 then m
    else
      var e := Terminated(m, n - 1);
      e + [TailBit(State(e, |e|))]
  }

  lemma {:induction false} StatePrefix(a: seq<bool>, b: seq<bool>, n: nat)
    requires n <= |a| && n <= |b| && a[..n] == b[..n]
    ensures State(a, n) == State(b, n)
  {
    if n > 0 {
      assert a[..n - 1] == a[..n][..n - 1] == b[..n][..n - 1] == b[..n - 1];
      assert a[n - 1] == a[..n][n - 1] == b[..n][n - 1] == b[n - 1];
      StatePrefix(a, b, n - 1);
    }
  }

  lemma {:induction false} TerminatedPrefix(m: seq<bool>, j: nat, n: nat)
    requires j <= n
    ensures Terminated(m, n)[..|m| + j] == Terminated(m, j)
  {
    if j < n {
      TerminatedPrefix(m, j, n - 1);
      assert Terminated(m, n)[..|m| + j] == Terminated(m, n - 1)[..|m| + j];
    }
  }

  // Tail bit t clears the entering bit.
  lemma TailClears(m: seq<bool>, n: nat, t: nat)
    requires t < n
    ensures var e := Terminated(m, n);
            && e[|m| + t] == TailBit(State(e, |m| + t))
            && State(e, |m| + t + 1) == Regs(false, State(e, |m| + t).r0, State(e, |m| + t).r1)
  {
    var e, f := Terminated(m, n), Terminated(m, t + 1);
    TerminatedPrefix(m, t + 1, n);
    assert e[|m| + t] == e[..|m| + t + 1][|m| + t] == f[|m| + t];
    assert e[..|m| + t] == e[..|m| + t + 1][..|m| + t] == f[..|m| + t] == Terminated(m, t)[..|m| + t];
    StatePrefix(e, Terminated(m, t), |m| + t);
  }

  /** Three tail bits, run through the ordinary encoder, bring it back to the zero state. */
  lemma TerminationReachesZero(m: seq<bool>)
    ensures State(Terminated(m, 3), |m| + 3) == ZERO
  {
    hide State, Terminated;
    TailClears(m, 3, 0);
    TailClears(m, 3, 1);
    TailClears(m, 3, 2);
  }

  // ------------------------------------------------------------ the three output streams

  function Permuted(r: TurboRow, m: seq<bool>): (p: seq<bool>)
    requires |m| == r.k
    ensures |p| == r.k
  {
    seq(r.k, k requires 0 <= k < r.k => m[Index(r, k)])
  }

  function Parities(m: seq<bool>, n: nat): (z: seq<bool>)
    requires n <= |m|
    ensures |z| == n
  {
    seq(n, k requires 0 <= k < n => Parity(m, k))
  }

  // Tail bits and their parities, dealt out to the streams as section 5.1.3.2.2 prescribes.
  function TurboStream(r: TurboRow, m: seq<bool>, q: nat): (d: seq<bool>)
    requires |m| == r.k && q < 3
    ensures |d| == r.k + 4
  {
    var k := r.k;
    var e, f := Terminated(m, 3), Terminated(Permuted(r, m), 3);
    if q == 0 then m + [e[k], Parity(e, k + 1), f[k], Parity(f, k + 1)]
    else if q == 1 then Parities(m, k) + [Parity(e, k), e[k + 2], Parity(f, k), f[k + 2]]
    else Parities(Permuted(r, m), k) + [e[k + 1], Parity(e, k + 2), f[k + 1], Parity(f, k + 2)]
  }

  /** The systematic stream, and the parities of the message and of the message permuted by the quadratic polynomial. */
  lemma StreamsAre(r: TurboRow, m: seq<bool>, i: nat)
    requires |m| == r.k && i < r.k
    ensures TurboStream(r, m, 0)[i] == m[i] && TurboStream(r, m, 1)[i] == Parity(m, i)
    ensures TurboStream(r, m, 2)[i] == Parity(Permuted(r, m), i)
    ensures (r.f1 * i + r.f2 * i * i) % r.k < r.k && Permuted(r, m)[i] == m[(r.f1 * i + r.f2 * i * i) % r.k]
  {
    hide Parity, Terminated;
  }

  /**
   Read across the three streams, position by position, the tails are the three tail bits of the first encoder, each
   followed by its parity, and then those of the second.
  */
  lemma TailsAcross(r: TurboRow, m: seq<bool>)
    requires |m| == r.k
    ensures var k, e, f := r.k, Terminated(m, 3), Terminated(Permuted(r, m), 3);
            var d0, d1, d2 := TurboStream(r, m, 0), TurboStream(r, m, 1), TurboStream(r, m, 2);
            && [d0[k], d1[k], d2[k], d0[k + 1], d1[k + 1], d2[k + 1]]
               == [e[k], Parity(e, k), e[k + 1], Parity(e, k + 1), e[k + 2], Parity(e, k + 2)]
            && [d0[k + 2], d1[k + 2], d2[k + 2], d0[k + 3], d1[k + 3], d2[k + 3]]
               == [f[k], Parity(f, k), f[k + 1], Parity(f, k + 1), f[k + 2], Parity(f, k + 2)]
  {
    hide Parity, Terminated, Permuted;
  }

  // ------------------------------------------------------------ the loops

  // The three tail bits of m and their parities.
  ghost predicate Tails(m: seq<bool>, xk: seq<bool>, zk: seq<bool>) {
    && |xk| == |zk| == 3
    && forall t :: 0 <= t < 3 ==> xk[t] == Terminated(m, 3)[|m| + t] && zk[t] == Parity(Terminated(m, 3), |m| + t)
  }

  lemma TailsBegin(m: seq<bool>)
    ensures State(Terminated(m, 3), |m|) == State(m, |m|)
  {
    StatePrefix(Terminated(m, 3), m, |m|);
  }

  // Tail bit t, its parity and the next state.
  lemma TailStep(m: seq<bool>, t: nat)
    requires t < 3
    ensures var e, s := Terminated(m, 3), State(Terminated(m, 3), |m| + t);
            && e[|m| + t] == (s.r1 != s.r2) && Parity(e, |m| + t) == (s.r0 != s.r2)
            && State(e, |m| + t + 1) == Regs(false, s.r0, s.r1)
  {
    hide State, Terminated;
    TailClears(m, 3, t);
  }

  // The registers after three tail steps, with the bits that leave.
  method Terminate(s: Regs, ghost m: seq<bool>) returns (xk: seq<bool>, zk: seq<bool>)
    requires s == State(m, |m|)
    ensures Tails(m, xk, zk)
  {
    hide State, Terminated, Parity;
    var reg := s;
    xk, zk := [], [];
    ghost var e := Terminated(m, 3);
    TailsBegin(m);
    for k := 0 to 3
      invariant |xk| == |zk| == k
      invariant reg == State(e, |m| + k)
      invariant forall t :: 0 <= t < k ==> xk[t] == e[|m| + t] && zk[t] == Parity(e, |m| + t)
    {
      TailStep(m, k);
      var in1 := reg.r1 != reg.r2;
      xk := xk + [in1];
      zk := zk + [reg.r0 != reg.r2];
      reg := Regs(false, reg.r0, reg.r1);
    }
  }

  // The streams written so far, at their byte-aligned offsets.
  ghost predicate Written(output: seq<bool>, b: nat, n: nat, x: seq<bool>, y: seq<bool>, z: seq<bool>)
    requires n <= |x| == |y| == |z| && 2 * b + |x| <= |output|
  {
    forall k :: 0 <= k < n ==> output[k] == x[k] && output[b + k] == y[k] && output[2 * b + k] == z[k]
  }

  lemma WrittenStep(before: seq<bool>, after: seq<bool>, b: nat, k: nat, x: seq<bool>, y: seq<bool>, z: seq<bool>)
    requires k < |x| == |y| == |z| <= b && 2 * b + |x| <= |before| == |after|
    requires Written(before, b, k, x, y, z)
    requires after[k] == x[k] && after[b + k] == y[k] && after[2 * b + k] == z[k]
    requires forall i :: 0 <= i < |after| && i != k && i != b + k && i != 2 * b + k ==> after[i] == before[i]
    ensures Written(after, b, k + 1, x, y, z)
  {
  }

  method Put3(output: array<bool>, b: nat, k: nat, x: bool, y: bool, z: bool)
    requires k < b && 2 * b + k < output.Length
    modifies output
    ensures output[k] == x && output[b + k] == y && output[2 * b + k] == z
    ensures forall i :: 0 <= i < output.Length && i != k && i != b + k && i != 2 * b + k ==> output[i] == old(output[i])
  {
    output[k] := x;
    output[b + k] := y;
    output[2 * b + k] := z;
  }

  // One step of both constituent encoders.
  method EncodeStep(x: bool, cki: bool, s1: Regs, s2: Regs) returns (y: bool, z: bool, t1: Regs, t2: Regs)
    ensures y == ParityBit(s1, x) && t1 == Next(s1, x)
    ensures z == ParityBit(s2, cki) && t2 == Next(s2, cki)
  {
    var in1 := (x != s1.r1) != s1.r2;
    var in2 := (cki != s2.r1) != s2.r2;
    y := (in1 != s1.r0) != s1.r2;
    z := (in2 != s2.r0) != s2.r2;
    t1 := Regs(in1, s1.r0, s1.r1);
    t2 := Regs(in2, s2.r0, s2.r1);
  }

  method ReadPermuted(m: seq<bool>, r: TurboRow, k: nat) returns (cki: bool)
    requires |m| == r.k && k < r.k
    ensures cki == Permuted(r, m)[k]
  {
    var i := Index(r, k);
    assert i == (r.f1 * k + r.f2 * k * k) % r.k;
    cki := m[i];
  }

  method EncodeLoop(m: seq<bool>, output: array<bool>, r: TurboRow, b: nat) returns (reg1: Regs, reg2: Regs)
    requires |m| == r.k <= b && 2 * b + r.k <= output.Length
    modifies output
    ensures Written(output[..], b, r.k, m, Parities(m, r.k), Parities(Permuted(r, m), r.k))
    ensures reg1 == State(m, r.k) && reg2 == State(Permuted(r, m), r.k)
  {
    reg1, reg2 := ZERO, ZERO;
    ghost var p := Permuted(r, m);
    ghost var y, z := Parities(m, r.k), Parities(p, r.k);
    for k := 0 to r.k
      invariant Written(output[..], b, k, m, y, z)
      invariant reg1 == State(m, k) && reg2 == State(p, k)
    {
      var cki := ReadPermuted(m, r, k);
      var yk, zk;
      yk, zk, reg1, reg2 := EncodeStep(m[k], cki, reg1, reg2);
      ghost var before := output[..];
      Put3(output, b, k, m[k], yk, zk);
      WrittenStep(before, output[..], b, k, m, y, z);
    }
  }

  // Four entries written at index at.
  method Put4(output: array<bool>, at: nat, w: bool, x: bool, y: bool, z: bool)
    requires at + 4 <= output.Length
    modifies output
    ensures output[at] == w && output[at + 1] == x && output[at + 2] == y && output[at + 3] == z
    ensures forall i :: 0 <= i < output.Length && !(at <= i < at + 4) ==> output[i] == old(output[i])
  {
    output[at] := w;
    output[at + 1] := x;
    output[at + 2] := y;
    output[at + 3] := z;
  }

  // The tails after the three streams.
  method PutTails(output: array<bool>, b: nat, k: nat, t0: seq<bool>, t1: seq<bool>, t2: seq<bool>)
    requires |t0| == |t1| == |t2| == 4 && k + 4 <= b && 2 * b + k + 4 <= output.Length
    modifies output
    ensures output[..k + 4] == old(output[..k]) + t0
    ensures output[b..b + k + 4] == old(output[b..b + k]) + t1
    ensures output[2 * b..2 * b + k + 4] == old(output[2 * b..2 * b + k]) + t2
  {
    Put4(output, k, t0[0], t0[1], t0[2], t0[3]);
    Put4(output, b + k, t1[0], t1[1], t1[2], t1[3]);
    Put4(output, 2 * b + k, t2[0], t2[1], t2[2], t2[3]);
  }

  /**
   The encoder's three byte-aligned output streams, tails included, for the row that the
   block size selects.
  */
  method Encode(m: seq<bool>, output: array<bool>, r: TurboRow) returns (outlen: nat)
    requires |m| == r.k && 2 * ByteAligned(r.k + 4) + r.k + 4 <= output.Length
    modifies output
    ensures outlen == 3 * (r.k + 4)
    ensures Stream(output[..], r.k + 4, 0) == TurboStream(r, m, 0)
    ensures Stream(output[..], r.k + 4, 1) == TurboStream(r, m, 1)
    ensures Stream(output[..], r.k + 4, 2) == TurboStream(r, m, 2)
  {
    var inlenp := r.k + 4;
    var inlenB := if inlenp % 8 > 0 then (inlenp / 8 + 1) * 8 else inlenp;
    outlen := EncodeAt(m, output, r, inlenB);
  }

  method EncodeAt(m: seq<bool>, output: array<bool>, r: TurboRow, b: nat) returns (outlen: nat)
    requires |m| == r.k && r.k + 4 <= b && 2 * b + r.k + 4 <= output.Length
    modifies output
    ensures outlen == 3 * (r.k + 4)
    ensures output[..r.k + 4] == TurboStream(r, m, 0)
    ensures output[b..b + r.k + 4] == TurboStream(r, m, 1)
    ensures output[2 * b..2 * b + r.k + 4] == TurboStream(r, m, 2)
  {
    var k := r.k;
    var reg1, reg2 := EncodeLoop(m, output, r, b);
    ghost var p := Permuted(r, m);
    var x, z := Terminate(reg1, m);
    var x', z' := Terminate(reg2, p);
    assert output[..k] == m && output[b..b + k] == Parities(m, k) && output[2 * b..2 * b + k] == Parities(p, k);
    PutTails(output, b, k, [x[0], z[1], x'[0], z'[1]], [z[0], x[2], z'[0], x'[2]], [x[1], z[2], x'[1], z'[2]]);
    TailsComplete(r, m, x, z, x', z');
    outlen := 3 * (k + 4);
  }

  // The streams in terms of the bits that the loop of the tails leaves.
  lemma TailsComplete(r: TurboRow, m: seq<bool>, x: seq<bool>, z: seq<bool>, x': seq<bool>, z': seq<bool>)
    requires |m| == r.k && Tails(m, x, z) && Tails(Permuted(r, m), x', z')
    ensures TurboStream(r, m, 0) == m + [x[0], z[1], x'[0], z'[1]]
    ensures TurboStream(r, m, 1) == Parities(m, r.k) + [z[0], x[2], z'[0], x'[2]]
    ensures TurboStream(r, m, 2) == Parities(Permuted(r, m), r.k) + [x[1], z[2], x'[1], z'[2]]
  {
    hide State, Terminated, Parities, Parity, Permuted;
    var e, f := Terminated(m, 3), Terminated(Permuted(r, m), 3);
    TailsAt(m, x, z);
    TailsAt(Permuted(r, m), x', z');
    hide Tails;
    assert e[r.k] == x[0] && f[r.k] == x'[0];
  }

  lemma TailsAt(m: seq<bool>, x: seq<bool>, z: seq<bool>)
    requires Tails(m, x, z)
    ensures var e, k := Terminated(m, 3), |m|;
            && e[k] == x[0] && e[k + 1] == x[1] && e[k + 2] == x[2]
            && Parity(e, k) == z[0] && Parity(e, k + 1) == z[1] && Parity(e, k + 2) == z[2]
  {
    hide State, Terminated, Parity;
  }
}
