/**
 Rate matching for turbo coded channels, section 5.1.4.1 of 3GPP TS 36.212: three
 interleaved streams form a circular buffer from which bits are selected, starting
 at an offset fixed by the redundancy version and skipping NULLs.
*/
module RateMatch {
  import opened ModArith
  import opened Options
  import opened SubBlock

  // ------------------------------------------------------------ the circular buffer

  // The first part unchanged, then the other two entry by entry.
  function Weave<T>(a: seq<Option<T>>, b: seq<Option<T>>, c: seq<Option<T>>): (w: seq<Option<T>>)
    requires |a| == |b| == |c|
    ensures |w| == 3 * |a|
  {
    var n := |a|;
    seq(3 * n, i requires 0 <= i < 3 * n =>
      if i < n then a[i] else if (i - n) % 2 == 0 then b[(i - n) / 2] else c[(i - n - 1) / 2])
  }

  function CircularBuffer<T>(cols: Columns, a: seq<T>, b: seq<T>, c: seq<T>): (w: seq<Option<T>>)
    requires |a| == |b| == |c|
    ensures |w| == 3 * Size(|a|)
  {
    Weave(Interleaved(a, cols, 0), Interleaved(b, cols, 0), Interleaved(c, cols, 1))
  }

  /** The circular buffer: the first stream, then the other two by turns; only the third is shifted. */
  lemma BufferAt<T>(cols: Columns, a: seq<T>, b: seq<T>, c: seq<T>, i: nat)
    requires |a| == |b| == |c| && i < Size(|a|)
    ensures var w, n := CircularBuffer(cols, a, b, c), Size(|a|);
            && w[i] == Interleaved(a, cols, 0)[i] && w[n + 2 * i] == Interleaved(b, cols, 0)[i]
            && w[n + 2 * i + 1] == Interleaved(c, cols, 1)[i]
  {
    hide Interleaved;
    assert (2 * i + 1 - 1) / 2 == i;
  }

  lemma {:induction false} WeaveRankFirst<T>(a: seq<Option<T>>, b: seq<Option<T>>, c: seq<Option<T>>, t: nat)
    requires |a| == |b| == |c| && t <= |a|
    ensures Rank(Weave(a, b, c), t) == Rank(a, t)
  {
    if t > 0 {
      WeaveRankFirst(a, b, c, t - 1);
    }
  }

  lemma {:induction false} WeaveRank<T>(a: seq<Option<T>>, b: seq<Option<T>>, c: seq<Option<T>>, t: nat)
    requires |a| == |b| == |c| && t <= |a|
    ensures Rank(Weave(a, b, c), |a| + 2 * t) == Rank(a, |a|) + Rank(b, t) + Rank(c, t)
  {
    var w := Weave(a, b, c);
    if t == 0 {
      WeaveRankFirst(a, b, c, |a|);
    } else {
      WeaveRank(a, b, c, t - 1);
      var i := |a| + 2 * t;
      assert w[i - 1] == c[t - 1] && w[i - 2] == b[t - 1];
      assert Rank(w, i) == Rank(w, i - 1) + (if w[i - 1].Some? then 1 else 0);
      assert Rank(w, i - 1) == Rank(w, i - 2) + (if w[i - 2].Some? then 1 else 0);
    }
  }

  /** Each lap of the circular buffer holds exactly 3D entries that are not NULL. */
  lemma LapCount<T>(cols: Columns, a: seq<T>, b: seq<T>, c: seq<T>)
    requires |a| == |b| == |c|
    ensures Rank(CircularBuffer(cols, a, b, c), 3 * Size(|a|)) == 3 * |a|
  {
    InterleavedRank(a, cols, 0);
    InterleavedRank(b, cols, 0);
    InterleavedRank(c, cols, 1);
    WeaveRank(Interleaved(a, cols, 0), Interleaved(b, cols, 0), Interleaved(c, cols, 1), Size(|a|));
  }

  // ------------------------------------------------------------ bit selection

  // len values taken in circular order from the non-NULL entries, from index k0 on.
  function BitSelection<T>(w: seq<Option<T>>, k0: nat, len: nat): (e: seq<T>)
    requires k0 <= |w| && 0 < Rank(w, |w|)
    ensures |e| == len
  {
    if len == 0 then [] else BitSelection(w, k0, len - 1) + [SelectedValue(w, k0, len - 1)]
  }

  lemma {:induction false} BitSelectionAt<T>(w: seq<Option<T>>, k0: nat, len: nat, n: nat)
    requires k0 <= |w| && 0 < Rank(w, |w|) && n < len
    ensures BitSelection(w, k0, len)[n] == SelectedValue(w, k0, n) == Picked(w, |w|)[(Rank(w, k0) + n) % Rank(w, |w|)]
  {
    if n < len - 1 {
      BitSelectionAt(w, k0, len - 1, n);
    }
  }

  function SelectedValue<T>(w: seq<Option<T>>, k0: nat, n: nat): T
    requires k0 <= |w| && 0 < Rank(w, |w|)
  {
    Picked(w, |w|)[(Rank(w, k0) + n) % Rank(w, |w|)]
  }

  // The number of non-NULL entries before position p of the buffer repeated for ever.
  ghost function LapRank<T>(w: seq<Option<T>>, p: nat): nat
    requires 0 < |w|
  {
    if p == 0 then 0 else LapRank(w, p - 1) + (if w[(p - 1) % |w|].Some? then 1 else 0)
  }

  lemma {:induction false} LapRankClosed<T>(w: seq<Option<T>>, q: nat, i: nat)
    requires 0 < |w| && i <= |w|
    ensures LapRank(w, q * |w| + i) == q * Rank(w, |w|) + Rank(w, i)
    decreases q, i
  {
    if 0 < i {
      LapRankClosed(w, q, i - 1);
      DivModUnique(q, |w|, i - 1);
      assert q * |w| + i - 1 == q * |w| + (i - 1);
    } else if 0 < q {
      LapRankClosed(w, q - 1, |w|);
      assert (q - 1) * |w| + |w| == q * |w|;
      assert (q - 1) * Rank(w, |w|) + Rank(w, |w|) == q * Rank(w, |w|);
    }
  }

  lemma LapRankAt<T>(w: seq<Option<T>>, p: nat)
    requires 0 < |w|
    ensures LapRank(w, p) == p / |w| * Rank(w, |w|) + Rank(w, p % |w|)
  {
    DivMod(p, |w|);
    LapRankClosed(w, p / |w|, p % |w|);
  }

  // The value met at position p, when n values have been selected from k0 on.
  lemma SelectionStep<T>(w: seq<Option<T>>, k0: nat, n: nat, p: nat)
    requires 0 < |w| && w[p % |w|].Some?
    requires LapRank(w, p) == LapRank(w, k0) + n
    ensures 0 < Rank(w, |w|)
    ensures SelectedValue(w, k0 % |w|, n) == w[p % |w|].value
  {
    LapRankAt(w, p);
    LapRankAt(w, k0);
    PickedAt(w, p % |w|, |w|);
    SameResidue(Rank(w, k0 % |w|) + n, p / |w|, k0 / |w|, Rank(w, p % |w|), Rank(w, |w|));
  }

  // The loop cannot run for ever: fewer than m values are met only in the first m laps.
  lemma LapRankBound<T>(w: seq<Option<T>>, p: nat, m: nat)
    requires 0 < |w| && 0 < Rank(w, |w|) && LapRank(w, p) < m
    ensures p < m * |w|
  {
    hide LapRank, Rank;
    LapRankAt(w, p);
    FactorBelow(p / |w|, Rank(w, |w|), Rank(w, p % |w|), m);
    QuotientBelow(p, |w|, m);
  }

  // The positions that selecting m values cannot pass, lap by lap.
  ghost function LoopLimit(n: nat, m: nat): nat {
    if m == 0 then 0 else LoopLimit(n, m - 1) + n
  }

  lemma {:induction false} LoopLimitClosed(n: nat, m: nat)
    ensures LoopLimit(n, m) == m * n
  {
    if m > 0 {
      LoopLimitClosed(n, m - 1);
      assert m * n == (m - 1) * n + n;
    }
  }

  // What one iteration of the selection loop at position p needs, with k values selected.
  lemma IterationFacts<T>(w: seq<Option<T>>, k0: nat, outlen: nat, k: nat, p: nat)
    requires 0 < |w| && 0 < Rank(w, |w|) && k < outlen
    requires LapRank(w, p) == LapRank(w, k0) + k
    ensures 0 <= p % |w| < |w| && p < LoopLimit(|w|, LapRank(w, k0) + outlen)
    ensures w[p % |w|].Some? ==> BitSelection(w, k0 % |w|, outlen)[k] == w[p % |w|].value
    ensures LapRank(w, p + 1) == LapRank(w, p) + (if w[p % |w|].Some? then 1 else 0)
  {
    DivMod(p, |w|);
    LapRankBound(w, p, LapRank(w, k0) + outlen);
    LoopLimitClosed(|w|, LapRank(w, k0) + outlen);
    if w[p % |w|].Some? {
      SelectionStep(w, k0, k, p);
      BitSelectionAt(w, k0 % |w|, outlen, k);
    }
  }

  // At most the NULLs of each started lap are skipped.
  lemma SkippedBound<T>(w: seq<Option<T>>, p: nat)
    requires 0 < |w|
    ensures LapRank(w, p) <= p <= LapRank(w, p) + (p / |w| + 1) * (|w| - Rank(w, |w|))
  {
    DivMod(p, |w|);
    LapRankAt(w, p);
    RankMonotone(w, 0, p % |w|);
    RankMonotone(w, p % |w|, |w|);
    SkippedInLaps(p / |w|, |w|, Rank(w, |w|), p % |w|, Rank(w, p % |w|));
  }

  lemma SkippedInLaps(q: nat, n: nat, t: nat, i: nat, x: nat)
    requires x <= i && x <= t <= x + (n - i) && i <= n
    ensures q * t + x <= q * n + i <= q * t + x + (q + 1) * (n - t)
  {
    assert q * n == q * t + q * (n - t);
    assert (q + 1) * (n - t) == q * (n - t) + (n - t);
    MulMono(0, n - t, q);
  }

  /**
   The 16-bit position counter of the selection loop never wraps: for the streams of every turbo
   block and any output the buffers can hold, k0 + j < 2^15 as long as the loop has not selected
   more than 16800 bits.
  */
  lemma CounterFitsInt16<T>(w: seq<Option<T>>, d: nat, rv: nat, n: nat, p: nat)
    requires 44 <= d <= 6148 && |w| == 3 * Size(d) && Rank(w, |w|) == 3 * d && rv < 4 && n <= 16800
    requires LapRank(w, p) == LapRank(w, StartIndex(Rows(d), rv)) + n
    ensures p < 0x8000
  {
    StartIndexValue(Rows(d), rv);
    CounterFrom(w, d, StartIndex(Rows(d), rv), n, p);
  }

  lemma CounterFrom<T>(w: seq<Option<T>>, d: nat, k0: nat, n: nat, p: nat)
    requires 44 <= d <= 6148 && |w| == 3 * Size(d) && Rank(w, |w|) == 3 * d && n <= 16800
    requires k0 <= 74 * Rows(d) && k0 < |w|
    requires LapRank(w, p) == LapRank(w, k0) + n
    ensures p < 0x8000
  {
    DivMod(p, |w|);
    LapRankAt(w, p);
    SkippedBound(w, p);
    LapRankBelowLap(w, k0);
    CounterBound(p / |w|, d, Rank(w, |w|), |w| - Rank(w, |w|), Rank(w, p % |w|), LapRank(w, k0), n, p);
  }

  lemma LapRankBelowLap<T>(w: seq<Option<T>>, k: nat)
    requires 0 < |w| && k < |w|
    ensures LapRank(w, k) <= Rank(w, |w|) && LapRank(w, k) <= k
  {
    ModSmall(k, |w|);
    LapRankAt(w, k);
    RankMonotone(w, 0, k);
    RankMonotone(w, k, |w|);
  }

  lemma CounterBound(q: nat, d: nat, t: nat, z: nat, x: nat, r0: nat, n: nat, p: nat)
    requires 44 <= d <= 6148 && n <= 16800 && t == 3 * d && z == 3 * Padding(d)
    requires r0 <= t && r0 <= Rows(d) * 74
    requires q * t + x == r0 + n
    requires p <= r0 + n + (q + 1) * z
    ensures p < 0x8000
  {
    LapsBound(q, d, x);
    MulMono(z, 93, q + 1);
  }

  lemma LapsBound(q: nat, d: nat, x: nat)
    requires 44 <= d && q * (3 * d) + x <= 3 * d + 16800
    ensures q <= 128 && (1000 < d ==> q <= 6)
  {
    if 0 < q {
      assert q * (3 * d) == (q - 1) * (3 * d) + 3 * d;
      MulMono(132, 3 * d, q - 1);
      if 1000 < d {
        MulMono(3003, 3 * d, q - 1);
      }
    }
  }

  lemma SameResidue(a: int, q: int, q0: int, x: int, t: int)
    requires 0 <= x < t && q0 * t + a == q * t + x
    ensures a % t == x
  {
    assert (q - q0) * t == q * t - q0 * t;
    DivModUnique(q - q0, t, x);
  }

  // The start of the selection for r rows and redundancy version rv.
  function StartIndex(r: nat, rv: nat): nat
    requires 0 < r
  {
    var ncb := 3 * (CC * r);
    r * (2 * CeilDiv(ncb, 8 * r) * rv + 2)
  }

  function CeilDiv(a: nat, b: nat): nat
    requires 0 < b
  {
    (a + b - 1) / b
  }

  // With the full buffer as Ncb, section 5.1.4.1.2 gives k0 = R * (24 * rv + 2).
  lemma StartIndexValue(r: nat, rv: nat)
    requires 0 < r
    ensures StartIndex(r, rv) == r * (24 * rv + 2)
    ensures rv < 4 ==> StartIndex(r, rv) <= 74 * r < 3 * (CC * r)
  {
    DivModUnique(12, 8 * r, 8 * r - 1);
    assert 3 * (CC * r) + 8 * r - 1 == 12 * (8 * r) + (8 * r - 1);
    assert CeilDiv(3 * (CC * r), 8 * r) == 12;
    assert rv < 4 ==> r * (24 * rv + 2) <= r * 74;
  }

  // The selection that a buffer for streams of length d yields under redundancy version rv.
  function RateMatched<T>(w: seq<Option<T>>, d: nat, rv: nat, len: nat): (e: seq<T>)
    requires 0 < d && |w| == 3 * Size(d) && 0 < Rank(w, |w|)
    ensures |e| == len
  {
    BitSelection(w, StartIndex(Rows(d), rv) % |w|, len)
  }

  /** Output n is value n of those that are not NULL, counted cyclically from index R(24 rv + 2), where R is the number of rows. */
  lemma RateMatchedAt<T>(w: seq<Option<T>>, d: nat, rv: nat, len: nat, n: nat)
    requires 0 < d && rv < 4 && |w| == 3 * Size(d) && 0 < Rank(w, |w|) && n < len
    ensures var k0 := (d + 31) / 32 * (24 * rv + 2);
            k0 < |w| && RateMatched(w, d, rv, len)[n] == Picked(w, |w|)[(Rank(w, k0) + n) % Rank(w, |w|)]
  {
    StartIndexValue(Rows(d), rv);
    ModSmall(StartIndex(Rows(d), rv), |w|);
    BitSelectionAt(w, StartIndex(Rows(d), rv), len, n);
    hide BitSelection, Picked, Rank;
  }

  // ------------------------------------------------------------ the loops of interleave.zir

  // How the source stores an entry: -1 for NULL.
  function AsInt(v: Option<bool>): int {
    match v
    case None => -1
    case Some(b) => if b then 1 else 0
  }

  lemma StoredValues()
    ensures AsInt(None) == -1 && AsInt(Some(false)) == 0 && AsInt(Some(true)) == 1
  {
  }

  // The first n entries of w are stored in a from index at on.
  ghost predicate Stored(a: array<int>, at: nat, w: seq<Option<bool>>, n: nat)
    requires n <= |w| && at + n <= a.Length
    reads a
  {
    forall i {:trigger w[i]} :: 0 <= i < n ==> a[at + i] == AsInt(w[i])
  }

  method Interleave(input: array<bool>, len: nat, output: array<int>, cols: Columns, delta: nat) returns (kpi: nat)
    requires len <= input.Length && Size(len) <= output.Length
    modifies output
    ensures kpi == Size(len)
    ensures Stored(output, 0, Interleaved(input[..len], cols, delta), kpi)
    ensures forall k :: kpi <= k < output.Length ==> output[k] == old(output[k])
  {
    kpi := Size(len);
    for k := 0 to kpi
      invariant Stored(output, 0, Interleaved(input[..len], cols, delta), k)
      invariant forall i :: k <= i < output.Length ==> output[i] == old(output[i])
    {
      InterleavedAt(input[..len], cols, delta, k);
      var pik := Source(cols, len, delta, k);
      output[k] := if pik < kpi - len then -1 else if input[pik - (kpi - len)] then 1 else 0;
    }
  }

  // The three entries that one iteration of the fused loop writes.
  method FusedEntries(input: array<bool>, offset: nat, len: nat, cols: Columns, k: nat) returns (x: int, y: int, z: int)
    requires 2 * offset + len <= input.Length && k < Size(len)
    ensures x == AsInt(Interleaved(input[..len], cols, 0)[k])
    ensures y == AsInt(Interleaved(input[offset..offset + len], cols, 0)[k])
    ensures z == AsInt(Interleaved(input[2 * offset..2 * offset + len], cols, 1)[k])
  {
    var kpi := Size(len);
    InterleavedAt(input[..len], cols, 0, k);
    InterleavedAt(input[offset..offset + len], cols, 0, k);
    InterleavedAt(input[2 * offset..2 * offset + len], cols, 1, k);
    var pik := Source(cols, len, 0, k);
    var pik1 := Source(cols, len, 1, k);
    if pik < kpi - len {
      x := -1;
      y := -1;
    } else {
      x := if input[pik - (kpi - len)] then 1 else 0;
      y := if input[pik - (kpi - len) + offset] then 1 else 0;
    }
    z := if pik1 < kpi - len then -1 else if input[pik1 - (kpi - len) + 2 * offset] then 1 else 0;
  }

  method WriteFused(output: array<int>, k: nat, kpi: nat, x: int, y: int, z: int)
    requires k < kpi && 3 * kpi <= output.Length
    modifies output
    ensures output[k] == x && output[k + kpi] == y && output[k + 2 * kpi] == z
    ensures forall i :: 0 <= i < output.Length && i != k && i != k + kpi && i != k + 2 * kpi ==>
              output[i] == old(output[i])
  {
    output[k] := x;
    output[k + kpi] := y;
    output[k + 2 * kpi] := z;
  }

  /**
   The three interleavers fused in one loop leave exactly what three calls of Interleave
   at consecutive output offsets leave.
  */
  method Interleave3(input: array<bool>, offset: nat, len: nat, output: array<int>, cols: Columns) returns (kpi: nat)
    requires 2 * offset + len <= input.Length && 3 * Size(len) <= output.Length
    modifies output
    ensures kpi == Size(len)
    ensures Stored(output, 0, Interleaved(input[..len], cols, 0), kpi)
    ensures Stored(output, kpi, Interleaved(input[offset..offset + len], cols, 0), kpi)
    ensures Stored(output, 2 * kpi, Interleaved(input[2 * offset..2 * offset + len], cols, 1), kpi)
    ensures forall k :: 3 * kpi <= k < output.Length ==> output[k] == old(output[k])
  {
    kpi := Size(len);
    ghost var first := Interleaved(input[..len], cols, 0);
    ghost var second := Interleaved(input[offset..offset + len], cols, 0);
    ghost var third := Interleaved(input[2 * offset..2 * offset + len], cols, 1);
    for k := 0 to kpi
      invariant Stored(output, 0, first, k)
      invariant Stored(output, kpi, second, k)
      invariant Stored(output, 2 * kpi, third, k)
      invariant forall i :: 3 * kpi <= i < output.Length ==> output[i] == old(output[i])
    {
      var x, y, z := FusedEntries(input, offset, len, cols, k);
      WriteFused(output, k, kpi, x, y, z);
    }
  }

  // ------------------------------------------------------------ rateMatchTurbo

  // Stream q of three, each d bits long, starting at multiples of the aligned length.
  function Stream<T>(input: seq<T>, d: nat, q: nat): (s: seq<T>)
    requires q < 3 && 2 * ByteAligned(d) + d <= |input|
    ensures |s| == d
  {
    input[q * ByteAligned(d)..q * ByteAligned(d) + d]
  }

  function TurboBuffer<T>(input: seq<T>, d: nat): (w: seq<Option<T>>)
    requires 2 * ByteAligned(d) + d <= |input|
    ensures |w| == 3 * Size(d)
  {
    CircularBuffer(ColumnsOf(Turbo), Stream(input, d, 0), Stream(input, d, 1), Stream(input, d, 2))
  }

  /** The three streams start at multiples of their length, rounded up to whole bytes. */
  lemma StreamsAligned<T>(input: seq<T>, d: nat, b: nat)
    requires b % 8 == 0 && d <= b < d + 8 && 2 * b + d <= |input|
    ensures b == ByteAligned(d)
    ensures TurboBuffer(input, d) == CircularBuffer(ColumnsOf(Turbo), input[..d], input[b..b + d], input[2 * b..2 * b + d])
  {
    hide CircularBuffer;
    assert Stream(input, d, 0) == input[..d];
  }

  // Where entry i of the circular buffer is stored.
  function Slot(len1: nat, i: nat): (s: nat)
    ensures i < 3 * len1 ==> s < 3 * len1
  {
    if i < len1 then i else if (i - len1) % 2 == 0 then len1 + (i - len1) / 2 else 2 * len1 + (i - len1 - 1) / 2
  }

  lemma BufferStored(a: array<int>, len1: nat, x: seq<Option<bool>>, y: seq<Option<bool>>, z: seq<Option<bool>>)
    requires |x| == |y| == |z| == len1 && 3 * len1 <= a.Length
    requires Stored(a, 0, x, len1) && Stored(a, len1, y, len1) && Stored(a, 2 * len1, z, len1)
    ensures forall i :: 0 <= i < 3 * len1 ==> a[Slot(len1, i)] == AsInt(Weave(x, y, z)[i])
  {
  }

  /**
   The selection loop ends for every outlen, and its n-th output is the n-th non-NULL
   entry of the circular buffer counted from the start index.
  */
  method SelectBits(outint: array<int>, len1: nat, k0: nat, output: array<bool>, outlen: nat, ghost w: seq<Option<bool>>)
    returns (j: nat)
    requires 0 < len1 && |w| == 3 * len1 && 3 * len1 <= outint.Length && 0 < Rank(w, |w|)
    requires forall i :: 0 <= i < |w| ==> outint[Slot(len1, i)] == AsInt(w[i])
    requires outlen <= output.Length
    modifies output
    ensures output[..outlen] == BitSelection(w, k0 % |w|, outlen)
    ensures LapRank(w, k0 + j) == LapRank(w, k0) + outlen
    ensures forall i :: outlen <= i < output.Length ==> output[i] == old(output[i])
  {
    hide LapRank, BitSelection, Rank, LoopLimit;
    var ncb := 3 * len1;
    ghost var limit: int := LoopLimit(|w|, LapRank(w, k0) + outlen);
    ghost var goal := BitSelection(w, k0 % |w|, outlen);
    var k := 0;
    j := 0;
    ghost var p, base := k0, LapRank(w, k0);
    while k < outlen
      invariant k <= outlen && p == k0 + j
      invariant LapRank(w, p) == base + k
      invariant forall n :: 0 <= n < k ==> output[n] == goal[n]
      invariant forall i :: outlen <= i < output.Length ==> output[i] == old(output[i])
      decreases limit - p
    {
      IterationFacts(w, k0, outlen, k, p);
      var ind := (k0 + j) % ncb;
      var val := outint[Slot(len1, ind)];
      assert val == AsInt(w[ind]);
      if val != -1 {
        output[k] := val == 1;
        k := k + 1;
      }
      j, p := j + 1, p + 1;
    }
  }

  method RateMatchTurbo(input: array<bool>, inlen: nat, output: array<bool>, outlen: nat, rv: nat)
    requires 3 <= inlen && 2 * ByteAligned(inlen / 3) + inlen / 3 <= input.Length
    requires outlen <= output.Length
    modifies output
    ensures 0 < Rank(TurboBuffer(old(input[..]), inlen / 3), 3 * Size(inlen / 3))
    ensures output[..outlen] == RateMatched(TurboBuffer(old(input[..]), inlen / 3), inlen / 3, rv, outlen)
    ensures forall i :: outlen <= i < output.Length ==> output[i] == old(output[i])
  {
    var datalen := inlen / 3;
    var datalenB := if datalen % 8 > 0 then (datalen / 8 + 1) * 8 else datalen;
    ghost var cols := ColumnsOf(Turbo);
    ghost var s0, s1, s2 := Stream(input[..], datalen, 0), Stream(input[..], datalen, 1), Stream(input[..], datalen, 2);
    assert s0 == input[..datalen] && s1 == input[datalenB..datalenB + datalen]
        && s2 == input[2 * datalenB..2 * datalenB + datalen];
    var outint := new int[3 * Size(datalen)];
    var len1 := Interleave3(input, datalenB, datalen, outint, ColumnsOf(Turbo));
    BufferStored(outint, len1, Interleaved(s0, cols, 0), Interleaved(s1, cols, 0), Interleaved(s2, cols, 1));
    var r := len1 / CC;
    assert r == Rows(datalen);
    var k0 := StartIndex(r, rv);
    ghost var w := CircularBuffer(cols, s0, s1, s2);
    LapCount(cols, s0, s1, s2);
    var j := SelectBits(outint, len1, k0, output, outlen, w);
  }
}
