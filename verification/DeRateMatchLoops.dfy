/** The loops of derateMatchTurbo.zir, proved against module DeRateMatch. */
module DeRateMatchLoops {
  import opened ModArith
  import opened Options
  import opened SubBlock
  import opened RateMatch
  import opened DeRateMatch

  // How the receiver stores a buffer entry.
  function Mark(v: Option<nat>): int {
    match v
    case None => PUNCTURE
    case Some(i) => i
  }

  // Section q of a holds the marks of w.
  ghost predicate HoldsMarks(a: array<int>, q: nat, w: seq<Option<nat>>, n: nat)
    requires q < 3 && a.Length == 3 * |w| && n <= |w|
    reads a
  {
    forall k :: 0 <= k < n ==> a[BufferIndex(|w|, q, k)] == Mark(w[k])
  }

  /** The positions of stream q, interleaved into section q of the buffer; the other sections stay. */
  method DrmInterleave(len: nat, output: array<int>, cols: Columns, q: nat) returns (kpi: nat)
    requires q < 3 && output.Length == 3 * Size(len)
    modifies output
    ensures kpi == Size(len)
    ensures HoldsMarks(output, q, Interleaved(Positions(len), cols, Delta(q)), kpi)
    ensures forall p, k :: 0 <= p < 3 && p != q && 0 <= k < kpi ==>
              output[BufferIndex(kpi, p, k)] == old(output[BufferIndex(kpi, p, k)])
  {
    kpi := Size(len);
    ghost var w := Interleaved(Positions(len), cols, Delta(q));
    for k := 0 to kpi
      invariant HoldsMarks(output, q, w, k)
      invariant forall p, j :: 0 <= p < 3 && p != q && 0 <= j < kpi ==>
                  output[BufferIndex(kpi, p, j)] == old(output[BufferIndex(kpi, p, j)])
    {
      InterleavedAt(Positions(len), cols, Delta(q), k);
      var pik := Source(cols, len, Delta(q), k);
      var ind := BufferIndex(kpi, q, k);
      output[ind] := if pik < kpi - len then PUNCTURE else pik - (kpi - len);
    }
  }

  // ------------------------------------------------------------ deinterleaving

  // Section q of the filled buffer, in matrix order.
  ghost function Restored(a: seq<int>, q: nat, cols: Columns, n: nat): (s: seq<int>)
    requires q < 3 && n % CC == 0 && |a| == 3 * n
    ensures |s| == n
  {
    seq(n, m requires 0 <= m < n => a[BufferIndex(n, q, Dest(cols, n, Delta(q), m))])
  }

  // Position k comes before row i, column j when the matrix is walked row by row.
  ghost predicate Done(r: nat, k: nat, i: nat, j: nat)
    requires 0 < r
  {
    k % r < i || (k % r == i && k / r < j)
  }

  lemma DoneStep(r: nat, k: nat, i: nat, j: nat)
    requires i < r
    ensures Done(r, k, i, j + 1) <==> Done(r, k, i, j) || k == i + j * r
  {
    DivModUnique(j, r, i);
    DivMod(k, r);
  }

  lemma DoneRow(r: nat, k: nat, i: nat)
    requires 0 < r && k < CC * r
    ensures Done(r, k, i, CC) <==> Done(r, k, i + 1, 0)
  {
    DivBound(k, CC, r);
  }

  // The nested loop writes entry (i, j) where the interleaver reads position i + j * r.
  lemma WriteIndex(cols: Columns, len: nat, delta: nat, i: nat, j: nat)
    requires len % CC == 0 && i < len / CC && j < CC
    ensures var k := i + j * (len / CC);
            && k < Size(len)
            && Source(cols, len, delta, k) == (i * 32 + cols.p[j] + delta) % len
            && forall m :: 0 <= m < len ==> (Dest(cols, len, delta, m) == k <==> m == Source(cols, len, delta, k))
  {
    var r := len / CC;
    var k := i + j * r;
    MulMono(j, CC - 1, r);
    DivModUnique(j, r, i);
    DestOfSource(cols, len, delta, k);
  }

  // Entries of out that the walk has reached hold their final value.
  ghost predicate Filled(out: seq<int>, goal: seq<int>, cols: Columns, delta: nat, i: nat, j: nat)
    requires |out| == |goal| && |goal| % CC == 0
  {
    forall m :: 0 <= m < |goal| && Done(|goal| / CC, Dest(cols, |goal|, delta, m), i, j) ==> out[m] == goal[m]
  }

  lemma FilledStep(out: seq<int>, goal: seq<int>, cols: Columns, delta: nat, i: nat, j: nat)
    requires |out| == |goal| && |goal| % CC == 0 && i < |goal| / CC && j < CC
    requires Filled(out, goal, cols, delta, i, j)
    ensures var m := (i * 32 + cols.p[j] + delta) % |goal|;
            && Dest(cols, |goal|, delta, m) == i + j * (|goal| / CC)
            && Filled(out[m := goal[m]], goal, cols, delta, i, j + 1)
  {
    var len, r := |goal|, |goal| / CC;
    WriteIndex(cols, len, delta, i, j);
    forall m | 0 <= m < len
      ensures Done(r, Dest(cols, len, delta, m), i, j + 1) <==>
              Done(r, Dest(cols, len, delta, m), i, j) || m == Source(cols, len, delta, i + j * r)
    {
      DoneStep(r, Dest(cols, len, delta, m), i, j);
    }
  }

  lemma FilledRow(out: seq<int>, goal: seq<int>, cols: Columns, delta: nat, i: nat)
    requires |out| == |goal| && |goal| % CC == 0 && i < |goal| / CC
    requires Filled(out, goal, cols, delta, i, CC)
    ensures Filled(out, goal, cols, delta, i + 1, 0)
  {
    forall m | 0 <= m < |goal|
      ensures Done(|goal| / CC, Dest(cols, |goal|, delta, m), i + 1, 0) ==>
              Done(|goal| / CC, Dest(cols, |goal|, delta, m), i, CC)
    {
      DoneRow(|goal| / CC, Dest(cols, |goal|, delta, m), i);
    }
  }

  /** Fills out with section q of the buffer in matrix order. */
  method Gather(input: seq<int>, q: nat, out: array<int>, len: nat, cols: Columns)
    requires q < 3 && len % CC == 0 && out.Length == len && |input| == 3 * len
    modifies out
    ensures out[..] == Restored(input, q, cols, len)
  {
    var r := len / CC;
    ghost var goal := Restored(input, q, cols, len);
    for i := 0 to r
      invariant Filled(out[..], goal, cols, Delta(q), i, 0)
    {
      for j := 0 to CC
        invariant Filled(out[..], goal, cols, Delta(q), i, j)
      {
        ghost var before := out[..];
        FilledStep(out[..], goal, cols, Delta(q), i, j);
        var dst := (i * 32 + cols.p[j] + Delta(q)) % len;
        out[dst] := input[BufferIndex(len, q, i + j * r)];
        assert out[..] == before[dst := goal[dst]];
      }
      FilledRow(out[..], goal, cols, Delta(q), i);
    }
  }

  lemma {:induction false} KeepAfterMarkers(g: seq<int>, p: nat, s: seq<int>, n: nat)
    requires |g| == p + |s| && n <= |s|
    requires forall m :: 0 <= m < |g| ==> g[m] == if m < p then PUNCTURE else s[m - p]
    ensures KeepTo(g, p + n) == KeepTo(s, n)
  {
    if n == 0 {
      KeepMarkers(g, p);
    } else {
      KeepAfterMarkers(g, p, s, n - 1);
      assert g[p + n - 1] == s[n - 1];
    }
  }

  lemma {:induction false} KeepMarkers(g: seq<int>, n: nat)
    requires n <= |g| && forall m :: 0 <= m < n ==> g[m] == PUNCTURE
    ensures KeepTo(g, n) == []
  {
    if n > 0 {
      KeepMarkers(g, n - 1);
    }
  }

  lemma {:induction false} KeepToMonotone(s: seq<int>, i: nat, n: nat)
    requires i <= n <= |s|
    ensures |KeepTo(s, i)| <= |KeepTo(s, n)|
  {
    if i < n {
      KeepToMonotone(s, i, n - 1);
    }
  }

  /** Copies the values that are not markers to output, from index outBase on. */
  method Compact(out: array<int>, output: array<int>, outBase: nat) returns (cnt: nat)
    requires out != output && outBase + |Keep(out[..])| <= output.Length
    modifies output
    ensures cnt == |Keep(out[..])|
    ensures output[outBase..outBase + cnt] == Keep(out[..])
    ensures forall i :: 0 <= i < output.Length && !(outBase <= i < outBase + cnt) ==> output[i] == old(output[i])
  {
    cnt := 0;
    ghost var s := out[..];
    for i := 0 to out.Length
      invariant cnt == |KeepTo(s, i)| && outBase + cnt <= output.Length
      invariant out[..] == s
      invariant output[outBase..outBase + cnt] == KeepTo(s, i)
      invariant forall j :: 0 <= j < output.Length && !(outBase <= j < outBase + cnt) ==> output[j] == old(output[j])
    {
      KeepToMonotone(s, i + 1, |s|);
      if out[i] != PUNCTURE {
        output[outBase + cnt] := out[i];
        cnt := cnt + 1;
      }
    }
  }

  /** Section q of the buffer, deinterleaved and compacted, lands in output from index outBase on. */
  method DrmDeinterleave(input: seq<int>, q: nat, output: array<int>, outBase: nat, len: nat, cols: Columns, ghost kept: seq<int>)
    returns (cnt: nat)
    requires q < 3 && len % CC == 0 && |input| == 3 * len
    requires kept == Keep(Restored(input, q, cols, len)) && outBase + |kept| <= output.Length
    modifies output
    ensures cnt == |kept| && output[outBase..outBase + cnt] == kept
    ensures forall i :: 0 <= i < output.Length && !(outBase <= i < outBase + cnt) ==> output[i] == old(output[i])
  {
    var out := new int[len];
    Gather(input, q, out, len, cols);
    cnt := Compact(out, output, outBase);
  }

  // ------------------------------------------------------------ derateMatchTurbo

  lemma DestOfSize(cols: Columns, d: nat, delta: nat, m: nat)
    requires m < Size(d)
    ensures Size(Size(d)) == Size(d)
    ensures Dest(cols, Size(d), delta, m) == Dest(cols, d, delta, m)
  {
    assert Rows(Size(d)) == Rows(d);
    DestOfSource(cols, d, delta, Dest(cols, Size(d), delta, m));
  }

  // The marker sits at the NULL entries of b.
  ghost predicate NullsMarked(cols: Columns, d: nat, b: seq<int>)
    requires |b| == 3 * Size(d)
  {
    forall i {:trigger Mask(cols, d)[i]} :: 0 <= i < |b| && Mask(cols, d)[i].None? ==> b[i] == PUNCTURE
  }

  // Entry m of the matrix for stream q sits at a buffer entry that is NULL exactly for padding.
  lemma MaskEntry(cols: Columns, d: nat, q: nat, m: nat)
    requires q < 3 && m < Size(d)
    ensures Mask(cols, d)[BufferIndex(Size(d), q, Dest(cols, d, Delta(q), m))].None? <==> m < Padding(d)
  {
    var p, k := Positions(d), Dest(cols, d, Delta(q), m);
    InterleavedAt(p, cols, Delta(q), k);
    WeaveAt(Interleaved(p, cols, 0), Interleaved(p, cols, 0), Interleaved(p, cols, 1), q, k);
  }

  lemma RestoredEntry(cols: Columns, d: nat, q: nat, b: seq<int>, m: nat)
    requires q < 3 && m < Size(d) && |b| == 3 * Size(d) && NullsMarked(cols, d, b)
    ensures Restored(b, q, cols, Size(d))[m] == if m < Padding(d) then PUNCTURE else BufferStream(cols, b, d, q)[m - Padding(d)]
  {
    DestOfSize(cols, d, Delta(q), m);
    MaskEntry(cols, d, q, m);
  }

  lemma RestoredIsStream(cols: Columns, d: nat, q: nat, b: seq<int>) returns (t: seq<int>)
    requires q < 3 && |b| == 3 * Size(d) && NullsMarked(cols, d, b)
    ensures t == Keep(Restored(b, q, cols, Size(d))) && t == Keep(BufferStream(cols, b, d, q)) && |t| <= d
  {
    t := Keep(BufferStream(cols, b, d, q));
    var g, s, p := Restored(b, q, cols, Size(d)), BufferStream(cols, b, d, q), Padding(d);
    forall m | 0 <= m < |g|
      ensures g[m] == if m < p then PUNCTURE else s[m - p]
    {
      RestoredEntry(cols, d, q, b, m);
    }
    KeepAfterMarkers(g, p, s, |s|);
  }

  // The three interleaved position streams fill the buffer.
  method FillPositions(d: nat, wk: array<int>, cols: Columns) returns (kpi: nat)
    requires 0 < d && wk.Length == 3 * Size(d)
    modifies wk
    ensures kpi == Size(d)
    ensures forall i :: 0 <= i < wk.Length ==> wk[i] == Mark(Mask(cols, d)[i])
  {
    ghost var first, second := Interleaved(Positions(d), cols, 0), Interleaved(Positions(d), cols, 1);
    kpi := DrmInterleave(d, wk, cols, 0);
    var k1 := DrmInterleave(d, wk, cols, 1);
    assert HoldsMarks(wk, 0, first, kpi) && HoldsMarks(wk, 1, first, kpi);
    var k2 := DrmInterleave(d, wk, cols, 2);
    assert HoldsMarks(wk, 0, first, kpi) && HoldsMarks(wk, 1, first, kpi) && HoldsMarks(wk, 2, second, kpi);
    MarksMakeMask(wk, first, second);
  }

  lemma MarksMakeMask(a: array<int>, first: seq<Option<nat>>, second: seq<Option<nat>>)
    requires |first| == |second| && a.Length == 3 * |first|
    requires HoldsMarks(a, 0, first, |first|) && HoldsMarks(a, 1, first, |first|) && HoldsMarks(a, 2, second, |first|)
    ensures forall i :: 0 <= i < a.Length ==> a[i] == Mark(Weave(first, first, second)[i])
  {
    var n := |first|;
    forall i | 0 <= i < a.Length
      ensures a[i] == Mark(Weave(first, first, second)[i])
    {
      if i < n {
        assert BufferIndex(n, 0, i) == i;
      } else if (i - n) % 2 == 0 {
        assert BufferIndex(n, 1, (i - n) / 2) == i;
      } else {
        assert BufferIndex(n, 2, (i - n - 1) / 2) == i;
      }
    }
  }

  // The received values, put back where rate matching read them.
  method FillReceived(ek: seq<int>, wk: array<int>, wkout: array<int>, cols: Columns, d: nat, rv: nat)
    requires rv < 4 && 0 < d && 3 * d <= |ek|
    requires wk.Length == wkout.Length == 3 * Size(d) && wk != wkout
    requires forall i :: 0 <= i < wk.Length ==> wk[i] == Mark(Mask(cols, d)[i])
    modifies wkout
    ensures forall i :: 0 <= i < wkout.Length ==> wkout[i] == BufferValue(cols, ek, d, rv, i)
  {
    ghost var w := Mask(cols, d);
    LapCount(cols, Positions(d), Positions(d), Positions(d));
    StartIndexValue(Rows(d), rv);
    var k0 := StartIndex(Rows(d), rv);
    var pad := 0;
    for i := 0 to k0
      invariant pad == i - Rank(w, i)
    {
      if wk[i] == PUNCTURE {
        pad := pad + 1;
      }
    }
    var cnt := 0;
    for i := 0 to 3 * Size(d)
      invariant cnt == Rank(w, i)
      invariant forall j :: 0 <= j < wk.Length ==> wk[j] == Mark(w[j])
      invariant forall j :: 0 <= j < i ==> wkout[j] == BufferValue(cols, ek, d, rv, j)
    {
      if wk[i] != PUNCTURE {
        var ind := (cnt + 3 * d - (k0 - pad)) % (3 * d);
        ModPlusMultiple(cnt - (k0 - pad), 1, 3 * d);
        wkout[i] := ek[ind];
        cnt := cnt + 1;
      } else {
        wkout[i] := PUNCTURE;
      }
    }
  }

  // The circular buffer, filled again from the received values.
  method Refill(ek: seq<int>, d: nat, rv: nat, cols: Columns) returns (wkout: seq<int>)
    requires 0 < d && rv < 4 && 3 * d <= |ek|
    ensures wkout == ReceivedBuffer(cols, ek, d, rv) && NullsMarked(cols, d, wkout)
  {
    var wk := new int[3 * Size(d)];
    var kpi := FillPositions(d, wk, cols);
    var buffer := new int[3 * kpi];
    FillReceived(ek, wk, buffer, cols, d, rv);
    wkout := buffer[..];
    forall i | 0 <= i < |wkout|
      ensures wkout[i] == ReceivedBuffer(cols, ek, d, rv)[i]
    {
      ReceivedAt(cols, ek, d, rv, i);
    }
  }

  // The three deinterleaved streams, one after the other.
  method CollectStreams(wkout: seq<int>, dk: array<int>, kpi: nat, cols: Columns,
                        ghost s0: seq<int>, ghost s1: seq<int>, ghost s2: seq<int>)
    returns (cnt: nat)
    requires kpi % CC == 0 && |wkout| == 3 * kpi && |s0| + |s1| + |s2| <= dk.Length
    requires s0 == Keep(Restored(wkout, 0, cols, kpi))
    requires s1 == Keep(Restored(wkout, 1, cols, kpi))
    requires s2 == Keep(Restored(wkout, 2, cols, kpi))
    modifies dk
    ensures cnt == |s0| + |s1| + |s2| && dk[..cnt] == s0 + s1 + s2
    ensures forall i :: cnt <= i < dk.Length ==> dk[i] == old(dk[i])
  {
    cnt := DrmDeinterleave(wkout, 0, dk, 0, kpi, cols, s0);
    var more := DrmDeinterleave(wkout, 1, dk, cnt, kpi, cols, s1);
    Extended(dk, s0, cnt, more);
    cnt := cnt + more;
    more := DrmDeinterleave(wkout, 2, dk, cnt, kpi, cols, s2);
    Extended(dk, s0 + s1, cnt, more);
    cnt := cnt + more;
  }

  lemma Extended(dk: array<int>, done: seq<int>, cnt: nat, more: nat)
    requires cnt + more <= dk.Length && |done| == cnt
    requires forall i :: 0 <= i < cnt ==> dk[i] == done[i]
    ensures dk[..cnt + more] == done + dk[cnt..cnt + more]
  {
  }

  /** What the receiver leaves in dk, for any received values; the rest of dk is unchanged. */
  method DerateMatchTurbo(ek: seq<int>, dk: array<int>, d: nat, rv: nat) returns (cnt: nat)
    requires 0 < d && rv < 4 && 3 * d <= |ek| && 3 * d <= dk.Length
    modifies dk
    ensures cnt <= 3 * d && dk[..cnt] == Derated(ColumnsOf(Turbo), ek, d, rv)
    ensures forall i :: cnt <= i < dk.Length ==> dk[i] == old(dk[i])
  {
    cnt := DerateWith(ek, dk, d, rv, ColumnsOf(Turbo));
  }

  method DerateWith(ek: seq<int>, dk: array<int>, d: nat, rv: nat, cols: Columns) returns (cnt: nat)
    requires 0 < d && rv < 4 && 3 * d <= |ek| && 3 * d <= dk.Length
    modifies dk
    ensures cnt <= 3 * d && dk[..cnt] == Derated(cols, ek, d, rv)
    ensures forall i :: cnt <= i < dk.Length ==> dk[i] == old(dk[i])
  {
    var wkout := Refill(ek, d, rv, cols);
    cnt := KeepStreams(wkout, dk, d, cols);
  }

  method KeepStreams(wkout: seq<int>, dk: array<int>, d: nat, cols: Columns) returns (cnt: nat)
    requires |wkout| == 3 * Size(d) && 3 * d <= dk.Length && NullsMarked(cols, d, wkout)
    modifies dk
    ensures cnt == |KeptStreams(cols, wkout, d)| && dk[..cnt] == KeptStreams(cols, wkout, d)
    ensures forall i :: cnt <= i < dk.Length ==> dk[i] == old(dk[i])
  {
    hide NullsMarked, Restored, BufferStream, Keep;
    ghost var s0 := RestoredIsStream(cols, d, 0, wkout);
    ghost var s1 := RestoredIsStream(cols, d, 1, wkout);
    ghost var s2 := RestoredIsStream(cols, d, 2, wkout);
    cnt := CollectStreams(wkout, dk, Size(d), cols, s0, s1, s2);
  }
}
