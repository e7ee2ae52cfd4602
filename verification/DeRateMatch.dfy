/**
 The receiver's inverse of rate matching: the positions of the NULLs are recomputed,
 the received values are put back into the circular buffer by counting ranks, and the
 three streams are deinterleaved and compacted.
*/
module DeRateMatch {
  import opened ModArith
  import opened Options
  import opened SubBlock
  import opened RateMatch

  // The soft value that marks a NULL.
  const PUNCTURE := -127

  // ------------------------------------------------------------ specification

  function Positions(d: nat): (s: seq<nat>)
    ensures |s| == d
  {
    seq(d, i => i)
  }

  // The circular buffer of positions: it shows where the NULLs are.
  function Mask(cols: Columns, d: nat): (w: seq<Option<nat>>)
    ensures |w| == 3 * Size(d)
  {
    CircularBuffer(cols, Positions(d), Positions(d), Positions(d))
  }

  // Where entry k of interleaved stream q sits in the circular buffer.
  function BufferIndex(n: nat, q: nat, k: nat): (i: nat)
    requires q < 3 && k < n
    ensures i < 3 * n
  {
    if q == 0 then k else n + 2 * k + (q - 1)
  }

  // The shift of stream q.
  function Delta(q: nat): nat { if q == 2 then 1 else 0 }

  // The index of the received value that belongs to buffer entry i.
  function ReceivedIndex(w: seq<Option<nat>>, k0: nat, i: nat): nat
    requires k0 <= |w| && i <= |w| && 0 < Rank(w, |w|)
  {
    (Rank(w, i) - Rank(w, k0)) % Rank(w, |w|)
  }

  // The buffer index from which value i of stream q is recovered.
  ghost function StreamSlot(cols: Columns, d: nat, q: nat, i: nat): (k: nat)
    requires q < 3 && i < d
    ensures k < 3 * Size(d)
  {
    BufferIndex(Size(d), q, Dest(cols, d, Delta(q), i + Padding(d)))
  }

  lemma SlotHoldsStream<T>(cols: Columns, s: seq<seq<T>>, q: nat, i: nat)
    requires |s| == 3 && |s[0]| == |s[1]| == |s[2]| && q < 3 && i < |s[0]|
    ensures CircularBuffer(cols, s[0], s[1], s[2])[StreamSlot(cols, |s[0]|, q, i)] == Some(s[q][i])
  {
    ReadInterleaved(s[q], cols, Delta(q), i);
    WeaveAt(Interleaved(s[0], cols, 0), Interleaved(s[1], cols, 0), Interleaved(s[2], cols, 1),
      q, Dest(cols, |s[0]|, Delta(q), i + Padding(|s[0]|)));
  }

  lemma WeaveAt<T>(a: seq<Option<T>>, b: seq<Option<T>>, c: seq<Option<T>>, q: nat, k: nat)
    requires |a| == |b| == |c| && q < 3 && k < |a|
    ensures Weave(a, b, c)[BufferIndex(|a|, q, k)] == if q == 0 then a[k] else if q == 1 then b[k] else c[k]
  {
  }

  // The received value that becomes value i of stream q.
  ghost function RecoveredIndex(cols: Columns, d: nat, rv: nat, q: nat, i: nat): (n: nat)
    requires rv < 4 && q < 3 && i < d
    ensures n < 3 * d
  {
    LapCount(cols, Positions(d), Positions(d), Positions(d));
    StartIndexValue(Rows(d), rv);
    ReceivedIndex(Mask(cols, d), StartIndex(Rows(d), rv), StreamSlot(cols, d, q, i))
  }

  // The circular buffer filled from the received values; NULL entries hold the marker.
  ghost function ReceivedBuffer(cols: Columns, ek: seq<int>, d: nat, rv: nat): (b: seq<int>)
    requires 0 < d && rv < 4 && 3 * d <= |ek|
    ensures |b| == 3 * Size(d)
  {
    ReceivedPrefix(cols, ek, d, rv, 3 * Size(d))
  }

  ghost function ReceivedPrefix(cols: Columns, ek: seq<int>, d: nat, rv: nat, n: nat): (b: seq<int>)
    requires 0 < d && rv < 4 && 3 * d <= |ek| && n <= 3 * Size(d)
    ensures |b| == n
  {
    if n == 0 then [] else ReceivedPrefix(cols, ek, d, rv, n - 1) + [BufferValue(cols, ek, d, rv, n - 1)]
  }

  ghost function BufferValue(cols: Columns, ek: seq<int>, d: nat, rv: nat, i: nat): int
    requires 0 < d && rv < 4 && 3 * d <= |ek| && i < 3 * Size(d)
  {
    LapCount(cols, Positions(d), Positions(d), Positions(d));
    StartIndexValue(Rows(d), rv);
    if Mask(cols, d)[i].None? then PUNCTURE
    else ek[ReceivedIndex(Mask(cols, d), StartIndex(Rows(d), rv), i)]
  }

  lemma {:induction false} ReceivedPrefixAt(cols: Columns, ek: seq<int>, d: nat, rv: nat, n: nat, i: nat)
    requires 0 < d && rv < 4 && 3 * d <= |ek| && i < n <= 3 * Size(d)
    ensures ReceivedPrefix(cols, ek, d, rv, n)[i] == BufferValue(cols, ek, d, rv, i)
  {
    if i < n - 1 {
      ReceivedPrefixAt(cols, ek, d, rv, n - 1, i);
    }
  }

  lemma ReceivedAt(cols: Columns, ek: seq<int>, d: nat, rv: nat, i: nat)
    requires 0 < d && rv < 4 && 3 * d <= |ek| && i < 3 * Size(d)
    ensures ReceivedBuffer(cols, ek, d, rv)[i] == BufferValue(cols, ek, d, rv, i)
  {
    ReceivedPrefixAt(cols, ek, d, rv, 3 * Size(d), i);
  }

  // Stream q of a filled buffer, in its original order.
  ghost function BufferStream(cols: Columns, b: seq<int>, d: nat, q: nat): (s: seq<int>)
    requires q < 3 && |b| == 3 * Size(d)
    ensures |s| == d
  {
    seq(d, i requires 0 <= i < d => b[StreamSlot(cols, d, q, i)])
  }

  // The values that are not the NULL marker, in order.
  function Keep(s: seq<int>): (t: seq<int>)
    ensures |t| <= |s|
  {
    KeepTo(s, |s|)
  }

  function KeepTo(s: seq<int>, n: nat): (t: seq<int>)
    requires n <= |s|
    ensures |t| <= n
  {
    if n == 0 then [] else KeepTo(s, n - 1) + (if s[n - 1] != PUNCTURE then [s[n - 1]] else [])
  }

  // The three streams of a filled buffer as derateMatchTurbo hands them over.
  ghost function KeptStreams(cols: Columns, b: seq<int>, d: nat): (dk: seq<int>)
    requires |b| == 3 * Size(d)
    ensures |dk| <= 3 * d
  {
    Keep(BufferStream(cols, b, d, 0)) + Keep(BufferStream(cols, b, d, 1)) + Keep(BufferStream(cols, b, d, 2))
  }

  // What derateMatchTurbo leaves in dk.
  ghost function Derated(cols: Columns, ek: seq<int>, d: nat, rv: nat): (dk: seq<int>)
    requires 0 < d && rv < 4 && 3 * d <= |ek|
    ensures |dk| <= 3 * d
  {
    KeptStreams(cols, ReceivedBuffer(cols, ek, d, rv), d)
  }

  // Stream q as recovered, before markers are dropped.
  ghost function Recovered(cols: Columns, ek: seq<int>, d: nat, rv: nat, q: nat): (s: seq<int>)
    requires 0 < d && rv < 4 && q < 3 && 3 * d <= |ek|
    ensures |s| == d
  {
    BufferStream(cols, ReceivedBuffer(cols, ek, d, rv), d, q)
  }

  lemma RecoveredAt(cols: Columns, ek: seq<int>, d: nat, rv: nat, q: nat, i: nat)
    requires 0 < d && rv < 4 && q < 3 && 3 * d <= |ek| && i < d
    ensures Recovered(cols, ek, d, rv, q)[i] == ek[RecoveredIndex(cols, d, rv, q, i)]
  {
    ReceivedAt(cols, ek, d, rv, StreamSlot(cols, d, q, i));
    SlotHoldsStream(cols, [Positions(d), Positions(d), Positions(d)], q, i);
  }

  // ------------------------------------------------------------ the round trip

  lemma {:induction false} KeepAllTo(s: seq<int>, n: nat)
    requires n <= |s|
    ensures KeepTo(s, n) == s[..n] <==> PUNCTURE !in s[..n]
    ensures |KeepTo(s, n)| == n <==> PUNCTURE !in s[..n]
  {
    if n > 0 {
      KeepAllTo(s, n - 1);
      assert s[..n] == s[..n - 1] + [s[n - 1]];
    }
  }

  lemma KeepAll(s: seq<int>)
    ensures Keep(s) == s <==> PUNCTURE !in s
    ensures |Keep(s)| == |s| <==> PUNCTURE !in s
  {
    KeepAllTo(s, |s|);
    assert s[..|s|] == s;
  }

  // Counting ranks from the start index undoes the selection.
  lemma ReceivedIsSelected<T>(w: seq<Option<T>>, m: seq<Option<nat>>, k0: nat, i: nat)
    requires k0 <= |w| == |m| && i < |w| && w[i].Some?
    requires Rank(m, i) == Rank(w, i) && Rank(m, k0) == Rank(w, k0) && Rank(m, |m|) == Rank(w, |w|)
    ensures Rank(w, i) < Rank(w, |w|)
    ensures SelectedValue(w, k0, ReceivedIndex(m, k0, i)) == w[i].value
  {
    hide Rank, Picked;
    PickedAt(w, i, |w|);
    ModShift(Rank(w, i), Rank(w, k0), Rank(w, |w|));
  }

  lemma SameShape<T>(cols: Columns, a: seq<T>, b: seq<T>, c: seq<T>, n: nat)
    requires |a| == |b| == |c| && n <= 3 * Size(|a|)
    ensures Rank(CircularBuffer(cols, a, b, c), n) == Rank(Mask(cols, |a|), n)
  {
    var d := |a|;
    var p := Positions(d);
    forall k | 0 <= k < Size(d)
      ensures Interleaved(a, cols, 0)[k].Some? <==> Interleaved(p, cols, 0)[k].Some?
      ensures Interleaved(b, cols, 0)[k].Some? <==> Interleaved(p, cols, 0)[k].Some?
      ensures Interleaved(c, cols, 1)[k].Some? <==> Interleaved(p, cols, 1)[k].Some?
    {
      InterleavedAt(a, cols, 0, k);
      InterleavedAt(b, cols, 0, k);
      InterleavedAt(c, cols, 1, k);
      InterleavedAt(p, cols, 0, k);
      InterleavedAt(p, cols, 1, k);
    }
    RankSameShape(CircularBuffer(cols, a, b, c), Mask(cols, d), n);
  }

  /**
   Value i of stream q is the received value that rate matching selected from that very
   place, for every stream content, length and redundancy version.
  */
  lemma RecoveredIsSent<T>(cols: Columns, s: seq<seq<T>>, w: seq<Option<T>>, rv: nat, outlen: nat, q: nat, i: nat)
    requires |s| == 3 && |s[0]| == |s[1]| == |s[2]| && q < 3 && i < |s[0]| && rv < 4 && 3 * |s[0]| <= outlen
    requires w == CircularBuffer(cols, s[0], s[1], s[2]) && Rank(w, |w|) == 3 * |s[0]|
    ensures RateMatched(w, |s[0]|, rv, outlen)[RecoveredIndex(cols, |s[0]|, rv, q, i)] == s[q][i]
  {
    var d := |s[0]|;
    StartIndexValue(Rows(d), rv);
    var k0, slot := StartIndex(Rows(d), rv), StreamSlot(cols, d, q, i);
    SlotHoldsStream(cols, s, q, i);
    SameShape(cols, s[0], s[1], s[2], k0);
    SameShape(cols, s[0], s[1], s[2], slot);
    SameShape(cols, s[0], s[1], s[2], |w|);
    ReceivedIsSelected(w, Mask(cols, d), k0, slot);
    ModSmall(k0, |w|);
    BitSelectionAt(w, k0, outlen, RecoveredIndex(cols, d, rv, q, i));
  }

  function Mapped(s: seq<bool>, f: bool -> int): (t: seq<int>)
    ensures |t| == |s|
  {
    seq(|s|, i requires 0 <= i < |s| => f(s[i]))
  }

  /**
   Rate matching round trip: if the first 3D received values are the soft images of the
   selected ones, and no image is the NULL marker, the receiver gets the three streams
   back, concatenated in order.
  */
  lemma RoundTrip(cols: Columns, s: seq<seq<bool>>, d: nat, sent: seq<bool>, rv: nat, soft: bool -> int, ek: seq<int>)
    requires |s| == 3 && |s[0]| == |s[1]| == |s[2]| == d && 0 < d && rv < 4
    requires Sends(cols, s, sent, rv) && 3 * d <= |sent| && 3 * d <= |ek|
    requires forall x :: soft(x) != -127
    requires Softened(sent, soft, ek, 3 * d)
    ensures Derated(cols, ek, d, rv) == Mapped(s[0], soft) + Mapped(s[1], soft) + Mapped(s[2], soft)
  {
    StreamRoundTrip(cols, s, d, sent, rv, soft, ek, 0);
    StreamRoundTrip(cols, s, d, sent, rv, soft, ek, 1);
    StreamRoundTrip(cols, s, d, sent, rv, soft, ek, 2);
    KeepMapped(s[0], soft);
    KeepMapped(s[1], soft);
    KeepMapped(s[2], soft);
  }

  lemma KeepMapped(s: seq<bool>, soft: bool -> int)
    requires forall x :: soft(x) != PUNCTURE
    ensures Keep(Mapped(s, soft)) == Mapped(s, soft)
  {
    var t := Mapped(s, soft);
    forall i | 0 <= i < |t|
      ensures t[i] != PUNCTURE
    {
      var b: bool := s[i];
      assert soft(b) != PUNCTURE;
    }
    KeepAll(t);
  }

  // The first n values of ek are the soft images of the first n values of sent.
  ghost predicate Softened(sent: seq<bool>, soft: bool -> int, ek: seq<int>, n: nat)
    requires n <= |sent| && n <= |ek|
  {
    forall i {:trigger sent[i]} :: 0 <= i < n ==> ek[i] == soft(sent[i])
  }

  // sent is a selection from the circular buffer of the streams s.
  ghost predicate Sends(cols: Columns, s: seq<seq<bool>>, sent: seq<bool>, rv: nat)
    requires |s| == 3 && |s[0]| == |s[1]| == |s[2]| && 0 < |s[0]|
  {
    var w := CircularBuffer(cols, s[0], s[1], s[2]);
    0 < Rank(w, |w|) && sent == RateMatched(w, |s[0]|, rv, |sent|)
  }

  lemma StreamRoundTrip(cols: Columns, s: seq<seq<bool>>, d: nat, sent: seq<bool>, rv: nat, soft: bool -> int, ek: seq<int>, q: nat)
    requires |s| == 3 && |s[0]| == |s[1]| == |s[2]| == d && 0 < d && rv < 4 && q < 3
    requires Sends(cols, s, sent, rv) && 3 * d <= |sent| && 3 * d <= |ek|
    requires Softened(sent, soft, ek, 3 * d)
    ensures Recovered(cols, ek, d, rv, q) == Mapped(s[q], soft)
  {
    var w := CircularBuffer(cols, s[0], s[1], s[2]);
    LapCount(cols, s[0], s[1], s[2]);
    forall i | 0 <= i < d
      ensures Recovered(cols, ek, d, rv, q)[i] == soft(s[q][i])
    {
      RecoveredAt(cols, ek, d, rv, q, i);
      RecoveredIsSent(cols, s, w, rv, |sent|, q, i);
    }
  }

  // Every rank below the total is the rank of some non-NULL entry.
  lemma {:induction false} EntryOfRank<T>(w: seq<Option<T>>, r: nat, n: nat) returns (i: nat)
    requires n <= |w| && r < Rank(w, n)
    ensures i < n && w[i].Some? && Rank(w, i) == r
  {
    if w[n - 1].Some? && Rank(w, n - 1) == r {
      i := n - 1;
    } else {
      i := EntryOfRank(w, r, n - 1);
    }
  }

  // The stream value that buffer entry k holds.
  lemma StreamOfSlot(cols: Columns, d: nat, k: nat) returns (q: nat, i: nat)
    requires k < 3 * Size(d) && Mask(cols, d)[k].Some?
    ensures q < 3 && i < d && StreamSlot(cols, d, q, i) == k
  {
    var n := Size(d);
    q := if k < n then 0 else 1 + (k - n) % 2;
    var e := if k < n then k else (k - n) / 2;
    InterleavedAt(Positions(d), cols, Delta(q), e);
    DestOfSource(cols, d, Delta(q), e);
    i := Source(cols, d, Delta(q), e) - Padding(d);
  }

  lemma ReceivedIndexOf(w: seq<Option<nat>>, k0: nat, k: nat, n: nat)
    requires k0 <= |w| && k <= |w| && n < Rank(w, |w|)
    requires Rank(w, k) == (n + Rank(w, k0)) % Rank(w, |w|)
    ensures ReceivedIndex(w, k0, k) == n
  {
    ShiftBack(n, Rank(w, k0), Rank(w, |w|), Rank(w, k));
  }

  /** Each of the first 3D received values is used. */
  lemma ReceivedIsUsed(cols: Columns, d: nat, rv: nat, n: nat) returns (q: nat, i: nat)
    requires rv < 4 && n < 3 * d
    ensures q < 3 && i < d && RecoveredIndex(cols, d, rv, q, i) == n
  {
    var w := Mask(cols, d);
    LapCount(cols, Positions(d), Positions(d), Positions(d));
    StartIndexValue(Rows(d), rv);
    var k0 := StartIndex(Rows(d), rv);
    var k := EntryOfRank(w, (n + Rank(w, k0)) % Rank(w, |w|), |w|);
    ReceivedIndexOf(w, k0, k, n);
    q, i := StreamOfSlot(cols, d, k);
  }

  /** The reads of the received block stay inside exactly if it has at least 3D values. */
  lemma ReadsInsideIff(cols: Columns, d: nat, rv: nat, n: nat)
    requires 0 < d && rv < 4
    ensures (forall q, i :: 0 <= q < 3 && 0 <= i < d ==> RecoveredIndex(cols, d, rv, q, i) < n) <==> 3 * d <= n
  {
    if n < 3 * d {
      var q, i := ReceivedIsUsed(cols, d, rv, n);
      assert RecoveredIndex(cols, d, rv, q, i) == n;
    }
  }

  lemma MarkerReceived(cols: Columns, ek: seq<int>, d: nat, rv: nat, n: nat) returns (q: nat)
    requires rv < 4 && n < 3 * d <= |ek|
    ensures q < 3 && ek[n] in Recovered(cols, ek, d, rv, q)
  {
    var i;
    q, i := ReceivedIsUsed(cols, d, rv, n);
    RecoveredAt(cols, ek, d, rv, q, i);
  }

  lemma RecoveredFromReceived(cols: Columns, ek: seq<int>, d: nat, rv: nat, q: nat)
    requires 0 < d && rv < 4 && q < 3 && 3 * d <= |ek|
    ensures forall x :: x in Recovered(cols, ek, d, rv, q) ==> x in ek[..3 * d]
  {
    forall i | 0 <= i < d
      ensures Recovered(cols, ek, d, rv, q)[i] in ek[..3 * d]
    {
      RecoveredAt(cols, ek, d, rv, q, i);
      assert ek[RecoveredIndex(cols, d, rv, q, i)] == ek[..3 * d][RecoveredIndex(cols, d, rv, q, i)];
    }
  }

  // A stream shrinks exactly when it holds a marker, and a marker comes from a received value.
  lemma KeepRecovered(cols: Columns, ek: seq<int>, d: nat, rv: nat, q: nat)
    requires 0 < d && rv < 4 && q < 3 && 3 * d <= |ek|
    ensures |Keep(Recovered(cols, ek, d, rv, q))| <= d
    ensures PUNCTURE in Recovered(cols, ek, d, rv, q) ==> |Keep(Recovered(cols, ek, d, rv, q))| < d
    ensures PUNCTURE !in ek[..3 * d] ==> |Keep(Recovered(cols, ek, d, rv, q))| == d
  {
    KeepAll(Recovered(cols, ek, d, rv, q));
    RecoveredFromReceived(cols, ek, d, rv, q);
  }

  /**
   When the round trip can hold at all: the receiver gets 3D values exactly when none of
   the first 3D received values is the NULL marker.
  */
  lemma DeratedCount(cols: Columns, ek: seq<int>, d: nat, rv: nat)
    requires 0 < d && rv < 4 && 3 * d <= |ek|
    ensures |Derated(cols, ek, d, rv)| == 3 * d <==> -127 !in ek[..3 * d]
  {
    KeepRecovered(cols, ek, d, rv, 0);
    KeepRecovered(cols, ek, d, rv, 1);
    KeepRecovered(cols, ek, d, rv, 2);
    if PUNCTURE in ek[..3 * d] {
      var n :| 0 <= n < 3 * d && ek[..3 * d][n] == PUNCTURE;
      var q := MarkerReceived(cols, ek, d, rv, n);
      assert q == 0 || q == 1 || q == 2;
    }
  }
}
