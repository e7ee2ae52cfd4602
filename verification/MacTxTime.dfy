/**
 Time in the MAC scheduler (mac_tx_helper.c): frames count modulo 1024, ten subframes each.
 An absolute time t, in subframes since the start, is a ghost of the model: the program
 only ever sees Frame(t) and Subframe(t).
*/
module MacTxTime {
  import opened ModArith

  const LTE_NO_FRAMES := 1024
  const MAX_TIME_HORIZON := 20
  const MAX_HARQ_BUF := 8

  function Frame(t: nat): (f: int)
    ensures 0 <= f < LTE_NO_FRAMES
  {
    t / 10 % LTE_NO_FRAMES
  }

  function Subframe(t: nat): (s: int)
    ensures 0 <= s < 10
  {
    t % 10
  }

  // ------------------------------------------------------------ comparing stamps

  function CompareTime(frame1: int, subframe1: int, frame2: int, subframe2: int): int {
    if frame1 == frame2 && subframe1 == subframe2 then 0
    else if (frame1 != frame2 && (LTE_NO_FRAMES + frame2 - frame1) % LTE_NO_FRAMES < 512)
            || (frame1 == frame2 && subframe2 > subframe1) then 2
    else 1
  }

  function CheckTimeHorizon(frame1: int, subframe1: int, frame2: int, subframe2: int): int {
    if CompareTime(frame1, subframe1, frame2, subframe2) == 2
       && (LTE_NO_FRAMES + frame2 - frame1) % LTE_NO_FRAMES > MAX_TIME_HORIZON then 0
    else 1
  }

  // The frame distance from a to b as the clock shows it, in -512..511.
  function Wrapped(a: nat, b: nat): (d: int)
    ensures -512 <= d < 512
  {
    (b / 10 - a / 10 + 512) % LTE_NO_FRAMES - 512
  }

  lemma FrameDistance(x: int, y: int)
    ensures (LTE_NO_FRAMES + y % LTE_NO_FRAMES - x % LTE_NO_FRAMES) % LTE_NO_FRAMES == (y - x) % LTE_NO_FRAMES
  {
    var m := LTE_NO_FRAMES;
    assert m + y % m - x % m == (y - x) + (1 - y / m + x / m) * m;
    ModPlusMultiple(y - x, 1 - y / m + x / m, m);
  }

  // The distance modulo 1024 from the wrapped distance d.
  lemma DistanceOf(e: int, d: int)
    requires d == (e + 512) % LTE_NO_FRAMES - 512
    ensures e % LTE_NO_FRAMES == if d < 0 then d + LTE_NO_FRAMES else d
  {
    DivMod(e + 512, LTE_NO_FRAMES);
    var q := (e + 512) / LTE_NO_FRAMES;
    assert e == q * LTE_NO_FRAMES + d;
    if d < 0 {
      DivModUnique(q - 1, LTE_NO_FRAMES, d + LTE_NO_FRAMES);
    } else {
      DivModUnique(q, LTE_NO_FRAMES, d);
    }
  }

  /** What compareTime answers for any two absolute times: it orders them by the wrapped distance. */
  lemma CompareTimeExact(a: nat, b: nat)
    ensures var d := (b / 10 - a / 10 + 512) % 1024 - 512;
            CompareTime(a / 10 % 1024, a % 10, b / 10 % 1024, b % 10) ==
            if d > 0 then 2 else if d < 0 then 1 else if b % 10 > a % 10 then 2 else if b % 10 < a % 10 then 1 else 0
  {
    StampDistance(a, b);
  }

  // The frame distance that the program computes, and when the frames look equal.
  lemma StampDistance(a: nat, b: nat)
    ensures (LTE_NO_FRAMES + Frame(b) - Frame(a)) % LTE_NO_FRAMES == if Wrapped(a, b) < 0 then Wrapped(a, b) + LTE_NO_FRAMES else Wrapped(a, b)
    ensures Frame(a) == Frame(b) <==> Wrapped(a, b) == 0
  {
    var x, y := a / 10, b / 10;
    FrameDistance(x, y);
    DistanceOf(y - x, Wrapped(a, b));
    var e := LTE_NO_FRAMES + Frame(b) - Frame(a);
    assert 0 < e < 2 * LTE_NO_FRAMES;
  }

  lemma WrappedNear(a: nat, b: nat)
    requires -512 <= b / 10 - a / 10 < 512
    ensures Wrapped(a, b) == b / 10 - a / 10
  {
    ModSmall(b / 10 - a / 10 + 512, LTE_NO_FRAMES);
  }

  /** Within half a wrap that is the order of the absolute times. */
  lemma CompareTimeOrder(a: nat, b: nat)
    requires -512 <= b / 10 - a / 10 < 512
    ensures CompareTime(a / 10 % 1024, a % 10, b / 10 % 1024, b % 10) == if a < b then 2 else if a > b then 1 else 0
  {
    hide CompareTime, Wrapped;
    CompareTimeExact(a, b);
    WrappedNear(a, b);
  }

  /** Exactly half a wrap later counts as earlier. */
  lemma HalfWrapReverses(a: nat)
    ensures CompareTime(a / 10 % 1024, a % 10, (a + 5120) / 10 % 1024, (a + 5120) % 10) == 1
  {
    CompareTimeExact(a, a + 5120);
  }

  lemma HorizonOrder(a: nat, b: nat)
    requires -512 <= b / 10 - a / 10 < 512
    ensures CheckTimeHorizon(a / 10 % 1024, a % 10, b / 10 % 1024, b % 10) == if b / 10 - a / 10 > 20 then 0 else 1
  {
    hide CompareTime, Frame, Subframe, Wrapped;
    CompareTimeOrder(a, b);
    StampDistance(a, b);
    WrappedNear(a, b);
  }

  // ------------------------------------------------------------ the next subframe of a list

  predicate Ascending(s: seq<nat>) {
    (forall i :: 0 <= i < |s| ==> s[i] < 10) && forall i, j :: 0 <= i < j < |s| ==> s[i] < s[j]
  }

  // Subframe numbers as they are given on the command line, in increasing order.
  type Subframes = s: seq<nat> | Ascending(s) witness []

  // RRC packets go out in subframe 2.
  const RRC_SUBF: Subframes := [2]

  // The number of entries below x.
  function Below(s: seq<nat>, x: nat, n: nat): (i: nat)
    requires n <= |s|
    ensures i <= n && (i < n ==> s[i] >= x) && forall j :: 0 <= j < i ==> s[j] < x
  {
    if n == 0 then 0 else if Below(s, x, n - 1) < n - 1 || s[n - 1] >= x then Below(s, x, n - 1) else n
  }

  // The first time at or after t whose subframe is in s.
  function NextIn(s: Subframes, t: nat): (u: nat)
    requires s != []
    ensures t <= u
  {
    var i := Below(s, t % 10, |s|);
    if i < |s| then t - t % 10 + s[i] else t - t % 10 + 10 + s[0]
  }

  /** It is in the list, and no time before it is. */
  lemma NextInIsFirst(s: Subframes, t: nat)
    requires s != []
    ensures NextIn(s, t) % 10 in s
    ensures forall u :: t <= u < NextIn(s, t) ==> u % 10 !in s
  {
    forall u | t <= u < NextIn(s, t)
      ensures u % 10 !in s
    {
      forall j | 0 <= j < |s|
        ensures s[j] != u % 10
      {
        assert s[0] <= s[j];
      }
    }
  }

  lemma NextInStep(s: Subframes, t: nat)
    requires s != []
    ensures NextIn(s, t) == t <==> t % 10 in s
    ensures NextIn(s, NextIn(s, t)) == NextIn(s, t)
    ensures NextIn(s, t) != t ==> NextIn(s, t + 1) == NextIn(s, t)
  {
    var u := NextIn(s, t);
    NextInIsFirst(s, t);
    NextInIsFirst(s, u);
    NextInIsFirst(s, t + 1);
  }

  lemma {:induction false} BelowIs(s: Subframes, x: nat, n: nat, i: nat)
    requires i <= n <= |s| && (i < n ==> s[i] >= x) && forall j :: 0 <= j < i ==> s[j] < x
    ensures Below(s, x, n) == i
  {
    if n > 0 {
      BelowIs(s, x, n - 1, if i < n then i else n - 1);
    }
  }

  lemma Advance(f: nat, x: nat)
    requires x < 10
    ensures Frame(10 * f + x) == f % LTE_NO_FRAMES && Subframe(10 * f + x) == x
    ensures (f + 1) % LTE_NO_FRAMES == (f % LTE_NO_FRAMES + 1) % LTE_NO_FRAMES
  {
    assert (10 * f + x) / 10 == f;
  }

  // The stamp of the next listed time after t: entry i of the list, in this frame or the next.
  lemma NextStamp(s: Subframes, t: nat, i: nat, frame: int)
    requires i <= |s| && s != [] && (i < |s| ==> s[i] > t % 10) && forall j :: 0 <= j < i ==> s[j] <= t % 10
    requires frame == Frame(t)
    ensures Frame(NextIn(s, t + 1)) == if i < |s| then frame else (frame + 1) % LTE_NO_FRAMES
    ensures Subframe(NextIn(s, t + 1)) == if i < |s| then s[i] else s[0]
  {
    var f, r := t / 10, t % 10;
    if r < 9 {
      assert (t + 1) / 10 == f && (t + 1) % 10 == r + 1;
      BelowIs(s, r + 1, |s|, i);
      Advance(f, if i < |s| then s[i] else s[0]);
      Advance(f + 1, s[0]);
    } else {
      assert (t + 1) / 10 == f + 1 && (t + 1) % 10 == 0;
      BelowIs(s, 0, |s|, 0);
      Advance(f, 0);
      Advance(f + 1, s[0]);
    }
  }

  method NextRRCSubframe(frame0: int, subframe0: int, ghost t: nat) returns (frame: int, subframe: int)
    requires frame0 == Frame(t) && subframe0 == Subframe(t)
    ensures frame == Frame(NextIn(RRC_SUBF, t + 1)) && subframe == Subframe(NextIn(RRC_SUBF, t + 1)) == 2
  {
    frame := frame0;
    NextStamp(RRC_SUBF, t, if subframe0 < 2 then 0 else 1, frame0);
    if subframe0 + 1 > 2 {
      frame := (frame + 1) % LTE_NO_FRAMES;
    }
    subframe := 2;
  }

  method NextIPSubframe(frame0: int, subframe0: int, dataSubF: Subframes, ghost t: nat) returns (frame: int, subframe: int)
    requires dataSubF != [] && frame0 == Frame(t) && subframe0 == Subframe(t)
    ensures frame == Frame(NextIn(dataSubF, t + 1)) && subframe == Subframe(NextIn(dataSubF, t + 1))
  {
    frame, subframe := frame0, subframe0;
    var n := |dataSubF|;
    if subframe + 1 > dataSubF[n - 1] {
      frame := (frame + 1) % LTE_NO_FRAMES;
      subframe := dataSubF[0];
      NextStamp(dataSubF, t, n, frame0);
    } else {
      var i := 0;
      while i < n && subframe + 1 > dataSubF[i]
        invariant i <= n && forall j :: 0 <= j < i ==> dataSubF[j] < subframe + 1
      {
        i := i + 1;
      }
      if i >= n {
        i := n - 1;
      }
      subframe := dataSubF[i];
      NextStamp(dataSubF, t, i, frame0);
    }
  }

  // ------------------------------------------------------------ how many fit below the horizon

  // The running number of the listed subframe at time t.
  function SlotIndex(s: Subframes, t: nat): int {
    t / 10 * |s| + Below(s, t % 10, |s|)
  }

  lemma LexGrows(x: nat, i: nat, y: nat, j: nat, n: nat)
    requires i < n && (x < y || (x == y && i < j))
    ensures x * n + i < y * n + j
  {
    if x < y {
      MulMono(x + 1, y, n);
    }
  }

  lemma BelowListed(s: Subframes, x: nat)
    requires x in s
    ensures Below(s, x, |s|) < |s| && s[Below(s, x, |s|)] == x
  {
    var k :| 0 <= k < |s| && s[k] == x;
    BelowIs(s, x, |s|, k);
  }

  lemma SlotIndexGrows(s: Subframes, t: nat, u: nat)
    requires t < u && t % 10 in s && u % 10 in s
    ensures SlotIndex(s, t) < SlotIndex(s, u)
  {
    hide Below;
    BelowListed(s, t % 10);
    BelowListed(s, u % 10);
    var i, j := Below(s, t % 10, |s|), Below(s, u % 10, |s|);
    assert t / 10 == u / 10 ==> s[i] < s[j];
    LexGrows(t / 10, i, u / 10, j, |s|);
  }

  lemma SlotAt(s: Subframes, f: nat, k: nat)
    requires k < |s|
    ensures SlotIndex(s, 10 * f + s[k]) == f * |s| + k && SlotIndex(s, 10 * f + s[k] + 1) == f * |s| + k + 1
  {
    var n, x := |s|, s[k];
    BelowIs(s, x, n, k);
    if x < 9 {
      BelowIs(s, x + 1, n, k + 1);
      hide Below;
      assert (10 * f + x) / 10 == f && (10 * f + x + 1) / 10 == f;
    } else {
      assert k == n - 1 by {
        assert s[n - 1] < 10;
      }
      BelowIs(s, 0, n, 0);
      hide Below;
      assert (10 * f + 9) / 10 == f && (10 * f + 10) / 10 == f + 1;
      assert (f + 1) * n == f * n + n;
    }
  }

  lemma NextInFrame(s: Subframes, u: nat, f: nat, i: nat)
    requires s != [] && f == u / 10 && i == Below(s, u % 10, |s|)
    ensures NextIn(s, u) == if i < |s| then 10 * f + s[i] else 10 * (f + 1) + s[0]
    ensures SlotIndex(s, u) == f * |s| + i
  {
  }

  // From any time on, the next listed time is the one that has the running number.
  lemma NextSlot(s: Subframes, u: nat)
    requires s != []
    ensures SlotIndex(s, NextIn(s, u)) == SlotIndex(s, u) && SlotIndex(s, NextIn(s, u) + 1) == SlotIndex(s, u) + 1
  {
    hide SlotIndex, NextIn, Below;
    var f, i := u / 10, Below(s, u % 10, |s|);
    NextInFrame(s, u, f, i);
    if i < |s| {
      SlotAt(s, f, i);
    } else {
      SlotAt(s, f + 1, 0);
      assert (f + 1) * |s| == f * |s| + |s|;
    }
  }

  // Strictly increasing times in listed subframes.
  predicate Listed(s: Subframes, h: seq<nat>) {
    (forall i :: 0 <= i < |h| ==> h[i] % 10 in s) && forall i, j :: 0 <= i < j < |h| ==> h[i] < h[j]
  }

  lemma {:induction false} SlotIndexSpreads(s: Subframes, h: seq<nat>, k: nat)
    requires Listed(s, h) && k < |h|
    ensures SlotIndex(s, h[0]) + k <= SlotIndex(s, h[k])
  {
    if k > 0 {
      SlotIndexSpreads(s, h, k - 1);
      SlotIndexGrows(s, h[k - 1], h[k]);
    }
  }

  // The last time that scheduling can reach from now, given the first listed subframe.
  function Furthest(now: nat, first: nat): nat {
    10 * (now / 10 + MAX_TIME_HORIZON + 1) + first
  }

  /** At most one listed subframe beyond twenty-one frames' worth can be pending. */
  lemma PendingBound(s: Subframes, h: seq<nat>, now: nat)
    requires s != [] && Listed(s, h) && forall i :: 0 <= i < |h| ==> now <= h[i] <= 10 * (now / 10 + 21) + s[0]
    ensures |h| <= 21 * |s| + 1
  {
    hide Listed;
    PendingSlots(s, h, now);
  }

  lemma PendingSlots(s: Subframes, h: seq<nat>, now: nat)
    requires s != [] && Listed(s, h) && forall i :: 0 <= i < |h| ==> now <= h[i] <= Furthest(now, s[0])
    ensures |h| <= (MAX_TIME_HORIZON + 1) * |s| + 1
  {
    if |h| > 0 {
      var t, u := h[0], h[|h| - 1];
      SlotIndexSpreads(s, h, |h| - 1);
      MulMono(now / 10, t / 10, |s|);
      LastSlot(s, u, now / 10 + MAX_TIME_HORIZON + 1);
      assert (now / 10 + 21) * |s| == now / 10 * |s| + 21 * |s|;
    }
  }

  lemma LastSlot(s: Subframes, u: nat, f: nat)
    requires s != [] && u % 10 in s && u <= 10 * f + s[0]
    ensures SlotIndex(s, u) <= f * |s|
  {
    if u / 10 < f {
      MulMono(u / 10 + 1, f, |s|);
    }
  }

  // ------------------------------------------------------------ HARQ

  // The HARQ process and new-data indicator of the n-th data packet.
  function HarqOf(n: nat): int { n % MAX_HARQ_BUF }

  function NdiOf(n: nat): int { n / MAX_HARQ_BUF % 2 }

  method UpdateHARQ(harq0: int, ndi0: int, ghost n: nat) returns (harq: int, ndi: int)
    requires harq0 == HarqOf(n) && ndi0 == NdiOf(n)
    ensures harq == HarqOf(n + 1) && ndi == NdiOf(n + 1)
  {
    harq, ndi := harq0, ndi0;
    if harq == MAX_HARQ_BUF - 1 {
      harq := 0;
      ndi := (ndi + 1) % 2;
    } else {
      harq := harq + 1;
    }
  }

  /** Two data packets in a row on the same HARQ process carry opposite indicators. */
  lemma NdiToggles(n: nat, m: nat)
    requires n < m && HarqOf(m) == HarqOf(n) && forall k :: n < k < m ==> HarqOf(k) != HarqOf(n)
    ensures m == n + 8 && NdiOf(m) != NdiOf(n)
  {
    assert HarqOf(n + 8) == HarqOf(n);
  }
}
