/**
 Data packets of the MAC scheduler: each stream (RRC or IP) is the history of what was
 scheduled, in increasing due times; the packets not yet sent are its tail.
*/
module MacTxData {
  import opened ModArith
  import opened MacTxOutQueue
  import opened MacTxTime

  // A scheduled data packet; num counts RRC and IP packets together.
  datatype Timed = Timed(due: nat, data: seq<int>, num: nat)

  function DataPacket(kind: Subtype, x: Timed): (p: Packet)
    ensures Due(p, Frame(x.due), Subframe(x.due))
  {
    Packet(Frame(x.due), Subframe(x.due), kind, 0, HarqOf(x.num), NdiOf(x.num), x.data)
  }

  function Dues(h: seq<Timed>): (d: seq<nat>)
    ensures |d| == |h| && forall i :: 0 <= i < |h| ==> d[i] == h[i].due
  {
    seq(|h|, i requires 0 <= i < |h| => h[i].due)
  }

  /**
   The state of a stream at time now: in listed subframes and increasing, what is sent lies in the
   past and what is not does not, nothing is due after last, and last is neither lagging nor beyond the horizon.
  */
  ghost predicate Track(s: Subframes, h: seq<Timed>, sent: nat, now: nat, last: nat) {
    && s != [] && sent <= |h| && Listed(s, Dues(h))
    && (forall i :: 0 <= i < sent ==> h[i].due < now)
    && (forall i :: sent <= i < |h| ==> now <= h[i].due)
    && (forall i :: 0 <= i < |h| ==> h[i].due <= last)
    && now <= last + 1 && last <= Furthest(now, s[0])
  }

  /** However many packets arrive, few are pending. */
  lemma TrackBound(s: Subframes, h: seq<Timed>, sent: nat, now: nat, last: nat)
    requires Track(s, h, sent, now, last)
    ensures sent <= |h| <= sent + 21 * |s| + 1
  {
    PendingBound(s, Dues(h)[sent..], now);
  }

  lemma TrackAdd(s: Subframes, h: seq<Timed>, sent: nat, now: nat, last: nat, x: Timed)
    requires Track(s, h, sent, now, last) && last / 10 - now / 10 <= MAX_TIME_HORIZON
    requires x.due == NextIn(s, last + 1)
    ensures Track(s, h + [x], sent, now, x.due)
  {
    NextInIsFirst(s, last + 1);
    NextInNear(s, last);
    assert Dues(h + [x]) == Dues(h) + [x.due];
  }

  lemma NextInNear(s: Subframes, t: nat)
    requires s != []
    ensures t < NextIn(s, t + 1) <= 10 * (t / 10 + 1) + s[0]
  {
    if (t + 1) % 10 == 0 {
      BelowIs(s, 0, |s|, 0);
    }
  }

  // The number sent once time has passed now.
  function SentAfter(h: seq<Timed>, sent: nat, now: nat): (n: nat)
    ensures sent <= |h| ==> n <= |h|
  {
    if sent < |h| && h[sent].due == now then sent + 1 else sent
  }

  lemma TrackTick(s: Subframes, h: seq<Timed>, sent: nat, now: nat, last: nat)
    requires Track(s, h, sent, now, last) && now <= last
    ensures Track(s, h, SentAfter(h, sent, now), now + 1, last)
  {
    assert now / 10 <= (now + 1) / 10;
    assert forall i :: sent < i < |h| ==> Dues(h)[sent] < Dues(h)[i];
  }

  // ------------------------------------------------------------ packets of a stream

  // The packets of the stream from position i on.
  function Unsent(kind: Subtype, h: seq<Timed>, i: nat): (m: multiset<Packet>)
    requires i <= |h|
    ensures |m| == |h| - i
    decreases |h| - i
  {
    if i == |h| then multiset{} else multiset{DataPacket(kind, h[i])} + Unsent(kind, h, i + 1)
  }

  // The packets of the stream that are due at time t.
  function DueAt(kind: Subtype, h: seq<Timed>, t: nat): multiset<Packet> {
    if h == [] then multiset{}
    else DueAt(kind, h[..|h| - 1], t) + (if h[|h| - 1].due == t then multiset{DataPacket(kind, h[|h| - 1])} else multiset{})
  }

  lemma {:induction false} UnsentAdd(kind: Subtype, h: seq<Timed>, i: nat, x: Timed)
    requires i <= |h|
    ensures Unsent(kind, h + [x], i) == Unsent(kind, h, i) + multiset{DataPacket(kind, x)}
    decreases |h| - i
  {
    if i < |h| {
      UnsentAdd(kind, h, i + 1, x);
    }
  }

  // The packet that is sent at time now, if any.
  function Head(kind: Subtype, h: seq<Timed>, sent: nat, now: nat): (s: seq<Packet>)
    ensures |s| <= 1
  {
    if sent < |h| && h[sent].due == now then [DataPacket(kind, h[sent])] else []
  }

  lemma {:induction false} NoneDueAt(kind: Subtype, h: seq<Timed>, t: nat)
    requires forall i :: 0 <= i < |h| ==> h[i].due != t
    ensures DueAt(kind, h, t) == multiset{}
  {
    if h != [] {
      NoneDueAt(kind, h[..|h| - 1], t);
    }
  }

  lemma {:induction false} DueAtOne(kind: Subtype, h: seq<Timed>, k: nat, t: nat)
    requires k < |h| && h[k].due == t && forall i :: 0 <= i < |h| && i != k ==> h[i].due != t
    ensures DueAt(kind, h, t) == multiset{DataPacket(kind, h[k])}
  {
    if k < |h| - 1 {
      DueAtOne(kind, h[..|h| - 1], k, t);
    } else {
      NoneDueAt(kind, h[..|h| - 1], t);
    }
  }

  /** What is due now is exactly the next unsent packet, if its time has come. */
  lemma HeadIsDue(kind: Subtype, s: Subframes, h: seq<Timed>, sent: nat, now: nat, last: nat)
    requires Track(s, h, sent, now, last)
    ensures DueAt(kind, h, now) == multiset(Head(kind, h, sent, now))
    ensures Unsent(kind, h, sent) == multiset(Head(kind, h, sent, now)) + Unsent(kind, h, SentAfter(h, sent, now))
  {
    assert forall i :: sent < i < |h| ==> Dues(h)[sent] < Dues(h)[i];
    if sent < |h| && h[sent].due == now {
      DueAtOne(kind, h, sent, now);
    } else {
      NoneDueAt(kind, h, now);
    }
  }

  // No later packet of the stream carries the stamp of now.
  lemma {:induction false} LaterNotDue(kind: Subtype, h: seq<Timed>, i: nat, now: nat, p: Packet)
    requires i <= |h| && Due(p, Frame(now), Subframe(now))
    requires forall j :: i <= j < |h| ==> now < h[j].due < now + 10 * LTE_NO_FRAMES
    ensures Unsent(kind, h, i)[p] == 0
    decreases |h| - i
  {
    if i < |h| {
      LaterNotDue(kind, h, i + 1, now, p);
      StampDiffers(now, h[i].due);
    }
  }

  lemma StampDiffers(t: nat, u: nat)
    requires t < u < t + 10 * LTE_NO_FRAMES
    ensures Frame(u) != Frame(t) || Subframe(u) != Subframe(t)
  {
  }

  // ------------------------------------------------------------ plans

  // Packets for ds, each in the next listed subframe after the one before, numbered from n.
  function Plan(s: Subframes, last: nat, ds: seq<seq<int>>, n: nat): (h: seq<Timed>)
    requires s != []
    ensures |h| == |ds|
    decreases |ds|, 0
  {
    if ds == [] then []
    else
      var k := |ds| - 1;
      Plan(s, last, ds[..k], n) + [Timed(NextIn(s, PlanEnd(s, last, ds[..k], n) + 1), ds[k], n + k)]
  }

  function PlanEnd(s: Subframes, last: nat, ds: seq<seq<int>>, n: nat): nat
    requires s != []
    decreases |ds|, 1
  {
    if ds == [] then last else Plan(s, last, ds, n)[|ds| - 1].due
  }

  lemma PlanAdd(s: Subframes, last: nat, ds: seq<seq<int>>, n: nat, d: seq<int>)
    requires s != []
    ensures Plan(s, last, ds + [d], n) == Plan(s, last, ds, n) + [Timed(NextIn(s, PlanEnd(s, last, ds, n) + 1), d, n + |ds|)]
    ensures PlanEnd(s, last, ds + [d], n) == NextIn(s, PlanEnd(s, last, ds, n) + 1)
  {
    assert (ds + [d])[..|ds|] == ds;
  }

  /** Entry by entry: the i-th packet, numbered on, in the first listed subframe after that of the packet before. */
  lemma {:induction false} PlanIs(s: Subframes, last: nat, ds: seq<seq<int>>, n: nat, i: nat)
    requires s != [] && i < |ds|
    ensures var h := Plan(s, last, ds, n);
            var before := if i == 0 then last else h[i - 1].due;
            && h[i].data == ds[i] && h[i].num == n + i && before < h[i].due && h[i].due % 10 in s
            && forall u :: before < u < h[i].due ==> u % 10 !in s
    decreases |ds|
  {
    var k := |ds| - 1;
    if i < k {
      PlanIs(s, last, ds[..k], n, i);
    } else {
      NextInIsFirst(s, PlanEnd(s, last, ds[..k], n) + 1);
    }
  }

  // ------------------------------------------------------------ the numbers of both streams

  predicate Rising(h: seq<Timed>) {
    forall i, j :: 0 <= i < j < |h| ==> h[i].num < h[j].num
  }

  predicate HasNumber(h: seq<Timed>, n: int) {
    exists i :: 0 <= i < |h| && h[i].num == n
  }

  /** The packets of both streams together are numbered from zero without gaps, each stream in its order. */
  ghost predicate Numbered(rrc: seq<Timed>, ip: seq<Timed>) {
    && Rising(rrc) && Rising(ip)
    && (forall n :: HasNumber(rrc, n) || HasNumber(ip, n) <==> 0 <= n < |rrc| + |ip|)
    && (forall n :: !(HasNumber(rrc, n) && HasNumber(ip, n)))
  }

  lemma HasEither(h: seq<Timed>, m: seq<Timed>, n: int)
    ensures HasNumber(h + m, n) <==> HasNumber(h, n) || HasNumber(m, n)
  {
    if i :| 0 <= i < |h| && h[i].num == n {
      assert (h + m)[i].num == n;
    }
    if i :| 0 <= i < |m| && m[i].num == n {
      assert (h + m)[|h| + i].num == n;
    }
  }

  lemma PlanNumbers(s: Subframes, last: nat, ds: seq<seq<int>>, n: nat, k: int)
    requires s != []
    ensures HasNumber(Plan(s, last, ds, n), k) <==> n <= k < n + |ds|
  {
    var h := Plan(s, last, ds, n);
    forall i | 0 <= i < |h|
      ensures h[i].num == n + i
    {
      PlanIs(s, last, ds, n, i);
    }
    if n <= k < n + |ds| {
      assert h[k - n].num == k;
    }
  }

  lemma RisingOn(s: Subframes, h: seq<Timed>, last: nat, ds: seq<seq<int>>, n: nat)
    requires s != [] && Rising(h) && forall k :: HasNumber(h, k) ==> k < n
    ensures Rising(h + Plan(s, last, ds, n))
  {
    var p := Plan(s, last, ds, n);
    var r := h + p;
    forall i, j | 0 <= i < j < |r|
      ensures r[i].num < r[j].num
    {
      if j >= |h| {
        PlanIs(s, last, ds, n, j - |h|);
        if i < |h| {
          assert HasNumber(h, h[i].num);
        } else {
          PlanIs(s, last, ds, n, i - |h|);
        }
      }
    }
  }

  lemma NumberedRrc(s: Subframes, rrc: seq<Timed>, ip: seq<Timed>, last: nat, ds: seq<seq<int>>)
    requires s != [] && Numbered(rrc, ip)
    ensures Numbered(rrc + Plan(s, last, ds, |rrc| + |ip|), ip)
  {
    hide Rising, HasNumber, Plan;
    RisingOn(s, rrc, last, ds, |rrc| + |ip|);
    forall n
      ensures HasNumber(rrc + Plan(s, last, ds, |rrc| + |ip|), n) <==> HasNumber(rrc, n) || |rrc| + |ip| <= n < |rrc| + |ip| + |ds|
    {
      HasEither(rrc, Plan(s, last, ds, |rrc| + |ip|), n);
      PlanNumbers(s, last, ds, |rrc| + |ip|, n);
    }
  }

  lemma NumberedIp(s: Subframes, rrc: seq<Timed>, ip: seq<Timed>, last: nat, ds: seq<seq<int>>)
    requires s != [] && Numbered(rrc, ip)
    ensures Numbered(rrc, ip + Plan(s, last, ds, |rrc| + |ip|))
  {
    hide Rising, HasNumber, Plan;
    NumberedRrc(s, ip, rrc, last, ds);
  }

  // ------------------------------------------------------------ a stream that fills up to the horizon

  // Each packet of a plan takes the next listed subframe, and leaves none out.
  lemma {:induction false} PlanSlots(s: Subframes, last: nat, ds: seq<seq<int>>, n: nat)
    requires s != []
    ensures SlotIndex(s, PlanEnd(s, last, ds, n) + 1) == SlotIndex(s, last + 1) + |ds|
    decreases |ds|
  {
    hide SlotIndex;
    if ds != [] {
      var k := |ds| - 1;
      PlanSlots(s, last, ds[..k], n);
      NextSlot(s, PlanEnd(s, last, ds[..k], n) + 1);
    }
  }

  /** A stream planned from time zero to beyond the horizon has a packet in every listed subframe of 21 frames but time zero. */
  lemma FilledUp(s: Subframes, ds: seq<seq<int>>, n: nat)
    requires s != [] && PlanEnd(s, 0, ds, n) / 10 > 20
    ensures |ds| >= 21 * |s| - (if s[0] == 0 then 1 else 0)
  {
    hide PlanEnd, Below;
    PlanSlots(s, 0, ds, n);
    BelowIs(s, 1, |s|, if s[0] == 0 then 1 else 0);
    MulMono(21, (PlanEnd(s, 0, ds, n) + 1) / 10, |s|);
  }

  // Nothing is planned for the time from which the plan goes on.
  lemma {:induction false} PlanLater(s: Subframes, last: nat, ds: seq<seq<int>>, n: nat)
    requires s != []
    ensures last <= PlanEnd(s, last, ds, n) && forall x :: x in Plan(s, last, ds, n) ==> last < x.due
    decreases |ds|
  {
    if ds != [] {
      PlanLater(s, last, ds[..|ds| - 1], n);
    }
  }

  lemma {:induction false} UnsentKind(kind: Subtype, h: seq<Timed>, i: nat, p: Packet)
    requires i <= |h| && p.subtype != kind
    ensures Unsent(kind, h, i)[p] == 0
    decreases |h| - i
  {
    if i < |h| {
      UnsentKind(kind, h, i + 1, p);
    }
  }
}
