/**
 The transmit queue of the MAC: a fixed array of slots with holes, used as a bag of
 packets stamped with the (frame, subframe) in which they are due (mac_tx_out_queue.c).
*/
module MacTxOutQueue {
  const TX_OUT_QUEUE_SIZE := 100

  datatype Subtype = SIB1 | SIB2 | RAR | RRC_SETUP | DCI0 | IP | EMPTY | NO_PKT

  datatype Packet = Packet(frame: int, subframe: int, subtype: Subtype, rv: int, harqNo: int, ndi: int, data: seq<int>)

  datatype Slot = Slot(pkt: Packet, taken: bool)

  predicate Due(p: Packet, frame: int, subframe: int) {
    p.frame == frame && p.subframe == subframe
  }

  predicate Matches(s: Slot, frame: int, subframe: int) {
    s.taken && Due(s.pkt, frame, subframe)
  }

  // ------------------------------------------------------------ the bag

  function Packets(s: Slot): multiset<Packet> {
    if s.taken then multiset{s.pkt} else multiset{}
  }

  // The packets in the first n slots.
  function Held(q: seq<Slot>, n: nat): (m: multiset<Packet>)
    requires n <= |q|
  {
    if n == 0 then multiset{} else Held(q, n - 1) + Packets(q[n - 1])
  }

  function Bag(q: seq<Slot>): (m: multiset<Packet>) {
    Held(q, |q|)
  }

  function Match(s: Slot, frame: int, subframe: int): (ps: seq<Packet>)
    ensures |ps| <= 1
  {
    if Matches(s, frame, subframe) then [s.pkt] else []
  }

  // The packets due at a time that sit in slot i or later, in slot order.
  function Matching(q: seq<Slot>, i: nat, frame: int, subframe: int): (ps: seq<Packet>)
    requires i <= |q|
    ensures |ps| <= |q| - i
    decreases |q| - i
  {
    if i == |q| then []
    else Match(q[i], frame, subframe) + Matching(q, i + 1, frame, subframe)
  }

  // The first slot at or after i that is due at a time, or |q|.
  function NextMatch(q: seq<Slot>, i: nat, frame: int, subframe: int): (k: nat)
    requires i <= |q|
    ensures i <= k <= |q|
    ensures k < |q| ==> Matches(q[k], frame, subframe)
    ensures forall j :: i <= j < k ==> !Matches(q[j], frame, subframe)
    decreases |q| - i
  {
    if i == |q| || Matches(q[i], frame, subframe) then i else NextMatch(q, i + 1, frame, subframe)
  }

  function FirstFree(q: seq<Slot>): (k: nat)
    ensures k <= |q|
    ensures k < |q| ==> !q[k].taken
    ensures forall j :: 0 <= j < k ==> q[j].taken
  {
    FreeFrom(q, 0)
  }

  function FreeFrom(q: seq<Slot>, i: nat): (k: nat)
    requires i <= |q|
    ensures i <= k <= |q|
    ensures k < |q| ==> !q[k].taken
    ensures forall j :: i <= j < k ==> q[j].taken
    decreases |q| - i
  {
    if i == |q| || !q[i].taken then i else FreeFrom(q, i + 1)
  }

  lemma {:induction false} FreeFound(q: seq<Slot>, j: nat, i: nat)
    requires j <= i <= |q| && (i < |q| ==> !q[i].taken) && forall k :: j <= k < i ==> q[k].taken
    ensures FreeFrom(q, j) == i
    decreases i - j
  {
    if j < i {
      FreeFound(q, j + 1, i);
    }
  }

  function Added(q: seq<Slot>, p: Packet): (r: seq<Slot>)
    ensures |r| == |q|
  {
    if FirstFree(q) < |q| then q[FirstFree(q) := Slot(p, true)] else q
  }

  function Cleared(s: Slot, frame: int, subframe: int): Slot {
    if Matches(s, frame, subframe) then s.(taken := false) else s
  }

  function Deleted(q: seq<Slot>, frame: int, subframe: int): (r: seq<Slot>)
    ensures |r| == |q|
  {
    seq(|q|, i requires 0 <= i < |q| => Cleared(q[i], frame, subframe))
  }

  // One past the last slot in use.
  function Extent(q: seq<Slot>, n: nat): (k: nat)
    requires n <= |q|
    ensures k <= n
    ensures k > 0 ==> q[k - 1].taken
    ensures forall j :: k <= j < n ==> !q[j].taken
  {
    if n == 0 || q[n - 1].taken then n else Extent(q, n - 1)
  }

  lemma {:induction false} HeldSame(q: seq<Slot>, r: seq<Slot>, n: nat)
    requires n <= |q| && n <= |r| && q[..n] == r[..n]
    ensures Held(q, n) == Held(r, n)
  {
    hide Packets;
    if n > 0 {
      assert q[..n - 1] == q[..n][..n - 1] == r[..n - 1];
      assert q[n - 1] == q[..n][n - 1] == r[..n][n - 1] == r[n - 1];
      HeldSame(q, r, n - 1);
    }
  }

  lemma Shuffle(a: multiset<Packet>, b: multiset<Packet>, d: multiset<Packet>)
    ensures a + b + d == a + d + b
  {
  }

  lemma {:induction false} HeldUpdate(q: seq<Slot>, i: nat, p: Packet, n: nat)
    requires i < n <= |q| && !q[i].taken
    ensures Held(q[i := Slot(p, true)], n) == Held(q, n) + multiset{p}
  {
    var r := q[i := Slot(p, true)];
    if i == n - 1 {
      assert Packets(r[i]) == multiset{p} && Packets(q[i]) == multiset{};
      hide Packets;
      assert q[..n - 1] == r[..n - 1];
      HeldSame(q, r, n - 1);
    } else {
      hide Packets;
      HeldUpdate(q, i, p, n - 1);
      Shuffle(Held(q, n - 1), multiset{p}, Packets(q[n - 1]));
    }
  }

  lemma HeldSize(q: seq<Slot>, n: nat)
    requires 0 < n <= |q|
    ensures |Held(q, n)| == |Held(q, n - 1)| + if q[n - 1].taken then 1 else 0
  {
  }

  lemma {:induction false} FullHeld(q: seq<Slot>, n: nat)
    requires n <= |q|
    ensures |Held(q, n)| <= n
    ensures |Held(q, n)| == n <==> forall j :: 0 <= j < n ==> q[j].taken
  {
    if n > 0 {
      hide Packets, Held;
      FullHeld(q, n - 1);
      HeldSize(q, n);
    }
  }

  /** Adding succeeds exactly while fewer packets than slots are held, wherever the holes are. */
  lemma AddedBag(q: seq<Slot>, p: Packet)
    ensures FirstFree(q) < |q| <==> |Bag(q)| < |q|
    ensures FirstFree(q) < |q| ==> Bag(Added(q, p)) == Bag(q) + multiset{p}
  {
    FullHeld(q, |q|);
    if FirstFree(q) < |q| {
      HeldUpdate(q, FirstFree(q), p, |q|);
    }
  }

  lemma {:induction false} DeletedHeld(q: seq<Slot>, frame: int, subframe: int, n: nat, p: Packet)
    requires n <= |q|
    ensures Held(Deleted(q, frame, subframe), n)[p] == if Due(p, frame, subframe) then 0 else Held(q, n)[p]
  {
    hide Packets, Cleared, Due;
    if n > 0 {
      DeletedHeld(q, frame, subframe, n - 1, p);
      DeletedNext(q, frame, subframe, n - 1, p);
    }
  }

  lemma DeletedNext(q: seq<Slot>, frame: int, subframe: int, i: nat, p: Packet)
    requires i < |q| && Held(Deleted(q, frame, subframe), i)[p] == if Due(p, frame, subframe) then 0 else Held(q, i)[p]
    ensures Held(Deleted(q, frame, subframe), i + 1)[p] == if Due(p, frame, subframe) then 0 else Held(q, i + 1)[p]
  {
    hide Held, Packets, Cleared, Due;
    ClearedPackets(q[i], frame, subframe, p);
    var d := Deleted(q, frame, subframe);
    assert d[i] == Cleared(q[i], frame, subframe);
    hide Deleted;
    HeldNext(q, i, p);
    HeldNext(d, i, p);
  }

  lemma ClearedPackets(s: Slot, frame: int, subframe: int, p: Packet)
    ensures Packets(Cleared(s, frame, subframe))[p] == if Due(p, frame, subframe) then 0 else Packets(s)[p]
  {
  }

  lemma {:induction false} MatchingHeld(q: seq<Slot>, frame: int, subframe: int, i: nat, p: Packet)
    requires i <= |q|
    ensures multiset(Matching(q, i, frame, subframe))[p] + (if Due(p, frame, subframe) then Held(q, i)[p] else 0)
              == if Due(p, frame, subframe) then Bag(q)[p] else 0
    decreases |q| - i
  {
    hide Match, Packets, Due, Held, Matching;
    if i < |q| {
      MatchingHeld(q, frame, subframe, i + 1, p);
      MatchCount(q[i], frame, subframe, p);
      HeldNext(q, i, p);
      MatchingNext(q, frame, subframe, i, p);
    } else {
      NothingMatches(q, frame, subframe);
    }
  }

  lemma HeldNext(q: seq<Slot>, i: nat, p: Packet)
    requires i < |q|
    ensures Held(q, i + 1)[p] == Held(q, i)[p] + Packets(q[i])[p]
  {
    hide Packets;
  }

  lemma MatchingNext(q: seq<Slot>, frame: int, subframe: int, i: nat, p: Packet)
    requires i < |q|
    ensures multiset(Matching(q, i, frame, subframe))[p] == multiset(Match(q[i], frame, subframe))[p] + multiset(Matching(q, i + 1, frame, subframe))[p]
  {
    hide Match;
    var a, b := Match(q[i], frame, subframe), Matching(q, i + 1, frame, subframe);
    assert Matching(q, i, frame, subframe) == a + b;
    hide Matching;
    assert multiset(a + b) == multiset(a) + multiset(b);
  }

  lemma NothingMatches(q: seq<Slot>, frame: int, subframe: int)
    ensures Matching(q, |q|, frame, subframe) == []
  {
  }

  lemma MatchCount(s: Slot, frame: int, subframe: int, p: Packet)
    ensures multiset(Match(s, frame, subframe))[p] == if Due(p, frame, subframe) then Packets(s)[p] else 0
  {
  }

  /** The walk finds, and deletion removes, exactly the packets due at the given time. */
  lemma WalkAndDelete(q: seq<Slot>, frame: int, subframe: int, p: Packet)
    ensures multiset(Matching(q, 0, frame, subframe))[p] == if p.frame == frame && p.subframe == subframe then Bag(q)[p] else 0
    ensures Bag(Deleted(q, frame, subframe))[p] == if p.frame == frame && p.subframe == subframe then 0 else Bag(q)[p]
  {
    MatchingHeld(q, frame, subframe, 0, p);
    DeletedHeld(q, frame, subframe, |q|, p);
  }

  lemma {:induction false} MatchingSkips(q: seq<Slot>, i: nat, k: nat, frame: int, subframe: int)
    requires i <= k <= |q| && forall j :: i <= j < k ==> !Matches(q[j], frame, subframe)
    ensures Matching(q, i, frame, subframe) == Matching(q, k, frame, subframe)
    decreases k - i
  {
    if i < k {
      MatchingSkips(q, i + 1, k, frame, subframe);
    }
  }

  lemma {:induction false} ExtentBetween(q: seq<Slot>, k: nat, n: nat)
    requires k <= n <= |q| && (k > 0 ==> q[k - 1].taken) && forall j :: k <= j < n ==> !q[j].taken
    ensures Extent(q, n) == k
  {
    if k < n {
      ExtentBetween(q, k, n - 1);
    }
  }

  lemma {:induction false} HeldIff(q: seq<Slot>, n: nat, p: Packet)
    requires n <= |q|
    ensures p in Held(q, n) <==> exists i :: 0 <= i < n && q[i].taken && q[i].pkt == p
  {
    if n > 0 {
      hide Packets, Held;
      HeldIff(q, n - 1, p);
      HeldAlso(q, n, p);
    } else {
      assert p !in Held(q, n);
    }
  }

  lemma HeldAlso(q: seq<Slot>, n: nat, p: Packet)
    requires 0 < n <= |q|
    ensures p in Held(q, n) <==> p in Held(q, n - 1) || (q[n - 1].taken && q[n - 1].pkt == p)
  {
  }

  // ------------------------------------------------------------ packets of one kind

  predicate Lacks(q: seq<Slot>, k: Subtype) {
    forall i :: 0 <= i < |q| && q[i].taken ==> q[i].pkt.subtype != k
  }

  lemma LacksAfter(q: seq<Slot>, p: Packet, frame: int, subframe: int, k: Subtype)
    requires Lacks(q, k)
    ensures p.subtype != k ==> Lacks(Added(q, p), k)
    ensures Lacks(Deleted(q, frame, subframe), k)
  {
  }

  // ------------------------------------------------------------ the queue

  class OutQueue {
    const slots: array<Slot>
    var size: nat

    ghost predicate Valid()
      reads this, slots
    {
      slots.Length == TX_OUT_QUEUE_SIZE && size == Extent(slots[..], TX_OUT_QUEUE_SIZE)
    }

    constructor ()
      ensures Valid() && fresh(slots) && slots.Length == 100 && Bag(slots[..]) == multiset{}
    {
      var empty := Slot(Packet(0, 0, NO_PKT, 0, 0, 0, []), false);
      slots := new Slot[TX_OUT_QUEUE_SIZE](_ => empty);
      size := 0;
      new;
      ExtentBetween(slots[..], 0, TX_OUT_QUEUE_SIZE);
      NoneHeld(slots[..], TX_OUT_QUEUE_SIZE);
    }

    method Add(p: Packet) returns (ok: bool)
      requires Valid()
      modifies this, slots
      ensures Valid()
      ensures ok <==> |Bag(old(slots[..]))| < 100
      ensures slots[..] == Added(old(slots[..]), p)
    {
      AddedBag(slots[..], p);
      var i := 0;
      while i < size && slots[i].taken
        invariant i <= size && forall j :: 0 <= j < i ==> slots[j].taken
      {
        i := i + 1;
      }
      FreeFound(slots[..], 0, i);
      if i < TX_OUT_QUEUE_SIZE {
        slots[i] := Slot(p, true);
        if i == size {
          size := size + 1;
        }
        ExtentBetween(slots[..], size, TX_OUT_QUEUE_SIZE);
        return true;
      }
      return false;
    }

    method Find(frame: int, subframe: int) returns (ind: int)
      requires Valid()
      ensures ind == var k := NextMatch(slots[..], 0, frame, subframe); if k < TX_OUT_QUEUE_SIZE then k else -1
    {
      for i := 0 to size
        invariant forall j :: 0 <= j < i ==> !Matches(slots[j], frame, subframe)
      {
        if slots[i].taken && slots[i].pkt.frame == frame && slots[i].pkt.subframe == subframe {
          return i;
        }
      }
      return -1;
    }

    method GetNext(start: nat) returns (ind: int)
      requires Valid() && start < size
      ensures ind == var k := NextMatch(slots[..], start + 1, slots[start].pkt.frame, slots[start].pkt.subframe);
                     if k < TX_OUT_QUEUE_SIZE then k else -1
    {
      ind := -1;
      var i := start + 1;
      while i < size && ind == -1
        invariant start < i <= size
        invariant ind == -1 ==> forall j :: start < j < i ==> !Matches(slots[j], slots[start].pkt.frame, slots[start].pkt.subframe)
        invariant ind != -1 ==> ind == NextMatch(slots[..], start + 1, slots[start].pkt.frame, slots[start].pkt.subframe) < size
        decreases size - i
      {
        if slots[i].taken {
          if slots[start].pkt.frame == slots[i].pkt.frame && slots[start].pkt.subframe == slots[i].pkt.subframe {
            ind := i;
          }
        }
        i := i + 1;
      }
    }

    method Delete(frame: int, subframe: int)
      requires Valid()
      modifies this, slots
      ensures Valid()
      ensures slots[..] == Deleted(old(slots[..]), frame, subframe)
    {
      for i := 0 to size
        invariant size == old(size)
        invariant forall j :: 0 <= j < i ==> slots[j] == Cleared(old(slots[..])[j], frame, subframe)
        invariant forall j :: i <= j < TX_OUT_QUEUE_SIZE ==> slots[j] == old(slots[..])[j]
      {
        if slots[i].taken && slots[i].pkt.frame == frame && slots[i].pkt.subframe == subframe {
          slots[i] := slots[i].(taken := false);
        }
      }
      assert slots[..] == Deleted(old(slots[..]), frame, subframe);
      while size > 0 && !slots[size - 1].taken
        invariant size <= TX_OUT_QUEUE_SIZE && slots[..] == Deleted(old(slots[..]), frame, subframe)
        invariant forall j :: size <= j < TX_OUT_QUEUE_SIZE ==> !slots[j].taken
      {
        size := size - 1;
      }
      ExtentBetween(slots[..], size, TX_OUT_QUEUE_SIZE);
    }
  }

  lemma {:induction false} NoneHeld(q: seq<Slot>, n: nat)
    requires n <= |q| && forall j :: 0 <= j < n ==> !q[j].taken
    ensures Held(q, n) == multiset{}
  {
    if n > 0 {
      NoneHeld(q, n - 1);
    }
  }
}
