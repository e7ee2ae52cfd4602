/**
 The MAC downlink scheduler (mac_tx.c): one callback per subframe schedules RRC and IP
 packets, hands the packets of the current subframe to the PHY and replaces recurring ones.
*/
module MacTx {
  import opened MacTxControl
  import opened MacTxData
  import opened MacTxOutQueue
  import opened MacTxStep
  import opened MacTxTime
  import opened Options

  const MEM_BUF_TX_MAX_CNT := 100
  const NO_PACKET := Packet(0, 0, NO_PKT, 0, 0, 0, [])

  // ------------------------------------------------------------ walking the queue while adding to it

  // q is q0 with packets added that are not due at the time of the walk.
  ghost predicate Grown(q0: seq<Slot>, q: seq<Slot>, f: int, s: int) {
    && |q| == |q0|
    && (forall i :: 0 <= i < |q0| && q0[i].taken ==> q[i] == q0[i])
    && (forall i :: 0 <= i < |q0| && !q0[i].taken && q[i].taken ==> !Due(q[i].pkt, f, s))
  }

  lemma AddedKeeps(q: seq<Slot>, r: Option<Packet>, k: nat)
    requires k < |q| && q[k].taken
    ensures WithFollower(q, r)[k] == q[k]
  {
  }

  lemma GrownAdd(q0: seq<Slot>, q: seq<Slot>, f: int, s: int, r: Option<Packet>)
    requires Grown(q0, q, f, s) && (r.Some? ==> !Due(r.value, f, s))
    ensures Grown(q0, WithFollower(q, r), f, s)
  {
  }

  // The walk sees the same next slot as without the additions.
  lemma {:induction false} GrownNext(q0: seq<Slot>, q: seq<Slot>, i: nat, f: int, s: int)
    requires Grown(q0, q, f, s) && i <= |q|
    ensures NextMatch(q, i, f, s) == NextMatch(q0, i, f, s)
    decreases |q| - i
  {
    if i < |q| {
      GrownNext(q0, q, i + 1, f, s);
    }
  }

  function WithFollower(q: seq<Slot>, r: Option<Packet>): (q': seq<Slot>)
    ensures |q'| == |q|
  {
    if r.Some? then Added(q, r.value) else q
  }

  // Adds the packet that replaces p, as the switch of mac_tx_schedule_next_SF does.
  method Replace(queue: OutQueue, c: Config, p: Packet, esf0: nat) returns (esf: nat, errors: nat)
    requires queue.Valid()
    requires p.subtype == EMPTY ==> c.emptySubF != [] && esf0 <= |c.emptySubF|
    modifies queue, queue.slots
    ensures queue.Valid()
    ensures errors == if Follower(c, p, esf0).Some? && |Bag(old(queue.slots[..]))| >= TX_OUT_QUEUE_SIZE then 1 else 0
    ensures queue.slots[..] == WithFollower(old(queue.slots[..]), Follower(c, p, esf0))
    ensures esf == EsfThen(c, p, esf0)
  {
    esf, errors := esf0, 0;
    var ok := true;
    match p.subtype {
      case SIB2 => ok := queue.Add(FillSIB2(c, (p.frame + 8) % LTE_NO_FRAMES));
      case RAR => ok := queue.Add(FillRAR((p.frame + 1) % LTE_NO_FRAMES, RAR_SUBFRAME));
      case SIB1 => ok := queue.Add(FillSIB1(c, (p.frame + 2) % LTE_NO_FRAMES));
      case DCI0 => ok := queue.Add(FillDCI0((p.frame + 1) % LTE_NO_FRAMES, 0));
      case EMPTY =>
        var next := p.frame;
        if esf == |c.emptySubF| {
          next, esf := (p.frame + 1) % LTE_NO_FRAMES, 0;
        }
        ok := queue.Add(FillEMPTY(next, c.emptySubF[esf]));
        esf := esf + 1;
      case _ =>
    }
    if !ok {
      errors := 1;
    }
  }

  // The number of packets too many for the queue.
  function Excess(n: int): nat {
    if n > TX_OUT_QUEUE_SIZE then n - TX_OUT_QUEUE_SIZE else 0
  }

  // The number of packets that are to be replaced.
  function Recurring(c: Config, ps: seq<Packet>, esf: nat): (n: nat)
    ensures n <= |ps|
  {
    if ps == [] then 0 else Recurring(c, ps[..|ps| - 1], esf) + (if Follower(c, ps[|ps| - 1], esf).Some? then 1 else 0)
  }

  // q is q0 with the replacements of done, as far as there is room; if there is none, it stays as it is.
  ghost predicate Replenished(c: Config, q0: seq<Slot>, q: seq<Slot>, done: seq<Packet>, esf0: nat) {
    var n := |Bag(q0)| + Recurring(c, done, esf0);
    && |Bag(q)| == n - Excess(n) && (|Bag(q0)| == TX_OUT_QUEUE_SIZE ==> q == q0)
    && (n <= TX_OUT_QUEUE_SIZE ==> forall r :: Bag(q)[r] == Bag(q0)[r] + Times(c, done, esf0, r))
  }

  // What the walk has done when it stands at slot k: done holds the matching packets of the slots before k.
  ghost predicate Walked(c: Config, q0: seq<Slot>, q: seq<Slot>, done: seq<Packet>, k: nat, esf0: nat, esf: nat, f: int, s: int)
    requires k <= |q0|
  {
    && Grown(q0, q, f, s) && (forall x :: Lacks(q0, x) ==> Lacks(q, x))
    && done + Matching(q0, k, f, s) == Matching(q0, 0, f, s)
    && Replenished(c, q0, q, done, esf0)
    && esf == EsfAfter(c, done, esf0, |done|)
  }

  lemma WalkStart(c: Config, q: seq<Slot>, esf: nat, f: int, s: int)
    requires |q| == TX_OUT_QUEUE_SIZE
    ensures Walked(c, q, q, [], NextMatch(q, 0, f, s), esf, esf, f, s)
  {
    MatchingSkips(q, 0, NextMatch(q, 0, f, s), f, s);
    FullHeld(q, |q|);
  }

  // The packet at the walk's slot is the next one of the list.
  lemma WalkList(q0: seq<Slot>, q: seq<Slot>, done: seq<Packet>, k: nat, f: int, s: int)
    requires k < |q0| == |q| && Grown(q0, q, f, s) && Matches(q[k], f, s)
    requires done + Matching(q0, k, f, s) == Matching(q0, 0, f, s)
    ensures q0[k] == q[k] && |done| < |Matching(q0, 0, f, s)| && Matching(q0, 0, f, s)[|done|] == q[k].pkt
    ensures Matching(q0, 0, f, s)[..|done|] == done
    ensures done + [q[k].pkt] + Matching(q0, NextMatch(q0, k + 1, f, s), f, s) == Matching(q0, 0, f, s)
  {
    hide NextMatch, Due;
    assert q0[k] == q[k] by {
      hide Matching;
    }
    hide Grown;
    var m := Matching(q0, k + 1, f, s);
    assert Matching(q0, k, f, s) == [q[k].pkt] + m;
    MatchingSkips(q0, k + 1, NextMatch(q0, k + 1, f, s), f, s);
    assert done + ([q[k].pkt] + m) == done + [q[k].pkt] + m;
  }

  lemma {:induction false} EsfSame(c: Config, a: seq<Packet>, b: seq<Packet>, esf: nat, n: nat)
    requires n <= |a| && n <= |b| && a[..n] == b[..n]
    ensures EsfAfter(c, a, esf, n) == EsfAfter(c, b, esf, n)
  {
    if n > 0 {
      assert a[..n - 1] == a[..n][..n - 1] == b[..n - 1];
      assert a[n - 1] == a[..n][n - 1] == b[n - 1];
      EsfSame(c, a, b, esf, n - 1);
    }
  }

  // Only the one EMPTY packet looks at the counter, and it sees it unchanged.
  lemma WalkFollower(c: Config, ps: seq<Packet>, n: nat, esf0: nat, e: int, f: int, s: int)
    requires n < |ps| && Replaceable(c, ps, esf0, e, f, s)
    ensures Follower(c, ps[n], EsfAfter(c, ps[..n], esf0, n)) == Follower(c, ps[n], esf0)
    ensures ps[n].subtype == EMPTY ==> EsfAfter(c, ps[..n], esf0, n) == esf0 && c.emptySubF != [] && esf0 <= |c.emptySubF|
    ensures Follower(c, ps[n], esf0).Some? ==> !Due(Follower(c, ps[n], esf0).value, f, s)
  {
    if ps[n].subtype == EMPTY {
      assert forall i :: 0 <= i < n ==> ps[..n][i] == ps[i];
      EsfUnchanged(c, ps[..n], esf0, n);
    }
  }

  lemma RecurringAdd(c: Config, done: seq<Packet>, p: Packet, esf0: nat)
    ensures Recurring(c, done + [p], esf0) == Recurring(c, done, esf0) + if Follower(c, p, esf0).Some? then 1 else 0
    ensures forall r :: Times(c, done + [p], esf0, r) == Times(c, done, esf0, r) + if Follower(c, p, esf0) == Some(r) then 1 else 0
  {
    assert (done + [p])[..|done|] == done;
  }

  // The number of packets too many after one more replacement.
  lemma ReplenishOne(c: Config, q0: seq<Slot>, q: seq<Slot>, done: seq<Packet>, p: Packet, esf0: nat)
    requires |q| == TX_OUT_QUEUE_SIZE && Replenished(c, q0, q, done, esf0)
    ensures Replenished(c, q0, WithFollower(q, Follower(c, p, esf0)), done + [p], esf0)
    ensures Excess(|Bag(q0)| + Recurring(c, done + [p], esf0)) - Excess(|Bag(q0)| + Recurring(c, done, esf0)) ==
            if Follower(c, p, esf0).Some? && |Bag(q)| >= TX_OUT_QUEUE_SIZE then 1 else 0
  {
    hide Bag, Recurring, Times, Follower;
    RecurringAdd(c, done, p, esf0);
    var o := Follower(c, p, esf0);
    if o.Some? {
      AddedBag(q, o.value);
    }
  }

  lemma FollowerKind(c: Config, q: seq<Slot>, p: Packet, esf: nat, x: Subtype)
    requires Lacks(q, x) && p.subtype != x
    ensures Lacks(WithFollower(q, Follower(c, p, esf)), x)
  {
    if Follower(c, p, esf).Some? {
      LacksAfter(q, Follower(c, p, esf).value, 0, 0, x);
    }
  }

  lemma WalkStep(c: Config, q0: seq<Slot>, q: seq<Slot>, done: seq<Packet>, k: nat, esf0: nat, esf: nat, f: int, s: int, e: int)
    requires k < |q0| == |q| == TX_OUT_QUEUE_SIZE && Walked(c, q0, q, done, k, esf0, esf, f, s) && Matches(q[k], f, s)
    requires Replaceable(c, Matching(q0, 0, f, s), esf0, e, f, s)
    ensures q[k].pkt.subtype == EMPTY ==> esf == esf0 && c.emptySubF != [] && esf <= |c.emptySubF|
    ensures var p := q[k].pkt;
            var q' := WithFollower(q, Follower(c, p, esf));
            && q'[k] == q[k] && Walked(c, q0, q', done + [p], NextMatch(q', k + 1, f, s), esf0, EsfThen(c, p, esf), f, s)
            && Excess(|Bag(q0)| + Recurring(c, done + [p], esf0)) - Excess(|Bag(q0)| + Recurring(c, done, esf0)) ==
               if Follower(c, p, esf).Some? && |Bag(q)| >= TX_OUT_QUEUE_SIZE then 1 else 0
  {
    hide Grown, Matching, NextMatch, Replaceable, Times, Bag, Follower, EsfThen, Due, WithFollower, Replenished, Recurring, Lacks, Excess;
    var p := q[k].pkt;
    WalkList(q0, q, done, k, f, s);
    WalkFollower(c, Matching(q0, 0, f, s), |done|, esf0, e, f, s);
    var o := Follower(c, p, esf0);
    GrownAdd(q0, q, f, s, o);
    AddedKeeps(q, o, k);
    var q' := WithFollower(q, o);
    ReplenishOne(c, q0, q, done, p, esf0);
    forall x | Lacks(q0, x)
      ensures Lacks(q', x)
    {
      assert p.subtype != x by {
        NotOfKind(q, k, x);
      }
      FollowerKind(c, q, p, esf0, x);
    }
    GrownNext(q0, q', k + 1, f, s);
    EsfSame(c, done + [p], done, esf0, |done|);
  }

  lemma NotOfKind(q: seq<Slot>, k: nat, x: Subtype)
    requires k < |q| && q[k].taken && Lacks(q, x)
    ensures q[k].pkt.subtype != x
  {
  }

  lemma WalkInside(c: Config, q0: seq<Slot>, q: seq<Slot>, done: seq<Packet>, k: nat, esf0: nat, esf: nat, f: int, s: int)
    requires k < |q0| == |q| && Walked(c, q0, q, done, k, esf0, esf, f, s) && Matches(q[k], f, s)
    ensures |done| < |Matching(q0, 0, f, s)|
  {
    hide Grown, Matching, Bag, Times, EsfAfter, Replenished, Lacks;
    WalkList(q0, q, done, k, f, s);
  }

  // One turn of the walk: copy out the packet in slot qptr, add what replaces it, move on.
  method HandOver(queue: OutQueue, buf: array<Packet>, entries: nat, qptr0: nat, c: Config, f: int, s: int, esf0: nat,
      ghost q0: seq<Slot>, ghost esfStart: nat, ghost e: int) returns (qptr: int, esf: nat, errors: nat)
    requires queue.Valid() && entries < buf.Length && qptr0 < TX_OUT_QUEUE_SIZE && |q0| == TX_OUT_QUEUE_SIZE
    requires Matches(queue.slots[qptr0], f, s)
    requires Walked(c, q0, queue.slots[..], buf[..entries], qptr0, esfStart, esf0, f, s)
    requires Replaceable(c, Matching(q0, 0, f, s), esfStart, e, f, s)
    modifies queue, queue.slots, buf
    ensures queue.Valid()
    ensures errors == Excess(|Bag(q0)| + Recurring(c, buf[..entries + 1], esfStart)) - Excess(|Bag(q0)| + Recurring(c, old(buf[..entries]), esfStart))
    ensures qptr == -1 || (qptr0 < qptr < TX_OUT_QUEUE_SIZE && Matches(queue.slots[qptr], f, s))
    ensures Walked(c, q0, queue.slots[..], buf[..entries + 1], if qptr == -1 then TX_OUT_QUEUE_SIZE else qptr, esfStart, esf, f, s)
  {
    hide Walked, Recurring, Excess, Bag, Replaceable;
    ghost var q, done := queue.slots[..], buf[..entries];
    WalkStep(c, q0, q, done, qptr0, esfStart, esf0, f, s, e);
    var p := queue.slots[qptr0].pkt;
    buf[entries] := p;
    assert buf[..entries + 1] == done + [p];
    esf, errors := Replace(queue, c, p, esf0);
    qptr := queue.GetNext(qptr0);
  }

  // After the walk the sent packets are deleted, if there were any.
  lemma WalkEnd(c: Config, q0: seq<Slot>, q: seq<Slot>, ps: seq<Packet>, esf0: nat, esf: nat, f: int, s: int)
    requires Walked(c, q0, q, ps, |q0|, esf0, esf, f, s)
    ensures ps == Matching(q0, 0, f, s) && esf == EsfAfter(c, ps, esf0, |ps|) && (|Bag(q0)| == TX_OUT_QUEUE_SIZE ==> q == q0)
    ensures Excess(|Bag(q0)| + Recurring(c, ps, esf0)) == 0 ==> Stepped(c, q0, Deleted(q, f, s), ps, esf0, f, s)
    ensures forall x :: Lacks(q0, x) ==> Lacks(Deleted(q, f, s), x)
  {
    hide Bag, Times, Grown, EsfAfter, Deleted, Recurring, Lacks;
    assert ps + [] == ps;
    forall r
      ensures Bag(Deleted(q, f, s))[r] == if Due(r, f, s) then 0 else Bag(q)[r]
    {
      WalkAndDelete(q, f, s, r);
    }
    forall x | Lacks(q, x)
      ensures Lacks(Deleted(q, f, s), x)
    {
      LacksAfter(q, NO_PACKET, f, s, x);
    }
  }

  lemma NoneYet(c: Config, q: seq<Slot>, esf: nat)
    requires |q| == TX_OUT_QUEUE_SIZE
    ensures Recurring(c, [], esf) == 0 && Excess(|Bag(q)|) == 0
  {
    FullHeld(q, |q|);
  }

  lemma NothingDue(q: seq<Slot>, f: int, s: int)
    requires NextMatch(q, 0, f, s) == |q|
    ensures Deleted(q, f, s) == q
  {
  }

  /**
   Hands over the packets of one subframe, adding what replaces them while the walk goes on, and
   deletes what was sent: the output is exactly the packets that were in the queue for this subframe,
   in slot order, then one no-packet marker. Of the replacements, those are dropped that the queue has no room for
   while the packets sent are still in it: all of them if it is full.
  */
  method ScheduleNextSF(queue: OutQueue, buf: array<Packet>, c: Config, f: int, s: int, esf0: nat, ghost e: int)
      returns (entries: nat, esf: nat, errors: nat)
    requires queue.Valid() && buf.Length == MEM_BUF_TX_MAX_CNT
    requires |Matching(queue.slots[..], 0, f, s)| < MEM_BUF_TX_MAX_CNT
    requires Replaceable(c, Matching(queue.slots[..], 0, f, s), esf0, e, f, s)
    modifies queue, queue.slots, buf
    ensures queue.Valid() && entries <= buf.Length
    ensures buf[..entries] == Matching(old(queue.slots[..]), 0, f, s) + [NO_PACKET]
    ensures var q, ps := old(queue.slots[..]), Matching(old(queue.slots[..]), 0, f, s);
            && errors == Excess(|Bag(q)| + Recurring(c, ps, esf0)) && esf == EsfAfter(c, ps, esf0, |ps|)
            && (errors == 0 ==> Stepped(c, q, queue.slots[..], ps, esf0, f, s))
            && (|Bag(q)| == TX_OUT_QUEUE_SIZE ==> queue.slots[..] == Deleted(q, f, s))
            && forall x :: Lacks(q, x) ==> Lacks(queue.slots[..], x)
  {
    hide Walked, Matching, NextMatch, Replaceable, Bag, Stepped, EsfAfter, Deleted, Recurring, Lacks;
    ghost var q0 := queue.slots[..];
    ghost var ps := Matching(q0, 0, f, s);
    entries, esf, errors := 0, esf0, 0;
    var qptr := queue.Find(f, s);
    var qorig := qptr;
    WalkStart(c, q0, esf0, f, s);
    NoneYet(c, q0, esf0);
    while qptr != -1
      invariant queue.Valid() && -1 <= qptr < TX_OUT_QUEUE_SIZE && entries <= |ps|
      invariant errors == Excess(|Bag(q0)| + Recurring(c, buf[..entries], esf0))
      invariant qptr != -1 ==> Matches(queue.slots[qptr], f, s)
      invariant Walked(c, q0, queue.slots[..], buf[..entries], if qptr == -1 then TX_OUT_QUEUE_SIZE else qptr, esf0, esf, f, s)
      invariant qorig == -1 ==> qptr == -1 && queue.slots[..] == q0
      decreases if qptr == -1 then 0 else TX_OUT_QUEUE_SIZE - qptr
    {
      WalkInside(c, q0, queue.slots[..], buf[..entries], qptr, esf0, esf, f, s);
      var err;
      qptr, esf, err := HandOver(queue, buf, entries, qptr, c, f, s, esf, q0, esf0, e);
      entries := entries + 1;
      errors := errors + err;
    }
    WalkEnd(c, q0, queue.slots[..], buf[..entries], esf0, esf, f, s);
    if qorig != -1 {
      queue.Delete(f, s);
    } else {
      NothingDue(q0, f, s);
    }
    buf[entries] := NO_PACKET;
    entries := entries + 1;
    assert buf[..entries] == ps + [NO_PACKET];
  }

  // ------------------------------------------------------------ scheduling data packets

  // The horizon test on stamps is the test on absolute times, and leaves only finitely many turns.
  lemma TrackHorizon(s: Subframes, h: seq<Timed>, sent: nat, now: nat, last: nat)
    requires Track(s, h, sent, now, last)
    ensures CheckTimeHorizon(Frame(now), Subframe(now), Frame(last), Subframe(last)) ==
            if last / 10 - now / 10 > MAX_TIME_HORIZON then 0 else 1
    ensures last < 10 * (now / 10 + MAX_TIME_HORIZON + 2)
  {
    HorizonOrder(now, last);
  }

  // What the queue holds: the other packets and the unsent part of the stream, of which it may have dropped what was too many.
  ghost predicate Holds(queue: OutQueue, kind: Subtype, rest: multiset<Packet>, h: seq<Timed>, sent: nat)
    reads queue, queue.slots
  {
    && queue.Valid() && sent <= |h| && HoldsBag(Bag(queue.slots[..]), rest, Unsent(kind, h, sent))
  }

  // The bag of the queue: rest and u, if there is room for them, or as many as there is room for.
  ghost predicate HoldsBag(b: multiset<Packet>, rest: multiset<Packet>, u: multiset<Packet>) {
    && rest <= b <= rest + u && |b| == |rest| + |u| - Excess(|rest| + |u|)
    && (Excess(|rest| + |u|) == 0 ==> b == rest + u)
  }

  lemma HoldsMore(b: multiset<Packet>, rest: multiset<Packet>, u: multiset<Packet>, p: Packet)
    requires HoldsBag(b, rest, u)
    ensures HoldsBag(if |b| < TX_OUT_QUEUE_SIZE then b + multiset{p} else b, rest, u + multiset{p})
    ensures |b| < TX_OUT_QUEUE_SIZE <==> |rest| + |u| < TX_OUT_QUEUE_SIZE
  {
  }

  // Adds one data packet and moves the HARQ state on.
  method PutData(queue: OutQueue, kind: Subtype, frame: int, subframe: int, data: seq<int>, harq0: int, ndi0: int,
      ghost x: Timed, ghost h: seq<Timed>, ghost sent: nat, ghost rest: multiset<Packet>) returns (harq: int, ndi: int, dropped: nat)
    requires Holds(queue, kind, rest, h, sent)
    requires frame == Frame(x.due) && subframe == Subframe(x.due) && data == x.data
    requires harq0 == HarqOf(x.num) && ndi0 == NdiOf(x.num)
    modifies queue, queue.slots
    ensures harq == HarqOf(x.num + 1) && ndi == NdiOf(x.num + 1)
    ensures dropped == Excess(|rest| + |h| + 1 - sent) - Excess(|rest| + |h| - sent)
    ensures Holds(queue, kind, rest, h + [x], sent)
  {
    var p := Packet(frame, subframe, kind, 0, harq0, ndi0, data);
    harq, ndi := UpdateHARQ(harq0, ndi0, x.num);
    AddedBag(queue.slots[..], p);
    UnsentAdd(kind, h, sent, x);
    HoldsMore(Bag(queue.slots[..]), rest, Unsent(kind, h, sent), p);
    hide Bag, HoldsBag, Unsent;
    var ok := queue.Add(p);
    dropped := if ok then 0 else 1;
  }

  // A message from the uplink: control signalling, or a shared-channel packet with the response it causes.
  datatype UlMessage = ULCCH | ULSCH(response: seq<int>)

  predicate Answered(m: UlMessage) {
    m.ULSCH? && m.response != []
  }

  // The responses to the first n messages.
  function Responses(rx: seq<UlMessage>, n: nat): seq<seq<int>>
    requires n <= |rx|
  {
    if n == 0 then [] else Responses(rx, n - 1) + (if Answered(rx[n - 1]) then [rx[n - 1].response] else [])
  }

  lemma ResponsesNext(rx: seq<UlMessage>, k: nat)
    requires k < |rx|
    ensures Responses(rx, k + 1) == if Answered(rx[k]) then Responses(rx, k) + [rx[k].response] else Responses(rx, k)
  {
  }

  /** They are the answers of the shared-channel messages that have one, in the order of arrival. */
  lemma {:induction false} ResponsesInOrder(rx: seq<UlMessage>, n: nat)
    requires 0 < n <= |rx|
    ensures Responses(rx, n) == (if rx[0].ULSCH? && rx[0].response != [] then [rx[0].response] else []) + Responses(rx[1..], n - 1)
  {
    ResponsesNext(rx, n - 1);
    if n > 1 {
      ResponsesInOrder(rx, n - 1);
      ResponsesNext(rx[1..], n - 2);
      assert rx[1..][n - 2] == rx[n - 1];
    }
  }

  // The state of scheduling a stream: h0 is what was scheduled before, ds what has been scheduled since.
  ghost predicate Scheduling(s: Subframes, h0: seq<Timed>, ds: seq<seq<int>>, sent: nat, now: nat, last0: nat, last: nat, n: nat) {
    s != [] && last == PlanEnd(s, last0, ds, n) && Track(s, h0 + Plan(s, last0, ds, n), sent, now, last)
  }

  lemma SentInside(s: Subframes, h: seq<Timed>, sent: nat, now: nat, last: nat)
    requires Track(s, h, sent, now, last)
    ensures sent <= |h|
  {
  }

  // The number of packets that the queue has to hold after n were scheduled.
  function Stock(rest: multiset<Packet>, h0: seq<Timed>, n: nat, sent: nat): int {
    |rest| + |h0| + n - sent
  }

  // The next packet of a stream, and where it goes.
  lemma ScheduleMore(s: Subframes, h0: seq<Timed>, ds: seq<seq<int>>, sent: nat, now: nat, last0: nat, last: nat, n: nat, d: seq<int>)
      returns (x: Timed, h: seq<Timed>)
    requires Scheduling(s, h0, ds, sent, now, last0, last, n) && last / 10 - now / 10 <= MAX_TIME_HORIZON
    ensures x.due == NextIn(s, last + 1) && last < x.due && x.num == n + |ds| && x.data == d
    ensures h == h0 + Plan(s, last0, ds, n) && h + [x] == h0 + Plan(s, last0, ds + [d], n)
    ensures sent <= |h| && |h| == |h0| + |ds|
    ensures Scheduling(s, h0, ds + [d], sent, now, last0, x.due, n)
  {
    hide Track;
    x, h := Timed(NextIn(s, last + 1), d, n + |ds|), h0 + Plan(s, last0, ds, n);
    PlanAdd(s, last0, ds, n, d);
    TrackAdd(s, h, sent, now, last, x);
    SentInside(s, h, sent, now, last);
  }

  function Latest(t: nat, u: nat): nat {
    if u < t then t else u
  }

  // The stream must not lag behind the current time.
  method CatchUp(frame: int, subframe: int, frame0: int, subframe0: int, s: Subframes,
      ghost h: seq<Timed>, ghost sent: nat, ghost now: nat, ghost last0: nat) returns (lastFrame: int, lastSubframe: int, ghost last: nat)
    requires frame == Frame(now) && subframe == Subframe(now) && frame0 == Frame(last0) && subframe0 == Subframe(last0)
    requires Track(s, h, sent, now, last0)
    ensures Track(s, h, sent, now, last) && last == Latest(now, last0)
    ensures lastFrame == Frame(last) && lastSubframe == Subframe(last)
  {
    lastFrame, lastSubframe, last := frame0, subframe0, last0;
    CompareTimeOrder(now, last0);
    if CompareTime(frame, subframe, frame0, subframe0) == 1 {
      lastFrame, lastSubframe, last := frame, subframe, now;
    }
  }

  // The scheduler's view of a stream agrees with its ghost state after ds were scheduled.
  ghost predicate Ready(queue: OutQueue, kind: Subtype, s: Subframes, lastFrame: int, lastSubframe: int, harq: int, ndi: int,
      h0: seq<Timed>, ds: seq<seq<int>>, sent: nat, now: nat, last0: nat, last: nat, n: nat, rest: multiset<Packet>)
    reads queue, queue.slots
  {
    && Scheduling(s, h0, ds, sent, now, last0, last, n)
    && Holds(queue, kind, rest, h0 + Plan(s, last0, ds, n), sent)
    && lastFrame == Frame(last) && lastSubframe == Subframe(last)
    && harq == HarqOf(n + |ds|) && ndi == NdiOf(n + |ds|)
  }

  lemma ReadyAtFirst(queue: OutQueue, kind: Subtype, s: Subframes, lastFrame: int, lastSubframe: int, harq: int, ndi: int,
      h0: seq<Timed>, sent: nat, now: nat, last0: nat, n: nat, rest: multiset<Packet>)
    requires Track(s, h0, sent, now, last0) && Holds(queue, kind, rest, h0, sent)
    requires lastFrame == Frame(last0) && lastSubframe == Subframe(last0) && harq == HarqOf(n) && ndi == NdiOf(n)
    ensures Ready(queue, kind, s, lastFrame, lastSubframe, harq, ndi, h0, [], sent, now, last0, last0, n, rest)
  {
    assert h0 + Plan(s, last0, [], n) == h0;
  }

  // One response: it is scheduled unless the horizon is reached.
  method AnswerOne(queue: OutQueue, frame: int, subframe: int, response: seq<int>, frame0: int, subframe0: int, harq0: int, ndi0: int,
      ghost h0: seq<Timed>, ghost ds: seq<seq<int>>, ghost sent: nat, ghost now: nat, ghost last0: nat, ghost last: nat, ghost n: nat,
      ghost rest: multiset<Packet>) returns (full: bool, lastFrame: int, lastSubframe: int, harq: int, ndi: int, dropped: nat)
    requires frame == Frame(now) && subframe == Subframe(now)
    requires Ready(queue, RRC_SETUP, RRC_SUBF, frame0, subframe0, harq0, ndi0, h0, ds, sent, now, last0, last, n, rest)
    modifies queue, queue.slots
    ensures full <==> last / 10 - now / 10 > MAX_TIME_HORIZON
    ensures dropped == if full then 0 else Excess(Stock(rest, h0, |ds| + 1, sent)) - Excess(Stock(rest, h0, |ds|, sent))
    ensures Ready(queue, RRC_SETUP, RRC_SUBF, lastFrame, lastSubframe, harq, ndi, h0, if full then ds else ds + [response],
              sent, now, last0, if full then last else NextIn(RRC_SUBF, last + 1), n, rest)
  {
    hide Track, Holds, Plan, NextIn, Frame, Subframe, CheckTimeHorizon, HarqOf, NdiOf;
    full, lastFrame, lastSubframe, harq, ndi, dropped := false, frame0, subframe0, harq0, ndi0, 0;
    TrackHorizon(RRC_SUBF, h0 + Plan(RRC_SUBF, last0, ds, n), sent, now, last);
    if CheckTimeHorizon(frame, subframe, lastFrame, lastSubframe) == 1 {
      lastFrame, lastSubframe := NextRRCSubframe(lastFrame, lastSubframe, last);
      ghost var x, h := ScheduleMore(RRC_SUBF, h0, ds, sent, now, last0, last, n, response);
      harq, ndi, dropped := PutData(queue, RRC_SETUP, lastFrame, lastSubframe, response, harq, ndi, x, h, sent, rest);
    } else {
      full := true;
    }
  }

  // The while loop of mac_tx_schedule_RRC: k messages are answered; if it stops early, message k is lost.
  method AnswerAll(queue: OutQueue, frame: int, subframe: int, rx: seq<UlMessage>, frame0: int, subframe0: int, harq0: int, ndi0: int,
      ghost now: nat, ghost h0: seq<Timed>, ghost sent: nat, ghost last0: nat, ghost n: nat, ghost rest: multiset<Packet>)
      returns (k: nat, full: bool, lastFrame: int, lastSubframe: int, harq: int, ndi: int, dropped: nat, ghost last: nat)
    requires frame == Frame(now) && subframe == Subframe(now)
    requires Ready(queue, RRC_SETUP, RRC_SUBF, frame0, subframe0, harq0, ndi0, h0, [], sent, now, last0, last0, n, rest)
    modifies queue, queue.slots
    ensures k <= |rx| && dropped == Excess(Stock(rest, h0, |Responses(rx, k)|, sent)) - Excess(Stock(rest, h0, 0, sent))
    ensures if full then k < |rx| && Answered(rx[k]) && last / 10 - now / 10 > MAX_TIME_HORIZON else k == |rx|
    ensures Ready(queue, RRC_SETUP, RRC_SUBF, lastFrame, lastSubframe, harq, ndi, h0, Responses(rx, k), sent, now, last0, last, n, rest)
  {
    hide Ready;
    k, full, dropped := 0, false, 0;
    lastFrame, lastSubframe, harq, ndi, last := frame0, subframe0, harq0, ndi0, last0;
    while k < |rx|
      invariant k <= |rx| && !full && dropped == Excess(Stock(rest, h0, |Responses(rx, k)|, sent)) - Excess(Stock(rest, h0, 0, sent))
      invariant Ready(queue, RRC_SETUP, RRC_SUBF, lastFrame, lastSubframe, harq, ndi, h0, Responses(rx, k), sent, now, last0, last, n, rest)
    {
      ResponsesNext(rx, k);
      if Answered(rx[k]) {
        var drop;
        full, lastFrame, lastSubframe, harq, ndi, drop := AnswerOne(queue, frame, subframe, rx[k].response,
          lastFrame, lastSubframe, harq, ndi, h0, Responses(rx, k), sent, now, last0, last, n, rest);
        dropped := dropped + drop;
        if full {
          break;
        }
        last := NextIn(RRC_SUBF, last + 1);
      }
      k := k + 1;
    }
  }

  /**
   mac_tx_schedule_RRC: the responses to the messages are scheduled in order, one per frame,
   until there are no more messages or the horizon is reached, in which case one response is lost.
  */
  method ScheduleRRC(queue: OutQueue, frame: int, subframe: int, rx: seq<UlMessage>, frame0: int, subframe0: int, harq0: int, ndi0: int,
      ghost now: nat, ghost h0: seq<Timed>, ghost sent: nat, ghost last0: nat, ghost n: nat, ghost rest: multiset<Packet>)
      returns (k: nat, full: bool, lastFrame: int, lastSubframe: int, harq: int, ndi: int, dropped: nat, ghost last: nat)
    requires frame == Frame(now) && subframe == Subframe(now)
    requires Ready(queue, RRC_SETUP, RRC_SUBF, frame0, subframe0, harq0, ndi0, h0, [], sent, now, last0, last0, n, rest)
    modifies queue, queue.slots
    ensures k <= |rx| && dropped == Excess(Stock(rest, h0, |Responses(rx, k)|, sent)) - Excess(Stock(rest, h0, 0, sent))
    ensures if full then k < |rx| && Answered(rx[k]) && last / 10 - now / 10 > MAX_TIME_HORIZON else k == |rx|
    ensures last == Latest(now, PlanEnd(RRC_SUBF, last0, Responses(rx, k), n))
    ensures Scheduled(queue, RRC_SETUP, RRC_SUBF, lastFrame, lastSubframe, harq, ndi, h0, Responses(rx, k), sent, now, last0, last, n, rest)
  {
    hide Track, Holds, Plan, Frame, Subframe, HarqOf, NdiOf;
    k, full, lastFrame, lastSubframe, harq, ndi, dropped, last := AnswerAll(queue, frame, subframe, rx, frame0, subframe0, harq0, ndi0,
      now, h0, sent, last0, n, rest);
    HorizonNotLate(now, last);
    lastFrame, lastSubframe, last := CatchUp(frame, subframe, lastFrame, lastSubframe, RRC_SUBF,
      h0 + Plan(RRC_SUBF, last0, Responses(rx, k), n), sent, now, last);
  }

  lemma HorizonNotLate(now: nat, last: nat)
    ensures last / 10 - now / 10 > MAX_TIME_HORIZON ==> now <= last
  {
  }

  // The stream after ds were scheduled and any lag was made up.
  ghost predicate Scheduled(queue: OutQueue, kind: Subtype, s: Subframes, lastFrame: int, lastSubframe: int, harq: int, ndi: int,
      h0: seq<Timed>, ds: seq<seq<int>>, sent: nat, now: nat, last0: nat, last: nat, n: nat, rest: multiset<Packet>)
    reads queue, queue.slots
  {
    && s != [] && Track(s, h0 + Plan(s, last0, ds, n), sent, now, last) && now <= last
    && Holds(queue, kind, rest, h0 + Plan(s, last0, ds, n), sent)
    && lastFrame == Frame(last) && lastSubframe == Subframe(last)
    && harq == HarqOf(n + |ds|) && ndi == NdiOf(n + |ds|)
  }

  // ------------------------------------------------------------ IP packets

  // What one look at the IP interface gives: nothing, or a packet with the transport block size found for it.
  datatype Fetch = NoPacket | Fetched(data: seq<int>, tbs: int)

  predicate Fits(x: Fetch) {
    x.Fetched? && x.tbs > 0
  }

  // The first n packets of a source that fit.
  function Payloads(source: nat -> Fetch, n: nat): (ds: seq<seq<int>>)
    requires forall i :: 0 <= i < n ==> Fits(source(i))
    ensures |ds| == n
  {
    seq(n, i requires 0 <= i < n && Fits(source(i)) => source(i).data)
  }

  // One packet.
  method SendOne(queue: OutQueue, c: Config, data: seq<int>, frame0: int, subframe0: int, harq0: int, ndi0: int,
      ghost h0: seq<Timed>, ghost ds: seq<seq<int>>, ghost sent: nat, ghost now: nat, ghost last0: nat, ghost last: nat, ghost n: nat,
      ghost rest: multiset<Packet>) returns (lastFrame: int, lastSubframe: int, harq: int, ndi: int, dropped: nat)
    requires last / 10 - now / 10 <= MAX_TIME_HORIZON && c.dataSubF != []
    requires Ready(queue, IP, IpSubframes(c), frame0, subframe0, harq0, ndi0, h0, ds, sent, now, last0, last, n, rest)
    modifies queue, queue.slots
    ensures dropped == Excess(Stock(rest, h0, |ds| + 1, sent)) - Excess(Stock(rest, h0, |ds|, sent))
    ensures Ready(queue, IP, IpSubframes(c), lastFrame, lastSubframe, harq, ndi, h0, ds + [data],
              sent, now, last0, NextIn(IpSubframes(c), last + 1), n, rest)
    ensures last < NextIn(IpSubframes(c), last + 1)
  {
    hide Track, Holds, Plan, NextIn, Frame, Subframe, HarqOf, NdiOf;
    lastFrame, lastSubframe := NextIPSubframe(frame0, subframe0, c.dataSubF, last);
    ghost var x, h := ScheduleMore(IpSubframes(c), h0, ds, sent, now, last0, last, n, data);
    harq, ndi, dropped := PutData(queue, IP, lastFrame, lastSubframe, data, harq0, ndi0, x, h, sent, rest);
  }

  // The do-while loop of mac_tx_schedule_IP. It ends even if the source never does.
  method SendAll(queue: OutQueue, c: Config, frame: int, subframe: int, source: nat -> Fetch, frame0: int, subframe0: int, harq0: int, ndi0: int,
      ghost now: nat, ghost h0: seq<Timed>, ghost sent: nat, ghost last0: nat, ghost n: nat, ghost rest: multiset<Packet>)
      returns (k: nat, full: bool, lastFrame: int, lastSubframe: int, harq: int, ndi: int, dropped: nat, ghost last: nat)
    requires frame == Frame(now) && subframe == Subframe(now) && (c.dataSubF == [] ==> forall i :: !Fits(source(i)))
    requires Ready(queue, IP, IpSubframes(c), frame0, subframe0, harq0, ndi0, h0, [], sent, now, last0, last0, n, rest)
    modifies queue, queue.slots
    ensures dropped == Excess(Stock(rest, h0, k, sent)) - Excess(Stock(rest, h0, 0, sent))
    ensures forall i :: 0 <= i < k ==> Fits(source(i))
    ensures if full then last / 10 - now / 10 > MAX_TIME_HORIZON else !Fits(source(k))
    ensures Ready(queue, IP, IpSubframes(c), lastFrame, lastSubframe, harq, ndi, h0, Payloads(source, k), sent, now, last0, last, n, rest)
  {
    hide Track, Holds, Plan, NextIn, Frame, Subframe, CheckTimeHorizon, HarqOf, NdiOf;
    k, full, dropped := 0, false, 0;
    lastFrame, lastSubframe, harq, ndi, last := frame0, subframe0, harq0, ndi0, last0;
    var again := true;
    while again
      invariant !full && dropped == Excess(Stock(rest, h0, k, sent)) - Excess(Stock(rest, h0, 0, sent))
      invariant forall i :: 0 <= i < k ==> Fits(source(i))
      invariant !again ==> !Fits(source(k))
      invariant Ready(queue, IP, IpSubframes(c), lastFrame, lastSubframe, harq, ndi, h0, Payloads(source, k), sent, now, last0, last, n, rest)
      decreases 10 * (now / 10 + MAX_TIME_HORIZON + 2) - last, again
    {
      TrackHorizon(IpSubframes(c), h0 + Plan(IpSubframes(c), last0, Payloads(source, k), n), sent, now, last);
      if CheckTimeHorizon(frame, subframe, lastFrame, lastSubframe) == 1 {
        var x := source(k);
        if x.NoPacket? {
          break;
        }
        if x.tbs > 0 {
          var drop;
          lastFrame, lastSubframe, harq, ndi, drop := SendOne(queue, c, x.data, lastFrame, lastSubframe, harq, ndi,
            h0, Payloads(source, k), sent, now, last0, last, n, rest);
          assert Payloads(source, k + 1) == Payloads(source, k) + [x.data];
          dropped, k, last := dropped + drop, k + 1, NextIn(IpSubframes(c), last + 1);
        } else {
          again := false;
        }
      } else {
        full := true;
        break;
      }
    }
  }

  /**
   mac_tx_schedule_IP: packets are taken from the interface and scheduled in order, each in the next
   data subframe, until there is none, none fits a transport block (that one is lost), or the horizon is reached.
  */
  method ScheduleIP(queue: OutQueue, c: Config, frame: int, subframe: int, source: nat -> Fetch, frame0: int, subframe0: int, harq0: int, ndi0: int,
      ghost now: nat, ghost h0: seq<Timed>, ghost sent: nat, ghost last0: nat, ghost n: nat, ghost rest: multiset<Packet>)
      returns (k: nat, full: bool, lastFrame: int, lastSubframe: int, harq: int, ndi: int, dropped: nat, ghost last: nat)
    requires frame == Frame(now) && subframe == Subframe(now) && (c.dataSubF == [] ==> forall i :: !Fits(source(i)))
    requires Ready(queue, IP, IpSubframes(c), frame0, subframe0, harq0, ndi0, h0, [], sent, now, last0, last0, n, rest)
    modifies queue, queue.slots
    ensures dropped == Excess(Stock(rest, h0, k, sent)) - Excess(Stock(rest, h0, 0, sent))
    ensures forall i :: 0 <= i < k ==> Fits(source(i))
    ensures if full then last / 10 - now / 10 > MAX_TIME_HORIZON else !Fits(source(k))
    ensures last == Latest(now, PlanEnd(IpSubframes(c), last0, Payloads(source, k), n))
    ensures Scheduled(queue, IP, IpSubframes(c), lastFrame, lastSubframe, harq, ndi, h0, Payloads(source, k), sent, now, last0, last, n, rest)
  {
    hide Track, Holds, Plan, Frame, Subframe, HarqOf, NdiOf;
    k, full, lastFrame, lastSubframe, harq, ndi, dropped, last := SendAll(queue, c, frame, subframe, source, frame0, subframe0, harq0, ndi0,
      now, h0, sent, last0, n, rest);
    HorizonNotLate(now, last);
    lastFrame, lastSubframe, last := CatchUp(frame, subframe, lastFrame, lastSubframe, IpSubframes(c),
      h0 + Plan(IpSubframes(c), last0, Payloads(source, k), n), sent, now, last);
  }

  // ------------------------------------------------------------ packets that are lost

  // Whatever happens to the queue: a data packet is added, a queued packet is replaced, or packets are deleted.
  ghost predicate QueueStep(c: Config, q: seq<Slot>, q': seq<Slot>) {
    || (exists p: Packet :: (p.subtype == RRC_SETUP || p.subtype == IP) && q' == Added(q, p))
    || (exists k: nat, esf: nat :: k < |q| && q[k].taken && q' == WithFollower(q, Follower(c, q[k].pkt, esf)))
    || (exists f, s :: q' == Deleted(q, f, s))
  }

  /** A recurring packet that is gone never comes back, whatever happens to the queue. */
  lemma {:induction false} LostForGood(c: Config, qs: seq<seq<Slot>>, n: nat, x: Subtype)
    requires n < |qs| && x != RRC_SETUP && x != IP && Lacks(qs[0], x)
    requires forall i :: 0 < i <= n ==> QueueStep(c, qs[i - 1], qs[i])
    ensures Lacks(qs[n], x)
  {
    if n > 0 {
      LostForGood(c, qs, n - 1, x);
      LostStep(c, qs[n - 1], qs[n], x);
    }
  }

  lemma LostStep(c: Config, q: seq<Slot>, q': seq<Slot>, x: Subtype)
    requires x != RRC_SETUP && x != IP && Lacks(q, x) && QueueStep(c, q, q')
    ensures Lacks(q', x)
  {
    hide Added, Deleted, Lacks, WithFollower, Follower;
    if p: Packet :| (p.subtype == RRC_SETUP || p.subtype == IP) && q' == Added(q, p) {
      LacksAfter(q, p, 0, 0, x);
    } else if k: nat, esf: nat :| k < |q| && q[k].taken && q' == WithFollower(q, Follower(c, q[k].pkt, esf)) {
      NotOfKind(q, k, x);
      FollowerKind(c, q, q[k].pkt, esf, x);
    } else {
      var f, s :| q' == Deleted(q, f, s);
      LacksAfter(q, NO_PACKET, f, s, x);
    }
  }
}
