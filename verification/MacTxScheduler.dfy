/**
 The scheduler as the PHY drives it: one callback per subframe (mac_tx_callback). The
 ghost fields give the absolute time, the history of each data stream and a log of what
 was handed over; Valid says what holds after any run, whatever arrives.
*/
module MacTxScheduler {
  import opened MacTx
  import opened MacTxControl
  import opened MacTxData
  import opened MacTxOutQueue
  import opened MacTxStep
  import opened MacTxTime
  import opened ModArith

  // At every past time exactly the packets due then were handed over.
  ghost predicate Logged(c: Config, log: seq<seq<Packet>>, rrc: seq<Timed>, ip: seq<Timed>) {
    forall t :: 0 <= t < |log| ==> multiset(log[t]) == Outgoing(c, t, rrc, ip)
  }

  lemma {:induction false} DueAtExtend(kind: Subtype, h: seq<Timed>, n: nat, t: nat)
    requires n <= |h| && forall i :: n <= i < |h| ==> t < h[i].due
    ensures DueAt(kind, h, t) == DueAt(kind, h[..n], t)
  {
    if n < |h| {
      DueAtExtend(kind, h[..|h| - 1], n, t);
      assert h[..|h| - 1][..n] == h[..n];
    } else {
      assert h[..n] == h;
    }
  }

  // What is scheduled later does not change what was due before.
  lemma LoggedExtend(c: Config, log: seq<seq<Packet>>, rrc0: seq<Timed>, rrc: seq<Timed>, ip0: seq<Timed>, ip: seq<Timed>)
    requires Logged(c, log, rrc0, ip0) && rrc0 <= rrc && ip0 <= ip
    requires forall i :: |rrc0| <= i < |rrc| ==> |log| <= rrc[i].due
    requires forall i :: |ip0| <= i < |ip| ==> |log| <= ip[i].due
    ensures Logged(c, log, rrc, ip)
  {
    hide DueAt, ControlDue;
    assert rrc[..|rrc0|] == rrc0 && ip[..|ip0|] == ip0;
    forall t | 0 <= t < |log|
      ensures Outgoing(c, t, rrc, ip) == Outgoing(c, t, rrc0, ip0)
    {
      DueAtExtend(RRC_SETUP, rrc, |rrc0|, t);
      DueAtExtend(IP, ip, |ip0|, t);
    }
  }

  lemma LoggedOne(c: Config, log: seq<seq<Packet>>, ps: seq<Packet>, rrc: seq<Timed>, ip: seq<Timed>)
    requires Logged(c, log, rrc, ip) && multiset(ps) == Outgoing(c, |log|, rrc, ip)
    ensures Logged(c, log + [ps], rrc, ip)
  {
    hide Outgoing;
  }

  // The run after sending one subframe's packets.
  ghost function AfterSend(g: Run, sent: seq<Packet>): Run {
    g.(now := g.now + 1, rrcSent := SentAfter(g.rrc, g.rrcSent, g.now), ipSent := SentAfter(g.ip, g.ipSent, g.now), log := g.log + [sent])
  }

  lemma BeforeWalk(c: Roomy, q: seq<Slot>, g: Run) returns (e: int)
    requires RunRight(c, g) && g.rrcSent <= |g.rrc| && g.ipSent <= |g.ip|
    requires Bag(q) == Content(c, g.now, g.rrc, g.rrcSent, g.ip, g.ipSent)
    ensures var ps := Matching(q, 0, Frame(g.now), Subframe(g.now));
            multiset(ps) == Outgoing(c, g.now, g.rrc, g.ip) && |ps| <= 7 && |Bag(q)| <= 91
            && Replaceable(c, ps, EsfAt(c, g.now), e, Frame(g.now), Subframe(g.now))
            && EsfAfter(c, ps, EsfAt(c, g.now), |ps|) == EsfAt(c, g.now + 1)
  {
    hide Track, Content, Outgoing, Replaceable, EsfAfter, EsfAt, Frame, Subframe, Bag, Matching, Logged, Numbered;
    var t := g.now;
    var ps := Matching(q, 0, Frame(t), Subframe(t));
    WalkFindsOutgoing(c, q, t, g.rrc, g.rrcSent, g.ip, g.ipSent, g.lastRRC, g.lastIP);
    Capacity(c, t, g.rrc, g.rrcSent, g.ip, g.ipSent, g.lastRRC, g.lastIP);
    StreamLeaves(RRC_SETUP, RRC_SUBF, g.rrc, g.rrcSent, t, g.lastRRC);
    StreamLeaves(IP, IpSubframes(c), g.ip, g.ipSent, t, g.lastIP);
    assert |multiset(ps)| == |ps|;
    e := OutgoingReplaceable(c, t, g.rrc, g.rrcSent, g.ip, g.ipSent, ps);
  }

  lemma AfterWalk(c: Config, q: seq<Slot>, q': seq<Slot>, ps: seq<Packet>, g: Run)
    requires RunRight(c, g) && g.rrcSent <= |g.rrc| && g.ipSent <= |g.ip| && g.now <= g.lastRRC && g.now <= g.lastIP
    requires Bag(q) == Content(c, g.now, g.rrc, g.rrcSent, g.ip, g.ipSent) && multiset(ps) == Outgoing(c, g.now, g.rrc, g.ip)
    requires Stepped(c, q, q', ps, EsfAt(c, g.now), Frame(g.now), Subframe(g.now))
    ensures var g' := AfterSend(g, ps);
            RunRight(c, g') && g'.rrcSent <= |g.rrc| && g'.ipSent <= |g.ip|
            && Bag(q') == Content(c, g'.now, g'.rrc, g'.rrcSent, g'.ip, g'.ipSent)
  {
    hide Track, Content, Outgoing, Stepped, EsfAt, Frame, Subframe, Bag, Logged, Numbered;
    ContentStep(c, q, q', ps, g.now, g.rrc, g.rrcSent, g.ip, g.ipSent, g.lastRRC, g.lastIP);
    TrackTick(RRC_SUBF, g.rrc, g.rrcSent, g.now, g.lastRRC);
    TrackTick(IpSubframes(c), g.ip, g.ipSent, g.now, g.lastIP);
    LoggedOne(c, g.log, ps, g.rrc, g.ip);
  }

  // How the RRC stream grew, and why it stopped there: no more messages, or a response beyond the horizon.
  ghost predicate RrcPlanned(g: Run, rx: seq<UlMessage>, k: nat, full: bool, rrc: seq<Timed>, last: nat) {
    && k <= |rx| && rrc == g.rrc + Plan(RRC_SUBF, g.lastRRC, Responses(rx, k), g.Count())
    && last == Latest(g.now, PlanEnd(RRC_SUBF, g.lastRRC, Responses(rx, k), g.Count()))
    && if full then k < |rx| && rx[k].ULSCH? && rx[k].response != [] && last / 10 - g.now / 10 > 20 else k == |rx|
  }

  // How the IP stream grew, and why it stopped there: nothing that can be sent, or the horizon.
  ghost predicate IpPlanned(c: Config, g: Run, source: nat -> Fetch, k: nat, full: bool, ip: seq<Timed>, last: nat) {
    && (forall i :: 0 <= i < k ==> source(i).Fetched? && source(i).tbs > 0)
    && ip == g.ip + Plan(IpSubframes(c), g.lastIP, Payloads(source, k), g.Count())
    && last == Latest(g.now, PlanEnd(IpSubframes(c), g.lastIP, Payloads(source, k), g.Count()))
    && if full then last / 10 - g.now / 10 > 20 else source(k).NoPacket? || source(k).tbs <= 0
  }

  /**
   The ghost of a run: the absolute time; per stream the history, how much of it was sent, and its last
   time; and the log of what was handed over at each past time.
  */
  datatype Run = Run(now: nat, rrc: seq<Timed>, rrcSent: nat, lastRRC: nat, ip: seq<Timed>, ipSent: nat, lastIP: nat, log: seq<seq<Packet>>) {
    // The number of data packets scheduled so far.
    function Count(): nat { |rrc| + |ip| }
  }

  ghost predicate RunRight(c: Config, g: Run) {
    && Track(RRC_SUBF, g.rrc, g.rrcSent, g.now, g.lastRRC) && Track(IpSubframes(c), g.ip, g.ipSent, g.now, g.lastIP)
    && |g.log| == g.now && Logged(c, g.log, g.rrc, g.ip) && Numbered(g.rrc, g.ip)
  }

  lemma RunBounds(c: Roomy, g: Run)
    requires RunRight(c, g)
    ensures g.rrcSent <= |g.rrc| <= g.rrcSent + 22 && g.ipSent <= |g.ip| <= g.ipSent + 64
    ensures |Control(c, g.now) + Unsent(IP, g.ip, g.ipSent)| <= 69
    ensures |Control(c, g.now) + Unsent(RRC_SETUP, g.rrc, g.rrcSent)| <= 27
  {
    hide Control, Unsent;
    TrackBound(RRC_SUBF, g.rrc, g.rrcSent, g.now, g.lastRRC);
    TrackBound(IpSubframes(c), g.ip, g.ipSent, g.now, g.lastIP);
    FiveControls(c, g.now);
  }

  // The queue holds exactly the control packets of this time and the unsent data packets.
  ghost predicate QueueRight(c: Config, queue: OutQueue, g: Run)
    reads queue, queue.slots
  {
    && queue.Valid() && g.rrcSent <= |g.rrc| && g.ipSent <= |g.ip|
    && Bag(queue.slots[..]) == Content(c, g.now, g.rrc, g.rrcSent, g.ip, g.ipSent)
  }

  class Scheduler {
    const c: Roomy
    const queue: OutQueue
    const buf: array<Packet>
    var entries: nat
    var lastRRCframe: int
    var lastRRCsubFrame: int
    var lastIPframe: int
    var lastIPsubFrame: int
    var lastHARQ: int
    var lastNDI: int
    var nextESF: nat
    var errQue: nat
    ghost var run: Run

    ghost predicate ContextRight()
      reads this
    {
      && lastRRCframe == Frame(run.lastRRC) && lastRRCsubFrame == Subframe(run.lastRRC)
      && lastIPframe == Frame(run.lastIP) && lastIPsubFrame == Subframe(run.lastIP)
      && lastHARQ == HarqOf(run.Count()) && lastNDI == NdiOf(run.Count())
      && nextESF == EsfAt(c, run.now)
    }

    ghost predicate Valid()
      reads this, queue, queue.slots
    {
      buf.Length == MEM_BUF_TX_MAX_CNT && QueueRight(c, queue, run) && RunRight(c, run) && ContextRight()
    }

    constructor (c: Roomy)
      ensures Valid() && this.c == c && run == Run(0, [], 0, 0, [], 0, 0, []) && errQue == 0
      ensures fresh(queue) && fresh(queue.slots) && fresh(buf)
    {
      hide Bag, Control, Content, Track, Unsent, EsfAt, Outgoing;
      this.c := c;
      var q := new OutQueue();
      InitQueue(q, c);
      queue := q;
      buf := new Packet[MEM_BUF_TX_MAX_CNT](_ => NO_PACKET);
      entries := 0;
      lastRRCframe, lastRRCsubFrame, lastIPframe, lastIPsubFrame := 0, 0, 0, 0;
      lastHARQ, lastNDI, errQue := 0, 0, 0;
      nextESF := if |c.emptySubF| > 0 then 1 else 0;
      run := Run(0, [], 0, 0, [], 0, 0, []);
      new;
      InitialEsf(c);
      InitialContent(c);
      InitialTrack(RRC_SUBF);
      InitialTrack(IpSubframes(c));
    }

    // mac_tx_schedule_RRC on the fields of the context.
    method DoRRC(frame: int, subframe: int, rx: seq<UlMessage>) returns (k: nat, full: bool)
      requires Valid() && frame == Frame(run.now) && subframe == Subframe(run.now)
      modifies this, queue, queue.slots
      ensures Valid() && run.now <= run.lastRRC && run == old(run).(rrc := run.rrc, lastRRC := run.lastRRC)
      ensures RrcPlanned(old(run), rx, k, full, run.rrc, run.lastRRC)
      ensures errQue == old(errQue) + if full then 1 else 0
    {
      hide Bag, Control, Content, Track, Unsent, EsfAt, Outgoing, Plan, PlanEnd, Ready, Holds, Logged, Numbered, Frame, Subframe, HarqOf, NdiOf;
      ghost var g, n, rest := run, run.Count(), Control(c, run.now) + Unsent(IP, run.ip, run.ipSent);
      RunBounds(c, g);
      HoldsRRC(c, queue, g);
      ReadyAtFirst(queue, RRC_SETUP, RRC_SUBF, lastRRCframe, lastRRCsubFrame, lastHARQ, lastNDI, g.rrc, g.rrcSent, g.now, g.lastRRC, n, rest);
      var dropped;
      ghost var last;
      k, full, lastRRCframe, lastRRCsubFrame, lastHARQ, lastNDI, dropped, last := MacTx.ScheduleRRC(queue, frame, subframe, rx,
        lastRRCframe, lastRRCsubFrame, lastHARQ, lastNDI, g.now, g.rrc, g.rrcSent, g.lastRRC, n, rest);
      errQue := errQue + dropped + if full then 1 else 0;
      run := g.(rrc := g.rrc + Plan(RRC_SUBF, g.lastRRC, Responses(rx, k), n), lastRRC := last);
      RrcGrown(c, g, run, Responses(rx, k));
      RunBounds(c, run);
      HoldsRRC(c, queue, run);
    }

    // mac_tx_schedule_IP on the fields of the context.
    method DoIP(frame: int, subframe: int, source: nat -> Fetch) returns (k: nat, full: bool)
      requires Valid() && frame == Frame(run.now) && subframe == Subframe(run.now)
      requires c.dataSubF == [] ==> forall i :: !Fits(source(i))
      modifies this, queue, queue.slots
      ensures Valid() && run.now <= run.lastIP && run == old(run).(ip := run.ip, lastIP := run.lastIP)
      ensures IpPlanned(c, old(run), source, k, full, run.ip, run.lastIP)
      ensures errQue == old(errQue) + if full then 1 else 0
    {
      hide Bag, Control, Content, Track, Unsent, EsfAt, Outgoing, Plan, PlanEnd, Ready, Holds, Logged, Numbered, Frame, Subframe, HarqOf, NdiOf;
      ghost var g, n, rest := run, run.Count(), Control(c, run.now) + Unsent(RRC_SETUP, run.rrc, run.rrcSent);
      RunBounds(c, g);
      HoldsIP(c, queue, g);
      ReadyAtFirst(queue, IP, IpSubframes(c), lastIPframe, lastIPsubFrame, lastHARQ, lastNDI, g.ip, g.ipSent, g.now, g.lastIP, n, rest);
      var dropped;
      ghost var last;
      k, full, lastIPframe, lastIPsubFrame, lastHARQ, lastNDI, dropped, last := MacTx.ScheduleIP(queue, c, frame, subframe, source,
        lastIPframe, lastIPsubFrame, lastHARQ, lastNDI, g.now, g.ip, g.ipSent, g.lastIP, n, rest);
      errQue := errQue + dropped + if full then 1 else 0;
      run := g.(ip := g.ip + Plan(IpSubframes(c), g.lastIP, Payloads(source, k), n), lastIP := last);
      IpGrown(c, g, run, Payloads(source, k));
      RunBounds(c, run);
      HoldsIP(c, queue, run);
    }

    // mac_tx_schedule_next_SF on the fields of the context.
    method DoSend(frame: int, subframe: int) returns (ghost sent: seq<Packet>)
      requires Valid() && frame == Frame(run.now) && subframe == Subframe(run.now) && run.now <= run.lastRRC && run.now <= run.lastIP
      modifies this, queue, queue.slots, buf
      ensures Valid() && run == AfterSend(old(run), sent) && errQue == old(errQue)
      ensures entries <= buf.Length && buf[..entries] == sent + [NO_PACKET]
    {
      hide Bag, Control, Content, Track, Unsent, EsfAt, EsfAfter, Outgoing, Logged, Numbered, SentAfter, Frame, Subframe, Matching, Stepped, Replaceable;
      ghost var q, g := queue.slots[..], run;
      sent := Matching(q, 0, frame, subframe);
      ghost var e := BeforeWalk(c, q, g);
      var errors;
      entries, nextESF, errors := MacTx.ScheduleNextSF(queue, buf, c, frame, subframe, nextESF, e);
      errQue := errQue + errors;
      AfterWalk(c, q, queue.slots[..], sent, g);
      run := AfterSend(g, sent);
    }

    /**
     mac_tx_callback, for any uplink messages and any IP source, which without data subframes must be one that gives nothing
     to send: the PHY gets the packets of this
     subframe and the end marker, everything that could be scheduled was, and all that Valid says still holds.
    */
    method Callback(frame: int, subframe: int, rx: seq<UlMessage>, source: nat -> Fetch)
        returns (k: nat, rrcFull: bool, m: nat, ipFull: bool, ghost sent: seq<Packet>)
      requires Valid() && frame == Frame(run.now) && subframe == Subframe(run.now)
      requires c.dataSubF == [] ==> forall i :: !Fits(source(i))
      modifies this, queue, queue.slots, buf
      ensures Valid() && run.now == old(run.now) + 1 && run.log == old(run.log) + [sent]
      ensures entries <= buf.Length && buf[..entries] == sent + [NO_PACKET]
      ensures RrcPlanned(old(run), rx, k, rrcFull, run.rrc, run.lastRRC)
      ensures IpPlanned(c, old(run).(rrc := run.rrc, lastRRC := run.lastRRC), source, m, ipFull, run.ip, run.lastIP)
      ensures errQue == old(errQue) + (if rrcFull then 1 else 0) + if ipFull then 1 else 0
    {
      hide Valid, Frame, Subframe, RrcPlanned, Plan, PlanEnd;
      k, rrcFull := DoRRC(frame, subframe, rx);
      m, ipFull := DoIP(frame, subframe, source);
      sent := DoSend(frame, subframe);
    }
  }

  // The same queue content, seen as one stream and the rest.
  lemma HoldsIP(c: Roomy, queue: OutQueue, g: Run)
    requires RunRight(c, g) && g.rrcSent <= |g.rrc| && g.ipSent <= |g.ip|
    ensures QueueRight(c, queue, g) <==> Holds(queue, IP, Control(c, g.now) + Unsent(RRC_SETUP, g.rrc, g.rrcSent), g.ip, g.ipSent)
  {
    hide Control, Unsent, Bag, RunRight;
    RunBounds(c, g);
  }

  lemma HoldsRRC(c: Roomy, queue: OutQueue, g: Run)
    requires RunRight(c, g) && g.rrcSent <= |g.rrc| && g.ipSent <= |g.ip|
    ensures QueueRight(c, queue, g) <==> Holds(queue, RRC_SETUP, Control(c, g.now) + Unsent(IP, g.ip, g.ipSent), g.rrc, g.rrcSent)
  {
    hide Control, Unsent, Bag, RunRight;
    RunBounds(c, g);
    var a, b, d := Control(c, g.now), Unsent(RRC_SETUP, g.rrc, g.rrcSent), Unsent(IP, g.ip, g.ipSent);
    assert a + b + d == a + d + b;
  }

  // What was added to a stream is not due in the past, so the log stays right.
  lemma RrcGrown(c: Config, g: Run, g': Run, ds: seq<seq<int>>)
    requires RunRight(c, g) && g' == g.(rrc := g.rrc + Plan(RRC_SUBF, g.lastRRC, ds, g.Count()), lastRRC := g'.lastRRC)
    requires Track(RRC_SUBF, g'.rrc, g'.rrcSent, g'.now, g'.lastRRC)
    ensures RunRight(c, g')
  {
    hide Logged, Numbered, Plan;
    NumberedRrc(RRC_SUBF, g.rrc, g.ip, g.lastRRC, ds);
    LoggedExtend(c, g.log, g.rrc, g'.rrc, g.ip, g.ip);
  }

  lemma IpGrown(c: Config, g: Run, g': Run, ds: seq<seq<int>>)
    requires RunRight(c, g) && g' == g.(ip := g.ip + Plan(IpSubframes(c), g.lastIP, ds, g.Count()), lastIP := g'.lastIP)
    requires Track(IpSubframes(c), g'.ip, g'.ipSent, g'.now, g'.lastIP)
    ensures RunRight(c, g')
  {
    hide Logged, Numbered, Plan;
    NumberedIp(IpSubframes(c), g.rrc, g.ip, g.lastIP, ds);
    LoggedExtend(c, g.log, g.rrc, g.rrc, g.ip, g'.ip);
  }

  lemma InitialContent(c: Config)
    ensures Content(c, 0, [], 0, [], 0) == Control(c, 0)
  {
    hide Control;
  }

  lemma InitialTrack(s: Subframes)
    requires s != []
    ensures Track(s, [], 0, 0, 0)
  {
  }

  lemma InitialEsf(c: Config)
    ensures EsfAt(c, 0) == if |c.emptySubF| > 0 then 1 else 0
  {
    if c.emptySubF != [] {
      BelowIs(c.emptySubF, 0, |c.emptySubF|, 0);
    }
  }

  lemma EveryFromZero(p: nat, o: nat)
    requires o < p
    ensures Every(p, o, 0) == o
  {
    EveryClosed(p, o, 0);
    ModSmall(o, p);
  }

  lemma InitialDue(c: Config)
    ensures NextDue(c, KSib2, 0) == c.sib2SF && NextDue(c, KRar, 0) == RAR_SUBFRAME && NextDue(c, KSib1, 0) == c.sib1SF
    ensures NextDue(c, KDci0, 0) == 0 && NextDue(c, KFifth, 0) == if c.emptySubF == [] then 0 else c.emptySubF[0]
  {
    hide Every;
    EveryFromZero(80, c.sib2SF);
    EveryFromZero(10, RAR_SUBFRAME);
    EveryFromZero(20, c.sib1SF);
    EveryFromZero(10, 0);
    if c.emptySubF != [] {
      BelowIs(c.emptySubF, 0, |c.emptySubF|, 0);
    }
  }

  lemma InitialControl(c: Config)
    ensures Control(c, 0) == multiset{FillSIB2(c, 0)} + multiset{FillRAR(0, RAR_SUBFRAME)} + multiset{FillSIB1(c, 0)}
              + multiset{FillDCI0(0, 0)} + multiset{if c.emptySubF == [] then FillDCI0(0, 0) else FillEMPTY(0, c.emptySubF[0])}
  {
    InitialDue(c);
    InitialKinds(c);
    hide NextDue, OfKind, FillSIB2, FillSIB1, FillRAR, FillDCI0, FillEMPTY;
  }

  lemma InitialKinds(c: Config)
    ensures OfKind(c, KSib2, c.sib2SF) == FillSIB2(c, 0) && OfKind(c, KRar, RAR_SUBFRAME) == FillRAR(0, RAR_SUBFRAME)
    ensures OfKind(c, KSib1, c.sib1SF) == FillSIB1(c, 0) && OfKind(c, KDci0, 0) == FillDCI0(0, 0)
    ensures OfKind(c, KFifth, if c.emptySubF == [] then 0 else c.emptySubF[0]) ==
            if c.emptySubF == [] then FillDCI0(0, 0) else FillEMPTY(0, c.emptySubF[0])
  {
    hide FillSIB2, FillSIB1, FillRAR, FillDCI0, FillEMPTY;
  }

  method PutFirst(queue: OutQueue, p: Packet, ghost m: multiset<Packet>)
    requires queue.Valid() && Bag(queue.slots[..]) == m && |m| < 5
    modifies queue, queue.slots
    ensures queue.Valid() && Bag(queue.slots[..]) == m + multiset{p}
  {
    AddedBag(queue.slots[..], p);
    var ok := queue.Add(p);
  }

  /**
   init_mac_tx_callback: the first packet of each kind. Without empty subframes the last packet is
   added once more, so there are two DCI0 packets in every frame.
  */
  method InitQueue(queue: OutQueue, c: Config)
    requires queue.Valid() && Bag(queue.slots[..]) == multiset{}
    modifies queue, queue.slots
    ensures queue.Valid() && Bag(queue.slots[..]) == Control(c, 0)
  {
    hide Bag, Control, FillSIB2, FillSIB1, FillRAR, FillDCI0, FillEMPTY;
    InitialControl(c);
    ghost var m := multiset{};
    var p := FillSIB2(c, 0);
    PutFirst(queue, p, m);
    m := m + multiset{p};
    p := FillRAR(0, RAR_SUBFRAME);
    PutFirst(queue, p, m);
    m := m + multiset{p};
    p := FillSIB1(c, 0);
    PutFirst(queue, p, m);
    m := m + multiset{p};
    p := FillDCI0(0, 0);
    PutFirst(queue, p, m);
    m := m + multiset{p};
    if |c.emptySubF| > 0 {
      p := FillEMPTY(0, c.emptySubF[0]);
    }
    PutFirst(queue, p, m);
    assert multiset{} + multiset{FillSIB2(c, 0)} == multiset{FillSIB2(c, 0)};
  }

  // ------------------------------------------------------------ when the queue is too small

  /**
   The first callback, when more responses and packets arrive than the horizon lets it schedule: packets are dropped
   exactly if there are at least four data subframes. Then the DCI0 packet that is handed over has no successor, and so
   (LostForGood) none is ever sent again.
  */
  method FirstCallback(c: Config, rx: seq<UlMessage>, source: nat -> Fetch)
      returns (dropped: nat, queue: OutQueue, buf: array<Packet>, entries: nat)
    requires c.dataSubF != [] && |Responses(rx, |rx|)| > 22 && forall i: nat :: Fits(source(i))
    ensures dropped > 0 <==> |c.dataSubF| > 3
    ensures entries <= buf.Length && FillDCI0(0, 0) in buf[..entries]
    ensures Lacks(queue.slots[..], DCI0) <==> |c.dataSubF| > 3
  {
    hide Bag, Control, Track, Plan, PlanEnd, Unsent, Ready, Scheduled, Holds, Frame, Subframe, HarqOf, NdiOf, Matching, Replaceable, EsfAt, EsfAfter,
      Recurring, Stepped, Lacks, Deleted, ControlDue, FillDCI0;
    queue := new OutQueue();
    InitQueue(queue, c);
    AtTimeZero(c, queue);
    var k, full, frame, subframe, harq, ndi, lost; ghost var last;
    k, full, frame, subframe, harq, ndi, lost, last := MacTx.ScheduleRRC(queue, 0, 0, rx, 0, 0, 0, 0, 0, [], 0, 0, 0, Control(c, 0));
    ghost var rrc, rest := RrcFull(c, queue, rx, k, full, frame, subframe, harq, ndi, last);
    var m, lost'; ghost var last';
    m, full, frame, subframe, harq, ndi, lost', last' := MacTx.ScheduleIP(queue, c, 0, 0, source, 0, 0, harq, ndi,
      0, [], 0, 0, |Responses(rx, k)|, rest);
    ghost var ip := IpFull(c, queue, Payloads(source, m), frame, subframe, harq, ndi, last', |Responses(rx, k)|, rest);
    ghost var q := queue.slots[..];
    ghost var e := FirstWalk(c, q, rrc, ip, last, last');
    buf := new Packet[MEM_BUF_TX_MAX_CNT](_ => NO_PACKET);
    InitialEsf(c);
    var esf, lost'';
    entries, esf, lost'' := MacTx.ScheduleNextSF(queue, buf, c, 0, 0, if |c.emptySubF| > 0 then 1 else 0, e);
    if |c.dataSubF| > 3 {
      NoSuccessor(c, q, rrc, ip);
    } else {
      Successor(c, q, queue.slots[..], EsfAt(c, 0));
    }
    dropped := lost + lost' + lost'';
  }

  // The packets due at time zero are the control packets due then, whatever was dropped.
  lemma FirstWalk(c: Config, q: seq<Slot>, rrc: seq<Timed>, ip: seq<Timed>, lastR: nat, lastI: nat) returns (e: int)
    requires |q| == TX_OUT_QUEUE_SIZE && FirstStreams(c, rrc, ip, lastR, lastI)
    requires HoldsBag(Bag(q), Control(c, 0) + Unsent(RRC_SETUP, rrc, 0), Unsent(IP, ip, 0))
    ensures var ps := Matching(q, 0, 0, 0); |ps| <= 5 && FillDCI0(0, 0) in ps && Replaceable(c, ps, EsfAt(c, 0), e, 0, 0)
  {
    hide Bag, Control, ControlDue, Track, Unsent, Matching, Replaceable, EsfAt, EsfAfter, Frame, Subframe, Outgoing, Due;
    StampZero();
    ControlDuePart(c, 0);
    forall p
      ensures ControlDue(c, 0)[p] == if Due(p, Frame(0), Subframe(0)) then Bag(q)[p] else 0
    {
      if Due(p, Frame(0), Subframe(0)) {
        NearAhead(RRC_SUBF, rrc, lastR);
        NearAhead(IpSubframes(c), ip, lastI);
        LaterNotDue(RRC_SETUP, rrc, 0, 0, p);
        LaterNotDue(IP, ip, 0, 0, p);
      }
    }
    MatchingIsDuePart(q, ControlDue(c, 0), 0);
    var ps := Matching(q, 0, Frame(0), Subframe(0));
    OnlyControl(c);
    assert |multiset(ps)| == |ps|;
    FiveControls(c, 0);
    e := OutgoingReplaceable(c, 0, [], 0, [], 0, ps);
    Dci0IsDue(c);
    assert FillDCI0(0, 0) in multiset(ps);
  }

  // The streams of the first callback, with nothing due at time zero.
  ghost predicate FirstStreams(c: Config, rrc: seq<Timed>, ip: seq<Timed>, lastR: nat, lastI: nat) {
    && Track(RRC_SUBF, rrc, 0, 0, lastR) && Track(IpSubframes(c), ip, 0, 0, lastI)
    && (forall x :: x in rrc || x in ip ==> 0 < x.due)
  }

  lemma StampZero()
    ensures Frame(0) == 0 && Subframe(0) == 0
  {
  }

  lemma NearAhead(s: Subframes, h: seq<Timed>, last: nat)
    requires Track(s, h, 0, 0, last)
    ensures forall j :: 0 <= j < |h| ==> h[j].due < 10 * LTE_NO_FRAMES
  {
  }

  lemma OnlyControl(c: Config)
    ensures Outgoing(c, 0, [], []) == ControlDue(c, 0)
    ensures DueAt(RRC_SETUP, [], 0) == multiset(Head(RRC_SETUP, [], 0, 0)) && DueAt(IP, [], 0) == multiset(Head(IP, [], 0, 0))
  {
    hide ControlDue;
  }

  lemma Dci0IsDue(c: Config)
    ensures FillDCI0(0, 0) in ControlDue(c, 0)
  {
    InitialDue(c);
    InitialKinds(c);
    hide NextDue, OfKind, FillDCI0;
  }

  // No other DCI0 packet is in the queue.
  lemma NoSuccessor(c: Config, q: seq<Slot>, rrc: seq<Timed>, ip: seq<Timed>)
    requires Bag(q) <= Control(c, 0) + Unsent(RRC_SETUP, rrc, 0) + Unsent(IP, ip, 0)
    ensures Lacks(Deleted(q, 0, 0), DCI0)
  {
    hide Bag, Control, Unsent, Deleted;
    var d := Deleted(q, 0, 0);
    forall i | 0 <= i < |d| && d[i].taken
      ensures d[i].pkt.subtype != DCI0
    {
      var p := d[i].pkt;
      HeldIff(d, |d|, p);
      assert p in Bag(d) by {
        BagIsHeld(d);
      }
      WalkAndDelete(q, 0, 0, p);
      if p.subtype == DCI0 {
        UnsentKind(RRC_SETUP, rrc, 0, p);
        UnsentKind(IP, ip, 0, p);
        OneDci0(c, p);
      }
    }
  }

  lemma BagIsHeld(q: seq<Slot>)
    ensures Bag(q) == Held(q, |q|)
  {
  }

  lemma OneDci0(c: Config, p: Packet)
    requires p.subtype == DCI0 && p in Control(c, 0)
    ensures Due(p, 0, 0)
  {
    InitialControl(c);
    hide Control;
  }

  // If all replacements find room, that of DCI0 is there.
  lemma Successor(c: Config, q: seq<Slot>, q': seq<Slot>, esf: nat)
    requires FillDCI0(0, 0) in Matching(q, 0, 0, 0) && Stepped(c, q, q', Matching(q, 0, 0, 0), esf, 0, 0)
    ensures !Lacks(q', DCI0)
  {
    hide Bag, Matching, Times;
    var ps, r := Matching(q, 0, 0, 0), FillDCI0(1, 0);
    var i :| 0 <= i < |ps| && ps[i] == FillDCI0(0, 0);
    TimesHas(c, ps, i, esf, r);
    assert r in Bag(q');
    BagIsHeld(q');
    HeldIff(q', |q'|, r);
  }

  lemma AtTimeZero(c: Config, queue: OutQueue)
    requires queue.Valid() && Bag(queue.slots[..]) == Control(c, 0)
    ensures Ready(queue, RRC_SETUP, RRC_SUBF, 0, 0, 0, 0, [], [], 0, 0, 0, 0, 0, Control(c, 0)) && |Control(c, 0)| == 5
    ensures Frame(0) == 0 && Subframe(0) == 0
  {
    hide Control, ControlDue, Bag, Track, Ready, Holds;
    FiveControls(c, 0);
    InitialTrack(RRC_SUBF);
    HoldsFirst(queue, RRC_SETUP, Control(c, 0));
    ReadyAtFirst(queue, RRC_SETUP, RRC_SUBF, 0, 0, 0, 0, [], 0, 0, 0, 0, Control(c, 0));
  }

  lemma HoldsFirst(queue: OutQueue, kind: Subtype, rest: multiset<Packet>)
    requires queue.Valid() && Bag(queue.slots[..]) == rest && |rest| <= TX_OUT_QUEUE_SIZE
    ensures Holds(queue, kind, rest, [], 0)
  {
    hide Bag;
    assert rest + Unsent(kind, [], 0) == rest;
  }

  // The responses reach the horizon, and so far nothing is dropped.
  lemma RrcFull(c: Config, queue: OutQueue, rx: seq<UlMessage>, k: nat, full: bool, frame: int, subframe: int, harq: int, ndi: int, last: nat)
      returns (rrc: seq<Timed>, rest: multiset<Packet>)
    requires k <= |rx| && |Responses(rx, |rx|)| > 22 && |Control(c, 0)| == 5
    requires if full then last / 10 > MAX_TIME_HORIZON && last == PlanEnd(RRC_SUBF, 0, Responses(rx, k), 0) else k == |rx|
    requires Scheduled(queue, RRC_SETUP, RRC_SUBF, frame, subframe, harq, ndi, [], Responses(rx, k), 0, 0, 0, last, 0, Control(c, 0))
    ensures Excess(Stock(Control(c, 0), [], |Responses(rx, k)|, 0)) == 0 && 26 <= |rest| <= 27
    ensures rest == Control(c, 0) + Unsent(RRC_SETUP, rrc, 0) && Track(RRC_SUBF, rrc, 0, 0, last) && forall x :: x in rrc ==> 0 < x.due
    ensures Ready(queue, IP, IpSubframes(c), 0, 0, harq, ndi, [], [], 0, 0, 0, 0, |Responses(rx, k)|, rest)
  {
    hide Control, Bag, PlanEnd;
    var ds := Responses(rx, k);
    rrc := Plan(RRC_SUBF, 0, ds, 0);
    assert [] + rrc == rrc;
    TrackBound(RRC_SUBF, rrc, 0, 0, last);
    assert full;
    FilledUp(RRC_SUBF, ds, 0);
    PlanLater(RRC_SUBF, 0, ds, 0);
    rest := Control(c, 0) + Unsent(RRC_SETUP, rrc, 0);
    InitialTrack(IpSubframes(c));
    HoldsFirst(queue, IP, rest);
    ReadyAtFirst(queue, IP, IpSubframes(c), 0, 0, harq, ndi, [], 0, 0, 0, |ds|, rest);
  }

  // The packets reach the horizon, and fit only with at most three data subframes.
  lemma IpFull(c: Config, queue: OutQueue, ds: seq<seq<int>>, frame: int, subframe: int, harq: int, ndi: int, last: nat, n: nat, rest: multiset<Packet>)
      returns (ip: seq<Timed>)
    requires last / 10 > MAX_TIME_HORIZON && last == PlanEnd(IpSubframes(c), 0, ds, n) && 26 <= |rest| <= 27
    requires Scheduled(queue, IP, IpSubframes(c), frame, subframe, harq, ndi, [], ds, 0, 0, 0, last, n, rest)
    ensures if |IpSubframes(c)| > 3 then Excess(Stock(rest, [], |ds|, 0)) > 0 else Stock(rest, [], |ds|, 0) <= 91
    ensures queue.Valid() && HoldsBag(Bag(queue.slots[..]), rest, Unsent(IP, ip, 0)) && |ip| == |ds|
    ensures Track(IpSubframes(c), ip, 0, 0, last) && forall x :: x in ip ==> 0 < x.due
  {
    hide Bag, PlanEnd;
    ip := Plan(IpSubframes(c), 0, ds, n);
    assert [] + ip == ip;
    TrackBound(IpSubframes(c), ip, 0, 0, last);
    FilledUp(IpSubframes(c), ds, n);
    PlanLater(IpSubframes(c), 0, ds, n);
  }

  // ------------------------------------------------------------ how the streams grow

  lemma GrownBy(s: Subframes, h0: seq<Timed>, h: seq<Timed>, last: nat, ds: seq<seq<int>>, n: nat, i: nat)
    requires s != [] && h == h0 + Plan(s, last, ds, n) && i < |ds|
    ensures |h| == |h0| + |ds|
    ensures var x := h[|h0| + i];
            var before := if i == 0 then last else h[|h0| + i - 1].due;
            && x.data == ds[i] && x.num == n + i && before < x.due && x.due % 10 in s
            && forall u :: before < u < x.due ==> u % 10 !in s
  {
    hide Plan;
    PlanIs(s, last, ds, n, i);
    assert h[|h0| + i] == Plan(s, last, ds, n)[i];
    assert i > 0 ==> h[|h0| + i - 1] == Plan(s, last, ds, n)[i - 1];
  }

  /**
   In one callback packet i of the source becomes the next data packet, in the first data subframe after that of the packet
   before it.
  */
  lemma IpInOrder(c: Config, g: Run, source: nat -> Fetch, k: nat, full: bool, ip: seq<Timed>, last: nat, i: nat)
    requires c.dataSubF != [] && IpPlanned(c, g, source, k, full, ip, last) && i < k
    ensures |ip| == |g.ip| + k && source(i).Fetched? && source(i).tbs > 0
    ensures var x := ip[|g.ip| + i];
            var before := if i == 0 then g.lastIP else ip[|g.ip| + i - 1].due;
            && x.data == source(i).data && x.num == |g.rrc| + |g.ip| + i && before < x.due && x.due % 10 in c.dataSubF
            && forall u :: before < u < x.due ==> u % 10 !in c.dataSubF
  {
    hide Plan, PlanEnd, NextIn;
    GrownBy(c.dataSubF, g.ip, ip, g.lastIP, Payloads(source, k), g.Count(), i);
  }

  /** In one callback response i becomes the next data packet, in subframe 2 of the first frame in which that is after the packet before it. */
  lemma RrcInOrder(g: Run, rx: seq<UlMessage>, k: nat, full: bool, rrc: seq<Timed>, last: nat, i: nat)
    requires RrcPlanned(g, rx, k, full, rrc, last) && i < |Responses(rx, k)|
    ensures |rrc| == |g.rrc| + |Responses(rx, k)|
    ensures var x := rrc[|g.rrc| + i];
            var before := if i == 0 then g.lastRRC else rrc[|g.rrc| + i - 1].due;
            && x.data == Responses(rx, k)[i] && x.num == |g.rrc| + |g.ip| + i && before < x.due && x.due % 10 == 2
            && forall u :: before < u < x.due ==> u % 10 != 2
  {
    hide Plan, PlanEnd, NextIn, Responses;
    GrownBy(RRC_SUBF, g.rrc, rrc, g.lastRRC, Responses(rx, k), g.Count(), i);
  }

  // ------------------------------------------------------------ what holds over a whole run

  lemma ControlCount(c: Config, k: Kind, t: nat, p: Packet)
    ensures DueNow(c, k, t)[p] == if IsDue(c, k, t) && p == OfKind(c, k, t) then 1 else 0
  {
    hide OfKind, NextDue, IsDue;
    WhenDue(c, k, t);
  }

  lemma {:induction false} DataOfKind(kind: Subtype, h: seq<Timed>, t: nat, p: Packet)
    ensures p.subtype != kind ==> DueAt(kind, h, t)[p] == 0
    ensures p in DueAt(kind, h, t) ==> exists i :: 0 <= i < |h| && h[i].due == t && p == DataPacket(kind, h[i])
  {
    if h != [] {
      DataOfKind(kind, h[..|h| - 1], t, p);
    }
  }

  // The control packets of time t, field by field.
  lemma ControlPackets(c: Config, t: nat)
    ensures FillSIB2(c, Frame(t)) == Packet(t / 10 % 1024, c.sib2SF, SIB2, 0, 0, 0, [])
    ensures t % 20 == c.sib1SF ==> FillSIB1(c, Frame(t)) == Packet(t / 10 % 1024, c.sib1SF, SIB1, [0, 2, 3, 1][t / 20 % 4], 0, 0, [])
    ensures FillRAR(Frame(t), RAR_SUBFRAME) == Packet(t / 10 % 1024, 6, RAR, 0, 0, 0, [])
    ensures FillDCI0(Frame(t), 0) == Packet(t / 10 % 1024, 0, DCI0, 0, 0, 0, [10 * (t / 10 % 1024) / 8 % 2])
    ensures FillEMPTY(Frame(t), Subframe(t)) == Packet(t / 10 % 1024, t % 10, EMPTY, 0, 0, 0, [])
  {
    if t % 20 == c.sib1SF {
      Sib1Sequence(t / 10, t / 20);
    }
  }

  // The redundancy version in frame f, the m-th of the even frames.
  lemma Sib1Sequence(f: nat, m: nat)
    requires f == 2 * m
    ensures (3 * (f % 1024 % 8) + 3) / 4 % 4 == [0, 2, 3, 1][m % 4]
  {
    DivModUnique(m / 4, 8, 2 * (m % 4));
    assert f % 8 == 2 * (m % 4);
    assert f % 1024 % 8 == f % 8;
  }

  /**
   Recurring packets, over any run: at every past time t, SIB2 was handed over exactly once if t is its
   subframe in every eighth frame, SIB1 in every second, RAR and DCI0 in every frame, EMPTY in every listed
   subframe; DCI0 twice if no subframe is listed; and never otherwise.
  */
  lemma ControlOnTime(c: Config, g: Run, t: nat, p: Packet)
    requires RunRight(c, g) && t < g.now
    ensures p.subtype == SIB2 ==>
              multiset(g.log[t])[p] == if t % 80 == c.sib2SF && p == Packet(t / 10 % 1024, c.sib2SF, SIB2, 0, 0, 0, []) then 1 else 0
    ensures p.subtype == SIB1 ==>
              multiset(g.log[t])[p] ==
              if t % 20 == c.sib1SF && p == Packet(t / 10 % 1024, c.sib1SF, SIB1, [0, 2, 3, 1][t / 20 % 4], 0, 0, []) then 1 else 0
    ensures p.subtype == RAR ==>
              multiset(g.log[t])[p] == if t % 10 == 6 && p == Packet(t / 10 % 1024, 6, RAR, 0, 0, 0, []) then 1 else 0
    ensures p.subtype == DCI0 ==>
              multiset(g.log[t])[p] ==
              if t % 10 == 0 && p == Packet(t / 10 % 1024, 0, DCI0, 0, 0, 0, [10 * (t / 10 % 1024) / 8 % 2])
              then (if c.emptySubF == [] then 2 else 1) else 0
    ensures p.subtype == EMPTY ==>
              multiset(g.log[t])[p] ==
              if t % 10 in c.emptySubF && p == Packet(t / 10 % 1024, t % 10, EMPTY, 0, 0, 0, []) then 1 else 0
  {
    hide Track, DueNow, DueAt, Outgoing, Frame, Subframe;
    ControlPackets(c, t);
    hide FillSIB2, FillSIB1, FillRAR, FillDCI0, FillEMPTY;
    ControlCount(c, KSib2, t, p);
    ControlCount(c, KRar, t, p);
    ControlCount(c, KSib1, t, p);
    ControlCount(c, KDci0, t, p);
    ControlCount(c, KFifth, t, p);
    DataOfKind(RRC_SETUP, g.rrc, t, p);
    DataOfKind(IP, g.ip, t, p);
    CountOfSum(c, t, g.rrc, g.ip, p);
  }

  lemma StreamOnce(kind: Subtype, s: Subframes, h: seq<Timed>, sent: nat, now: nat, last: nat, i: nat)
    requires Track(s, h, sent, now, last) && i < |h|
    ensures DueAt(kind, h, h[i].due) == multiset{DataPacket(kind, h[i])}
  {
    assert forall j, k :: 0 <= j < k < |h| ==> Dues(h)[j] < Dues(h)[k];
    DueAtOne(kind, h, i, h[i].due);
  }

  lemma ControlHasNoData(c: Config, t: nat, rrc: seq<Timed>, ip: seq<Timed>, p: Packet)
    requires p.subtype == RRC_SETUP || p.subtype == IP
    ensures Outgoing(c, t, rrc, ip)[p] == DueAt(RRC_SETUP, rrc, t)[p] + DueAt(IP, ip, t)[p]
  {
    hide DueNow, DueAt, Outgoing;
    ControlCount(c, KSib2, t, p);
    ControlCount(c, KRar, t, p);
    ControlCount(c, KSib1, t, p);
    ControlCount(c, KDci0, t, p);
    ControlCount(c, KFifth, t, p);
    CountOfSum(c, t, rrc, ip, p);
  }

  // p is the packet of the scheduled entry x: in its frame and subframe, on the HARQ process and with the indicator of its number.
  predicate CarriesOut(p: Packet, kind: Subtype, x: Timed) {
    && p.frame == x.due / 10 % 1024 && p.subframe == x.due % 10 && p.subtype == kind && p.rv == 0
    && p.harqNo == x.num % 8 && p.ndi == x.num / 8 % 2 && p.data == x.data
  }

  lemma DataPacketIs(kind: Subtype, x: Timed)
    ensures DataPacket(kind, x) == Packet(x.due / 10 % 1024, x.due % 10, kind, 0, x.num % 8, x.num / 8 % 2, x.data)
    ensures CarriesOut(DataPacket(kind, x), kind, x)
  {
  }

  lemma RrcOnTime(c: Config, g: Run, x: Timed, i: nat, p: Packet)
    requires RunRight(c, g) && i < |g.rrc| && x == g.rrc[i] && x.due < g.now && p.subtype == RRC_SETUP
    ensures multiset(g.log[x.due])[p] ==
            if p == Packet(x.due / 10 % 1024, x.due % 10, RRC_SETUP, 0, x.num % 8, x.num / 8 % 2, x.data) then 1 else 0
  {
    DataPacketIs(RRC_SETUP, x);
    hide DataPacket, Track, DueAt, Outgoing, Numbered;
    StreamOnce(RRC_SETUP, RRC_SUBF, g.rrc, g.rrcSent, g.now, g.lastRRC, i);
    DataOfKind(IP, g.ip, x.due, p);
    ControlHasNoData(c, x.due, g.rrc, g.ip, p);
  }

  lemma IpOnTime(c: Config, g: Run, x: Timed, i: nat, p: Packet)
    requires RunRight(c, g) && i < |g.ip| && x == g.ip[i] && x.due < g.now && p.subtype == IP
    ensures multiset(g.log[x.due])[p] ==
            if p == Packet(x.due / 10 % 1024, x.due % 10, IP, 0, x.num % 8, x.num / 8 % 2, x.data) then 1 else 0
  {
    DataPacketIs(IP, x);
    hide DataPacket, Track, DueAt, Outgoing, Numbered;
    StreamOnce(IP, IpSubframes(c), g.ip, g.ipSent, g.now, g.lastIP, i);
    DataOfKind(RRC_SETUP, g.rrc, x.due, p);
    ControlHasNoData(c, x.due, g.rrc, g.ip, p);
  }

  /** Every scheduled data packet whose time has passed was handed over at that time, exactly once, alone of its stream. */
  lemma DataOnTime(c: Config, g: Run, i: nat, p: Packet)
    requires RunRight(c, g)
    ensures i < |g.rrc| && g.rrc[i].due < g.now && p.subtype == RRC_SETUP ==>
              var x := g.rrc[i];
              multiset(g.log[x.due])[p] ==
              if p == Packet(x.due / 10 % 1024, x.due % 10, RRC_SETUP, 0, x.num % 8, x.num / 8 % 2, x.data) then 1 else 0
    ensures i < |g.ip| && g.ip[i].due < g.now && p.subtype == IP ==>
              var x := g.ip[i];
              multiset(g.log[x.due])[p] ==
              if p == Packet(x.due / 10 % 1024, x.due % 10, IP, 0, x.num % 8, x.num / 8 % 2, x.data) then 1 else 0
  {
    hide Track, Logged, Numbered;
    if i < |g.rrc| && g.rrc[i].due < g.now && p.subtype == RRC_SETUP {
      RrcOnTime(c, g, g.rrc[i], i, p);
    }
    if i < |g.ip| && g.ip[i].due < g.now && p.subtype == IP {
      IpOnTime(c, g, g.ip[i], i, p);
    }
  }

  /** Nothing else was handed over: a data packet in the log was scheduled for that very time. */
  lemma DataWasScheduled(c: Config, g: Run, t: nat, p: Packet)
    requires RunRight(c, g) && t < g.now && p in g.log[t] && (p.subtype == RRC_SETUP || p.subtype == IP)
    ensures p.subtype == RRC_SETUP ==> exists i :: 0 <= i < |g.rrc| && g.rrc[i].due == t && CarriesOut(p, RRC_SETUP, g.rrc[i])
    ensures p.subtype == IP ==> exists i :: 0 <= i < |g.ip| && g.ip[i].due == t && CarriesOut(p, IP, g.ip[i])
  {
    hide Track, DueAt, Outgoing, Frame, Subframe, HarqOf, NdiOf;
    assert p in multiset(g.log[t]);
    ControlHasNoData(c, t, g.rrc, g.ip, p);
    DataOfKind(RRC_SETUP, g.rrc, t, p);
    DataOfKind(IP, g.ip, t, p);
    if p.subtype == RRC_SETUP {
      var i :| 0 <= i < |g.rrc| && g.rrc[i].due == t && p == DataPacket(RRC_SETUP, g.rrc[i]);
      DataPacketIs(RRC_SETUP, g.rrc[i]);
    } else {
      var i :| 0 <= i < |g.ip| && g.ip[i].due == t && p == DataPacket(IP, g.ip[i]);
      DataPacketIs(IP, g.ip[i]);
    }
  }
}
