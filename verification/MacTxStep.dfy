/**
 One subframe of the scheduler on the level of bags: what is due, what replaces it, and
 what the queue holds afterwards.
*/
module MacTxStep {
  import opened MacTxControl
  import opened MacTxData
  import opened MacTxOutQueue
  import opened MacTxTime
  import opened Options

  // The whole content of the queue when the callback at time t starts.
  function Content(c: Config, t: nat, rrc: seq<Timed>, r: nat, ip: seq<Timed>, i: nat): multiset<Packet>
    requires r <= |rrc| && i <= |ip|
  {
    Control(c, t) + Unsent(RRC_SETUP, rrc, r) + Unsent(IP, ip, i)
  }

  // What the PHY must get at time t.
  function Outgoing(c: Config, t: nat, rrc: seq<Timed>, ip: seq<Timed>): multiset<Packet> {
    ControlDue(c, t) + DueAt(RRC_SETUP, rrc, t) + DueAt(IP, ip, t)
  }

  // d is the part of m that carries the stamp of time t.
  ghost predicate DuePart(m: multiset<Packet>, d: multiset<Packet>, t: nat) {
    forall p :: d[p] == if Due(p, Frame(t), Subframe(t)) then m[p] else 0
  }

  lemma DuePartAdd(m: multiset<Packet>, d: multiset<Packet>, n: multiset<Packet>, e: multiset<Packet>, t: nat)
    requires DuePart(m, d, t) && DuePart(n, e, t)
    ensures DuePart(m + n, d + e, t)
  {
  }

  lemma KindDuePart(c: Config, k: Kind, t: nat)
    ensures DuePart(Pending(c, k, t), DueNow(c, k, t), t)
  {
    var u := NextDue(c, k, t);
    WhenDue(c, k, t);
    OfKindStamp(c, k, u);
    StampUnique(t, u);
  }

  lemma ControlDuePart(c: Config, t: nat)
    ensures DuePart(Control(c, t), ControlDue(c, t), t)
  {
    KindDuePart(c, KSib2, t);
    KindDuePart(c, KRar, t);
    KindDuePart(c, KSib1, t);
    KindDuePart(c, KDci0, t);
    KindDuePart(c, KFifth, t);
    var m, d := Pending(c, KSib2, t), DueNow(c, KSib2, t);
    DuePartAdd(m, d, Pending(c, KRar, t), DueNow(c, KRar, t), t);
    m, d := m + Pending(c, KRar, t), d + DueNow(c, KRar, t);
    DuePartAdd(m, d, Pending(c, KSib1, t), DueNow(c, KSib1, t), t);
    m, d := m + Pending(c, KSib1, t), d + DueNow(c, KSib1, t);
    DuePartAdd(m, d, Pending(c, KDci0, t), DueNow(c, KDci0, t), t);
    m, d := m + Pending(c, KDci0, t), d + DueNow(c, KDci0, t);
    DuePartAdd(m, d, Pending(c, KFifth, t), DueNow(c, KFifth, t), t);
  }

  // What a stream contributes: pending packets u, of which d leave now and u' stay.
  ghost predicate Leaves(u: multiset<Packet>, d: multiset<Packet>, u': multiset<Packet>, t: nat) {
    DuePart(u, d, t) && u == d + u'
  }

  // Nothing that stays carries the stamp of now.
  lemma LeavesIf(u: multiset<Packet>, d: multiset<Packet>, u': multiset<Packet>, t: nat)
    requires u == d + u'
    requires forall p :: if Due(p, Frame(t), Subframe(t)) then u'[p] == 0 else d[p] == 0
    ensures Leaves(u, d, u', t)
  {
  }

  lemma StreamLeaves(kind: Subtype, s: Subframes, h: seq<Timed>, sent: nat, t: nat, last: nat)
    requires Track(s, h, sent, t, last)
    ensures Leaves(Unsent(kind, h, sent), DueAt(kind, h, t), Unsent(kind, h, SentAfter(h, sent, t)), t)
    ensures DueAt(kind, h, t) == multiset(Head(kind, h, sent, t))
  {
    HeadIsDue(kind, s, h, sent, t, last);
    forall p
      ensures if Due(p, Frame(t), Subframe(t)) then Unsent(kind, h, SentAfter(h, sent, t))[p] == 0 else DueAt(kind, h, t)[p] == 0
    {
      if Due(p, Frame(t), Subframe(t)) {
        TrackTick(s, h, sent, t, if last < t then t else last);
        LaterNotDue(kind, h, SentAfter(h, sent, t), t, p);
      }
    }
    LeavesIf(Unsent(kind, h, sent), DueAt(kind, h, t), Unsent(kind, h, SentAfter(h, sent, t)), t);
  }

  lemma MatchingIsDuePart(q: seq<Slot>, d: multiset<Packet>, t: nat)
    requires DuePart(Bag(q), d, t)
    ensures multiset(Matching(q, 0, Frame(t), Subframe(t))) == d
  {
    forall p
      ensures multiset(Matching(q, 0, Frame(t), Subframe(t)))[p] == d[p]
    {
      WalkAndDelete(q, Frame(t), Subframe(t), p);
    }
  }

  /** The packets the walk finds are the control packets due now and the data packet of each stream due now. */
  lemma WalkFindsOutgoing(c: Config, q: seq<Slot>, t: nat, rrc: seq<Timed>, r: nat, ip: seq<Timed>, i: nat, lastR: nat, lastI: nat)
    requires Track(RRC_SUBF, rrc, r, t, lastR) && Track(IpSubframes(c), ip, i, t, lastI)
    requires Bag(q) == Content(c, t, rrc, r, ip, i)
    ensures multiset(Matching(q, 0, Frame(t), Subframe(t))) == Outgoing(c, t, rrc, ip)
  {
    hide Track, Content, Outgoing, DueAt, Unsent, SentAfter, Bag, DuePart;
    StreamLeaves(RRC_SETUP, RRC_SUBF, rrc, r, t, lastR);
    StreamLeaves(IP, IpSubframes(c), ip, i, t, lastI);
    OutgoingIsDuePart(c, t, rrc, r, ip, i);
    MatchingIsDuePart(q, Outgoing(c, t, rrc, ip), t);
  }

  lemma OutgoingIsDuePart(c: Config, t: nat, rrc: seq<Timed>, r: nat, ip: seq<Timed>, i: nat)
    requires r <= |rrc| && i <= |ip|
    requires DuePart(Unsent(RRC_SETUP, rrc, r), DueAt(RRC_SETUP, rrc, t), t) && DuePart(Unsent(IP, ip, i), DueAt(IP, ip, t), t)
    ensures DuePart(Content(c, t, rrc, r, ip, i), Outgoing(c, t, rrc, ip), t)
  {
    ControlDuePart(c, t);
    var m, d := Control(c, t), ControlDue(c, t);
    DuePartAdd(m, d, Unsent(RRC_SETUP, rrc, r), DueAt(RRC_SETUP, rrc, t), t);
    m, d := m + Unsent(RRC_SETUP, rrc, r), d + DueAt(RRC_SETUP, rrc, t);
    DuePartAdd(m, d, Unsent(IP, ip, i), DueAt(IP, ip, t), t);
  }

  /** How many slots are used: with at most three data subframes at most 91 of the 100. At most 7 packets leave in one subframe. */
  lemma Capacity(c: Config, t: nat, rrc: seq<Timed>, r: nat, ip: seq<Timed>, i: nat, lastR: nat, lastI: nat)
    requires Track(RRC_SUBF, rrc, r, t, lastR) && Track(IpSubframes(c), ip, i, t, lastI)
    ensures |Content(c, t, rrc, r, ip, i)| <= 28 + 21 * |IpSubframes(c)|
    ensures |Outgoing(c, t, rrc, ip)| <= 7
  {
    TrackBound(RRC_SUBF, rrc, r, t, lastR);
    TrackBound(IpSubframes(c), ip, i, t, lastI);
    StreamLeaves(RRC_SETUP, RRC_SUBF, rrc, r, t, lastR);
    StreamLeaves(IP, IpSubframes(c), ip, i, t, lastI);
    FiveControls(c, t);
  }

  lemma FiveControls(c: Config, t: nat)
    ensures |Control(c, t)| == 5 && |ControlDue(c, t)| <= 5
  {
  }

  // ------------------------------------------------------------ replacements

  // The outgoing packets in one particular order.
  function OutList(c: Config, t: nat, rrc: seq<Timed>, r: nat, ip: seq<Timed>, i: nat): seq<Packet> {
    DueList(c, KSib2, t) + DueList(c, KRar, t) + DueList(c, KSib1, t) + DueList(c, KDci0, t) + DueList(c, KFifth, t)
    + Head(RRC_SETUP, rrc, r, t) + Head(IP, ip, i, t)
  }

  lemma TimesOfData(c: Config, kind: Subtype, h: seq<Timed>, sent: nat, t: nat, esf: nat, p: Packet)
    requires kind == RRC_SETUP || kind == IP
    ensures Times(c, Head(kind, h, sent, t), esf, p) == 0
  {
    if Head(kind, h, sent, t) != [] {
      TimesOne(c, Head(kind, h, sent, t)[0], esf, p);
    }
  }

  lemma TimesOfControl(c: Config, t: nat, p: Packet)
    ensures Times(c, DueList(c, KSib2, t) + DueList(c, KRar, t) + DueList(c, KSib1, t) + DueList(c, KDci0, t) + DueList(c, KFifth, t),
              EsfAt(c, t), p) == ControlReplaced(c, t)[p]
  {
    var esf := EsfAt(c, t);
    var a := DueList(c, KSib2, t);
    TimesOfKind(c, KSib2, t, p);
    TimesOfKind(c, KRar, t, p);
    TimesOfKind(c, KSib1, t, p);
    TimesOfKind(c, KDci0, t, p);
    TimesOfKind(c, KFifth, t, p);
    TimesAppend(c, a, DueList(c, KRar, t), esf, p);
    a := a + DueList(c, KRar, t);
    TimesAppend(c, a, DueList(c, KSib1, t), esf, p);
    a := a + DueList(c, KSib1, t);
    TimesAppend(c, a, DueList(c, KDci0, t), esf, p);
    a := a + DueList(c, KDci0, t);
    TimesAppend(c, a, DueList(c, KFifth, t), esf, p);
  }

  // In whatever order the packets leave, the control packets due are replaced, and nothing else.
  lemma TimesOfOutgoing(c: Config, t: nat, rrc: seq<Timed>, r: nat, ip: seq<Timed>, i: nat, ps: seq<Packet>, p: Packet)
    requires DueAt(RRC_SETUP, rrc, t) == multiset(Head(RRC_SETUP, rrc, r, t)) && DueAt(IP, ip, t) == multiset(Head(IP, ip, i, t))
    requires multiset(ps) == Outgoing(c, t, rrc, ip)
    ensures Times(c, ps, EsfAt(c, t), p) == ControlReplaced(c, t)[p]
  {
    var esf := EsfAt(c, t);
    TimesPermute(c, ps, OutList(c, t, rrc, r, ip, i), esf, p);
    var a := DueList(c, KSib2, t) + DueList(c, KRar, t) + DueList(c, KSib1, t) + DueList(c, KDci0, t) + DueList(c, KFifth, t);
    TimesOfControl(c, t, p);
    TimesOfData(c, RRC_SETUP, rrc, r, t, esf, p);
    TimesOfData(c, IP, ip, i, t, esf, p);
    TimesAppend(c, a + Head(RRC_SETUP, rrc, r, t), Head(IP, ip, i, t), esf, p);
    TimesAppend(c, a, Head(RRC_SETUP, rrc, r, t), esf, p);
  }

  lemma ReplacedNotDue(c: Config, k: Kind, t: nat, p: Packet)
    requires Due(p, Frame(t), Subframe(t))
    ensures Replaced(c, k, t)[p] == 0
  {
    var u := NextDue(c, k, t + 1);
    WhenDue(c, k, t + 1);
    OfKindStamp(c, k, u);
    StampDiffers(t, u);
  }

  // What a walk over q0 that sent ps leaves in the queue, packet by packet.
  ghost predicate Stepped(c: Config, q0: seq<Slot>, q: seq<Slot>, ps: seq<Packet>, esf: nat, f: int, s: int) {
    forall p :: Bag(q)[p] == if Due(p, f, s) then 0 else Bag(q0)[p] + Times(c, ps, esf, p)
  }

  lemma ContentStepAt(c: Config, t: nat, rrc: seq<Timed>, r: nat, r': nat, ip: seq<Timed>, i: nat, i': nat, p: Packet)
    requires r <= |rrc| && i <= |ip| && r' <= |rrc| && i' <= |ip|
    requires Leaves(Unsent(RRC_SETUP, rrc, r), DueAt(RRC_SETUP, rrc, t), Unsent(RRC_SETUP, rrc, r'), t)
    requires Leaves(Unsent(IP, ip, i), DueAt(IP, ip, t), Unsent(IP, ip, i'), t)
    ensures Content(c, t + 1, rrc, r', ip, i')[p] ==
            if Due(p, Frame(t), Subframe(t)) then 0 else Content(c, t, rrc, r, ip, i)[p] + ControlReplaced(c, t)[p]
  {
    ControlStepAt(c, t, p);
    StaysAt(Unsent(RRC_SETUP, rrc, r), DueAt(RRC_SETUP, rrc, t), Unsent(RRC_SETUP, rrc, r'), t, p);
    StaysAt(Unsent(IP, ip, i), DueAt(IP, ip, t), Unsent(IP, ip, i'), t, p);
  }

  lemma SameCounts(m: multiset<Packet>, n: multiset<Packet>)
    requires forall p :: m[p] == n[p]
    ensures m == n
  {
  }

  /** The queue content of the next subframe: everything due has left, replaced where it recurs. */
  lemma ContentStep(c: Config, q: seq<Slot>, q': seq<Slot>, ps: seq<Packet>, t: nat, rrc: seq<Timed>, r: nat, ip: seq<Timed>, i: nat, lastR: nat, lastI: nat)
    requires Track(RRC_SUBF, rrc, r, t, lastR) && Track(IpSubframes(c), ip, i, t, lastI)
    requires Bag(q) == Content(c, t, rrc, r, ip, i) && multiset(ps) == Outgoing(c, t, rrc, ip)
    requires Stepped(c, q, q', ps, EsfAt(c, t), Frame(t), Subframe(t))
    ensures Bag(q') == Content(c, t + 1, rrc, SentAfter(rrc, r, t), ip, SentAfter(ip, i, t))
  {
    hide Track, Content, Outgoing, Stepped, Leaves, DueAt, Unsent, SentAfter, Head, Bag;
    StreamLeaves(RRC_SETUP, RRC_SUBF, rrc, r, t, lastR);
    StreamLeaves(IP, IpSubframes(c), ip, i, t, lastI);
    ContentSteps(c, q, q', ps, t, rrc, r, SentAfter(rrc, r, t), ip, i, SentAfter(ip, i, t));
  }

  lemma ContentSteps(c: Config, q: seq<Slot>, q': seq<Slot>, ps: seq<Packet>, t: nat, rrc: seq<Timed>, r: nat, r': nat, ip: seq<Timed>, i: nat, i': nat)
    requires r <= |rrc| && i <= |ip| && r' <= |rrc| && i' <= |ip|
    requires Leaves(Unsent(RRC_SETUP, rrc, r), DueAt(RRC_SETUP, rrc, t), Unsent(RRC_SETUP, rrc, r'), t)
    requires Leaves(Unsent(IP, ip, i), DueAt(IP, ip, t), Unsent(IP, ip, i'), t)
    requires DueAt(RRC_SETUP, rrc, t) == multiset(Head(RRC_SETUP, rrc, r, t)) && DueAt(IP, ip, t) == multiset(Head(IP, ip, i, t))
    requires Bag(q) == Content(c, t, rrc, r, ip, i) && multiset(ps) == Outgoing(c, t, rrc, ip)
    requires Stepped(c, q, q', ps, EsfAt(c, t), Frame(t), Subframe(t))
    ensures Bag(q') == Content(c, t + 1, rrc, r', ip, i')
  {
    hide Content, Bag, Times, Leaves, Outgoing, DueAt, Head, Unsent, EsfAt, Frame, Subframe;
    forall p
      ensures Bag(q')[p] == Content(c, t + 1, rrc, r', ip, i')[p]
    {
      StepAt(c, ps, t, rrc, r, r', ip, i, i', p);
    }
    SameCounts(Bag(q'), Content(c, t + 1, rrc, r', ip, i'));
  }

  lemma StepAt(c: Config, ps: seq<Packet>, t: nat, rrc: seq<Timed>, r: nat, r': nat, ip: seq<Timed>, i: nat, i': nat, p: Packet)
    requires r <= |rrc| && i <= |ip| && r' <= |rrc| && i' <= |ip|
    requires Leaves(Unsent(RRC_SETUP, rrc, r), DueAt(RRC_SETUP, rrc, t), Unsent(RRC_SETUP, rrc, r'), t)
    requires Leaves(Unsent(IP, ip, i), DueAt(IP, ip, t), Unsent(IP, ip, i'), t)
    requires DueAt(RRC_SETUP, rrc, t) == multiset(Head(RRC_SETUP, rrc, r, t)) && DueAt(IP, ip, t) == multiset(Head(IP, ip, i, t))
    requires multiset(ps) == Outgoing(c, t, rrc, ip)
    ensures Content(c, t + 1, rrc, r', ip, i')[p] ==
            if Due(p, Frame(t), Subframe(t)) then 0 else Content(c, t, rrc, r, ip, i)[p] + Times(c, ps, EsfAt(c, t), p)
  {
    TimesOfOutgoing(c, t, rrc, r, ip, i, ps, p);
    ContentStepAt(c, t, rrc, r, r', ip, i, i', p);
  }

  lemma StaysAt(u: multiset<Packet>, d: multiset<Packet>, u': multiset<Packet>, t: nat, p: Packet)
    requires Leaves(u, d, u', t)
    ensures u'[p] == if Due(p, Frame(t), Subframe(t)) then 0 else u[p]
  {
  }

  lemma ControlStepAt(c: Config, t: nat, p: Packet)
    ensures Control(c, t + 1)[p] == if Due(p, Frame(t), Subframe(t)) then 0 else Control(c, t)[p] + ControlReplaced(c, t)[p]
  {
    ControlDuePart(c, t);
    ControlStep(c, t);
    if Due(p, Frame(t), Subframe(t)) {
      ReplacedNotDue(c, KSib2, t, p);
      ReplacedNotDue(c, KRar, t, p);
      ReplacedNotDue(c, KSib1, t, p);
      ReplacedNotDue(c, KDci0, t, p);
      ReplacedNotDue(c, KFifth, t, p);
    }
    assert (Control(c, t) + ControlReplaced(c, t))[p] == (ControlDue(c, t) + Control(c, t + 1))[p];
  }

  // ------------------------------------------------------------ the counter of empty subframes

  // The packets that may be replaced in a walk at (f, s): none is replaced by one due at once, and at most one is EMPTY.
  ghost predicate Replaceable(c: Config, ps: seq<Packet>, esf: nat, e: int, f: int, s: int) {
    && (forall i :: 0 <= i < |ps| && ps[i].subtype == EMPTY ==> i == e && c.emptySubF != [] && esf <= |c.emptySubF|)
    && (forall i :: 0 <= i < |ps| && Follower(c, ps[i], esf).Some? ==> !Due(Follower(c, ps[i], esf).value, f, s))
  }

  // The counter after one packet is replaced.
  function EsfThen(c: Config, p: Packet, esf: nat): nat {
    if p.subtype == EMPTY && c.emptySubF != [] && esf <= |c.emptySubF| then ScheduleEMPTY(c, esf, p.frame).1 else esf
  }

  // The counter after n packets were replaced.
  function EsfAfter(c: Config, ps: seq<Packet>, esf: nat, n: nat): nat
    requires n <= |ps|
  {
    if n == 0 then esf else EsfThen(c, ps[n - 1], EsfAfter(c, ps, esf, n - 1))
  }

  lemma {:induction false} EsfUnchanged(c: Config, ps: seq<Packet>, esf: nat, n: nat)
    requires n <= |ps| && forall i :: 0 <= i < n ==> ps[i].subtype != EMPTY
    ensures EsfAfter(c, ps, esf, n) == esf
  {
    if n > 0 {
      EsfUnchanged(c, ps, esf, n - 1);
    }
  }

  lemma {:induction false} EsfWithOne(c: Config, ps: seq<Packet>, esf: nat, e: int, n: nat)
    requires n <= |ps| && forall i :: 0 <= i < |ps| && ps[i].subtype == EMPTY ==> i == e
    ensures EsfAfter(c, ps, esf, n) == if 0 <= e < n then EsfThen(c, ps[e], esf) else esf
  {
    if n > 0 {
      EsfWithOne(c, ps, esf, e, n - 1);
    }
  }

  // Where an outgoing packet comes from.
  lemma Origin(c: Config, t: nat, rrc: seq<Timed>, r: nat, ip: seq<Timed>, i: nat, p: Packet) returns (k: Option<Kind>)
    requires DueAt(RRC_SETUP, rrc, t) == multiset(Head(RRC_SETUP, rrc, r, t)) && DueAt(IP, ip, t) == multiset(Head(IP, ip, i, t))
    requires p in Outgoing(c, t, rrc, ip)
    ensures k.Some? ==> NextDue(c, k.value, t) == t && p == OfKind(c, k.value, t)
    ensures k.None? ==> p.subtype == RRC_SETUP || p.subtype == IP
  {
    k := if p in DueNow(c, KSib2, t) then Some(KSib2)
         else if p in DueNow(c, KRar, t) then Some(KRar)
         else if p in DueNow(c, KSib1, t) then Some(KSib1)
         else if p in DueNow(c, KDci0, t) then Some(KDci0)
         else if p in DueNow(c, KFifth, t) then Some(KFifth)
         else None;
  }

  lemma FollowerLater(c: Config, k: Kind, t: nat)
    requires NextDue(c, k, t) == t
    ensures Follower(c, OfKind(c, k, t), EsfAt(c, t)).Some?
    ensures !Due(Follower(c, OfKind(c, k, t), EsfAt(c, t)).value, Frame(t), Subframe(t))
  {
    FollowerOfKind(c, k, t);
    var u := NextDue(c, k, t + 1);
    WhenDue(c, k, t + 1);
    OfKindStamp(c, k, u);
    StampDiffers(t, u);
  }

  lemma OneEmptyDue(c: Config, t: nat, rrc: seq<Timed>, r: nat, ip: seq<Timed>, i: nat, p: Packet)
    requires DueAt(RRC_SETUP, rrc, t) == multiset(Head(RRC_SETUP, rrc, r, t)) && DueAt(IP, ip, t) == multiset(Head(IP, ip, i, t))
    requires p.subtype == EMPTY
    ensures Outgoing(c, t, rrc, ip)[p] == if c.emptySubF != [] && NextDue(c, KFifth, t) == t && p == OfKind(c, KFifth, t) then 1 else 0
  {
    EmptyOfKind(c, KSib2, t, p);
    EmptyOfKind(c, KRar, t, p);
    EmptyOfKind(c, KSib1, t, p);
    EmptyOfKind(c, KDci0, t, p);
    EmptyOfKind(c, KFifth, t, p);
    EmptyOfData(RRC_SETUP, rrc, r, t, p);
    EmptyOfData(IP, ip, i, t, p);
    CountOfSum(c, t, rrc, ip, p);
  }

  lemma EmptyOfKind(c: Config, k: Kind, t: nat, p: Packet)
    requires p.subtype == EMPTY
    ensures DueNow(c, k, t)[p] == if k == KFifth && c.emptySubF != [] && NextDue(c, KFifth, t) == t && p == OfKind(c, KFifth, t) then 1 else 0
  {
  }

  lemma EmptyOfData(kind: Subtype, h: seq<Timed>, sent: nat, t: nat, p: Packet)
    requires p.subtype == EMPTY && kind != EMPTY
    ensures multiset(Head(kind, h, sent, t))[p] == 0
  {
  }

  lemma CountOfSum(c: Config, t: nat, rrc: seq<Timed>, ip: seq<Timed>, p: Packet)
    ensures Outgoing(c, t, rrc, ip)[p] == DueNow(c, KSib2, t)[p] + DueNow(c, KRar, t)[p] + DueNow(c, KSib1, t)[p]
              + DueNow(c, KDci0, t)[p] + DueNow(c, KFifth, t)[p] + DueAt(RRC_SETUP, rrc, t)[p] + DueAt(IP, ip, t)[p]
  {
    var a := DueNow(c, KSib2, t) + DueNow(c, KRar, t);
    assert a[p] == DueNow(c, KSib2, t)[p] + DueNow(c, KRar, t)[p];
    assert ControlDue(c, t) == a + DueNow(c, KSib1, t) + DueNow(c, KDci0, t) + DueNow(c, KFifth, t);
  }

  lemma {:induction false} OnceInSeq(ps: seq<Packet>, p: Packet, i: nat, j: nat)
    requires i < j < |ps| && ps[i] == ps[j] == p
    ensures multiset(ps)[p] >= 2
  {
    assert ps == ps[..j] + [p] + ps[j + 1..];
    assert ps[..j][i] == p;
    assert p in ps[..j];
  }

  // The walk over the outgoing packets is undisturbed, and leaves the counter right for the next subframe.
  lemma OutgoingReplaceable(c: Config, t: nat, rrc: seq<Timed>, r: nat, ip: seq<Timed>, i: nat, ps: seq<Packet>) returns (e: int)
    requires DueAt(RRC_SETUP, rrc, t) == multiset(Head(RRC_SETUP, rrc, r, t)) && DueAt(IP, ip, t) == multiset(Head(IP, ip, i, t))
    requires multiset(ps) == Outgoing(c, t, rrc, ip)
    ensures Replaceable(c, ps, EsfAt(c, t), e, Frame(t), Subframe(t))
    ensures EsfAfter(c, ps, EsfAt(c, t), |ps|) == EsfAt(c, t + 1)
  {
    hide Outgoing, DueAt, Head, Frame, Subframe, EsfAt, EsfAfter, NextDue, Due;
    e := EmptyPosition(c, t, rrc, r, ip, i, ps);
    forall n | 0 <= n < |ps|
      ensures Follower(c, ps[n], EsfAt(c, t)).Some? ==> !Due(Follower(c, ps[n], EsfAt(c, t)).value, Frame(t), Subframe(t))
    {
      assert ps[n] in multiset(ps);
      var k := Origin(c, t, rrc, r, ip, i, ps[n]);
      if k.Some? {
        FollowerLater(c, k.value, t);
      }
    }
    EsfWithOne(c, ps, EsfAt(c, t), e, |ps|);
    if c.emptySubF != [] {
      EsfStep(c, t);
    }
  }

  lemma EmptyPosition(c: Config, t: nat, rrc: seq<Timed>, r: nat, ip: seq<Timed>, i: nat, ps: seq<Packet>) returns (e: int)
    requires DueAt(RRC_SETUP, rrc, t) == multiset(Head(RRC_SETUP, rrc, r, t)) && DueAt(IP, ip, t) == multiset(Head(IP, ip, i, t))
    requires multiset(ps) == Outgoing(c, t, rrc, ip)
    ensures forall n :: 0 <= n < |ps| && ps[n].subtype == EMPTY ==> n == e && c.emptySubF != []
    ensures -1 <= e < |ps|
    ensures e >= 0 <==> c.emptySubF != [] && NextDue(c, KFifth, t) == t
    ensures e >= 0 ==> ps[e] == OfKind(c, KFifth, t)
  {
    var x := OfKind(c, KFifth, t);
    if c.emptySubF != [] && NextDue(c, KFifth, t) == t {
      OneEmptyDue(c, t, rrc, r, ip, i, x);
      assert x in multiset(ps);
      assert x in ps;
      e :| 0 <= e < |ps| && ps[e] == x;
    } else {
      e := -1;
    }
    forall n | 0 <= n < |ps| && ps[n].subtype == EMPTY
      ensures n == e && c.emptySubF != []
    {
      OneEmptyDue(c, t, rrc, r, ip, i, ps[n]);
      assert ps[n] in multiset(ps);
      if n < e {
        OnceInSeq(ps, x, n, e);
      } else if e < n && e >= 0 {
        OnceInSeq(ps, x, e, n);
      }
    }
  }
}
