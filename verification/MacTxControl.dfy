/**
 The recurring control packets (mac_tx_helper.c, mac_tx.c): how each is filled, when it is
 due next, and which packet replaces it when it is sent.
*/
module MacTxControl {
  import opened ModArith
  import opened MacTxOutQueue
  import opened MacTxTime
  import opened Options

  const RAR_SUBFRAME := 6

  datatype Setup = Setup(dataSubF: Subframes, emptySubF: Subframes, sib1SF: nat, sib2SF: nat)

  predicate Usable(c: Setup) {
    c.sib1SF < 10 && c.sib2SF < 10
  }

  type Config = c: Setup | Usable(c) witness Setup([4], [], 5, 0)

  /**
   The subframes of IP packets. Without any, as is the default, none can be scheduled, and any list does to describe the
   stream that stays empty.
  */
  function IpSubframes(c: Config): (s: Subframes)
    ensures s != []
  {
    if c.dataSubF == [] then [0] else c.dataSubF
  }

  // At most three data subframes.
  type Roomy = c: Config | |c.dataSubF| <= 3 witness Setup([4], [], 5, 0)

  // ------------------------------------------------------------ filling packets

  function FillSIB2(c: Config, frame: int): Packet {
    Packet(frame, c.sib2SF, SIB2, 0, 0, 0, [])
  }

  // The redundancy version is the ceiling of 3/2 of (frame / 2) mod 4, modulo 4.
  function FillSIB1(c: Config, frame: int): Packet {
    Packet(frame, c.sib1SF, SIB1, (3 * (frame % 8) + 3) / 4 % 4, 0, 0, [])
  }

  /** SIB1 goes through the versions 0, 2, 3, 1, as section 5.3.1 of 3GPP TS 36.321 wants it, starting every eighth frame. */
  lemma Sib1Versions(c: Config, m: nat)
    ensures FillSIB1(c, 8 * m).rv == 0 && FillSIB1(c, 8 * m + 2).rv == 2 && FillSIB1(c, 8 * m + 4).rv == 3 && FillSIB1(c, 8 * m + 6).rv == 1
  {
    DivModUnique(m, 8, 0);
    DivModUnique(m, 8, 2);
    DivModUnique(m, 8, 4);
    DivModUnique(m, 8, 6);
  }

  function FillRAR(frame: int, subframe: int): Packet {
    Packet(frame, subframe, RAR, 0, 0, 0, [])
  }

  // The data is the one computed bit of the DCI0 template.
  function FillDCI0(frame: int, subframe: int): Packet {
    Packet(frame, subframe, DCI0, 0, 0, 0, [(frame * 10 + subframe) / 8 % 2])
  }

  function FillEMPTY(frame: int, subframe: int): Packet {
    Packet(frame, subframe, EMPTY, 0, 0, 0, [])
  }

  // ------------------------------------------------------------ when each kind is due

  // The five control packets in the queue; the fifth is EMPTY, or a second DCI0 if there are no empty subframes.
  datatype Kind = KSib2 | KRar | KSib1 | KDci0 | KFifth

  // The first time at or after t that is o modulo p.
  function Every(p: nat, o: nat, t: nat): (u: nat)
    requires o < p
    ensures t <= u
    decreases (o - t) % p
  {
    if t % p == o then t
    else
      OneNearer(p, o, t);
      Every(p, o, t + 1)
  }

  lemma OneNearer(p: nat, o: nat, t: nat)
    requires o < p
    ensures (o - t) % p == 0 <==> t % p == o
    ensures t % p != o ==> (o - (t + 1)) % p == (o - t) % p - 1
  {
    ModAdd(o - t, t, p);
    ModSmall(o, p);
    ModAdd(o - t, -1, p);
    DivMod(o - t, p);
    if t % p == o {
      DivMod(t, p);
      ModPlusMultiple(0, -(t / p), p);
      ModSmall(0, p);
      assert o - t == 0 + (-(t / p)) * p;
    } else {
      assert o - (t + 1) == (o - t) + -1;
      ModSmall((o - t) % p - 1, p);
    }
  }

  lemma {:induction false} EveryClosed(p: nat, o: nat, t: nat)
    requires o < p
    ensures Every(p, o, t) == t + (o - t) % p < t + p && Every(p, o, t) % p == o
    decreases (o - t) % p
  {
    OneNearer(p, o, t);
    DivMod(o - t, p);
    if t % p != o {
      EveryClosed(p, o, t + 1);
    }
  }

  lemma EveryStep(p: nat, o: nat, t: nat)
    requires o < p && 1 < p
    ensures Every(p, o, t) < t + p && (Every(p, o, t) == t <==> t % p == o)
    ensures Every(p, o, t + 1) == if t % p == o then t + p else Every(p, o, t)
    ensures Every(p, o, Every(p, o, t)) == Every(p, o, t)
  {
    EveryClosed(p, o, t);
    if t % p == o {
      EveryClosed(p, o, t + 1);
      OneNearer(p, o, t);
      ModPlusMultiple(p - 1, -1, p);
      ModSmall(p - 1, p);
      ModAdd(o - t, -1, p);
    }
  }

  // The first time at or after t at which this kind is due.
  function NextDue(c: Config, k: Kind, t: nat): (u: nat)
    ensures t <= u
  {
    match k
    case KSib2 => Every(80, c.sib2SF, t)
    case KRar => Every(10, RAR_SUBFRAME, t)
    case KSib1 => Every(20, c.sib1SF, t)
    case KDci0 => Every(10, 0, t)
    case KFifth => if c.emptySubF == [] then Every(10, 0, t) else NextIn(c.emptySubF, t)
  }

  // The packet of this kind that is due at time u.
  function OfKind(c: Config, k: Kind, u: nat): Packet {
    match k
    case KSib2 => FillSIB2(c, Frame(u))
    case KRar => FillRAR(Frame(u), RAR_SUBFRAME)
    case KSib1 => FillSIB1(c, Frame(u))
    case KDci0 => FillDCI0(Frame(u), 0)
    case KFifth => if c.emptySubF == [] then FillDCI0(Frame(u), 0) else FillEMPTY(Frame(u), Subframe(u))
  }

  function Pending(c: Config, k: Kind, t: nat): multiset<Packet> {
    multiset{OfKind(c, k, NextDue(c, k, t))}
  }

  function DueNow(c: Config, k: Kind, t: nat): multiset<Packet> {
    if NextDue(c, k, t) == t then multiset{OfKind(c, k, t)} else multiset{}
  }

  function Replaced(c: Config, k: Kind, t: nat): multiset<Packet> {
    if NextDue(c, k, t) == t then multiset{OfKind(c, k, NextDue(c, k, t + 1))} else multiset{}
  }

  // The control packets that the queue holds when the callback at time t starts.
  function Control(c: Config, t: nat): multiset<Packet> {
    Pending(c, KSib2, t) + Pending(c, KRar, t) + Pending(c, KSib1, t) + Pending(c, KDci0, t) + Pending(c, KFifth, t)
  }

  function ControlDue(c: Config, t: nat): multiset<Packet> {
    DueNow(c, KSib2, t) + DueNow(c, KRar, t) + DueNow(c, KSib1, t) + DueNow(c, KDci0, t) + DueNow(c, KFifth, t)
  }

  function ControlReplaced(c: Config, t: nat): multiset<Packet> {
    Replaced(c, KSib2, t) + Replaced(c, KRar, t) + Replaced(c, KSib1, t) + Replaced(c, KDci0, t) + Replaced(c, KFifth, t)
  }

  // The nextESF counter at time t: one past the list position of the pending EMPTY packet.
  function EsfAt(c: Config, t: nat): (n: nat)
    ensures n <= |c.emptySubF|
    ensures c.emptySubF != [] ==> 0 < n
  {
    var i := Below(c.emptySubF, t % 10, |c.emptySubF|);
    if c.emptySubF == [] then 0 else if i < |c.emptySubF| then i + 1 else 1
  }

  // The period and offset of a periodic kind.
  function Period(k: Kind): nat {
    match k
    case KSib2 => 80
    case KSib1 => 20
    case _ => 10
  }

  function Offset(c: Config, k: Kind): (o: nat)
    ensures o < 10
  {
    match k
    case KSib2 => c.sib2SF
    case KSib1 => c.sib1SF
    case KRar => RAR_SUBFRAME
    case _ => 0
  }

  // Whether this kind is due at time t.
  predicate IsDue(c: Config, k: Kind, t: nat) {
    if k == KFifth && c.emptySubF != [] then t % 10 in c.emptySubF else t % Period(k) == Offset(c, k)
  }

  /** The periods: SIB2 every eight frames, SIB1 every two, RAR and DCI0 every frame, EMPTY in every listed subframe. */
  lemma WhenDue(c: Config, k: Kind, t: nat)
    ensures NextDue(c, k, t) < t + 80 && (NextDue(c, k, t) == t <==> IsDue(c, k, t))
    ensures NextDue(c, k, NextDue(c, k, t)) == NextDue(c, k, t)
    ensures NextDue(c, k, t) != t ==> NextDue(c, k, t + 1) == NextDue(c, k, t)
  {
    if k == KFifth && c.emptySubF != [] {
      NextInStep(c.emptySubF, t);
    } else {
      EveryStep(Period(k), Offset(c, k), t);
    }
  }

  // Two times less than 1024 frames apart have the same stamp only if they are equal.
  lemma StampUnique(t: nat, u: nat)
    requires t <= u < t + 10 * LTE_NO_FRAMES
    ensures Frame(u) == Frame(t) && Subframe(u) == Subframe(t) <==> u == t
  {
  }

  lemma LowResidue(t: nat, m: nat)
    requires m == 2 || m == 8
    ensures t % (10 * m) < 10 ==> t % 10 == t % (10 * m)
  {
    if t % (10 * m) < 10 {
      DivModUnique(m * (t / (10 * m)), 10, t % (10 * m));
    }
  }

  lemma OfKindStamp(c: Config, k: Kind, t: nat)
    requires NextDue(c, k, t) == t
    ensures Due(OfKind(c, k, t), Frame(t), Subframe(t))
  {
    WhenDue(c, k, t);
    LowResidue(t, 8);
    LowResidue(t, 2);
  }

  /** Control packets are conserved: what is due and what replaces it is all that changes from one subframe to the next. */
  lemma ControlStep(c: Config, t: nat)
    ensures Control(c, t) + ControlReplaced(c, t) == ControlDue(c, t) + Control(c, t + 1)
  {
    KindStep(c, KSib2, t);
    KindStep(c, KRar, t);
    KindStep(c, KSib1, t);
    KindStep(c, KDci0, t);
    KindStep(c, KFifth, t);
    var t' := t + 1;
    Exchange(Pending(c, KSib2, t), Replaced(c, KSib2, t), DueNow(c, KSib2, t), Pending(c, KSib2, t'),
      Pending(c, KRar, t), Replaced(c, KRar, t), DueNow(c, KRar, t), Pending(c, KRar, t'));
    var a, r, d, b := Pending(c, KSib2, t) + Pending(c, KRar, t), Replaced(c, KSib2, t) + Replaced(c, KRar, t),
      DueNow(c, KSib2, t) + DueNow(c, KRar, t), Pending(c, KSib2, t') + Pending(c, KRar, t');
    Exchange(a, r, d, b, Pending(c, KSib1, t), Replaced(c, KSib1, t), DueNow(c, KSib1, t), Pending(c, KSib1, t'));
    a, r, d, b := a + Pending(c, KSib1, t), r + Replaced(c, KSib1, t), d + DueNow(c, KSib1, t), b + Pending(c, KSib1, t');
    Exchange(a, r, d, b, Pending(c, KDci0, t), Replaced(c, KDci0, t), DueNow(c, KDci0, t), Pending(c, KDci0, t'));
    a, r, d, b := a + Pending(c, KDci0, t), r + Replaced(c, KDci0, t), d + DueNow(c, KDci0, t), b + Pending(c, KDci0, t');
    Exchange(a, r, d, b, Pending(c, KFifth, t), Replaced(c, KFifth, t), DueNow(c, KFifth, t), Pending(c, KFifth, t'));
  }

  lemma Exchange(a: multiset<Packet>, r: multiset<Packet>, d: multiset<Packet>, b: multiset<Packet>,
      a': multiset<Packet>, r': multiset<Packet>, d': multiset<Packet>, b': multiset<Packet>)
    requires a + r == d + b && a' + r' == d' + b'
    ensures (a + a') + (r + r') == (d + d') + (b + b')
  {
    assert (a + a') + (r + r') == (a + r) + (a' + r');
    assert (d + b) + (d' + b') == (d + d') + (b + b');
  }

  lemma KindStep(c: Config, k: Kind, t: nat)
    ensures Pending(c, k, t) + Replaced(c, k, t) == DueNow(c, k, t) + Pending(c, k, t + 1)
  {
    WhenDue(c, k, t);
  }

  // ------------------------------------------------------------ what replaces a sent packet

  // schedule_EMPTY: the next empty subframe in list order, and the new counter.
  function ScheduleEMPTY(c: Config, esf: nat, frame: int): (r: (Packet, nat))
    requires c.emptySubF != [] && esf <= |c.emptySubF|
    ensures 0 < r.1 <= |c.emptySubF|
  {
    if esf == |c.emptySubF| then (FillEMPTY((frame + 1) % LTE_NO_FRAMES, c.emptySubF[0]), 1)
    else (FillEMPTY(frame, c.emptySubF[esf]), esf + 1)
  }

  // The packet that replaces p, if p recurs.
  function Follower(c: Config, p: Packet, esf: nat): Option<Packet> {
    match p.subtype
    case SIB2 => Some(FillSIB2(c, (p.frame + 8) % LTE_NO_FRAMES))
    case RAR => Some(FillRAR((p.frame + 1) % LTE_NO_FRAMES, RAR_SUBFRAME))
    case SIB1 => Some(FillSIB1(c, (p.frame + 2) % LTE_NO_FRAMES))
    case DCI0 => Some(FillDCI0((p.frame + 1) % LTE_NO_FRAMES, 0))
    case EMPTY => if c.emptySubF != [] && esf <= |c.emptySubF| then Some(ScheduleEMPTY(c, esf, p.frame).0) else None
    case _ => None
  }

  // The number of times r is among the replacements of the packets in s.
  function Times(c: Config, s: seq<Packet>, esf: nat, r: Packet): nat {
    if s == [] then 0 else Times(c, s[..|s| - 1], esf, r) + (if Follower(c, s[|s| - 1], esf) == Some(r) then 1 else 0)
  }

  lemma {:induction false} TimesAppend(c: Config, a: seq<Packet>, b: seq<Packet>, esf: nat, r: Packet)
    ensures Times(c, a + b, esf, r) == Times(c, a, esf, r) + Times(c, b, esf, r)
    decreases |b|
  {
    if b == [] {
      assert a + b == a;
    } else {
      var b' := b[..|b| - 1];
      TimesAppend(c, a, b', esf, r);
      assert (a + b)[..|a + b| - 1] == a + b';
    }
  }

  lemma TimesOne(c: Config, p: Packet, esf: nat, r: Packet)
    ensures Times(c, [p], esf, r) == if Follower(c, p, esf) == Some(r) then 1 else 0
  {
    assert [p][..0] == [];
  }

  lemma {:induction false} TimesHas(c: Config, s: seq<Packet>, i: nat, esf: nat, r: Packet)
    requires i < |s| && Follower(c, s[i], esf) == Some(r)
    ensures Times(c, s, esf, r) > 0
  {
    if i < |s| - 1 {
      TimesHas(c, s[..|s| - 1], i, esf, r);
    }
  }

  // The order of the packets does not matter for what replaces them.
  lemma {:induction false} TimesPermute(c: Config, a: seq<Packet>, b: seq<Packet>, esf: nat, r: Packet)
    requires multiset(a) == multiset(b)
    ensures Times(c, a, esf, r) == Times(c, b, esf, r)
    decreases |a|
  {
    if |a| == 0 {
      assert |multiset(b)| == 0;
    } else {
      var x, a' := a[|a| - 1], a[..|a| - 1];
      assert a == a' + [x];
      var j := TakeOut(b, a', x);
      var b1, b2 := b[..j], b[j + 1..];
      TimesPermute(c, a', b1 + b2, esf, r);
      TimesOne(c, x, esf, r);
      TimesAppend(c, b1 + [x], b2, esf, r);
      TimesAppend(c, b1, [x], esf, r);
      TimesAppend(c, b1, b2, esf, r);
    }
  }

  lemma TakeOut(b: seq<Packet>, a: seq<Packet>, x: Packet) returns (j: nat)
    requires multiset(a + [x]) == multiset(b)
    ensures j < |b| && b == b[..j] + [x] + b[j + 1..] && multiset(b[..j] + b[j + 1..]) == multiset(a)
  {
    assert x in multiset(a + [x]);
    assert x in b;
    j :| 0 <= j < |b| && b[j] == x;
    var b1, b2 := b[..j], b[j + 1..];
    assert b == b1 + [x] + b2;
    assert multiset(b) == multiset(b1) + multiset{x} + multiset(b2);
    assert multiset(a + [x]) == multiset(a) + multiset{x};
    assert multiset(b) - multiset{x} == multiset(b1 + b2);
    assert multiset(a + [x]) - multiset{x} == multiset(a);
  }

  // ------------------------------------------------------------ the replacements of one subframe

  function DueList(c: Config, k: Kind, t: nat): (s: seq<Packet>)
    ensures multiset(s) == DueNow(c, k, t)
  {
    if NextDue(c, k, t) == t then [OfKind(c, k, t)] else []
  }

  lemma FrameLater(t: nat, n: nat)
    ensures Frame(t + 10 * n) == (Frame(t) + n) % LTE_NO_FRAMES
  {
    assert (t + 10 * n) / 10 == t / 10 + n;
    ModAdd(t / 10, n, LTE_NO_FRAMES);
  }

  // A packet that is due is replaced by the next one of its kind.
  lemma FollowerOfKind(c: Config, k: Kind, t: nat)
    requires NextDue(c, k, t) == t
    ensures Follower(c, OfKind(c, k, t), EsfAt(c, t)) == Some(OfKind(c, k, NextDue(c, k, t + 1)))
  {
    if k == KFifth && c.emptySubF != [] {
      FollowerOfEmpty(c, t);
    } else {
      WhenDue(c, k, t);
      EveryStep(Period(k), Offset(c, k), t);
      FrameLater(t, Period(k) / 10);
    }
  }

  // The counter points at the empty subframe after the one that is due.
  lemma EmptyIndex(c: Config, t: nat) returns (i: nat)
    requires c.emptySubF != [] && NextDue(c, KFifth, t) == t
    ensures i < |c.emptySubF| && c.emptySubF[i] == t % 10 && EsfAt(c, t) == i + 1
  {
    WhenDue(c, KFifth, t);
    i :| 0 <= i < |c.emptySubF| && c.emptySubF[i] == t % 10;
    BelowIs(c.emptySubF, t % 10, |c.emptySubF|, i);
  }

  lemma FollowerOfEmpty(c: Config, t: nat)
    requires c.emptySubF != [] && NextDue(c, KFifth, t) == t
    ensures Follower(c, OfKind(c, KFifth, t), EsfAt(c, t)) == Some(OfKind(c, KFifth, NextDue(c, KFifth, t + 1)))
  {
    var i := EmptyIndex(c, t);
    NextStamp(c.emptySubF, t, i + 1, Frame(t));
  }

  lemma EsfIs(c: Config, t: nat, x: nat, i: nat)
    requires c.emptySubF != [] && i <= |c.emptySubF| && x == t % 10
    requires (i < |c.emptySubF| ==> c.emptySubF[i] >= x) && forall j :: 0 <= j < i ==> c.emptySubF[j] < x
    ensures EsfAt(c, t) == if i < |c.emptySubF| then i + 1 else 1
  {
    BelowIs(c.emptySubF, x, |c.emptySubF|, i);
  }

  lemma TickSubframe(t: nat)
    ensures (t + 1) % 10 == if t % 10 == 9 then 0 else t % 10 + 1
  {
  }

  lemma EsfDue(c: Config, t: nat)
    requires c.emptySubF != [] && NextDue(c, KFifth, t) == t
    ensures EsfAt(c, t + 1) == ScheduleEMPTY(c, EsfAt(c, t), Frame(t)).1
  {
    var i := EmptyIndex(c, t);
    var x := c.emptySubF[i];
    TickSubframe(t);
    if x < 9 {
      EsfIs(c, t + 1, x + 1, i + 1);
    } else {
      EsfIs(c, t + 1, 0, 0);
    }
  }

  lemma EsfIdle(c: Config, t: nat)
    requires c.emptySubF != [] && NextDue(c, KFifth, t) != t
    ensures EsfAt(c, t + 1) == EsfAt(c, t)
  {
    var x, n := t % 10, |c.emptySubF|;
    var i := Below(c.emptySubF, x, n);
    assert i < n && c.emptySubF[i] == x ==> NextDue(c, KFifth, t) == t;
    TickSubframe(t);
    if x < 9 {
      EsfIs(c, t + 1, x + 1, i);
    } else {
      EsfIs(c, t + 1, 0, 0);
    }
  }

  /** The nextESF counter keeps pace, whether or not an EMPTY packet was sent. */
  lemma EsfStep(c: Config, t: nat)
    requires c.emptySubF != []
    ensures EsfAt(c, t + 1) == if NextDue(c, KFifth, t) == t then ScheduleEMPTY(c, EsfAt(c, t), Frame(t)).1 else EsfAt(c, t)
  {
    if NextDue(c, KFifth, t) == t {
      EsfDue(c, t);
    } else {
      EsfIdle(c, t);
    }
  }

  lemma TimesOfKind(c: Config, k: Kind, t: nat, r: Packet)
    ensures Times(c, DueList(c, k, t), EsfAt(c, t), r) == Replaced(c, k, t)[r]
  {
    if NextDue(c, k, t) == t {
      FollowerOfKind(c, k, t);
      TimesOne(c, OfKind(c, k, t), EsfAt(c, t), r);
    }
  }
}
