/**
 The HARQ processes over a whole run of the scheduler: the new-data indicator toggles from each packet
 of a process to the next one scheduled on it. In the order of sending it need not, as responses may
 overtake packets that were scheduled before them.
*/
module MacTxHarq {
  import opened MacTx
  import opened MacTxControl
  import opened MacTxData
  import opened MacTxOutQueue
  import opened MacTxScheduler
  import opened MacTxTime

  // x is a data packet of the run, of either stream.
  ghost predicate IsData(g: Run, x: Timed) {
    x in g.rrc || x in g.ip
  }

  // p was handed over for x.
  ghost predicate Sent(g: Run, x: Timed, p: Packet) {
    && x.due < |g.log| && p in g.log[x.due]
    && ((x in g.rrc && CarriesOut(p, RRC_SETUP, x)) || (x in g.ip && CarriesOut(p, IP, x)))
  }

  // ------------------------------------------------------------ in the order of scheduling

  lemma HasIs(h: seq<Timed>, x: Timed)
    requires x in h
    ensures HasNumber(h, x.num)
  {
    var i :| 0 <= i < |h| && h[i] == x;
  }

  lemma OfNumber(g: Run, n: nat) returns (x: Timed)
    requires Numbered(g.rrc, g.ip) && n < g.Count()
    ensures IsData(g, x) && x.num == n
  {
    if HasNumber(g.rrc, n) {
      var i :| 0 <= i < |g.rrc| && g.rrc[i].num == n;
      x := g.rrc[i];
    } else {
      assert HasNumber(g.ip, n);
      var i :| 0 <= i < |g.ip| && g.ip[i].num == n;
      x := g.ip[i];
    }
  }

  lemma OneOfNumber(g: Run, x: Timed, y: Timed)
    requires Numbered(g.rrc, g.ip) && IsData(g, x) && IsData(g, y) && x.num == y.num
    ensures x == y && x.num < g.Count()
  {
    if x in g.rrc {
      HasIs(g.rrc, x);
    } else {
      HasIs(g.ip, x);
    }
    if y in g.rrc {
      HasIs(g.rrc, y);
    } else {
      HasIs(g.ip, y);
    }
    assert x in g.rrc <==> y in g.rrc;
    hide HasNumber;
  }

  // y is the next data packet that was scheduled after x on the same HARQ process.
  ghost predicate NextScheduled(g: Run, x: Timed, y: Timed) {
    && IsData(g, x) && IsData(g, y) && x.num < y.num && x.num % 8 == y.num % 8
    && forall z :: IsData(g, z) && x.num < z.num < y.num ==> z.num % 8 != x.num % 8
  }

  lemma NextIsEighth(g: Run, x: Timed, y: Timed)
    requires Numbered(g.rrc, g.ip) && NextScheduled(g, x, y)
    ensures y.num == x.num + 8
  {
    hide Numbered;
    OneOfNumber(g, y, y);
    EightLater(x.num);
    if x.num + 8 < y.num {
      var z := OfNumber(g, x.num + 8);
    }
  }

  lemma EightLater(n: nat)
    ensures (n + 8) % 8 == n % 8 && (n + 8) / 8 % 2 == 1 - n / 8 % 2
  {
  }

  /** The process is used by every eighth packet, and the indicator toggles from one to the next. */
  lemma HarqAlternates(c: Config, g: Run, x: Timed, y: Timed, p: Packet, q: Packet)
    requires RunRight(c, g) && NextScheduled(g, x, y) && Sent(g, x, p) && Sent(g, y, q)
    ensures y.num == x.num + 8 && q.harqNo == p.harqNo && q.ndi == 1 - p.ndi
  {
    hide RunRight, Numbered, IsData;
    RightNumbers(c, g);
    NextIsEighth(g, x, y);
    EightLater(x.num);
  }

  /** Every data packet in the log belongs to a scheduled one. */
  lemma SentFor(c: Config, g: Run, t: nat, p: Packet) returns (x: Timed)
    requires RunRight(c, g) && t < g.now && p in g.log[t] && (p.subtype == RRC_SETUP || p.subtype == IP)
    ensures IsData(g, x) && x.due == t && Sent(g, x, p)
  {
    DataWasScheduled(c, g, t, p);
    RightNumbers(c, g);
    hide RunRight, Numbered;
    if p.subtype == RRC_SETUP {
      var i :| 0 <= i < |g.rrc| && g.rrc[i].due == t && CarriesOut(p, RRC_SETUP, g.rrc[i]);
      x := g.rrc[i];
    } else {
      var i :| 0 <= i < |g.ip| && g.ip[i].due == t && CarriesOut(p, IP, g.ip[i]);
      x := g.ip[i];
    }
  }

  // ------------------------------------------------------------ in the order of sending

  // y is the next data packet that is sent after x on the same HARQ process, and no other is sent together with x or y.
  ghost predicate NextSent(g: Run, x: Timed, y: Timed) {
    && IsData(g, x) && IsData(g, y) && x.due < y.due && x.num % 8 == y.num % 8
    && forall z :: IsData(g, z) && x.due <= z.due <= y.due && z.num % 8 == x.num % 8 ==> z == x || z == y
  }

  /** In the order of sending the indicator toggles exactly if the packets are an odd number of uses of the process apart. */
  lemma TogglesIff(g: Run, x: Timed, y: Timed, p: Packet, q: Packet)
    requires NextSent(g, x, y) && Sent(g, x, p) && Sent(g, y, q)
    ensures q.harqNo == p.harqNo
    ensures q.ndi != p.ndi <==> (y.num - x.num) / 8 % 2 == 1
  {
    var a, b := x.num / 8, y.num / 8;
    assert y.num - x.num == 8 * (b - a);
    assert (y.num - x.num) / 8 == b - a;
  }

  // No packet is sent before, or together with, one that was scheduled before it on its process.
  ghost predicate InOrder(g: Run) {
    forall x, y :: IsData(g, x) && IsData(g, y) && x.num < y.num && x.num % 8 == y.num % 8 ==> x.due < y.due
  }

  /** That is so exactly if each packet is due after the eighth before it, which is known when it is scheduled. */
  lemma InOrderIff(g: Run)
    requires Numbered(g.rrc, g.ip)
    ensures InOrder(g) <==> forall x, y :: IsData(g, x) && IsData(g, y) && y.num == x.num + 8 ==> x.due < y.due
  {
    if forall x, y :: IsData(g, x) && IsData(g, y) && y.num == x.num + 8 ==> x.due < y.due {
      forall x, y | IsData(g, x) && IsData(g, y) && x.num < y.num && x.num % 8 == y.num % 8
        ensures x.due < y.due
      {
        Climb(g, x, y);
      }
    }
  }

  lemma {:induction false} Climb(g: Run, x: Timed, y: Timed)
    requires Numbered(g.rrc, g.ip) && forall x, y :: IsData(g, x) && IsData(g, y) && y.num == x.num + 8 ==> x.due < y.due
    requires IsData(g, x) && IsData(g, y) && x.num < y.num && x.num % 8 == y.num % 8
    ensures x.due < y.due
    decreases y.num
  {
    hide Numbered;
    OneOfNumber(g, y, y);
    var z := OfNumber(g, y.num - 8);
    if x.num < z.num {
      Climb(g, x, z);
    } else {
      OneOfNumber(g, x, z);
    }
  }

  /** If no packet is overtaken on its process, the indicator toggles in the order of sending too. */
  lemma TogglesInOrder(c: Config, g: Run, x: Timed, y: Timed, p: Packet, q: Packet)
    requires RunRight(c, g) && InOrder(g) && NextSent(g, x, y) && Sent(g, x, p) && Sent(g, y, q)
    ensures q.harqNo == p.harqNo && q.ndi == 1 - p.ndi
  {
    hide RunRight, Sent;
    RightNumbers(c, g);
    hide Numbered;
    if x.num == y.num {
      OneOfNumber(g, x, y);
    }
    HarqAlternates(c, g, x, y, p, q);
  }

  lemma RightNumbers(c: Config, g: Run)
    requires RunRight(c, g)
    ensures Numbered(g.rrc, g.ip) && |g.log| == g.now
  {
  }

  lemma DueLater(s: Subframes, h: seq<Timed>, i: nat, j: nat)
    requires Listed(s, Dues(h)) && i < j < |h|
    ensures h[i].due < h[j].due
  {
    assert Dues(h)[i] < Dues(h)[j];
  }

  /** With one stream only, none is. */
  lemma OneStreamInOrder(c: Config, g: Run)
    requires RunRight(c, g) && (g.rrc == [] || g.ip == [])
    ensures InOrder(g)
  {
    hide Logged, Dues, Listed;
    var s, h := if g.ip == [] then RRC_SUBF else IpSubframes(c), if g.ip == [] then g.rrc else g.ip;
    assert Listed(s, Dues(h)) && Rising(h);
    hide RunRight;
    forall x, y | IsData(g, x) && IsData(g, y) && x.num < y.num
      ensures x.due < y.due
    {
      var i :| 0 <= i < |h| && h[i] == x;
      var j :| 0 <= j < |h| && h[j] == y;
      assert i < j;
      DueLater(s, h, i, j);
    }
  }

  // ------------------------------------------------------------ a run in which it does not toggle

  lemma NextOfOne(s: Subframes, f: nat, before: nat, due: nat)
    requires |s| == 1 && 10 * f <= before + 10 - s[0] && before < 10 * f + s[0]
    requires before < due && due % 10 in s && forall u :: before < u < due ==> u % 10 !in s
    ensures due == 10 * f + s[0]
  {
    assert s[0] < 10 && s[0] in s && due % 10 == s[0];
    assert (10 * f + s[0]) % 10 == s[0];
  }

  // A plan in one subframe of each frame, from before that subframe in the first.
  lemma {:induction false} OncePerFrame(s: Subframes, last: nat, ds: seq<seq<int>>, n: nat, i: nat)
    requires |s| == 1 && last < s[0] && i < |ds|
    ensures Plan(s, last, ds, n)[i] == Timed(10 * i + s[0], ds[i], n + i)
  {
    PlanIs(s, last, ds, n, i);
    hide Plan;
    var h := Plan(s, last, ds, n);
    if i > 0 {
      OncePerFrame(s, last, ds, n, i - 1);
      NextOfOne(s, i, h[i - 1].due, h[i].due);
    } else {
      NextOfOne(s, 0, last, h[0].due);
    }
  }

  function Burst(i: nat): Fetch {
    if i < 20 then Fetched([i], 1) else NoPacket
  }

  function Quiet(i: nat): Fetch {
    NoPacket
  }

  // Without packets the stream does not grow.
  lemma NoneSent(c: Config, g: Run, m: nat, full: bool, ip: seq<Timed>, last: nat)
    requires IpPlanned(c, g, Quiet, m, full, ip, last)
    ensures ip == g.ip
  {
    assert Quiet(0).NoPacket?;
  }

  // Twenty packets, in subframe 4 of the first twenty frames.
  lemma BurstPlanned(c: Config, g: Run, m: nat, full: bool, ip: seq<Timed>, last: nat)
    requires c.dataSubF == [4] && g.ip == [] && g.lastIP == 0 && g.now == 0 && g.Count() == 0 && IpPlanned(c, g, Burst, m, full, ip, last)
    ensures |ip| == 20 && forall i :: 0 <= i < 20 ==> ip[i] == Timed(10 * i + 4, [i], i)
  {
    var ds := Payloads(Burst, m);
    assert Burst(20).NoPacket?;
    assert [] + Plan([4], 0, ds, 0) == Plan([4], 0, ds, 0);
    if m > 0 {
      OncePerFrame([4], 0, ds, 0, m - 1);
    }
    assert m == 20;
    forall i | 0 <= i < 20
      ensures ip[i] == Timed(10 * i + 4, [i], i)
    {
      OncePerFrame([4], 0, ds, 0, i);
    }
  }

  // Five messages, each answered.
  const FIVE: seq<UlMessage> := [ULSCH([20]), ULSCH([21]), ULSCH([22]), ULSCH([23]), ULSCH([24])]

  lemma {:induction false} FiveResponses(k: nat)
    requires k <= 5
    ensures |Responses(FIVE, k)| == k && forall i :: 0 <= i < k ==> Responses(FIVE, k)[i] == [20 + i]
  {
    if k > 0 {
      FiveResponses(k - 1);
      ResponsesNext(FIVE, k - 1);
    }
  }

  // Five responses, in subframe 2 of the first five frames.
  lemma FivePlanned(c: Config, g: Run, k: nat, full: bool, rrc: seq<Timed>, last: nat)
    requires g.rrc == [] && g.lastRRC == 0 && g.now == 1 && g.Count() == 20 && RrcPlanned(g, FIVE, k, full, rrc, last)
    ensures |rrc| == 5 && forall i :: 0 <= i < 5 ==> rrc[i] == Timed(10 * i + 2, [20 + i], 20 + i)
  {
    var ds := Responses(FIVE, k);
    FiveResponses(k);
    assert [] + Plan(RRC_SUBF, 0, ds, 20) == Plan(RRC_SUBF, 0, ds, 20);
    if k > 0 {
      OncePerFrame(RRC_SUBF, 0, ds, 20, k - 1);
    }
    assert k == 5;
    forall i | 0 <= i < 5
      ensures rrc[i] == Timed(10 * i + 2, [20 + i], 20 + i)
    {
      OncePerFrame(RRC_SUBF, 0, ds, 20, i);
    }
  }

  // The two streams of the run below.
  ghost predicate Overtaking(g: Run) {
    && |g.ip| == 20 && (forall i :: 0 <= i < 20 ==> g.ip[i] == Timed(10 * i + 4, [i], i))
    && |g.rrc| == 5 && (forall i :: 0 <= i < 5 ==> g.rrc[i] == Timed(10 * i + 2, [20 + i], 20 + i))
  }

  lemma SameIndicator(c: Config, g: Run)
    requires RunRight(c, g) && g.now == 85 && Overtaking(g)
    ensures Packet(4, 2, RRC_SETUP, 0, 0, 1, [24]) in g.log[42] && Packet(8, 4, IP, 0, 0, 1, [8]) in g.log[84]
    ensures forall t, p :: 42 < t < 84 && p in g.log[t] && (p.subtype == RRC_SETUP || p.subtype == IP) ==> p.harqNo != 0
  {
    hide RunRight, Numbered, Overtaking, IsData;
    RightNumbers(c, g);
    TwoSent(c, g);
    forall t, r | 42 < t < 84 && r in g.log[t] && (r.subtype == RRC_SETUP || r.subtype == IP)
      ensures r.harqNo != 0
    {
      var x := SentFor(c, g, t, r);
      NotBetween(g, x);
    }
  }

  lemma NotBetween(g: Run, x: Timed)
    requires Overtaking(g) && IsData(g, x) && 42 < x.due < 84
    ensures x.num % 8 != 0
  {
    if x in g.ip {
      var i :| 0 <= i < |g.ip| && g.ip[i] == x;
    }
  }

  lemma TwoSent(c: Config, g: Run)
    requires RunRight(c, g) && |g.log| == g.now == 85 && Overtaking(g)
    ensures Packet(4, 2, RRC_SETUP, 0, 0, 1, [24]) in g.log[42] && Packet(8, 4, IP, 0, 0, 1, [8]) in g.log[84]
  {
    hide RunRight;
    assert g.rrc[4] == Timed(42, [24], 24) && g.ip[8] == Timed(84, [8], 8);
    hide Overtaking;
    SentOnce(c, g, RRC_SETUP, g.rrc[4], 4);
    SentOnce(c, g, IP, g.ip[8], 8);
  }

  lemma SentOnce(c: Config, g: Run, kind: Subtype, x: Timed, i: nat)
    requires RunRight(c, g) && x.due < g.now == |g.log| && (kind == RRC_SETUP || kind == IP)
    requires if kind == IP then i < |g.ip| && x == g.ip[i] else i < |g.rrc| && x == g.rrc[i]
    ensures Packet(x.due / 10 % 1024, x.due % 10, kind, 0, x.num % 8, x.num / 8 % 2, x.data) in g.log[x.due]
  {
    hide RunRight;
    var p := Packet(x.due / 10 % 1024, x.due % 10, kind, 0, x.num % 8, x.num / 8 % 2, x.data);
    if kind == IP {
      IpOnTime(c, g, x, i, p);
    } else {
      RrcOnTime(c, g, x, i, p);
    }
    assert multiset(g.log[x.due])[p] == 1;
  }

  lemma FirstTime(c: Config, g: Run, g': Run, k: nat, rrcFull: bool, m: nat, ipFull: bool)
    requires c.dataSubF == [4] && g == Run(0, [], 0, 0, [], 0, 0, []) && RrcPlanned(g, [], k, rrcFull, g'.rrc, g'.lastRRC)
    requires IpPlanned(c, g.(rrc := g'.rrc, lastRRC := g'.lastRRC), Burst, m, ipFull, g'.ip, g'.lastIP)
    ensures g'.rrc == [] && g'.lastRRC == 0 && |g'.ip| == 20 && forall i :: 0 <= i < 20 ==> g'.ip[i] == Timed(10 * i + 4, [i], i)
  {
    assert g'.rrc == [] && g'.lastRRC == 0;
    BurstPlanned(c, g.(rrc := g'.rrc, lastRRC := g'.lastRRC), m, ipFull, g'.ip, g'.lastIP);
  }

  lemma SecondTime(c: Config, g: Run, g': Run, k: nat, rrcFull: bool, m: nat, ipFull: bool)
    requires g.now == 1 && g.rrc == [] && g.lastRRC == 0 && |g.ip| == 20 && forall i :: 0 <= i < 20 ==> g.ip[i] == Timed(10 * i + 4, [i], i)
    requires RrcPlanned(g, FIVE, k, rrcFull, g'.rrc, g'.lastRRC)
    requires IpPlanned(c, g.(rrc := g'.rrc, lastRRC := g'.lastRRC), Quiet, m, ipFull, g'.ip, g'.lastIP)
    ensures Overtaking(g')
  {
    FivePlanned(c, g, k, rrcFull, g'.rrc, g'.lastRRC);
    hide RrcPlanned;
    NoneSent(c, g.(rrc := g'.rrc, lastRRC := g'.lastRRC), m, ipFull, g'.ip, g'.lastIP);
  }

  lemma LaterTimes(c: Config, g: Run, g': Run, k: nat, rrcFull: bool, m: nat, ipFull: bool)
    requires Overtaking(g) && RrcPlanned(g, [], k, rrcFull, g'.rrc, g'.lastRRC)
    requires IpPlanned(c, g.(rrc := g'.rrc, lastRRC := g'.lastRRC), Quiet, m, ipFull, g'.ip, g'.lastIP)
    ensures Overtaking(g')
  {
    NoneSent(c, g.(rrc := g'.rrc, lastRRC := g'.lastRRC), m, ipFull, g'.ip, g'.lastIP);
  }

  /**
   Five responses overtake the packets that were scheduled before them: on process 0 the response of number 24 is followed
   by the IP packet of number 8, with the same indicator.
  */
  method Overtaken() returns (s: Scheduler)
    ensures s.Valid() && s.run.now == 85
    ensures Packet(4, 2, RRC_SETUP, 0, 0, 1, [24]) in s.run.log[42] && Packet(8, 4, IP, 0, 0, 1, [8]) in s.run.log[84]
    ensures forall t, p :: 42 < t < 84 && p in s.run.log[t] && (p.subtype == RRC_SETUP || p.subtype == IP) ==> p.harqNo != 0
  {
    hide RunRight, QueueRight, RrcPlanned, IpPlanned, Overtaking;
    s := new Scheduler(Setup([4], [], 5, 0));
    ghost var g := s.run;
    var k, rrcFull, m, ipFull; ghost var sent;
    k, rrcFull, m, ipFull, sent := s.Callback(0, 0, [], Burst);
    FirstTime(s.c, g, s.run, k, rrcFull, m, ipFull);
    g := s.run;
    k, rrcFull, m, ipFull, sent := s.Callback(0, 1, FIVE, Quiet);
    SecondTime(s.c, g, s.run, k, rrcFull, m, ipFull);
    var t := 2;
    while t < 85
      invariant t <= 85 && s.Valid() && s.run.now == t && Overtaking(s.run)
      invariant fresh(s) && fresh(s.queue) && fresh(s.queue.slots) && fresh(s.buf)
    {
      g := s.run;
      k, rrcFull, m, ipFull, sent := s.Callback(t / 10, t % 10, [], Quiet);
      LaterTimes(s.c, g, s.run, k, rrcFull, m, ipFull);
      t := t + 1;
    }
    SameIndicator(s.c, s.run);
  }
}
