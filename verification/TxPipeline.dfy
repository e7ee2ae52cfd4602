/**
 The radio transmit pipeline (sora_radio.c) as a state machine. writeSora fills a ring of
 buffers, SoraTXWorker moves full buffers to the radio and queues a command for each, and
 the firmware takes the commands off its FIFO. The two threads share only the ring and its
 two indices; an action is one read or write of shared state, and actions interleave freely.
*/
module TxPipeline {
  import opened ModArith

  const ULONG_MAX: nat := 0xFFFF_FFFF
  const WRAP: nat := 0x1_0000_0000

  // Returns a - b for 32-bit counters, as the program computes it.
  function DiffWrap(a: nat, b: nat): nat
    requires a <= ULONG_MAX && b <= ULONG_MAX
  {
    if b > a then (ULONG_MAX - b) + a + 1 else a - b
  }

  // The register value of a counter that started at c and has counted n.
  function Register(c: nat, n: nat): (r: nat)
    ensures r <= ULONG_MAX
  {
    (c + n) % WRAP
  }

  /** diff_wrap is subtraction modulo 2^32. */
  lemma DiffWrapExact(a: nat, b: nat)
    requires a <= ULONG_MAX && b <= ULONG_MAX
    ensures DiffWrap(a, b) == (a - b) % WRAP
  {
    if b > a {
      DivModUnique(-1, WRAP, a - b + WRAP);
    } else {
      ModSmall(a - b, WRAP);
    }
  }

  /** Across any number of wraps it gives the true distance of two counters, if that is below 2^32. */
  lemma DiffWrapCounts(c: nat, m: nat, n: nat)
    requires n <= m <= n + ULONG_MAX
    ensures DiffWrap(Register(c, m), Register(c, n)) == m - n
  {
    DiffWrapExact(Register(c, m), Register(c, n));
    ModAdd(c + m, -((c + n) % WRAP), WRAP);
    ModAdd(c + m - (c + n) % WRAP, 0, WRAP);
    var q := (c + n) / WRAP;
    DivMod(c + n, WRAP);
    assert c + m - (c + n) % WRAP == (m - n) + q * WRAP;
    ModPlusMultiple(m - n, q, WRAP);
    ModSmall(m - n, WRAP);
  }

  // ------------------------------------------------------------ state

  // no_tx_bufs, TXBufferSize, cmd_fifo_queue_size, and the initial value of the FIFO registers.
  datatype Params = Params(bufs: nat, size: nat, fifo: nat, c: nat)

  ghost predicate Sane(p: Params) {
    0 < p.bufs && 0 < p.size && 0 < p.fifo <= 16 && WRAP % p.fifo == 0
  }

  // Where writeSora is: copying, waiting for the worker, or about to publish.
  datatype ProducerAt = Filling | Spinning | Granted

  // Where the worker's loop is.
  datatype WorkerAt = Looking | Reading | Stored | Started | Counted | Polling | Freeing

  datatype State = State(
    // shared
    ring: seq<seq<int>>, prepare: nat, transfer: nat,
    // writeSora
    producer: ProducerAt, next: nat, indexSrc: nat, todo: seq<int>,
    // SoraTXWorker
    worker: WorkerAt, read: nat, bufId: seq<int>, firstTx: nat, lastTx: nat, firstTx32: nat,
    // the firmware: commands queued and taken off the FIFO
    queued: nat, taken: nat,
    // ghost: all samples given to writeSora, all samples read by the radio, the published buffers,
    // the number of them transferred, the buffer ids in order, those freed, and the poll's count
    given: seq<int>, out: seq<int>, blocks: seq<seq<int>>, transferred: nat,
    ids: seq<int>, freed: seq<int>, counted: nat, polled: nat)

  ghost predicate Init(p: Params, s: State)
    requires Sane(p)
  {
    && |s.ring| == p.bufs && (forall i :: 0 <= i < p.bufs ==> |s.ring[i]| == p.size)
    && s.prepare == 0 && s.transfer == 0 && s.producer == Filling && s.next == 1 % p.bufs && s.indexSrc == 0 && s.todo == []
    && s.worker == Looking && s.read == 0 && |s.bufId| == p.fifo
    && s.firstTx == Register(p.c, 0) && s.lastTx == Register(p.c, 0) && s.queued == 0 && s.taken == 0
    && s.given == [] && s.out == [] && s.blocks == [] && s.transferred == 0
    && s.ids == [] && s.freed == [] && s.counted == 0 && s.polled == 0
  }

  // ------------------------------------------------------------ actions

  datatype Action =
    | Call(samples: seq<int>)     // writeSora is called
    | CopySample                  // one sample of the memcpy
    | FindFull                    // the buffer is full
    | Grant                       // the spin loop sees space
    | Publish                     // prepareBuf moves on
    | Look                        // the worker compares the indices and the FIFO level
    | ReadSample                  // the radio reads one sample of the buffer
    | StoreId(id: int)            // SoraURadioTransferEx returns the buffer id
    | StartTx                     // SoraURadioTx queues the command
    | Count                       // lastTx moves on
    | Advance                     // transferBuf moves on
    | Poll                        // the worker reads the FIFO register
    | Free                        // SoraURadioTxFree
    | FreeDone
    | Take                        // the firmware takes a command off the FIFO

  ghost predicate Enabled(p: Params, s: State, a: Action)
    requires Sane(p)
  {
    match a
    case Call(_) => s.producer == Filling && s.todo == [] && s.indexSrc < p.size
    case CopySample => s.producer == Filling && s.todo != [] && s.indexSrc < p.size && s.prepare < |s.ring| && s.indexSrc < |s.ring[s.prepare]|
    case FindFull => s.producer == Filling && s.indexSrc >= p.size
    case Grant => s.producer == Spinning && s.next != s.transfer
    case Publish => s.producer == Granted && s.prepare < |s.ring|
    case Look => s.worker == Looking && s.lastTx <= ULONG_MAX && s.firstTx <= ULONG_MAX
    case ReadSample => s.worker == Reading && s.read < p.size && s.transfer < |s.ring| && s.read < |s.ring[s.transfer]|
    case StoreId(_) => s.worker == Reading && s.read >= p.size && s.lastTx % p.fifo < |s.bufId|
    case StartTx => s.worker == Stored
    case Count => s.worker == Started
    case Advance => s.worker == Counted
    case Poll => s.worker == Polling
    case Free => s.worker == Freeing && s.firstTx32 <= ULONG_MAX && s.firstTx <= ULONG_MAX && DiffWrap(s.firstTx32, s.firstTx) > 2
                 && s.firstTx % p.fifo < |s.bufId|
    case FreeDone => s.worker == Freeing && s.firstTx32 <= ULONG_MAX && s.firstTx <= ULONG_MAX && DiffWrap(s.firstTx32, s.firstTx) <= 2
    case Take => s.taken < s.queued
  }

  ghost function Apply(p: Params, s: State, a: Action): State
    requires Sane(p) && Enabled(p, s, a)
  {
    match a
    case Call(x) => s.(todo := x, given := s.given + x, next := (s.prepare + 1) % p.bufs)
    case CopySample =>
      s.(ring := s.ring[s.prepare := s.ring[s.prepare][s.indexSrc := s.todo[0]]], todo := s.todo[1..], indexSrc := s.indexSrc + 1)
    case FindFull => s.(producer := Spinning)
    case Grant => s.(producer := Granted)
    case Publish =>
      s.(producer := Filling, prepare := s.next, next := (s.next + 1) % p.bufs, indexSrc := 0, blocks := s.blocks + [s.ring[s.prepare]])
    case Look =>
      if s.transfer != s.prepare && DiffWrap(s.lastTx, s.firstTx) < p.fifo then s.(worker := Reading, read := 0) else s.(worker := Polling)
    case ReadSample => s.(out := s.out + [s.ring[s.transfer][s.read]], read := s.read + 1)
    case StoreId(id) => s.(worker := Stored, bufId := s.bufId[s.lastTx % p.fifo := id], ids := s.ids + [id])
    case StartTx => s.(worker := Started, queued := s.queued + 1)
    case Count => s.(worker := Counted, lastTx := (s.lastTx + 1) % WRAP, counted := s.counted + 1)
    case Advance => s.(worker := Polling, transfer := (s.transfer + 1) % p.bufs, transferred := s.transferred + 1, read := 0)
    case Poll => s.(worker := Freeing, firstTx32 := Register(p.c, s.taken), polled := s.taken)
    case Free => s.(firstTx := (s.firstTx + 1) % WRAP, freed := s.freed + [s.bufId[s.firstTx % p.fifo]])
    case FreeDone => s.(worker := Looking)
    case Take => s.(taken := s.taken + 1)
  }

  // ------------------------------------------------------------ the ring invariant

  function Flat(b: seq<seq<int>>): seq<int> {
    if b == [] then [] else Flat(b[..|b| - 1]) + b[|b| - 1]
  }

  /**
   The sample stream: what was given is the published buffers, the part of the current buffer that is
   filled, and what writeSora still has to copy; every published buffer that was not transferred is intact.
  */
  ghost predicate RingOk(p: Params, s: State) {
    var n, done, ready := p.bufs, s.transferred, |s.blocks|;
    && Shape(p, s)
    && s.given == Flat(s.blocks) + s.ring[s.prepare][..s.indexSrc] + s.todo
    && (forall j :: done <= j < ready ==> s.ring[j % n] == s.blocks[j])
    && s.read <= p.size && done <= ready
    && (s.read > 0 ==> done < ready)
    && s.out == Flat(s.blocks[..done]) + (if done < ready then s.blocks[done][..s.read] else [])
  }

  ghost predicate Shape(p: Params, s: State) {
    && 0 < p.bufs == |s.ring| && (forall i :: 0 <= i < p.bufs ==> |s.ring[i]| == p.size)
    && (forall j :: 0 <= j < |s.blocks| ==> |s.blocks[j]| == p.size)
    && s.prepare == |s.blocks| % p.bufs && s.transfer == s.transferred % p.bufs && s.next == (s.prepare + 1) % p.bufs
    && s.prepare < p.bufs && s.transfer < p.bufs
    && s.transferred <= |s.blocks| < s.transferred + p.bufs
    && s.indexSrc <= p.size && (s.producer != Filling ==> s.indexSrc == p.size)
    && (s.producer == Granted ==> |s.blocks| + 1 < s.transferred + p.bufs)
    && (s.worker in {Reading, Stored, Started, Counted} ==> s.transferred < |s.blocks|)
    && (s.worker in {Stored, Started, Counted} ==> s.read == p.size)
    && (s.worker in {Looking, Polling, Freeing} ==> s.read == 0)
  }

  /**
   The command FIFO: the counters are the true counts modulo 2^32, no more than fifo commands are
   outstanding, the slot of every outstanding command holds its id, and what was freed is what was queued
   first, at least two commands behind the firmware.
  */
  ghost predicate FifoOk(p: Params, s: State)
    requires 0 < p.fifo
  {
    && Counts(p, s)
    && s.freed == s.ids[..|s.freed|]
    && (forall j :: |s.freed| <= j < |s.ids| ==> s.bufId[SlotOf(p, j)] == s.ids[j])
  }

  // The BufID slot of command j.
  function SlotOf(p: Params, j: nat): (k: nat)
    requires 0 < p.fifo
    ensures k < p.fifo
  {
    DivMod(p.c + j, p.fifo);
    (p.c + j) % p.fifo
  }

  ghost predicate Counts(p: Params, s: State)
    requires 0 < p.fifo
  {
    var f := |s.freed|;
    && |s.bufId| == p.fifo
    && s.firstTx == Register(p.c, f) && s.lastTx == Register(p.c, s.counted)
    && s.queued == s.counted + (if s.worker == Started then 1 else 0)
    && |s.ids| == s.counted + (if s.worker in {Stored, Started} then 1 else 0)
    && f <= s.taken <= s.queued && s.counted - f <= p.fifo
    && (s.worker in {Reading, Stored, Started} ==> s.counted - f < p.fifo)
    && (f > 0 ==> f + 2 <= s.taken)
    && (s.worker == Freeing ==> s.firstTx32 == Register(p.c, s.polled) && f <= s.polled <= s.taken)
  }

  // ------------------------------------------------------------ what each action keeps

  lemma FlatOne(b: seq<seq<int>>, x: seq<int>)
    ensures Flat(b + [x]) == Flat(b) + x
  {
    assert (b + [x])[..|b|] == b;
  }

  // The slot of the current buffer is not that of a published one.
  lemma SlotsApart(n: nat, i: nat, j: nat)
    requires 0 < n && i < j < i + n
    ensures i % n != j % n
  {
    ModApart(i, j, n);
  }

  lemma RingCopy(p: Params, s: State)
    requires Sane(p) && RingOk(p, s) && Enabled(p, s, CopySample)
    ensures RingOk(p, Apply(p, s, CopySample))
  {
    var s' := Apply(p, s, CopySample);
    var k := s.prepare;
    forall j | s.transferred <= j < |s.blocks|
      ensures s'.ring[j % p.bufs] == s.blocks[j]
    {
      SlotsApart(p.bufs, j, |s.blocks|);
      assert s.ring[j % p.bufs] == s.blocks[j];
    }
    assert s.todo == [s.todo[0]] + s.todo[1..];
    assert s'.ring[k][..s'.indexSrc] == s.ring[k][..s.indexSrc] + [s.todo[0]];
  }

  lemma RingPublish(p: Params, s: State)
    requires Sane(p) && RingOk(p, s) && Enabled(p, s, Publish)
    ensures RingOk(p, Apply(p, s, Publish))
  {
    hide Flat;
    var s' := Apply(p, s, Publish);
    var x := s.ring[s.prepare];
    FlatOne(s.blocks, x);
    ModNext(|s.blocks|, p.bufs);
    assert x[..p.size] == x;
    assert s'.blocks[..s.transferred] == s.blocks[..s.transferred];
  }

  lemma RingAdvance(p: Params, s: State)
    requires Sane(p) && RingOk(p, s) && Enabled(p, s, Advance)
    ensures RingOk(p, Apply(p, s, Advance))
  {
    var d := s.transferred;
    ModNext(d, p.bufs);
    FlatOne(s.blocks[..d], s.blocks[d]);
    assert s.blocks[..d + 1] == s.blocks[..d] + [s.blocks[d]];
    assert s.blocks[d][..p.size] == s.blocks[d];
  }

  lemma RingGrant(p: Params, s: State)
    requires Sane(p) && RingOk(p, s) && Enabled(p, s, Grant)
    ensures RingOk(p, Apply(p, s, Grant))
  {
    // If all but one buffer were published, the next one would be the one being transferred.
    ModNext(|s.blocks|, p.bufs);
    if |s.blocks| + 1 == s.transferred + p.bufs {
      ModPlusMultiple(s.transferred, 1, p.bufs);
    }
  }

  lemma RingRead(p: Params, s: State)
    requires Sane(p) && RingOk(p, s) && Enabled(p, s, ReadSample)
    ensures RingOk(p, Apply(p, s, ReadSample))
  {
    var d := s.transferred;
    assert s.ring[d % p.bufs] == s.blocks[d];
    assert s.blocks[d][..s.read + 1] == s.blocks[d][..s.read] + [s.blocks[d][s.read]];
  }

  lemma RingLook(p: Params, s: State)
    requires Sane(p) && RingOk(p, s) && Enabled(p, s, Look)
    ensures RingOk(p, Apply(p, s, Look))
  {
  }

  lemma RingKept(p: Params, s: State, a: Action)
    requires Sane(p) && RingOk(p, s) && Enabled(p, s, a)
    ensures RingOk(p, Apply(p, s, a))
  {
    match a
    case CopySample => RingCopy(p, s);
    case Publish => RingPublish(p, s);
    case Advance => RingAdvance(p, s);
    case Grant => RingGrant(p, s);
    case ReadSample => RingRead(p, s);
    case Look => RingLook(p, s);
    case _ =>
  }

  // The program's slot number, computed from the wrapping counter, is the slot of the command.
  lemma SlotFound(p: Params, n: nat)
    requires Sane(p)
    ensures Register(p.c, n) % p.fifo == SlotOf(p, n)
  {
    ModOfMod(p.c + n, WRAP, p.fifo);
  }

  lemma CommandsApart(p: Params, i: nat, j: nat)
    requires 0 < p.fifo && i < j < i + p.fifo
    ensures SlotOf(p, i) != SlotOf(p, j)
  {
    ModApart(p.c + i, p.c + j, p.fifo);
  }

  lemma FifoStore(p: Params, s: State, id: int)
    requires Sane(p) && FifoOk(p, s) && Enabled(p, s, StoreId(id))
    ensures FifoOk(p, Apply(p, s, StoreId(id)))
  {
    var s', n := Apply(p, s, StoreId(id)), s.counted;
    SlotFound(p, n);
    forall j | |s.freed| <= j < |s'.ids|
      ensures s'.bufId[SlotOf(p, j)] == s'.ids[j]
    {
      if j < n {
        CommandsApart(p, j, n);
      }
    }
  }

  lemma FifoLook(p: Params, s: State)
    requires Sane(p) && FifoOk(p, s) && Enabled(p, s, Look)
    ensures FifoOk(p, Apply(p, s, Look))
  {
    DiffWrapCounts(p.c, s.counted, |s.freed|);
  }

  lemma RegisterNext(c: nat, n: nat)
    ensures (Register(c, n) + 1) % WRAP == Register(c, n + 1)
  {
    ModNext(c + n, WRAP);
  }

  lemma FifoFree(p: Params, s: State)
    requires Sane(p) && FifoOk(p, s) && Enabled(p, s, Free)
    ensures FifoOk(p, Apply(p, s, Free)) && s.polled - |s.freed| > 2
  {
    var f := |s.freed|;
    DiffWrapCounts(p.c, s.polled, f);
    SlotFound(p, f);
    RegisterNext(p.c, f);
    assert s.ids[..f + 1] == s.ids[..f] + [s.ids[f]];
  }

  lemma FifoKept(p: Params, s: State, a: Action)
    requires Sane(p) && FifoOk(p, s) && Enabled(p, s, a)
    ensures FifoOk(p, Apply(p, s, a))
  {
    match a
    case Look => FifoLook(p, s);
    case StoreId(id) => FifoStore(p, s, id);
    case Count => RegisterNext(p.c, s.counted);
    case Free => FifoFree(p, s);
    case Call(_) => FifoProducer(p, s, a);
    case CopySample => FifoProducer(p, s, a);
    case FindFull => FifoProducer(p, s, a);
    case Grant => FifoProducer(p, s, a);
    case Publish => FifoProducer(p, s, a);
    case _ =>
  }

  // writeSora does not touch the FIFO.
  lemma FifoProducer(p: Params, s: State, a: Action)
    requires Sane(p) && FifoOk(p, s) && Enabled(p, s, a) && (a.Call? || a.CopySample? || a.FindFull? || a.Grant? || a.Publish?)
    ensures FifoOk(p, Apply(p, s, a))
  {
    hide SlotOf, Register;
  }

  // ------------------------------------------------------------ runs

  // s leads to s' by the actions as, each enabled when it is taken.
  ghost predicate Runs(p: Params, s: State, acts: seq<Action>, s': State)
    requires Sane(p)
    decreases |acts|
  {
    if acts == [] then s == s' else Enabled(p, s, acts[0]) && Runs(p, Apply(p, s, acts[0]), acts[1..], s')
  }

  ghost predicate Ok(p: Params, s: State)
    requires Sane(p)
  {
    RingOk(p, s) && FifoOk(p, s) && s.counted == s.transferred + if s.worker == Counted then 1 else 0
  }

  lemma InitOk(p: Params, s: State)
    requires Sane(p) && Init(p, s)
    ensures Ok(p, s)
  {
    assert s.blocks[..0] == [];
    ModSmall(0, p.bufs);
    if p.bufs > 1 {
      ModSmall(1, p.bufs);
    }
  }

  lemma OkKept(p: Params, s: State, a: Action)
    requires Sane(p) && Ok(p, s) && Enabled(p, s, a)
    ensures Ok(p, Apply(p, s, a))
  {
    hide RingOk, FifoOk;
    RingKept(p, s, a);
    FifoKept(p, s, a);
    RingWorker(p, s);
  }

  // The worker counts a command only after it has read the whole buffer.
  lemma RingWorker(p: Params, s: State)
    requires RingOk(p, s)
    ensures s.worker == Started ==> s.transferred < |s.blocks|
  {
  }

  lemma {:induction false} RunOk(p: Params, s: State, acts: seq<Action>, s': State)
    requires Sane(p) && Ok(p, s) && Runs(p, s, acts, s')
    ensures Ok(p, s')
    decreases |acts|
  {
    hide Ok, Enabled, Apply;
    if acts != [] {
      OkKept(p, s, acts[0]);
      RunOk(p, Apply(p, s, acts[0]), acts[1..], s');
    }
  }

  // ------------------------------------------------------------ what holds over every run

  lemma {:induction false} FlatLength(b: seq<seq<int>>, n: nat)
    requires forall j :: 0 <= j < |b| ==> |b[j]| == n
    ensures |Flat(b)| == |b| * n
  {
    if b != [] {
      FlatLength(b[..|b| - 1], n);
      assert |b| * n == (|b| - 1) * n + n;
    }
  }

  lemma {:induction false} FlatPrefix(b: seq<seq<int>>, n: nat)
    requires n <= |b|
    ensures Flat(b[..n]) <= Flat(b)
    ensures n < |b| ==> Flat(b[..n]) + b[n] <= Flat(b)
  {
    if n < |b| {
      var a := b[..|b| - 1];
      FlatPrefix(a, n);
      assert a[..n] == b[..n];
      if n == |b| - 1 {
        assert b[..n] == a;
      }
    } else {
      assert b[..n] == b;
    }
  }

  lemma PrefixOfOk(p: Params, s: State)
    requires Sane(p) && RingOk(p, s)
    ensures s.out <= s.given
  {
    var d := s.transferred;
    FlatPrefix(s.blocks, d);
    if d < |s.blocks| {
      assert Flat(s.blocks[..d]) + s.blocks[d][..s.read] <= Flat(s.blocks[..d]) + s.blocks[d];
    }
  }

  /**
   The ring is a stream: after any interleaving of writeSora, the worker and the firmware, what the radio has
   read is a prefix of everything that was given to writeSora, in order; nothing is lost, repeated or torn.
  */
  lemma StreamInOrder(p: Params, s: State, acts: seq<Action>, s': State)
    requires Sane(p) && Init(p, s) && Runs(p, s, acts, s')
    ensures s'.out <= s'.given
  {
    hide Init, RingOk, FifoOk;
    InitOk(p, s);
    RunOk(p, s, acts, s');
    PrefixOfOk(p, s');
  }

  lemma StreamLengths(p: Params, s: State)
    requires Sane(p) && RingOk(p, s)
    ensures |s.given| - |s.todo| == |s.blocks| * p.size + s.indexSrc
    ensures |s.out| == s.transferred * p.size + s.read
  {
    FlatLength(s.blocks, p.size);
    FlatLength(s.blocks[..s.transferred], p.size);
  }

  /** What was taken over from writeSora and not yet read by the radio fits the ring. */
  lemma BacklogBounded(p: Params, s: State)
    requires Sane(p) && RingOk(p, s)
    ensures |s.given| - |s.todo| - |s.out| <= p.bufs * p.size
  {
    StreamLengths(p, s);
    WithinRing(|s.blocks|, s.transferred, p.bufs, p.size);
  }

  lemma WithinRing(n: nat, d: nat, b: nat, z: nat)
    requires d <= n < d + b
    ensures n * z + z - d * z <= b * z
  {
    MulMono(n + 1, d + b, z);
    assert (n + 1) * z == n * z + z && (d + b) * z == d * z + b * z;
  }

  /** writeSora never writes a buffer that is still to be read, and the radio never reads the one being filled. */
  lemma NoRace(p: Params, s: State)
    requires Sane(p) && Ok(p, s)
    ensures forall j :: s.transferred <= j < |s.blocks| ==> j % p.bufs != s.prepare
    ensures Enabled(p, s, ReadSample) ==> s.transfer != s.prepare
  {
    forall j | s.transferred <= j < |s.blocks|
      ensures j % p.bufs != s.prepare
    {
      SlotsApart(p.bufs, j, |s.blocks|);
    }
  }

  /** A new command never takes the slot of an outstanding one, and there are never more than fifo of them. */
  lemma NoOverwrite(p: Params, s: State, id: int)
    requires Sane(p) && Ok(p, s) && Enabled(p, s, StoreId(id))
    ensures |s.ids| - |s.freed| < p.fifo
    ensures forall j :: |s.freed| <= j < |s.ids| ==> SlotOf(p, j) != s.lastTx % p.fifo
  {
    SlotFound(p, s.counted);
    forall j | |s.freed| <= j < |s.ids|
      ensures SlotOf(p, j) != s.lastTx % p.fifo
    {
      CommandsApart(p, j, s.counted);
    }
  }

  /** Ids are freed once each, in the order in which they were handed out, and only two commands after they were taken. */
  lemma FreedInOrder(p: Params, s: State, acts: seq<Action>, s': State)
    requires Sane(p) && Init(p, s) && Runs(p, s, acts, s')
    ensures s'.freed <= s'.ids && (s'.freed != [] ==> |s'.freed| + 2 <= s'.taken) && s'.counted - |s'.freed| <= p.fifo
  {
    hide Init, RingOk;
    InitOk(p, s);
    RunOk(p, s, acts, s');
  }

  /** The spin loop of writeSora ends exactly when fewer than no_tx_bufs - 1 buffers are waiting. */
  lemma GrantIff(p: Params, s: State)
    requires Sane(p) && Ok(p, s) && s.producer == Spinning
    ensures Enabled(p, s, Grant) <==> |s.blocks| - s.transferred < p.bufs - 1
  {
    ModNext(|s.blocks|, p.bufs);
    if |s.blocks| + 1 == s.transferred + p.bufs {
      ModPlusMultiple(s.transferred, 1, p.bufs);
    } else {
      ModApart(s.transferred, |s.blocks| + 1, p.bufs);
    }
  }

  /** The worker starts a transfer exactly when a buffer is waiting and fewer than fifo commands are outstanding. */
  lemma LookIff(p: Params, s: State)
    requires Sane(p) && Ok(p, s) && s.worker == Looking
    ensures Enabled(p, s, Look)
    ensures Apply(p, s, Look).worker == Reading <==> s.transferred < |s.blocks| && s.counted - |s.freed| < p.fifo
  {
    DiffWrapCounts(p.c, s.counted, |s.freed|);
    if s.transferred < |s.blocks| {
      ModApart(s.transferred, |s.blocks|, p.bufs);
    }
  }

  // ------------------------------------------------------------ progress

  /**
   With a FIFO of at most two commands nothing is ever freed, because the guard keeps two commands back:
   at most two buffers are transferred in any run, whatever is given to writeSora.
  */
  lemma {:induction false} SmallFifoStalls(p: Params, s: State, acts: seq<Action>, s': State)
    requires Sane(p) && p.fifo <= 2 && Ok(p, s) && s.freed == [] && Runs(p, s, acts, s')
    ensures s'.freed == [] && s'.transferred <= p.fifo
    decreases |acts|
  {
    hide Ok, RingOk, FifoOk, Enabled;
    StallBound(p, s);
    if acts != [] {
      NoFree(p, s);
      OkKept(p, s, acts[0]);
      SmallFifoStalls(p, Apply(p, s, acts[0]), acts[1..], s');
    }
  }

  lemma StallBound(p: Params, s: State)
    requires Sane(p) && Ok(p, s) && s.freed == []
    ensures FifoOk(p, s) && s.transferred <= p.fifo
  {
    hide RingOk;
  }

  lemma NoFree(p: Params, s: State)
    requires Sane(p) && p.fifo <= 2 && FifoOk(p, s) && s.freed == []
    ensures !Enabled(p, s, Free)
  {
    if s.worker == Freeing {
      DiffWrapCounts(p.c, s.polled, 0);
    }
  }

  lemma {:induction false} RunsAppend(p: Params, s: State, a: seq<Action>, t: State, b: seq<Action>, u: State)
    requires Sane(p) && Runs(p, s, a, t) && Runs(p, t, b, u)
    ensures Runs(p, s, a + b, u)
    decreases |a|
  {
    if a == [] {
      assert a + b == b;
    } else {
      RunsAppend(p, Apply(p, s, a[0]), a[1..], t, b, u);
      assert (a + b)[1..] == a[1..] + b;
    }
  }

  lemma RunsOne(p: Params, s: State, a: Action)
    requires Sane(p) && Enabled(p, s, a)
    ensures Runs(p, s, [a], Apply(p, s, a))
  {
  }

  // The firmware takes all commands.
  lemma {:induction false} TakeAll(p: Params, s: State) returns (acts: seq<Action>, s': State)
    requires Sane(p) && Ok(p, s)
    ensures Runs(p, s, acts, s') && Ok(p, s') && s' == s.(taken := s.queued)
    decreases s.queued - s.taken
  {
    hide RingOk;
    if s.taken == s.queued {
      acts, s' := [], s;
    } else {
      OkKept(p, s, Take);
      RunsOne(p, s, Take);
      acts, s' := TakeAll(p, Apply(p, s, Take));
      RunsAppend(p, s, [Take], Apply(p, s, Take), acts, s');
      acts := [Take] + acts;
    }
  }

  // The worker frees what it may.
  lemma {:induction false} FreeAll(p: Params, s: State) returns (acts: seq<Action>, s': State)
    requires Sane(p) && Ok(p, s) && s.worker == Freeing
    ensures Runs(p, s, acts, s') && Ok(p, s') && s'.worker == Looking
    ensures s'.transferred == s.transferred && s'.blocks == s.blocks && s'.counted == s.counted && s.polled - |s'.freed| <= 2
    decreases s.polled - |s.freed|
  {
    hide RingOk;
    DiffWrapCounts(p.c, s.polled, |s.freed|);
    var a := if s.polled - |s.freed| > 2 then Free else FreeDone;
    OkKept(p, s, a);
    RunsOne(p, s, a);
    if a == Free {
      acts, s' := FreeAll(p, Apply(p, s, Free));
      RunsAppend(p, s, [Free], Apply(p, s, Free), acts, s');
      acts := [Free] + acts;
    } else {
      acts, s' := [FreeDone], Apply(p, s, FreeDone);
    }
  }

  // From the poll, once the firmware has caught up, the worker goes on to the next transfer.
  lemma FromPolling(p: Params, s: State) returns (acts: seq<Action>, s': State)
    requires Sane(p) && Ok(p, s) && s.worker == Polling && p.fifo > 2 && s.transferred < |s.blocks|
    ensures Runs(p, s, acts, s') && Ok(p, s') && s'.worker == Reading && s'.transferred == s.transferred
  {
    hide RingOk;
    var a1, s1 := TakeAll(p, s);
    OkKept(p, s1, Poll);
    RunsOne(p, s1, Poll);
    var s2 := Apply(p, s1, Poll);
    var a3, s3 := FreeAll(p, s2);
    LookIff(p, s3);
    OkKept(p, s3, Look);
    RunsOne(p, s3, Look);
    s' := Apply(p, s3, Look);
    RunsAppend(p, s2, a3, s3, [Look], s');
    RunsAppend(p, s1, [Poll], s2, a3 + [Look], s');
    RunsAppend(p, s, a1, s1, [Poll] + (a3 + [Look]), s');
    acts := a1 + ([Poll] + (a3 + [Look]));
  }

  /**
   With a FIFO of more than two commands the pipeline never jams: from every reachable state in which a
   published buffer waits, the worker and the firmware alone can go on to read a waiting buffer.
  */
  lemma NeverJams(p: Params, s: State) returns (acts: seq<Action>, s': State)
    requires Sane(p) && Ok(p, s) && p.fifo > 2 && s.transferred < |s.blocks| && s.worker in {Looking, Polling, Freeing}
    ensures Runs(p, s, acts, s') && s'.worker == Reading && s'.transferred == s.transferred
  {
    hide RingOk;
    if s.worker == Polling {
      acts, s' := FromPolling(p, s);
    } else {
      var a1, s1 := [], s;
      if s.worker == Freeing {
        a1, s1 := FreeAll(p, s);
      }
      LookIff(p, s1);
      OkKept(p, s1, Look);
      RunsOne(p, s1, Look);
      var s2 := Apply(p, s1, Look);
      RunsAppend(p, s, a1, s1, [Look], s2);
      acts, s' := a1 + [Look], s2;
      if s2.worker == Polling {
        var a3, s3 := FromPolling(p, s2);
        RunsAppend(p, s, acts, s2, a3, s3);
        acts, s' := acts + a3, s3;
      }
    }
  }
}
