/** uart: two 256-byte rings between the main loop and the interrupts, one statement of
    the main loop at a time. */
module Uart {

  type Bytes = seq<bv8>

  /** sizeof(uartTxBuffer) and sizeof(uartRxBuffer) */
  const BUFFER_SIZE := 256

  // ---------- a ring on values ----------

  /** `put` and `got` are the history: all bytes that ever went in and came out. */
  datatype Ring = Ring(buffer: Bytes, writeIndex: nat, readIndex: nat, put: Bytes, got: Bytes)

  const EMPTY_RING := Ring(seq(BUFFER_SIZE, _ => 0), 0, 0, [], [])

  function Next(i: nat): nat { (i + 1) % BUFFER_SIZE }

  /** The FREE_BYTES and USED_BYTES macros. */
  function Free(r: Ring): nat { (r.readIndex - r.writeIndex - 1) % BUFFER_SIZE }
  function Used(r: Ring): nat { (r.writeIndex - r.readIndex) % BUFFER_SIZE }

  ghost predicate RingInv(r: Ring) {
    && |r.buffer| == BUFFER_SIZE
    && r.writeIndex == |r.put| % BUFFER_SIZE && r.readIndex == |r.got| % BUFFER_SIZE
    && |r.got| <= |r.put| < |r.got| + BUFFER_SIZE
    && r.got == r.put[..|r.got|]
    && (forall k | |r.got| <= k < |r.put| :: r.buffer[k % BUFFER_SIZE] == r.put[k])
  }

  function Stored(r: Ring, b: bv8): Ring
    requires r.writeIndex < |r.buffer|
  {
    r.(buffer := r.buffer[r.writeIndex := b])
  }

  function Written(r: Ring, b: bv8): Ring { r.(writeIndex := Next(r.writeIndex), put := r.put + [b]) }

  function Put(r: Ring, b: bv8): Ring
    requires r.writeIndex < |r.buffer|
  {
    Written(Stored(r, b), b)
  }

  function Fetched(r: Ring): Ring
    requires r.readIndex < |r.buffer|
  {
    r.(readIndex := Next(r.readIndex), got := r.got + [r.buffer[r.readIndex]])
  }

  // Two counters less than a ring apart, and their remainders.
  lemma Wraps(p: nat, g: nat)
    requires g <= p < g + BUFFER_SIZE
    ensures (p % BUFFER_SIZE - g % BUFFER_SIZE) % BUFFER_SIZE == p - g
    ensures (g % BUFFER_SIZE - p % BUFFER_SIZE - 1) % BUFFER_SIZE == BUFFER_SIZE - 1 - (p - g)
    ensures p % BUFFER_SIZE == g % BUFFER_SIZE <==> p == g
  {
    var q, i, k := g / BUFFER_SIZE, g % BUFFER_SIZE, p - g;
    if i + k < BUFFER_SIZE {
      Remainder(p, q, i + k);
      Remainder(-k - 1, -1, BUFFER_SIZE - 1 - k);
    } else {
      Remainder(p, q + 1, i + k - BUFFER_SIZE);
      Remainder(k - BUFFER_SIZE, -1, k);
    }
  }

  lemma Remainder(n: int, q: int, i: int)
    requires n == BUFFER_SIZE * q + i && 0 <= i < BUFFER_SIZE
    ensures n % BUFFER_SIZE == i
  {
  }

  lemma RingCounts(r: Ring)
    requires RingInv(r)
    ensures Used(r) == |r.put| - |r.got| && Free(r) == BUFFER_SIZE - 1 - (|r.put| - |r.got|)
    ensures r.writeIndex == r.readIndex <==> |r.put| == |r.got|
  {
    Wraps(|r.put|, |r.got|);
  }

  /** Writing into the free slot disturbs nothing that is still to be read. */
  lemma StoreKeeps(r: Ring, b: bv8)
    requires RingInv(r)
    ensures RingInv(Stored(r, b))
  {
    forall k | |r.got| <= k < |r.put|
      ensures Stored(r, b).buffer[k % BUFFER_SIZE] == r.put[k]
    {
      Wraps(|r.put|, k);
    }
  }

  lemma WriteKeeps(r: Ring, b: bv8)
    requires RingInv(r) && Free(r) > 0 && r.buffer[r.writeIndex] == b
    ensures RingInv(Written(r, b))
  {
    RingCounts(r);
    NextOf(|r.put|);
    hide Used, Free, Next;
    var t := Written(r, b);
    assert t.got == t.put[..|t.got|];
    forall k | |t.got| <= k < |t.put| ensures t.buffer[k % BUFFER_SIZE] == t.put[k] {
      assert k < |r.put| ==> t.put[k] == r.put[k];
    }
  }

  lemma NextOf(n: nat)
    ensures Next(n % BUFFER_SIZE) == (n + 1) % BUFFER_SIZE
  {
  }

  lemma FetchKeeps(r: Ring)
    requires RingInv(r) && Used(r) > 0
    ensures RingInv(Fetched(r))
  {
    RingCounts(r);
    NextOf(|r.got|);
    assert r.buffer[|r.got| % BUFFER_SIZE] == r.put[|r.got|];
    hide Used, Next;
  }

  // ---------- sending ----------

  /** Where the main loop is in uartNTxSendByte or one turn of uartNTxSend. */
  datatype Phase = Outside | HasStored(byte: bv8) | HasWritten

  /** `got` of the ring is what the hardware has been given to transmit. */
  datatype Sender = Sender(ring: Ring, phase: Phase, interrupt: bool)

  datatype SendStep = Store(byte: bv8) | Write | Enable | TxInterrupt

  predicate SendEnabled(s: Sender, e: SendStep) {
    match e
    case Store(_) => s.phase == Outside && Free(s.ring) > 0
    case Write => s.phase.HasStored?
    case Enable => s.phase == HasWritten
    case TxInterrupt => s.interrupt
  }

  function Send(s: Sender, e: SendStep): Sender
    requires s.ring.writeIndex < |s.ring.buffer| && s.ring.readIndex < |s.ring.buffer|
  {
    match e
    case Store(b) => s.(ring := Stored(s.ring, b), phase := HasStored(b))
    case Write => if s.phase.HasStored? then s.(ring := Written(s.ring, s.phase.byte), phase := HasWritten) else s
    case Enable => s.(phase := Outside, interrupt := true)
    case TxInterrupt =>
      if s.ring.readIndex != s.ring.writeIndex then s.(ring := Fetched(s.ring)) else s.(interrupt := false)
  }

  /** A byte in the ring is never forgotten: outside the send functions its interrupt is on. */
  ghost predicate SenderInv(s: Sender) {
    && RingInv(s.ring)
    && (s.phase.HasStored? ==> Free(s.ring) > 0 && s.ring.buffer[s.ring.writeIndex] == s.phase.byte)
    && (s.phase != HasWritten && Used(s.ring) > 0 ==> s.interrupt)
  }

  /** The hardware is given a prefix of the submitted bytes; what the send functions were
      promised by an earlier look at the free space stays true under interrupts. */
  lemma SendKeeps(s: Sender, e: SendStep)
    requires SenderInv(s) && SendEnabled(s, e)
    ensures SenderInv(Send(s, e))
    ensures e == TxInterrupt ==> Free(Send(s, e).ring) >= Free(s.ring)
    ensures e == Enable ==> Send(s, e).interrupt
    ensures e == TxInterrupt ==> (Send(s, e).interrupt <==> |s.ring.got| < |s.ring.put|)
    ensures Send(s, e).ring.got
         == s.ring.got + if e == TxInterrupt && |s.ring.got| < |s.ring.put| then [s.ring.put[|s.ring.got|]] else []
  {
    RingCounts(s.ring);
    match e
    case Store(b) => StoreKeeps(s.ring, b);
    case Write => WriteKeeps(s.ring, s.phase.byte); RingCounts(Written(s.ring, s.phase.byte));
    case Enable =>
    case TxInterrupt =>
      if s.ring.readIndex != s.ring.writeIndex {
        FetchKeeps(s.ring);
        RingCounts(Fetched(s.ring));
      }
  }

  ghost predicate SendRun(s: Sender, run: seq<SendStep>)
    requires SenderInv(s)
    decreases |run|
  {
    run == [] || (SendEnabled(s, run[0]) && (SendKeeps(s, run[0]); SendRun(Send(s, run[0]), run[1..])))
  }

  ghost function AfterSend(s: Sender, run: seq<SendStep>): Sender
    requires SenderInv(s) && SendRun(s, run)
    ensures SenderInv(AfterSend(s, run))
    decreases |run|
  {
    if run == [] then s else SendKeeps(s, run[0]); AfterSend(Send(s, run[0]), run[1..])
  }

  const FIRST_SENDER := Sender(EMPTY_RING, Outside, false)

  /** The bytes that a run stores in the buffer. */
  function StoredIn(run: seq<SendStep>): Bytes {
    if run == [] then [] else (if run[0].Store? then [run[0].byte] else []) + StoredIn(run[1..])
  }

  // The byte whose index update is still to come.
  function Pending(s: Sender): Bytes { if s.phase.HasStored? then [s.phase.byte] else [] }

  lemma {:induction false} SubmittedIsStored(s: Sender, run: seq<SendStep>)
    requires SenderInv(s) && SendRun(s, run)
    ensures var t := AfterSend(s, run); t.ring.put + Pending(t) == s.ring.put + Pending(s) + StoredIn(run)
    decreases |run|
  {
    if run != [] {
      SendKeeps(s, run[0]);
      StepSubmits(s, run[0]);
      IndicesFit(s.ring);
      hide SenderInv, RingInv, Send, SendEnabled, Pending;
      SubmittedIsStored(Send(s, run[0]), run[1..]);
      Regroup(s.ring.put + Pending(s), if run[0].Store? then [run[0].byte] else [], StoredIn(run[1..]));
    }
  }

  lemma Regroup(a: Bytes, b: Bytes, c: Bytes)
    ensures a + b + c == a + (b + c)
  {
  }

  lemma StepSubmits(s: Sender, e: SendStep)
    requires SenderInv(s) && SendEnabled(s, e)
    ensures var t := Send(s, e); t.ring.put + Pending(t) == s.ring.put + Pending(s) + if e.Store? then [e.byte] else []
  {
  }

  /** Any interleaving of main-loop statements and transmit interrupts: the bytes
      transmitted are a prefix of those the run has stored, and all of them, but for one
      that is just being submitted, when the interrupt is off outside the send functions. */
  lemma SentIsPrefix(run: seq<SendStep>)
    requires SendRun(FIRST_SENDER, run)
    ensures var s := AfterSend(FIRST_SENDER, run);
      && s.ring.got <= s.ring.put && s.ring.put + Pending(s) == StoredIn(run)
      && (s.phase == Outside && !s.interrupt ==> s.ring.got == StoredIn(run))
  {
    RingCounts(AfterSend(FIRST_SENDER, run).ring);
    SubmittedIsStored(FIRST_SENDER, run);
    assert FIRST_SENDER.ring.put + Pending(FIRST_SENDER) == [];
  }

  // ---------- receiving ----------

  /** A received byte and the two error bits of the status register. */
  datatype Arrival = Arrival(byte: bv8, framing: bool, parity: bool)

  /** What became of an arrival, for the history. */
  datatype Record = Record(arrival: Arrival, full: bool)

  /** `taking` is the byte uartNRxReceiveByte has read but not yet released. */
  datatype Receiver = Receiver(ring: Ring, taking: bool, framingError: bool, parityError: bool, bufferFull: bool, log: seq<Record>)

  datatype ReceiveStep = Read | Release | RxInterrupt(arrival: Arrival)

  predicate ReceiveEnabled(s: Receiver, e: ReceiveStep) {
    match e
    case Read => !s.taking && Used(s.ring) > 0
    case Release => s.taking
    case RxInterrupt(_) => true
  }

  function Receive(s: Receiver, e: ReceiveStep): Receiver
    requires s.ring.writeIndex < |s.ring.buffer| && s.ring.readIndex < |s.ring.buffer|
  {
    match e
    case Read => s.(taking := true)
    case Release => s.(taking := false, ring := Fetched(s.ring))
    case RxInterrupt(a) =>
      s.(log := s.log + [Record(a, Free(s.ring) == 0)],
         ring := if Good(a) && Free(s.ring) > 0 then Put(s.ring, a.byte) else s.ring,
         bufferFull := s.bufferFull || (Good(a) && Free(s.ring) == 0),
         framingError := s.framingError || a.framing,
         parityError := s.parityError || a.parity)
  }

  // The interrupt, one case after another.
  lemma Received(s: Receiver, a: Arrival)
    requires s.ring.writeIndex < |s.ring.buffer| && s.ring.readIndex < |s.ring.buffer|
    ensures var t := s.(log := s.log + [Record(a, Free(s.ring) == 0)]);
      Receive(s, RxInterrupt(a)) ==
        if Good(a) then (if Free(t.ring) > 0 then t.(ring := Put(t.ring, a.byte)) else t.(bufferFull := true))
        else t.(framingError := t.framingError || a.framing, parityError := t.parityError || a.parity)
  {
    hide Put;
  }

  predicate Good(a: Arrival) { !a.framing && !a.parity }

  /** The error-free arrivals without those that found the ring full. */
  function Kept(log: seq<Record>): Bytes {
    if log == [] then []
    else
      var last := log[|log| - 1];
      Kept(log[..|log| - 1]) + if Good(last.arrival) && !last.full then [last.arrival.byte] else []
  }

  ghost predicate ReceiverInv(s: Receiver) {
    && RingInv(s.ring) && s.ring.put == Kept(s.log)
    && (s.taking ==> Used(s.ring) > 0)
    && FlagsTell(s)
  }

  /** Each error flag is set exactly if its error has occurred. */
  ghost predicate FlagsTell(s: Receiver) {
    && (s.bufferFull <==> exists r :: r in s.log && Good(r.arrival) && r.full)
    && (s.framingError <==> exists r :: r in s.log && r.arrival.framing)
    && (s.parityError <==> exists r :: r in s.log && r.arrival.parity)
  }

  lemma ReceiveKeeps(s: Receiver, e: ReceiveStep)
    requires ReceiverInv(s) && ReceiveEnabled(s, e)
    ensures ReceiverInv(Receive(s, e))
    ensures e.RxInterrupt? ==> Used(Receive(s, e).ring) >= Used(s.ring)
    ensures Receive(s, e).taking == (e.Read? || (e.RxInterrupt? && s.taking))
    ensures e.RxInterrupt? && s.taking ==> Receive(s, e).ring.buffer[s.ring.readIndex] == s.ring.buffer[s.ring.readIndex]
  {
    match e
    case Read =>
    case Release => FetchKeeps(s.ring);
    case RxInterrupt(a) => ArrivalKeeps(s, a);
  }

  lemma ArrivalKeeps(s: Receiver, a: Arrival)
    requires ReceiverInv(s)
    ensures var t := Receive(s, RxInterrupt(a));
      && ReceiverInv(t) && Used(t.ring) >= Used(s.ring)
      && (s.taking ==> t.ring.buffer[s.ring.readIndex] == s.ring.buffer[s.ring.readIndex])
  {
    IndicesFit(s.ring);
    FlagsKeep(s, a);
    KeptOneMore(s.log, Record(a, Free(s.ring) == 0));
    hide FlagsTell, RingInv, Free, Used, Put, Kept;
    if Good(a) && Free(s.ring) > 0 {
      PutKeeps(s.ring, a.byte);
    }
  }

  lemma IndicesFit(r: Ring)
    requires RingInv(r)
    ensures |r.buffer| == BUFFER_SIZE && r.writeIndex < BUFFER_SIZE && r.readIndex < BUFFER_SIZE
  {
  }

  lemma KeptOneMore(log: seq<Record>, last: Record)
    ensures Kept(log + [last]) == Kept(log) + if Good(last.arrival) && !last.full then [last.arrival.byte] else []
  {
    assert (log + [last])[..|log|] == log;
  }

  lemma PutKeeps(r: Ring, b: bv8)
    requires RingInv(r) && Free(r) > 0
    ensures var t := Put(r, b);
      RingInv(t) && t.put == r.put + [b] && Used(t) == Used(r) + 1 && (Used(r) > 0 ==> t.buffer[r.readIndex] == r.buffer[r.readIndex])
  {
    RingCounts(r);
    StoreKeeps(r, b);
    WriteKeeps(Stored(r, b), b);
    RingCounts(Put(r, b));
  }

  lemma FlagsKeep(s: Receiver, a: Arrival)
    requires FlagsTell(s) && |s.ring.buffer| == BUFFER_SIZE && s.ring.writeIndex < BUFFER_SIZE && s.ring.readIndex < BUFFER_SIZE
    ensures FlagsTell(Receive(s, RxInterrupt(a)))
  {
    var t := Receive(s, RxInterrupt(a));
    assert t.log[|s.log|] == Record(a, Free(s.ring) == 0);
    assert forall r :: r in t.log <==> r in s.log || r == t.log[|s.log|];
  }

  ghost predicate ReceiveRun(s: Receiver, run: seq<ReceiveStep>)
    requires ReceiverInv(s)
    decreases |run|
  {
    run == [] || (ReceiveEnabled(s, run[0]) && (ReceiveKeeps(s, run[0]); ReceiveRun(Receive(s, run[0]), run[1..])))
  }

  ghost function AfterReceive(s: Receiver, run: seq<ReceiveStep>): Receiver
    requires ReceiverInv(s) && ReceiveRun(s, run)
    ensures ReceiverInv(AfterReceive(s, run))
    decreases |run|
  {
    if run == [] then s else ReceiveKeeps(s, run[0]); AfterReceive(Receive(s, run[0]), run[1..])
  }

  const FIRST_RECEIVER := Receiver(EMPTY_RING, false, false, false, false, [])

  // ---------- a queue of 255 bytes ----------

  /** What the receiver is meant to be: bytes taken, at most 255 bytes waiting, whether a good
      byte ever came when 255 were waiting, whether an error ever came, and what came, with
      a mark on whatever came when 255 bytes were waiting. */
  datatype Fifo = Fifo(taken: Bytes, waiting: Bytes, lost: bool, framing: bool, parity: bool, log: seq<Record>)

  function Fed(f: Fifo, e: ReceiveStep): Fifo {
    match e
    case Read => f
    case Release => if f.waiting == [] then f else f.(taken := f.taken + [f.waiting[0]], waiting := f.waiting[1..])
    case RxInterrupt(a) =>
      var f := f.(log := f.log + [Record(a, |f.waiting| == BUFFER_SIZE - 1)]);
      if a.framing || a.parity then f.(framing := f.framing || a.framing, parity := f.parity || a.parity)
      else if |f.waiting| == BUFFER_SIZE - 1 then f.(lost := true)
      else f.(waiting := f.waiting + [a.byte])
  }

  function FedAll(f: Fifo, run: seq<ReceiveStep>): Fifo
    decreases |run|
  {
    if run == [] then f else FedAll(Fed(f, run[0]), run[1..])
  }

  const EMPTY_FIFO := Fifo([], [], false, false, false, [])

  /** The ring and the flags hold what the queue holds. */
  ghost predicate Like(s: Receiver, f: Fifo) {
    && s.ring.got == f.taken && s.ring.put == f.taken + f.waiting && s.log == f.log
    && s.bufferFull == f.lost && s.framingError == f.framing && s.parityError == f.parity
  }

  lemma StaysLike(s: Receiver, f: Fifo, e: ReceiveStep)
    requires ReceiverInv(s) && ReceiveEnabled(s, e) && Like(s, f)
    ensures Like(Receive(s, e), Fed(f, e))
  {
    RingCounts(s.ring);
    IndicesFit(s.ring);
    match e
    case Read =>
    case Release =>
      hide FlagsTell, Kept;
      NextOut(s.ring);
      hide *;
      ReleaseStaysLike(s, f);
    case RxInterrupt(a) =>
      hide *;
      ArrivalStaysLike(s, f, a);
  }

  lemma ReleaseStaysLike(s: Receiver, f: Fifo)
    requires s.ring.writeIndex < |s.ring.buffer| && s.ring.readIndex < |s.ring.buffer| && Like(s, f)
    requires |s.ring.got| < |s.ring.put|
    requires Fetched(s.ring).got == s.ring.got + [s.ring.put[|s.ring.got|]] && Fetched(s.ring).put == s.ring.put
    ensures Like(Receive(s, Release), Fed(f, Release))
  {
    hide Fetched;
    assert f.waiting == [f.waiting[0]] + f.waiting[1..];
  }

  lemma ArrivalStaysLike(s: Receiver, f: Fifo, a: Arrival)
    requires s.ring.writeIndex < |s.ring.buffer| && s.ring.readIndex < |s.ring.buffer| && Like(s, f)
    requires Free(s.ring) == BUFFER_SIZE - 1 - (|s.ring.put| - |s.ring.got|)
    ensures Like(Receive(s, RxInterrupt(a)), Fed(f, RxInterrupt(a)))
  {
    assert Put(s.ring, a.byte).put == s.ring.put + [a.byte] && Put(s.ring, a.byte).got == s.ring.got;
    hide Put, Free;
  }

  lemma NextOut(r: Ring)
    requires RingInv(r) && Used(r) > 0
    ensures |r.got| < |r.put| && Fetched(r).got == r.got + [r.put[|r.got|]] && Fetched(r).put == r.put
  {
    RingCounts(r);
    assert r.buffer[|r.got| % BUFFER_SIZE] == r.put[|r.got|];
  }

  lemma {:induction false} RunIsLike(s: Receiver, f: Fifo, run: seq<ReceiveStep>)
    requires ReceiverInv(s) && ReceiveRun(s, run) && Like(s, f)
    ensures Like(AfterReceive(s, run), FedAll(f, run))
    decreases |run|
  {
    hide Like, Receive, Fed, ReceiveEnabled, RingInv, FlagsTell;
    if run != [] {
      IndicesFit(s.ring);
      ReceiveKeeps(s, run[0]);
      hide ReceiverInv;
      StaysLike(s, f, run[0]);
      RunIsLike(Receive(s, run[0]), Fed(f, run[0]), run[1..]);
    }
  }

  /** What arrives in a run, in order. */
  function Arrivals(run: seq<ReceiveStep>): seq<Arrival> {
    if run == [] then [] else (if run[0].RxInterrupt? then [run[0].arrival] else []) + Arrivals(run[1..])
  }

  function GoodBytes(arrivals: seq<Arrival>): Bytes {
    if arrivals == [] then []
    else (if Good(arrivals[0]) then [arrivals[0].byte] else []) + GoodBytes(arrivals[1..])
  }

  lemma ArrivalsOneMore(run: seq<ReceiveStep>)
    requires run != []
    ensures var more := Arrivals(run[1..]);
      if run[0].RxInterrupt? then
        && Arrivals(run) == [run[0].arrival] + more
        && GoodBytes(Arrivals(run)) == (if Good(run[0].arrival) then [run[0].arrival.byte] else []) + GoodBytes(more)
      else Arrivals(run) == more
  {
    assert run[0].RxInterrupt? ==> ([run[0].arrival] + Arrivals(run[1..]))[1..] == Arrivals(run[1..]);
  }

  function GoodByte(e: ReceiveStep): Bytes { if e.RxInterrupt? && Good(e.arrival) then [e.arrival.byte] else [] }

  lemma QueueKeepsOne(f: Fifo, e: ReceiveStep)
    ensures var g := Fed(f, e);
      (f.lost ==> g.lost) && (!g.lost ==> g.taken + g.waiting == f.taken + f.waiting + GoodByte(e))
  {
  }

  // The queue keeps every good byte unless it says it has lost one.
  lemma {:induction false} QueueKeepsAll(f: Fifo, run: seq<ReceiveStep>)
    ensures var g := FedAll(f, run);
      && (f.lost ==> g.lost)
      && (!g.lost ==> g.taken + g.waiting == f.taken + f.waiting + GoodBytes(Arrivals(run)))
    decreases |run|
  {
    if run != [] {
      ArrivalsOneMore(run);
      QueueKeepsOne(f, run[0]);
      hide Arrivals, GoodBytes, Fed;
      QueueKeepsAll(Fed(f, run[0]), run[1..]);
    }
  }

  lemma {:induction false} QueueNotesErrors(f: Fifo, run: seq<ReceiveStep>)
    ensures var g := FedAll(f, run);
      && (g.framing <==> f.framing || exists a :: a in Arrivals(run) && a.framing)
      && (g.parity <==> f.parity || exists a :: a in Arrivals(run) && a.parity)
    decreases |run|
  {
    if run != [] {
      ArrivalsOneMore(run);
      hide Arrivals, GoodBytes;
      QueueNotesErrors(Fed(f, run[0]), run[1..]);
    }
  }

  /** Any interleaving of reads and receive interrupts: driver and queue agree, so the bytes
      read are a prefix of the error-free arrivals of the run without those that found 255
      bytes waiting, and the flags tell exactly whether there were any of these, and any
      with errors. */
  lemma ReceivedIsPrefix(run: seq<ReceiveStep>)
    requires ReceiveRun(FIRST_RECEIVER, run)
    ensures var s, f := AfterReceive(FIRST_RECEIVER, run), FedAll(EMPTY_FIFO, run);
      && Like(s, f)
      && Used(s.ring) == |f.waiting| && s.ring.got <= Kept(s.log) == f.taken + f.waiting
      && (!s.bufferFull ==> f.taken + f.waiting == GoodBytes(Arrivals(run)))
      && (s.framingError <==> exists a :: a in Arrivals(run) && a.framing)
      && (s.parityError <==> exists a :: a in Arrivals(run) && a.parity)
  {
    RunIsLike(FIRST_RECEIVER, EMPTY_FIFO, run);
    QueueKeepsAll(EMPTY_FIFO, run);
    QueueNotesErrors(EMPTY_FIFO, run);
    RingCounts(AfterReceive(FIRST_RECEIVER, run).ring);
    assert EMPTY_FIFO.taken + EMPTY_FIFO.waiting + GoodBytes(Arrivals(run)) == GoodBytes(Arrivals(run));
  }

  // ---------- the driver ----------

  class Uart {
    const uartTxBuffer: array<bv8>
    var uartTxBufferMainLoopIndex: nat
    var uartTxBufferInterruptIndex: nat
    var txInterrupt: bool
    const uartRxBuffer: array<bv8>
    var uartRxBufferMainLoopIndex: nat
    var uartRxBufferInterruptIndex: nat
    var parityErrorOccurred: bool
    var framingErrorOccurred: bool
    var bufferFullOccurred: bool

    // history and the main loop's place in the send and receive functions
    ghost var submitted: Bytes
    ghost var transmitted: Bytes
    ghost var sendPhase: Phase
    ghost var stored: Bytes
    ghost var received: Bytes
    ghost var taking: bool
    ghost var log: seq<Record>

    ghost function TheSender(): Sender
      reads this`uartTxBufferMainLoopIndex, this`uartTxBufferInterruptIndex, this`submitted, this`transmitted
      reads this`sendPhase, this`txInterrupt, uartTxBuffer
    {
      Sender(Ring(uartTxBuffer[..], uartTxBufferMainLoopIndex, uartTxBufferInterruptIndex, submitted, transmitted),
             sendPhase, txInterrupt)
    }

    ghost function TheReceiver(): Receiver
      reads this`uartRxBufferInterruptIndex, this`uartRxBufferMainLoopIndex, this`stored, this`received, this`taking
      reads this`framingErrorOccurred, this`parityErrorOccurred, this`bufferFullOccurred, this`log, uartRxBuffer
    {
      Receiver(Ring(uartRxBuffer[..], uartRxBufferInterruptIndex, uartRxBufferMainLoopIndex, stored, received),
               taking, framingErrorOccurred, parityErrorOccurred, bufferFullOccurred, log)
    }

    ghost predicate Valid()
      reads this, uartTxBuffer, uartRxBuffer
    {
      uartTxBuffer != uartRxBuffer && SenderInv(TheSender()) && ReceiverInv(TheReceiver())
    }

    constructor Init()
      ensures Valid() && fresh(uartTxBuffer) && fresh(uartRxBuffer)
      ensures TheSender() == FIRST_SENDER && TheReceiver() == FIRST_RECEIVER
    {
      uartTxBuffer, uartRxBuffer := new bv8[BUFFER_SIZE](_ => 0), new bv8[BUFFER_SIZE](_ => 0);
      uartTxBufferMainLoopIndex, uartTxBufferInterruptIndex, txInterrupt := 0, 0, false;
      uartRxBufferMainLoopIndex, uartRxBufferInterruptIndex := 0, 0;
      parityErrorOccurred, framingErrorOccurred, bufferFullOccurred := false, false, false;
      submitted, transmitted, sendPhase, stored, received, taking, log := [], [], Outside, [], [], false, [];
      new;
      assert uartTxBuffer[..] == EMPTY_RING.buffer && uartRxBuffer[..] == EMPTY_RING.buffer;
    }

    method TxAvailable() returns (free: nat)
      requires Valid()
      ensures free == BUFFER_SIZE - 1 - (|submitted| - |transmitted|)
    {
      RingCounts(TheSender().ring);
      free := (uartTxBufferInterruptIndex - uartTxBufferMainLoopIndex - 1) % BUFFER_SIZE;
    }

    method RxAvailable() returns (used: nat)
      requires Valid()
      ensures used == |Kept(log)| - |received|
    {
      RingCounts(TheReceiver().ring);
      used := (uartRxBufferInterruptIndex - uartRxBufferMainLoopIndex) % BUFFER_SIZE;
    }

    // the three statements of uartNTxSendByte, with interrupts possible in between

    method TxStore(byte: bv8)
      requires Valid() && SendEnabled(TheSender(), Store(byte))
      modifies uartTxBuffer, this`sendPhase
      ensures Valid() && TheSender() == Send(old(TheSender()), Store(byte)) && TheReceiver() == old(TheReceiver())
      ensures sendPhase == HasStored(byte)
    {
      SendKeeps(TheSender(), Store(byte));
      uartTxBuffer[uartTxBufferMainLoopIndex] := byte;
      sendPhase := HasStored(byte);
    }

    method TxWrite()
      requires Valid() && sendPhase.HasStored?
      modifies this`uartTxBufferMainLoopIndex, this`submitted, this`sendPhase
      ensures Valid() && TheSender() == Send(old(TheSender()), Write) && TheReceiver() == old(TheReceiver())
      ensures sendPhase == HasWritten && submitted == old(submitted) + [old(sendPhase.byte)]
    {
      SendKeeps(TheSender(), Write);
      hide RingInv, SenderInv, ReceiverInv, TheReceiver, Free, Used;
      uartTxBufferMainLoopIndex := (uartTxBufferMainLoopIndex + 1) % BUFFER_SIZE;
      submitted, sendPhase := submitted + [sendPhase.byte], HasWritten;
    }

    method TxEnable()
      requires Valid() && sendPhase == HasWritten
      modifies this`txInterrupt, this`sendPhase
      ensures Valid() && TheSender() == Send(old(TheSender()), Enable) && TheReceiver() == old(TheReceiver())
      ensures sendPhase == Outside && txInterrupt
    {
      SendKeeps(TheSender(), Enable);
      txInterrupt, sendPhase := true, Outside;
    }

    /** ISR_UTX: `byte` goes to the hardware if there is one. */
    method TransmitInterrupt() returns (byte: bv8)
      requires Valid() && txInterrupt
      modifies this`uartTxBufferInterruptIndex, this`txInterrupt, this`transmitted
      ensures Valid() && TheSender() == Send(old(TheSender()), TxInterrupt) && TheReceiver() == old(TheReceiver())
      ensures transmitted == old(transmitted) + [byte] || (transmitted == old(transmitted) && !txInterrupt)
    {
      SendKeeps(TheSender(), TxInterrupt);
      assert uartTxBufferInterruptIndex < uartTxBuffer.Length;
      hide RingInv, SenderInv, ReceiverInv, TheReceiver, Used;
      byte := 0;
      if uartTxBufferInterruptIndex != uartTxBufferMainLoopIndex {
        byte := uartTxBuffer[uartTxBufferInterruptIndex];
        uartTxBufferInterruptIndex := (uartTxBufferInterruptIndex + 1) % BUFFER_SIZE;
        transmitted := transmitted + [byte];
      } else {
        txInterrupt := false;
      }
    }

    // the two statements of uartNRxReceiveByte

    method RxRead() returns (byte: bv8)
      requires Valid() && ReceiveEnabled(TheReceiver(), Read)
      modifies this`taking
      ensures Valid() && TheReceiver() == Receive(old(TheReceiver()), Read) && TheSender() == old(TheSender())
      ensures |received| < |Kept(log)| && byte == Kept(log)[|received|]
    {
      ReceiveKeeps(TheReceiver(), Read);
      RingCounts(TheReceiver().ring);
      byte := uartRxBuffer[uartRxBufferMainLoopIndex];
      assert byte == stored[|received|];
      taking := true;
    }

    method RxRelease()
      requires Valid() && ReceiveEnabled(TheReceiver(), Release)
      modifies this`uartRxBufferMainLoopIndex, this`taking, this`received
      ensures Valid() && TheReceiver() == Receive(old(TheReceiver()), Release) && TheSender() == old(TheSender())
    {
      ReceiveKeeps(TheReceiver(), Release);
      received := received + [uartRxBuffer[uartRxBufferMainLoopIndex]];
      uartRxBufferMainLoopIndex := (uartRxBufferMainLoopIndex + 1) % BUFFER_SIZE;
      taking := false;
    }

    method NoteErrors(a: Arrival)
      modifies this`framingErrorOccurred, this`parityErrorOccurred
      ensures TheReceiver() == var s := old(TheReceiver());
        s.(framingError := s.framingError || a.framing, parityError := s.parityError || a.parity)
      ensures TheSender() == old(TheSender())
    {
      if a.framing {
        framingErrorOccurred := true;
      }
      if a.parity {
        parityErrorOccurred := true;
      }
    }

    /** What happens to an arrival without errors. */
    method KeepOrDrop(byte: bv8)
      requires uartRxBufferInterruptIndex < uartRxBuffer.Length && uartTxBuffer != uartRxBuffer
      modifies uartRxBuffer, this`uartRxBufferInterruptIndex, this`bufferFullOccurred, this`stored
      ensures TheReceiver() == var s := old(TheReceiver());
        if Free(s.ring) > 0 then s.(ring := Put(s.ring, byte)) else s.(bufferFull := true)
      ensures TheSender() == old(TheSender())
    {
      var free := (uartRxBufferMainLoopIndex - uartRxBufferInterruptIndex - 1) % BUFFER_SIZE;
      assert free == Free(TheReceiver().ring);
      if free != 0 {
        uartRxBuffer[uartRxBufferInterruptIndex] := byte;
        uartRxBufferInterruptIndex := (uartRxBufferInterruptIndex + 1) % BUFFER_SIZE;
        stored := stored + [byte];
      } else {
        bufferFullOccurred := true;
      }
    }

    /** ISR_URX */
    method ReceiveInterrupt(a: Arrival)
      requires Valid()
      modifies uartRxBuffer, this`uartRxBufferInterruptIndex, this`bufferFullOccurred, this`framingErrorOccurred,
        this`parityErrorOccurred, this`stored, this`log
      ensures Valid() && TheReceiver() == Receive(old(TheReceiver()), RxInterrupt(a)) && TheSender() == old(TheSender())
    {
      ReceiveKeeps(TheReceiver(), RxInterrupt(a));
      Received(TheReceiver(), a);
      ghost var was := TheReceiver();
      assert uartRxBufferInterruptIndex < uartRxBuffer.Length;
      hide RingInv, ReceiverInv, SenderInv, Receive, Free, Used, Put;
      log := log + [Record(a, Free(was.ring) == 0)];
      assert TheReceiver() == was.(log := log) && TheSender() == old(TheSender());
      hide TheSender, TheReceiver;
      if !a.framing && !a.parity {
        KeepOrDrop(a.byte);
      } else {
        NoteErrors(a);
      }
    }

    // What interrupts leave alone.
    twostate predicate MainLoopUndisturbed()
      reads this
    {
      && old(transmitted) <= transmitted && old(log) <= log
      && received == old(received) && taking == old(taking)
    }

    /** Any interrupts, at most as many as there are, in any order. */
    method Interrupts()
      requires Valid()
      modifies this`uartTxBufferInterruptIndex, this`txInterrupt, this`transmitted, uartRxBuffer
      modifies this`uartRxBufferInterruptIndex, this`bufferFullOccurred, this`framingErrorOccurred
      modifies this`parityErrorOccurred, this`stored, this`log
      ensures Valid() && MainLoopUndisturbed() && submitted == old(submitted) && sendPhase == old(sendPhase)
    {
      hide RingInv, ReceiverInv, SenderInv, Valid;
      var left: nat := *;
      while left > 0
        modifies this`uartTxBufferInterruptIndex, this`txInterrupt, this`transmitted, uartRxBuffer
        modifies this`uartRxBufferInterruptIndex, this`bufferFullOccurred, this`framingErrorOccurred
        modifies this`parityErrorOccurred, this`stored, this`log
        invariant Valid() && MainLoopUndisturbed() && submitted == old(submitted) && sendPhase == old(sendPhase)
      {
        AnyInterrupt();
        left := left - 1;
      }
    }

    method AnyInterrupt()
      requires Valid()
      modifies this`uartTxBufferInterruptIndex, this`txInterrupt, this`transmitted, uartRxBuffer
      modifies this`uartRxBufferInterruptIndex, this`bufferFullOccurred, this`framingErrorOccurred
      modifies this`parityErrorOccurred, this`stored, this`log
      ensures Valid() && MainLoopUndisturbed() && submitted == old(submitted) && sendPhase == old(sendPhase)
    {
      hide RingInv, ReceiverInv, SenderInv;
      var transmit: bool := *;
      if transmit && txInterrupt {
        var byte := TransmitInterrupt();
      } else {
        var arrival: Arrival := *;
        ReceiveInterrupt(arrival);
      }
    }

    // The statements of uartNTxSendByte after the first.
    method TxFinish()
      requires Valid() && sendPhase.HasStored?
      modifies this`uartTxBufferMainLoopIndex, this`submitted, this`sendPhase, uartTxBuffer
      modifies this`uartTxBufferInterruptIndex, this`txInterrupt, this`transmitted, uartRxBuffer
      modifies this`uartRxBufferInterruptIndex, this`bufferFullOccurred, this`framingErrorOccurred
      modifies this`parityErrorOccurred, this`stored, this`log
      ensures Valid() && MainLoopUndisturbed() && sendPhase == Outside
      ensures submitted == old(submitted) + [old(sendPhase.byte)] && txInterrupt
    {
      hide Valid, TheSender, TheReceiver;
      Interrupts();
      ghost var between, logged := transmitted, log;
      TxWrite();
      Interrupts();
      PrefixesCompose(old(transmitted), between, transmitted);
      PrefixesCompose(old(log), logged, log);
      TxEnable();
    }

    /** uartNTxSendByte, whatever interrupts come between its statements. */
    method TxSendByte(byte: bv8)
      requires Valid() && sendPhase == Outside && |submitted| - |transmitted| < BUFFER_SIZE - 1
      modifies this`uartTxBufferMainLoopIndex, this`submitted, this`sendPhase, uartTxBuffer
      modifies this`uartTxBufferInterruptIndex, this`txInterrupt, this`transmitted, uartRxBuffer
      modifies this`uartRxBufferInterruptIndex, this`bufferFullOccurred, this`framingErrorOccurred
      modifies this`parityErrorOccurred, this`stored, this`log
      ensures Valid() && MainLoopUndisturbed() && sendPhase == Outside
      ensures submitted == old(submitted) + [byte] && txInterrupt
    {
      RingCounts(TheSender().ring);
      assert SendEnabled(TheSender(), Store(byte));
      hide Valid, TheReceiver, SendEnabled;
      TxStore(byte);
      TxFinish();
    }

    /** uartNTxSend, whatever interrupts come. */
    method TxSend(buffer: Bytes)
      requires Valid() && sendPhase == Outside && |buffer| < BUFFER_SIZE - (|submitted| - |transmitted|)
      modifies this`uartTxBufferMainLoopIndex, this`submitted, this`sendPhase, uartTxBuffer
      modifies this`uartTxBufferInterruptIndex, this`txInterrupt, this`transmitted, uartRxBuffer
      modifies this`uartRxBufferInterruptIndex, this`bufferFullOccurred, this`framingErrorOccurred
      modifies this`parityErrorOccurred, this`stored, this`log
      ensures Valid() && MainLoopUndisturbed() && sendPhase == Outside
      ensures submitted == old(submitted) + buffer && (buffer != [] ==> txInterrupt)
    {
      hide RingInv, ReceiverInv, SenderInv, Valid;
      for i := 0 to |buffer|
        modifies this`uartTxBufferMainLoopIndex, this`submitted, this`sendPhase, uartTxBuffer
        modifies this`uartTxBufferInterruptIndex, this`txInterrupt, this`transmitted, uartRxBuffer
        modifies this`uartRxBufferInterruptIndex, this`bufferFullOccurred, this`framingErrorOccurred
        modifies this`parityErrorOccurred, this`stored, this`log
        invariant Valid() && MainLoopUndisturbed() && sendPhase == Outside
        invariant submitted == old(submitted) + buffer[..i] && (i > 0 ==> txInterrupt)
      {
        Interrupts();
        TxSendByte(buffer[i]);
      }
    }
  }

  lemma PrefixesCompose<T>(a: seq<T>, b: seq<T>, c: seq<T>)
    requires a <= b <= c
    ensures a <= c
  {
  }
}
