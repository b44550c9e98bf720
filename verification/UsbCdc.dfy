/** usb_cdc_acm: the byte stream to the host over a double-buffered bulk endpoint. */
module UsbCdc {
  import UC = UsbControl

  type Bytes = seq<bv8>

  const CDC_IN_PACKET_SIZE := 64

  // ---------- the stream on values ----------

  /** `fifo` are the packets armed and not yet read by the host, `loaded` the bytes of the
      packet being filled, `emptySoon` sendEmptyPacketSoon, `configured` whether
      usbDeviceState is USB_STATE_CONFIGURED.  `written` and `taken` are the
      history: the bytes the program sent and the packets the host has read. */
  datatype Stream = Stream(fifo: seq<Bytes>, loaded: Bytes, emptySoon: bool, configured: bool, written: Bytes, taken: seq<Bytes>)

  const START := Stream([], [], false, false, [], [])

  function Armed(s: Stream): Stream {
    s.(fifo := s.fifo + [s.loaded], emptySoon := |s.loaded| == CDC_IN_PACKET_SIZE, loaded := [])
  }

  function Loaded(s: Stream, data: Bytes): Stream {
    s.(loaded := s.loaded + data, written := s.written + data)
  }

  /** One byte, as if by usbComTxSendByte. */
  function Put(s: Stream, b: bv8): Stream {
    var t := Loaded(s, [b]);
    if |t.loaded| == CDC_IN_PACKET_SIZE then Armed(t) else t
  }

  function PutAll(s: Stream, data: Bytes): Stream {
    if data == [] then s else Put(PutAll(s, data[..|data| - 1]), data[|data| - 1])
  }

  function Serviced(s: Stream): Stream {
    if s.configured && (s.loaded != [] || (s.emptySoon && s.fifo == [])) then Armed(s) else s
  }

  /** The host reads the oldest packet, if there is one. */
  function Taken(s: Stream): Stream {
    if s.fifo == [] then s else s.(fifo := s.fifo[1..], taken := s.taken + [s.fifo[0]])
  }

  /** What usbComTxAvailable computes from the two status bits. */
  function Available(s: Stream): int {
    if !s.configured then 0
    else if s.fifo == [] then 2 * CDC_IN_PACKET_SIZE - |s.loaded|
    else if |s.fifo| < 2 then CDC_IN_PACKET_SIZE - |s.loaded|
    else 0
  }

  // ---------- every run ----------

  datatype Step = Send(data: Bytes) | Service | Take | Configure(now: bool)

  /** The program sends no more than usbComTxAvailable allows. */
  predicate Enabled(s: Stream, e: Step) { e.Send? ==> |e.data| <= Available(s) }

  function Apply(s: Stream, e: Step): Stream {
    match e
    case Send(data) => PutAll(s, data)
    case Service => Serviced(s)
    case Take => Taken(s)
    case Configure(now) => s.(configured := now)
  }

  ghost predicate IsRun(s: Stream, run: seq<Step>)
    decreases |run|
  {
    run == [] || (Enabled(s, run[0]) && IsRun(Apply(s, run[0]), run[1..]))
  }

  ghost function After(s: Stream, run: seq<Step>): Stream
    decreases |run|
  {
    if run == [] then s else After(Apply(s, run[0]), run[1..])
  }

  ghost function AllPackets(s: Stream): seq<Bytes> { s.taken + s.fifo }

  /** Nothing is lost, reordered or duplicated; at most two packets wait; the flag is set
      exactly when the last packet was full; a byte is only loaded where a packet fits. */
  ghost predicate Inv(s: Stream) {
    && UC.Flatten(AllPackets(s)) + s.loaded == s.written
    && |s.fifo| <= 2 && |s.loaded| < CDC_IN_PACKET_SIZE
    && (s.loaded != [] ==> |s.fifo| <= 1)
    && (forall p | p in AllPackets(s) :: |p| <= CDC_IN_PACKET_SIZE)
    && (s.emptySoon <==> AllPackets(s) != [] && |AllPackets(s)[|AllPackets(s)| - 1]| == CDC_IN_PACKET_SIZE)
  }

  lemma ArmedKeeps(s: Stream)
    requires UC.Flatten(AllPackets(s)) + s.loaded == s.written && |s.fifo| <= 1 && |s.loaded| <= CDC_IN_PACKET_SIZE
    requires forall p | p in AllPackets(s) :: |p| <= CDC_IN_PACKET_SIZE
    ensures Inv(Armed(s))
  {
    UC.FlattenSnoc(AllPackets(s), s.loaded);
    assert AllPackets(Armed(s)) == AllPackets(s) + [s.loaded];
  }

  /** The room reported is exact: it falls by one with every byte. */
  lemma PutKeeps(s: Stream, b: bv8)
    requires Inv(s) && Available(s) > 0
    ensures Inv(Put(s, b)) && Available(Put(s, b)) == Available(s) - 1
    ensures Put(s, b).written == s.written + [b] && Put(s, b).taken == s.taken
  {
    var t := Loaded(s, [b]);
    assert AllPackets(t) == AllPackets(s);
    assert UC.Flatten(AllPackets(t)) + t.loaded == UC.Flatten(AllPackets(s)) + s.loaded + [b];
    if |t.loaded| == CDC_IN_PACKET_SIZE {
      ArmedKeeps(t);
    }
  }

  lemma {:induction false} PutAllKeeps(s: Stream, data: Bytes)
    requires Inv(s) && |data| <= Available(s)
    ensures Inv(PutAll(s, data)) && Available(PutAll(s, data)) == Available(s) - |data|
    ensures PutAll(s, data).written == s.written + data && PutAll(s, data).taken == s.taken
  {
    if data != [] {
      var init, last := data[..|data| - 1], data[|data| - 1];
      assert s.written + data == s.written + init + [last];
      hide Inv, Available, Put;
      PutAllKeeps(s, init);
      PutKeeps(PutAll(s, init), last);
    }
  }

  /** A service call on a configured device leaves no byte loaded, ends a transfer of full
      packets that the host has read, and otherwise does nothing; on a device that is not
      configured it does nothing. */
  lemma ServiceSends(s: Stream)
    requires Inv(s)
    ensures var t := Serviced(s); var needed := s.configured && (s.loaded != [] || (s.emptySoon && s.fifo == []));
      && t.written == s.written && t.taken == s.taken && t.configured == s.configured
      && s.fifo <= t.fifo && |t.fifo| == |s.fifo| + (if needed then 1 else 0)
      && (needed ==> t.loaded == [] && !t.emptySoon && t.fifo[|s.fifo|] == s.loaded)
      && (!needed ==> t == s)
  {
  }

  lemma StepKeeps(s: Stream, e: Step)
    requires Inv(s) && Enabled(s, e)
    ensures Inv(Apply(s, e))
  {
    match e
    case Send(data) => PutAllKeeps(s, data);
    case Service =>
      if Serviced(s) != s {
        ArmedKeeps(s);
      }
    case Take => assert AllPackets(Taken(s)) == AllPackets(s);
    case Configure(now) => assert AllPackets(s.(configured := now)) == AllPackets(s);
  }

  lemma {:induction false} InvRun(s: Stream, run: seq<Step>)
    requires Inv(s) && IsRun(s, run)
    ensures Inv(After(s, run))
    decreases |run|
  {
    if run != [] {
      StepKeeps(s, run[0]);
      InvRun(Apply(s, run[0]), run[1..]);
    }
  }

  // ---------- what the host's software gets ----------

  /** A bulk transfer ends with a packet that is not full (section 5.8.3 of the USB 2.0
      specification); these are the bytes of the transfers that have ended. */
  function Completed(packets: seq<Bytes>): Bytes {
    if packets == [] then []
    else if |packets[|packets| - 1]| < CDC_IN_PACKET_SIZE then UC.Flatten(packets)
    else Completed(packets[..|packets| - 1])
  }

  lemma {:induction false} CompletedIsPrefix(packets: seq<Bytes>)
    ensures Completed(packets) <= UC.Flatten(packets)
  {
    if packets != [] && |packets[|packets| - 1]| >= CDC_IN_PACKET_SIZE {
      CompletedIsPrefix(packets[..|packets| - 1]);
      UC.FlattenSnoc(packets[..|packets| - 1], packets[|packets| - 1]);
      assert packets == packets[..|packets| - 1] + [packets[|packets| - 1]];
    }
  }

  lemma {:induction false} FlattenAppend(a: seq<Bytes>, b: seq<Bytes>)
    ensures UC.Flatten(a + b) == UC.Flatten(a) + UC.Flatten(b)
  {
    if b == [] {
      assert a + b == a;
    } else {
      FlattenAppend(a, b[..|b| - 1]);
      UC.FlattenSnoc(a + b[..|b| - 1], b[|b| - 1]);
      UC.FlattenSnoc(b[..|b| - 1], b[|b| - 1]);
      assert a + b == (a + b[..|b| - 1]) + [b[|b| - 1]];
      assert b == b[..|b| - 1] + [b[|b| - 1]];
    }
  }

  predicate Drained(s: Stream) { s.fifo == [] && s.loaded == [] && !s.emptySoon }

  /** What the program sends in a run. */
  function SentIn(run: seq<Step>): Bytes {
    if run == [] then [] else (if run[0].Send? then run[0].data else []) + SentIn(run[1..])
  }

  lemma {:induction false} WrittenIsSent(s: Stream, run: seq<Step>)
    requires Inv(s) && IsRun(s, run)
    ensures After(s, run).written == s.written + SentIn(run)
    decreases |run|
  {
    if run != [] {
      StepWrites(s, run[0]);
      StepKeeps(s, run[0]);
      hide Inv, Apply, Enabled;
      WrittenIsSent(Apply(s, run[0]), run[1..]);
      Associative(s.written, if run[0].Send? then run[0].data else [], SentIn(run[1..]));
    }
  }

  lemma Associative(a: Bytes, b: Bytes, c: Bytes)
    ensures a + b + c == a + (b + c)
  {
  }

  lemma StepWrites(s: Stream, e: Step)
    requires Inv(s) && Enabled(s, e)
    ensures Apply(s, e).written == s.written + if e.Send? then e.data else []
  {
    if e.Send? {
      PutAllKeeps(s, e.data);
    }
    hide PutAll;
  }

  /** In every run the host's software gets a prefix of what the program has sent, and once
      the stream is drained it has everything: no byte waits for a transfer to end. */
  lemma HostSeesWritten(run: seq<Step>)
    requires IsRun(START, run)
    ensures var s := After(START, run);
      && |s.fifo| <= 2
      && Completed(s.taken) <= SentIn(run)
      && (Drained(s) ==> Completed(s.taken) == SentIn(run))
  {
    assert AllPackets(START) == [];
    InvRun(START, run);
    WrittenIsSent(START, run);
    assert [] + SentIn(run) == SentIn(run);
    hide IsRun, After, Inv, SentIn;
    HostHas(After(START, run));
  }

  lemma HostHas(s: Stream)
    requires Inv(s)
    ensures |s.fifo| <= 2 && Completed(s.taken) <= s.written && (Drained(s) ==> Completed(s.taken) == s.written)
  {
    CompletedIsPrefix(s.taken);
    FlattenAppend(s.taken, s.fifo);
    hide UC.Flatten;
    if Drained(s) {
      assert AllPackets(s) == s.taken;
      assert s.taken != [] ==> s.taken[|s.taken| - 1] in AllPackets(s);
    }
  }

  /** How many more steps the stream can take when the program sends nothing. */
  function Work(s: Stream): nat {
    |s.fifo| + (if s.loaded != [] then 2 else 0) + if s.emptySoon then 2 else 0
  }

  /** Left alone while configured, service calls and host reads drain the stream: each of them either
      leaves it as it is or reduces the work, one of them can always reduce it until the
      stream is drained, and then neither changes anything. */
  lemma IdleStreamDrains(s: Stream)
    requires Inv(s) && s.configured
    ensures forall e: Step | e.Service? || e.Take? :: Apply(s, e) == s || Work(Apply(s, e)) < Work(s)
    ensures Drained(s) <==> (forall e: Step | e.Service? || e.Take? :: Apply(s, e) == s)
    ensures Work(s) <= 6 && (Work(s) == 0 <==> Drained(s))
  {
    assert Work(Apply(s, Service)) < Work(s) || Apply(s, Service) == s;
    assert Work(Apply(s, Take)) < Work(s) || Apply(s, Take) == s;
  }

  // ---------- the driver ----------

  class UsbCdc {
    // the hardware's side
    var fifo: seq<Bytes>
    var loading: Bytes
    var configured: bool
    // the library's own
    var inFifoBytesLoaded: nat
    var sendEmptyPacketSoon: bool
    ghost var written: Bytes
    ghost var taken: seq<Bytes>

    ghost function Value(): Stream
      reads this
    {
      Stream(fifo, loading, sendEmptyPacketSoon, configured, written, taken)
    }

    ghost predicate Valid()
      reads this
    {
      Inv(Value()) && inFifoBytesLoaded == |loading|
    }

    constructor ()
      ensures Valid() && Value() == START
    {
      fifo, loading, inFifoBytesLoaded, sendEmptyPacketSoon, configured := [], [], 0, false, false;
      written, taken := [], [];
    }

    lemma Counted()
      requires Valid()
      ensures inFifoBytesLoaded == |loading| < CDC_IN_PACKET_SIZE
    {
    }

    method SendPacketNow()
      requires inFifoBytesLoaded == |loading|
      modifies this`fifo, this`loading, this`inFifoBytesLoaded, this`sendEmptyPacketSoon
      ensures Value() == Armed(old(Value())) && inFifoBytesLoaded == |loading|
    {
      fifo, loading := fifo + [loading], [];
      sendEmptyPacketSoon := inFifoBytesLoaded == CDC_IN_PACKET_SIZE;
      inFifoBytesLoaded := 0;
    }

    method Service()
      requires Valid()
      modifies this
      ensures Valid() && Value() == Serviced(old(Value()))
    {
      StepKeeps(Value(), Step.Service);
      if !configured {
        return;
      }
      if inFifoBytesLoaded != 0 || (sendEmptyPacketSoon && fifo == []) {
        SendPacketNow();
      }
    }

    method TxAvailable() returns (room: nat)
      requires Valid()
      ensures room == Available(Value())
      ensures room == if configured then 2 * CDC_IN_PACKET_SIZE - CDC_IN_PACKET_SIZE * |fifo| - |loading| else 0
    {
      if !configured {
        return 0;
      }
      if fifo != [] {
        if |fifo| == 2 {
          return 0;
        }
        return CDC_IN_PACKET_SIZE - inFifoBytesLoaded;
      }
      return 2 * CDC_IN_PACKET_SIZE - inFifoBytesLoaded;
    }

    /** usbWriteFifo for the data endpoint, and the count beside it. */
    method WriteFifo(chunk: Bytes)
      requires inFifoBytesLoaded == |loading|
      modifies this`loading, this`inFifoBytesLoaded, this`written
      ensures Value() == Loaded(old(Value()), chunk) && inFifoBytesLoaded == |loading|
    {
      loading, written := loading + chunk, written + chunk;
      inFifoBytesLoaded := inFifoBytesLoaded + |chunk|;
    }

    /** One packet's share of a buffer. */
    method SendChunk(chunk: Bytes)
      requires Valid() && |chunk| <= Available(Value()) && |chunk| <= CDC_IN_PACKET_SIZE - |loading|
      modifies this
      ensures Valid() && Value() == PutAll(old(Value()), chunk)
      ensures Available(Value()) == old(Available(Value())) - |chunk|
    {
      PutAllKeeps(Value(), chunk);
      PutChunk(Value(), chunk);
      hide Inv, PutAll;
      WriteFifo(chunk);
      if inFifoBytesLoaded == CDC_IN_PACKET_SIZE {
        SendPacketNow();
      }
    }

    /** Cutting a buffer at packet ends is the same as sending it byte by byte. */
    method TxSend(buffer: Bytes)
      requires Valid() && |buffer| <= Available(Value())
      modifies this
      ensures Valid() && Value() == PutAll(old(Value()), buffer)
    {
      ghost var start := Value();
      var left := buffer;
      hide Valid, Value, PutAll, Available;
      while left != []
        invariant Valid() && |left| <= Available(Value())
        invariant PutAll(Value(), left) == PutAll(start, buffer)
      {
        Counted();
        var packetSize := CDC_IN_PACKET_SIZE - inFifoBytesLoaded;
        if packetSize > |left| {
          packetSize := |left|;
        }
        PutAllAdds(Value(), left[..packetSize], left[packetSize..]);
        assert left == left[..packetSize] + left[packetSize..];
        SendChunk(left[..packetSize]);
        left := left[packetSize..];
      }
      PutNothing(Value());
    }

    method TxSendByte(byte: bv8)
      requires Valid() && Available(Value()) > 0
      modifies this
      ensures Valid() && Value() == Put(old(Value()), byte)
    {
      PutKeeps(Value(), byte);
      WriteFifo([byte]);
      if inFifoBytesLoaded == CDC_IN_PACKET_SIZE {
        SendPacketNow();
      }
    }

    /** SET_CONFIGURATION. */
    method Configure(now: bool)
      requires Valid()
      modifies this`configured
      ensures Valid() && Value() == Apply(old(Value()), Step.Configure(now))
    {
      StepKeeps(Value(), Step.Configure(now));
      configured := now;
    }

    /** The hardware: the host reads a packet. */
    method HostReads() returns (packet: Bytes)
      requires Valid() && fifo != []
      modifies this
      ensures Valid() && Value() == Taken(old(Value())) && packet == old(fifo)[0]
    {
      StepKeeps(Value(), Take);
      packet := fifo[0];
      fifo, taken := fifo[1..], taken + [packet];
    }
  }

  lemma PutNothing(s: Stream)
    ensures PutAll(s, []) == s
  {
  }

  lemma {:induction false} PutAllAdds(s: Stream, a: Bytes, b: Bytes)
    ensures PutAll(s, a + b) == PutAll(PutAll(s, a), b)
  {
    if b == [] {
      assert a + b == a;
    } else {
      PutAllAdds(s, a, b[..|b| - 1]);
      assert (a + b)[..|a + b| - 1] == a + b[..|b| - 1];
    }
  }

  /** As many bytes as fit in the packet being filled. */
  lemma {:induction false} PutChunk(s: Stream, data: Bytes)
    requires |s.loaded| < CDC_IN_PACKET_SIZE && |s.loaded| + |data| <= CDC_IN_PACKET_SIZE
    ensures var t := Loaded(s, data);
      PutAll(s, data) == if |t.loaded| == CDC_IN_PACKET_SIZE then Armed(t) else t
  {
    if data != [] {
      var (init, last) := (data[..|data| - 1], data[|data| - 1]);
      PutChunk(s, init);
      assert s.loaded + data == s.loaded + init + [last];
      assert s.written + data == s.written + init + [last];
    } else {
      assert s.loaded + data == s.loaded && s.written + data == s.written;
    }
  }
}
