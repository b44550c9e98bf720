/** usb: control transfers on endpoint 0, polled from the main loop. */
module UsbControl {

  type Bytes = seq<bv8>

  const USB_EP0_PACKET_SIZE := 32

  datatype Option<T> = None | Some(value: T)

  // ---------- one poll on values ----------

  datatype Phase = Idle | Writing | Reading

  type Setup = b: Bytes | |b| == 8 witness [0, 0, 0, 0, 0, 0, 0, 0]

  /** controlTransferState, controlTransferBytesLeft, controlTransferPointer and
      usbSetupPacket. */
  datatype Control = Control(phase: Phase, left: nat, pointer: nat, setup: Setup)

  /** requestType, bits 5 and 6 of the first byte, is USB_REQUEST_TYPE_STANDARD. */
  predicate Standard(setup: Setup) { setup[0] & 0x60 == 0 }

  /** What a handler makes of a SETUP packet: the last usbControl... call it made, if any. */
  datatype Decision = Stall | Acknowledge | Read(count: nat, source: nat) | Write(count: nat, destination: nat)

  /** What the hardware shows to one poll, and how the handlers would decide: the OUT
      packet waiting (if any), and whether an earlier IN packet is still waiting. */
  datatype Input = Input(setupEnd: bool, sentStall: bool, out: Option<Bytes>, inBusy: bool, decision: Decision, accept: bool)

  /** One write to USBCS0. */
  datatype Reply = ClearSetupEnd | ResetEndpoint | Reply(clearOut: bool, dataEnd: bool, sendStall: bool, inReady: bool)

  /** `armed` are the IN packets handed to the hardware; `seen` is memory as every call of
      the control write handler found it. */
  datatype Outcome = Outcome(control: Control, memory: Bytes, replies: seq<Reply>, armed: seq<Bytes>, seen: seq<Bytes>)

  predicate Fits(c: Control, memory: Bytes) {
    c.phase != Idle ==> c.pointer + c.left <= |memory|
  }

  predicate DecisionFits(d: Decision, memory: Bytes) {
    match d
    case Read(n, source) => source + n <= |memory|
    case Write(n, destination) => destination + n <= |memory|
    case _ => true
  }

  function Min(a: nat, b: nat): nat { if a < b then a else b }

  function Stored(memory: Bytes, at: nat, data: Bytes): (r: Bytes)
    requires at + |data| <= |memory|
    ensures |r| == |memory|
  {
    memory[..at] + data + memory[at + |data|..]
  }

  function Decided(c: Control, d: Decision): Control {
    match d
    case Stall => c.(phase := Idle)
    case Acknowledge => c.(phase := Writing, left := 0)
    case Read(n, source) => c.(phase := Reading, left := n, pointer := source)
    case Write(n, destination) => c.(phase := Writing, left := n, pointer := destination)
  }

  /** What ends an earlier transfer, and the writes that acknowledge it. */
  function Acknowledgements(i: Input): seq<Reply> {
    (if i.setupEnd then [ClearSetupEnd] else []) + if i.sentStall then [ResetEndpoint] else []
  }

  function Begun(c: Control, i: Input): Control {
    if i.setupEnd || i.sentStall then c.(phase := Idle) else c
  }

  // The write handler is asked, unless the request is a standard one.
  predicate Accepted(c: Control, i: Input) { Standard(c.setup) || i.accept }

  function Seen(c: Control, stored: Bytes): seq<Bytes> { if Standard(c.setup) then [] else [stored] }

  /** The part of a poll that looks at OUTPKT_RDY. */
  function OutPart(c: Control, memory: Bytes, i: Input): (o: Outcome)
    requires Fits(c, memory) && DecisionFits(i.decision, memory)
    ensures Fits(o.control, o.memory) && |o.memory| == |memory| && o.armed == []
  {
    if i.out == None then Outcome(c, memory, [], [], [])
    else if c.phase == Writing then
      var n := Min(|i.out.value|, c.left);
      var rest := c.(left := c.left - n, pointer := c.pointer + n);
      var stored := Stored(memory, c.pointer, i.out.value[..n]);
      if n < c.left then Outcome(rest, stored, [Reply(true, false, false, false)], [], [])
      else Outcome(rest.(phase := Idle), stored, [Reply(true, true, !Accepted(c, i), false)], [], Seen(c, stored))
    else if |i.out.value| == 8 then
      var d := Decided(c.(phase := Idle, setup := i.out.value), i.decision);
      if d.phase == Idle then Outcome(d, memory, [Reply(true, false, true, false)], [], [])
      else if d.phase == Reading then Outcome(d, memory, [], [], [])
      else if d.left > 0 then Outcome(d, memory, [Reply(true, false, false, false)], [], [])
      else Outcome(d.(phase := Idle), memory, [Reply(true, true, false, true)], [], [])
    else Outcome(c, memory, [Reply(true, false, false, false)], [], [])
  }

  /** The part of a poll that arms the next IN packet. */
  function InPart(o: Outcome, i: Input): (r: Outcome)
    requires Fits(o.control, o.memory)
    ensures Fits(r.control, r.memory) && |r.memory| == |o.memory|
  {
    var c := o.control;
    if i.inBusy || c.phase != Reading then o
    else
      var last := c.left < USB_EP0_PACKET_SIZE;
      var n := Min(c.left, USB_EP0_PACKET_SIZE);
      o.(control := c.(phase := if last then Idle else Reading, left := c.left - n, pointer := c.pointer + n),
         replies := o.replies + [Reply(false, last, false, true)],
         armed := o.armed + [o.memory[c.pointer..c.pointer + n]])
  }

  function Polled(c: Control, memory: Bytes, i: Input): (o: Outcome)
    requires Fits(c, memory) && DecisionFits(i.decision, memory)
    ensures Fits(o.control, o.memory) && |o.memory| == |memory|
  {
    var o := InPart(OutPart(Begun(c, i), memory, i), i);
    o.(replies := Acknowledgements(i) + o.replies)
  }

  // ---------- runs ----------

  ghost predicate AllFit(inputs: seq<Input>, memory: Bytes) {
    forall i | i in inputs :: DecisionFits(i.decision, memory)
  }

  /** Everything a sequence of polls did. */
  ghost function Run(c: Control, memory: Bytes, inputs: seq<Input>): (o: Outcome)
    requires Fits(c, memory) && AllFit(inputs, memory)
    ensures Fits(o.control, o.memory) && |o.memory| == |memory|
  {
    if inputs == [] then Outcome(c, memory, [], [], [])
    else
      var before := Run(c, memory, inputs[..|inputs| - 1]);
      var now := Polled(before.control, before.memory, inputs[|inputs| - 1]);
      Outcome(now.control, now.memory, before.replies + now.replies, before.armed + now.armed, before.seen + now.seen)
  }

  // The last poll of a run.
  lemma RunOneMore(c: Control, memory: Bytes, before: seq<Input>, i: Input)
    requires Fits(c, memory) && AllFit(before, memory) && DecisionFits(i.decision, memory)
    ensures AllFit(before + [i], memory)
    ensures var o := Run(c, memory, before); var now := Polled(o.control, o.memory, i);
      Run(c, memory, before + [i])
      == Outcome(now.control, now.memory, o.replies + now.replies, o.armed + now.armed, o.seen + now.seen)
    ensures Openings(before + [i]) == Openings(before) + if i.inBusy then 0 else 1
    ensures Received(before + [i]) == Received(before) + if i.out.Some? then i.out.value else []
  {
    hide Polled;
    assert (before + [i])[..|before|] == before;
  }

  function Flatten(packets: seq<Bytes>): Bytes {
    if packets == [] then [] else packets[0] + Flatten(packets[1..])
  }

  lemma {:induction false} FlattenSnoc(packets: seq<Bytes>, p: Bytes)
    ensures Flatten(packets + [p]) == Flatten(packets) + p
  {
    if packets == [] {
      assert Flatten([p]) == p + Flatten([]);
    } else {
      FlattenSnoc(packets[1..], p);
      assert (packets + [p])[1..] == packets[1..] + [p];
    }
  }

  // ---------- what is written to USBCS0 ----------

  function HandOver(r: Reply): seq<Reply> { if r.Reply? && r.inReady && !r.clearOut then [r] else [] }

  /** The writes that hand an IN packet of data to the hardware. */
  function HandOvers(replies: seq<Reply>): seq<Reply> {
    if replies == [] then [] else HandOver(replies[0]) + HandOvers(replies[1..])
  }

  lemma {:induction false} HandOversOfSum(a: seq<Reply>, b: seq<Reply>)
    ensures HandOvers(a + b) == HandOvers(a) + HandOvers(b)
  {
    hide HandOver;
    if a == [] {
      assert a + b == b;
    } else {
      HandOversOfSum(a[1..], b);
      assert (a + b)[1..] == a[1..] + b;
      Associative(HandOver(a[0]), HandOvers(a[1..]), HandOvers(b));
    }
  }

  lemma Associative(a: seq<Reply>, b: seq<Reply>, c: seq<Reply>)
    ensures a + b + c == a + (b + c)
  {
  }

  /** INPKT_RDY for every packet, and DATA_END with one that is not full. */
  function HandedOver(armed: seq<Bytes>): seq<Reply> {
    seq(|armed|, k requires 0 <= k < |armed| => Reply(false, |armed[k]| < USB_EP0_PACKET_SIZE, false, true))
  }

  /** In any run of polls every packet in the endpoint's memory is handed over, in order, and
      nothing else is. */
  lemma {:induction false} ArmedIsHandedOver(c: Control, memory: Bytes, inputs: seq<Input>)
    requires Fits(c, memory) && AllFit(inputs, memory)
    ensures HandOvers(Run(c, memory, inputs).replies) == HandedOver(Run(c, memory, inputs).armed)
  {
    if inputs != [] {
      var before, i := inputs[..|inputs| - 1], inputs[|inputs| - 1];
      assert inputs == before + [i];
      RunOneMore(c, memory, before, i);
      hide Run, Polled, HandOvers, HandedOver;
      ArmedIsHandedOver(c, memory, before);
      var o := Run(c, memory, before);
      var now := Polled(o.control, o.memory, i);
      PollHandsOver(o.control, o.memory, i);
      HandOversOfSum(o.replies, now.replies);
      HandedOverOfSum(o.armed, now.armed);
    }
  }

  lemma HandedOverOfSum(a: seq<Bytes>, b: seq<Bytes>)
    ensures HandedOver(a + b) == HandedOver(a) + HandedOver(b)
  {
  }

  lemma PollHandsOver(c: Control, memory: Bytes, i: Input)
    requires Fits(c, memory) && DecisionFits(i.decision, memory)
    ensures var o := Polled(c, memory, i); HandOvers(o.replies) == HandedOver(o.armed)
  {
    var out := OutPart(Begun(c, i), memory, i);
    OutHandsNothingOver(Begun(c, i), memory, i);
    NoHandOver(Acknowledgements(i));
    hide OutPart, Begun, HandOvers, HandedOver;
    InHandsOver(out, i);
    HandOversOfSum(Acknowledgements(i), InPart(out, i).replies);
  }

  lemma OutHandsNothingOver(c: Control, memory: Bytes, i: Input)
    requires Fits(c, memory) && DecisionFits(i.decision, memory)
    ensures HandOvers(OutPart(c, memory, i).replies) == []
  {
    NoHandOver(OutPart(c, memory, i).replies);
  }

  lemma InHandsOver(out: Outcome, i: Input)
    requires Fits(out.control, out.memory) && out.armed == [] && HandOvers(out.replies) == []
    ensures HandOvers(InPart(out, i).replies) == HandedOver(InPart(out, i).armed)
  {
    var both := InPart(out, i);
    var more := both.replies[|out.replies|..];
    assert both.replies == out.replies + more;
    assert |more| == |both.armed| <= 1;
    assert |more| == 1 ==> more[0] == Reply(false, |both.armed[0]| < USB_EP0_PACKET_SIZE, false, true);
    OneHandOver(more);
    hide InPart, HandOvers;
    HandOversOfSum(out.replies, more);
  }

  lemma NoHandOver(replies: seq<Reply>)
    requires |replies| <= 2 && forall r | r in replies :: r.Reply? ==> r.clearOut || !r.inReady
    ensures HandOvers(replies) == []
  {
  }

  lemma OneHandOver(replies: seq<Reply>)
    requires |replies| <= 1
    ensures HandOvers(replies)
      == if replies != [] && replies[0].Reply? && replies[0].inReady && !replies[0].clearOut then replies else []
  {
  }

  const CLEAR := Reply(true, false, false, false)
  const ACKNOWLEDGE := Reply(true, true, false, true)
  const STALL := Reply(true, false, true, false)

  /** How a SETUP packet is answered: with a stall; with an acknowledgement that also hands
      over the empty packet of the status stage, if there is nothing to receive; by clearing
      OUTPKT_RDY before a write; and before a read not at all. */
  lemma SetupIsAnswered(c: Control, memory: Bytes, i: Input)
    requires c.phase != Writing || i.setupEnd || i.sentStall
    requires Fits(c, memory) && DecisionFits(i.decision, memory) && i.out.Some? && |i.out.value| == 8
    ensures Polled(c, memory, i).memory == memory && Polled(c, memory, i).seen == []
    ensures Polled(c, memory, i).control.setup == i.out.value
    ensures var o := Polled(c, memory, i);
      match i.decision
      case Stall => o.replies == Acknowledgements(i) + [STALL] && o.control.phase == Idle && o.armed == []
      case Acknowledge => o.replies == Acknowledgements(i) + [ACKNOWLEDGE] && o.control.phase == Idle && o.armed == []
      case Write(n, destination) =>
        if n == 0 then o.replies == Acknowledgements(i) + [ACKNOWLEDGE] && o.control.phase == Idle && o.armed == []
        else o.replies == Acknowledgements(i) + [CLEAR] && o.control == Control(Writing, n, destination, i.out.value) && o.armed == []
      case Read(n, _) =>
        if i.inBusy then o.replies == Acknowledgements(i) && o.armed == []
        else o.replies == Acknowledgements(i) + [Reply(false, n < USB_EP0_PACKET_SIZE, false, true)] && |o.armed| == 1
  {
    hide Acknowledgements;
  }

  /** SETUP_END and SENT_STALL are acknowledged by the poll that finds them, and only then. */
  lemma AbortIsAcknowledged(c: Control, memory: Bytes, i: Input)
    requires Fits(c, memory) && DecisionFits(i.decision, memory)
    ensures var r := Polled(c, memory, i).replies;
      (ClearSetupEnd in r <==> i.setupEnd) && (ResetEndpoint in r <==> i.sentStall)
  {
    var out := OutPart(Begun(c, i), memory, i);
    assert forall r :: r in out.replies ==> r.Reply?;
    hide OutPart, Begun;
    var both := InPart(out, i);
    assert forall r :: r in both.replies ==> r.Reply?;
    assert forall r :: r in Acknowledgements(i) <==> (r == ClearSetupEnd && i.setupEnd) || (r == ResetEndpoint && i.sentStall);
  }

  /** A packet that is neither SETUP nor part of a write is cleared, and the poll goes on as if
      it had not come. */
  lemma StrayPacketIsDropped(c: Control, memory: Bytes, i: Input)
    requires Fits(c, memory) && DecisionFits(i.decision, memory)
    requires Begun(c, i).phase != Writing && i.out.Some? && |i.out.value| != 8
    ensures var o, without := Polled(c, memory, i), Polled(c, memory, i.(out := None)); var n := |Acknowledgements(i)|;
      o == without.(replies := without.replies[..n] + [CLEAR] + without.replies[n..])
  {
  }

  predicate NotSetup(i: Input) { i.out.Some? ==> |i.out.value| != 8 }

  lemma IdlePoll(c: Control, memory: Bytes, i: Input)
    requires Fits(c, memory) && DecisionFits(i.decision, memory) && NotSetup(i)
    requires c.phase == Idle || i.setupEnd || i.sentStall
    ensures var o := Polled(c, memory, i); o.control.phase == Idle && o.memory == memory && o.armed == [] && o.seen == []
  {
  }

  /** SETUP_END or SENT_STALL ends a transfer for good: until the next SETUP packet nothing is
      handed over, no memory is written and no handler is called. */
  lemma {:induction false} AbortStopsTransfer(c: Control, memory: Bytes, abort: Input, inputs: seq<Input>)
    requires Fits(c, memory) && DecisionFits(abort.decision, memory) && AllFit(inputs, memory)
    requires (abort.setupEnd || abort.sentStall) && NotSetup(abort) && forall i | i in inputs :: NotSetup(i)
    ensures var first := Polled(c, memory, abort); var o := Run(first.control, first.memory, inputs);
      && first.armed == [] && first.memory == memory && first.seen == []
      && o.control.phase == Idle && o.memory == memory && o.armed == [] && o.seen == [] && HandOvers(o.replies) == []
  {
    IdlePoll(c, memory, abort);
    hide Polled, HandOvers, NotSetup;
    var first := Polled(c, memory, abort);
    ArmedIsHandedOver(first.control, first.memory, inputs);
    if inputs != [] {
      var before, i := inputs[..|inputs| - 1], inputs[|inputs| - 1];
      assert inputs == before + [i];
      RunOneMore(first.control, memory, before, i);
      hide Run;
      AbortStopsTransfer(c, memory, abort, before);
      var o := Run(first.control, memory, before);
      IdlePoll(o.control, o.memory, i);
    }
  }

  // ---------- control reads ----------

  /** A transfer of data cut into packets as section 5.5.3 of the USB 2.0
      specification asks: full packets, then one that is not full. */
  function Segments(data: Bytes): seq<Bytes> {
    if |data| < USB_EP0_PACKET_SIZE then [data] else [data[..USB_EP0_PACKET_SIZE]] + Segments(data[USB_EP0_PACKET_SIZE..])
  }

  lemma {:induction false} SegmentsShape(data: Bytes)
    ensures var s := Segments(data);
      && |s| == |data| / USB_EP0_PACKET_SIZE + 1
      && (forall k | 0 <= k < |s| - 1 :: |s[k]| == USB_EP0_PACKET_SIZE)
      && |s[|s| - 1]| == |data| % USB_EP0_PACKET_SIZE
      && Flatten(s) == data
  {
    if |data| < USB_EP0_PACKET_SIZE {
      assert Flatten([data]) == data + Flatten([]);
    } else {
      SegmentsShape(data[USB_EP0_PACKET_SIZE..]);
      assert data == data[..USB_EP0_PACKET_SIZE] + data[USB_EP0_PACKET_SIZE..];
    }
  }

  lemma {:induction false} SegmentIs(data: Bytes, k: nat)
    requires k <= |data| / USB_EP0_PACKET_SIZE
    ensures |Segments(data)| == |data| / USB_EP0_PACKET_SIZE + 1
    ensures Segments(data)[k] == data[USB_EP0_PACKET_SIZE * k..Min(|data|, USB_EP0_PACKET_SIZE * k + USB_EP0_PACKET_SIZE)]
  {
    if |data| >= USB_EP0_PACKET_SIZE {
      var rest, before := data[USB_EP0_PACKET_SIZE..], if k > 0 then k - 1 else 0;
      SegmentIs(rest, before);
      if k > 0 {
        var from := USB_EP0_PACKET_SIZE * before;
        var to := Min(|rest|, from + USB_EP0_PACKET_SIZE);
        assert Segments(data)[k] == Segments(rest)[before] == rest[from..to];
        hide Segments;
        SliceOfSlice(data, USB_EP0_PACKET_SIZE, |data|, from, to);
      }
    }
  }

  /** No abort, and no packet that looks like SETUP. */
  predicate ReadInput(i: Input) {
    !i.setupEnd && !i.sentStall && (i.out.Some? ==> |i.out.value| != 8)
  }

  ghost function Openings(inputs: seq<Input>): nat {
    if inputs == [] then 0
    else Openings(inputs[..|inputs| - 1]) + if inputs[|inputs| - 1].inBusy then 0 else 1
  }

  function Source(c: Control, memory: Bytes): Bytes
    requires c.pointer + c.left <= |memory|
  {
    memory[c.pointer..c.pointer + c.left]
  }

  function Count(c: Control): nat { c.left / USB_EP0_PACKET_SIZE + 1 }

  /** A control read sends the segments of its source in order, one at every poll that
      finds the endpoint free, and stops exactly after the last; memory is left alone.  Each
      is handed over with INPKT_RDY, and the last one, and no other, with DATA_END. */
  lemma ReadSendsSegments(c: Control, memory: Bytes, inputs: seq<Input>)
    requires Fits(c, memory) && AllFit(inputs, memory) && c.phase == Reading
    requires forall i | i in inputs :: ReadInput(i)
    ensures var o := Run(c, memory, inputs); var s := Segments(Source(c, memory)); var k := Min(Openings(inputs), |s|);
      && |s| == Count(c) && o.armed == s[..k] && o.memory == memory && o.seen == []
      && (o.control.phase == Idle <==> k == |s|)
      && |HandOvers(o.replies)| == k
      && forall j | 0 <= j < k :: HandOvers(o.replies)[j] == Reply(false, j == |s| - 1, false, true)
  {
    hide Run, Segments, Openings, HandOvers, HandedOver, AllFit, ReadInput, Source, DecisionFits, Count;
    ReadArmsSegments(c, memory, inputs);
    ArmedIsHandedOver(c, memory, inputs);
    SegmentsAreMarked(Source(c, memory), Min(Openings(inputs), |Segments(Source(c, memory))|));
  }

  lemma SegmentsAreMarked(data: Bytes, k: nat)
    requires k <= |Segments(data)|
    ensures var s := Segments(data);
      |HandedOver(s[..k])| == k && forall j | 0 <= j < k :: HandedOver(s[..k])[j] == Reply(false, j == |s| - 1, false, true)
  {
    SegmentsShape(data);
    hide Segments, Flatten, HandedOver;
    LastIsMarked(Segments(data), k);
  }

  lemma LastIsMarked(s: seq<Bytes>, k: nat)
    requires 0 < |s| && k <= |s| && |s[|s| - 1]| < USB_EP0_PACKET_SIZE
    requires forall j | 0 <= j < |s| - 1 :: |s[j]| == USB_EP0_PACKET_SIZE
    ensures |HandedOver(s[..k])| == k
    ensures forall j | 0 <= j < k :: HandedOver(s[..k])[j] == Reply(false, j == |s| - 1, false, true)
  {
  }

  lemma ReadArmsSegments(c: Control, memory: Bytes, inputs: seq<Input>)
    requires Fits(c, memory) && AllFit(inputs, memory) && c.phase == Reading
    requires forall i | i in inputs :: ReadInput(i)
    ensures var o := Run(c, memory, inputs); var s := Segments(Source(c, memory)); var k := Min(Openings(inputs), |s|);
      && |s| == Count(c) && o.armed == s[..k] && o.memory == memory && o.seen == []
      && (o.control.phase == Idle <==> k == |s|)
  {
    SegmentIs(Source(c, memory), 0);
    hide Run, Segments, Openings;
    ReadSendsFrom(c, memory, c, 0, inputs);
  }

  /** Where a read is after k packets. */
  predicate ReadAt(c: Control, k: nat, now: Control) {
    if k == Count(c) then now.phase == Idle
    else
      && k < Count(c) && c.phase == Reading
      && now == c.(left := c.left - USB_EP0_PACKET_SIZE * k, pointer := c.pointer + USB_EP0_PACKET_SIZE * k)
  }

  /** From after the first k packets, a run has sent the packets up to the m-th. */
  ghost predicate HasSent(c: Control, memory: Bytes, k: nat, m: nat, o: Outcome)
    requires Fits(c, memory) && c.phase == Reading
  {
    var s := Segments(Source(c, memory));
    && |s| == Count(c) && k <= m <= Count(c) && o.armed == s[k..m]
    && o.memory == memory && o.seen == [] && ReadAt(c, m, o.control)
  }

  lemma {:induction false} ReadSendsFrom(c: Control, memory: Bytes, now: Control, k: nat, inputs: seq<Input>)
    requires Fits(c, memory) && Fits(now, memory) && AllFit(inputs, memory) && c.phase == Reading && ReadAt(c, k, now)
    requires forall i | i in inputs :: ReadInput(i)
    ensures HasSent(c, memory, k, Min(k + Openings(inputs), Count(c)), Run(now, memory, inputs))
  {
    hide Segments, Polled, ReadAt, ReadInput;
    if inputs == [] {
      SegmentIs(Source(c, memory), 0);
      ReadAtBound(c, k, now);
    } else {
      var before, i := inputs[..|inputs| - 1], inputs[|inputs| - 1];
      assert inputs == before + [i];
      RunOneMore(now, memory, before, i);
      hide Run, Openings, HasSent;
      ReadSendsFrom(c, memory, now, k, before);
      SendsOneMore(c, memory, k, Min(k + Openings(before), Count(c)), Run(now, memory, before), i);
    }
  }

  // One more poll.
  lemma SendsOneMore(c: Control, memory: Bytes, k: nat, m: nat, o: Outcome, i: Input)
    requires Fits(c, memory) && c.phase == Reading && HasSent(c, memory, k, m, o)
    requires Fits(o.control, o.memory) && DecisionFits(i.decision, o.memory) && ReadInput(i)
    ensures var now := Polled(o.control, o.memory, i);
      HasSent(c, memory, k, if i.inBusy || m == Count(c) then m else m + 1,
              Outcome(now.control, now.memory, o.replies + now.replies, o.armed + now.armed, o.seen + now.seen))
  {
    hide Segments, Polled, ReadAt, ReadInput;
    ReadPoll(c, memory, o.control, i, m);
    Adjacent(Segments(Source(c, memory)), k, m, if i.inBusy || m == Count(c) then m else m + 1);
  }

  lemma Adjacent(s: seq<Bytes>, a: nat, b: nat, c: nat)
    requires a <= b <= c <= |s|
    ensures s[a..b] + s[b..c] == s[a..c]
  {
  }

  lemma ReadAtBound(c: Control, k: nat, now: Control)
    requires ReadAt(c, k, now)
    ensures k <= Count(c)
  {
  }

  lemma NothingToReceive(c: Control, memory: Bytes, i: Input)
    requires Fits(c, memory) && DecisionFits(i.decision, memory) && c.phase != Writing && ReadInput(i)
    ensures Begun(c, i) == c
    ensures var o := OutPart(c, memory, i); o.control == c && o.memory == memory && o.armed == [] && o.seen == []
  {
  }

  // One poll sends the next segment, if there is one and the endpoint is free.
  lemma ReadPoll(c: Control, memory: Bytes, now: Control, i: Input, k: nat)
    requires Fits(c, memory) && Fits(now, memory) && DecisionFits(i.decision, memory)
    requires c.phase == Reading && ReadInput(i) && ReadAt(c, k, now)
    ensures var o := Polled(now, memory, i); var s := Segments(Source(c, memory));
      var m := if i.inBusy || k == Count(c) then k else k + 1;
      && |s| == Count(c) && k <= m <= |s| && o.armed == s[k..m] && o.memory == memory && o.seen == []
      && ReadAt(c, m, o.control)
  {
    var data := Source(c, memory);
    NothingToReceive(now, memory, i);
    if k < Count(c) {
      SegmentIs(data, k);
      hide Segments, OutPart, Begun;
      var from := USB_EP0_PACKET_SIZE * k;
      SliceOfSlice(memory, c.pointer, c.pointer + c.left, from, from + Min(c.left - from, USB_EP0_PACKET_SIZE));
    } else {
      SegmentIs(data, 0);
    }
  }

  lemma SliceOfSlice(s: Bytes, lo: nat, hi: nat, a: nat, b: nat)
    requires lo <= hi <= |s| && a <= b <= hi - lo
    ensures s[lo..hi][a..b] == s[lo + a..lo + b]
  {
    var mid := s[lo..hi];
    forall k | 0 <= k < b - a ensures mid[a..b][k] == s[lo + a..lo + b][k] {
      assert mid[a..b][k] == mid[a + k];
    }
    assert mid[a..b] == s[lo + a..lo + b];
  }

  /** A SETUP packet answered with a read: the whole transfer in one
      statement, with the writes that hand its packets over. */
  lemma ReadFromSetup(c: Control, memory: Bytes, setup: Input, inputs: seq<Input>)
    requires c.phase != Writing || setup.setupEnd || setup.sentStall
    requires Fits(c, memory) && DecisionFits(setup.decision, memory) && AllFit(inputs, memory)
    requires setup.out.Some? && |setup.out.value| == 8 && setup.decision.Read?
    requires forall i | i in inputs :: ReadInput(i)
    ensures var n := setup.decision.count; var data := memory[setup.decision.source..setup.decision.source + n];
      var first := Polled(c, memory, setup);
      var armed := first.armed + Run(first.control, first.memory, inputs).armed;
      var k := Openings([setup] + inputs);
      && |Segments(data)| == n / USB_EP0_PACKET_SIZE + 1
      && armed == Segments(data)[..Min(k, n / USB_EP0_PACKET_SIZE + 1)]
      && (k > n / USB_EP0_PACKET_SIZE ==> armed == Segments(data) && Flatten(armed) == data)
      && HandOvers(first.replies + Run(first.control, first.memory, inputs).replies) == HandedOver(armed)
  {
    hide *;
    SetupArmsSegments(c, memory, setup, inputs);
    EverythingIsHandedOver(c, memory, setup, inputs);
  }

  lemma SetupArmsSegments(c: Control, memory: Bytes, setup: Input, inputs: seq<Input>)
    requires c.phase != Writing || setup.setupEnd || setup.sentStall
    requires Fits(c, memory) && DecisionFits(setup.decision, memory) && AllFit(inputs, memory)
    requires setup.out.Some? && |setup.out.value| == 8 && setup.decision.Read?
    requires forall i | i in inputs :: ReadInput(i)
    ensures var n := setup.decision.count; var data := memory[setup.decision.source..setup.decision.source + n];
      var first := Polled(c, memory, setup);
      var armed := first.armed + Run(first.control, first.memory, inputs).armed;
      var k := Openings([setup] + inputs);
      && |Segments(data)| == n / USB_EP0_PACKET_SIZE + 1
      && armed == Segments(data)[..Min(k, n / USB_EP0_PACKET_SIZE + 1)]
      && (k > n / USB_EP0_PACKET_SIZE ==> armed == Segments(data) && Flatten(armed) == data)
  {
    hide Polled, Segments, Run, Openings, Flatten, ReadAt;
    var (n, source) := (setup.decision.count, setup.decision.source);
    var read := Control(Reading, n, source, setup.out.value);
    SetupPoll(c, memory, setup, read);
    OpeningsOneMore(setup, inputs);
    SegmentsShape(Source(read, memory));
    var s := Segments(Source(read, memory));
    var first := Polled(c, memory, setup);
    var k := if setup.inBusy then 0 else 1;
    ReadSendsFrom(read, memory, first.control, k, inputs);
    var m := Min(k + Openings(inputs), |s|);
    assert s[..k] + s[k..m] == s[..m];
    assert s[..|s|] == s;
  }

  lemma EverythingIsHandedOver(c: Control, memory: Bytes, setup: Input, inputs: seq<Input>)
    requires Fits(c, memory) && DecisionFits(setup.decision, memory) && AllFit(inputs, memory)
    ensures var first := Polled(c, memory, setup);
      AllFit(inputs, first.memory) &&
      var rest := Run(first.control, first.memory, inputs);
      HandOvers(first.replies + rest.replies) == HandedOver(first.armed + rest.armed)
  {
    hide Polled, Run, HandOvers, HandedOver;
    var first := Polled(c, memory, setup);
    var rest := Run(first.control, first.memory, inputs);
    PollHandsOver(c, memory, setup);
    ArmedIsHandedOver(first.control, first.memory, inputs);
    HandOversOfSum(first.replies, rest.replies);
    HandedOverOfSum(first.armed, rest.armed);
  }

  // The SETUP poll starts the read, and arms its first segment if the endpoint is free.
  lemma SetupPoll(c: Control, memory: Bytes, setup: Input, read: Control)
    requires c.phase != Writing || setup.setupEnd || setup.sentStall
    requires Fits(c, memory) && DecisionFits(setup.decision, memory)
    requires setup.out.Some? && |setup.out.value| == 8 && setup.decision.Read?
    requires read == Control(Reading, setup.decision.count, setup.decision.source, setup.out.value)
    ensures var o := Polled(c, memory, setup); var s := Segments(Source(read, memory));
      var k := if setup.inBusy then 0 else 1;
      |s| == Count(read) && o.memory == memory && o.armed == s[..k] && ReadAt(read, k, o.control)
  {
    var data := Source(read, memory);
    SegmentIs(data, 0);
    SliceOfSlice(memory, read.pointer, read.pointer + read.left, 0, Min(read.left, USB_EP0_PACKET_SIZE));
    hide Segments;
  }

  lemma {:induction false} OpeningsOneMore(first: Input, inputs: seq<Input>)
    ensures Openings([first] + inputs) == Openings(inputs) + if first.inBusy then 0 else 1
    decreases |inputs|
  {
    if inputs == [] {
      assert [first] + inputs == [first] && [first][..0] == [];
    } else {
      var before := inputs[..|inputs| - 1];
      OpeningsOneMore(first, before);
      assert ([first] + inputs)[..|inputs|] == [first] + before;
    }
  }

  /** How a host that asked for `wanted` bytes reads: it stops once it has them, or after
      a packet that is not full. */
  function HostReads(packets: seq<Bytes>, wanted: nat): (r: (Bytes, nat))
    ensures r.1 <= |packets|
  {
    if packets == [] || wanted == 0 then ([], 0)
    else if |packets[0]| < USB_EP0_PACKET_SIZE then (packets[0], 1)
    else var (rest, taken) := HostReads(packets[1..], if wanted < |packets[0]| then 0 else wanted - |packets[0]|);
      (packets[0] + rest, taken + 1)
  }

  /** The host gets all the data of a read that is clipped to what it asked for; it takes
      the last packet too, unless the data fill full packets and are all it asked for. */
  lemma {:induction false} HostGetsEverything(data: Bytes, wanted: nat)
    requires |data| <= wanted
    ensures var (got, taken) := HostReads(Segments(data), wanted);
      && got == data
      && (taken == |Segments(data)| <==> !(|data| == wanted && wanted % USB_EP0_PACKET_SIZE == 0))
  {
    if |data| >= USB_EP0_PACKET_SIZE {
      HostGetsEverything(data[USB_EP0_PACKET_SIZE..], wanted - USB_EP0_PACKET_SIZE);
      assert Segments(data)[1..] == Segments(data[USB_EP0_PACKET_SIZE..]);
      assert data == data[..USB_EP0_PACKET_SIZE] + data[USB_EP0_PACKET_SIZE..];
    }
  }

  /** GET_DESCRIPTOR: the count is clipped to wLength before the read starts. */
  function DescriptorDecision(length: nat, source: nat, wLength: nat): Decision {
    Read(if length > wLength then wLength else length, source)
  }

  lemma DescriptorReachesHost(c: Control, memory: Bytes, setup: Input, inputs: seq<Input>, length: nat, source: nat, wLength: nat)
    requires c.phase != Writing || setup.setupEnd || setup.sentStall
    requires source + length <= |memory| && setup.decision == DescriptorDecision(length, source, wLength)
    requires Fits(c, memory) && AllFit(inputs, memory)
    requires setup.out.Some? && |setup.out.value| == 8
    requires forall i | i in inputs :: ReadInput(i)
    requires Openings([setup] + inputs) > wLength / USB_EP0_PACKET_SIZE
    ensures var first := Polled(c, memory, setup);
      HostReads(first.armed + Run(first.control, first.memory, inputs).armed, wLength).0
      == memory[source..source + Min(length, wLength)]
  {
    hide Polled, OutPart, InPart, Run, Segments, HostReads;
    ReadFromSetup(c, memory, setup, inputs);
    HostGetsEverything(memory[source..source + Min(length, wLength)], wLength);
  }

  // ---------- control writes ----------

  predicate WriteInput(i: Input) { !i.setupEnd && !i.sentStall }

  ghost function Received(inputs: seq<Input>): Bytes {
    if inputs == [] then []
    else
      var out := inputs[|inputs| - 1].out;
      Received(inputs[..|inputs| - 1]) + if out.Some? then out.value else []
  }

  ghost function OutPackets(inputs: seq<Input>): nat {
    if inputs == [] then 0 else OutPackets(inputs[..|inputs| - 1]) + if inputs[|inputs| - 1].out.Some? then 1 else 0
  }

  /** Until the host has sent all it announced, its bytes so far are in place, nothing
      else has changed, the handler has not been called, and every packet has been
      answered by clearing OUTPKT_RDY and nothing else. */
  lemma WriteInProgress(c: Control, memory: Bytes, inputs: seq<Input>)
    requires Fits(c, memory) && AllFit(inputs, memory) && c.phase == Writing
    requires forall i | i in inputs :: WriteInput(i)
    requires |Received(inputs)| < c.left
    ensures var o := Run(c, memory, inputs); var n := |Received(inputs)|;
      && o.control == c.(left := c.left - n, pointer := c.pointer + n)
      && o.memory == Stored(memory, c.pointer, Received(inputs))
      && o.seen == [] && o.armed == []
      && o.replies == seq(OutPackets(inputs), _ => CLEAR)
  {
    hide Run, Received, Stored, OutPackets, AllFit, WriteInput;
    ReceivedSoFar(c, memory, inputs);
    AnsweredSoFar(c, memory, inputs);
  }

  /** `data` is in place and nothing else has happened. */
  ghost predicate HasReceived(c: Control, memory: Bytes, data: Bytes, o: Outcome)
    requires Fits(c, memory) && c.phase == Writing
  {
    && |data| < c.left && o.control == c.(left := c.left - |data|, pointer := c.pointer + |data|)
    && o.memory == Stored(memory, c.pointer, data) && o.seen == [] && o.armed == []
  }

  lemma {:induction false} ReceivedSoFar(c: Control, memory: Bytes, inputs: seq<Input>)
    requires Fits(c, memory) && AllFit(inputs, memory) && c.phase == Writing
    requires forall i | i in inputs :: WriteInput(i)
    requires |Received(inputs)| < c.left
    ensures HasReceived(c, memory, Received(inputs), Run(c, memory, inputs))
  {
    if inputs != [] {
      var before, i := inputs[..|inputs| - 1], inputs[|inputs| - 1];
      assert inputs == before + [i];
      RunOneMore(c, memory, before, i);
      hide Run, Received, Polled, Openings, HasReceived;
      ReceivedSoFar(c, memory, before);
      ReceivesOneMore(c, memory, Received(before), Run(c, memory, before), i);
    } else {
      assert Stored(memory, c.pointer, []) == memory;
    }
  }

  // One more poll.
  lemma ReceivesOneMore(c: Control, memory: Bytes, data: Bytes, o: Outcome, i: Input)
    requires Fits(c, memory) && c.phase == Writing && HasReceived(c, memory, data, o)
    requires DecisionFits(i.decision, memory) && WriteInput(i)
    requires |data| + (if i.out.Some? then |i.out.value| else 0) < c.left
    ensures var now := Polled(o.control, o.memory, i);
      HasReceived(c, memory, data + (if i.out.Some? then i.out.value else []),
                  Outcome(now.control, now.memory, o.replies + now.replies, o.armed + now.armed, o.seen + now.seen))
  {
    hide Polled, Stored;
    WritePoll(o.control, o.memory, i);
    if i.out.Some? {
      StoredTwice(memory, c.pointer, data, i.out.value);
    } else {
      assert data + [] == data;
    }
  }

  lemma {:induction false} AnsweredSoFar(c: Control, memory: Bytes, inputs: seq<Input>)
    requires Fits(c, memory) && AllFit(inputs, memory) && c.phase == Writing
    requires forall i | i in inputs :: WriteInput(i)
    requires |Received(inputs)| < c.left
    ensures Run(c, memory, inputs).replies == seq(OutPackets(inputs), _ => CLEAR)
  {
    if inputs != [] {
      var before, i := inputs[..|inputs| - 1], inputs[|inputs| - 1];
      assert inputs == before + [i];
      RunOneMore(c, memory, before, i);
      OneMoreOut(before, i);
      hide Run, Received, Polled, Stored, OutPackets, Openings;
      AnsweredSoFar(c, memory, before);
      ReceivedSoFar(c, memory, before);
      var o := Run(c, memory, before);
      WritePoll(o.control, o.memory, i);
    }
  }

  lemma OneMoreOut(before: seq<Input>, i: Input)
    ensures OutPackets(before + [i]) == OutPackets(before) + if i.out.Some? then 1 else 0
    ensures seq(OutPackets(before + [i]), _ => CLEAR)
      == seq(OutPackets(before), _ => CLEAR) + if i.out.Some? then [CLEAR] else []
  {
    assert (before + [i])[..|before|] == before;
  }

  // A packet that does not end the data phase.
  lemma WritePoll(c: Control, memory: Bytes, i: Input)
    requires Fits(c, memory) && DecisionFits(i.decision, memory) && c.phase == Writing && WriteInput(i)
    requires i.out.Some? ==> |i.out.value| < c.left
    ensures var o := Polled(c, memory, i); var data := if i.out.Some? then i.out.value else [];
      && o.control == c.(left := c.left - |data|, pointer := c.pointer + |data|)
      && (if i.out.Some? then o.memory == Stored(memory, c.pointer, i.out.value) else o.memory == memory)
      && o.seen == [] && o.armed == [] && o.replies == if i.out.Some? then [CLEAR] else []
  {
    if i.out.Some? {
      assert i.out.value[..|i.out.value|] == i.out.value;
    }
  }

  lemma StoredTwice(memory: Bytes, at: nat, a: Bytes, b: Bytes)
    requires at + |a| + |b| <= |memory|
    ensures Stored(Stored(memory, at, a), at + |a|, b) == Stored(memory, at, a + b)
  {
  }

  /** The packet that brings the announced number of bytes ends the data phase, whatever
      the packet sizes: unless the request is a standard one the handler is called once,
      with exactly the first n bytes stored and everything around them unchanged, and what
      it says decides between the two answers. */
  lemma WriteCompletes(c: Control, memory: Bytes, before: seq<Input>, last: Input)
    requires Fits(c, memory) && AllFit(before, memory) && DecisionFits(last.decision, memory) && c.phase == Writing
    requires (forall i | i in before :: WriteInput(i)) && WriteInput(last)
    requires |Received(before)| < c.left <= |Received(before + [last])|
    ensures var o := Run(c, memory, before + [last]);
      && o.memory == Stored(memory, c.pointer, Received(before + [last])[..c.left])
      && var standard := (c.setup[0] >> 5) & 3 == 0;
         && o.seen == (if standard then [] else [o.memory]) && o.control.phase == Idle && o.armed == []
         && o.replies == Run(c, memory, before).replies + [Reply(true, true, !standard && !last.accept, false)]
  {
    Verdict(c, last);
    hide Run, Polled, Stored, Received, Seen, Accepted, AllFit, DecisionFits;
    RunOneMore(c, memory, before, last);
    ReceivedSoFar(c, memory, before);
    LastPoll(c, memory, Received(before), last);
  }

  // Bits 5 and 6 of the first byte alone decide whether the handler has a say.
  lemma Verdict(c: Control, last: Input)
    ensures var standard := (c.setup[0] >> 5) & 3 == 0;
      Accepted(c, last) == (standard || last.accept) && forall m :: Seen(c, m) == if standard then [] else [m]
  {
  }

  // The poll after `received` that has all the bytes.
  lemma LastPoll(c: Control, memory: Bytes, received: Bytes, last: Input)
    requires Fits(c, memory) && DecisionFits(last.decision, memory) && c.phase == Writing && WriteInput(last)
    requires last.out.Some? && |received| < c.left <= |received| + |last.out.value|
    ensures var now := c.(left := c.left - |received|, pointer := c.pointer + |received|);
      var o := Polled(now, Stored(memory, c.pointer, received), last);
      && o.memory == Stored(memory, c.pointer, (received + last.out.value)[..c.left])
      && o.seen == Seen(c, o.memory) && o.control.phase == Idle && o.armed == []
      && o.replies == [Reply(true, true, !Accepted(c, last), false)]
  {
    var now := c.(left := c.left - |received|, pointer := c.pointer + |received|);
    FinalPoll(now, Stored(memory, c.pointer, received), last);
    StoredTwice(memory, c.pointer, received, last.out.value[..now.left]);
    PrefixOfSum(received, last.out.value, c.left);
    hide Polled, Stored;
  }

  lemma PrefixOfSum(a: Bytes, b: Bytes, n: nat)
    requires |a| <= n <= |a| + |b|
    ensures (a + b)[..n] == a + b[..n - |a|]
  {
  }

  lemma FinalPoll(c: Control, memory: Bytes, last: Input)
    requires Fits(c, memory) && DecisionFits(last.decision, memory) && c.phase == Writing && WriteInput(last)
    requires last.out.Some? && 0 < c.left <= |last.out.value|
    ensures var o := Polled(c, memory, last);
      && o.memory == Stored(memory, c.pointer, last.out.value[..c.left]) && o.seen == Seen(c, o.memory)
      && o.control.phase == Idle && o.armed == [] && o.replies == [Reply(true, true, !Accepted(c, last), false)]
  {
  }

  // ---------- any run at all ----------

  predicate Covers(c: Control, a: nat) { c.phase == Writing && c.pointer <= a < c.pointer + c.left }

  predicate DecisionCovers(d: Decision, a: nat) { d.Write? && d.destination <= a < d.destination + d.count }

  /** Whatever the host does, aborts included, a byte of memory that no write transfer
      was given stays as it is. */
  lemma {:induction false} OnlyGrantedMemoryChanges(c: Control, memory: Bytes, inputs: seq<Input>, a: nat)
    requires Fits(c, memory) && AllFit(inputs, memory) && a < |memory|
    requires !Covers(c, a) && forall i | i in inputs :: !DecisionCovers(i.decision, a)
    ensures var o := Run(c, memory, inputs); o.memory[a] == memory[a] && !Covers(o.control, a)
  {
    if inputs != [] {
      var before := inputs[..|inputs| - 1];
      OnlyGrantedMemoryChanges(c, memory, before, a);
      var o := Run(c, memory, before);
      OnlyGrantedStep(o.control, o.memory, inputs[|inputs| - 1], a);
    }
  }

  lemma OnlyGrantedStep(c: Control, memory: Bytes, i: Input, a: nat)
    requires Fits(c, memory) && DecisionFits(i.decision, memory) && a < |memory|
    requires !Covers(c, a) && !DecisionCovers(i.decision, a)
    ensures var o := Polled(c, memory, i); o.memory[a] == memory[a] && !Covers(o.control, a)
  {
    var now := OutPart(Begun(c, i), memory, i);
    assert now.memory[a] == memory[a] && !Covers(now.control, a);
  }

  /** OUTPKT_RDY is cleared by every poll that finds it set, except one in which a SETUP
      packet starts a control read. */
  lemma OutIsClearedIff(c: Control, memory: Bytes, i: Input)
    requires Fits(c, memory) && DecisionFits(i.decision, memory) && i.out.Some?
    ensures (exists r :: r in Polled(c, memory, i).replies && r.Reply? && r.clearOut)
      <==> (Begun(c, i).phase == Writing || |i.out.value| != 8 || !i.decision.Read?)
  {
    var o := OutPart(Begun(c, i), memory, i);
    if Begun(c, i).phase == Writing || |i.out.value| != 8 || !i.decision.Read? {
      assert o.replies[0].clearOut && o.replies[0] in Polled(c, memory, i).replies;
    }
  }

  // ---------- the driver ----------

  class ControlEndpoint {
    const memory: array<bv8>
    var controlTransferState: Phase
    var controlTransferBytesLeft: nat
    var controlTransferPointer: nat
    var usbSetupPacket: Setup

    constructor (memory: array<bv8>)
      ensures this.memory == memory && Value().phase == Idle
    {
      this.memory := memory;
      controlTransferState, controlTransferBytesLeft, controlTransferPointer := Idle, 0, 0;
      usbSetupPacket := [0, 0, 0, 0, 0, 0, 0, 0];
    }

    function Value(): Control
      reads this
    {
      Control(controlTransferState, controlTransferBytesLeft, controlTransferPointer, usbSetupPacket)
    }

    method ReadFifo(packet: Bytes, count: nat, buffer: nat)
      requires count <= |packet| && buffer + count <= memory.Length
      modifies memory
      ensures memory[..] == Stored(old(memory[..]), buffer, packet[..count])
    {
      var left: nat := count;
      while left > 0
        invariant left <= count
        invariant forall k | 0 <= k < memory.Length ::
          memory[k] == if buffer <= k < buffer + count - left then packet[k - buffer] else old(memory[k])
      {
        left := left - 1;
        memory[buffer + count - left - 1] := packet[count - left - 1];
      }
    }

    method WriteFifo(count: nat, buffer: nat) returns (packet: Bytes)
      requires buffer + count <= memory.Length
      ensures packet == memory[buffer..buffer + count]
    {
      packet := [];
      var left: nat := count;
      while left > 0
        invariant left <= count && packet == memory[buffer..buffer + count - left]
      {
        left := left - 1;
        packet := packet + [memory[buffer + count - left - 1]];
      }
    }

    method ControlRead(bytesCount: nat, source: nat)
      modifies this
      ensures Value() == old(Value()).(phase := Reading, left := bytesCount, pointer := source)
    {
      controlTransferState, controlTransferBytesLeft, controlTransferPointer := Reading, bytesCount, source;
    }

    method ControlWrite(bytesCount: nat, source: nat)
      modifies this
      ensures Value() == old(Value()).(phase := Writing, left := bytesCount, pointer := source)
    {
      controlTransferState, controlTransferBytesLeft, controlTransferPointer := Writing, bytesCount, source;
    }

    method ControlAcknowledge()
      modifies this
      ensures Value() == old(Value()).(phase := Writing, left := 0)
    {
      controlTransferState, controlTransferBytesLeft := Writing, 0;
    }

    method ControlStall()
      modifies this
      ensures Value() == old(Value()).(phase := Idle)
    {
      controlTransferState := Idle;
    }

    /** The handlers, reduced to the call they end with. */
    method SetupHandler(d: Decision)
      modifies this
      ensures Value() == Decided(old(Value()), d)
    {
      match d
      case Stall => ControlStall();
      case Acknowledge => ControlAcknowledge();
      case Read(n, source) => ControlRead(n, source);
      case Write(n, destination) => ControlWrite(n, destination);
    }

    method PollOut(i: Input) returns (replies: seq<Reply>, ghost seen: seq<Bytes>)
      requires Fits(Value(), memory[..]) && DecisionFits(i.decision, memory[..])
      modifies this, memory
      ensures Outcome(Value(), memory[..], replies, [], seen) == OutPart(old(Value()), old(memory[..]), i)
    {
      replies, seen := [], [];
      if i.out == None {
        return;
      }
      if controlTransferState == Writing {
        replies, seen := TakeData(i);
      } else if |i.out.value| == 8 {
        replies := TakeSetup(i);
      } else {
        replies := [Reply(true, false, false, false)];
      }
    }

    // A packet of a write's data phase.
    method TakeData(i: Input) returns (replies: seq<Reply>, ghost seen: seq<Bytes>)
      requires Fits(Value(), memory[..]) && i.out.Some? && controlTransferState == Writing
      requires DecisionFits(i.decision, memory[..])
      modifies this, memory
      ensures Outcome(Value(), memory[..], replies, [], seen) == OutPart(old(Value()), old(memory[..]), i)
    {
      hide Stored;
      seen := [];
      var packet := i.out.value;
      var bytesReceived := |packet|;
      if bytesReceived > controlTransferBytesLeft {
        bytesReceived := controlTransferBytesLeft;
      }
      ReadFifo(packet, bytesReceived, controlTransferPointer);
      controlTransferPointer := controlTransferPointer + bytesReceived;
      controlTransferBytesLeft := controlTransferBytesLeft - bytesReceived;
      if controlTransferBytesLeft != 0 {
        replies := [Reply(true, false, false, false)];
      } else {
        if !Standard(usbSetupPacket) {
          seen := [memory[..]];
          if !i.accept {
            ControlStall();
          }
        }
        if controlTransferState == Idle {
          replies := [Reply(true, true, true, false)];
        } else {
          replies := [Reply(true, true, false, false)];
          controlTransferState := Idle;
        }
      }
    }

    method TakeSetup(i: Input) returns (replies: seq<Reply>)
      requires Fits(Value(), memory[..]) && i.out.Some? && |i.out.value| == 8 && controlTransferState != Writing
      requires DecisionFits(i.decision, memory[..])
      modifies this
      ensures Outcome(Value(), memory[..], replies, [], []) == OutPart(old(Value()), memory[..], i)
    {
      hide Stored;
      replies := [];
      usbSetupPacket := i.out.value;
      controlTransferState := Idle;
      SetupHandler(i.decision);
      if controlTransferState == Idle {
        replies := [Reply(true, false, true, false)];
      } else if controlTransferState == Writing {
        if controlTransferBytesLeft != 0 {
          replies := [Reply(true, false, false, false)];
        } else {
          replies := [Reply(true, true, false, true)];
          controlTransferState := Idle;
        }
      }
    }

    method PollIn(i: Input) returns (replies: seq<Reply>, armed: seq<Bytes>)
      requires Fits(Value(), memory[..])
      modifies this
      ensures Outcome(Value(), memory[..], replies, armed, []) == InPart(Outcome(old(Value()), memory[..], [], [], []), i)
    {
      replies, armed := [], [];
      if !i.inBusy && controlTransferState == Reading {
        var bytesToSend, last := USB_EP0_PACKET_SIZE, false;
        if controlTransferBytesLeft < USB_EP0_PACKET_SIZE {
          last, bytesToSend := true, controlTransferBytesLeft;
          controlTransferState := Idle;
        }
        var packet := WriteFifo(bytesToSend, controlTransferPointer);
        armed, replies := [packet], [Reply(false, last, false, true)];
        controlTransferPointer := controlTransferPointer + bytesToSend;
        controlTransferBytesLeft := controlTransferBytesLeft - bytesToSend;
      }
    }

    method Poll(i: Input) returns (replies: seq<Reply>, armed: seq<Bytes>, ghost seen: seq<Bytes>)
      requires Fits(Value(), memory[..]) && DecisionFits(i.decision, memory[..])
      modifies this, memory
      ensures Outcome(Value(), memory[..], replies, armed, seen) == Polled(old(Value()), old(memory[..]), i)
    {
      hide OutPart, InPart;
      var acknowledged: seq<Reply> := [];
      if i.setupEnd {
        acknowledged := [ClearSetupEnd];
        controlTransferState := Idle;
      }
      if i.sentStall {
        acknowledged := acknowledged + [ResetEndpoint];
        controlTransferState := Idle;
      }
      assert acknowledged == Acknowledgements(i) && Value() == Begun(old(Value()), i);
      hide Acknowledgements, Begun;
      var more: seq<Reply>;
      replies, seen := PollOut(i);
      InPartAdds(Outcome(Value(), memory[..], replies, [], seen), i);
      more, armed := PollIn(i);
      replies := acknowledged + (replies + more);
    }
  }

  // What the IN part does does not depend on what the OUT part has reported.
  lemma InPartAdds(o: Outcome, i: Input)
    requires Fits(o.control, o.memory) && o.armed == []
    ensures var r := InPart(Outcome(o.control, o.memory, [], [], []), i);
      InPart(o, i) == r.(replies := o.replies + r.replies, seen := o.seen)
  {
  }
}
