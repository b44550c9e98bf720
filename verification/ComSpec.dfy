/** radio_com as functions: a byte stream and eight control signals carried by the
    packets of a reliable, ordered link. */
module ComSpec {
  import opened RadioSpec
  import RadioNetwork

  const PAYLOAD_TYPE_DATA: bv8 := 0
  const PAYLOAD_TYPE_CONTROL_SIGNALS: bv8 := 1
  const TX_QUEUE_THRESHOLD := 1

  // A byte together with the control signals in force.
  datatype Mark = Mark(byte: bv8, signals: bv8)

  /** The packets radio_com sends. */
  predicate IsComPacket(p: Packet) {
    || (p.payloadType == PAYLOAD_TYPE_DATA && 1 <= |p.payload| <= RADIO_LINK_PAYLOAD_SIZE)
    || (p.payloadType == PAYLOAD_TYPE_CONTROL_SIGNALS && |p.payload| == 1)
  }

  predicate AreComPackets(packets: seq<Packet>) {
    forall i | 0 <= i < |packets| :: IsComPacket(packets[i])
  }

  function Marked(bytes: seq<bv8>, signals: bv8): seq<Mark> {
    seq(|bytes|, i requires 0 <= i < |bytes| => Mark(bytes[i], signals))
  }

  function Bytes(marks: seq<Mark>): seq<bv8> {
    seq(|marks|, i requires 0 <= i < |marks| => marks[i].byte)
  }

  // The control signals a series of packets leaves in force; they start as 0.
  function SignalsAfter(packets: seq<Packet>): bv8
    requires AreComPackets(packets)
  {
    if packets == [] then 0
    else
      var p := packets[|packets| - 1];
      if p.payloadType == PAYLOAD_TYPE_CONTROL_SIGNALS then p.payload[0] else SignalsAfter(packets[..|packets| - 1])
  }

  /** What a series of packets means: each byte with the signals sent before it. */
  function Stream(packets: seq<Packet>): seq<Mark>
    requires AreComPackets(packets)
  {
    if packets == [] then []
    else
      var rest, p := packets[..|packets| - 1], packets[|packets| - 1];
      Stream(rest) + if p.payloadType == PAYLOAD_TYPE_DATA then Marked(p.payload, SignalsAfter(rest)) else []
  }

  lemma StreamOneMore(packets: seq<Packet>, p: Packet)
    requires AreComPackets(packets) && IsComPacket(p)
    ensures AreComPackets(packets + [p])
    ensures SignalsAfter(packets + [p])
         == if p.payloadType == PAYLOAD_TYPE_CONTROL_SIGNALS then p.payload[0] else SignalsAfter(packets)
    ensures Stream(packets + [p])
         == Stream(packets) + if p.payloadType == PAYLOAD_TYPE_DATA then Marked(p.payload, SignalsAfter(packets)) else []
  {
    assert (packets + [p])[..|packets|] == packets;
  }

  lemma {:induction false} StreamOfPrefix(packets: seq<Packet>, more: seq<Packet>)
    requires AreComPackets(more) && packets <= more
    ensures AreComPackets(packets) && Stream(packets) <= Stream(more)
    decreases |more|
  {
    if packets == more {
    } else {
      var rest := more[..|more| - 1];
      assert packets <= rest;
      StreamOfPrefix(packets, rest);
    }
  }

  // ---------- sending ----------

  // `written` is every byte ever accepted, with the sender's signals at the time.
  datatype Sender = Sender(sent: seq<Packet>, loaded: seq<bv8>, signals: bv8, soon: bool, written: seq<Mark>)

  ghost predicate InOrder(s: Sender) {
    && AreComPackets(s.sent)
    && s.written == Stream(s.sent) + Marked(s.loaded, SignalsAfter(s.sent))
    && (!s.soon ==> s.signals == SignalsAfter(s.sent))
  }

  ghost predicate SenderOk(s: Sender) {
    InOrder(s) && |s.loaded| < RADIO_LINK_PAYLOAD_SIZE && (s.soon ==> s.loaded == [])
  }

  function SendData(s: Sender): Sender {
    s.(sent := s.sent + [Packet(PAYLOAD_TYPE_DATA, s.loaded)], loaded := [])
  }

  function SendSignals(s: Sender): Sender {
    s.(sent := s.sent + [Packet(PAYLOAD_TYPE_CONTROL_SIGNALS, [s.signals])], soon := false)
  }

  // Packets the link can still take, given how many are acknowledged.
  function Slots(s: Sender, acked: nat): int { acked + TX_PACKET_COUNT - 1 - |s.sent| }

  /** Bytes that can be written before the packets run out. */
  function Capacity(s: Sender, acked: nat): int {
    if s.soon then 0 else Slots(s, acked) * RADIO_LINK_PAYLOAD_SIZE - |s.loaded|
  }

  function Service(s: Sender, acked: nat, resetReceived: bool): Sender {
    var s := if resetReceived then s.(soon := true) else s;
    if s.soon then
      var s := if s.loaded != [] then SendData(s) else s;
      if Slots(s, acked) > 0 then SendSignals(s) else s
    else if s.loaded != [] && |s.sent| - acked <= TX_QUEUE_THRESHOLD then SendData(s)
    else s
  }

  function Load(s: Sender, b: bv8): Sender {
    s.(loaded := s.loaded + [b], written := s.written + [Mark(b, s.signals)])
  }

  function PutByte(s: Sender, b: bv8): Sender {
    var s := Load(s, b);
    if |s.loaded| == RADIO_LINK_PAYLOAD_SIZE then SendData(s) else s
  }

  function SetSignals(s: Sender, signals: bv8, acked: nat, resetReceived: bool): Sender {
    if signals != s.signals then Service(s.(signals := signals, soon := true), acked, resetReceived) else s
  }

  lemma SendDataKeeps(s: Sender)
    requires InOrder(s) && 1 <= |s.loaded| <= RADIO_LINK_PAYLOAD_SIZE
    ensures SenderOk(SendData(s))
  {
    StreamOneMore(s.sent, Packet(PAYLOAD_TYPE_DATA, s.loaded));
  }

  lemma SendSignalsKeeps(s: Sender)
    requires SenderOk(s) && s.loaded == []
    ensures SenderOk(SendSignals(s))
  {
    StreamOneMore(s.sent, Packet(PAYLOAD_TYPE_CONTROL_SIGNALS, [s.signals]));
  }

  lemma ServiceKeeps(s: Sender, acked: nat, resetReceived: bool)
    requires InOrder(s) && |s.loaded| < RADIO_LINK_PAYLOAD_SIZE
    ensures SenderOk(Service(s, acked, resetReceived))
  {
    if s.loaded != [] {
      SendDataKeeps(s);
      SendDataKeeps(s.(soon := true));
    }
    var s1 := if s.loaded != [] then SendData(s.(soon := true)) else s.(soon := true);
    SendSignalsKeeps(s1);
  }

  /** A service call leaves no byte loaded when few packets are queued or signals are to be
      sent, sends signals that are to be sent if there is a slot, and nothing else. */
  lemma ServiceDelivers(s: Sender, acked: nat, resetReceived: bool)
    requires InOrder(s) && |s.loaded| < RADIO_LINK_PAYLOAD_SIZE
    ensures var s', soon := Service(s, acked, resetReceived), s.soon || resetReceived;
      && s'.written == s.written && s'.signals == s.signals && s.sent <= s'.sent
      && (s'.loaded == [] <==> s.loaded == [] || soon || |s.sent| - acked <= TX_QUEUE_THRESHOLD)
      && (s'.loaded != [] ==> s'.loaded == s.loaded)
      && (s'.soon <==> soon && Slots(s', acked) <= 0 && |s'.sent| == |s.sent| + if s.loaded != [] then 1 else 0)
      && |s'.sent| == |s.sent| + (if s.loaded != [] && s'.loaded == [] then 1 else 0) + (if soon && !s'.soon then 1 else 0)
      && (soon && !s'.soon ==> s'.sent[|s'.sent| - 1] == Packet(PAYLOAD_TYPE_CONTROL_SIGNALS, [s.signals]))
  {
    hide InOrder;
  }

  /** After a change of signals the given ones are in force: on their way as the last packet,
      or else to be sent as soon as there is a slot, and before any other byte. */
  lemma SetSignalsTakesEffect(s: Sender, signals: bv8, acked: nat, resetReceived: bool)
    requires SenderOk(s)
    ensures var s' := SetSignals(s, signals, acked, resetReceived);
      && s'.signals == signals && s'.written == s.written
      && (if signals == s.signals then s' == s
          else s'.loaded == [] && (if s'.soon then Slots(s', acked) <= 0 else AreComPackets(s'.sent) && SignalsAfter(s'.sent) == signals))
  {
    SetSignalsKeeps(s, signals, acked, resetReceived);
    if signals != s.signals {
      var s1 := s.(signals := signals, soon := true);
      ServiceDelivers(s1, acked, resetReceived);
    }
    hide Service;
  }

  lemma LoadKeeps(s: Sender, b: bv8)
    requires InOrder(s) && !s.soon
    ensures InOrder(Load(s, b))
  {
    assert Marked(s.loaded + [b], s.signals) == Marked(s.loaded, s.signals) + [Mark(b, s.signals)];
  }

  /** Writing a byte when there is capacity adds it, under the signals in force, to what the
      packets and the bytes loaded mean, and takes one from the capacity. */
  lemma PutByteKeeps(s: Sender, b: bv8, acked: nat)
    requires SenderOk(s) && Capacity(s, acked) > 0
    ensures SenderOk(PutByte(s, b)) && Capacity(PutByte(s, b), acked) == Capacity(s, acked) - 1
    ensures PutByte(s, b).written == s.written + [Mark(b, s.signals)] && PutByte(s, b).signals == s.signals
  {
    LoadKeeps(s, b);
    if |s.loaded| + 1 == RADIO_LINK_PAYLOAD_SIZE {
      SendDataKeeps(Load(s, b));
    }
    hide InOrder;
  }

  /** There is no capacity exactly while signals wait to be sent or the packets have run out. */
  lemma NoCapacityIff(s: Sender, acked: nat)
    requires SenderOk(s) && Slots(s, acked) >= 0 && (s.loaded != [] ==> Slots(s, acked) > 0)
    ensures Capacity(s, acked) >= 0 && (Capacity(s, acked) == 0 <==> s.soon || Slots(s, acked) == 0)
  {
  }

  lemma SetSignalsKeeps(s: Sender, signals: bv8, acked: nat, resetReceived: bool)
    requires SenderOk(s)
    ensures SenderOk(SetSignals(s, signals, acked, resetReceived))
  {
    if signals != s.signals {
      ServiceKeeps(s.(signals := signals, soon := true), acked, resetReceived);
    }
  }

  /** What radioComTxAvailable reports is the capacity unless the queue is empty and
      at most 14 bytes are loaded; with exactly 14 it reports 0 although there is room
      for 256. */
  lemma AvailableIsExactIff(s: Sender, acked: nat)
    requires SenderOk(s) && acked <= |s.sent| && Capacity(s, acked) > 0
    ensures Capacity(s, acked) % 256 == Capacity(s, acked) <==> |s.sent| > acked || |s.loaded| > 14
    ensures Capacity(s, acked) % 256 == 0 <==> |s.sent| == acked && |s.loaded| == 14
  {
  }

  // ---------- receiving ----------

  // `taken` is every byte ever read, with the signals last reported to the reader.
  datatype Receiver = Receiver(delivered: seq<Packet>, read: nat, left: seq<bv8>, signals: bv8, reported: bv8,
                               enforce: bool, taken: seq<Mark>)

  predicate Waiting(r: Receiver) { r.enforce && r.signals != r.reported }

  // Makes the bytes of the current packet available.
  function StartPacket(r: Receiver): Receiver
    requires r.read < |r.delivered|
  {
    r.(left := r.delivered[r.read].payload)
  }

  // Takes over the control signals of the current packet.
  function TakeSignals(r: Receiver): Receiver
    requires r.read < |r.delivered| && r.delivered[r.read].payload != []
  {
    r.(signals := r.delivered[r.read].payload[0], read := r.read + 1)
  }

  // Goes through packets up to one that holds something for the higher-level code.
  function Fetch(r: Receiver): Receiver
    requires AreComPackets(r.delivered)
    decreases |r.delivered| - r.read
  {
    if r.read >= |r.delivered| then r
    else
      if r.delivered[r.read].payloadType == PAYLOAD_TYPE_DATA then StartPacket(r)
      else
        var r := TakeSignals(r);
        if Waiting(r) then r else Fetch(r)
  }

  function ReceiveMore(r: Receiver): Receiver
    requires AreComPackets(r.delivered)
  {
    if r.left != [] || Waiting(r) then r else Fetch(r)
  }

  function TakeByte(r: Receiver): Receiver
    requires r.left != []
  {
    r.(left := r.left[1..], taken := r.taken + [Mark(r.left[0], r.reported)],
       read := if |r.left| == 1 then r.read + 1 else r.read)
  }

  function Report(r: Receiver): Receiver
    requires AreComPackets(r.delivered)
  {
    var r := ReceiveMore(r);
    r.(reported := r.signals)
  }

  // The part of the packet being read that is already taken.
  function Consumed(r: Receiver): seq<bv8> {
    if r.left != [] && r.read < |r.delivered| && |r.left| <= |r.delivered[r.read].payload| then
      r.delivered[r.read].payload[..|r.delivered[r.read].payload| - |r.left|]
    else []
  }

  ghost predicate ReceiverOk(r: Receiver) {
    && AreComPackets(r.delivered) && r.read <= |r.delivered|
    && r.signals == SignalsAfter(r.delivered[..r.read])
    && (r.left != [] ==>
          && r.read < |r.delivered|
          && r.delivered[r.read].payloadType == PAYLOAD_TYPE_DATA
          && |r.left| <= |r.delivered[r.read].payload|
          && r.delivered[r.read].payload == Consumed(r) + r.left
          && !Waiting(r))
    && Bytes(r.taken) == Bytes(Stream(r.delivered[..r.read])) + Consumed(r)
    && (r.enforce ==> r.taken == Stream(r.delivered[..r.read]) + Marked(Consumed(r), r.signals))
  }

  lemma {:induction false} FetchKeeps(r: Receiver)
    requires ReceiverOk(r) && r.left == [] && !Waiting(r)
    ensures ReceiverOk(Fetch(r))
    decreases |r.delivered| - r.read
  {
    if r.read < |r.delivered| {
      assert IsComPacket(r.delivered[r.read]);
      if r.delivered[r.read].payloadType == PAYLOAD_TYPE_DATA {
        StartPacketKeeps(r);
      } else {
        TakeSignalsKeeps(r);
        hide ReceiverOk;
        if !Waiting(TakeSignals(r)) { FetchKeeps(TakeSignals(r)); }
      }
    }
  }

  // Packets of signals with nothing new in them.
  ghost predicate Redundant(r: Receiver, from: nat, to: nat)
    requires to <= |r.delivered| && AreComPackets(r.delivered)
  {
    forall k | from <= k < to ::
      r.delivered[k].payloadType == PAYLOAD_TYPE_CONTROL_SIGNALS && (r.enforce ==> r.delivered[k].payload == [r.reported])
  }

  /** `r'` has found bytes, or there is nothing left to look at, or the reader has to be told
      new signals first; nothing but signals has been passed over, and if the reader is to
      be told of them, only the last are new. */
  ghost predicate Found(r: Receiver, r': Receiver) {
    && AreComPackets(r.delivered) && r.read <= r'.read <= |r.delivered|
    && r' == r.(read := r'.read, left := r'.left, signals := r'.signals)
    && (if r'.left == [] then Waiting(r') || r'.read == |r.delivered|
        else !Waiting(r') && r'.read < |r.delivered| && r'.left == r.delivered[r'.read].payload
             && r.delivered[r'.read].payloadType == PAYLOAD_TYPE_DATA)
    && (if Waiting(r') then r'.read > r.read && Redundant(r, r.read, r'.read - 1) && BringsSignals(r, r'.read - 1, r'.signals)
        else Redundant(r, r.read, r'.read))
  }

  predicate BringsSignals(r: Receiver, k: nat, signals: bv8) {
    k < |r.delivered| && r.delivered[k].payloadType == PAYLOAD_TYPE_CONTROL_SIGNALS && r.delivered[k].payload == [signals]
  }

  lemma {:induction false} FetchFinds(r: Receiver)
    requires AreComPackets(r.delivered) && r.read <= |r.delivered| && r.left == [] && !Waiting(r)
    ensures Found(r, Fetch(r))
    decreases |r.delivered| - r.read
  {
    if r.read < |r.delivered| {
      assert IsComPacket(r.delivered[r.read]);
      if r.delivered[r.read].payloadType != PAYLOAD_TYPE_DATA {
        var r1 := TakeSignals(r);
        hide AreComPackets, Found;
        if Waiting(r1) {
          FoundAtOnce(r);
        } else {
          FetchFinds(r1);
          FoundLater(r, Fetch(r1));
        }
      }
    }
  }

  lemma FoundAtOnce(r: Receiver)
    requires AreComPackets(r.delivered) && r.read < |r.delivered| && r.left == []
    requires r.delivered[r.read].payloadType != PAYLOAD_TYPE_DATA && r.delivered[r.read].payload != []
    requires Waiting(TakeSignals(r))
    ensures Found(r, TakeSignals(r))
  {
    assert IsComPacket(r.delivered[r.read]);
    hide IsComPacket;
  }

  lemma FoundLater(r: Receiver, r': Receiver)
    requires AreComPackets(r.delivered) && r.read < |r.delivered| && r.left == [] && !Waiting(r)
    requires r.delivered[r.read].payloadType != PAYLOAD_TYPE_DATA && r.delivered[r.read].payload != []
    requires !Waiting(TakeSignals(r)) && Found(TakeSignals(r), r')
    ensures Found(r, r')
  {
    assert IsComPacket(r.delivered[r.read]);
    hide AreComPackets;
    var r1 := TakeSignals(r);
    assert Redundant(r1, r1.read, if Waiting(r') then r'.read - 1 else r'.read);
    hide IsComPacket;
  }

  /** There is nothing to read exactly if new signals must be reported first or every packet
      has been read. */
  lemma NothingToReadIff(r: Receiver)
    requires ReceiverOk(r)
    ensures var r' := ReceiveMore(r);
      && (r'.left == [] <==> Waiting(r') || r'.read == |r'.delivered|)
      && r'.taken == r.taken && r'.reported == r.reported && r.read <= r'.read <= |r.delivered|
      && (r.left != [] || Waiting(r) ==> r' == r)
      && Stream(r.delivered[..r'.read]) == Stream(r.delivered[..r.read])
  {
    if r.left == [] && !Waiting(r) {
      FetchFinds(r);
      OnlySignals(r, Fetch(r).read);
    }
    hide Fetch, Stream;
  }

  lemma {:induction false} OnlySignals(r: Receiver, to: nat)
    requires r.read <= to <= |r.delivered| && AreComPackets(r.delivered)
    requires forall k | r.read <= k < to :: r.delivered[k].payloadType == PAYLOAD_TYPE_CONTROL_SIGNALS
    ensures Stream(r.delivered[..to]) == Stream(r.delivered[..r.read])
  {
    if to > r.read {
      OnlySignals(r, to - 1);
      StreamOneMore(r.delivered[..to - 1], r.delivered[to - 1]);
      assert r.delivered[..to - 1] + [r.delivered[to - 1]] == r.delivered[..to];
    }
  }

  /** A report tells the reader the signals in force, and nothing more is held back. */
  lemma ReportTells(r: Receiver)
    requires ReceiverOk(r)
    ensures var r' := Report(r); r'.reported == r'.signals == ReceiveMore(r).signals && !Waiting(r') && r'.taken == r.taken
  {
    NothingToReadIff(r);
    hide ReceiveMore;
  }

  lemma StartPacketKeeps(r: Receiver)
    requires ReceiverOk(r) && r.left == [] && !Waiting(r) && r.read < |r.delivered|
    requires r.delivered[r.read].payloadType == PAYLOAD_TYPE_DATA
    ensures ReceiverOk(StartPacket(r))
  {
  }

  lemma TakeSignalsKeeps(r: Receiver)
    requires ReceiverOk(r) && r.left == [] && r.read < |r.delivered|
    requires r.delivered[r.read].payloadType == PAYLOAD_TYPE_CONTROL_SIGNALS
    ensures r.delivered[r.read].payload != [] && ReceiverOk(TakeSignals(r))
  {
    var p := r.delivered[r.read];
    assert IsComPacket(p);
    StreamOneMore(r.delivered[..r.read], p);
    assert r.delivered[..r.read] + [p] == r.delivered[..r.read + 1];
    hide Stream, SignalsAfter, Bytes;
  }

  lemma BytesOf(marks: seq<Mark>, bytes: seq<bv8>, signals: bv8)
    ensures Bytes(marks + Marked(bytes, signals)) == Bytes(marks) + bytes
  {
  }

  lemma MarkedOneMore(bytes: seq<bv8>, b: bv8, signals: bv8)
    ensures Marked(bytes + [b], signals) == Marked(bytes, signals) + [Mark(b, signals)]
  {
  }

  lemma TakeByteKeeps(r: Receiver)
    requires ReceiverOk(r) && r.left != []
    ensures ReceiverOk(TakeByte(r))
  {
    hide Marked, Bytes, Stream, SignalsAfter;
    var p, r', b := r.delivered[r.read], TakeByte(r), r.left[0];
    var before := Stream(r.delivered[..r.read]);
    OneMarked(b, r.reported);
    BytesOf(r.taken, [b], r.reported);
    MarkedOneMore(Consumed(r), b, r.signals);
    assert p.payload == Consumed(r) + [b] + r.left[1..];
    assert r'.taken == r.taken + Marked([b], r.reported);
    if |r.left| == 1 {
      StreamOneMore(r.delivered[..r.read], p);
      assert r.delivered[..r.read] + [p] == r.delivered[..r'.read];
      BytesOf(before, p.payload, r.signals);
      NothingMarked(r.signals);
      assert p.payload == Consumed(r) + [b];
    } else {
      assert Consumed(r') == Consumed(r) + [b];
    }
  }

  lemma OneMarked(b: bv8, signals: bv8)
    ensures Marked([b], signals) == [Mark(b, signals)]
  {
  }

  lemma NothingMarked(signals: bv8)
    ensures Marked([], signals) == []
  {
  }

  lemma ReportKeeps(r: Receiver)
    requires ReceiverOk(r)
    ensures ReceiverOk(Report(r))
  {
    if r.left == [] && !Waiting(r) { FetchKeeps(r); }
  }

  // More packets arriving disturb nothing.
  lemma ArrivalKeeps(r: Receiver, more: seq<Packet>)
    requires ReceiverOk(r) && AreComPackets(more)
    ensures ReceiverOk(r.(delivered := r.delivered + more))
  {
    assert (r.delivered + more)[..r.read] == r.delivered[..r.read];
  }

  /** Sender, link and receiver together: the bytes read are a prefix of the bytes
      written; and if the reader enforces ordering, the signals last reported to it
      when it reads a byte are the sender's signals when that byte was written. */
  lemma ReadsFollowWrites(s: Sender, r: Receiver)
    requires InOrder(s) && ReceiverOk(r) && Stream(r.delivered) <= Stream(s.sent)
    ensures Bytes(r.taken) <= Bytes(s.written)
    ensures r.enforce ==> r.taken <= s.written
  {
    hide Stream, SignalsAfter, Marked, Bytes, IsComPacket;
    var before := r.delivered[..r.read];
    StreamOfPrefix(before, r.delivered);
    if r.left != [] {
      var p := r.delivered[r.read];
      StreamOneMore(before, p);
      assert before + [p] == r.delivered[..r.read + 1];
      StreamOfPrefix(before + [p], r.delivered);
      MarkedPrefix(Consumed(r), p.payload, r.signals);
      BytesOfPrefix(Stream(before) + Marked(Consumed(r), r.signals), s.written);
    } else {
      NothingMarked(r.signals);
      BytesOfPrefix(Stream(before), s.written);
    }
    BytesOf(Stream(before), Consumed(r), r.signals);
  }

  lemma MarkedPrefix(a: seq<bv8>, b: seq<bv8>, signals: bv8)
    requires a <= b
    ensures Marked(a, signals) <= Marked(b, signals)
  {
  }

  lemma BytesOfPrefix(a: seq<Mark>, b: seq<Mark>)
    requires a <= b
    ensures Bytes(a) <= Bytes(b)
  {
  }

  // ---------- a repeated first packet ----------

  function Repeat(p: Packet, k: nat): seq<Packet> { seq(k, _ => p) }

  lemma {:induction false} StreamOfRepeat(p: Packet, k: nat)
    requires IsComPacket(p) && k > 0
    ensures AreComPackets(Repeat(p, k)) && SignalsAfter(Repeat(p, k)) == SignalsAfter([p])
    ensures if k > 1 && p.payloadType == PAYLOAD_TYPE_DATA then |Stream(Repeat(p, k))| > |Stream([p])|
            else Stream(Repeat(p, k)) == Stream([p])
  {
    StreamOneMore([], p);
    assert [] + [p] == [p];
    RepeatOneMore(p, k);
    MarkedLength(p.payload, SignalsAfter([p]));
    assert p.payload != [] && (p.payloadType == PAYLOAD_TYPE_DATA || p.payloadType == PAYLOAD_TYPE_CONTROL_SIGNALS);
    hide Stream, SignalsAfter, Marked, AreComPackets, IsComPacket, Repeat;
    if k > 1 {
      StreamOfRepeat(p, k - 1);
      StreamOneMore(Repeat(p, k - 1), p);
    }
  }

  lemma RepeatOneMore(p: Packet, k: nat)
    requires k > 0
    ensures if k == 1 then Repeat(p, k) == [p] else Repeat(p, k) == Repeat(p, k - 1) + [p]
  {
  }

  lemma MarkedLength(bytes: seq<bv8>, signals: bv8)
    ensures |Marked(bytes, signals)| == |bytes|
  {
  }

  // The same packets after two beginnings.
  lemma {:induction false} StreamOfSameTail(a: seq<Packet>, b: seq<Packet>, tail: seq<Packet>)
    requires AreComPackets(a) && AreComPackets(b) && AreComPackets(tail) && SignalsAfter(a) == SignalsAfter(b)
    ensures SignalsAfter(a + tail) == SignalsAfter(b + tail)
    ensures |Stream(a + tail)| - |Stream(b + tail)| == |Stream(a)| - |Stream(b)|
    ensures Stream(a) == Stream(b) ==> Stream(a + tail) == Stream(b + tail)
    decreases |tail|
  {
    hide Stream, SignalsAfter, Marked, IsComPacket;
    if tail == [] {
      assert a + tail == a && b + tail == b;
    } else {
      var rest, p := tail[..|tail| - 1], tail[|tail| - 1];
      StreamOfSameTail(a, b, rest);
      StreamOneMore(a + rest, p);
      StreamOneMore(b + rest, p);
      assert a + tail == a + rest + [p] && b + tail == b + rest + [p];
    }
  }

  /** A first packet that is delivered several times leaves the stream as it was if and
      only if it carries control signals and not bytes. */
  lemma RepeatedFirstPacket(log: seq<Packet>, sent: seq<Packet>, reached: nat)
    requires RadioNetwork.FirstRepeated(log, sent, reached) && AreComPackets(sent) && reached > 0
    ensures AreComPackets(log) && AreComPackets(sent[..reached])
    ensures Stream(log) == Stream(sent[..reached])
      <==> |log| == reached || sent[0].payloadType == PAYLOAD_TYPE_CONTROL_SIGNALS
  {
    hide Stream, SignalsAfter;
    var k := |log| - reached + 1;
    assert log[..k] == Repeat(sent[0], k);
    assert log == log[..k] + log[k..] && sent[..reached] == [sent[0]] + sent[1..reached];
    StreamOfRepeat(sent[0], k);
    StreamOfSameTail(Repeat(sent[0], k), [sent[0]], sent[1..reached]);
  }
}
