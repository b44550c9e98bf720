/** radio_link: the packet rings, the main loop's functions and the event handler,
    each proved against RadioSpec. */
module RadioLink {
  import opened RadioSpec
  import opened RadioFraming
  import RM = RadioMac

  const TX_ROW_SIZE := 1 + MAX_PACKET_SIZE
  const RX_ROW_SIZE := 1 + MAX_PACKET_SIZE + 2

  type uint8 = x: int | 0 <= x < 256

  class RadioLink {
    const mac: RM.RadioMac

    const rxPacket: array<Bytes>
    var rxMainLoopIndex: nat
    var rxInterruptIndex: nat

    const txPacket: array<Bytes>
    var txMainLoopIndex: nat
    var txInterruptIndex: nat

    const shortTxPacket: array<bv8>
    var txCurrentPacketTries: uint8
    var sendingReset: bool
    var acceptAnySequenceBit: bool
    var resetPacketReceived: bool
    var rxSequenceBit: bool
    var txSequenceBit: bool
    var activityOccurred: bool

    // All packets ever queued and ever accepted, and how many of them are released.
    ghost var sent: seq<Packet>
    ghost var acked: nat
    ghost var delivered: seq<Packet>
    ghost var read: nat
    ghost var strobeDue: bool
    ghost var sentEarly: bool

    // ---------- representation ----------

    ghost predicate Shape()
      reads txPacket, rxPacket
    {
      && txPacket != rxPacket
      && txPacket.Length == TX_PACKET_COUNT && rxPacket.Length == RX_PACKET_COUNT && shortTxPacket.Length == 2
      && (forall i | 0 <= i < TX_PACKET_COUNT :: |txPacket[i]| == TX_ROW_SIZE)
      && (forall i | 0 <= i < RX_PACKET_COUNT :: |rxPacket[i]| == RX_ROW_SIZE)
    }

    /** The slots from the interrupt index up to the main loop index hold the packets
        not yet acknowledged; at least one slot is always left to the main loop. */
    ghost predicate TxRing()
      reads this`acked, this`sent, this`txInterruptIndex, this`txMainLoopIndex, txPacket
      requires txPacket.Length == TX_PACKET_COUNT
    {
      && acked <= |sent| < acked + TX_PACKET_COUNT
      && txInterruptIndex == acked % TX_PACKET_COUNT
      && txMainLoopIndex == |sent| % TX_PACKET_COUNT
      && (forall i | acked <= i < |sent| :: Stored(txPacket[i % TX_PACKET_COUNT], sent[i]))
    }

    /** The slots from the main loop index up to the interrupt index hold the packets
        accepted but not yet read; at least one slot is always left to the radio. */
    ghost predicate RxRing()
      reads this`read, this`delivered, this`rxMainLoopIndex, this`rxInterruptIndex, rxPacket
      requires rxPacket.Length == RX_PACKET_COUNT
    {
      && read <= |delivered| < read + RX_PACKET_COUNT
      && rxMainLoopIndex == read % RX_PACKET_COUNT
      && rxInterruptIndex == |delivered| % RX_PACKET_COUNT
      && (forall i | read <= i < |delivered| :: Unpacked(rxPacket[i % RX_PACKET_COUNT], delivered[i]))
    }

    /** The radio receives into the slot at the interrupt index and sends from the
        packet whose turn it is, or from the short packet. */
    ghost predicate MacOk()
      reads this`rxInterruptIndex, this`txInterruptIndex, this`acked, this`sent
      reads mac`state, mac`packet, txPacket, shortTxPacket
      requires txPacket.Length == TX_PACKET_COUNT && shortTxPacket.Length == 2
    {
      && (mac.state == RM.RX ==> mac.packet == RM.RxSlot(rxInterruptIndex))
      && (mac.state == RM.TX ==>
            || (mac.packet == RM.TxSlot(txInterruptIndex) && acked < |sent|
                && txInterruptIndex < TX_PACKET_COUNT && IsFrame(txPacket[txInterruptIndex]))
            || (mac.packet == RM.ShortPacket && IsFrame(shortTxPacket[..])))
    }

    ghost predicate Valid()
      reads this`acked, this`sent, this`txInterruptIndex, this`txMainLoopIndex
      reads this`read, this`delivered, this`rxMainLoopIndex, this`rxInterruptIndex
      reads mac`state, mac`packet, txPacket, rxPacket, shortTxPacket
    {
      Shape() && TxRing() && RxRing() && MacOk()
    }

    ghost function Radio(): Mac
      reads this`acked, this`sent, this`txInterruptIndex, this`txMainLoopIndex
      reads this`read, this`delivered, this`rxMainLoopIndex, this`rxInterruptIndex
      reads mac`state, mac`packet, mac`timeout, txPacket, rxPacket, shortTxPacket
      requires Valid()
    {
      match mac.state
      case RX => Listening(mac.timeout)
      case TX => Sending(FrameOf(if mac.packet.TxSlot? then txPacket[mac.packet.index] else shortTxPacket[..]))
      case _ => Off
    }

    ghost function Tx(): Outbound
      reads this
    {
      Outbound(sent, acked, txSequenceBit, sendingReset)
    }

    ghost function Rx(): Inbound
      reads this
    {
      Inbound(delivered, read, rxSequenceBit, acceptAnySequenceBit)
    }

    ghost function State(): Node
      reads this, mac, txPacket, rxPacket, shortTxPacket
      requires Valid()
    {
      Node(Tx(), Rx(), Radio(), txCurrentPacketTries, mac.strobe, resetPacketReceived, activityOccurred,
           strobeDue, sentEarly)
    }

    // ---------- start-up ----------

    constructor Init()
      ensures Valid() && State() == INITIAL
      ensures fresh(mac) && fresh(txPacket) && fresh(rxPacket) && fresh(shortTxPacket)
    {
      rxSequenceBit, txSequenceBit := true, false;
      acceptAnySequenceBit := true;
      sendingReset := true;
      rxMainLoopIndex, rxInterruptIndex, txMainLoopIndex, txInterruptIndex := 0, 0, 0, 0;
      txCurrentPacketTries := 0;
      resetPacketReceived, activityOccurred := false, false;
      sent, acked, delivered, read, strobeDue, sentEarly := [], 0, [], 0, false, false;
      txPacket := new Bytes[TX_PACKET_COUNT](_ => seq(TX_ROW_SIZE, _ => 0));
      rxPacket := new Bytes[RX_PACKET_COUNT](_ => seq(RX_ROW_SIZE, _ => 0));
      shortTxPacket := new bv8[2](_ => 0);
      mac := new RM.RadioMac();
      new;
      mac.Strobe();
    }

    // ---------- main loop, sending ----------

    method TxAvailable() returns (free: nat)
      requires Valid()
      ensures free == TX_PACKET_COUNT - 1 - (|sent| - acked)
      ensures free > 0 <==> Tx().Room()
    {
      Wraps(|sent|, acked);
      hide RxRing, MacOk, Shape;
      free := (txInterruptIndex - txMainLoopIndex - 1) % TX_PACKET_COUNT;
    }

    method TxQueued() returns (queued: nat)
      requires Valid()
      ensures queued == |sent| - acked
    {
      Wraps(|sent|, acked);
      hide RxRing, MacOk, Shape;
      queued := (txMainLoopIndex - txInterruptIndex) % TX_PACKET_COUNT;
    }

    /** The slot the main loop may fill, if there is one. */
    method TxCurrentPacket() returns (slot: RM.Buffer)
      requires Valid()
      ensures slot == if Tx().Room() then RM.TxSlot(txMainLoopIndex) else RM.NoBuffer
    {
      var free := TxAvailable();
      slot := if free == 0 then RM.NoBuffer else RM.TxSlot(txMainLoopIndex);
    }

    lemma FreeSlotApart()
      requires Valid() && Tx().Room()
      ensures txMainLoopIndex < TX_PACKET_COUNT
      ensures forall i | acked <= i < |sent| :: i % TX_PACKET_COUNT != txMainLoopIndex
      ensures acked < |sent| ==> txInterruptIndex != txMainLoopIndex
    {
      forall i | acked <= i < |sent| ensures i % TX_PACKET_COUNT != txMainLoopIndex {
        Wraps(|sent|, i);
      }
    }

    // Changing the slot the main loop is filling disturbs nothing else.
    method ReplaceRow(row: Bytes)
      requires Valid() && Tx().Room() && |row| == TX_ROW_SIZE
      modifies txPacket
      ensures Valid() && State() == old(State()) && txPacket[txMainLoopIndex] == row
    {
      FreeSlotApart();
      hide RxRing, Stored, IsFrame, FrameOf;
      txPacket[txMainLoopIndex] := row;
    }

    /** Filling the current packet, one byte at a time, disturbs nothing that is
        queued or being sent. */
    method TxWrite(offset: nat, value: bv8)
      requires Valid() && Tx().Room() && offset <= RADIO_LINK_PAYLOAD_SIZE
      modifies txPacket
      ensures Valid() && State() == old(State())
      ensures txPacket[txMainLoopIndex] == old(txPacket[txMainLoopIndex])[HEADER_LENGTH + offset := value]
    {
      FreeSlotApart();
      ReplaceRow(txPacket[txMainLoopIndex][HEADER_LENGTH + offset := value]);
    }

    /** The packet the main loop has composed in its current slot. */
    ghost function Composed(payloadType: bv8): Packet
      reads this, txPacket, rxPacket
      requires Shape() && txMainLoopIndex < TX_PACKET_COUNT
      requires txPacket[txMainLoopIndex][HEADER_LENGTH] as nat <= RADIO_LINK_PAYLOAD_SIZE
    {
      var row := txPacket[txMainLoopIndex];
      Packet(payloadType, row[2..2 + row[HEADER_LENGTH] as nat])
    }

    // radioLinkTxSendPacket, first part: length and header of the composed packet.
    method TxFrame(payloadType: bv8)
      requires Valid() && Tx().Room() && payloadType as nat <= RADIO_LINK_MAX_PAYLOAD_TYPE
      requires txPacket[txMainLoopIndex][HEADER_LENGTH] as nat <= RADIO_LINK_PAYLOAD_SIZE
      modifies txPacket
      ensures Valid() && State() == old(State())
      ensures Stored(txPacket[txMainLoopIndex], old(Composed(payloadType)))
    {
      var row := txPacket[txMainLoopIndex];
      ComposedIsStored(row, payloadType);
      FreeSlotApart();
      hide TxRing, RxRing, MacOk, Stored;
      row := row[0 := row[HEADER_LENGTH] + 1];
      row := row[1 := payloadType << 1];
      ReplaceRow(row);
    }

    // Second part: handing the slot over to the interrupt.
    method TxAdvance(ghost p: Packet)
      requires Valid() && Tx().Room() && Stored(txPacket[txMainLoopIndex], p)
      modifies this`txMainLoopIndex, this`sent, this`strobeDue
      ensures Valid() && State() == Queue(old(State()), p)
    {
      hide Stored, IsFrame, FrameOf, RxRing, Shape;
      NextTxSlot(|sent|);
      if txMainLoopIndex == TX_PACKET_COUNT - 1 {
        txMainLoopIndex := 0;
      } else {
        txMainLoopIndex := txMainLoopIndex + 1;
      }
      sent, strobeDue := sent + [p], true;
    }

    method Strobe()
      requires Valid()
      modifies this`strobeDue, mac`strobe
      ensures Valid() && State() == CallStrobe(old(State()))
    {
      mac.Strobe();
      strobeDue := false;
    }

    /** Queues the composed packet and makes sure the event handler runs. */
    method TxSendPacket(payloadType: bv8)
      requires Valid() && Tx().Room() && payloadType as nat <= RADIO_LINK_MAX_PAYLOAD_TYPE
      requires txPacket[txMainLoopIndex][HEADER_LENGTH] as nat <= RADIO_LINK_PAYLOAD_SIZE
      modifies this`txMainLoopIndex, this`sent, this`strobeDue, mac`strobe, txPacket
      ensures Valid() && State() == CallStrobe(Queue(old(State()), old(Composed(payloadType))))
      ensures sent == old(sent) + [old(Composed(payloadType))]
    {
      ghost var p := Composed(payloadType);
      TxFrame(payloadType);
      TxAdvance(p);
      Strobe();
    }

    /** The higher-level code takes note of a received reset packet. */
    method ClearResetPacketReceived()
      requires Valid()
      modifies this`resetPacketReceived
      ensures Valid() && State() == old(State()).(resetReceived := false)
    {
      resetPacketReceived := false;
    }

    // ---------- main loop, receiving ----------

    method RxCurrentPacket() returns (slot: RM.Buffer)
      requires Valid()
      ensures slot == if read < |delivered| then RM.RxSlot(rxMainLoopIndex) else RM.NoBuffer
      ensures slot.RxSlot? ==> Unpacked(rxPacket[slot.index], delivered[read])
    {
      slot := if rxMainLoopIndex == rxInterruptIndex then RM.NoBuffer else RM.RxSlot(rxMainLoopIndex);
    }

    method RxCurrentPayloadType() returns (payloadType: bv8)
      requires Valid() && read < |delivered|
      ensures payloadType == delivered[read].payloadType
    {
      payloadType := rxPacket[rxMainLoopIndex][0];
    }

    method RxDoneWithPacket()
      requires Valid() && read < |delivered|
      modifies this`rxMainLoopIndex, this`read
      ensures Valid() && State() == Release(old(State()))
    {
      if rxMainLoopIndex == RX_PACKET_COUNT - 1 {
        rxMainLoopIndex := 0;
      } else {
        rxMainLoopIndex := rxMainLoopIndex + 1;
      }
      read := read + 1;
    }
  
    // ---------- interrupt ----------

    ghost predicate Rings()
      reads this`acked, this`sent, this`txInterruptIndex, this`txMainLoopIndex
      reads this`read, this`delivered, this`rxMainLoopIndex, this`rxInterruptIndex
      reads txPacket, rxPacket
    {
      Shape() && TxRing() && RxRing()
    }

    // The state while the handler is still deciding what the radio does next.
    ghost function Deciding(): Node
      reads this, mac
    {
      Node(Tx(), Rx(), Off, txCurrentPacketTries, mac.strobe, resetPacketReceived, activityOccurred,
           strobeDue, sentEarly)
    }

    /** What the main loop owns is left alone: the slot it may be filling and the
        received packets it has not released. */
    twostate predicate MainLoopSlotsKept()
      reads this, txPacket, rxPacket
      requires old(Rings()) && Rings()
    {
      && txMainLoopIndex == old(txMainLoopIndex) && rxMainLoopIndex == old(rxMainLoopIndex)
      && read == old(read) && old(delivered) <= delivered
      && txPacket[txMainLoopIndex] == old(txPacket[txMainLoopIndex])
      && (forall i | read <= i < old(|delivered|) ::
            rxPacket[i % RX_PACKET_COUNT] == old(rxPacket[i % RX_PACKET_COUNT]))
    }

    method CountTry()
      modifies this`txCurrentPacketTries
      ensures txCurrentPacketTries == Bump(old(txCurrentPacketTries))
    {
      if txCurrentPacketTries < 255 {
        txCurrentPacketTries := txCurrentPacketTries + 1;
      }
    }

    method TxShortPacket(kind: Kind)
      requires Rings()
      modifies mac`state, mac`packet, shortTxPacket
      ensures Valid() && State() == TxShort(old(Deciding()), kind)
    {
      shortTxPacket[0] := 1;
      shortTxPacket[1] := KindBits(kind);
      mac.Tx(RM.ShortPacket);
      assert shortTxPacket[..] == [1, KindBits(kind)];
      ShortFrame(kind);
    }

    method TxResetPacket()
      requires Rings()
      modifies this`txCurrentPacketTries, mac`state, mac`packet, shortTxPacket
      ensures Valid()
      ensures State() == TxShort(old(Deciding()), Reset).(tries := Bump(old(txCurrentPacketTries)))
    {
      TxShortPacket(Reset);
      CountTry();
    }

    // Writes this transmission's header over the one in the slot.
    method StampHeader(kind: Kind)
      requires Rings() && acked < |sent|
      modifies txPacket
      ensures Rings() && MainLoopSlotsKept()
      ensures IsFrame(txPacket[txInterruptIndex])
      ensures FrameOf(txPacket[txInterruptIndex]) == Frame(kind, txSequenceBit, sent[acked])
    {
      var row := txPacket[txInterruptIndex];
      StampKeepsPacket(row, sent[acked], kind, txSequenceBit);
      txPacket[txInterruptIndex] := row[1 := Header(row[1], kind, txSequenceBit)];
    }

    // Starts sending the packet at the head of the queue.
    method SendSlot(kind: Kind)
      requires Rings() && acked < |sent|
      modifies mac`state, mac`packet, txPacket
      ensures Valid() && Radio() == Sending(Frame(kind, txSequenceBit, sent[acked])) && mac.strobe == old(mac.strobe)
      ensures MainLoopSlotsKept()
    {
      StampHeader(kind);
      Bounded();
      hide TxRing, RxRing, IsFrame;
      mac.Tx(RM.TxSlot(txInterruptIndex));
    }

    method TxDataPacket(kind: Kind)
      requires Rings() && acked < |sent|
      modifies this`txCurrentPacketTries, this`sentEarly, mac`state, mac`packet, txPacket
      ensures Valid() && State() == TxData(old(Deciding()), kind) && MainLoopSlotsKept()
    {
      hide TxRing, RxRing, MacOk, Radio, FrameOf, IsFrame;
      sentEarly := sentEarly || (sendingReset && sent[acked].payload != []);
      SendSlot(kind);
      CountTry();
    }

    method TakeInitiative()
      requires Rings()
      modifies this`txCurrentPacketTries, this`sentEarly, this`activityOccurred
      modifies mac`state, mac`packet, mac`timeout, txPacket, shortTxPacket
      ensures Valid() && State() == RadioSpec.TakeInitiative(old(Deciding())) && MainLoopSlotsKept()
    {
      Bounded();
      hide TxRing, RxRing, Stored, Unpacked, IsFrame, FrameOf, Radio, MacOk;
      if sendingReset {
        TxResetPacket();
        activityOccurred := true;
      } else if txInterruptIndex != txMainLoopIndex {
        TxDataPacket(Ping);
        activityOccurred := true;
      } else {
        mac.Rx(RM.RxSlot(rxInterruptIndex), 0);
      }
    }

    // Hands the slot at the interrupt index back to the main loop.
    method TxRelease()
      requires Rings() && acked < |sent|
      modifies this`txInterruptIndex, this`acked
      ensures Rings() && acked == old(acked) + 1
    {
      Bounded();
      hide RxRing, Stored, Shape, Unpacked, IsFrame;
      assert (acked + 1) % TX_PACKET_COUNT == if txInterruptIndex == TX_PACKET_COUNT - 1 then 0 else txInterruptIndex + 1;
      if txInterruptIndex == TX_PACKET_COUNT - 1 {
        txInterruptIndex := 0;
      } else {
        txInterruptIndex := txInterruptIndex + 1;
      }
      acked := acked + 1;
    }

    // An ACK was received: the reset handshake is over, or the current packet is done.
    method HandleAck()
      requires Rings()
      modifies this`sendingReset, this`txCurrentPacketTries, this`txSequenceBit, this`txInterruptIndex, this`acked
      ensures Rings() && Deciding() == OnAck(old(Deciding()))
    {
      Bounded();
      hide TxRing, RxRing;
      if sendingReset {
        sendingReset := false;
        txCurrentPacketTries := 0;
        txSequenceBit := false;
      } else if txInterruptIndex != txMainLoopIndex {
        TxRelease();
        txCurrentPacketTries := 0;
        txSequenceBit := !txSequenceBit;
      }
    }

    lemma ReceiveSlotApart()
      requires Rings()
      ensures rxInterruptIndex < RX_PACKET_COUNT
      ensures forall i | read <= i < |delivered| :: i % RX_PACKET_COUNT != rxInterruptIndex
    {
      forall i | read <= i < |delivered| ensures i % RX_PACKET_COUNT != rxInterruptIndex {
        Apart(|delivered|, i);
      }
    }

    // Rewrites a received frame in place into what the main loop reads.
    method UnpackInPlace()
      requires Rings() && IsFrame(rxPacket[rxInterruptIndex])
      modifies rxPacket
      ensures Rings() && MainLoopSlotsKept()
      ensures Unpacked(rxPacket[rxInterruptIndex], old(FrameOf(rxPacket[rxInterruptIndex])).packet)
    {
      ReceiveSlotApart();
      hide TxRing, MacOk, FrameOf;
      var current := rxPacket[rxInterruptIndex];
      UnpackRecovers(current);
      hide Unpacked;
      var payloadType := (current[1] & PAYLOAD_TYPE_MASK) >> 1;
      current := current[HEADER_LENGTH := current[0] - 1];
      rxPacket[rxInterruptIndex] := current[0 := payloadType];
    }

    // Hands the slot at the interrupt index over to the main loop.
    method RxAdvance(ghost p: Packet)
      requires Rings() && Rx().Room() && Unpacked(rxPacket[rxInterruptIndex], p)
      modifies this`rxInterruptIndex, this`delivered
      ensures Rings() && delivered == old(delivered) + [p]
    {
      hide TxRing, Shape, Unpacked;
      NextSlot(|delivered|);
      rxInterruptIndex := if rxInterruptIndex == RX_PACKET_COUNT - 1 then 0 else rxInterruptIndex + 1;
      delivered := delivered + [p];
    }

    // Data was received: hands it to the main loop if it is new and there is room.
    method AcceptData() returns (responsePacketType: Kind)
      requires Rings() && IsFrame(rxPacket[rxInterruptIndex])
      modifies this`rxSequenceBit, this`acceptAnySequenceBit, this`rxInterruptIndex, this`delivered, rxPacket
      ensures Rings() && MainLoopSlotsKept()
      ensures responsePacketType == Response(old(Rx()), old(FrameOf(rxPacket[rxInterruptIndex])))
      ensures Rx() == Accept(old(Rx()), old(FrameOf(rxPacket[rxInterruptIndex])))
    {
      hide TxRing, Stored, Unpacked, IsFrame;
      responsePacketType := Ack;
      ghost var frame := FrameOf(rxPacket[rxInterruptIndex]);
      var sequenceBit := rxPacket[rxInterruptIndex][1] & 1 == 1;
      if acceptAnySequenceBit || rxSequenceBit != sequenceBit {
        var nextRxInterruptIndex := if rxInterruptIndex == RX_PACKET_COUNT - 1 then 0 else rxInterruptIndex + 1;
        if nextRxInterruptIndex != rxMainLoopIndex {
          rxSequenceBit := sequenceBit;
          acceptAnySequenceBit := false;
          UnpackInPlace();
          RxAdvance(frame.packet);
        } else {
          responsePacketType := Nak;
        }
      }
    }

    lemma Bounded()
      requires Rings()
      ensures rxPacket.Length == RX_PACKET_COUNT && txPacket.Length == TX_PACKET_COUNT
      ensures txInterruptIndex < TX_PACKET_COUNT
      ensures rxInterruptIndex < RX_PACKET_COUNT && txMainLoopIndex < TX_PACKET_COUNT && (txInterruptIndex != txMainLoopIndex <==> acked < |sent|)
    {
    }

    // Sends an ACK or NAK, with data if some is queued.
    method Respond(responsePacketType: Kind)
      requires Rings()
      modifies this`txCurrentPacketTries, this`sentEarly, this`activityOccurred
      modifies mac`state, mac`packet, txPacket, shortTxPacket
      ensures Valid() && State() == RadioSpec.Respond(old(Deciding()), responsePacketType) && MainLoopSlotsKept()
    {
      Bounded();
      hide TxRing, RxRing, Stored, Unpacked, IsFrame, FrameOf, Radio, MacOk;
      if txInterruptIndex != txMainLoopIndex {
        TxDataPacket(responsePacketType);
      } else {
        TxShortPacket(responsePacketType);
      }
      activityOccurred := true;
    }

    method HandleReset()
      requires Rings()
      modifies this`rxSequenceBit, this`resetPacketReceived, this`activityOccurred
      modifies mac`state, mac`packet, shortTxPacket
      ensures Valid() && MainLoopSlotsKept()
      ensures State() == TxShort(old(Deciding()), Ack).(rx := old(Rx()).(bit := true),
                                                       resetReceived := true, activity := true)
    {
      hide TxRing, RxRing, Stored, Unpacked, IsFrame, FrameOf, Radio, MacOk;
      rxSequenceBit := true;
      resetPacketReceived := true;
      TxShortPacket(Ack);
      activityOccurred := true;
    }

    // Data was received: takes it in or not, and answers.
    method AnswerData()
      requires Rings() && IsFrame(rxPacket[rxInterruptIndex])
      modifies this, mac`state, mac`packet, txPacket, rxPacket, shortTxPacket
      ensures Valid() && MainLoopSlotsKept()
      ensures var n, f := old(Deciding()), old(FrameOf(rxPacket[rxInterruptIndex]));
        State() == RadioSpec.Respond(n.(rx := Accept(n.rx, f)), Response(n.rx, f))
    {
      hide TxRing, RxRing, Stored, Unpacked, FrameOf, Accept, Response, RadioSpec.Respond, MacOk, Radio;
      var responsePacketType := AcceptData();
      Respond(responsePacketType);
    }

    // The part of the event handler that deals with a packet that passed its CRC.
    method HandleFrame()
      requires Rings() && IsFrame(rxPacket[rxInterruptIndex])
      modifies this, mac`state, mac`packet, mac`timeout, txPacket, rxPacket, shortTxPacket
      ensures Valid() && MainLoopSlotsKept()
      ensures State() == OnFrame(old(Deciding()), old(FrameOf(rxPacket[rxInterruptIndex])))
    {
      hide TxRing, RxRing, Stored, Unpacked, KindOf, Accept, Response, RadioSpec.Respond, RadioSpec.TakeInitiative, OnAck, MacOk, Radio;
      assert rxInterruptIndex < RX_PACKET_COUNT by { Bounded(); }
      KindBitsTell(rxPacket[rxInterruptIndex][1]);
      var header, length := rxPacket[rxInterruptIndex][1], rxPacket[rxInterruptIndex][0];
      if header & PACKET_TYPE_MASK == KindBits(Reset) {
        HandleReset();
        return;
      }
      if header & PACKET_TYPE_MASK == KindBits(Ack) {
        HandleAck();
      }
      if length as nat > HEADER_LENGTH {
        AnswerData();
      } else {
        TakeInitiative();
      }
    }

    /** radioMacEventHandler. */
    method EventHandler(event: RM.Event, crcPassed: bool, random: nat)
      requires Rings() && (event.RxEvent? && crcPassed ==> IsFrame(rxPacket[rxInterruptIndex]))
      modifies this, mac`state, mac`packet, mac`timeout, txPacket, rxPacket, shortTxPacket
      ensures Valid() && MainLoopSlotsKept()
      ensures State().(strobe := false) == Handle(old(Deciding()), old(EventSeen(event, crcPassed)), random)
      ensures mac.strobe == old(mac.strobe)
    {
      hide TxRing, RxRing, Stored, Unpacked, OnFrame, RadioSpec.TakeInitiative;
      assert rxInterruptIndex < RX_PACKET_COUNT && (txInterruptIndex != txMainLoopIndex <==> acked < |sent|) by {
        Bounded();
      }
      match event
      case StrobeEvent =>
        TakeInitiative();
      case TxEvent =>
        mac.Rx(RM.RxSlot(rxInterruptIndex), RandomTxDelay(txCurrentPacketTries, random));
      case RxEvent =>
        if !crcPassed {
          mac.Rx(RM.RxSlot(rxInterruptIndex),
                 if txInterruptIndex != txMainLoopIndex then RandomTxDelay(txCurrentPacketTries, random) else 0);
        } else {
          HandleFrame();
        }
      case RxTimeoutEvent =>
        TakeInitiative();
    }

    // The protocol's name for an event of the radio.
    ghost function EventSeen(event: RM.Event, crcPassed: bool): Event
      reads this, rxPacket
      requires event.RxEvent? && crcPassed ==> rxInterruptIndex < rxPacket.Length && IsFrame(rxPacket[rxInterruptIndex])
    {
      match event
      case StrobeEvent => RadioSpec.Strobe
      case TxEvent => TxDone
      case RxEvent => if crcPassed then Received(FrameOf(rxPacket[rxInterruptIndex])) else CrcFailed
      case RxTimeoutEvent => RxTimeout
    }

    /** radioMacEvent: runs the event handler and clears the strobe bit. */
    method RadioMacEvent(event: RM.Event, crcPassed: bool, random: nat)
      requires Valid() && (event.RxEvent? && crcPassed ==> IsFrame(rxPacket[rxInterruptIndex]))
      modifies this, mac, txPacket, rxPacket, shortTxPacket
      ensures Valid() && MainLoopSlotsKept()
      ensures State() == Handle(old(State()), old(EventSeen(event, crcPassed)), random) && !mac.strobe
      ensures sent == old(sent) && acked >= old(acked)
    {
      hide TxRing, RxRing, Shape, MacOk, Radio, Handle, IsFrame, FrameOf, EventSeen, Stored, Unpacked;
      Bounded();
      HandleIgnoresMac(State(), EventSeen(event, crcPassed), random);
      HandleOnlyAcks(State(), EventSeen(event, crcPassed), random);
      mac.state := RM.RX;
      mac.timeout := 0;
      EventHandler(event, crcPassed, random);
      mac.strobe := false;
    }

    /** The radio's DMA channel stores what it receives, damaged or not. */
    method DmaReceive(bytes: Bytes)
      requires Valid() && mac.state == RM.RX && |bytes| == RX_ROW_SIZE
      modifies rxPacket
      ensures Valid() && State() == old(State()) && MainLoopSlotsKept()
      ensures rxPacket[rxInterruptIndex] == bytes
    {
      ReceiveSlotApart();
      hide TxRing, Stored, Unpacked, IsFrame, FrameOf;
      rxPacket[rxInterruptIndex] := bytes;
    }

    /** A pending strobe is not put off by this interrupt. */
    ghost predicate StrobeServed(listening: bool, frameStarted: bool)
      reads mac
    {
      && mac.strobe && mac.state != RM.TX
      && !(mac.state == RM.RX && listening && (frameStarted || (0 < mac.timeout < RM.MAX_LATENCY_OF_STROBE)))
    }

    /** The radio interrupt: the end of a transmission or reception is handled whether or
        not a strobe is pending; else a timeout is; else a strobe that need not wait; else
        nothing happens. */
    method RfInterrupt(done: bool, timedOut: bool, listening: bool, frameStarted: bool, crcPassed: bool, random: nat)
      requires Valid() && (done && mac.state == RM.RX && crcPassed ==> IsFrame(rxPacket[rxInterruptIndex]))
      modifies this, mac, txPacket, rxPacket, shortTxPacket
      ensures Valid() && MainLoopSlotsKept()
      ensures done && old(mac.state) == RM.TX ==> State() == Handle(old(State()), TxDone, random)
      ensures done && old(mac.state) == RM.RX && crcPassed ==>
        State() == Handle(old(State()), Received(old(FrameOf(rxPacket[rxInterruptIndex]))), random)
      ensures done && old(mac.state) == RM.RX && !crcPassed ==> State() == Handle(old(State()), CrcFailed, random)
      ensures var ended := done && (old(mac.state) == RM.TX || old(mac.state) == RM.RX);
        && (!ended && timedOut ==> State() == Handle(old(State()), RxTimeout, random))
        && (!ended && !timedOut && old(StrobeServed(listening, frameStarted)) ==>
              State() == Handle(old(State()), RadioSpec.Strobe, random))
        && (!ended && !timedOut && !old(StrobeServed(listening, frameStarted)) ==> State() == old(State()))
      ensures match old(mac.Reaction(done, timedOut, listening, frameStarted))
        case Nothing => State() == old(State())
        case Run(_) => !mac.strobe
      ensures sent == old(sent) && acked >= old(acked)
    {
      hide Handle, TxRing, RxRing;
      var irqTimeout := timedOut;
      if done {
        if mac.state == RM.TX {
          RadioMacEvent(RM.TxEvent, crcPassed, random);
          irqTimeout := false;   // radioMacEvent clears both flags
        } else if mac.state == RM.RX {
          RadioMacEvent(RM.RxEvent, crcPassed, random);
          irqTimeout := false;
        }
      }
      if irqTimeout {
        RadioMacEvent(RM.RxTimeoutEvent, false, random);
      }
      if mac.strobe {
        if mac.state == RM.TX {
          return;
        }
        if mac.state == RM.RX && listening {
          if frameStarted {
            return;
          }
          if mac.timeout != 0 && mac.timeout < RM.MAX_LATENCY_OF_STROBE {
            return;
          }
        }
        RadioMacEvent(RM.StrobeEvent, false, random);
      }
    }
  }

  // Two counters less than a ring apart, and their slots.
  lemma Wraps(p: nat, g: nat)
    requires g <= p < g + TX_PACKET_COUNT
    ensures (p % TX_PACKET_COUNT - g % TX_PACKET_COUNT) % TX_PACKET_COUNT == p - g
    ensures (g % TX_PACKET_COUNT - p % TX_PACKET_COUNT - 1) % TX_PACKET_COUNT == TX_PACKET_COUNT - 1 - (p - g)
    ensures p % TX_PACKET_COUNT == g % TX_PACKET_COUNT <==> p == g
  {
    var q, i, k := g / TX_PACKET_COUNT, g % TX_PACKET_COUNT, p - g;
    if i + k < TX_PACKET_COUNT {
      Remainder(p, q, i + k);
      Remainder(-k - 1, -1, TX_PACKET_COUNT - 1 - k);
    } else {
      Remainder(p, q + 1, i + k - TX_PACKET_COUNT);
      Remainder(k - TX_PACKET_COUNT, -1, k);
    }
  }

  lemma Remainder(n: int, q: int, i: int)
    requires n == TX_PACKET_COUNT * q + i && 0 <= i < TX_PACKET_COUNT
    ensures n % TX_PACKET_COUNT == i
  {
  }

  lemma NextTxSlot(n: nat)
    ensures (n + 1) % TX_PACKET_COUNT == if n % TX_PACKET_COUNT == TX_PACKET_COUNT - 1 then 0 else n % TX_PACKET_COUNT + 1
  {
  }

  lemma NextSlot(n: nat)
    ensures (n + 1) % RX_PACKET_COUNT == if n % RX_PACKET_COUNT == RX_PACKET_COUNT - 1 then 0 else n % RX_PACKET_COUNT + 1
  {
  }

  lemma Apart(p: nat, g: nat)
    requires g < p < g + RX_PACKET_COUNT
    ensures p % RX_PACKET_COUNT != g % RX_PACKET_COUNT
  {
  }
}
