/** radio_com: bytes and control signals, packed in place into the slots of radio_link
    and unpacked from them, proved against ComSpec. */
module RadioCom {
  import opened RadioSpec
  import opened RadioFraming
  import opened ComSpec
  import RL = RadioLink
  import RM = RadioMac

  class RadioCom {
    const link: RL.RadioLink
    const rxEnforceOrdering: bool

    var txBytesLoaded: nat
    var rxBytesLeft: nat
    var rxPointer: nat       // offset of the next byte in the current RX packet
    var txPointer: nat       // offset of the last byte written in the current TX packet

    var rxSignals: bv8
    var txSignals: bv8
    var lastRxSignals: bv8
    var sendSignalsSoon: bool

    ghost var written: seq<Mark>
    ghost var taken: seq<Mark>

    // ---------- representation ----------

    /** Some byte may be loaded only if the slot being filled is free, and bytes are
        left only in a packet the main loop owns. */
    ghost predicate Consistent()
      reads this, link, link.mac, link.txPacket, link.rxPacket, link.shortTxPacket
    {
      && link.Valid()
      && txBytesLoaded <= RADIO_LINK_PAYLOAD_SIZE
      && (txBytesLoaded > 0 ==> link.Tx().Room() && txPointer == txBytesLoaded)
      && (rxBytesLeft > 0 ==> link.read < |link.delivered| && rxPointer + 1 + rxBytesLeft <= RL.RX_ROW_SIZE)
      && RxReadable() && TxReadable()
    }

    ghost predicate TxReadable()
      reads this`txBytesLoaded, link`txMainLoopIndex, link.txPacket
    {
      && link.txMainLoopIndex < link.txPacket.Length
      && 2 + txBytesLoaded <= |link.txPacket[link.txMainLoopIndex]|
    }

    ghost predicate RxReadable()
      reads this`rxBytesLeft, this`rxPointer, link`rxMainLoopIndex, link.rxPacket
    {
      rxBytesLeft > 0 ==>
        && link.rxMainLoopIndex < link.rxPacket.Length
        && rxPointer + 1 + rxBytesLeft <= |link.rxPacket[link.rxMainLoopIndex]|
    }

    ghost predicate Valid()
      reads this, link, link.mac, link.txPacket, link.rxPacket, link.shortTxPacket
    {
      Consistent() && txBytesLoaded < RADIO_LINK_PAYLOAD_SIZE
    }

    ghost function Sending(): Sender
      reads this`txBytesLoaded, this`txSignals, this`sendSignalsSoon, this`written
      reads link`sent, link`txMainLoopIndex, link.txPacket
      requires TxReadable()
    {
      Sender(link.sent, link.txPacket[link.txMainLoopIndex][2..2 + txBytesLoaded], txSignals, sendSignalsSoon, written)
    }

    ghost function Receiving(): Receiver
      reads this`rxBytesLeft, this`rxPointer, this`rxSignals, this`lastRxSignals, this`taken
      reads link`delivered, link`read, link`rxMainLoopIndex, link.rxPacket
      requires RxReadable()
    {
      var left := if rxBytesLeft == 0 then []
                  else link.rxPacket[link.rxMainLoopIndex][rxPointer + 1..rxPointer + 1 + rxBytesLeft];
      Receiver(link.delivered, link.read, left, rxSignals, lastRxSignals, rxEnforceOrdering, taken)
    }

    constructor Init(rxEnforceOrdering: bool)
      ensures Valid() && link.State() == INITIAL
      ensures SenderOk(Sending()) && ReceiverOk(Receiving()) && this.rxEnforceOrdering == rxEnforceOrdering
      ensures fresh(link) && fresh(link.mac) && fresh(link.txPacket) && fresh(link.rxPacket) && fresh(link.shortTxPacket)
    {
      link := new RL.RadioLink.Init();
      this.rxEnforceOrdering := rxEnforceOrdering;
      txBytesLoaded, rxBytesLeft, rxPointer, txPointer := 0, 0, 0, 0;
      rxSignals, txSignals, lastRxSignals, sendSignalsSoon := 0, 0, 0, false;
      written, taken := [], [];
    }

    // ---------- the interrupt underneath ----------

    /** Whatever the radio does meanwhile, what is loaded stays loaded and what is left
        stays left; packets can only arrive and be acknowledged. */
    method RfInterrupt(done: bool, timedOut: bool, listening: bool, frameStarted: bool, crcPassed: bool, random: nat)
      requires Valid()
      requires done && link.mac.state == RM.RX && crcPassed ==> IsFrame(link.rxPacket[link.rxInterruptIndex])
      modifies link, link.mac, link.txPacket, link.rxPacket, link.shortTxPacket
      ensures Valid() && Sending() == old(Sending()) && link.acked >= old(link.acked)
      ensures old(link.delivered) <= link.delivered
      ensures Receiving() == old(Receiving()).(delivered := link.delivered)
    {
      hide Handle, IsFrame, Unpacked, Stored, RL.RadioLink.MacOk, RL.RadioLink.Radio, RL.RadioLink.EventSeen;
      link.RfInterrupt(done, timedOut, listening, frameStarted, crcPassed, random);
    }
  
    // ---------- sending ----------

    // Sends the bytes loaded so far.
    method SendDataNow()
      requires Consistent() && txBytesLoaded > 0
      modifies this`txBytesLoaded, link`txMainLoopIndex, link`sent, link`strobeDue, link.mac`strobe, link.txPacket
      ensures Valid() && Sending() == SendData(old(Sending())) && Receiving() == old(Receiving())
      ensures txBytesLoaded == 0
    {
      SetLength();
      link.Bounded();
      hide RL.RadioLink.Rings, RL.RadioLink.State, RL.RadioLink.Composed, Stored, Unpacked, Receiving;
      link.TxSendPacket(PAYLOAD_TYPE_DATA);
      txBytesLoaded := 0;
    }

    method SetLength()
      requires Consistent() && txBytesLoaded > 0
      modifies link.txPacket
      ensures Consistent() && Sending() == old(Sending()) && Receiving() == old(Receiving())
      ensures link.txPacket[link.txMainLoopIndex][HEADER_LENGTH] as nat == txBytesLoaded
      ensures link.Composed(PAYLOAD_TYPE_DATA) == Packet(PAYLOAD_TYPE_DATA, Sending().loaded)
    {
      link.Bounded();
      hide RL.RadioLink.MacOk, RL.RadioLink.Radio, RL.RadioLink.RxRing, RL.RadioLink.TxRing, RL.RadioLink.State;
      hide Stored, Unpacked, Receiving;
      LengthByte(txBytesLoaded);
      ghost var row := link.txPacket[link.txMainLoopIndex];
      link.TxWrite(0, txBytesLoaded as bv8);
      assert link.txPacket[link.txMainLoopIndex][2..2 + txBytesLoaded] == row[2..2 + txBytesLoaded];
    }

    lemma OneMoreInRow(row: Bytes, n: nat, byte: bv8)
      requires 2 + n < |row|
      ensures row[2 + n := byte][2..2 + n + 1] == row[2..2 + n] + [byte]
    {
    }

    lemma LengthByte(n: nat)
      requires n <= RADIO_LINK_PAYLOAD_SIZE
      ensures (n as bv8) as nat == n
    {
    }

    // Assumes that no bytes are loaded and that the link has room.
    method SendControlSignalsNow()
      requires Valid() && txBytesLoaded == 0 && link.Tx().Room()
      modifies this`sendSignalsSoon, link`txMainLoopIndex, link`sent, link`strobeDue, link.mac`strobe, link.txPacket
      ensures Valid() && Sending() == SendSignals(old(Sending())) && Receiving() == old(Receiving())
    {
      hide RL.RadioLink.MacOk, RL.RadioLink.Radio, RL.RadioLink.RxRing, RL.RadioLink.State, Stored, Unpacked;
      link.TxWrite(0, 1);
      link.TxWrite(1, txSignals);
      assert link.txPacket[link.txMainLoopIndex][2..3] == [txSignals];
      sendSignalsSoon := false;
      link.TxSendPacket(PAYLOAD_TYPE_CONTROL_SIGNALS);
    }

    method NoteReset()
      requires Valid()
      modifies this`sendSignalsSoon, link`resetPacketReceived
      ensures Valid() && Sending() == old(Sending()).(soon := true) && Receiving() == old(Receiving())
    {
      link.ClearResetPacketReceived();
      sendSignalsSoon := true;
    }

    method TxService()
      requires Valid()
      modifies this`txBytesLoaded, this`sendSignalsSoon, link`resetPacketReceived, link`txMainLoopIndex, link`sent, link`strobeDue, link.mac`strobe, link.txPacket
      ensures Valid() && Sending() == Service(old(Sending()), link.acked, old(link.resetPacketReceived))
      ensures Receiving() == old(Receiving())
    {
      hide RL.RadioLink.RxRing, RL.RadioLink.MacOk, RL.RadioLink.State, Receiving, Stored;
      if link.resetPacketReceived {
        NoteReset();
      }
      if sendSignalsSoon {
        if txBytesLoaded != 0 {
          SendDataNow();
        }
        var free := link.TxAvailable();
        if free > 0 {
          SendControlSignalsNow();
        }
      } else {
        var queued := link.TxQueued();
        if txBytesLoaded != 0 && queued <= TX_QUEUE_THRESHOLD {
          SendDataNow();
        }
      }
    }

    /** The number of bytes the caller may send, in the eight bits it is returned in. */
    method TxAvailable() returns (available: nat)
      requires Valid()
      ensures Capacity(Sending(), link.acked) >= 0
      ensures available == Capacity(Sending(), link.acked) % 256 <= Capacity(Sending(), link.acked)
    {
      if sendSignalsSoon {
        available := 0;
      } else {
        var free := link.TxAvailable();
        available := (free * RADIO_LINK_PAYLOAD_SIZE - txBytesLoaded) % 256;
      }
    }

    method TxSendByte(byte: bv8)
      requires Valid() && Capacity(Sending(), link.acked) > 0
      modifies this`txBytesLoaded, this`txPointer, this`written, link`txMainLoopIndex, link`sent, link`strobeDue, link.mac`strobe, link.txPacket
      ensures Valid() && Sending() == PutByte(old(Sending()), byte) && Receiving() == old(Receiving())
      ensures written == old(written) + [Mark(byte, txSignals)]
    {
      LoadByte(byte);
      if txBytesLoaded == RADIO_LINK_PAYLOAD_SIZE {
        SendDataNow();
      }
    }

    // Moves to the place of the next byte.
    method NextByte()
      requires txBytesLoaded > 0 ==> txPointer == txBytesLoaded
      modifies this`txPointer
      ensures txPointer == txBytesLoaded + 1
    {
      if txBytesLoaded == 0 {
        txPointer := 0;
      }
      txPointer := txPointer + 1;
    }

    // The byte's place in the packet.
    method StoreByte(byte: bv8)
      requires link.Valid() && link.Tx().Room() && TxReadable() && RxReadable()
      requires txBytesLoaded < RADIO_LINK_PAYLOAD_SIZE && txPointer == txBytesLoaded + 1
      modifies link.txPacket
      ensures link.Valid() && link.State() == old(link.State()) && Receiving() == old(Receiving())
      ensures var row := link.txPacket[link.txMainLoopIndex];
        |row| == RL.TX_ROW_SIZE && row[2..2 + txBytesLoaded + 1] == old(Sending()).loaded + [byte]
    {
      link.Bounded();
      hide RL.RadioLink.TxRing, RL.RadioLink.RxRing, RL.RadioLink.MacOk, RL.RadioLink.Radio, Receiving, Stored, Unpacked;
      OneMoreInRow(link.txPacket[link.txMainLoopIndex], txBytesLoaded, byte);
      link.TxWrite(txPointer, byte);
    }

    // Puts one more byte into the current packet.
    method LoadByte(byte: bv8)
      requires Valid() && Capacity(Sending(), link.acked) > 0
      modifies this`txBytesLoaded, this`txPointer, this`written, link.txPacket
      ensures Consistent() && Receiving() == old(Receiving()) && txBytesLoaded > 0
      ensures Sending() == Load(old(Sending()), byte) && written == old(written) + [Mark(byte, txSignals)]
    {
      assert link.Tx().Room();
      hide Receiving, RL.RadioLink.State, Capacity, Slots;
      NextByte();
      StoreByte(byte);
      txBytesLoaded := txBytesLoaded + 1;
      written := written + [Mark(byte, txSignals)];
    }

    method TxControlSignals(controlSignals: bv8)
      requires Valid()
      modifies this`txBytesLoaded, this`sendSignalsSoon, this`txSignals, link`resetPacketReceived, link`txMainLoopIndex, link`sent, link`strobeDue, link.mac`strobe, link.txPacket
      ensures Valid() && Receiving() == old(Receiving())
      ensures Sending() == SetSignals(old(Sending()), controlSignals, link.acked, old(link.resetPacketReceived))
      ensures txSignals == controlSignals
    {
      if controlSignals != txSignals {
        txSignals := controlSignals;
        sendSignalsSoon := true;
        TxService();
      }
    }
  
    // ---------- receiving ----------

    predicate WaitingToReportRxSignals()
      reads this
    {
      rxEnforceOrdering && rxSignals != lastRxSignals
    }

    // The current packet holds data: makes its bytes available.
    method StartPacket()
      requires Valid() && rxBytesLeft == 0 && link.read < |link.delivered| && IsComPacket(link.delivered[link.read])
      requires link.delivered[link.read].payloadType == PAYLOAD_TYPE_DATA
      modifies this`rxBytesLeft, this`rxPointer
      ensures Valid() && Sending() == old(Sending())
      ensures Receiving() == old(Receiving()).(left := link.delivered[link.read].payload)
    {
      hide RL.RadioLink.MacOk, RL.RadioLink.TxRing, Stored;
      var slot := link.RxCurrentPacket();
      rxBytesLeft := link.rxPacket[slot.index][HEADER_LENGTH] as nat;
      rxPointer := 1;
    }

    // The current packet sets the control signals.
    method TakeSignals()
      requires Valid() && rxBytesLeft == 0 && link.read < |link.delivered| && IsComPacket(link.delivered[link.read])
      requires link.delivered[link.read].payloadType != PAYLOAD_TYPE_DATA
      modifies this`rxSignals, link`rxMainLoopIndex, link`read
      ensures Valid() && Sending() == old(Sending()) && link.read == old(link.read) + 1
      ensures Receiving() == old(Receiving()).(signals := link.delivered[old(link.read)].payload[0], read := link.read)
    {
      hide RL.RadioLink.MacOk, RL.RadioLink.TxRing, Stored;
      var slot := link.RxCurrentPacket();
      rxSignals := link.rxPacket[slot.index][HEADER_LENGTH + 1];
      assert link.delivered[link.read].payload[0] == rxSignals;
      link.RxDoneWithPacket();
    }

    lemma LeftLength()
      requires Consistent()
      ensures |Receiving().left| == rxBytesLeft
    {
    }

    method ReceiveMorePackets()
      requires Valid() && AreComPackets(link.delivered)
      modifies this`rxBytesLeft, this`rxPointer, this`rxSignals, link`rxMainLoopIndex, link`read
      ensures Valid() && Sending() == old(Sending()) && Receiving() == ReceiveMore(old(Receiving()))
    {
      hide RL.RadioLink.Valid, Sending;
      LeftLength();
      if rxBytesLeft != 0 {
        return;
      }
      if WaitingToReportRxSignals() {
        return;
      }
      while true
        invariant Valid() && Sending() == old(Sending()) && rxBytesLeft == 0 && !Waiting(Receiving())
        invariant link.delivered == old(link.delivered) && Fetch(Receiving()) == Fetch(old(Receiving()))
        decreases |link.delivered| - link.read
      {
        var slot := link.RxCurrentPacket();
        if slot.NoBuffer? {
          break;
        }
        var payloadType := link.RxCurrentPayloadType();
        if payloadType == PAYLOAD_TYPE_DATA {
          StartPacket();
          break;
        } else {
          TakeSignals();
          if WaitingToReportRxSignals() {
            break;
          }
        }
      }
    }

    /** 0 means that every packet has been read, or that new signals have to be reported
        first. */
    method RxAvailable() returns (available: nat)
      requires Valid() && AreComPackets(link.delivered)
      modifies this`rxBytesLeft, this`rxPointer, this`rxSignals, link`rxMainLoopIndex, link`read
      ensures Valid() && Sending() == old(Sending()) && Receiving() == ReceiveMore(old(Receiving()))
      ensures available == |Receiving().left|
      ensures old(ReceiverOk(Receiving())) ==> (available == 0 <==> WaitingToReportRxSignals() || link.read == |link.delivered|)
    {
      if ReceiverOk(Receiving()) { NothingToReadIff(Receiving()); }
      hide RL.RadioLink.Valid, Sending, ReceiverOk, ReceiveMore;
      ReceiveMorePackets();
      LeftLength();
      available := rxBytesLeft;
    }

    // The last byte of a packet has been read.
    method DoneWithPacket()
      requires Consistent() && txBytesLoaded < RADIO_LINK_PAYLOAD_SIZE && rxBytesLeft == 0 && link.read < |link.delivered|
      modifies link`rxMainLoopIndex, link`read
      ensures Valid() && Sending() == old(Sending())
      ensures Receiving() == old(Receiving()).(read := old(link.read) + 1)
    {
      hide RL.RadioLink.MacOk, RL.RadioLink.TxRing, Stored, Unpacked, Sending;
      link.RxDoneWithPacket();
    }

    lemma TailOfRow(row: Bytes, from: nat, n: nat)
      requires n > 0 && from + n <= |row|
      ensures row[from..from + n][0] == row[from]
      ensures row[from..from + n][1..] == if n == 1 then [] else row[from + 1..from + n]
    {
    }

    // The next byte of the current packet, which may then be read to its end.
    method NextLeft() returns (byte: bv8)
      requires Valid() && Receiving().left != []
      modifies this`rxBytesLeft, this`rxPointer, this`taken
      ensures Valid() && Sending() == old(Sending()) && link.read < |link.delivered|
      ensures Receiving() == TakeByte(old(Receiving())).(read := link.read) && byte == old(Receiving()).left[0]
      ensures rxBytesLeft == old(|Receiving().left|) - 1 && old(Receiving()).read == link.read
      ensures taken == old(taken) + [Mark(byte, lastRxSignals)]
    {
      hide RL.RadioLink.Valid, Sending;
      ghost var next := TakeByte(Receiving()).(read := link.read);
      TailOfRow(link.rxPacket[link.rxMainLoopIndex], rxPointer + 1, rxBytesLeft);
      byte := link.rxPacket[link.rxMainLoopIndex][HEADER_LENGTH + rxPointer];
      rxPointer := rxPointer + 1;
      rxBytesLeft := rxBytesLeft - 1;
      taken := taken + [Mark(byte, lastRxSignals)];
      assert Receiving().left == next.left && Receiving().taken == next.taken;
    }

    method RxReceiveByte() returns (byte: bv8)
      requires Valid() && Receiving().left != []
      modifies this`rxBytesLeft, this`rxPointer, this`taken, link`rxMainLoopIndex, link`read
      ensures Valid() && Sending() == old(Sending()) && Receiving() == TakeByte(old(Receiving()))
      ensures byte == old(Receiving()).left[0] && taken == old(taken) + [Mark(byte, lastRxSignals)]
    {
      hide RL.RadioLink.Valid, Sending, Receiving;
      byte := NextLeft();
      if rxBytesLeft == 0 {
        DoneWithPacket();
      }
    }

    method RxControlSignals() returns (signals: bv8)
      requires Valid() && AreComPackets(link.delivered)
      modifies this`rxBytesLeft, this`rxPointer, this`rxSignals, this`lastRxSignals, link`rxMainLoopIndex, link`read
      ensures Valid() && Sending() == old(Sending()) && Receiving() == Report(old(Receiving()))
      ensures signals == Receiving().reported == rxSignals && !WaitingToReportRxSignals()
    {
      hide RL.RadioLink.Valid, Sending;
      ReceiveMorePackets();
      lastRxSignals := rxSignals;
      signals := lastRxSignals;
    }
  }
}
