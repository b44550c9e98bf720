/** radio_mac: the radio's next action as the event handler sets it up. */
module RadioMac {

  // Where the radio's DMA channel reads or writes.
  datatype Buffer = NoBuffer | TxSlot(index: nat) | RxSlot(index: nat) | ShortPacket

  datatype Event = StrobeEvent | TxEvent | RxEvent | RxTimeoutEvent

  // What one run of the radio interrupt amounts to.
  datatype Reaction = Nothing | Run(event: Event)

  const MAX_LATENCY_OF_STROBE := 10

  datatype State = OFF | IDLE | RX | TX

  class RadioMac {
    var strobe: bool
    var state: State
    var timeout: nat     // the RX timeout in force; 0 when there is none
    var packet: Buffer

    constructor ()
      ensures !strobe && state == OFF && timeout == 0 && packet == NoBuffer
    {
      strobe, state, timeout, packet := false, OFF, 0, NoBuffer;
    }

    /** The interrupt's choice of event, from the IRQ_DONE and IRQ_TIMEOUT flags, and
        from whether the radio is in its RX state (`listening`) and past a start of
        frame delimiter (`frameStarted`). */
    ghost function Reaction(done: bool, timedOut: bool, listening: bool, frameStarted: bool): Reaction
      reads this
    {
      if done && state == TX then Run(TxEvent)
      else if done && state == RX then Run(RxEvent)
      else if timedOut then Run(RxTimeoutEvent)
      else if !strobe || state == TX then Nothing
      else if state == RX && listening && (frameStarted || 0 < timeout < MAX_LATENCY_OF_STROBE) then Nothing
      else Run(StrobeEvent)
    }

    /** Every interrupt with a pending strobe and an active radio runs some event, unless the
        end of the frame being sent or received, or a timeout that is due soon, is still to
        come; and whenever one of these comes, its interrupt runs an event.  So no strobe
        is put off for longer than one frame or timeout. */
    lemma PostponedStrobeIsServed(listening: bool, frameStarted: bool)
      requires strobe && Reaction(false, false, listening, frameStarted).Nothing?
      ensures state == TX || state == RX
      ensures forall timedOut, l, f :: Reaction(true, timedOut, l, f) == Run(if state == TX then TxEvent else RxEvent)
      ensures forall l, f :: Reaction(false, true, l, f) == Run(RxTimeoutEvent)
      ensures state == RX && !frameStarted ==> 0 < timeout < MAX_LATENCY_OF_STROBE
      ensures state == RX ==> forall f :: Reaction(false, false, false, f) == Run(StrobeEvent)
    {
    }

    method Strobe()
      modifies this`strobe
      ensures strobe
    {
      strobe := true;
    }

    method Rx(packet: Buffer, timeout: nat)
      modifies this`state, this`timeout, this`packet
      ensures state == RX && this.timeout == timeout && this.packet == packet
    {
      this.timeout := timeout;
      this.packet := packet;
      state := RX;
    }

    method Tx(packet: Buffer)
      modifies this`state, this`packet
      ensures state == TX && this.packet == packet
    {
      this.packet := packet;
      state := TX;
    }
  }
}
