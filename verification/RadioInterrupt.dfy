/** The interrupt of radio_mac is a step of the two-node network: what NoLostWakeUp says
    will come does reach the event handler. */
module RadioInterrupt {
  import opened RadioSpec
  import opened RadioNetwork
  import opened RadioFraming
  import opened RadioDelivery
  import RL = RadioLink
  import RM = RadioMac

  /** What the radio shows to one run of its interrupt: the IRQ_DONE and IRQ_TIMEOUT flags,
      whether it listens, whether a frame has started, and the CRC of the last frame. */
  datatype Signals = Signals(done: bool, timedOut: bool, listening: bool, frameStarted: bool, crcPassed: bool)

  /** The radio shows what happens on the air: with a good CRC, the frame from the other
      node is in the buffer; a timeout comes only to a node that listens with one. */
  predicate Truthful(net: Net, who: bool, s: Signals, buffer: Bytes) {
    var mac := net.At(who).mac;
    && (s.done && mac.Listening? && s.crcPassed ==> IsFrame(buffer) && net.air == InAir(!who, FrameOf(buffer)))
    && (s.timedOut ==> mac.Listening? && mac.timeout > 0)
  }

  /** Something that the handler must be told: a frame has been sent or received, a timeout
      is over, or a strobe is pending that need not wait for one of these. */
  predicate Calling(n: Node, s: Signals) {
    || (s.done && !n.mac.Off?)
    || s.timedOut
    || (n.strobe && n.mac.Off?)
    || (n.strobe && n.mac.Listening? && !(s.listening && (s.frameStarted || 0 < n.mac.timeout < RM.MAX_LATENCY_OF_STROBE)))
  }

  /** One run of the interrupt: if something calls for it, one event that is raised in the
      network is handled, and else nothing happens. */
  method Interrupt(link: RL.RadioLink, net: Net, who: bool, s: Signals, random: nat) returns (ghost step: Step)
    requires link.Valid() && net.At(who) == link.State() && link.rxInterruptIndex < link.rxPacket.Length
    requires Truthful(net, who, s, link.rxPacket[link.rxInterruptIndex])
    modifies link, link.mac, link.txPacket, link.rxPacket, link.shortTxPacket
    ensures link.Valid()
    ensures if Calling(net.At(who), s)
      then step.Isr? && step.who == who && Enabled(net, step) && link.State() == Apply(net, step).At(who)
      else link.State() == old(link.State())
    ensures Calling(net.At(who), s) && s.done && net.At(who).mac.Listening? && s.crcPassed ==>
      net.air.InAir? && step.event == Received(net.air.frame)
  {
    hide RL.RadioLink.Shape, RL.RadioLink.TxRing, RL.RadioLink.RxRing, RL.RadioLink.MacOk, Handle, IsFrame, FrameOf;
    var mac := net.At(who).mac;
    var event := Event.Strobe;
    if s.done && mac.Sending? {
      event := TxDone;
    } else if s.done && mac.Listening? {
      event := if s.crcPassed then Received(FrameOf(link.rxPacket[link.rxInterruptIndex])) else CrcFailed;
    } else if s.timedOut {
      event := RxTimeout;
    }
    step := Isr(who, event, random);
    link.RfInterrupt(s.done, s.timedOut, s.listening, s.frameStarted, s.crcPassed, random);
  }

  /** The signals the radio gives sooner or later: while it sends, the end of the frame; while
      it listens with a timeout, the end of a frame or of the timeout; and for a strobe an
      interrupt at once. */
  predicate Comes(n: Node, s: Signals) {
    if n.mac.Sending? then s.done
    else if n.mac.Listening? && n.mac.timeout > 0 then s.done || s.timedOut
    else s.frameStarted ==> s.done
  }

  /** In every reachable state with a packet queued and its strobe called, whatever signal
      comes next calls the handler. */
  lemma QueuedPacketIsServed(steps: seq<Step>, who: bool, s: Signals)
    requires IsRun(COLD_START, steps)
    requires var n := After(COLD_START, steps).At(who); n.tx.Queued() && !n.strobeDue && Comes(n, s)
    ensures Calling(After(COLD_START, steps).At(who), s)
  {
    NoLostWakeUp(steps, who);
    InvRun(COLD_START, steps);
    hide LinkOk;
  }
}
