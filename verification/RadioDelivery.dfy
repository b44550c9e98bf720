/** What the link promises over whole runs. */
module RadioDelivery {
  import opened RadioSpec
  import opened RadioNetwork

  lemma {:induction false} InvRun(net: Net, steps: seq<Step>)
    requires Inv(net) && IsRun(net, steps)
    ensures Inv(After(net, steps))
    decreases |steps|
  {
    if steps != [] {
      InvStep(net, steps[0]);
      InvRun(Apply(net, steps[0]), steps[1..]);
    }
  }

  /** From a cold start of both nodes, in both directions: nothing acknowledged is
      missing, and the receiver's log is the sender's with at most the first packet
      repeated; it is an exact prefix unless data went out before the reset
      handshake was over. */
  lemma ColdStartSafety(steps: seq<Step>, who: bool)
    requires IsRun(COLD_START, steps)
    ensures var net := After(COLD_START, steps);
      var tx, rx := net.At(who).tx, net.At(!who).rx;
      var reached := Reached(tx, rx);
        && tx.acked <= reached <= tx.acked + 1
        && FirstRepeated(rx.delivered, tx.sent, reached)
        && (!net.At(who).sentEarly ==> reached == |rx.delivered| && rx.delivered == tx.sent[..reached])
  {
    InvRun(COLD_START, steps);
    var net := After(COLD_START, steps);
    var tx, rx := net.At(who).tx, net.At(!who).rx;
    var reached := Reached(tx, rx);
    if !net.At(who).sentEarly {
      CleanIsPrefix(tx, rx, reached);
    }
  }

  lemma CleanIsPrefix(tx: Outbound, rx: Inbound, reached: nat)
    requires FirstRepeated(rx.delivered, tx.sent, reached) && |rx.delivered| == reached
    ensures rx.delivered == tx.sent[..reached]
  {
    if reached > 0 {
      assert rx.delivered == rx.delivered[..1] + rx.delivered[1..];
    }
  }

  // ---------- the connected phase ----------

  /** Past the reset handshake with nothing delivered twice. */
  predicate Settled(net: Net, who: bool) {
    !net.At(who).tx.resetting && Clean(net.At(who).tx, net.At(!who).rx)
  }

  lemma SettledStep(net: Net, step: Step, who: bool)
    requires Inv(net) && Settled(net, who) && Enabled(net, step)
    ensures Settled(Apply(net, step), who)
  {
    hide Apply;
    TxChange(net, step, who);
    RxChange(net, step, !who);
  }

  /** Once connected, delivery is exactly once and in order under every interleaving:
      the receiver's log is a prefix of the sender's, at most one packet ahead of
      what has been acknowledged. */
  lemma {:induction false} ConnectedExactlyOnce(net: Net, steps: seq<Step>, who: bool)
    requires Inv(net) && Settled(net, who) && IsRun(net, steps)
    ensures var net' := After(net, steps);
      var tx, rx := net'.At(who).tx, net'.At(!who).rx;
      && Settled(net', who)
      && tx.acked <= |rx.delivered| <= tx.acked + 1
      && rx.delivered <= tx.sent
    decreases |steps|
  {
    if steps == [] {
      var tx, rx := net.At(who).tx, net.At(!who).rx;
      CleanIsPrefix(tx, rx, Reached(tx, rx));
    } else {
      InvStep(net, steps[0]);
      SettledStep(net, steps[0], who);
      ConnectedExactlyOnce(Apply(net, steps[0]), steps[1..], who);
    }
  }

  // What the receiver holds last is what the sender is still sending.
  lemma CurrentIsDelivered(tx: Outbound, early: bool, rx: Inbound)
    requires LinkOk(tx, early, rx) && Current(tx, rx)
    ensures tx.Queued() && rx.delivered != []
    ensures rx.delivered[|rx.delivered| - 1] == tx.sent[tx.acked] && !tx.Blocked()
  {
    var k := |rx.delivered| - Reached(tx, rx) + 1;
    if tx.acked > 0 {
      assert rx.delivered[k..][tx.acked - 1] == tx.sent[1..tx.acked + 1][tx.acked - 1];
    }
  }

  /** An ACK that arrives after the reset handshake always has a packet to
      acknowledge, and the receiver has been given that very packet. */
  lemma AckHasItsPacket(net: Net, step: Step)
    requires Inv(net) && Enabled(net, step) && step.Isr? && step.event.Received?
    requires step.event.frame.kind.Ack? && !net.At(step.who).tx.resetting
    ensures var tx, rx := net.At(step.who).tx, net.At(!step.who).rx;
      && tx.Queued() && rx.delivered != []
      && rx.delivered[|rx.delivered| - 1] == tx.sent[tx.acked]
      && Apply(net, step).At(step.who).tx.acked == tx.acked + 1
  {
    hide Apply, LinkOk;
    TxChange(net, step, step.who);
    CurrentIsDelivered(net.At(step.who).tx, net.At(step.who).sentEarly, net.At(!step.who).rx);
  }

  /** A packet without payload at the head of the queue is never acknowledged and
      stays there for ever. */
  lemma {:induction false} EmptyPacketBlocksQueue(net: Net, steps: seq<Step>, who: bool)
    requires Inv(net) && net.At(who).tx.Blocked() && IsRun(net, steps)
    ensures After(net, steps).At(who).tx.acked == net.At(who).tx.acked
    ensures After(net, steps).At(who).tx.Blocked()
    decreases |steps|
  {
    if steps != [] {
      InvStep(net, steps[0]);
      BlockedStep(net, steps[0], who);
      EmptyPacketBlocksQueue(Apply(net, steps[0]), steps[1..], who);
    }
  }

  lemma BlockedStep(net: Net, step: Step, who: bool)
    requires Inv(net) && net.At(who).tx.Blocked() && Enabled(net, step)
    ensures var tx := Apply(net, step).At(who).tx;
      tx.acked == net.At(who).tx.acked && tx.Blocked()
  {
    hide Apply, LinkOk;
    TxChange(net, step, who);
    if Current(net.At(who).tx, net.At(!who).rx) {
      CurrentIsDelivered(net.At(who).tx, net.At(who).sentEarly, net.At(!who).rx);
    }
  }

  // ---------- waking up ----------

  /** While a packet is queued the radio is sending, or listens with a finite timeout,
      or a strobe is pending, or the main loop is about to strobe. */
  lemma NoLostWakeUp(steps: seq<Step>, who: bool)
    requires IsRun(COLD_START, steps)
    ensures var n := After(COLD_START, steps).At(who);
      n.tx.Queued() ==> n.mac.Sending? || (n.mac.Listening? && n.mac.timeout > 0) || n.strobe || n.strobeDue
  {
    InvRun(COLD_START, steps);
  }

  lemma HandleWakes(n: Node, event: Event, random: nat)
    ensures var n' := Handle(n, event, random);
      && (n'.tx.resetting && !WakesUp(n') ==> event.CrcFailed? && !n.tx.Queued() && !n.strobeDue)
      && (event.CrcFailed? && !n.tx.Queued() && !n.strobeDue ==> !WakesUp(n'))
  {
    hide Accept, Response;
  }

  /** The reset handshake has no such guarantee, and a CRC failure with an empty
      queue is the one event that breaks it. */
  lemma ResetStallsOnCrcFailureOnly(net: Net, step: Step, who: bool)
    requires Inv(net) && Enabled(net, step)
    requires net.At(who).tx.resetting && WakesUp(net.At(who))
    requires Apply(net, step).At(who).tx.resetting
    ensures !WakesUp(Apply(net, step).At(who)) <==>
      step.Isr? && step.event.CrcFailed? && step.who == who && !net.At(who).tx.Queued() && !net.At(who).strobeDue
  {
    hide LinkOk, FrameOk, Handle;
    if step.Isr? { HandleWakes(net.At(step.who), step.event, step.random); }
  }

  predicate Stalled(n: Node) { n.tx.resetting && n.mac == Listening(0) && !WakesUp(n) }

  /** It does happen: one bad packet while waiting for the reset to be answered, and a
      node listens without a timeout, its handshake unfinished and no strobe pending. */
  lemma ResetCanStall(who: bool)
    ensures exists steps :: IsRun(COLD_START, steps) && Stalled(After(COLD_START, steps).At(who))
  {
    var first, second, third := Isr(who, Event.Strobe, 0), Isr(who, TxDone, 0), Isr(who, CrcFailed, 0);
    var net := Apply(Apply(COLD_START, first), second);
    var steps := [first, second, third];
    assert steps[1..] == [second, third] && steps[1..][1..] == [third] && [third][1..] == [];
    assert IsRun(Apply(net, third), []) && After(Apply(net, third), []) == Apply(net, third);
    assert IsRun(net, [third]) && After(net, [third]) == Apply(net, third);
    assert IsRun(Apply(COLD_START, first), steps[1..]) && After(Apply(COLD_START, first), steps[1..]) == Apply(net, third);
    assert IsRun(COLD_START, steps) && Stalled(After(COLD_START, steps).At(who));
  }
}
