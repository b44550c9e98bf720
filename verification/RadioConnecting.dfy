/** Whether the reset handshake can still end.  A node that has stalled needs the other
    one, and two of them can wait for each other for ever. */
module RadioConnecting {
  import opened RadioSpec
  import opened RadioNetwork
  import opened RadioDelivery
  import opened RadioProgress

  /** A node that hears `f` will transmit, as a reply or on its own account. */
  predicate Answers(n: Node, f: Frame) {
    var tx := if f.kind.Ack? then OnAck(n).tx else n.tx;
    f.kind.Reset? || f.packet.payload != [] || tx.resetting || tx.Queued()
  }

  lemma AnswersIff(n: Node, f: Frame)
    ensures var n' := Handle(n, Received(f), 0);
      if Answers(n, f) then n'.mac.Sending? else n'.mac == Listening(0)
    ensures !Answers(n, f) ==> var tx := Handle(n, Received(f), 0).tx; !tx.resetting && !tx.Queued()
  {
  }

  /** The frame in the air will make its receiver, or then its sender, transmit. */
  predicate AirHelps(net: Net, who: bool) {
    net.air.InAir? && (net.air.from != who || Answers(net.At(!who), net.air.frame))
  }

  /** Something will still make `who` transmit: itself, data or the reset of its peer, or a
      frame that is on its way. */
  predicate Stirring(net: Net, who: bool) {
    || WakesUp(net.At(who))
    || net.At(!who).tx.Queued()
    || (net.At(!who).tx.resetting && WakesUp(net.At(!who)))
    || AirHelps(net, who)
  }

  // ---------- a handshake that something stirs can end ----------

  // A node in its handshake answers whatever it hears, or has reached its end.
  lemma HearingHelps(n: Node, f: Frame)
    requires n.tx.resetting
    ensures var n' := Handle(n, Received(f), 0); !n'.tx.resetting || n'.mac.Sending?
  {
  }

  lemma EndByItself(m: Manner, start: Net, net: Net, who: bool) returns (net': Net)
    requires Attains(m, start, net) && net.At(who).tx.resetting && WakesUp(net.At(who))
    ensures Attains(m, start, net') && !net'.At(who).tx.resetting
  {
    net' := Calm(m, start, net, who);
    net' := Connect(m, start, net', who);
  }

  // A frame from the peer reaches the node.
  lemma EndByHearing(m: Manner, start: Net, net: Net, who: bool, f: Frame) returns (net': Net)
    requires Attains(m, start, net) && net.At(who).tx.resetting
    requires net.At(who).mac.Listening? && net.air == InAir(!who, f)
    ensures Attains(m, start, net') && !net'.At(who).tx.resetting
  {
    HearingHelps(net.At(who), f);
    Go(m, start, net, Isr(who, Received(f), 0));
    net' := Apply(net, Isr(who, Received(f), 0));
    if net'.At(who).tx.resetting {
      net' := EndByItself(m, start, net', who);
    }
  }

  // The peer says something.
  lemma EndByPeer(m: Manner, start: Net, net: Net, who: bool) returns (net': Net)
    requires Attains(m, start, net) && net.At(who).tx.resetting && WakesUp(net.At(!who))
    requires net.At(!who).tx.resetting || net.At(!who).tx.Queued()
    ensures Attains(m, start, net') && !net'.At(who).tx.resetting
  {
    net' := Calm(m, start, net, who);
    var f;
    net', f := Serve(m, start, net', !who);
    net' := EndByHearing(m, start, net', who, f);
  }

  // A frame of the node itself reaches its peer, which answers.
  lemma EndByReply(m: Manner, start: Net, net: Net, who: bool, f: Frame) returns (net': Net)
    requires Attains(m, start, net) && net.At(who).tx.resetting && net.At(who).mac.Listening?
    requires net.air == InAir(who, f) && Answers(net.At(!who), f)
    requires !net.At(!who).tx.Queued() && !(net.At(!who).tx.resetting && WakesUp(net.At(!who)))
    ensures Attains(m, start, net') && !net'.At(who).tx.resetting
  {
    AwakeOf(net, !who);
    net' := Rest(m, start, net, !who);
    AnswersIff(net'.At(!who), f);
    Go(m, start, net', Isr(!who, Received(f), 0));
    net' := Apply(net', Isr(!who, Received(f), 0));
    net' := EndByHearing(m, start, net', who, net'.At(!who).mac.frame);
  }

  lemma EndIfStirring(m: Manner, start: Net, net: Net, who: bool) returns (net': Net)
    requires Attains(m, start, net) && net.At(who).tx.resetting && Stirring(net, who)
    ensures Attains(m, start, net') && !net'.At(who).tx.resetting
  {
    var n, peer := net.At(who), net.At(!who);
    if WakesUp(n) {
      net' := EndByItself(m, start, net, who);
    } else if peer.tx.Queued() || (peer.tx.resetting && WakesUp(peer)) {
      net' := EndByPeer(m, start, net, who);
    } else if net.air.from != who {
      net' := EndByHearing(m, start, net, who, net.air.frame);
    } else {
      net' := EndByReply(m, start, net, who, net.air.frame);
    }
  }

  // ---------- and one that nothing stirs cannot ----------

  /** Its handshake unfinished, with nothing to end it. */
  predicate Stuck(net: Net, who: bool) { net.At(who).tx.resetting && !Stirring(net, who) }

  lemma StuckNode(net: Net, who: bool)
    requires Inv(net) && Stuck(net, who)
    ensures net.At(who).mac == Listening(0) && !net.At(who).strobe && !net.At(who).strobeDue && !net.At(who).tx.Queued()
  {
    hide LinkOk;
  }

  // An interrupt of the stuck node itself can only be a CRC failure.
  lemma StuckItself(net: Net, who: bool, event: Event, random: nat)
    requires Inv(net) && Stuck(net, who) && Enabled(net, Isr(who, event, random))
    ensures Stuck(Apply(net, Isr(who, event, random)), who)
  {
    StuckNode(net, who);
    hide Inv;
    assert event.CrcFailed?;
  }

  // Its peer, if it wakes up, has nothing to say, and hears nothing that it answers.
  lemma StuckPeer(net: Net, who: bool, event: Event, random: nat)
    requires Inv(net) && Stuck(net, who) && Enabled(net, Isr(!who, event, random))
    ensures Stuck(Apply(net, Isr(!who, event, random)), who)
  {
    StuckNode(net, who);
    PeerStaysQuiet(net.At(!who), event, random);
    hide Inv, Handle;
  }

  lemma PeerStaysQuiet(n: Node, event: Event, random: nat)
    requires !n.tx.Queued() && !(n.tx.resetting && WakesUp(n))
    requires event.TxDone? ==> n.mac.Sending?
    requires event.RxTimeout? ==> n.mac.Listening? && n.mac.timeout > 0
    requires event.Strobe? ==> n.strobe
    requires event.Received? ==> !Answers(n, event.frame)
    ensures var n' := Handle(n, event, random);
      && !n'.mac.Sending? && !n'.tx.Queued()
      && !(n'.tx.resetting && WakesUp(n'))
      && forall f :: Answers(n', f) ==> Answers(n, f)
  {
  }

  lemma StuckStep(net: Net, step: Step, who: bool)
    requires Inv(net) && Stuck(net, who) && Enabled(net, step) && !step.MainQueue?
    ensures Stuck(Apply(net, step), who)
  {
    StuckNode(net, who);
    match step
    case Isr(x, event, random) =>
      if x == who {
        StuckItself(net, who, event, random);
      } else {
        StuckPeer(net, who, event, random);
      }
    case MainStrobe(_) =>
    case MainRelease(_) =>
    case Lose =>
  }

  lemma {:induction false} StuckRun(net: Net, steps: seq<Step>, who: bool)
    requires Inv(net) && Stuck(net, who) && IsRunOf(NoQueueing, net, steps)
    ensures AfterRun(NoQueueing, net, steps).At(who).tx.resetting
    decreases |steps|
  {
    hide Inv, Apply;
    if steps != [] {
      InvStep(net, steps[0]);
      StuckStep(net, steps[0], who);
      StuckRun(Apply(net, steps[0]), steps[1..], who);
    }
  }

  /** Without anything being queued, a reset handshake can still end if and only if the
      node itself will transmit, or its peer has data queued or a handshake of its own
      that goes on, or a frame in the air will stir one of them. */
  lemma HandshakeCanEndIff(net: Net, who: bool)
    requires Inv(net) && net.At(who).tx.resetting
    ensures Stirring(net, who) <==> exists net' :: Leads(NoQueueing, net, net') && !net'.At(who).tx.resetting
  {
    hide Inv, Stirring;
    if Stirring(net, who) {
      LeadsNowhere(NoQueueing, net);
      var net' := EndIfStirring(NoQueueing, net, net, who);
    } else {
      forall net' | Leads(NoQueueing, net, net') ensures net'.At(who).tx.resetting {
        var steps :| IsRunOf(NoQueueing, net, steps) && AfterRun(NoQueueing, net, steps) == net';
        StuckRun(net, steps, who);
      }
    }
  }

  // ---------- waiting for each other ----------

  predicate BothStuck(net: Net) { Stuck(net, true) && Stuck(net, false) }

  lemma {:induction false} BothStuckRun(net: Net, steps: seq<Step>)
    requires Inv(net) && BothStuck(net) && IsRunOf(AllPolite, net, steps)
    ensures BothStuck(AfterRun(AllPolite, net, steps))
    decreases |steps|
  {
    hide Inv, Apply, Stirring;
    if steps != [] {
      InvStep(net, steps[0]);
      StuckStep(net, steps[0], true);
      StuckStep(net, steps[0], false);
      BothStuckRun(Apply(net, steps[0]), steps[1..]);
    }
  }

  // A connected peer can queue something, and that ends the handshake.
  lemma EndByQueueing(start: Net, net: Net, who: bool) returns (net': Net)
    requires Attains(AllPolite, start, net) && net.At(who).tx.resetting && !net.At(!who).tx.resetting
    ensures Attains(AllPolite, start, net') && !net'.At(who).tx.resetting
  {
    net' := net;
    if !net.At(!who).tx.Queued() {
      if net.At(!who).strobeDue {
        Go(AllPolite, start, net', MainStrobe(!who));
        net' := Apply(net', MainStrobe(!who));
      }
      RoomWhenIdle(net', !who);
      var something := MainQueue(!who, Packet(0, [0]));
      Go(AllPolite, start, net', something);
      net' := Apply(net', something);
    }
    net' := EndIfStirring(AllPolite, start, net', who);
  }

  lemma RoomWhenIdle(net: Net, who: bool)
    requires Inv(net) && !net.At(who).tx.Queued()
    ensures net.At(who).tx.Room()
  {
  }

  /** If both nodes queue only after their own radioLinkConnected, a reset handshake can
      still end if and only if they are not both stuck. */
  lemma PoliteHandshakeCanEndIff(net: Net, who: bool)
    requires Inv(net) && net.At(who).tx.resetting
    ensures !BothStuck(net) <==> exists net' :: Leads(AllPolite, net, net') && !net'.At(who).tx.resetting
  {
    hide Inv, Stirring;
    var m := AllPolite;
    LeadsNowhere(m, net);
    if Stirring(net, who) {
      var net' := EndIfStirring(m, net, net, who);
    } else if !BothStuck(net) {
      var net' := net;
      if net.At(!who).tx.resetting {
        net' := EndIfStirring(m, net, net, !who);
      }
      if net'.At(who).tx.resetting {
        net' := EndByQueueing(net, net', who);
      }
    } else {
      forall net' | Leads(m, net, net') ensures net'.At(who).tx.resetting {
        var steps :| IsRunOf(m, net, steps) && AfterRun(m, net, steps) == net';
        BothStuckRun(net, steps);
      }
    }
  }

  // A node starts up, sends its reset, and then hears noise.
  lemma StartsInVain(start: Net, net: Net, who: bool) returns (net': Net)
    requires Attains(RadioOnly, start, net) && net.At(who) == INITIAL
    ensures Attains(RadioOnly, start, net') && net'.At(!who) == net.At(!who)
    ensures net'.At(who).mac == Listening(0) && net'.At(who).tx == INITIAL.tx
    ensures !net'.At(who).strobe && !net'.At(who).strobeDue
  {
    StartsUp(net, who);
    net' := Apply(Apply(net, Isr(who, Event.Strobe, 0)), Isr(who, TxDone, 0));
    Go(RadioOnly, start, net, Isr(who, Event.Strobe, 0));
    Go(RadioOnly, start, Apply(net, Isr(who, Event.Strobe, 0)), Isr(who, TxDone, 0));
    Go(RadioOnly, start, net', Isr(who, CrcFailed, 0));
    net' := Apply(net', Isr(who, CrcFailed, 0));
  }

  lemma StartsUp(net: Net, who: bool)
    requires net.At(who) == INITIAL
    ensures Enabled(net, Isr(who, Event.Strobe, 0))
    ensures Enabled(Apply(net, Isr(who, Event.Strobe, 0)), Isr(who, TxDone, 0))
  {
  }

  /** Neither node's handshake ends, however the run goes on, if each queues only after
      its own radioLinkConnected. */
  ghost predicate NeverConnects(net: Net) {
    forall net' :: Leads(AllPolite, net, net') ==> net'.a.tx.resetting && net'.b.tx.resetting
  }

  /** From a cold start, with nothing but radio events, both nodes can come to wait for
      each other for ever. */
  lemma BothCanWaitForEver()
    ensures exists net :: Leads(RadioOnly, COLD_START, net) && NeverConnects(net)
  {
    LeadsNowhere(RadioOnly, COLD_START);
    var net := StartsInVain(COLD_START, COLD_START, true);
    net := StartsInVain(COLD_START, net, false);
    Go(RadioOnly, COLD_START, net, Lose);
    net := Apply(net, Lose);
    hide Inv;
    forall net' | Leads(AllPolite, net, net') ensures net'.a.tx.resetting && net'.b.tx.resetting {
      var steps :| IsRunOf(AllPolite, net, steps) && AfterRun(AllPolite, net, steps) == net';
      BothStuckRun(net, steps);
    }
  }
}
