/** What the link can still do from any state it gets into: acknowledge the packet
    at the head of a queue, and, for data queued too early, deliver it twice. */
module RadioProgress {
  import opened RadioSpec
  import opened RadioNetwork
  import opened RadioDelivery

  /** Which runs are meant: those in which only the radio does anything; those in which
      nobody queues a packet; those in which the main loop of `who` queues nothing before
      its reset handshake is over (before radioLinkConnected), while the other node does
      what it likes; or those in which both nodes keep to that. */
  datatype Manner = RadioOnly | NoQueueing | Polite(who: bool) | AllPolite

  predicate Permitted(m: Manner, net: Net, step: Step) {
    match m
    case RadioOnly => step.Isr? || step.Lose?
    case NoQueueing => !step.MainQueue?
    case Polite(who) => step.MainQueue? && step.who == who ==> !net.At(who).tx.resetting
    case AllPolite => step.MainQueue? ==> !net.At(step.who).tx.resetting
  }

  predicate IsRunOf(m: Manner, net: Net, steps: seq<Step>)
    decreases |steps|
  {
    steps == [] ||
    (&& Enabled(net, steps[0])
     && Permitted(m, net, steps[0])
     && IsRunOf(m, Apply(net, steps[0]), steps[1..]))
  }

  lemma {:induction false} RunOfIsRun(m: Manner, net: Net, steps: seq<Step>)
    requires IsRunOf(m, net, steps)
    ensures IsRun(net, steps)
    decreases |steps|
  {
    if steps != [] {
      RunOfIsRun(m, Apply(net, steps[0]), steps[1..]);
    }
  }

  function AfterRun(m: Manner, net: Net, steps: seq<Step>): Net
    requires IsRunOf(m, net, steps)
  {
    RunOfIsRun(m, net, steps);
    After(net, steps)
  }

  /** Some run of that manner takes the network from `net` to `net'`. */
  ghost predicate Leads(m: Manner, net: Net, net': Net) {
    exists steps :: IsRunOf(m, net, steps) && AfterRun(m, net, steps) == net'
  }

  lemma LeadsNowhere(m: Manner, net: Net)
    ensures Leads(m, net, net)
  {
    assert IsRunOf(m, net, []) && AfterRun(m, net, []) == net;
  }

  lemma LeadsStep(m: Manner, net: Net, step: Step, net': Net)
    requires Leads(m, net, net') && Enabled(net', step) && Permitted(m, net', step)
    ensures Leads(m, net, Apply(net', step))
  {
    var steps :| IsRunOf(m, net, steps) && AfterRun(m, net, steps) == net';
    OneMore(m, net, steps, step);
    assert IsRunOf(m, net, steps + [step]);
  }

  lemma {:induction false} OneMore(m: Manner, net: Net, steps: seq<Step>, step: Step)
    requires IsRunOf(m, net, steps)
    requires Enabled(AfterRun(m, net, steps), step) && Permitted(m, AfterRun(m, net, steps), step)
    ensures IsRunOf(m, net, steps + [step])
    ensures AfterRun(m, net, steps + [step]) == Apply(AfterRun(m, net, steps), step)
    decreases |steps|
  {
    if steps == [] {
      assert steps + [step] == [step] && [step][1..] == [];
      assert IsRunOf(m, Apply(net, step), []);
      RunOfIsRun(m, net, [step]);
      assert After(net, [step]) == After(Apply(net, step), []);
    } else {
      assert (steps + [step])[1..] == steps[1..] + [step];
      OneMore(m, Apply(net, steps[0]), steps[1..], step);
    }
  }

  /** Nobody is between queueing a packet and calling radioMacStrobe. */
  predicate Undue(net: Net) { !net.a.strobeDue && !net.b.strobeDue }

  lemma {:induction false} RadioStaysUndue(net: Net, steps: seq<Step>)
    requires Undue(net) && IsRunOf(RadioOnly, net, steps)
    ensures Undue(AfterRun(RadioOnly, net, steps))
    decreases |steps|
  {
    if steps != [] {
      var step := steps[0];
      if step.Isr? {
        HandleKeepsStrobeDue(net.At(step.who), step.event, step.random);
      }
      hide Handle;
      RadioStaysUndue(Apply(net, step), steps[1..]);
    }
  }

  lemma StillUndue(start: Net, net: Net)
    requires Undue(start) && Leads(RadioOnly, start, net)
    ensures Undue(net)
  {
    var steps :| IsRunOf(RadioOnly, start, steps) && AfterRun(RadioOnly, start, steps) == net;
    RadioStaysUndue(start, steps);
  }

  /** A state reached from `start` in which the invariant holds; the radio by itself gets
      on only if no strobe is due. */
  ghost predicate Attains(m: Manner, start: Net, net: Net) {
    Leads(m, start, net) && Inv(net) && (m.RadioOnly? ==> Undue(start))
  }

  lemma Go(m: Manner, start: Net, net: Net, step: Step)
    requires Attains(m, start, net) && Enabled(net, step) && Permitted(m, net, step)
    ensures Attains(m, start, Apply(net, step))
  {
    LeadsStep(m, start, step, net);
    InvStep(net, step);
  }

  // ---------- rallies ----------

  // `who` is sending `f`, which fills the air, and the other node listens.
  predicate Serving(net: Net, who: bool, f: Frame) {
    net.At(who).mac == Sending(f) && net.air == InAir(who, f) && net.At(!who).mac.Listening?
  }

  predicate BothListening(net: Net) { net.a.mac.Listening? && net.b.mac.Listening? }

  predicate SameQueues(n: Node, n': Node) {
    n'.tx == n.tx && n'.rx == n.rx
  }

  // A node that is woken up sends what it has, or listens for ever.
  lemma Woken(n: Node, event: Event)
    requires event.Strobe? || event.RxTimeout?
    ensures var n' := Handle(n, event, 0);
      && SameQueues(n, n') && n'.mac == TakeInitiative(n).mac
      && (if n.tx.resetting || n.tx.Queued() then n'.mac.Sending? else n'.mac == Listening(0))
  {
  }

  lemma Finished(n: Node)
    ensures var n' := Handle(n, TxDone, 0); SameQueues(n, n') && n'.mac.Listening? && n'.mac.timeout > 0
  {
  }

  // A node finishes what it is sending, or starts up, and listens.
  lemma Rest(m: Manner, start: Net, net: Net, who: bool) returns (net': Net)
    requires Attains(m, start, net)
    ensures Attains(m, start, net') && net'.At(!who) == net.At(!who)
    ensures SameQueues(net.At(who), net'.At(who)) && net'.At(who).mac.Listening?
    ensures WakesUp(net.At(who)) && (net.At(who).tx.resetting || net.At(who).tx.Queued()) ==> WakesUp(net'.At(who))
    ensures !net.At(who).tx.resetting && !net.At(who).tx.Queued() ==> net'.air == net.air
    ensures net.At(who).mac.Listening? ==> net' == net
  {
    AwakeOf(net, who);
    hide Inv, Handle;
    net' := net;
    if net'.At(who).mac.Off? {
      Woken(net'.At(who), Strobe);
      Go(m, start, net', Isr(who, Strobe, 0));
      net' := Apply(net', Isr(who, Strobe, 0));
    }
    if net'.At(who).mac.Sending? {
      Finished(net'.At(who));
      Go(m, start, net', Isr(who, TxDone, 0));
      net' := Apply(net', Isr(who, TxDone, 0));
    }
  }

  lemma InitiativeIgnoresStrobe(n: Node)
    ensures TakeInitiative(CallStrobe(n)).mac == TakeInitiative(n).mac
  {
  }

  lemma AwakeOf(net: Net, who: bool)
    requires Inv(net)
    ensures Awake(net.At(who))
  {
  }

  // A node that is due to wake up and has something to say says it.
  lemma Serve(m: Manner, start: Net, net: Net, who: bool) returns (net': Net, f: Frame)
    requires Attains(m, start, net) && BothListening(net)
    requires WakesUp(net.At(who)) && (net.At(who).tx.resetting || net.At(who).tx.Queued())
    ensures Attains(m, start, net') && net'.At(!who) == net.At(!who)
    ensures SameQueues(net.At(who), net'.At(who)) && Serving(net', who, f)
    ensures f == TakeInitiative(net.At(who)).mac.frame
  {
    hide Inv, Handle, TakeInitiative;
    net' := net;
    if m.RadioOnly? {
      StillUndue(start, net);
    }
    if net'.At(who).mac.timeout > 0 {
      Woken(net'.At(who), RxTimeout);
      Go(m, start, net', Isr(who, RxTimeout, 0));
      net' := Apply(net', Isr(who, RxTimeout, 0));
    } else {
      if !net'.At(who).strobe {
        Go(m, start, net', MainStrobe(who));
        net' := Apply(net', MainStrobe(who));
        InitiativeIgnoresStrobe(net.At(who));
      }
      Woken(net'.At(who), Strobe);
      Go(m, start, net', Isr(who, Strobe, 0));
      net' := Apply(net', Isr(who, Strobe, 0));
    }
    f := net'.At(who).mac.frame;
  }

  // The frame in the air arrives.
  lemma Hit(m: Manner, start: Net, net: Net, who: bool, f: Frame) returns (net': Net)
    requires Attains(m, start, net) && Serving(net, who, f)
    ensures Attains(m, start, net')
    ensures SameQueues(net.At(who), net'.At(who))
    ensures net'.At(who).mac.Listening? && net'.At(who).mac.timeout > 0
    ensures net'.At(!who) == Handle(net.At(!who), Received(f), 0)
    ensures net'.At(!who).mac.Sending? ==> Serving(net', !who, net'.At(!who).mac.frame)
  {
    Go(m, start, net, Isr(who, TxDone, 0));
    net' := Apply(net, Isr(who, TxDone, 0));
    Go(m, start, net', Isr(!who, Received(f), 0));
    net' := Apply(net', Isr(!who, Received(f), 0));
  }

  // The frame in the air is lost, and its sender listens for a reply in vain.
  lemma Miss(m: Manner, start: Net, net: Net, who: bool, f: Frame) returns (net': Net)
    requires Attains(m, start, net) && Serving(net, who, f)
    ensures Attains(m, start, net') && BothListening(net')
    ensures SameQueues(net.At(who), net'.At(who)) && net'.At(who).mac.timeout > 0
    ensures net'.At(!who) == net.At(!who)
  {
    Go(m, start, net, Lose);
    net' := Apply(net, Lose);
    Go(m, start, net', Isr(who, TxDone, 0));
    net' := Apply(net', Isr(who, TxDone, 0));
  }

  // The main loop reads everything it has been given.
  lemma {:induction false} Drain(m: Manner, start: Net, net: Net, who: bool) returns (net': Net)
    requires Attains(m, start, net) && !m.RadioOnly?
    ensures Attains(m, start, net') && net'.At(!who) == net.At(!who) && net'.air == net.air
    ensures net'.At(who) == net.At(who).(rx := net.At(who).rx.(read := |net.At(who).rx.delivered|))
    decreases |net.At(who).rx.delivered| - net.At(who).rx.read
  {
    net' := net;
    if net.At(who).rx.read < |net.At(who).rx.delivered| {
      Go(m, start, net, MainRelease(who));
      net' := Drain(m, start, Apply(net, MainRelease(who)), who);
    }
  }

  // Both nodes finish what they are doing.
  lemma Calm(m: Manner, start: Net, net: Net, who: bool) returns (net': Net)
    requires Attains(m, start, net)
    ensures Attains(m, start, net') && BothListening(net')
    ensures SameQueues(net.At(who), net'.At(who)) && SameQueues(net.At(!who), net'.At(!who))
    ensures forall x :: WakesUp(net.At(x)) && (net.At(x).tx.resetting || net.At(x).tx.Queued()) ==> WakesUp(net'.At(x))
    ensures forall x :: net.At(x).tx.Queued() ==> WakesUp(net'.At(x))
  {
    net' := Rest(m, start, net, who);
    net' := Rest(m, start, net', !who);
  }

  // A node in its reset handshake that is due to wake up gets connected.
  lemma Connect(m: Manner, start: Net, net: Net, who: bool) returns (net': Net)
    requires Attains(m, start, net) && BothListening(net)
    requires net.At(who).tx.resetting && WakesUp(net.At(who))
    ensures Attains(m, start, net')
    ensures net'.At(who).tx == net.At(who).tx.(resetting := false) && net'.At(who).rx == net.At(who).rx
    ensures net'.At(!who).tx == net.At(!who).tx && net'.At(!who).rx == net.At(!who).rx.(bit := true)
    ensures net'.At(!who).mac.Listening? && net'.At(!who).mac.timeout > 0
    ensures if net.At(who).tx.Queued()
            then exists f :: Serving(net', who, f) && f.kind.Ping? && f.packet == net.At(who).tx.sent[0]
            else net'.At(who).mac.Listening?
  {
    var f;
    net', f := Serve(m, start, net, who);
    net' := Hit(m, start, net', who, f);
    net' := Hit(m, start, net', !who, net'.At(!who).mac.frame);
    if net.At(who).tx.Queued() {
      assert Serving(net', who, net'.At(who).mac.frame);
    }
  }

  lemma DataIsAcknowledged(n: Node, f: Frame)
    requires !f.kind.Reset? && f.packet.payload != [] && n.rx.Room()
    ensures var n' := Handle(n, Received(f), 0); n'.mac.Sending? && n'.mac.frame.kind.Ack?
  {
  }

  lemma AckReleases(n: Node, f: Frame)
    requires f.kind.Ack? && !n.tx.resetting && n.tx.Queued()
    ensures Handle(n, Received(f), 0).tx.acked == n.tx.acked + 1
  {
    hide Handle;
    HandleChange(n, Received(f), 0);
  }

  // Data that reaches a receiver with room is acknowledged.
  lemma Deliver(m: Manner, start: Net, net: Net, who: bool, f: Frame) returns (net': Net)
    requires Attains(m, start, net) && Serving(net, who, f) && !net.At(who).tx.resetting
    requires net.At(who).tx.Queued() && f.packet == net.At(who).tx.sent[net.At(who).tx.acked]
    requires !f.kind.Reset? && f.packet.payload != [] && net.At(!who).rx.Room()
    ensures Attains(m, start, net') && net'.At(who).tx.acked == net.At(who).tx.acked + 1
  {
    hide Inv, Handle;
    DataIsAcknowledged(net.At(!who), f);
    net' := Hit(m, start, net, who, f);
    var ack := net'.At(!who).mac.frame;
    AckReleases(net'.At(who), ack);
    net' := Hit(m, start, net', !who, ack);
  }

  /** A queued packet can still be acknowledged, whatever has happened so far, if and
      only if it has a payload. */
  lemma HeadCanBeAcknowledged(net: Net, who: bool)
    requires Inv(net) && net.At(who).tx.Queued()
    ensures !net.At(who).tx.Blocked() <==>
      exists net' :: Leads(Polite(who), net, net') && net'.At(who).tx.acked > net.At(who).tx.acked
  {
    var m := Polite(who);
    if net.At(who).tx.Blocked() {
      forall net' | Leads(m, net, net') ensures net'.At(who).tx.acked == net.At(who).tx.acked {
        var steps :| IsRunOf(m, net, steps) && AfterRun(m, net, steps) == net';
        RunOfIsRun(m, net, steps);
        EmptyPacketBlocksQueue(net, steps, who);
      }
    } else {
      LeadsNowhere(m, net);
      var net' := Calm(m, net, net, who);
      net' := Drain(m, net, net', !who);
      var f;
      if net'.At(who).tx.resetting {
        net' := Connect(m, net, net', who);
        f :| Serving(net', who, f) && f.kind.Ping? && f.packet == net.At(who).tx.sent[0];
      } else {
        net', f := Serve(m, net, net', who);
      }
      net' := Deliver(m, net, net', who, f);
    }
  }

  // ---------- exactly once from the very start ----------

  /** Every packet the receiver has been given, it has been given once. */
  predicate ExactlyOnce(net: Net, who: bool) {
    |net.At(!who).rx.delivered| == RadioNetwork.Reached(net.At(who).tx, net.At(!who).rx)
  }

  /** Data is queued although the reset handshake is not over, and neither node's
      queue is blocked by an empty packet. */
  predicate Hazard(net: Net, who: bool) {
    var tx := net.At(who).tx;
    tx.resetting && tx.Queued() && !tx.Blocked() && !net.At(!who).tx.Blocked()
  }

  lemma HandleHistory(n: Node, event: Event, random: nat)
    requires Handle(n, event, random).sentEarly && !n.sentEarly
    ensures event.Received? && event.frame.packet.payload != []
    ensures n.tx.resetting && n.tx.Queued() && !n.tx.Blocked()
  {
  }

  lemma QuietStep(net: Net, step: Step, who: bool)
    requires Inv(net) && Enabled(net, step) && Permitted(Polite(who), net, step)
    requires !net.At(who).sentEarly && !Hazard(net, who)
    ensures !Apply(net, step).At(who).sentEarly && !Hazard(Apply(net, step), who)
  {
    hide Handle, LinkOk;
    TxChange(net, step, who);
    if step.Isr? && Handle(net.At(step.who), step.event, step.random).sentEarly && !net.At(step.who).sentEarly {
      HandleHistory(net.At(step.who), step.event, step.random);
    }
    if net.At(!who).tx.Blocked() {
      BlockedStep(net, step, !who);
    }
  }

  /** Whatever the other node does, a node that queues only after radioLinkConnected has
      each of its packets delivered once. */
  lemma {:induction false} QuietRun(net: Net, steps: seq<Step>, who: bool)
    requires Inv(net) && IsRunOf(Polite(who), net, steps)
    requires !net.At(who).sentEarly && !Hazard(net, who)
    ensures ExactlyOnce(AfterRun(Polite(who), net, steps), who)
    decreases |steps|
  {
    if steps != [] {
      RunOfIsRun(Polite(who), net, steps);
      InvStep(net, steps[0]);
      QuietStep(net, steps[0], who);
      QuietRun(Apply(net, steps[0]), steps[1..], who);
    }
  }

  // A node still resetting answers data with data of its own, which counts as new
  // for a receiver that has a reset behind it.
  lemma DeliverEarly(m: Manner, start: Net, net: Net, who: bool, f: Frame) returns (net': Net, h: Frame)
    requires Attains(m, start, net) && Serving(net, !who, f) && !f.kind.Reset? && !f.kind.Ack? && f.packet.payload != []
    requires net.At(who).tx.resetting && net.At(who).tx.Queued() && !net.At(who).tx.Blocked()
    requires net.At(!who).rx.bit && net.At(!who).rx.Room()
    ensures Attains(m, start, net') && Serving(net', !who, h)
    ensures net'.At(who).tx == net.At(who).tx && net'.At(who).mac.Listening? && net'.At(who).mac.timeout > 0
    ensures net'.At(!who).rx == net.At(!who).rx.(bit := false, acceptAny := false,
                                 delivered := net.At(!who).rx.delivered + [net.At(who).tx.sent[0]])
  {
    hide FirstRepeated, TakeInitiative;
    net' := Hit(m, start, net, !who, f);
    var peer, g := net'.At(!who), net'.At(who).mac.frame;
    net' := Hit(m, start, net', who, g);
    HandleChange(peer, Received(g), 0);
    h := net'.At(!who).mac.frame;
  }

  // The peer of a node that is still resetting gets connected and sends it its data.
  lemma PeerSpeaks(m: Manner, start: Net, net: Net, who: bool) returns (net': Net, f: Frame)
    requires Attains(m, start, net) && BothListening(net) && Hazard(net, who) && net.At(!who).tx.Queued()
    requires WakesUp(net.At(who)) && WakesUp(net.At(!who))
    requires net.At(!who).rx.bit
    ensures Attains(m, start, net') && Serving(net', !who, f)
    ensures f.kind.Ping? && f.packet.payload != []
    ensures net'.At(who).tx == net.At(who).tx && net'.At(!who).rx == net.At(!who).rx
  {
    if net.At(!who).tx.resetting {
      // The reset of `who` makes the peer reply, and then it is its turn.
      net', f := Serve(m, start, net, who);
      net' := Hit(m, start, net', who, f);
      net' := Miss(m, start, net', !who, net'.At(!who).mac.frame);
      net' := Connect(m, start, net', !who);
      f :| Serving(net', !who, f) && f.kind.Ping? && f.packet == net.At(!who).tx.sent[0];
    } else {
      net', f := Serve(m, start, net, !who);
    }
  }

  // The first packet, once connected, counts as new after the reset that came with it.
  lemma DeliverAgain(m: Manner, start: Net, net: Net, who: bool) returns (net': Net)
    requires Attains(m, start, net) && BothListening(net) && WakesUp(net.At(who))
    requires net.At(who).tx.resetting && net.At(who).tx.Queued() && !net.At(who).tx.Blocked()
    requires net.At(!who).rx.delivered == [net.At(who).tx.sent[0]] && net.At(!who).rx.Room() && net.At(who).tx.acked == 0
    ensures Attains(m, start, net') && !ExactlyOnce(net', who)
    ensures net'.At(!who).rx.delivered == [net.At(who).tx.sent[0], net.At(who).tx.sent[0]]
  {
    hide FirstRepeated;
    net' := Connect(m, start, net, who);
    var f :| Serving(net', who, f) && f.kind.Ping? && f.packet == net.At(who).tx.sent[0];
    var receiver := net'.At(!who);
    HandleChange(receiver, Received(f), 0);
    net' := Hit(m, start, net', who, f);
  }

  lemma NothingDelivered(net: Net, who: bool)
    requires Inv(net) && net.At(who).tx.resetting && !net.At(who).sentEarly
    ensures var rx := net.At(!who).rx; rx.delivered == [] && rx.read == 0 && rx.bit
    ensures net.At(who).tx.acked == 0
  {
  }

  /** The radio alone can turn a hazard into a second delivery of the first packet, if the
      other node has something to send. */
  lemma Duplicate(m: Manner, start: Net, net: Net, who: bool) returns (net': Net)
    requires Attains(m, start, net) && !net.At(who).sentEarly && Hazard(net, who) && net.At(!who).tx.Queued()
    ensures Attains(m, start, net') && !ExactlyOnce(net', who)
    ensures net'.At(!who).rx.delivered == [net.At(who).tx.sent[0], net.At(who).tx.sent[0]]
  {
    NothingDelivered(net, who);
    hide Inv, Awake, TakeInitiative;
    net' := Calm(m, start, net, who);
    var f;
    net', f := PeerSpeaks(m, start, net', who);
    net', f := DeliverEarly(m, start, net', who, f);
    net' := Miss(m, start, net', !who, f);
    net' := DeliverAgain(m, start, net', who);
  }

  // A hazard can be turned into a second delivery of the first packet.
  lemma HazardDuplicates(net: Net, who: bool) returns (net': Net)
    requires Inv(net) && !net.At(who).sentEarly && Hazard(net, who)
    ensures Leads(Polite(who), net, net') && !ExactlyOnce(net', who)
  {
    var m := Polite(who);
    LeadsNowhere(m, net);
    net' := net;
    if !net.At(!who).tx.Queued() {
      if net.At(!who).strobeDue {
        Go(m, net, net', MainStrobe(!who));
        net' := Apply(net', MainStrobe(!who));
      }
      var something := MainQueue(!who, Packet(0, [0]));
      Go(m, net, net', something);
      net' := Apply(net', something);
    }
    net' := Duplicate(m, net, net', who);
  }

  /** Delivery is exactly once in every continuation in which the sender queues nothing
      more before radioLinkConnected, whatever its peer does, if and only if no data is
      queued early now. */
  lemma ExactlyOnceUnlessQueuedEarly(net: Net, who: bool)
    requires Inv(net) && !net.At(who).sentEarly
    ensures !Hazard(net, who) <==> forall net' :: Leads(Polite(who), net, net') ==> ExactlyOnce(net', who)
  {
    if Hazard(net, who) {
      var net' := HazardDuplicates(net, who);
    } else {
      forall net' | Leads(Polite(who), net, net') ensures ExactlyOnce(net', who) {
        var steps :| IsRunOf(Polite(who), net, steps) && AfterRun(Polite(who), net, steps) == net';
        QuietRun(net, steps, who);
      }
    }
  }

  /** So a single packet queued straight after radioLinkInit can arrive twice. */
  lemma EarlyPacketCanArriveTwice(p: Packet, who: bool)
    requires p.payload != []
    ensures exists steps :: IsRun(COLD_START, steps) && !ExactlyOnce(After(COLD_START, steps), who)
  {
    var queue := MainQueue(who, p);
    var net := Apply(COLD_START, queue);
    InvStep(COLD_START, queue);
    var net' := HazardDuplicates(net, who);
    var steps :| IsRunOf(Polite(who), net, steps) && AfterRun(Polite(who), net, steps) == net';
    RunOfIsRun(Polite(who), net, steps);
    var run := [queue] + steps;
    assert run[1..] == steps;
    assert IsRun(COLD_START, run) && After(COLD_START, run) == net';
  }
}
