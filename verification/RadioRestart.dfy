/** A link between Wixels that may be switched off and on again.  A packet that was
    acknowledged has been delivered, if its sender waits for radioLinkConnected before it
    queues anything; if it does not, an acknowledged packet can be lost. */
module RadioRestart {
  import opened RadioSpec
  import opened RadioNetwork
  import RadioProgress

  /** A packet the peer has accepted, and its place in the sender's `sent`. */
  datatype Taken = Taken(index: nat, packet: Packet)

  /** `fromA` and `fromB`, the history: the packets of a node's present life that its peer
      has accepted, in order.  The peer's lives are all counted. */
  datatype Link = Link(net: Net, fromA: seq<Taken>, fromB: seq<Taken>)
  {
    function Given(who: bool): seq<Taken> { if who then fromA else fromB }

    function WithGiven(who: bool, given: seq<Taken>): Link {
      if who then this.(fromA := given) else this.(fromB := given)
    }
  }

  const SWITCHED_ON := Link(COLD_START, [], [])

  datatype Happening = Ordinary(step: Step) | Restart(who: bool)

  predicate Possible(l: Link, h: Happening) { h.Ordinary? ==> Enabled(l.net, h.step) }

  /** A step in which the receiver takes in a packet of its peer's present life: a peer that
      has been switched on again has sent nothing until its radio is started. */
  predicate TakesIn(l: Link, step: Step)
    requires Enabled(l.net, step)
  {
    && step.Isr? && step.event.Received? && !l.net.At(!step.who).mac.Off?
    && |Apply(l.net, step).At(step.who).rx.delivered| > |l.net.At(step.who).rx.delivered|
  }

  function Happen(l: Link, h: Happening): Link
    requires Possible(l, h)
  {
    match h
    case Ordinary(step) =>
      var after := l.(net := Apply(l.net, step));
      if TakesIn(l, step) then
        after.WithGiven(!step.who, l.Given(!step.who) + [Taken(l.net.At(!step.who).tx.acked, step.event.frame.packet)])
      else after
    case Restart(who) => l.(net := l.net.With(who, INITIAL)).WithGiven(who, [])
  }

  ghost predicate IsStory(l: Link, story: seq<Happening>)
    decreases |story|
  {
    story == [] || (Possible(l, story[0]) && IsStory(Happen(l, story[0]), story[1..]))
  }

  ghost function AfterStory(l: Link, story: seq<Happening>): Link
    requires IsStory(l, story)
    decreases |story|
  {
    if story == [] then l else AfterStory(Happen(l, story[0]), story[1..])
  }

  /** `who` queues nothing before radioLinkConnected, in any of its lives. */
  predicate Waits(l: Link, h: Happening, who: bool) {
    h.Ordinary? && h.step.MainQueue? && h.step.who == who ==> !l.net.At(who).tx.resetting
  }

  ghost predicate IsPatientStory(l: Link, story: seq<Happening>, who: bool)
    decreases |story|
  {
    story == [] ||
    (Possible(l, story[0]) && Waits(l, story[0], who) && IsPatientStory(Happen(l, story[0]), story[1..], who))
  }

  // ---------- what is kept for a sender that waits ----------

  /** How many different packets of the sender's life have been accepted. */
  function Count(given: seq<Taken>): nat { if given == [] then 0 else given[|given| - 1].index + 1 }

  /** The packets in order, none left out; some may come twice in a row. */
  predicate InOrder(given: seq<Taken>) {
    && (given != [] ==> given[0].index == 0)
    && (forall i | 0 < i < |given| :: given[i - 1].index <= given[i].index <= given[i - 1].index + 1)
  }

  predicate Genuine(given: seq<Taken>, sent: seq<Packet>) {
    forall i | 0 <= i < |given| :: given[i].index < |sent| && given[i].packet == sent[given[i].index]
  }

  predicate SenderOk(n: Node, given: seq<Taken>, peer: Node) {
    && (n.tx.resetting ==> n.tx.sent == [] && given == [])
    && (n.mac.Off? ==> n.tx.resetting)
    && InOrder(given) && Genuine(given, n.tx.sent)
    && n.tx.acked <= Count(given) <= n.tx.acked + 1 && Count(given) <= |n.tx.sent|
    && (!n.tx.resetting ==> peer.rx.Fresh(n.tx.bit) || Count(given) == n.tx.acked + 1)
  }

  // What is known of a frame of the sender's present life on its way to the peer.
  predicate DataTrue(n: Node, f: Frame) {
    && (f.packet.payload != [] ==> n.tx.Queued() && f.bit == n.tx.bit && f.packet == n.tx.sent[n.tx.acked])
    && (f.kind.Reset? ==> n.tx.resetting)
  }

  // What is known of the acknowledgement in a frame on its way to the sender.
  predicate AckTrue(n: Node, given: seq<Taken>, peer: Node, f: Frame) {
    f.kind.Ack? ==>
      if n.tx.resetting then peer.rx.Fresh(false)
      else Count(given) == n.tx.acked + 1 && (peer.rx.acceptAny || peer.rx.bit == n.tx.bit)
  }

  predicate AirOk(air: Air, who: bool, n: Node, given: seq<Taken>, peer: Node) {
    air.InAir? && !n.mac.Off? ==>
      if air.from == who then DataTrue(n, air.frame) else AckTrue(n, given, peer, air.frame)
  }

  predicate Kept(l: Link, who: bool) {
    && SenderOk(l.net.At(who), l.Given(who), l.net.At(!who))
    && AirOk(l.net.air, who, l.net.At(who), l.Given(who), l.net.At(!who))
  }

  // What a node sends is true of itself, and it acknowledges only what it has just heard.
  lemma InitiativeSends(n: Node)
    ensures var n' := TakeInitiative(n); n'.mac.Sending? ==> DataTrue(n', n'.mac.frame) && !n'.mac.frame.kind.Ack?
  {
  }

  lemma RespondSends(n: Node, kind: Kind)
    requires !kind.Reset?
    ensures var n' := Respond(n, kind); n'.mac.Sending? && DataTrue(n', n'.mac.frame) && n'.mac.frame.kind == kind
  {
  }

  predicate CallsForAck(rx: Inbound, event: Event) {
    event.Received? &&
    (event.frame.kind.Reset? || (event.frame.packet.payload != [] && Response(rx, event.frame).Ack?))
  }

  lemma HandleSends(n: Node, event: Event, random: nat)
    ensures var n' := Handle(n, event, random);
      && !n'.mac.Off?
      && (n'.mac.Sending? ==> DataTrue(n', n'.mac.frame) && (n'.mac.frame.kind.Ack? ==> CallsForAck(n.rx, event)))
  {
    hide TakeInitiative, Respond, Accept, Response, OnAck;
    InitiativeSends(n);
    if event.Received? {
      var f := event.frame;
      var n1 := if f.kind.Ack? then OnAck(n) else n;
      InitiativeSends(n1);
      ResponseKind(n1.rx, f);
      RespondSends(n1.(rx := Accept(n1.rx, f)), Response(n1.rx, f));
      AckKeepsInbound(n);
    }
  }

  lemma ResponseKind(rx: Inbound, f: Frame)
    ensures !Response(rx, f).Reset?
  {
  }

  lemma AckKeepsInbound(n: Node)
    ensures OnAck(n).rx == n.rx
  {
  }

  // ---------- every happening keeps it ----------

  lemma OneMoreTaken(given: seq<Taken>, sent: seq<Packet>, k: nat)
    requires InOrder(given) && Genuine(given, sent) && k < |sent| && k <= Count(given) <= k + 1
    ensures var given' := given + [Taken(k, sent[k])];
      InOrder(given') && Genuine(given', sent) && Count(given') == k + 1
  {
  }

  // Data of the present life reaches the peer.
  lemma DataArrives(n: Node, given: seq<Taken>, peer: Node, f: Frame, random: nat)
    requires SenderOk(n, given, peer) && DataTrue(n, f) && !n.mac.Off?
    ensures var peer' := Handle(peer, Received(f), random);
      var given' := if |peer'.rx.delivered| > |peer.rx.delivered| then given + [Taken(n.tx.acked, f.packet)] else given;
      && SenderOk(n, given', peer')
      && (peer'.mac.Sending? ==> AckTrue(n, given', peer', peer'.mac.frame))
  {
    HandleSends(peer, Received(f), random);
    HandleChange(peer, Received(f), random);
    if n.tx.Queued() {
      OneMoreTaken(given, n.tx.sent, n.tx.acked);
    }
    hide Handle, InOrder, Genuine, Count;
  }

  // The sender hears something.
  lemma AckArrives(n: Node, given: seq<Taken>, peer: Node, event: Event, random: nat)
    requires SenderOk(n, given, peer) && (event.Received? ==> AckTrue(n, given, peer, event.frame))
    requires n.mac.Off? ==> !event.Received?
    ensures var n' := Handle(n, event, random);
      SenderOk(n', given, peer) && (n'.mac.Sending? ==> DataTrue(n', n'.mac.frame))
  {
    HandleSends(n, event, random);
    HandleChange(n, event, random);
    hide Handle;
  }

  // The peer hears something of an earlier life, or nothing.
  lemma PeerActs(n: Node, given: seq<Taken>, peer: Node, event: Event, random: nat)
    requires SenderOk(n, given, peer) && (event.Received? ==> n.mac.Off?)
    ensures var peer' := Handle(peer, event, random);
      && SenderOk(n, given, peer')
      && (peer'.mac.Sending? && !n.mac.Off? ==> AckTrue(n, given, peer', peer'.mac.frame))
  {
    HandleSends(peer, event, random);
    HandleChange(peer, event, random);
    hide Handle;
  }

  // A sender that has just been switched on starts with a transmission.
  lemma FirstEventSends(n: Node, event: Event, random: nat)
    requires n.mac.Off? && n.tx.resetting && event.Strobe?
    ensures Handle(n, event, random).mac.Sending?
  {
  }

  lemma OffIsResetting(n: Node, given: seq<Taken>, peer: Node)
    requires SenderOk(n, given, peer)
    ensures n.mac.Off? ==> n.tx.resetting
  {
  }

  lemma QuietEvent(n: Node, event: Event, random: nat)
    ensures !event.Received? ==> Handle(n, event, random).tx == n.tx
    ensures !Handle(n, event, random).mac.Off?
  {
    HandleChange(n, event, random);
    HandleSends(n, event, random);
    hide Handle;
  }

  lemma SenderStep(l: Link, who: bool, event: Event, random: nat)
    requires Kept(l, who) && Enabled(l.net, Isr(who, event, random))
    ensures Kept(Happen(l, Ordinary(Isr(who, event, random))), who)
  {
    var n, peer := l.net.At(who), l.net.At(!who);
    hide Handle, SenderOk;
    OffIsResetting(n, l.Given(who), peer);
    AckArrives(n, l.Given(who), peer, event, random);
    QuietEvent(n, event, random);
    if n.mac.Off? {
      FirstEventSends(n, event, random);
    }
  }

  lemma PeerStep(l: Link, who: bool, event: Event, random: nat)
    requires Kept(l, who) && Enabled(l.net, Isr(!who, event, random))
    ensures Kept(Happen(l, Ordinary(Isr(!who, event, random))), who)
  {
    var n, peer := l.net.At(who), l.net.At(!who);
    HandleChange(peer, event, random);
    if event.Received? && !n.mac.Off? {
      DataArrives(n, l.Given(who), peer, event.frame, random);
    } else {
      PeerActs(n, l.Given(who), peer, event, random);
    }
    hide Handle, SenderOk, DataTrue, Accept;
  }

  lemma MainStep(l: Link, who: bool, step: Step)
    requires Kept(l, who) && Enabled(l.net, step) && !step.Isr? && Waits(l, Ordinary(step), who)
    ensures Kept(Happen(l, Ordinary(step)), who)
  {
  }

  lemma RestartStep(l: Link, who: bool, x: bool)
    requires Kept(l, who)
    ensures Kept(Happen(l, Restart(x)), who)
  {
  }

  lemma KeptStep(l: Link, h: Happening, who: bool)
    requires Kept(l, who) && Possible(l, h) && Waits(l, h, who)
    ensures Kept(Happen(l, h), who)
  {
    hide Kept, Happen;
    if h.Restart? {
      RestartStep(l, who, h.who);
    } else if !h.step.Isr? {
      MainStep(l, who, h.step);
    } else if h.step.who == who {
      SenderStep(l, who, h.step.event, h.step.random);
    } else {
      PeerStep(l, who, h.step.event, h.step.random);
    }
  }

  lemma {:induction false} KeptStory(l: Link, story: seq<Happening>, who: bool)
    requires Kept(l, who) && IsPatientStory(l, story, who)
    ensures IsStory(l, story) && Kept(AfterStory(l, story), who)
    decreases |story|
  {
    hide Kept, Happen;
    if story != [] {
      KeptStep(l, story[0], who);
      KeptStory(Happen(l, story[0]), story[1..], who);
    }
  }

  /** However often either Wixel is switched off and on, and whatever the peer does: if
      `who` queues only after its radioLinkConnected, the packets of its present life that
      its peer has been given come in order and without a gap, at most one of them is
      unacknowledged, and every acknowledged one is among them. */
  lemma NothingAcknowledgedIsLost(story: seq<Happening>, who: bool)
    requires IsPatientStory(SWITCHED_ON, story, who)
    ensures IsStory(SWITCHED_ON, story)
    ensures var l := AfterStory(SWITCHED_ON, story); var n, given := l.net.At(who), l.Given(who);
      && InOrder(given) && Genuine(given, n.tx.sent) && n.tx.acked <= Count(given) <= n.tx.acked + 1
      && n.tx.acked <= |n.tx.sent| && forall k | 0 <= k < n.tx.acked :: Taken(k, n.tx.sent[k]) in given
  {
    KeptStory(SWITCHED_ON, story, who);
    var l := AfterStory(SWITCHED_ON, story);
    var tx := l.net.At(who).tx;
    forall k | 0 <= k < tx.acked ensures Taken(k, tx.sent[k]) in l.Given(who) {
      NoGap(l.Given(who), tx.sent, k);
    }
  }

  lemma {:induction false} NoGap(given: seq<Taken>, sent: seq<Packet>, k: nat)
    requires InOrder(given) && Genuine(given, sent) && k < Count(given)
    ensures k < |sent| && Taken(k, sent[k]) in given
    decreases |given|
  {
    var last := given[|given| - 1];
    if k < last.index {
      NoGap(given[..|given| - 1], sent, k);
    } else {
      assert last == Taken(k, sent[k]);
    }
  }

  // ---------- a sender that does not wait ----------

  ghost predicate CanHappen(l: Link) {
    exists story :: IsStory(SWITCHED_ON, story) && AfterStory(SWITCHED_ON, story) == l
  }

  lemma AtFirst()
    ensures CanHappen(SWITCHED_ON)
  {
    assert IsStory(SWITCHED_ON, []) && AfterStory(SWITCHED_ON, []) == SWITCHED_ON;
  }

  lemma Then(l: Link, h: Happening)
    requires CanHappen(l) && Possible(l, h)
    ensures CanHappen(Happen(l, h))
  {
    var story :| IsStory(SWITCHED_ON, story) && AfterStory(SWITCHED_ON, story) == l;
    OneMore(SWITCHED_ON, story, h);
    assert IsStory(SWITCHED_ON, story + [h]);
  }

  lemma {:induction false} OneMore(l: Link, story: seq<Happening>, h: Happening)
    requires IsStory(l, story) && Possible(AfterStory(l, story), h)
    ensures IsStory(l, story + [h]) && AfterStory(l, story + [h]) == Happen(AfterStory(l, story), h)
    decreases |story|
  {
    hide Happen;
    if story == [] {
      assert story + [h] == [h] && [h][1..] == [];
      assert IsStory(Happen(l, h), []) && AfterStory(Happen(l, h), []) == Happen(l, h);
    } else {
      assert (story + [h])[1..] == story[1..] + [h];
      OneMore(Happen(l, story[0]), story[1..], h);
    }
  }

  predicate Serving(l: Link, who: bool, f: Frame) {
    l.net.At(who).mac == Sending(f) && l.net.air == InAir(who, f) && l.net.At(!who).mac.Listening?
  }

  predicate SameQueues(n: Node, n': Node) { n'.tx == n.tx && n'.rx == n.rx && n'.strobeDue == n.strobeDue }

  // A node is woken up.
  lemma Wake(l: Link, who: bool, event: Event) returns (l': Link)
    requires CanHappen(l) && (event.Strobe? || event.RxTimeout?) && Enabled(l.net, Isr(who, event, 0))
    requires l.net.At(who).tx.resetting || l.net.At(who).tx.Queued()
    ensures CanHappen(l') && l'.net.At(!who) == l.net.At(!who) && l'.fromA == l.fromA && l'.fromB == l.fromB
    ensures SameQueues(l.net.At(who), l'.net.At(who))
    ensures l'.net.At(who).mac == TakeInitiative(l.net.At(who)).mac
    ensures l'.net.At(who).mac.Sending? && l'.net.air == InAir(who, l'.net.At(who).mac.frame)
  {
    hide Handle;
    HandleKeepsStrobeDue(l.net.At(who), event, 0);
    RadioProgress.Woken(l.net.At(who), event);
    Then(l, Ordinary(Isr(who, event, 0)));
    l' := Happen(l, Ordinary(Isr(who, event, 0)));
  }

  lemma Finish(l: Link, who: bool) returns (l': Link)
    requires CanHappen(l) && l.net.At(who).mac.Sending?
    ensures CanHappen(l') && l'.net.At(!who) == l.net.At(!who) && l'.fromA == l.fromA && l'.fromB == l.fromB
    ensures l'.net.air == l.net.air && SameQueues(l.net.At(who), l'.net.At(who))
    ensures l'.net.At(who).mac.Listening? && l'.net.At(who).mac.timeout > 0
  {
    hide Handle;
    HandleKeepsStrobeDue(l.net.At(who), TxDone, 0);
    RadioProgress.Finished(l.net.At(who));
    Then(l, Ordinary(Isr(who, TxDone, 0)));
    l' := Happen(l, Ordinary(Isr(who, TxDone, 0)));
  }

  // The frame in the air arrives.
  lemma Arrive(l: Link, who: bool, f: Frame) returns (l': Link)
    requires CanHappen(l) && Serving(l, who, f)
    ensures CanHappen(l') && SameQueues(l.net.At(who), l'.net.At(who))
    ensures l'.net.At(who).mac.Listening? && l'.net.At(who).mac.timeout > 0
    ensures l'.net.At(!who) == Handle(l.net.At(!who), Received(f), 0)
    ensures l'.net.At(!who).mac.Sending? ==> Serving(l', !who, l'.net.At(!who).mac.frame)
    ensures l'.Given(!who) == l.Given(!who)
    ensures l'.net.At(!who).rx.delivered == l.net.At(!who).rx.delivered ==> l'.Given(who) == l.Given(who)
  {
    hide Handle;
    l' := Finish(l, who);
    Then(l', Ordinary(Isr(!who, Received(f), 0)));
    l' := Happen(l', Ordinary(Isr(!who, Received(f), 0)));
  }

  const SOME := Packet(0, [0])

  lemma Enqueue(l: Link, who: bool) returns (l': Link)
    requires CanHappen(l) && l.net.At(who).tx.sent == [] && l.net.At(who).tx.acked == 0 && !l.net.At(who).strobeDue
    ensures CanHappen(l') && l' == l.(net := l.net.With(who, Queue(l.net.At(who), SOME)))
  {
    Then(l, Ordinary(MainQueue(who, SOME)));
    l' := Happen(l, Ordinary(MainQueue(who, SOME)));
  }

  // Both Wixels are switched on; A's reset is answered, and B has a packet to send.
  lemma AConnects() returns (l: Link)
    ensures CanHappen(l) && l.fromA == []
    ensures var a, b := l.net.a, l.net.b;
      && a.mac.Listening? && a.tx == Outbound([], 0, false, false) && a.rx == INITIAL.rx && !a.strobeDue
      && b.mac.Listening? && b.mac.timeout > 0 && b.tx == Outbound([SOME], 0, false, true)
  {
    AtFirst();
    l := Wake(SWITCHED_ON, true, Event.Strobe);
    l := Finish(l, true);
    l := Enqueue(l, false);
    l := Wake(l, false, Event.Strobe);
    l := Finish(l, false);
    l := Wake(l, true, RxTimeout);
    l := Arrive(l, true, l.net.a.mac.frame);
    l := Arrive(l, false, l.net.b.mac.frame);
  }

  // B connects too, and sends its packet.
  lemma BConnects() returns (l: Link)
    ensures CanHappen(l) && l.fromA == []
    ensures var a := l.net.a;
      && a.mac.Listening? && a.tx == Outbound([], 0, false, false) && !a.strobeDue
      && a.rx == INITIAL.rx && Serving(l, false, Frame(Ping, false, SOME))
  {
    l := AConnects();
    l := Wake(l, false, RxTimeout);
    l := Arrive(l, false, l.net.b.mac.frame);
    l := Arrive(l, true, l.net.a.mac.frame);
  }

  // A acknowledges it.
  lemma FirstLife() returns (l: Link)
    ensures CanHappen(l) && l.fromA == []
    ensures var a := l.net.a;
      && a.mac.Sending? && a.tx == Outbound([], 0, false, false) && !a.strobeDue
      && !a.rx.bit && !a.rx.acceptAny
  {
    l := BConnects();
    l := Arrive(l, false, l.net.b.mac.frame);
  }

  // B is switched off and on and queues a packet at once; its reset is not heard, and A
  // sends a packet of its own.
  lemma SecondLife() returns (l: Link)
    ensures CanHappen(l) && l.fromB == []
    ensures var a, b := l.net.a, l.net.b;
      && a.tx == Outbound([SOME], 0, false, false) && !a.rx.bit && !a.rx.acceptAny
      && b.tx == Outbound([SOME], 0, false, true) && b.rx == INITIAL.rx
      && Serving(l, true, Frame(Ping, false, SOME))
  {
    l := FirstLife();
    Then(l, Restart(false));
    l := Happen(l, Restart(false));
    l := Enqueue(l, false);
    l := Wake(l, false, Event.Strobe);
    l := Finish(l, false);
    l := Enqueue(l, true);
    l := Finish(l, true);
    l := Wake(l, true, RxTimeout);
  }

  // B answers A's packet with its own.
  lemma Crossing() returns (l: Link)
    ensures CanHappen(l) && l.fromB == []
    ensures var a, b := l.net.a, l.net.b;
      && a.tx == Outbound([SOME], 0, false, false) && !a.rx.bit && !a.rx.acceptAny
      && b.tx == Outbound([SOME], 0, false, true) && Serving(l, false, Frame(Ack, false, SOME))
  {
    l := SecondLife();
    l := Arrive(l, true, l.net.a.mac.frame);
  }

  // A does not take it, and B takes A's
  // acknowledgement for the end of its handshake.
  lemma NotTaken() returns (l: Link)
    ensures CanHappen(l) && l.fromB == []
    ensures var a := l.net.a;
      && a.tx == Outbound([SOME], 1, true, false) && !a.rx.bit && !a.rx.acceptAny
      && l.net.b.tx == Outbound([SOME], 0, false, false) && Serving(l, false, Frame(Ping, false, SOME))
  {
    l := Crossing();
    l := Arrive(l, false, l.net.b.mac.frame);
    l := Arrive(l, true, l.net.a.mac.frame);
  }

  /** If the Wixel that was switched off and on does not wait, its packet can be
      acknowledged although it has never been delivered: the other one takes it for a
      repetition of the packet it got before. */
  lemma RestartCanLose()
    ensures exists l :: CanHappen(l) && l.net.b.tx.acked == 1 && l.fromB == []
  {
    var l := NotTaken();
    l := Arrive(l, false, l.net.b.mac.frame);
    l := Arrive(l, true, l.net.a.mac.frame);
  }
}
