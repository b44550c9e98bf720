/** Two Wixels on one channel.  The air holds at most one frame: a node that
    transmits cannot hear, so its frame displaces whatever was in the air, and the
    frame in the air can be lost at any moment. */
module RadioNetwork {
  import opened RadioSpec

  datatype Air = Silent | InAir(from: bool, frame: Frame)

  datatype Net = Net(a: Node, b: Node, air: Air)
  {
    function At(who: bool): Node { if who then a else b }

    function With(who: bool, n: Node): Net {
      if who then this.(a := n) else this.(b := n)
    }
  }

  const COLD_START := Net(INITIAL, INITIAL, Silent)

  /** One atomic step: a main-loop statement, a radio interrupt, or the loss of a frame. */
  datatype Step =
    | MainQueue(who: bool, packet: Packet)
    | MainStrobe(who: bool)
    | MainRelease(who: bool)
    | Isr(who: bool, event: Event, random: nat)
    | Lose

  predicate Raised(net: Net, who: bool, event: Event) {
    var n := net.At(who);
    match event
    case TxDone => n.mac.Sending?
    case Received(f) => n.mac.Listening? && net.air == InAir(!who, f)
    case CrcFailed => n.mac.Listening?
    case RxTimeout => n.mac.Listening? && n.mac.timeout > 0
    case Strobe => n.strobe && !n.mac.Sending?
  }

  predicate Enabled(net: Net, step: Step) {
    match step
    case MainQueue(who, p) => net.At(who).tx.Room() && !net.At(who).strobeDue
    case MainStrobe(who) => net.At(who).strobeDue
    case MainRelease(who) => net.At(who).rx.read < |net.At(who).rx.delivered|
    case Isr(who, event, _) => Raised(net, who, event)
    case Lose => true
  }

  // The radio comes out of an interrupt in the state the handler chose; if that is
  // transmitting, the frame takes over the air.  A received frame leaves the air.
  function Interrupt(net: Net, who: bool, event: Event, random: nat): Net {
    var n := Handle(net.At(who), event, random);
    var air := if n.mac.Sending? then InAir(who, n.mac.frame)
               else if event.Received? then Silent
               else net.air;
    net.With(who, n).(air := air)
  }

  function Apply(net: Net, step: Step): Net
    requires Enabled(net, step)
  {
    match step
    case MainQueue(who, p) => net.With(who, Queue(net.At(who), p))
    case MainStrobe(who) => net.With(who, CallStrobe(net.At(who)))
    case MainRelease(who) => net.With(who, Release(net.At(who)))
    case Isr(who, event, random) => Interrupt(net, who, event, random)
    case Lose => net.(air := Silent)
  }

  /** `steps` can be taken one after another from `net`. */
  predicate IsRun(net: Net, steps: seq<Step>)
    decreases |steps|
  {
    steps == [] || (Enabled(net, steps[0]) && IsRun(Apply(net, steps[0]), steps[1..]))
  }

  function After(net: Net, steps: seq<Step>): Net
    requires IsRun(net, steps)
    decreases |steps|
  {
    if steps == [] then net else After(Apply(net, steps[0]), steps[1..])
  }

  // ---------- invariants ----------

  /** With packets queued, something is bound to call the event handler. */
  predicate Awake(n: Node) {
    (n.mac.Off? ==> n.strobe) && (n.tx.Queued() ==> WakesUp(n))
  }

  predicate WakesUp(n: Node) {
    n.mac.Sending? || (n.mac.Listening? && n.mac.timeout > 0) || n.strobe || n.strobeDue
  }

  predicate TxOk(tx: Outbound) {
    && tx.acked <= |tx.sent| < tx.acked + TX_PACKET_COUNT
    && (tx.resetting ==> tx.acked == 0)
    && tx.bit == (tx.acked % 2 == 1)
  }

  predicate RxOk(rx: Inbound) {
    && rx.read <= |rx.delivered| < rx.read + RX_PACKET_COUNT
    && (rx.acceptAny ==> rx.delivered == [] && rx.bit)
    && (forall i | 0 <= i < |rx.delivered| :: rx.delivered[i].payload != [])
  }

  /** The receiver already has the packet the sender is trying to send. */
  predicate Current(tx: Outbound, rx: Inbound) {
    !tx.resetting && tx.bit == rx.bit
  }

  /** How many different packets of the sender the receiver has been given. */
  function Reached(tx: Outbound, rx: Inbound): nat {
    if Current(tx, rx) then tx.acked + 1
    else if tx.acked == 0 && rx.delivered != [] then 1
    else tx.acked
  }

  /** `log` is the first `reached` packets of `sent`, the first one at least once
      and the others exactly once each. */
  predicate FirstRepeated(log: seq<Packet>, sent: seq<Packet>, reached: nat) {
    && reached <= |sent| && reached <= |log|
    && (reached == 0 ==> log == [])
    && (reached > 0 ==>
          var k := |log| - reached + 1;
          && (forall i | 0 <= i < k :: log[i] == sent[0])
          && log[k..] == sent[1..reached])
  }

  /** Nothing has been delivered twice. */
  predicate Clean(tx: Outbound, rx: Inbound) {
    |rx.delivered| == tx.acked + if Current(tx, rx) then 1 else 0
  }

  /** One direction of the link: a sender and the other node's receiver. */
  predicate LinkOk(tx: Outbound, sentEarly: bool, rx: Inbound) {
    && TxOk(tx) && RxOk(rx)
    && FirstRepeated(rx.delivered, tx.sent, Reached(tx, rx))
    && (tx.resetting && !rx.bit ==> rx.delivered != [])
    && (sentEarly || Clean(tx, rx))
  }

  predicate PairOk(n: Node, peer: Node) {
    LinkOk(n.tx, n.sentEarly, peer.rx) && LinkOk(peer.tx, peer.sentEarly, n.rx)
  }

  /** What is known of the data in a frame on its way from `s`. */
  predicate DataOk(tx: Outbound, sentEarly: bool, f: Frame) {
    f.packet.payload != [] ==>
      && tx.Queued() && f.packet == tx.sent[tx.acked] && f.bit == tx.bit
      && (tx.resetting ==> sentEarly)
  }

  /** What is known of the packet type of a frame from a node with receiver `rx`
      to a node that sends from `tx`. */
  predicate AckOk(rx: Inbound, tx: Outbound) {
    !tx.resetting ==> tx.Queued() && Current(tx, rx) && !rx.acceptAny
  }

  predicate FrameOk(s: Node, r: Node, f: Frame) {
    && DataOk(s.tx, s.sentEarly, f)
    && (f.kind.Reset? ==> s.tx.resetting)
    && (f.kind.Ack? ==> AckOk(s.rx, r.tx))
  }

  predicate Inv(net: Net) {
    && PairOk(net.a, net.b)
    && Awake(net.a) && Awake(net.b)
    && (net.air.InAir? ==> FrameOk(net.At(net.air.from), net.At(!net.air.from), net.air.frame))
  }

  // ---------- every step keeps the invariant ----------

  // Queueing one more packet does not disturb what has been delivered.
  lemma QueueKeeps(tx: Outbound, early: bool, rx: Inbound, p: Packet)
    requires LinkOk(tx, early, rx) && tx.Room()
    ensures LinkOk(tx.(sent := tx.sent + [p]), early, rx)
  {
    var m := Reached(tx, rx);
    if m > 0 {
      assert (tx.sent + [p])[1..m] == tx.sent[1..m];
    }
  }

  lemma AckKeeps(n: Node, rx: Inbound)
    requires LinkOk(n.tx, n.sentEarly, rx) && AckOk(rx, n.tx)
    ensures LinkOk(OnAck(n).tx, n.sentEarly, rx)
  {
  }

  lemma AnotherPacket(log: seq<Packet>, sent: seq<Packet>, m: nat)
    requires FirstRepeated(log, sent, m) && m < |sent|
    ensures FirstRepeated(log + [sent[m]], sent, m + 1)
  {
    if m > 0 {
      var k := |log| - m + 1;
      assert (log + [sent[m]])[k..] == log[k..] + [sent[m]];
      assert sent[1..m] + [sent[m]] == sent[1..m + 1];
    }
  }

  lemma FirstPacketAgain(log: seq<Packet>, sent: seq<Packet>)
    requires FirstRepeated(log, sent, 1)
    ensures FirstRepeated(log + [sent[0]], sent, 1)
  {
  }

  // After data has been looked at, an ACK is due exactly if the receiver has it.
  lemma AcceptKeeps(tx: Outbound, early: bool, rx: Inbound, f: Frame)
    requires LinkOk(tx, early, rx) && DataOk(tx, early, f) && f.packet.payload != []
    ensures LinkOk(tx, early, Accept(rx, f))
    ensures Response(rx, f).Ack? ==> AckOk(Accept(rx, f), tx)
  {
    if rx.Fresh(f.bit) && rx.Room() {
      if tx.acked == 0 && rx.delivered != [] {
        FirstPacketAgain(rx.delivered, tx.sent);
      } else {
        AnotherPacket(rx.delivered, tx.sent, tx.acked);
      }
    }
  }

  lemma HistoryKeeps(tx: Outbound, early: bool, rx: Inbound)
    requires LinkOk(tx, early, rx)
    ensures LinkOk(tx, true, rx)
  {
  }

  lemma ResetKeeps(tx: Outbound, early: bool, rx: Inbound)
    requires LinkOk(tx, early, rx) && tx.resetting
    ensures LinkOk(tx, early, rx.(bit := true)) && AckOk(rx.(bit := true), tx)
  {
  }

  lemma ReleaseKeeps(tx: Outbound, early: bool, rx: Inbound)
    requires LinkOk(tx, early, rx) && rx.read < |rx.delivered|
    ensures LinkOk(tx, early, rx.(read := rx.read + 1))
  {
  }

  // Sending what Respond or TakeInitiative decides on.
  lemma RespondKeeps(n: Node, peer: Node, kind: Kind)
    requires PairOk(n, peer)
    requires kind.Nak? || (kind.Ack? && AckOk(n.rx, peer.tx))
    ensures var n' := Respond(n, kind);
      PairOk(n', peer) && n'.mac.Sending? && FrameOk(n', peer, n'.mac.frame)
  {
    hide LinkOk;
    HistoryKeeps(n.tx, n.sentEarly, peer.rx);
  }

  lemma InitiativeKeeps(n: Node, peer: Node)
    requires PairOk(n, peer)
    ensures var n' := TakeInitiative(n);
      && PairOk(n', peer)
      && (n'.mac.Sending? ==> FrameOk(n', peer, n'.mac.frame))
      && !n'.mac.Off? && (n'.tx.Queued() ==> n'.mac.Sending?)
  {
    hide LinkOk;
    HistoryKeeps(n.tx, n.sentEarly, peer.rx);
  }

  lemma FrameKeeps(n: Node, peer: Node, f: Frame)
    requires PairOk(n, peer) && FrameOk(peer, n, f)
    ensures var n' := OnFrame(n, f);
      && PairOk(n', peer)
      && (n'.mac.Sending? ==> FrameOk(n', peer, n'.mac.frame))
      && !n'.mac.Off? && (n'.tx.Queued() ==> n'.mac.Sending?)
  {
    hide LinkOk, AckOk;
    if f.kind.Reset? {
      ResetKeeps(peer.tx, peer.sentEarly, n.rx);
    } else {
      if f.kind.Ack? { AckKeeps(n, peer.rx); }
      var n1 := if f.kind.Ack? then OnAck(n) else n;
      if f.packet.payload != [] {
        AcceptKeeps(peer.tx, peer.sentEarly, n1.rx, f);
        RespondKeeps(n1.(rx := Accept(n1.rx, f)), peer, Response(n1.rx, f));
      } else {
        InitiativeKeeps(n1, peer);
      }
    }
  }

  lemma HandleKeeps(n: Node, peer: Node, event: Event, random: nat)
    requires PairOk(n, peer)
    requires event.Received? ==> FrameOk(peer, n, event.frame)
    ensures var n' := Handle(n, event, random);
      && PairOk(n', peer)
      && Awake(n')
      && (n'.mac.Sending? ==> FrameOk(n', peer, n'.mac.frame))
      && (n'.mac.Sending? || event.Received? || (n'.tx == n.tx && n'.rx == n.rx && n'.sentEarly == n.sentEarly))
  {
    hide LinkOk, OnFrame;
    match event
    case Received(f) => FrameKeeps(n, peer, f);
    case Strobe => InitiativeKeeps(n, peer);
    case RxTimeout => InitiativeKeeps(n, peer);
    case TxDone =>
    case CrcFailed =>
  }

  lemma InvStep(net: Net, step: Step)
    requires Inv(net) && Enabled(net, step)
    ensures Inv(Apply(net, step))
  {
    hide LinkOk, Handle;
    match step
    case MainQueue(who, p) => QueueKeeps(net.At(who).tx, net.At(who).sentEarly, net.At(!who).rx, p);
    case MainRelease(who) =>
      ReleaseKeeps(net.At(!who).tx, net.At(!who).sentEarly, net.At(who).rx);
    case Isr(who, event, random) => HandleKeeps(net.At(who), net.At(!who), event, random);
    case MainStrobe(_) =>
    case Lose =>
  }

  // ---------- what one step can do to one node ----------

  lemma TxChange(net: Net, step: Step, who: bool)
    requires Inv(net) && Enabled(net, step)
    ensures var tx, tx' := net.At(who).tx, Apply(net, step).At(who).tx;
      if step.MainQueue? && step.who == who then
        tx' == tx.(sent := tx.sent + [step.packet])
      else if step.Isr? && step.who == who && step.event.Received? && step.event.frame.kind.Ack? then
        (tx.resetting || tx.Queued()) && tx' == Acknowledge(tx)
      else
        tx' == tx
  {
    hide Handle, LinkOk;
    if step.Isr? { HandleChange(net.At(step.who), step.event, step.random); }
  }

  lemma RxChange(net: Net, step: Step, who: bool)
    requires Inv(net) && Enabled(net, step)
    ensures var rx, rx' := net.At(who).rx, Apply(net, step).At(who).rx;
      if step.MainRelease? && step.who == who then
        rx' == rx.(read := rx.read + 1)
      else if step.Isr? && step.who == who && step.event.Received? && step.event.frame.kind.Reset? then
        net.At(!who).tx.resetting && rx' == rx.(bit := true)
      else if step.Isr? && step.who == who && step.event.Received? && step.event.frame.packet.payload != [] then
        DataOk(net.At(!who).tx, net.At(!who).sentEarly, step.event.frame) && rx' == Accept(rx, step.event.frame)
      else
        rx' == rx
  {
    hide Handle, LinkOk;
    if step.Isr? { HandleChange(net.At(step.who), step.event, step.random); }
  }
}
