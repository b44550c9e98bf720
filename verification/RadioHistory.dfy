/** The histories and notes a node keeps, told from the steps of a run alone. */
module RadioHistory {
  import opened RadioSpec
  import opened RadioNetwork
  import opened RadioDelivery

  // ---------- what one event makes a node send, and for how long it listens ----------

  // Data, a reset packet, or an answer goes out.
  predicate Speaks(event: Event, tx: Outbound) {
    match event
    case TxDone => false
    case CrcFailed => false
    case Received(f) => f.kind.Reset? || f.packet.payload != [] || tx.resetting || tx.Queued()
    case _ => tx.resetting || tx.Queued()
  }

  predicate IsReset(event: Event) { event.Received? && event.frame.kind.Reset? }

  predicate IsData(event: Event) { event.Received? && !event.frame.kind.Reset? && event.frame.packet.payload != [] }

  /** The packet at the head of the queue goes along: with every answer to data, and on
      the node's own initiative once its handshake is over, but not with the answer to a reset. */
  predicate Carries(event: Event, tx: Outbound) {
    tx.Queued() && !IsReset(event) && (IsData(event) || !tx.resetting)
  }

  /** What a node that speaks says, given what it knew before and what it knows now. */
  predicate Says(n: Node, event: Event, n': Node, f: Frame) {
    && (if Carries(event, n'.tx) then f.packet == n'.tx.sent[n'.tx.acked] && f.bit == n'.tx.bit
        else f.packet == NO_DATA && !f.bit)
    && f.kind == if IsReset(event) then Ack
                 else if IsData(event) then (if n.rx.Fresh(event.frame.bit) && n'.rx == n.rx then Nak else Ack)
                 else (if n'.tx.resetting then Reset else Ping)
  }

  lemma HandleSpeaks(n: Node, event: Event, random: nat)
    ensures var n' := Handle(n, event, random);
      && !n'.mac.Off? && (n'.mac.Sending? <==> Speaks(event, n'.tx))
      && (n'.mac.Sending? ==> Says(n, event, n', n'.mac.frame))
  {
    hide TakeInitiative, OnFrame;
    InitiativeSpeaks(n);
    if event.Received? {
      FrameSpeaks(n, event.frame);
    }
  }

  lemma FrameSpeaks(n: Node, f: Frame)
    ensures var n', event := OnFrame(n, f), Received(f);
      && !n'.mac.Off? && (n'.mac.Sending? <==> Speaks(event, n'.tx))
      && (n'.mac.Sending? ==> Says(n, event, n', n'.mac.frame))
  {
    hide TakeInitiative, Respond, Accept, Response, OnAck;
    var n1 := if f.kind.Ack? then OnAck(n) else n;
    AckEffect(n);
    InitiativeSpeaks(n1);
    ResponseSpeaks(n1, f);
  }

  lemma InitiativeSpeaks(n: Node)
    ensures var n' := TakeInitiative(n);
      && n'.tx == n.tx && !n'.mac.Off? && (n'.mac.Sending? <==> n.tx.resetting || n.tx.Queued())
      && (n'.mac.Sending? ==>
            var f := n'.mac.frame;
            if n.tx.resetting then f == Frame(Reset, false, NO_DATA)
            else f == Frame(Ping, n.tx.bit, n.tx.sent[n.tx.acked]))
  {
  }

  lemma ResponseSpeaks(n: Node, f: Frame)
    ensures var rx := Accept(n.rx, f); var kind := Response(n.rx, f); var n' := Respond(n.(rx := rx), kind);
      && kind == (if n.rx.Fresh(f.bit) && rx == n.rx then Nak else Ack)
      && n'.tx == n.tx && n'.rx == rx
      && n'.mac == Sending(if n.tx.Queued() then Frame(kind, n.tx.bit, n.tx.sent[n.tx.acked]) else Frame(kind, false, NO_DATA))
  {
  }

  /** How long it listens: for ever with nothing to say, and otherwise 1 to 4 units, or
      250 to 253 after more than 200 tries, as the last two random bits have it. */
  lemma HandleListens(n: Node, event: Event, random: nat)
    ensures var n' := Handle(n, event, random); n'.mac.Listening? ==>
      if event.TxDone? || (event.CrcFailed? && n.tx.Queued()) then
        n'.mac.timeout - random % 4 == if n.tries > 200 then 250 else 1
      else n'.mac.timeout == 0
  {
    hide Accept, Response, Acknowledge;
  }

  /** Data on its way during the handshake. */
  predicate EarlyNow(n: Node) { n.mac.Sending? && n.mac.frame.packet.payload != [] && n.tx.resetting }

  lemma InitiativeEffect(n: Node)
    ensures var n' := TakeInitiative(n);
      && n'.tries == (if n'.mac.Sending? then Bump(n.tries) else n.tries)
      && (n'.mac.Sending? && !(n.tx.Queued() && !n.tx.resetting) ==> n'.mac.frame.kind.Reset?)
      && n'.activity == (n.activity || n'.mac.Sending?) && n'.resetReceived == n.resetReceived
      && n'.sentEarly == n.sentEarly && !EarlyNow(n')
  {
  }

  lemma ResponseEffect(n: Node, kind: Kind)
    requires !kind.Reset?
    ensures var n' := Respond(n, kind);
      && n'.mac.Sending? && !n'.mac.frame.kind.Reset?
      && n'.tries == (if n.tx.Queued() then Bump(n.tries) else n.tries)
      && n'.activity && n'.resetReceived == n.resetReceived && n'.sentEarly == (n.sentEarly || EarlyNow(n'))
  {
  }

  lemma AckEffect(n: Node)
    ensures var n' := OnAck(n);
      && n'.rx == n.rx && n'.tries == (if n.tx.resetting || n.tx.Queued() then 0 else n.tries)
      && n'.activity == n.activity && n'.resetReceived == n.resetReceived && n'.sentEarly == n.sentEarly
      && n'.strobeDue == n.strobeDue && n'.mac == n.mac
  {
  }

  /** Notes for the main loop: any transmission is activity, and only a received reset is
      reported as one. */
  lemma HandleNotes(n: Node, event: Event, random: nat)
    ensures var n' := Handle(n, event, random);
      && (n'.activity <==> n.activity || n'.mac.Sending?)
      && (n'.resetReceived <==> n.resetReceived || IsReset(event))
      && !n'.strobe && n'.strobeDue == n.strobeDue
  {
    hide TakeInitiative, Respond, Accept, OnAck;
    InitiativeEffect(n);
    if event.Received? {
      var f := event.frame;
      var n1 := if f.kind.Ack? then OnAck(n) else n;
      AckEffect(n);
      InitiativeEffect(n1);
      ResponseEffect(n1.(rx := Accept(n1.rx, f)), Response(n1.rx, f));
    }
  }

  // ---------- tries ----------

  // A packet of the node's own goes out, not just an answer.
  predicate SendsOwn(n: Node, event: Event) {
    n.mac.Sending? && (Carries(event, n.tx) || n.mac.frame.kind.Reset?)
  }

  predicate IsAcknowledged(n: Node, event: Event) {
    event.Received? && event.frame.kind.Ack? && (n.tx.resetting || n.tx.Queued())
  }

  function CountOn(count: nat, n: Node, event: Event, n': Node): nat {
    (if IsAcknowledged(n, event) then 0 else count) + if SendsOwn(n', event) then 1 else 0
  }

  function AtMost255(count: nat): nat { if count > 255 then 255 else count }

  lemma HandleTries(n: Node, event: Event, random: nat)
    ensures var n' := Handle(n, event, random); var tries := if IsAcknowledged(n, event) then 0 else n.tries;
      n'.tries == if SendsOwn(n', event) then Bump(tries) else tries
  {
    hide OnFrame, TakeInitiative, Bump;
    InitiativeEffect(n);
    if event.Received? {
      FrameTries(n, event.frame);
    }
  }

  lemma FrameTries(n: Node, f: Frame)
    ensures var n', event := OnFrame(n, f), Received(f); var tries := if IsAcknowledged(n, event) then 0 else n.tries;
      n'.tries == if SendsOwn(n', event) then Bump(tries) else tries
  {
    hide TakeInitiative, Respond, Accept, OnAck, Bump, EarlyNow;
    var n1 := if f.kind.Ack? then OnAck(n) else n;
    AckEffect(n);
    InitiativeEffect(n1);
    ResponseEffect(n1.(rx := Accept(n1.rx, f)), Response(n1.rx, f));
  }

  lemma HandleCounts(n: Node, event: Event, random: nat, count: nat)
    requires n.tries == AtMost255(count)
    ensures var n' := Handle(n, event, random); n'.tries == AtMost255(CountOn(count, n, event, n'))
  {
    HandleTries(n, event, random);
    hide Handle, IsAcknowledged, SendsOwn;
  }

  lemma HandleEarly(n: Node, event: Event, random: nat)
    ensures var n' := Handle(n, event, random); n'.sentEarly <==> n.sentEarly || EarlyNow(n')
  {
    hide TakeInitiative, Respond, Accept, OnAck;
    InitiativeEffect(n);
    if event.Received? {
      var f := event.frame;
      var n1 := if f.kind.Ack? then OnAck(n) else n;
      AckEffect(n);
      InitiativeEffect(n1);
      ResponseEffect(n1.(rx := Accept(n1.rx, f)), Response(n1.rx, f));
    }
  }

  // ---------- runs ----------

  function QueuedBy(step: Step, who: bool): seq<Packet> {
    if step.MainQueue? && step.who == who then [step.packet] else []
  }

  /** What the main loop of `who` queues in a run. */
  function QueuedIn(steps: seq<Step>, who: bool): seq<Packet> {
    if steps == [] then [] else QueuedBy(steps[0], who) + QueuedIn(steps[1..], who)
  }

  function ReleasedIn(steps: seq<Step>, who: bool): nat {
    if steps == [] then 0
    else (if steps[0].MainRelease? && steps[0].who == who then 1 else 0) + ReleasedIn(steps[1..], who)
  }

  /** Whether the latest of the main loop's calls has queued a packet and has not strobed yet. */
  predicate BeforeStrobe(due: bool, steps: seq<Step>, who: bool)
    decreases |steps|
  {
    if steps == [] then due
    else
      var step := steps[0];
      var due' := if step.MainQueue? && step.who == who then true
                  else if step.MainStrobe? && step.who == who then false
                  else due;
      BeforeStrobe(due', steps[1..], who)
  }

  predicate ResetHeard(steps: seq<Step>, who: bool) {
    exists step :: step in steps && step.Isr? && step.who == who && IsReset(step.event)
  }

  predicate EverSends(net: Net, steps: seq<Step>, who: bool)
    requires IsRun(net, steps)
    decreases |steps|
  {
    steps != [] &&
    var net' := Apply(net, steps[0]);
    (steps[0].Isr? && steps[0].who == who && net'.At(who).mac.Sending?) || EverSends(net', steps[1..], who)
  }

  predicate EverEarly(net: Net, steps: seq<Step>, who: bool)
    requires IsRun(net, steps)
    decreases |steps|
  {
    EarlyNow(net.At(who)) || (steps != [] && EverEarly(Apply(net, steps[0]), steps[1..], who))
  }

  /** How often the node has sent packets of its own since it last was acknowledged. */
  function Transmissions(net: Net, steps: seq<Step>, who: bool, count: nat): nat
    requires IsRun(net, steps)
    decreases |steps|
  {
    if steps == [] then count
    else
      var net' := Apply(net, steps[0]);
      var ours := steps[0].Isr? && steps[0].who == who;
      Transmissions(net', steps[1..], who,
                    if ours then CountOn(count, net.At(who), steps[0].event, net'.At(who)) else count)
  }

  // What the main loops ask for is what the node has on record.
  lemma {:induction false} QueueTells(net: Net, steps: seq<Step>, who: bool)
    requires IsRun(net, steps)
    ensures var n, n' := net.At(who), After(net, steps).At(who);
      && n'.tx.sent == n.tx.sent + QueuedIn(steps, who)
      && n'.rx.read == n.rx.read + ReleasedIn(steps, who)
      && n'.strobeDue == BeforeStrobe(n.strobeDue, steps, who)
    decreases |steps|
  {
    if steps != [] {
      MainEffect(net, steps[0], who);
      hide Apply, Enabled;
      QueueTells(Apply(net, steps[0]), steps[1..], who);
    }
  }

  lemma MainEffect(net: Net, step: Step, who: bool)
    requires Enabled(net, step)
    ensures var n, n' := net.At(who), Apply(net, step).At(who);
      && n'.tx.sent == n.tx.sent + QueuedBy(step, who)
      && n'.rx.read == n.rx.read + ReleasedIn([step], who)
      && n'.strobeDue == BeforeStrobe(n.strobeDue, [step], who)
  {
    if step.Isr? {
      HandleChange(net.At(step.who), step.event, step.random);
      HandleNotes(net.At(step.who), step.event, step.random);
    }
    hide Handle, OnAck, Accept;
    assert [step][1..] == [];
  }

  lemma {:induction false} NotesTell(net: Net, steps: seq<Step>, who: bool)
    requires IsRun(net, steps)
    ensures var n, n' := net.At(who), After(net, steps).At(who);
      && (n'.activity <==> n.activity || EverSends(net, steps, who))
      && (n'.resetReceived <==> n.resetReceived || ResetHeard(steps, who))
    decreases |steps|
  {
    if steps != [] {
      NoteEffect(net, steps[0], who);
      hide Apply, Enabled, IsReset;
      NotesTell(Apply(net, steps[0]), steps[1..], who);
      assert steps == [steps[0]] + steps[1..];
    }
  }

  lemma NoteEffect(net: Net, step: Step, who: bool)
    requires Enabled(net, step)
    ensures var n, n' := net.At(who), Apply(net, step).At(who); var ours := step.Isr? && step.who == who;
      && (n'.activity <==> n.activity || (ours && n'.mac.Sending?))
      && (n'.resetReceived <==> n.resetReceived || (ours && IsReset(step.event)))
  {
    if step.Isr? {
      HandleNotes(net.At(step.who), step.event, step.random);
    }
    hide Handle;
  }

  lemma {:induction false} EarlyTells(net: Net, steps: seq<Step>, who: bool)
    requires IsRun(net, steps) && (EarlyNow(net.At(who)) ==> net.At(who).sentEarly)
    ensures After(net, steps).At(who).sentEarly <==> net.At(who).sentEarly || EverEarly(net, steps, who)
    decreases |steps|
  {
    if steps != [] {
      EarlyEffect(net, steps[0], who);
      hide Apply, Enabled, EarlyNow;
      EarlyTells(Apply(net, steps[0]), steps[1..], who);
    }
  }

  lemma EarlyEffect(net: Net, step: Step, who: bool)
    requires Enabled(net, step) && (EarlyNow(net.At(who)) ==> net.At(who).sentEarly)
    ensures var n, n' := net.At(who), Apply(net, step).At(who); n'.sentEarly <==> n.sentEarly || EarlyNow(n')
  {
    if step.Isr? {
      HandleEarly(net.At(step.who), step.event, step.random);
    }
    hide Handle;
  }

  lemma {:induction false} TriesTell(net: Net, steps: seq<Step>, who: bool, count: nat)
    requires IsRun(net, steps) && net.At(who).tries == AtMost255(count)
    ensures After(net, steps).At(who).tries == AtMost255(Transmissions(net, steps, who, count))
    decreases |steps|
  {
    if steps != [] {
      var n, net', step := net.At(who), Apply(net, steps[0]), steps[0];
      if step.Isr? && step.who == who {
        HandleCounts(n, step.event, step.random, count);
      }
      hide Handle, CountOn, AtMost255;
      TriesTell(net', steps[1..], who,
                if step.Isr? && step.who == who then CountOn(count, n, step.event, net'.At(who)) else count);
    }
  }

  // ---------- the promises again, from the steps of a run alone ----------

  /** After any run from a cold start, the receiver's log is what the sender's main loop
      queued in it, with at most the first packet repeated; and exactly a prefix of it if
      no data ever went out during the handshake. */
  lemma DeliveredIsQueued(steps: seq<Step>, who: bool)
    requires IsRun(COLD_START, steps)
    ensures var net := After(COLD_START, steps); var rx := net.At(!who).rx;
      && FirstRepeated(rx.delivered, QueuedIn(steps, who), Reached(net.At(who).tx, rx))
      && (!EverEarly(COLD_START, steps, who) ==> rx.delivered <= QueuedIn(steps, who))
      && rx.read == ReleasedIn(steps, !who) <= |rx.delivered|
  {
    ColdStartSafety(steps, who);
    QueueTells(COLD_START, steps, who);
    QueueTells(COLD_START, steps, !who);
    EarlyTells(COLD_START, steps, who);
    InvRun(COLD_START, steps);
    hide After, IsRun, EverEarly, FirstRepeated, Reached;
    assert [] + QueuedIn(steps, who) == QueuedIn(steps, who);
  }

  /** What a node does in a reachable state depends on how often it has sent since it was
      last acknowledged: after the end of a transmission it listens for 1 to 4 units, or
      for 250 to 253 once it has sent more than 200 times. */
  lemma DelayFollowsTransmissions(steps: seq<Step>, who: bool, random: nat)
    requires IsRun(COLD_START, steps) && After(COLD_START, steps).At(who).mac.Sending?
    ensures var mac := Handle(After(COLD_START, steps).At(who), TxDone, random).mac;
      && mac.Listening?
      && (if Transmissions(COLD_START, steps, who, 0) > 200 then 250 <= mac.timeout <= 253 else 1 <= mac.timeout <= 4)
  {
    TriesTell(COLD_START, steps, who, 0);
    var n := After(COLD_START, steps).At(who);
    hide After, IsRun, Transmissions;
    HandleListens(n, TxDone, random);
    HandleSpeaks(n, TxDone, random);
  }

  /** A reset is reported to the higher-level code exactly if one has been received, and
      activity exactly if the node has transmitted. */
  lemma NotesAreHistory(steps: seq<Step>, who: bool)
    requires IsRun(COLD_START, steps)
    ensures var n := After(COLD_START, steps).At(who);
      && (n.resetReceived <==> ResetHeard(steps, who)) && (n.activity <==> EverSends(COLD_START, steps, who))
      && (n.strobeDue <==> BeforeStrobe(false, steps, who))
  {
    NotesTell(COLD_START, steps, who);
    QueueTells(COLD_START, steps, who);
  }
}
