/** What one Wixel's radio_link and radio_mac do to their state, one interrupt or
    one main-loop step at a time.  The rings of the implementation appear here as
    logs: `sent` is everything the main loop ever queued and `acked` how much of it
    the peer has acknowledged; `delivered` is everything ever accepted from the
    peer and `read` how much of that the main loop has released. */
module RadioSpec {

  const TX_PACKET_COUNT := 16
  const RX_PACKET_COUNT := 3
  const RADIO_LINK_PAYLOAD_SIZE := 18
  const RADIO_LINK_MAX_PAYLOAD_TYPE := 15

  datatype Packet = Packet(payloadType: bv8, payload: seq<bv8>)

  datatype Kind = Ping | Nak | Ack | Reset

  // An RF packet.  One without data (a bare ACK, NAK or reset) has an empty payload.
  datatype Frame = Frame(kind: Kind, bit: bool, packet: Packet)

  const NO_DATA := Packet(0, [])

  // What the radio is doing; a timeout of 0 means listening for ever.
  datatype Mac = Off | Listening(timeout: nat) | Sending(frame: Frame)

  datatype Event = TxDone | Received(frame: Frame) | CrcFailed | RxTimeout | Strobe

  // What this node sends: `bit` is txSequenceBit, `resetting` is sendingReset.
  datatype Outbound = Outbound(sent: seq<Packet>, acked: nat, bit: bool, resetting: bool)
  {
    predicate Queued() { acked < |sent| }

    predicate Room() { |sent| < acked + TX_PACKET_COUNT - 1 }

    // The packet being sent has no payload, so the peer will never acknowledge it.
    predicate Blocked() { Queued() && sent[acked].payload == [] }
  }

  // What this node receives: `bit` is rxSequenceBit, `acceptAny` is acceptAnySequenceBit.
  datatype Inbound = Inbound(delivered: seq<Packet>, read: nat, bit: bool, acceptAny: bool)
  {
    predicate Room() { |delivered| < read + RX_PACKET_COUNT - 1 }

    predicate Fresh(bit: bool) { acceptAny || this.bit != bit }
  }

  datatype Node = Node(
    tx: Outbound, rx: Inbound, mac: Mac, tries: nat, strobe: bool,
    resetReceived: bool, activity: bool,
    strobeDue: bool,   // the main loop has queued a packet but not yet called radioMacStrobe
    sentEarly: bool)   // history: some data was transmitted while sendingReset was set

  // The state radioLinkInit leaves behind.
  const INITIAL := Node(Outbound([], 0, false, true), Inbound([], 0, true, true), Off, 0, true,
                        false, false, false, false)

  function Bump(tries: nat): nat {
    if tries < 255 then tries + 1 else tries
  }

  function RandomTxDelay(tries: nat, random: nat): nat {
    (if tries > 200 then 250 else 1) + random % 4
  }

  function TxShort(n: Node, kind: Kind): Node {
    n.(mac := Sending(Frame(kind, false, NO_DATA)))
  }

  function TxData(n: Node, kind: Kind): Node
    requires n.tx.Queued()
  {
    n.(mac := Sending(Frame(kind, n.tx.bit, n.tx.sent[n.tx.acked])),
       tries := Bump(n.tries),
       sentEarly := n.sentEarly || (n.tx.resetting && n.tx.sent[n.tx.acked].payload != []))
  }

  function TakeInitiative(n: Node): (r: Node)
    ensures r.tx == n.tx && r.rx == n.rx && !r.mac.Off? && r.strobeDue == n.strobeDue
    ensures r.mac.Listening? ==> !n.tx.resetting && !n.tx.Queued()
  {
    if n.tx.resetting then
      TxShort(n, Reset).(tries := Bump(n.tries), activity := true)
    else if n.tx.Queued() then
      TxData(n, Ping).(activity := true)
    else
      n.(mac := Listening(0))
  }

  // An ACK ends the reset handshake or else releases the packet being sent.
  function Acknowledge(tx: Outbound): Outbound
    requires tx.resetting || tx.Queued()
  {
    if tx.resetting then tx.(resetting := false, bit := false)
    else tx.(acked := tx.acked + 1, bit := !tx.bit)
  }

  function OnAck(n: Node): Node {
    if n.tx.resetting || n.tx.Queued() then n.(tx := Acknowledge(n.tx), tries := 0) else n
  }

  function Accept(rx: Inbound, f: Frame): Inbound {
    if rx.Fresh(f.bit) && rx.Room() then
      rx.(delivered := rx.delivered + [f.packet], bit := f.bit, acceptAny := false)
    else
      rx
  }

  function Response(rx: Inbound, f: Frame): Kind {
    if rx.Fresh(f.bit) && !rx.Room() then Nak else Ack
  }

  function Respond(n: Node, kind: Kind): (r: Node)
    ensures r.tx == n.tx && r.rx == n.rx && r.mac.Sending? && r.strobeDue == n.strobeDue
  {
    (if n.tx.Queued() then TxData(n, kind) else TxShort(n, kind)).(activity := true)
  }

  function OnFrame(n: Node, f: Frame): Node {
    if f.kind.Reset? then
      TxShort(n, Ack).(rx := n.rx.(bit := true), resetReceived := true, activity := true)
    else
      var n := if f.kind.Ack? then OnAck(n) else n;
      if f.packet.payload != [] then
        Respond(n.(rx := Accept(n.rx, f)), Response(n.rx, f))
      else
        TakeInitiative(n)
  }

  /** radioMacEventHandler, followed by radioMacEvent's clearing of the strobe bit. */
  function Handle(n: Node, event: Event, random: nat): Node {
    (match event
     case Strobe => TakeInitiative(n)
     case TxDone => n.(mac := Listening(RandomTxDelay(n.tries, random)))
     case CrcFailed => n.(mac := Listening(if n.tx.Queued() then RandomTxDelay(n.tries, random) else 0))
     case Received(f) => OnFrame(n, f)
     case RxTimeout => TakeInitiative(n)).(strobe := false)
  }

  lemma InitiativeIgnoresMac(n: Node)
    ensures TakeInitiative(n) == TakeInitiative(n.(mac := Off))
  {
  }

  lemma RespondIgnoresMac(n: Node, kind: Kind)
    ensures Respond(n, kind) == Respond(n.(mac := Off), kind)
  {
  }

  lemma FrameIgnoresMac(n: Node, f: Frame)
    ensures OnFrame(n, f) == OnFrame(n.(mac := Off), f)
  {
    hide TakeInitiative, Respond, Accept, Response, Acknowledge;
    var n1 := if f.kind.Ack? then OnAck(n) else n;
    InitiativeIgnoresMac(n1);
    RespondIgnoresMac(n1.(rx := Accept(n1.rx, f)), Response(n1.rx, f));
  }

  // The handler decides what the radio does next whatever it has been doing.
  lemma HandleIgnoresMac(n: Node, event: Event, random: nat)
    ensures Handle(n, event, random) == Handle(n.(mac := Off), event, random)
  {
    hide TakeInitiative, OnFrame;
    InitiativeIgnoresMac(n);
    if event.Received? {
      FrameIgnoresMac(n, event.frame);
    }
  }

  // What one event can do to the two logs and their sequence bits.
  lemma HandleChange(n: Node, event: Event, random: nat)
    ensures var n' := Handle(n, event, random);
      && n'.tx == (if event.Received? && event.frame.kind.Ack? then OnAck(n).tx else n.tx)
      && n'.rx == (if event.Received? && event.frame.kind.Reset? then n.rx.(bit := true)
                   else if event.Received? && event.frame.packet.payload != [] then Accept(n.rx, event.frame)
                   else n.rx)
  {
    hide TakeInitiative, Respond;
  }

  lemma HandleOnlyAcks(n: Node, event: Event, random: nat)
    ensures var tx := Handle(n, event, random).tx; tx.sent == n.tx.sent && tx.acked >= n.tx.acked
  {
    hide Handle;
    HandleChange(n, event, random);
  }

  lemma HandleKeepsStrobeDue(n: Node, event: Event, random: nat)
    ensures Handle(n, event, random).strobeDue == n.strobeDue
  {
    hide TakeInitiative, Respond, Accept, Response;
  }

  /** The part of radioLinkTxSendPacket up to the index update. */
  function Queue(n: Node, p: Packet): Node {
    n.(tx := n.tx.(sent := n.tx.sent + [p]), strobeDue := true)
  }

  function CallStrobe(n: Node): Node {
    n.(strobe := true, strobeDue := false)
  }

  function Release(n: Node): Node {
    n.(rx := n.rx.(read := n.rx.read + 1))
  }
}
