/** radio_com on two Wixels with radio_link and the air between them, one statement of the
    main loops at a time as far as an interrupt can tell. */
module ComWorld {
  import opened RadioSpec
  import opened RadioNetwork
  import opened ComSpec

  /** The program on one Wixel, as far as radio_com sees it. */
  datatype Program = Program(s: Sender, r: Receiver)

  datatype World = World(net: Net, a: Program, b: Program)
  {
    function Prog(who: bool): Program { if who then a else b }

    function With(who: bool, p: Program): World {
      if who then this.(a := p) else this.(b := p)
    }
  }

  /** A radio interrupt or loss, or what a radio_com function does between two moments at
      which an interrupt can come: it loads a byte, takes note of a received reset or of
      new signals, hands over a packet of bytes or signals, calls radioMacStrobe, opens a
      packet of bytes, takes over received signals, reads a byte, or reports signals.
      TxSendByte, TxService, TxControlSignals, RxAvailable, RxReceiveByte and
      RxControlSignals are sequences of these. */
  datatype Act =
    | Radio(step: Step)
    | LoadByte(who: bool, byte: bv8)
    | NoteReset(who: bool)
    | NoteSignals(who: bool, signals: bv8)
    | FlushData(who: bool)
    | FlushSignals(who: bool)
    | StrobeRadio(who: bool)
    | OpenPacket(who: bool)
    | AdoptSignals(who: bool)
    | ReadByte(who: bool)
    | ReportSignals(who: bool)

  // ---------- what an act does ----------

  /** The caller has seen that there is capacity; data goes when a packet is full, before
      signals, or when few packets are queued; signals go when no byte is loaded. */
  predicate SenderReady(s: Sender, n: Node, act: Act) {
    match act
    case LoadByte(_, _) => Capacity(s, n.tx.acked) > 0 && |s.loaded| < RADIO_LINK_PAYLOAD_SIZE
    case NoteReset(_) => n.resetReceived
    case NoteSignals(_, signals) => signals != s.signals
    case FlushData(_) =>
      s.loaded != [] &&
      (|s.loaded| == RADIO_LINK_PAYLOAD_SIZE || s.soon || |s.sent| - n.tx.acked <= TX_QUEUE_THRESHOLD)
    case FlushSignals(_) => s.soon && s.loaded == []
    case _ => true
  }

  function SenderAfter(s: Sender, act: Act): Sender {
    match act
    case LoadByte(_, b) => Load(s, b)
    case NoteReset(_) => s.(soon := true)
    case NoteSignals(_, signals) => s.(signals := signals, soon := true)
    case FlushData(_) => SendData(s)
    case FlushSignals(_) => SendSignals(s)
    case _ => s
  }

  predicate ReceiverReady(r: Receiver, act: Act) {
    match act
    case OpenPacket(_) =>
      r.left == [] && !Waiting(r) && r.read < |r.delivered| && r.delivered[r.read].payloadType == PAYLOAD_TYPE_DATA
    case AdoptSignals(_) =>
      && r.left == [] && !Waiting(r) && r.read < |r.delivered| && r.delivered[r.read].payload != []
      && r.delivered[r.read].payloadType == PAYLOAD_TYPE_CONTROL_SIGNALS
    case ReadByte(_) => r.left != []
    case _ => true
  }

  function ReceiverAfter(r: Receiver, act: Act): Receiver
    requires ReceiverReady(r, act)
  {
    match act
    case OpenPacket(_) => StartPacket(r)
    case AdoptSignals(_) => TakeSignals(r)
    case ReadByte(_) => TakeByte(r)
    case ReportSignals(_) => r.(reported := r.signals)
    case _ => r
  }

  /** What the act asks of radio_link: at most one step. */
  function LinkSteps(p: Program, act: Act): seq<Step> {
    match act
    case FlushData(who) => [MainQueue(who, Packet(PAYLOAD_TYPE_DATA, p.s.loaded))]
    case FlushSignals(who) => [MainQueue(who, Packet(PAYLOAD_TYPE_CONTROL_SIGNALS, [p.s.signals]))]
    case StrobeRadio(who) => [MainStrobe(who)]
    case AdoptSignals(who) => [MainRelease(who)]
    case ReadByte(who) => if |p.r.left| == 1 then [MainRelease(who)] else []
    case _ => []
  }

  predicate ActEnabled(w: World, act: Act) {
    if act.Radio? then (act.step.Isr? || act.step.Lose?) && Enabled(w.net, act.step)
    else
      var p := w.Prog(act.who);
      && SenderReady(p.s, w.net.At(act.who), act) && ReceiverReady(p.r, act)
      && forall step | step in LinkSteps(p, act) :: Enabled(w.net, step)
  }

  function Linked(net: Net, p: Program, act: Act): Net
    requires !act.Radio? && forall step | step in LinkSteps(p, act) :: Enabled(net, step)
  {
    var steps := LinkSteps(p, act);
    if steps != [] then Apply(net, steps[0])
    else if act.NoteReset? then net.With(act.who, net.At(act.who).(resetReceived := false))
    else net
  }

  function Refreshed(p: Program, n: Node): Program { p.(r := p.r.(delivered := n.rx.delivered)) }

  function After(w: World, act: Act): World
    requires ActEnabled(w, act)
  {
    if act.Radio? then
      var net := Apply(w.net, act.step);
      World(net, Refreshed(w.a, net.a), Refreshed(w.b, net.b))
    else
      var p := w.Prog(act.who);
      w.(net := Linked(w.net, p, act)).With(act.who, Program(SenderAfter(p.s, act), ReceiverAfter(p.r, act)))
  }

  // ---------- the functions of radio_com as acts ----------

  function SenderAfterAll(s: Sender, acts: seq<Act>): Sender
    decreases |acts|
  {
    if acts == [] then s else SenderAfterAll(SenderAfter(s, acts[0]), acts[1..])
  }

  predicate ReceiverReadyAll(r: Receiver, acts: seq<Act>)
    decreases |acts|
  {
    acts == [] || (ReceiverReady(r, acts[0]) && ReceiverReadyAll(ReceiverAfter(r, acts[0]), acts[1..]))
  }

  function ReceiverAfterAll(r: Receiver, acts: seq<Act>): Receiver
    requires ReceiverReadyAll(r, acts)
    decreases |acts|
  {
    if acts == [] then r else ReceiverAfterAll(ReceiverAfter(r, acts[0]), acts[1..])
  }

  /** The acts can be done one after another, with nothing in between but the strobes. */
  predicate SenderReadyAll(s: Sender, n: Node, acts: seq<Act>)
    decreases |acts|
  {
    acts == [] ||
    (&& SenderReady(s, n, acts[0])
     && SenderReadyAll(SenderAfter(s, acts[0]), if acts[0].NoteReset? then n.(resetReceived := false) else n, acts[1..]))
  }

  /** What radioComTxService does when no interrupt comes, one act after another. */
  function ServiceActs(s: Sender, n: Node, who: bool): seq<Act> {
    var soon := s.soon || n.resetReceived;
    var flushed := if s.loaded != [] then SendData(s) else s;
    (if n.resetReceived then [NoteReset(who)] else [])
    + (if s.loaded != [] && (soon || |s.sent| - n.tx.acked <= TX_QUEUE_THRESHOLD) then [FlushData(who)] else [])
    + (if soon && Slots(flushed, n.tx.acked) > 0 then [FlushSignals(who)] else [])
  }

  lemma {:induction false} SenderAfterBoth(s: Sender, acts: seq<Act>, more: seq<Act>)
    ensures SenderAfterAll(s, acts + more) == SenderAfterAll(SenderAfterAll(s, acts), more)
    decreases |acts|
  {
    hide SenderAfter;
    if acts == [] {
      assert acts + more == more;
    } else {
      assert (acts + more)[1..] == acts[1..] + more;
      SenderAfterBoth(SenderAfter(s, acts[0]), acts[1..], more);
    }
  }

  lemma SenderAfterOne(s: Sender, act: Act)
    ensures SenderAfterAll(s, [act]) == SenderAfter(s, act)
  {
    assert [act][1..] == [];
  }

  lemma ServiceIsActs(s: Sender, n: Node, who: bool)
    ensures SenderAfterAll(s, ServiceActs(s, n, who)) == Service(s, n.tx.acked, n.resetReceived)
  {
    var soon := s.soon || n.resetReceived;
    var note := if n.resetReceived then [NoteReset(who)] else [];
    var data := if s.loaded != [] && (soon || |s.sent| - n.tx.acked <= TX_QUEUE_THRESHOLD) then [FlushData(who)] else [];
    var s1 := if n.resetReceived then s.(soon := true) else s;
    var s2 := if data == [] then s1 else SendData(s1);
    SenderAfterBoth(s, note + data, ServiceActs(s, n, who)[|note + data|..]);
    SenderAfterBoth(s, note, data);
    SenderAfterOne(s, NoteReset(who));
    SenderAfterOne(s1, FlushData(who));
    SenderAfterOne(s2, FlushSignals(who));
    assert SenderAfterAll(s, note + data) == s2;
  }

  lemma ServiceActsAreReady(s: Sender, n: Node, who: bool)
    requires n.tx.acked <= |s.sent|
    ensures SenderReadyAll(s, n, ServiceActs(s, n, who))
  {
    var soon := s.soon || n.resetReceived;
    var s1, n1 := s.(soon := soon), n.(resetReceived := false);
    var s2 := if s.loaded != [] then SendData(s1) else s1;
    var signals: seq<Act> := if soon && Slots(s2, n.tx.acked) > 0 then [FlushSignals(who)] else [];
    var rest := (if s.loaded != [] && (soon || |s.sent| - n.tx.acked <= TX_QUEUE_THRESHOLD) then [FlushData(who)] else []) + signals;
    assert SenderReadyAll(s2, n1, signals);
    assert s.loaded != [] && rest != [] ==> rest[0] == FlushData(who) && rest[1..] == signals;
    assert SenderReadyAll(s1, n1, rest);
    if n.resetReceived {
      assert ServiceActs(s, n, who) == [NoteReset(who)] + rest;
      assert ServiceActs(s, n, who)[1..] == rest;
    } else {
      assert ServiceActs(s, n, who) == rest;
    }
  }

  /** A change of signals is taken note of, and then the sender is serviced. */
  lemma SetSignalsIsActs(s: Sender, n: Node, who: bool, signals: bv8)
    requires signals != s.signals
    ensures SenderReady(s, n, NoteSignals(who, signals))
    ensures var s1 := SenderAfter(s, NoteSignals(who, signals));
      SenderAfterAll(s1, ServiceActs(s1, n, who)) == SetSignals(s, signals, n.tx.acked, n.resetReceived)
  {
    ServiceIsActs(SenderAfter(s, NoteSignals(who, signals)), n, who);
  }

  /** A byte is loaded, and a full packet goes. */
  lemma PutByteIsActs(s: Sender, n: Node, who: bool, b: bv8)
    requires SenderOk(s) && Capacity(s, n.tx.acked) > 0
    ensures SenderReady(s, n, LoadByte(who, b))
    ensures var s1 := SenderAfter(s, LoadByte(who, b));
      if |s1.loaded| < RADIO_LINK_PAYLOAD_SIZE then PutByte(s, b) == s1
      else SenderReady(s1, n, FlushData(who)) && PutByte(s, b) == SenderAfter(s1, FlushData(who))
  {
    hide InOrder;
  }


  /** Looking for received bytes opens a packet or adopts signals, as often as needed: after
      it there is nothing to open or adopt. */
  lemma {:induction false} FetchIsActs(r: Receiver, who: bool) returns (acts: seq<Act>)
    requires AreComPackets(r.delivered) && r.left == [] && !Waiting(r)
    ensures ReceiverReadyAll(r, acts) && ReceiverAfterAll(r, acts) == Fetch(r)
    ensures !ReceiverReady(Fetch(r), OpenPacket(who)) && !ReceiverReady(Fetch(r), AdoptSignals(who))
    decreases |r.delivered| - r.read
  {
    hide IsComPacket;
    acts := [];
    if r.read < |r.delivered| {
      KindOfPacket(r.delivered[r.read]);
      if r.delivered[r.read].payloadType == PAYLOAD_TYPE_DATA {
        acts := [OpenPacket(who)];
        assert acts[1..] == [];
      } else {
        var rest: seq<Act> := [];
        if !Waiting(TakeSignals(r)) {
          rest := FetchIsActs(TakeSignals(r), who);
        }
        acts := [AdoptSignals(who)] + rest;
        assert acts[1..] == rest;
      }
    }
  }

  lemma KindOfPacket(p: Packet)
    requires IsComPacket(p)
    ensures p.payload != [] && (p.payloadType == PAYLOAD_TYPE_DATA || p.payloadType == PAYLOAD_TYPE_CONTROL_SIGNALS)
  {
  }

  // ---------- what holds in between ----------

  /** A program agrees with the link under it, and some byte is loaded only into a slot
      the link has given to the main loop. */
  ghost predicate ProgramOk(n: Node, p: Program) {
    && InOrder(p.s) && |p.s.loaded| <= RADIO_LINK_PAYLOAD_SIZE
    && p.s.sent == n.tx.sent && (p.s.loaded != [] ==> n.tx.Room())
    && ReceiverOk(p.r) && p.r.delivered == n.rx.delivered && p.r.read == n.rx.read
  }

  ghost predicate WorldOk(w: World) {
    Inv(w.net) && ProgramOk(w.net.a, w.a) && ProgramOk(w.net.b, w.b)
  }

  lemma BothOk(w: World, who: bool)
    ensures WorldOk(w) <==> Inv(w.net) && ProgramOk(w.net.At(who), w.Prog(who)) && ProgramOk(w.net.At(!who), w.Prog(!who))
  {
    hide Inv, ProgramOk;
  }

  // ---------- an act of a main loop ----------

  lemma SenderKeeps(s: Sender, n: Node, act: Act)
    requires InOrder(s) && |s.loaded| <= RADIO_LINK_PAYLOAD_SIZE && SenderReady(s, n, act)
    ensures InOrder(SenderAfter(s, act)) && |SenderAfter(s, act).loaded| <= RADIO_LINK_PAYLOAD_SIZE
  {
    match act
    case LoadByte(_, b) => LoadKeeps(s, b);
    case FlushData(_) => SendDataKeeps(s);
    case FlushSignals(_) => SendSignalsKeeps(s);
    case _ =>
  }

  lemma ReceiverKeeps(r: Receiver, act: Act)
    requires ReceiverOk(r) && ReceiverReady(r, act)
    ensures var r' := ReceiverAfter(r, act); ReceiverOk(r') && r'.delivered == r.delivered && r'.enforce == r.enforce
  {
    match act
    case OpenPacket(_) => StartPacketKeeps(r);
    case AdoptSignals(_) => TakeSignalsKeeps(r);
    case ReadByte(_) => TakeByteKeeps(r);
    case ReportSignals(_) => ReportingKeeps(r);
    case _ =>
  }

  lemma ReportingKeeps(r: Receiver)
    requires ReceiverOk(r)
    ensures ReceiverOk(r.(reported := r.signals))
  {
    assert Consumed(r.(reported := r.signals)) == Consumed(r);
    hide Stream, SignalsAfter, Bytes, Marked;
  }

  // What the steps that an act can ask for do to a node.
  lemma StepEffect(net: Net, who: bool, step: Step)
    requires Enabled(net, step)
    requires step.MainQueue? || step.MainStrobe? || step.MainRelease?
    requires step.who == who
    ensures var n, n' := net.At(who), Apply(net, step).At(who);
      && Apply(net, step).At(!who) == net.At(!who)
      && n'.tx == (if step.MainQueue? then n.tx.(sent := n.tx.sent + [step.packet]) else n.tx)
      && n'.rx == (if step.MainRelease? then n.rx.(read := n.rx.read + 1) else n.rx)
      && n'.sentEarly == n.sentEarly && n'.resetReceived == n.resetReceived
      && n'.strobeDue == (step.MainQueue? || (n.strobeDue && !step.MainStrobe?))
  {
  }

  // An act changes the logs exactly by the step it asks for.
  lemma Asked(p: Program, act: Act)
    requires !act.Radio? && ReceiverReady(p.r, act)
    ensures var steps, sent, read := LinkSteps(p, act), SenderAfter(p.s, act).sent, ReceiverAfter(p.r, act).read;
      if steps == [] then
        sent == p.s.sent && read == p.r.read && !act.FlushData? && !act.FlushSignals? && !act.StrobeRadio?
      else
        var step := steps[0];
        && |steps| == 1 && (step.MainQueue? || step.MainStrobe? || step.MainRelease?) && step.who == act.who
        && !act.NoteReset?
        && sent == (if step.MainQueue? then p.s.sent + [step.packet] else p.s.sent)
        && read == (if step.MainRelease? then p.r.read + 1 else p.r.read)
        && (step.MainQueue? <==> act.FlushData? || act.FlushSignals?) && (step.MainStrobe? <==> act.StrobeRadio?)
  {
  }

  /** What an act does to its own node; the other one is left alone. */
  lemma LinkEffect(net: Net, p: Program, act: Act)
    requires !act.Radio? && ReceiverReady(p.r, act) && forall step | step in LinkSteps(p, act) :: Enabled(net, step)
    requires p.s.sent == net.At(act.who).tx.sent && p.r.read == net.At(act.who).rx.read
    ensures var n, n' := net.At(act.who), Linked(net, p, act).At(act.who);
      && Linked(net, p, act).At(!act.who) == net.At(!act.who)
      && n'.tx == n.tx.(sent := SenderAfter(p.s, act).sent) && n'.rx == n.rx.(read := ReceiverAfter(p.r, act).read)
      && n'.sentEarly == n.sentEarly && (n'.resetReceived ==> n.resetReceived)
      && n'.strobeDue == (act.FlushData? || act.FlushSignals? || (n.strobeDue && !act.StrobeRadio?))
  {
    hide Apply, Enabled, LinkSteps, SenderAfter, ReceiverAfter;
    Asked(p, act);
    var steps := LinkSteps(p, act);
    if steps != [] {
      StepEffect(net, act.who, steps[0]);
    }
  }

  lemma LinkKeeps(net: Net, p: Program, act: Act)
    requires Inv(net) && !act.Radio? && forall step | step in LinkSteps(p, act) :: Enabled(net, step)
    ensures Inv(Linked(net, p, act))
  {
    hide LinkOk;
    var steps := LinkSteps(p, act);
    if steps != [] {
      InvStep(net, steps[0]);
    }
  }

  /** An act of a main loop keeps its program and the links in agreement. */
  lemma MainLoopKeeps(w: World, act: Act)
    requires WorldOk(w) && ActEnabled(w, act) && !act.Radio?
    ensures WorldOk(After(w, act))
  {
    hide Inv, WorldOk, InOrder, ReceiverOk, SenderAfter, ReceiverAfter, Linked, LinkSteps;
    var p := w.Prog(act.who);
    BothOk(w, act.who);
    LinkEffect(w.net, p, act);
    LinkKeeps(w.net, p, act);
    SenderKeeps(p.s, w.net.At(act.who), act);
    ReceiverKeeps(p.r, act);
    LoadedHasRoom(p.s, w.net.At(act.who), act);
    BothOk(After(w, act), act.who);
  }

  lemma LoadedHasRoom(s: Sender, n: Node, act: Act)
    requires SenderReady(s, n, act) && s.sent == n.tx.sent && (s.loaded != [] ==> n.tx.Room())
    ensures var s' := SenderAfter(s, act); s'.loaded != [] ==> n.tx.(sent := s'.sent).Room()
  {
  }

  // ---------- an event of the radio ----------

  // What has been delivered was sent, so it is what radio_com sends.
  lemma DeliveredAreComPackets(log: seq<Packet>, sent: seq<Packet>, reached: nat)
    requires FirstRepeated(log, sent, reached) && AreComPackets(sent)
    ensures AreComPackets(log)
  {
    hide IsComPacket;
    forall i | 0 <= i < |log| ensures IsComPacket(log[i]) {
      var k := |log| - reached + 1;
      if i >= k {
        assert log[i] == log[k..][i - k];
        assert sent[1..reached][i - k] == sent[i - k + 1];
      }
    }
  }

  lemma SenderSends(s: Sender)
    requires InOrder(s)
    ensures AreComPackets(s.sent)
  {
  }

  lemma ProgramAfterRadio(net: Net, step: Step, who: bool, p: Program, peer: Sender)
    requires Inv(net) && Enabled(net, step) && (step.Isr? || step.Lose?)
    requires ProgramOk(net.At(who), p) && InOrder(peer) && peer.sent == net.At(!who).tx.sent
    ensures var n' := Apply(net, step).At(who); ProgramOk(n', Refreshed(p, n'))
  {
    hide Inv, Apply, InOrder, ReceiverOk, IsComPacket;
    DeliveredGrows(net, step, who, peer);
    RoomGrows(net, step, who);
    MoreArrived(p.r, Apply(net, step).At(who).rx.delivered);
  }

  lemma MoreArrived(r: Receiver, now: seq<Packet>)
    requires ReceiverOk(r) && r.delivered <= now && AreComPackets(now)
    ensures ReceiverOk(r.(delivered := now))
  {
    hide ReceiverOk, IsComPacket;
    var more := now[|r.delivered|..];
    assert now == r.delivered + more;
    ArrivalKeeps(r, more);
  }

  lemma RoomGrows(net: Net, step: Step, who: bool)
    requires Inv(net) && Enabled(net, step) && (step.Isr? || step.Lose?)
    ensures var tx, tx' := net.At(who).tx, Apply(net, step).At(who).tx;
      tx'.sent == tx.sent && (tx.Room() ==> tx'.Room())
  {
    hide Inv, Apply;
    TxChange(net, step, who);
  }

  lemma DeliveredGrows(net: Net, step: Step, who: bool, peer: Sender)
    requires Inv(net) && Enabled(net, step) && (step.Isr? || step.Lose?)
    requires InOrder(peer) && peer.sent == net.At(!who).tx.sent
    ensures var n, n' := net.At(who), Apply(net, step).At(who);
      n.rx.delivered <= n'.rx.delivered && AreComPackets(n'.rx.delivered) && n'.rx.read == n.rx.read
  {
    hide Inv, Apply, InOrder, FirstRepeated, IsComPacket;
    var net' := Apply(net, step);
    InvStep(net, step);
    RxChange(net, step, who);
    TxChange(net, step, !who);
    SenderSends(peer);
    LogIsRepeated(net', who);
    DeliveredAreComPackets(net'.At(who).rx.delivered, net'.At(!who).tx.sent, Reached(net'.At(!who).tx, net'.At(who).rx));
  }

  lemma LogIsRepeated(net: Net, who: bool)
    requires Inv(net)
    ensures FirstRepeated(net.At(who).rx.delivered, net.At(!who).tx.sent, Reached(net.At(!who).tx, net.At(who).rx))
  {
    hide FirstRepeated;
  }

  /** Radio events keep both programs in agreement with their links. */
  lemma RadioKeeps(w: World, step: Step)
    requires WorldOk(w) && ActEnabled(w, Radio(step))
    ensures WorldOk(After(w, Radio(step)))
  {
    hide Inv, Apply, InOrder, ReceiverOk;
    InvStep(w.net, step);
    ProgramAfterRadio(w.net, step, true, w.a, w.b.s);
    ProgramAfterRadio(w.net, step, false, w.b, w.a.s);
  }

  // ---------- runs ----------

  ghost function Do(w: World, act: Act): World
    requires WorldOk(w) && ActEnabled(w, act)
    ensures WorldOk(Do(w, act))
  {
    if act.Radio? then RadioKeeps(w, act.step); After(w, act)
    else MainLoopKeeps(w, act); After(w, act)
  }

  /** Two Wixels that have just been switched on. */
  function Start(enforceA: bool, enforceB: bool): (w: World)
    ensures WorldOk(w)
  {
    World(COLD_START, Idle(enforceA), Idle(enforceB))
  }

  function Idle(enforce: bool): Program {
    Program(Sender([], [], 0, false, []), Receiver([], 0, [], 0, 0, enforce, []))
  }

  ghost predicate IsWorldRun(w: World, acts: seq<Act>)
    requires WorldOk(w)
    decreases |acts|
  {
    acts == [] || (ActEnabled(w, acts[0]) && IsWorldRun(Do(w, acts[0]), acts[1..]))
  }

  ghost function WorldAfter(w: World, acts: seq<Act>): (r: World)
    requires WorldOk(w) && IsWorldRun(w, acts)
    ensures WorldOk(r)
    decreases |acts|
  {
    if acts == [] then w else WorldAfter(Do(w, acts[0]), acts[1..])
  }

  /** What an act of a main loop does to the two programs and their links. */
  lemma MainLoopEffect(w: World, act: Act)
    requires WorldOk(w) && ActEnabled(w, act) && !act.Radio?
    ensures var w', p, n := Do(w, act), w.Prog(act.who), w.net.At(act.who);
      var n' := w'.net.At(act.who);
      && w'.Prog(act.who) == Program(SenderAfter(p.s, act), ReceiverAfter(p.r, act))
      && w'.Prog(!act.who) == w.Prog(!act.who) && w'.net.At(!act.who) == w.net.At(!act.who)
      && n'.tx == n.tx.(sent := SenderAfter(p.s, act).sent)
      && n'.sentEarly == n.sentEarly && (n'.resetReceived ==> n.resetReceived)
      && n'.strobeDue == (act.FlushData? || act.FlushSignals? || (n.strobeDue && !act.StrobeRadio?))
  {
    BothOk(w, act.who);
    hide Inv, WorldOk, InOrder, ReceiverOk, SenderAfter, ReceiverAfter, Linked, LinkSteps;
    LinkEffect(w.net, w.Prog(act.who), act);
  }

  // ---------- what a run has written ----------

  /** The bytes that `who` loads in a run, in order, each under the signals it has noted
      last before it. */
  function Writes(acts: seq<Act>, who: bool, signals: bv8): seq<Mark>
    decreases |acts|
  {
    if acts == [] then []
    else if acts[0].LoadByte? && acts[0].who == who then [Mark(acts[0].byte, signals)] + Writes(acts[1..], who, signals)
    else Writes(acts[1..], who, if acts[0].NoteSignals? && acts[0].who == who then acts[0].signals else signals)
  }

  function CountReads(acts: seq<Act>, who: bool): nat {
    if acts == [] then 0 else (if acts[0].ReadByte? && acts[0].who == who then 1 else 0) + CountReads(acts[1..], who)
  }

  lemma {:induction false} WrittenIsHistory(w: World, acts: seq<Act>, who: bool)
    requires WorldOk(w) && IsWorldRun(w, acts)
    ensures var p, p' := w.Prog(who), WorldAfter(w, acts).Prog(who);
      p'.s.written == p.s.written + Writes(acts, who, p.s.signals) && |p'.r.taken| == |p.r.taken| + CountReads(acts, who)
    decreases |acts|
  {
    hide WorldOk, Do, ActEnabled;
    if acts != [] {
      ActWrites(w, acts[0], who);
      WrittenIsHistory(Do(w, acts[0]), acts[1..], who);
    }
  }

  lemma ActWrites(w: World, act: Act, who: bool)
    requires WorldOk(w) && ActEnabled(w, act)
    ensures var p, p' := w.Prog(who), Do(w, act).Prog(who);
      && p'.s.written == p.s.written + (if act.LoadByte? && act.who == who then [Mark(act.byte, p.s.signals)] else [])
      && p'.s.signals == (if act.NoteSignals? && act.who == who then act.signals else p.s.signals)
      && |p'.r.taken| == |p.r.taken| + if act.ReadByte? && act.who == who then 1 else 0
  {
    hide WorldOk, Inv, SenderAfter, ReceiverAfter, SenderReady, ReceiverReady, LinkSteps;
    if act.Radio? {
      assert Do(w, act).Prog(who) == Refreshed(w.Prog(who), Do(w, act).net.At(who));
    } else {
      MainLoopEffect(w, act);
      hide Do;
      SenderWrites(w.Prog(act.who).s, act);
      ReceiverReads(w.Prog(act.who).r, act);
    }
  }

  lemma SenderWrites(s: Sender, act: Act)
    ensures var s' := SenderAfter(s, act);
      && s'.written == s.written + (if act.LoadByte? then [Mark(act.byte, s.signals)] else [])
      && s'.signals == if act.NoteSignals? then act.signals else s.signals
  {
  }

  lemma ReceiverReads(r: Receiver, act: Act)
    requires ReceiverReady(r, act)
    ensures |ReceiverAfter(r, act).taken| == |r.taken| + if act.ReadByte? then 1 else 0
  {
  }
}
