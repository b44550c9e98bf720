/** What programs on two Wixels get from radio_com: the bytes written on one are read on the
    other, unless they are written before the reset handshake is over. */
module EndToEnd {
  import opened RadioSpec
  import opened RadioNetwork
  import opened ComSpec
  import opened ComWorld
  import RadioProgress

  /** What has arrived means what was sent, up to the last packet that has arrived. */
  ghost predicate Faithful(net: Net, who: bool) {
    var log, sent := net.At(!who).rx.delivered, net.At(who).tx.sent;
    var reached := Reached(net.At(who).tx, net.At(!who).rx);
    && AreComPackets(log) && AreComPackets(sent) && reached <= |sent|
    && AreComPackets(sent[..reached]) && Stream(log) == Stream(sent[..reached])
  }

  /** A repeated first packet does no harm if and only if it carries no bytes. */
  lemma FaithfulIff(net: Net, who: bool)
    requires Inv(net) && AreComPackets(net.At(who).tx.sent)
    ensures var tx, rx := net.At(who).tx, net.At(!who).rx;
      Faithful(net, who) <==>
        (|rx.delivered| == Reached(tx, rx) || (tx.sent != [] && tx.sent[0].payloadType == PAYLOAD_TYPE_CONTROL_SIGNALS))
  {
    hide Stream, IsComPacket;
    var tx, rx := net.At(who).tx, net.At(!who).rx;
    LogIsRepeated(net, !who);
    if Reached(tx, rx) > 0 {
      RepeatedFirstPacket(rx.delivered, tx.sent, Reached(tx, rx));
    } else {
      assert rx.delivered == tx.sent[..Reached(tx, rx)] == [];
    }
  }

  /** While what has arrived is faithful, the bytes read are a prefix of the bytes
      written, whatever sender and receiver have done, if both are in order. */
  lemma BytesArriveInOrder(net: Net, who: bool, s: Sender, r: Receiver)
    requires Inv(net) && Faithful(net, who)
    requires InOrder(s) && s.sent == net.At(who).tx.sent
    requires ReceiverOk(r) && r.delivered == net.At(!who).rx.delivered
    ensures Bytes(r.taken) <= Bytes(s.written)
    ensures r.enforce ==> r.taken <= s.written
  {
    hide Inv, InOrder, ReceiverOk, Stream;
    SenderSends(s);
    StreamOfPrefix(s.sent[..Reached(net.At(who).tx, net.At(!who).rx)], s.sent);
    ReadsFollowWrites(s, r);
  }

  // ---------- bytes that are not written too early ----------

  /** No byte is written on `who` before radioLinkConnected. */
  predicate Patient(w: World, act: Act, who: bool) {
    act.LoadByte? && act.who == who ==> !w.net.At(who).tx.resetting
  }

  ghost predicate IsPatient(w: World, acts: seq<Act>, who: bool)
    requires WorldOk(w) && IsWorldRun(w, acts)
    decreases |acts|
  {
    acts == [] || (Patient(w, acts[0], who) && IsPatient(Do(w, acts[0]), acts[1..], who))
  }

  // No bytes come first.
  predicate SignalsFirst(s: Sender) {
    if s.sent == [] then s.loaded == [] else s.sent[0].payloadType != PAYLOAD_TYPE_DATA
  }

  /** During the handshake, the first packet carries bytes, or will. */
  predicate EarlyBytes(w: World, who: bool) {
    w.net.At(who).tx.resetting && !SignalsFirst(w.Prog(who).s)
  }

  /** All that has been sent during the handshake is control signals first. */
  predicate NoHarmSoFar(w: World, who: bool) {
    var sent := w.Prog(who).s.sent;
    w.net.At(who).sentEarly ==> sent != [] && sent[0].payloadType == PAYLOAD_TYPE_CONTROL_SIGNALS
  }

  lemma RadioEffect(w: World, step: Step, who: bool)
    requires WorldOk(w) && ActEnabled(w, Radio(step))
    ensures var w', n := Do(w, Radio(step)), w.net.At(who); var n' := w'.net.At(who);
      && w'.net == Apply(w.net, step)
      && w'.Prog(who) == Refreshed(w.Prog(who), n')
      && (n'.tx.resetting ==> n.tx.resetting)
      && (n'.sentEarly ==> n.sentEarly || (n.tx.resetting && n.tx.sent != []))
  {
    TxChange(w.net, step, who);
    if step.Isr? && step.who == who && Handle(w.net.At(who), step.event, step.random).sentEarly && !w.net.At(who).sentEarly {
      RadioProgress.HandleHistory(w.net.At(who), step.event, step.random);
    }
    hide WorldOk, Inv, Handle;
  }

  lemma ActKeepsFirst(s: Sender, n: Node, act: Act)
    requires SenderReady(s, n, act) && !act.LoadByte? && SignalsFirst(s)
    ensures SignalsFirst(SenderAfter(s, act))
    ensures s.sent != [] ==> SenderAfter(s, act).sent != [] && SenderAfter(s, act).sent[0] == s.sent[0]
  {
  }

  lemma FirstStays(s: Sender, act: Act)
    requires s.sent != []
    ensures SenderAfter(s, act).sent != [] && SenderAfter(s, act).sent[0] == s.sent[0]
  {
  }

  lemma PatientRadio(w: World, step: Step, who: bool)
    requires WorldOk(w) && ActEnabled(w, Radio(step))
    requires !EarlyBytes(w, who) && NoHarmSoFar(w, who)
    ensures !EarlyBytes(Do(w, Radio(step)), who) && NoHarmSoFar(Do(w, Radio(step)), who)
  {
    FirstIsComPacket(w, who);
    hide WorldOk, Inv, InOrder, ReceiverOk, Do, Apply;
    RadioEffect(w, step, who);
  }

  lemma PatientMainLoop(w: World, act: Act, who: bool)
    requires WorldOk(w) && ActEnabled(w, act) && !act.Radio? && Patient(w, act, who)
    requires !EarlyBytes(w, who) && NoHarmSoFar(w, who)
    ensures !EarlyBytes(Do(w, act), who) && NoHarmSoFar(Do(w, act), who)
  {
    hide WorldOk, Inv, InOrder, ReceiverOk, Do, SenderReady, SenderAfter, ReceiverAfter, SignalsFirst;
    MainLoopEffect(w, act);
    if act.who == who {
      if w.Prog(who).s.sent != [] {
        FirstStays(w.Prog(who).s, act);
      }
      if w.net.At(who).tx.resetting {
        ActKeepsFirst(w.Prog(who).s, w.net.At(who), act);
      }
    }
  }

  lemma PatientAct(w: World, act: Act, who: bool)
    requires WorldOk(w) && ActEnabled(w, act) && Patient(w, act, who)
    requires !EarlyBytes(w, who) && NoHarmSoFar(w, who)
    ensures !EarlyBytes(Do(w, act), who) && NoHarmSoFar(Do(w, act), who)
  {
    hide WorldOk, Do, EarlyBytes, NoHarmSoFar;
    if act.Radio? {
      PatientRadio(w, act.step, who);
    } else {
      PatientMainLoop(w, act, who);
    }
  }

  lemma FirstIsComPacket(w: World, who: bool)
    requires WorldOk(w)
    ensures w.Prog(who).s.sent == w.net.At(who).tx.sent
    ensures w.Prog(who).s.sent != [] ==> IsComPacket(w.Prog(who).s.sent[0])
  {
    BothOk(w, who);
    SenderSends(w.Prog(who).s);
    hide WorldOk, Inv, InOrder, ReceiverOk;
  }

  lemma {:induction false} PatientRunIsFaithful(w: World, acts: seq<Act>, who: bool)
    requires WorldOk(w) && IsWorldRun(w, acts) && IsPatient(w, acts, who)
    requires !EarlyBytes(w, who) && NoHarmSoFar(w, who)
    ensures Faithful(WorldAfter(w, acts).net, who)
    decreases |acts|
  {
    hide WorldOk, Inv, Do, EarlyBytes, Faithful;
    if acts == [] {
      HarmlessIsFaithful(w, who);
    } else {
      PatientAct(w, acts[0], who);
      PatientRunIsFaithful(Do(w, acts[0]), acts[1..], who);
    }
  }

  lemma HarmlessIsFaithful(w: World, who: bool)
    requires WorldOk(w) && NoHarmSoFar(w, who)
    ensures Faithful(w.net, who)
  {
    BothOk(w, who);
    SenderSends(w.Prog(who).s);
    hide InOrder, ReceiverOk, Faithful;
    FaithfulIff(w.net, who);
  }

  /** From two cold starts, for every interleaving of radio interrupts, losses and the
      statements of radio_com on both Wixels: if no byte is written on `who` before
      radioLinkConnected there, the bytes read on the other Wixel are a prefix of the bytes
      the run has written, and an order-enforcing reader reads each byte under the signals
      that had been set last when it was written. */
  lemma WrittenBytesAreRead(acts: seq<Act>, who: bool, enforceA: bool, enforceB: bool)
    requires IsWorldRun(Start(enforceA, enforceB), acts) && IsPatient(Start(enforceA, enforceB), acts, who)
    ensures var r, writes := WorldAfter(Start(enforceA, enforceB), acts).Prog(!who).r, Writes(acts, who, 0);
      && Bytes(r.taken) <= Bytes(writes) && (r.enforce ==> r.taken <= writes)
      && |r.taken| == CountReads(acts, !who)
  {
    var w0 := Start(enforceA, enforceB);
    PatientRunIsFaithful(w0, acts, who);
    FaithfulIsRead(WorldAfter(w0, acts), who);
    WrittenIsHistory(w0, acts, who);
    WrittenIsHistory(w0, acts, !who);
    hide IsWorldRun, WorldAfter, IsPatient, WorldOk;
    assert [] + Writes(acts, who, 0) == Writes(acts, who, 0);
  }

  /** The same for every run, however early bytes are written, as long as what has arrived
      is faithful. */
  lemma FaithfulIsRead(w: World, who: bool)
    requires WorldOk(w) && Faithful(w.net, who)
    ensures Bytes(w.Prog(!who).r.taken) <= Bytes(w.Prog(who).s.written)
    ensures w.Prog(!who).r.enforce ==> w.Prog(!who).r.taken <= w.Prog(who).s.written
  {
    BothOk(w, who);
    hide WorldOk, Inv, InOrder, ReceiverOk, Faithful;
    BytesArriveInOrder(w.net, who, w.Prog(who).s, w.Prog(!who).r);
  }

  // ---------- bytes that are written too early ----------

  // One more act in front of a run.
  lemma InFront(w: World, act: Act, acts: seq<Act>, who: bool)
    requires WorldOk(w) && ActEnabled(w, act) && IsWorldRun(Do(w, act), acts)
    ensures IsWorldRun(w, [act] + acts) && WorldAfter(w, [act] + acts) == WorldAfter(Do(w, act), acts)
    ensures Patient(w, act, who) && IsPatient(Do(w, act), acts, who) ==> IsPatient(w, [act] + acts, who)
  {
    hide WorldOk, Do;
    assert ([act] + acts)[1..] == acts;
  }

  // What the radio can do in the network it can do in the world.
  lemma {:induction false} Lift(w: World, steps: seq<Step>, who: bool) returns (acts: seq<Act>)
    requires WorldOk(w) && RadioProgress.IsRunOf(RadioProgress.RadioOnly, w.net, steps)
    ensures IsWorldRun(w, acts) && IsPatient(w, acts, who)
    ensures var w' := WorldAfter(w, acts);
      && w'.net == RadioProgress.AfterRun(RadioProgress.RadioOnly, w.net, steps)
      && forall x :: w'.Prog(x) == Refreshed(w.Prog(x), w'.net.At(x))
    decreases |steps|
  {
    hide WorldOk, Inv, Do, Apply, ActEnabled, InOrder, ReceiverOk;
    if steps == [] {
      acts := [];
      UpToDate(w);
    } else {
      CanEnact(w, steps[0]);
      RadioEffect(w, steps[0], true);
      RadioEffect(w, steps[0], false);
      acts := Lift(Do(w, Radio(steps[0])), steps[1..], who);
      InFront(w, Radio(steps[0]), acts, who);
      acts := [Radio(steps[0])] + acts;
    }
  }

  lemma UpToDate(w: World)
    requires WorldOk(w)
    ensures forall x :: w.Prog(x) == Refreshed(w.Prog(x), w.net.At(x))
  {
    hide Inv, InOrder, ReceiverOk;
  }

  lemma CanEnact(w: World, step: Step)
    requires (step.Isr? || step.Lose?) && Enabled(w.net, step)
    ensures ActEnabled(w, Radio(step))
  {
  }

  // Both sides have something queued, on `who` bytes first: the radio alone repeats them.
  lemma RepeatQueued(w: World, who: bool) returns (acts: seq<Act>)
    requires WorldOk(w) && !w.net.At(who).sentEarly && EarlyBytes(w, who) && RadioProgress.Undue(w.net)
    requires w.Prog(who).s.sent != [] && w.net.At(!who).tx.Queued()
    ensures IsWorldRun(w, acts) && IsPatient(w, acts, who)
    ensures var w', p := WorldAfter(w, acts), w.Prog(who).s.sent[0];
      && !Faithful(w'.net, who) && w'.net.At(!who).rx.delivered == [p, p]
      && forall x :: w'.Prog(x) == Refreshed(w.Prog(x), w'.net.At(x))
  {
    HazardNow(w, who);
    RadioProgress.LeadsNowhere(RadioProgress.RadioOnly, w.net);
    var net' := RadioProgress.Duplicate(RadioProgress.RadioOnly, w.net, w.net, who);
    var steps :| RadioProgress.IsRunOf(RadioProgress.RadioOnly, w.net, steps)
      && RadioProgress.AfterRun(RadioProgress.RadioOnly, w.net, steps) == net';
    acts := Lift(w, steps, who);
    var w' := WorldAfter(w, acts);
    BothOk(w', who);
    SenderSends(w'.Prog(who).s);
    hide InOrder, ReceiverOk, Faithful;
    FaithfulIff(net', who);
  }

  lemma HazardNow(w: World, who: bool)
    requires WorldOk(w) && EarlyBytes(w, who) && w.Prog(who).s.sent != []
    ensures Inv(w.net) && RadioProgress.Hazard(w.net, who) && w.net.At(who).tx.sent == w.Prog(who).s.sent
  {
    BothOk(w, who);
    LinkOkOf(w.net, who);
    NeverBlocked(w, who);
    NeverBlocked(w, !who);
    hide Inv, InOrder, ReceiverOk;
  }

  lemma NeverBlocked(w: World, who: bool)
    requires WorldOk(w)
    ensures !w.net.At(who).tx.Blocked()
  {
    BothOk(w, who);
    SenderSends(w.Prog(who).s);
    hide Inv, WorldOk, InOrder, ReceiverOk;
    var tx := w.net.At(who).tx;
    assert tx.Queued() ==> IsComPacket(tx.sent[tx.acked]);
  }

  lemma LinkOkOf(net: Net, who: bool)
    requires Inv(net)
    ensures TxOk(net.At(who).tx)
  {
  }

  // How many acts are missing until both sides have something queued and have called
  // radioMacStrobe: on `who`, and on its peer.
  function MissingHere(n: Node, s: Sender): nat {
    (if s.sent == [] then 2 else 0) + if n.strobeDue then 1 else 0
  }

  function MissingThere(n: Node, s: Sender): nat {
    (if n.tx.Queued() then 0 else if s.loaded != [] || s.soon then 2 else 3) + if n.strobeDue then 1 else 0
  }

  function Missing(w: World, who: bool): nat {
    MissingHere(w.net.At(who), w.Prog(who).s) + MissingThere(w.net.At(!who), w.Prog(!who).s)
  }

  // The next of them.
  function Preparation(w: World, who: bool): Act {
    var n, peer, s := w.net.At(who), w.net.At(!who), w.Prog(!who).s;
    if n.strobeDue then StrobeRadio(who)
    else if w.Prog(who).s.sent == [] then FlushData(who)
    else if peer.strobeDue then StrobeRadio(!who)
    else if s.loaded != [] then FlushData(!who)
    else if s.soon then FlushSignals(!who)
    else LoadByte(!who, 0)
  }

  lemma PreparationHelps(w: World, who: bool)
    requires WorldOk(w) && !w.net.At(who).sentEarly && EarlyBytes(w, who) && Missing(w, who) > 0
    ensures var act := Preparation(w, who);
      && ActEnabled(w, act) && Patient(w, act, who)
      && var w' := Do(w, act);
         !w'.net.At(who).sentEarly && EarlyBytes(w', who) && Missing(w', who) < Missing(w, who)
  {
    hide WorldOk, Inv, Do, SenderReady, SenderAfter, ReceiverAfter, Enabled;
    var act := Preparation(w, who);
    var n, s := w.net.At(act.who), w.Prog(act.who).s;
    ProgramFacts(w, who);
    ProgramFacts(w, !who);
    PreparationPossible(w, who);
    MainLoopEffect(w, act);
    if act.who == who {
      OwnPreparation(n, s, act);
    } else {
      PeerPreparation(n, s, act);
    }
  }

  lemma PreparationPossible(w: World, who: bool)
    requires WorldOk(w) && EarlyBytes(w, who) && Missing(w, who) > 0
    ensures ActEnabled(w, Preparation(w, who)) && Patient(w, Preparation(w, who), who)
  {
    ProgramFacts(w, who);
    ProgramFacts(w, !who);
    hide WorldOk, Inv, ActEnabled, Enabled;
    CanPrepare(w, who);
    CanPrepare(w, !who);
  }

  lemma CanPrepare(w: World, who: bool)
    requires var s, n := w.Prog(who).s, w.net.At(who);
      s.sent == n.tx.sent && n.tx.acked <= |s.sent| && (s.loaded != [] ==> n.tx.Room())
    ensures var s, n := w.Prog(who).s, w.net.At(who);
      && (n.strobeDue ==> ActEnabled(w, StrobeRadio(who)))
      && (!n.strobeDue && !n.tx.Queued() ==>
            && (s.loaded != [] ==> ActEnabled(w, FlushData(who)))
            && (s.loaded == [] && s.soon ==> ActEnabled(w, FlushSignals(who)))
            && (s.loaded == [] && !s.soon ==> ActEnabled(w, LoadByte(who, 0))))
  {
  }

  lemma OwnPreparation(n: Node, s: Sender, act: Act)
    requires s.sent == n.tx.sent && !SignalsFirst(s)
    requires if n.strobeDue then act.StrobeRadio? else act.FlushData? && s.sent == []
    ensures var s' := SenderAfter(s, act); var n' := n.(tx := n.tx.(sent := s'.sent), strobeDue := act.FlushData?);
      !SignalsFirst(s') && MissingHere(n', s') < MissingHere(n, s)
  {
  }

  lemma PeerPreparation(n: Node, s: Sender, act: Act)
    requires s.sent == n.tx.sent && n.tx.acked <= |s.sent|
    requires if n.strobeDue then act.StrobeRadio? else
      && !n.tx.Queued()
      && (if s.loaded != [] then act.FlushData? else if s.soon then act.FlushSignals? else act.LoadByte?)
    ensures var s' := SenderAfter(s, act);
      var n' := n.(tx := n.tx.(sent := s'.sent), strobeDue := act.FlushData? || act.FlushSignals?);
      MissingThere(n', s') < MissingThere(n, s)
  {
  }

  lemma ProgramFacts(w: World, who: bool)
    requires WorldOk(w)
    ensures var s, tx := w.Prog(who).s, w.net.At(who).tx;
      && s.sent == tx.sent && tx.acked <= |s.sent| < tx.acked + TX_PACKET_COUNT && (tx.resetting ==> tx.acked == 0)
      && |s.loaded| <= RADIO_LINK_PAYLOAD_SIZE && (s.loaded != [] ==> tx.Room())
  {
    BothOk(w, who);
    LinkOkOf(w.net, who);
    hide WorldOk, Inv, InOrder, ReceiverOk;
  }

  /** Bytes that wait during the handshake can still arrive twice. */
  lemma {:induction false} EarlyBytesCanRepeat(w: World, who: bool) returns (acts: seq<Act>)
    requires WorldOk(w) && !w.net.At(who).sentEarly && EarlyBytes(w, who)
    ensures IsWorldRun(w, acts) && IsPatient(w, acts, who)
    ensures !Faithful(WorldAfter(w, acts).net, who)
    decreases Missing(w, who)
  {
    if Missing(w, who) == 0 {
      ProgramFacts(w, who);
      acts := RepeatQueued(w, who);
    } else {
      PreparationHelps(w, who);
      hide WorldOk, Do, Faithful, EarlyBytes, Missing;
      var act := Preparation(w, who);
      acts := EarlyBytesCanRepeat(Do(w, act), who);
      InFront(w, act, acts, who);
      acts := [act] + acts;
    }
  }

  /** What arrives is faithful in every continuation in which no byte is written on `who`
      before radioLinkConnected, if and only if no byte waits there to go out first. */
  lemma FaithfulUnlessBytesEarly(w: World, who: bool)
    requires WorldOk(w) && !w.net.At(who).sentEarly
    ensures !EarlyBytes(w, who) <==>
      forall acts | IsWorldRun(w, acts) && IsPatient(w, acts, who) :: Faithful(WorldAfter(w, acts).net, who)
  {
    hide WorldOk, Faithful, EarlyBytes;
    if EarlyBytes(w, who) {
      var acts := EarlyBytesCanRepeat(w, who);
    } else {
      forall acts | IsWorldRun(w, acts) && IsPatient(w, acts, who) ensures Faithful(WorldAfter(w, acts).net, who) {
        PatientRunIsFaithful(w, acts, who);
      }
    }
  }

  // ---------- a byte that is read twice ----------

  lemma {:induction false} Append(w: World, acts: seq<Act>, more: seq<Act>)
    requires WorldOk(w) && IsWorldRun(w, acts) && IsWorldRun(WorldAfter(w, acts), more)
    ensures IsWorldRun(w, acts + more) && WorldAfter(w, acts + more) == WorldAfter(WorldAfter(w, acts), more)
    decreases |acts|
  {
    hide WorldOk, Do;
    if acts == [] {
      assert acts + more == more;
    } else {
      assert (acts + more)[1..] == acts[1..] + more;
      Append(Do(w, acts[0]), acts[1..], more);
    }
  }

  // Acts one after another.
  lemma First(w: World, act: Act) returns (acts: seq<Act>)
    requires WorldOk(w) && ActEnabled(w, act)
    ensures IsWorldRun(w, acts) && WorldAfter(w, acts) == Do(w, act)
  {
    hide WorldOk, Do;
    acts := [act] + [];
    assert IsWorldRun(Do(w, act), []) && WorldAfter(Do(w, act), []) == Do(w, act);
    InFront(w, act, [], act.Radio?);
  }

  lemma OneByteSent(b: bv8, who: bool)
    ensures var s := SenderAfter(Idle(false).s, LoadByte(who, b));
      && s == Sender([], [b], 0, false, [Mark(b, 0)])
      && SenderAfter(s, FlushData(who)) == Sender([Packet(PAYLOAD_TYPE_DATA, [b])], [], 0, false, [Mark(b, 0)])
  {
    assert SendData(Sender([], [b], 0, false, [Mark(b, 0)])).sent == [Packet(PAYLOAD_TYPE_DATA, [b])];
  }

  // A Wixel with nothing queued writes a byte, and its service call sends it.
  lemma WriteAndSend(w: World, who: bool, b: bv8) returns (acts: seq<Act>)
    requires WorldOk(w) && w.Prog(who).s == Idle(false).s
    requires w.net.At(who).tx.acked == 0 && w.net.At(who).tx.sent == [] && !w.net.At(who).strobeDue
    ensures IsWorldRun(w, acts)
    ensures var w' := WorldAfter(w, acts);
      && w'.Prog(who).s == Sender([Packet(PAYLOAD_TYPE_DATA, [b])], [], 0, false, [Mark(b, 0)])
      && w'.Prog(who).r == w.Prog(who).r && w'.Prog(!who) == w.Prog(!who)
      && w'.net.At(!who) == w.net.At(!who)
      && w'.net.At(who).tx == w.net.At(who).tx.(sent := [Packet(PAYLOAD_TYPE_DATA, [b])])
      && w'.net.At(who).sentEarly == w.net.At(who).sentEarly && !w'.net.At(who).strobeDue
  {
    OneByteSent(b, who);
    hide WorldOk, Do, SenderAfter;
    var load, flush, strobe := LoadByte(who, b), FlushData(who), StrobeRadio(who);
    MainLoopEffect(w, load);
    var first := First(w, load);
    var w1 := WorldAfter(w, first);
    MainLoopEffect(w1, flush);
    var second := First(w1, flush);
    var w2 := WorldAfter(w1, second);
    StrobeChangesNoSender(w2.Prog(who).s, who);
    MainLoopEffect(w2, strobe);
    var third := First(w2, strobe);
    Append(w1, second, third);
    Append(w, first, second + third);
    acts := first + (second + third);
  }

  lemma StrobeChangesNoSender(s: Sender, who: bool)
    ensures SenderAfter(s, StrobeRadio(who)) == s
  {
  }

  lemma OneByteTaken(r: Receiver, b: bv8, who: bool)
    requires r.read < |r.delivered| && r.delivered[r.read] == Packet(PAYLOAD_TYPE_DATA, [b])
    requires r.left == [] && !Waiting(r)
    ensures ReceiverReady(r, OpenPacket(who))
    ensures var r' := ReceiverAfter(r, OpenPacket(who));
      && r' == r.(left := [b]) && ReceiverReady(r', ReadByte(who))
      && ReceiverAfter(r', ReadByte(who)) == r.(read := r.read + 1, taken := r.taken + [Mark(b, r.reported)])
  {
  }

  // A Wixel that has been given a byte by the packet it is at reads it.
  lemma ReadOne(w: World, who: bool, b: bv8) returns (acts: seq<Act>)
    requires WorldOk(w)
    requires var r := w.Prog(who).r;
      && r.read < |r.delivered| && r.delivered[r.read] == Packet(PAYLOAD_TYPE_DATA, [b])
      && r.left == [] && !Waiting(r)
    ensures IsWorldRun(w, acts)
    ensures var w', r := WorldAfter(w, acts), w.Prog(who).r;
      && w'.Prog(!who) == w.Prog(!who)
      && w'.Prog(who).r == r.(read := r.read + 1, taken := r.taken + [Mark(b, r.reported)])
  {
    ReaderFacts(w, who);
    OneByteTaken(w.Prog(who).r, b, who);
    hide WorldOk, Do, ReceiverReady, ReceiverAfter, ActEnabled;
    var open, read := OpenPacket(who), ReadByte(who);
    CanOpen(w, who);
    MainLoopEffect(w, open);
    var first := First(w, open);
    var w1 := WorldAfter(w, first);
    ReaderFacts(w1, who);
    CanRead(w1, who);
    MainLoopEffect(w1, read);
    var second := First(w1, read);
    Append(w, first, second);
    acts := first + second;
  }

  lemma CanOpen(w: World, who: bool)
    requires ReceiverReady(w.Prog(who).r, OpenPacket(who))
    ensures ActEnabled(w, OpenPacket(who))
  {
  }

  lemma CanRead(w: World, who: bool)
    requires ReceiverReady(w.Prog(who).r, ReadByte(who)) && w.net.At(who).rx.read < |w.net.At(who).rx.delivered|
    ensures ActEnabled(w, ReadByte(who))
  {
  }

  lemma ReaderFacts(w: World, who: bool)
    requires WorldOk(w)
    ensures w.Prog(who).r.delivered == w.net.At(who).rx.delivered && w.Prog(who).r.read == w.net.At(who).rx.read
  {
    BothOk(w, who);
    hide WorldOk, Inv, InOrder, ReceiverOk;
  }

  // A Wixel that has been given the same byte twice reads it twice.
  lemma ReadTwice(w: World, who: bool, b: bv8) returns (acts: seq<Act>)
    requires WorldOk(w)
    requires var r, p := w.Prog(who).r, Packet(PAYLOAD_TYPE_DATA, [b]);
      r == Idle(r.enforce).r.(delivered := [p, p])
    ensures IsWorldRun(w, acts) && WorldAfter(w, acts).Prog(who).r.taken == [Mark(b, 0), Mark(b, 0)]
    ensures WorldAfter(w, acts).Prog(!who) == w.Prog(!who)
  {
    hide WorldOk, Do;
    var first := ReadOne(w, who, b);
    var second := ReadOne(WorldAfter(w, first), who, b);
    Append(w, first, second);
    acts := first + second;
  }

  // Straight after switching on, both Wixels queue a byte.
  lemma BothQueue(b: bv8, who: bool, enforceA: bool, enforceB: bool) returns (acts: seq<Act>)
    ensures IsWorldRun(Start(enforceA, enforceB), acts)
    ensures var w' := WorldAfter(Start(enforceA, enforceB), acts);
      && w'.Prog(who).s == Sender([Packet(PAYLOAD_TYPE_DATA, [b])], [], 0, false, [Mark(b, 0)])
      && w'.Prog(!who).r == Idle(w'.Prog(!who).r.enforce).r
      && w'.net.At(who).tx.resetting && !w'.net.At(who).sentEarly && w'.net.At(!who).tx.Queued()
      && RadioProgress.Undue(w'.net)
  {
    var w := Start(enforceA, enforceB);
    hide WorldOk, Do;
    var first := WriteAndSend(w, who, b);
    var second := WriteAndSend(WorldAfter(w, first), !who, 0);
    Append(w, first, second);
    acts := first + second;
  }

  /** For every byte, on either Wixel and whether or not readers enforce ordering: written
      straight after switching on, the byte can be read twice on the other side. */
  lemma EarlyByteCanBeReadTwice(b: bv8, who: bool, enforceA: bool, enforceB: bool)
    ensures exists acts | IsWorldRun(Start(enforceA, enforceB), acts) ::
      var w := WorldAfter(Start(enforceA, enforceB), acts);
      Bytes(w.Prog(who).s.written) == [b] && Bytes(w.Prog(!who).r.taken) == [b, b]
  {
    var w0 := Start(enforceA, enforceB);
    var queued := BothQueue(b, who, enforceA, enforceB);
    hide WorldOk, Do, Start, Faithful;
    var w1 := WorldAfter(w0, queued);
    var radio := RepeatQueued(w1, who);
    var w2 := WorldAfter(w1, radio);
    var read := ReadTwice(w2, !who, b);
    Append(w1, radio, read);
    Append(w0, queued, radio + read);
  }
}
