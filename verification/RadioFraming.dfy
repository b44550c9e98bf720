/** The bytes of an RF packet: a length byte, one byte of header, and the payload. */
module RadioFraming {
  import opened RadioSpec

  const HEADER_LENGTH := 1
  const MAX_PACKET_SIZE := RADIO_LINK_PAYLOAD_SIZE + HEADER_LENGTH
  const PAYLOAD_TYPE_MASK: bv8 := 0x1E
  const PACKET_TYPE_MASK: bv8 := 0xC0

  type Bytes = seq<bv8>

  function KindBits(kind: Kind): bv8 {
    match kind case Ping => 0x00 case Nak => 0x40 case Ack => 0x80 case Reset => 0xC0
  }

  function BitOf(bit: bool): bv8 { if bit then 1 else 0 }

  // The header txDataPacket writes over a queued packet's old header.
  function Header(previous: bv8, kind: Kind, bit: bool): bv8 {
    (previous & PAYLOAD_TYPE_MASK) | KindBits(kind) | BitOf(bit)
  }

  function KindOf(header: bv8): Kind {
    if header & PACKET_TYPE_MASK == 0xC0 then Reset
    else if header & PACKET_TYPE_MASK == 0x80 then Ack
    else if header & PACKET_TYPE_MASK == 0x40 then Nak
    else Ping
  }

  function PayloadTypeOf(header: bv8): bv8 { (header & PAYLOAD_TYPE_MASK) >> 1 }

  /** Long enough to hold the packet its length byte announces. */
  predicate IsFrame(bytes: Bytes) {
    |bytes| >= 2 && 1 <= bytes[0] as nat <= MAX_PACKET_SIZE && 1 + bytes[0] as nat <= |bytes|
  }

  function FrameOf(bytes: Bytes): Frame
    requires IsFrame(bytes)
  {
    Frame(KindOf(bytes[1]), bytes[1] & 1 == 1,
          Packet(PayloadTypeOf(bytes[1]), bytes[2..1 + bytes[0] as nat]))
  }

  /** A queued packet: length and payload type in place, header bits still open. */
  predicate Stored(bytes: Bytes, p: Packet) {
    && IsFrame(bytes)
    && PayloadTypeOf(bytes[1]) == p.payloadType
    && bytes[2..1 + bytes[0] as nat] == p.payload
  }

  /** A received packet as the main loop sees it. */
  predicate Unpacked(bytes: Bytes, p: Packet) {
    && |bytes| >= 2 && |bytes| >= 2 + bytes[1] as nat
    && bytes[0] == p.payloadType
    && bytes[2..2 + bytes[1] as nat] == p.payload
  }

  lemma HeaderRoundTrip(previous: bv8, kind: Kind, bit: bool)
    ensures var h := Header(previous, kind, bit);
      KindOf(h) == kind && (h & 1 == 1) == bit && PayloadTypeOf(h) == PayloadTypeOf(previous)
  {
  }

  /** The bits of a header: packet type, 1 unused, payload type, and sequence bit. */
  lemma HeaderLayout(previous: bv8, kind: Kind, bit: bool)
    ensures var h := Header(previous, kind, bit);
      && h >> 6 == (match kind case Ping => 0 case Nak => 1 case Ack => 2 case Reset => 3)
      && (h >> 5) & 1 == 0 && (h >> 1) & 0x0F == (previous >> 1) & 0x0F && (h & 1 == 1 <==> bit)
    ensures KindOf(previous) == match previous >> 6 case 0 => Ping case 1 => Nak case 2 => Ack case _ => Reset
    ensures PayloadTypeOf(previous) == (previous >> 1) & 0x0F
  {
  }

  lemma KindBitsTell(header: bv8)
    ensures header & PACKET_TYPE_MASK == KindBits(Reset) <==> KindOf(header) == Reset
    ensures header & PACKET_TYPE_MASK == KindBits(Ack) <==> KindOf(header) == Ack
  {
  }

  lemma PayloadTypeRoundTrip(payloadType: bv8)
    requires payloadType <= 15
    ensures PayloadTypeOf(payloadType << 1) == payloadType
  {
  }

  /** The main loop leaves the payload length in the header's place; queueing rewrites
      both bytes. */
  lemma ComposedIsStored(row: Bytes, payloadType: bv8)
    requires |row| >= 2 && |row| >= 2 + row[HEADER_LENGTH] as nat && row[HEADER_LENGTH] as nat <= RADIO_LINK_PAYLOAD_SIZE
    requires payloadType as nat <= RADIO_LINK_MAX_PAYLOAD_TYPE
    ensures Stored(row[0 := row[HEADER_LENGTH] + 1][1 := payloadType << 1],
                   Packet(payloadType, row[2..2 + row[HEADER_LENGTH] as nat]))
  {
    PayloadTypeRoundTrip(payloadType);
    var row' := row[0 := row[HEADER_LENGTH] + 1][1 := payloadType << 1];
    assert (row[HEADER_LENGTH] + 1) as nat == row[HEADER_LENGTH] as nat + 1;
    assert row'[2..] == row[2..];
  }

  /** Retransmitting: whatever header bits the slot held, the frame that goes out
      carries the stored packet, and the slot still stores it. */
  lemma StampKeepsPacket(bytes: Bytes, p: Packet, kind: Kind, bit: bool)
    requires Stored(bytes, p)
    ensures var stamped := bytes[1 := Header(bytes[1], kind, bit)];
      Stored(stamped, p) && FrameOf(stamped) == Frame(kind, bit, p)
  {
    HeaderRoundTrip(bytes[1], kind, bit);
    var stamped := bytes[1 := Header(bytes[1], kind, bit)];
    assert stamped[2..] == bytes[2..];
  }

  lemma ShortFrame(kind: Kind)
    ensures FrameOf([1, KindBits(kind)]) == Frame(kind, false, NO_DATA)
  {
    HeaderRoundTrip(0, kind, false);
    assert Header(0, kind, false) == KindBits(kind);
  }

  // The receiver's rewriting of the first two bytes.
  function Unpack(bytes: Bytes): Bytes
    requires IsFrame(bytes)
  {
    bytes[1 := bytes[0] - 1][0 := PayloadTypeOf(bytes[1])]
  }

  /** What the main loop reads out of a rewritten buffer is the packet that was in
      the frame. */
  lemma UnpackRecovers(bytes: Bytes)
    requires IsFrame(bytes)
    ensures Unpacked(Unpack(bytes), FrameOf(bytes).packet)
  {
    var len := bytes[0] as nat;
    assert (bytes[0] - 1) as nat == len - 1;
    assert Unpack(bytes)[2..1 + len] == bytes[2..1 + len];
  }
}
