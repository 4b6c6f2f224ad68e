/** The SOME/IP notification packet: mpu/someip/protocol.py, builder and parser. */
module Protocol {
  import opened Bytes

  const SERVICE_ID: u16 := 0x1234
  const INSTANCE_ID: u16 := 0x5678
  const EVENT_NOTIFY: u16 := 0x8001
  const EVENT_HEARTBEAT: u16 := 0x8002
  const SOMEIP_PORT: u16 := 30490
  const HEADER_SIZE: nat := 16

  /** What parse_event returns: the event id and the payload. */
  datatype Event = Event(id: u16, payload: seq<byte>)

  /** The reasons for which parse_event raises ValueError. */
  datatype ParseError = TooShort | WrongService | WrongMessageType | WrongLength

  datatype ParseResult = Parsed(event: Event) | Rejected(error: ParseError) {
    function ToOption(): Option<Event> {
      if Parsed? then Some(event) else None
    }
  }

  /** The arguments of build_packet. */
  datatype Message = Message(eventId: u16, payload: seq<byte>, session: u16) {
    function Delivered(): Event {
      Event(eventId, payload)
    }
  }

  function Header(eventId: u16, length: u32, session: u16): (h: seq<byte>)
    ensures |h| == HEADER_SIZE
  {
    Pack16(SERVICE_ID) + Pack16(eventId) + Pack32(length) + Pack16(1) + Pack16(session)
    + [0x01, 0x01, 0x02, 0x00]
  }

  /** Header and payload: the part of a packet that the length field covers. struct.pack raises on longer payloads. */
  function Frame(m: Message): (f: seq<byte>)
    requires |m.payload| + 8 < 0x1_0000_0000
    ensures |f| == HEADER_SIZE + |m.payload|
  {
    Header(m.eventId, |m.payload| + 8, m.session) + m.payload
  }

  /** Zero bytes that align a packet to 8 bytes. */
  function PadLength(n: nat): (k: nat)
    ensures k < 8 && (n + k) % 8 == 0
  {
    (8 - n % 8) % 8
  }

  function Zeros(n: nat): (s: seq<byte>)
    ensures |s| == n && forall i :: 0 <= i < n ==> s[i] == 0
  {
    seq(n, _ => 0)
  }

  function BuildPacket(m: Message): (p: seq<byte>)
    requires |m.payload| + 8 < 0x1_0000_0000
  {
    Frame(m) + Zeros(PadLength(|Frame(m)|))
  }

  function BuildNotify(level: int, session: u16): seq<byte> {
    BuildPacket(Message(EVENT_NOTIFY, [level % 0x100], session))
  }

  function BuildHeartbeat(counter: int, session: u16): seq<byte> {
    BuildPacket(Message(EVENT_HEARTBEAT, [counter % 0x100], session))
  }

  function ParseEvent(packet: seq<byte>): (r: ParseResult) {
    if |packet| < HEADER_SIZE then Rejected(TooShort)
    else if Be16(packet[0..2]) != SERVICE_ID then Rejected(WrongService)
    else if packet[14] != 0x02 then Rejected(WrongMessageType)
    else
      var payloadLength := Be32(packet[4..8]) - 8;
      if payloadLength < 0 || payloadLength > |packet| - HEADER_SIZE then Rejected(WrongLength)
      else Parsed(Event(Be16(packet[2..4]), packet[HEADER_SIZE..HEADER_SIZE + payloadLength]))
  }

  /** The header fields of a built frame, at the offsets both receivers read. */
  lemma FrameFields(m: Message, rest: seq<byte>)
    requires |m.payload| + 8 < 0x1_0000_0000
    ensures var p := Frame(m) + rest;
            && Be16(p[0..2]) == SERVICE_ID && Be16(p[2..4]) == m.eventId
            && Be32(p[4..8]) == |m.payload| + 8 && Be16(p[10..12]) == m.session
            && p[14] == 0x02 && p[HEADER_SIZE..HEADER_SIZE + |m.payload|] == m.payload
  {
    var p := Frame(m) + rest;
    assert p[0..2] == Pack16(SERVICE_ID);
    assert p[2..4] == Pack16(m.eventId);
    assert p[4..8] == Pack32(|m.payload| + 8);
    assert p[10..12] == Pack16(m.session);
    RoundTrip16(SERVICE_ID);
    RoundTrip32(|m.payload| + 8);
    RoundTrip16(m.eventId);
    RoundTrip16(m.session);
  }

  /** parse_event undoes build_packet, whatever follows the frame: padding is never part of the payload. */
  lemma ParseRoundTrip(m: Message, rest: seq<byte>)
    requires |m.payload| + 8 < 0x1_0000_0000
    ensures ParseEvent(Frame(m) + rest) == Parsed(m.Delivered())
    ensures ParseEvent(BuildPacket(m)) == Parsed(m.Delivered())
  {
    FrameFields(m, rest);
    FrameFields(m, Zeros(PadLength(|Frame(m)|)));
  }

  /** A packet is aligned to 8 bytes, and unpadded exactly when its payload is. */
  lemma PacketAligned(m: Message)
    requires |m.payload| + 8 < 0x1_0000_0000
    ensures |BuildPacket(m)| % 8 == 0
    ensures BuildPacket(m) == Frame(m) <==> |m.payload| % 8 == 0
  {
    hide Frame;
    var n := |Frame(m)|;
    assert |BuildPacket(m)| == n + PadLength(n);
    PadNone(n, |m.payload|);
    if PadLength(n) == 0 {
      assert BuildPacket(m) == Frame(m);
    }
  }

  lemma PadNone(n: nat, payload: nat)
    requires n == HEADER_SIZE + payload
    ensures PadLength(n) == 0 <==> payload % 8 == 0
  {
  }

  /** Levels and heartbeat counters travel modulo 256, in packets of 24 bytes. */
  lemma OneByteEvents(level: int, counter: int, session: u16)
    ensures ParseEvent(BuildNotify(level, session)) == Parsed(Event(0x8001, [level % 0x100]))
    ensures ParseEvent(BuildHeartbeat(counter, session)) == Parsed(Event(0x8002, [counter % 0x100]))
    ensures |BuildNotify(level, session)| == 24 == |BuildHeartbeat(counter, session)|
  {
    ParseRoundTrip(Message(EVENT_NOTIFY, [level % 0x100], session), []);
    ParseRoundTrip(Message(EVENT_HEARTBEAT, [counter % 0x100], session), []);
  }

  /** parse_event on every packet, told from its bytes: each reason to raise, and otherwise the event. */
  lemma ParseEventExact(p: seq<byte>)
    ensures |p| < 16 ==> ParseEvent(p) == Rejected(TooShort)
    ensures |p| >= 16 && !(p[0] == 0x12 && p[1] == 0x34) ==> ParseEvent(p) == Rejected(WrongService)
    ensures |p| >= 16 && p[0] == 0x12 && p[1] == 0x34 && p[14] != 2 ==> ParseEvent(p) == Rejected(WrongMessageType)
    ensures |p| >= 16 && p[0] == 0x12 && p[1] == 0x34 && p[14] == 2 ==>
              ParseEvent(p) == if 8 <= Word(p, 4) <= |p| - 8 then Parsed(Event(Half(p, 2), p[16..8 + Word(p, 4)]))
                               else Rejected(WrongLength)
  {
    if |p| >= 16 {
      HalfAt(p, 0);
      HalfAt(p, 2);
      WordAt(p, 4);
      hide Be16, Be32;
    }
  }
}
