/** SOME/IP-SD messages as mpu/someip/sd.py builds and parses them. */
module SdMessages {
  import opened Bytes

  const SD_SERVICE_ID: u16 := 0xFFFF
  const SD_METHOD_ID: u16 := 0x8100
  const SD_MESSAGE_TYPE: byte := 0x02
  const FLAG_UNICAST: byte := 0x40
  const FLAG_REBOOT: byte := 0x80
  const TTL_DEFAULT: u24 := 0xFFFFFF
  const TTL_STOP: u24 := 0
  const L4_UDP: byte := 0x11
  const ENTRY_FIND_SERVICE: byte := 0x00
  const ENTRY_OFFER_SERVICE: byte := 0x01
  const ENTRY_SUBSCRIBE_EVENTGROUP: byte := 0x06
  const ENTRY_SUBSCRIBE_EVENTGROUP_ACK: byte := 0x07
  const OPT_IP4_ENDPOINT: byte := 0x04
  const OPT_IP4_MULTICAST: byte := 0x14
  const ENTRY_SIZE: nat := 16
  const IP4_OPTION_SIZE: nat := 12

  // ---- builders ----

  /** The arguments of build_service_entry and build_eventgroup_entry: any integers, masked on the way out. */
  datatype EntryArgs =
    | ServiceArgs(entryType: int, serviceId: int, instanceId: int, ttl: int, major: int,
                  index1: int, index2: int, run1: int, run2: int, minor: int)
    | EventgroupArgs(entryType: int, serviceId: int, instanceId: int, ttl: int, major: int,
                     index1: int, index2: int, run1: int, run2: int, eventgroupId: int)

  datatype EndpointArgs = EndpointArgs(address: seq<byte>, port: int, l4Proto: int)

  /** inet_aton yields four bytes. */
  predicate ValidEndpoint(o: EndpointArgs) {
    |o.address| == 4
  }

  function BuildEntry(a: EntryArgs): (e: seq<byte>)
    ensures |e| == ENTRY_SIZE
  {
    [a.entryType % 0x100, a.index1 % 0x100, a.index2 % 0x100, a.run1 % 0x10 * 0x10 + a.run2 % 0x10]
    + Pack16(a.serviceId % 0x1_0000) + Pack16(a.instanceId % 0x1_0000) + [a.major % 0x100]
    + Pack24(a.ttl % 0x100_0000)
    + match a
      case ServiceArgs(_, _, _, _, _, _, _, _, _, minor) => Pack32(minor % 0x1_0000_0000)
      case EventgroupArgs(_, _, _, _, _, _, _, _, _, eventgroup) => Pack16(0) + Pack16(eventgroup % 0x1_0000)
  }

  function BuildEndpointOption(o: EndpointArgs): (b: seq<byte>)
    requires ValidEndpoint(o)
    ensures |b| == IP4_OPTION_SIZE
  {
    Pack16(9) + [OPT_IP4_ENDPOINT, 0x00] + o.address + [0x00, o.l4Proto % 0x100] + Pack16(o.port % 0x1_0000)
  }

  function SomeipHeader(length: u32, session: u16): (h: seq<byte>)
    ensures |h| == 16
  {
    Pack16(SD_SERVICE_ID) + Pack16(SD_METHOD_ID) + Pack32(length) + Pack16(0) + Pack16(session)
    + [0x01, 0x01, SD_MESSAGE_TYPE, 0x00]
  }

  /** build_sd_message; struct.pack raises when the length does not fit its field. */
  function BuildSdMessage(entries: seq<byte>, options: seq<byte>, session: int, flags: int): (p: seq<byte>)
    requires 20 + |entries| + |options| < 0x1_0000_0000
    ensures |p| == 28 + |entries| + |options|
  {
    SomeipHeader(20 + |entries| + |options|, session % 0x1_0000)
    + [flags % 0x100, 0, 0, 0] + Pack32(|entries|) + entries + Pack32(|options|) + options
  }

  function BuildFindService(serviceId: int, instanceId: int, session: int): (p: seq<byte>)
    ensures |p| == 44
  {
    BuildSdMessage(
      BuildEntry(ServiceArgs(ENTRY_FIND_SERVICE, serviceId, instanceId, TTL_DEFAULT, 1, 0, 0, 0, 0, 0)),
      [], session, FLAG_UNICAST)
  }

  function BuildOfferService(
      serviceId: int, instanceId: int, address: seq<byte>, port: int, session: int, ttl: int, flags: int): (p: seq<byte>)
    requires |address| == 4
    ensures |p| == 56
  {
    BuildSdMessage(
      BuildEntry(ServiceArgs(ENTRY_OFFER_SERVICE, serviceId, instanceId, ttl, 1, 0, 0, 1, 0, 0)),
      BuildEndpointOption(EndpointArgs(address, port, L4_UDP)), session, flags)
  }

  function BuildStopOffer(serviceId: int, instanceId: int, session: int): (p: seq<byte>)
    ensures |p| == 44
  {
    BuildSdMessage(
      BuildEntry(ServiceArgs(ENTRY_OFFER_SERVICE, serviceId, instanceId, TTL_STOP, 1, 0, 0, 0, 0, 0)),
      [], session, FLAG_UNICAST)
  }

  function BuildSubscribe(
      serviceId: int, instanceId: int, eventgroupId: int, address: seq<byte>, port: int, session: int): (p: seq<byte>)
    requires |address| == 4
    ensures |p| == 56
  {
    BuildSdMessage(
      BuildEntry(EventgroupArgs(ENTRY_SUBSCRIBE_EVENTGROUP, serviceId, instanceId, TTL_DEFAULT, 1, 0, 0, 0, 0, eventgroupId)),
      BuildEndpointOption(EndpointArgs(address, port, L4_UDP)), session, FLAG_UNICAST)
  }

  // ---- parser ----

  datatype Entry = Entry(
    entryType: byte, serviceId: u16, instanceId: u16, major: byte, ttl: u24,
    minor: Option<u32>, eventgroupId: Option<u16>)

  datatype Endpoint = Endpoint(address: seq<byte>, l4Proto: byte, port: u16)

  datatype SdOption = SdOption(optionType: byte, endpoint: Option<Endpoint>)

  /** What parse_sd does with a packet: a value, a ValueError, or the IndexError of reading packet[16]. */
  datatype Outcome =
    | Parsed(session: u16, flags: byte, entries: seq<Entry>, options: seq<SdOption>)
    | ValueError
    | IndexError

  function DecodeEntry(chunk: seq<byte>): Entry
    requires |chunk| == ENTRY_SIZE
  {
    Entry(chunk[0], Be16(chunk[4..6]), Be16(chunk[6..8]), chunk[8], Be24(chunk[9..12]),
          if chunk[0] <= 0x02 then Some(Be32(chunk[12..16])) else None,
          if 0x04 <= chunk[0] <= 0x07 then Some(Be16(chunk[14..16])) else None)
  }

  function DecodeEntries(entries: seq<byte>): (r: seq<Entry>)
    requires |entries| % ENTRY_SIZE == 0
    ensures |r| == |entries| / ENTRY_SIZE
    decreases |entries|
  {
    if entries == [] then []
    else [DecodeEntry(entries[..ENTRY_SIZE])] + DecodeEntries(entries[ENTRY_SIZE..])
  }

  /** The size of an option block: the length field does not count itself and the type. */
  function BlockSize(head: seq<byte>): nat
    requires |head| >= 2
  {
    Be16(head[..2]) + 3
  }

  function DecodeOption(block: seq<byte>): SdOption
    requires |block| >= 3
  {
    SdOption(block[2],
             if (block[2] == OPT_IP4_ENDPOINT || block[2] == OPT_IP4_MULTICAST) && |block| >= IP4_OPTION_SIZE
             then Some(Endpoint(block[4..8], block[9], Be16(block[10..12]))) else None)
  }

  /** The option walk. None where parse_sd raises. */
  function DecodeOptions(options: seq<byte>): Option<seq<SdOption>>
    decreases |options|
  {
    if options == [] then Some([])
    else if |options| < 4 || BlockSize(options) > |options| then None
    else
      var n := BlockSize(options);
      Prepend([DecodeOption(options[..n])], DecodeOptions(options[n..]))
  }

  function Prepend<T(==)>(front: seq<T>, back: Option<seq<T>>): Option<seq<T>> {
    if back == None then None else Some(front + back.value)
  }

  lemma PrependTwice<T>(a: seq<T>, b: seq<T>, back: Option<seq<T>>)
    ensures Prepend(a, Prepend(b, back)) == Prepend(a + b, back)
    ensures Prepend([], back) == back
  {
    if back.Some? {
      assert a + (b + back.value) == (a + b) + back.value;
      assert [] + back.value == back.value;
    }
  }

  function ParseSd(packet: seq<byte>): Outcome {
    if |packet| < 16 then ValueError
    else if Be16(packet[0..2]) != SD_SERVICE_ID || Be16(packet[2..4]) != SD_METHOD_ID then ValueError
    else if packet[14] != SD_MESSAGE_TYPE then ValueError
    else if |packet| == 16 then IndexError
    else
      var entriesLength := FromBytes(Slice(packet, 20, 24));
      if 24 + entriesLength + 4 > |packet| || entriesLength % ENTRY_SIZE != 0 then ValueError
      else
        var optionsOffset := 24 + entriesLength;
        var optionsLength := FromBytes(Slice(packet, optionsOffset, optionsOffset + 4));
        if optionsOffset + 4 + optionsLength > |packet| then ValueError
        else
          match DecodeOptions(packet[optionsOffset + 4..optionsOffset + 4 + optionsLength])
          case None => ValueError
          case Some(options) =>
            Parsed(Be16(packet[10..12]), packet[16], DecodeEntries(packet[24..24 + entriesLength]), options)
  }

  lemma {:induction false} DecodeEntriesLast(entries: seq<byte>, chunk: seq<byte>)
    requires |entries| % ENTRY_SIZE == 0 && |chunk| == ENTRY_SIZE
    ensures DecodeEntries(entries + chunk) == DecodeEntries(entries) + [DecodeEntry(chunk)]
    decreases |entries|
  {
    hide DecodeEntry;
    if entries == [] {
      assert entries + chunk == chunk && chunk[..ENTRY_SIZE] == chunk && chunk[ENTRY_SIZE..] == [];
    } else {
      assert (entries + chunk)[..ENTRY_SIZE] == entries[..ENTRY_SIZE];
      assert (entries + chunk)[ENTRY_SIZE..] == entries[ENTRY_SIZE..] + chunk;
      DecodeEntriesLast(entries[ENTRY_SIZE..], chunk);
    }
  }

  /** parse_sd, loops and all. */
  method Parse(packet: seq<byte>) returns (r: Outcome)
    ensures r == ParseSd(packet)
  {
    if |packet| < 16 {
      return ValueError;
    }
    if Be16(packet[0..2]) != SD_SERVICE_ID || Be16(packet[2..4]) != SD_METHOD_ID {
      return ValueError;
    }
    if packet[14] != SD_MESSAGE_TYPE {
      return ValueError;
    }
    if |packet| == 16 {
      return IndexError;
    }
    var entriesLength := FromBytes(Slice(packet, 20, 24));
    if 24 + entriesLength + 4 > |packet| {
      return ValueError;
    }
    if entriesLength % ENTRY_SIZE != 0 {
      return ValueError;
    }
    var optionsOffset := 24 + entriesLength;
    var optionsLength := FromBytes(Slice(packet, optionsOffset, optionsOffset + 4));
    if optionsOffset + 4 + optionsLength > |packet| {
      return ValueError;
    }
    var entries := ParseEntries(packet[24..24 + entriesLength]);
    var options := ParseOptions(packet[optionsOffset + 4..optionsOffset + 4 + optionsLength]);
    if options == None {
      return ValueError;
    }
    r := Parsed(Be16(packet[10..12]), packet[16], entries, options.value);
  }

  /** The entry loop of parse_sd. */
  method ParseEntries(entries: seq<byte>) returns (r: seq<Entry>)
    requires |entries| % ENTRY_SIZE == 0
    ensures r == DecodeEntries(entries)
  {
    hide DecodeEntry;
    r := [];
    var i := 0;
    assert entries[..0] == [];
    while i < |entries|
      invariant 0 <= i <= |entries| && i % ENTRY_SIZE == 0
      invariant r == DecodeEntries(entries[..i])
    {
      var chunk := entries[i..i + ENTRY_SIZE];
      DecodeEntriesLast(entries[..i], chunk);
      assert entries[..i + ENTRY_SIZE] == entries[..i] + chunk;
      r := r + [DecodeEntry(chunk)];
      i := i + ENTRY_SIZE;
    }
    assert entries[..i] == entries;
  }

  /** The option loop of parse_sd; None where it raises. Each turn advances by at least 3 bytes. */
  method ParseOptions(options: seq<byte>) returns (r: Option<seq<SdOption>>)
    ensures r == DecodeOptions(options)
  {
    hide DecodeOption;
    var parsed := [];
    var pos := 0;
    assert options[0..] == options;
    PrependTwice([], [], DecodeOptions(options));
    while pos < |options|
      invariant 0 <= pos <= |options|
      invariant DecodeOptions(options) == Prepend(parsed, DecodeOptions(options[pos..]))
    {
      if pos + 4 > |options| {
        return None;
      }
      var rest := options[pos..];
      assert options[pos..pos + 2] == rest[..2];
      FromBytesWidths(rest[..2], rest[..3], rest[..4]);
      var length := FromBytes(options[pos..pos + 2]);
      var block := length + 3;
      if pos + block > |options| {
        return None;
      }
      assert options[pos..pos + block] == rest[..block] && rest[block..] == options[pos + block..];
      PrependTwice(parsed, [DecodeOption(rest[..block])], DecodeOptions(rest[block..]));
      parsed := parsed + [DecodeOption(options[pos..pos + block])];
      pos := pos + block;
    }
    assert parsed + [] == parsed;
    r := Some(parsed);
  }
}
