/**
 * What the MCU's discovery client and UDP receiver do with a datagram, and what they send,
 * told from the bytes: MCU/src/someip_service.cpp against parse_sd and parse_event.
 */
module Reactions {
  import opened Bytes
  import opened SdMessages
  import opened SdRoundTrip
  import opened McuSd
  import opened McuSdParser
  import opened SdWire
  import opened Discovery
  import opened UartReceiving
  import Protocol

  // ---- what is sent ----

  /** Every Subscribe the MCU sends, under any session: to whom, and what parse_sd reads in it. */
  lemma SubscribeMeaning(session: u16)
    ensures SubscribePacket(session).ToProvider? && SubscribePacket(session).bytes[28..32] == [0x12, 0x34, 0x56, 0x78]
    ensures ParseSd(SubscribePacket(session).bytes)
         == Parsed(session, 0x40, [Entry(6, 0x1234, 0x5678, 1, 0xFFFFFF, None, Some(1))],
                   [SdOption(4, Some(Endpoint([127, 0, 0, 1], 0x11, 30490)))])
  {
    hide BuildSdMessage, ParseSd, BuildEntry, BuildEndpointOption;
    SubscribeWire(0x1234, 0x5678, 1, LOCALHOST, 30490, session);
    OneEntryParsed(EventgroupArgs(ENTRY_SUBSCRIBE_EVENTGROUP, 0x1234, 0x5678, TTL_DEFAULT, 1, 0, 0, 0, 0, 1),
                   Some(EndpointArgs(LOCALHOST, 30490, L4_UDP)), session, FLAG_UNICAST);
  }

  /** Every query the MCU sends. */
  lemma FindMeaning(session: u16)
    ensures FindPacket(session).ToGroup? && FindPacket(session).bytes[28..32] == [0x12, 0x34, 0x56, 0x78]
    ensures ParseSd(FindPacket(session).bytes)
         == Parsed(session, 0x40, [Entry(0, 0x1234, 0x5678, 1, 0xFFFFFF, Some(0), None)], [])
  {
    hide BuildSdMessage, ParseSd, BuildEntry;
    FindWire(0x1234, 0x5678, session);
    OneEntryParsed(ServiceArgs(ENTRY_FIND_SERVICE, 0x1234, 0x5678, TTL_DEFAULT, 1, 0, 0, 0, 0, 0), None, session, FLAG_UNICAST);
  }

  /** What an offer draws asks for the offered service: parse_sd reads the offer's own ids in it. */
  lemma SubscribesToTheOffer(p: seq<byte>, i: nat, session: u16)
    requires ParseSd(p).Parsed? && i < |ParseSd(p).entries| && Offers(ParseSd(p).entries[i])
    ensures var drawn := ParseSd(SubscribePacket(session).bytes);
            && drawn.Parsed? && |drawn.entries| == 1
            && drawn.entries[0].serviceId == ParseSd(p).entries[i].serviceId
            && drawn.entries[0].instanceId == ParseSd(p).entries[i].instanceId
  {
    hide ParseSd, SubscribePacket;
    SubscribeMeaning(session);
  }

  lemma {:induction false} CountIsSize(sent: seq<Datagram>, group: bool)
    ensures Count(sent, group) == |set k | 0 <= k < |sent| && sent[k].ToGroup? == group|
    decreases |sent|
  {
    if sent != [] {
      var n := |sent| - 1;
      CountIsSize(sent[..n], group);
      var before, all := set k | 0 <= k < n && sent[..n][k].ToGroup? == group, set k | 0 <= k < |sent| && sent[k].ToGroup? == group;
      assert all == if sent[n].ToGroup? == group then before + {n} else before;
    }
  }

  /** On every trace, bytes 10 and 11 number the datagrams of each kind by themselves, from 1, modulo 65536. */
  lemma {:induction false} SessionNumbers(sent: seq<Datagram>, i: nat)
    requires Numbered(sent) && i < |sent|
    ensures |sent[i].bytes| >= 44
    ensures Half(sent[i].bytes, 10) == (|set k | 0 <= k < i && sent[k].ToGroup? == sent[i].ToGroup?| + 1) % 0x1_0000
  {
    hide Numbered, Count, BuildFindService, BuildSubscribe;
    var group := sent[i].ToGroup?;
    NumberedThroughout(sent, i);
    CountIsSize(sent[..i], group);
    assert (set k | 0 <= k < |sent[..i]| && sent[..i][k].ToGroup? == group) == set k | 0 <= k < i && sent[k].ToGroup? == group;
    var session := (Count(sent[..i], group) + 1) % 0x1_0000;
    FindWire(0x1234, 0x5678, session);
    SubscribeWire(0x1234, 0x5678, 1, LOCALHOST, 30490, session);
    assert sent[i].bytes[10] == session / 0x100 && sent[i].bytes[11] == session % 0x100;
  }

  // ---- what a discovery message draws ----

  /** The entries that are running offers of 0x1234/0x5678. */
  ghost function OfferedAt(p: seq<byte>): set<int>
    requires Delimits(p)
  {
    set i | 0 <= i < Word(p, 20) / 16
         && p[24 + 16 * i] == 1 && Half(p, 28 + 16 * i) == 0x1234 && Half(p, 30 + 16 * i) == 0x5678
         && Triple(p, 33 + 16 * i) != 0
  }

  /** A UDP endpoint among the first four blocks. */
  predicate EndpointAmong(blocks: seq<seq<byte>>) {
    exists k :: 0 <= k < |blocks| && k < 4 && |blocks[k]| >= 12 && blocks[k][2] == 4 && blocks[k][9] == 0x11
  }

  lemma {:induction false} CountOursIsSize(es: seq<SdEntry>)
    ensures CountOurs(es) == |set i | 0 <= i < |es| && Ours(es[i])|
    decreases |es|
  {
    hide Ours;
    if es != [] {
      var n := |es| - 1;
      CountOursIsSize(es[..n]);
      var before, all := set i | 0 <= i < n && Ours(es[..n][i]), set i | 0 <= i < |es| && Ours(es[i]);
      assert all == if Ours(es[n]) then before + {n} else before;
    }
  }

  lemma {:induction false} OffersCounted(p: seq<byte>)
    requires Accepts(p)
    ensures Delimits(p) && ParsedTables(p).entryCount <= 4
    ensures CountOurs(ParsedTables(p).entries[..ParsedTables(p).entryCount]) == |OfferedAt(p)|
  {
    McuParsedExactly(p);
    hide Accepts, ParsedTables, Word, Half, Triple;
    var t := ParsedTables(p);
    var es := t.entries[..t.entryCount];
    CountOursIsSize(es);
    assert (set i | 0 <= i < |es| && Ours(es[i])) == OfferedAt(p);
  }

  lemma {:induction false} EndpointSeen(area: seq<byte>, blocks: seq<seq<byte>>, rest: seq<byte>)
    requires AllWellFormed(blocks) && (|rest| < 3 || BlockSize(rest) > |rest|) && area == Flatten(blocks) + rest
    ensures AnyUdp(Slots(area, 4)) <==> EndpointAmong(blocks)
  {
    SlotsRead(blocks, rest, 4);
    hide Slots, Flatten, BlockSize;
    var slots := Slots(area, 4);
    if EndpointAmong(blocks) {
      var k :| 0 <= k < |blocks| && k < 4 && |blocks[k]| >= 12 && blocks[k][2] == 4 && blocks[k][9] == 0x11;
      assert OptionSlotReads(slots[k], blocks[k]);
      assert UdpEndpoint(slots[k]);
    }
    if AnyUdp(slots) {
      var k :| 0 <= k < |slots| && UdpEndpoint(slots[k]);
      assert OptionSlotReads(slots[k], blocks[k]);
    }
  }

  /**
   * The number of Subscribes drawn by any bytes at all, whether parse_sd accepts them or not.
   * Every option area is whole blocks and a rest that is none (WholeBlocks).
   */
  lemma {:induction false} ReactionsExact(p: seq<byte>, blocks: seq<seq<byte>>, rest: seq<byte>)
    requires AllWellFormed(blocks) && (|rest| < 3 || BlockSize(rest) > |rest|)
    requires Delimits(p) ==> OptionBytes(p) == Flatten(blocks) + rest
    ensures ReactionsTo(p)
         == if Delimits(p) && Word(p, 20) <= 64 && p[0] == 0xFF && p[1] == 0xFF && p[2] == 0x81 && p[3] == 0 && EndpointAmong(blocks)
            then |OfferedAt(p)| else 0
  {
    hide Accepts, Delimits, Word, Flatten, BlockSize, OfferedAt, EndpointAmong, AnyUdp, CountOurs;
    McuParsedExactly(p);
    if Accepts(p) {
      OffersCounted(p);
      TablesBounded(p);
      EndpointSeen(OptionArea(p), blocks, rest);
      hide OptionArea, Slots, Padded, LastFilled;
      AnyUdpSlots(Slots(OptionArea(p), SD_MAX_OPTIONS));
    }
  }

  // ---- what an event datagram reports ----

  /** someip_udp_receive on every datagram. */
  lemma UdpEventExact(d: seq<byte>)
    ensures UdpEvent(d)
         == if |d| >= 17 && d[0] == 0x12 && d[1] == 0x34 && d[14] == 2 && d[4] == d[5] == d[6] == 0 && 8 <= d[7] <= 32
            then Some(McuEvent(Half(d, 2), d[16])) else None
  {
    var buf := Received(d);
    if |d| >= 17 {
      HalfAt(buf, 0);
      HalfAt(buf, 2);
      WordAt(buf, 4);
      hide Be16, Be32;
    }
  }

  /**
   * Against parse_event on the same bytes: what Python rejects for its service, message type
   * or size the MCU rejects too; what Python accepts the MCU reports under the same id if the
   * payload has at most 24 bytes and byte 16 is there. Only a length beyond the datagram
   * makes it report what Python rejects.
   */
  lemma UdpAgainstPython(d: seq<byte>)
    ensures match Protocol.ParseEvent(d)
            case Rejected(WrongLength) => UdpEvent(d).Some? ==> |d| - 8 < d[7] <= 32
            case Rejected(_) => UdpEvent(d) == None
            case Parsed(e) =>
              UdpEvent(d) == if |e.payload| <= 24 && |d| >= 17 then Some(McuEvent(e.id, if e.payload == [] then d[16] else e.payload[0])) else None
  {
    Protocol.ParseEventExact(d);
    UdpEventExact(d);
    hide UdpEvent, Protocol.ParseEvent;
  }
}
