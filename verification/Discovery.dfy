/** The MCU's discovery client and its UDP receiver: MCU/src/someip_service.cpp over the SD codec. */
module Discovery {
  import opened Bytes
  import Protocol
  import opened SdMessages
  import opened McuSd
  import opened McuSdParser
  import opened SdRefinement
  import opened SdWire
  import SdRoundTrip
  import opened UartReceiving

  const SD_EVENTGROUP_ID: u16 := 0x0001
  const LOCALHOST: seq<byte> := [127, 0, 0, 1]
  const UDP_BUF_SIZE: nat := 64

  /** What leaves the socket: a FindService to the multicast group, or a Subscribe to the provider. */
  datatype Datagram = ToGroup(bytes: seq<byte>) | ToProvider(bytes: seq<byte>)

  function FindPacket(session: u16): Datagram {
    ToGroup(BuildFindService(Protocol.SERVICE_ID, Protocol.INSTANCE_ID, session))
  }

  function SubscribePacket(session: u16): Datagram {
    ToProvider(BuildSubscribe(Protocol.SERVICE_ID, Protocol.INSTANCE_ID, SD_EVENTGROUP_ID, LOCALHOST, Protocol.SOMEIP_PORT, session))
  }

  /** The next `n` Subscribes after one that carried `session`: ++session_id on a uint16_t, through 0. */
  function Subscribes(session: u16, n: nat): (d: seq<Datagram>)
    ensures |d| == n
  {
    seq(n, i requires 0 <= i => SubscribePacket((session + i + 1) % 0x1_0000))
  }

  // ---- how many Subscribes a parsed message is worth ----

  /** A running offer of our service. */
  predicate Ours(e: SdEntry) {
    e.kind == ENTRY_OFFER_SERVICE && e.ttl != 0 && e.serviceId == Protocol.SERVICE_ID && e.instanceId == Protocol.INSTANCE_ID
  }

  function CountOurs(es: seq<SdEntry>): (n: nat)
    ensures n <= |es|
  {
    if es == [] then 0 else CountOurs(es[..|es| - 1]) + if Ours(es[|es| - 1]) then 1 else 0
  }

  predicate UdpEndpoint(o: SdIp4) {
    o.kind == OPT_IP4_ENDPOINT && o.l4Proto == L4_UDP
  }

  predicate AnyUdp(os: seq<SdIp4>) {
    exists i :: 0 <= i < |os| && UdpEndpoint(os[i])
  }

  /** The tables' own limits, which hold of whatever sd_parse fills in. */
  predicate Bounded(t: Tables) {
    && t.entryCount <= SD_MAX_ENTRIES == |t.entries|
    && t.optionCount <= SD_MAX_OPTIONS == |t.options|
  }

  function Reactions(t: Tables): nat
    requires Bounded(t)
  {
    if AnyUdp(t.options[..t.optionCount]) then CountOurs(t.entries[..t.entryCount]) else 0
  }

  /** What a received buffer makes the MCU do. */
  function ReactionsTo(buf: seq<byte>): nat {
    if Accepts(buf) then Reactions(ParsedTables(buf)) else 0
  }

  // ---- the class of the file's static variables ----

  function Count(sent: seq<Datagram>, group: bool): nat {
    if sent == [] then 0
    else Count(sent[..|sent| - 1], group) + if sent[|sent| - 1].ToGroup? == group then 1 else 0
  }

  /** The next datagram of a kind: its k-th carries session k modulo 65536. */
  function Stamped(sent: seq<Datagram>, group: bool): Datagram {
    var session := (Count(sent, group) + 1) % 0x1_0000;
    if group then FindPacket(session) else SubscribePacket(session)
  }

  predicate Numbered(sent: seq<Datagram>) {
    sent == [] || (Numbered(sent[..|sent| - 1]) && sent[|sent| - 1] == Stamped(sent[..|sent| - 1], sent[|sent| - 1].ToGroup?))
  }

  /** In a numbered trace the k-th Find and the k-th Subscribe carry session k modulo 65536, each kind counted by itself. */
  lemma {:induction false} NumberedThroughout(sent: seq<Datagram>, i: nat)
    requires Numbered(sent) && i < |sent|
    ensures sent[i] == Stamped(sent[..i], sent[i].ToGroup?)
    decreases |sent|
  {
    hide Stamped;
    var n := |sent| - 1;
    if i < n {
      NumberedThroughout(sent[..n], i);
      assert sent[..n][..i] == sent[..i];
    }
  }

  /** From the empty trace, any number of Subscribes can be sent. */
  lemma {:induction false} SubscribesReach(n: nat)
    ensures Numbered(Subscribes(0, n)) && Count(Subscribes(0, n), false) == n
    decreases n
  {
    if n > 0 {
      hide BuildSubscribe;
      SubscribesReach(n - 1);
      assert Subscribes(0, n)[..n - 1] == Subscribes(0, n - 1);
    }
  }

  /**
   * The counters pass through 0: the 65536th Subscribe carries session 0, and after 65535
   * Finds so does the next Find. SOME/IP-SD reserves 0, and Python's server skips it.
   */
  lemma {:induction false} SessionZero(sent: seq<Datagram>)
    ensures Numbered(Subscribes(0, 0x1_0000)) && Subscribes(0, 0x1_0000)[0xFFFF] == SubscribePacket(0)
    ensures Count(sent, true) == 0xFFFF ==> Stamped(sent, true) == FindPacket(0)
    ensures Count(sent, false) == 0xFFFF ==> Stamped(sent, false) == SubscribePacket(0)
    ensures SubscribePacket(0).bytes[10..12] == FindPacket(0).bytes[10..12] == [0, 0]
  {
    hide BuildSubscribe, BuildFindService;
    SubscribesReach(0x1_0000);
    FindWire(Protocol.SERVICE_ID, Protocol.INSTANCE_ID, 0);
    SubscribeWire(Protocol.SERVICE_ID, Protocol.INSTANCE_ID, SD_EVENTGROUP_ID, LOCALHOST, Protocol.SOMEIP_PORT, 0);
  }

  class SdClient {
    var findSession: u16
    var subscribeSession: u16
    /** Every datagram handed to the socket, in order, whether or not it took it. */
    var sent: seq<Datagram>

    ghost predicate Valid()
      reads this
    {
      && findSession == Count(sent, true) % 0x1_0000
      && subscribeSession == Count(sent, false) % 0x1_0000
      && Numbered(sent)
    }

    constructor ()
      ensures Valid() && sent == []
    {
      findSession, subscribeSession, sent := 0, 0, [];
    }

    // `sendResult` is what zsock_sendto returns; the datagram counts as sent when all of it went out.

    method SendFind(sendResult: int) returns (rc: int)
      requires Valid()
      modifies this
      ensures Valid() && sent == old(sent) + [FindPacket((old(findSession) + 1) % 0x1_0000)]
      ensures subscribeSession == old(subscribeSession) && rc == if sendResult == 44 then 0 else -1
    {
      hide BuildFindService, Numbered, Count;
      var buf := new byte[64](_ => 0);
      findSession := (findSession + 1) % 0x1_0000;
      ghost var before := buf[..];
      var length := SdBuildFindService(buf, buf.Length, Protocol.SERVICE_ID, Protocol.INSTANCE_ID, findSession);
      WrittenPrefix(before, BuildFindService(Protocol.SERVICE_ID, Protocol.INSTANCE_ID, findSession));
      NextNumbered(sent, findSession, true);
      sent := sent + [ToGroup(buf[..length])];
      rc := if sendResult == length then 0 else -1;
    }

    method SendSubscribe(sendResult: int) returns (rc: int)
      requires Valid()
      modifies this
      ensures Valid() && sent == old(sent) + [SubscribePacket((old(subscribeSession) + 1) % 0x1_0000)]
      ensures subscribeSession == (old(subscribeSession) + 1) % 0x1_0000
      ensures findSession == old(findSession) && rc == if sendResult == 56 then 0 else -1
    {
      hide BuildSubscribe, Numbered, Count;
      var buf := new byte[64](_ => 0);
      subscribeSession := (subscribeSession + 1) % 0x1_0000;
      ghost var before := buf[..];
      var length := SdBuildSubscribe(
        buf, buf.Length, Protocol.SERVICE_ID, Protocol.INSTANCE_ID, SD_EVENTGROUP_ID, Some(LOCALHOST), Protocol.SOMEIP_PORT, subscribeSession);
      WrittenPrefix(before, BuildSubscribe(Protocol.SERVICE_ID, Protocol.INSTANCE_ID, SD_EVENTGROUP_ID, LOCALHOST, Protocol.SOMEIP_PORT, subscribeSession));
      NextNumbered(sent, subscribeSession, false);
      sent := sent + [ToProvider(buf[..length])];
      rc := if sendResult == length then 0 else -1;
    }

    /** `n` Subscribes have gone out since the trace was `before` and the counter `session`. */
    ghost predicate Reacted(before: seq<Datagram>, session: u16, n: nat)
      reads this
    {
      Valid() && sent == before + Subscribes(session, n) && subscribeSession == (session + n) % 0x1_0000
    }

    // The two loops of someip_sd_handle read the filled parts of the parsed tables, which nothing changes meanwhile.

    /** The inner loop, after `n` Subscribes: one more at the first UDP endpoint, if there is one. */
    method SubscribeOnce(options: seq<SdIp4>, ghost before: seq<Datagram>, ghost session: u16, ghost n: nat)
      requires Reacted(before, session, n)
      modifies this
      ensures findSession == old(findSession)
      ensures Reacted(before, session, n + if AnyUdp(options) then 1 else 0)
    {
      hide SubscribePacket, Numbered, Count;
      for j := 0 to |options|
        invariant forall k :: 0 <= k < j ==> !UdpEndpoint(options[k])
        invariant Reacted(before, session, n) && findSession == old(findSession)
      {
        var o := options[j];
        if o.kind == OPT_IP4_ENDPOINT && o.l4Proto == L4_UDP {
          SubscribesNext(session, n);
          var anyResult: int := *;
          var _ := SendSubscribe(anyResult);
          assert AnyUdp(options);
          return;
        }
      }
      assert !AnyUdp(options);
    }

    /** The outer loop. */
    method React(entries: seq<SdEntry>, options: seq<SdIp4>)
      requires Valid()
      modifies this
      ensures findSession == old(findSession)
      ensures Reacted(old(sent), old(subscribeSession), if AnyUdp(options) then CountOurs(entries) else 0)
    {
      SubscribesNone(subscribeSession);
      assert Reacted(sent, subscribeSession, 0);
      CountNone(entries[..0]);
      hide Numbered, Count, Subscribes, SubscribePacket, AnyUdp, Reacted, Valid, CountOurs, UdpEndpoint;
      ghost var n, udp := 0, AnyUdp(options);
      var i := 0;
      while i < |entries|
        invariant i <= |entries|
        invariant n == if udp then CountOurs(entries[..i]) else 0
        invariant findSession == old(findSession) && Reacted(old(sent), old(subscribeSession), n)
      {
        var e := entries[i];
        CountNext(entries, i);
        i := i + 1;
        if e.kind == ENTRY_OFFER_SERVICE {
          if e.ttl == 0 {
            continue;
          }
          if e.serviceId != Protocol.SERVICE_ID || e.instanceId != Protocol.INSTANCE_ID {
            continue;
          }
          SubscribeOnce(options, old(sent), old(subscribeSession), n);
          n := n + if udp then 1 else 0;
        }
      }
      assert entries[..i] == entries;
    }

    /** someip_sd_handle: as many Subscribes as the message is worth, and never an event. */
    method Handle(buf: seq<byte>) returns (rc: int)
      requires Valid()
      modifies this
      ensures Valid() && rc == -1 && findSession == old(findSession)
      ensures sent == old(sent) + Subscribes(old(subscribeSession), ReactionsTo(buf))
      ensures subscribeSession == (old(subscribeSession) + ReactionsTo(buf)) % 0x1_0000
    {
      hide Numbered, Count, ParsedTables, Accepts, Subscribes, AnyUdp, CountOurs;
      var parsed := new SdParsed();
      var ret := SdParse(Some(buf), parsed);
      SubscribesNone(subscribeSession);
      if ret < 0 {
        return -1;
      }
      TablesBounded(buf);
      React(parsed.entries[..parsed.entryCount], parsed.options[..parsed.optionCount]);
      return -1;
    }

    /**
     * someip_udp_receive on what recvfrom returns, None for a timeout. A datagram longer
     * than the buffer is cut, as recvfrom does.
     */
    method UdpReceive(datagram: Option<seq<byte>>) returns (event: Option<McuEvent>)
      requires Valid()
      modifies this
      ensures Valid() && findSession == old(findSession)
      ensures event == if datagram.Some? then UdpEvent(datagram.value) else None
      ensures sent == old(sent) + Subscribes(old(subscribeSession), if datagram.Some? then UdpReactions(datagram.value) else 0)
    {
      hide Numbered, Count, Accepts, ParsedTables, Subscribes;
      SubscribesNone(subscribeSession);
      if datagram == None {
        return None;
      }
      var buf := Received(datagram.value);
      if |buf| < Protocol.HEADER_SIZE + 1 {
        OthersIgnored(buf);
        return None;
      }
      if Be16(buf[0..2]) == SD_SERVICE_ID {
        var _ := Handle(buf);
        return None;
      }
      OthersIgnored(buf);
      var length := Be32(buf[4..8]);
      if Be16(buf[0..2]) != Protocol.SERVICE_ID {
        return None;
      }
      if buf[14] != 0x02 {
        return None;
      }
      if length < 8 || length > 32 {
        return None;
      }
      event := Some(McuEvent(Be16(buf[2..4]), buf[Protocol.HEADER_SIZE]));
    }
  }

  /** What recvfrom leaves in a 64-byte buffer. */
  function Received(datagram: seq<byte>): (buf: seq<byte>)
    ensures |buf| <= UDP_BUF_SIZE && buf <= datagram
  {
    if |datagram| <= UDP_BUF_SIZE then datagram else datagram[..UDP_BUF_SIZE]
  }

  function UdpReactions(datagram: seq<byte>): nat {
    ReactionsTo(Received(datagram))
  }

  function UdpEvent(datagram: seq<byte>): Option<McuEvent> {
    var buf := Received(datagram);
    if |buf| > Protocol.HEADER_SIZE && Be16(buf[0..2]) == Protocol.SERVICE_ID && buf[14] == 0x02 && 8 <= Be32(buf[4..8]) <= 32
    then Some(McuEvent(Be16(buf[2..4]), buf[Protocol.HEADER_SIZE])) else None
  }

  // ---- helpers of the class ----

  lemma WrittenPrefix(before: seq<byte>, b: seq<byte>)
    requires |b| <= |before|
    ensures Overwrite(before, 0, b)[..|b|] == b
  {
  }

  lemma NextNumbered(sent: seq<Datagram>, session: u16, group: bool)
    requires Numbered(sent) && session == (Count(sent, group) + 1) % 0x1_0000
    ensures var longer := sent + [if group then FindPacket(session) else SubscribePacket(session)];
            && Numbered(longer) && Count(longer, group) == Count(sent, group) + 1
            && Count(longer, !group) == Count(sent, !group)
  {
    hide BuildFindService, BuildSubscribe;
    assert (sent + [Stamped(sent, group)])[..|sent|] == sent;
  }

  lemma SubscribesNone(session: u16)
    ensures Subscribes(session, 0) == []
  {
  }

  lemma SubscribesNext(session: u16, n: nat)
    ensures Subscribes(session, n + 1) == Subscribes(session, n) + [SubscribePacket(((session + n) % 0x1_0000 + 1) % 0x1_0000)]
  {
    hide SubscribePacket;
    assert ((session + n) % 0x1_0000 + 1) % 0x1_0000 == (session + n + 1) % 0x1_0000;
  }

  lemma {:induction false} CountNone(entries: seq<SdEntry>)
    requires entries == []
    ensures CountOurs(entries) == 0
  {
  }

  lemma CountNext(entries: seq<SdEntry>, i: nat)
    requires i < |entries|
    ensures CountOurs(entries[..i + 1]) == CountOurs(entries[..i]) + if Ours(entries[i]) then 1 else 0
  {
    assert entries[..i + 1][..i] == entries[..i];
  }

  lemma TablesBounded(buf: seq<byte>)
    requires Accepts(buf)
    ensures Bounded(ParsedTables(buf))
  {
    hide Be16, Be32, EntryTable, Slots, LastFilled, Padded;
  }

  lemma OthersIgnored(buf: seq<byte>)
    requires |buf| < 28 || Be16(buf[0..2]) != SD_SERVICE_ID
    ensures ReactionsTo(buf) == 0
  {
  }

  // ---- the reaction, told from Python's reading of the message ----

  /** A running offer of our service, as parse_sd shows it. */
  predicate Offers(e: Entry) {
    e.entryType == 1 && e.ttl != 0 && e.serviceId == 0x1234 && e.instanceId == 0x5678
  }

  /** How many entries are running offers of our service. */
  function CountOffers(es: seq<Entry>): nat {
    |set i | 0 <= i < |es| && Offers(es[i])|
  }

  lemma CountOne(es: seq<Entry>)
    requires es != []
    ensures CountOffers(es) == CountOffers(es[..|es| - 1]) + if Offers(es[|es| - 1]) then 1 else 0
  {
    hide Offers;
    var n := |es| - 1;
    var before, all := set i | 0 <= i < |es[..n]| && Offers(es[..n][i]), set i | 0 <= i < |es| && Offers(es[i]);
    assert all == if Offers(es[n]) then before + {n} else before;
  }

  /** One of the first four options is a decoded UDP endpoint. */
  predicate HasUdp(os: seq<SdOption>) {
    exists i :: 0 <= i < |os| && i < 4
             && os[i].optionType == 4 && os[i].endpoint.Some? && os[i].endpoint.value.l4Proto == 0x11
  }

  lemma {:induction false} CountsAgree(es: seq<Entry>, n: nat)
    requires |es| <= n
    ensures CountOurs(KeptEntries(es, n)[..|es|]) == CountOffers(es)
    decreases |es|
  {
    if es != [] {
      var k := |es| - 1;
      CountsAgree(es[..k], n);
      CountOne(es);
      assert KeptEntries(es, n)[..k + 1][..k] == KeptEntries(es[..k], n)[..k];
    }
  }

  /** Cutting the table at the option count loses no endpoint, and the padding adds none. */
  lemma {:induction false} AnyUdpSlots(slots: seq<SdIp4>)
    requires |slots| <= SD_MAX_OPTIONS
    ensures AnyUdp(Padded(slots)[..LastFilled(slots)]) <==> AnyUdp(slots)
  {
    hide LastFilled;
    var table := Padded(slots)[..LastFilled(slots)];
    LastFilledExact(slots);
    if AnyUdp(slots) {
      var i :| 0 <= i < |slots| && UdpEndpoint(slots[i]);
      assert table[i] == slots[i];
    }
  }

  lemma EndpointsAgree(os: seq<SdOption>)
    ensures AnyUdp(KeptOptions(os, SD_MAX_OPTIONS)) <==> HasUdp(os)
  {
    var slots := KeptOptions(os, SD_MAX_OPTIONS);
    forall i | 0 <= i < |slots| ensures slots[i] == KeptOption(os[i]) {
    }
    if HasUdp(os) {
      var i :| 0 <= i < |os| && i < 4
            && os[i].optionType == 4 && os[i].endpoint.Some? && os[i].endpoint.value.l4Proto == 0x11;
      assert UdpEndpoint(slots[i]);
    }
    if AnyUdp(slots) {
      var i :| 0 <= i < |slots| && UdpEndpoint(slots[i]);
      assert os[i].optionType == 4;
    }
  }

  /**
   * The reaction count: for every message Python accepts with at most four entries, the MCU
   * sends one Subscribe per running offer of its service if some UDP endpoint stands among
   * the first four options, and none otherwise.
   */
  lemma ReactionCount(p: seq<byte>)
    requires ParseSd(p).Parsed? && |ParseSd(p).entries| <= 4
    ensures ReactionsTo(p) == if HasUdp(ParseSd(p).options) then CountOffers(ParseSd(p).entries) else 0
  {
    hide ParseSd, Accepts, ParsedTables, AnyUdp, HasUdp, CountOffers, CountOurs, KeptEntries, Padded;
    Refinement(p);
    TablesBounded(p);
    CountsAgree(ParseSd(p).entries, SD_MAX_ENTRIES);
    EndpointsAgree(ParseSd(p).options);
    AnyUdpSlots(KeptOptions(ParseSd(p).options, SD_MAX_OPTIONS));
  }

  // ---- over UDP ----

  lemma {:induction false} EndpointNeedsTwelve(area: seq<byte>, n: nat)
    ensures forall i :: 0 <= i < |Slots(area, n)| && Slots(area, n)[i].kind == OPT_IP4_ENDPOINT ==> |area| >= IP4_OPTION_SIZE
    decreases n
  {
    if n > 0 && |area| >= 3 && BlockSize(area) <= |area| {
      hide Be16;
      EndpointNeedsTwelve(area[BlockSize(area)..], n - 1);
    }
  }

  /**
   * Over UDP no datagram, whatever its bytes, is worth more than one Subscribe: its first 64
   * bytes decide, and two offers and an endpoint exceed them.
   */
  lemma AtMostOnePerDatagram(datagram: seq<byte>)
    ensures UdpReactions(datagram) == ReactionsTo(if |datagram| <= 64 then datagram else datagram[..64]) <= 1
  {
    hide EntryTable, Slots, LastFilled, Be16, Be32;
    var buf := Received(datagram);
    if Accepts(buf) {
      var t := ParsedTables(buf);
      var slots := Slots(OptionArea(buf), SD_MAX_OPTIONS);
      EndpointNeedsTwelve(OptionArea(buf), SD_MAX_OPTIONS);
      if AnyUdp(t.options[..t.optionCount]) {
        var i :| 0 <= i < |t.options[..t.optionCount]| && UdpEndpoint(t.options[..t.optionCount][i]);
        assert slots[i].kind == OPT_IP4_ENDPOINT;
      }
    }
  }

  /** A built message longer than the buffer is cut, found inconsistent and dropped. */
  lemma LongMessagesIgnored(entries: seq<byte>, options: seq<byte>, session: int, flags: int)
    requires 20 + |entries| + |options| < 0x1_0000_0000
    requires 28 + |entries| + |options| > 64
    ensures UdpReactions(BuildSdMessage(entries, options, session, flags)) == 0
  {
    hide Be16, Be32, BuildSdMessage, ParsedTables;
    var p := BuildSdMessage(entries, options, session, flags);
    var n := 24 + |entries|;
    SdRoundTrip.MessageLayout(entries, options, session, flags);
    assert Received(p)[20..24] == p[20..24];
    if n + 4 <= UDP_BUF_SIZE {
      assert Received(p)[n..n + 4] == p[n..n + 4];
    }
  }

  lemma OneEntry(e: Entry, os: seq<SdOption>)
    requires |os| <= 1
    ensures CountOffers([e]) == if Offers(e) then 1 else 0
    ensures HasUdp(os) <==> os != [] && os[0].optionType == 4 && os[0].endpoint.Some? && os[0].endpoint.value.l4Proto == 0x11
  {
    CountOne([e]);
  }

  /** A message of one entry and at most one endpoint option fits the buffer and is read in full. */
  lemma ShortMessages(a: EntryArgs, o: Option<EndpointArgs>, session: int, flags: int)
    requires o.Some? ==> ValidEndpoint(o.value)
    ensures var p := BuildSdMessage(BuildEntry(a), if o.Some? then BuildEndpointOption(o.value) else [], session, flags);
            UdpReactions(p) == if o.Some? && o.value.l4Proto % 0x100 == L4_UDP && Offers(SdRoundTrip.Masked(a)) then 1 else 0
  {
    hide BuildSdMessage, ParseSd, Offers, SdRoundTrip.Masked, BuildEntry, BuildEndpointOption, ReactionsTo, HasUdp, CountOffers;
    var p := BuildSdMessage(BuildEntry(a), if o.Some? then BuildEndpointOption(o.value) else [], session, flags);
    OneEntryParsed(a, o, session, flags);
    OneEntry(SdRoundTrip.Masked(a), ParseSd(p).options);
    ReactionCount(p);
  }

  /**
   * Every running offer of service 0x1234/0x5678 that build_offer_service builds, whatever
   * its address, port, session and flags, draws exactly one Subscribe; an offer of another
   * service, or with TTL 0, draws none.
   */
  lemma OfferDrawsOne(serviceId: int, instanceId: int, address: seq<byte>, port: int, session: int, ttl: int, flags: int)
    requires |address| == 4
    ensures UdpReactions(BuildOfferService(serviceId, instanceId, address, port, session, ttl, flags))
         == if ttl % 0x100_0000 != 0 && serviceId % 0x1_0000 == 0x1234 && instanceId % 0x1_0000 == 0x5678 then 1 else 0
  {
    hide UdpReactions, BuildSdMessage, BuildEntry, BuildEndpointOption;
    var o := EndpointArgs(address, port, L4_UDP);
    ShortMessages(ServiceArgs(ENTRY_OFFER_SERVICE, serviceId, instanceId, ttl, 1, 0, 0, 1, 0, 0), Some(o), session, flags);
  }

  /** StopOffers, Finds and Subscribes draw none: the MCU never answers its own looped-back messages. */
  lemma OthersDrawNone(
      serviceId: int, instanceId: int, eventgroupId: int, address: seq<byte>, port: int, session: int)
    requires |address| == 4
    ensures UdpReactions(BuildStopOffer(serviceId, instanceId, session)) == 0
    ensures UdpReactions(BuildFindService(serviceId, instanceId, session)) == 0
    ensures UdpReactions(BuildSubscribe(serviceId, instanceId, eventgroupId, address, port, session)) == 0
  {
    hide UdpReactions, BuildSdMessage, BuildEntry, BuildEndpointOption;
    ShortMessages(ServiceArgs(ENTRY_OFFER_SERVICE, serviceId, instanceId, TTL_STOP, 1, 0, 0, 0, 0, 0), None, session, FLAG_UNICAST);
    ShortMessages(ServiceArgs(ENTRY_FIND_SERVICE, serviceId, instanceId, TTL_DEFAULT, 1, 0, 0, 0, 0, 0), None, session, FLAG_UNICAST);
    var e := EventgroupArgs(ENTRY_SUBSCRIBE_EVENTGROUP, serviceId, instanceId, TTL_DEFAULT, 1, 0, 0, 0, 0, eventgroupId);
    ShortMessages(e, Some(EndpointArgs(address, port, L4_UDP)), session, FLAG_UNICAST);
  }

  /**
   * Exactly which event packets arrive over UDP: those with 1 to 24 payload bytes, each on
   * its own, with the event id and first payload byte that were sent. No idle gap is needed.
   */
  lemma EventOverUdp(m: Protocol.Message)
    requires |m.payload| + 8 < 0x1_0000_0000
    ensures UdpEvent(Protocol.BuildPacket(m))
         == if 1 <= |m.payload| <= 24 then Some(McuEvent(m.eventId, m.payload[0])) else None
    ensures UdpReactions(Protocol.BuildPacket(m)) == 0
  {
    hide Be16, Be32, Protocol.Header, ParsedTables;
    var p := Protocol.BuildPacket(m);
    var buf := Received(p);
    var n := Protocol.HEADER_SIZE + |m.payload|;
    Protocol.FrameFields(m, Protocol.Zeros(Protocol.PadLength(n)));
    assert buf[0..2] == p[0..2] && buf[2..4] == p[2..4] && buf[4..8] == p[4..8] && buf[14] == p[14];
    if 1 <= |m.payload| <= 24 {
      assert buf[16] == p[16..n][0];
    }
  }
}
