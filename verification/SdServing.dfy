/** SdServer.offer_once and SdClient.discover of mpu/someip/sd.py. */
module SdServing {
  import opened Bytes
  import opened SdMessages
  import opened SdRoundTrip
  import opened SdWire
  import opened SdResults
  import Discovery
  import Protocol

  // ---- the server ----

  class SdServer {
    const serviceId: int
    const instanceId: int
    const address: seq<byte>
    const port: int
    var session: int
    var first: bool
    /** Every packet handed to the socket, in order, whether or not the send raised. */
    var sent: seq<seq<byte>>

    /** The n-th packet carries session ((n - 1) mod 65535) + 1, and the reboot flag only when n is 1. */
    ghost predicate Valid()
      reads this
    {
      && |address| == 4
      && session == |sent| % 0xFFFF + 1
      && (first <==> sent == [])
      && forall i :: 0 <= i < |sent| ==> sent[i] == NthOffer(serviceId, instanceId, address, port, i)
    }

    constructor (serviceId: int, instanceId: int, address: seq<byte>, port: int)
      requires |address| == 4
      ensures Valid() && sent == []
      ensures this.serviceId == serviceId && this.instanceId == instanceId && this.address == address && this.port == port
    {
      this.serviceId, this.instanceId, this.address, this.port := serviceId, instanceId, address, port;
      session, first, sent := 1, true, [];
    }

    method OfferOnce()
      requires Valid()
      modifies this
      ensures Valid() && |sent| == |old(sent)| + 1 && sent[..|old(sent)|] == old(sent)
    {
      hide BuildOfferService;
      var flags := if first then FLAG_REBOOT + FLAG_UNICAST else FLAG_UNICAST;
      first := false;
      var packet := BuildOfferService(serviceId, instanceId, address, port, session, TTL_DEFAULT, flags);
      WrapStep(|sent|);
      session := session + 1;
      if session > 0xFFFF {
        session := 1;
      }
      sent := sent + [packet];
    }
  }

  function NthOffer(serviceId: int, instanceId: int, address: seq<byte>, port: int, i: nat): seq<byte>
    requires |address| == 4
  {
    BuildOfferService(serviceId, instanceId, address, port, i % 0xFFFF + 1, TTL_DEFAULT,
                      if i == 0 then FLAG_REBOOT + FLAG_UNICAST else FLAG_UNICAST)
  }

  lemma WrapStep(n: nat)
    ensures (n + 1) % 0xFFFF + 1 == if n % 0xFFFF + 2 > 0xFFFF then 1 else n % 0xFFFF + 2
  {
  }

  /** An offer as parse_sd shows it. */
  lemma OfferParsed(serviceId: int, instanceId: int, address: seq<byte>, port: int, session: int, ttl: int, flags: int)
    requires |address| == 4
    ensures ParseSd(BuildOfferService(serviceId, instanceId, address, port, session, ttl, flags))
         == Parsed(session % 0x1_0000, flags % 0x100,
                   [Entry(ENTRY_OFFER_SERVICE, serviceId % 0x1_0000, instanceId % 0x1_0000, 1, ttl % 0x100_0000, Some(0), None)],
                   [SdOption(OPT_IP4_ENDPOINT, Some(Endpoint(address, L4_UDP, port % 0x1_0000)))])
  {
    hide BuildSdMessage, ParseSd, BuildEntry, BuildEndpointOption;
    var a := ServiceArgs(ENTRY_OFFER_SERVICE, serviceId, instanceId, ttl, 1, 0, 0, 1, 0, 0);
    OneEntryParsed(a, Some(EndpointArgs(address, port, L4_UDP)), session, flags);
  }

  /**
   * Every offer of every run, after any number of wrap-arounds: what Python reads in it, with
   * session 1 to 65535, never 0, flags 0xC0 (reboot and unicast) on the first and 0x40 on
   * every later one; the MCU, when the offer is of its service, answers with exactly one
   * Subscribe.
   */
  lemma EveryOffer(serviceId: int, instanceId: int, address: seq<byte>, port: int, i: nat)
    requires |address| == 4
    ensures var p, s, n := NthOffer(serviceId, instanceId, address, port, i), serviceId % 0x1_0000, instanceId % 0x1_0000;
            && ParseSd(p) == Parsed(i % 65535 + 1, if i == 0 then 0xC0 else 0x40,
                                    [Entry(1, s, n, 1, 0xFFFFFF, Some(0), None)],
                                    [SdOption(4, Some(Endpoint(address, 0x11, port % 0x1_0000)))])
            && Discovery.UdpReactions(p) == if s == 0x1234 && n == 0x5678 then 1 else 0
  {
    hide BuildOfferService, ParseSd, Discovery.UdpReactions;
    var flags := if i == 0 then FLAG_REBOOT + FLAG_UNICAST else FLAG_UNICAST;
    OfferParsed(serviceId, instanceId, address, port, i % 0xFFFF + 1, TTL_DEFAULT, flags);
    Discovery.OfferDrawsOne(serviceId, instanceId, address, port, i % 0xFFFF + 1, TTL_DEFAULT, flags);
  }

  // ---- the loops of discover ----

  /** parse_sd's IndexError is no ValueError, so discover does not catch it. */
  predicate Crashes(packets: seq<seq<byte>>) {
    exists i :: 0 <= i < |packets| && ParseSd(packets[i]) == IndexError
  }

  /** A bare 16-byte SD header. */
  predicate BareHeader(p: seq<byte>) {
    |p| == 16 && p[..4] == [0xFF, 0xFF, 0x81, 0x00] && p[14] == 2
  }

  /** Exactly the packets that make discover fail. */
  lemma CrashIff(p: seq<byte>)
    ensures ParseSd(p) == IndexError <==> BareHeader(p)
  {
    if |p| == 16 {
      HalfAt(p, 0);
      HalfAt(p, 2);
      HeadHalves(p);
    }
    hide Be16, Half, FromBytes, Slice, DecodeOptions, DecodeEntries;
  }

  lemma {:induction false} CrashesIff(packets: seq<seq<byte>>)
    ensures Crashes(packets) <==> exists k :: 0 <= k < |packets| && BareHeader(packets[k])
  {
    hide ParseSd, BareHeader;
    forall k | 0 <= k < |packets| ensures ParseSd(packets[k]) == IndexError <==> BareHeader(packets[k]) {
      CrashIff(packets[k]);
    }
  }

  /** What one entry adds to the dictionary. */
  lemma {:induction false} FoldNext(
      hits: seq<Found>, service: int, instance: int, es: seq<Entry>, i: nat, at: Option<Endpoint>)
    requires i < |es|
    ensures var before := Dedup(hits + Hits(service, instance, es[..i], at));
            Dedup(hits + Hits(service, instance, es[..i + 1], at))
            == if Wanted(service, instance, es[i]) && at.Some?
               then Assign(before, Found(es[i].serviceId, es[i].instanceId, at.value.address, at.value.port)) else before
  {
    assert es[..i + 1][..i] == es[..i];
    var made := Hits(service, instance, es[..i], at);
    hide Assign, Wanted;
    if Wanted(service, instance, es[i]) && at.Some? {
      var f := Found(es[i].serviceId, es[i].instanceId, at.value.address, at.value.port);
      assert hits + (made + [f]) == (hits + made) + [f];
      assert (hits + (made + [f]))[..|hits + made|] == hits + made;
    } else {
      assert made + [] == made;
    }
  }

  /** The innermost loop: the entry's key is assigned the first endpoint, if there is one. */
  method AssignFirst(e: Entry, os: seq<SdOption>, results: seq<Found>) returns (r: seq<Found>)
    ensures var at := FirstEndpoint(os);
            r == if at.Some? then Assign(results, Found(e.serviceId, e.instanceId, at.value.address, at.value.port)) else results
  {
    hide Assign;
    assert os[0..] == os;
    for j := 0 to |os|
      invariant FirstEndpoint(os[j..]) == FirstEndpoint(os)
    {
      var o := os[j];
      assert os[j..][1..] == os[j + 1..];
      if o.optionType == OPT_IP4_ENDPOINT && o.endpoint.Some? {
        return Assign(results, Found(e.serviceId, e.instanceId, o.endpoint.value.address, o.endpoint.value.port));
      }
    }
    return results;
  }

  /** The loop over the entries of one message; `results` is the dictionary the earlier messages left. */
  method FoldMessage(service: int, instance: int, es: seq<Entry>, os: seq<SdOption>, before: seq<Found>, ghost hits: seq<Found>)
    returns (results: seq<Found>)
    requires before == Dedup(hits)
    ensures results == Dedup(hits + Hits(service, instance, es, FirstEndpoint(os)))
  {
    results := before;
    ghost var at := FirstEndpoint(os);
    assert hits + Hits(service, instance, es[..0], at) == hits;
    hide Hits, Dedup, Assign, FirstEndpoint;
    var i := 0;
    while i < |es|
      invariant i <= |es| && results == Dedup(hits + Hits(service, instance, es[..i], at))
    {
      var e := es[i];
      FoldNext(hits, service, instance, es, i, at);
      i := i + 1;
      if e.entryType != ENTRY_OFFER_SERVICE {
        continue;
      }
      if service != ANY_ID && e.serviceId != service {
        continue;
      }
      if instance != ANY_ID && e.instanceId != instance {
        continue;
      }
      results := AssignFirst(e, os, results);
    }
    assert es[..i] == es;
  }

  /** One received message: a ValueError is passed over, an IndexError is not (None). */
  method FoldPacket(service: int, instance: int, packet: seq<byte>, before: seq<Found>, ghost hits: seq<Found>)
    returns (results: Option<seq<Found>>)
    requires before == Dedup(hits)
    ensures results == if ParseSd(packet) == IndexError then None
                       else Some(Dedup(hits + MessageHits(service, instance, ParseSd(packet))))
  {
    hide Hits, ParseSd, Dedup, FirstEndpoint;
    var parsed := Parse(packet);
    assert hits + [] == hits;
    match parsed {
      case ValueError => results := Some(before);
      case IndexError => results := None;
      case Parsed(_, _, entries, options) =>
        var folded := FoldMessage(service, instance, entries, options, before, hits);
        results := Some(folded);
    }
  }

  /**
   * discover on the messages received before its deadline: the query it multicasts and its
   * result, None for the IndexError that escapes. A service or instance id of None searches
   * for the wildcard 0xFFFF.
   */
  method Discover(serviceId: Option<int>, instanceId: Option<int>, packets: seq<seq<byte>>)
    returns (query: seq<byte>, r: Option<seq<Found>>)
    ensures var service := if serviceId.Some? then serviceId.value else 0xFFFF;
            var instance := if instanceId.Some? then instanceId.value else 0xFFFF;
            && query == BuildFindService(service, instance, 1)
            && r == (if Crashes(packets) then None else Some(Dedup(AllHits(service, instance, packets))))
            && (r == None <==> exists k :: 0 <= k < |packets| && BareHeader(packets[k]))
            && (r.Some? ==> Collects(r.value, Made(service, instance, packets)))
  {
    var service := if serviceId.Some? then serviceId.value else ANY_ID;
    var instance := if instanceId.Some? then instanceId.value else ANY_ID;
    query := BuildFindService(service, instance, 1);
    CrashesIff(packets);
    var results := [];
    NoHits(service, instance, packets[..0]);
    hide AllHits, MessageHits, ParseSd, Dedup, Crashes, Collects, Made, BuildFindService, BareHeader;
    for k := 0 to |packets|
      invariant results == Dedup(AllHits(service, instance, packets[..k])) && !Crashes(packets[..k])
    {
      CrashesNext(packets, k);
      AllHitsNext(service, instance, packets, k);
      var folded := FoldPacket(service, instance, packets[k], results, AllHits(service, instance, packets[..k]));
      if folded == None {
        r := None;
        return;
      }
      results := folded.value;
    }
    assert packets[..|packets|] == packets;
    Collected(service, instance, packets);
    r := Some(results);
  }

  lemma CrashesNext(packets: seq<seq<byte>>, k: nat)
    requires k < |packets|
    ensures Crashes(packets[..k + 1]) <==> Crashes(packets[..k]) || ParseSd(packets[k]) == IndexError
    ensures Crashes(packets[..k + 1]) ==> Crashes(packets)
  {
    hide ParseSd;
    if Crashes(packets[..k]) {
      var i :| 0 <= i < k && ParseSd(packets[..k][i]) == IndexError;
      assert packets[..k + 1][i] == packets[i];
    }
    if ParseSd(packets[k]) == IndexError {
      assert packets[..k + 1][k] == packets[k];
    }
    if Crashes(packets[..k + 1]) {
      var i :| 0 <= i < k + 1 && ParseSd(packets[..k + 1][i]) == IndexError;
      assert packets[i] == packets[..k + 1][i];
      assert i < k ==> packets[..k][i] == packets[i];
    }
  }

  lemma {:induction false} NoHits(service: int, instance: int, packets: seq<seq<byte>>)
    requires packets == []
    ensures Dedup(AllHits(service, instance, packets)) == [] && !Crashes(packets)
  {
  }

  lemma {:induction false} AllHitsNext(service: int, instance: int, packets: seq<seq<byte>>, k: nat)
    requires k < |packets|
    ensures AllHits(service, instance, packets[..k + 1])
         == AllHits(service, instance, packets[..k]) + MessageHits(service, instance, ParseSd(packets[k]))
  {
    hide ParseSd, Hits;
    assert packets[..k + 1][..k] == packets[..k];
  }

  // ---- server and client together ----

  predicate Searches(service: int, instance: int, f: Found) {
    (service == ANY_ID || service == f.serviceId) && (instance == ANY_ID || instance == f.instanceId)
  }

  lemma {:induction false} OneHit(service: int, instance: int, e: Entry, o: SdOption)
    requires IsEndpoint(o)
    ensures var at := o.endpoint.value;
            Hits(service, instance, [e], FirstEndpoint([o]))
            == if Wanted(service, instance, e) then [Found(e.serviceId, e.instanceId, at.address, at.port)] else []
  {
    assert [e][..0] == [];
  }

  lemma OfferHits(service: int, instance: int, s: int, i: int, address: seq<byte>, port: int, session: int, ttl: int, flags: int)
    requires |address| == 4
    ensures var f := Found(s % 0x1_0000, i % 0x1_0000, address, port % 0x1_0000);
            MessageHits(service, instance, ParseSd(BuildOfferService(s, i, address, port, session, ttl, flags)))
            == if Searches(service, instance, f) then [f] else []
  {
    hide BuildOfferService, ParseSd, Hits, FirstEndpoint;
    OfferParsed(s, i, address, port, session, ttl, flags);
    var r := ParseSd(BuildOfferService(s, i, address, port, session, ttl, flags));
    OneHit(service, instance, r.entries[0], r.options[0]);
  }

  /** A message without an offer leaves the result as it is, wherever it arrives. */
  lemma {:induction false} NoOfferNoChange(
      service: int, instance: int, earlier: seq<seq<byte>>, p: seq<byte>, later: seq<seq<byte>>)
    requires ParseSd(p).Parsed? ==> forall e <- ParseSd(p).entries :: e.entryType != 1
    ensures Dedup(AllHits(service, instance, earlier + [p] + later)) == Dedup(AllHits(service, instance, earlier + later))
  {
    hide AllHits, ParseSd, Dedup;
    if ParseSd(p).Parsed? {
      NoOfferNoHits(service, instance, ParseSd(p).entries, FirstEndpoint(ParseSd(p).options));
    }
    var longer := earlier + [p];
    assert longer[..|earlier|] == earlier && longer[..|longer|] == longer;
    AllHitsNext(service, instance, longer, |earlier|);
    assert AllHits(service, instance, earlier) + [] == AllHits(service, instance, earlier);
    AllHitsConcat(service, instance, longer, later);
    AllHitsConcat(service, instance, earlier, later);
  }

  lemma {:induction false} NoOfferNoHits(service: int, instance: int, es: seq<Entry>, at: Option<Endpoint>)
    requires forall e <- es :: e.entryType != 1
    ensures Hits(service, instance, es, at) == []
    decreases |es|
  {
    if es != [] {
      NoOfferNoHits(service, instance, es[..|es| - 1], at);
    }
  }

  /** Queries, discover's own included, and Subscribes, the MCU's included, are such messages. */
  lemma {:induction false} QueriesChangeNothing(
      service: int, instance: int, earlier: seq<seq<byte>>, later: seq<seq<byte>>,
      s: int, i: int, eventgroup: int, address: seq<byte>, port: int, session: int)
    requires |address| == 4
    ensures Dedup(AllHits(service, instance, earlier + [BuildFindService(s, i, session)] + later))
         == Dedup(AllHits(service, instance, earlier + [BuildSubscribe(s, i, eventgroup, address, port, session)] + later))
         == Dedup(AllHits(service, instance, earlier + later))
  {
    hide BuildSdMessage, ParseSd, BuildEntry, BuildEndpointOption, AllHits, Dedup;
    OneEntryParsed(ServiceArgs(ENTRY_FIND_SERVICE, s, i, TTL_DEFAULT, 1, 0, 0, 0, 0, 0), None, session, FLAG_UNICAST);
    OneEntryParsed(EventgroupArgs(ENTRY_SUBSCRIBE_EVENTGROUP, s, i, TTL_DEFAULT, 1, 0, 0, 0, 0, eventgroup),
                   Some(EndpointArgs(address, port, L4_UDP)), session, FLAG_UNICAST);
    NoOfferNoChange(service, instance, earlier, BuildFindService(s, i, session), later);
    NoOfferNoChange(service, instance, earlier, BuildSubscribe(s, i, eventgroup, address, port, session), later);
  }

  /** Of an offer with several endpoints the first counts, whatever the others are. */
  lemma {:induction false} FirstEndpointListed(
      service: int, instance: int, a: EntryArgs, first: EndpointArgs, others: seq<EndpointArgs>, session: int, flags: int)
    requires ValidEndpoint(first) && forall o <- others :: ValidEndpoint(o)
    requires |others| < 0x1000_0000 && a.entryType % 0x100 == 1
    requires (service == 0xFFFF || a.serviceId % 0x1_0000 == service) && (instance == 0xFFFF || a.instanceId % 0x1_0000 == instance)
    ensures Dedup(AllHits(service, instance, [BuildSdMessage(BuildEntry(a), BuildOptions([first] + others), session, flags)]))
         == [Found(a.serviceId % 0x1_0000, a.instanceId % 0x1_0000, first.address, first.port % 0x1_0000)]
  {
    hide BuildSdMessage, ParseSd, BuildEntry, BuildEndpointOption, BuildEntries, BuildOptions, AllMasked, AllEndpoints, Masked,
      MaskedEndpoint, MessageHits, Dedup, AllHits;
    var p := BuildSdMessage(BuildEntry(a), BuildOptions([first] + others), session, flags);
    Singletons(a, None);
    MessageRoundTrip([a], [first] + others, session, flags);
    FirstOfSeveral(service, instance, a, first, others, session % 0x1_0000, flags % 0x100);
    OnePacket(service, instance, p);
  }

  lemma {:induction false} FirstOfSeveral(
      service: int, instance: int, a: EntryArgs, first: EndpointArgs, others: seq<EndpointArgs>, session: u16, flags: byte)
    requires a.entryType % 0x100 == 1
    requires (service == 0xFFFF || a.serviceId % 0x1_0000 == service) && (instance == 0xFFFF || a.instanceId % 0x1_0000 == instance)
    ensures MessageHits(service, instance, Parsed(session, flags, [Masked(a)], AllEndpoints([first] + others)))
         == [Found(a.serviceId % 0x1_0000, a.instanceId % 0x1_0000, first.address, first.port % 0x1_0000)]
  {
    var e, os := Masked(a), AllEndpoints([first] + others);
    assert os[0] == MaskedEndpoint(first);
    assert FirstEndpoint(os) == os[0].endpoint;
    hide Masked, AllEndpoints, FirstEndpoint;
    assert [e][..0] == [];
    assert Hits(service, instance, [e], os[0].endpoint)
        == Hits(service, instance, [], os[0].endpoint) + [Found(e.serviceId, e.instanceId, first.address, first.port % 0x1_0000)];
  }

  lemma {:induction false} OnePacket(service: int, instance: int, p: seq<byte>)
    requires |MessageHits(service, instance, ParseSd(p))| == 1
    ensures Dedup(AllHits(service, instance, [p])) == MessageHits(service, instance, ParseSd(p))
  {
    hide ParseSd, MessageHits;
    var hits := MessageHits(service, instance, ParseSd(p));
    assert [p][..0] == [] && hits[..0] == [];
    assert [] + hits == hits;
  }

  /**
   * Discovery finds the server: whatever was received before one of its offers, and
   * whatever after it, every search that covers the offer lists its address, unless a later
   * message assigned the same key again. StopOffers never do, so a withdrawn service stays
   * listed: the fold does not look at the TTL.
   */
  lemma {:induction false} ServerFound(
      service: int, instance: int, earlier: seq<seq<byte>>, later: seq<seq<byte>>,
      s: int, i: int, address: seq<byte>, port: int, n: nat)
    requires |address| == 4
    requires Searches(service, instance, Found(s % 0x1_0000, i % 0x1_0000, address, port % 0x1_0000))
    requires LastHit(AllHits(service, instance, later), (s % 0x1_0000, i % 0x1_0000)) == None
    ensures Found(s % 0x1_0000, i % 0x1_0000, address, port % 0x1_0000)
         in Dedup(AllHits(service, instance, earlier + [NthOffer(s, i, address, port, n)] + later))
  {
    hide BuildOfferService, ParseSd, Dedup, Hits, MessageHits, AllHits, Has, FirstHit, LastHit;
    var f := Found(s % 0x1_0000, i % 0x1_0000, address, port % 0x1_0000);
    var offered := earlier + [NthOffer(s, i, address, port, n)];
    assert offered[..|earlier|] == earlier && offered[..|offered|] == offered;
    AllHitsNext(service, instance, offered, |earlier|);
    OfferHits(service, instance, s, i, address, port, n % 0xFFFF + 1, TTL_DEFAULT,
              if n == 0 then FLAG_REBOOT + FLAG_UNICAST else FLAG_UNICAST);
    AllHitsConcat(service, instance, offered, later);
    HitLast(AllHits(service, instance, earlier), f, f.Key());
    LastHitConcat(AllHits(service, instance, offered), AllHits(service, instance, later), f.Key());
    LastHitListed(AllHits(service, instance, offered + later), f);
  }

  /** StopOffers of the service, under any sessions. */
  function StopOffers(s: int, i: int, sessions: seq<int>): seq<seq<byte>> {
    seq(|sessions|, k requires 0 <= k < |sessions| => BuildStopOffer(s, i, sessions[k]))
  }

  lemma {:induction false} StopOffersHitNothing(service: int, instance: int, s: int, i: int, sessions: seq<int>)
    ensures AllHits(service, instance, StopOffers(s, i, sessions)) == []
    decreases |sessions|
  {
    if sessions != [] {
      hide ParseSd, BuildStopOffer, MessageHits;
      var n := |sessions| - 1;
      StopOffersHitNothing(service, instance, s, i, sessions[..n]);
      assert StopOffers(s, i, sessions)[..n] == StopOffers(s, i, sessions[..n]);
      StopHitsNothing(service, instance, s, i, sessions[n]);
    }
  }

  /** Any number of StopOffers after its offer leaves the server listed. */
  lemma {:induction false} WithdrawnStaysListed(
      service: int, instance: int, earlier: seq<seq<byte>>,
      s: int, i: int, address: seq<byte>, port: int, n: nat, sessions: seq<int>)
    requires |address| == 4
    requires Searches(service, instance, Found(s % 0x1_0000, i % 0x1_0000, address, port % 0x1_0000))
    ensures Found(s % 0x1_0000, i % 0x1_0000, address, port % 0x1_0000)
         in Dedup(AllHits(service, instance, earlier + [NthOffer(s, i, address, port, n)] + StopOffers(s, i, sessions)))
  {
    hide AllHits, StopOffers, Dedup, NthOffer;
    StopOffersHitNothing(service, instance, s, i, sessions);
    ServerFound(service, instance, earlier, StopOffers(s, i, sessions), s, i, address, port, n);
  }

  lemma {:induction false} AllHitsLast(service: int, instance: int, packets: seq<seq<byte>>)
    requires packets != []
    ensures AllHits(service, instance, packets)
         == AllHits(service, instance, packets[..|packets| - 1]) + MessageHits(service, instance, ParseSd(packets[|packets| - 1]))
  {
    hide MessageHits, ParseSd;
  }

  lemma {:induction false} AllHitsConcat(service: int, instance: int, a: seq<seq<byte>>, b: seq<seq<byte>>)
    ensures AllHits(service, instance, a + b) == AllHits(service, instance, a) + AllHits(service, instance, b)
    decreases |b|
  {
    hide MessageHits, ParseSd;
    if b == [] {
      assert a + b == a;
      assert AllHits(service, instance, a) + [] == AllHits(service, instance, a);
    } else {
      hide AllHits;
      AllHitsLast(service, instance, a + b);
      AllHitsLast(service, instance, b);
      AllHitsConcat(service, instance, a, b[..|b| - 1]);
      assert (a + b)[..|a + b| - 1] == a + b[..|b| - 1];
    }
  }

  lemma {:induction false} LastHitConcat(a: seq<Found>, b: seq<Found>, key: (u16, u16))
    ensures LastHit(a + b, key) == if LastHit(b, key).Some? then LastHit(b, key) else LastHit(a, key)
    decreases |b|
  {
    if b == [] {
      assert a + b == a;
    } else {
      LastHitConcat(a, b[..|b| - 1], key);
      assert (a + b)[..|a + b| - 1] == a + b[..|b| - 1];
    }
  }

  lemma {:induction false} LastHitListed(hits: seq<Found>, f: Found)
    requires LastHit(hits, f.Key()) == Some(f)
    ensures f in Dedup(hits)
  {
    hide FirstHit, LastHit, Dedup;
    DedupExact(hits);
    var d := Dedup(hits);
    assert Has(d, f.Key());
    var k :| 0 <= k < |d| && d[k].Key() == f.Key();
    assert d[k] == f;
  }

  lemma StopHitsNothing(service: int, instance: int, s: int, i: int, session: int)
    ensures MessageHits(service, instance, ParseSd(BuildStopOffer(s, i, session))) == []
  {
    hide BuildSdMessage, ParseSd, BuildEntry, Hits;
    OneEntryParsed(ServiceArgs(ENTRY_OFFER_SERVICE, s, i, TTL_STOP, 1, 0, 0, 0, 0, 0), None, session, FLAG_UNICAST);
    NoEndpointNoHits(service, instance, ParseSd(BuildStopOffer(s, i, session)).entries);
  }

  lemma {:induction false} NoEndpointNoHits(service: int, instance: int, es: seq<Entry>)
    ensures Hits(service, instance, es, None) == []
    decreases |es|
  {
    if es != [] {
      NoEndpointNoHits(service, instance, es[..|es| - 1]);
    }
  }
}
