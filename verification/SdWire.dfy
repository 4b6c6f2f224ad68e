/**
 * Service discovery messages byte by byte: what the offer builders put on the wire, and what
 * both parsers read from a packet, told from its bytes alone.
 */
module SdWire {
  import opened Bytes
  import opened SdMessages
  import opened SdRoundTrip
  import opened McuSd
  import opened McuSdParser

  // ---- built entries and offers ----

  /** The option indices and run lengths of every built entry: first run in the high half of byte 3, second in the low. */
  lemma EntryRuns(a: EntryArgs)
    ensures var e := BuildEntry(a);
            && e[1] == a.index1 % 0x100 && e[2] == a.index2 % 0x100
            && e[3] / 16 == a.run1 % 16 && e[3] % 16 == a.run2 % 16
  {
    hide Pack16, Pack24, Pack32;
    Halves(a.run1 % 0x10, a.run2 % 0x10);
  }

  lemma Halves(high: nat, low: nat)
    requires high < 16 && low < 16
    ensures (high * 0x10 + low) / 16 == high && (high * 0x10 + low) % 16 == low
  {
  }

  lemma HeadBytes(length: byte, session: u16, flags: byte)
    ensures SomeipHeader(length, session) + [flags, 0, 0, 0] + Pack32(16)
         == [0xFF, 0xFF, 0x81, 0x00, 0, 0, 0, length, 0, 0, session / 0x100, session % 0x100, 1, 1, 2, 0]
            + [flags, 0, 0, 0, 0, 0, 0, 16]
  {
    assert Pack32(length) == [0, 0, 0, length] && Pack32(16) == [0, 0, 0, 16];
    assert Pack16(0xFFFF) == [0xFF, 0xFF] && Pack16(0x8100) == [0x81, 0x00];
  }

  lemma OfferEntry(serviceId: int, instanceId: int, ttl: int, run1: nat)
    requires run1 < 16
    ensures var s, i, t := serviceId % 0x1_0000, instanceId % 0x1_0000, ttl % 0x100_0000;
            (BuildEntry(ServiceArgs(ENTRY_OFFER_SERVICE, serviceId, instanceId, ttl, 1, 0, 0, run1, 0, 0))
         == [1, 0, 0, run1 * 16, s / 0x100, s % 0x100, i / 0x100, i % 0x100]
            + [1, t / 0x1_0000, t / 0x100 % 0x100, t % 0x100, 0, 0, 0, 0])
  {
    assert Pack32(0) == [0, 0, 0, 0];
  }

  lemma OfferOption(address: seq<byte>, port: int)
    requires |address| == 4
    ensures var p := port % 0x1_0000;
            BuildEndpointOption(EndpointArgs(address, port, L4_UDP)) == [0, 9, 4, 0] + address + [0, 0x11, p / 0x100, p % 0x100]
  {
    assert Pack16(9) == [0, 9];
  }

  /** OfferService, byte by byte, for all arguments: one option in the first run, none in the second. */
  lemma OfferWire(serviceId: int, instanceId: int, address: seq<byte>, port: int, session: int, ttl: int, flags: int)
    requires |address| == 4
    ensures var s, i, t := serviceId % 0x1_0000, instanceId % 0x1_0000, ttl % 0x100_0000;
            var p, n := port % 0x1_0000, session % 0x1_0000;
            (BuildOfferService(serviceId, instanceId, address, port, session, ttl, flags)
         == [0xFF, 0xFF, 0x81, 0x00, 0, 0, 0, 48, 0, 0, n / 0x100, n % 0x100, 1, 1, 2, 0]
            + [flags % 0x100, 0, 0, 0, 0, 0, 0, 16]
            + [1, 0, 0, 0x10, s / 0x100, s % 0x100, i / 0x100, i % 0x100]
            + [1, t / 0x1_0000, t / 0x100 % 0x100, t % 0x100, 0, 0, 0, 0]
            + [0, 0, 0, 12] + ([0, 9, 4, 0] + address + [0, 0x11, p / 0x100, p % 0x100]))
  {
    assert Pack32(12) == [0, 0, 0, 12];
    hide BuildEntry, BuildEndpointOption, SomeipHeader, Pack32;
    HeadBytes(48, session % 0x1_0000, flags % 0x100);
    OfferEntry(serviceId, instanceId, ttl, 1);
    OfferOption(address, port);
  }

  /** StopOffer, byte by byte: TTL 0 and no option. */
  lemma StopOfferWire(serviceId: int, instanceId: int, session: int)
    ensures var s, i, n := serviceId % 0x1_0000, instanceId % 0x1_0000, session % 0x1_0000;
            (BuildStopOffer(serviceId, instanceId, session)
         == [0xFF, 0xFF, 0x81, 0x00, 0, 0, 0, 36, 0, 0, n / 0x100, n % 0x100, 1, 1, 2, 0]
            + [0x40, 0, 0, 0, 0, 0, 0, 16]
            + [1, 0, 0, 0, s / 0x100, s % 0x100, i / 0x100, i % 0x100]
            + [1, 0, 0, 0, 0, 0, 0, 0] + [0, 0, 0, 0])
  {
    assert Pack32(0) == [0, 0, 0, 0];
    hide BuildEntry, SomeipHeader, Pack32;
    HeadBytes(36, session % 0x1_0000, FLAG_UNICAST);
    OfferEntry(serviceId, instanceId, TTL_STOP, 0);
  }

  /** The first option run of a built offer covers exactly the options it carries, the second none. */
  lemma OfferRuns(serviceId: int, instanceId: int, address: seq<byte>, port: int, session: int, ttl: int, flags: int)
    requires |address| == 4
    ensures var p := BuildOfferService(serviceId, instanceId, address, port, session, ttl, flags);
            ParseSd(p).Parsed? && p[25] == 0 && p[27] / 16 == |ParseSd(p).options| == 1 && p[27] % 16 == 0
  {
    hide ParseSd;
    OfferWire(serviceId, instanceId, address, port, session, ttl, flags);
    OneEntryParsed(ServiceArgs(ENTRY_OFFER_SERVICE, serviceId, instanceId, ttl, 1, 0, 0, 1, 0, 0),
                   Some(EndpointArgs(address, port, L4_UDP)), session, flags);
  }

  lemma {:induction false} Singletons(a: EntryArgs, o: Option<EndpointArgs>)
    requires o.Some? ==> ValidEndpoint(o.value)
    ensures BuildEntries([a]) == BuildEntry(a) && AllMasked([a]) == [Masked(a)]
    ensures BuildOptions(o.ToSeq()) == if o.Some? then BuildEndpointOption(o.value) else []
    ensures AllEndpoints(o.ToSeq()) == if o.Some? then [MaskedEndpoint(o.value)] else []
  {
    hide BuildEntry, BuildEndpointOption, Masked, MaskedEndpoint;
    assert [a][1..] == [];
    assert o.Some? ==> o.ToSeq()[1..] == [];
  }

  /** A built message of one entry and at most one endpoint option, as parse_sd shows it. */
  lemma {:induction false} OneEntryParsed(a: EntryArgs, o: Option<EndpointArgs>, session: int, flags: int)
    requires o.Some? ==> ValidEndpoint(o.value)
    ensures ParseSd(BuildSdMessage(BuildEntry(a), if o.Some? then BuildEndpointOption(o.value) else [], session, flags))
         == Parsed(session % 0x1_0000, flags % 0x100, [Masked(a)], if o.Some? then [MaskedEndpoint(o.value)] else [])
  {
    hide BuildSdMessage, ParseSd, BuildEntry, BuildEndpointOption, BuildEntries, BuildOptions, AllMasked, AllEndpoints,
      Masked, MaskedEndpoint;
    Singletons(a, o);
    MessageRoundTrip([a], o.ToSeq(), session, flags);
  }

  // ---- what parse_sd reads ----

  /** An entry read from the 16 bytes at an offset. */
  predicate EntryReads(e: Entry, p: seq<byte>, at: nat)
    requires at + 16 <= |p|
  {
    && e.entryType == p[at]
    && e.serviceId == Half(p, at + 4) && e.instanceId == Half(p, at + 6)
    && e.major == p[at + 8] && e.ttl == Triple(p, at + 9)
    && e.minor == (if p[at] in [0, 1, 2] then Some(Word(p, at + 12)) else None)
    && e.eventgroupId == (if p[at] in [4, 5, 6, 7] then Some(Half(p, at + 14)) else None)
  }

  lemma ChunkReads(chunk: seq<byte>)
    requires |chunk| == 16
    ensures EntryReads(DecodeEntry(chunk), chunk, 0)
  {
    ChunkNumbers(chunk);
    hide Be16, Be24, Be32, Half, Triple, Word;
  }

  lemma ChunkNumbers(chunk: seq<byte>)
    requires |chunk| == 16
    ensures Be16(chunk[4..6]) == Half(chunk, 4) && Be16(chunk[6..8]) == Half(chunk, 6) && Be16(chunk[14..16]) == Half(chunk, 14)
    ensures Be24(chunk[9..12]) == Triple(chunk, 9) && Be32(chunk[12..16]) == Word(chunk, 12)
  {
    HalfAt(chunk, 4);
    HalfAt(chunk, 6);
    HalfAt(chunk, 14);
    TripleAt(chunk, 9);
    WordAt(chunk, 12);
  }

  lemma {:induction false} ShiftedReads(e: Entry, chunk: seq<byte>, p: seq<byte>, at: nat)
    requires |chunk| == 16 && at + 16 <= |p| && chunk == p[at..at + 16] && EntryReads(e, chunk, 0)
    ensures EntryReads(e, p, at)
  {
    assert forall k :: 0 <= k < 16 ==> chunk[k] == p[at + k];
  }

  lemma {:induction false} DecodedEntry(entries: seq<byte>, i: nat)
    requires |entries| % 16 == 0 && i < |entries| / 16
    ensures DecodeEntries(entries)[i] == DecodeEntry(entries[16 * i..16 * i + 16])
    decreases i
  {
    hide DecodeEntry;
    if i > 0 {
      DecodedEntry(entries[16..], i - 1);
      assert entries[16..][16 * (i - 1)..16 * (i - 1) + 16] == entries[16 * i..16 * i + 16];
    }
  }

  /** An option read from its block. */
  predicate OptionReads(o: SdOption, block: seq<byte>)
    requires |block| >= 3
  {
    && o.optionType == block[2]
    && o.endpoint == if (block[2] == 0x04 || block[2] == 0x14) && |block| >= 12
                     then Some(Endpoint(block[4..8], block[9], Half(block, 10))) else None
  }

  lemma {:induction false} BlocksRead(blocks: seq<seq<byte>>)
    requires AllWellFormed(blocks)
    ensures |DecodeBlocks(blocks)| == |blocks|
    ensures forall k :: 0 <= k < |blocks| ==> OptionReads(DecodeBlocks(blocks)[k], blocks[k])
    decreases |blocks|
  {
    if blocks != [] {
      BlocksRead(blocks[1..]);
    }
  }

  /** The lengths by which a packet delimits its entries and options. */
  predicate Delimits(p: seq<byte>) {
    && |p| >= 28
    && var n := Word(p, 20);
       && n % 16 == 0 && 28 + n <= |p|
       && 28 + n + Word(p, 24 + n) <= |p|
  }

  /** The option bytes of such a packet. */
  function OptionBytes(p: seq<byte>): seq<byte>
    requires Delimits(p)
  {
    var n := Word(p, 20);
    p[28 + n..28 + n + Word(p, 24 + n)]
  }

  lemma {:induction false} ParseSplit(p: seq<byte>)
    ensures ParseSd(p).Parsed? ==> Delimits(p)
    ensures Delimits(p) ==>
              ParseSd(p) ==
              if !(p[0] == 0xFF && p[1] == 0xFF && p[2] == 0x81 && p[3] == 0 && p[14] == 2) then ValueError
              else match DecodeOptions(OptionBytes(p))
                   case None => ValueError
                   case Some(os) =>
                     Parsed(Half(p, 10), p[16], DecodeEntries(p[24..24 + Word(p, 20)]), os)
  {
    hide Be16, Be32, FromBytes, DecodeOptions, DecodeEntries, Word, Half;
    if |p| >= 28 {
      HeadHalves(p);
      HalfAt(p, 0);
      HalfAt(p, 2);
      HalfAt(p, 10);
      LengthAt(p, 20);
      var n := Word(p, 20);
      if 28 + n <= |p| {
        LengthAt(p, 24 + n);
      }
    }
  }

  lemma LengthAt(p: seq<byte>, at: nat)
    requires at + 4 <= |p|
    ensures FromBytes(p[at..at + 4]) == Be32(p[at..at + 4]) == Word(p, at)
  {
    WordAt(p, at);
    FromBytesWidths(p[at..at + 2], p[at..at + 3], p[at..at + 4]);
  }

  lemma HeadHalves(p: seq<byte>)
    requires |p| >= 4
    ensures Half(p, 0) == 0xFFFF && Half(p, 2) == 0x8100 <==> p[0] == 0xFF && p[1] == 0xFF && p[2] == 0x81 && p[3] == 0
  {
  }

  /**
   * parse_sd on every packet, told from its bytes: which it accepts, and each field of what
   * it then returns. The options are those of the one tiling of the option bytes.
   */
  lemma {:induction false} ParsedExactly(p: seq<byte>)
    ensures ParseSd(p).Parsed? <==>
              && Delimits(p) && p[0] == 0xFF && p[1] == 0xFF && p[2] == 0x81 && p[3] == 0 && p[14] == 2
              && exists blocks :: TileOptions(blocks, OptionBytes(p))
    ensures ParseSd(p).Parsed? ==>
              var r := ParseSd(p);
              && Delimits(p)
              && r.session == Half(p, 10) && r.flags == p[16] && |r.entries| == Word(p, 20) / 16
              && (forall i :: 0 <= i < |r.entries| ==> EntryReads(r.entries[i], p, 24 + 16 * i))
              && (forall blocks :: TileOptions(blocks, OptionBytes(p)) ==>
                    && |r.options| == |blocks| && AllWellFormed(blocks)
                    && forall k :: 0 <= k < |blocks| ==> OptionReads(r.options[k], blocks[k]))
  {
    hide ParseSd, DecodeOptions, DecodeEntries, TileOptions, Word, EntryReads, OptionReads;
    ParseSplit(p);
    if Delimits(p) {
      OptionsTile(OptionBytes(p));
      if ParseSd(p).Parsed? {
        EntriesRead(p);
        forall blocks | TileOptions(blocks, OptionBytes(p))
          ensures && |ParseSd(p).options| == |blocks| && AllWellFormed(blocks)
                  && forall k :: 0 <= k < |blocks| ==> OptionReads(ParseSd(p).options[k], blocks[k])
        {
          TilesWellFormed(blocks, OptionBytes(p));
          BlocksRead(blocks);
        }
      }
    }
  }

  /** Sixteen bytes of a stretch of the packet are sixteen bytes of the packet. */
  lemma {:induction false} Chunk(p: seq<byte>, from: nat, length: nat, at: nat)
    requires from + length <= |p| && at + 16 <= length
    ensures p[from..from + length][at..at + 16] == p[from + at..from + at + 16]
  {
    var chunk := p[from..from + length][at..at + 16];
    assert forall k :: 0 <= k < 16 ==> chunk[k] == p[from + at + k];
  }

  lemma {:induction false} EntriesRead(p: seq<byte>)
    requires Delimits(p)
    ensures var es := DecodeEntries(p[24..24 + Word(p, 20)]);
            forall i :: 0 <= i < |es| ==> EntryReads(es[i], p, 24 + 16 * i)
  {
    hide EntryReads, DecodeEntry, DecodeEntries, Word;
    var area := p[24..24 + Word(p, 20)];
    forall i | 0 <= i < |DecodeEntries(area)| ensures EntryReads(DecodeEntries(area)[i], p, 24 + 16 * i) {
      DecodedEntry(area, i);
      var chunk := area[16 * i..16 * i + 16];
      ChunkReads(chunk);
      Chunk(p, 24, Word(p, 20), 16 * i);
      ShiftedReads(DecodeEntry(chunk), chunk, p, 24 + 16 * i);
    }
  }

  // ---- what the MCU reads ----

  /** An entry of the MCU's table, read from the 16 bytes at an offset. */
  predicate SlotReads(e: SdEntry, p: seq<byte>, at: nat)
    requires at + 16 <= |p|
  {
    && e.kind == p[at]
    && e.serviceId == Half(p, at + 4) && e.instanceId == Half(p, at + 6)
    && e.major == p[at + 8] && e.ttl == Triple(p, at + 9)
    && e.eventgroupId == if p[at] in [6, 7] then Half(p, at + 14) else 0
  }

  lemma ChunkSlot(chunk: seq<byte>)
    requires |chunk| == 16
    ensures SlotReads(EntryAt(chunk), chunk, 0)
  {
    ChunkNumbers(chunk);
    hide Be16, Be24, Half, Triple;
  }

  lemma {:induction false} ShiftedSlot(e: SdEntry, chunk: seq<byte>, p: seq<byte>, at: nat)
    requires |chunk| == 16 && at + 16 <= |p| && chunk == p[at..at + 16] && SlotReads(e, chunk, 0)
    ensures SlotReads(e, p, at)
  {
    assert forall k :: 0 <= k < 16 ==> chunk[k] == p[at + k];
  }

  lemma {:induction false} TableEntry(area: seq<byte>, n: nat, i: nat)
    requires |area| % 16 == 0 && i < n
    ensures EntryTable(area, n)[i]
         == if i < |area| / 16 then EntryAt(area[16 * i..16 * i + 16]) else SdEntry(0, 0, 0, 0, 0, 0)
    decreases i
  {
    hide EntryAt;
    if i > 0 {
      var rest := if area == [] then [] else area[16..];
      TableEntry(rest, n - 1, i - 1);
      if i < |area| / 16 {
        assert rest[16 * (i - 1)..16 * (i - 1) + 16] == area[16 * i..16 * i + 16];
      }
    }
  }

  /**
   * sd_parse on every packet, told from its bytes: which it accepts, and the header and
   * entry fields of the structure it fills. Its message type it does not look at.
   */
  lemma {:induction false} McuParsedExactly(p: seq<byte>)
    ensures Accepts(p) <==>
              Delimits(p) && Word(p, 20) <= 64 && p[0] == 0xFF && p[1] == 0xFF && p[2] == 0x81 && p[3] == 0
    ensures Accepts(p) ==>
              var t := ParsedTables(p);
              && t.session == Half(p, 10) && t.flags == p[16]
              && t.entryCount == Word(p, 20) / 16 && |t.entries| == 4
              && OptionArea(p) == OptionBytes(p)
              && forall i :: 0 <= i < 4 ==>
                   if i < t.entryCount then SlotReads(t.entries[i], p, 24 + 16 * i)
                   else t.entries[i] == SdEntry(0, 0, 0, 0, 0, 0)
  {
    McuAccepts(p);
    if Accepts(p) {
      hide Accepts, SlotReads, EntryAt, EntryTable, Slots, LastFilled, Padded, Be16, Be32, Word;
      HalfAt(p, 10);
      var area := EntryArea(p);
      forall i | 0 <= i < 4
        ensures if i < |area| / 16 then SlotReads(EntryTable(area, 4)[i], p, 24 + 16 * i)
                else EntryTable(area, 4)[i] == SdEntry(0, 0, 0, 0, 0, 0)
      {
        TableEntry(area, 4, i);
        if i < |area| / 16 {
          var chunk := area[16 * i..16 * i + 16];
          ChunkSlot(chunk);
          Chunk(p, 24, |area|, 16 * i);
          ShiftedSlot(EntryAt(chunk), chunk, p, 24 + 16 * i);
        }
      }
    }
  }

  lemma {:induction false} McuAccepts(p: seq<byte>)
    ensures Accepts(p) <==>
              Delimits(p) && Word(p, 20) <= 64 && p[0] == 0xFF && p[1] == 0xFF && p[2] == 0x81 && p[3] == 0
    ensures Accepts(p) ==> EntriesLength(p) == Word(p, 20) && OptionArea(p) == OptionBytes(p)
  {
    if |p| >= 28 {
      var n := Word(p, 20);
      HalfAt(p, 0);
      HalfAt(p, 2);
      WordAt(p, 20);
      if 28 + n <= |p| {
        WordAt(p, 24 + n);
      }
    }
    hide Be16, Be32, Word;
  }

  /** A slot of the MCU's option table, read from its block. */
  predicate OptionSlotReads(o: SdIp4, block: seq<byte>)
    requires |block| >= 3
  {
    o == if block[2] == 4 && |block| >= 12 then SdIp4(4, block[4..8], block[9], Half(block, 10))
         else SdIp4(0, [0, 0, 0, 0], 0, 0)
  }

  /** Every area is a sequence of whole blocks and a rest that is none: the first `n` blocks are the slots. */
  lemma {:induction false} SlotsRead(blocks: seq<seq<byte>>, rest: seq<byte>, n: nat)
    requires AllWellFormed(blocks) && (|rest| < 3 || BlockSize(rest) > |rest|)
    ensures var slots := Slots(Flatten(blocks) + rest, n);
            && |slots| == (if n < |blocks| then n else |blocks|)
            && forall k :: 0 <= k < |slots| ==> OptionSlotReads(slots[k], blocks[k])
    decreases n
  {
    if n > 0 {
      if blocks == [] {
        assert Flatten(blocks) + rest == rest;
      } else {
        FirstSlot(blocks, rest, n);
        hide OptionSlotReads, SlotAt, Slots, Flatten, BlockSize;
        SlotsRead(blocks[1..], rest, n - 1);
        BlockSlot(blocks[0]);
      }
    }
  }

  lemma {:induction false} FirstSlot(blocks: seq<seq<byte>>, rest: seq<byte>, n: nat)
    requires blocks != [] && WellFormed(blocks[0]) && n > 0
    ensures Slots(Flatten(blocks) + rest, n) == [SlotAt(blocks[0])] + Slots(Flatten(blocks[1..]) + rest, n - 1)
  {
    hide SlotAt, BlockSize;
    var later := Flatten(blocks[1..]) + rest;
    FirstBlock(blocks[0], later);
    assert Flatten(blocks) + rest == blocks[0] + later;
  }

  lemma {:induction false} FirstBlock(block: seq<byte>, rest: seq<byte>)
    requires WellFormed(block)
    ensures BlockSize(block + rest) == |block|
    ensures (block + rest)[..|block|] == block && (block + rest)[|block|..] == rest
  {
    hide Be16;
    assert (block + rest)[..2] == block[..2];
  }

  lemma BlockSlot(block: seq<byte>)
    requires |block| >= 3
    ensures OptionSlotReads(SlotAt(block), block)
  {
  }

  lemma {:induction false} WholeBlocks(area: seq<byte>) returns (blocks: seq<seq<byte>>, rest: seq<byte>)
    ensures AllWellFormed(blocks) && (|rest| < 3 || BlockSize(rest) > |rest|) && area == Flatten(blocks) + rest
    decreases |area|
  {
    if |area| < 3 || BlockSize(area) > |area| {
      blocks, rest := [], area;
    } else {
      hide Be16;
      var block := area[..BlockSize(area)];
      assert block[..2] == area[..2];
      var later, r := WholeBlocks(area[BlockSize(area)..]);
      blocks, rest := [block] + later, r;
      assert blocks[1..] == later;
    }
  }
}
