/** Round trips and the option tiling of mpu/someip/sd.py. */
module SdRoundTrip {
  import opened Bytes
  import opened SdMessages

  // ---- what the parser must return for given builder arguments ----

  /** The field-masked entry: which of the last fields is decoded depends on the masked type, not on the builder. */
  function Masked(a: EntryArgs): Entry {
    var t := a.entryType % 0x100;
    Entry(t, a.serviceId % 0x1_0000, a.instanceId % 0x1_0000, a.major % 0x100, a.ttl % 0x100_0000,
          if t <= 0x02 then Some(if a.ServiceArgs? then a.minor % 0x1_0000_0000 else a.eventgroupId % 0x1_0000) else None,
          if 0x04 <= t <= 0x07 then Some(if a.ServiceArgs? then a.minor % 0x1_0000 else a.eventgroupId % 0x1_0000) else None)
  }

  function MaskedEndpoint(o: EndpointArgs): SdOption {
    SdOption(OPT_IP4_ENDPOINT, Some(Endpoint(o.address, o.l4Proto % 0x100, o.port % 0x1_0000)))
  }

  function AllMasked(list: seq<EntryArgs>): seq<Entry> {
    if list == [] then [] else [Masked(list[0])] + AllMasked(list[1..])
  }

  function AllEndpoints(list: seq<EndpointArgs>): seq<SdOption> {
    if list == [] then [] else [MaskedEndpoint(list[0])] + AllEndpoints(list[1..])
  }

  function BuildEntries(list: seq<EntryArgs>): (b: seq<byte>)
    ensures |b| == ENTRY_SIZE * |list|
  {
    if list == [] then [] else BuildEntry(list[0]) + BuildEntries(list[1..])
  }

  function BuildOptions(list: seq<EndpointArgs>): (b: seq<byte>)
    requires forall o <- list :: ValidEndpoint(o)
    ensures |b| == IP4_OPTION_SIZE * |list|
  {
    if list == [] then [] else BuildEndpointOption(list[0]) + BuildOptions(list[1..])
  }

  // ---- one entry, one option ----

  lemma EntryRoundTrip(a: EntryArgs)
    ensures DecodeEntry(BuildEntry(a)) == Masked(a)
  {
    hide Be16, Be24, Be32, Pack16, Pack24, Pack32;
    var e := BuildEntry(a);
    EntryFields(a);
    RoundTrip16(a.serviceId % 0x1_0000);
    RoundTrip24(a.ttl % 0x100_0000);
    RoundTrip16(a.instanceId % 0x1_0000);
    match a
    case ServiceArgs(_, _, _, _, _, _, _, _, _, minor) =>
      RoundTrip16(minor % 0x1_0000);
      RoundTrip32(minor % 0x1_0000_0000);
      LowHalf(minor);
      assert e[14..16] == e[12..16][2..];
    case EventgroupArgs(_, _, _, _, _, _, _, _, _, eventgroup) =>
      RoundTrip16(eventgroup % 0x1_0000);
      RoundTrip32(eventgroup % 0x1_0000);
      HighZeros(eventgroup % 0x1_0000);
      assert e[14..16] == e[12..16][2..] == Pack16(eventgroup % 0x1_0000);
  }

  lemma EntryFields(a: EntryArgs)
    ensures var e := BuildEntry(a);
            && e[0] == a.entryType % 0x100 && e[8] == a.major % 0x100
            && e[4..6] == Pack16(a.serviceId % 0x1_0000) && e[6..8] == Pack16(a.instanceId % 0x1_0000)
            && e[9..12] == Pack24(a.ttl % 0x100_0000)
            && e[12..16] == (if a.ServiceArgs? then Pack32(a.minor % 0x1_0000_0000)
                             else Pack16(0) + Pack16(a.eventgroupId % 0x1_0000))
  {
  }

  /** The low half of a 32-bit field. */
  lemma LowHalf(v: int)
    ensures Pack32(v % 0x1_0000_0000)[2..] == Pack16(v % 0x1_0000)
  {
    var w := v % 0x1_0000_0000;
    var q, r := w / 0x1_0000, w % 0x1_0000;
    Remainder(v, v / 0x1_0000_0000 * 0x1_0000 + q, r);
    LowDigits(w, q, r);
  }

  lemma Remainder(v: int, q: int, r: u16)
    requires v == q * 0x1_0000 + r
    ensures v % 0x1_0000 == r
  {
  }

  lemma LowDigits(w: u32, q: nat, r: u16)
    requires w == q * 0x1_0000 + r
    ensures Pack32(w)[2..] == Pack16(r)
  {
    var hi, lo := r / 0x100, r % 0x100;
    Digit(w, q * 0x100 + hi, lo);
    Digit(q * 0x100 + hi, q, hi);
  }

  lemma Digit(v: nat, q: nat, d: byte)
    requires v == q * 0x100 + d
    ensures v / 0x100 == q && v % 0x100 == d
  {
  }

  lemma HighZeros(v: u16)
    ensures Pack16(0) + Pack16(v) == Pack32(v)
  {
  }

  lemma OptionRoundTrip(o: EndpointArgs)
    requires ValidEndpoint(o)
    ensures DecodeOption(BuildEndpointOption(o)) == MaskedEndpoint(o)
    ensures BlockSize(BuildEndpointOption(o)) == IP4_OPTION_SIZE
  {
    hide Be16, Pack16;
    var b := BuildEndpointOption(o);
    assert b[..2] == Pack16(9);
    assert b[10..12] == Pack16(o.port % 0x1_0000);
    assert b[4..8] == o.address;
    RoundTrip16(o.port % 0x1_0000);
    RoundTrip16(9);
  }

  // ---- lists ----

  lemma {:induction false} EntriesRoundTrip(list: seq<EntryArgs>)
    ensures DecodeEntries(BuildEntries(list)) == AllMasked(list)
    decreases |list|
  {
    if list != [] {
      hide BuildEntry, DecodeEntry, Masked;
      var e, rest := BuildEntry(list[0]), BuildEntries(list[1..]);
      assert (e + rest)[..ENTRY_SIZE] == e && (e + rest)[ENTRY_SIZE..] == rest;
      EntryRoundTrip(list[0]);
      EntriesRoundTrip(list[1..]);
    }
  }

  lemma {:induction false} OptionsRoundTrip(list: seq<EndpointArgs>)
    requires forall o <- list :: ValidEndpoint(o)
    ensures DecodeOptions(BuildOptions(list)) == Some(AllEndpoints(list))
    decreases |list|
  {
    if list != [] {
      hide BuildEndpointOption, DecodeOption, MaskedEndpoint, Be16;
      var b, rest := BuildEndpointOption(list[0]), BuildOptions(list[1..]);
      assert (b + rest)[..IP4_OPTION_SIZE] == b && (b + rest)[IP4_OPTION_SIZE..] == rest;
      assert (b + rest)[..2] == b[..2];
      OptionRoundTrip(list[0]);
      OptionsRoundTrip(list[1..]);
    }
  }

  // ---- whole messages ----

  /** The fields of a built message, at the offsets both parsers read. */
  lemma MessageLayout(entries: seq<byte>, options: seq<byte>, session: int, flags: int)
    requires 20 + |entries| + |options| < 0x1_0000_0000
    ensures var p := BuildSdMessage(entries, options, session, flags);
            var n := 24 + |entries|;
            && Be16(p[0..2]) == SD_SERVICE_ID && Be16(p[2..4]) == SD_METHOD_ID
            && Be32(p[4..8]) == |p| - 8 && Be16(p[10..12]) == session % 0x1_0000
            && p[14] == SD_MESSAGE_TYPE && p[16] == flags % 0x100
            && Be32(p[20..24]) == |entries| && p[24..n] == entries
            && Be32(p[n..n + 4]) == |options| && p[n + 4..] == options
  {
    hide Be16, Be32, Pack16, Pack32;
    var p := BuildSdMessage(entries, options, session, flags);
    var n := 24 + |entries|;
    var h := SomeipHeader(20 + |entries| + |options|, session % 0x1_0000);
    HeaderLayout(20 + |entries| + |options|, session % 0x1_0000);
    assert p[..16] == h;
    assert p[0..2] == h[0..2] && p[2..4] == h[2..4] && p[4..8] == h[4..8] && p[10..12] == h[10..12] && p[14] == h[14];
    assert p[20..24] == Pack32(|entries|);
    assert p[n..n + 4] == Pack32(|options|);
    RoundTrip32(|entries|);
    RoundTrip32(|options|);
  }

  lemma HeaderLayout(length: u32, session: u16)
    ensures var h := SomeipHeader(length, session);
            && Be16(h[0..2]) == SD_SERVICE_ID && Be16(h[2..4]) == SD_METHOD_ID
            && Be32(h[4..8]) == length && Be16(h[10..12]) == session && h[14] == SD_MESSAGE_TYPE
  {
    hide Be16, Be32, Pack16, Pack32;
    var h := SomeipHeader(length, session);
    assert h[0..2] == Pack16(SD_SERVICE_ID) && h[2..4] == Pack16(SD_METHOD_ID);
    assert h[4..8] == Pack32(length) && h[10..12] == Pack16(session);
    RoundTrip16(SD_SERVICE_ID);
    RoundTrip32(length);
    RoundTrip16(SD_METHOD_ID);
    RoundTrip16(session);
  }

  /** parse_sd of any built message decodes exactly the given entry and option bytes. */
  lemma {:induction false} ParseBuilt(entries: seq<byte>, options: seq<byte>, session: int, flags: int)
    requires 20 + |entries| + |options| < 0x1_0000_0000 && |entries| % ENTRY_SIZE == 0
    ensures ParseSd(BuildSdMessage(entries, options, session, flags))
         == match DecodeOptions(options)
            case None => ValueError
            case Some(os) => Parsed(session % 0x1_0000, flags % 0x100, DecodeEntries(entries), os)
  {
    hide Be16, Be32, BuildSdMessage, FromBytes, Slice, DecodeOptions, DecodeEntries, ParseSd;
    var p := BuildSdMessage(entries, options, session, flags);
    var n := 24 + |entries|;
    MessageLayout(entries, options, session, flags);
    FromBytesWidths(p[20..22], p[20..23], p[20..24]);
    FromBytesWidths(p[n..n + 2], p[n..n + 3], p[n..n + 4]);
    SliceInside(p, 20, 24);
    SliceInside(p, n, n + 4);
    assert p[n + 4..n + 4 + |options|] == p[n + 4..];
    ParseOf(p, entries, options);
  }

  /** parse_sd of any packet whose two length fields delimit these entry and option bytes. */
  lemma {:induction false} ParseOf(p: seq<byte>, entries: seq<byte>, options: seq<byte>)
    requires |p| >= 28 + |entries| + |options| && |entries| % ENTRY_SIZE == 0
    requires Be16(p[0..2]) == SD_SERVICE_ID && Be16(p[2..4]) == SD_METHOD_ID && p[14] == SD_MESSAGE_TYPE
    requires FromBytes(Slice(p, 20, 24)) == |entries| && p[24..24 + |entries|] == entries
    requires FromBytes(Slice(p, 24 + |entries|, 28 + |entries|)) == |options|
    requires p[28 + |entries|..28 + |entries| + |options|] == options
    ensures ParseSd(p)
         == match DecodeOptions(options)
            case None => ValueError
            case Some(os) => Parsed(Be16(p[10..12]), p[16], DecodeEntries(entries), os)
  {
    hide Be16, Be32, FromBytes, Slice, DecodeOptions, DecodeEntries;
  }

  lemma SliceInside(s: seq<byte>, lo: nat, hi: nat)
    requires lo <= hi <= |s|
    ensures Slice(s, lo, hi) == s[lo..hi]
  {
  }

  /**
   * SD round trip: for every list of entries and endpoint options whose message fits the
   * length field, parse_sd returns the field-masked lists in order, and the length field
   * is the packet size minus 8.
   */
  lemma {:induction false} MessageRoundTrip(
      entries: seq<EntryArgs>, options: seq<EndpointArgs>, session: int, flags: int)
    requires forall o <- options :: ValidEndpoint(o)
    requires 20 + |BuildEntries(entries)| + |BuildOptions(options)| < 0x1_0000_0000
    ensures var p := BuildSdMessage(BuildEntries(entries), BuildOptions(options), session, flags);
            && ParseSd(p) == Parsed(session % 0x1_0000, flags % 0x100, AllMasked(entries), AllEndpoints(options))
            && Be32(p[4..8]) == |p| - 8
  {
    hide BuildSdMessage, ParseSd, DecodeEntries, DecodeOptions, BuildEntries, BuildOptions, AllMasked, AllEndpoints, Be32;
    EntriesRoundTrip(entries);
    OptionsRoundTrip(options);
    ParseBuilt(BuildEntries(entries), BuildOptions(options), session, flags);
    MessageLayout(BuildEntries(entries), BuildOptions(options), session, flags);
  }

  // ---- tiling of the option area ----

  function Flatten(blocks: seq<seq<byte>>): seq<byte> {
    if blocks == [] then [] else blocks[0] + Flatten(blocks[1..])
  }

  /** A block whose length field covers it exactly. */
  predicate WellFormed(block: seq<byte>) {
    |block| >= 3 && BlockSize(block) == |block|
  }

  predicate AllWellFormed(blocks: seq<seq<byte>>) {
    forall i :: 0 <= i < |blocks| ==> WellFormed(blocks[i])
  }

  function DecodeBlocks(blocks: seq<seq<byte>>): seq<SdOption>
    requires AllWellFormed(blocks)
  {
    if blocks == [] then [] else [DecodeOption(blocks[0])] + DecodeBlocks(blocks[1..])
  }

  /** Blocks that tile an option area, the last one longer than a bare header. */
  ghost predicate TileOptions(blocks: seq<seq<byte>>, options: seq<byte>) {
    && AllWellFormed(blocks) && Flatten(blocks) == options
    && (blocks != [] ==> |blocks[|blocks| - 1]| > 3)
  }

  lemma {:induction false} DecodedTiles(options: seq<byte>) returns (blocks: seq<seq<byte>>)
    requires DecodeOptions(options).Some?
    ensures TileOptions(blocks, options) && DecodeOptions(options) == Some(DecodeBlocks(blocks))
    decreases |options|
  {
    if options == [] {
      blocks := [];
    } else {
      hide DecodeOption, Be16;
      var n := BlockSize(options);
      var block, rest := options[..n], options[n..];
      assert block[..2] == options[..2];
      var later := DecodedTiles(rest);
      blocks := [block] + later;
      assert blocks[1..] == later;
      assert options == block + rest;
      if later == [] {
        assert rest == [];
      } else {
        assert blocks[|blocks| - 1] == later[|later| - 1];
      }
    }
  }

  lemma {:induction false} TilesDecode(blocks: seq<seq<byte>>, options: seq<byte>)
    requires TileOptions(blocks, options)
    ensures DecodeOptions(options) == Some(DecodeBlocks(blocks))
    decreases |blocks|
  {
    if blocks != [] {
      hide DecodeOption, Be16;
      var block, later := blocks[0], blocks[1..];
      var rest := Flatten(later);
      assert options[..|block|] == block && options[|block|..] == rest;
      assert options[..2] == block[..2];
      if later != [] {
        assert later[|later| - 1] == blocks[|blocks| - 1];
        assert |later[0]| >= 3;
      }
      TilesDecode(later, rest);
    }
  }

  /**
   * Exactly which option areas parse_sd accepts: those tiled without remainder by blocks of
   * at least three bytes, the last one longer; the options are the decoded blocks in order.
   */
  lemma {:induction false} OptionsTile(options: seq<byte>)
    ensures DecodeOptions(options).Some? <==> exists blocks :: TileOptions(blocks, options)
    ensures forall blocks :: TileOptions(blocks, options) ==> DecodeOptions(options) == Some(DecodeBlocks(blocks))
  {
    hide DecodeOptions, TileOptions, DecodeBlocks, WellFormed;
    forall blocks | TileOptions(blocks, options)
      ensures AllWellFormed(blocks) && DecodeOptions(options) == Some(DecodeBlocks(blocks))
    {
      TilesWellFormed(blocks, options);
      TilesDecode(blocks, options);
    }
    if DecodeOptions(options).Some? {
      var blocks := DecodedTiles(options);
    }
  }

  lemma TilesWellFormed(blocks: seq<seq<byte>>, options: seq<byte>)
    requires TileOptions(blocks, options)
    ensures AllWellFormed(blocks)
  {
  }
}
