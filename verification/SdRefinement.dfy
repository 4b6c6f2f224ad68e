/** The MCU's SD parser against Python's: what it keeps, and exactly when both accept. */
module SdRefinement {
  import opened Bytes
  import opened SdMessages
  import opened McuSd
  import opened McuSdParser
  import opened SdRoundTrip

  // ---- what the MCU's tables must hold, told from Python's result alone ----

  /** An entry without its minor version, and with the event group of types 6 and 7 only. */
  function Kept(e: Entry): SdEntry {
    var eventgroup :=
      if e.entryType == ENTRY_SUBSCRIBE_EVENTGROUP || e.entryType == ENTRY_SUBSCRIBE_EVENTGROUP_ACK
      then e.eventgroupId else None;
    SdEntry(e.entryType, e.serviceId, e.instanceId, e.major, e.ttl, if eventgroup.Some? then eventgroup.value else 0)
  }

  /** An option, if it is an endpoint Python decoded; its multicast options are not kept. */
  function KeptOption(o: SdOption): SdIp4 {
    if o.optionType == OPT_IP4_ENDPOINT && o.endpoint.Some?
    then SdIp4(OPT_IP4_ENDPOINT, o.endpoint.value.address, o.endpoint.value.l4Proto, o.endpoint.value.port)
    else NO_OPTION
  }

  /** The first `n` entries kept, the rest of the table zero. */
  function KeptEntries(es: seq<Entry>, n: nat): (t: seq<SdEntry>)
    ensures |t| == n
  {
    seq(n, i requires 0 <= i => if i < |es| then Kept(es[i]) else NO_ENTRY)
  }

  function KeptOptions(os: seq<SdOption>, n: nat): (t: seq<SdIp4>)
    ensures |t| <= n
  {
    seq(if |os| < n then |os| else n, i requires 0 <= i < |os| => KeptOption(os[i]))
  }

  function KeptTables(r: Outcome): Tables
    requires r.Parsed?
  {
    var slots := KeptOptions(r.options, SD_MAX_OPTIONS);
    Tables(r.flags, r.session, |r.entries|, KeptEntries(r.entries, SD_MAX_ENTRIES), LastFilled(slots), Padded(slots))
  }

  // ---- the two loops ----

  lemma EntryKept(chunk: seq<byte>)
    requires |chunk| == ENTRY_SIZE
    ensures EntryAt(chunk) == Kept(DecodeEntry(chunk))
  {
    hide Be16, Be24, Be32;
  }

  lemma OptionKept(block: seq<byte>)
    requires |block| >= 3
    ensures SlotAt(block) == KeptOption(DecodeOption(block))
  {
    hide Be16;
  }

  lemma {:induction false} EntriesKept(area: seq<byte>, n: nat)
    requires |area| % ENTRY_SIZE == 0 && |area| / ENTRY_SIZE <= n
    ensures EntryTable(area, n) == KeptEntries(DecodeEntries(area), n)
    decreases n
  {
    hide EntryAt, DecodeEntry, Kept;
    if n > 0 {
      if area == [] {
        EntriesKept([], n - 1);
      } else {
        EntryKept(area[..ENTRY_SIZE]);
        EntriesKept(area[ENTRY_SIZE..], n - 1);
      }
    }
  }

  lemma {:induction false} OptionsKept(area: seq<byte>, n: nat)
    requires DecodeOptions(area).Some?
    ensures Slots(area, n) == KeptOptions(DecodeOptions(area).value, n)
    decreases n
  {
    if n > 0 && area != [] {
      hide SlotAt, DecodeOption, KeptOption, Be16;
      var size := BlockSize(area);
      var os := DecodeOptions(area[size..]).value;
      OptionKept(area[..size]);
      OptionsKept(area[size..], n - 1);
      assert DecodeOptions(area).value == [DecodeOption(area[..size])] + os;
    }
  }

  // ---- acceptance ----

  /** Python accepts, entry by entry and block by block, what the MCU's checks and the option walk let through. */
  lemma BothAccept(p: seq<byte>)
    ensures ParseSd(p).Parsed? && |ParseSd(p).entries| <= SD_MAX_ENTRIES
        <==> Accepts(p) && p[14] == SD_MESSAGE_TYPE && DecodeOptions(OptionArea(p)).Some?
    ensures ParseSd(p).Parsed? && |ParseSd(p).entries| <= SD_MAX_ENTRIES ==>
              ParseSd(p) == Parsed(Be16(p[10..12]), p[16], DecodeEntries(EntryArea(p)), DecodeOptions(OptionArea(p)).value)
    ensures ParseSd(p).Parsed? && Accepts(p) ==> |ParseSd(p).entries| <= SD_MAX_ENTRIES
  {
    hide Be16, Be32, FromBytes, DecodeOptions, DecodeEntries;
    if |p| >= 28 {
      var n := EntriesLength(p);
      FromBytesWidths(p[20..22], p[20..23], p[20..24]);
      if 28 + n <= |p| {
        FromBytesWidths(p[24 + n..26 + n], p[24 + n..27 + n], p[24 + n..28 + n]);
      }
    }
  }

  /**
   * The MCU's parser refines Python's: on every packet Python accepts with at most four
   * entries, sd_parse succeeds and its whole output structure is Python's result cut to the
   * table sizes and option kinds. And the converse, exactly: of the packets the MCU accepts,
   * Python accepts those with message type 2 whose option walk ends on the area's end.
   */
  lemma Refinement(p: seq<byte>)
    ensures ParseSd(p).Parsed? && |ParseSd(p).entries| <= SD_MAX_ENTRIES
            ==> Accepts(p) && ParsedTables(p) == KeptTables(ParseSd(p))
    ensures Accepts(p) ==>
              (ParseSd(p).Parsed? <==>
               p[14] == SD_MESSAGE_TYPE && exists blocks :: TileOptions(blocks, OptionArea(p)))
  {
    hide ParseSd, DecodeOptions, DecodeEntries, EntryTable, Slots, KeptEntries, KeptOptions, TileOptions, Be16, Be32, Padded, LastFilled;
    BothAccept(p);
    if Accepts(p) {
      OptionsTile(OptionArea(p));
      EntriesKept(EntryArea(p), SD_MAX_ENTRIES);
      if DecodeOptions(OptionArea(p)).Some? {
        OptionsKept(OptionArea(p), SD_MAX_OPTIONS);
      }
    }
  }

  /** LastFilled is what its name says: nothing at or past it is an endpoint, and the slot before it is. */
  lemma {:induction false} LastFilledExact(t: seq<SdIp4>)
    ensures forall i :: LastFilled(t) <= i < |t| ==> t[i].kind != OPT_IP4_ENDPOINT
    ensures LastFilled(t) > 0 ==> t[LastFilled(t) - 1].kind == OPT_IP4_ENDPOINT
  {
    if t != [] && t[|t| - 1].kind != OPT_IP4_ENDPOINT {
      LastFilledExact(t[..|t| - 1]);
    }
  }
}
