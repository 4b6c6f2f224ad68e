/** sd_parse of MCU/src/someip_sd.cpp: fixed-size tables filled by two loops. */
module McuSdParser {
  import opened Bytes
  import opened SdMessages
  import opened McuSd

  datatype SdEntry = SdEntry(kind: byte, serviceId: u16, instanceId: u16, major: byte, ttl: u24, eventgroupId: u16)

  datatype SdIp4 = SdIp4(kind: byte, address: seq<byte>, l4Proto: byte, port: u16)

  const NO_ENTRY := SdEntry(0, 0, 0, 0, 0, 0)
  const NO_OPTION := SdIp4(0, [0, 0, 0, 0], 0, 0)

  /** The contents of struct sd_parsed. */
  datatype Tables = Tables(
    flags: byte, session: u16, entryCount: nat, entries: seq<SdEntry>, optionCount: nat, options: seq<SdIp4>)

  const ZEROED := Tables(0, 0, 0, [NO_ENTRY, NO_ENTRY, NO_ENTRY, NO_ENTRY], 0, [NO_OPTION, NO_OPTION, NO_OPTION, NO_OPTION])

  // ---- what the tables hold, told from the packet ----

  /** The lengths of the entry and option areas, where the packet is long enough to have them. */
  function EntriesLength(b: seq<byte>): u32
    requires |b| >= 28
  {
    Be32(b[20..24])
  }

  predicate Accepts(b: seq<byte>) {
    && |b| >= 28
    && Be16(b[0..2]) == SD_SERVICE_ID && Be16(b[2..4]) == SD_METHOD_ID
    && EntriesLength(b) % ENTRY_SIZE == 0 && EntriesLength(b) / ENTRY_SIZE <= SD_MAX_ENTRIES
    && 28 + EntriesLength(b) <= |b|
    && 28 + EntriesLength(b) + Be32(b[24 + EntriesLength(b)..28 + EntriesLength(b)]) <= |b|
  }

  function EntryArea(b: seq<byte>): (e: seq<byte>)
    requires Accepts(b)
    ensures |e| == EntriesLength(b)
  {
    b[24..24 + EntriesLength(b)]
  }

  function OptionArea(b: seq<byte>): seq<byte>
    requires Accepts(b)
  {
    var n := EntriesLength(b);
    b[28 + n..28 + n + Be32(b[24 + n..28 + n])]
  }

  /** One entry; the event group is read for Subscribe and its acknowledgement only. */
  function EntryAt(e: seq<byte>): SdEntry
    requires |e| == ENTRY_SIZE
  {
    SdEntry(e[0], Be16(e[4..6]), Be16(e[6..8]), e[8], Be24(e[9..12]),
            if e[0] == ENTRY_SUBSCRIBE_EVENTGROUP || e[0] == ENTRY_SUBSCRIBE_EVENTGROUP_ACK then Be16(e[14..16]) else 0)
  }

  /** The entry table: decoded entries, then zeros. */
  function EntryTable(area: seq<byte>, n: nat): (t: seq<SdEntry>)
    requires |area| % ENTRY_SIZE == 0
    ensures |t| == n
    decreases n
  {
    if n == 0 then []
    else if area == [] then [NO_ENTRY] + EntryTable(area, n - 1)
    else [EntryAt(area[..ENTRY_SIZE])] + EntryTable(area[ENTRY_SIZE..], n - 1)
  }

  /** One option slot; anything but a full IPv4 endpoint leaves it zero. */
  function SlotAt(block: seq<byte>): SdIp4
    requires |block| >= 3
  {
    if block[2] == OPT_IP4_ENDPOINT && |block| >= IP4_OPTION_SIZE
    then SdIp4(block[2], block[4..8], block[9], Be16(block[10..12])) else NO_OPTION
  }

  /** The slots of the first `n` blocks, up to the first one that does not fit. */
  function Slots(area: seq<byte>, n: nat): (t: seq<SdIp4>)
    ensures |t| <= n
    decreases n
  {
    if n == 0 || |area| < 3 || BlockSize(area) > |area| then []
    else [SlotAt(area[..BlockSize(area)])] + Slots(area[BlockSize(area)..], n - 1)
  }

  function Padded(t: seq<SdIp4>): (p: seq<SdIp4>)
    requires |t| <= SD_MAX_OPTIONS
    ensures |p| == SD_MAX_OPTIONS
  {
    t + seq(SD_MAX_OPTIONS - |t|, _ => NO_OPTION)
  }

  /** One more than the index of the last filled slot. */
  function LastFilled(t: seq<SdIp4>): (n: nat)
    ensures n <= |t|
  {
    if t == [] then 0
    else if t[|t| - 1].kind == OPT_IP4_ENDPOINT then |t|
    else LastFilled(t[..|t| - 1])
  }

  function ParsedTables(b: seq<byte>): Tables
    requires Accepts(b)
  {
    var slots := Slots(OptionArea(b), SD_MAX_OPTIONS);
    Tables(b[16], Be16(b[10..12]), EntriesLength(b) / ENTRY_SIZE,
           EntryTable(EntryArea(b), SD_MAX_ENTRIES), LastFilled(slots), Padded(slots))
  }

  // ---- the struct and the code ----

  class SdParsed {
    var flags: byte
    var sessionId: u16
    var entryCount: nat
    const entries: array<SdEntry>
    var optionCount: nat
    const options: array<SdIp4>

    ghost predicate Shape() {
      entries.Length == SD_MAX_ENTRIES && options.Length == SD_MAX_OPTIONS
    }

    ghost function View(): Tables
      reads this, entries, options
    {
      Tables(flags, sessionId, entryCount, entries[..], optionCount, options[..])
    }

    constructor ()
      ensures Shape() && fresh(entries) && fresh(options)
    {
      flags, sessionId, entryCount, optionCount := 0, 0, 0, 0;
      entries := new SdEntry[SD_MAX_ENTRIES](_ => NO_ENTRY);
      options := new SdIp4[SD_MAX_OPTIONS](_ => NO_OPTION);
    }

    /** memset(out, 0, sizeof(*out)) */
    method Zero()
      requires Shape()
      modifies this, entries, options
      ensures View() == ZEROED
    {
      flags, sessionId, entryCount, optionCount := 0, 0, 0, 0;
      entries[0], entries[1], entries[2], entries[3] := NO_ENTRY, NO_ENTRY, NO_ENTRY, NO_ENTRY;
      options[0], options[1], options[2], options[3] := NO_OPTION, NO_OPTION, NO_OPTION, NO_OPTION;
    }

    /** The entry loop, 16 bytes of the entry area a turn. */
    method FillEntries(area: seq<byte>)
      requires Shape() && |area| % ENTRY_SIZE == 0 && |area| / ENTRY_SIZE <= SD_MAX_ENTRIES
      requires entries[..] == ZEROED.entries
      modifies entries
      ensures entries[..] == EntryTable(area, SD_MAX_ENTRIES)
    {
      hide EntryAt, EntryTable;
      var off: nat := 0;
      while off < |area|
        invariant off <= |area| && off % ENTRY_SIZE == 0
        invariant forall k :: 0 <= k < off / ENTRY_SIZE ==> entries[k] == EntryAt(area[ENTRY_SIZE * k..ENTRY_SIZE * k + ENTRY_SIZE])
        invariant forall k :: off / ENTRY_SIZE <= k < SD_MAX_ENTRIES ==> entries[k] == NO_ENTRY
      {
        assert off == ENTRY_SIZE * (off / ENTRY_SIZE);
        entries[off / ENTRY_SIZE] := EntryAt(area[off..off + ENTRY_SIZE]);
        off := off + ENTRY_SIZE;
      }
      EntryTableAt(area, SD_MAX_ENTRIES, entries[..]);
    }

    /** The option table holds exactly these slots, and the count is one past the last filled one. */
    ghost predicate Holds(done: seq<SdIp4>)
      requires |done| <= SD_MAX_OPTIONS
      reads this, options
    {
      options[..] == Padded(done) && optionCount == LastFilled(done)
    }

    /** The body of the option loop for one block that fits: `done` are the slots before it. */
    method StoreSlot(i: nat, o: seq<byte>, ghost done: seq<SdIp4>)
      requires Shape() && i < SD_MAX_OPTIONS && |done| == i && |o| >= 3 && Holds(done)
      modifies this`optionCount, options
      ensures Holds(done + [SlotAt(o)])
    {
      hide Be16;
      assert (done + [SlotAt(o)])[..i] == done;
      if o[2] == OPT_IP4_ENDPOINT && |o| >= IP4_OPTION_SIZE {
        options[i] := SdIp4(o[2], o[4..8], o[9], Be16(o[10..12]));
        optionCount := i + 1;
      }
      assert options[..] == Padded(done + [SlotAt(o)]);
    }

    /**
     * The option loop over the option area. `optOff` is a uint32_t; it stays below 4 * 65538,
     * so its sum with 3 never wraps around, however long the packet.
     */
    method FillOptions(area: seq<byte>)
      requires Shape() && |area| < 0x1_0000_0000 && Holds([])
      modifies this`optionCount, options
      ensures Holds(Slots(area, SD_MAX_OPTIONS))
    {
      hide SlotAt, Slots, Padded, LastFilled, Holds, Be16;
      ghost var done: seq<SdIp4> := [];
      var optOff: nat, i: nat := 0, 0;
      assert area[0..] == area && [] + Slots(area, SD_MAX_OPTIONS) == Slots(area, SD_MAX_OPTIONS);
      while i < SD_MAX_OPTIONS && (optOff + 3) % 0x1_0000_0000 <= |area|
        invariant i <= SD_MAX_OPTIONS && optOff <= i * 65538 && optOff <= |area|
        invariant |done| == i && Slots(area, SD_MAX_OPTIONS) == done + Slots(area[optOff..], SD_MAX_OPTIONS - i)
        invariant Holds(done)
        decreases SD_MAX_OPTIONS - i
      {
        BlockAt(area, optOff);
        var block := 3 + Be16(area[optOff..optOff + 2]);
        if block > |area| - optOff {
          break;
        }
        SlotsNext(done, area[optOff..], SD_MAX_OPTIONS - i);
        StoreSlot(i, area[optOff..optOff + block], done);
        done := done + [SlotAt(area[optOff..optOff + block])];
        optOff := optOff + block;
        i := i + 1;
      }
      SlotsEnd(area[optOff..], SD_MAX_OPTIONS - i);
      assert done + [] == done;
    }

    /** The rest of the parser, once the lengths are known to fit. */
    method FillTables(b: seq<byte>, entriesLength: nat, optionsLength: nat)
      requires Shape() && View() == ZEROED && Accepts(b)
      requires entriesLength == EntriesLength(b) && optionsLength == |OptionArea(b)|
      modifies this, entries, options
      ensures View() == ParsedTables(b)
    {
      hide Slots, EntryTable, LastFilled, Be16, Be32;
      flags := b[16];
      sessionId := Be16(b[10..12]);
      entryCount := entriesLength / ENTRY_SIZE;
      FillEntries(b[24..24 + entriesLength]);
      NothingFilled();
      assert Holds([]);
      FillOptions(b[28 + entriesLength..28 + entriesLength + optionsLength]);
    }
  }

  lemma NothingFilled()
    ensures Padded([]) == ZEROED.options && LastFilled([]) == 0
  {
  }

  /** What the option loop reads at an offset is what stands at the head of the rest. */
  lemma BlockAt(area: seq<byte>, at: nat)
    requires at + 3 <= |area|
    ensures BlockSize(area[at..]) == 3 + Be16(area[at..at + 2])
    ensures forall n :: at + n <= |area| && 0 <= n ==> area[at..][..n] == area[at..at + n] && area[at..][n..] == area[at + n..]
  {
    hide Be16;
    assert area[at..][..2] == area[at..at + 2];
  }

  lemma {:induction false} SlotsEnd(rest: seq<byte>, n: nat)
    requires n == 0 || |rest| < 3 || BlockSize(rest) > |rest|
    ensures Slots(rest, n) == []
  {
  }

  lemma {:induction false} EntryTableAt(area: seq<byte>, n: nat, t: seq<SdEntry>)
    requires |area| % ENTRY_SIZE == 0 && |area| / ENTRY_SIZE <= n == |t|
    requires forall k :: 0 <= k < |area| / ENTRY_SIZE ==> t[k] == EntryAt(area[ENTRY_SIZE * k..ENTRY_SIZE * k + ENTRY_SIZE])
    requires forall k :: |area| / ENTRY_SIZE <= k < n ==> t[k] == NO_ENTRY
    ensures t == EntryTable(area, n)
    decreases n
  {
    if n > 0 {
      hide EntryAt;
      var rest := if area == [] then [] else area[ENTRY_SIZE..];
      forall k | 0 <= k < |rest| / ENTRY_SIZE
        ensures t[1..][k] == EntryAt(rest[ENTRY_SIZE * k..ENTRY_SIZE * k + ENTRY_SIZE])
      {
        assert rest[ENTRY_SIZE * k..ENTRY_SIZE * k + ENTRY_SIZE]
            == area[ENTRY_SIZE * (k + 1)..ENTRY_SIZE * (k + 1) + ENTRY_SIZE];
      }
      EntryTableAt(rest, n - 1, t[1..]);
      if area != [] {
        assert t[0] == EntryAt(area[ENTRY_SIZE * 0..ENTRY_SIZE * 0 + ENTRY_SIZE]);
      }
      assert t == [t[0]] + t[1..];
    }
  }

  lemma SlotsNext(done: seq<SdIp4>, rest: seq<byte>, n: nat)
    requires 0 < n && |rest| >= 3 && BlockSize(rest) <= |rest|
    ensures done + Slots(rest, n) == (done + [SlotAt(rest[..BlockSize(rest)])]) + Slots(rest[BlockSize(rest)..], n - 1)
  {
  }

  /**
   * sd_parse: the return code, and the whole output structure, for every packet of every
   * length. All reads are in bounds. `buf` is the const buffer up to its length, None for a
   * null pointer.
   */
  method SdParse(buf: Option<seq<byte>>, out: SdParsed?) returns (rc: int)
    requires out != null ==> out.Shape()
    modifies out, if out == null then {} else {out.entries}, if out == null then {} else {out.options}
    ensures rc == if buf.Some? && out != null && Accepts(buf.value) then 0 else -1
    ensures out != null && buf.Some? ==>
              out.View() == if rc == 0 then ParsedTables(buf.value) else ZEROED
    ensures out != null && buf == None ==> out.View() == old(out.View())
  {
    if buf == None || out == null {
      return -1;
    }
    hide ParsedTables, Be16, Be32;
    out.Zero();
    var b := buf.value;
    var len := |b|;
    if len < 24 + 4 {
      return -1;
    }
    if Be16(b[0..2]) != SD_SERVICE_ID || Be16(b[2..4]) != SD_METHOD_ID {
      return -1;
    }
    var entriesLength := Be32(b[20..24]);
    if entriesLength % ENTRY_SIZE != 0 || entriesLength / ENTRY_SIZE > SD_MAX_ENTRIES {
      return -1;
    }
    if 24 + entriesLength + 4 > len {
      return -1;
    }
    var optionsLength := Be32(b[24 + entriesLength..28 + entriesLength]);
    if optionsLength > len - (24 + entriesLength + 4) {
      return -1;
    }
    out.FillTables(b, entriesLength, optionsLength);
    return 0;
  }
}
