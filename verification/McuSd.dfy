/** The MCU's SOME/IP-SD code, MCU/src/someip_sd.cpp: builders into a caller's buffer, and the parser. */
module McuSd {
  import opened Bytes
  import opened SdMessages

  const SD_MAX_ENTRIES: nat := 4
  const SD_MAX_OPTIONS: nat := 4
  const FIND_LENGTH: nat := 44
  const SUBSCRIBE_LENGTH: nat := 56

  // ---- writing into a buffer ----

  /** The buffer contents after writing `b` at `off`. */
  function Overwrite(s: seq<byte>, off: nat, b: seq<byte>): (r: seq<byte>)
    requires off + |b| <= |s|
    ensures |r| == |s|
  {
    s[..off] + b + s[off + |b|..]
  }

  lemma OverwriteNext(s: seq<byte>, off: nat, a: seq<byte>, b: seq<byte>)
    requires off + |a| + |b| <= |s|
    ensures Overwrite(Overwrite(s, off, a), off + |a|, b) == Overwrite(s, off, a + b)
  {
  }

  // Each put_* continues a run of writes: `s` is the buffer before the run, `h` what the run has
  // written so far, ending at `off`. The result is the longer run.

  method PutU8(p: array<byte>, off: nat, v: byte, ghost s: seq<byte>, ghost h: seq<byte>) returns (ghost w: seq<byte>)
    requires off + 1 <= p.Length == |s| && |h| <= off && p[..] == Overwrite(s, off - |h|, h)
    modifies p
    ensures w == h + [v] && p[..] == Overwrite(s, off - |h|, w)
  {
    p[off] := v;
    OverwriteNext(s, off - |h|, h, [v]);
    w := h + [v];
  }

  method PutU16(p: array<byte>, off: nat, v: u16, ghost s: seq<byte>, ghost h: seq<byte>) returns (ghost w: seq<byte>)
    requires off + 2 <= p.Length == |s| && |h| <= off && p[..] == Overwrite(s, off - |h|, h)
    modifies p
    ensures w == h + Pack16(v) && p[..] == Overwrite(s, off - |h|, w)
  {
    p[off] := v / 0x100;
    p[off + 1] := v % 0x100;
    OverwriteNext(s, off - |h|, h, Pack16(v));
    w := h + Pack16(v);
  }

  method PutU32(p: array<byte>, off: nat, v: u32, ghost s: seq<byte>, ghost h: seq<byte>) returns (ghost w: seq<byte>)
    requires off + 4 <= p.Length == |s| && |h| <= off && p[..] == Overwrite(s, off - |h|, h)
    modifies p
    ensures w == h + Pack32(v) && p[..] == Overwrite(s, off - |h|, w)
  {
    p[off] := v / 0x100_0000;
    p[off + 1] := v / 0x1_0000 % 0x100;
    p[off + 2] := v / 0x100 % 0x100;
    p[off + 3] := v % 0x100;
    OverwriteNext(s, off - |h|, h, Pack32(v));
    w := h + Pack32(v);
  }

  method PutBytes(p: array<byte>, off: nat, v: seq<byte>, ghost s: seq<byte>, ghost h: seq<byte>) returns (ghost w: seq<byte>)
    requires off + |v| <= p.Length == |s| && |h| <= off && p[..] == Overwrite(s, off - |h|, h)
    modifies p
    ensures w == h + v && p[..] == Overwrite(s, off - |h|, w)
  {
    hide Overwrite;
    w := h;
    assert h + v[..0] == h;
    for i := 0 to |v|
      invariant w == h + v[..i] && p[..] == Overwrite(s, off - |h|, w)
    {
      w := PutU8(p, off + i, v[i], s, w);
    }
    assert v[..|v|] == v;
  }

  method PutSomeipHeader(p: array<byte>, length: u32, session: u16, ghost s: seq<byte>) returns (ghost h: seq<byte>)
    requires 16 <= p.Length && p[..] == s
    modifies p
    ensures h == SomeipHeader(length, session) && p[..] == Overwrite(s, 0, h)
  {
    assert p[..] == Overwrite(s, 0, []);
    hide Overwrite, Pack16, Pack32;
    h := PutU16(p, 0, SD_SERVICE_ID, s, []);
    h := PutU16(p, 2, SD_METHOD_ID, s, h);
    h := PutU32(p, 4, length, s, h);
    h := PutU16(p, 8, 0, s, h);
    h := PutU16(p, 10, session, s, h);
    h := PutBytes(p, 12, [0x01, 0x01, SD_MESSAGE_TYPE, 0x00], s, h);
    assert h == SomeipHeader(length, session);
  }

  /** The 16 bytes put_entry writes: index and option counts are always zero. */
  function EntryBytes(kind: byte, serviceId: u16, instanceId: u16, major: byte, ttl: u24, eventgroupId: u16): (e: seq<byte>)
    ensures |e| == ENTRY_SIZE
  {
    [kind, 0, 0, 0] + Pack16(serviceId) + Pack16(instanceId) + [major] + Pack24(ttl)
    + if kind == ENTRY_SUBSCRIBE_EVENTGROUP || kind == ENTRY_SUBSCRIBE_EVENTGROUP_ACK
      then Pack16(0) + Pack16(eventgroupId) else Pack32(0)
  }

  method PutEntry(
      p: array<byte>, off: nat, kind: byte, serviceId: u16, instanceId: u16, major: byte, ttl: u24, eventgroupId: u16,
      ghost s: seq<byte>, ghost h: seq<byte>) returns (ghost w: seq<byte>)
    requires off + ENTRY_SIZE <= p.Length == |s| && |h| <= off && p[..] == Overwrite(s, off - |h|, h)
    modifies p
    ensures w == h + EntryBytes(kind, serviceId, instanceId, major, ttl, eventgroupId)
    ensures p[..] == Overwrite(s, off - |h|, w)
  {
    hide Overwrite, Pack16, Pack24, Pack32;
    w := PutBytes(p, off, [kind, 0, 0, 0], s, h);
    w := PutU16(p, off + 4, serviceId, s, w);
    w := PutU16(p, off + 6, instanceId, s, w);
    w := PutU8(p, off + 8, major, s, w);
    w := PutBytes(p, off + 9, Pack24(ttl), s, w);
    if kind == ENTRY_SUBSCRIBE_EVENTGROUP || kind == ENTRY_SUBSCRIBE_EVENTGROUP_ACK {
      w := PutU16(p, off + 12, 0, s, w);
      w := PutU16(p, off + 14, eventgroupId, s, w);
    } else {
      w := PutU32(p, off + 12, 0, s, w);
    }
    assert w == h + EntryBytes(kind, serviceId, instanceId, major, ttl, eventgroupId);
  }

  method PutIp4Option(
      p: array<byte>, off: nat, ip: seq<byte>, port: u16, l4Proto: byte,
      ghost s: seq<byte>, ghost h: seq<byte>) returns (ghost w: seq<byte>)
    requires |ip| == 4
    requires off + IP4_OPTION_SIZE <= p.Length == |s| && |h| <= off && p[..] == Overwrite(s, off - |h|, h)
    modifies p
    ensures w == h + BuildEndpointOption(EndpointArgs(ip, port, l4Proto))
    ensures p[..] == Overwrite(s, off - |h|, w)
  {
    hide Overwrite, Pack16;
    w := PutU16(p, off, 9, s, h);
    w := PutBytes(p, off + 2, [OPT_IP4_ENDPOINT, 0], s, w);
    w := PutBytes(p, off + 4, ip, s, w);
    w := PutBytes(p, off + 8, [0, l4Proto], s, w);
    w := PutU16(p, off + 10, port, s, w);
    assert w == h + BuildEndpointOption(EndpointArgs(ip, port, l4Proto));
  }

  /** The 24 bytes before the entries: SOME/IP header, unicast flag, entries length for one entry. */
  function Preamble(length: u32, session: u16): (h: seq<byte>)
    ensures |h| == 24
  {
    SomeipHeader(length, session) + [FLAG_UNICAST, 0, 0, 0] + Pack32(ENTRY_SIZE)
  }

  method PutPreamble(p: array<byte>, length: u32, session: u16, ghost s: seq<byte>) returns (ghost h: seq<byte>)
    requires 24 <= p.Length && p[..] == s
    modifies p
    ensures h == Preamble(length, session) && p[..] == Overwrite(s, 0, h)
  {
    hide Overwrite, SomeipHeader, Pack32;
    h := PutSomeipHeader(p, length, session, s);
    h := PutBytes(p, 16, [FLAG_UNICAST, 0, 0, 0], s, h);
    h := PutU32(p, 20, ENTRY_SIZE, s, h);
    assert h == Preamble(length, session);
  }

  // The bytes written and the Python builders' bytes are the same.

  lemma FindBytes(serviceId: u16, instanceId: u16, session: u16)
    ensures Preamble(36, session)
            + EntryBytes(ENTRY_FIND_SERVICE, serviceId, instanceId, 1, TTL_DEFAULT, 0) + Pack32(0)
         == BuildFindService(serviceId, instanceId, session)
  {
    hide Pack16, Pack24, Pack32, SomeipHeader;
    assert EntryBytes(ENTRY_FIND_SERVICE, serviceId, instanceId, 1, TTL_DEFAULT, 0)
        == BuildEntry(ServiceArgs(ENTRY_FIND_SERVICE, serviceId, instanceId, TTL_DEFAULT, 1, 0, 0, 0, 0, 0));
  }

  lemma SubscribeBytes(serviceId: u16, instanceId: u16, eventgroupId: u16, ip: seq<byte>, port: u16, session: u16)
    requires |ip| == 4
    ensures Preamble(48, session)
            + EntryBytes(ENTRY_SUBSCRIBE_EVENTGROUP, serviceId, instanceId, 1, TTL_DEFAULT, eventgroupId)
            + Pack32(IP4_OPTION_SIZE) + BuildEndpointOption(EndpointArgs(ip, port, L4_UDP))
         == BuildSubscribe(serviceId, instanceId, eventgroupId, ip, port, session)
  {
    hide Pack16, Pack24, Pack32, SomeipHeader, BuildEndpointOption;
    assert EntryBytes(ENTRY_SUBSCRIBE_EVENTGROUP, serviceId, instanceId, 1, TTL_DEFAULT, eventgroupId)
        == BuildEntry(EventgroupArgs(ENTRY_SUBSCRIBE_EVENTGROUP, serviceId, instanceId, TTL_DEFAULT, 1, 0, 0, 0, 0, eventgroupId));
  }

  lemma PreambleBytes(length: byte, session: u16)
    ensures Preamble(length, session)
         == [0xFF, 0xFF, 0x81, 0x00, 0, 0, 0, length, 0, 0, session / 0x100, session % 0x100, 1, 1, 2, 0]
            + [0x40, 0, 0, 0, 0, 0, 0, 16]
  {
    assert Pack32(length) == [0, 0, 0, length] && Pack32(ENTRY_SIZE) == [0, 0, 0, 16];
    assert Pack16(SD_SERVICE_ID) == [0xFF, 0xFF] && Pack16(SD_METHOD_ID) == [0x81, 0x00];
  }

  lemma EntryOptionBytes(kind: byte, serviceId: u16, instanceId: u16, eventgroupId: u16, ip: seq<byte>, port: u16)
    requires |ip| == 4
    ensures EntryBytes(kind, serviceId, instanceId, 1, TTL_DEFAULT, eventgroupId)
         == [kind, 0, 0, 0, serviceId / 0x100, serviceId % 0x100, instanceId / 0x100, instanceId % 0x100]
            + [1, 0xFF, 0xFF, 0xFF, 0, 0]
            + if kind == ENTRY_SUBSCRIBE_EVENTGROUP || kind == ENTRY_SUBSCRIBE_EVENTGROUP_ACK
              then [eventgroupId / 0x100, eventgroupId % 0x100] else [0, 0]
    ensures BuildEndpointOption(EndpointArgs(ip, port, L4_UDP)) == [0, 9, 4, 0] + ip + [0, 0x11, port / 0x100, port % 0x100]
  {
    assert Pack24(TTL_DEFAULT) == [0xFF, 0xFF, 0xFF] && Pack32(0) == [0, 0, 0, 0] && Pack16(9) == [0, 9];
  }

  /** Both sides' FindService, byte by byte. */
  lemma FindWire(serviceId: u16, instanceId: u16, session: u16)
    ensures BuildFindService(serviceId, instanceId, session)
         == [0xFF, 0xFF, 0x81, 0x00, 0, 0, 0, 36, 0, 0, session / 0x100, session % 0x100, 1, 1, 2, 0]
            + [0x40, 0, 0, 0, 0, 0, 0, 16]
            + [0, 0, 0, 0, serviceId / 0x100, serviceId % 0x100, instanceId / 0x100, instanceId % 0x100]
            + [1, 0xFF, 0xFF, 0xFF, 0, 0, 0, 0] + [0, 0, 0, 0]
  {
    assert Pack32(0) == [0, 0, 0, 0];
    hide BuildFindService, Preamble, EntryBytes, Pack32;
    FindBytes(serviceId, instanceId, session);
    PreambleBytes(36, session);
    EntryOptionBytes(ENTRY_FIND_SERVICE, serviceId, instanceId, 0, [0, 0, 0, 0], 0);
  }

  /** Both sides' Subscribe, byte by byte. */
  lemma SubscribeWire(serviceId: u16, instanceId: u16, eventgroupId: u16, ip: seq<byte>, port: u16, session: u16)
    requires |ip| == 4
    ensures BuildSubscribe(serviceId, instanceId, eventgroupId, ip, port, session)
         == [0xFF, 0xFF, 0x81, 0x00, 0, 0, 0, 48, 0, 0, session / 0x100, session % 0x100, 1, 1, 2, 0]
            + [0x40, 0, 0, 0, 0, 0, 0, 16]
            + [6, 0, 0, 0, serviceId / 0x100, serviceId % 0x100, instanceId / 0x100, instanceId % 0x100]
            + [1, 0xFF, 0xFF, 0xFF, 0, 0, eventgroupId / 0x100, eventgroupId % 0x100]
            + [0, 0, 0, 12] + ([0, 9, 4, 0] + ip + [0, 0x11, port / 0x100, port % 0x100])
  {
    assert Pack32(IP4_OPTION_SIZE) == [0, 0, 0, 12];
    hide BuildSubscribe, Preamble, EntryBytes, BuildEndpointOption, Pack32;
    SubscribeBytes(serviceId, instanceId, eventgroupId, ip, port, session);
    PreambleBytes(48, session);
    EntryOptionBytes(ENTRY_SUBSCRIBE_EVENTGROUP, serviceId, instanceId, eventgroupId, ip, port);
    var entry := EntryBytes(ENTRY_SUBSCRIBE_EVENTGROUP, serviceId, instanceId, 1, TTL_DEFAULT, eventgroupId);
    assert entry == [6, 0, 0, 0, serviceId / 0x100, serviceId % 0x100, instanceId / 0x100, instanceId % 0x100]
                    + [1, 0xFF, 0xFF, 0xFF, 0, 0, eventgroupId / 0x100, eventgroupId % 0x100];
  }

  /**
   * sd_build_find_service writes byte for byte what Python's build_find_service returns,
   * and nothing behind it; a short or missing buffer is left alone.
   */
  method SdBuildFindService(out: array?<byte>, cap: nat, serviceId: u16, instanceId: u16, session: u16) returns (n: int)
    requires out != null ==> cap <= out.Length
    modifies out
    ensures n == if cap < FIND_LENGTH || out == null then -1 else FIND_LENGTH
    ensures out != null ==>
              out[..] == if n < 0 then old(out[..])
                         else Overwrite(old(out[..]), 0, BuildFindService(serviceId, instanceId, session))
  {
    if cap < FIND_LENGTH || out == null {
      return -1;
    }
    hide Overwrite, Preamble, EntryBytes, BuildFindService, Pack32;
    ghost var s := out[..];
    ghost var h := PutPreamble(out, 20 + ENTRY_SIZE, session, s);
    h := PutEntry(out, 24, ENTRY_FIND_SERVICE, serviceId, instanceId, 1, TTL_DEFAULT, 0, s, h);
    h := PutU32(out, 40, 0, s, h);
    FindBytes(serviceId, instanceId, session);
    return FIND_LENGTH;
  }

  /** The same for sd_build_subscribe_eventgroup and Python's build_subscribe_eventgroup. `ip` is None for a null pointer. */
  method SdBuildSubscribe(
      out: array?<byte>, cap: nat, serviceId: u16, instanceId: u16, eventgroupId: u16,
      ip: Option<seq<byte>>, port: u16, session: u16) returns (n: int)
    requires out != null ==> cap <= out.Length
    requires ip.Some? ==> |ip.value| == 4
    modifies out
    ensures n == if cap < SUBSCRIBE_LENGTH || out == null || ip == None then -1 else SUBSCRIBE_LENGTH
    ensures out != null ==>
              out[..] == if n < 0 then old(out[..])
                         else Overwrite(old(out[..]), 0, BuildSubscribe(serviceId, instanceId, eventgroupId, ip.value, port, session))
  {
    if cap < SUBSCRIBE_LENGTH || out == null || ip == None {
      return -1;
    }
    hide Overwrite, Preamble, EntryBytes, BuildSubscribe, Pack32;
    ghost var s := out[..];
    ghost var h := PutPreamble(out, 20 + ENTRY_SIZE + IP4_OPTION_SIZE, session, s);
    h := PutEntry(out, 24, ENTRY_SUBSCRIBE_EVENTGROUP, serviceId, instanceId, 1, TTL_DEFAULT, eventgroupId, s, h);
    h := PutU32(out, 40, IP4_OPTION_SIZE, s, h);
    h := PutIp4Option(out, 44, ip.value, port, L4_UDP, s, h);
    SubscribeBytes(serviceId, instanceId, eventgroupId, ip.value, port, session);
    return SUBSCRIBE_LENGTH;
  }
}
