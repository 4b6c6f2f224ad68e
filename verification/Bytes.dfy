/** Bytes, options and the big-endian integers both sides of the link agree on. */
module Bytes {

  type byte = x: int | 0 <= x < 0x100
  type u16 = x: int | 0 <= x < 0x1_0000
  type u24 = x: int | 0 <= x < 0x100_0000
  type u32 = x: int | 0 <= x < 0x1_0000_0000

  datatype Option<+T> = None | Some(value: T) {
    /** The list holding the value, or nothing. */
    function ToSeq(): seq<T> {
      if Some? then [value] else []
    }
  }

  // ---- struct.pack: big-endian, fixed width ----

  function Pack16(v: u16): (s: seq<byte>)
    ensures |s| == 2
  {
    [v / 0x100, v % 0x100]
  }

  function Pack24(v: u24): (s: seq<byte>)
    ensures |s| == 3
  {
    [v / 0x1_0000, v / 0x100 % 0x100, v % 0x100]
  }

  function Pack32(v: u32): (s: seq<byte>)
    ensures |s| == 4
  {
    [v / 0x100_0000, v / 0x1_0000 % 0x100, v / 0x100 % 0x100, v % 0x100]
  }

  // ---- fixed-width reads (get_u16 / get_u32 and struct.unpack) ----

  /** (hi << 8) | lo */
  function Join(hi: nat, lo: nat): nat {
    hi * 0x100 + lo
  }

  function Be16(s: seq<byte>): (v: u16)
    requires |s| == 2
  {
    Join(s[0], s[1])
  }

  function Be24(s: seq<byte>): (v: u24)
    requires |s| == 3
  {
    Join(Join(s[0], s[1]), s[2])
  }

  function Be32(s: seq<byte>): (v: u32)
    requires |s| == 4
  {
    Join(Join(Join(s[0], s[1]), s[2]), s[3])
  }

  /** Python's int.from_bytes(s, "big"): any length, the empty string included. */
  function FromBytes(s: seq<byte>): nat {
    if s == [] then 0 else Join(FromBytes(s[..|s| - 1]), s[|s| - 1])
  }

  /** Python's s[lo:hi]: out-of-range bounds are clipped, never an error. */
  function Slice<T>(s: seq<T>, lo: nat, hi: nat): seq<T>
    requires lo <= hi
  {
    var n := |s|;
    s[if lo < n then lo else n..if hi < n then hi else n]
  }

  // The numbers at an offset, most significant byte first.

  function Half(p: seq<byte>, at: nat): u16
    requires at + 2 <= |p|
  {
    var b0: int := p[at];
    b0 * 0x100 + p[at + 1]
  }

  function Triple(p: seq<byte>, at: nat): u24
    requires at + 3 <= |p|
  {
    var b0: int, b1: int := p[at], p[at + 1];
    b0 * 0x1_0000 + b1 * 0x100 + p[at + 2]
  }

  function Word(p: seq<byte>, at: nat): u32
    requires at + 4 <= |p|
  {
    var b0: int, b1: int, b2: int := p[at], p[at + 1], p[at + 2];
    b0 * 0x100_0000 + b1 * 0x1_0000 + b2 * 0x100 + p[at + 3]
  }

  lemma HalfAt(p: seq<byte>, at: nat)
    requires at + 2 <= |p|
    ensures Be16(p[at..at + 2]) == Half(p, at)
  {
  }

  lemma TripleAt(p: seq<byte>, at: nat)
    requires at + 3 <= |p|
    ensures Be24(p[at..at + 3]) == Triple(p, at)
  {
  }

  lemma WordAt(p: seq<byte>, at: nat)
    requires at + 4 <= |p|
    ensures Be32(p[at..at + 4]) == Word(p, at)
  {
  }

  // Packing and the fixed-width reads are inverse on every representable value.

  lemma RoundTrip16(v: u16)
    ensures Be16(Pack16(v)) == v
  {
    DigitsRoundTrip(v);
  }

  lemma RoundTrip24(v: u24)
    ensures Be24(Pack24(v)) == v
  {
    DigitsRoundTrip(v);
  }

  lemma RoundTrip32(v: u32)
    ensures Be32(Pack32(v)) == v
  {
    DigitsRoundTrip(v);
  }

  lemma DigitsRoundTrip(v: nat)
    ensures Join(v / 0x100, v % 0x100) == v
    ensures Join(v / 0x1_0000, v / 0x100 % 0x100) == v / 0x100
    ensures Join(v / 0x100_0000, v / 0x1_0000 % 0x100) == v / 0x1_0000
  {
    assert v / 0x1_0000 == (v / 0x100) / 0x100;
    assert v / 0x100_0000 == (v / 0x1_0000) / 0x100;
  }

  /** int.from_bytes agrees with the fixed-width reads. */
  lemma {:induction false} FromBytesWidths(a: seq<byte>, b: seq<byte>, c: seq<byte>)
    requires |a| == 2 && |b| == 3 && |c| == 4
    ensures FromBytes(a) == Be16(a) && FromBytes(b) == Be24(b) && FromBytes(c) == Be32(c)
  {
    forall s: seq<byte> | |s| == 1 ensures FromBytes(s) == s[0] {
      assert s[..0] == [];
    }
    forall s: seq<byte> | |s| == 2 ensures FromBytes(s) == Be16(s) {
      assert s[..1][0] == s[0];
    }
    forall s: seq<byte> | |s| == 3 ensures FromBytes(s) == Be24(s) {
      assert FromBytes(s[..2]) == Be16(s[..2]);
    }
    assert FromBytes(c[..3]) == Be24(c[..3]);
  }
}
