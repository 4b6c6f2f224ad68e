/** The CAN-FD frames of MCU/src/can_gateway.cpp: layout, E2E checksum, alive counter. */
module CanGateway {
  import opened Crc

  const CAN_ID: int := 0x18FF01F4
  const WARNING_LEVEL: bv8 := 0xFF

  /** A CAN frame with its flags: 29-bit identifier, CAN-FD format, bit rate switch. */
  datatype CanFrame = CanFrame(id: int, extended: bool, fd: bool, brs: bool, dlc: nat, data: seq<bv8>)

  /** One call of can_send: the frame, and how long the caller may be blocked. */
  datatype Attempt = Attempt(frame: CanFrame, timeoutMs: int)

  // ---- the checked part of a frame: a message and its checksum byte ----

  /** What a receiver recomputes: the last byte is the checksum of the ones before it. */
  predicate Intact(word: seq<bv8>)
    requires word != []
  {
    word[|word| - 1] == Crc8(word[..|word| - 1])
  }

  /** Running the register over the checksum byte too leaves a constant residue. */
  lemma {:induction false} Residue(word: seq<bv8>)
    requires word != []
    ensures Intact(word) <==> Register(ONES, word) == Shifts(ONES, 8)
  {
    hide Register, Shifts;
    var n := |word| - 1;
    var r, c := Register(ONES, word[..n]), word[n];
    assert word == word[..n] + [c];
    RegisterConcat(ONES, word[..n], [c]);
    RegisterSmall(r, c, c);
    if Shifts(Sum(r, c), 8) == Shifts(ONES, 8) {
      ShiftsInjective(Sum(r, c), ONES, 8);
    }
    ChecksumByte(r, c);
  }

  lemma ChecksumByte(r: bv8, c: bv8)
    ensures c == r ^ ONES <==> Sum(r, c) == ONES
  {
  }

  /** Exactly which corruptions of an intact word pass the check: those whose pattern has syndrome zero. */
  lemma PassesIff(word: seq<bv8>, received: seq<bv8>)
    requires word != [] && |word| == |received| && Intact(word)
    ensures Intact(received) <==> Syndrome(Xor(received, word)) == 0
  {
    hide Intact, Register, Crc8;
    Residue(word);
    Residue(received);
    CollideIff(received, word);
    SameRegister(received, word);
  }

  lemma {:induction false} SameRegister(x: seq<bv8>, y: seq<bv8>)
    ensures Crc8(x) == Crc8(y) <==> Register(ONES, x) == Register(ONES, y)
  {
    hide Register;
    XorOnes(Register(ONES, x), Register(ONES, y));
  }

  lemma XorOnes(a: bv8, b: bv8)
    ensures a ^ ONES == b ^ ONES <==> a == b
  {
  }

  /** Any one- or two-bit corruption of an intact word of up to 31 bytes, checksum included, fails the check. */
  lemma CorruptionCaught(word: seq<bv8>, p: nat, q: nat)
    requires word != [] && |word| <= 31 && Intact(word) && q < p < 8 * |word|
    ensures !Intact(Flip(word, p)) && !Intact(Flip(word, q)) && !Intact(Flip(Flip(word, p), q))
  {
    hide Intact, BitError, Xor, Syndrome;
    PassesIff(word, Flip(word, p));
    PassesIff(word, Flip(word, q));
    PassesIff(word, Flip(Flip(word, p), q));
    FlipsDifference(word, p, q);
    FlipsDifference(word, q, q);
    SingleBit(word, p);
    SingleBit(word, q);
    TwoBitSyndrome(|word|, p, q);
  }

  // ---- frames ----

  /** The eight data bytes of a frame. */
  function FrameData(level: bv8, alive: bv8): (d: seq<bv8>)
    ensures |d| == 8 && d[..6] == [0x55, 0xAA, 0x01, level, 0x00, 0x00] && d[7] == alive && Intact(d[..7])
  {
    var head := [0x55, 0xAA, 0x01, level, 0x00, 0x00];
    var d := head + [Crc8(head), alive];
    assert d[..7][..6] == head;
    d
  }

  /** A receiver's check of a whole frame. It cannot see byte 7: the alive counter is outside the checksum. */
  predicate Accepted(data: seq<bv8>)
    requires |data| == 8
  {
    Intact(data[..7])
  }

  /** Every sent frame passes, every one- or two-bit corruption of bytes 0 to 6 is caught, every change of byte 7 is not. */
  lemma FrameProtection(level: bv8, alive: bv8, p: nat, q: nat, other: bv8)
    requires q < p < 56
    ensures var d := FrameData(level, alive);
            && Accepted(d) && Accepted(d[7 := other])
            && !Accepted(Flip(d[..7], p) + [alive]) && !Accepted(Flip(d[..7], q) + [alive])
            && !Accepted(Flip(Flip(d[..7], p), q) + [alive])
  {
    hide Intact, Flip;
    var d := FrameData(level, alive);
    assert d[7 := other][..7] == d[..7];
    assert (Flip(d[..7], p) + [alive])[..7] == Flip(d[..7], p);
    assert (Flip(d[..7], q) + [alive])[..7] == Flip(d[..7], q);
    assert (Flip(Flip(d[..7], p), q) + [alive])[..7] == Flip(Flip(d[..7], p), q);
    CorruptionCaught(d[..7], p, q);
  }

  /** The 8-bit alive counter after `n` frames. */
  function Alive(n: nat): bv8 {
    if n == 0 then 0 else Alive(n - 1) + 1
  }

  /** The counter is the frame number modulo 256. */
  lemma {:induction false} AliveModulo(n: nat)
    ensures Alive(n) as nat == n % 256
    decreases n
  {
    assert Alive(0) == 0;
    hide Alive;
    if n > 0 {
      AliveModulo(n - 1);
      AliveNext(n - 1);
      Increment(Alive(n - 1));
      ModuloNext(n - 1);
    }
  }

  lemma AliveNext(n: nat)
    ensures Alive(n + 1) == Alive(n) + 1
  {
  }

  lemma ModuloNext(n: nat)
    ensures (n % 256 + 1) % 256 == (n + 1) % 256
  {
  }

  lemma Increment(c: bv8)
    ensures (c + 1) as nat == (c as nat + 1) % 256
  {
  }

  /** The data array of a frame, filled byte by byte. */
  method FillData(level: bv8, alive: bv8) returns (data: array<bv8>)
    ensures fresh(data) && data[..] == FrameData(level, alive)
  {
    hide Crc8, Intact;
    data := new bv8[8](_ => 0);
    data[0] := 0x55;
    data[1] := 0xAA;
    data[2] := 0x01;
    data[3] := level;
    data[4] := 0x00;
    data[5] := 0x00;
    assert data[..6] == [0x55, 0xAA, 0x01, level, 0x00, 0x00];
    data[6] := ComputeCrc8(data[..6]);
    data[7] := alive;
  }

  /** The frame of a level: identifier 0x18FF01F4, all three flags, eight bytes. */
  function FrameOf(level: bv8, alive: bv8): (f: CanFrame)
    ensures f.id == 0x18FF01F4 && f.extended && f.fd && f.brs && f.dlc == 8 == |f.data|
    ensures f.data[3] == level && f.data[7] == alive && Accepted(f.data)
  {
    CanFrame(CAN_ID, true, true, true, 8, FrameData(level, alive))
  }

  class Gateway {
    var aliveCounter: bv8
    /** Every frame handed to can_send, in order, whether or not the driver took it. */
    var attempts: seq<Attempt>

    /** The n-th frame ever attempted carries the counter n - 1, and is correctly sealed. */
    ghost predicate Valid()
      reads this
    {
      && aliveCounter == Alive(|attempts|)
      && forall i :: 0 <= i < |attempts| ==>
           var frame := attempts[i].frame; |frame.data| == 8 && frame == FrameOf(frame.data[3], Alive(i))
    }

    constructor ()
      ensures Valid() && attempts == []
    {
      aliveCounter, attempts := 0, [];
    }

    /** can_send_frame. `driverResult` is what can_send returns; the counter has advanced even when it fails. */
    method SendFrame(level: bv8, timeoutMs: int, driverResult: int) returns (ret: int)
      requires Valid()
      modifies this
      ensures Valid() && ret == driverResult
      ensures attempts == old(attempts) + [Attempt(FrameOf(level, old(aliveCounter)), timeoutMs)]
    {
      hide Accepted, Intact, Alive, FrameData;
      AliveNext(|attempts|);
      var data := FillData(level, aliveCounter);
      var frame := CanFrame(CAN_ID, true, true, true, 8, data[..]);
      assert frame == FrameOf(level, aliveCounter);
      assert |frame.data| == 8 && frame.data[3] == level;
      aliveCounter := aliveCounter + 1;
      attempts := attempts + [Attempt(frame, timeoutMs)];
      ret := driverResult;
    }

    method SendDrowsiness(level: bv8, driverResult: int) returns (ret: int)
      requires Valid()
      modifies this
      ensures Valid() && ret == driverResult
      ensures attempts == old(attempts) + [Attempt(FrameOf(level, old(aliveCounter)), 100)]
    {
      ret := SendFrame(level, 100, driverResult);
    }

    /** Called from the timer callback: it may block for 5 ms only, and its level is 255. */
    method SendWarning(driverResult: int) returns (ret: int)
      requires Valid()
      modifies this
      ensures Valid() && ret == driverResult
      ensures attempts == old(attempts) + [Attempt(FrameOf(255, old(aliveCounter)), 5)]
    {
      ret := SendFrame(WARNING_LEVEL, 5, driverResult);
    }
  }
}
