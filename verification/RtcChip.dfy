/** The clock chip as the bus sees it, and the decimal coding of its time registers. */
module RtcChip {
  import opened Words
  import opened TwiDriver
  import opened TwiBus

  const RTC_ADDRESS := 0x6f
  const REGISTERS := 256

  /** A register file with an address pointer that the first byte of a write sets and that every
    * further byte, written or read, moves on.
    */
  datatype Chip = Chip(regs: seq<uint8>, pointer: uint8, expectPointer: bool) {
    predicate Valid() {
      |regs| == REGISTERS
    }

    function Advanced(): uint8 {
      (pointer as int + 1) % 256
    }

    function Put(b: uint8): (c: Chip)
      requires Valid()
      ensures c.Valid()
    {
      if expectPointer then Chip(regs, b, false) else Chip(regs[pointer := b], Advanced(), false)
    }

    function Taken(): (c: Chip)
      requires Valid()
      ensures c.Valid()
    {
      Chip(regs, Advanced(), expectPointer)
    }
  }

  /** The chip's side of whatever the driver's hardware is doing. */
  function Answer(chip: Chip, hw: Hw): Outcome
    requires chip.Valid() && !hw.Free?
  {
    match hw
    case Starting => Started
    case SendingAddress(b) => if b / 2 == RTC_ADDRESS then Acked else Nacked
    case SendingData(_) => Acked
    case Receiving(_) => Arrived(chip.regs[chip.pointer])
  }

  function Step(chip: Chip, hw: Hw): (c: Chip)
    requires chip.Valid() && !hw.Free?
    ensures c.Valid()
  {
    match hw
    case Starting => chip
    case SendingAddress(b) => chip.(expectPointer := b == 2 * RTC_ADDRESS)
    case SendingData(b) => chip.Put(b)
    case Receiving(_) => chip.Taken()
  }

  /** The chip after the first `n` bytes of a write. */
  function Fed(chip: Chip, bytes: seq<uint8>): (c: Chip)
    requires chip.Valid()
    ensures c.Valid()
  {
    if bytes == [] then chip.(expectPointer := true) else Fed(chip, bytes[..|bytes| - 1]).Put(bytes[|bytes| - 1])
  }

  /** The chip after `n` bytes of a read. */
  function Drained(chip: Chip, n: nat): (c: Chip)
    requires chip.Valid()
    ensures c.Valid() && c.regs == chip.regs
  {
    if n == 0 then chip.(expectPointer := false) else Drained(chip, n - 1).Taken()
  }

  /** The bytes a read of length `n` gets. */
  function Reading(chip: Chip, n: nat): (bytes: seq<uint8>)
    requires chip.Valid()
    ensures |bytes| == n
  {
    if n == 0 then [] else Reading(chip, n - 1) + [Drained(chip, n - 1).regs[Drained(chip, n - 1).pointer]]
  }

  /** The effect of a whole call on the chip. */
  function AfterCall(chip: Chip, c: Call): (r: Chip)
    requires chip.Valid()
    ensures r.Valid()
  {
    match c
    case Write(_, data, _) => Fed(chip, data)
    case Read(_, length) => Drained(chip, length)
  }

  /** A write of a register number and three bytes sets three consecutive registers. */
  lemma WriteThree(chip: Chip, bytes: seq<uint8>)
    requires chip.Valid() && |bytes| == 4 && bytes[0] <= 252
    ensures Fed(chip, bytes).regs == chip.regs[bytes[0] := bytes[1]][bytes[0] + 1 := bytes[2]][bytes[0] + 2 := bytes[3]]
  {
    FedAt(chip, bytes, 0);
    FedAt(chip, bytes, 1);
    FedAt(chip, bytes, 2);
    FedAt(chip, bytes, 3);
    assert bytes[..0] == [] && bytes[..4] == bytes;
    PutFour(chip.(expectPointer := true), bytes[0], bytes[1], bytes[2], bytes[3]);
  }

  lemma PutFour(chip: Chip, r: uint8, x: uint8, y: uint8, z: uint8)
    requires chip.Valid() && r <= 252 && chip.expectPointer
    ensures chip.Put(r).Put(x).Put(y).Put(z).regs == chip.regs[r := x][r + 1 := y][r + 2 := z]
  {
  }

  lemma FedAt(chip: Chip, bytes: seq<uint8>, k: nat)
    requires chip.Valid() && k < |bytes|
    ensures Fed(chip, bytes[..k + 1]) == Fed(chip, bytes[..k]).Put(bytes[k])
  {
    assert bytes[..k + 1][..k] == bytes[..k];
  }

  /** A write of a register number and one byte sets that register. */
  lemma WriteOne(chip: Chip, bytes: seq<uint8>)
    requires chip.Valid() && |bytes| == 2
    ensures Fed(chip, bytes).regs == chip.regs[bytes[0] := bytes[1]]
  {
    FedAt(chip, bytes, 0);
    FedAt(chip, bytes, 1);
    assert Fed(chip, bytes[..1]) == Chip(chip.regs, bytes[0], false);
    assert bytes[..2] == bytes;
  }

  /** A write of a register number alone selects it for the next read. */
  lemma SelectThenRead(chip: Chip, r: uint8)
    requires chip.Valid()
    ensures Fed(chip, [r]).regs == chip.regs
    ensures Reading(Fed(chip, [r]), 1) == [chip.regs[r]]
    ensures Drained(Fed(chip, [r]), 1).regs == chip.regs
  {
    assert [r][..0] == [];
    assert Fed(chip, [r]) == Chip(chip.regs, r, false);
  }

  // ----- decimal coding -----

  function Dec2Bcd(val: uint8): uint8 {
    (val as int / 10 * 16 + val as int % 10) % 256
  }

  function Bcd2Dec(val: uint8): uint8 {
    val as int / 16 * 10 + val as int % 16
  }

  datatype Time = Time(year: uint8, month: uint8, day: uint8, hour: uint8, minute: uint8, second: uint8)

  /** The register contents that setting the time writes, in the order 0x00, 0x01, 0x02, 0x04, 0x05, 0x06. */
  function SecondsRegister(t: Time): uint8 {
    (Dec2Bcd(t.second % 128) as int + 0x80) % 256
  }

  function TimeRegisters(regs: seq<uint8>, t: Time): (r: seq<uint8>)
    requires |regs| == REGISTERS
    ensures |r| == REGISTERS
  {
    regs[0 := SecondsRegister(t)][1 := Dec2Bcd(t.minute % 128)][2 := Dec2Bcd(t.hour % 64)]
        [4 := Dec2Bcd(t.day % 64)][5 := Dec2Bcd(t.month % 32)][6 := Dec2Bcd(t.year)]
  }

  function ReadTime(regs: seq<uint8>): Time
    requires |regs| == REGISTERS
  {
    Time(Bcd2Dec(regs[6]), Bcd2Dec(regs[5] % 32), Bcd2Dec(regs[4] % 64),
         Bcd2Dec(regs[2] % 64), Bcd2Dec(regs[1] % 128), Bcd2Dec(regs[0] % 128))
  }

  /** The times that survive the masks of both directions. */
  predicate Representable(t: Time) {
    t.second < 80 && t.minute < 80 && t.hour < 40 && t.day < 40 && t.month < 20 && t.year < 160
  }

  predicate IsCalendarTime(t: Time) {
    t.second < 60 && t.minute < 60 && t.hour < 24 && 1 <= t.day <= 31 && 1 <= t.month <= 12 && t.year < 100
  }

  lemma UnpackDigits(q: nat, r: nat)
    requires q < 16 && r < 16
    ensures Bcd2Dec(16 * q + r) == 10 * q + r
  {
  }

  lemma PackDigits(q: nat, r: nat)
    requires q < 16 && r < 10
    ensures Dec2Bcd(10 * q + r) == 16 * q + r
  {
    assert (10 * q + r) / 10 == q;
  }

  lemma Mask128(x: nat)
    requires x < 256
    ensures x % 128 == if x < 128 then x else x - 128
  {
  }

  lemma Coded128(w: nat)
    requires w < 128
    ensures Bcd2Dec(Dec2Bcd(w) % 128) == if w < 80 then w else w - 80
  {
    var q, r := w / 10, w % 10;
    PackDigits(q, r);
    Mask128(16 * q + r);
    UnpackDigits(if q < 8 then q else q - 8, r);
  }

  /** A 7-bit field comes back exactly when its two digits fit under the mask. */
  lemma Field128(v: uint8)
    ensures Bcd2Dec(Dec2Bcd(v % 128) % 128) == v <==> v < 80
  {
    if v < 128 {
      assert v % 128 == v;
      Coded128(v);
    } else {
      var w: nat := v - v / 128 * 128;
      assert w == v % 128;
      Coded128(w);
    }
  }

  lemma Mask64(x: nat)
    requires x < 128
    ensures x % 64 == if x < 64 then x else x - 64
  {
  }

  lemma Coded64(w: nat)
    requires w < 64
    ensures Bcd2Dec(Dec2Bcd(w) % 64) == if w < 40 then w else w - 40
  {
    var q, r := w / 10, w % 10;
    PackDigits(q, r);
    Mask64(16 * q + r);
    UnpackDigits(if q < 4 then q else q - 4, r);
  }

  /** A 6-bit field comes back exactly when its two digits fit under the mask. */
  lemma Field64(v: uint8)
    ensures Bcd2Dec(Dec2Bcd(v % 64) % 64) == v <==> v < 40
  {
    if v < 64 {
      assert v % 64 == v;
      Coded64(v);
    } else {
      var w: nat := v - v / 64 * 64;
      assert w == v % 64;
      Coded64(w);
    }
  }

  lemma Mask32(x: nat)
    requires x < 64
    ensures x % 32 == if x < 32 then x else x - 32
  {
  }

  lemma Coded32(w: nat)
    requires w < 32
    ensures Bcd2Dec(Dec2Bcd(w) % 32) == if w < 20 then w else w - 20
  {
    var q, r := w / 10, w % 10;
    PackDigits(q, r);
    Mask32(16 * q + r);
    UnpackDigits(if q < 2 then q else q - 2, r);
  }

  /** A 5-bit field comes back exactly when its two digits fit under the mask. */
  lemma Field32(v: uint8)
    ensures Bcd2Dec(Dec2Bcd(v % 32) % 32) == v <==> v < 20
  {
    if v < 32 {
      assert v % 32 == v;
      Coded32(v);
    } else {
      var w: nat := v - v / 32 * 32;
      assert w == v % 32;
      Coded32(w);
    }
  }

  lemma AddHalf(b: nat)
    requires b < 256
    ensures (b + 0x80) % 256 % 128 == b % 128
  {
  }

  lemma SecondsRoundTrip(t: Time)
    ensures Bcd2Dec(SecondsRegister(t) % 128) == t.second <==> t.second < 80
  {
    Field128(t.second);
    AddHalf(Dec2Bcd(t.second % 128));
  }

  lemma YearRoundTrip(v: uint8)
    ensures Bcd2Dec(Dec2Bcd(v)) == v <==> v < 160
  {
  }

  /** Reading back the registers that setting a time writes gives that time exactly when every
    * field fits its register, which every calendar time does.
    */
  lemma TimeRoundTripIff(regs: seq<uint8>, t: Time)
    requires |regs| == REGISTERS
    ensures ReadTime(TimeRegisters(regs, t)) == t <==> Representable(t)
    ensures IsCalendarTime(t) ==> Representable(t)
    ensures TimeRegisters(regs, t)[3] == regs[3]
  {
    var r := TimeRegisters(regs, t);
    assert r[0] == SecondsRegister(t) && r[1] == Dec2Bcd(t.minute % 128) && r[2] == Dec2Bcd(t.hour % 64);
    assert r[4] == Dec2Bcd(t.day % 64) && r[5] == Dec2Bcd(t.month % 32) && r[6] == Dec2Bcd(t.year);
    SecondsRoundTrip(t);
    Field128(t.minute);
    Field64(t.hour);
    Field64(t.day);
    Field32(t.month);
    YearRoundTrip(t.year);
  }

  /** Two decimal digits in a byte, tens in the high half, with `flag` in its top bit. */
  predicate HoldsDigits(register: uint8, value: uint8, flag: bool) {
    register == (if flag then 0x80 else 0) + 16 * (value / 10) + value % 10
  }

  /** The register map: a time that fits is written as the clock's digits, the seconds with the
    * oscillator's start bit, and no other register is touched.
    */
  predicate IsTimeIn(regs: seq<uint8>, t: Time, before: seq<uint8>)
    requires |regs| == |before| == REGISTERS
  {
    && HoldsDigits(regs[0], t.second, true) && HoldsDigits(regs[1], t.minute, false) && HoldsDigits(regs[2], t.hour, false)
    && HoldsDigits(regs[4], t.day, false) && HoldsDigits(regs[5], t.month, false) && HoldsDigits(regs[6], t.year, false)
    && regs[3] == before[3] && regs[7..] == before[7..]
  }

  lemma DigitsOf(v: uint8)
    requires v < 160
    ensures HoldsDigits(Dec2Bcd(v), v, false)
  {
    PackDigits(v / 10, v % 10);
  }

  lemma SecondsDigits(t: Time)
    requires t.second < 80
    ensures HoldsDigits(SecondsRegister(t), t.second, true)
  {
    PackDigits(t.second / 10, t.second % 10);
  }

  /** A field that fits under its mask is coded as its digits. */
  lemma FieldDigits(t: Time)
    requires Representable(t)
    ensures HoldsDigits(Dec2Bcd(t.minute % 128), t.minute, false)
    ensures HoldsDigits(Dec2Bcd(t.hour % 64), t.hour, false)
    ensures HoldsDigits(Dec2Bcd(t.day % 64), t.day, false)
    ensures HoldsDigits(Dec2Bcd(t.month % 32), t.month, false)
    ensures HoldsDigits(Dec2Bcd(t.year), t.year, false)
  {
    assert t.minute % 128 == t.minute && t.hour % 64 == t.hour && t.day % 64 == t.day && t.month % 32 == t.month;
    DigitsOf(t.minute);
    DigitsOf(t.hour);
    DigitsOf(t.day);
    DigitsOf(t.month);
    DigitsOf(t.year);
  }

  lemma SixSet(regs: seq<uint8>, a: uint8, b: uint8, c: uint8, d: uint8, e: uint8, f: uint8)
    requires |regs| == REGISTERS
    ensures var r := regs[0 := a][1 := b][2 := c][4 := d][5 := e][6 := f];
            && r[0] == a && r[1] == b && r[2] == c && r[3] == regs[3] && r[4] == d && r[5] == e && r[6] == f
            && r[7..] == regs[7..]
  {
  }

  lemma RegisterMap(regs: seq<uint8>, t: Time)
    requires |regs| == REGISTERS && Representable(t)
    ensures IsTimeIn(TimeRegisters(regs, t), t, regs)
  {
    SixSet(regs, SecondsRegister(t), Dec2Bcd(t.minute % 128), Dec2Bcd(t.hour % 64),
           Dec2Bcd(t.day % 64), Dec2Bcd(t.month % 32), Dec2Bcd(t.year));
    SecondsDigits(t);
    FieldDigits(t);
  }

  /** The number that the low half and the low `tens` values of the high half of a register make. */
  predicate ReadsDigits(value: uint8, register: uint8, tens: nat)
    requires tens > 0
  {
    value == 10 * (register / 16 % tens) + register % 16
  }

  lemma Digit(q: nat, r: nat, tens: nat, x: nat)
    requires q < 16 && r < 16 && tens in {2, 4, 8, 16} && x == 16 * (q % tens) + r
    ensures x / 16 == q % tens && x % 16 == r
  {
    assert q % tens < 16;
  }

  /** A mask below the top of a byte cuts the high half alone. */
  lemma Mask7Bits(x: uint8, q: nat, r: nat)
    requires x == 16 * q + r && q < 16 && r < 16
    ensures x % 128 == 16 * (q % 8) + r
  {
    assert q == 8 * (q / 8) + q % 8;
  }

  lemma Mask6Bits(x: uint8, q: nat, r: nat)
    requires x == 16 * q + r && q < 16 && r < 16
    ensures x % 64 == 16 * (q % 4) + r
  {
    assert q == 4 * (q / 4) + q % 4;
  }

  lemma Mask5Bits(x: uint8, q: nat, r: nat)
    requires x == 16 * q + r && q < 16 && r < 16
    ensures x % 32 == 16 * (q % 2) + r
  {
    assert q == 2 * (q / 2) + q % 2;
  }

  lemma DecodedHalves(masked: uint8, register: uint8, q: nat, r: nat, tens: nat)
    requires register / 16 == q && register % 16 == r && tens in {2, 4, 8, 16} && masked == 16 * (q % tens) + r
    ensures ReadsDigits(Bcd2Dec(masked), register, tens)
  {
    Digit(q, r, tens, masked);
  }

  lemma SevenBits(x: uint8)
    ensures ReadsDigits(Bcd2Dec(x % 128), x, 8)
  {
    var q, r := x / 16, x % 16;
    Mask7Bits(x, q, r);
    DecodedHalves(16 * (q % 8) + r, x, q, r, 8);
  }

  lemma SixBits(x: uint8)
    ensures ReadsDigits(Bcd2Dec(x % 64), x, 4)
  {
    var q, r := x / 16, x % 16;
    Mask6Bits(x, q, r);
    DecodedHalves(16 * (q % 4) + r, x, q, r, 4);
  }

  lemma FiveBits(x: uint8)
    ensures ReadsDigits(Bcd2Dec(x % 32), x, 2)
  {
    var q, r := x / 16, x % 16;
    Mask5Bits(x, q, r);
    DecodedHalves(16 * (q % 2) + r, x, q, r, 2);
  }

  lemma WholeByte(x: uint8)
    ensures ReadsDigits(Bcd2Dec(x), x, 16)
  {
    assert x / 16 % 16 == x / 16;
  }

  predicate IsReadFrom(t: Time, regs: seq<uint8>)
    requires |regs| == REGISTERS
  {
    && ReadsDigits(t.second, regs[0], 8) && ReadsDigits(t.minute, regs[1], 8) && ReadsDigits(t.hour, regs[2], 4)
    && ReadsDigits(t.day, regs[4], 4) && ReadsDigits(t.month, regs[5], 2) && ReadsDigits(t.year, regs[6], 16)
  }

  /** What is read back from registers with any contents: the digits, without the flags that share
    * the register with them.
    */
  lemma ReadMap(regs: seq<uint8>)
    requires |regs| == REGISTERS
    ensures IsReadFrom(ReadTime(regs), regs)
  {
    SevenBits(regs[0]);
    SevenBits(regs[1]);
    SixBits(regs[2]);
    SixBits(regs[4]);
    FiveBits(regs[5]);
    WholeByte(regs[6]);
  }
}
