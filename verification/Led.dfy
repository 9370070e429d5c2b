/** The LED drivers: two daisy-chained 224-bit shift registers, loaded by toggling a data and a
  * clock line.
  */
module Led {
  import opened Words

  const TLC_WRITE := 0x25
  const TLC_TMGRST := 0x04
  const TLC_DSPRPT := 0x02
  const CHIP_BITS := 224
  const CHAIN_BITS := 448

  datatype Light = Light(blue: uint16, green: uint16, red: uint16)

  datatype WhiteBalance = WhiteBalance(blue: uint8, green: uint8, red: uint8)

  /** What a chip would be latched with. */
  datatype Latched = Latched(command: int, config: int, blue: int, green: int, red: int, lights: seq<(int, int, int)>)

  // ---------- Words and bits ----------

  function Pow2(n: nat): nat { if n == 0 then 1 else 2 * Pow2(n - 1) }

  /** The test `word & (1 << i)`. */
  predicate Bit(word: nat, i: nat) {
    if i == 0 then word % 2 == 1 else Bit(word / 2, i - 1)
  }

  /** The `len` low bits of a word, most significant first. */
  function Bits(word: nat, len: nat): (bits: seq<bool>)
    ensures |bits| == len
  {
    seq(len, k requires 0 <= k < len => Bit(word, len - 1 - k))
  }

  lemma BitsSnoc(word: nat, len: nat)
    requires len > 0
    ensures Bits(word, len) == Bits(word / 2, len - 1) + [word % 2 == 1]
  {
    var b, c := Bits(word, len), Bits(word / 2, len - 1) + [word % 2 == 1];
    forall k | 0 <= k < len ensures b[k] == c[k] {
      assert b[k] == Bit(word, len - 1 - k);
    }
  }

  /** The number that bits spell, most significant first. */
  function Value(bits: seq<bool>): nat {
    if bits == [] then 0 else 2 * Value(bits[..|bits| - 1]) + if bits[|bits| - 1] then 1 else 0
  }

  lemma Gap(p: nat, d: int)
    requires p > 0 && d != 0
    ensures p * d >= p || p * d + p <= 0
  {
  }

  lemma RemainderIs(word: nat, p: nat, high: nat, low: nat)
    requires p > 0 && word == p * high + low && low < p
    ensures low == word % p
  {
    var q, r := word / p, word % p;
    assert word == p * q + r;
    assert p * (q - high) == low - r;
    if q != high {
      Gap(p, q - high);
      assert false;
    }
  }

  /** Sending a word and reading it back keeps its low bits. */
  lemma {:induction false} ValueOfBits(word: nat, len: nat)
    ensures Pow2(len) > 0 && Value(Bits(word, len)) == word % Pow2(len)
  {
    var high := BitsSplit(word, len);
    RemainderIs(word, Pow2(len), high, Value(Bits(word, len)));
  }

  lemma Doubled(p: nat, high: nat)
    ensures (2 * p) * high == 2 * (p * high)
  {
  }

  lemma {:induction false} BitsSplit(word: nat, len: nat) returns (high: nat)
    ensures Pow2(len) > 0 && Value(Bits(word, len)) < Pow2(len)
    ensures word == Pow2(len) * high + Value(Bits(word, len))
  {
    if len == 0 {
      high := word;
    } else {
      high := BitsSplit(word / 2, len - 1);
      BitsSnoc(word, len);
      assert Bits(word, len)[..len - 1] == Bits(word / 2, len - 1);
      Doubled(Pow2(len - 1), high);
    }
  }

  /** Bits determine the number they spell, so a field read back can only be what was sent. */
  lemma {:induction false} BitsOfValue(bits: seq<bool>)
    ensures Bits(Value(bits), |bits|) == bits
  {
    if bits != [] {
      BitsOfValue(bits[..|bits| - 1]);
      BitsSnoc(Value(bits), |bits|);
    }
  }

  function Field(bits: seq<bool>, from: nat, len: nat): nat
    requires from + len <= |bits|
  {
    Value(bits[from..from + len])
  }

  /** A field that starts where a word's bits do. */
  lemma FieldOfWord(a: seq<bool>, word: nat, len: nat, b: seq<bool>, bits: seq<bool>)
    requires bits == a + Bits(word, len) + b
    ensures Pow2(len) > 0 && Field(bits, |a|, len) == word % Pow2(len)
  {
    assert bits[|a|..|a| + len] == Bits(word, len);
    ValueOfBits(word, len);
  }

  lemma Powers()
    ensures Pow2(5) == 32 && Pow2(6) == 64 && Pow2(7) == 128 && Pow2(16) == 0x1_0000
  {
    assert Pow2(4) == 16 by { assert Pow2(2) == 4; }
    assert Pow2(8) == 256;
    assert Pow2(12) == 4096;
  }

  // ---------- What is sent ----------

  function LightBits(l: Light): (bits: seq<bool>)
    ensures |bits| == 48
  {
    Bits(l.blue, 16) + Bits(l.green, 16) + Bits(l.red, 16)
  }

  function Colours(lights: seq<Light>): (bits: seq<bool>)
    ensures |bits| == 48 * |lights|
  {
    if lights == [] then [] else Colours(lights[..|lights| - 1]) + LightBits(lights[|lights| - 1])
  }

  function Header(wb: WhiteBalance): (bits: seq<bool>)
    ensures |bits| == 32
  {
    Bits(TLC_WRITE, 6) + Bits(TLC_TMGRST + TLC_DSPRPT, 5) + Bits(wb.blue, 7) + Bits(wb.green, 7) + Bits(wb.red, 7)
  }

  function ChipBits(wb: WhiteBalance, lights: seq<Light>): seq<bool> {
    Header(wb) + Colours(lights)
  }

  /** A chip's register read from the bit that went in first. */
  function Decode(bits: seq<bool>): Latched
    requires |bits| == CHIP_BITS
  {
    Latched(Field(bits, 0, 6), Field(bits, 6, 5), Field(bits, 11, 7), Field(bits, 18, 7), Field(bits, 25, 7),
            [Colour(bits, 32), Colour(bits, 80), Colour(bits, 128), Colour(bits, 176)])
  }

  function Colour(bits: seq<bool>, from: nat): (int, int, int)
    requires from + 48 <= |bits|
  {
    (Field(bits, from, 16), Field(bits, from + 16, 16), Field(bits, from + 32, 16))
  }

  function Shown(l: Light): (int, int, int) { (l.blue, l.green, l.red) }

  lemma Regroup(a: seq<bool>, x: seq<bool>, y: seq<bool>, z: seq<bool>, b: seq<bool>, bits: seq<bool>)
    requires bits == a + (x + y + z) + b
    ensures bits == a + x + (y + z + b) && bits == (a + x) + y + (z + b) && bits == (a + x + y) + z + b
  {
  }

  lemma ColourOfLight(a: seq<bool>, l: Light, b: seq<bool>, bits: seq<bool>)
    requires bits == a + LightBits(l) + b
    ensures Colour(bits, |a|) == Shown(l)
  {
    Powers();
    var x, y, z := Bits(l.blue, 16), Bits(l.green, 16), Bits(l.red, 16);
    Regroup(a, x, y, z, b, bits);
    FieldOfWord(a, l.blue, 16, y + z + b, bits);
    FieldOfWord(a + x, l.green, 16, z + b, bits);
    FieldOfWord(a + x + y, l.red, 16, b, bits);
  }

  lemma HeaderDecodes(wb: WhiteBalance, rest: seq<bool>, bits: seq<bool>)
    requires bits == Header(wb) + rest
    ensures Field(bits, 0, 6) == 0x25 && Field(bits, 6, 5) == 0x06
    ensures Field(bits, 11, 7) == wb.blue % 128 && Field(bits, 18, 7) == wb.green % 128 && Field(bits, 25, 7) == wb.red % 128
  {
    Powers();
    var c, d := Bits(TLC_WRITE, 6), Bits(6, 5);
    var x, y, z := Bits(wb.blue, 7), Bits(wb.green, 7), Bits(wb.red, 7);
    Regroup([], c, d, x + y + z, rest, bits) by { assert [] + (c + d + (x + y + z)) + rest == bits; }
    Regroup(c + d, x, y, z, rest, bits) by { assert c + d + (x + y + z) + rest == bits; }
    FieldOfWord([], TLC_WRITE, 6, d + (x + y + z) + rest, bits);
    assert [] + c == c;
    FieldOfWord(c, 6, 5, (x + y + z) + rest, bits);
    FieldOfWord(c + d, wb.blue, 7, y + z + rest, bits);
    FieldOfWord(c + d + x, wb.green, 7, z + rest, bits);
    FieldOfWord(c + d + x + y, wb.red, 7, rest, bits);
  }

  lemma ColoursOfFour(l: seq<Light>)
    requires |l| == 4
    ensures Colours(l) == LightBits(l[0]) + LightBits(l[1]) + LightBits(l[2]) + LightBits(l[3])
  {
    assert l[..3][..2] == l[..2] && l[..2][..1] == l[..1] && l[..1][..0] == [];
    assert Colours(l[..1]) == Colours(l[..1][..0]) + LightBits(l[0]) == LightBits(l[0]);
    assert Colours(l[..2]) == Colours(l[..2][..1]) + LightBits(l[1]);
    assert Colours(l[..3]) == Colours(l[..3][..2]) + LightBits(l[2]);
  }

  /** A chip's bits decode to the command, the configuration, the white balance in seven bits, and
    * the four colours as they are.
    */
  lemma ChipDecodes(wb: WhiteBalance, l: seq<Light>)
    requires |l| == 4
    ensures |ChipBits(wb, l)| == CHIP_BITS
    ensures Decode(ChipBits(wb, l)) ==
              Latched(0x25, 0x06, wb.blue % 128, wb.green % 128, wb.red % 128,
                      [Shown(l[0]), Shown(l[1]), Shown(l[2]), Shown(l[3])])
  {
    var bits, h := ChipBits(wb, l), Header(wb);
    HeaderDecodes(wb, Colours(l), bits);
    ColoursOfFour(l);
    var p, q, r, s := LightBits(l[0]), LightBits(l[1]), LightBits(l[2]), LightBits(l[3]);
    RegroupFour(h, p, q, r, s, bits);
    ColourOfLight(h, l[0], q + r + s, bits);
    ColourOfLight(h + p, l[1], r + s, bits);
    ColourOfLight(h + p + q, l[2], s, bits);
    ColourOfLight(h + p + q + r, l[3], [], bits);
  }

  lemma RegroupFour(h: seq<bool>, p: seq<bool>, q: seq<bool>, r: seq<bool>, s: seq<bool>, bits: seq<bool>)
    requires bits == h + (p + q + r + s)
    ensures bits == h + p + (q + r + s) && bits == (h + p) + q + (r + s)
    ensures bits == (h + p + q) + r + s && bits == (h + p + q + r) + s + []
  {
  }

  // ---------- The lines ----------

  /** A chain that bits have been pushed into: each time the oldest falls off the far end. */
  function Pushed(chain: seq<bool>, bits: seq<bool>): (r: seq<bool>)
    requires chain != []
    ensures |r| == |chain|
  {
    if bits == [] then chain else Pushed(chain, bits[..|bits| - 1])[1..] + [bits[|bits| - 1]]
  }

  lemma {:induction false} PushedTwice(chain: seq<bool>, a: seq<bool>, b: seq<bool>)
    requires chain != []
    ensures Pushed(Pushed(chain, a), b) == Pushed(chain, a + b)
    decreases |b|
  {
    if b == [] {
      assert a + b == a;
    } else {
      PushedTwice(chain, a, b[..|b| - 1]);
      assert (a + b)[..|a + b| - 1] == a + b[..|b| - 1];
    }
  }

  lemma PushedOne(chain: seq<bool>, bit: bool)
    requires chain != []
    ensures Pushed(chain, [bit]) == chain[1..] + [bit]
  {
    assert [bit][..0] == [];
  }

  lemma {:induction false} PushedIs(chain: seq<bool>, bits: seq<bool>)
    requires chain != []
    ensures Pushed(chain, bits) == (chain + bits)[|bits|..]
  {
    if bits == [] {
      assert (chain + bits)[0..] == chain;
    } else {
      var front := bits[..|bits| - 1];
      PushedIs(chain, front);
      assert (chain + front)[|front|..][1..] + [bits[|bits| - 1]] == (chain + bits)[|bits|..];
    }
  }

  lemma OneMoreBit(chain: seq<bool>, word: nat, len: nat, i: nat)
    requires i < len && chain != []
    ensures Pushed(Pushed(chain, Bits(word, len)[..len - 1 - i]), [Bit(word, i)]) == Pushed(chain, Bits(word, len)[..len - i])
  {
    var sent := Bits(word, len)[..len - 1 - i];
    PushedTwice(chain, sent, [Bit(word, i)]);
    assert Bits(word, len)[..len - i] == sent + [Bit(word, i)];
  }

  /** A chip's bits as far as the light before `i`. */
  function ChipSoFar(wb: WhiteBalance, lights: seq<Light>, first: nat, i: nat): seq<bool>
    requires first <= i <= |lights|
  {
    ChipBits(wb, lights[first..i])
  }

  lemma NoLightYet(wb: WhiteBalance, lights: seq<Light>, first: nat)
    requires first <= |lights|
    ensures ChipSoFar(wb, lights, first, first) == Header(wb)
  {
    assert Header(wb) + Colours(lights[first..first]) == Header(wb);
  }

  lemma OneMoreLight(chain: seq<bool>, wb: WhiteBalance, lights: seq<Light>, first: nat, i: nat)
    requires first <= i < |lights| && chain != []
    ensures Pushed(Pushed(chain, ChipSoFar(wb, lights, first, i)), LightBits(lights[i]))
         == Pushed(chain, ChipSoFar(wb, lights, first, i + 1))
  {
    var header, done, next := Header(wb), Colours(lights[first..i]), LightBits(lights[i]);
    PushedTwice(chain, header + done, next);
    assert lights[first..i + 1][..i - first] == lights[first..i];
    assert Colours(lights[first..i + 1]) == done + next;
    assert header + done + next == header + (done + next);
  }

  /** The driver's port pins and the chips' registers, the bit that went in first at the front. */
  class Strip {
    var sin: bool
    var sclk: bool
    var chain: seq<bool>
    var whiteBalance: WhiteBalance

    /** LED_Init, with the chips' registers as they come up. */
    constructor (chain0: seq<bool>, wb: WhiteBalance)
      requires |chain0| == CHAIN_BITS
      ensures !sin && !sclk && chain == chain0 && whiteBalance == wb
    {
      sin, sclk, chain, whiteBalance := false, false, chain0, wb;
    }

    /** The chips take the data line's level when the clock line rises. */
    method SetClock(high: bool)
      requires chain != []
      modifies this`sclk, this`chain
      ensures sclk == high
      ensures chain != [] && chain == if high && !old(sclk) then Pushed(old(chain), [sin]) else old(chain)
    {
      if high && !sclk {
        PushedOne(chain, sin);
        chain := chain[1..] + [sin];
      }
      sclk := high;
    }

    method WriteWord(word: uint16, len: nat)
      requires !sclk && chain != [] && len <= 16
      modifies this`sin, this`sclk, this`chain
      ensures !sin && !sclk
      ensures chain != [] && chain == Pushed(old(chain), Bits(word, len))
    {
      ghost var was := chain;
      var i := len - 1;
      while i >= 0
        invariant -1 <= i < len
        invariant !sclk && chain != []
        invariant chain == Pushed(was, Bits(word, len)[..len - 1 - i])
      {
        OneMoreBit(was, word, len, i);
        sin := false;
        if Bit(word, i) {
          sin := true;
        }
        SetClock(true);
        SetClock(false);
        i := i - 1;
      }
      sin := false;
      assert Bits(word, len)[..len] == Bits(word, len);
    }

    method WriteHeader()
      requires !sclk && chain != []
      modifies this`sin, this`sclk, this`chain
      ensures !sin && !sclk
      ensures chain != [] && chain == Pushed(old(chain), Header(whiteBalance))
    {
      var wb := whiteBalance;
      WriteWord(TLC_WRITE, 6);
      WriteWord(TLC_TMGRST + TLC_DSPRPT, 5);
      PushedTwice(old(chain), Bits(TLC_WRITE, 6), Bits(6, 5));
      WriteWord(wb.blue, 7);
      PushedTwice(old(chain), Bits(TLC_WRITE, 6) + Bits(6, 5), Bits(wb.blue, 7));
      WriteWord(wb.green, 7);
      PushedTwice(old(chain), Bits(TLC_WRITE, 6) + Bits(6, 5) + Bits(wb.blue, 7), Bits(wb.green, 7));
      WriteWord(wb.red, 7);
      PushedTwice(old(chain), Bits(TLC_WRITE, 6) + Bits(6, 5) + Bits(wb.blue, 7) + Bits(wb.green, 7), Bits(wb.red, 7));
    }

    method WriteLight(l: Light)
      requires !sclk && chain != []
      modifies this`sin, this`sclk, this`chain
      ensures !sin && !sclk
      ensures chain != [] && chain == Pushed(old(chain), LightBits(l))
    {
      WriteWord(l.blue, 16);
      WriteWord(l.green, 16);
      PushedTwice(old(chain), Bits(l.blue, 16), Bits(l.green, 16));
      WriteWord(l.red, 16);
      PushedTwice(old(chain), Bits(l.blue, 16) + Bits(l.green, 16), Bits(l.red, 16));
    }

    /** One chip's half of `led`, for the lights from `first` on. */
    method WriteChip(lights: seq<Light>, first: nat)
      requires !sclk && chain != [] && first + 4 <= |lights|
      modifies this`sin, this`sclk, this`chain
      ensures !sin && !sclk
      ensures chain != [] && chain == Pushed(old(chain), ChipBits(whiteBalance, lights[first..first + 4]))
    {
      ghost var was, wb := chain, whiteBalance;
      WriteHeader();
      NoLightYet(wb, lights, first);
      var i := first;
      while i < first + 4
        invariant first <= i <= first + 4
        invariant !sin && !sclk && chain != []
        invariant chain == Pushed(was, ChipSoFar(wb, lights, first, i))
      {
        OneMoreLight(was, wb, lights, first, i);
        WriteLight(lights[i]);
        i := i + 1;
      }
    }

    /** Whatever the chips held, they end up with the far one decoding to lights 0 to 3 and the near
      * one to lights 4 to 7, each under the command, the configuration and the white balance.
      */
    method Show(lights: seq<Light>)
      requires !sclk && |chain| == CHAIN_BITS && |lights| == 8
      modifies this`sin, this`sclk, this`chain
      ensures !sin && !sclk && |chain| == CHAIN_BITS
      ensures chain == ChipBits(whiteBalance, lights[..4]) + ChipBits(whiteBalance, lights[4..])
    {
      ghost var was, wb := chain, whiteBalance;
      FrameReplaces(was, wb, lights);
      WriteChip(lights, 0);
      WriteChip(lights, 4);
      assert chain == Pushed(Pushed(was, ChipBits(wb, lights[0..4])), ChipBits(wb, lights[4..8]));
    }
  }

  lemma ColoursLength(wb: WhiteBalance, lights: seq<Light>)
    ensures |ChipBits(wb, lights)| == 32 + 48 * |lights|
  {
  }

  lemma ReplacedWhole(chain: seq<bool>, bits: seq<bool>)
    requires |chain| == |bits| > 0
    ensures Pushed(chain, bits) == bits
  {
    PushedIs(chain, bits);
  }

  /** Two chips' worth of bits leaves nothing of what the chain held. */
  lemma FrameReplaces(chain: seq<bool>, wb: WhiteBalance, lights: seq<Light>)
    requires |chain| == CHAIN_BITS && |lights| == 8
    ensures var far, near := ChipBits(wb, lights[0..4]), ChipBits(wb, lights[4..8]);
            && Pushed(Pushed(chain, far), near) == ChipBits(wb, lights[..4]) + ChipBits(wb, lights[4..])
            && |far + near| == CHAIN_BITS
  {
    assert lights[0..4] == lights[..4] && lights[4..8] == lights[4..];
    var far, near := ChipBits(wb, lights[0..4]), ChipBits(wb, lights[4..8]);
    ColoursLength(wb, lights[0..4]);
    ColoursLength(wb, lights[4..8]);
    PushedTwice(chain, far, near);
    ReplacedWhole(chain, far + near);
  }

  /** What the chips are latched with after a frame has been written. */
  lemma FrameDecodes(wb: WhiteBalance, lights: seq<Light>, chain: seq<bool>)
    requires |lights| == 8 && chain == ChipBits(wb, lights[..4]) + ChipBits(wb, lights[4..])
    ensures |chain| == CHAIN_BITS
    ensures Decode(chain[..CHIP_BITS]) ==
              Latched(0x25, 0x06, wb.blue % 128, wb.green % 128, wb.red % 128,
                      [Shown(lights[0]), Shown(lights[1]), Shown(lights[2]), Shown(lights[3])])
    ensures Decode(chain[CHIP_BITS..]) ==
              Latched(0x25, 0x06, wb.blue % 128, wb.green % 128, wb.red % 128,
                      [Shown(lights[4]), Shown(lights[5]), Shown(lights[6]), Shown(lights[7])])
  {
    ChipDecodes(wb, lights[..4]);
    ChipDecodes(wb, lights[4..]);
    assert chain[..CHIP_BITS] == ChipBits(wb, lights[..4]);
    assert chain[CHIP_BITS..] == ChipBits(wb, lights[4..]);
  }
}
