/** What an Intel HEX text means: records, the running base address, and the memory a list
  * of data records describes. Nothing here follows the loader's control flow; the loader in
  * `IntelHexLoader` is proved against these definitions.
  */
module IntelHex {
  import opened Words

  const MAX_MEMORY_SIZE := 0x10000

  // ----- fields of hexadecimal digits -----

  predicate IsHexDigit(c: char) {
    '0' <= c <= '9' || 'A' <= c <= 'F' || 'a' <= c <= 'f'
  }

  function DigitValue(c: char): (v: nat)
    requires IsHexDigit(c)
    ensures v < 16
  {
    if c <= '9' then c as int - '0' as int
    else if c <= 'F' then c as int - 'A' as int + 10
    else c as int - 'a' as int + 10
  }

  function ByteValue(hi: char, lo: char): uint8
    requires IsHexDigit(hi) && IsHexDigit(lo)
  {
    16 * DigitValue(hi) + DigitValue(lo)
  }

  /** A `%02x` conversion at position `p`, read as a strict two-digit field. */
  function ScanByte(line: string, p: nat): Option<uint8> {
    if p + 2 <= |line| && IsHexDigit(line[p]) && IsHexDigit(line[p + 1]) then
      Some(ByteValue(line[p], line[p + 1]))
    else
      None
  }

  /** A `%04x` conversion at position `p`, read as a strict four-digit field. */
  function ScanWord(line: string, p: nat): Option<uint16> {
    match (ScanByte(line, p), ScanByte(line, p + 2))
    case (Some(hi), Some(lo)) => Some(Word(hi, lo))
    case _ => None
  }

  function Word(hi: uint8, lo: uint8): uint16 {
    hi as int * 256 + lo as int
  }

  // ----- records -----

  /** Byte `k` of a record, counted from its length byte, is there as two digits. */
  predicate HasByte(line: string, k: nat) {
    3 + 2 * k <= |line| && IsHexDigit(line[1 + 2 * k]) && IsHexDigit(line[2 + 2 * k])
  }

  function RecordByte(line: string, k: nat): uint8
    requires HasByte(line, k)
  {
    ByteValue(line[1 + 2 * k], line[2 + 2 * k])
  }

  predicate HasBytes(line: string, n: nat) {
    forall k: nat :: k < n ==> HasByte(line, k)
  }

  /** The sum of the first `n` bytes of a record. */
  function SumTo(line: string, n: nat): nat
    requires HasBytes(line, n)
  {
    if n == 0 then 0 else SumTo(line, n - 1) + RecordByte(line, n - 1)
  }

  /** A start mark, a complete header, and room for the announced data and checksum. */
  predicate Framed(line: string) {
    && |line| >= 11
    && line[0] == ':'
    && HasByte(line, 0) && HasByte(line, 1) && HasByte(line, 2) && HasByte(line, 3)
    && |line| >= 11 + 2 * RecordByte(line, 0)
  }

  function LengthOf(line: string): uint8
    requires Framed(line)
  {
    RecordByte(line, 0)
  }

  function AddressOf(line: string): uint16
    requires Framed(line)
  {
    Word(RecordByte(line, 1), RecordByte(line, 2))
  }

  function TypeOf(line: string): uint8
    requires Framed(line)
  {
    RecordByte(line, 3)
  }

  /** All record bytes, checksum included, are digits and add up to 0 modulo 256. */
  predicate ChecksumHolds(line: string)
    requires Framed(line)
  {
    HasBytes(line, 5 + LengthOf(line)) && SumTo(line, 5 + LengthOf(line)) % 256 == 0
  }

  /** The first `n` bytes of the data field. */
  function DataBytes(line: string, n: nat): (bytes: seq<uint8>)
    requires HasBytes(line, 4 + n)
  {
    seq(n, k requires 0 <= k < n => RecordByte(line, 4 + k))
  }

  function Payload(line: string): seq<uint8>
    requires Framed(line) && HasBytes(line, 4 + LengthOf(line))
  {
    DataBytes(line, LengthOf(line))
  }

  datatype Meaning =
    | Malformed
    | Ignored
    | Base(base: nat)
    | End
    | Data(at: nat, bytes: seq<uint8>)

  /** What one line says when `base` is the address set by the last extended-address record.
    * An end record counts whatever its checksum, and an extended-address record with a bad
    * checksum is passed over: both are what the loader does.
    */
  function LineMeaning(line: string, base: nat): Meaning {
    if !Framed(line) || base + AddressOf(line) + LengthOf(line) >= MAX_MEMORY_SIZE then Malformed
    else if TypeOf(line) == 0 then
      if ChecksumHolds(line) then Data(base + AddressOf(line), Payload(line)) else Malformed
    else if TypeOf(line) == 1 then End
    else if TypeOf(line) == 2 && LengthOf(line) == 2 && ChecksumHolds(line) then
      Base(16 * Word(RecordByte(line, 4), RecordByte(line, 5)))
    else if TypeOf(line) == 4 && LengthOf(line) == 2 && ChecksumHolds(line) then
      Base(0x1_0000 * Word(RecordByte(line, 4), RecordByte(line, 5)))
    else Ignored
  }

  // ----- files -----

  /** Length of what `fgets` with a 1024-byte buffer takes from the front of `text`. */
  function FgetsLength(text: string, room: nat): (n: nat)
    ensures n <= |text| && n <= room
    ensures text != "" && room > 0 ==> n > 0
    decreases room
  {
    if text == "" || room == 0 then 0
    else if text[0] == '\n' then 1
    else 1 + FgetsLength(text[1..], room - 1)
  }

  const LINE_ROOM := 1023

  /** The characters before the first NUL: what `strlen` and `sscanf` see of a buffer. */
  function CString(s: string): string {
    if s == "" || s[0] == '\0' then "" else [s[0]] + CString(s[1..])
  }

  /** The non-empty lines the loader hands to its line parser. */
  function FileLines(text: string): seq<string>
    decreases |text|
  {
    if text == "" then [] else
      var n := FgetsLength(text, LINE_ROOM);
      var line := CString(text[..n]);
      (if line == "" then [] else [line]) + FileLines(text[n..])
  }

  /** A data record placed at its absolute address. */
  datatype Chunk = Chunk(at: nat, bytes: seq<uint8>) {
    predicate Covers(a: int) {
      at <= a < at + |bytes|
    }
  }

  /** The data records up to the end record, or None when a line before it is malformed. */
  function Chunks(lines: seq<string>, base: nat): Option<seq<Chunk>>
    decreases |lines|
  {
    if lines == [] then Some([]) else
      match LineMeaning(lines[0], base)
      case Malformed => None
      case Ignored => Chunks(lines[1..], base)
      case Base(b) => Chunks(lines[1..], b)
      case End => Some([])
      case Data(at, bytes) =>
        match Chunks(lines[1..], base)
        case None => None
        case Some(cs) => Some([Chunk(at, bytes)] + cs)
  }

  /** The byte the last chunk covering `a` puts there. */
  function LastWrite(cs: seq<Chunk>, a: int): Option<uint8> {
    if cs == [] then None
    else if cs[|cs| - 1].Covers(a) then Some(cs[|cs| - 1].bytes[a - cs[|cs| - 1].at])
    else LastWrite(cs[..|cs| - 1], a)
  }

  /** The memory cell the chunks describe: erased flash reads 0xFF. */
  function Cell(cs: seq<Chunk>, a: int): uint8 {
    match LastWrite(cs, a)
    case None => 0xFF
    case Some(b) => b
  }

  function Total(cs: seq<Chunk>): nat {
    if cs == [] then 0 else Total(cs[..|cs| - 1]) + |cs[|cs| - 1].bytes|
  }

  // ----- how many cells the chunks touch -----

  function Interval(lo: int, n: nat): (s: set<int>)
    ensures |s| == n && forall a :: a in s <==> lo <= a < lo + n
  {
    if n == 0 then {} else Interval(lo, n - 1) + {lo + n - 1}
  }

  function Touched(cs: seq<Chunk>): set<int> {
    if cs == [] then {} else
      var last := cs[|cs| - 1];
      Touched(cs[..|cs| - 1]) + Interval(last.at, |last.bytes|)
  }

  ghost predicate IsCovered(cs: seq<Chunk>, a: int) {
    exists i :: 0 <= i < |cs| && cs[i].Covers(a)
  }

  lemma CoveredSnoc(cs: seq<Chunk>, a: int)
    requires cs != []
    ensures IsCovered(cs, a) <==> IsCovered(cs[..|cs| - 1], a) || cs[|cs| - 1].Covers(a)
  {
    var front := cs[..|cs| - 1];
    if IsCovered(front, a) {
      var i :| 0 <= i < |front| && front[i].Covers(a);
      assert cs[i].Covers(a);
    }
    if IsCovered(cs, a) {
      var i :| 0 <= i < |cs| && cs[i].Covers(a);
      assert i < |front| ==> front[i].Covers(a);
    }
  }

  /** An address has a last write exactly when some data record covers it. */
  lemma {:induction false} LastWriteIffCovered(cs: seq<Chunk>, a: int)
    ensures LastWrite(cs, a).Some? <==> IsCovered(cs, a)
    ensures LastWrite(cs, a).Some? <==> a in Touched(cs)
  {
    if cs != [] {
      LastWriteIffCovered(cs[..|cs| - 1], a);
      CoveredSnoc(cs, a);
    }
  }

  /** No address is covered twice. */
  ghost predicate Disjoint(cs: seq<Chunk>) {
    forall j, a :: 0 <= j < |cs| && cs[j].Covers(a) ==> !IsCovered(cs[..j], a)
  }

  lemma DisjointSnoc(cs: seq<Chunk>)
    requires cs != []
    ensures Disjoint(cs) <==> Disjoint(cs[..|cs| - 1]) && NoneCovered(cs[..|cs| - 1], cs[|cs| - 1])
  {
    var n := |cs| - 1;
    assert forall j :: 0 <= j <= n ==> cs[..n][..j] == cs[..j];
    if Disjoint(cs[..n]) && NoneCovered(cs[..n], cs[n]) {
      forall j, a | 0 <= j < |cs| && cs[j].Covers(a) ensures !IsCovered(cs[..j], a) {
        assert j < n ==> cs[..n][j].Covers(a);
      }
    }
    if Disjoint(cs) {
      forall j, a | 0 <= j < n && cs[..n][j].Covers(a) ensures !IsCovered(cs[..n][..j], a) {
        assert cs[j].Covers(a);
      }
    }
  }

  ghost predicate NoneCovered(cs: seq<Chunk>, c: Chunk) {
    forall a :: c.Covers(a) ==> !IsCovered(cs, a)
  }

  lemma NoneCoveredIsNoOverlap(cs: seq<Chunk>, c: Chunk)
    ensures NoneCovered(cs, c) <==> Touched(cs) !! Interval(c.at, |c.bytes|)
  {
    var s, t := Touched(cs), Interval(c.at, |c.bytes|);
    forall a ensures a in s <==> IsCovered(cs, a) {
      LastWriteIffCovered(cs, a);
    }
    assert forall a :: a in t <==> c.Covers(a);
    if s !! t {
      assert forall a :: a in t ==> a !in s;
    }
  }

  lemma UnionSize(s: set<int>, t: set<int>)
    ensures |s + t| <= |s| + |t|
    ensures |s + t| == |s| + |t| <==> s !! t
  {
    assert s + t == s + (t - s) && t == (t - s) + (s * t);
  }

  /** The byte count the loader reports is the number of distinct cells written exactly when
    * no two data records overlap, and more than that otherwise.
    */
  lemma {:induction false} TotalCountsCells(cs: seq<Chunk>)
    ensures Total(cs) >= |Touched(cs)|
    ensures Total(cs) == |Touched(cs)| <==> Disjoint(cs)
  {
    if cs != [] {
      var front, last := cs[..|cs| - 1], cs[|cs| - 1];
      TotalCountsCells(front);
      UnionSize(Touched(front), Interval(last.at, |last.bytes|));
      DisjointSnoc(cs);
      NoneCoveredIsNoOverlap(front, last);
    }
  }

  // ----- the checksum catches every one-byte change -----

  /** The two digits of record byte `k` replaced by `c` and `d`. */
  function ReplaceByte(line: string, k: nat, c: char, d: char): string
    requires 3 + 2 * k <= |line|
  {
    line[1 + 2 * k := c][2 + 2 * k := d]
  }

  /** Record bytes of the address (1, 2), data (4 ..) and checksum fields: every byte but the
    * length and the record type.
    */
  predicate IsProtectedByte(line: string, k: nat)
    requires Framed(line)
    ensures IsProtectedByte(line, k) ==> k < 5 + LengthOf(line)
  {
    k == 1 || k == 2 || 4 <= k < 5 + LengthOf(line)
  }

  lemma ByteAfterReplace(line: string, k: nat, c: char, d: char, i: nat)
    requires 3 + 2 * k <= |line| && HasByte(line, i) && HasByte(ReplaceByte(line, k, c, d), i)
    ensures i != k ==> RecordByte(ReplaceByte(line, k, c, d), i) == RecordByte(line, i)
    ensures i == k ==> IsHexDigit(c) && IsHexDigit(d) && RecordByte(ReplaceByte(line, k, c, d), i) == ByteValue(c, d)
  {
  }

  lemma {:induction false} SumAfterReplace(line: string, k: nat, c: char, d: char, n: nat)
    requires 3 + 2 * k <= |line| && HasBytes(line, n) && HasBytes(ReplaceByte(line, k, c, d), n)
    ensures k >= n ==> SumTo(ReplaceByte(line, k, c, d), n) == SumTo(line, n)
    ensures k < n ==>
              && HasByte(line, k) && IsHexDigit(c) && IsHexDigit(d)
              && SumTo(ReplaceByte(line, k, c, d), n) == SumTo(line, n) - RecordByte(line, k) + ByteValue(c, d)
  {
    if n > 0 {
      SumAfterReplace(line, k, c, d, n - 1);
      ByteAfterReplace(line, k, c, d, n - 1);
    }
  }

  lemma DataLine(line: string, base: nat)
    ensures LineMeaning(line, base).Data? <==>
      && Framed(line)
      && TypeOf(line) == 0
      && base + AddressOf(line) + LengthOf(line) < MAX_MEMORY_SIZE
      && ChecksumHolds(line)
  {
  }

  lemma UncheckedDataIsMalformed(line: string, base: nat)
    requires Framed(line) ==> TypeOf(line) == 0 && !ChecksumHolds(line)
    ensures LineMeaning(line, base).Malformed?
  {
  }

  lemma SumsDiffer(a: int, before: uint8, after: uint8)
    requires a % 256 == 0 && before != after
    ensures (a - before + after) % 256 != 0
  {
  }

  /** An accepted data record no longer parses once any one protected byte is given another
    * value, or digits that are not hexadecimal.
    */
  lemma OneByteChangeIsRejected(line: string, base: nat, k: nat, c: char, d: char)
    requires LineMeaning(line, base).Data?
    requires IsProtectedByte(line, k)
    requires IsHexDigit(c) && IsHexDigit(d) ==> ByteValue(c, d) != RecordByte(line, k)
    ensures LineMeaning(ReplaceByte(line, k, c, d), base).Malformed?
  {
    DataLine(line, base);
    var changed := ReplaceByte(line, k, c, d);
    if Framed(changed) {
      ByteAfterReplace(line, k, c, d, 0);
      ByteAfterReplace(line, k, c, d, 3);
      if ChecksumHolds(changed) {
        SumAfterReplace(line, k, c, d, 5 + LengthOf(line));
        SumsDiffer(SumTo(line, 5 + LengthOf(line)), RecordByte(line, k), ByteValue(c, d));
      }
    }
    UncheckedDataIsMalformed(changed, base);
  }
}
