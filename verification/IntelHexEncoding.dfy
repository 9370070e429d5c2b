/** A specification-level Intel HEX printer, and the proof that the loader reads back exactly
  * what it prints.
  */
module IntelHexEncoding {
  import opened Words
  import opened IntelHex
  import opened IntelHexLoader

  function HexDigit(v: nat): (c: char)
    requires v < 16
    ensures IsHexDigit(c) && DigitValue(c) == v
  {
    if v < 10 then '0' + v as char else 'A' + (v - 10) as char
  }

  function HexOf(bytes: seq<uint8>): (s: string)
    ensures |s| == 2 * |bytes|
  {
    if bytes == [] then "" else
      var b := bytes[|bytes| - 1];
      HexOf(bytes[..|bytes| - 1]) + [HexDigit(b / 16), HexDigit(b % 16)]
  }

  function Sum(bytes: seq<uint8>): nat {
    if bytes == [] then 0 else Sum(bytes[..|bytes| - 1]) + bytes[|bytes| - 1]
  }

  /** A record's bytes without the checksum. */
  function Body(kind: uint8, addr: uint16, payload: seq<uint8>): (r: seq<uint8>)
    requires |payload| < 256
    ensures |r| == 4 + |payload|
  {
    [|payload|, addr / 256, addr % 256, kind] + payload
  }

  function Checksum(bytes: seq<uint8>): (c: uint8)
    ensures (Sum(bytes) + c) % 256 == 0
  {
    (256 - Sum(bytes) % 256) % 256
  }

  /** One printed line, its end of line included. */
  function Record(kind: uint8, addr: uint16, payload: seq<uint8>): (s: string)
    requires |payload| < 256
    ensures |s| == 12 + 2 * |payload|
  {
    var body := Body(kind, addr, payload);
    ":" + HexOf(body + [Checksum(body)]) + "\n"
  }

  /** Data to be placed at an address relative to a segment (type 02) or linear (type 04) base. */
  datatype Segment = Segment(linear: bool, upper: uint16, addr: uint16, bytes: seq<uint8>) {
    function Base(): nat {
      if linear then upper as int * 0x1_0000 else upper as int * 16
    }

    function BaseRecord(): string {
      Record(if linear then 4 else 2, 0, [upper / 256, upper % 256])
    }

    predicate InRange() {
      Base() + addr + |bytes| < MAX_MEMORY_SIZE
    }

    function Placed(): Chunk {
      Chunk(Base() + addr, bytes)
    }
  }

  /** The most that the printer puts in one data record. */
  const RECORD_BYTES := 255

  /** What is left of a long segment after its first record. The address field has 16 bits. */
  function Rest(s: Segment): Segment
    requires |s.bytes| > RECORD_BYTES
  {
    Segment(s.linear, s.upper, (s.addr + RECORD_BYTES) % 0x1_0000, s.bytes[RECORD_BYTES..])
  }

  function Front(s: Segment): Segment
    requires |s.bytes| > RECORD_BYTES
  {
    Segment(s.linear, s.upper, s.addr, s.bytes[..RECORD_BYTES])
  }

  /** A segment cut into parts that each fit a record. */
  function Pieces(s: Segment): (ps: seq<Segment>)
    ensures |ps| > 0
    decreases |s.bytes|
  {
    if |s.bytes| <= RECORD_BYTES then [s] else [Front(s)] + Pieces(Rest(s))
  }

  predicate AreShort(ps: seq<Segment>) {
    forall i :: 0 <= i < |ps| ==> |ps[i].bytes| <= RECORD_BYTES
  }

  lemma {:induction false} PiecesAreShort(s: Segment)
    ensures AreShort(Pieces(s))
    ensures forall i :: 0 <= i < |Pieces(s)| ==> Pieces(s)[i].Base() == s.Base()
    decreases |s.bytes|
  {
    if |s.bytes| > RECORD_BYTES {
      PiecesAreShort(Rest(s));
    }
  }

  function DataLines(ps: seq<Segment>): (lines: seq<string>)
    requires AreShort(ps)
    ensures |lines| == |ps|
  {
    seq(|ps|, i requires 0 <= i < |ps| => Record(0, ps[i].addr, ps[i].bytes))
  }

  /** One base record for each segment, and as many data records as it needs. */
  function SegmentLines(segments: seq<Segment>): seq<string> {
    if segments == [] then [] else
      PiecesAreShort(segments[0]);
      [segments[0].BaseRecord()] + DataLines(Pieces(segments[0])) + SegmentLines(segments[1..])
  }

  function Concat(lines: seq<string>): string {
    if lines == [] then "" else lines[0] + Concat(lines[1..])
  }

  /** Segments with any text after them. */
  function Printed(segments: seq<Segment>, ending: string): string {
    Concat(SegmentLines(segments)) + ending
  }

  /** Segments and the end record. */
  function Encode(segments: seq<Segment>): string {
    Printed(segments, Record(1, 0, []))
  }

  // ----- reading one printed record -----

  lemma {:induction false} HexOfDigits(bytes: seq<uint8>, k: nat)
    requires k < |bytes|
    ensures HexOf(bytes)[2 * k] == HexDigit(bytes[k] / 16) && HexOf(bytes)[2 * k + 1] == HexDigit(bytes[k] % 16)
  {
    if k < |bytes| - 1 {
      HexOfDigits(bytes[..|bytes| - 1], k);
    }
  }

  lemma InTheLine(line: string, hex: string, extra: string, i: nat)
    requires line == ":" + hex + extra && i < |hex|
    ensures 1 + i < |line| && line[1 + i] == hex[i]
  {
  }

  lemma DigitsOfByte(b: uint8)
    ensures ByteValue(HexDigit(b / 16), HexDigit(b % 16)) == b
  {
  }

  lemma RecordByteIs(line: string, bytes: seq<uint8>, hex: string, extra: string, k: nat)
    requires hex == HexOf(bytes) && line == ":" + hex + extra && k < |bytes|
    ensures HasByte(line, k) && RecordByte(line, k) == bytes[k]
  {
    HexOfDigits(bytes, k);
    InTheLine(line, hex, extra, 2 * k);
    InTheLine(line, hex, extra, 2 * k + 1);
    DigitsOfByte(bytes[k]);
  }

  lemma {:induction false} SumToIs(line: string, bytes: seq<uint8>, n: nat)
    requires n <= |bytes|
    requires forall k: nat :: k < |bytes| ==> HasByte(line, k) && RecordByte(line, k) == bytes[k]
    ensures SumTo(line, n) == Sum(bytes[..n])
  {
    if n > 0 {
      SumToIs(line, bytes, n - 1);
      assert bytes[..n][..n - 1] == bytes[..n - 1];
    }
  }

  /** `bytes` are a record of these fields, with a checksum byte at the end. */
  predicate IsRecord(bytes: seq<uint8>, kind: uint8, addr: uint16, payload: seq<uint8>) {
    && |bytes| == 5 + |payload|
    && bytes[0] == |payload| && Word(bytes[1], bytes[2]) == addr && bytes[3] == kind
    && forall j :: 0 <= j < |payload| ==> bytes[4 + j] == payload[j]
  }

  lemma FieldBytes(bytes: seq<uint8>, kind: uint8, addr: uint16, payload: seq<uint8>, check: uint8)
    requires |payload| < 256 && bytes == Body(kind, addr, payload) + [check]
    ensures IsRecord(bytes, kind, addr, payload) && Sum(bytes) == Sum(Body(kind, addr, payload)) + check
  {
    WordOf(addr);
    assert bytes[..|bytes| - 1] == Body(kind, addr, payload);
  }

  lemma WordOf(addr: uint16)
    ensures Word(addr / 256, addr % 256) == addr
  {
  }

  /** The line's record bytes are `bytes`. */
  predicate Carries(line: string, bytes: seq<uint8>) {
    && |line| >= 1 + 2 * |bytes| && line[0] == ':'
    && forall k: nat :: k < |bytes| ==> HasByte(line, k) && RecordByte(line, k) == bytes[k]
  }

  lemma PrintedCarries(line: string, bytes: seq<uint8>, hex: string, extra: string)
    requires hex == HexOf(bytes) && line == ":" + hex + extra
    ensures Carries(line, bytes)
  {
    forall k: nat | k < |bytes| ensures HasByte(line, k) && RecordByte(line, k) == bytes[k] {
      RecordByteIs(line, bytes, hex, extra, k);
    }
  }

  /** The record's fields, whatever follows the digits on the line. */
  lemma RecordFields(line: string, bytes: seq<uint8>, kind: uint8, addr: uint16, payload: seq<uint8>)
    requires Carries(line, bytes) && IsRecord(bytes, kind, addr, payload)
    ensures Framed(line) && LengthOf(line) == |payload| && AddressOf(line) == addr && TypeOf(line) == kind
    ensures HasBytes(line, 4 + LengthOf(line)) && Payload(line) == payload
  {
    assert HasByte(line, 0) && HasByte(line, 1) && HasByte(line, 2) && HasByte(line, 3);
  }

  lemma CarriedSum(line: string, bytes: seq<uint8>)
    requires Carries(line, bytes) && Framed(line) && 5 + LengthOf(line) == |bytes|
    ensures ChecksumHolds(line) <==> Sum(bytes) % 256 == 0
  {
    SumToIs(line, bytes, |bytes|);
    assert bytes[..|bytes|] == bytes;
  }

  /** What a record says, by its fields, with the sum of its bytes right or wrong. */
  function Says(kind: uint8, addr: uint16, payload: seq<uint8>, right: bool, base: nat): Meaning {
    if base + addr + |payload| >= 0x1_0000 then Malformed
    else if kind == 0 then if right then Data(base + addr, payload) else Malformed
    else if kind == 1 then End
    else if kind == 2 && |payload| == 2 && right then Base(16 * (256 * payload[0] as int + payload[1] as int))
    else if kind == 4 && |payload| == 2 && right then Base(0x1_0000 * (256 * payload[0] as int + payload[1] as int))
    else Ignored
  }

  lemma SaysByFields(line: string, payload: seq<uint8>, base: nat)
    requires Framed(line) && HasBytes(line, 4 + LengthOf(line)) && payload == Payload(line)
    ensures LineMeaning(line, base) == Says(TypeOf(line), AddressOf(line), payload, ChecksumHolds(line), base)
  {
    if LengthOf(line) == 2 {
      assert payload[0] == RecordByte(line, 4) && payload[1] == RecordByte(line, 5);
    }
  }

  lemma CarriedMeaning(line: string, bytes: seq<uint8>, kind: uint8, addr: uint16, payload: seq<uint8>, base: nat)
    requires Carries(line, bytes) && IsRecord(bytes, kind, addr, payload)
    ensures LineMeaning(line, base) == Says(kind, addr, payload, Sum(bytes) % 256 == 0, base)
  {
    RecordFields(line, bytes, kind, addr, payload);
    CarriedSum(line, bytes);
    SaysByFields(line, payload, base);
  }

  /** A record of any kind, with any checksum byte and anything after it on its line: an end record
    * counts, and one of an unknown kind is passed over, whatever the checksum.
    */
  lemma AnyRecord(line: string, bytes: seq<uint8>, hex: string, extra: string,
                  kind: uint8, addr: uint16, payload: seq<uint8>, base: nat)
    requires hex == HexOf(bytes) && line == ":" + hex + extra && IsRecord(bytes, kind, addr, payload)
    ensures LineMeaning(line, base) == Says(kind, addr, payload, Sum(bytes) % 256 == 0, base)
  {
    PrintedCarries(line, bytes, hex, extra);
    CarriedMeaning(line, bytes, kind, addr, payload, base);
  }

  lemma RecordMeaning(kind: uint8, addr: uint16, payload: seq<uint8>, base: nat)
    requires |payload| < 256 && (kind == 0 || kind == 1 || ((kind == 2 || kind == 4) && |payload| == 2))
    ensures LineMeaning(Record(kind, addr, payload), base) == Says(kind, addr, payload, true, base)
  {
    var body := Body(kind, addr, payload);
    var bytes := body + [Checksum(body)];
    FieldBytes(bytes, kind, addr, payload, Checksum(body));
    AnyRecord(Record(kind, addr, payload), bytes, HexOf(bytes), "\n", kind, addr, payload, base);
  }

  // ----- splitting the text back into lines -----

  ghost predicate IsLine(line: string) {
    && 1 < |line| <= LINE_ROOM
    && line[|line| - 1] == '\n'
    && forall k :: 0 <= k < |line| - 1 ==> line[k] != '\n' && line[k] != '\0'
  }

  lemma {:induction false} HexOfIsDigits(bytes: seq<uint8>)
    ensures forall k :: 0 <= k < |HexOf(bytes)| ==> IsHexDigit(HexOf(bytes)[k])
  {
    if bytes != [] {
      HexOfIsDigits(bytes[..|bytes| - 1]);
    }
  }

  lemma RecordIsLine(kind: uint8, addr: uint16, payload: seq<uint8>)
    requires |payload| < 256
    ensures IsLine(Record(kind, addr, payload))
  {
    var body := Body(kind, addr, payload);
    HexOfIsDigits(body + [Checksum(body)]);
    var hex := HexOf(body + [Checksum(body)]);
    var line := Record(kind, addr, payload);
    forall k | 0 <= k < |line| - 1 ensures line[k] != '\n' && line[k] != '\0' {
      assert line[k] == if k == 0 then ':' else hex[k - 1];
    }
  }

  lemma {:induction false} FgetsTakesLine(line: string, rest: string, room: nat)
    requires 0 < |line| <= room && line[|line| - 1] == '\n'
    requires forall k :: 0 <= k < |line| - 1 ==> line[k] != '\n'
    ensures FgetsLength(line + rest, room) == |line|
    decreases |line|
  {
    if |line| > 1 {
      assert (line + rest)[1..] == line[1..] + rest;
      FgetsTakesLine(line[1..], rest, room - 1);
    }
  }

  lemma {:induction false} CStringKeeps(s: string)
    requires forall k :: 0 <= k < |s| ==> s[k] != '\0'
    ensures CString(s) == s
  {
    if s != "" {
      CStringKeeps(s[1..]);
    }
  }

  lemma FirstLine(line: string, rest: string)
    requires IsLine(line)
    ensures FileLines(line + rest) == [line] + FileLines(rest)
  {
    FgetsTakesLine(line, rest, LINE_ROOM);
    assert (line + rest)[..|line|] == line && (line + rest)[|line|..] == rest;
    CStringKeeps(line);
  }

  lemma ConcatCons(lines: seq<string>, ending: string)
    requires lines != []
    ensures Concat(lines) + ending == lines[0] + (Concat(lines[1..]) + ending)
  {
  }

  lemma Cons<T>(xs: seq<T>, ys: seq<T>)
    requires xs != []
    ensures [xs[0]] + (xs[1..] + ys) == xs + ys
  {
  }

  lemma {:induction false} LinesBack(lines: seq<string>, ending: string, text: string)
    requires AllLines(lines) && text == Concat(lines) + ending
    ensures FileLines(text) == lines + FileLines(ending)
    decreases |lines|
  {
    if lines == [] {
      assert text == ending;
    } else {
      var rest := Concat(lines[1..]) + ending;
      ConcatCons(lines, ending);
      FirstLine(lines[0], rest);
      LinesBack(lines[1..], ending, rest);
      Cons(lines, FileLines(ending));
    }
  }

  ghost predicate AllLines(lines: seq<string>) {
    forall i :: 0 <= i < |lines| ==> IsLine(lines[i])
  }

  lemma DataLinesAreLines(ps: seq<Segment>)
    requires AreShort(ps)
    ensures AllLines(DataLines(ps))
  {
    forall i | 0 <= i < |ps| ensures IsLine(DataLines(ps)[i]) {
      RecordIsLine(0, ps[i].addr, ps[i].bytes);
    }
  }

  lemma {:induction false} SegmentLinesAreLines(segments: seq<Segment>)
    ensures AllLines(SegmentLines(segments))
  {
    if segments != [] {
      var s := segments[0];
      RecordIsLine(if s.linear then 4 else 2, 0, [s.upper / 256, s.upper % 256]);
      PiecesAreShort(s);
      DataLinesAreLines(Pieces(s));
      SegmentLinesAreLines(segments[1..]);
    }
  }

  // ----- reading a segment's lines -----

  predicate AllInRange(segments: seq<Segment>) {
    forall i :: 0 <= i < |segments| ==> segments[i].InRange()
  }

  lemma InRangeCons(s: Segment, tail: seq<Segment>, all: seq<Segment>)
    requires all == [s] + tail
    ensures AllInRange(all) <==> s.InRange() && AllInRange(tail)
  {
    assert forall i :: 0 <= i < |tail| ==> tail[i] == all[i + 1];
    assert all[0] == s && forall i :: 0 < i < |all| ==> all[i] == tail[i - 1];
  }

  function Placements(segments: seq<Segment>): seq<Chunk> {
    seq(|segments|, i requires 0 <= i < |segments| => segments[i].Placed())
  }

  ghost predicate SetsBase(line: string, b: nat) {
    forall base: nat :: base + 2 < MAX_MEMORY_SIZE ==> LineMeaning(line, base) == Base(b)
  }

  ghost predicate Places(line: string, s: Segment) {
    LineMeaning(line, s.Base()) == if s.InRange() then Data(s.Base() + s.addr, s.bytes) else Malformed
  }

  /** Lines that, whatever the base, are accepted and place nothing. */
  ghost predicate PlaceNothing(lines: seq<string>) {
    forall base: nat :: base + 2 < MAX_MEMORY_SIZE ==> Chunks(lines, base) == Some([])
  }

  lemma BaseRecordSets(s: Segment)
    ensures SetsBase(s.BaseRecord(), s.Base())
  {
    forall base: nat | base + 2 < MAX_MEMORY_SIZE ensures LineMeaning(s.BaseRecord(), base) == Base(s.Base()) {
      RecordMeaning(if s.linear then 4 else 2, 0, [s.upper / 256, s.upper % 256], base);
    }
  }

  lemma DataRecordPlaces(s: Segment)
    requires |s.bytes| < 256
    ensures Places(Record(0, s.addr, s.bytes), s)
  {
    RecordMeaning(0, s.addr, s.bytes, s.Base());
  }

  /** An end record places nothing, whatever comes after it in the text, and neither does the end of
    * the text.
    */
  lemma EndPlacesNothing(after: string)
    ensures PlaceNothing(FileLines(Record(1, 0, []) + after)) && PlaceNothing(FileLines(""))
  {
    var end := Record(1, 0, []);
    RecordIsLine(1, 0, []);
    FirstLine(end, after);
    forall base: nat | base + 2 < MAX_MEMORY_SIZE ensures Chunks([end] + FileLines(after), base) == Some([]) {
      RecordMeaning(1, 0, [], base);
    }
  }

  /** Chunks in front of those of the remaining lines, if these can be read. */
  function Before(cs: seq<Chunk>, rest: Option<seq<Chunk>>): Option<seq<Chunk>> {
    if rest.Some? then Some(cs + rest.value) else None
  }

  lemma BeforeTwice(c: Chunk, cs: seq<Chunk>, rest: Option<seq<Chunk>>)
    ensures Before([c], Before(cs, rest)) == Before([c] + cs, rest)
  {
    if rest.Some? {
      assert [c] + (cs + rest.value) == [c] + cs + rest.value;
    }
  }

  /** A first line that places `s` is read as `s` placed, or not at all if that is out of range. */
  lemma OneDataLine(lines: seq<string>, s: Segment)
    requires lines != [] && Places(lines[0], s)
    ensures Chunks(lines, s.Base()) == if s.InRange() then Before([s.Placed()], Chunks(lines[1..], s.Base())) else None
  {
  }

  lemma DataLinesCons(ps: seq<Segment>, lines: seq<string>, rest: seq<string>)
    requires ps != [] && AreShort(ps) && lines == DataLines(ps) + rest
    ensures lines != [] && Places(lines[0], ps[0])
    ensures AreShort(ps[1..]) && lines[1..] == DataLines(ps[1..]) + rest
  {
    DataRecordPlaces(ps[0]);
    assert lines[0] == Record(0, ps[0].addr, ps[0].bytes);
  }

  lemma PlacementsCons(ps: seq<Segment>)
    requires ps != []
    ensures Placements(ps) == [ps[0].Placed()] + Placements(ps[1..])
  {
  }

  /** The data lines of pieces under one base. */
  lemma {:induction false} ManyDataLines(ps: seq<Segment>, base: nat, lines: seq<string>, rest: seq<string>)
    requires AreShort(ps) && forall i :: 0 <= i < |ps| ==> ps[i].Base() == base
    requires lines == DataLines(ps) + rest
    ensures Chunks(lines, base) == if AllInRange(ps) then Before(Placements(ps), Chunks(rest, base)) else None
    decreases |ps|
  {
    if ps == [] {
      assert lines == rest;
      assert forall cs: seq<Chunk> :: Placements(ps) + cs == cs;
    } else {
      var p, tail := ps[0], ps[1..];
      DataLinesCons(ps, lines, rest);
      OneDataLine(lines, p);
      ManyDataLines(tail, base, lines[1..], rest);
      PlacementsCons(ps);
      BeforeTwice(p.Placed(), Placements(tail), Chunks(rest, base));
      InRangeCons(p, tail, ps);
    }
  }

  /** The pieces of a segment are all in range exactly when the segment is: the first that is not
    * starts where the address field can still say so.
    */
  lemma {:induction false} PiecesInRange(s: Segment)
    ensures AllInRange(Pieces(s)) <==> s.InRange()
    decreases |s.bytes|
  {
    if |s.bytes| > RECORD_BYTES {
      PiecesInRange(Rest(s));
      InRangeCons(Front(s), Pieces(Rest(s)), Pieces(s));
      assert Front(s).InRange() ==> Rest(s).addr == s.addr + RECORD_BYTES;
    } else {
      assert Pieces(s)[0] == s;
    }
  }

  /** A base below 64 KiB is a multiple of 16, so the next base record fits under the top. */
  lemma BaseRoom(s: Segment)
    ensures s.InRange() ==> s.Base() + 2 < MAX_MEMORY_SIZE
  {
    if s.InRange() && !s.linear {
      assert s.upper < 0x1000;
    }
  }

  /** The chunks of a printed text, record by record. */
  function RecordChunks(segments: seq<Segment>): seq<Chunk> {
    if segments == [] then [] else Placements(Pieces(segments[0])) + RecordChunks(segments[1..])
  }

  lemma BaseLine(lines: seq<string>, base: nat, b: nat)
    requires lines != [] && LineMeaning(lines[0], base) == Base(b)
    ensures Chunks(lines, base) == Chunks(lines[1..], b)
  {
  }

  /** The lines of one segment, its base record first. */
  lemma OneSegment(s: Segment, lines: seq<string>, rest: seq<string>, base: nat)
    requires AreShort(Pieces(s)) && lines == [s.BaseRecord()] + DataLines(Pieces(s)) + rest
    requires base + 2 < MAX_MEMORY_SIZE
    ensures Chunks(lines, base) == if s.InRange() then Before(Placements(Pieces(s)), Chunks(rest, s.Base())) else None
  {
    BaseRecordSets(s);
    BaseLine(lines, base, s.Base());
    assert lines[1..] == DataLines(Pieces(s)) + rest;
    PiecesAreShort(s);
    ManyDataLines(Pieces(s), s.Base(), lines[1..], rest);
    PiecesInRange(s);
  }

  lemma SegmentLinesCons(segments: seq<Segment>, rest: seq<string>)
    requires segments != [] && AreShort(Pieces(segments[0]))
    ensures SegmentLines(segments) + rest
         == [segments[0].BaseRecord()] + DataLines(Pieces(segments[0])) + (SegmentLines(segments[1..]) + rest)
  {
  }

  lemma BeforeRecords(cs: seq<Chunk>, rest: seq<Chunk>)
    ensures Before(cs, Some(rest)) == Some(cs + rest)
  {
  }

  lemma {:induction false} ChunksOfLines(segments: seq<Segment>, rest: seq<string>, base: nat)
    requires base + 2 < MAX_MEMORY_SIZE && PlaceNothing(rest)
    ensures Chunks(SegmentLines(segments) + rest, base) == if AllInRange(segments) then Some(RecordChunks(segments)) else None
    decreases |segments|
  {
    if segments == [] {
      assert SegmentLines(segments) + rest == rest;
    } else {
      var s, tail := segments[0], segments[1..];
      PiecesAreShort(s);
      SegmentLinesCons(segments, rest);
      OneSegment(s, SegmentLines(segments) + rest, SegmentLines(tail) + rest, base);
      BaseRoom(s);
      if s.InRange() {
        ChunksOfLines(tail, rest, s.Base());
      }
      InRangeCons(s, tail, segments);
    }
  }

  // ----- the records and the segments describe the same memory -----

  lemma {:induction false} LastWriteAppend(xs: seq<Chunk>, ys: seq<Chunk>, a: int)
    ensures LastWrite(xs + ys, a) == if LastWrite(ys, a).Some? then LastWrite(ys, a) else LastWrite(xs, a)
    decreases |ys|
  {
    if ys == [] {
      assert xs + ys == xs;
    } else {
      assert (xs + ys)[..|xs + ys| - 1] == xs + ys[..|ys| - 1];
      LastWriteAppend(xs, ys[..|ys| - 1], a);
    }
  }

  lemma {:induction false} TotalAppend(xs: seq<Chunk>, ys: seq<Chunk>)
    ensures Total(xs + ys) == Total(xs) + Total(ys)
    decreases |ys|
  {
    if ys == [] {
      assert xs + ys == xs;
    } else {
      assert (xs + ys)[..|xs + ys| - 1] == xs + ys[..|ys| - 1];
      TotalAppend(xs, ys[..|ys| - 1]);
    }
  }

  lemma One(c: Chunk, a: int)
    ensures LastWrite([c], a) == if c.Covers(a) then Some(c.bytes[a - c.at]) else None
    ensures Total([c]) == |c.bytes|
  {
    assert [c][..0] == [];
  }

  /** The pieces of a segment in range write what the segment placed whole writes. */
  lemma {:induction false} PiecesWriteWhole(s: Segment, a: int)
    requires s.InRange()
    ensures LastWrite(Placements(Pieces(s)), a) == LastWrite([s.Placed()], a)
    ensures Total(Placements(Pieces(s))) == |s.bytes|
    decreases |s.bytes|
  {
    One(s.Placed(), a);
    if |s.bytes| <= RECORD_BYTES {
      assert Placements(Pieces(s)) == [s.Placed()];
    } else {
      var f, r := Front(s), Rest(s);
      PlacementsCons(Pieces(s));
      PiecesWriteWhole(r, a);
      LastWriteAppend([f.Placed()], Placements(Pieces(r)), a);
      TotalAppend([f.Placed()], Placements(Pieces(r)));
      One(f.Placed(), a);
      One(r.Placed(), a);
      assert r.Placed().at == s.Placed().at + RECORD_BYTES;
    }
  }

  lemma {:induction false} RecordsWriteSegments(segments: seq<Segment>, a: int)
    requires AllInRange(segments)
    ensures LastWrite(RecordChunks(segments), a) == LastWrite(Placements(segments), a)
    ensures Total(RecordChunks(segments)) == Total(Placements(segments))
  {
    if segments != [] {
      var s, tail := segments[0], segments[1..];
      PlacementsCons(segments);
      RecordsWriteSegments(tail, a);
      PiecesWriteWhole(s, a);
      LastWriteAppend(Placements(Pieces(s)), RecordChunks(tail), a);
      LastWriteAppend([s.Placed()], Placements(tail), a);
      TotalAppend(Placements(Pieces(s)), RecordChunks(tail));
      TotalAppend([s.Placed()], Placements(tail));
      One(s.Placed(), a);
    }
  }

  // ----- the round trip -----

  /** What reading `text` makes of segments: it is accepted if and only if each of them ends below
    * 64 KiB, and then describes what the segments placed whole would put in memory, later ones over
    * earlier ones, and as many bytes.
    */
  ghost predicate ReadsAs(text: string, segments: seq<Segment>) {
    && (Chunks(FileLines(text), 0).Some? <==> AllInRange(segments))
    && (AllInRange(segments) ==>
          var cs := Chunks(FileLines(text), 0).value;
          && (forall a: int :: LastWrite(cs, a) == LastWrite(Placements(segments), a))
          && Total(cs) == Total(Placements(segments)))
  }

  /** The printed text of any list of segments, of any length, reads as the segments, with anything
    * after it that places nothing.
    */
  lemma AnyEnding(segments: seq<Segment>, ending: string)
    requires PlaceNothing(FileLines(ending))
    ensures ReadsAs(Printed(segments, ending), segments)
  {
    SegmentLinesAreLines(segments);
    LinesBack(SegmentLines(segments), ending, Printed(segments, ending));
    ChunksOfLines(segments, FileLines(ending), 0);
    if AllInRange(segments) {
      forall a: int ensures LastWrite(RecordChunks(segments), a) == LastWrite(Placements(segments), a) {
        RecordsWriteSegments(segments, a);
      }
      RecordsWriteSegments(segments, 0);
    }
  }

  /** So does the text with the end record and whatever one likes after that, and the text without
    * an end record.
    */
  lemma RoundTrip(segments: seq<Segment>)
    ensures ReadsAs(Encode(segments), segments) && ReadsAs(Printed(segments, ""), segments)
    ensures forall after: string :: ReadsAs(Printed(segments, Record(1, 0, []) + after), segments)
  {
    forall after: string ensures ReadsAs(Printed(segments, Record(1, 0, []) + after), segments) {
      EndPlacesNothing(after);
      AnyEnding(segments, Record(1, 0, []) + after);
    }
    EndPlacesNothing("");
    AnyEnding(segments, "");
    assert Record(1, 0, []) + "" == Record(1, 0, []);
  }

  /** Arrays that hold the memory of the printed text hold the memory of the segments. */
  lemma LoadedAsPlaced(image: seq<uint8>, mask: seq<uint8>, segments: seq<Segment>)
    requires AllInRange(segments) && Chunks(FileLines(Encode(segments)), 0).Some?
    requires Describes(image, mask, Chunks(FileLines(Encode(segments)), 0).value)
    ensures Describes(image, mask, Placements(segments))
  {
    RoundTrip(segments);
    var cs, ds := Chunks(FileLines(Encode(segments)), 0).value, Placements(segments);
    forall a | 0 <= a < MAX_MEMORY_SIZE
      ensures image[a] == Cell(ds, a) && mask[a] == if LastWrite(ds, a).Some? then 1 else 0
    {
      assert LastWrite(cs, a) == LastWrite(ds, a);
    }
  }

  /** Printing segments and loading the text, whatever was loaded before. */
  method ReadBack(loader: Loader, segments: seq<Segment>) returns (r: int)
    requires loader.Valid()
    modifies loader, loader.image, loader.mask
    ensures r == if AllInRange(segments) then Total(Placements(segments)) else -2
    ensures r >= 0 ==> Describes(loader.image[..], loader.mask[..], Placements(segments))
  {
    RoundTrip(segments);
    var text := Encode(segments);
    r := loader.ReadIntelHex(Some(text));
    if r >= 0 {
      LoadedAsPlaced(loader.image[..], loader.mask[..], segments);
    }
  }
}
