/** The Intel HEX reader of the host loader: two 64 KiB arrays filled line by line. */
module IntelHexLoader {
  import opened Words
  import opened IntelHex

  /** The loader's state as a value. */
  datatype Memory = Memory(image: seq<uint8>, mask: seq<uint8>, count: int, base: nat, ended: bool)

  /** `bytes` laid over `mem` from address `at` on. */
  function Lay(mem: seq<uint8>, at: nat, bytes: seq<uint8>): (r: seq<uint8>)
    requires at + |bytes| <= |mem|
    ensures |r| == |mem|
    ensures forall a :: 0 <= a < |mem| ==> r[a] == if at <= a < at + |bytes| then bytes[a - at] else mem[a]
  {
    mem[..at] + bytes + mem[at + |bytes|..]
  }

  predicate LaidTo(now: seq<uint8>, before: seq<uint8>, at: nat, bytes: seq<uint8>) {
    && |now| == |before|
    && forall a :: 0 <= a < |now| ==> now[a] == if at <= a < at + |bytes| then bytes[a - at] else before[a]
  }

  /** `len` bytes of the image from `start` on: 0xFF where nothing was loaded, and all 0xFF when
    * the block reaches the end of the image.
    */
  function BlockData(image: seq<uint8>, mask: seq<uint8>, start: int, len: nat): (data: seq<uint8>)
    requires |image| == |mask| == MAX_MEMORY_SIZE
  {
    seq(len, j requires 0 <= j < len =>
      if 0 <= start && start + len < MAX_MEMORY_SIZE && mask[start + j] != 0 then image[start + j] else 255)
  }

  function Ones(n: nat): seq<uint8> {
    seq(n, k => 1)
  }

  ghost predicate Fits(s: Memory, m: Meaning) {
    |s.image| == |s.mask| == MAX_MEMORY_SIZE && (m.Data? ==> m.at + |m.bytes| < MAX_MEMORY_SIZE)
  }

  /** What a well-formed line meaning `m` makes of the memory. */
  ghost function After(s: Memory, m: Meaning): Memory
    requires Fits(s, m)
  {
    match m
    case Base(b) => s.(base := b)
    case End => s.(ended := true)
    case Data(at, bytes) =>
      s.(image := Lay(s.image, at, bytes), mask := Lay(s.mask, at, Ones(|bytes|)), count := s.count + |bytes|)
    case _ => s
  }

  /** The two arrays hold exactly the memory that `cs` describes. */
  ghost predicate Describes(image: seq<uint8>, mask: seq<uint8>, cs: seq<Chunk>) {
    && |image| == |mask| == MAX_MEMORY_SIZE
    && (forall a :: 0 <= a < MAX_MEMORY_SIZE ==> image[a] == Cell(cs, a))
    && (forall a :: 0 <= a < MAX_MEMORY_SIZE ==> mask[a] == if LastWrite(cs, a).Some? then 1 else 0)
  }

  lemma LaidStep(now: seq<uint8>, before: seq<uint8>, at: nat, bytes: seq<uint8>, x: uint8)
    requires LaidTo(now, before, at, bytes) && at + |bytes| < |now|
    ensures LaidTo(now[at + |bytes| := x], before, at, bytes + [x])
  {
  }

  lemma LaidIsLay(now: seq<uint8>, before: seq<uint8>, at: nat, bytes: seq<uint8>)
    requires LaidTo(now, before, at, bytes) && at + |bytes| <= |now|
    ensures now == Lay(before, at, bytes)
  {
  }

  lemma DataBytesStep(line: string, num: nat)
    requires HasBytes(line, 4 + num) && HasByte(line, 4 + num)
    ensures HasBytes(line, 4 + num + 1)
    ensures DataBytes(line, num + 1) == DataBytes(line, num) + [RecordByte(line, 4 + num)]
    ensures Ones(num + 1) == Ones(num) + [1]
  {
  }

  lemma DataMeaning(line: string, base: nat)
    requires Framed(line) && TypeOf(line) == 0 && AddressOf(line) + base + LengthOf(line) < MAX_MEMORY_SIZE
    ensures LineMeaning(line, base) ==
              if ChecksumHolds(line) then Data(AddressOf(line) + base, Payload(line)) else Malformed
  {
  }

  /** A running sum with the two bytes of a word added, each masked out of it. */
  method AddWord(sum: nat, w: uint16, ghost hi: uint8, ghost lo: uint8) returns (total: nat)
    requires w == Word(hi, lo)
    ensures total == sum + hi as int + lo as int
  {
    WordParts(hi, lo);
    total := sum + w / 256 % 256 + w % 256;
  }

  /** The test of a record's checksum against the running sum, each masked to a byte. */
  method SumIsZero(sum: nat, cksum: uint8) returns (zero: bool)
    ensures zero <==> (sum + cksum) % 256 == 0
  {
    zero := (sum % 256 + cksum) % 256 == 0;
  }

  /** The start mark and the length, address and type fields. */
  method ReadHeader(line: string) returns (framed: bool, len: uint8, addr: uint16, code: uint8)
    requires line != ""
    ensures framed == Framed(line)
    ensures framed ==> len == LengthOf(line) && addr == AddressOf(line) && code == TypeOf(line)
  {
    framed, len, addr, code := false, 0, 0, 0;
    if line[0] != ':' { return; }
    if |line| < 11 { return; }
    var ptr := 1;
    var lenField := ScanByte(line, ptr);
    if lenField.None? { return; }
    len := lenField.value;
    ptr := ptr + 2;
    if |line| < 11 + len * 2 { return; }
    var addrField := ScanWord(line, ptr);
    if addrField.None? { return; }
    addr := addrField.value;
    ptr := ptr + 4;
    var codeField := ScanByte(line, ptr);
    if codeField.None? { return; }
    code := codeField.value;
    framed := true;
  }

  /** The checksum field of a data record whose data bytes sum to `sum` with the header. */
  method ReadChecksum(line: string, ptr: nat, sum: nat) returns (ok: bool)
    requires Framed(line) && HasBytes(line, 4 + LengthOf(line))
    requires ptr == 9 + 2 * LengthOf(line) && sum == SumTo(line, 4 + LengthOf(line))
    ensures ok == ChecksumHolds(line)
  {
    ghost var n := 4 + LengthOf(line);
    var cksum := ScanByte(line, ptr);
    if cksum.None? {
      assert !HasByte(line, n);
      return false;
    }
    assert HasByte(line, n) && cksum.value == RecordByte(line, n);
    assert HasBytes(line, n + 1);
    ok := SumIsZero(sum, cksum.value);
  }

  class Loader {
    const image: array<uint8>
    const mask: array<uint8>
    var endRecordSeen: bool
    var byteCount: int
    var extendedAddr: nat

    ghost predicate Valid() {
      image.Length == MAX_MEMORY_SIZE && mask.Length == MAX_MEMORY_SIZE && image != mask
    }

    constructor ()
      ensures Valid() && fresh(image) && fresh(mask)
    {
      image := new uint8[MAX_MEMORY_SIZE];
      mask := new uint8[MAX_MEMORY_SIZE];
      endRecordSeen, byteCount, extendedAddr := false, 0, 0;
    }

    ghost function Snapshot(): Memory
      requires Valid()
      reads this, image, mask
    {
      Memory(image[..], mask[..], byteCount, extendedAddr, endRecordSeen)
    }

    method StoreByte(at: nat, x: uint8)
      requires Valid() && at < MAX_MEMORY_SIZE
      modifies image, mask
      ensures image[..] == old(image[..])[at := x]
      ensures mask[..] == old(mask[..])[at := 1]
    {
      image[at] := x;
      mask[at] := 1;
    }

    /** Copies the data field of a record to `start` and checks the record's sum. */
    method StoreData(line: string, len: nat, start: nat, headerSum: nat) returns (r: int)
      requires Valid() && Framed(line) && len == LengthOf(line) && start + len < MAX_MEMORY_SIZE
      requires headerSum == SumTo(line, 4)
      modifies image, mask
      ensures r == if ChecksumHolds(line) then 1 else 0
      ensures r == 1 ==> image[..] == Lay(old(image[..]), start, Payload(line))
      ensures r == 1 ==> mask[..] == Lay(old(mask[..]), start, Ones(len))
    {
      ghost var im, mk := image[..], mask[..];
      var num, ptr, sum: nat := 0, 9, headerSum;
      while num != len
        invariant 0 <= num <= len && ptr == 9 + 2 * num
        invariant HasBytes(line, 4 + num) && sum == SumTo(line, 4 + num)
        invariant LaidTo(image[..], im, start, DataBytes(line, num))
        invariant LaidTo(mask[..], mk, start, Ones(num))
        decreases len - num
      {
        var i := ScanByte(line, ptr);
        if i.None? {
          assert !HasByte(line, 4 + num);
          return 0;
        }
        assert HasByte(line, 4 + num) && i.value == RecordByte(line, 4 + num);
        DataBytesStep(line, num);
        LaidStep(image[..], im, start, DataBytes(line, num), i.value);
        LaidStep(mask[..], mk, start, Ones(num), 1);
        StoreByte(start + num, i.value);
        ptr := ptr + 2;
        sum := sum + i.value;
        num := num + 1;
        assert num < 256;  // the source also gives up at 256 bytes, which two digits cannot announce
      }
      LaidIsLay(image[..], im, start, Payload(line));
      LaidIsLay(mask[..], mk, start, Ones(len));
      var ok := ReadChecksum(line, ptr, sum);
      r := if ok then 1 else 0;
    }

    /** The two-byte value of an extended-address record, if its digits and checksum are right. */
    method ReadAddressRecord(line: string, headerSum: nat) returns (value: Option<uint16>)
      requires Framed(line) && LengthOf(line) == 2 && headerSum == SumTo(line, 4)
      ensures value == if ChecksumHolds(line) then Some(Word(RecordByte(line, 4), RecordByte(line, 5))) else None
    {
      var i := ScanWord(line, 9);
      if i.None? {
        assert !HasByte(line, 4) || !HasByte(line, 5);
        return None;
      }
      assert HasByte(line, 4) && HasByte(line, 5) && i.value == Word(RecordByte(line, 4), RecordByte(line, 5));
      var sum := AddWord(headerSum, i.value, RecordByte(line, 4), RecordByte(line, 5));
      var cksum := ScanByte(line, 13);
      if cksum.None? {
        assert !HasByte(line, 6);
        return None;
      }
      assert HasByte(line, 6) && cksum.value == RecordByte(line, 6);
      SumSteps(line, 4);
      assert SumTo(line, 7) == sum + cksum.value;
      var zero := SumIsZero(sum, cksum.value);
      return if zero then i else None;
    }

    /** A record that is not a data record: the end, an extended address, or one of no effect. */
    method ReadSpecialRecord(line: string, headerSum: nat)
      requires Valid() && Framed(line) && TypeOf(line) != 0 && headerSum == SumTo(line, 4)
      requires AddressOf(line) + extendedAddr + LengthOf(line) < MAX_MEMORY_SIZE
      modifies this
      ensures var m := LineMeaning(line, old(extendedAddr));
              (m.End? || m.Base? || m.Ignored?) && Snapshot() == After(old(Snapshot()), m)
    {
      ghost var m := LineMeaning(line, extendedAddr);
      var code, len: nat := TypeOf(line), LengthOf(line);
      if code == 1 {
        endRecordSeen := true;
        return;
      }
      if code == 2 && len == 2 {
        var i := ReadAddressRecord(line, headerSum);
        if i.None? {
          assert m == Ignored;
          return;
        }
        extendedAddr := i.value as int * 16;
      }
      if code == 4 && len == 2 {
        var i := ReadAddressRecord(line, headerSum);
        if i.None? {
          assert m == Ignored;
          return;
        }
        extendedAddr := i.value as int * 0x1_0000;
      }
    }

    /** A data record: counted whether or not its checksum holds, but loaded only if it does. */
    method ReadDataRecord(line: string, len: nat, start: nat, headerSum: nat) returns (r: int)
      requires Valid() && Framed(line) && TypeOf(line) == 0 && headerSum == SumTo(line, 4)
      requires len == LengthOf(line) && start == AddressOf(line) + extendedAddr && start + len < MAX_MEMORY_SIZE
      modifies this, image, mask
      ensures r == if LineMeaning(line, old(extendedAddr)).Malformed? then 0 else 1
      ensures r != 0 ==> Fits(old(Snapshot()), LineMeaning(line, old(extendedAddr)))
      ensures r != 0 ==> Snapshot() == After(old(Snapshot()), LineMeaning(line, old(extendedAddr)))
    {
      DataMeaning(line, extendedAddr);
      byteCount := byteCount + len;
      r := StoreData(line, len, start, headerSum);
    }

    method ParseHexLine(line: string) returns (r: int)
      requires Valid() && line != ""
      modifies this, image, mask
      ensures r == if LineMeaning(line, old(extendedAddr)).Malformed? then 0 else 1
      ensures r != 0 ==> Fits(old(Snapshot()), LineMeaning(line, old(extendedAddr)))
      ensures r != 0 ==> Snapshot() == After(old(Snapshot()), LineMeaning(line, old(extendedAddr)))
    {
      ghost var m := LineMeaning(line, extendedAddr);
      var framed, len, addr, code := ReadHeader(line);
      if !framed { return 0; }
      if addr + extendedAddr + len >= MAX_MEMORY_SIZE { return 0; }
      HeaderSum(line);
      var sum := AddWord(len as int + code as int, addr, RecordByte(line, 1), RecordByte(line, 2));
      if code != 0 {
        ReadSpecialRecord(line, sum);
        return 1;
      }
      r := ReadDataRecord(line, len, addr + extendedAddr, sum);
    }

    /** One more line of a file whose data records so far are `done`. */
    method TakeLine(line: string, ghost done: seq<Chunk>) returns (ok: bool)
      requires Valid() && line != ""
      requires Describes(image[..], mask[..], done) && byteCount == Total(done) && !endRecordSeen
      modifies this, image, mask
      ensures var m := LineMeaning(line, old(extendedAddr));
              && ok == !m.Malformed?
              && (ok ==>
                    && Describes(image[..], mask[..], Extend(done, m)) && byteCount == Total(Extend(done, m))
                    && endRecordSeen == m.End?
                    && extendedAddr == if m.Base? then m.base else old(extendedAddr))
    {
      ghost var before, m := Snapshot(), LineMeaning(line, extendedAddr);
      var r := ParseHexLine(line);
      ok := r != 0;
      if ok {
        ExtendMemory(before, done, m);
      }
    }

    /** Reads a whole file: -1 when it cannot be opened, -2 when a line is malformed, and the
      * number of data bytes otherwise. Nothing of an earlier read remains.
      */
    method ReadIntelHex(file: Option<string>) returns (r: int)
      requires Valid()
      modifies this, image, mask
      ensures r == match file
                   case None => -1
                   case Some(text) =>
                     match Chunks(FileLines(text), 0)
                     case None => -2
                     case Some(cs) => Total(cs)
      ensures r >= 0 ==> Describes(image[..], mask[..], Chunks(FileLines(file.value), 0).value)
    {
      byteCount := 0;
      endRecordSeen := false;
      ClearMemory();
      extendedAddr := 0;
      if file.None? { return -1; }
      var text := file.value;
      ghost var all := Chunks(FileLines(text), 0);
      ghost var done: seq<Chunk> := [];
      PrependNothing(Chunks(FileLines(text), 0));
      while text != ""
        invariant Describes(image[..], mask[..], done) && byteCount == Total(done) && !endRecordSeen
        invariant all == Prepend(done, Chunks(FileLines(text), extendedAddr))
        decreases |text|
      {
        var n := FgetsLength(text, LINE_ROOM);
        var buf := CString(text[..n]);
        ghost var m := LineMeaning(buf, extendedAddr);
        OneMoreLine(done, text, extendedAddr);
        text := text[n..];
        if buf != "" {
          var ok := TakeLine(buf, done);
          if !ok { return -2; }
          done := Extend(done, m);
        }
        if endRecordSeen { break; }
      }
      assert all == Some(done) by {
        assert done + [] == done;
      }
      return byteCount;
    }

    /** Whether any loaded byte lies in `begin..end`, both ends included. */
    method BytesWithinRange(begin: int, end: int) returns (r: bool)
      requires Valid()
      ensures r <==>
                && 0 <= begin < MAX_MEMORY_SIZE && 0 <= end < MAX_MEMORY_SIZE
                && exists a :: begin <= a <= end && mask[a] != 0
    {
      if begin < 0 || begin >= MAX_MEMORY_SIZE || end < 0 || end >= MAX_MEMORY_SIZE { return false; }
      var i := begin;
      while i <= end
        invariant begin <= i && (i <= end + 1 || i == begin)
        invariant forall a :: begin <= a < i ==> mask[a] == 0
      {
        if mask[i] != 0 { return true; }
        i := i + 1;
      }
      return false;
    }

    /** Copies `len` loaded bytes to `bytes[offset..]`, or blanks them when the block reaches
      * the end of the 64 KiB image.
      */
    method GetData(start: int, len: nat, bytes: array<uint8>, offset: nat)
      requires Valid() && offset + len <= bytes.Length && bytes != image && bytes != mask
      modifies bytes
      ensures bytes[..offset] == old(bytes[..offset])
      ensures bytes[offset..offset + len] == BlockData(image[..], mask[..], start, len)
    {
      var addr := start;
      var i := 0;
      if addr < 0 || addr + len >= MAX_MEMORY_SIZE {
        while i < len
          invariant 0 <= i <= len && bytes[..offset] == old(bytes[..offset])
          invariant forall j :: offset <= j < offset + i ==> bytes[j] == 255
        {
          bytes[offset + i] := 255;
          i := i + 1;
        }
        return;
      }
      while i < len
        invariant 0 <= i <= len && addr == start + i && bytes[..offset] == old(bytes[..offset])
        invariant forall j :: offset <= j < offset + i ==>
                    bytes[j] == if mask[start + j - offset] != 0 then image[start + j - offset] else 255
      {
        if mask[addr] != 0 {
          bytes[offset + i] := image[addr];
        } else {
          bytes[offset + i] := 255;
        }
        addr := addr + 1;
        i := i + 1;
      }
    }

    method ClearMemory()
      requires Valid()
      modifies image, mask
      ensures Describes(image[..], mask[..], [])
    {
      var i := 0;
      while i < MAX_MEMORY_SIZE
        invariant 0 <= i <= MAX_MEMORY_SIZE
        invariant forall a :: 0 <= a < i ==> image[a] == 0xFF && mask[a] == 0
      {
        image[i] := 0xFF;
        mask[i] := 0;
        i := i + 1;
      }
    }
  }

  lemma {:induction false} ExtendMemory(s: Memory, done: seq<Chunk>, m: Meaning)
    requires Describes(s.image, s.mask, done) && s.count == Total(done) && Fits(s, m)
    ensures Describes(After(s, m).image, After(s, m).mask, Extend(done, m))
    ensures After(s, m).count == Total(Extend(done, m))
  {
    if m.Data? {
      var all := Extend(done, m);
      assert all[..|all| - 1] == done;
      var s' := After(s, m);
      forall a | 0 <= a < MAX_MEMORY_SIZE
        ensures s'.image[a] == Cell(all, a)
        ensures s'.mask[a] == if LastWrite(all, a).Some? then 1 else 0
      {
        assert LastWrite(all, a) == if all[|all| - 1].Covers(a) then Some(m.bytes[a - m.at]) else LastWrite(done, a);
      }
    }
  }

  /** The chunks read so far after a further line. */
  function Extend(done: seq<Chunk>, m: Meaning): seq<Chunk> {
    if m.Data? then done + [Chunk(m.at, m.bytes)] else done
  }

  /** How the chunks of a text follow from its first line and the rest. */
  lemma OneMoreLine(done: seq<Chunk>, text: string, base: nat)
    requires text != ""
    ensures
      var n := FgetsLength(text, LINE_ROOM);
      var line, rest := CString(text[..n]), FileLines(text[n..]);
      var m := LineMeaning(line, base);
      Prepend(done, Chunks(FileLines(text), base)) ==
        if line == "" then Prepend(done, Chunks(rest, base))
        else if m.Malformed? then None
        else if m.End? then Some(done)
        else Prepend(Extend(done, m), Chunks(rest, if m.Base? then m.base else base))
  {
    var n := FgetsLength(text, LINE_ROOM);
    var line, rest := CString(text[..n]), FileLines(text[n..]);
    if line != "" {
      assert FileLines(text) == [line] + rest;
      var lines := FileLines(text);
      assert lines[0] == line && lines[1..] == rest;
      var m := LineMeaning(line, base);
      assert done + [] == done;
      if m.Data? && Chunks(rest, base).Some? {
        var cs := Chunks(rest, base).value;
        assert done + ([Chunk(m.at, m.bytes)] + cs) == (done + [Chunk(m.at, m.bytes)]) + cs;
      }
    } else {
      assert FileLines(text) == rest;
    }
  }

  lemma PrependNothing(rest: Option<seq<Chunk>>)
    ensures Prepend([], rest) == rest
  {
    if rest.Some? {
      assert [] + rest.value == rest.value;
    }
  }

  /** `done` followed by the chunks still to come, if those are well formed. */
  function Prepend(done: seq<Chunk>, rest: Option<seq<Chunk>>): Option<seq<Chunk>> {
    match rest
    case None => None
    case Some(cs) => Some(done + cs)
  }

  lemma WordParts(hi: uint8, lo: uint8)
    ensures Word(hi, lo) / 256 == hi && Word(hi, lo) % 256 == lo
  {
  }

  lemma SumSteps(line: string, n: nat)
    requires HasBytes(line, n + 2)
    ensures SumTo(line, n + 2) == SumTo(line, n) + RecordByte(line, n) as int + RecordByte(line, n + 1)
  {
    assert SumTo(line, n + 1) == SumTo(line, n) + RecordByte(line, n);
  }

  lemma HeaderSum(line: string)
    requires Framed(line)
    ensures HasBytes(line, 4)
    ensures SumTo(line, 4) == LengthOf(line) as int + RecordByte(line, 1) as int + RecordByte(line, 2) as int + TypeOf(line)
  {
    SumSteps(line, 0);
    SumSteps(line, 2);
  }
}
