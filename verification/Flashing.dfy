/** The loader's main routine: read the file, then send it block by block to a bootloader that
  * erases the chip when the first block arrives.
  */
module Flashing {
  import opened Words
  import opened IntelHex
  import opened IntelHexLoader
  import opened IntelHexEncoding

  predicate IsMultiple(n: nat, size: nat)
    requires size > 0
  {
    n == 0 || (n >= size && IsMultiple(n - size, size))
  }

  /** What a transfer asks the bootloader to do. */
  datatype Transfer = SendTo(address: nat) | StartProgram

  /** The bootloader at the other end of the cable. A block is addressed in bytes on chips below
    * 64 KiB and in 256-byte pages above; the address 0xFFFF is the command to start the program.
    */
  class Device {
    const flash: array<uint8>
    const codeSize: nat
    const blockSize: nat
    var erased: bool
    var started: bool
    ghost var log: seq<Transfer>

    ghost predicate Valid() {
      flash.Length == codeSize && 0 < blockSize <= 256 && IsMultiple(codeSize, blockSize)
    }

    /** The byte address that a two-byte block address stands for. */
    function Target(low: uint8, high: uint8): nat {
      var n := high as int * 256 + low as int;
      if codeSize < 0x10000 then n else 256 * n
    }

    /** Takes one block. `ok` is false when the transfer fails on the way; `log` records it anyway. */
    method Write(buf: array<uint8>, ok: bool) returns (r: bool)
      requires Valid() && buf.Length >= 2 + blockSize && buf != flash
      requires buf[0] == buf[1] == 0xFF || Target(buf[0], buf[1]) + blockSize <= codeSize
      modifies this, flash
      ensures r == ok
      ensures log == old(log) + [if buf[0] == buf[1] == 0xFF then StartProgram else SendTo(Target(buf[0], buf[1]))]
      ensures !ok ==> flash[..] == old(flash[..]) && erased == old(erased) && started == old(started)
      ensures ok && buf[0] == buf[1] == 0xFF ==>
                started && erased == old(erased) && flash[..] == old(flash[..])
      ensures ok && !(buf[0] == buf[1] == 0xFF) ==> erased && started == old(started)
      ensures ok && !(buf[0] == buf[1] == 0xFF) ==>
                flash[..] == Lay(if old(erased) then old(flash[..]) else Blank(codeSize), Target(buf[0], buf[1]), buf[2..2 + blockSize])
    {
      log := log + [if buf[0] == buf[1] == 0xFF then StartProgram else SendTo(Target(buf[0], buf[1]))];
      if !ok { return false; }
      if buf[0] == 0xFF && buf[1] == 0xFF {
        started := true;
        return true;
      }
      if !erased {
        forall a | 0 <= a < codeSize {
          flash[a] := 0xFF;
        }
        erased := true;
        assert flash[..] == Blank(codeSize);
      }
      ghost var before := flash[..];
      var at := Target(buf[0], buf[1]);
      forall k | 0 <= k < blockSize {
        flash[at + k] := buf[2 + k];
      }
      assert flash[..] == Lay(before, at, buf[2..2 + blockSize]);
      return true;
    }
  }

  /** Erased flash. */
  function Blank(n: nat): seq<uint8> {
    seq(n, a => 0xFF)
  }

  datatype Result = Done | ReadError | WriteError

  /** Where the block that holds address `a` ends. */
  function BlockEnd(a: nat, size: nat): nat
    requires size > 0
  {
    if a < size then size else BlockEnd(a - size, size) + size
  }

  lemma {:induction false} BlockEndIs(a: nat, size: nat)
    requires size == 128 || size == 256
    ensures BlockEnd(a, size) == a / size * size + size
  {
    if a >= size {
      BlockEndIs(a - size, size);
    }
  }

  /** The block holding address `a` ends below the top of the loader's image. */
  predicate InReach(a: nat, blockSize: nat)
    requires blockSize > 0
  {
    BlockEnd(a, blockSize) < MAX_MEMORY_SIZE
  }

  /** `k` blocks of `size` bytes. */
  function Times(k: nat, size: nat): nat {
    if k == 0 then 0 else Times(k - 1, size) + size
  }

  lemma {:induction false} Pages(k: nat)
    ensures Times(k, 256) == 256 * k
  {
    if k > 0 {
      Pages(k - 1);
    }
  }

  lemma {:induction false} InBlock(a: nat, size: nat, k: nat)
    requires size > 0 && Times(k, size) <= a < Times(k, size) + size
    ensures BlockEnd(a, size) == Times(k, size) + size
  {
    if k > 0 {
      InBlock(a - size, size, k - 1);
    }
  }

  /** A byte address below 64 KiB from its two bytes. */
  lemma ByteAddress(addr: nat)
    requires addr < 0x10000
    ensures addr / 256 % 256 * 256 + addr % 256 == addr
  {
  }

  /** The address of a 256-byte page from the two bytes of its number. */
  lemma PageAddress(addr: nat, page: nat)
    requires addr == 256 * page < 0xFFFF00
    ensures addr / 256 == page && addr / 0x1_0000 == page / 256
    ensures 256 * (page / 256 % 256 * 256 + page % 256) == addr
    ensures !(page % 256 == page / 256 % 256 == 0xFF)
  {
    ByteAddress(page);
  }

  lemma BlockAddress(dev: Device, addr: nat, k: nat)
    requires dev.Valid() && addr == Times(k, dev.blockSize) < dev.codeSize <= 0xFFFF00
    requires dev.codeSize >= 0x10000 ==> dev.blockSize == 256
    ensures dev.codeSize < 0x10000 ==> dev.Target(addr % 256, addr / 256 % 256) == addr
    ensures dev.codeSize >= 0x10000 ==>
              && dev.Target(addr / 256 % 256, addr / 0x1_0000 % 256) == addr
              && !(addr / 256 % 256 == addr / 0x1_0000 % 256 == 0xFF)
  {
    if dev.codeSize < 0x10000 {
      ByteAddress(addr);
    } else {
      Pages(k);
      PageAddress(addr, k);
    }
  }

  /** Below 64 KiB a block's address is never the start command, which leaves no room for a block. */
  lemma NotStartCommand(addr: nat, size: nat, codeSize: nat)
    requires addr + size <= codeSize < 0x10000 && size > 0
    ensures !(addr % 256 == addr / 256 % 256 == 0xFF)
  {
    ByteAddress(addr);
  }

  /** A block that starts inside a whole number of blocks ends there too. */
  lemma {:induction false} BlockFits(n: nat, size: nat, k: nat)
    requires size > 0 && IsMultiple(n, size) && Times(k, size) < n
    ensures Times(k, size) + size <= n
    decreases k
  {
    if k > 0 {
      BlockFits(n - size, size, k - 1);
    }
  }

  /** Chunks of an accepted file end below the top of the image. */
  lemma {:induction false} ChunksFit(lines: seq<string>, base: nat)
    requires Chunks(lines, base).Some?
    ensures forall c :: c in Chunks(lines, base).value ==> c.at + |c.bytes| < MAX_MEMORY_SIZE
    decreases |lines|
  {
    if lines != [] {
      match LineMeaning(lines[0], base)
      case Malformed =>
      case End =>
      case Ignored => ChunksFit(lines[1..], base);
      case Base(b) => ChunksFit(lines[1..], b);
      case Data(at, bytes) => ChunksFit(lines[1..], base);
    }
  }

  lemma NothingAbove(cs: seq<Chunk>, a: int)
    requires forall c :: c in cs ==> c.at + |c.bytes| < MAX_MEMORY_SIZE
    requires a >= MAX_MEMORY_SIZE - 1
    ensures LastWrite(cs, a).None?
  {
    LastWriteIffCovered(cs, a);
  }

  ghost function FileChunks(file: Option<string>): Option<seq<Chunk>> {
    match file
    case None => None
    case Some(text) => Chunks(FileLines(text), 0)
  }

  /** What programming leaves in cell `a`. */
  function FlashCell(cs: seq<Chunk>, blockSize: nat, a: nat): uint8
    requires blockSize > 0
  {
    if InReach(a, blockSize) then Cell(cs, a) else 0xFF
  }

  /** The first `addr` cells are programmed; the rest is erased once anything has been sent. */
  ghost predicate ProgrammedTo(flash: seq<uint8>, cs: seq<Chunk>, blockSize: nat, addr: nat)
    requires blockSize > 0
  {
    && (forall a: nat :: a < addr && a < |flash| ==> flash[a] == FlashCell(cs, blockSize, a))
    && (forall a: nat :: addr <= a < |flash| ==> flash[a] == 0xFF)
  }

  /** A block that must be sent: the first, which erases the chip, and every one that holds a loaded
    * byte and lies in the image.
    */
  ghost predicate IsNeeded(cs: seq<Chunk>, blockSize: nat, addr: nat) {
    addr == 0 || (addr + blockSize <= MAX_MEMORY_SIZE && exists a :: addr <= a < addr + blockSize && LastWrite(cs, a).Some?)
  }

  ghost function OneTransfer(cs: seq<Chunk>, blockSize: nat, addr: nat): seq<Transfer> {
    if IsNeeded(cs, blockSize, addr) then [SendTo(addr)] else []
  }

  /** The transfers for the blocks from `addr` on. */
  ghost function Transfers(cs: seq<Chunk>, blockSize: nat, addr: nat, codeSize: nat): seq<Transfer>
    requires blockSize > 0
    decreases codeSize - addr
  {
    if addr >= codeSize then [] else OneTransfer(cs, blockSize, addr) + Transfers(cs, blockSize, addr + blockSize, codeSize)
  }

  /** Every block asked for gets through, when `outcomes` says for each address whether it does. */
  predicate GetThrough(ts: seq<Transfer>, outcomes: seq<bool>) {
    forall i :: 0 <= i < |ts| && ts[i].SendTo? && ts[i].address < |outcomes| ==> outcomes[ts[i].address]
  }

  /** Nothing is loaded in the block, or it is not in the image. */
  ghost predicate IsVacant(mask: seq<uint8>, blockSize: nat, addr: nat)
    requires |mask| == MAX_MEMORY_SIZE
  {
    addr + blockSize <= MAX_MEMORY_SIZE ==> forall a :: addr <= a < addr + blockSize ==> mask[a] == 0
  }

  lemma VacantIsNotNeeded(mask: seq<uint8>, image: seq<uint8>, cs: seq<Chunk>, blockSize: nat, addr: nat)
    requires Describes(image, mask, cs) && addr > 0
    ensures IsNeeded(cs, blockSize, addr) <==> !IsVacant(mask, blockSize, addr)
  {
    if addr + blockSize <= MAX_MEMORY_SIZE {
      assert forall a :: addr <= a < addr + blockSize ==> (mask[a] != 0 <==> LastWrite(cs, a).Some?);
    }
  }

  /** The test that the loop makes on all blocks but the first. */
  method IsUsed(loader: Loader, addr: nat, blockSize: nat, ghost cs: seq<Chunk>) returns (used: bool)
    requires loader.Valid() && Describes(loader.image[..], loader.mask[..], cs) && blockSize > 0 && addr > 0
    ensures used <==> IsNeeded(cs, blockSize, addr)
    ensures used <==> !IsVacant(loader.mask[..], blockSize, addr)
  {
    VacantIsNotNeeded(loader.mask[..], loader.image[..], cs, blockSize, addr);
    used := loader.BytesWithinRange(addr, addr + blockSize - 1);
  }

  /** One turn of the block loop: the block at `addr` is sent, or skipped when it is not the
    * first and holds no loaded byte.
    */
  method ProgramBlock(loader: Loader, dev: Device, buf: array<uint8>, addr: nat, ok: bool, ghost k: nat, ghost cs: seq<Chunk>)
    returns (r: bool)
    requires loader.Valid() && dev.Valid() && buf.Length == 260
    requires buf != dev.flash && buf != loader.image && buf != loader.mask
    requires addr == Times(k, dev.blockSize) < dev.codeSize <= 0xFFFF00 && (dev.codeSize >= 0x10000 ==> dev.blockSize == 256)
    requires Describes(loader.image[..], loader.mask[..], cs)
    requires dev.flash != loader.image && dev.flash != loader.mask
    requires dev.erased == (addr > 0) && (addr > 0 ==> ProgrammedTo(dev.flash[..], cs, dev.blockSize, addr))
    modifies buf, dev, dev.flash
    ensures dev.started == old(dev.started)
    ensures r ==> dev.erased && ProgrammedTo(dev.flash[..], cs, dev.blockSize, addr + dev.blockSize)
    ensures r == (ok || !IsNeeded(cs, dev.blockSize, addr))
    ensures dev.log == old(dev.log) + OneTransfer(cs, dev.blockSize, addr)
    ensures addr + dev.blockSize <= dev.codeSize
  {
    ghost var image, mask, flash := loader.image[..], loader.mask[..], dev.flash[..];
    BlockFits(dev.codeSize, dev.blockSize, k);
    if addr > 0 {
      var used := IsUsed(loader, addr, dev.blockSize, cs);
      if !used {
        assert dev.log + [] == dev.log;
        BlockSkipped(flash, image, mask, cs, dev.blockSize, addr, k);
        return true;
      }
    }
    BlockSent(dev.erased, flash, image, mask, cs, dev.blockSize, addr, k);
    r := SendBlock(loader, dev, buf, addr, ok, k);
  }

  /** Sends the block at `addr`. */
  method SendBlock(loader: Loader, dev: Device, buf: array<uint8>, addr: nat, ok: bool, ghost k: nat) returns (r: bool)
    requires loader.Valid() && dev.Valid() && buf.Length == 260
    requires buf != dev.flash && buf != loader.image && buf != loader.mask
    requires dev.flash != loader.image && dev.flash != loader.mask
    requires addr == Times(k, dev.blockSize) < dev.codeSize <= 0xFFFF00 && (dev.codeSize >= 0x10000 ==> dev.blockSize == 256)
    modifies buf, dev, dev.flash
    ensures r == ok && dev.started == old(dev.started)
    ensures dev.log == old(dev.log) + [SendTo(addr)]
    ensures r ==> dev.erased
    ensures r ==> addr + dev.blockSize <= dev.codeSize
    ensures r ==> dev.flash[..] == Lay(if old(dev.erased) then old(dev.flash[..]) else Blank(dev.codeSize), addr,
                                       BlockData(loader.image[..], loader.mask[..], addr, dev.blockSize))
  {
    SetAddress(dev, buf, addr, k);
    ghost var head := buf[..2];
    loader.GetData(addr, dev.blockSize, buf, 2);
    assert buf[0] == head[0] && buf[1] == head[1];
    r := dev.Write(buf, ok);
  }

  /** Writes the two address bytes of the block at `addr`. */
  method SetAddress(dev: Device, buf: array<uint8>, addr: nat, ghost k: nat)
    requires dev.Valid() && buf.Length == 260
    requires addr == Times(k, dev.blockSize) < dev.codeSize <= 0xFFFF00 && (dev.codeSize >= 0x10000 ==> dev.blockSize == 256)
    modifies buf
    ensures addr + dev.blockSize <= dev.codeSize
    ensures dev.Target(buf[0], buf[1]) == addr && !(buf[0] == buf[1] == 0xFF)
  {
    BlockFits(dev.codeSize, dev.blockSize, k);
    BlockAddress(dev, addr, k);
    if dev.codeSize < 0x10000 {
      NotStartCommand(addr, dev.blockSize, dev.codeSize);
      buf[0], buf[1] := addr % 256, addr / 256 % 256;
    } else {
      buf[0], buf[1] := addr / 256 % 256, addr / 0x1_0000 % 256;
    }
  }

  lemma DataIsCells(image: seq<uint8>, mask: seq<uint8>, cs: seq<Chunk>, blockSize: nat, addr: nat, k: nat)
    requires Describes(image, mask, cs) && blockSize > 0 && addr == Times(k, blockSize)
    ensures forall j: nat :: j < blockSize ==>
              BlockData(image, mask, addr, blockSize)[j] == FlashCell(cs, blockSize, addr + j)
  {
    forall j: nat | j < blockSize
      ensures BlockData(image, mask, addr, blockSize)[j] == FlashCell(cs, blockSize, addr + j)
    {
      InBlock(addr + j, blockSize, k);
    }
  }

  /** Leaving out a block that holds nothing extends what is programmed, as it stays erased. */
  lemma BlockSkipped(flash: seq<uint8>, image: seq<uint8>, mask: seq<uint8>, cs: seq<Chunk>, blockSize: nat, addr: nat, k: nat)
    requires Describes(image, mask, cs) && blockSize > 0 && addr == Times(k, blockSize)
    requires ProgrammedTo(flash, cs, blockSize, addr)
    requires IsVacant(mask, blockSize, addr)
    ensures ProgrammedTo(flash, cs, blockSize, addr + blockSize)
  {
    forall a: nat | addr <= a < addr + blockSize ensures FlashCell(cs, blockSize, a) == 0xFF {
      InBlock(a, blockSize, k);
    }
  }

  /** Sending a block extends what is programmed; the first one erases the rest. */
  lemma BlockSent(erased: bool, flash: seq<uint8>, image: seq<uint8>, mask: seq<uint8>, cs: seq<Chunk>,
                  blockSize: nat, addr: nat, k: nat)
    requires Describes(image, mask, cs) && blockSize > 0 && addr == Times(k, blockSize) && addr + blockSize <= |flash|
    requires if erased then ProgrammedTo(flash, cs, blockSize, addr) else addr == 0
    ensures ProgrammedTo(Lay(if erased then flash else Blank(|flash|), addr, BlockData(image, mask, addr, blockSize)),
                         cs, blockSize, addr + blockSize)
  {
    DataIsCells(image, mask, cs, blockSize, addr, k);
    LayBlock(if erased then flash else Blank(|flash|), BlockData(image, mask, addr, blockSize), cs, blockSize, addr);
  }

  lemma LayBlock(flash: seq<uint8>, data: seq<uint8>, cs: seq<Chunk>, blockSize: nat, addr: nat)
    requires blockSize > 0 && |data| == blockSize && addr + blockSize <= |flash|
    requires ProgrammedTo(flash, cs, blockSize, addr)
    requires forall j: nat :: j < blockSize ==> data[j] == FlashCell(cs, blockSize, addr + j)
    ensures ProgrammedTo(Lay(flash, addr, data), cs, blockSize, addr + blockSize)
  {
    var laid := Lay(flash, addr, data);
    forall a: nat | a < addr + blockSize ensures laid[a] == FlashCell(cs, blockSize, a) {
      if a >= addr {
        assert data[a - addr] == FlashCell(cs, blockSize, addr + (a - addr));
      }
    }
  }

  /** The flash and block sizes that the command line options can select. */
  predicate IsChip(codeSize: nat, blockSize: nat) {
    || (codeSize == 128 * 1024 && blockSize == 256)
    || (codeSize == 64 * 1024 && blockSize == 256)
    || (codeSize == 32 * 1024 && blockSize == 128)
    || (codeSize == 16 * 1024 && blockSize == 128)
    || (codeSize == 8 * 1024 && blockSize == 128)
  }

  /** The last page of the loader's 64 KiB image. */
  predicate TopPageIsBlank(cs: seq<Chunk>) {
    forall a :: MAX_MEMORY_SIZE - 256 <= a < MAX_MEMORY_SIZE ==> Cell(cs, a) == 0xFF
  }

  /** Exactly when programming leaves the memory the file describes: always on chips below
    * 64 KiB, and on larger ones only when the file has nothing but 0xFF in the last page of the
    * image, which the loader always sends blank.
    */
  lemma FaithfulIff(cs: seq<Chunk>, codeSize: nat, blockSize: nat)
    requires IsChip(codeSize, blockSize)
    requires forall c :: c in cs ==> c.at + |c.bytes| < MAX_MEMORY_SIZE
    ensures (forall a: nat :: a < codeSize ==> FlashCell(cs, blockSize, a) == Cell(cs, a))
              <==> codeSize < MAX_MEMORY_SIZE || TopPageIsBlank(cs)
  {
    if codeSize >= MAX_MEMORY_SIZE {
      forall a: nat | a < codeSize ensures InReach(a, blockSize) <==> a < MAX_MEMORY_SIZE - 256 {
        BlockEndIs(a, blockSize);
      }
      forall a: nat | a >= MAX_MEMORY_SIZE ensures Cell(cs, a) == 0xFF {
        NothingAbove(cs, a);
      }
      if !TopPageIsBlank(cs) {
        var a :| MAX_MEMORY_SIZE - 256 <= a < MAX_MEMORY_SIZE && Cell(cs, a) != 0xFF;
        assert FlashCell(cs, blockSize, a) == 0xFF;
      }
    } else {
      forall a: nat | a < codeSize ensures InReach(a, blockSize) {
        BlockEndIs(a, blockSize);
      }
    }
  }

  /** There is a file that the loader accepts and that a 64 KiB chip does not get: one byte in
    * the last page is enough.
    */
  lemma LostByte()
    ensures exists text: string, cs: seq<Chunk> ::
              && FileChunks(Some(text)) == Some(cs)
              && Cell(cs, 0xFF00) != FlashCell(cs, 256, 0xFF00)
  {
    var s := Segment(false, 0, 0xFF00, [0]);
    var segments := [s];
    var text := Encode(segments);
    RoundTrip(segments);
    var cs := FileChunks(Some(text)).value;
    assert LastWrite(cs, 0xFF00) == LastWrite(Placements(segments), 0xFF00);
    assert Placements(segments) == [s.Placed()];
    One(s.Placed(), 0xFF00);
    BlockEndIs(0xFF00, 256);
    assert FileChunks(Some(text)) == Some(cs) && Cell(cs, 0xFF00) != FlashCell(cs, 256, 0xFF00);
  }

  /** The flash contents a file asks for. */
  function FileImage(cs: seq<Chunk>, codeSize: nat): seq<uint8> {
    seq(codeSize, a => Cell(cs, a))
  }

  /** The flash that the printed text of segments asks for is what the segments describe. */
  lemma PrintedImage(segments: seq<Segment>, codeSize: nat)
    requires AllInRange(segments)
    ensures FileChunks(Some(Encode(segments))).Some?
    ensures FileImage(FileChunks(Some(Encode(segments))).value, codeSize) == FileImage(Placements(segments), codeSize)
  {
    RoundTrip(segments);
    var cs := FileChunks(Some(Encode(segments))).value;
    forall a | 0 <= a < codeSize ensures Cell(cs, a) == Cell(Placements(segments), a) {
      assert LastWrite(cs, a) == LastWrite(Placements(segments), a);
    }
  }

  lemma FlashIsFileIff(flash: seq<uint8>, cs: seq<Chunk>, codeSize: nat, blockSize: nat)
    requires IsChip(codeSize, blockSize) && |flash| == codeSize
    requires forall c :: c in cs ==> c.at + |c.bytes| < MAX_MEMORY_SIZE
    requires ProgrammedTo(flash, cs, blockSize, codeSize)
    ensures flash == FileImage(cs, codeSize) <==> codeSize < MAX_MEMORY_SIZE || TopPageIsBlank(cs)
  {
    FaithfulIff(cs, codeSize, blockSize);
    if flash == FileImage(cs, codeSize) {
      forall a: nat | a < codeSize ensures FlashCell(cs, blockSize, a) == Cell(cs, a) {
        assert flash[a] == FileImage(cs, codeSize)[a];
      }
    }
  }

  /** `done` got through and is what `all` starts with; the blocks from `addr` on are left. */
  ghost predicate Underway(done: seq<Transfer>, all: seq<Transfer>, outcomes: seq<bool>,
                           cs: seq<Chunk>, blockSize: nat, addr: nat, codeSize: nat)
    requires blockSize > 0
  {
    all == done + Transfers(cs, blockSize, addr, codeSize) && GetThrough(done, outcomes)
  }

  /** `sent` ends with the first transfer of `all` that fails. */
  ghost predicate Stopped(sent: seq<Transfer>, all: seq<Transfer>, outcomes: seq<bool>) {
    && 0 < |sent| && sent <= all
    && GetThrough(sent[..|sent| - 1], outcomes) && !GetThrough(sent, outcomes)
  }

  /** One turn of the loop, in the list of transfers. */
  lemma OneMore(done: seq<Transfer>, all: seq<Transfer>, outcomes: seq<bool>,
                cs: seq<Chunk>, blockSize: nat, addr: nat, codeSize: nat)
    requires blockSize > 0 && addr < codeSize && addr < |outcomes|
    requires Underway(done, all, outcomes, cs, blockSize, addr, codeSize)
    ensures var sent := done + OneTransfer(cs, blockSize, addr);
            if outcomes[addr] || !IsNeeded(cs, blockSize, addr) then
              Underway(sent, all, outcomes, cs, blockSize, addr + blockSize, codeSize)
            else Stopped(sent, all, outcomes) && !GetThrough(all, outcomes)
  {
    var one, rest := OneTransfer(cs, blockSize, addr), Transfers(cs, blockSize, addr + blockSize, codeSize);
    assert all == done + one + rest;
    if one == [] {
      assert done + one == done;
    } else {
      assert (done + one)[..|done + one| - 1] == done;
      assert all[|done|] == (done + one)[|done|] == SendTo(addr);
    }
  }

  ghost function Extended(log: seq<Transfer>, sent: seq<Transfer>, one: seq<Transfer>): (r: seq<Transfer>)
    ensures r == sent + one && log + sent + one == log + r
  {
    sent + one
  }

  /** One turn of the loop, and what it adds to what has been sent. */
  method ProgramTurn(loader: Loader, dev: Device, buf: array<uint8>, addr: nat, ghost k: nat, ghost cs: seq<Chunk>,
                     ghost log: seq<Transfer>, ghost done: seq<Transfer>, ghost all: seq<Transfer>, outcomes: seq<bool>)
    returns (r: bool, ghost sent: seq<Transfer>)
    requires loader.Valid() && dev.Valid() && buf.Length == 260
    requires buf != dev.flash && buf != loader.image && buf != loader.mask
    requires dev.flash != loader.image && dev.flash != loader.mask
    requires addr == Times(k, dev.blockSize) < dev.codeSize <= 0xFFFF00 && (dev.codeSize >= 0x10000 ==> dev.blockSize == 256)
    requires Describes(loader.image[..], loader.mask[..], cs)
    requires dev.erased == (addr > 0) && (addr > 0 ==> ProgrammedTo(dev.flash[..], cs, dev.blockSize, addr))
    requires dev.log == log + done && |outcomes| >= dev.codeSize
    requires Underway(done, all, outcomes, cs, dev.blockSize, addr, dev.codeSize)
    modifies buf, dev, dev.flash
    ensures dev.started == old(dev.started) && dev.log == log + sent
    ensures r ==> dev.erased && ProgrammedTo(dev.flash[..], cs, dev.blockSize, addr + dev.blockSize)
    ensures if r then Underway(sent, all, outcomes, cs, dev.blockSize, addr + dev.blockSize, dev.codeSize)
            else Stopped(sent, all, outcomes) && !GetThrough(all, outcomes)
    ensures addr + dev.blockSize <= dev.codeSize
  {
    OneMore(done, all, outcomes, cs, dev.blockSize, addr, dev.codeSize);
    r := ProgramBlock(loader, dev, buf, addr, outcomes[addr], k, cs);
    sent := Extended(log, done, OneTransfer(cs, dev.blockSize, addr));
  }

  lemma NoneSent(all: seq<Transfer>, outcomes: seq<bool>, cs: seq<Chunk>, blockSize: nat, codeSize: nat)
    requires blockSize > 0 && all == Transfers(cs, blockSize, 0, codeSize)
    ensures Underway([], all, outcomes, cs, blockSize, 0, codeSize)
  {
    assert [] + all == all;
  }

  lemma AllSent(sent: seq<Transfer>, all: seq<Transfer>, outcomes: seq<bool>, cs: seq<Chunk>, blockSize: nat, codeSize: nat)
    requires blockSize > 0 && Underway(sent, all, outcomes, cs, blockSize, codeSize, codeSize)
    ensures sent == all && GetThrough(all, outcomes)
  {
    assert sent + [] == sent;
  }

  /** The block loop. */
  method ProgramAll(loader: Loader, dev: Device, buf: array<uint8>, outcomes: seq<bool>, ghost cs: seq<Chunk>)
    returns (r: bool, ghost sent: seq<Transfer>)
    requires loader.Valid() && dev.Valid() && !dev.erased && buf.Length == 260
    requires buf != dev.flash && buf != loader.image && buf != loader.mask
    requires IsChip(dev.codeSize, dev.blockSize) && |outcomes| >= dev.codeSize
    requires Describes(loader.image[..], loader.mask[..], cs)
    requires dev.flash != loader.image && dev.flash != loader.mask
    modifies buf, dev, dev.flash
    ensures r ==> ProgrammedTo(dev.flash[..], cs, dev.blockSize, dev.codeSize)
    ensures dev.log == old(dev.log) + sent
    ensures var all := Transfers(cs, dev.blockSize, 0, dev.codeSize);
            && r == GetThrough(all, outcomes)
            && if r then sent == all else Stopped(sent, all, outcomes)
    ensures dev.started == old(dev.started)
  {
    var blockSize, codeSize := dev.blockSize, dev.codeSize;
    ghost var log, all := dev.log, Transfers(cs, blockSize, 0, codeSize);
    NoneSent(all, outcomes, cs, blockSize, codeSize);
    ghost var k := 0;
    sent := Extended(log, [], []);
    var addr := 0;
    while addr < codeSize
      invariant addr == Times(k, blockSize) && addr <= codeSize
      invariant Describes(loader.image[..], loader.mask[..], cs)
      invariant dev.erased == (addr > 0) && dev.started == old(dev.started)
      invariant addr > 0 ==> ProgrammedTo(dev.flash[..], cs, blockSize, addr)
      invariant dev.log == log + sent
      invariant Underway(sent, all, outcomes, cs, blockSize, addr, codeSize)
      decreases codeSize - addr
    {
      r, sent := ProgramTurn(loader, dev, buf, addr, k, cs, log, sent, all, outcomes);
      if !r { return; }
      addr := addr + blockSize;
      k := k + 1;
    }
    AllSent(sent, all, outcomes, cs, blockSize, codeSize);
    r := true;
  }

  /** Sends the command to start the program. */
  method Reboot(dev: Device, buf: array<uint8>, ok: bool)
    requires dev.Valid() && buf.Length == 260 && buf != dev.flash
    modifies buf, dev, dev.flash
    ensures dev.flash[..] == old(dev.flash[..])
    ensures dev.started == (ok || old(dev.started))
    ensures dev.log == old(dev.log) + [StartProgram]
  {
    forall i | 0 <= i < 260 {
      buf[i] := if i < 2 then 0xFF else 0;
    }
    var _ := dev.Write(buf, ok);
  }

  /** Reads the file, a second time after waiting for the device, and programs the flash.
    * `outcomes` says which transfers get through.
    */
  method Upload(loader: Loader, first: Option<string>, waited: bool, second: Option<string>,
                dev: Device, outcomes: seq<bool>, reboot: bool)
    returns (result: Result)
    requires loader.Valid() && dev.Valid() && !dev.erased
    requires dev.flash != loader.image && dev.flash != loader.mask
    requires IsChip(dev.codeSize, dev.blockSize) && |outcomes| > dev.codeSize
    modifies loader, loader.image, loader.mask, dev, dev.flash
    ensures result == ReadError <==> FileChunks(first).None? || (waited && FileChunks(second).None?)
    ensures result == ReadError ==> dev.flash[..] == old(dev.flash[..]) && dev.log == old(dev.log)
    ensures result == Done ==>
              var cs := FileChunks(if waited then second else first).value;
              && ProgrammedTo(dev.flash[..], cs, dev.blockSize, dev.codeSize)
              && (dev.flash[..] == FileImage(cs, dev.codeSize) <==> dev.codeSize < MAX_MEMORY_SIZE || TopPageIsBlank(cs))
    ensures result != ReadError ==>
              var all := Transfers(FileChunks(if waited then second else first).value, dev.blockSize, 0, dev.codeSize);
              && (result == Done <==> GetThrough(all, outcomes))
              && (result == Done ==> dev.log == old(dev.log) + all + if reboot then [StartProgram] else [])
              && (result == WriteError ==> old(dev.log) <= dev.log && Stopped(dev.log[|old(dev.log)|..], all, outcomes))
    ensures dev.started == (old(dev.started) || (result == Done && reboot && outcomes[dev.codeSize]))
  {
    var blockSize, codeSize := dev.blockSize, dev.codeSize;
    var buf := new uint8[260];
    var num := loader.ReadIntelHex(first);
    if num < 0 { return ReadError; }
    if waited {
      num := loader.ReadIntelHex(second);
      if num < 0 { return ReadError; }
    }
    ghost var cs := FileChunks(if waited then second else first).value;
    ChunksFit(FileLines((if waited then second else first).value), 0);
    ghost var sent;
    var ok;
    ok, sent := ProgramAll(loader, dev, buf, outcomes, cs);
    if !ok { return WriteError; }
    FlashIsFileIff(dev.flash[..], cs, codeSize, blockSize);
    if reboot {
      Reboot(dev, buf, outcomes[codeSize]);
    }
    return Done;
  }
}
