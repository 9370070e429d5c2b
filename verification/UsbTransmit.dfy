/** The serial port's transmit side: a double-buffered bulk IN endpoint, and the flush timer that
  * the writers set and the start-of-frame interrupt counts down.
  */
module UsbTransmit {
  import opened Words

  const CDC_TX_SIZE := 64
  const TRANSMIT_FLUSH_TIMEOUT := 5
  const TRANSMIT_TIMEOUT := 25
  const BANKS := 2

  /** Driver variables and endpoint hardware. `current` is the bank being filled and `waiting` the
    * number of released banks the host has not read. `packets` are the banks released, and
    * `accepted[mark..]` the bytes written to the data register, since the endpoint was last reset.
    */
  datatype Port = Port(configuration: uint8, timer: uint8, gaveUp: bool, frame: uint8,
                       enabled: bool, current: seq<uint8>, waiting: nat,
                       packets: seq<seq<uint8>>, accepted: seq<uint8>, mark: nat)

  /** The RWAL flag: a bank is free and has room. */
  predicate Roomy(p: Port) {
    p.enabled && p.waiting < BANKS && |p.current| < CDC_TX_SIZE
  }

  /** Writing 0x3A to UEINTX: hand the current bank to the host. With no bank free it does nothing. */
  function Release(p: Port): Port {
    if p.enabled && p.waiting < BANKS then
      p.(packets := p.packets + [p.current], current := [], waiting := p.waiting + 1)
    else
      p
  }

  /** Bytes into the bank, the full bank released, and the timer restarted. */
  function PutChunk(p: Port, chunk: seq<uint8>): Port {
    var q := p.(current := p.current + chunk, accepted := p.accepted + chunk);
    (if Roomy(q) then q else Release(q)).(timer := TRANSMIT_FLUSH_TIMEOUT)
  }

  function ChunkSize(p: Port, left: nat): nat
    requires |p.current| <= CDC_TX_SIZE
  {
    Min(CDC_TX_SIZE - |p.current|, left)
  }

  /** Packet after packet while there is a bank with room. */
  function Fill(p: Port, data: seq<uint8>): Port
    decreases |data|
  {
    if data == [] || !Roomy(p) then p
    else
      var n := ChunkSize(p, |data|);
      Fill(PutChunk(p, data[..n]), data[n..])
  }

  /** How many bytes of `data` that takes. */
  function Taken(p: Port, data: seq<uint8>): nat
    decreases |data|
  {
    if data == [] || !Roomy(p) then 0
    else
      var n := ChunkSize(p, |data|);
      n + Taken(PutChunk(p, data[..n]), data[n..])
  }

  function Flushed(p: Port): Port {
    if p.timer != 0 then Release(p).(timer := 0) else p
  }

  function AfterStartOfFrame(p: Port): Port {
    if p.configuration == 0 || p.timer == 0 then p
    else if p.timer == 1 then Release(p.(timer := 0))
    else p.(timer := p.timer - 1)
  }

  /** Every bank empty, and a new account of what is sent. */
  function Emptied(p: Port): Port {
    p.(current := [], waiting := 0, packets := [], mark := |p.accepted|)
  }

  /** A bus reset unconfigures the device; the hardware disables all endpoints but 0. */
  function AfterBusReset(p: Port): Port {
    Emptied(p).(configuration := 0, enabled := false)
  }

  /** SET_CONFIGURATION keeps the low byte of wValue, and sets the endpoints up whatever it is. */
  function AfterSetConfiguration(p: Port, wValue: uint16): Port {
    Emptied(p).(configuration := wValue % 0x100, timer := 0, enabled := true)
  }

  function AfterHostReads(p: Port): Port {
    if p.waiting > 0 then p.(waiting := p.waiting - 1) else p
  }

  predicate Short(packets: seq<seq<uint8>>) {
    forall k :: 0 <= k < |packets| ==> |packets[k]| <= CDC_TX_SIZE
  }

  /** What is on its way to the host is what was written, and a byte still in the bank has a
    * running timer.
    */
  predicate Sound(p: Port) {
    && |p.current| < CDC_TX_SIZE
    && p.waiting <= BANKS
    && p.timer <= TRANSMIT_FLUSH_TIMEOUT
    && (p.current != [] ==> p.enabled && p.waiting < BANKS && p.timer > 0)
    && (p.configuration != 0 ==> p.enabled)
    && Short(p.packets)
    && p.mark <= |p.accepted|
    && Flatten(p.packets) + p.current == p.accepted[p.mark..]
  }

  lemma FlattenSnoc(packets: seq<seq<uint8>>, last: seq<uint8>)
    ensures Flatten(packets + [last]) == Flatten(packets) + last
  {
    assert (packets + [last])[..|packets|] == packets;
  }

  lemma ReleaseKeeps(p: Port)
    requires p.mark <= |p.accepted| && Flatten(p.packets) + p.current == p.accepted[p.mark..]
    requires Short(p.packets) && |p.current| <= CDC_TX_SIZE
    ensures Flatten(Release(p).packets) + Release(p).current == p.accepted[p.mark..]
    ensures Short(Release(p).packets)
  {
    FlattenSnoc(p.packets, p.current);
    assert Flatten(p.packets) + p.current + [] == Flatten(p.packets) + p.current;
  }

  /** A chunk that fits is accepted whole, and released at once if it fills the bank. */
  lemma PutChunkKeeps(p: Port, chunk: seq<uint8>)
    requires Sound(p) && Roomy(p) && 0 < |chunk| <= CDC_TX_SIZE - |p.current|
    ensures Sound(PutChunk(p, chunk))
    ensures PutChunk(p, chunk).accepted == p.accepted + chunk
    ensures |p.current| + |chunk| == CDC_TX_SIZE ==> PutChunk(p, chunk).packets == p.packets + [p.current + chunk]
  {
    var q := p.(current := p.current + chunk, accepted := p.accepted + chunk);
    assert q.accepted[q.mark..] == p.accepted[p.mark..] + chunk;
    assert Flatten(q.packets) + (p.current + chunk) == Flatten(p.packets) + p.current + chunk;
    ReleaseKeeps(q);
  }

  lemma SplitPrefix(before: seq<uint8>, data: seq<uint8>, n: nat, k: nat)
    requires n + k <= |data|
    ensures before + data[..n] + data[n..][..k] == before + data[..n + k]
  {
  }

  lemma SplitWhole(before: seq<uint8>, data: seq<uint8>, n: nat)
    requires n <= |data|
    ensures before + data[..n] + data[n..] == before + data
  {
  }

  lemma DropDrop(data: seq<uint8>, taken: nat, n: nat)
    requires taken + n <= |data|
    ensures data[taken..][n..] == data[taken + n..]
  {
  }

  /** One chunk into a bank with room. */
  lemma FillStep(p: Port, data: seq<uint8>, n: nat, q: Port)
    requires |p.current| < CDC_TX_SIZE && Roomy(p) && data != []
    requires n == ChunkSize(p, |data|) && q == PutChunk(p, data[..n])
    ensures 0 < n <= |data| && Fill(p, data) == Fill(q, data[n..]) && Taken(p, data) == n + Taken(q, data[n..])
    ensures |q.current| < CDC_TX_SIZE && q.accepted == p.accepted + data[..n]
    ensures q.configuration == p.configuration && q.gaveUp == p.gaveUp && q.frame == p.frame
  {
  }

  /** `q` is `p` with the first `k` bytes of the data put in, stopping short of the data's end only
    * when no bank has room.
    */
  ghost predicate FilledTo(p: Port, data: seq<uint8>, q: Port, k: nat) {
    && k <= |data| && q.accepted == p.accepted + data[..k]
    && (k < |data| ==> !Roomy(q))
    && (k == 0 ==> q == p)
    && q.configuration == p.configuration && q.gaveUp == p.gaveUp && q.frame == p.frame
  }

  lemma FilledStep(p: Port, data: seq<uint8>, n: nat, mid: Port, q: Port, k: nat)
    requires 0 < n <= |data| && FilledTo(mid, data[n..], q, k) && mid.accepted == p.accepted + data[..n]
    requires mid.configuration == p.configuration && mid.gaveUp == p.gaveUp && mid.frame == p.frame
    ensures FilledTo(p, data, q, n + k)
  {
    SplitPrefix(p.accepted, data, n, k);
  }

  lemma FilledNothing(p: Port, data: seq<uint8>)
    requires data == [] || !Roomy(p)
    ensures FilledTo(p, data, p, 0)
  {
    assert p.accepted + data[..0] == p.accepted;
  }

  lemma {:induction false} Filled(p: Port, data: seq<uint8>, q: Port, k: nat)
    requires |p.current| < CDC_TX_SIZE && q == Fill(p, data) && k == Taken(p, data)
    ensures FilledTo(p, data, q, k)
    decreases |data|
  {
    if data != [] && Roomy(p) {
      var n := ChunkSize(p, |data|);
      var mid := PutChunk(p, data[..n]);
      FillStep(p, data, n, mid);
      Filled(mid, data[n..], q, k - n);
      FilledStep(p, data, n, mid, q, k - n);
    } else {
      FilledNothing(p, data);
    }
  }

  lemma {:induction false} FillKeepsSound(p: Port, data: seq<uint8>, q: Port)
    requires Sound(p) && q == Fill(p, data)
    ensures Sound(q)
    decreases |data|
  {
    if data != [] && Roomy(p) {
      var n := ChunkSize(p, |data|);
      var chunk, mid := data[..n], PutChunk(p, data[..n]);
      FillStep(p, data, n, mid);
      PutChunkKeeps(p, chunk);
      FillKeepsSound(mid, data[n..], q);
    }
  }

  /** Filling accepts a prefix of the data, and stops short of its end only when no bank has room. */
  lemma FillKeeps(p: Port, data: seq<uint8>)
    requires Sound(p)
    ensures Sound(Fill(p, data))
    ensures Taken(p, data) <= |data| && Fill(p, data).accepted == p.accepted + data[..Taken(p, data)]
    ensures Taken(p, data) < |data| ==> !Roomy(Fill(p, data))
    ensures Taken(p, data) == 0 ==> Fill(p, data) == p
    ensures var q := Fill(p, data); q.configuration == p.configuration && q.gaveUp == p.gaveUp && q.frame == p.frame
  {
    Filled(p, data, Fill(p, data), Taken(p, data));
    FillKeepsSound(p, data, Fill(p, data));
  }

  lemma FlushKeeps(p: Port)
    requires Sound(p)
    ensures Sound(Flushed(p))
  {
    ReleaseKeeps(p);
  }

  lemma StartOfFrameKeeps(p: Port)
    requires Sound(p)
    ensures Sound(AfterStartOfFrame(p))
  {
    ReleaseKeeps(p.(timer := 0));
  }

  lemma ResetKeeps(p: Port, wValue: uint16)
    requires Sound(p)
    ensures Sound(AfterHostReads(p)) && Sound(AfterBusReset(p)) && Sound(AfterSetConfiguration(p, wValue))
  {
    assert p.accepted[|p.accepted|..] == [];
  }

  /** When the timer runs out the bank is released, full or not: an empty one as a zero-length
    * packet. This happens if and only if a bank is free at that moment.
    */
  lemma TimerRunsOut(p: Port)
    requires Sound(p) && p.configuration != 0 && p.timer == 1
    ensures AfterStartOfFrame(p).packets == p.packets + [p.current] <==> p.waiting < BANKS
    ensures p.waiting == BANKS ==> AfterStartOfFrame(p) == p.(timer := 0) && p.current == []
  {
    if p.waiting == BANKS {
      assert |p.packets| != |p.packets + [p.current]|;
    }
  }

  /** Two full packets that the host leaves waiting for five frames get no zero-length packet
    * after them: no later start of frame sends one, since the timer is already at rest.
    */
  lemma TerminatorIsSkipped(p: Port, data: seq<uint8>)
    requires Sound(p) && p.configuration != 0 && p.waiting == 0 && p.current == [] && |data| == 128
    ensures var q := Fill(p, data);
            var r := AfterStartOfFrame(AfterStartOfFrame(AfterStartOfFrame(AfterStartOfFrame(AfterStartOfFrame(q)))));
            && Taken(p, data) == 128
            && r.packets == p.packets + [data[..64], data[64..]]
            && r.timer == 0
            && AfterStartOfFrame(AfterHostReads(r)) == AfterHostReads(r)
  {
    var one := PutChunk(p, data[..64]);
    PutChunkKeeps(p, data[..64]);
    assert one.packets == p.packets + [data[..64]] by { assert [] + data[..64] == data[..64]; }
    var two := PutChunk(one, data[64..]);
    PutChunkKeeps(one, data[64..]);
    assert two.packets == p.packets + [data[..64], data[64..]] by { assert [] + data[64..] == data[64..]; }
    assert data[64..][..64] == data[64..];
    assert data[64..][64..] == [];
    assert Taken(one, data[64..]) == 64 + Taken(two, []);
    assert Fill(one, data[64..]) == Fill(two, []);
    assert Fill(p, data) == two;
  }

  /** On the way from `was`, having taken `taken` bytes of `data`. */
  ghost predicate Filling(was: Port, data: seq<uint8>, taken: nat, p: Port, left: seq<uint8>) {
    && Sound(was) && Sound(p)
    && taken <= |data| && left == data[taken..]
    && Fill(was, data) == Fill(p, left)
    && Taken(was, data) == taken + Taken(p, left)
  }

  lemma FillingStep(was: Port, data: seq<uint8>, taken: nat, p: Port, left: seq<uint8>, n: nat, q: Port)
    requires Filling(was, data, taken, p, left) && Roomy(p) && left != []
    requires n == ChunkSize(p, |left|) && q == PutChunk(p, left[..n])
    ensures 0 < n <= |left| && Filling(was, data, taken + n, q, left[n..])
  {
    FillStep(p, left, n, q);
    PutChunkKeeps(p, left[..n]);
    DropDrop(data, taken, n);
  }

  lemma FillingDone(was: Port, data: seq<uint8>, taken: nat, p: Port, left: seq<uint8>)
    requires Filling(was, data, taken, p, left) && (left == [] || !Roomy(p))
    ensures p == Fill(was, data) && taken == Taken(was, data)
    ensures p.accepted + left == was.accepted + data
  {
    FillKeeps(was, data);
    SplitWhole(was.accepted, data, taken);
  }

  /** The driver's variables and its endpoint. */
  class Serial {
    var configuration: uint8
    var timer: uint8
    var gaveUp: bool
    var frame: uint8
    var enabled: bool
    var current: seq<uint8>
    var waiting: nat
    ghost var packets: seq<seq<uint8>>
    ghost var accepted: seq<uint8>
    ghost var mark: nat

    ghost function Now(): Port
      reads this
    {
      Port(configuration, timer, gaveUp, frame, enabled, current, waiting, packets, accepted, mark)
    }

    method ReadWriteAllowed() returns (rwal: bool)
      ensures rwal == Roomy(Now())
    {
      rwal := enabled && waiting < BANKS && |current| < CDC_TX_SIZE;
    }

    /** The hardware's answer to 0x3A in UEINTX. */
    method ReleaseBank()
      modifies this
      ensures Now() == Release(old(Now()))
    {
      if enabled && waiting < BANKS {
        packets := packets + [current];
        current := [];
        waiting := waiting + 1;
      }
    }

    /** The hardware's answer to a byte in UEDATX. */
    method WriteData(c: uint8)
      modifies this
      ensures Now() == old(Now()).(current := old(current) + [c], accepted := old(accepted) + [c])
    {
      current := current + [c];
      accepted := accepted + [c];
    }

    /** usb_serial_putchar_nowait, and the end of usb_serial_putchar: -1 and nothing done if there
      * is no room.
      */
    method PutIfRoom(c: uint8) returns (code: int)
      modifies this
      ensures code == (if old(Roomy(Now())) then 0 else -1)
      ensures Now() == if code == 0 then PutChunk(old(Now()), [c]) else old(Now())
      ensures code == 0 && Sound(old(Now())) ==> Sound(Now()) && accepted == old(accepted) + [c]
    {
      ghost var was := Now();
      var rwal := ReadWriteAllowed();
      if !rwal {
        return -1;
      }
      WriteData(c);
      rwal := ReadWriteAllowed();
      if !rwal {
        ReleaseBank();
      }
      timer := TRANSMIT_FLUSH_TIMEOUT;
      code := 0;
      if Sound(was) {
        PutChunkKeeps(was, [c]);
      }
    }

    /** The bytes of one packet of usb_serial_write. */
    method WritePacket(data: seq<uint8>) returns (size: nat)
      requires Roomy(Now()) && data != []
      modifies this
      ensures size == ChunkSize(old(Now()), |data|)
      ensures Now() == PutChunk(old(Now()), data[..size])
    {
      ghost var was := Now();
      size := CDC_TX_SIZE - |current|;
      if size > |data| {
        size := |data|;
      }
      var next := 0;
      while next < size
        invariant next <= size
        invariant Now() == was.(current := was.current + data[..next], accepted := was.accepted + data[..next])
      {
        WriteData(data[next]);
        assert data[..next + 1] == data[..next] + [data[next]];
        next := next + 1;
      }
      var rwal := ReadWriteAllowed();
      if !rwal {
        ReleaseBank();
      }
      timer := TRANSMIT_FLUSH_TIMEOUT;
    }

    /** The packets of usb_serial_write up to the point where it has to wait, or is done. */
    method WriteWhileRoom(data: seq<uint8>) returns (left: seq<uint8>)
      requires Sound(Now())
      modifies this
      ensures Now() == Fill(old(Now()), data)
      ensures Taken(old(Now()), data) <= |data| && left == data[Taken(old(Now()), data)..]
      ensures Sound(Now()) && accepted + left == old(accepted) + data
      ensures left != [] ==> !Roomy(Now())
    {
      ghost var was := Now();
      ghost var taken: nat := 0;
      left := data;
      FillKeeps(was, data);
      var rwal := ReadWriteAllowed();
      while left != [] && rwal
        invariant Filling(was, data, taken, Now(), left) && rwal == Roomy(Now())
        decreases |left|
      {
        ghost var before := Now();
        var size := WritePacket(left);
        FillingStep(was, data, taken, before, left, size, Now());
        left := left[size..];
        taken := taken + size;
        rwal := ReadWriteAllowed();
      }
      FillingDone(was, data, taken, Now(), left);
    }

    /** usb_serial_flush_output. */
    method FlushOutput()
      modifies this
      ensures Now() == Flushed(old(Now()))
      ensures Sound(old(Now())) && old(current) != [] ==> packets == old(packets) + [old(current)] && current == []
    {
      if timer != 0 {
        ReleaseBank();
        timer := 0;
      }
    }

    /** The start-of-frame part of the device interrupt. */
    method StartOfFrame()
      modifies this
      ensures Now() == AfterStartOfFrame(old(Now()))
    {
      if configuration != 0 {
        var t := timer;
        if t != 0 {
          t := t - 1;
          timer := t;
          if t == 0 {
            ReleaseBank();
          }
        }
      }
    }

    method BusReset()
      modifies this
      ensures Now() == AfterBusReset(old(Now()))
    {
      configuration := 0;
      enabled := false;
      current, waiting := [], 0;
      packets, mark := [], |accepted|;
    }

    method SetConfiguration(wValue: uint16)
      modifies this
      ensures Now() == AfterSetConfiguration(old(Now()), wValue)
    {
      configuration := wValue % 0x100;
      timer := 0;
      enabled := true;
      current, waiting := [], 0;
      packets, mark := [], |accepted|;
    }
  }
}
