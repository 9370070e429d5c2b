/** GET_DESCRIPTOR on the serial port's control endpoint: looking the descriptor up, and sending
  * it in packets.
  */
module UsbDescriptors {
  import opened Words

  const ENDPOINT0_SIZE := 16

  /** A row of the descriptor list: the request it answers, the bytes it points to and its length. */
  datatype Entry = Entry(wValue: uint16, wIndex: uint16, bytes: seq<uint8>, length: uint8)

  predicate Matches(e: Entry, wValue: uint16, wIndex: uint16) {
    e.wValue == wValue && e.wIndex == wIndex
  }

  datatype Response =
    | Stall
    | Sent(packets: seq<seq<uint8>>)
    | Aborted(packets: seq<seq<uint8>>)

  /** What the host is to get: the descriptor, up to what it asked for and to 255 bytes. */
  function Asked(e: Entry, wLength: uint16): seq<uint8>
    requires e.length <= |e.bytes|
  {
    e.bytes[..Min(Min(wLength, 255), e.length)]
  }

  /** A data stage: full packets, and a short one, possibly empty, to end it. */
  function DataStage(data: seq<uint8>): seq<seq<uint8>> {
    if |data| < ENDPOINT0_SIZE then [data]
    else [data[..ENDPOINT0_SIZE]] + DataStage(data[ENDPOINT0_SIZE..])
  }

  lemma {:induction false} FlattenCons(first: seq<uint8>, rest: seq<seq<uint8>>)
    ensures Flatten([first] + rest) == first + Flatten(rest)
  {
    if rest == [] {
      assert ([first] + rest)[..0] == [];
    } else {
      var front, last := rest[..|rest| - 1], rest[|rest| - 1];
      FlattenCons(first, front);
      assert ([first] + rest)[..|rest|] == [first] + front;
    }
  }

  /** The packets carry exactly the data, all but the last are full and the last is short; so an
    * empty packet ends the stage if and only if the length is a multiple of the packet size.
    */
  lemma {:induction false} DataStageShape(data: seq<uint8>)
    ensures var p := DataStage(data);
            && |p| > 0
            && Flatten(p) == data
            && (forall k :: 0 <= k < |p| - 1 ==> |p[k]| == 16)
            && |p[|p| - 1]| < 16
            && (p[|p| - 1] == [] <==> |data| % 16 == 0)
    decreases |data|
  {
    if |data| < ENDPOINT0_SIZE {
      FlattenCons(data, []);
      assert [data] + [] == [data] && data + [] == data;
    } else {
      var rest := data[ENDPOINT0_SIZE..];
      DataStageShape(rest);
      FlattenCons(data[..ENDPOINT0_SIZE], DataStage(rest));
      assert data[..ENDPOINT0_SIZE] + rest == data;
    }
  }

  /** Packets of this shape can only be read back as one stage: a receiver that takes packets up to
    * the first short one gets the whole stage and no more.
    */
  lemma {:induction false} ShapeIsUnique(p: seq<seq<uint8>>)
    requires |p| > 0 && |p[|p| - 1]| < ENDPOINT0_SIZE
    requires forall k :: 0 <= k < |p| - 1 ==> |p[k]| == ENDPOINT0_SIZE
    ensures p == DataStage(Flatten(p))
    decreases |p|
  {
    FlattenCons(p[0], p[1..]);
    assert [p[0]] + p[1..] == p;
    if |p| == 1 {
      assert p[1..] == [] && p[0] + [] == p[0];
    } else {
      ShapeIsUnique(p[1..]);
      assert (p[0] + Flatten(p[1..]))[..ENDPOINT0_SIZE] == p[0];
      assert (p[0] + Flatten(p[1..]))[ENDPOINT0_SIZE..] == Flatten(p[1..]);
    }
  }

  lemma {:induction false} FlattenPrefix(p: seq<seq<uint8>>, n: nat)
    requires n <= |p|
    ensures Flatten(p[..n]) <= Flatten(p)
  {
    if n < |p| {
      FlattenPrefix(p[..|p| - 1], n);
      assert p[..|p| - 1][..n] == p[..n];
    } else {
      assert p[..n] == p;
    }
  }

  /** How much of the descriptor may be sent: no more than the host asked for, whole if that fits. */
  lemma AskedIs(e: Entry, wLength: uint16)
    requires e.length <= |e.bytes|
    ensures Asked(e, wLength) <= e.bytes
    ensures |Asked(e, wLength)| == if e.length <= wLength then e.length else wLength
  {
  }

  lemma SentIs(e: Entry, wLength: uint16, packets: seq<seq<uint8>>)
    requires e.length <= |e.bytes| && packets <= DataStage(Asked(e, wLength))
    ensures Flatten(packets) <= e.bytes && |Flatten(packets)| <= wLength
    ensures packets == DataStage(Asked(e, wLength)) ==> |Flatten(packets)| == if e.length <= wLength then e.length else wLength
  {
    var whole := DataStage(Asked(e, wLength));
    AskedIs(e, wLength);
    DataStageShape(Asked(e, wLength));
    FlattenPrefix(whole, |packets|);
    assert whole[..|packets|] == packets;
  }

  /** Position of the row for the request, or the length of the list. */
  method Lookup(list: seq<Entry>, wValue: uint16, wIndex: uint16) returns (i: nat)
    ensures i <= |list|
    ensures i < |list| ==> Matches(list[i], wValue, wIndex)
    ensures forall k :: 0 <= k < i ==> !Matches(list[k], wValue, wIndex)
  {
    i := 0;
    while i < |list|
      invariant i <= |list|
      invariant forall k :: 0 <= k < i ==> !Matches(list[k], wValue, wIndex)
    {
      if list[i].wValue == wValue {
        if list[i].wIndex == wIndex {
          return;
        }
      }
      i := i + 1;
    }
  }

  /** `packets` carry the data up to `at`, and are the whole stage once there is no more to send. */
  ghost predicate SentSoFar(data: seq<uint8>, packets: seq<seq<uint8>>, at: nat, more: bool) {
    && at <= |data|
    && (if more then DataStage(data) == packets + DataStage(data[at..]) else DataStage(data) == packets)
  }

  lemma OnePacket(data: seq<uint8>, packets: seq<seq<uint8>>, at: nat, n: nat)
    requires SentSoFar(data, packets, at, true)
    requires n == if |data| - at < ENDPOINT0_SIZE then |data| - at else ENDPOINT0_SIZE
    ensures SentSoFar(data, packets + [data[at..at + n]], at + n, at + n != |data| || n == ENDPOINT0_SIZE)
  {
    assert data[at..][..n] == data[at..at + n];
    assert data[at..][n..] == data[at + n..];
    if n == ENDPOINT0_SIZE {
      var p, rest := data[at..at + n], DataStage(data[at + n..]);
      assert packets + ([p] + rest) == packets + [p] + rest;
    } else {
      assert data[at..] == data[at..at + n];
    }
  }

  /** Bytes into the data register, counting down. */
  method FillBank(bytes: seq<uint8>, at: nat, n: nat) returns (packet: seq<uint8>)
    requires at + n <= |bytes|
    ensures packet == bytes[at..at + n]
  {
    packet := [];
    var i := n;
    while i > 0
      invariant 0 <= i <= n
      invariant packet == bytes[at..at + n - i]
    {
      packet := packet + [bytes[at + n - i]];
      i := i - 1;
    }
  }

  /** The data stage. `aborts(k)` says that the host, instead of asking for packet `k`, moves on to
    * the status stage.
    */
  method SendDescriptor(e: Entry, wLength: uint16, aborts: nat -> bool) returns (aborted: bool, packets: seq<seq<uint8>>)
    requires e.length <= |e.bytes|
    ensures !aborted ==> packets == DataStage(Asked(e, wLength))
    ensures aborted ==>
              |packets| < |DataStage(Asked(e, wLength))|
              && packets == DataStage(Asked(e, wLength))[..|packets|]
              && aborts(|packets|)
    ensures forall k :: 0 <= k < |packets| ==> !aborts(k)
  {
    var len: nat := if wLength < 256 then wLength else 255;
    if len > e.length {
      len := e.length;
    }
    ghost var data := Asked(e, wLength);
    packets := [];
    aborted := false;
    var at: nat := 0;
    var more := true;
    assert data[0..] == data;
    while more
      invariant at + len == |data| <= |e.bytes|
      invariant SentSoFar(data, packets, at, more)
      invariant forall k :: 0 <= k < |packets| ==> !aborts(k)
      decreases len + if more then 1 else 0
    {
      if aborts(|packets|) {
        aborted := true;
        return;
      }
      var n := if len < ENDPOINT0_SIZE then len else ENDPOINT0_SIZE;
      var packet := FillBank(e.bytes, at, n);
      assert packet == data[at..at + n];
      OnePacket(data, packets, at, n);
      at := at + n;
      len := len - n;
      packets := packets + [packet];
      more := len != 0 || n == ENDPOINT0_SIZE;
    }
  }

  /** The answer is what row `k`, the first that matches, says: all of it or, if the host gave up,
    * the packets before that.
    */
  ghost predicate Answers(list: seq<Entry>, k: nat, wValue: uint16, wIndex: uint16, wLength: uint16, r: Response)
    requires k < |list| && list[k].length <= |list[k].bytes| && !r.Stall?
  {
    && Matches(list[k], wValue, wIndex)
    && (forall j :: 0 <= j < k ==> !Matches(list[j], wValue, wIndex))
    && r.packets <= DataStage(Asked(list[k], wLength))
    && (r.Sent? <==> r.packets == DataStage(Asked(list[k], wLength)))
    && Flatten(r.packets) <= list[k].bytes && |Flatten(r.packets)| <= wLength
    && (r.Sent? ==> |Flatten(r.packets)| == if list[k].length <= wLength then list[k].length else wLength)
  }

  /** The request as a whole: a stall if and only if no row matches, otherwise the first that does. */
  method GetDescriptor(list: seq<Entry>, wValue: uint16, wIndex: uint16, wLength: uint16, aborts: nat -> bool)
    returns (r: Response)
    requires forall e <- list :: e.length <= |e.bytes|
    ensures r.Stall? <==> forall k :: 0 <= k < |list| ==> !Matches(list[k], wValue, wIndex)
    ensures !r.Stall? ==> exists k :: 0 <= k < |list| && Answers(list, k, wValue, wIndex, wLength, r)
  {
    var i := Lookup(list, wValue, wIndex);
    if i >= |list| {
      return Stall;
    }
    var aborted, packets := SendDescriptor(list[i], wLength, aborts);
    SentIs(list[i], wLength, packets);
    r := if aborted then Aborted(packets) else Sent(packets);
    assert Matches(list[i], wValue, wIndex);
    assert Answers(list, i, wValue, wIndex, wLength, r);
  }
}
