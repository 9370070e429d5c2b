/** The two-wire hardware between the driver and the bus: which status can follow which command
  * (section 3.1.6 of UM10204 for the acknowledge rule), and a monitor for whole master
  * transactions.
  */
module TwiBus {
  import opened Words
  import opened TwiDriver

  /** What the hardware is doing between two interrupts. */
  datatype Hw =
    | Free
    | Starting
    | SendingAddress(address: uint8)
    | SendingData(byte: uint8)
    | Receiving(ack: bool)

  /** What the other side of the bus does next, while the driver is master. */
  datatype Outcome = Started | Acked | Nacked | Arrived(byte: uint8) | Lost | Broken

  /** What an observer of the bus sees. */
  datatype Wire =
    | StartSeen
    | AddressSeen(byte: uint8, acked: bool)
    | Sent(byte: uint8, acked: bool)
    | Received(byte: uint8, acked: bool)
    | StopSeen
    | LostSeen
    | ErrorSeen

  predicate Possible(hw: Hw, o: Outcome) {
    match hw
    case Free => false
    case Starting => o.Started? || o.Broken?
    case SendingAddress(_) => o.Acked? || o.Nacked? || o.Lost? || o.Broken?
    case SendingData(_) => o.Acked? || o.Nacked? || o.Lost? || o.Broken?
    case Receiving(_) => o.Arrived? || o.Lost? || o.Broken?
  }

  predicate IsReadAddress(b: uint8) {
    b % 2 == 1
  }

  /** The status reported when `o` ends what the hardware was doing. A received byte has been
    * acknowledged or not as the driver's last reply asked.
    */
  function StatusOf(hw: Hw, o: Outcome): Status
    requires Possible(hw, o)
  {
    match o
    case Started => Start
    case Lost => ArbLost
    case Broken => BusError
    case Arrived(_) => if hw.ack then MrDataAck else MrDataNack
    case Acked =>
      if hw.SendingData? then MtDataAck else if IsReadAddress(hw.address) then MrSlaAck else MtSlaAck
    case Nacked =>
      if hw.SendingData? then MtDataNack else if IsReadAddress(hw.address) then MrSlaNack else MtSlaNack
  }

  function Seen(hw: Hw, o: Outcome): Wire
    requires Possible(hw, o)
  {
    match o
    case Started => StartSeen
    case Lost => LostSeen
    case Broken => ErrorSeen
    case Arrived(b) => Received(b, hw.ack)
    case _ => if hw.SendingData? then Sent(hw.byte, o.Acked?) else AddressSeen(hw.address, o.Acked?)
  }

  /** The data register as the interrupt routine finds it. */
  function WithData(d: Drv, o: Outcome): Drv {
    if o.Arrived? then d.(twdr := o.byte) else d
  }

  /** What the hardware does after the interrupt routine has handled `st` and left its command
    * and the data register as given.
    */
  function NextHw(st: Status, control: Control, twdr: uint8): Hw {
    match control
    case SendStart => Starting
    case SendStop => Free
    case Release => Free
    case Reply(ack) =>
      if st.Start? || st.RepStart? then SendingAddress(twdr)
      else if st.MtSlaAck? || st.MtDataAck? then SendingData(twdr)
      else if st.MrSlaAck? || st.MrDataAck? then Receiving(ack)
      else Free
  }

  // ----- whole transactions -----

  datatype Verdict = Complete | AddressRefused | DataRefused(at: nat) | ArbitrationGone | BusBroken

  /** How far a transaction has come. */
  datatype Phase =
    | Begin
    | AfterStart
    | InData(k: nat)
    | Stopping(v: Verdict)
    | Over(v: Verdict)
    | Bad

  /** One observation more. `Bad` means that the bus does not show what call `c` asks for. */
  function Advance(c: Call, p: Phase, w: Wire): Phase
    requires c.addr < 128
  {
    match p
    case Begin =>
      if w.StartSeen? then AfterStart else if w.ErrorSeen? then Stopping(BusBroken) else Bad
    case AfterStart =>
      if w.AddressSeen? && w.byte == c.AddressByte() then
        if w.acked then InData(0) else Stopping(AddressRefused)
      else Interrupted(w)
    case InData(k) =>
      if w.StopSeen? && c.Write? && k == |c.data| then Over(Complete)
      else if w.Sent? && c.Write? && k < |c.data| && w.byte == c.data[k] then
        if w.acked then InData(k + 1) else Stopping(DataRefused(k))
      else if w.Received? && c.Read? && k < c.length && w.acked == (k + 1 < c.length) then
        if w.acked then InData(k + 1) else Stopping(Complete)
      else Interrupted(w)
    case Stopping(v) => if w.StopSeen? then Over(v) else Bad
    case Over(_) => Bad
    case Bad => Bad
  }

  /** A lost arbitration ends a transaction at once, a bus error with a STOP. */
  function Interrupted(w: Wire): Phase {
    if w.LostSeen? then Over(ArbitrationGone) else if w.ErrorSeen? then Stopping(BusBroken) else Bad
  }

  function PhaseOf(c: Call, ws: seq<Wire>): Phase
    requires c.addr < 128
  {
    if ws == [] then Begin else Advance(c, PhaseOf(c, ws[..|ws| - 1]), ws[|ws| - 1])
  }

  /** The bytes that went to the bus as data. */
  function SentBytes(ws: seq<Wire>): seq<uint8> {
    if ws == [] then [] else
      var front, last := SentBytes(ws[..|ws| - 1]), ws[|ws| - 1];
      if last.Sent? then front + [last.byte] else front
  }

  function ReceivedBytes(ws: seq<Wire>): seq<uint8> {
    if ws == [] then [] else
      var front, last := ReceivedBytes(ws[..|ws| - 1]), ws[|ws| - 1];
      if last.Received? then front + [last.byte] else front
  }

  lemma Snoc(c: Call, ws: seq<Wire>, w: Wire)
    requires c.addr < 128
    ensures PhaseOf(c, ws + [w]) == Advance(c, PhaseOf(c, ws), w)
    ensures SentBytes(ws + [w]) == SentBytes(ws) + if w.Sent? then [w.byte] else []
    ensures ReceivedBytes(ws + [w]) == ReceivedBytes(ws) + if w.Received? then [w.byte] else []
  {
    assert (ws + [w])[..|ws|] == ws;
  }

  // ----- what the monitor's verdicts mean, written out -----

  function AckedOut(data: seq<uint8>): (ws: seq<Wire>)
    ensures |ws| == |data|
  {
    if data == [] then [] else AckedOut(data[..|data| - 1]) + [Sent(data[|data| - 1], true)]
  }

  function AckedIn(got: seq<uint8>): (ws: seq<Wire>)
    ensures |ws| == |got|
  {
    if got == [] then [] else AckedIn(got[..|got| - 1]) + [Received(got[|got| - 1], true)]
  }

  /** `k` and the bytes received so far are possible while call `c` is in its data phase. */
  predicate InRange(c: Call, k: nat, got: seq<uint8>) {
    if c.Write? then k <= |c.data| && got == [] else k == |got| < c.length
  }

  /** START, the address acknowledged, and `k` bytes acknowledged. */
  function Opened(c: Call, k: nat, got: seq<uint8>): seq<Wire>
    requires c.addr < 128 && InRange(c, k, got)
  {
    [StartSeen, AddressSeen(c.AddressByte(), true)] + if c.Write? then AckedOut(c.data[..k]) else AckedIn(got)
  }

  predicate IsFailure(v: Verdict) {
    v.ArbitrationGone? || v.BusBroken?
  }

  predicate HasScript(c: Call, v: Verdict, got: seq<uint8>) {
    match v
    case Complete => if c.Write? then got == [] else |got| == c.length
    case AddressRefused => got == []
    case DataRefused(k) => c.Write? && k < |c.data| && got == []
    case ArbitrationGone => false
    case BusBroken => false
  }

  /** The whole of a transaction that ends as asked or by a refusal. `got` are the bytes read. */
  function Script(c: Call, v: Verdict, got: seq<uint8>): seq<Wire>
    requires c.Proper() && HasScript(c, v, got)
  {
    match v
    case AddressRefused => [StartSeen, AddressSeen(c.AddressByte(), false), StopSeen]
    case Complete =>
      if c.Write? then Opened(c, |c.data|, got) + [StopSeen]
      else Opened(c, |got| - 1, got[..|got| - 1]) + [Received(got[|got| - 1], false), StopSeen]
    case DataRefused(k) => Opened(c, k, got) + [Sent(c.data[k], false), StopSeen]
  }

  lemma OpenedSnoc(c: Call, k: nat, got: seq<uint8>, b: uint8)
    requires c.addr < 128 && InRange(c, k, got)
    ensures c.Write? && k < |c.data| ==> Opened(c, k + 1, got) == Opened(c, k, got) + [Sent(c.data[k], true)]
    ensures c.Read? && k + 1 < c.length ==> Opened(c, k + 1, got + [b]) == Opened(c, k, got) + [Received(b, true)]
  {
    if c.Write? && k < |c.data| {
      assert c.data[..k + 1][..k] == c.data[..k];
    }
    if c.Read? {
      assert (got + [b])[..|got|] == got;
    }
  }

  /** What a transaction that stands at phase `p`, having read `got`, looks like. */
  ghost predicate Fits(c: Call, p: Phase, got: seq<uint8>, ws: seq<Wire>)
    requires c.Proper()
  {
    match p
    case Begin => ws == [] && got == []
    case AfterStart => ws == [StartSeen] && got == []
    case InData(k) => InRange(c, k, got) && ws == Opened(c, k, got)
    case Stopping(v) => !IsFailure(v) ==> HasScript(c, v, got) && ws + [StopSeen] == Script(c, v, got)
    case Over(v) => !IsFailure(v) ==> HasScript(c, v, got) && ws == Script(c, v, got)
    case Bad => true
  }

  lemma FitsAfterAddress(c: Call, ws: seq<Wire>, w: Wire)
    requires c.Proper() && ws == [StartSeen] && w.AddressSeen?
    ensures Fits(c, Advance(c, AfterStart, w), [], ws + [w])
  {
  }

  lemma FitsAfterSent(c: Call, k: nat, ws: seq<Wire>, w: Wire)
    requires c.Proper() && InRange(c, k, []) && ws == Opened(c, k, []) && w.Sent?
    ensures Fits(c, Advance(c, InData(k), w), [], ws + [w])
  {
    OpenedSnoc(c, k, [], 0);
    assert (ws + [w]) + [StopSeen] == ws + [w, StopSeen];
  }

  lemma FitsAfterReceived(c: Call, k: nat, got: seq<uint8>, ws: seq<Wire>, w: Wire)
    requires c.Proper() && InRange(c, k, got) && ws == Opened(c, k, got) && w.Received?
    ensures Fits(c, Advance(c, InData(k), w), got + [w.byte], ws + [w])
  {
    OpenedSnoc(c, k, got, w.byte);
    assert (ws + [w]) + [StopSeen] == ws + [w, StopSeen];
    assert (got + [w.byte])[..|got|] == got;
  }

  lemma FitsAfterStop(c: Call, v: Verdict, got: seq<uint8>, ws: seq<Wire>)
    requires c.Proper() && Fits(c, Stopping(v), got, ws)
    ensures Fits(c, Over(v), got, ws + [StopSeen])
  {
  }

  /** A STOP where data may follow completes a write that has no more. */
  lemma FitsAfterLast(c: Call, k: nat, got: seq<uint8>, ws: seq<Wire>)
    requires c.Proper() && InRange(c, k, got) && ws == Opened(c, k, got)
    ensures Fits(c, Advance(c, InData(k), StopSeen), got, ws + [StopSeen])
  {
    if c.Write? && k == |c.data| {
      assert c.data[..k] == c.data;
    }
  }

  /** Anything else ends the transaction in failure, or is not one at all. */
  lemma FitsOtherwise(c: Call, p: Phase, w: Wire)
    requires c.Proper()
    requires !(p.Begin? && w.StartSeen?) && !(p.AfterStart? && w.AddressSeen?)
    requires !(p.InData? && ((w.Sent? && c.Write?) || w.Received? || w.StopSeen?)) && !(p.Stopping? && w.StopSeen?)
    ensures var q := Advance(c, p, w); q.Bad? || ((q.Over? || q.Stopping?) && IsFailure(q.v))
  {
  }

  lemma FitsSnoc(c: Call, p: Phase, got: seq<uint8>, ws: seq<Wire>, w: Wire)
    requires c.Proper() && Fits(c, p, got, ws)
    ensures Fits(c, Advance(c, p, w), if w.Received? then got + [w.byte] else got, ws + [w])
  {
    if p.Begin? && w.StartSeen? {
    } else if p.AfterStart? && w.AddressSeen? {
      FitsAfterAddress(c, ws, w);
    } else if p.InData? && w.Sent? && c.Write? {
      FitsAfterSent(c, p.k, ws, w);
    } else if p.InData? && w.Received? {
      FitsAfterReceived(c, p.k, got, ws, w);
    } else if p.InData? && w.StopSeen? {
      FitsAfterLast(c, p.k, got, ws);
    } else if p.Stopping? && w.StopSeen? {
      FitsAfterStop(c, p.v, got, ws);
    } else {
      FitsOtherwise(c, p, w);
    }
  }

  lemma {:induction false} PhaseFits(c: Call, ws: seq<Wire>)
    requires c.Proper()
    ensures Fits(c, PhaseOf(c, ws), ReceivedBytes(ws), ws)
    decreases |ws|
  {
    if ws != [] {
      var front, w := ws[..|ws| - 1], ws[|ws| - 1];
      PhaseFits(c, front);
      FitsSnoc(c, PhaseOf(c, front), ReceivedBytes(front), front, w);
      assert ws == front + [w];
    }
  }

  /** `ws'` is `ws` with one observation more. */
  lemma OneMore(c: Call, ws: seq<Wire>, w: Wire, ws': seq<Wire>)
    requires c.addr < 128 && ws' == ws + [w]
    ensures PhaseOf(c, ws') == Advance(c, PhaseOf(c, ws), w)
  {
    Snoc(c, ws, w);
  }

  lemma OpenedStart(c: Call)
    requires c.Proper()
    ensures PhaseOf(c, Opened(c, 0, [])) == InData(0)
  {
    OneMore(c, [], StartSeen, [StartSeen]);
    OneMore(c, [StartSeen], AddressSeen(c.AddressByte(), true), Opened(c, 0, []));
  }

  lemma {:induction false} OpenedWritePhase(c: Call, k: nat)
    requires c.Proper() && c.Write? && k <= |c.data|
    ensures PhaseOf(c, Opened(c, k, [])) == InData(k)
  {
    if k == 0 {
      OpenedStart(c);
    } else {
      OpenedWritePhase(c, k - 1);
      OpenedSnoc(c, k - 1, [], 0);
      var front, ws := Opened(c, k - 1, []), Opened(c, k, []);
      OneMore(c, front, Sent(c.data[k - 1], true), ws);
    }
  }

  lemma {:induction false} OpenedReadPhase(c: Call, got: seq<uint8>)
    requires c.Proper() && c.Read? && |got| < c.length
    ensures PhaseOf(c, Opened(c, |got|, got)) == InData(|got|)
    decreases |got|
  {
    if got == [] {
      OpenedStart(c);
    } else {
      var n := |got| - 1;
      var front, b := got[..n], got[n];
      assert got == front + [b];
      OpenedReadPhase(c, front);
      OpenedSnoc(c, n, front, b);
      OneMore(c, Opened(c, n, front), Received(b, true), Opened(c, n + 1, got));
    }
  }

  /** A transaction that shows `w` and STOP after `ws`. */
  lemma TwoMore(c: Call, ws: seq<Wire>, w: Wire, ws': seq<Wire>, v: Verdict)
    requires c.addr < 128 && ws' == ws + [w, StopSeen]
    requires Advance(c, PhaseOf(c, ws), w) == Stopping(v)
    ensures PhaseOf(c, ws') == Over(v)
  {
    OneMore(c, ws, w, ws + [w]);
    OneMore(c, ws + [w], StopSeen, ws');
  }

  lemma RefusedScript(c: Call)
    requires c.Proper()
    ensures PhaseOf(c, Script(c, AddressRefused, [])) == Over(AddressRefused)
  {
    var ws := [StartSeen];
    OneMore(c, [], StartSeen, ws);
    TwoMore(c, ws, AddressSeen(c.AddressByte(), false), Script(c, AddressRefused, []), AddressRefused);
  }

  lemma CompleteWriteScript(c: Call)
    requires c.Proper() && c.Write?
    ensures PhaseOf(c, Script(c, Complete, [])) == Over(Complete)
  {
    OpenedWritePhase(c, |c.data|);
    OneMore(c, Opened(c, |c.data|, []), StopSeen, Script(c, Complete, []));
  }

  lemma CompleteReadScript(c: Call, got: seq<uint8>)
    requires c.Proper() && c.Read? && |got| == c.length
    ensures PhaseOf(c, Script(c, Complete, got)) == Over(Complete)
  {
    var n := |got| - 1;
    OpenedReadPhase(c, got[..n]);
    TwoMore(c, Opened(c, n, got[..n]), Received(got[n], false), Script(c, Complete, got), Complete);
  }

  lemma DataRefusedScript(c: Call, k: nat)
    requires c.Proper() && c.Write? && k < |c.data|
    ensures PhaseOf(c, Script(c, DataRefused(k), [])) == Over(DataRefused(k))
  {
    OpenedWritePhase(c, k);
    TwoMore(c, Opened(c, k, []), Sent(c.data[k], false), Script(c, DataRefused(k), []), DataRefused(k));
  }

  lemma ScriptIsOver(c: Call, v: Verdict, got: seq<uint8>)
    requires c.Proper() && HasScript(c, v, got)
    ensures PhaseOf(c, Script(c, v, got)) == Over(v)
  {
    match v
    case AddressRefused => RefusedScript(c);
    case Complete =>
      if c.Write? {
        CompleteWriteScript(c);
      } else {
        CompleteReadScript(c, got);
      }
    case DataRefused(k) => DataRefusedScript(c, k);
  }

  /** The monitor accepts exactly the transactions that `Script` writes out: a complete write has
    * every byte acknowledged, a complete read has every byte but the last acknowledged, and a
    * refusal is the last thing before STOP.
    */
  lemma VerdictIffScript(c: Call, v: Verdict, ws: seq<Wire>)
    requires c.Proper() && !IsFailure(v)
    ensures PhaseOf(c, ws) == Over(v) <==> HasScript(c, v, ReceivedBytes(ws)) && ws == Script(c, v, ReceivedBytes(ws))
  {
    PhaseFits(c, ws);
    if HasScript(c, v, ReceivedBytes(ws)) && ws == Script(c, v, ReceivedBytes(ws)) {
      ScriptIsOver(c, v, ReceivedBytes(ws));
    }
  }

  /** The bus shows `tail` where `c` is at work: right after START, or after `k` bytes. */
  ghost predicate BreaksOffAt(c: Call, k: nat, got: seq<uint8>, ws: seq<Wire>, tail: seq<Wire>)
    requires c.Proper()
  {
    InRange(c, k, got) && ws == Opened(c, k, got) + tail
  }

  ghost predicate BreaksOff(c: Call, got: seq<uint8>, ws: seq<Wire>, tail: seq<Wire>)
    requires c.Proper()
  {
    ws == [StartSeen] + tail || exists k: nat :: BreaksOffAt(c, k, got, ws, tail)
  }

  /** The transaction was broken off by a lost arbitration, and the device is silent at once. */
  ghost predicate ShowsLoss(c: Call, ws: seq<Wire>)
    requires c.Proper()
  {
    BreaksOff(c, ReceivedBytes(ws), ws, [LostSeen])
  }

  /** It was broken off by a bus error, perhaps on START, and then STOP. */
  ghost predicate ShowsError(c: Call, ws: seq<Wire>)
    requires c.Proper()
  {
    ws == [ErrorSeen, StopSeen] || BreaksOff(c, ReceivedBytes(ws), ws, [ErrorSeen, StopSeen])
  }

  /** `front` can be broken off: START has been seen and no refusal or end. */
  ghost predicate Breakable(c: Call, front: seq<Wire>, got: seq<uint8>)
    requires c.Proper()
  {
    front == [StartSeen] || exists k: nat :: BreaksOffAt(c, k, got, front, [])
  }

  lemma OpenedPhase(c: Call, k: nat, got: seq<uint8>)
    requires c.Proper() && InRange(c, k, got)
    ensures PhaseOf(c, Opened(c, k, got)) == InData(k)
  {
    if c.Write? {
      OpenedWritePhase(c, k);
    } else {
      OpenedReadPhase(c, got);
    }
  }

  lemma BreakableIff(c: Call, front: seq<Wire>)
    requires c.Proper()
    ensures Breakable(c, front, ReceivedBytes(front)) <==> PhaseOf(c, front).AfterStart? || PhaseOf(c, front).InData?
  {
    var got := ReceivedBytes(front);
    PhaseFits(c, front);
    if PhaseOf(c, front).InData? {
      var k := PhaseOf(c, front).k;
      assert Opened(c, k, got) + [] == front;
      assert BreaksOffAt(c, k, got, front, []);
    }
    if front == [StartSeen] {
      OneMore(c, [], StartSeen, front);
    } else if Breakable(c, front, got) {
      var k: nat :| BreaksOffAt(c, k, got, front, []);
      OpenedPhase(c, k, got);
      assert Opened(c, k, got) + [] == Opened(c, k, got);
    }
  }

  lemma BreaksOffSplit(c: Call, got: seq<uint8>, front: seq<Wire>, tail: seq<Wire>)
    requires c.Proper() && |tail| > 0
    ensures BreaksOff(c, got, front + tail, tail) <==> Breakable(c, front, got)
  {
    forall k: nat ensures BreaksOffAt(c, k, got, front + tail, tail) <==> BreaksOffAt(c, k, got, front, []) {
      if InRange(c, k, got) {
        var open := Opened(c, k, got);
        assert open + [] == open;
        if front + tail == open + tail {
          assert front == (front + tail)[..|front|] == open;
        }
      }
    }
    if front + tail == [StartSeen] + tail {
      assert front == (front + tail)[..|front|] == [StartSeen];
    }
  }

  predicate EndsWith(ws: seq<Wire>, tail: seq<Wire>) {
    |ws| >= |tail| && ws[|ws| - |tail|..] == tail
  }

  lemma BrokenOffEndsWith(c: Call, ws: seq<Wire>, tail: seq<Wire>)
    requires c.Proper() && BreaksOff(c, ReceivedBytes(ws), ws, tail)
    ensures EndsWith(ws, tail)
  {
  }

  lemma LossEndsWith(c: Call, ws: seq<Wire>)
    requires c.Proper() && PhaseOf(c, ws) == Over(ArbitrationGone)
    ensures EndsWith(ws, [LostSeen])
  {
    var front, w := ws[..|ws| - 1], ws[|ws| - 1];
    NeverStoppingForLoss(c, front);
    LossIsLast(c, PhaseOf(c, front), w);
    assert ws[|ws| - 1..] == [w];
  }

  lemma LossIsLast(c: Call, p: Phase, w: Wire)
    requires c.addr < 128 && Advance(c, p, w) == Over(ArbitrationGone) && p != Stopping(ArbitrationGone)
    ensures w == LostSeen
  {
  }

  lemma {:induction false} NeverStoppingForLoss(c: Call, ws: seq<Wire>)
    requires c.Proper()
    ensures PhaseOf(c, ws) != Stopping(ArbitrationGone)
  {
    if ws != [] {
      NeverStoppingForLoss(c, ws[..|ws| - 1]);
    }
  }

  lemma LossAfter(c: Call, front: seq<Wire>, ws: seq<Wire>)
    requires c.Proper() && ws == front + [LostSeen]
    ensures PhaseOf(c, ws) == Over(ArbitrationGone) <==> ShowsLoss(c, ws)
  {
    Snoc(c, front, LostSeen);
    BreakableIff(c, front);
    BreaksOffSplit(c, ReceivedBytes(ws), front, [LostSeen]);
    NeverStoppingForLoss(c, front);
  }

  lemma BeginsEmpty(c: Call, ws: seq<Wire>)
    requires c.Proper()
    ensures PhaseOf(c, ws).Begin? <==> ws == []
  {
    PhaseFits(c, ws);
  }

  lemma ErrorPhase(c: Call, front: seq<Wire>, ws: seq<Wire>)
    requires c.Proper() && ws == front + [ErrorSeen, StopSeen]
    ensures ReceivedBytes(ws) == ReceivedBytes(front)
    ensures PhaseOf(c, ws) == Over(BusBroken) <==> front == [] || PhaseOf(c, front).AfterStart? || PhaseOf(c, front).InData?
  {
    Snoc(c, front, ErrorSeen);
    assert ws == front + [ErrorSeen] + [StopSeen];
    Snoc(c, front + [ErrorSeen], StopSeen);
    BeginsEmpty(c, front);
  }

  lemma ErrorAfter(c: Call, front: seq<Wire>, ws: seq<Wire>)
    requires c.Proper() && ws == front + [ErrorSeen, StopSeen]
    ensures PhaseOf(c, ws) == Over(BusBroken) <==> ShowsError(c, ws)
  {
    ErrorPhase(c, front, ws);
    BreakableIff(c, front);
    BreaksOffSplit(c, ReceivedBytes(ws), front, [ErrorSeen, StopSeen]);
    assert front == ws[..|ws| - 2];
  }

  lemma ErrorEndsWith(c: Call, ws: seq<Wire>)
    requires c.Proper() && PhaseOf(c, ws) == Over(BusBroken)
    ensures EndsWith(ws, [ErrorSeen, StopSeen])
  {
    var front := ws[..|ws| - 1];
    assert PhaseOf(c, ws) == Advance(c, PhaseOf(c, front), ws[|ws| - 1]);
    assert PhaseOf(c, front) == Advance(c, PhaseOf(c, front[..|front| - 1]), front[|front| - 1]);
    assert ws[|ws| - 2] == front[|front| - 1];
  }

  /** The monitor's verdicts of failure, written out: a lost arbitration breaks the transaction off
    * where it stands, and so does a bus error, with STOP after it.
    */
  lemma FailureIffShown(c: Call, ws: seq<Wire>)
    requires c.Proper()
    ensures PhaseOf(c, ws) == Over(ArbitrationGone) <==> ShowsLoss(c, ws)
    ensures PhaseOf(c, ws) == Over(BusBroken) <==> ShowsError(c, ws)
  {
    var n := |ws|;
    if EndsWith(ws, [LostSeen]) {
      assert ws == ws[..n - 1] + [LostSeen];
      LossAfter(c, ws[..n - 1], ws);
    }
    if EndsWith(ws, [ErrorSeen, StopSeen]) {
      assert ws == ws[..n - 2] + [ErrorSeen, StopSeen];
      ErrorAfter(c, ws[..n - 2], ws);
    }
    FailureEnds(c, ws);
  }

  lemma FailureEnds(c: Call, ws: seq<Wire>)
    requires c.Proper()
    ensures PhaseOf(c, ws) == Over(ArbitrationGone) || ShowsLoss(c, ws) ==> EndsWith(ws, [LostSeen])
    ensures PhaseOf(c, ws) == Over(BusBroken) || ShowsError(c, ws) ==> EndsWith(ws, [ErrorSeen, StopSeen])
  {
    if PhaseOf(c, ws) == Over(ArbitrationGone) {
      LossEndsWith(c, ws);
    }
    if PhaseOf(c, ws) == Over(BusBroken) {
      ErrorEndsWith(c, ws);
    }
    if BreaksOff(c, ReceivedBytes(ws), ws, [LostSeen]) {
      BrokenOffEndsWith(c, ws, [LostSeen]);
    }
    if BreaksOff(c, ReceivedBytes(ws), ws, [ErrorSeen, StopSeen]) {
      BrokenOffEndsWith(c, ws, [ErrorSeen, StopSeen]);
    }
  }

  /** What the bytes on the bus have to do with the call, at any phase the monitor accepts. */
  ghost predicate BytesAgree(c: Call, p: Phase, sent: seq<uint8>, got: seq<uint8>) {
    match c
    case Write(_, data, _) =>
      && got == [] && sent <= data
      && (p.Begin? || p.AfterStart? ==> sent == [])
      && (p.InData? ==> p.k == |sent|)
      && (p == Over(Complete) ==> sent == data)
      && p != Stopping(Complete)
    case Read(_, length) =>
      && sent == [] && |got| <= length
      && (p.Begin? || p.AfterStart? ==> got == [])
      && (p.InData? ==> p.k == |got| < length)
      && ((p.Stopping? || p.Over?) && p.v.Complete? ==> |got| == length)
      && ((p.Stopping? || p.Over?) && p.v.AddressRefused? ==> got == [])
  }

  lemma {:induction false} BytesOnTheBus(c: Call, ws: seq<Wire>)
    requires c.Proper() && PhaseOf(c, ws) != Bad
    ensures BytesAgree(c, PhaseOf(c, ws), SentBytes(ws), ReceivedBytes(ws))
    decreases |ws|
  {
    if ws != [] {
      BytesOnTheBus(c, ws[..|ws| - 1]);
    }
  }
}
