/** The driver as bus master: foreground calls that spin on the driver's state, and interrupts
  * that arrive in between, against a bus that answers as it likes. No other master addresses
  * this device as a slave here.
  */
module TwiMaster {
  import opened Words
  import opened TwiDriver
  import opened TwiBus

  /** Where the foreground program is. */
  datatype Foreground = Idle | Spinning(c: Call) | Waiting(c: Call)

  /** What a call gave back: `launch` says which transaction it was, if it started one. */
  datatype Return =
    | Rejected(c: Call, code: nat)
    | WriteDone(launch: nat, code: nat)
    | ReadDone(launch: nat, data: seq<uint8>)

  /** The whole system. `segments[i]` is what the bus showed from the START command of
    * `launched[i]` to the next one.
    */
  datatype Sys = Sys(d: Drv, hw: Hw, fg: Foreground, launched: seq<Call>, segments: seq<seq<Wire>>, returned: seq<Return>)

  datatype Event =
    | Invoke(c: Call)
    | StartCommand
    | ReturnToCaller
    | BusReplies(o: Outcome)

  predicate Init(s: Sys) {
    s.d.WellFormed() && s.d.mode == Ready && s.hw == Free && s.fg == Idle
    && s.launched == [] && s.segments == [] && s.returned == []
  }

  /** A call returns once it stops waiting: a write without `wait` returns at any time. */
  predicate WaitIsOver(d: Drv, c: Call) {
    match c
    case Read(_, _) => d.mode != MasterReceive
    case Write(_, _, wait) => !wait || d.mode != MasterTransmit
  }

  predicate Enabled(s: Sys, e: Event) {
    match e
    case Invoke(c) => s.fg == Idle && c.Proper()
    case StartCommand => s.fg.Spinning? && s.d.mode == Ready
    case ReturnToCaller => s.fg.Waiting? && WaitIsOver(s.d, s.fg.c)
    case BusReplies(o) => Possible(s.hw, o)
  }

  /** The system can do `e` without the interrupt routine leaving its buffers. */
  predicate Safe(s: Sys, e: Event) {
    && s.d.WellFormed()
    && (s.fg.Spinning? ==> s.fg.c.Proper() && s.fg.c.FitsBuffer())
    && (e.BusReplies? && Possible(s.hw, e.o) ==>
          && InBounds(WithData(s.d, e.o), StatusOf(s.hw, e.o))
          && s.segments != [])
    && (e.ReturnToCaller? ==> s.launched != [] && (s.fg.Waiting? && s.fg.c.Read? ==> s.d.masterIndex <= BUFFER_LENGTH))
  }

  function Push(segments: seq<seq<Wire>>, ws: seq<Wire>): seq<seq<Wire>>
    requires segments != []
  {
    segments[..|segments| - 1] + [segments[|segments| - 1] + ws]
  }

  function Next(s: Sys, e: Event): Sys
    requires Enabled(s, e) && Safe(s, e)
  {
    match e
    case Invoke(c) =>
      if c.FitsBuffer() then s.(fg := Spinning(c))
      else s.(returned := s.returned + [Rejected(c, if c.Read? then 0 else 1)])
    case StartCommand =>
      s.(d := Launch(s.d, s.fg.c), hw := Starting, fg := Waiting(s.fg.c),
         launched := s.launched + [s.fg.c], segments := s.segments + [[]])
    case ReturnToCaller =>
      s.(fg := Idle, returned := s.returned + [
        if s.fg.c.Read? then ReadDone(|s.launched| - 1, s.d.masterBuffer[..Min(s.d.masterIndex, s.fg.c.length)])
        else WriteDone(|s.launched| - 1, WriteCode(s.d.error))])
    case BusReplies(o) =>
      var st := StatusOf(s.hw, o);
      var d' := Isr(WithData(s.d, o), st, []);
      s.(d := d', hw := NextHw(st, d'.control, d'.twdr),
         segments := Push(s.segments, [Seen(s.hw, o)] + if d'.control.SendStop? then [StopSeen] else []))
  }

  // ----- the invariant -----

  /** The error variable once the transaction of a write is over. */
  function FaultOf(v: Verdict): Fault {
    match v
    case Complete => NoFault
    case AddressRefused => AddressNack
    case DataRefused(_) => DataNack
    case ArbitrationGone => ArbitrationLost
    case BusBroken => BusFault
  }

  /** The driver, the hardware and the monitor agree on how far the transaction of `c` is: it
    * stands at phase `p` and has read `got`.
    */
  ghost predicate InProgress(d: Drv, hw: Hw, c: Call, p: Phase, got: seq<uint8>)
    requires c.Proper()
  {
    && d.error == NoFault
    && d.slarw == c.AddressByte()
    && (c.Write? ==> d.mode == MasterTransmit && d.masterLength == |c.data| <= |d.masterBuffer| && d.masterBuffer[..|c.data|] == c.data)
    && (c.Read? ==> d.mode == MasterReceive && d.masterLength == c.length - 1 && Collected(d, got))
    && match hw
       case Free => false
       case Starting => p == Begin && d.masterIndex == 0
       case SendingAddress(b) => p == AfterStart && b == c.AddressByte() && d.masterIndex == 0
       case SendingData(b) =>
         c.Write? && 0 < d.masterIndex <= |c.data| && b == c.data[d.masterIndex - 1] && p == InData(d.masterIndex - 1)
       case Receiving(ack) =>
         c.Read? && d.masterIndex < c.length && ack == (d.masterIndex + 1 < c.length) && p == InData(d.masterIndex)
  }

  ghost predicate Collected(d: Drv, got: seq<uint8>) {
    d.masterIndex <= |d.masterBuffer| && d.masterBuffer[..d.masterIndex] == got
  }

  /** The transaction of `c` is over, and the driver holds its result. */
  ghost predicate Finished(d: Drv, hw: Hw, c: Call, p: Phase, got: seq<uint8>) {
    && d.mode == Ready && hw == Free
    && p.Over?
    && (c.Write? ==> d.error == FaultOf(p.v))
    && (c.Read? ==> Collected(d, got) && d.masterIndex <= c.length)
  }

  ghost predicate InStep(d: Drv, hw: Hw, c: Call, p: Phase, got: seq<uint8>)
    requires c.Proper()
  {
    InProgress(d, hw, c, p, got) || Finished(d, hw, c, p, got)
  }

  ghost predicate AllProper(launched: seq<Call>) {
    forall i :: 0 <= i < |launched| ==> launched[i].Proper() && launched[i].FitsBuffer()
  }

  /** What a call returned agrees with what the bus showed for it. */
  ghost predicate ReturnAgrees(r: Return, launched: seq<Call>, segments: seq<seq<Wire>>)
    requires |launched| == |segments| && AllProper(launched)
  {
    match r
    case Rejected(c, code) => !c.FitsBuffer() && code == if c.Read? then 0 else 1
    case WriteDone(i, code) =>
      && i < |launched| && launched[i].Write?
      && (launched[i].wait ==> PhaseOf(launched[i], segments[i]).Over?
                               && code == WriteCode(FaultOf(PhaseOf(launched[i], segments[i]).v)))
    case ReadDone(i, data) =>
      i < |launched| && launched[i].Read? && PhaseOf(launched[i], segments[i]).Over? && data == ReceivedBytes(segments[i])
  }

  ghost predicate Waits(fg: Foreground, launched: seq<Call>) {
    match fg
    case Idle => true
    case Spinning(c) => c.Proper() && c.FitsBuffer()
    case Waiting(c) => launched != [] && c == launched[|launched| - 1]
  }

  /** Every transaction but perhaps the last is whole and belongs to its own call. */
  ghost predicate Inv(s: Sys) {
    var n := |s.launched|;
    && s.d.WellFormed() && |s.segments| == n
    && AllProper(s.launched)
    && Waits(s.fg, s.launched)
    && (n == 0 ==> s.d.mode == Ready && s.hw == Free)
    && (n > 0 ==>
          InStep(s.d, s.hw, s.launched[n - 1], PhaseOf(s.launched[n - 1], s.segments[n - 1]), ReceivedBytes(s.segments[n - 1])))
    && (forall i :: 0 <= i < n - 1 ==> PhaseOf(s.launched[i], s.segments[i]).Over?)
    && (forall r :: r in s.returned ==> ReturnAgrees(r, s.launched, s.segments))
  }

  // ----- every step keeps it -----

  lemma AddressReply(d: Drv, c: Call, b: uint8)
    requires c.Proper() && b == c.AddressByte()
    ensures IsReadAddress(b) <==> c.Read?
  {
  }

  /** While a transaction is under way the interrupt routine stays inside its buffers. */
  lemma ProgressIsSafe(d: Drv, hw: Hw, c: Call, p: Phase, got: seq<uint8>, o: Outcome)
    requires d.WellFormed() && c.Proper() && c.FitsBuffer() && InProgress(d, hw, c, p, got) && Possible(hw, o)
    ensures InBounds(WithData(d, o), StatusOf(hw, o))
  {
  }

  /** What one interrupt adds to the trace. */
  function Shown(hw: Hw, o: Outcome, d': Drv): seq<Wire>
    requires Possible(hw, o)
  {
    [Seen(hw, o)] + if d'.control.SendStop? then [StopSeen] else []
  }

  lemma SnocTwice(c: Call, ws: seq<Wire>, v: Wire, w: Wire)
    requires c.addr < 128
    ensures PhaseOf(c, ws + [v, w]) == Advance(c, Advance(c, PhaseOf(c, ws), v), w)
    ensures ReceivedBytes(ws + [v, w]) ==
              ReceivedBytes(ws) + (if v.Received? then [v.byte] else []) + (if w.Received? then [w.byte] else [])
  {
    var one, two := ws + [v], ws + [v, w];
    assert two == one + [w];
    Snoc(c, ws, v);
    Snoc(c, one, w);
  }

  lemma ShownPhase(c: Call, ws: seq<Wire>, hw: Hw, o: Outcome, d': Drv)
    requires c.Proper() && Possible(hw, o)
    ensures PhaseOf(c, ws + Shown(hw, o, d')) ==
              if d'.control.SendStop? then Advance(c, Advance(c, PhaseOf(c, ws), Seen(hw, o)), StopSeen)
              else Advance(c, PhaseOf(c, ws), Seen(hw, o))
    ensures ReceivedBytes(ws + Shown(hw, o, d')) == ReceivedBytes(ws) + if o.Arrived? then [o.byte] else []
  {
    if d'.control.SendStop? {
      SnocTwice(c, ws, Seen(hw, o), StopSeen);
      assert Shown(hw, o, d') == [Seen(hw, o), StopSeen];
    } else {
      Snoc(c, ws, Seen(hw, o));
      assert Shown(hw, o, d') == [Seen(hw, o)];
    }
  }

  /** The phase after one interrupt. */
  function PhaseAfter(c: Call, p: Phase, hw: Hw, o: Outcome, d': Drv): Phase
    requires c.Proper() && Possible(hw, o)
  {
    var q := Advance(c, p, Seen(hw, o));
    if d'.control.SendStop? then Advance(c, q, StopSeen) else q
  }

  ghost predicate KeepsStep(d: Drv, hw: Hw, c: Call, p: Phase, got: seq<uint8>, o: Outcome)
    requires c.Proper() && Possible(hw, o) && InBounds(WithData(d, o), StatusOf(hw, o))
  {
    var st := StatusOf(hw, o);
    var d' := Isr(WithData(d, o), st, []);
    InStep(d', NextHw(st, d'.control, d'.twdr), c, PhaseAfter(c, p, hw, o, d'), if o.Arrived? then got + [o.byte] else got)
  }

  lemma StepWhileStarting(d: Drv, c: Call, p: Phase, got: seq<uint8>, o: Outcome)
    requires d.WellFormed() && c.Proper() && c.FitsBuffer() && InProgress(d, Starting, c, p, got) && Possible(Starting, o)
    ensures KeepsStep(d, Starting, c, p, got, o)
  {
  }

  lemma StepWhileAddressing(d: Drv, b: uint8, c: Call, p: Phase, got: seq<uint8>, o: Outcome)
    requires d.WellFormed() && c.Proper() && c.FitsBuffer() && InProgress(d, SendingAddress(b), c, p, got)
    requires Possible(SendingAddress(b), o)
    ensures KeepsStep(d, SendingAddress(b), c, p, got, o)
  {
    AddressReply(d, c, b);
    if c.Write? && c.data != [] {
      assert d.masterBuffer[0] == d.masterBuffer[..|c.data|][0];
    }
  }

  lemma StepWhileSending(d: Drv, b: uint8, c: Call, p: Phase, got: seq<uint8>, o: Outcome)
    requires d.WellFormed() && c.Proper() && c.FitsBuffer() && InProgress(d, SendingData(b), c, p, got)
    requires Possible(SendingData(b), o)
    ensures KeepsStep(d, SendingData(b), c, p, got, o)
  {
    if d.masterIndex < |c.data| {
      assert d.masterBuffer[d.masterIndex] == d.masterBuffer[..|c.data|][d.masterIndex];
    }
  }

  lemma StepWhileReceiving(d: Drv, ack: bool, c: Call, p: Phase, got: seq<uint8>, o: Outcome)
    requires d.WellFormed() && c.Proper() && c.FitsBuffer() && InProgress(d, Receiving(ack), c, p, got)
    requires Possible(Receiving(ack), o)
    ensures KeepsStep(d, Receiving(ack), c, p, got, o)
  {
    if o.Arrived? {
      var stored := d.masterBuffer[d.masterIndex := o.byte];
      assert stored[..d.masterIndex + 1] == d.masterBuffer[..d.masterIndex] + [o.byte];
    }
  }

  /** One interrupt moves a transaction on, or ends it. */
  lemma ProgressStep(d: Drv, hw: Hw, c: Call, p: Phase, got: seq<uint8>, o: Outcome)
    requires d.WellFormed() && c.Proper() && c.FitsBuffer() && InProgress(d, hw, c, p, got) && Possible(hw, o)
    ensures InBounds(WithData(d, o), StatusOf(hw, o)) && KeepsStep(d, hw, c, p, got, o)
  {
    ProgressIsSafe(d, hw, c, p, got, o);
    match hw
    case Starting => StepWhileStarting(d, c, p, got, o);
    case SendingAddress(b) => StepWhileAddressing(d, b, c, p, got, o);
    case SendingData(b) => StepWhileSending(d, b, c, p, got, o);
    case Receiving(ack) => StepWhileReceiving(d, ack, c, p, got, o);
  }

  // ----- every reply brings the end nearer -----

  function Length(c: Call): nat { if c.Write? then |c.data| else c.length }

  /** The most replies of the bus until call `c` is over. */
  function Remaining(d: Drv, hw: Hw, c: Call): int {
    match hw
    case Free => 0
    case Starting => Length(c) + 3
    case SendingAddress(_) => Length(c) + 2
    case SendingData(_) => Length(c) - d.masterIndex + 1
    case Receiving(_) => Length(c) - d.masterIndex
  }

  /** Whatever the bus replies, fewer replies remain. */
  lemma ReplyBringsEnd(d: Drv, hw: Hw, c: Call, p: Phase, got: seq<uint8>, o: Outcome)
    requires d.WellFormed() && c.Proper() && c.FitsBuffer() && InProgress(d, hw, c, p, got) && Possible(hw, o)
    ensures InBounds(WithData(d, o), StatusOf(hw, o))
    ensures var st := StatusOf(hw, o); var d' := Isr(WithData(d, o), st, []);
            0 <= Remaining(d', NextHw(st, d'.control, d'.twdr), c) < Remaining(d, hw, c)
  {
    ProgressStep(d, hw, c, p, got, o);
    match hw
    case Starting =>
    case SendingAddress(b) => AddressReply(d, c, b);
    case SendingData(b) =>
    case Receiving(ack) =>
  }

  /** Nothing the system can do leaves the buffers. */
  lemma InvIsSafe(s: Sys, e: Event)
    requires Inv(s) && Enabled(s, e)
    ensures Safe(s, e)
  {
    var n := |s.launched|;
    if n > 0 && e.BusReplies? {
      var c, ws := s.launched[n - 1], s.segments[n - 1];
      ProgressIsSafe(s.d, s.hw, c, PhaseOf(c, ws), ReceivedBytes(ws), e.o);
    }
  }

  lemma InvAfterInvoke(s: Sys, c: Call)
    requires Inv(s) && Enabled(s, Invoke(c)) && Safe(s, Invoke(c))
    ensures Inv(Next(s, Invoke(c)))
  {
  }

  lemma InvAfterStart(s: Sys)
    requires Inv(s) && Enabled(s, StartCommand) && Safe(s, StartCommand)
    ensures Inv(Next(s, StartCommand))
  {
    var s', n := Next(s, StartCommand), |s.launched|;
    var c := s.fg.c;
    assert s'.launched[n] == c && s'.segments[n] == [];
    assert InProgress(s'.d, s'.hw, c, Begin, []);
    assert forall i :: 0 <= i < n ==> s'.launched[i] == s.launched[i] && s'.segments[i] == s.segments[i];
    forall r | r in s'.returned ensures ReturnAgrees(r, s'.launched, s'.segments) {
      assert ReturnAgrees(r, s.launched, s.segments);
    }
  }

  lemma InvAfterReturn(s: Sys)
    requires Inv(s) && Enabled(s, ReturnToCaller) && Safe(s, ReturnToCaller)
    ensures Inv(Next(s, ReturnToCaller))
  {
    var s', n := Next(s, ReturnToCaller), |s.launched|;
    var c := s.fg.c;
    var r := s'.returned[|s.returned|];
    assert ReturnAgrees(r, s.launched, s.segments);
    forall q | q in s'.returned ensures ReturnAgrees(q, s'.launched, s'.segments) {
      assert q in s.returned || q == r;
    }
  }

  /** Results already returned are about transactions that are over, so the current one may go on. */
  lemma ReturnStands(r: Return, launched: seq<Call>, segments: seq<seq<Wire>>, ws: seq<Wire>)
    requires |launched| == |segments| > 0 && AllProper(launched)
    requires !PhaseOf(launched[|launched| - 1], segments[|launched| - 1]).Over?
    requires ReturnAgrees(r, launched, segments)
    ensures ReturnAgrees(r, launched, Push(segments, ws))
  {
  }

  lemma CurrentStep(s: Sys, o: Outcome)
    requires Inv(s) && Enabled(s, BusReplies(o)) && Safe(s, BusReplies(o))
    ensures
      var s', n := Next(s, BusReplies(o)), |s.launched|;
      && n > 0 && |s'.segments| == n && s'.segments == Push(s.segments, Shown(s.hw, o, s'.d))
      && !PhaseOf(s.launched[n - 1], s.segments[n - 1]).Over?
      && InStep(s'.d, s'.hw, s'.launched[n - 1], PhaseOf(s'.launched[n - 1], s'.segments[n - 1]), ReceivedBytes(s'.segments[n - 1]))
  {
    var s', n := Next(s, BusReplies(o)), |s.launched|;
    var c, ws := s.launched[n - 1], s.segments[n - 1];
    ProgressStep(s.d, s.hw, c, PhaseOf(c, ws), ReceivedBytes(ws), o);
    ShownPhase(c, ws, s.hw, o, s'.d);
    assert s'.segments[n - 1] == ws + Shown(s.hw, o, s'.d);
  }

  lemma InvAfterReply(s: Sys, o: Outcome)
    requires Inv(s) && Enabled(s, BusReplies(o)) && Safe(s, BusReplies(o))
    ensures Inv(Next(s, BusReplies(o)))
  {
    CurrentStep(s, o);
    var s' := Next(s, BusReplies(o));
    forall r | r in s'.returned ensures ReturnAgrees(r, s'.launched, s'.segments) {
      ReturnStands(r, s.launched, s.segments, Shown(s.hw, o, s'.d));
    }
  }

  lemma InvAfterStep(s: Sys, e: Event)
    requires Inv(s) && Enabled(s, e)
    ensures Safe(s, e) && Inv(Next(s, e))
  {
    InvIsSafe(s, e);
    match e
    case Invoke(c) => InvAfterInvoke(s, c);
    case StartCommand => InvAfterStart(s);
    case ReturnToCaller => InvAfterReturn(s);
    case BusReplies(o) => InvAfterReply(s, o);
  }

  // ----- whole runs -----

  /** A run from power-up. A step that left the buffers would be free to go anywhere. */
  ghost predicate IsRun(states: seq<Sys>, events: seq<Event>) {
    && |states| == |events| + 1
    && Init(states[0])
    && forall i :: 0 <= i < |events| ==>
         && Enabled(states[i], events[i])
         && (Safe(states[i], events[i]) ==> states[i + 1] == Next(states[i], events[i]))
  }

  lemma {:induction false} RunKeepsInv(states: seq<Sys>, events: seq<Event>, i: nat)
    requires IsRun(states, events) && i < |states|
    ensures Inv(states[i])
  {
    if i > 0 {
      RunKeepsInv(states, events, i - 1);
      InvAfterStep(states[i - 1], events[i - 1]);
    }
  }

  /** In no run does the interrupt routine index outside its buffers. */
  lemma RunsStayInBounds(states: seq<Sys>, events: seq<Event>, i: nat)
    requires IsRun(states, events) && i < |events|
    ensures Safe(states[i], events[i])
    ensures events[i].BusReplies? && events[i].o.Arrived? ==>
              && states[i].launched != []
              && states[i].launched[|states[i].launched| - 1].Read?
              && states[i].d.masterIndex < states[i].launched[|states[i].launched| - 1].length
  {
    RunKeepsInv(states, events, i);
    InvIsSafe(states[i], events[i]);
  }

  /** At every moment of every run the bus has shown one whole transaction for each call started
    * so far, in call order, except that the last may still be under way; and the driver is ready
    * exactly when the hardware is at rest and nothing is under way.
    */
  lemma TransactionsAreWhole(states: seq<Sys>, events: seq<Event>, i: nat)
    requires IsRun(states, events) && i < |states|
    ensures
      var s := states[i];
      && |s.segments| == |s.launched| && AllProper(s.launched)
      && (forall k :: 0 <= k < |s.launched| - 1 ==> PhaseOf(s.launched[k], s.segments[k]).Over?)
      && (s.d.mode == Ready <==> s.hw == Free)
      && (s.launched != [] ==>
            var p := PhaseOf(s.launched[|s.launched| - 1], s.segments[|s.launched| - 1]);
            p != Bad && (p.Over? <==> s.d.mode == Ready))
  {
    RunKeepsInv(states, events, i);
  }

  /** The calls that the program has made so far and that the buffer can take. */
  function Accepted(events: seq<Event>): seq<Call> {
    if events == [] then [] else
      var front, e := Accepted(events[..|events| - 1]), events[|events| - 1];
      if e.Invoke? && e.c.FitsBuffer() then front + [e.c] else front
  }

  function NotYetStarted(fg: Foreground): seq<Call> {
    if fg.Spinning? then [fg.c] else []
  }

  lemma CallOrderStep(s: Sys, e: Event)
    requires Enabled(s, e) && Safe(s, e)
    ensures Next(s, e).launched + NotYetStarted(Next(s, e).fg) ==
              s.launched + NotYetStarted(s.fg) + if e.Invoke? && e.c.FitsBuffer() then [e.c] else []
  {
  }

  /** Transactions start in the order of the calls, and at most the latest call is still waiting. */
  lemma {:induction false} StartedInCallOrder(states: seq<Sys>, events: seq<Event>, i: nat)
    requires IsRun(states, events) && i < |states|
    ensures Accepted(events[..i]) == states[i].launched + NotYetStarted(states[i].fg)
  {
    if i > 0 {
      StartedInCallOrder(states, events, i - 1);
      RunsStayInBounds(states, events, i - 1);
      CallOrderStep(states[i - 1], events[i - 1]);
      assert events[..i][..i - 1] == events[..i - 1];
    }
  }

  function Replies(events: seq<Event>): nat {
    if events == [] then 0 else Replies(events[..|events| - 1]) + if events[|events| - 1].BusReplies? then 1 else 0
  }

  /** The replies still to come for the call on the bus. */
  function StillToCome(s: Sys): int
    requires s.launched != []
  {
    Remaining(s.d, s.hw, s.launched[|s.launched| - 1])
  }

  /** One step that starts no transaction uses up a reply if it is one. */
  lemma StepUsesReply(s: Sys, e: Event)
    requires Inv(s) && Enabled(s, e) && Safe(s, e) && !e.StartCommand? && s.launched != []
    ensures Next(s, e).launched == s.launched
    ensures StillToCome(Next(s, e)) <= StillToCome(s) - if e.BusReplies? then 1 else 0
  {
    if e.BusReplies? {
      var n := |s.launched|;
      var c, ws := s.launched[n - 1], s.segments[n - 1];
      ReplyBringsEnd(s.d, s.hw, c, PhaseOf(c, ws), ReceivedBytes(ws), e.o);
    }
  }

  /** Replies still to come are at most the call's length and three, and none are exactly when the
    * driver is ready; while there are any, the bus has a reply to give.
    */
  lemma StillToComeBounds(s: Sys)
    requires Inv(s) && s.launched != []
    ensures 0 <= StillToCome(s) <= Length(s.launched[|s.launched| - 1]) + 3
    ensures StillToCome(s) == 0 <==> s.d.mode == Ready
    ensures s.d.mode != Ready ==> Enabled(s, BusReplies(Broken))
  {
  }

  lemma RunUsesReply(states: seq<Sys>, events: seq<Event>, k: nat)
    requires IsRun(states, events) && k < |events| && !events[k].StartCommand? && states[k].launched != []
    ensures states[k + 1].launched == states[k].launched
    ensures StillToCome(states[k + 1]) <= StillToCome(states[k]) - if events[k].BusReplies? then 1 else 0
  {
    RunKeepsInv(states, events, k);
    RunsStayInBounds(states, events, k);
    StepUsesReply(states[k], events[k]);
  }

  lemma RepliesSnoc(events: seq<Event>, i: nat, j: nat)
    requires i <= j < |events|
    ensures Replies(events[i..j + 1]) == Replies(events[i..j]) + if events[j].BusReplies? then 1 else 0
  {
    assert events[i..j + 1][..j - i] == events[i..j];
  }

  lemma {:induction false} RepliesCountDown(states: seq<Sys>, events: seq<Event>, i: nat, j: nat)
    requires IsRun(states, events) && i <= j < |states| && states[i].launched != []
    requires forall k :: i <= k < j ==> !events[k].StartCommand?
    ensures states[j].launched == states[i].launched
    ensures StillToCome(states[j]) <= StillToCome(states[i]) - Replies(events[i..j])
    decreases j
  {
    if i < j {
      RepliesCountDown(states, events, i, j - 1);
      RunUsesReply(states, events, j - 1);
      RepliesSnoc(events, i, j - 1);
    }
  }

  /** Whatever the bus replies and whatever the program does meanwhile, short of starting another
    * transaction: from any moment of any run the call on the bus is over, and the driver ready,
    * after as many replies as are still to come, which never are more than the call's length and
    * three. So every waiting loop ends if the bus keeps replying.
    */
  lemma WaitsEnd(states: seq<Sys>, events: seq<Event>, i: nat, j: nat)
    requires IsRun(states, events) && i <= j < |states| && states[i].launched != []
    requires forall k :: i <= k < j ==> !events[k].StartCommand?
    ensures 0 <= StillToCome(states[i]) <= Length(states[i].launched[|states[i].launched| - 1]) + 3
    ensures Replies(events[i..j]) <= StillToCome(states[i])
    ensures Replies(events[i..j]) == StillToCome(states[i]) ==> states[j].d.mode == Ready
  {
    RepliesCountDown(states, events, i, j);
    RunKeepsInv(states, events, i);
    StillToComeBounds(states[i]);
    RunKeepsInv(states, events, j);
    StillToComeBounds(states[j]);
  }

  predicate Waited(s: Sys, launch: nat) {
    launch < |s.launched| && s.launched[launch].Write? ==> s.launched[launch].wait
  }

  /** The return code of every waited write says exactly what the bus showed. */
  lemma WriteCodeMeaning(states: seq<Sys>, events: seq<Event>, i: nat, r: Return)
    requires IsRun(states, events) && i < |states|
    requires r in states[i].returned && r.WriteDone? && Waited(states[i], r.launch)
    ensures
      var s := states[i];
      && r.launch < |s.launched| == |s.segments|
      && AllProper(s.launched)
      && var c, ws := s.launched[r.launch], s.segments[r.launch];
         && c.Write?
         && (r.code == 0 <==> ws == Script(c, Complete, []))
         && (r.code == 2 <==> ws == Script(c, AddressRefused, []))
         && (r.code == 3 <==> exists k: nat :: k < |c.data| && ws == Script(c, DataRefused(k), []))
         && (r.code == 4 <==> ShowsLoss(c, ws) || ShowsError(c, ws))
         && r.code in {0, 2, 3, 4}
         && SentBytes(ws) <= c.data && (r.code == 0 ==> SentBytes(ws) == c.data)
  {
    RunKeepsInv(states, events, i);
    var s := states[i];
    assert ReturnAgrees(r, s.launched, s.segments);
    WriteVerdict(s.launched[r.launch], s.segments[r.launch]);
  }

  lemma WriteVerdict(c: Call, ws: seq<Wire>)
    requires c.Proper() && c.Write? && PhaseOf(c, ws).Over?
    ensures
      var code := WriteCode(FaultOf(PhaseOf(c, ws).v));
      && (code == 0 <==> ws == Script(c, Complete, []))
      && (code == 2 <==> ws == Script(c, AddressRefused, []))
      && (code == 3 <==> exists k: nat :: k < |c.data| && ws == Script(c, DataRefused(k), []))
      && (code == 4 <==> ShowsLoss(c, ws) || ShowsError(c, ws))
      && SentBytes(ws) <= c.data && (code == 0 ==> SentBytes(ws) == c.data)
  {
    BytesOnTheBus(c, ws);
    FailureIffShown(c, ws);
    VerdictIffScript(c, Complete, ws);
    VerdictIffScript(c, AddressRefused, ws);
    forall k: nat | k < |c.data|
      ensures PhaseOf(c, ws) == Over(DataRefused(k)) <==> ws == Script(c, DataRefused(k), [])
    {
      VerdictIffScript(c, DataRefused(k), ws);
    }
    if PhaseOf(c, ws).v.DataRefused? {
      VerdictIffScript(c, PhaseOf(c, ws).v, ws);
    }
  }

  /** What every finished read returned is what arrived on the bus, and all of it: nothing when
    * the address was refused, and otherwise, unless arbitration was lost or the bus failed, as
    * many bytes as were asked for, each acknowledged but the last.
    */
  lemma ReadResultMeaning(states: seq<Sys>, events: seq<Event>, i: nat, r: Return)
    requires IsRun(states, events) && i < |states|
    requires r in states[i].returned && r.ReadDone?
    ensures
      var s := states[i];
      && r.launch < |s.launched| == |s.segments|
      && AllProper(s.launched)
      && var c, ws := s.launched[r.launch], s.segments[r.launch];
         && c.Read? && r.data == ReceivedBytes(ws) && |r.data| <= c.length
         && match PhaseOf(c, ws)
            case Over(v) =>
              (match v
               case Complete => |r.data| == c.length && ws == Script(c, Complete, r.data)
               case AddressRefused => r.data == [] && ws == Script(c, AddressRefused, [])
               case DataRefused(_) => false
               case ArbitrationGone => ShowsLoss(c, ws)
               case BusBroken => ShowsError(c, ws))
            case _ => false
  {
    RunKeepsInv(states, events, i);
    var s := states[i];
    assert ReturnAgrees(r, s.launched, s.segments);
    var c, ws := s.launched[r.launch], s.segments[r.launch];
    BytesOnTheBus(c, ws);
    PhaseFits(c, ws);
    FailureIffShown(c, ws);
  }

  // ----- calls that start nothing, and the order of returns -----

  /** What the calls too long for the buffer give back: 1 for a write, no bytes for a read. */
  function TurnedAway(events: seq<Event>): seq<Return> {
    if events == [] then [] else
      var front, e := TurnedAway(events[..|events| - 1]), events[|events| - 1];
      if !e.Invoke? then front
      else match e.c
           case Read(_, length) => if length > 32 then front + [Rejected(e.c, 0)] else front
           case Write(_, data, _) => if |data| > 32 then front + [Rejected(e.c, 1)] else front
  }

  function Rejections(returned: seq<Return>): seq<Return> {
    if returned == [] then [] else
      var front, r := Rejections(returned[..|returned| - 1]), returned[|returned| - 1];
      if r.Rejected? then front + [r] else front
  }

  /** The transactions that calls have returned from. */
  function ReturnedFrom(returned: seq<Return>): seq<nat> {
    if returned == [] then [] else
      var front, r := ReturnedFrom(returned[..|returned| - 1]), returned[|returned| - 1];
      if r.Rejected? then front else front + [r.launch]
  }

  lemma ReturnSnoc(returned: seq<Return>, r: Return)
    ensures Rejections(returned + [r]) == Rejections(returned) + if r.Rejected? then [r] else []
    ensures ReturnedFrom(returned + [r]) == ReturnedFrom(returned) + if r.Rejected? then [] else [r.launch]
  {
    assert (returned + [r])[..|returned|] == returned;
  }

  ghost predicate InTurn(s: Sys, away: seq<Return>) {
    && Rejections(s.returned) == away
    && |ReturnedFrom(s.returned)| == |s.launched| - (if s.fg.Waiting? then 1 else 0)
    && forall k :: 0 <= k < |ReturnedFrom(s.returned)| ==> ReturnedFrom(s.returned)[k] == k
  }

  lemma InTurnStep(s: Sys, e: Event, away: seq<Return>, away': seq<Return>)
    requires Enabled(s, e) && Safe(s, e) && InTurn(s, away)
    requires away' == away + if e.Invoke? && !e.c.FitsBuffer() then [Rejected(e.c, if e.c.Read? then 0 else 1)] else []
    ensures InTurn(Next(s, e), away')
  {
    var t := Next(s, e);
    if t.returned != s.returned {
      var r := t.returned[|s.returned|];
      assert t.returned == s.returned + [r];
      ReturnSnoc(s.returned, r);
    }
  }

  /** In every run a call that is too long is turned away at once and starts nothing, and every
    * other returns from its own transaction, in the order they started.
    */
  lemma {:induction false} ReturnsInTurn(states: seq<Sys>, events: seq<Event>, i: nat)
    requires IsRun(states, events) && i < |states|
    ensures Rejections(states[i].returned) == TurnedAway(events[..i])
    ensures var done := ReturnedFrom(states[i].returned);
            && |done| == |states[i].launched| - (if states[i].fg.Waiting? then 1 else 0)
            && forall k :: 0 <= k < |done| ==> done[k] == k
  {
    if i > 0 {
      ReturnsInTurn(states, events, i - 1);
      RunsStayInBounds(states, events, i - 1);
      assert events[..i][..i - 1] == events[..i - 1];
      InTurnStep(states[i - 1], events[i - 1], TurnedAway(events[..i - 1]), TurnedAway(events[..i]));
    }
  }

  // ----- why a read must ask for at least one byte -----

  /** The interrupts of a read whose bytes are all acknowledged. */
  function AfterBytes(d: Drv, bytes: seq<uint8>): Drv
    requires d.WellFormed() && d.masterIndex + |bytes| <= BUFFER_LENGTH
    decreases |bytes|
  {
    if bytes == [] then d else AfterBytes(Isr(d.(twdr := bytes[0]), MrDataAck, []), bytes[1..])
  }

  lemma {:induction false} BytesKeepComing(d: Drv, bytes: seq<uint8>)
    requires d.WellFormed() && d.masterIndex + |bytes| <= BUFFER_LENGTH && d.masterLength == 255
    requires d.control == Reply(true)
    ensures AfterBytes(d, bytes).masterIndex == d.masterIndex + |bytes|
    ensures AfterBytes(d, bytes).control == Reply(true)
    ensures AfterBytes(d, bytes).masterLength == 255
    decreases |bytes|
  {
    if bytes != [] {
      BytesKeepComing(Isr(d.(twdr := bytes[0]), MrDataAck, []), bytes[1..]);
    }
  }

  lemma FullOverruns(full: Drv)
    requires full.masterIndex == BUFFER_LENGTH && full.control == Reply(true)
    ensures NextHw(MrDataAck, full.control, full.twdr) == Receiving(true) && !InBounds(full, MrDataAck)
  {
  }

  /** A read of length 0 acknowledges byte after byte, and the 33rd would be stored past the end
    * of the buffer.
    */
  lemma ZeroLengthReadOverruns(d: Drv, addr: nat, bytes: seq<uint8>, start: Drv, full: Drv)
    requires d.WellFormed() && addr < 128 && |bytes| == BUFFER_LENGTH
    requires start == ReplyMaster(Launch(d, Read(addr, 0)))
    requires full == AfterBytes(start, bytes)
    ensures NextHw(MrDataAck, full.control, full.twdr) == Receiving(true) && !InBounds(full, MrDataAck)
  {
    BytesKeepComing(start, bytes);
    FullOverruns(full);
  }
}
