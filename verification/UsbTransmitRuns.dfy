/** Runs of the serial port's writers against interrupts and the host. A writer's protected
  * sections are single steps; interrupts come before it enters, and each time it waits.
  */
module UsbTransmitRuns {
  import opened Words
  import opened UsbTransmit

  datatype Call = PutChar(c: uint8) | PutCharNoWait(c: uint8) | Write(data: seq<uint8>)

  function Bytes(call: Call): seq<uint8> {
    if call.Write? then call.data else [call.c]
  }

  /** `Checked` has seen a configuration but not yet disabled interrupts; `Waiting` found no room
    * and enabled them again; `Looking` has found neither a timeout nor the device offline.
    */
  datatype Writer =
    | Idle
    | Checked(call: Call)
    | Waiting(call: Call, sent: nat, timeout: uint8)
    | Looking(call: Call, sent: nat, timeout: uint8)

  /** A call that has returned, and how many of its bytes went into the endpoint. */
  datatype Done = Done(call: Call, sent: nat, code: int)

  /** `interrupts` is the processor's interrupt flag and `saved` the caller's copy of it. */
  datatype Sys = Sys(port: Port, interrupts: bool, saved: bool, writer: Writer, done: seq<Done>)

  datatype Event =
    | Invoke(call: Call)
    | Enter
    | Check
    | Look
    | FlushOutput
    | SetInterrupts(on: bool)
    | FrameTick
    | StartOfFrame
    | BusReset
    | SetConfiguration(wValue: uint16)
    | HostReads

  function Finish(s: Sys, call: Call, sent: nat, code: int): Sys {
    s.(writer := Idle, done := s.done + [Done(call, sent, code)])
  }

  function Timeout(p: Port): uint8 { (p.frame + TRANSMIT_TIMEOUT) % 0x100 }

  /** With interrupts off: as many packets as there is room for. */
  function Attempt(s: Sys, call: Call, sent: nat, timeout: uint8): Sys
    requires sent <= |Bytes(call)|
  {
    var left := Bytes(call)[sent..];
    Attempted(s, call, sent, timeout, Fill(s.port, left), Taken(s.port, left))
  }

  /** Having put `k` more bytes in, done or waiting. A write of nothing leaves by the loop's test,
    * which is not followed by restoring the interrupt flag.
    */
  function Attempted(s: Sys, call: Call, sent: nat, timeout: uint8, q: Port, k: nat): Sys {
    if Bytes(call) == [] then
      Finish(s, call, 0, 0)
    else if sent + k >= |Bytes(call)| then
      Finish(s.(port := q, interrupts := s.saved), call, sent + k, 0)
    else
      s.(port := q, interrupts := s.saved,
         writer := Waiting(call, sent + k, if k > 0 then Timeout(s.port) else timeout))
  }

  function EnterStep(s: Sys): Sys
    requires s.writer.Checked?
  {
    var call := s.writer.call;
    var t := s.(saved := s.interrupts, interrupts := false);
    if call.PutCharNoWait? then
      var k := Taken(t.port, [call.c]);
      Finish(t.(port := Fill(t.port, [call.c]), interrupts := t.saved), call, k, if k == 1 then 0 else -1)
    else if t.port.gaveUp && !Roomy(t.port) then
      Finish(t.(interrupts := t.saved), call, 0, -1)
    else
      Attempt(t.(port := t.port.(gaveUp := false)), call, 0, Timeout(t.port))
  }

  function CheckStep(s: Sys): Sys
    requires s.writer.Waiting?
  {
    var w := s.writer;
    if s.port.frame == w.timeout then
      Finish(s.(port := s.port.(gaveUp := true)), w.call, w.sent, -1)
    else if s.port.configuration == 0 then
      Finish(s, w.call, w.sent, -1)
    else
      s.(writer := Looking(w.call, w.sent, w.timeout))
  }

  function Step(s: Sys, e: Event): Sys {
    match e
    case Invoke(call) =>
      if !s.writer.Idle? then s
      else if s.port.configuration == 0 then Finish(s, call, 0, -1)
      else s.(writer := Checked(call))
    case Enter => if s.writer.Checked? then EnterStep(s) else s
    case Check => if s.writer.Waiting? then CheckStep(s) else s
    case Look =>
      if s.writer.Looking? && s.writer.sent <= |Bytes(s.writer.call)| then
        Attempt(s.(saved := s.interrupts, interrupts := false), s.writer.call, s.writer.sent, s.writer.timeout)
      else s
    case FlushOutput => if s.writer.Idle? then s.(port := Flushed(s.port)) else s
    case SetInterrupts(on) => if s.writer.Idle? then s.(interrupts := on) else s
    case FrameTick => s.(port := s.port.(frame := (s.port.frame + 1) % 0x100))
    case StartOfFrame => if s.interrupts then s.(port := AfterStartOfFrame(s.port)) else s
    case BusReset => if s.interrupts then s.(port := AfterBusReset(s.port)) else s
    case SetConfiguration(wValue) => if s.interrupts then s.(port := AfterSetConfiguration(s.port, wValue)) else s
    case HostReads => s.(port := AfterHostReads(s.port))
  }

  function Run(s: Sys, events: seq<Event>): Sys {
    if events == [] then s else Step(Run(s, events[..|events| - 1]), events[|events| - 1])
  }

  predicate Init(s: Sys) {
    && s.writer.Idle? && s.done == []
    && s.port.accepted == [] && s.port.mark == 0 && s.port.packets == [] && s.port.current == []
    && s.port.waiting == 0 && s.port.timer == 0 && s.port.configuration == 0 && !s.port.enabled
  }

  /** Code 0 means every byte went in; -1 means at least one did not. */
  predicate Honest(d: Done) {
    && d.sent <= |Bytes(d.call)|
    && (d.code == 0 || d.code == -1)
    && (d.code == 0 ==> d.sent == |Bytes(d.call)|)
    && (d.code == -1 && Bytes(d.call) != [] ==> d.sent < |Bytes(d.call)|)
  }

  predicate AllHonest(done: seq<Done>) {
    forall k :: 0 <= k < |done| ==> Honest(done[k])
  }

  /** The bytes that the calls that returned put into the endpoint. */
  function Delivered(done: seq<Done>): seq<uint8>
    requires AllHonest(done)
  {
    if done == [] then []
    else
      var d := done[|done| - 1];
      Delivered(done[..|done| - 1]) + Bytes(d.call)[..d.sent]
  }

  predicate WriterSound(w: Writer) {
    w.Waiting? || w.Looking? ==> w.sent < |Bytes(w.call)|
  }

  function UnderWay(w: Writer): seq<uint8>
    requires WriterSound(w)
  {
    if w.Waiting? || w.Looking? then Bytes(w.call)[..w.sent] else []
  }

  ghost predicate Inv(s: Sys) {
    && Sound(s.port)
    && WriterSound(s.writer)
    && AllHonest(s.done)
    && s.port.accepted == Delivered(s.done) + UnderWay(s.writer)
  }

  lemma DeliveredSnoc(done: seq<Done>, d: Done)
    requires AllHonest(done) && Honest(d)
    ensures AllHonest(done + [d])
    ensures Delivered(done + [d]) == Delivered(done) + Bytes(d.call)[..d.sent]
  {
    assert (done + [d])[..|done|] == done;
  }

  /** A call ends having put `sent` bytes in altogether. */
  lemma FinishKeeps(s: Sys, call: Call, sent: nat, code: int)
    requires Sound(s.port) && AllHonest(s.done) && Honest(Done(call, sent, code))
    requires s.port.accepted == Delivered(s.done) + Bytes(call)[..sent]
    ensures Inv(Finish(s, call, sent, code))
  {
    DeliveredSnoc(s.done, Done(call, sent, code));
    assert s.port.accepted + [] == s.port.accepted;
  }

  /** Joining the bytes put in before with those put in now. */
  lemma JoinPrefix(base: seq<uint8>, data: seq<uint8>, sent: nat, k: nat)
    requires sent + k <= |data|
    ensures base + data[..sent] + data[sent..][..k] == base + data[..sent + k]
  {
  }

  /** Filling goes on where the call had got to. */
  lemma FillGoesOn(p: Port, base: seq<uint8>, data: seq<uint8>, sent: nat)
    requires Sound(p) && sent <= |data| && p.accepted == base + data[..sent]
    ensures var k := Taken(p, data[sent..]);
            sent + k <= |data| && Fill(p, data[sent..]).accepted == base + data[..sent + k]
    ensures Sound(Fill(p, data[sent..]))
  {
    FillKeeps(p, data[sent..]);
    JoinPrefix(base, data, sent, Taken(p, data[sent..]));
  }

  lemma AttemptedKeeps(s: Sys, call: Call, sent: nat, timeout: uint8, q: Port, k: nat)
    requires Sound(q) && AllHonest(s.done)
    requires Bytes(call) != [] && sent + k <= |Bytes(call)|
    requires q.accepted == Delivered(s.done) + Bytes(call)[..sent + k]
    ensures Inv(Attempted(s, call, sent, timeout, q, k))
  {
    if sent + k == |Bytes(call)| {
      FinishKeeps(s.(port := q, interrupts := s.saved), call, sent + k, 0);
    }
  }

  lemma AttemptKeeps(s: Sys, call: Call, sent: nat, timeout: uint8)
    requires Sound(s.port) && AllHonest(s.done)
    requires sent < |Bytes(call)| || (call.Write? && sent == |Bytes(call)| == 0)
    requires s.port.accepted == Delivered(s.done) + Bytes(call)[..sent]
    ensures Inv(Attempt(s, call, sent, timeout))
  {
    if Bytes(call) == [] {
      FinishKeeps(s, call, 0, 0);
    } else {
      var left := Bytes(call)[sent..];
      FillGoesOn(s.port, Delivered(s.done), Bytes(call), sent);
      AttemptedKeeps(s, call, sent, timeout, Fill(s.port, left), Taken(s.port, left));
    }
  }

  /** One byte without waiting: in if and only if there is room. */
  lemma OneByte(p: Port, c: uint8)
    requires Sound(p)
    ensures Fill(p, [c]) == if Roomy(p) then PutChunk(p, [c]) else p
    ensures Taken(p, [c]) == if Roomy(p) then 1 else 0
  {
    if Roomy(p) {
      assert [c][..1] == [c] && [c][1..] == [];
      assert ChunkSize(p, 1) == 1;
    }
  }

  lemma EnterKeeps(s: Sys)
    requires Inv(s) && s.writer.Checked?
    ensures Inv(EnterStep(s))
  {
    var call := s.writer.call;
    var t := s.(saved := s.interrupts, interrupts := false);
    assert Delivered(s.done) + [] == Delivered(s.done) + Bytes(call)[..0];
    if call.PutCharNoWait? {
      var k := Taken(t.port, [call.c]);
      var q := Fill(t.port, [call.c]);
      FillKeeps(t.port, [call.c]);
      assert t.port.accepted == Delivered(s.done);
      FinishKeeps(t.(port := q, interrupts := t.saved), call, k, if k == 1 then 0 else -1);
    } else if t.port.gaveUp && !Roomy(t.port) {
      FinishKeeps(t.(interrupts := t.saved), call, 0, -1);
    } else {
      AttemptKeeps(t.(port := t.port.(gaveUp := false)), call, 0, Timeout(t.port));
    }
  }

  lemma CheckKeeps(s: Sys)
    requires Inv(s) && s.writer.Waiting?
    ensures Inv(CheckStep(s))
  {
    var w := s.writer;
    if s.port.frame == w.timeout {
      FinishKeeps(s.(port := s.port.(gaveUp := true)), w.call, w.sent, -1);
    } else if s.port.configuration == 0 {
      FinishKeeps(s, w.call, w.sent, -1);
    }
  }

  lemma InvokeKeeps(s: Sys, call: Call)
    requires Inv(s)
    ensures Inv(Step(s, Invoke(call)))
  {
    if s.writer.Idle? && s.port.configuration == 0 {
      FinishKeeps(s, call, 0, -1);
    }
  }

  predicate FromWriter(e: Event) {
    e.Invoke? || e.Enter? || e.Check? || e.Look?
  }

  lemma SurroundingsKeepPort(s: Sys, e: Event)
    requires Sound(s.port) && !FromWriter(e)
    ensures Sound(Step(s, e).port) && Step(s, e).port.accepted == s.port.accepted
  {
    if e.FlushOutput? {
      FlushKeeps(s.port);
    } else if e.StartOfFrame? {
      StartOfFrameKeeps(s.port);
    } else if !e.FrameTick? {
      ResetKeeps(s.port, if e.SetConfiguration? then e.wValue else 0);
    }
  }

  /** Interrupts, the host and a flush leave the writer and what it has put in alone. */
  lemma SurroundingsKeep(s: Sys, e: Event)
    requires Inv(s) && !FromWriter(e)
    ensures Inv(Step(s, e))
    ensures Step(s, e).port.accepted == s.port.accepted && Step(s, e).done == s.done
  {
    SurroundingsKeepPort(s, e);
  }

  lemma StepKeeps(s: Sys, e: Event)
    requires Inv(s)
    ensures Inv(Step(s, e))
  {
    if e.Invoke? {
      InvokeKeeps(s, e.call);
    } else if e.Enter? {
      if s.writer.Checked? { EnterKeeps(s); }
    } else if e.Check? {
      if s.writer.Waiting? { CheckKeeps(s); }
    } else if e.Look? {
      if s.writer.Looking? {
        var t := s.(saved := s.interrupts, interrupts := false);
        AttemptKeeps(t, s.writer.call, s.writer.sent, s.writer.timeout);
      }
    } else {
      SurroundingsKeep(s, e);
    }
  }

  lemma {:induction false} RunKeeps(s: Sys, events: seq<Event>)
    requires Inv(s)
    ensures Inv(Run(s, events))
  {
    if events != [] {
      RunKeeps(s, events[..|events| - 1]);
      StepKeeps(Run(s, events[..|events| - 1]), events[|events| - 1]);
    }
  }

  lemma InitIsSound(s: Sys)
    requires Init(s)
    ensures Inv(s)
  {
  }

  /** Over every run: the packets released since the endpoint was last set up, and the bank being
    * filled, are the bytes that the calls put in since then, in order and without loss; no packet
    * is longer than the endpoint's size.
    */
  lemma StreamIsKept(s0: Sys, events: seq<Event>, s: Sys)
    requires Init(s0) && s == Run(s0, events)
    ensures Inv(s)
    ensures s.port.mark <= |Delivered(s.done) + UnderWay(s.writer)|
    ensures Flatten(s.port.packets) + s.port.current == (Delivered(s.done) + UnderWay(s.writer))[s.port.mark..]
    ensures forall k :: 0 <= k < |s.port.packets| ==> |s.port.packets[k]| <= CDC_TX_SIZE
  {
    InitIsSound(s0);
    RunKeeps(s0, events);
  }

  /** Over every run: a call returns 0 if and only if all its bytes went in (if it had any), and
    * otherwise -1 with a proper prefix in.
    */
  lemma ReturnCodes(s0: Sys, events: seq<Event>, d: Done)
    requires Init(s0) && d in Run(s0, events).done
    ensures d.sent <= |Bytes(d.call)| && (d.code == 0 || d.code == -1)
    ensures Bytes(d.call) != [] ==> (d.code == 0 <==> d.sent == |Bytes(d.call)|)
  {
    InitIsSound(s0);
    RunKeeps(s0, events);
    assert Honest(d);
  }

  /** Over every run: bytes still in the bank are being timed. */
  lemma BankIsTimed(s0: Sys, events: seq<Event>, s: Sys)
    requires Init(s0) && s == Run(s0, events)
    ensures s.port.current != [] ==> 1 <= s.port.timer <= TRANSMIT_FLUSH_TIMEOUT
  {
    InitIsSound(s0);
    RunKeeps(s0, events);
  }

  /** The start-of-frame interrupts served in a run. */
  function FramesServed(s: Sys, events: seq<Event>): nat {
    if events == [] then 0
    else
      var before := events[..|events| - 1];
      FramesServed(s, before) + if events[|events| - 1].StartOfFrame? && Run(s, before).interrupts then 1 else 0
  }

  predicate KeepsConfiguration(events: seq<Event>) {
    forall e <- events :: !e.BusReset? && !e.SetConfiguration?
  }

  /** What an attempt to put `data` in leaves of the port, if nothing goes in. */
  lemma AttemptPutsIn(s: Sys, call: Call, sent: nat, timeout: uint8)
    requires Sound(s.port) && sent <= |Bytes(call)|
    ensures var p, q := s.port, Attempt(s, call, sent, timeout).port;
            |p.accepted| <= |q.accepted| && (|q.accepted| == |p.accepted| ==> q == p)
  {
    FillKeeps(s.port, Bytes(call)[sent..]);
  }

  lemma EnterPutsIn(s: Sys)
    requires Sound(s.port) && s.writer.Checked?
    ensures var p, q := s.port, EnterStep(s).port;
            |p.accepted| <= |q.accepted| && (|q.accepted| == |p.accepted| ==> q.(gaveUp := p.gaveUp) == p)
  {
    var call := s.writer.call;
    var t := s.(saved := s.interrupts, interrupts := false);
    if call.PutCharNoWait? {
      FillKeeps(t.port, [call.c]);
    } else {
      AttemptPutsIn(t.(port := t.port.(gaveUp := false)), call, 0, Timeout(t.port));
    }
  }

  /** A writer's step puts bytes in, or leaves the bank to the timer. */
  lemma WriterPutsIn(s: Sys, e: Event)
    requires Sound(s.port) && WriterSound(s.writer) && FromWriter(e)
    ensures var p, q := s.port, Step(s, e).port;
            |p.accepted| <= |q.accepted| && (|q.accepted| == |p.accepted| ==> q.(gaveUp := p.gaveUp) == p)
  {
    if e.Enter? {
      if s.writer.Checked? { EnterPutsIn(s); }
    } else if e.Look? {
      if s.writer.Looking? {
        var t := s.(saved := s.interrupts, interrupts := false);
        AttemptPutsIn(t, s.writer.call, s.writer.sent, s.writer.timeout);
      }
    }
  }

  lemma NothingIsTakenBack(s: Sys, e: Event)
    requires Inv(s)
    ensures |s.port.accepted| <= |Step(s, e).port.accepted|
  {
    if FromWriter(e) {
      WriterPutsIn(s, e);
    } else {
      SurroundingsKeep(s, e);
    }
  }

  /** The bank of `p` is still there with `frames` frames fewer to go, or has been released. */
  predicate HeldOrReleased(p: Port, q: Port, frames: nat) {
    || (q.current == p.current && q.packets == p.packets && q.timer + frames == p.timer && q.timer > 0)
    || (|p.packets| < |q.packets| && q.packets[|p.packets|] == p.current)
  }

  lemma FlushReleases(p: Port, q: Port, frames: nat)
    requires p.current != [] && Sound(q) && HeldOrReleased(p, q, frames)
    ensures HeldOrReleased(p, Flushed(q), frames)
  {
  }

  lemma FrameCountsDown(p: Port, q: Port, frames: nat)
    requires p.current != [] && Sound(q) && q.configuration != 0 && HeldOrReleased(p, q, frames)
    ensures HeldOrReleased(p, AfterStartOfFrame(q), frames + 1)
  {
  }

  lemma HeldOrReleasedStep(p: Port, s: Sys, frames: nat, e: Event)
    requires p.current != [] && Sound(s.port) && WriterSound(s.writer) && s.port.configuration != 0
    requires HeldOrReleased(p, s.port, frames)
    requires !e.BusReset? && !e.SetConfiguration?
    requires |Step(s, e).port.accepted| == |s.port.accepted|
    ensures HeldOrReleased(p, Step(s, e).port, frames + if e.StartOfFrame? && s.interrupts then 1 else 0)
    ensures Step(s, e).port.configuration == s.port.configuration
  {
    if FromWriter(e) {
      WriterPutsIn(s, e);
    } else if e.StartOfFrame? {
      FrameCountsDown(p, s.port, frames);
    } else if e.FlushOutput? {
      FlushReleases(p, s.port, frames);
    }
  }

  lemma {:induction false} AcceptedGrows(s: Sys, events: seq<Event>)
    requires Inv(s)
    ensures |s.port.accepted| <= |Run(s, events).port.accepted|
  {
    if events != [] {
      var before := events[..|events| - 1];
      AcceptedGrows(s, before);
      RunKeeps(s, before);
      NothingIsTakenBack(Run(s, before), events[|events| - 1]);
    }
  }

  lemma {:induction false} HeldOrReleasedRun(s: Sys, events: seq<Event>)
    requires Inv(s) && s.port.configuration != 0 && s.port.current != []
    requires KeepsConfiguration(events) && |Run(s, events).port.accepted| == |s.port.accepted|
    ensures HeldOrReleased(s.port, Run(s, events).port, FramesServed(s, events))
    ensures Run(s, events).port.configuration == s.port.configuration
  {
    if events != [] {
      var before, e := events[..|events| - 1], events[|events| - 1];
      AcceptedGrows(s, before);
      RunKeeps(s, before);
      NothingIsTakenBack(Run(s, before), e);
      HeldOrReleasedRun(s, before);
      HeldOrReleasedStep(s.port, Run(s, before), FramesServed(s, before), e);
    }
  }

  /** From any state a run can reach: five start-of-frame interrupts with no byte written send
    * the bytes in the bank as one packet, whatever else happens short of a reset.
    */
  lemma FiveFramesRelease(s0: Sys, earlier: seq<Event>, s: Sys, events: seq<Event>)
    requires Init(s0) && s == Run(s0, earlier)
    requires s.port.configuration != 0 && s.port.current != [] && KeepsConfiguration(events)
    requires Run(s, events).port.accepted == s.port.accepted
    requires FramesServed(s, events) >= TRANSMIT_FLUSH_TIMEOUT
    ensures |s.port.packets| < |Run(s, events).port.packets|
    ensures Run(s, events).port.packets[|s.port.packets|] == s.port.current
  {
    InitIsSound(s0);
    RunKeeps(s0, earlier);
    HeldOrReleasedRun(s, events);
  }

  // ---------- An empty bank ----------

  /** How often the host has read a packet in a run. */
  function Reads(events: seq<Event>): nat {
    if events == [] then 0 else Reads(events[..|events| - 1]) + if events[|events| - 1].HostReads? then 1 else 0
  }

  /** The bank of `p` is still empty, with `frames` frames fewer to go. */
  predicate StillTimed(p: Port, q: Port, frames: nat, collected: nat) {
    && q.current == [] && q.packets == p.packets
    && q.timer + frames == p.timer && q.timer > 0
    && q.waiting == if collected <= p.waiting then p.waiting - collected else 0
  }

  predicate AtRest(q: Port) {
    q.current == [] && q.timer == 0
  }

  /** A step that puts nothing in and keeps the configuration. */
  predicate IsIdleStep(s: Sys, e: Event) {
    !e.BusReset? && !e.SetConfiguration? && |Step(s, e).port.accepted| == |s.port.accepted|
  }

  /** A timer at rest stays at rest, and then nothing is released. */
  lemma RestStep(s: Sys, e: Event)
    requires Sound(s.port) && WriterSound(s.writer) && AtRest(s.port) && IsIdleStep(s, e)
    ensures AtRest(Step(s, e).port) && Step(s, e).port.packets == s.port.packets
  {
    if FromWriter(e) {
      WriterPutsIn(s, e);
    }
  }

  lemma TimedStep(p: Port, s: Sys, frames: nat, collected: nat, e: Event)
    requires Sound(s.port) && WriterSound(s.writer) && s.port.configuration != 0
    requires StillTimed(p, s.port, frames, collected) && IsIdleStep(s, e)
    ensures var q := Step(s, e).port;
            q.configuration == s.port.configuration &&
            if q.timer > 0 then
              StillTimed(p, q, frames + (if e.StartOfFrame? && s.interrupts then 1 else 0), collected + if e.HostReads? then 1 else 0)
            else
              AtRest(q) && q.packets == p.packets + if p.waiting < BANKS + collected then [[]] else []
  {
    if FromWriter(e) {
      WriterPutsIn(s, e);
    }
  }

  /** No step of a run that puts nothing in puts anything in. */
  lemma PrefixPutsNothingIn(s: Sys, events: seq<Event>)
    requires Inv(s) && events != [] && |Run(s, events).port.accepted| == |s.port.accepted|
    ensures var before := events[..|events| - 1];
            && Inv(Run(s, before)) && |Run(s, before).port.accepted| == |s.port.accepted|
            && |Step(Run(s, before), events[|events| - 1]).port.accepted| == |Run(s, before).port.accepted|
  {
    var before := events[..|events| - 1];
    AcceptedGrows(s, before);
    RunKeeps(s, before);
    NothingIsTakenBack(Run(s, before), events[|events| - 1]);
  }

  lemma {:induction false} RestRun(s: Sys, events: seq<Event>)
    requires Inv(s) && AtRest(s.port)
    requires KeepsConfiguration(events) && |Run(s, events).port.accepted| == |s.port.accepted|
    ensures AtRest(Run(s, events).port) && Run(s, events).port.packets == s.port.packets
  {
    if events != [] {
      PrefixPutsNothingIn(s, events);
      RestRun(s, events[..|events| - 1]);
      RestStep(Run(s, events[..|events| - 1]), events[|events| - 1]);
    }
  }

  lemma {:induction false} TimedRun(s: Sys, events: seq<Event>)
    requires Inv(s) && s.port.configuration != 0 && s.port.current == [] && s.port.timer > 0
    requires KeepsConfiguration(events) && |Run(s, events).port.accepted| == |s.port.accepted|
    ensures var q := Run(s, events).port;
            q.configuration == s.port.configuration &&
            if q.timer > 0 then StillTimed(s.port, q, FramesServed(s, events), Reads(events)) else AtRest(q)
  {
    if events != [] {
      var before, e := events[..|events| - 1], events[|events| - 1];
      PrefixPutsNothingIn(s, events);
      TimedRun(s, before);
      if Run(s, before).port.timer > 0 {
        TimedStep(s.port, Run(s, before), FramesServed(s, before), Reads(before), e);
      } else {
        RestStep(Run(s, before), e);
        KeepsConfigurationStep(Run(s, before), e);
      }
    }
  }

  lemma KeepsConfigurationStep(s: Sys, e: Event)
    requires Sound(s.port) && WriterSound(s.writer) && IsIdleStep(s, e)
    ensures Step(s, e).port.configuration == s.port.configuration
  {
    if FromWriter(e) {
      WriterPutsIn(s, e);
    }
  }

  /** From any state a run can reach with the bank empty and the timer running, while nothing is
    * written: when the timer stops, at step `e`, the bank is released as a zero-length packet if and
    * only if by then the host has read enough of the waiting packets for a bank to be free; and
    * nothing that happens later sends one.
    */
  lemma EmptyPacketIff(s0: Sys, earlier: seq<Event>, s: Sys, before: seq<Event>, e: Event, later: seq<Event>, t: Sys, u: Sys)
    requires Init(s0) && s == Run(s0, earlier) && t == Run(s, before) && u == Step(t, e)
    requires s.port.configuration != 0 && s.port.current == [] && s.port.timer > 0
    requires KeepsConfiguration(before) && IsIdleStep(t, e) && KeepsConfiguration(later)
    requires |t.port.accepted| == |s.port.accepted| && |Run(u, later).port.accepted| == |u.port.accepted|
    requires t.port.timer > 0 && u.port.timer == 0
    ensures Run(u, later).port.packets == s.port.packets + if s.port.waiting - Reads(before) < BANKS then [[]] else []
    ensures FramesServed(s, before) < s.port.timer
  {
    InitIsSound(s0);
    RunKeeps(s0, earlier);
    RunKeeps(s, before);
    TimedRun(s, before);
    TimedStep(s.port, t, FramesServed(s, before), Reads(before), e);
    StepKeeps(t, e);
    RestRun(u, later);
  }

  /** And the timer has stopped once as many frames as it showed have been served. */
  lemma TimerStops(s0: Sys, earlier: seq<Event>, s: Sys, events: seq<Event>)
    requires Init(s0) && s == Run(s0, earlier)
    requires s.port.configuration != 0 && s.port.current == [] && s.port.timer > 0
    requires KeepsConfiguration(events) && |Run(s, events).port.accepted| == |s.port.accepted|
    requires FramesServed(s, events) >= s.port.timer
    ensures Run(s, events).port.timer == 0
  {
    InitIsSound(s0);
    RunKeeps(s0, earlier);
    TimedRun(s, events);
  }

  // ---------- Waiting ends ----------

  function Ticks(events: seq<Event>): nat {
    if events == [] then 0 else Ticks(events[..|events| - 1]) + if events[|events| - 1].FrameTick? then 1 else 0
  }

  /** The frame ticks since the waiting call last compared the frame counter with its timeout. */
  function Unchecked(s: Sys, events: seq<Event>): nat {
    if events == [] then 0
    else
      var before, e := events[..|events| - 1], events[|events| - 1];
      if e.Check? && Run(s, before).writer.Waiting? then 0
      else Unchecked(s, before) + if e.FrameTick? then 1 else 0
  }

  /** The call gets to compare at least once in every frame. */
  predicate ChecksEachFrame(s: Sys, events: seq<Event>) {
    events == [] || (ChecksEachFrame(s, events[..|events| - 1]) && Unchecked(s, events) <= 1)
  }

  /** The call that waits in `s` is still at it in `t`, or has returned -1. */
  predicate WaitsOrReturned(s: Sys, t: Sys, ticks: nat, unchecked: nat)
    requires s.writer.Waiting?
  {
    var w, n := s.writer, |s.done|;
    || (|t.done| > n && t.done[n] == Done(w.call, w.sent, -1))
    || (&& t.done == s.done
        && (t.writer == w || t.writer == Looking(w.call, w.sent, w.timeout))
        && t.port.frame == (s.port.frame + ticks) % 0x100
        && unchecked <= ticks < unchecked + TRANSMIT_TIMEOUT)
  }

  /** The timeout is a reading of the 8-bit frame counter: within one turn of it, the reading is
    * met exactly 25 frames on.
    */
  lemma TimeoutMeans25Frames(p: Port, frames: nat)
    requires frames < 0x100
    ensures (p.frame + frames) % 0x100 == Timeout(p) <==> frames == TRANSMIT_TIMEOUT
  {
  }

  /** A look that puts nothing in goes back to waiting for the same timeout. */
  lemma LookInVain(s: Sys)
    requires Sound(s.port) && s.writer.Looking? && s.writer.sent < |Bytes(s.writer.call)|
    requires |Step(s, Look).port.accepted| == |s.port.accepted|
    ensures Step(s, Look).writer == Waiting(s.writer.call, s.writer.sent, s.writer.timeout)
    ensures Step(s, Look).done == s.done && Step(s, Look).port == s.port
  {
    FillKeeps(s.port, Bytes(s.writer.call)[s.writer.sent..]);
  }

  lemma CheckOrReturn(s: Sys, t: Sys, ticks: nat, unchecked: nat)
    requires s.writer.Waiting? && s.writer.timeout == Timeout(s.port)
    requires t.writer == s.writer && WaitsOrReturned(s, t, ticks, unchecked) && unchecked <= 1
    ensures WaitsOrReturned(s, CheckStep(t), ticks, 0)
  {
    if t.done == s.done {
      TimeoutMeans25Frames(s.port, ticks);
    }
  }

  lemma SurroundingsKeepFrame(s: Sys, e: Event)
    requires !FromWriter(e)
    ensures var t := Step(s, e);
            && t.done == s.done && t.writer == s.writer
            && t.port.frame == if e.FrameTick? then (s.port.frame + 1) % 0x100 else s.port.frame
  {
  }

  lemma DoneGrows(s: Sys, e: Event)
    ensures s.done <= Step(s, e).done
  {
  }

  lemma NextFrame(frame: uint8, ticks: nat)
    ensures ((frame + ticks) % 0x100 + 1) % 0x100 == (frame + (ticks + 1)) % 0x100
  {
  }

  /** One step of a call that is still waiting. */
  lemma WaitingStep(s: Sys, t: Sys, ticks: nat, unchecked: nat, e: Event)
    requires s.writer.Waiting? && s.writer.timeout == Timeout(s.port) && t.done == s.done
    requires Sound(t.port) && WriterSound(t.writer) && WaitsOrReturned(s, t, ticks, unchecked) && unchecked <= 1
    requires |Step(t, e).port.accepted| == |t.port.accepted|
    ensures WaitsOrReturned(s, Step(t, e), ticks + (if e.FrameTick? then 1 else 0),
                            if e.Check? && t.writer.Waiting? then 0 else unchecked + if e.FrameTick? then 1 else 0)
  {
    if e.Look? {
      if t.writer.Looking? { LookInVain(t); }
    } else if e.Check? {
      if t.writer.Waiting? { CheckOrReturn(s, t, ticks, unchecked); }
    } else if !FromWriter(e) {
      SurroundingsKeepFrame(t, e);
      NextFrame(s.port.frame, ticks);
    }
  }

  lemma WaitsOrReturnedStep(s: Sys, t: Sys, ticks: nat, unchecked: nat, e: Event)
    requires s.writer.Waiting? && s.writer.timeout == Timeout(s.port)
    requires Sound(t.port) && WriterSound(t.writer) && WaitsOrReturned(s, t, ticks, unchecked) && unchecked <= 1
    requires |Step(t, e).port.accepted| == |t.port.accepted|
    ensures WaitsOrReturned(s, Step(t, e), ticks + (if e.FrameTick? then 1 else 0),
                            if e.Check? && t.writer.Waiting? then 0 else unchecked + if e.FrameTick? then 1 else 0)
  {
    if t.done == s.done {
      WaitingStep(s, t, ticks, unchecked, e);
    } else {
      DoneGrows(t, e);
    }
  }

  lemma UncheckedBound(s: Sys, events: seq<Event>)
    requires ChecksEachFrame(s, events)
    ensures Unchecked(s, events) <= 1
    ensures events != [] ==> ChecksEachFrame(s, events[..|events| - 1])
  {
  }

  /** The last event of a run, seen by what counts events. */
  lemma LastEvent(s: Sys, events: seq<Event>, before: seq<Event>, e: Event)
    requires events != [] && before == events[..|events| - 1] && e == events[|events| - 1]
    ensures Run(s, events) == Step(Run(s, before), e)
    ensures Ticks(events) == Ticks(before) + if e.FrameTick? then 1 else 0
    ensures Unchecked(s, events) ==
              if e.Check? && Run(s, before).writer.Waiting? then 0 else Unchecked(s, before) + if e.FrameTick? then 1 else 0
  {
  }

  /** The step as the run counts it. */
  lemma WaitsOrReturnedNext(s: Sys, u: Sys, ticks: nat, unchecked: nat, e: Event, t: Sys, ticks': nat, unchecked': nat)
    requires s.writer.Waiting? && s.writer.timeout == Timeout(s.port)
    requires Inv(u) && WaitsOrReturned(s, u, ticks, unchecked) && unchecked <= 1
    requires t == Step(u, e) && |t.port.accepted| == |u.port.accepted|
    requires ticks' == ticks + if e.FrameTick? then 1 else 0
    requires unchecked' == if e.Check? && u.writer.Waiting? then 0 else unchecked + if e.FrameTick? then 1 else 0
    ensures WaitsOrReturned(s, t, ticks', unchecked')
  {
    WaitsOrReturnedStep(s, u, ticks, unchecked, e);
  }

  lemma {:induction false} WaitsOrReturnedRun(s: Sys, events: seq<Event>, t: Sys, ticks: nat, unchecked: nat)
    requires Inv(s) && s.writer.Waiting? && s.writer.timeout == Timeout(s.port)
    requires ChecksEachFrame(s, events) && t == Run(s, events) && |t.port.accepted| == |s.port.accepted|
    requires ticks == Ticks(events) && unchecked == Unchecked(s, events)
    ensures WaitsOrReturned(s, t, ticks, unchecked)
    decreases |events|
  {
    if events != [] {
      var before, e := events[..|events| - 1], events[|events| - 1];
      var u, n, k := Run(s, before), Ticks(before), Unchecked(s, before);
      PrefixPutsNothingIn(s, events);
      UncheckedBound(s, events);
      UncheckedBound(s, before);
      LastEvent(s, events, before, e);
      WaitsOrReturnedRun(s, before, u, n, k);
      WaitsOrReturnedNext(s, u, n, k, e, t, ticks, unchecked);
    }
  }

  /** From any state a run can reach in which a call has just begun to wait: if it compares in every
    * frame and finds no room, it has returned -1 when the 26th frame begins, and as soon as it
    * compares in the 25th.
    */
  lemma WaitsAtMost25Frames(s0: Sys, earlier: seq<Event>, s: Sys, events: seq<Event>)
    requires Init(s0) && s == Run(s0, earlier)
    requires s.writer.Waiting? && s.writer.timeout == Timeout(s.port)
    requires ChecksEachFrame(s, events) && |Run(s, events).port.accepted| == |s.port.accepted|
    requires Ticks(events) > TRANSMIT_TIMEOUT || (Ticks(events) == TRANSMIT_TIMEOUT && Unchecked(s, events) == 0)
    ensures |Run(s, events).done| > |s.done|
    ensures Run(s, events).done[|s.done|] == Done(s.writer.call, s.writer.sent, -1)
  {
    InitIsSound(s0);
    RunKeeps(s0, earlier);
    WaitsOrReturnedRun(s, events, Run(s, events), Ticks(events), Unchecked(s, events));
  }

  lemma AttemptedTimeout(s: Sys, call: Call, sent: nat, timeout: uint8, q: Port, k: nat)
    requires q.frame == s.port.frame && (k > 0 || timeout == Timeout(s.port))
    requires s.writer.Waiting? ==> s.writer.timeout == Timeout(s.port)
    ensures var t := Attempted(s, call, sent, timeout, q, k);
            t.writer.Waiting? ==> t.writer.timeout == Timeout(t.port)
  {
  }

  /** When a call begins to wait its timeout is 25 frames off. */
  lemma WaitBegins(s: Sys)
    requires Sound(s.port) && s.writer.Checked? && EnterStep(s).writer.Waiting?
    ensures EnterStep(s).writer.timeout == Timeout(EnterStep(s).port)
  {
    var p, data := s.port.(gaveUp := false), Bytes(s.writer.call)[0..];
    FillKeeps(p, data);
    var t := s.(saved := s.interrupts, interrupts := false, port := p);
    AttemptedTimeout(t, s.writer.call, 0, Timeout(p), Fill(p, data), Taken(p, data));
  }

  /** When it has put bytes in and waits again, they are counted anew. */
  lemma WaitBeginsAgain(s: Sys)
    requires Sound(s.port) && s.writer.Looking? && s.writer.sent < |Bytes(s.writer.call)|
    requires Step(s, Look).writer.Waiting? && |Step(s, Look).port.accepted| > |s.port.accepted|
    ensures Step(s, Look).writer.timeout == Timeout(Step(s, Look).port)
  {
    var w := s.writer;
    var data := Bytes(w.call)[w.sent..];
    FillKeeps(s.port, data);
    AttemptedTimeout(s.(saved := s.interrupts, interrupts := false), w.call, w.sent, w.timeout, Fill(s.port, data), Taken(s.port, data));
  }

  /** A byte sent after a timeout: without room -1 at once, and nothing put in; with room it is
    * served as usual and the timeout forgotten.
    */
  lemma EnterAfterTimeout(s: Sys, c: uint8)
    requires Sound(s.port) && s.writer == Checked(PutChar(c)) && s.port.gaveUp
    ensures var u := EnterStep(s); var room := Roomy(s.port);
            && u.writer.Idle? && u.done == s.done + [Done(PutChar(c), if room then 1 else 0, if room then 0 else -1)]
            && u.port.gaveUp == !room
            && u.port.accepted == s.port.accepted + if room then [c] else []
  {
    var p := s.port.(gaveUp := false);
    assert [c][0..] == [c];
    OneByte(p, c);
    FillKeeps(p, [c]);
  }

  /** Once a call has timed out, a byte that finds no room is refused without waiting. */
  lemma TimeoutIsRemembered(s: Sys, c: uint8)
    requires Inv(s) && s.writer.Waiting? && s.port.frame == s.writer.timeout && s.port.configuration != 0
    ensures var t := Step(s, Check); var u := Step(Step(t, Invoke(PutChar(c))), Enter);
            && t.writer.Idle? && t.done[|t.done| - 1].code == -1
            && u.writer.Idle? && u.done[|u.done| - 1].code == (if Roomy(s.port) then 0 else -1)
            && u.port.gaveUp == !Roomy(s.port)
  {
    var t := Step(s, Check);
    var v := Step(t, Invoke(PutChar(c)));
    assert v.port == s.port.(gaveUp := true) && v.writer == Checked(PutChar(c));
    EnterAfterTimeout(v, c);
  }

  lemma AttemptFlag(s: Sys, call: Call, sent: nat, timeout: uint8)
    requires sent <= |Bytes(call)|
    ensures Attempt(s, call, sent, timeout).interrupts == if Bytes(call) == [] then s.interrupts else s.saved
  {
  }

  lemma EnterFlag(s: Sys)
    requires s.writer.Checked?
    ensures EnterStep(s).interrupts ==
              (s.interrupts && !(s.writer.call == Write([]) && (s.port.gaveUp ==> Roomy(s.port))))
  {
    var call := s.writer.call;
    if !call.PutCharNoWait? && (s.port.gaveUp ==> Roomy(s.port)) {
      var t := s.(saved := s.interrupts, interrupts := false);
      AttemptFlag(t.(port := t.port.(gaveUp := false)), call, 0, Timeout(t.port));
      assert Bytes(call) == [] <==> call == Write([]);
    }
  }

  /** A writer's steps give the interrupt flag back as they found it, with one exception: a write
    * of no bytes that gets past the timeout test returns 0 with interrupts disabled.
    */
  lemma InterruptFlagRestored(s: Sys, e: Event)
    requires WriterSound(s.writer) && FromWriter(e)
    ensures Step(s, e).interrupts ==
              (s.interrupts && !(e.Enter? && s.writer == Checked(Write([])) && (s.port.gaveUp ==> Roomy(s.port))))
  {
    if e.Enter? {
      if s.writer.Checked? { EnterFlag(s); }
    } else if e.Look? && s.writer.Looking? {
      var t := s.(saved := s.interrupts, interrupts := false);
      AttemptFlag(t, s.writer.call, s.writer.sent, s.writer.timeout);
    }
  }
}
