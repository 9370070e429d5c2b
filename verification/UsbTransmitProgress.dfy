/** What the serial port's writers get done: how much the endpoint takes, when a call returns and
  * with which code, and when the bank is sent.
  */
module UsbTransmitProgress {
  import opened Words
  import opened UsbTransmit
  import opened UsbTransmitRuns

  /** How many bytes the free banks hold. */
  function Capacity(p: Port): int {
    if p.enabled && p.waiting < 2 then 64 * (2 - p.waiting) - |p.current| else 0
  }

  lemma RoomIsCapacity(p: Port)
    requires Sound(p)
    ensures Roomy(p) <==> Capacity(p) > 0
  {
  }

  lemma ChunkTakesCapacity(p: Port, chunk: seq<uint8>)
    requires Sound(p) && Roomy(p) && 0 < |chunk| <= CDC_TX_SIZE - |p.current|
    ensures Capacity(PutChunk(p, chunk)) == Capacity(p) - |chunk|
    ensures PutChunk(p, chunk).timer == 5
  {
  }

  /** `k` bytes have gone in, as many as there are or as the free banks hold. */
  predicate TookWhatFits(p: Port, size: nat, q: Port, k: nat) {
    && k == Min(size, Capacity(p))
    && Capacity(q) == Capacity(p) - k
    && (k > 0 ==> q.timer == 5)
    && (k == 0 ==> q == p)
  }

  lemma {:induction false} FillTakes(p: Port, data: seq<uint8>, q: Port, k: nat)
    requires Sound(p) && q == Fill(p, data) && k == Taken(p, data)
    ensures TookWhatFits(p, |data|, q, k)
    decreases |data|
  {
    if data != [] && Roomy(p) {
      var n := ChunkSize(p, |data|);
      var chunk, mid := data[..n], PutChunk(p, data[..n]);
      FillStep(p, data, n, mid);
      PutChunkKeeps(p, chunk);
      ChunkTakesCapacity(p, chunk);
      FillTakes(mid, data[n..], q, k - n);
    }
  }

  // ---------- What one step of a writer does ----------

  /** A step that makes its call return -1: the port is not configured, the time is up, or there is
    * no room where the call may not wait.
    */
  predicate Refuses(s: Sys, e: Event) {
    || (e.Invoke? && s.writer.Idle? && s.port.configuration == 0)
    || (e.Check? && s.writer.Waiting? && (s.port.frame == s.writer.timeout || s.port.configuration == 0))
    || (e.Enter? && s.writer.Checked? && Capacity(s.port) == 0 && (s.writer.call.PutCharNoWait? || s.port.gaveUp))
  }

  /** The call has put `k` bytes in: as many as were left, and then it returned 0, or as many as fit,
    * and then it waits.
    */
  predicate Advanced(s: Sys, call: Call, sent: nat, timeout: uint8, t: Sys, k: nat) {
    && sent + k <= |Bytes(call)|
    && TookWhatFits(s.port, |Bytes(call)| - sent, t.port, k)
    && t.port.accepted == s.port.accepted + Bytes(call)[sent..sent + k]
    && t.port.configuration == s.port.configuration && t.port.gaveUp == s.port.gaveUp && t.port.frame == s.port.frame
    && (if sent + k == |Bytes(call)| then t.writer.Idle? && t.done == s.done + [Done(call, |Bytes(call)|, 0)]
        else t.writer == Waiting(call, sent + k, if k > 0 then (s.port.frame + 25) % 256 else timeout) && t.done == s.done)
  }

  /** The part of the data that one attempt adds. */
  lemma NextPart(before: seq<uint8>, data: seq<uint8>, sent: nat, k: nat)
    requires sent + k <= |data|
    ensures data[sent..][..k] == data[sent..sent + k]
    ensures k == 0 ==> before + data[sent..sent + k] == before
  {
  }

  lemma AttemptedDoes(s: Sys, call: Call, sent: nat, timeout: uint8, q: Port, k: nat, t: Sys)
    requires sent + k <= |Bytes(call)| && (k == 0 ==> q == s.port)
    requires t == Attempted(s, call, sent, timeout, q, k)
    ensures t.port == q
    ensures if sent + k == |Bytes(call)| then t.writer.Idle? && t.done == s.done + [Done(call, |Bytes(call)|, 0)]
            else t.writer == Waiting(call, sent + k, if k > 0 then (s.port.frame + 25) % 256 else timeout) && t.done == s.done
  {
  }

  lemma AttemptDoes(s: Sys, call: Call, sent: nat, timeout: uint8, t: Sys, k: nat)
    requires Sound(s.port) && sent <= |Bytes(call)| && t == Attempt(s, call, sent, timeout)
    requires k == Min(|Bytes(call)| - sent, Capacity(s.port))
    ensures Advanced(s, call, sent, timeout, t, k)
  {
    var left := Bytes(call)[sent..];
    FillKeeps(s.port, left);
    FillTakes(s.port, left, Fill(s.port, left), Taken(s.port, left));
    AttemptedDoes(s, call, sent, timeout, Fill(s.port, left), k, t);
    NextPart(s.port.accepted, Bytes(call), sent, k);
  }

  /** How far the call at work has got. */
  function Progress(w: Writer): nat {
    if w.Waiting? || w.Looking? then w.sent else 0
  }

  lemma ByteNoWaitDoes(s: Sys, c: uint8, t: Sys)
    requires Sound(s.port) && s.writer == Checked(PutCharNoWait(c)) && t == EnterStep(s) && Capacity(s.port) > 0
    ensures Advanced(s, s.writer.call, 0, (s.port.frame + 25) % 256, t, 1) && t.port.gaveUp == s.port.gaveUp
  {
    var q := PutChunk(s.port, [c]);
    OneByte(s.port, c);
    assert t == s.(saved := s.interrupts, port := q, writer := Idle, done := s.done + [Done(s.writer.call, 1, 0)]);
    PutChunkKeeps(s.port, [c]);
    ChunkTakesCapacity(s.port, [c]);
    assert Bytes(s.writer.call)[0..0 + 1] == [c];
  }

  lemma WaitingCallDoes(s: Sys, t: Sys)
    requires Sound(s.port) && s.writer.Checked? && !s.writer.call.PutCharNoWait? && t == EnterStep(s)
    requires Capacity(s.port) > 0 || !s.port.gaveUp
    ensures var call := s.writer.call;
            Advanced(s.(port := s.port.(gaveUp := false)), call, 0, (s.port.frame + 25) % 256, t,
                     Min(|Bytes(call)|, Capacity(s.port)))
    ensures !t.port.gaveUp
  {
    var call := s.writer.call;
    RoomIsCapacity(s.port);
    var u := s.(saved := s.interrupts, interrupts := false, port := s.port.(gaveUp := false));
    AttemptDoes(u, call, 0, (s.port.frame + 25) % 256, t, Min(|Bytes(call)|, Capacity(s.port)));
  }

  /** A call that enters without being refused puts in what fits, and returns 0 once all of it is in. */
  lemma EnterDoes(s: Sys, t: Sys)
    requires Inv(s) && s.writer.Checked? && t == EnterStep(s) && !Refuses(s, Enter)
    ensures var call := s.writer.call;
            Advanced(s.(port := s.port.(gaveUp := t.port.gaveUp)), call, 0, (s.port.frame + 25) % 256, t,
                     Min(|Bytes(call)|, Capacity(s.port)))
    ensures t.port.gaveUp == (s.port.gaveUp && s.writer.call.PutCharNoWait?)
  {
    if s.writer.call.PutCharNoWait? {
      ByteNoWaitDoes(s, s.writer.call.c, t);
      assert s.port == s.port.(gaveUp := t.port.gaveUp);
    } else {
      WaitingCallDoes(s, t);
    }
  }

  /** And so does a call that looks again, with what is left of it. */
  lemma LookDoes(s: Sys, t: Sys)
    requires Inv(s) && s.writer.Looking? && t == Step(s, Look)
    ensures var w := s.writer;
            Advanced(s, w.call, w.sent, w.timeout, t, Min(|Bytes(w.call)| - w.sent, Capacity(s.port)))
  {
    var u := s.(saved := s.interrupts, interrupts := false);
    AttemptDoes(u, s.writer.call, s.writer.sent, s.writer.timeout, t, Min(|Bytes(s.writer.call)| - s.writer.sent, Capacity(s.port)));
  }

  /** What a step adds to the calls that have returned: -1 if and only if it refuses, and 0 if and
    * only if a call enters or looks again and the free banks hold all that is left of it.
    */
  lemma ReturnIff(s: Sys, e: Event)
    requires Inv(s)
    ensures Step(s, e).done == s.done +
              if Refuses(s, e) then [Done(if e.Invoke? then e.call else s.writer.call, Progress(s.writer), -1)]
              else if ((e.Enter? && s.writer.Checked?) || (e.Look? && s.writer.Looking?))
                      && |Bytes(s.writer.call)| - Progress(s.writer) <= Capacity(s.port) then
                [Done(s.writer.call, |Bytes(s.writer.call)|, 0)]
              else []
  {
    RoomIsCapacity(s.port);
    if e.Enter? && s.writer.Checked? {
      if Refuses(s, e) {
        RefusedAtOnce(s);
      } else {
        EnterDoes(s, Step(s, e));
      }
    } else if e.Look? && s.writer.Looking? {
      LookDoes(s, Step(s, e));
    }
  }

  lemma RefusedAtOnce(s: Sys)
    requires Inv(s) && s.writer.Checked? && Refuses(s, Enter)
    ensures EnterStep(s).done == s.done + [Done(s.writer.call, 0, -1)]
    ensures EnterStep(s).port == s.port && EnterStep(s).writer.Idle?
  {
    RoomIsCapacity(s.port);
    if s.writer.call.PutCharNoWait? {
      OneByte(s.port, s.writer.call.c);
    }
  }

  // ---------- Getting through ----------

  /** In a configured port that no call is using, a call whose bytes the free banks hold puts them
    * all in and returns 0, without waiting and even after an earlier timeout.
    */
  lemma FittingCallSucceeds(s: Sys, call: Call, t: Sys)
    requires Inv(s) && s.writer.Idle? && s.port.configuration != 0
    requires 0 < |Bytes(call)| <= Capacity(s.port)
    requires t == Step(Step(s, Invoke(call)), Enter)
    ensures t.writer.Idle? && t.done == s.done + [Done(call, |Bytes(call)|, 0)]
    ensures t.port.accepted == s.port.accepted + Bytes(call)
    ensures Capacity(t.port) == Capacity(s.port) - |Bytes(call)| && t.port.timer == 5
  {
    var u := Step(s, Invoke(call));
    StepKeeps(s, Invoke(call));
    EnterDoes(u, t);
    assert Bytes(call)[0..0 + |Bytes(call)|] == Bytes(call);
  }

  /** The host reads a packet and the call looks again, `k` times over. */
  function Rounds(k: nat): seq<Event> {
    if k == 0 then [] else Rounds(k - 1) + [HostReads, Check, Look]
  }

  /** The call that waits has not met its timeout, and the port is configured. */
  predicate WaitsInTime(s: Sys) {
    s.writer.Waiting? && s.port.frame != s.writer.timeout && s.port.configuration != 0
  }

  /** The call that waits in `s` has returned 0 in `t`, or has `bytes` more bytes in and time left. */
  predicate GotOn(s: Sys, t: Sys, bytes: nat)
    requires s.writer.Waiting?
  {
    var w := s.writer;
    || (t.done == s.done + [Done(w.call, |Bytes(w.call)|, 0)] && t.writer.Idle?)
    || (&& t.done == s.done && t.writer.Waiting? && t.writer.call == w.call
        && t.writer.sent >= w.sent + bytes
        && t.port.frame != t.writer.timeout && t.port.configuration != 0)
  }

  /** Each packet the host reads makes room for another bankful, and a call in time looks for it. */
  lemma ReadMakesRoom(s: Sys, u: Sys)
    requires Inv(s) && WaitsInTime(s)
    requires u == Step(Step(s, HostReads), Check)
    ensures u == s.(port := AfterHostReads(s.port), writer := Looking(s.writer.call, s.writer.sent, s.writer.timeout))
    ensures Inv(u) && Capacity(u.port) >= 64
  {
    StepKeeps(s, HostReads);
    StepKeeps(Step(s, HostReads), Check);
  }

  lemma AdvancedGotOn(s: Sys, u: Sys, t: Sys, k: nat)
    requires WaitsInTime(s)
    requires u.done == s.done && u.port.frame == s.port.frame && u.port.configuration == s.port.configuration
    requires Advanced(u, s.writer.call, s.writer.sent, s.writer.timeout, t, k)
    requires k >= Min(|Bytes(s.writer.call)| - s.writer.sent, 64)
    ensures GotOn(s, t, 64)
  {
  }

  lemma OneRound(s: Sys, t: Sys)
    requires Inv(s) && WaitsInTime(s)
    requires t == Round(s)
    ensures GotOn(s, t, 64)
  {
    var u := Step(Step(s, HostReads), Check);
    ReadMakesRoom(s, u);
    LookDoes(u, t);
    AdvancedGotOn(s, u, t, Min(|Bytes(s.writer.call)| - s.writer.sent, Capacity(u.port)));
  }

  lemma GotOnMore(s: Sys, t: Sys, u: Sys, bytes: nat)
    requires s.writer.Waiting? && GotOn(s, t, bytes) && t.writer.Waiting? && GotOn(t, u, 64)
    ensures GotOn(s, u, bytes + 64)
  {
  }

  lemma RoundKeepsIdle(s: Sys)
    requires s.writer.Idle?
    ensures Round(s).done == s.done && Round(s).writer.Idle?
  {
  }

  /** One round, and `k` of them. */
  function Round(s: Sys): Sys {
    Step(Step(Step(s, HostReads), Check), Look)
  }

  function After(s: Sys, k: nat): Sys {
    if k == 0 then s else Round(After(s, k - 1))
  }

  lemma RoundKeeps(s: Sys)
    requires Inv(s)
    ensures Inv(Round(s))
  {
    StepKeeps(s, HostReads);
    StepKeeps(Step(s, HostReads), Check);
    StepKeeps(Step(Step(s, HostReads), Check), Look);
  }

  lemma RunSnoc(s: Sys, events: seq<Event>, e: Event)
    ensures Run(s, events + [e]) == Step(Run(s, events), e)
  {
    assert (events + [e])[..|events|] == events;
  }

  lemma ThreeMore(s: Sys, events: seq<Event>, all: seq<Event>)
    requires all == events + [HostReads, Check, Look]
    ensures Run(s, all) == Round(Run(s, events))
  {
    RunSnoc(s, events, HostReads);
    RunSnoc(s, events + [HostReads], Check);
    RunSnoc(s, events + [HostReads] + [Check], Look);
    assert all == events + [HostReads] + [Check] + [Look];
  }

  lemma {:induction false} RoundsAre(s: Sys, k: nat)
    ensures Run(s, Rounds(k)) == After(s, k)
  {
    if k > 0 {
      RoundsAre(s, k - 1);
      ThreeMore(s, Rounds(k - 1), Rounds(k));
    }
  }

  /** A waiting call gets on by 64 bytes or returns; what has returned stays as it is. */
  predicate Gains(s: Sys, t: Sys) {
    && (WaitsInTime(s) ==> GotOn(s, t, 64))
    && (s.writer.Idle? ==> t.writer.Idle? && t.done == s.done)
  }

  lemma RoundGains(s: Sys)
    requires Inv(s)
    ensures Gains(s, Round(s))
  {
    if WaitsInTime(s) {
      OneRound(s, Round(s));
    }
    if s.writer.Idle? {
      RoundKeepsIdle(s);
    }
  }

  lemma {:induction false} RoundsKeep(s: Sys, k: nat)
    requires Inv(s)
    ensures Inv(After(s, k))
  {
    if k > 0 {
      RoundsKeep(s, k - 1);
      RoundKeeps(After(s, k - 1));
    }
  }

  predicate AllGain(states: seq<Sys>) {
    forall i :: 0 < i < |states| ==> Gains(states[i - 1], states[i])
  }

  lemma {:induction false} GetsOn(states: seq<Sys>, k: nat)
    requires k < |states| && WaitsInTime(states[0]) && AllGain(states)
    ensures GotOn(states[0], states[k], 64 * k)
    decreases k
  {
    if k > 0 {
      GetsOn(states, k - 1);
      assert Gains(states[k - 1], states[k]);
      if states[k - 1].writer.Waiting? {
        GotOnMore(states[0], states[k - 1], states[k], 64 * (k - 1));
      }
    }
  }

  lemma AllGainSnoc(states: seq<Sys>, t: Sys)
    requires AllGain(states) && states != [] && Gains(states[|states| - 1], t)
    ensures AllGain(states + [t])
  {
    var all := states + [t];
    forall i | 0 < i < |all| ensures Gains(all[i - 1], all[i]) {
      if i < |states| {
        assert all[i - 1] == states[i - 1] && all[i] == states[i];
      }
    }
  }

  /** The states between the rounds. */
  lemma {:induction false} RoundStates(s: Sys, k: nat) returns (states: seq<Sys>)
    requires Inv(s)
    ensures |states| == k + 1 && states[0] == s && states[k] == After(s, k) && AllGain(states)
  {
    if k == 0 {
      states := [s];
    } else {
      var before := RoundStates(s, k - 1);
      RoundsKeep(s, k - 1);
      RoundGains(before[k - 1]);
      AllGainSnoc(before, Round(before[k - 1]));
      states := before + [Round(before[k - 1])];
    }
  }

  lemma EnoughIsAll(s: Sys, t: Sys, bytes: nat)
    requires s.writer.Waiting? && GotOn(s, t, bytes) && WriterSound(t.writer)
    requires |Bytes(s.writer.call)| - s.writer.sent <= bytes
    ensures t.done == s.done + [Done(s.writer.call, |Bytes(s.writer.call)|, 0)] && t.writer.Idle?
  {
  }

  /** A waiting call with time left, whatever its length, returns 0 with every byte in if the host
    * reads a packet before each look: one packet for each 64 bytes left is enough.
    */
  lemma ReadingHostIsServed(s: Sys, k: nat, t: Sys)
    requires Inv(s) && WaitsInTime(s)
    requires |Bytes(s.writer.call)| - s.writer.sent <= 64 * k && t == Run(s, Rounds(k))
    ensures t.done == s.done + [Done(s.writer.call, |Bytes(s.writer.call)|, 0)] && t.writer.Idle?
  {
    RoundsAre(s, k);
    var states := RoundStates(s, k);
    GetsOn(states, k);
    RoundsKeep(s, k);
    EnoughIsAll(s, t, 64 * k);
  }

  /** What the surroundings do to the room there is, and to the packets. */
  lemma RoomMade(p: Port, wValue: uint16)
    requires Sound(p)
    ensures Capacity(AfterSetConfiguration(p, wValue)) == 128 && Capacity(AfterBusReset(p)) == 0
    ensures AfterSetConfiguration(p, wValue).timer == 0 && AfterBusReset(p).timer == p.timer
    ensures AfterSetConfiguration(p, wValue).packets == AfterBusReset(p).packets == []
    ensures Capacity(AfterHostReads(p)) == Capacity(p) + if p.enabled && p.waiting > 0 then 64 else 0
    ensures var ticks := p.configuration != 0 && p.timer > 0; var q := AfterStartOfFrame(p);
            && q.timer == (if ticks then p.timer - 1 else p.timer)
            && q.packets == p.packets + if ticks && p.timer == 1 && p.enabled && p.waiting < 2 then [p.current] else []
    ensures AfterHostReads(p).packets == p.packets && AfterHostReads(p).timer == p.timer
    ensures Flushed(p).packets == p.packets + if p.timer > 0 && p.enabled && p.waiting < 2 then [p.current] else []
    ensures Capacity(Flushed(p)) == if p.timer > 0 && p.enabled && p.waiting < 2 then 64 * (1 - p.waiting) else Capacity(p)
  {
  }

  // ---------- When the bank is sent ----------

  predicate NoFlush(events: seq<Event>) {
    forall e <- events :: !e.FlushOutput?
  }

  /** The bank of `p` is still there with `frames` frames fewer to go. */
  predicate Held(p: Port, q: Port, frames: nat) {
    q.current == p.current && q.packets == p.packets && q.timer + frames == p.timer
  }

  lemma HeldStep(p: Port, s: Sys, frames: nat, e: Event)
    requires Sound(s.port) && WriterSound(s.writer) && s.port.configuration != 0 && Held(p, s.port, frames)
    requires IsIdleStep(s, e) && !e.FlushOutput?
    requires frames + (if e.StartOfFrame? && s.interrupts then 1 else 0) < p.timer
    ensures Held(p, Step(s, e).port, frames + if e.StartOfFrame? && s.interrupts then 1 else 0)
  {
    if FromWriter(e) {
      WriterPutsIn(s, e);
    }
  }

  lemma {:induction false} HeldRun(s: Sys, events: seq<Event>)
    requires Inv(s) && s.port.configuration != 0
    requires KeepsConfiguration(events) && NoFlush(events) && |Run(s, events).port.accepted| == |s.port.accepted|
    requires FramesServed(s, events) < s.port.timer
    ensures Held(s.port, Run(s, events).port, FramesServed(s, events))
    ensures Run(s, events).port.configuration == s.port.configuration
  {
    if events != [] {
      var before, e := events[..|events| - 1], events[|events| - 1];
      PrefixPutsNothingIn(s, events);
      HeldRun(s, before);
      HeldStep(s.port, Run(s, before), FramesServed(s, before), e);
      KeepsConfigurationStep(Run(s, before), e);
    }
  }

  /** From any state a run can reach with bytes in the bank, while nothing is written, flushed or
    * reset: the bank is sent exactly when as many frames have been served as the timer showed.
    */
  lemma SentIffTimerRanOut(s0: Sys, earlier: seq<Event>, s: Sys, events: seq<Event>)
    requires Init(s0) && s == Run(s0, earlier)
    requires s.port.configuration != 0 && s.port.current != []
    requires KeepsConfiguration(events) && NoFlush(events) && |Run(s, events).port.accepted| == |s.port.accepted|
    ensures s.port.packets < Run(s, events).port.packets <==> FramesServed(s, events) >= s.port.timer
  {
    InitIsSound(s0);
    RunKeeps(s0, earlier);
    if FramesServed(s, events) < s.port.timer {
      HeldRun(s, events);
    } else {
      HeldOrReleasedRun(s, events);
      PacketsGrow(s, events);
    }
  }

  lemma PacketsGrowStep(s: Sys, e: Event)
    requires Sound(s.port) && WriterSound(s.writer) && IsIdleStep(s, e)
    ensures s.port.packets <= Step(s, e).port.packets
  {
    if FromWriter(e) {
      WriterPutsIn(s, e);
    }
  }

  lemma {:induction false} PacketsGrow(s: Sys, events: seq<Event>)
    requires Inv(s) && KeepsConfiguration(events) && |Run(s, events).port.accepted| == |s.port.accepted|
    ensures s.port.packets <= Run(s, events).port.packets
  {
    if events != [] {
      PrefixPutsNothingIn(s, events);
      PacketsGrow(s, events[..|events| - 1]);
      PacketsGrowStep(Run(s, events[..|events| - 1]), events[|events| - 1]);
    }
  }

  /** A step that puts bytes in sets the timer to five frames. */
  lemma BytesStartTheTimer(s: Sys, e: Event)
    requires Inv(s) && |Step(s, e).port.accepted| > |s.port.accepted|
    ensures Step(s, e).port.timer == 5
  {
    if e.Enter? && s.writer.Checked? {
      if Refuses(s, e) {
        RefusedAtOnce(s);
      } else {
        EnterDoes(s, Step(s, e));
      }
    } else if e.Look? && s.writer.Looking? {
      LookDoes(s, Step(s, e));
    } else if !FromWriter(e) {
      SurroundingsKeep(s, e);
    }
  }

  // ---------- The configuration ----------

  /** The configuration the host last selected, 0 after a bus reset. */
  function LastSelected(s: Sys, events: seq<Event>): int {
    if events == [] then 0
    else
      var before, e := events[..|events| - 1], events[|events| - 1];
      if !Run(s, before).interrupts then LastSelected(s, before)
      else if e.BusReset? then 0
      else if e.SetConfiguration? then e.wValue % 256
      else LastSelected(s, before)
  }

  lemma KeepsConfigurationAlways(s: Sys, e: Event)
    requires Inv(s) && ((!e.BusReset? && !e.SetConfiguration?) || !s.interrupts)
    ensures Step(s, e).port.configuration == s.port.configuration
  {
    if e.Enter? && s.writer.Checked? {
      if Refuses(s, e) {
        RefusedAtOnce(s);
      } else {
        EnterDoes(s, Step(s, e));
      }
    } else if e.Look? && s.writer.Looking? {
      LookDoes(s, Step(s, e));
    }
  }

  /** Over every run: the port's configuration is the low byte of the one last selected since
    * the last bus reset.
    */
  lemma {:induction false} ConfigurationIsLastSelected(s0: Sys, events: seq<Event>)
    requires Init(s0)
    ensures Run(s0, events).port.configuration == LastSelected(s0, events)
  {
    if events != [] {
      var before, e := events[..|events| - 1], events[|events| - 1];
      ConfigurationIsLastSelected(s0, before);
      InitIsSound(s0);
      RunKeeps(s0, before);
      if (!e.BusReset? && !e.SetConfiguration?) || !Run(s0, before).interrupts {
        KeepsConfigurationAlways(Run(s0, before), e);
      }
    }
  }
}
