/** The driver addressed as a slave: what reaches the receive callback and what goes out of the
  * transmit buffer, over every run the hardware allows. Between slave transfers the driver may be
  * used as a master in any way.
  */
module TwiSlave {
  import opened Words
  import opened TwiDriver

  /** The slave side of the hardware. `ack` is the reply set up for the next byte; `more` says
    * that the driver announced a byte after the one being sent. In `Refused` a byte has been
    * answered with NACK; in `Deaf` the hardware has then left the transfer without a status, and
    * does not know its address until the driver sets the acknowledge bit again.
    */
  datatype SlaveHw = NotAddressed | Listening(ack: bool) | Refused | Deaf | Talking(byte: uint8, more: bool)

  /** One reception: the bytes the master sent, and what the callback was given. */
  datatype Delivery = Delivery(sent: seq<uint8>, got: seq<uint8>)

  /** One transmission: the bytes the callback offered, and those handed to the hardware. */
  datatype Answer = Answer(offered: seq<uint8>, given: seq<uint8>)

  /** The driver with a record of the current transfer (`heard`, `answer`) and of earlier ones. */
  datatype Sys = Sys(d: Drv, hw: SlaveHw, heard: seq<uint8>, deliveries: seq<Delivery>, answer: Answer, answers: seq<Answer>)

  datatype Event =
    | UsedAsMaster(d': Drv)
    | AddressedToListen(st: Status)
    | ByteSent(b: uint8, general: bool)
    | StopSent
    | TransferLeft
    | AddressedToTalk(st: Status, loads: seq<seq<uint8>>)
    | ByteAcked
    | ByteNacked
    | BusFails

  predicate IsListenStatus(st: Status) {
    st.SrSlaAck? || st.SrGcallAck? || st.SrArbLostSlaAck? || st.SrArbLostGcallAck?
  }

  predicate IsTalkStatus(st: Status) {
    st.StSlaAck? || st.StArbLostSlaAck?
  }

  predicate IsMasterMode(m: Mode) {
    m.Ready? || m.MasterReceive? || m.MasterTransmit?
  }

  /** A driver that is ready has left the acknowledge bit set, so the hardware knows its address. */
  predicate Callable(d: Drv) {
    d.mode == Ready ==> d.control != Reply(false)
  }

  /** `d'` is what master activity may make of `d`: the slave buffers and their counters stay. */
  predicate SameSlaveSide(d: Drv, d': Drv) {
    && d'.txBuffer == d.txBuffer && d'.txIndex == d.txIndex && d'.txLength == d.txLength
    && d'.rxBuffer == d.rxBuffer && d'.rxIndex == d.rxIndex
    && |d'.masterBuffer| == |d.masterBuffer|
    && IsMasterMode(d'.mode) && Callable(d')
  }

  predicate Enabled(s: Sys, e: Event) {
    match e
    case UsedAsMaster(d') => s.hw.NotAddressed? && SameSlaveSide(s.d, d')
    case AddressedToListen(st) => s.hw.NotAddressed? && s.d.control != Reply(false) && IsListenStatus(st)
    case ByteSent(_, _) => s.hw.Listening? || s.hw.Refused?
    case StopSent => s.hw.Listening? || s.hw.Refused?
    case TransferLeft => s.hw.Refused?
    case AddressedToTalk(st, _) => s.hw.NotAddressed? && s.d.control != Reply(false) && IsTalkStatus(st)
    case ByteAcked => s.hw.Talking?
    case ByteNacked => s.hw.Talking?
    case BusFails => true
  }

  /** Nothing is reported to the driver. */
  predicate IsQuiet(e: Event) {
    e.UsedAsMaster? || e.TransferLeft?
  }

  /** The status the hardware reports for an event. */
  function StatusFor(s: Sys, e: Event): Status
    requires Enabled(s, e) && !IsQuiet(e)
  {
    match e
    case AddressedToListen(st) => st
    case ByteSent(_, general) =>
      if s.hw == Listening(true) then (if general then SrGcallDataAck else SrDataAck)
      else (if general then SrGcallDataNack else SrDataNack)
    case StopSent => SrStop
    case AddressedToTalk(st, _) => st
    case ByteAcked => if s.hw.more then StDataAck else StLastData
    case ByteNacked => StDataNack
    case BusFails => BusError
  }

  /** The indices the interrupt routine uses for `e` are inside the buffers. */
  predicate Safe(s: Sys, e: Event)
    requires Enabled(s, e)
  {
    && s.d.WellFormed()
    && s.d.rxIndex <= BUFFER_LENGTH && s.d.txIndex <= BUFFER_LENGTH
    && (!IsQuiet(e) ==> InBounds(s.d, StatusFor(s, e)))
  }

  /** The last load a transmit callback got accepted, or a single zero. */
  function LastTaken(loads: seq<seq<uint8>>): seq<uint8> {
    if loads == [] then []
    else if |loads[|loads| - 1]| <= BUFFER_LENGTH then loads[|loads| - 1]
    else LastTaken(loads[..|loads| - 1])
  }

  function Offered(loads: seq<seq<uint8>>): seq<uint8> {
    if LastTaken(loads) == [] then [0] else LastTaken(loads)
  }

  function Next(s: Sys, e: Event): Sys
    requires Enabled(s, e) && Safe(s, e)
  {
    match e
    case UsedAsMaster(d') => s.(d := d')
    case AddressedToListen(st) =>
      var d' := Isr(s.d, st, []);
      s.(d := d', hw := Listening(d'.control == Reply(true)), heard := [])
    case ByteSent(b, _) =>
      var d' := Isr(s.d.(twdr := b), StatusFor(s, e), []);
      s.(d := d', hw := if s.hw == Listening(true) then Listening(d'.control == Reply(true)) else Refused,
         heard := s.heard + [b])
    case StopSent =>
      s.(d := Isr(s.d, SrStop, []), hw := NotAddressed,
         deliveries := s.deliveries + [Delivery(s.heard, Delivered(s.d))])
    case TransferLeft => s.(hw := Deaf)
    case AddressedToTalk(st, loads) =>
      var d' := Isr(s.d, st, loads);
      s.(d := d', hw := Talking(d'.twdr, d'.control == Reply(true)), answer := Answer(Offered(loads), [d'.twdr]))
    case ByteAcked =>
      var d' := Isr(s.d, StatusFor(s, e), []);
      if s.hw.more then
        s.(d := d', hw := Talking(d'.twdr, d'.control == Reply(true)),
           answer := Answer(s.answer.offered, s.answer.given + [d'.twdr]))
      else
        s.(d := d', hw := NotAddressed, answers := s.answers + [s.answer])
    case ByteNacked =>
      s.(d := Isr(s.d, StDataNack, []), hw := NotAddressed, answers := s.answers + [s.answer])
    case BusFails =>
      s.(d := Isr(s.d, BusError, []), hw := NotAddressed)
  }

  // ----- invariant -----

  predicate RightDelivery(x: Delivery) {
    x.got == x.sent[..Min(|x.sent|, BUFFER_LENGTH)]
  }

  predicate RightAnswer(x: Answer) {
    0 < |x.given| && x.given <= x.offered && |x.offered| <= BUFFER_LENGTH
  }

  ghost predicate Inv(s: Sys) {
    && s.d.WellFormed()
    && s.d.rxIndex <= BUFFER_LENGTH && s.d.txIndex <= BUFFER_LENGTH && s.d.txLength <= BUFFER_LENGTH
    && (s.hw.NotAddressed? ==> IsMasterMode(s.d.mode) && Callable(s.d))
    && (s.hw.Listening? || s.hw.Refused? || s.hw.Deaf? ==>
          && s.d.mode == SlaveReceive
          && s.d.rxIndex == Min(|s.heard|, BUFFER_LENGTH)
          && s.d.rxBuffer[..s.d.rxIndex] == s.heard[..s.d.rxIndex])
    && (s.hw.Listening? ==> |s.heard| <= BUFFER_LENGTH + 1 && (s.hw.ack <==> |s.heard| <= BUFFER_LENGTH))
    && (s.hw.Refused? || s.hw.Deaf? ==> |s.heard| >= BUFFER_LENGTH + 2)
    && (s.hw.Talking? ==>
          && s.d.mode == SlaveTransmit
          && 0 < s.d.txIndex <= s.d.txLength
          && s.answer.offered == s.d.txBuffer[..s.d.txLength]
          && s.answer.given == s.d.txBuffer[..s.d.txIndex]
          && s.hw.more == (s.d.txIndex < s.d.txLength)
          && s.hw.byte == s.answer.given[|s.answer.given| - 1])
    && (forall x :: x in s.deliveries ==> RightDelivery(x))
    && (forall x :: x in s.answers ==> RightAnswer(x))
  }

  predicate Init(s: Sys) {
    && s.d.WellFormed() && s.d.mode == Ready && s.d.control == Reply(true) && s.hw == NotAddressed
    && s.d.rxIndex == 0 && s.d.txIndex == 0 && s.d.txLength == 0
    && s.deliveries == [] && s.answers == []
  }

  /** What the transmit buffer holds after the callback. */
  lemma {:induction false} TakenIsLast(d: Drv, loads: seq<seq<uint8>>)
    requires d.WellFormed() && d.mode == SlaveTransmit && d.txLength == 0
    ensures TransmitAll(d, loads).mode == SlaveTransmit
    ensures TransmitAll(d, loads).txLength == |LastTaken(loads)| <= BUFFER_LENGTH
    ensures TransmitAll(d, loads).txBuffer[..|LastTaken(loads)|] == LastTaken(loads)
    ensures TransmitAll(d, loads).rxIndex == d.rxIndex
    decreases |loads|
  {
    if loads != [] {
      var front, last := loads[..|loads| - 1], loads[|loads| - 1];
      TakenIsLast(d, front);
      assert loads == front + [last];
      TransmitAllSnoc(d, front, last);
    }
  }

  lemma {:induction false} TransmitAllSnoc(d: Drv, loads: seq<seq<uint8>>, last: seq<uint8>)
    requires d.WellFormed()
    ensures TransmitAll(d, loads + [last]) == Transmit(TransmitAll(d, loads), last)
    decreases |loads|
  {
    if loads == [] {
      assert [] + [last] == [last];
    } else {
      assert (loads + [last])[0] == loads[0] && (loads + [last])[1..] == loads[1..] + [last];
      TransmitAllSnoc(Transmit(d, loads[0]), loads[1..], last);
    }
  }

  lemma InvIsSafe(s: Sys, e: Event)
    requires Inv(s) && Enabled(s, e)
    ensures Safe(s, e)
  {
  }

  /** What the interrupt does with a byte, whoever it is addressed to. */
  lemma ByteSentStep(s: Sys, b: uint8, general: bool)
    requires s.d.WellFormed() && Enabled(s, ByteSent(b, general)) && Safe(s, ByteSent(b, general))
    ensures var d := s.d.(twdr := b); var t := Next(s, ByteSent(b, general));
            && t.heard == s.heard + [b] && t.deliveries == s.deliveries && t.answers == s.answers
            && t.d == (if s.hw == Listening(true) then StoreRx(d) else d.(control := Reply(false)))
            && t.hw == (if s.hw == Listening(true) then Listening(s.d.rxIndex < BUFFER_LENGTH) else Refused)
  {
  }

  lemma HeardKept(s: Sys, b: uint8)
    requires Inv(s) && s.hw == Listening(true) && s.d.rxIndex < BUFFER_LENGTH
    ensures s.d.rxIndex == |s.heard|
    ensures s.d.rxBuffer[s.d.rxIndex := b][..s.d.rxIndex + 1] == s.heard + [b]
  {
    var stored := s.d.rxBuffer[s.d.rxIndex := b];
    assert stored[..s.d.rxIndex + 1] == s.d.rxBuffer[..s.d.rxIndex] + [b];
    assert s.heard[..s.d.rxIndex] == s.heard;
  }

  lemma AfterByteSent(s: Sys, b: uint8, general: bool)
    requires Inv(s) && Enabled(s, ByteSent(b, general)) && Safe(s, ByteSent(b, general))
    ensures Inv(Next(s, ByteSent(b, general)))
  {
    ByteSentStep(s, b, general);
    if s.hw == Listening(true) && s.d.rxIndex < BUFFER_LENGTH {
      HeardKept(s, b);
    } else {
      assert (s.heard + [b])[..s.d.rxIndex] == s.heard[..s.d.rxIndex];
    }
  }

  lemma TalkStep(s: Sys, st: Status, loads: seq<seq<uint8>>)
    requires s.d.WellFormed() && Enabled(s, AddressedToTalk(st, loads)) && Safe(s, AddressedToTalk(st, loads))
    ensures var open := OpenTx(s.d, loads); var t := Next(s, AddressedToTalk(st, loads));
            && t.heard == s.heard && t.deliveries == s.deliveries && t.answers == s.answers
            && t.d == SendTx(open) && t.hw == Talking(open.txBuffer[0], 1 < open.txLength)
            && t.answer == Answer(Offered(loads), [open.txBuffer[0]])
  {
  }

  /** What the driver has ready after the transmit callback. */
  lemma OpenTxOffers(d: Drv, loads: seq<seq<uint8>>)
    requires d.WellFormed()
    ensures var open := OpenTx(d, loads);
            && open.mode == SlaveTransmit && open.rxIndex == d.rxIndex
            && 0 < open.txLength <= BUFFER_LENGTH && open.txBuffer[..open.txLength] == Offered(loads)
  {
    var entry := d.(mode := SlaveTransmit, txIndex := 0, txLength := 0);
    TakenIsLast(entry, loads);
    TransmitKeepsIndex(entry, loads);
  }

  lemma AfterAddressedToTalk(s: Sys, st: Status, loads: seq<seq<uint8>>)
    requires Inv(s) && Enabled(s, AddressedToTalk(st, loads)) && Safe(s, AddressedToTalk(st, loads))
    ensures Inv(Next(s, AddressedToTalk(st, loads)))
  {
    TalkStep(s, st, loads);
    OpenTxOffers(s.d, loads);
    var open := OpenTx(s.d, loads);
    assert open.txBuffer[..1] == [open.txBuffer[0]];
  }

  lemma AfterByteAcked(s: Sys)
    requires Inv(s) && Enabled(s, ByteAcked) && Safe(s, ByteAcked)
    ensures Inv(Next(s, ByteAcked))
  {
    if s.hw.more {
      assert s.d.txBuffer[..s.d.txIndex + 1] == s.d.txBuffer[..s.d.txIndex] + [s.d.txBuffer[s.d.txIndex]];
    } else {
      assert RightAnswer(s.answer);
    }
  }

  lemma InvAfterStep(s: Sys, e: Event)
    requires Inv(s) && Enabled(s, e)
    ensures Safe(s, e) && Inv(Next(s, e))
  {
    InvIsSafe(s, e);
    match e
    case UsedAsMaster(d') =>
    case AddressedToListen(st) =>
    case ByteSent(b, general) => AfterByteSent(s, b, general);
    case StopSent => assert RightDelivery(Delivery(s.heard, Delivered(s.d)));
    case TransferLeft =>
    case AddressedToTalk(st, loads) => AfterAddressedToTalk(s, st, loads);
    case ByteAcked => AfterByteAcked(s);
    case ByteNacked => assert RightAnswer(s.answer);
    case BusFails =>
  }

  // ----- whole runs -----

  ghost predicate IsRun(states: seq<Sys>, events: seq<Event>) {
    && |states| == |events| + 1
    && Init(states[0])
    && forall i :: 0 <= i < |events| ==>
         && Enabled(states[i], events[i])
         && (Safe(states[i], events[i]) ==> states[i + 1] == Next(states[i], events[i]))
  }

  lemma {:induction false} RunKeepsInv(states: seq<Sys>, events: seq<Event>, i: nat)
    requires IsRun(states, events) && i < |states|
    ensures Inv(states[i])
  {
    if i > 0 {
      RunKeepsInv(states, events, i - 1);
      InvAfterStep(states[i - 1], events[i - 1]);
    }
  }

  /** In every run: the indices stay inside the buffers; the receive callback gets exactly the
    * first 32 bytes, or all if there were fewer; and what goes out is a prefix of what the
    * transmit callback offered, or the single zero that stands in for an empty offer.
    */
  lemma SlaveTransfers(states: seq<Sys>, events: seq<Event>, i: nat)
    requires IsRun(states, events) && i < |states|
    ensures states[i].d.rxIndex <= 32 && states[i].d.txIndex <= 32
    ensures i < |events| ==> Safe(states[i], events[i])
    ensures states[i].hw.Listening? ==> (states[i].hw.ack <==> |states[i].heard| <= 32)
    ensures forall x :: x in states[i].deliveries ==> x.got == x.sent[..Min(|x.sent|, 32)]
    ensures forall x :: x in states[i].answers ==> 0 < |x.given| && x.given <= x.offered
    ensures states[i].hw.Talking? ==>
              && 0 < |states[i].answer.given|
              && states[i].answer.given <= states[i].answer.offered
              && (states[i].hw.more <==> states[i].answer.given != states[i].answer.offered)
  {
    RunKeepsInv(states, events, i);
    if i < |events| {
      InvIsSafe(states[i], events[i]);
    }
  }

  /** In every run: whenever the driver is ready and no slave transfer is under way, be it after one, a
    * master call or a bus error, every call of its address gets through to it.
    */
  lemma ReadyIsCallable(states: seq<Sys>, events: seq<Event>, i: nat, st: Status, loads: seq<seq<uint8>>)
    requires IsRun(states, events) && i < |states|
    requires states[i].hw.NotAddressed? && states[i].d.mode == Ready
    ensures IsListenStatus(st) ==> Enabled(states[i], AddressedToListen(st))
    ensures IsTalkStatus(st) ==> Enabled(states[i], AddressedToTalk(st, loads))
  {
    RunKeepsInv(states, events, i);
  }

  /** A slave transfer ends ready: at a STOP, after the last byte of an answer, and at a bus error,
    * whatever it was about. A message that leaves room in the buffer has a NUL behind it there.
    */
  lemma TransferEndsReady(states: seq<Sys>, events: seq<Event>, i: nat)
    requires IsRun(states, events) && i < |events|
    requires var s, e := states[i], events[i];
             e.StopSent? || e.BusFails? || e.ByteNacked? || (e.ByteAcked? && s.answer.given == s.answer.offered)
    ensures states[i + 1].hw.NotAddressed? && states[i + 1].d.mode == Ready
    ensures var n, kept := |states[i].heard|, states[i + 1].d.rxBuffer;
            events[i].StopSent? && n < BUFFER_LENGTH ==> n < |kept| && kept[..n] == states[i].heard && kept[n] == 0
  {
    var s := states[i];
    RunKeepsInv(states, events, i);
    InvIsSafe(s, events[i]);
    if events[i].StopSent? && |s.heard| < BUFFER_LENGTH {
      assert s.d.rxBuffer[s.d.rxIndex := 0][..s.d.rxIndex] == s.d.rxBuffer[..s.d.rxIndex];
    }
  }

  // ----- the driver that waits for a STOP it will not see -----

  /** The hardware refuses a byte only after 33 others, and once it has left the transfer the driver
    * is not ready and nothing but a bus error can come: no STOP, no call of its address, and, as it
    * is not ready, no master call of its own.
    */
  lemma DeafIsStuck(states: seq<Sys>, events: seq<Event>, i: nat)
    requires IsRun(states, events) && i < |states|
    ensures states[i].hw.Refused? || states[i].hw.Deaf? ==> |states[i].heard| >= BUFFER_LENGTH + 2
    ensures states[i].hw.Deaf? ==> states[i].d.mode == SlaveReceive
    ensures states[i].hw.Deaf? ==> (forall e :: Enabled(states[i], e) <==> e.BusFails?)
    ensures states[i].hw.Deaf? && i < |events| ==> events[i].BusFails?
  {
    RunKeepsInv(states, events, i);
  }

  /** The bytes of a message, one after the other. */
  function Hear(s: Sys, bytes: seq<uint8>): (t: Sys)
    requires Inv(s) && (s.hw.Listening? || s.hw.Refused?)
    ensures Inv(t) && (t.hw.Listening? || t.hw.Refused?) && t.heard == s.heard + bytes
    decreases |bytes|
  {
    if bytes == [] then s
    else
      var e := ByteSent(bytes[0], false);
      InvAfterStep(s, e);
      assert s.heard + [bytes[0]] + bytes[1..] == s.heard + bytes;
      Hear(Next(s, e), bytes[1..])
  }

  /** A message of 34 bytes or more can do it, from any state in which the slave is called. */
  lemma LongMessageDeafens(s: Sys, st: Status, bytes: seq<uint8>)
    requires Inv(s) && Enabled(s, AddressedToListen(st))
    requires |bytes| >= BUFFER_LENGTH + 2
    ensures Safe(s, AddressedToListen(st)) && Inv(Next(s, AddressedToListen(st)))
    ensures Next(s, AddressedToListen(st)).hw.Listening?
    ensures var t := Hear(Next(s, AddressedToListen(st)), bytes);
            && Enabled(t, TransferLeft) && Safe(t, TransferLeft)
            && Next(t, TransferLeft).hw.Deaf? && Next(t, TransferLeft).deliveries == t.deliveries
  {
    InvAfterStep(s, AddressedToListen(st));
  }

  /** Every master call and every master status leaves the slave side as `UsedAsMaster` says. */
  lemma MasterKeepsSlaveSide(d: Drv, st: Status, c: Call)
    requires InBounds(d, st) && IsMasterMode(d.mode)
    requires !IsListenStatus(st) && !IsTalkStatus(st)
    requires !st.SrDataAck? && !st.SrGcallDataAck? && !st.SrDataNack? && !st.SrGcallDataNack? && !st.SrStop?
    requires !st.StDataAck? && !st.StDataNack? && !st.StLastData?
    requires Callable(d) && (st.MrSlaAck? || st.MrDataAck? ==> d.mode == MasterReceive)
    requires c.addr < 128 && c.FitsBuffer()
    ensures SameSlaveSide(d, Isr(d, st, []))
    ensures SameSlaveSide(d, Launch(d, c))
  {
  }
}
