/** Standard requests on the control endpoint of a USB device: what each means, what serving it
  * changes, and that every SETUP packet is disposed of exactly once.
  */
module DeviceRequests {
  import opened Words

  // bmRequestType: direction, type and recipient.
  const TO_DEVICE := 0x00
  const TO_ENDPOINT := 0x02
  const FROM_DEVICE := 0x80
  const FROM_INTERFACE := 0x81
  const FROM_ENDPOINT := 0x82

  const REQ_GET_STATUS := 0
  const REQ_CLEAR_FEATURE := 1
  const REQ_SET_FEATURE := 3
  const REQ_SET_ADDRESS := 5
  const REQ_GET_DESCRIPTOR := 6
  const REQ_GET_CONFIGURATION := 8
  const REQ_SET_CONFIGURATION := 9

  const FEATURE_SEL_ENDPOINT_HALT := 0
  const FEATURE_SEL_DEVICE_REMOTE_WAKEUP := 1

  /** A string descriptor's type in the high byte, the internal serial number's index in the low. */
  const INTERNAL_SERIAL_VALUE: uint16 := 0x03DC

  const ENDPOINTS := 16
  const CONTROL := 0

  datatype Request = Request(bmRequestType: uint8, bRequest: uint8, wValue: uint16, wIndex: uint16, wLength: uint16)

  datatype State = Unattached | Powered | Default | Addressed | Configured | Suspended

  datatype Endpoint = Endpoint(enabled: bool, stalled: bool, toggle: bool, banks: nat)

  /** What goes over the control endpoint, or takes effect, in order. */
  datatype Action =
    | SetupCleared
    | DataIn(bytes: seq<uint8>)
    | StatusIn
    | StatusOut
    | AddressTaken(address: uint8)
    | ConfigurationChanged
    | Stalled

  /** The application's side: its descriptors, how many configurations it has (none if it has no
    * device descriptor) and the chip's serial number, if that is offered. Empty is no descriptor.
    */
  datatype Application = Application(describe: (uint16, uint16) -> seq<uint8>, configurations: Option<uint8>,
                                     serial: Option<seq<uint8>>)

  datatype Dev = Dev(selected: nat, endpoints: seq<Endpoint>, setupPending: bool, cleared: nat,
                     configuration: uint8, address: uint8, addressSet: bool,
                     remoteWakeup: bool, selfPowered: bool, state: State, log: seq<Action>)
  {
    predicate Valid() {
      |endpoints| == ENDPOINTS && selected < ENDPOINTS
    }

    /** A SETUP packet is waiting and the control endpoint is selected. */
    predicate Asked() {
      Valid() && selected == CONTROL && setupPending
    }
  }

  // ---------- What a request means ----------

  datatype Meaning =
    | Unsupported
    | TellStatus(bits: uint8)
    | SetRemoteWakeup(on: bool)
    | SetHalt(endpoint: nat, on: bool)
    | Nothing
    | TakeAddress(address: uint8)
    | Describe(bytes: seq<uint8>)
    | TellConfiguration
    | TakeConfiguration(number: uint8)

  function EndpointOf(r: Request): nat { r.wIndex % 0x10 }

  function StatusOf(d: Dev, r: Request): uint8
    requires d.Valid()
  {
    if r.bmRequestType == FROM_ENDPOINT then (if d.endpoints[EndpointOf(r)].stalled then 1 else 0)
    else (if d.selfPowered then 1 else 0) + (if d.remoteWakeup then 2 else 0)
  }

  /** The low byte of wValue is the feature; wIndex's low four bits are the endpoint. A feature that
    * an endpoint does not have, or a halt of one that is not enabled, is granted without effect.
    */
  function FeatureMeaning(d: Dev, r: Request): Meaning
    requires d.Valid()
  {
    var feature := r.wValue % 0x100;
    var on := r.bRequest == REQ_SET_FEATURE;
    if r.bmRequestType == TO_DEVICE then
      if feature == FEATURE_SEL_DEVICE_REMOTE_WAKEUP then SetRemoteWakeup(on) else Unsupported
    else if feature != FEATURE_SEL_ENDPOINT_HALT then Nothing
    else if EndpointOf(r) == CONTROL then Unsupported
    else if d.endpoints[EndpointOf(r)].enabled then SetHalt(EndpointOf(r), on)
    else Nothing
  }

  function DescriptorMeaning(app: Application, r: Request): Meaning {
    if app.serial.Some? && r.wValue == INTERNAL_SERIAL_VALUE then Describe(app.serial.value)
    else
      var bytes := app.describe(r.wValue, r.wIndex);
      if bytes == [] then Unsupported else Describe(bytes)
  }

  function MeaningOf(app: Application, d: Dev, r: Request): Meaning
    requires d.Valid()
  {
    var t, b := r.bmRequestType, r.bRequest;
    if b == REQ_GET_STATUS && (t == FROM_DEVICE || t == FROM_ENDPOINT) then TellStatus(StatusOf(d, r))
    else if (b == REQ_CLEAR_FEATURE || b == REQ_SET_FEATURE) && (t == TO_DEVICE || t == TO_ENDPOINT) then
      FeatureMeaning(d, r)
    else if b == REQ_SET_ADDRESS && t == TO_DEVICE then TakeAddress(r.wValue % 0x80)
    else if b == REQ_GET_DESCRIPTOR && (t == FROM_DEVICE || t == FROM_INTERFACE) then DescriptorMeaning(app, r)
    else if b == REQ_GET_CONFIGURATION && t == FROM_DEVICE then TellConfiguration
    else if b == REQ_SET_CONFIGURATION && t == TO_DEVICE
         && app.configurations.Some? && r.wValue % 0x100 <= app.configurations.value then
      TakeConfiguration(r.wValue % 0x100)
    else Unsupported
  }

  // ---------- What serving it does ----------

  /** The SETUP packet goes, and `actions` follow. */
  function Answered(d: Dev, actions: seq<Action>): Dev {
    d.(selected := CONTROL, setupPending := false, cleared := d.cleared + 1, log := d.log + [SetupCleared] + actions)
  }

  function StateAfter(number: uint8, addressSet: bool): State {
    if number != 0 || addressSet then Configured else Powered
  }

  function WithHalt(e: Endpoint, on: bool): Endpoint {
    if on then e.(stalled := true) else e.(stalled := false, toggle := false, banks := 0)
  }

  function Served(d: Dev, m: Meaning, wLength: uint16): (e: Dev)
    requires d.Valid() && (m.SetHalt? ==> m.endpoint < ENDPOINTS)
    ensures e.Valid()
  {
    match m
    case Unsupported => d
    case TellStatus(bits) => Answered(d, [DataIn([bits, 0]), StatusOut])
    case SetRemoteWakeup(on) => Answered(d.(remoteWakeup := on), [StatusIn])
    case SetHalt(k, on) => Answered(d.(endpoints := d.endpoints[k := WithHalt(d.endpoints[k], on)]), [StatusIn])
    case Nothing => Answered(d, [StatusIn])
    case TakeAddress(a) =>
      Answered(d.(address := a, addressSet := true, state := if a != 0 then Addressed else Default),
               [StatusIn, AddressTaken(a)])
    case Describe(bytes) => Answered(d, [DataIn(bytes[..Min(|bytes|, wLength)]), StatusOut])
    case TellConfiguration => Answered(d, [DataIn([d.configuration]), StatusOut])
    case TakeConfiguration(n) =>
      Answered(d.(configuration := n, state := StateAfter(n, d.addressSet)), [StatusIn, ConfigurationChanged])
  }

  /** A SETUP packet that nobody has cleared is refused. */
  function Refused(d: Dev): Dev
    requires d.Valid()
  {
    d.(endpoints := d.endpoints[CONTROL := d.endpoints[CONTROL].(stalled := true)],
       setupPending := false, cleared := d.cleared + 1, log := d.log + [Stalled, SetupCleared])
  }

  /** The request once the application has had its look: `after` is how it left things. */
  function Processed(app: Application, after: Dev, r: Request): (d: Dev)
    requires after.Valid()
    ensures d.Valid()
  {
    if !after.setupPending then after
    else
      var m := MeaningOf(app, after, r);
      if m.Unsupported? then Refused(after) else Served(after, m, r.wLength)
  }

  /** The application's handler either leaves the SETUP packet or clears it, once (`cleared` counts
    * every clear), and leaves the control endpoint selected.
    */
  predicate FairHandler(before: Dev, after: Dev) {
    && before.Valid() && after.Valid() && after.selected == CONTROL
    && after.cleared == before.cleared + (if after.setupPending then 0 else 1)
  }

  // ---------- What holds of every request ----------

  /** Every SETUP packet is cleared exactly once, whoever does it, and the control endpoint is left
    * selected.
    */
  lemma ClearedExactlyOnce(app: Application, before: Dev, after: Dev, r: Request)
    requires before.Asked() && FairHandler(before, after)
    ensures var d := Processed(app, after, r);
            d.Valid() && d.selected == CONTROL && !d.setupPending && d.cleared == before.cleared + 1
  {
  }

  /** The requests that the library takes, in numbers; the device's own state has no part in it. */
  predicate IsTaken(app: Application, r: Request) {
    || (r.bRequest == 0 && r.bmRequestType in {0x80, 0x82})
    || (r.bRequest in {1, 3} && r.bmRequestType == 0x00 && r.wValue % 0x100 == 1)
    || (r.bRequest in {1, 3} && r.bmRequestType == 0x02 && (r.wValue % 0x100 != 0 || r.wIndex % 0x10 != 0))
    || (r.bRequest == 5 && r.bmRequestType == 0x00)
    || (r.bRequest == 6 && r.bmRequestType in {0x80, 0x81}
        && (app.describe(r.wValue, r.wIndex) != [] || (app.serial.Some? && r.wValue == 0x03DC)))
    || (r.bRequest == 8 && r.bmRequestType == 0x80)
    || (r.bRequest == 9 && r.bmRequestType == 0x00
        && app.configurations.Some? && r.wValue % 0x100 <= app.configurations.value)
  }

  lemma TakenIffSupported(app: Application, d: Dev, r: Request)
    requires d.Valid()
    ensures IsTaken(app, r) <==> !MeaningOf(app, d, r).Unsupported?
  {
  }

  /** A request that the application has left is stalled if and only if it is not one of those the
    * library takes; then nothing has changed but the control endpoint's own stall.
    */
  lemma RefusalChangesNothing(app: Application, after: Dev, r: Request)
    requires after.Asked()
    ensures var d := Processed(app, after, r);
            && after.log <= d.log
            && (Stalled in d.log[|after.log|..] <==> !IsTaken(app, r))
            && d.endpoints[0].stalled == (after.endpoints[0].stalled || !IsTaken(app, r))
            && (!IsTaken(app, r) ==>
                  && d.configuration == after.configuration && d.address == after.address
                  && d.addressSet == after.addressSet && d.remoteWakeup == after.remoteWakeup && d.state == after.state
                  && (forall k :: 0 < k < ENDPOINTS ==> d.endpoints[k] == after.endpoints[k])
                  && d.log == after.log + [Stalled, SetupCleared])
  {
    var d := Processed(app, after, r);
    var m := MeaningOf(app, after, r);
    TakenIffSupported(app, after, r);
    if !m.Unsupported? {
      AnsweredLog(after, m, r.wLength);
      ControlUntouched(app, after, r);
    } else {
      assert d.log[|after.log|..] == [Stalled, SetupCleared];
    }
  }

  lemma ControlUntouched(app: Application, d: Dev, r: Request)
    requires d.Valid()
    ensures Served(d, MeaningOf(app, d, r), r.wLength).endpoints[0] == d.endpoints[0]
  {
  }

  lemma AnsweredLog(d: Dev, m: Meaning, wLength: uint16)
    requires d.Valid() && !m.Unsupported? && (m.SetHalt? ==> m.endpoint < ENDPOINTS)
    ensures var log := Served(d, m, wLength).log;
            d.log <= log && |log| > |d.log| && log[|d.log|] == SetupCleared && Stalled !in log[|d.log|..]
  {
    var log := Served(d, m, wLength).log;
    assert log[|d.log|..] == [SetupCleared] + log[|d.log| + 1..];
  }

  /** Selecting configuration 0 leaves the device state Configured if an address was ever set, in
    * contrast to section 9.4.7 of USB 2.0, under which it returns to Addressed.
    */
  lemma ZeroConfiguration(app: Application, d: Dev, r: Request)
    requires d.Asked() && r.bRequest == REQ_SET_CONFIGURATION && r.bmRequestType == TO_DEVICE
    requires app.configurations.Some? && r.wValue % 0x100 == 0
    ensures var e := Processed(app, d, r);
            e.configuration == 0 && (e.state == Configured <==> d.addressSet) && e.state != Addressed
  {
  }

  // ---------- Any number of requests ----------

  /** A new SETUP packet clears the control endpoint's stall; USB_DeviceTask selects that endpoint. */
  function Arrives(d: Dev): (e: Dev)
    requires d.Valid()
    ensures e.Asked()
  {
    d.(selected := CONTROL, setupPending := true,
       endpoints := d.endpoints[CONTROL := d.endpoints[CONTROL].(stalled := false)])
  }

  function Handled(app: Application, d: Dev, r: Request): (e: Dev)
    requires d.Valid()
    ensures e.Valid()
  {
    Processed(app, Arrives(d), r)
  }

  ghost predicate IsFair(h: (Dev, Request) -> Dev) {
    forall d: Dev, r: Request :: d.Asked() ==> FairHandler(d, h(d, r))
  }

  /** Requests one after the other, each of which the application's handler `h` sees first. */
  ghost function HandledWith(app: Application, h: (Dev, Request) -> Dev, d: Dev, rs: seq<Request>): (e: Dev)
    requires d.Valid() && IsFair(h)
    ensures e.Valid()
  {
    if rs == [] then d
    else
      var before := Arrives(HandledWith(app, h, d, rs[..|rs| - 1]));
      var after := h(before, rs[|rs| - 1]);
      assert FairHandler(before, after);
      Processed(app, after, rs[|rs| - 1])
  }

  /** Over any sequence of requests and whatever the application does with each, as many SETUP
    * packets are cleared as arrived, none is left waiting, and endpoint 0 is selected at the end.
    */
  lemma {:induction false} EverySetupClearedOnce(app: Application, h: (Dev, Request) -> Dev, d: Dev, rs: seq<Request>)
    requires d.Valid() && IsFair(h)
    ensures var e := HandledWith(app, h, d, rs);
            && e.cleared == d.cleared + |rs|
            && (rs != [] ==> e.selected == CONTROL && !e.setupPending)
  {
    if rs != [] {
      var front, r := rs[..|rs| - 1], rs[|rs| - 1];
      EverySetupClearedOnce(app, h, d, front);
      var before := Arrives(HandledWith(app, h, d, front));
      assert before.Asked();
      ClearedExactlyOnce(app, before, h(before, r), r);
    }
  }

  /** Requests one after the other that the application leaves to the library. */
  function HandledAll(app: Application, d: Dev, rs: seq<Request>): (e: Dev)
    requires d.Valid()
    ensures e.Valid()
  {
    if rs == [] then d else Handled(app, HandledAll(app, d, rs[..|rs| - 1]), rs[|rs| - 1])
  }

  /** A new address or configuration takes effect only right after the status stage of a request. */
  predicate IsOrderly(log: seq<Action>) {
    forall i :: 0 <= i < |log| && (log[i].AddressTaken? || log[i].ConfigurationChanged?) ==>
      i >= 2 && log[i - 1] == StatusIn && log[i - 2] == SetupCleared
  }

  lemma OrderlyAppend(log: seq<Action>, tail: seq<Action>)
    requires IsOrderly(log) && IsOrderly(tail)
    ensures IsOrderly(log + tail)
  {
  }

  /** What serving adds to the log. */
  lemma ServedTail(d: Dev, m: Meaning, wLength: uint16) returns (tail: seq<Action>)
    requires d.Valid() && !m.Unsupported? && (m.SetHalt? ==> m.endpoint < ENDPOINTS)
    ensures Served(d, m, wLength).log == d.log + tail && IsOrderly(tail)
  {
    var log := Served(d, m, wLength).log;
    tail := log[|d.log|..];
    if m.TakeAddress? {
      assert tail == [SetupCleared, StatusIn, AddressTaken(m.address)];
    } else if m.TakeConfiguration? {
      assert tail == [SetupCleared, StatusIn, ConfigurationChanged];
    }
  }

  lemma OrderlyStep(app: Application, d: Dev, r: Request)
    requires d.Valid() && IsOrderly(d.log)
    ensures IsOrderly(Handled(app, d, r).log)
  {
    var a := Arrives(d);
    var m := MeaningOf(app, a, r);
    if m.Unsupported? {
      OrderlyAppend(d.log, [Stalled, SetupCleared]);
    } else {
      var tail := ServedTail(a, m, r.wLength);
      OrderlyAppend(d.log, tail);
    }
  }

  /** So it is over any sequence of requests. */
  lemma {:induction false} EffectAfterStatus(app: Application, d: Dev, rs: seq<Request>)
    requires d.Valid() && IsOrderly(d.log)
    ensures IsOrderly(HandledAll(app, d, rs).log)
  {
    if rs != [] {
      EffectAfterStatus(app, d, rs[..|rs| - 1]);
      OrderlyStep(app, HandledAll(app, d, rs[..|rs| - 1]), rs[|rs| - 1]);
    }
  }

  /** A request for configuration `n` that the device has. */
  predicate Configures(app: Application, r: Request, n: uint8) {
    && r.bRequest == REQ_SET_CONFIGURATION && r.bmRequestType == TO_DEVICE && r.wValue % 0x100 == n
    && app.configurations.Some? && n <= app.configurations.value
  }

  predicate Wakes(r: Request, on: bool) {
    && r.bRequest == (if on then REQ_SET_FEATURE else REQ_CLEAR_FEATURE)
    && r.bmRequestType == TO_DEVICE && r.wValue % 0x100 == FEATURE_SEL_DEVICE_REMOTE_WAKEUP
  }

  predicate Halts(r: Request, k: nat, on: bool) {
    && r.bRequest == (if on then REQ_SET_FEATURE else REQ_CLEAR_FEATURE)
    && r.bmRequestType == TO_ENDPOINT && r.wValue % 0x100 == FEATURE_SEL_ENDPOINT_HALT && r.wIndex % 0x10 == k
  }

  predicate Addresses(r: Request, a: uint8) {
    r.bRequest == REQ_SET_ADDRESS && r.bmRequestType == TO_DEVICE && r.wValue % 0x80 == a
  }

  /** The most recent request to have a say, if any. */
  function Latest<T>(rs: seq<Request>, says: Request -> Option<T>): Option<T> {
    if rs == [] then None
    else
      var last := says(rs[|rs| - 1]);
      if last.Some? then last else Latest(rs[..|rs| - 1], says)
  }

  function OrElse<T>(o: Option<T>, otherwise: T): T {
    if o.Some? then o.value else otherwise
  }

  function ConfigurationSaid(app: Application, r: Request): Option<uint8> {
    if Configures(app, r, r.wValue % 0x100) then Some(r.wValue % 0x100) else None
  }

  function WakeupSaid(r: Request): Option<bool> {
    if Wakes(r, true) then Some(true) else if Wakes(r, false) then Some(false) else None
  }

  function HaltSaid(k: nat, r: Request): Option<bool> {
    if Halts(r, k, true) then Some(true) else if Halts(r, k, false) then Some(false) else None
  }

  function AddressSaid(r: Request): Option<uint8> {
    if Addresses(r, r.wValue % 0x80) then Some(r.wValue % 0x80) else None
  }

  /** What a request says about the device state. */
  datatype StateClaim = Becomes(state: State) | LeavesConfiguration

  function StateSaid(app: Application, r: Request): Option<StateClaim> {
    if Configures(app, r, 0) then Some(LeavesConfiguration)
    else if Configures(app, r, r.wValue % 0x100) then Some(Becomes(Configured))
    else if Addresses(r, 0) then Some(Becomes(Default))
    else if Addresses(r, r.wValue % 0x80) then Some(Becomes(Addressed))
    else None
  }

  /** Giving up the configuration ends in Configured or Powered, by whether an address was set. */
  function StateClaimed(claim: Option<StateClaim>, addressSet: bool, otherwise: State): State {
    match claim
    case None => otherwise
    case Some(Becomes(state)) => state
    case Some(LeavesConfiguration) => if addressSet then Configured else Powered
  }

  /** What a request says about endpoint `k`. Clearing a halt also resets the endpoint. */
  function EndpointSaid(k: nat, r: Request, e: Endpoint): Endpoint {
    if !e.enabled then e
    else if Halts(r, k, true) then Endpoint(true, true, e.toggle, e.banks)
    else if Halts(r, k, false) then Endpoint(true, false, false, 0)
    else e
  }

  /** What serving changes, by what was asked. */
  lemma ServedFields(d: Dev, m: Meaning, wLength: uint16, k: nat)
    requires d.Valid() && 0 < k < ENDPOINTS && (m.SetHalt? ==> m.endpoint < ENDPOINTS)
    ensures var e := Served(d, m, wLength);
            && e.Valid()
            && e.configuration == (if m.TakeConfiguration? then m.number else d.configuration)
            && e.remoteWakeup == (if m.SetRemoteWakeup? then m.on else d.remoteWakeup)
            && e.address == (if m.TakeAddress? then m.address else d.address)
            && e.addressSet == (m.TakeAddress? || d.addressSet)
            && e.selfPowered == d.selfPowered
            && e.endpoints[k] == (if m.SetHalt? && m.endpoint == k then
                                    if m.on then d.endpoints[k].(stalled := true)
                                    else Endpoint(d.endpoints[k].enabled, false, false, 0)
                                  else d.endpoints[k])
  {
  }

  lemma ServedState(app: Application, d: Dev, r: Request)
    requires d.Valid()
    ensures var e := Handled(app, d, r);
            e.state == StateClaimed(StateSaid(app, r), d.addressSet, d.state)
  {
  }

  /** What was asked, by what the request says. */
  lemma MeaningSays(app: Application, d: Dev, r: Request, k: nat)
    requires d.Valid() && 0 < k < ENDPOINTS
    ensures var m := MeaningOf(app, d, r);
            && ConfigurationSaid(app, r) == (if m.TakeConfiguration? then Some(m.number) else None)
            && WakeupSaid(r) == (if m.SetRemoteWakeup? then Some(m.on) else None)
            && AddressSaid(r) == (if m.TakeAddress? then Some(m.address) else None)
            && (m.SetHalt? ==> m.endpoint < ENDPOINTS && d.endpoints[m.endpoint].enabled)
            && (d.endpoints[k].enabled ==> HaltSaid(k, r) == if m.SetHalt? && m.endpoint == k then Some(m.on) else None)
  {
  }

  /** What one request changes. */
  lemma OneRequest(app: Application, d: Dev, r: Request, k: nat)
    requires d.Valid() && 0 < k < ENDPOINTS
    ensures var e := Handled(app, d, r);
            && e.configuration == OrElse(ConfigurationSaid(app, r), d.configuration)
            && e.remoteWakeup == OrElse(WakeupSaid(r), d.remoteWakeup)
            && e.address == OrElse(AddressSaid(r), d.address)
            && e.addressSet == (AddressSaid(r).Some? || d.addressSet)
            && e.state == StateClaimed(StateSaid(app, r), d.addressSet, d.state)
            && e.selfPowered == d.selfPowered
            && e.endpoints[k] == EndpointSaid(k, r, d.endpoints[k])
            && e.cleared == d.cleared + 1
  {
    var a := Arrives(d);
    MeaningSays(app, a, r, k);
    ServedState(app, d, r);
    ServedFields(a, MeaningOf(app, a, r), r.wLength, k);
    ClearedExactlyOnce(app, a, a, r);
  }

  /** Over any sequence of requests: as many SETUP packets are cleared as arrived, and the
    * configuration, the address, the state, remote wakeup and every enabled endpoint's halt are what
    * the most recent request to set them said, whatever came between.
    */
  lemma {:induction false} LatestRequestWins(app: Application, d: Dev, rs: seq<Request>, k: nat)
    requires d.Valid() && 0 < k < ENDPOINTS
    ensures var e := HandledAll(app, d, rs);
            && e.cleared == d.cleared + |rs|
            && e.configuration == OrElse(Latest(rs, (r: Request) => ConfigurationSaid(app, r)), d.configuration)
            && e.remoteWakeup == OrElse(Latest(rs, WakeupSaid), d.remoteWakeup)
            && e.address == OrElse(Latest(rs, AddressSaid), d.address)
            && e.addressSet == (Latest(rs, AddressSaid).Some? || d.addressSet)
            && e.state == StateClaimed(Latest(rs, (r: Request) => StateSaid(app, r)), e.addressSet, d.state)
            && e.selfPowered == d.selfPowered
            && e.endpoints[k].enabled == d.endpoints[k].enabled
            && e.endpoints[k].stalled == (if d.endpoints[k].enabled then
                                            OrElse(Latest(rs, (r: Request) => HaltSaid(k, r)), d.endpoints[k].stalled)
                                          else d.endpoints[k].stalled)
  {
    if rs != [] {
      var before := rs[..|rs| - 1];
      LatestRequestWins(app, d, before, k);
      OneRequest(app, HandledAll(app, d, before), rs[|rs| - 1], k);
    }
  }

  /** What the library puts on the control endpoint for a request, in numbers: `configuration`,
    * `wakeup` and `halted` are what the device holds when it arrives.
    */
  predicate AnswerIs(app: Application, r: Request, configuration: uint8, selfPowered: bool, wakeup: bool, halted: bool,
                     answer: seq<Action>) {
    var t, b := r.bmRequestType, r.bRequest;
    if !IsTaken(app, r) then answer == [Stalled, SetupCleared]
    else if b == 0 && t == 0x80 then
      answer == [SetupCleared, DataIn([(if selfPowered then 1 else 0) + (if wakeup then 2 else 0), 0]), StatusOut]
    else if b == 0 then answer == [SetupCleared, DataIn([if halted then 1 else 0, 0]), StatusOut]
    else if b == 8 then answer == [SetupCleared, DataIn([configuration]), StatusOut]
    else if b == 6 then
      && |answer| == 3 && answer[0] == SetupCleared && answer[1].DataIn? && answer[2] == StatusOut
      && var whole := if app.serial.Some? && r.wValue == 0x03DC then app.serial.value else app.describe(r.wValue, r.wIndex);
         answer[1].bytes <= whole && |answer[1].bytes| == if |whole| <= r.wLength then |whole| else r.wLength
    else if b == 5 then answer == [SetupCleared, StatusIn, AddressTaken(r.wValue % 128)]
    else if b == 9 then answer == [SetupCleared, StatusIn, ConfigurationChanged]
    else answer == [SetupCleared, StatusIn]
  }

  /** What serving or refusing puts on the control endpoint. */
  function Tail(d: Dev, m: Meaning, wLength: uint16): seq<Action> {
    match m
    case Unsupported => [Stalled, SetupCleared]
    case TellStatus(bits) => [SetupCleared, DataIn([bits, 0]), StatusOut]
    case TakeAddress(a) => [SetupCleared, StatusIn, AddressTaken(a)]
    case Describe(bytes) => [SetupCleared, DataIn(bytes[..Min(|bytes|, wLength)]), StatusOut]
    case TellConfiguration => [SetupCleared, DataIn([d.configuration]), StatusOut]
    case TakeConfiguration(_) => [SetupCleared, StatusIn, ConfigurationChanged]
    case _ => [SetupCleared, StatusIn]
  }

  lemma TailIsAdded(d: Dev, m: Meaning, wLength: uint16)
    requires d.Valid() && (m.SetHalt? ==> m.endpoint < ENDPOINTS)
    ensures (if m.Unsupported? then Refused(d) else Served(d, m, wLength)).log == d.log + Tail(d, m, wLength)
  {
  }

  lemma TailIsAnswer(app: Application, a: Dev, r: Request)
    requires a.Valid()
    ensures var halted := a.endpoints[r.wIndex % 16].stalled;
            AnswerIs(app, r, a.configuration, a.selfPowered, a.remoteWakeup, halted, Tail(a, MeaningOf(app, a, r), r.wLength))
  {
    TakenIffSupported(app, a, r);
  }

  lemma OneAnswer(app: Application, d: Dev, r: Request)
    requires d.Valid()
    ensures var e := Handled(app, d, r); var halted := r.wIndex % 16 != 0 && d.endpoints[r.wIndex % 16].stalled;
            && d.log <= e.log
            && AnswerIs(app, r, d.configuration, d.selfPowered, d.remoteWakeup, halted, e.log[|d.log|..])
  {
    var a := Arrives(d);
    var tail := Tail(a, MeaningOf(app, a, r), r.wLength);
    TailIsAdded(a, MeaningOf(app, a, r), r.wLength);
    TailIsAnswer(app, a, r);
    assert (d.log + tail)[|d.log|..] == tail;
  }

  /** After any sequence of requests, a request for the configuration, the device's status or an
    * endpoint's is answered with what the most recent request to set it said, and every other
    * request with what AnswerIs says of it.
    */
  lemma AnswersAreLatest(app: Application, d: Dev, rs: seq<Request>, r: Request)
    requires d.Valid()
    ensures var before := HandledAll(app, d, rs); var e := Handled(app, before, r); var k := r.wIndex % 16;
            && before.log <= e.log
            && AnswerIs(app, r, OrElse(Latest(rs, (q: Request) => ConfigurationSaid(app, q)), d.configuration),
                        d.selfPowered, OrElse(Latest(rs, WakeupSaid), d.remoteWakeup),
                        k != 0 && (if d.endpoints[k].enabled then
                                     OrElse(Latest(rs, (q: Request) => HaltSaid(k, q)), d.endpoints[k].stalled)
                                   else d.endpoints[k].stalled),
                        e.log[|before.log|..])
  {
    var k := r.wIndex % 16;
    LatestRequestWins(app, d, rs, if k == 0 then 1 else k);
    OneAnswer(app, HandledAll(app, d, rs), r);
  }

  // ---------- The routines ----------

  class Device {
    const app: Application
    var selected: nat
    var endpoints: seq<Endpoint>
    var setupPending: bool
    ghost var cleared: nat
    var configuration: uint8
    var address: uint8
    var addressSet: bool
    var remoteWakeup: bool
    var selfPowered: bool
    var state: State
    ghost var log: seq<Action>

    ghost function Now(): Dev
      reads this
    {
      Dev(selected, endpoints, setupPending, cleared, configuration, address, addressSet,
          remoteWakeup, selfPowered, state, log)
    }

    method SelectEndpoint(k: nat)
      modifies this`selected
      ensures selected == k
    {
      selected := k;
    }

    /** The flag is the selected endpoint's, and only the control endpoint ever has it. */
    method IsSetupReceived() returns (received: bool)
      ensures received == (selected == CONTROL && setupPending)
    {
      received := selected == CONTROL && setupPending;
    }

    /** Clears the selected endpoint's flag: of no effect here if that is not the control endpoint.
      * Every clear of the control endpoint's flag counts, whether or not it was set.
      */
    method ClearSetup()
      modifies this
      ensures Now() == if old(selected) == CONTROL
                       then old(Now()).(setupPending := false, cleared := old(cleared) + 1, log := old(log) + [SetupCleared])
                       else old(Now())
    {
      if selected == CONTROL {
        setupPending := false;
        cleared := cleared + 1;
        log := log + [SetupCleared];
      }
    }

    method Act(a: Action)
      modifies this`log
      ensures log == old(log) + [a]
    {
      log := log + [a];
    }

    method ClearStatusStage(r: Request)
      modifies this`log
      ensures log == old(log) + [if r.bmRequestType >= 0x80 then StatusOut else StatusIn]
    {
      if r.bmRequestType / 0x80 % 2 == 1 {
        Act(StatusOut);
      } else {
        Act(StatusIn);
      }
    }

    method StallTransaction()
      requires Now().Valid()
      modifies this
      ensures var was := old(Now());
              Now() == was.(endpoints := was.endpoints[was.selected := was.endpoints[was.selected].(stalled := true)],
                            log := if was.selected == CONTROL then was.log + [Stalled] else was.log)
    {
      endpoints := endpoints[selected := endpoints[selected].(stalled := true)];
      if selected == CONTROL {
        log := log + [Stalled];
      }
    }

    /** USB_Device_SetAddress. */
    method SetAddress(r: Request)
      requires Now().Asked() && r.bmRequestType == TO_DEVICE
      modifies this
      ensures Now() == Served(old(Now()), TakeAddress(r.wValue % 0x80), r.wLength)
    {
      ghost var was := Now();
      var a := r.wValue % 0x80;
      ClearSetup();
      ClearStatusStage(r);
      address := a;
      addressSet := true;
      Act(AddressTaken(a));
      state := if a != 0 then Addressed else Default;
      assert log == was.log + [SetupCleared] + [StatusIn, AddressTaken(a)];
    }

    /** USB_Device_SetConfiguration: returns without a trace if there is no such configuration. */
    method SetConfiguration(r: Request)
      requires Now().Asked() && r.bRequest == REQ_SET_CONFIGURATION && r.bmRequestType == TO_DEVICE
      modifies this
      ensures Now() == Served(old(Now()), MeaningOf(app, old(Now()), r), r.wLength)
    {
      ghost var was := Now();
      if app.configurations.None? {
        return;
      }
      if r.wValue % 0x100 > app.configurations.value {
        return;
      }
      ClearSetup();
      configuration := r.wValue % 0x100;
      ClearStatusStage(r);
      if configuration != 0 {
        state := Configured;
      } else {
        state := if addressSet then Configured else Powered;
      }
      Act(ConfigurationChanged);
      assert log == was.log + [SetupCleared] + [StatusIn, ConfigurationChanged];
    }

    method GetConfiguration(r: Request)
      requires Now().Asked() && r.bmRequestType == FROM_DEVICE
      modifies this
      ensures Now() == Served(old(Now()), TellConfiguration, r.wLength)
    {
      ghost var was := Now();
      ClearSetup();
      Act(DataIn([configuration]));
      ClearStatusStage(r);
      assert log == was.log + [SetupCleared] + [DataIn([configuration]), StatusOut];
    }

    /** The control stream sends no more than was asked for. */
    method WriteControlStream(bytes: seq<uint8>, r: Request)
      modifies this`log
      ensures log == old(log) + [DataIn(bytes[..Min(|bytes|, r.wLength)])]
    {
      var length := |bytes|;
      if length > r.wLength {
        length := r.wLength;
      }
      Act(DataIn(bytes[..length]));
    }

    /** USB_Device_GetDescriptor: returns without a trace if there is no such descriptor. */
    method GetDescriptor(r: Request)
      requires Now().Asked()
      modifies this
      ensures Now() == Served(old(Now()), DescriptorMeaning(app, r), r.wLength)
    {
      ghost var was := Now();
      var bytes := if app.serial.Some? && r.wValue == INTERNAL_SERIAL_VALUE then app.serial.value
                   else app.describe(r.wValue, r.wIndex);
      if !(app.serial.Some? && r.wValue == INTERNAL_SERIAL_VALUE) && bytes == [] {
        return;
      }
      ClearSetup();
      WriteControlStream(bytes, r);
      Act(StatusOut);
      assert log == was.log + [SetupCleared] + [DataIn(bytes[..Min(|bytes|, r.wLength)]), StatusOut];
    }

    /** USB_Device_GetStatus, looking at another endpoint and back. */
    method GetStatus(r: Request)
      requires Now().Asked() && (r.bmRequestType == FROM_DEVICE || r.bmRequestType == FROM_ENDPOINT)
      modifies this
      ensures Now() == Served(old(Now()), TellStatus(StatusOf(old(Now()), r)), r.wLength)
    {
      ghost var was := Now();
      var status := 0;
      if r.bmRequestType == FROM_DEVICE {
        if selfPowered {
          status := status + 1;
        }
        if remoteWakeup {
          status := status + 2;
        }
      } else {
        SelectEndpoint(r.wIndex % 0x10);
        status := if endpoints[selected].stalled then 1 else 0;
        SelectEndpoint(CONTROL);
      }
      ClearSetup();
      Act(DataIn([status, 0]));
      ClearStatusStage(r);
      assert log == was.log + [SetupCleared] + [DataIn([status, 0]), StatusOut];
    }

    /** The halt of an endpoint other than the control endpoint, if it is enabled. */
    method ClearSetHalt(k: nat, on: bool)
      requires Now().Valid() && selected == CONTROL && 0 < k < ENDPOINTS
      modifies this`selected, this`endpoints, this`log
      ensures selected == k && log == old(log)
      ensures endpoints == if old(endpoints)[k].enabled then old(endpoints)[k := WithHalt(old(endpoints)[k], on)]
                           else old(endpoints)
    {
      SelectEndpoint(k);
      if endpoints[selected].enabled {
        if on {
          endpoints := endpoints[selected := endpoints[selected].(stalled := true)];
        } else {
          endpoints := endpoints[selected := endpoints[selected].(stalled := false)];
          endpoints := endpoints[selected := endpoints[selected].(banks := 0)];
          endpoints := endpoints[selected := endpoints[selected].(toggle := false)];
        }
      }
    }

    /** USB_Device_ClearSetFeature, which must select the control endpoint again before it clears
      * the SETUP packet.
      */
    method ClearSetFeature(r: Request)
      requires Now().Asked() && (r.bmRequestType == TO_DEVICE || r.bmRequestType == TO_ENDPOINT)
      modifies this
      ensures Now() == Served(old(Now()), FeatureMeaning(old(Now()), r), r.wLength)
    {
      ghost var was := Now();
      if r.bmRequestType % 0x20 == 0 {
        if r.wValue % 0x100 != FEATURE_SEL_DEVICE_REMOTE_WAKEUP {
          return;
        }
        remoteWakeup := r.bRequest == REQ_SET_FEATURE;
      } else if r.wValue % 0x100 == FEATURE_SEL_ENDPOINT_HALT {
        if r.wIndex % 0x10 == CONTROL {
          return;
        }
        ClearSetHalt(r.wIndex % 0x10, r.bRequest == REQ_SET_FEATURE);
      }
      SelectEndpoint(CONTROL);
      ClearSetup();
      ClearStatusStage(r);
      assert log == was.log + [SetupCleared] + [StatusIn];
    }

    /** The switch on the request. */
    method Dispatch(r: Request)
      requires Now().Asked()
      modifies this
      ensures Now() == Served(old(Now()), MeaningOf(app, old(Now()), r), r.wLength)
    {
      var t := r.bmRequestType;
      if r.bRequest == REQ_GET_STATUS {
        if t == FROM_DEVICE || t == FROM_ENDPOINT {
          GetStatus(r);
        }
      } else if r.bRequest == REQ_CLEAR_FEATURE || r.bRequest == REQ_SET_FEATURE {
        if t == TO_DEVICE || t == TO_ENDPOINT {
          ClearSetFeature(r);
        }
      } else if r.bRequest == REQ_SET_ADDRESS {
        if t == TO_DEVICE {
          SetAddress(r);
        }
      } else if r.bRequest == REQ_GET_DESCRIPTOR {
        if t == FROM_DEVICE || t == FROM_INTERFACE {
          GetDescriptor(r);
        }
      } else if r.bRequest == REQ_GET_CONFIGURATION {
        if t == FROM_DEVICE {
          GetConfiguration(r);
        }
      } else if r.bRequest == REQ_SET_CONFIGURATION {
        if t == TO_DEVICE {
          SetConfiguration(r);
        }
      }
    }

    /** USB_Device_ProcessControlRequest from the point where the application's handler returns. */
    method ProcessControlRequest(r: Request)
      requires Now().Valid() && selected == CONTROL
      modifies this
      ensures Now() == Processed(app, old(Now()), r)
    {
      ghost var was := Now();
      var received := IsSetupReceived();
      if received {
        Dispatch(r);
      }
      received := IsSetupReceived();
      if received {
        StallTransaction();
        ClearSetup();
        assert log == was.log + [Stalled, SetupCleared];
      }
    }
  }
}
