/** One producer and one consumer on the same ring buffer, either of which may be an interrupt
  * routine that runs between any two steps of the other. Only reading and changing the count is
  * atomic: the slot access, the pointer increment and its wrap are separate steps.
  */
module RingBufferRace {
  import opened Words
  import opened RingBuffer

  /** Where the producer is in RingBuffer_Insert: `InStored` has written its slot, `InBumped` has
    * incremented its pointer, `InWrapped` has tested it against the end.
    */
  datatype Producer = InIdle | InStoring(x: uint8) | InStored | InBumped | InWrapped

  /** Where the consumer is in RingBuffer_Remove. */
  datatype Consumer = OutIdle | OutLoading | OutLoaded | OutBumped | OutWrapped

  /** `credit` is how many insertions the producer's last look at the count still allows, and
    * `allowance` how many removals the consumer's does. `stored` and `loaded` are the bytes
    * written to and read from slots so far. `faulted` records an access outside the storage.
    */
  datatype Race = Race(ring: Ring, producer: Producer, consumer: Consumer, credit: nat, allowance: nat,
                       stored: seq<uint8>, loaded: seq<uint8>, faulted: bool)

  datatype Action =
    | TestFull
    | TestFreeCount
    | BeginInsert(x: uint8)
    | InsertStep
    | TestEmpty
    | TestCount
    | BeginRemove
    | RemoveStep

  function Start(cells: seq<uint8>, size: uint16): Race {
    Race(Ring(cells, size, 0, 0, 0), InIdle, OutIdle, 0, 0, [], [], false)
  }

  function AfterInsertStep(s: Race): Race {
    match s.producer
    case InIdle => s
    case InStoring(x) =>
      if s.ring.inAt < |s.ring.cells| then
        s.(ring := StoreIn(s.ring, x), stored := s.stored + [x], producer := InStored)
      else
        s.(faulted := true)
    case InStored => s.(ring := BumpIn(s.ring), producer := InBumped)
    case InBumped => s.(ring := WrapIn(s.ring), producer := InWrapped)
    case InWrapped => s.(ring := CountUp(s.ring), producer := InIdle, credit := if s.credit > 0 then s.credit - 1 else 0)
  }

  function AfterRemoveStep(s: Race): Race {
    match s.consumer
    case OutIdle => s
    case OutLoading =>
      if s.ring.outAt < |s.ring.cells| then
        s.(loaded := s.loaded + [s.ring.cells[s.ring.outAt]], consumer := OutLoaded)
      else
        s.(faulted := true)
    case OutLoaded => s.(ring := BumpOut(s.ring), consumer := OutBumped)
    case OutBumped => s.(ring := WrapOut(s.ring), consumer := OutWrapped)
    case OutWrapped =>
      s.(ring := CountDown(s.ring), consumer := OutIdle, allowance := if s.allowance > 0 then s.allowance - 1 else 0)
  }

  /** One step of either thread; a step its thread cannot take changes nothing. The tests are
    * those the callers are told to make before inserting or removing.
    */
  function Step(s: Race, a: Action): Race {
    match a
    case TestFull =>
      if s.producer.InIdle? then s.(credit := if s.ring.count == s.ring.size then 0 else 1) else s
    case TestFreeCount =>
      if s.producer.InIdle? then s.(credit := (s.ring.size + 0x1_0000 - s.ring.count) % 0x1_0000) else s
    case BeginInsert(x) =>
      if s.producer.InIdle? && s.credit > 0 then s.(producer := InStoring(x)) else s
    case InsertStep => AfterInsertStep(s)
    case TestEmpty =>
      if s.consumer.OutIdle? then s.(allowance := if s.ring.count == 0 then 0 else 1) else s
    case TestCount =>
      if s.consumer.OutIdle? then s.(allowance := s.ring.count) else s
    case BeginRemove =>
      if s.consumer.OutIdle? && s.allowance > 0 then s.(consumer := OutLoading) else s
    case RemoveStep => AfterRemoveStep(s)
  }

  function Run(s: Race, actions: seq<Action>): Race {
    if actions == [] then s else Step(Run(s, actions[..|actions| - 1]), actions[|actions| - 1])
  }

  /** A byte is in its slot but not yet counted. */
  predicate Uncounted(s: Race) {
    s.producer.InStored? || s.producer.InBumped? || s.producer.InWrapped?
  }

  /** A byte has been read from its slot but is still counted. */
  predicate Overcounted(s: Race) {
    s.consumer.OutLoaded? || s.consumer.OutBumped? || s.consumer.OutWrapped?
  }

  /** The bytes of the insertions that have returned, in order. */
  function InsertedBytes(s: Race): seq<uint8> {
    if Uncounted(s) && s.stored != [] then s.stored[..|s.stored| - 1] else s.stored
  }

  /** The bytes of the removals that have returned, in order. */
  function RemovedBytes(s: Race): seq<uint8> {
    if Overcounted(s) && s.loaded != [] then s.loaded[..|s.loaded| - 1] else s.loaded
  }

  /** Where the next byte goes once an insertion under way has moved its pointer. */
  function NextIn(s: Race): int {
    if s.producer.InStored? then WrapIn(BumpIn(s.ring)).inAt
    else if s.producer.InBumped? then WrapIn(s.ring).inAt
    else s.ring.inAt
  }

  function NextOut(s: Race): nat {
    if s.consumer.OutLoaded? then WrapOut(BumpOut(s.ring)).outAt
    else if s.consumer.OutBumped? then WrapOut(s.ring).outAt
    else s.ring.outAt
  }

  /** Bytes in slots and not read yet. */
  function Unread(s: Race): int { |s.stored| - |s.loaded| }

  predicate CountsAgree(s: Race) {
    && (Uncounted(s) ==> s.stored != [])
    && (Overcounted(s) ==> s.loaded != [])
    && s.ring.count == |InsertedBytes(s)| - |RemovedBytes(s)|
    && s.credit + s.ring.count <= s.ring.size
    && s.allowance <= s.ring.count
    && (!s.producer.InIdle? ==> s.credit > 0)
    && (!s.consumer.OutIdle? ==> s.allowance > 0)
  }

  predicate PointersAgree(s: Race) {
    && s.ring.size <= |s.ring.cells|
    && (NextOut(s) < s.ring.size || NextOut(s) == s.ring.size == 0)
    && 0 <= Unread(s) <= s.ring.size
    && NextIn(s) == Slot(s.ring.size, NextOut(s), Unread(s))
    && (s.producer.InBumped? ==> 0 < s.ring.inAt <= s.ring.size)
    && (s.producer.InStored? ==> s.ring.inAt < s.ring.size)
    && (s.consumer.OutBumped? ==> 0 < s.ring.outAt <= s.ring.size)
    && (s.consumer.OutLoaded? ==> s.ring.outAt < s.ring.size)
  }

  /** Every byte read was the next one stored, and every byte not yet read is still in its slot. */
  predicate BytesAgree(s: Race)
    requires PointersAgree(s)
  {
    && s.loaded == s.stored[..|s.loaded|]
    && forall k :: 0 <= k < Unread(s) ==>
         s.ring.cells[Slot(s.ring.size, NextOut(s), k)] == s.stored[|s.loaded| + k]
  }

  predicate Inv(s: Race) {
    !s.faulted && CountsAgree(s) && PointersAgree(s) && BytesAgree(s)
  }

  lemma UnreadFromCount(s: Race)
    requires CountsAgree(s)
    ensures Unread(s) == s.ring.count + (if Uncounted(s) then 1 else 0) - (if Overcounted(s) then 1 else 0)
  {
  }

  lemma StoreKeepsCounts(s: Race)
    requires Inv(s) && s.producer.InStoring?
    ensures CountsAgree(AfterInsertStep(s))
  {
    var t := AfterInsertStep(s);
    assert InsertedBytes(t) == s.stored;
    assert RemovedBytes(t) == RemovedBytes(s);
  }

  lemma StoreKeepsPointers(s: Race)
    requires Inv(s) && s.producer.InStoring?
    ensures s.ring.inAt < s.ring.size
    ensures PointersAgree(AfterInsertStep(s))
    ensures NextOut(AfterInsertStep(s)) == NextOut(s)
  {
    UnreadFromCount(s);
  }

  lemma StoreKeepsBytes(s: Race)
    requires Inv(s) && s.producer.InStoring?
    ensures PointersAgree(AfterInsertStep(s)) && BytesAgree(AfterInsertStep(s))
  {
    var t := AfterInsertStep(s);
    StoreKeepsPointers(s);
    UnreadFromCount(s);
    assert t.stored[..|t.loaded|] == s.stored[..|s.loaded|];
    forall k | 0 <= k < Unread(t)
      ensures t.ring.cells[Slot(t.ring.size, NextOut(t), k)] == t.stored[|t.loaded| + k]
    {
      if k < Unread(s) {
        assert Slot(s.ring.size, NextOut(s), k) != s.ring.inAt;
      }
    }
  }

  lemma LoadKeepsCounts(s: Race)
    requires Inv(s) && s.consumer.OutLoading?
    ensures s.ring.outAt < |s.ring.cells|
    ensures CountsAgree(AfterRemoveStep(s))
  {
    UnreadFromCount(s);
    var t := AfterRemoveStep(s);
    assert RemovedBytes(t) == s.loaded;
    assert InsertedBytes(t) == InsertedBytes(s);
  }

  lemma LoadKeepsPointers(s: Race)
    requires Inv(s) && s.consumer.OutLoading?
    ensures s.ring.outAt < s.ring.size
    ensures PointersAgree(AfterRemoveStep(s))
    ensures NextOut(AfterRemoveStep(s)) == Slot(s.ring.size, NextOut(s), 1)
  {
    UnreadFromCount(s);
  }

  lemma LoadKeepsBytes(s: Race)
    requires Inv(s) && s.consumer.OutLoading?
    ensures PointersAgree(AfterRemoveStep(s)) && BytesAgree(AfterRemoveStep(s))
  {
    var t := AfterRemoveStep(s);
    LoadKeepsPointers(s);
    UnreadFromCount(s);
    assert s.ring.cells[Slot(s.ring.size, NextOut(s), 0)] == s.stored[|s.loaded|];
    assert t.loaded == t.stored[..|t.loaded|];
    forall k | 0 <= k < Unread(t)
      ensures t.ring.cells[Slot(t.ring.size, NextOut(t), k)] == t.stored[|t.loaded| + k]
    {
      assert Slot(t.ring.size, NextOut(t), k) == Slot(s.ring.size, NextOut(s), k + 1);
    }
  }

  /** Moving a pointer or testing the count leaves the bytes and where they are. */
  lemma SameBytes(s: Race, t: Race)
    requires Inv(s) && PointersAgree(t)
    requires t.stored == s.stored && t.loaded == s.loaded
    requires t.ring.cells == s.ring.cells && t.ring.size == s.ring.size && NextOut(t) == NextOut(s)
    ensures BytesAgree(t)
  {
  }

  lemma MoveInKeepsCounts(s: Race)
    requires Inv(s) && !s.producer.InStoring?
    ensures CountsAgree(AfterInsertStep(s))
  {
    var t := AfterInsertStep(s);
    assert RemovedBytes(t) == RemovedBytes(s);
  }

  lemma MoveInKeepsPointers(s: Race)
    requires Inv(s) && !s.producer.InStoring?
    ensures PointersAgree(AfterInsertStep(s))
    ensures NextOut(AfterInsertStep(s)) == NextOut(s)
  {
  }

  lemma InsertStepKeeps(s: Race)
    requires Inv(s)
    ensures Inv(AfterInsertStep(s))
  {
    if s.producer.InStoring? {
      StoreKeepsCounts(s);
      StoreKeepsBytes(s);
    } else {
      MoveInKeepsCounts(s);
      MoveInKeepsPointers(s);
      SameBytes(s, AfterInsertStep(s));
    }
  }

  lemma MoveOutKeepsCounts(s: Race)
    requires Inv(s) && !s.consumer.OutLoading?
    ensures CountsAgree(AfterRemoveStep(s))
  {
    var t := AfterRemoveStep(s);
    assert InsertedBytes(t) == InsertedBytes(s);
  }

  lemma MoveOutKeepsPointers(s: Race)
    requires Inv(s) && !s.consumer.OutLoading?
    ensures PointersAgree(AfterRemoveStep(s))
    ensures NextOut(AfterRemoveStep(s)) == NextOut(s)
  {
  }

  lemma RemoveStepKeeps(s: Race)
    requires Inv(s)
    ensures Inv(AfterRemoveStep(s))
  {
    if s.consumer.OutLoading? {
      LoadKeepsCounts(s);
      LoadKeepsBytes(s);
    } else {
      MoveOutKeepsCounts(s);
      MoveOutKeepsPointers(s);
      SameBytes(s, AfterRemoveStep(s));
    }
  }

  lemma TestKeepsCounts(s: Race, a: Action)
    requires Inv(s) && !a.InsertStep? && !a.RemoveStep?
    ensures CountsAgree(Step(s, a))
  {
    var t := Step(s, a);
    assert InsertedBytes(t) == InsertedBytes(s) && RemovedBytes(t) == RemovedBytes(s);
  }

  lemma TestKeeps(s: Race, a: Action)
    requires Inv(s) && !a.InsertStep? && !a.RemoveStep?
    ensures Inv(Step(s, a))
  {
    var t := Step(s, a);
    TestKeepsCounts(s, a);
    assert PointersAgree(t);
    SameBytes(s, t);
  }

  lemma StepKeeps(s: Race, a: Action)
    requires Inv(s)
    ensures Inv(Step(s, a))
    ensures Step(s, a).ring.size == s.ring.size
  {
    if a.InsertStep? {
      InsertStepKeeps(s);
    } else if a.RemoveStep? {
      RemoveStepKeeps(s);
    } else {
      TestKeeps(s, a);
    }
  }

  lemma {:induction false} RunKeeps(cells: seq<uint8>, size: uint16, actions: seq<Action>)
    requires size <= |cells|
    ensures Inv(Run(Start(cells, size), actions))
    ensures Run(Start(cells, size), actions).ring.size == size
  {
    if actions != [] {
      RunKeeps(cells, size, actions[..|actions| - 1]);
      StepKeeps(Run(Start(cells, size), actions[..|actions| - 1]), actions[|actions| - 1]);
    }
  }

  /** Over every interleaving: what has been removed is a prefix of what has been inserted, the
    * count is their difference and within the size, and no access leaves the storage.
    */
  lemma RemovedIsPrefixOfInserted(cells: seq<uint8>, size: uint16, actions: seq<Action>, s: Race)
    requires size <= |cells|
    requires s == Run(Start(cells, size), actions)
    ensures RemovedBytes(s) <= InsertedBytes(s)
    ensures s.ring.count == |InsertedBytes(s)| - |RemovedBytes(s)| <= size
    ensures !s.faulted
  {
    RunKeeps(cells, size, actions);
    UnreadFromCount(s);
  }

  /** Over every interleaving: a store never hits the slot of a byte that has not been read, and
    * a load reads the oldest such byte, even one whose insertion has only just been counted.
    */
  lemma NoSlotIsReused(cells: seq<uint8>, size: uint16, actions: seq<Action>, s: Race)
    requires size <= |cells|
    requires s == Run(Start(cells, size), actions)
    ensures s.producer.InStoring? ==>
              s.ring.inAt < size
              && forall k :: 0 <= k < Unread(s) ==> s.ring.inAt != Slot(size, NextOut(s), k)
    ensures s.consumer.OutLoading? ==>
              s.ring.outAt < size <= |s.ring.cells| && |s.loaded| < |InsertedBytes(s)|
              && s.ring.cells[s.ring.outAt] == InsertedBytes(s)[|s.loaded|]
  {
    RunKeeps(cells, size, actions);
    UnreadFromCount(s);
    if s.consumer.OutLoading? {
      assert s.ring.cells[Slot(size, NextOut(s), 0)] == s.stored[|s.loaded|];
    }
  }

  /** Over every interleaving: what a thread learned from its last look at the count stays true,
    * whatever the other thread has done since.
    */
  lemma TestsStayValid(cells: seq<uint8>, size: uint16, actions: seq<Action>, s: Race)
    requires size <= |cells|
    requires s == Run(Start(cells, size), actions)
    ensures s.credit <= size - s.ring.count
    ensures s.allowance <= s.ring.count
  {
    RunKeeps(cells, size, actions);
  }

  /** Between calls the threads' buffer is the one the methods work on, and its contents are the
    * bytes inserted and not removed.
    */
  lemma QuietBufferHolds(cells: seq<uint8>, size: uint16, actions: seq<Action>, s: Race)
    requires size <= |cells|
    requires s == Run(Start(cells, size), actions)
    requires s.producer.InIdle? && s.consumer.OutIdle?
    ensures Sound(s.ring)
    ensures InsertedBytes(s) == RemovedBytes(s) + Held(s.ring)
  {
    RunKeeps(cells, size, actions);
    UnreadFromCount(s);
  }

  /** Four steps of the producer on its own are one uninterrupted insertion. */
  lemma InsertStepsAreInsert(s: Race)
    requires s.producer.InStoring? && s.ring.inAt < |s.ring.cells|
    ensures var t := AfterInsertStep(AfterInsertStep(AfterInsertStep(AfterInsertStep(s))));
            t.producer.InIdle? && t.ring == Inserted(s.ring, s.producer.x) && t.stored == s.stored + [s.producer.x]
  {
    var one := AfterInsertStep(s);
    var two := AfterInsertStep(one);
    var three := AfterInsertStep(two);
    assert one.producer.InStored? && two.producer.InBumped? && three.producer.InWrapped?;
  }

  /** Four steps of the consumer on its own are one uninterrupted removal. */
  lemma RemoveStepsAreRemove(s: Race)
    requires s.consumer.OutLoading? && s.ring.outAt < |s.ring.cells|
    ensures var t := AfterRemoveStep(AfterRemoveStep(AfterRemoveStep(AfterRemoveStep(s))));
            t.consumer.OutIdle? && t.ring == Removed(s.ring)
            && t.loaded == s.loaded + [s.ring.cells[s.ring.outAt]]
  {
    var one := AfterRemoveStep(s);
    var two := AfterRemoveStep(one);
    var three := AfterRemoveStep(two);
    assert one.consumer.OutLoaded? && two.consumer.OutBumped? && three.consumer.OutWrapped?;
  }

  // ---------- Every permitted call goes through ----------

  predicate FromProducer(a: Action) {
    a.TestFull? || a.TestFreeCount? || a.BeginInsert? || a.InsertStep?
  }

  /** The producer's, or the consumer's, part of an interleaving. */
  function Part(actions: seq<Action>, producer: bool): seq<Action> {
    if actions == [] then [] else
      var front, a := Part(actions[..|actions| - 1], producer), actions[|actions| - 1];
      if FromProducer(a) == producer then front + [a] else front
  }

  /** Insertions one after the other. */
  function Insertions(xs: seq<uint8>): seq<Action> {
    if xs == [] then [] else
      Insertions(xs[..|xs| - 1]) + [BeginInsert(xs[|xs| - 1]), InsertStep, InsertStep, InsertStep, InsertStep]
  }

  function Removals(n: nat): seq<Action> {
    if n == 0 then [] else Removals(n - 1) + [BeginRemove, RemoveStep, RemoveStep, RemoveStep, RemoveStep]
  }

  /** What a thread sees of its own progress: where it is, how often it may still go on, and what it
    * has stored, or how much it has loaded.
    */
  datatype InView = InView(at: Producer, credit: nat, stored: seq<uint8>)

  datatype OutView = OutView(at: Consumer, allowance: nat, loaded: nat)

  function ViewIn(s: Race): InView { InView(s.producer, s.credit, s.stored) }

  function ViewOut(s: Race): OutView { OutView(s.consumer, s.allowance, |s.loaded|) }

  function MoveIn(v: InView, a: Action): InView {
    if a.BeginInsert? then (if v.at.InIdle? && v.credit > 0 then v.(at := InStoring(a.x)) else v)
    else match v.at
         case InIdle => v
         case InStoring(x) => v.(at := InStored, stored := v.stored + [x])
         case InStored => v.(at := InBumped)
         case InBumped => v.(at := InWrapped)
         case InWrapped => v.(at := InIdle, credit := if v.credit > 0 then v.credit - 1 else 0)
  }

  function MoveOut(v: OutView, a: Action): OutView {
    if a.BeginRemove? then (if v.at.OutIdle? && v.allowance > 0 then v.(at := OutLoading) else v)
    else match v.at
         case OutIdle => v
         case OutLoading => v.(at := OutLoaded, loaded := v.loaded + 1)
         case OutLoaded => v.(at := OutBumped)
         case OutBumped => v.(at := OutWrapped)
         case OutWrapped => v.(at := OutIdle, allowance := if v.allowance > 0 then v.allowance - 1 else 0)
  }

  function MovesIn(v: InView, actions: seq<Action>): InView {
    if actions == [] then v else MoveIn(MovesIn(v, actions[..|actions| - 1]), actions[|actions| - 1])
  }

  function MovesOut(v: OutView, actions: seq<Action>): OutView {
    if actions == [] then v else MoveOut(MovesOut(v, actions[..|actions| - 1]), actions[|actions| - 1])
  }

  predicate IsCall(a: Action) {
    a.BeginInsert? || a.InsertStep? || a.BeginRemove? || a.RemoveStep?
  }

  predicate AreCalls(actions: seq<Action>) {
    forall a <- actions :: IsCall(a)
  }

  /** No step of the other thread is seen, and no step of a thread's own faults. */
  lemma StepIsMove(s: Race, a: Action)
    requires Inv(s)
    ensures FromProducer(a) && IsCall(a) ==> ViewIn(Step(s, a)) == MoveIn(ViewIn(s), a)
    ensures !FromProducer(a) ==> ViewIn(Step(s, a)) == ViewIn(s)
    ensures !FromProducer(a) && IsCall(a) ==> ViewOut(Step(s, a)) == MoveOut(ViewOut(s), a)
    ensures FromProducer(a) ==> ViewOut(Step(s, a)) == ViewOut(s)
  {
    if a.InsertStep? && s.producer.InStoring? {
      StoreKeepsPointers(s);
    }
    if a.RemoveStep? && s.consumer.OutLoading? {
      LoadKeepsCounts(s);
    }
  }

  lemma {:induction false} RunFrom(s: Race, actions: seq<Action>)
    requires Inv(s)
    ensures Inv(Run(s, actions))
  {
    if actions != [] {
      RunFrom(s, actions[..|actions| - 1]);
      StepKeeps(Run(s, actions[..|actions| - 1]), actions[|actions| - 1]);
    }
  }

  lemma PartSplit(actions: seq<Action>, producer: bool)
    requires actions != [] && AreCalls(Part(actions, producer))
    ensures AreCalls(Part(actions[..|actions| - 1], producer))
    ensures FromProducer(actions[|actions| - 1]) == producer ==> IsCall(actions[|actions| - 1])
  {
    var front, a := Part(actions[..|actions| - 1], producer), actions[|actions| - 1];
    if FromProducer(a) == producer {
      assert forall b <- front :: b in front + [a];
      assert a in front + [a];
    }
  }

  lemma MovesInSnoc(v: InView, actions: seq<Action>, a: Action)
    ensures MovesIn(v, actions + [a]) == MoveIn(MovesIn(v, actions), a)
  {
    assert (actions + [a])[..|actions|] == actions;
  }

  lemma MovesOutSnoc(v: OutView, actions: seq<Action>, a: Action)
    ensures MovesOut(v, actions + [a]) == MoveOut(MovesOut(v, actions), a)
  {
    assert (actions + [a])[..|actions|] == actions;
  }

  lemma {:induction false} RunIsMoves(s: Race, actions: seq<Action>, producer: bool)
    requires Inv(s) && AreCalls(Part(actions, producer))
    ensures producer ==> ViewIn(Run(s, actions)) == MovesIn(ViewIn(s), Part(actions, true))
    ensures !producer ==> ViewOut(Run(s, actions)) == MovesOut(ViewOut(s), Part(actions, false))
  {
    if actions != [] {
      var front, a := actions[..|actions| - 1], actions[|actions| - 1];
      PartSplit(actions, producer);
      RunIsMoves(s, front, producer);
      RunFrom(s, front);
      StepIsMove(Run(s, front), a);
      MovesInSnoc(ViewIn(s), Part(front, producer), a);
      MovesOutSnoc(ViewOut(s), Part(front, producer), a);
    }
  }

  lemma FiveIn(v: InView, actions: seq<Action>, first: Action, next: Action, all: seq<Action>)
    requires all == actions + [first, next, next, next, next]
    ensures MovesIn(v, all) == MoveIn(MoveIn(MoveIn(MoveIn(MoveIn(MovesIn(v, actions), first), next), next), next), next)
  {
    var a := actions + [first];
    var b := a + [next];
    var c := b + [next];
    var d := c + [next];
    MovesInSnoc(v, actions, first);
    MovesInSnoc(v, a, next);
    MovesInSnoc(v, b, next);
    MovesInSnoc(v, c, next);
    MovesInSnoc(v, d, next);
    assert all == d + [next];
  }

  lemma OneInsertion(w: InView, x: uint8)
    requires w.at.InIdle? && w.credit > 0
    ensures MoveIn(MoveIn(MoveIn(MoveIn(MoveIn(w, BeginInsert(x)), InsertStep), InsertStep), InsertStep), InsertStep)
         == InView(InIdle, w.credit - 1, w.stored + [x])
  {
  }

  lemma {:induction false} AllInserted(v: InView, xs: seq<uint8>)
    requires v.at.InIdle? && |xs| <= v.credit
    ensures MovesIn(v, Insertions(xs)) == InView(InIdle, v.credit - |xs|, v.stored + xs)
  {
    if xs != [] {
      var front, x := xs[..|xs| - 1], xs[|xs| - 1];
      AllInserted(v, front);
      OneInsertion(MovesIn(v, Insertions(front)), x);
      FiveIn(v, Insertions(front), BeginInsert(x), InsertStep, Insertions(xs));
      assert v.stored + front + [x] == v.stored + xs;
    } else {
      assert v.stored + xs == v.stored;
    }
  }

  lemma FiveOut(v: OutView, actions: seq<Action>, first: Action, next: Action, all: seq<Action>)
    requires all == actions + [first, next, next, next, next]
    ensures MovesOut(v, all) == MoveOut(MoveOut(MoveOut(MoveOut(MoveOut(MovesOut(v, actions), first), next), next), next), next)
  {
    var a := actions + [first];
    var b := a + [next];
    var c := b + [next];
    var d := c + [next];
    MovesOutSnoc(v, actions, first);
    MovesOutSnoc(v, a, next);
    MovesOutSnoc(v, b, next);
    MovesOutSnoc(v, c, next);
    MovesOutSnoc(v, d, next);
    assert all == d + [next];
  }

  lemma OneRemoval(w: OutView)
    requires w.at.OutIdle? && w.allowance > 0
    ensures MoveOut(MoveOut(MoveOut(MoveOut(MoveOut(w, BeginRemove), RemoveStep), RemoveStep), RemoveStep), RemoveStep)
         == OutView(OutIdle, w.allowance - 1, w.loaded + 1)
  {
  }

  lemma {:induction false} AllRemoved(v: OutView, n: nat)
    requires v.at.OutIdle? && n <= v.allowance
    ensures MovesOut(v, Removals(n)) == OutView(OutIdle, v.allowance - n, v.loaded + n)
  {
    if n > 0 {
      AllRemoved(v, n - 1);
      OneRemoval(MovesOut(v, Removals(n - 1)));
      FiveOut(v, Removals(n - 1), BeginRemove, RemoveStep, Removals(n));
    }
  }

  lemma {:induction false} CallsAreCalls(xs: seq<uint8>, n: nat)
    ensures AreCalls(Insertions(xs)) && AreCalls(Removals(n))
    decreases |xs| + n
  {
    if xs != [] {
      CallsAreCalls(xs[..|xs| - 1], 0);
    }
    if n > 0 {
      CallsAreCalls([], n - 1);
    }
  }

  lemma NoWrap(size: uint16, count: uint16)
    requires count <= size
    ensures (size as int + 0x1_0000 - count) % 0x1_0000 == size - count
  {
  }

  lemma TestsSay(s: Race)
    requires s.ring.count <= s.ring.size
    ensures s.producer.InIdle? ==> Step(s, TestFreeCount).credit == s.ring.size - s.ring.count
    ensures s.producer.InIdle? ==> (Step(s, TestFull).credit > 0 <==> s.ring.count < s.ring.size)
    ensures s.consumer.OutIdle? ==> Step(s, TestCount).allowance == s.ring.count
    ensures s.consumer.OutIdle? ==> (Step(s, TestEmpty).allowance > 0 <==> s.ring.count > 0)
  {
    NoWrap(s.ring.size, s.ring.count);
  }

  /** What the tests allow, in any state a run can reach. */
  lemma TestsAllow(cells: seq<uint8>, size: uint16, earlier: seq<Action>, s: Race)
    requires size <= |cells| && s == Run(Start(cells, size), earlier)
    ensures s.producer.InIdle? ==> Step(s, TestFreeCount).credit == size - s.ring.count
    ensures s.producer.InIdle? ==> (Step(s, TestFull).credit > 0 <==> s.ring.count < size)
    ensures s.consumer.OutIdle? ==> Step(s, TestCount).allowance == s.ring.count
    ensures s.consumer.OutIdle? ==> (Step(s, TestEmpty).allowance > 0 <==> s.ring.count > 0)
  {
    RemovedIsPrefixOfInserted(cells, size, earlier, s);
    RunKeeps(cells, size, earlier);
    TestsSay(s);
  }

  /** From any state a run can reach, with the producer between calls: as many insertions as its last
    * test allows put their bytes in, in order, whatever the consumer does between any two steps.
    */
  lemma InsertionsGoThrough(cells: seq<uint8>, size: uint16, earlier: seq<Action>, s: Race, actions: seq<Action>,
                            xs: seq<uint8>, t: Race)
    requires size <= |cells| && s == Run(Start(cells, size), earlier) && t == Run(s, actions)
    requires s.producer.InIdle? && |xs| <= s.credit && Part(actions, true) == Insertions(xs)
    ensures t.producer.InIdle? && InsertedBytes(t) == InsertedBytes(s) + xs
  {
    RunKeeps(cells, size, earlier);
    CallsAreCalls(xs, 0);
    RunIsMoves(s, actions, true);
    AllInserted(ViewIn(s), xs);
  }

  /** As many removals as the consumer's last test allows take the next bytes inserted, whatever the
    * producer does.
    */
  lemma RemovalsGoThrough(cells: seq<uint8>, size: uint16, earlier: seq<Action>, s: Race, actions: seq<Action>, n: nat, t: Race)
    requires size <= |cells| && s == Run(Start(cells, size), earlier) && t == Run(s, actions)
    requires s.consumer.OutIdle? && n <= s.allowance && Part(actions, false) == Removals(n)
    ensures t.consumer.OutIdle? && |RemovedBytes(t)| == |RemovedBytes(s)| + n <= |InsertedBytes(t)|
    ensures RemovedBytes(t) == InsertedBytes(t)[..|RemovedBytes(s)| + n]
  {
    RunKeeps(cells, size, earlier);
    CallsAreCalls([], n);
    RunIsMoves(s, actions, false);
    AllRemoved(ViewOut(s), n);
    RunFrom(s, actions);
    UnreadFromCount(t);
  }
}
