/** Walking a USB configuration descriptor: a chain of descriptors, each starting with its size and
  * its type, in a buffer with a count of the bytes that remain.
  */
module ConfigDescriptor {
  import opened Words

  const DESCRIPTOR_SEARCH_FOUND := 0
  const DESCRIPTOR_SEARCH_FAIL := 1
  const DESCRIPTOR_SEARCH_NOTFOUND := 2
  const DESCRIPTOR_SEARCH_COMP_ENDOFDESCRIPTOR := 2

  /** A position in the buffer, and the bytes remaining from there on. */
  datatype Cursor = Cursor(loc: nat, rem: uint16)

  function End(c: Cursor): nat { c.loc + c.rem }

  /** A header is two bytes; the searches read one at every position they reach, the end included. */
  predicate InBuffer(mem: seq<uint8>, c: Cursor) {
    End(c) + 2 <= |mem|
  }

  function SizeAt(mem: seq<uint8>, loc: nat): uint8
    requires loc + 2 <= |mem|
  {
    mem[loc]
  }

  function TypeAt(mem: seq<uint8>, c: Cursor): uint8
    requires InBuffer(mem, c)
  {
    mem[c.loc + 1]
  }

  predicate AllInBuffer(mem: seq<uint8>, ds: seq<Cursor>) {
    forall i :: 0 <= i < |ds| ==> InBuffer(mem, ds[i])
  }

  /** USB_GetNextDescriptor: over the current descriptor, but never past the end. */
  function Next(mem: seq<uint8>, c: Cursor): (n: Cursor)
    requires InBuffer(mem, c)
    ensures End(n) == End(c)
  {
    var size := Min(SizeAt(mem, c.loc), c.rem);
    Cursor(c.loc + size, c.rem - size)
  }

  /** No descriptor from here to the end has size 0. */
  predicate Clean(mem: seq<uint8>, c: Cursor)
    requires InBuffer(mem, c)
    decreases c.rem
  {
    c.rem == 0 || (SizeAt(mem, c.loc) > 0 && Clean(mem, Next(mem, c)))
  }

  /** The descriptors after the current one, as far as steps get: a descriptor of size 0 is followed
    * by itself, and by nothing else.
    */
  function Later(mem: seq<uint8>, c: Cursor): (ds: seq<Cursor>)
    requires InBuffer(mem, c)
    ensures AllInBuffer(mem, ds)
    decreases c.rem
  {
    if c.rem == 0 then []
    else if SizeAt(mem, c.loc) == 0 then [c]
    else if Next(mem, c).rem == 0 then []
    else [Next(mem, c)] + Later(mem, Next(mem, c))
  }

  /** `ds` are the descriptors of a chain from `start` to `end`, each where the one before says,
    * the last one reaching the end or beyond.
    */
  predicate IsChain(mem: seq<uint8>, start: nat, end: nat, ds: seq<Cursor>)
    requires end + 2 <= |mem|
  {
    && |ds| > 0 && ds[0].loc == start
    && (forall i :: 0 <= i < |ds| ==> End(ds[i]) == end && ds[i].rem > 0)
    && (forall i :: 0 < i < |ds| ==> ds[i].loc == ds[i - 1].loc + SizeAt(mem, ds[i - 1].loc))
    && ds[|ds| - 1].loc + SizeAt(mem, ds[|ds| - 1].loc) >= end
  }

  lemma IsChainCons(mem: seq<uint8>, c: Cursor, end: nat, tail: seq<Cursor>, ds: seq<Cursor>)
    requires end + 2 <= |mem| && ds == [c] + tail && End(c) == end && c.rem > 0
    requires |tail| > 0 && IsChain(mem, tail[0].loc, end, tail) && tail[0].loc == c.loc + SizeAt(mem, c.loc)
    ensures IsChain(mem, c.loc, end, ds)
  {
    forall i | 0 < i < |ds| ensures ds[i].loc == ds[i - 1].loc + SizeAt(mem, ds[i - 1].loc) {
      if i > 1 {
        assert ds[i] == tail[i - 1] && ds[i - 1] == tail[i - 2];
      }
    }
  }

  /** The current descriptor and the later ones are the whole chain. */
  lemma {:induction false} LaterIsChain(mem: seq<uint8>, c: Cursor)
    requires InBuffer(mem, c) && Clean(mem, c) && c.rem > 0
    ensures IsChain(mem, c.loc, End(c), [c] + Later(mem, c))
    decreases c.rem
  {
    var n := Next(mem, c);
    if n.rem > 0 {
      LaterIsChain(mem, n);
      assert Later(mem, c) == [n] + Later(mem, n);
      IsChainCons(mem, c, End(c), Later(mem, c), [c] + Later(mem, c));
    }
  }

  /** The first of `ds` whose position meets `stop`, or their number. */
  function FirstStop(ds: seq<Cursor>, stop: nat -> bool): nat {
    if ds == [] || stop(ds[0].loc) then 0 else 1 + FirstStop(ds[1..], stop)
  }

  lemma {:induction false} FirstStopIsFirst(ds: seq<Cursor>, stop: nat -> bool, k: nat)
    ensures k == FirstStop(ds, stop) <==>
              && k <= |ds|
              && (k < |ds| ==> stop(ds[k].loc))
              && (forall j :: 0 <= j < k ==> !stop(ds[j].loc))
  {
    if ds != [] && !stop(ds[0].loc) && k > 0 {
      var rest := ds[1..];
      FirstStopIsFirst(rest, stop, k - 1);
      assert forall j :: 1 <= j < |ds| ==> ds[j] == rest[j - 1];
      assert forall j :: 0 <= j < |rest| ==> rest[j] == ds[j + 1];
    }
  }

  /** The end, with nothing remaining. */
  function AtEnd(c: Cursor): Cursor { Cursor(End(c), 0) }

  function AtOrEnd(c: Cursor, ds: seq<Cursor>, k: nat): Cursor {
    if k < |ds| then ds[k] else AtEnd(c)
  }

  // ---------- When a search ends ----------

  /** A search that goes on until `stop` holds of where it is reaches such a position or the end. */
  predicate Stops(mem: seq<uint8>, c: Cursor, stop: nat -> bool)
    requires InBuffer(mem, c)
    decreases c.rem
  {
    c.rem == 0 || stop(Next(mem, c).loc) || (SizeAt(mem, c.loc) > 0 && Stops(mem, Next(mem, c), stop))
  }

  /** The chain has no descriptor of size 0, or what the search is for comes before it gets there. */
  predicate Ends(mem: seq<uint8>, c: Cursor, stop: nat -> bool)
    requires InBuffer(mem, c)
  {
    Clean(mem, c) || FirstStop(Later(mem, c), stop) < |Later(mem, c)|
  }

  /** Where the loop of a search is after `turns` turns, if it has not ended before. */
  function Turns(mem: seq<uint8>, c: Cursor, turns: nat): (r: Cursor)
    requires InBuffer(mem, c)
    ensures End(r) == End(c)
  {
    if turns == 0 then c else Next(mem, Turns(mem, c, turns - 1))
  }

  /** The loop ends after `turns` turns, by its condition or by its return. */
  predicate EndsAt(mem: seq<uint8>, c: Cursor, stop: nat -> bool, turns: nat)
    requires InBuffer(mem, c)
  {
    Turns(mem, c, turns).rem == 0 || (turns > 0 && stop(Turns(mem, c, turns).loc))
  }

  lemma {:induction false} TurnsShift(mem: seq<uint8>, c: Cursor, k: nat)
    requires InBuffer(mem, c)
    ensures Turns(mem, c, k + 1) == Turns(mem, Next(mem, c), k)
  {
    if k > 0 {
      TurnsShift(mem, c, k - 1);
    }
  }

  lemma {:induction false} StuckAtZero(mem: seq<uint8>, c: Cursor, k: nat)
    requires InBuffer(mem, c) && c.rem > 0 && SizeAt(mem, c.loc) == 0
    ensures Turns(mem, c, k) == c
  {
    if k > 0 {
      StuckAtZero(mem, c, k - 1);
    }
  }

  lemma {:induction false} StopsIffEnds(mem: seq<uint8>, c: Cursor, stop: nat -> bool)
    requires InBuffer(mem, c)
    ensures Stops(mem, c, stop) <==> Ends(mem, c, stop)
    decreases c.rem
  {
    if c.rem > 0 {
      var n, ds := Next(mem, c), Later(mem, c);
      if SizeAt(mem, c.loc) == 0 {
        assert ds[1..] == [];
      } else if n.rem > 0 {
        StopsIffEnds(mem, n, stop);
        assert ds[0] == n && ds[1..] == Later(mem, n);
      } else {
        assert Clean(mem, n) && Stops(mem, n, stop);
      }
    }
  }

  lemma {:induction false} StopsByTurn(mem: seq<uint8>, c: Cursor, stop: nat -> bool, k: nat)
    requires InBuffer(mem, c) && EndsAt(mem, c, stop, k)
    ensures Stops(mem, c, stop)
    decreases k
  {
    if c.rem > 0 && k > 0 {
      if SizeAt(mem, c.loc) == 0 {
        StuckAtZero(mem, c, k);
      } else if !stop(Next(mem, c).loc) {
        TurnsShift(mem, c, k - 1);
        StopsByTurn(mem, Next(mem, c), stop, k - 1);
      }
    }
  }

  lemma {:induction false} TurnOfStop(mem: seq<uint8>, c: Cursor, stop: nat -> bool) returns (k: nat)
    requires InBuffer(mem, c) && Stops(mem, c, stop)
    ensures EndsAt(mem, c, stop, k)
    decreases c.rem
  {
    if c.rem == 0 {
      k := 0;
    } else if stop(Next(mem, c).loc) {
      k := 1;
      assert Turns(mem, c, 1) == Next(mem, c);
    } else {
      var j := TurnOfStop(mem, Next(mem, c), stop);
      TurnsShift(mem, c, j);
      k := j + 1;
    }
  }

  /** A search ends, after some number of turns, if and only if the chain is clean or what it is for
    * comes before the first descriptor of size 0, or is that descriptor.
    */
  lemma SearchEndsIff(mem: seq<uint8>, c: Cursor, stop: nat -> bool)
    requires InBuffer(mem, c)
    ensures (exists k: nat :: EndsAt(mem, c, stop, k)) <==> Ends(mem, c, stop)
  {
    StopsIffEnds(mem, c, stop);
    if Stops(mem, c, stop) {
      var k := TurnOfStop(mem, c, stop);
      assert EndsAt(mem, c, stop, k);
    }
    if exists k: nat :: EndsAt(mem, c, stop, k) {
      var k: nat :| EndsAt(mem, c, stop, k);
      StopsByTurn(mem, c, stop, k);
    }
  }

  // ---------- Searching by type ----------

  /** The position of a descriptor of either type. */
  function IsType(mem: seq<uint8>, t: uint8, u: uint8): nat -> bool {
    (loc: nat) => loc + 2 <= |mem| && (mem[loc + 1] == t || mem[loc + 1] == u)
  }

  /** Where a search comes to a halt. */
  function Halt(mem: seq<uint8>, c: Cursor, stop: nat -> bool): (r: Cursor)
    requires InBuffer(mem, c) && Stops(mem, c, stop)
    ensures End(r) == End(c)
    decreases c.rem
  {
    if c.rem == 0 then c
    else
      var n := Next(mem, c);
      if stop(n.loc) then n else Halt(mem, n, stop)
  }

  /** At the first later descriptor it is for, or the end with nothing remaining: the two bytes past
    * the end, read as a header, make no difference.
    */
  lemma {:induction false} HaltIsFirstStop(mem: seq<uint8>, c: Cursor, stop: nat -> bool)
    requires InBuffer(mem, c) && Stops(mem, c, stop)
    ensures Halt(mem, c, stop) == AtOrEnd(c, Later(mem, c), FirstStop(Later(mem, c), stop))
    decreases c.rem
  {
    if c.rem > 0 {
      var n, ds := Next(mem, c), Later(mem, c);
      if SizeAt(mem, c.loc) == 0 {
        assert ds == [c] && n == c;
      } else if n.rem > 0 {
        assert ds[0] == n && ds[1..] == Later(mem, n);
        if !stop(n.loc) {
          HaltIsFirstStop(mem, n, stop);
        }
      }
    }
  }

  function AfterOfType(mem: seq<uint8>, c: Cursor, type_: uint8): (r: Cursor)
    requires InBuffer(mem, c) && Stops(mem, c, IsType(mem, type_, type_))
    ensures End(r) == End(c)
  {
    Halt(mem, c, IsType(mem, type_, type_))
  }

  /** A descriptor of the type not to be crossed leaves nothing remaining. */
  function AfterOfTypeBefore(mem: seq<uint8>, c: Cursor, type_: uint8, beforeType: uint8): Cursor
    requires InBuffer(mem, c) && Stops(mem, c, IsType(mem, type_, beforeType))
  {
    var r := Halt(mem, c, IsType(mem, type_, beforeType));
    if TypeAt(mem, r) == type_ then r else r.(rem := 0)
  }

  /** Both searches end. */
  predicate StopsAfter(mem: seq<uint8>, c: Cursor, type_: uint8, afterType: uint8)
    requires InBuffer(mem, c)
  {
    && Stops(mem, c, IsType(mem, afterType, afterType))
    && Stops(mem, AfterOfType(mem, c, afterType), IsType(mem, type_, type_))
  }

  /** The search for the other type ends and, if it finds one, so does the search from there on. */
  predicate EndsAfter(mem: seq<uint8>, c: Cursor, type_: uint8, afterType: uint8)
    requires InBuffer(mem, c)
  {
    var ds := Later(mem, c);
    var k := FirstStop(ds, IsType(mem, afterType, afterType));
    && Ends(mem, c, IsType(mem, afterType, afterType))
    && (k < |ds| ==> Ends(mem, ds[k], IsType(mem, type_, type_)))
  }

  lemma StopsAfterIffEnds(mem: seq<uint8>, c: Cursor, type_: uint8, afterType: uint8)
    requires InBuffer(mem, c)
    ensures StopsAfter(mem, c, type_, afterType) <==> EndsAfter(mem, c, type_, afterType)
  {
    StopsIffEnds(mem, c, IsType(mem, afterType, afterType));
    if Stops(mem, c, IsType(mem, afterType, afterType)) {
      HaltIsFirstStop(mem, c, IsType(mem, afterType, afterType));
      StopsIffEnds(mem, AfterOfType(mem, c, afterType), IsType(mem, type_, type_));
    }
  }

  function AfterOfTypeAfter(mem: seq<uint8>, c: Cursor, type_: uint8, afterType: uint8): (r: Cursor)
    requires InBuffer(mem, c) && StopsAfter(mem, c, type_, afterType)
    ensures End(r) == End(c)
  {
    AfterOfType(mem, AfterOfType(mem, c, afterType), type_)
  }

  /** `k` is the first of the descriptors whose second byte is `t` or `u`, or their number. */
  predicate IsFirstOf(mem: seq<uint8>, ds: seq<Cursor>, t: uint8, u: uint8, k: nat)
    requires AllInBuffer(mem, ds)
  {
    && k <= |ds|
    && (forall j :: 0 <= j < k ==> mem[ds[j].loc + 1] != t && mem[ds[j].loc + 1] != u)
    && (k < |ds| ==> mem[ds[k].loc + 1] == t || mem[ds[k].loc + 1] == u)
  }

  lemma FirstStopByType(mem: seq<uint8>, ds: seq<Cursor>, t: uint8, u: uint8)
    requires AllInBuffer(mem, ds)
    ensures IsFirstOf(mem, ds, t, u, FirstStop(ds, IsType(mem, t, u)))
  {
    FirstStopIsFirst(ds, IsType(mem, t, u), FirstStop(ds, IsType(mem, t, u)));
    forall j | 0 <= j < |ds| ensures IsType(mem, t, u)(ds[j].loc) <==> mem[ds[j].loc + 1] == t || mem[ds[j].loc + 1] == u {
      assert InBuffer(mem, ds[j]);
    }
  }

  /** The first later descriptor of the type, or the end with nothing remaining. */
  lemma OfTypeIsFirstMatch(mem: seq<uint8>, c: Cursor, type_: uint8)
    requires InBuffer(mem, c) && Ends(mem, c, IsType(mem, type_, type_))
    ensures Stops(mem, c, IsType(mem, type_, type_))
    ensures var ds := Later(mem, c); var k := FirstStop(ds, IsType(mem, type_, type_));
            IsFirstOf(mem, ds, type_, type_, k) && AfterOfType(mem, c, type_) == AtOrEnd(c, ds, k)
  {
    FirstStopByType(mem, Later(mem, c), type_, type_);
    StopsIffEnds(mem, c, IsType(mem, type_, type_));
    HaltIsFirstStop(mem, c, IsType(mem, type_, type_));
  }

  lemma BeforeIsHalted(mem: seq<uint8>, c: Cursor, type_: uint8, beforeType: uint8)
    requires InBuffer(mem, c) && Ends(mem, c, IsType(mem, type_, beforeType))
    ensures Stops(mem, c, IsType(mem, type_, beforeType))
    ensures var ds := Later(mem, c); var k := FirstStop(ds, IsType(mem, type_, beforeType));
            AfterOfTypeBefore(mem, c, type_, beforeType) ==
              if k >= |ds| then AtEnd(c) else if TypeAt(mem, ds[k]) == type_ then ds[k] else ds[k].(rem := 0)
  {
    var stop := IsType(mem, type_, beforeType);
    StopsIffEnds(mem, c, stop);
    HaltIsFirstStop(mem, c, stop);
  }

  /** The first later descriptor of either type: a match is the result, one of the type not to be
    * crossed leaves nothing remaining, and so does the end.
    */
  lemma BeforeIsFirstMatch(mem: seq<uint8>, c: Cursor, type_: uint8, beforeType: uint8)
    requires InBuffer(mem, c) && Ends(mem, c, IsType(mem, type_, beforeType))
    ensures Stops(mem, c, IsType(mem, type_, beforeType))
    ensures var ds := Later(mem, c); var k := FirstStop(ds, IsType(mem, type_, beforeType));
            && IsFirstOf(mem, ds, type_, beforeType, k)
            && AfterOfTypeBefore(mem, c, type_, beforeType) ==
                 if k >= |ds| then AtEnd(c) else if mem[ds[k].loc + 1] == type_ then ds[k] else ds[k].(rem := 0)
  {
    BeforeIsHalted(mem, c, type_, beforeType);
    FirstStopByType(mem, Later(mem, c), type_, beforeType);
  }

  /** The first descriptor of the type among those after the first of the other type. */
  lemma AfterIsFirstMatchAfter(mem: seq<uint8>, c: Cursor, type_: uint8, afterType: uint8, ds: seq<Cursor>, k: nat)
    requires InBuffer(mem, c) && EndsAfter(mem, c, type_, afterType)
    requires ds == Later(mem, c) && k == FirstStop(ds, IsType(mem, afterType, afterType))
    ensures StopsAfter(mem, c, type_, afterType) && IsFirstOf(mem, ds, afterType, afterType, k)
    ensures k < |ds| ==>
              IsFirstOf(mem, Later(mem, ds[k]), type_, type_, FirstStop(Later(mem, ds[k]), IsType(mem, type_, type_)))
    ensures AfterOfTypeAfter(mem, c, type_, afterType) ==
              if k < |ds| then AtOrEnd(c, Later(mem, ds[k]), FirstStop(Later(mem, ds[k]), IsType(mem, type_, type_)))
              else AtEnd(c)
  {
    StopsAfterIffEnds(mem, c, type_, afterType);
    FirstStopByType(mem, ds, afterType, afterType);
    if k < |ds| {
      FirstStopByType(mem, Later(mem, ds[k]), type_, type_);
    }
    HaltIsFirstStop(mem, c, IsType(mem, afterType, afterType));
    var r := AfterOfType(mem, c, afterType);
    HaltIsFirstStop(mem, r, IsType(mem, type_, type_));
    LaterEnds(mem, c);
  }

  lemma {:induction false} LaterEnds(mem: seq<uint8>, c: Cursor)
    requires InBuffer(mem, c)
    ensures forall i :: 0 <= i < |Later(mem, c)| ==> End(Later(mem, c)[i]) == End(c) && Later(mem, c)[i].rem > 0
    decreases c.rem
  {
    if c.rem > 0 && SizeAt(mem, c.loc) > 0 && Next(mem, c).rem > 0 {
      LaterEnds(mem, Next(mem, c));
    }
  }

  /** Location plus remaining bytes never changes, except where a crossed type zeroes the count. */
  lemma EndIsKept(mem: seq<uint8>, c: Cursor, type_: uint8, beforeType: uint8)
    requires InBuffer(mem, c) && Ends(mem, c, IsType(mem, type_, beforeType))
    ensures Stops(mem, c, IsType(mem, type_, beforeType))
    ensures var ds := Later(mem, c); var k := FirstStop(ds, IsType(mem, type_, beforeType));
            End(AfterOfTypeBefore(mem, c, type_, beforeType)) == End(c)
            <==> (k < |ds| ==> TypeAt(mem, ds[k]) == type_)
  {
    BeforeIsFirstMatch(mem, c, type_, beforeType);
    LaterEnds(mem, c);
  }

  // ---------- Searching with a comparator ----------

  /** The comparator `f`, given a position, does not pass over the descriptor there. */
  function Decides(f: nat -> int): nat -> bool {
    (loc: nat) => f(loc) != DESCRIPTOR_SEARCH_NOTFOUND
  }

  datatype Outcome = Outcome(at: Cursor, code: int)

  /** Where the comparator search ends, and with what. */
  function AfterComp(mem: seq<uint8>, c: Cursor, f: nat -> int): (r: Outcome)
    requires InBuffer(mem, c) && Stops(mem, c, Decides(f))
    ensures End(r.at) == End(c) && (Clean(mem, c) ==> Clean(mem, r.at))
    decreases c.rem
  {
    if c.rem == 0 then Outcome(c, DESCRIPTOR_SEARCH_COMP_ENDOFDESCRIPTOR)
    else
      var n := Next(mem, c);
      if f(n.loc) == DESCRIPTOR_SEARCH_NOTFOUND then AfterComp(mem, n, f)
      else if f(n.loc) == DESCRIPTOR_SEARCH_FAIL then Outcome(c, f(n.loc))
      else Outcome(n, f(n.loc))
  }

  /** What a comparator search looks at: the later descriptors and, once it gets there, the header
    * past the end.
    */
  function Candidates(mem: seq<uint8>, c: Cursor): seq<Cursor>
    requires InBuffer(mem, c)
  {
    if c.rem == 0 then [] else if Clean(mem, c) then Later(mem, c) + [AtEnd(c)] else Later(mem, c)
  }

  /** The candidates that the search leaves behind it: a descriptor that fails the search is not
    * among them, one that is found is.
    */
  function PassedOf(cs: seq<Cursor>, f: nat -> int): seq<Cursor> {
    var k := FirstStop(cs, Decides(f));
    if k >= |cs| then cs else if f(cs[k].loc) != DESCRIPTOR_SEARCH_FAIL then cs[..k + 1] else cs[..k]
  }

  lemma CandidatesStep(mem: seq<uint8>, c: Cursor)
    requires InBuffer(mem, c) && c.rem > 0
    ensures SizeAt(mem, c.loc) > 0 ==> Candidates(mem, c) == [Next(mem, c)] + Candidates(mem, Next(mem, c))
    ensures SizeAt(mem, c.loc) == 0 ==> Candidates(mem, c) == [Next(mem, c)]
  {
    var n := Next(mem, c);
    if SizeAt(mem, c.loc) == 0 {
      assert n == c;
    } else if n.rem > 0 {
      assert [n] + Later(mem, n) + [AtEnd(c)] == [n] + (Later(mem, n) + [AtEnd(c)]);
    } else {
      assert n == AtEnd(c) && Clean(mem, n);
      assert [] + [AtEnd(c)] == [AtEnd(c)] + [];
    }
  }

  lemma PassedStep(first: Cursor, rest: seq<Cursor>, cs: seq<Cursor>, f: nat -> int)
    requires cs == [first] + rest
    ensures f(first.loc) == DESCRIPTOR_SEARCH_NOTFOUND ==>
              FirstStop(cs, Decides(f)) == 1 + FirstStop(rest, Decides(f)) && PassedOf(cs, f) == [first] + PassedOf(rest, f)
    ensures f(first.loc) != DESCRIPTOR_SEARCH_NOTFOUND ==>
              FirstStop(cs, Decides(f)) == 0 && PassedOf(cs, f) == if f(first.loc) == DESCRIPTOR_SEARCH_FAIL then [] else [first]
  {
    assert cs[1..] == rest;
    var k := FirstStop(rest, Decides(f));
    FirstStopIsFirst(rest, Decides(f), k);
    assert cs[..1 + k] == [first] + rest[..k];
    if k < |rest| {
      assert cs[..k + 2] == [first] + rest[..k + 1];
    }
  }

  /** The verdict is the comparator's on the first candidate it decides, and the search stands at
    * that candidate if it was found.
    */
  lemma {:induction false} CompIsFirstDecided(mem: seq<uint8>, c: Cursor, f: nat -> int)
    requires InBuffer(mem, c) && Stops(mem, c, Decides(f))
    ensures var r := AfterComp(mem, c, f); var cs := Candidates(mem, c); var k := FirstStop(cs, Decides(f));
            && r.code == (if k < |cs| then f(cs[k].loc) else 2)
            && (k < |cs| ==> r.code != 2 && (r.code != 1 ==> r.at == cs[k]))
    decreases c.rem
  {
    if c.rem > 0 {
      var n := Next(mem, c);
      CandidatesStep(mem, c);
      if SizeAt(mem, c.loc) == 0 {
        PassedStep(n, [], Candidates(mem, c), f);
      } else {
        PassedStep(n, Candidates(mem, n), Candidates(mem, c), f);
        if f(n.loc) == DESCRIPTOR_SEARCH_NOTFOUND {
          CompIsFirstDecided(mem, n, f);
        }
      }
    }
  }

  /** On a clean chain every search ends. */
  lemma CleanStops(mem: seq<uint8>, c: Cursor, stop: nat -> bool)
    requires InBuffer(mem, c) && Clean(mem, c)
    ensures Stops(mem, c, stop)
  {
    StopsIffEnds(mem, c, stop);
  }

  /** What a search of a clean chain passed and what it then has ahead are what it had ahead. */
  lemma {:induction false} CompLosesNothing(mem: seq<uint8>, c: Cursor, f: nat -> int)
    requires InBuffer(mem, c) && Clean(mem, c)
    ensures Stops(mem, c, Decides(f))
    ensures PassedOf(Candidates(mem, c), f) + Candidates(mem, AfterComp(mem, c, f).at) == Candidates(mem, c)
    decreases c.rem
  {
    CleanStops(mem, c, Decides(f));
    if c.rem > 0 {
      var n := Next(mem, c);
      CandidatesStep(mem, c);
      PassedStep(n, Candidates(mem, n), Candidates(mem, c), f);
      if f(n.loc) == DESCRIPTOR_SEARCH_NOTFOUND {
        CompLosesNothing(mem, n, f);
        Join([n], PassedOf(Candidates(mem, n), f), Candidates(mem, AfterComp(mem, n, f).at));
      }
    }
  }

  /** If a search fails, the next one looks first at the descriptor that failed it. */
  lemma FailIsNext(mem: seq<uint8>, c: Cursor, f: nat -> int)
    requires InBuffer(mem, c) && Clean(mem, c) && Stops(mem, c, Decides(f))
    requires AfterComp(mem, c, f).code == 1
    ensures var cs := Candidates(mem, c); var k := FirstStop(cs, Decides(f));
            k < |cs| && Candidates(mem, AfterComp(mem, c, f).at) == cs[k..] && f(cs[k].loc) == 1
  {
    CompIsFirstDecided(mem, c, f);
    CompLosesNothing(mem, c, f);
    var cs := Candidates(mem, c);
    assert PassedOf(cs, f) == cs[..FirstStop(cs, Decides(f))];
  }

  /** A search of a clean chain reports a position where there is no descriptor if and only if the
    * comparator passes over every later descriptor and takes the bytes past the end for what it
    * looks for.
    */
  lemma FoundPastTheEnd(mem: seq<uint8>, c: Cursor, f: nat -> int)
    requires InBuffer(mem, c) && Clean(mem, c) && c.rem > 0
    ensures Stops(mem, c, Decides(f))
    ensures var r, ds := AfterComp(mem, c, f), Later(mem, c);
            r == Outcome(AtEnd(c), 0)
            <==> f(End(c)) == 0 && FirstStop(ds, Decides(f)) == |ds|
  {
    CleanStops(mem, c, Decides(f));
    CompIsFirstDecided(mem, c, f);
    var ds, cs := Later(mem, c), Candidates(mem, c);
    var j, k := FirstStop(ds, Decides(f)), FirstStop(cs, Decides(f));
    FirstStopIsFirst(ds, Decides(f), j);
    FirstStopIsFirst(cs, Decides(f), k);
    assert cs[|ds|] == AtEnd(c);
    assert forall i :: 0 <= i < |ds| ==> cs[i] == ds[i];
    LaterEnds(mem, c);
  }

  /** The usual comparator: finds a descriptor of a type and passes over all others. */
  function Finder(mem: seq<uint8>, type_: uint8): nat -> int {
    (loc: nat) => if loc + 2 <= |mem| && mem[loc + 1] == type_ then DESCRIPTOR_SEARCH_FOUND else DESCRIPTOR_SEARCH_NOTFOUND
  }

  lemma FinderPasses(mem: seq<uint8>, d: Cursor, type_: uint8)
    requires InBuffer(mem, d)
    ensures Finder(mem, type_)(d.loc) ==
              if TypeAt(mem, d) == type_ then DESCRIPTOR_SEARCH_FOUND else DESCRIPTOR_SEARCH_NOTFOUND
  {
  }

  /** So looking for a type that the chain does not have finds it past the end whenever the bytes
    * left there from before look like it.
    */
  lemma StaleHeaderIsFound(mem: seq<uint8>, c: Cursor, type_: uint8)
    requires InBuffer(mem, c) && Clean(mem, c) && c.rem > 0
    requires forall i :: 0 <= i < |Later(mem, c)| ==> TypeAt(mem, Later(mem, c)[i]) != type_
    requires TypeAt(mem, AtEnd(c)) == type_
    ensures Stops(mem, c, Decides(Finder(mem, type_)))
    ensures AfterComp(mem, c, Finder(mem, type_)) == Outcome(AtEnd(c), 0)
  {
    var f, ds := Finder(mem, type_), Later(mem, c);
    FoundPastTheEnd(mem, c, f);
    forall i | 0 <= i < |ds| ensures !Decides(f)(ds[i].loc) {
      FinderPasses(mem, ds[i], type_);
    }
    FinderPasses(mem, AtEnd(c), type_);
    FirstStopIsFirst(ds, Decides(f), |ds|);
  }

  /** For example: a configuration header (type 2), an interface (type 4) and nothing else, with an
    * endpoint (type 5) left over in the buffer behind them.
    */
  lemma FoundWhereThereIsNone(mem: seq<uint8>, c: Cursor, interface: Cursor, end: Cursor)
    requires mem == [2, 2, 2, 4, 7, 5]
    requires c == Cursor(0, 4) && interface == Cursor(2, 2) && end == Cursor(4, 0)
    ensures Clean(mem, c) && Later(mem, c) == [interface] && TypeAt(mem, interface) == 4
    ensures Stops(mem, c, Decides(Finder(mem, 5)))
    ensures AfterComp(mem, c, Finder(mem, 5)) == Outcome(end, 0)
  {
    TwoLeft(mem, c, interface, end);
    StaleHeaderIsFound(mem, c, 5);
  }

  lemma TwoLeft(mem: seq<uint8>, c: Cursor, d: Cursor, end: Cursor)
    requires InBuffer(mem, c) && c.rem > 0 && d.rem > 0 && end.rem == 0
    requires Next(mem, c) == d && d != c && Next(mem, d) == end
    ensures Clean(mem, c) && Later(mem, c) == [d]
  {
    assert Clean(mem, end) && Clean(mem, d) && Later(mem, d) == [];
  }

  /** Where a sequence of searches, each taking up where the one before stopped, ends. */
  function AfterComps(mem: seq<uint8>, c: Cursor, fs: seq<nat -> int>): (r: Cursor)
    requires InBuffer(mem, c) && Clean(mem, c)
    ensures InBuffer(mem, r) && Clean(mem, r)
    decreases |fs|
  {
    if fs == [] then c
    else
      CleanStops(mem, c, Decides(fs[0]));
      AfterComps(mem, AfterComp(mem, c, fs[0]).at, fs[1..])
  }

  function AllPassed(mem: seq<uint8>, c: Cursor, fs: seq<nat -> int>): seq<Cursor>
    requires InBuffer(mem, c) && Clean(mem, c)
    decreases |fs|
  {
    if fs == [] then []
    else
      CleanStops(mem, c, Decides(fs[0]));
      PassedOf(Candidates(mem, c), fs[0]) + AllPassed(mem, AfterComp(mem, c, fs[0]).at, fs[1..])
  }

  /** Over any sequence of searches of a clean chain, what they passed between them and what is still
    * ahead make up the chain: none is lost and none is passed twice.
    */
  lemma {:induction false} SearchesLoseNothing(mem: seq<uint8>, c: Cursor, fs: seq<nat -> int>)
    requires InBuffer(mem, c) && Clean(mem, c)
    ensures AllPassed(mem, c, fs) + Candidates(mem, AfterComps(mem, c, fs)) == Candidates(mem, c)
    decreases |fs|
  {
    if fs != [] {
      CompLosesNothing(mem, c, fs[0]);
      var at := AfterComp(mem, c, fs[0]).at;
      SearchesLoseNothing(mem, at, fs[1..]);
      Join(PassedOf(Candidates(mem, c), fs[0]), AllPassed(mem, at, fs[1..]), Candidates(mem, AfterComps(mem, c, fs)));
    }
  }

  lemma Join(p: seq<Cursor>, q: seq<Cursor>, ahead: seq<Cursor>)
    ensures p + q + ahead == p + (q + ahead)
  {
  }

  // ---------- The searches ----------

  /** The two variables a search moves. */
  class Walker {
    const mem: seq<uint8>
    var currConfigLoc: nat
    var bytesRem: uint16

    ghost function Here(): Cursor
      reads this
    {
      Cursor(currConfigLoc, bytesRem)
    }

    constructor (buffer: seq<uint8>, size: uint16)
      requires InBuffer(buffer, Cursor(0, size))
      ensures mem == buffer && Here() == Cursor(0, size)
    {
      mem := buffer;
      currConfigLoc, bytesRem := 0, size;
    }

    method GetNextDescriptor()
      requires InBuffer(mem, Here())
      modifies this
      ensures Here() == Next(mem, old(Here()))
    {
      var size := mem[currConfigLoc];
      if bytesRem < size {
        currConfigLoc, bytesRem := currConfigLoc + bytesRem, 0;
      } else {
        currConfigLoc, bytesRem := currConfigLoc + size, bytesRem - size;
      }
    }

    method GetNextDescriptorOfType(type_: uint8)
      requires InBuffer(mem, Here()) && Ends(mem, Here(), IsType(mem, type_, type_))
      modifies this
      ensures Stops(mem, old(Here()), IsType(mem, type_, type_))
      ensures Here() == AfterOfType(mem, old(Here()), type_)
    {
      ghost var was, stop := Here(), IsType(mem, type_, type_);
      StopsIffEnds(mem, was, stop);
      while bytesRem != 0
        invariant InBuffer(mem, Here()) && Stops(mem, Here(), stop)
        invariant Halt(mem, was, stop) == Halt(mem, Here(), stop)
        decreases bytesRem
      {
        GetNextDescriptor();
        if mem[currConfigLoc + 1] == type_ {
          return;
        }
      }
    }

    method GetNextDescriptorOfTypeBefore(type_: uint8, beforeType: uint8)
      requires InBuffer(mem, Here()) && Ends(mem, Here(), IsType(mem, type_, beforeType))
      modifies this
      ensures Stops(mem, old(Here()), IsType(mem, type_, beforeType))
      ensures Here() == AfterOfTypeBefore(mem, old(Here()), type_, beforeType)
    {
      ghost var was, stop := Here(), IsType(mem, type_, beforeType);
      StopsIffEnds(mem, was, stop);
      while bytesRem != 0
        invariant InBuffer(mem, Here()) && Stops(mem, Here(), stop)
        invariant Halt(mem, was, stop) == Halt(mem, Here(), stop)
        decreases bytesRem
      {
        GetNextDescriptor();
        if mem[currConfigLoc + 1] == type_ {
          return;
        } else if mem[currConfigLoc + 1] == beforeType {
          bytesRem := 0;
          return;
        }
      }
    }

    method GetNextDescriptorOfTypeAfter(type_: uint8, afterType: uint8)
      requires InBuffer(mem, Here()) && EndsAfter(mem, Here(), type_, afterType)
      modifies this
      ensures StopsAfter(mem, old(Here()), type_, afterType)
      ensures Here() == AfterOfTypeAfter(mem, old(Here()), type_, afterType)
    {
      StopsAfterIffEnds(mem, Here(), type_, afterType);
      GetNextDescriptorOfType(afterType);
      if bytesRem != 0 {
        StopsIffEnds(mem, Here(), IsType(mem, type_, type_));
        GetNextDescriptorOfType(type_);
      }
    }

    method GetNextDescriptorComp(f: nat -> int) returns (code: int)
      requires InBuffer(mem, Here()) && Ends(mem, Here(), Decides(f))
      modifies this
      ensures Stops(mem, old(Here()), Decides(f))
      ensures Outcome(Here(), code) == AfterComp(mem, old(Here()), f)
    {
      ghost var was := Here();
      StopsIffEnds(mem, was, Decides(f));
      while bytesRem != 0
        invariant InBuffer(mem, Here()) && Stops(mem, Here(), Decides(f))
        invariant AfterComp(mem, was, f) == AfterComp(mem, Here(), f)
        decreases bytesRem
      {
        var prevDescLoc, prevBytesRem := currConfigLoc, bytesRem;
        GetNextDescriptor();
        code := f(currConfigLoc);
        if code != DESCRIPTOR_SEARCH_NOTFOUND {
          if code == DESCRIPTOR_SEARCH_FAIL {
            currConfigLoc := prevDescLoc;
            bytesRem := prevBytesRem;
          }
          return;
        }
      }
      code := DESCRIPTOR_SEARCH_COMP_ENDOFDESCRIPTOR;
    }
  }
}
