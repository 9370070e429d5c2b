/** Texts that say the same: digits of either case, any text after the end record, and none at all.
  * And how a text of any bytes is cut into lines.
  */
module IntelHexTexts {
  import opened Words
  import opened IntelHex
  import opened IntelHexLoader
  import opened IntelHexEncoding

  // ----- upper and lower case -----

  /** The same character, or the same letter A to F in the other case. */
  predicate SameLetter(c: char, d: char) {
    c == d || ('A' <= c <= 'F' && d as int == c as int + 32) || ('A' <= d <= 'F' && c as int == d as int + 32)
  }

  predicate SameButCase(s: string, t: string) {
    |s| == |t| && forall k :: 0 <= k < |s| ==> SameLetter(s[k], t[k])
  }

  lemma SameDigit(c: char, d: char)
    requires SameLetter(c, d)
    ensures IsHexDigit(c) <==> IsHexDigit(d)
    ensures IsHexDigit(c) ==> DigitValue(c) == DigitValue(d)
  {
  }

  lemma SameByte(s: string, t: string, k: nat)
    requires SameButCase(s, t)
    ensures HasByte(s, k) <==> HasByte(t, k)
    ensures HasByte(s, k) ==> RecordByte(s, k) == RecordByte(t, k)
  {
    if 3 + 2 * k <= |s| {
      SameDigit(s[1 + 2 * k], t[1 + 2 * k]);
      SameDigit(s[2 + 2 * k], t[2 + 2 * k]);
    }
  }

  lemma SameBytes(s: string, t: string, n: nat)
    requires SameButCase(s, t)
    ensures HasBytes(s, n) <==> HasBytes(t, n)
    ensures HasBytes(s, n) ==> forall k: nat :: k < n ==> RecordByte(s, k) == RecordByte(t, k)
  {
    forall k: nat | k < n
      ensures (HasByte(s, k) <==> HasByte(t, k)) && (HasByte(s, k) ==> RecordByte(s, k) == RecordByte(t, k))
    {
      SameByte(s, t, k);
    }
  }

  lemma {:induction false} SameSum(s: string, t: string, n: nat)
    requires SameButCase(s, t) && HasBytes(s, n) && HasBytes(t, n)
    ensures SumTo(s, n) == SumTo(t, n)
  {
    if n > 0 {
      SameSum(s, t, n - 1);
      SameByte(s, t, n - 1);
    }
  }

  lemma SameHeader(s: string, t: string)
    requires SameButCase(s, t)
    ensures Framed(s) <==> Framed(t)
    ensures Framed(s) ==> LengthOf(s) == LengthOf(t) && AddressOf(s) == AddressOf(t) && TypeOf(s) == TypeOf(t)
  {
    SameByte(s, t, 0);
    SameByte(s, t, 1);
    SameByte(s, t, 2);
    SameByte(s, t, 3);
  }

  lemma SameChecksum(s: string, t: string)
    requires SameButCase(s, t) && Framed(s) && Framed(t) && LengthOf(s) == LengthOf(t)
    ensures ChecksumHolds(s) <==> ChecksumHolds(t)
    ensures ChecksumHolds(s) ==> Payload(s) == Payload(t)
  {
    SameBytes(s, t, 5 + LengthOf(s));
    if ChecksumHolds(s) || ChecksumHolds(t) {
      SameSum(s, t, 5 + LengthOf(s));
    }
  }

  /** The case of its digits has no part in what a line says. */
  lemma SameMeaning(s: string, t: string, base: nat)
    requires SameButCase(s, t)
    ensures LineMeaning(s, base) == LineMeaning(t, base)
  {
    SameHeader(s, t);
    if Framed(s) {
      SameChecksum(s, t);
      SameByte(s, t, 4);
      SameByte(s, t, 5);
    }
  }

  ghost predicate AllSameButCase(xs: seq<string>, ys: seq<string>) {
    |xs| == |ys| && forall i :: 0 <= i < |xs| ==> SameButCase(xs[i], ys[i])
  }

  lemma {:induction false} SameChunks(xs: seq<string>, ys: seq<string>, base: nat)
    requires AllSameButCase(xs, ys)
    ensures Chunks(xs, base) == Chunks(ys, base)
    decreases |xs|
  {
    if xs != [] {
      SameMeaning(xs[0], ys[0], base);
      match LineMeaning(xs[0], base)
      case Malformed =>
      case End =>
      case Ignored => SameChunks(xs[1..], ys[1..], base);
      case Base(b) => SameChunks(xs[1..], ys[1..], b);
      case Data(at, bytes) => SameChunks(xs[1..], ys[1..], base);
    }
  }

  // ----- cutting a text into lines -----

  /** `n` is where one read of the text stops: behind the first line feed, after 1023 characters, or
    * at the end.
    */
  predicate IsPiece(text: string, n: nat) {
    && 0 < n <= |text| && n <= 1023
    && (forall k :: 0 <= k < n - 1 ==> text[k] != '\n')
    && (n == 1023 || n == |text| || text[n - 1] == '\n')
  }

  /** `m` is where the text stops for one who takes a NUL for its end. */
  predicate IsCut(text: string, m: nat) {
    m <= |text| && (forall k :: 0 <= k < m ==> text[k] != '\0') && (m < |text| ==> text[m] == '\0')
  }

  lemma {:induction false} FgetsStops(text: string, room: nat, n: nat)
    requires 0 < n <= |text| && n <= room
    requires forall k :: 0 <= k < n - 1 ==> text[k] != '\n'
    requires n == room || n == |text| || text[n - 1] == '\n'
    ensures FgetsLength(text, room) == n
    decreases n
  {
    if n > 1 {
      FgetsStops(text[1..], room - 1, n - 1);
    }
  }

  lemma {:induction false} CStringStops(text: string, m: nat)
    requires IsCut(text, m)
    ensures CString(text) == text[..m]
    decreases m
  {
    if m > 0 {
      CStringStops(text[1..], m - 1);
    }
  }

  /** The lines of any text: what one read takes, up to a NUL and if that leaves anything, and then
    * the lines of the rest.
    */
  lemma FirstPiece(text: string, n: nat, m: nat)
    requires IsPiece(text, n) && IsCut(text[..n], m)
    ensures FileLines(text) == (if m == 0 then [] else [text[..m]]) + FileLines(text[n..])
  {
    FgetsStops(text, LINE_ROOM, n);
    CStringStops(text[..n], m);
    assert text[..n][..m] == text[..m];
  }

  lemma {:induction false} FindPiece(text: string, room: nat) returns (n: nat)
    requires text != "" && room > 0
    ensures 0 < n <= |text| && n <= room
    ensures forall k :: 0 <= k < n - 1 ==> text[k] != '\n'
    ensures n == room || n == |text| || text[n - 1] == '\n'
    decreases room
  {
    if text[0] == '\n' || room == 1 || |text| == 1 {
      n := 1;
    } else {
      var k := FindPiece(text[1..], room - 1);
      n := k + 1;
    }
  }

  lemma {:induction false} FindCut(text: string) returns (m: nat)
    ensures IsCut(text, m)
  {
    if text == "" || text[0] == '\0' {
      m := 0;
    } else {
      var k := FindCut(text[1..]);
      m := k + 1;
    }
  }

  lemma SameLineEnds(s: string, t: string, n: nat, m: nat)
    requires SameButCase(s, t) && IsPiece(s, n) && IsCut(s[..n], m)
    ensures IsPiece(t, n) && IsCut(t[..n], m)
    ensures SameButCase(s[..m], t[..m]) && SameButCase(s[n..], t[n..])
  {
    assert forall k :: 0 <= k < |s| ==> SameLetter(s[k], t[k]);
  }

  lemma SameLinesCons(x: string, y: string, xs: seq<string>, ys: seq<string>)
    requires SameButCase(x, y) && AllSameButCase(xs, ys)
    ensures AllSameButCase([x] + xs, [y] + ys) && AllSameButCase([] + xs, [] + ys)
  {
  }

  lemma {:induction false} SameLines(s: string, t: string)
    requires SameButCase(s, t)
    ensures AllSameButCase(FileLines(s), FileLines(t))
    decreases |s|
  {
    if s != "" {
      var n := FindPiece(s, 1023);
      var m := FindCut(s[..n]);
      SameLineEnds(s, t, n, m);
      FirstPiece(s, n, m);
      FirstPiece(t, n, m);
      SameLines(s[n..], t[n..]);
      SameLinesCons(s[..m], t[..m], FileLines(s[n..]), FileLines(t[n..]));
    }
  }

  /** Nor has it any part in what a file says. */
  lemma SameFile(s: string, t: string)
    requires SameButCase(s, t)
    ensures Chunks(FileLines(s), 0) == Chunks(FileLines(t), 0)
  {
    SameLines(s, t);
    SameChunks(FileLines(s), FileLines(t), 0);
  }

  /** The round trip with the letters of the text in either case. */
  lemma RoundTripInAnyCase(segments: seq<Segment>, ending: string, text: string)
    requires PlaceNothing(FileLines(ending)) && SameButCase(Printed(segments, ending), text)
    ensures ReadsAs(text, segments)
  {
    AnyEnding(segments, ending);
    SameFile(Printed(segments, ending), text);
  }
}
