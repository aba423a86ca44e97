/**
 EncodingConverter (src/darwincore/foundation/string/Encoding.cpp): UTF-8, UTF-16 and UTF-32 conversions,
 the UTF-8 validity test and the UTF-8 character count.

 Bytes are bv8, UTF-16 units bv16, code points bv32, as in the source.
 */
module Encoding {

  // ---------------------------------------------------------------- one character

  /** The length a lead byte announces; 0 for a byte that cannot lead. */
  function CharLength(c: bv8): nat {
    if c & 0x80 == 0 then 1
    else if c & 0xE0 == 0xC0 then 2
    else if c & 0xF0 == 0xE0 then 3
    else if c & 0xF8 == 0xF0 then 4
    else 0
  }

  predicate Continues(c: bv8) {
    c & 0xC0 == 0x80
  }

  function Low8(x: bv32): bv8 {
    (x & 0xFF) as bv8
  }

  function Bits(c: bv8, mask: bv8): bv32 {
    (c & mask) as bv32
  }

  function Point2(a: bv8, b: bv8): bv32 {
    (Bits(a, 0x1F) << 6) | Bits(b, 0x3F)
  }

  function Point3(a: bv8, b: bv8, c: bv8): bv32 {
    (Bits(a, 0x0F) << 12) | (Bits(b, 0x3F) << 6) | Bits(c, 0x3F)
  }

  function Point4(a: bv8, b: bv8, c: bv8, d: bv8): bv32 {
    (Bits(a, 0x07) << 18) | (Bits(b, 0x3F) << 12) | (Bits(c, 0x3F) << 6) | Bits(d, 0x3F)
  }

  function Lead2(cp: bv32): bv8 { Low8(0xC0 | (cp >> 6)) }
  function Lead3(cp: bv32): bv8 { Low8(0xE0 | (cp >> 12)) }
  function Lead4(cp: bv32): bv8 { Low8(0xF0 | (cp >> 18)) }
  function Tail0(cp: bv32): bv8 { Low8(0x80 | (cp & 0x3F)) }
  function Tail6(cp: bv32): bv8 { Low8(0x80 | ((cp >> 6) & 0x3F)) }
  function Tail12(cp: bv32): bv8 { Low8(0x80 | ((cp >> 12) & 0x3F)) }

  /** encodeUtf8Char. */
  function Encode(cp: bv32): seq<bv8> {
    if cp < 0x80 then [Low8(cp)]
    else if cp < 0x800 then [Lead2(cp), Tail0(cp)]
    else if cp < 0x10000 then [Lead3(cp), Tail6(cp), Tail0(cp)]
    else [Lead4(cp), Tail12(cp), Tail6(cp), Tail0(cp)]
  }

  lemma Encode1(cp: bv32)
    requires cp < 0x80
    ensures CharLength(Low8(cp)) == 1 && Low8(cp) as bv32 == cp
  {}

  lemma Encode2(cp: bv32)
    requires 0x80 <= cp < 0x800
    ensures CharLength(Lead2(cp)) == 2 && Continues(Tail0(cp)) && Point2(Lead2(cp), Tail0(cp)) == cp
  {}

  lemma Encode3(cp: bv32)
    requires 0x800 <= cp < 0x10000
    ensures CharLength(Lead3(cp)) == 3 && Continues(Tail6(cp)) && Continues(Tail0(cp))
    ensures Point3(Lead3(cp), Tail6(cp), Tail0(cp)) == cp
  {}

  lemma Encode4(cp: bv32)
    requires 0x10000 <= cp < 0x200000
    ensures CharLength(Lead4(cp)) == 4 && Continues(Tail12(cp)) && Continues(Tail6(cp)) && Continues(Tail0(cp))
    ensures Point4(Lead4(cp), Tail12(cp), Tail6(cp), Tail0(cp)) == cp
  {}

  /** A code point of more than 21 bits is not recoverable. */
  lemma EncodeTooBig(cp: bv32)
    requires cp >= 0x200000
    ensures CharLength(Lead4(cp)) == 0 || CharLength(Lead4(cp)) == 4
    ensures Point4(Lead4(cp), Tail12(cp), Tail6(cp), Tail0(cp)) < 0x200000
  {}

  /** A C++ string may be read one past its end, where it holds a zero. */
  function At(s: seq<bv8>, i: nat): bv8 {
    if i < |s| then s[i] else 0
  }

  /** The code point at the front of a string, by the length its lead byte announces. */
  function PointOf(s: seq<bv8>): bv32
    requires |s| > 0
  {
    match CharLength(s[0])
    case 1 => s[0] as bv32
    case 2 => Point2(s[0], At(s, 1))
    case 3 => Point3(s[0], At(s, 1), At(s, 2))
    case 4 => Point4(s[0], At(s, 1), At(s, 2), At(s, 3))
    case _ => 0
  }

  /** A lead byte and all the continuation bytes it announces. */
  predicate WellFormedHead(s: seq<bv8>)
    requires |s| > 0
  {
    0 < CharLength(s[0]) <= |s| && forall j :: 1 <= j < CharLength(s[0]) ==> Continues(s[j])
  }

  lemma HeadOfEncoded(cp: bv32, rest: seq<bv8>)
    requires cp < 0x200000
    ensures WellFormedHead(Encode(cp) + rest) && CharLength((Encode(cp) + rest)[0]) == |Encode(cp)|
    ensures PointOf(Encode(cp) + rest) == cp && (Encode(cp) + rest)[|Encode(cp)|..] == rest
  {
    if cp < 0x80 { Encode1(cp); }
    else if cp < 0x800 { Encode2(cp); }
    else if cp < 0x10000 { Encode3(cp); }
    else { Encode4(cp); }
  }

  // ---------------------------------------------------------------- UTF-32

  function Utf8Of(points: seq<bv32>): seq<bv8> {
    if points == [] then [] else Encode(points[0]) + Utf8Of(points[1..])
  }

  /** utf8ToUtf32 stops making progress on a byte that cannot lead, and trusts announced lengths. */
  datatype Outcome = Text(points: seq<bv32>) | Diverges | ReadsPastEnd

  function Prefixed(cp: bv32, rest: Outcome): Outcome {
    match rest
    case Text(points) => Text([cp] + points)
    case _ => rest
  }

  function Utf32Of(s: seq<bv8>): Outcome {
    if s == [] then Text([])
    else
      var n := CharLength(s[0]);
      if n == 0 then Diverges
      else if n > |s| + 1 then ReadsPastEnd
      else if n > |s| then Text([PointOf(s)])
      else Prefixed(PointOf(s), Utf32Of(s[n..]))
  }

  lemma TooBigIsLost(cp: bv32, rest: seq<bv8>)
    requires cp >= 0x200000
    ensures Utf32Of(Encode(cp) + rest).Text? ==> Utf32Of(Encode(cp) + rest).points[..1] != [cp]
  {
    EncodeTooBig(cp);
    var s := Encode(cp) + rest;
    if CharLength(s[0]) == 4 { assert PointOf(s) != cp; }
  }

  lemma Utf32Head(cp: bv32, rest: seq<bv8>)
    requires cp < 0x200000
    ensures Utf32Of(Encode(cp) + rest) == Prefixed(cp, Utf32Of(rest))
  {
    HeadOfEncoded(cp, rest);
  }

  /** Going to UTF-8 and back loses nothing exactly when every code point fits in 21 bits. */
  lemma {:induction false} Utf32RoundTrip(points: seq<bv32>)
    ensures Utf32Of(Utf8Of(points)) == Text(points) <==> forall i :: 0 <= i < |points| ==> points[i] < 0x200000
  {
    if points != [] {
      var cp, rest := points[0], points[1..];
      assert points == [cp] + rest;
      Utf32RoundTrip(rest);
      if cp < 0x200000 {
        Utf32Head(cp, Utf8Of(rest));
      } else {
        TooBigIsLost(cp, Utf8Of(rest));
      }
    }
  }

  // ---------------------------------------------------------------- validity and character count

  ghost predicate ValidUtf8(s: seq<bv8>) {
    s == [] || (WellFormedHead(s) && ValidUtf8(s[CharLength(s[0])..]))
  }

  function CharCount(s: seq<bv8>): nat {
    if s == [] || CharLength(s[0]) == 0 then 0
    else if CharLength(s[0]) > |s| then 1
    else 1 + CharCount(s[CharLength(s[0])..])
  }

  /** Every output is valid and counts as many characters as there were code points. */
  lemma {:induction false} EncodedIsValid(points: seq<bv32>)
    requires forall i :: 0 <= i < |points| ==> points[i] < 0x200000
    ensures ValidUtf8(Utf8Of(points)) && CharCount(Utf8Of(points)) == |points|
  {
    if points != [] {
      EncodedIsValid(points[1..]);
      HeadOfEncoded(points[0], Utf8Of(points[1..]));
    }
  }

  /** How many bytes of a string do not continue a character. */
  ghost function Leads(s: seq<bv8>): nat {
    if s == [] then 0 else (if Continues(s[0]) then 0 else 1) + Leads(s[1..])
  }

  lemma {:induction false} LeadsOfTail(s: seq<bv8>, n: nat)
    requires n <= |s| && forall j :: 0 <= j < n ==> Continues(s[j])
    ensures Leads(s) == Leads(s[n..])
  {
    if n > 0 {
      LeadsOfTail(s[1..], n - 1);
      assert s[1..][n - 1..] == s[n..];
    }
  }

  lemma LeadDoesNotContinue(c: bv8)
    requires CharLength(c) > 0
    ensures !Continues(c)
  {}

  /** On valid input the count is the number of bytes that start a character, and decoding always ends. */
  lemma {:induction false} ValidDecodes(s: seq<bv8>)
    requires ValidUtf8(s)
    ensures CharCount(s) == Leads(s)
    ensures Utf32Of(s).Text? && |Utf32Of(s).points| == CharCount(s)
  {
    if s != [] {
      var n := CharLength(s[0]);
      ValidDecodes(s[n..]);
      LeadDoesNotContinue(s[0]);
      LeadsOfTail(s[1..], n - 1);
      assert s[1..][n - 1..] == s[n..];
    }
  }

  // ---------------------------------------------------------------- how utf8ToUtf32 ends

  ghost predicate Follows(s: seq<bv8>, i: nat, next: nat) {
    i < |s| && CharLength(s[i]) > 0 && next == i + CharLength(s[i])
  }

  /** Positions that follow one another by the announced lengths, from a given one on. */
  ghost predicate IsStride(s: seq<bv8>, path: seq<nat>) {
    |path| > 0 && forall i :: 0 <= i < |path| - 1 ==> Follows(s, path[i], path[i + 1])
  }

  /** Striding from the start of the string comes to position `e`. */
  ghost predicate Strides(s: seq<bv8>, e: nat) {
    exists path :: IsStride(s, path) && path[0] == 0 && path[|path| - 1] == e
  }

  /** Striding cannot go on: the string is over, or a byte cannot lead. */
  predicate IsLast(s: seq<bv8>, e: nat) {
    e >= |s| || CharLength(s[e]) == 0
  }

  /** What utf8ToUtf32 does when striding ends at `e`. */
  ghost predicate EndsSo(o: Outcome, n: nat, e: nat) {
    && (o.Text? <==> n <= e <= n + 1)
    && (o.Diverges? <==> e < n)
    && (o.ReadsPastEnd? <==> e > n + 1)
  }

  lemma StrideTail(s: seq<bv8>, path: seq<nat>)
    requires IsStride(s, path) && |path| > 1
    ensures IsStride(s, path[1..])
  {
    var rest := path[1..];
    assert forall i :: 0 <= i < |rest| ==> rest[i] == path[i + 1];
  }

  lemma OutcomeStep(s: seq<bv8>, i: nat, n: nat)
    requires i < |s| && n == CharLength(s[i]) > 0
    ensures i + n <= |s| ==> Utf32Of(s[i..]) == Prefixed(PointOf(s[i..]), Utf32Of(s[i + n..]))
    ensures i + n > |s| ==> EndsSo(Utf32Of(s[i..]), |s|, i + n)
  {
    if i + n <= |s| { assert s[i..][n..] == s[i + n..]; }
  }

  lemma OutcomeStops(s: seq<bv8>, i: nat)
    requires i <= |s| && IsLast(s, i)
    ensures EndsSo(Utf32Of(s[i..]), |s|, i)
  {
  }

  /** Where striding ends decides how the conversion of the rest of the string ends. */
  lemma {:induction false} StrideDecides(s: seq<bv8>, path: seq<nat>)
    requires IsStride(s, path) && path[0] <= |s| && IsLast(s, path[|path| - 1])
    ensures EndsSo(Utf32Of(s[path[0]..]), |s|, path[|path| - 1])
    decreases |path|
  {
    if |path| == 1 {
      OutcomeStops(s, path[0]);
    } else {
      assert Follows(s, path[0], path[1]);
      OutcomeStep(s, path[0], CharLength(s[path[0]]));
      StrideTail(s, path);
      if path[1] <= |s| {
        StrideDecides(s, path[1..]);
      } else {
        assert |path| > 2 ==> Follows(s, path[1], path[2]);
      }
    }
  }

  lemma {:induction false} StrideFrom(s: seq<bv8>, i: nat) returns (path: seq<nat>)
    ensures IsStride(s, path) && path[0] == i && IsLast(s, path[|path| - 1])
    decreases |s| - i
  {
    if IsLast(s, i) {
      path := [i];
    } else {
      var rest := StrideFrom(s, i + CharLength(s[i]));
      path := [i] + rest;
      StrideCons(s, i, rest);
    }
  }

  lemma StrideCons(s: seq<bv8>, i: nat, rest: seq<nat>)
    requires IsStride(s, rest) && Follows(s, i, rest[0])
    ensures IsStride(s, [i] + rest) && ([i] + rest)[|rest|] == rest[|rest| - 1]
  {
    var path := [i] + rest;
    forall k | 0 <= k < |path| - 1 ensures Follows(s, path[k], path[k + 1]) {
      if k > 0 { assert Follows(s, rest[k - 1], rest[k]); }
    }
  }

  /** All strides from the start that end end in the same way. */
  lemma StrideEnds(s: seq<bv8>, e: nat)
    requires Strides(s, e) && IsLast(s, e)
    ensures EndsSo(Utf32Of(s), |s|, e)
  {
    var path :| IsStride(s, path) && path[0] == 0 && path[|path| - 1] == e;
    StrideDecides(s, path);
    assert s[0..] == s;
  }

  /**
   utf8ToUtf32 yields text exactly when striding by the announced lengths comes to the end of the string or
   one past it; it runs on forever exactly when striding comes to a byte that cannot lead; and it reads
   outside the string exactly when striding goes further than one past the end.
   */
  lemma Utf32EndsExactly(s: seq<bv8>)
    ensures Utf32Of(s).Text? <==> Strides(s, |s|) || Strides(s, |s| + 1)
    ensures Utf32Of(s).Diverges? <==> exists e :: 0 <= e < |s| && CharLength(s[e]) == 0 && Strides(s, e)
    ensures Utf32Of(s).ReadsPastEnd? <==> exists e :: e > |s| + 1 && Strides(s, e)
  {
    var path := StrideFrom(s, 0);
    var end := path[|path| - 1];
    assert Strides(s, end);
    StrideEnds(s, end);
    forall e: nat | Strides(s, e) && IsLast(s, e) ensures EndsSo(Utf32Of(s), |s|, e) { StrideEnds(s, e); }
  }

  /** The count is that of the strides, whatever they run into. */
  lemma {:induction false} CountIsStrides(s: seq<bv8>, path: seq<nat>)
    requires IsStride(s, path) && path[0] <= |s| && IsLast(s, path[|path| - 1])
    ensures CharCount(s[path[0]..]) == |path| - 1
    decreases |path|
  {
    var i := path[0];
    if |path| > 1 {
      assert Follows(s, i, path[1]);
      StrideTail(s, path);
      if path[1] <= |s| {
        CountIsStrides(s, path[1..]);
        assert s[i..][path[1] - i..] == s[path[1]..];
      } else {
        assert |path| > 2 ==> Follows(s, path[1], path[2]);
      }
    }
  }

  // ---------------------------------------------------------------- what is valid, byte by byte

  /** A byte that does not continue a character leads one: all its continuation bytes follow, and then no further one. */
  ghost predicate LeadsChar(s: seq<bv8>, i: nat)
    requires i < |s|
  {
    var n := CharLength(s[i]);
    && n > 0 && i + n <= |s|
    && (forall j :: i < j < i + n ==> Continues(s[j]))
    && (i + n < |s| ==> !Continues(s[i + n]))
  }

  ghost predicate Synchronized(s: seq<bv8>) {
    && (s != [] ==> !Continues(s[0]))
    && forall i :: 0 <= i < |s| && !Continues(s[i]) ==> LeadsChar(s, i)
  }

  lemma LeadsShifted(s: seq<bv8>, n: nat, i: nat)
    requires n <= i < |s|
    ensures LeadsChar(s, i) <==> LeadsChar(s[n..], i - n)
  {
    var r, k := s[n..], CharLength(s[i]);
    assert r[i - n] == s[i];
    if LeadsChar(s, i) {
      forall j | i - n < j < i - n + k ensures Continues(r[j]) { assert r[j] == s[j + n]; }
    }
    if LeadsChar(r, i - n) {
      forall j | i < j < i + k ensures Continues(s[j]) { assert r[j - n] == s[j]; }
    }
  }

  lemma SynchronizedHead(s: seq<bv8>)
    requires s != [] && 0 < CharLength(s[0]) <= |s|
    ensures Synchronized(s) <==> WellFormedHead(s) && Synchronized(s[CharLength(s[0])..])
  {
    var n := CharLength(s[0]);
    var r := s[n..];
    LeadDoesNotContinue(s[0]);
    if Synchronized(s) {
      assert LeadsChar(s, 0);
      forall i | 0 <= i < |r| && !Continues(r[i]) ensures LeadsChar(r, i) { LeadsShifted(s, n, i + n); }
    }
    if WellFormedHead(s) && Synchronized(r) {
      forall i | 0 <= i < |s| && !Continues(s[i]) ensures LeadsChar(s, i) {
        if i >= n {
          assert r[i - n] == s[i];
          LeadsShifted(s, n, i);
        }
      }
    }
  }

  /** isValidUtf8 accepts exactly the strings whose every byte is where one of its kind belongs. */
  lemma {:induction false} ValidExactly(s: seq<bv8>)
    ensures ValidUtf8(s) <==> Synchronized(s)
    decreases |s|
  {
    if s != [] {
      if 0 < CharLength(s[0]) <= |s| {
        SynchronizedHead(s);
        ValidExactly(s[CharLength(s[0])..]);
      } else {
        assert !LeadsChar(s, 0);
      }
    }
  }

  /** A continuation byte that leads; a lead byte two short; and one byte short, where the terminator is read. */
  lemma Utf32Endings(a: bv8, b: bv8, c: bv8)
    requires a == 0x80 && b == 0xE2 && c == 0xC3
    ensures Utf32Of([a]).Diverges? && Utf32Of([b]).ReadsPastEnd? && Utf32Of([c]) == Text([0xC0])
  {
  }

  /** The character at the front could not be written with fewer bytes (section 3 of RFC 3629). */
  predicate ShortestHead(s: seq<bv8>)
    requires |s| > 0
  {
    match CharLength(s[0])
    case 2 => s[0] >= 0xC2
    case 3 => s[0] != 0xE0 || At(s, 1) >= 0xA0
    case 4 => s[0] != 0xF0 || At(s, 1) >= 0x90
    case _ => true
  }

  ghost predicate Shortest(s: seq<bv8>) {
    s == [] || (ShortestHead(s) && CharLength(s[0]) <= |s| && (CharLength(s[0]) > 0 ==> Shortest(s[CharLength(s[0])..])))
  }

  lemma Decode1(a: bv8)
    requires CharLength(a) == 1
    ensures Encode(a as bv32) == [a]
  {}

  lemma Decode2(a: bv8, b: bv8)
    requires CharLength(a) == 2 && Continues(b)
    ensures Point2(a, b) < 0x800 && (a >= 0xC2 <==> Point2(a, b) >= 0x80)
    ensures Lead2(Point2(a, b)) == a && Tail0(Point2(a, b)) == b
  {}

  lemma Decode3(a: bv8, b: bv8, c: bv8)
    requires CharLength(a) == 3 && Continues(b) && Continues(c)
    ensures Point3(a, b, c) < 0x10000 && ((a != 0xE0 || b >= 0xA0) <==> Point3(a, b, c) >= 0x800)
    ensures Lead3(Point3(a, b, c)) == a && Tail6(Point3(a, b, c)) == b && Tail0(Point3(a, b, c)) == c
  {}

  lemma Decode4(a: bv8, b: bv8, c: bv8, d: bv8)
    requires CharLength(a) == 4 && Continues(b) && Continues(c) && Continues(d)
    ensures (a != 0xF0 || b >= 0x90) <==> Point4(a, b, c, d) >= 0x10000
    ensures Lead4(Point4(a, b, c, d)) == a && Tail12(Point4(a, b, c, d)) == b
    ensures Tail6(Point4(a, b, c, d)) == c && Tail0(Point4(a, b, c, d)) == d
  {}

  lemma EncodeOfHead(s: seq<bv8>)
    requires |s| > 0 && WellFormedHead(s)
    ensures ShortestHead(s) ==> Encode(PointOf(s)) == s[..CharLength(s[0])]
    ensures !ShortestHead(s) ==> |Encode(PointOf(s))| < CharLength(s[0])
  {
    match CharLength(s[0]) {
      case 1 => Decode1(s[0]);
      case 2 => Decode2(s[0], s[1]);
      case 3 => Decode3(s[0], s[1], s[2]);
      case _ => Decode4(s[0], s[1], s[2], s[3]);
    }
  }

  /** Decoding valid UTF-8 and encoding it again gives it back exactly when it is in shortest form. */
  lemma {:induction false} Utf8RoundTrip(s: seq<bv8>)
    requires ValidUtf8(s)
    ensures Utf32Of(s).Text? && |Utf8Of(Utf32Of(s).points)| <= |s|
    ensures Utf8Of(Utf32Of(s).points) == s <==> Shortest(s)
    ensures Utf8Of(Utf32Of(s).points) == s <==> |Utf8Of(Utf32Of(s).points)| == |s|
  {
    if s != [] {
      var n := CharLength(s[0]);
      Utf8RoundTrip(s[n..]);
      EncodeOfHead(s);
      var rest := Utf32Of(s[n..]).points;
      assert Utf32Of(s).points[1..] == rest;
      assert Utf8Of(Utf32Of(s).points) == Encode(PointOf(s)) + Utf8Of(rest);
      assert s == s[..n] + s[n..];
    }
  }

  // ---------------------------------------------------------------- UTF-16

  function Low16(x: bv32): bv16 {
    (x & 0xFFFF) as bv16
  }

  function High(cp: bv32): bv16 { Low16(0xD800 + ((cp - 0x10000) >> 10)) }
  function Low(cp: bv32): bv16 { Low16(0xDC00 + ((cp - 0x10000) & 0x3FF)) }

  function Units(cp: bv32): seq<bv16> {
    if cp <= 0xFFFF then [Low16(cp)] else [High(cp), Low(cp)]
  }

  predicate IsHigh(u: bv16) { 0xD800 <= u <= 0xDBFF }
  predicate IsLow(u: bv16) { 0xDC00 <= u <= 0xDFFF }

  function HighBits(u: bv16): bv32 { u as bv32 - 0xD800 }
  function LowBits(u: bv16): bv32 { u as bv32 - 0xDC00 }
  function Combined(h: bv32, l: bv32): bv32 { 0x10000 + (h << 10) + l }

  function Pair(high: bv16, low: bv16): bv32 {
    Combined(HighBits(high), LowBits(low))
  }

  lemma HighBack(u: bv16)
    requires IsHigh(u)
    ensures HighBits(u) <= 0x3FF && Low16(0xD800 + HighBits(u)) == u
  {}

  lemma LowBack(u: bv16)
    requires IsLow(u)
    ensures LowBits(u) <= 0x3FF && Low16(0xDC00 + LowBits(u)) == u
  {}

  /** Two ten-bit halves put together and taken apart. */
  lemma Halves(h: bv32, l: bv32)
    requires h <= 0x3FF && l <= 0x3FF
    ensures 0x10000 <= Combined(h, l) <= 0x10FFFF
    ensures (Combined(h, l) - 0x10000) >> 10 == h && (Combined(h, l) - 0x10000) & 0x3FF == l
  {}

  lemma HalfUnit(h: bv32, l: bv32)
    requires h <= 0x3FF && l <= 0x3FF
    ensures High(Combined(h, l)) == Low16(0xD800 + h) && Low(Combined(h, l)) == Low16(0xDC00 + l)
  {
    Halves(h, l);
  }

  lemma TwoUnits(cp: bv32, high: bv16, low: bv16)
    requires cp >= 0x10000 && High(cp) == high && Low(cp) == low
    ensures Units(cp) == [high, low]
  {
  }

  lemma HalfUnits(h: bv32, l: bv32, high: bv16, low: bv16)
    requires h <= 0x3FF && l <= 0x3FF && Low16(0xD800 + h) == high && Low16(0xDC00 + l) == low
    ensures 0x10000 <= Combined(h, l) <= 0x10FFFF && Units(Combined(h, l)) == [high, low]
  {
    Halves(h, l);
    HalfUnit(h, l);
    TwoUnits(Combined(h, l), high, low);
  }

  lemma PairUnits(high: bv16, low: bv16)
    requires IsHigh(high) && IsLow(low)
    ensures 0x10000 <= Pair(high, low) <= 0x10FFFF && Units(Pair(high, low)) == [high, low]
  {
    HighBack(high);
    LowBack(low);
    HalfUnits(HighBits(high), LowBits(low), high, low);
  }

  lemma SingleUnit(u: bv16)
    ensures u as bv32 <= 0xFFFF && Units(u as bv32) == [u]
  {}

  /** The code points that utf16ToUtf8 encodes: surrogate pairs combined, unpaired surrogates as they are. */
  function Points(units: seq<bv16>): (points: seq<bv32>)
  {
    if units == [] then []
    else if IsHigh(units[0]) && |units| > 1 && IsLow(units[1]) then [Pair(units[0], units[1])] + Points(units[2..])
    else [units[0] as bv32] + Points(units[1..])
  }

  function Utf16Of(s: seq<bv8>): seq<bv16> {
    if s == [] then []
    else
      var n := CharLength(s[0]);
      if n == 0 || n > |s| then Utf16Of(s[1..]) else Units(PointOf(s)) + Utf16Of(s[n..])
  }

  ghost function AllUnits(points: seq<bv32>): seq<bv16> {
    if points == [] then [] else Units(points[0]) + AllUnits(points[1..])
  }

  lemma {:induction false} Utf16OfEncoded(points: seq<bv32>)
    requires forall i :: 0 <= i < |points| ==> points[i] < 0x200000
    ensures Utf16Of(Utf8Of(points)) == AllUnits(points)
  {
    if points != [] {
      HeadOfEncoded(points[0], Utf8Of(points[1..]));
      Utf16OfEncoded(points[1..]);
    }
  }

  lemma AllUnitsCons(cp: bv32, points: seq<bv32>)
    ensures AllUnits([cp] + points) == Units(cp) + AllUnits(points)
  {
    assert ([cp] + points)[1..] == points;
  }

  /** One step of decoding units: the code point in front and how many units it takes. */
  lemma PointsCons(units: seq<bv16>) returns (cp: bv32, n: nat)
    requires units != []
    ensures 1 <= n <= |units| && Points(units) == [cp] + Points(units[n..])
    ensures cp <= 0x10FFFF && Units(cp) == units[..n]
  {
    if IsHigh(units[0]) && |units| > 1 && IsLow(units[1]) {
      PairUnits(units[0], units[1]);
      cp, n := Pair(units[0], units[1]), 2;
    } else {
      SingleUnit(units[0]);
      cp, n := units[0] as bv32, 1;
    }
  }

  lemma {:induction false} UnitsOfPoints(units: seq<bv16>)
    ensures AllUnits(Points(units)) == units
    ensures forall i :: 0 <= i < |Points(units)| ==> Points(units)[i] <= 0x10FFFF
  {
    if units != [] {
      var cp, n := PointsCons(units);
      UnitsOfPoints(units[n..]);
      AllUnitsCons(cp, Points(units[n..]));
      assert units == units[..n] + units[n..];
    }
  }

  /** A whole number of characters, by the announced lengths. */
  ghost predicate Whole(s: seq<bv8>) {
    s == [] || (0 < CharLength(s[0]) <= |s| && Whole(s[CharLength(s[0])..]))
  }

  lemma {:induction false} ValidIsWhole(s: seq<bv8>)
    requires ValidUtf8(s)
    ensures Whole(s)
  {
    if s != [] { ValidIsWhole(s[CharLength(s[0])..]); }
  }

  lemma HeadLocal(s: seq<bv8>, more: seq<bv8>, n: nat)
    requires s != [] && 0 < CharLength(s[0]) == n <= |s|
    ensures Utf16Of(s + more) == Units(PointOf(s)) + Utf16Of(s[n..] + more)
  {
    var all := s + more;
    assert all[n..] == s[n..] + more && all[0] == s[0];
    assert forall i :: 0 <= i < n ==> At(all, i) == At(s, i);
  }

  /** utf8ToUtf16 converts whole characters as utf8ToUtf32 does, and goes on behind them with whatever follows. */
  lemma {:induction false} Utf16Resumes(s: seq<bv8>, more: seq<bv8>)
    requires Whole(s)
    ensures Utf32Of(s).Text? && Utf16Of(s + more) == AllUnits(Utf32Of(s).points) + Utf16Of(more)
  {
    if s == [] {
      assert s + more == more;
    } else {
      var n := CharLength(s[0]);
      Utf16Resumes(s[n..], more);
      HeadLocal(s, more, n);
      Utf16OneMore(PointOf(s), Utf32Of(s[n..]).points, Utf16Of(more), Utf16Of(s[n..] + more));
    }
  }

  lemma Utf16OneMore(cp: bv32, points: seq<bv32>, more: seq<bv16>, rest: seq<bv16>)
    requires rest == AllUnits(points) + more
    ensures Units(cp) + rest == AllUnits([cp] + points) + more
  {
    AllUnitsCons(cp, points);
  }

  /** A byte that cannot lead, or whose character does not fit in what is left, is dropped. */
  lemma Utf16Skips(s: seq<bv8>, c: bv8, more: seq<bv8>)
    requires Whole(s) && (CharLength(c) == 0 || CharLength(c) > |more| + 1)
    ensures Utf16Of(s + ([c] + more)) == Utf16Of(s) + Utf16Of(more)
  {
    Utf16Drops(c, more);
    Utf16Split(s, [c] + more);
  }

  /** Whole characters do not depend on what follows. */
  lemma Utf16Split(s: seq<bv8>, more: seq<bv8>)
    requires Whole(s)
    ensures Utf16Of(s + more) == Utf16Of(s) + Utf16Of(more)
  {
    var none: seq<bv8> := [];
    assert Utf16Of(s) == AllUnits(Utf32Of(s).points) by {
      Utf16Resumes(s, none);
      assert s + none == s;
    }
    Utf16Resumes(s, more);
  }

  lemma Utf16Drops(c: bv8, more: seq<bv8>)
    requires CharLength(c) == 0 || CharLength(c) > |more| + 1
    ensures Utf16Of([c] + more) == Utf16Of(more)
  {
    assert ([c] + more)[1..] == more;
  }

  /** UTF-16 survives the way to UTF-8 and back, unpaired surrogates included (sections 2.1 and 2.2 of RFC 2781). */
  lemma Utf16RoundTrip(units: seq<bv16>)
    ensures Utf16Of(Utf8Of(Points(units))) == units
    ensures ValidUtf8(Utf8Of(Points(units))) && CharCount(Utf8Of(Points(units))) == |Points(units)|
  {
    UnitsOfPoints(units);
    Utf16OfEncoded(Points(units));
    EncodedIsValid(Points(units));
  }

  // ---------------------------------------------------------------- the converters

  lemma Assoc<T>(a: seq<T>, b: seq<T>, c: seq<T>)
    ensures a + (b + c) == (a + b) + c
  {}

  method EncodeUtf8Char(text: seq<bv8>, cp: bv32) returns (result: seq<bv8>)
    ensures result == text + Encode(cp)
  {
    result := text;
    if cp < 0x80 {
      result := result + [Low8(cp)];
    } else if cp < 0x800 {
      result := result + [Low8(0xC0 | (cp >> 6))];
      result := result + [Low8(0x80 | (cp & 0x3F))];
    } else if cp < 0x10000 {
      result := result + [Low8(0xE0 | (cp >> 12))];
      result := result + [Low8(0x80 | ((cp >> 6) & 0x3F))];
      result := result + [Low8(0x80 | (cp & 0x3F))];
    } else {
      result := result + [Low8(0xF0 | (cp >> 18))];
      result := result + [Low8(0x80 | ((cp >> 12) & 0x3F))];
      result := result + [Low8(0x80 | ((cp >> 6) & 0x3F))];
      result := result + [Low8(0x80 | (cp & 0x3F))];
    }
  }

  method Utf32ToUtf8(utf32: seq<bv32>) returns (result: seq<bv8>)
    ensures result == Utf8Of(utf32)
  {
    result := [];
    for i := 0 to |utf32|
      invariant result + Utf8Of(utf32[i..]) == Utf8Of(utf32)
    {
      assert utf32[i..][1..] == utf32[i + 1..];
      Assoc(result, Encode(utf32[i]), Utf8Of(utf32[i + 1..]));
      result := EncodeUtf8Char(result, utf32[i]);
    }
  }

  method Utf16ToUtf8(utf16: seq<bv16>) returns (result: seq<bv8>)
    ensures result == Utf8Of(Points(utf16))
  {
    result := [];
    var i := 0;
    while i < |utf16|
      invariant i <= |utf16|
      invariant result + Utf8Of(Points(utf16[i..])) == Utf8Of(Points(utf16))
    {
      var codepoint, next := CodePointAt(utf16, i);
      Assoc(result, Encode(codepoint), Utf8Of(Points(utf16[next..])));
      result := EncodeUtf8Char(result, codepoint);
      i := next;
    }
  }

  /** A code point and where the next one starts. */
  method CodePointAt(utf16: seq<bv16>, i: nat) returns (codepoint: bv32, next: nat)
    requires i < |utf16|
    ensures i < next <= |utf16|
    ensures Utf8Of(Points(utf16[i..])) == Encode(codepoint) + Utf8Of(Points(utf16[next..]))
  {
    PointsStep(utf16, i);
    codepoint, next := utf16[i] as bv32, i + 1;
    if IsHigh(utf16[i]) && i + 1 < |utf16| {
      var low := utf16[i + 1];
      if IsLow(low) { codepoint, next := Pair(utf16[i], low), i + 2; }
    }
  }

  predicate PairAt(utf16: seq<bv16>, i: nat)
    requires i < |utf16|
  {
    IsHigh(utf16[i]) && i + 1 < |utf16| && IsLow(utf16[i + 1])
  }

  lemma PointsStep(utf16: seq<bv16>, i: nat)
    requires i < |utf16|
    ensures PairAt(utf16, i) ==>
              Utf8Of(Points(utf16[i..])) == Encode(Pair(utf16[i], utf16[i + 1])) + Utf8Of(Points(utf16[i + 2..]))
    ensures !PairAt(utf16, i) ==>
              Utf8Of(Points(utf16[i..])) == Encode(utf16[i] as bv32) + Utf8Of(Points(utf16[i + 1..]))
  {
    var units := utf16[i..];
    if PairAt(utf16, i) {
      assert units[2..] == utf16[i + 2..];
      Utf8OfCons(Pair(utf16[i], utf16[i + 1]), Points(utf16[i + 2..]));
    } else {
      assert units[1..] == utf16[i + 1..];
      Utf8OfCons(utf16[i] as bv32, Points(utf16[i + 1..]));
    }
  }

  lemma Utf8OfCons(cp: bv32, points: seq<bv32>)
    ensures Utf8Of([cp] + points) == Encode(cp) + Utf8Of(points)
  {
    assert ([cp] + points)[1..] == points;
  }

  method Utf8ToUtf16(utf8: seq<bv8>) returns (result: seq<bv16>)
    ensures result == Utf16Of(utf8)
  {
    result := [];
    var i := 0;
    while i < |utf8|
      invariant i <= |utf8|
      invariant result + Utf16Of(utf8[i..]) == Utf16Of(utf8)
    {
      result, i := ConvertChar(utf8, i, result);
    }
  }

  /** One turn of the loop: a complete character is converted, any other byte skipped. */
  method ConvertChar(utf8: seq<bv8>, i: nat, units: seq<bv16>) returns (result: seq<bv16>, next: nat)
    requires i < |utf8|
    ensures i < next <= |utf8| && result + Utf16Of(utf8[next..]) == units + Utf16Of(utf8[i..])
  {
    var ok, codepoint;
    ok, codepoint, next := CharAt(utf8, i);
    Assoc(units, if ok then Units(codepoint) else [], Utf16Of(utf8[next..]));
    result := units;
    if ok { result := PushUnits(result, codepoint); }
  }

  /** A complete character and where the next one starts, or one byte to skip. */
  method CharAt(utf8: seq<bv8>, i: nat) returns (ok: bool, codepoint: bv32, next: nat)
    requires i < |utf8|
    ensures i < next <= |utf8|
    ensures Utf16Of(utf8[i..]) == (if ok then Units(codepoint) else []) + Utf16Of(utf8[next..])
  {
    Utf16Step(utf8, i);
    ok, codepoint := CompleteChar(utf8, i);
    next := if ok then i + CharLength(utf8[i]) else i + 1;
  }

  /** Whether the announced bytes are all there, and the code point they spell. */
  method CompleteChar(utf8: seq<bv8>, i: nat) returns (ok: bool, codepoint: bv32)
    requires i < |utf8|
    ensures ok == (0 < CharLength(utf8[i]) <= |utf8| - i)
    ensures ok ==> codepoint == PointOf(utf8[i..])
  {
    var len := CharLength(utf8[i]);
    if len == 1 {
      return true, utf8[i] as bv32;
    } else if len == 2 && i + 1 < |utf8| {
      return true, Point2(utf8[i], utf8[i + 1]);
    } else if len == 3 && i + 2 < |utf8| {
      return true, Point3(utf8[i], utf8[i + 1], utf8[i + 2]);
    } else if len == 4 && i + 3 < |utf8| {
      return true, Point4(utf8[i], utf8[i + 1], utf8[i + 2], utf8[i + 3]);
    } else {
      return false, 0;
    }
  }

  method PushUnits(units: seq<bv16>, codepoint: bv32) returns (result: seq<bv16>)
    ensures result == units + Units(codepoint)
  {
    if codepoint <= 0xFFFF {
      result := units + [Low16(codepoint)];
    } else {
      result := units + [High(codepoint)];
      result := result + [Low(codepoint)];
    }
  }

  lemma Utf16Step(s: seq<bv8>, i: nat)
    requires i < |s|
    ensures var n := CharLength(s[i]);
            Utf16Of(s[i..]) == if n == 0 || i + n > |s| then Utf16Of(s[i + 1..]) else Units(PointOf(s[i..])) + Utf16Of(s[i + n..])
  {
    var n := CharLength(s[i]);
    assert s[i..][1..] == s[i + 1..];
    if i + n <= |s| { assert s[i..][n..] == s[i + n..]; }
  }

  method Utf8ToUtf32(utf8: seq<bv8>) returns (outcome: Outcome)
    ensures outcome == Utf32Of(utf8)
  {
    var result: seq<bv32> := [];
    var i := 0;
    while i < |utf8|
      invariant i <= |utf8|
      invariant Utf32Of(utf8) == Appended(result, Utf32Of(utf8[i..]))
    {
      var len := CharLength(utf8[i]);
      if len == 0 { return Diverges; }
      if i + len > |utf8| + 1 { return ReadsPastEnd; }
      var cp := PointOf(utf8[i..]);
      if i + len > |utf8| { return Text(result + [cp]); }
      AppendedStep(result, cp, Utf32Of(utf8[i + len..]));
      assert utf8[i..][len..] == utf8[i + len..];
      result := result + [cp];
      i := i + len;
    }
    outcome := Text(result);
  }

  ghost function Appended(points: seq<bv32>, rest: Outcome): Outcome {
    match rest
    case Text(more) => Text(points + more)
    case _ => rest
  }

  lemma AppendedStep(points: seq<bv32>, cp: bv32, rest: Outcome)
    ensures Appended(points, Prefixed(cp, rest)) == Appended(points + [cp], rest)
  {
    if rest.Text? { assert points + ([cp] + rest.points) == (points + [cp]) + rest.points; }
  }

  method IsValidUtf8(s: seq<bv8>) returns (valid: bool)
    ensures valid == ValidUtf8(s)
  {
    var i := 0;
    while i < |s|
      invariant i <= |s|
      invariant ValidUtf8(s[i..]) == ValidUtf8(s)
    {
      var len := CharLength(s[i]);
      if len == 0 || i + len > |s| { return false; }
      var j := 1;
      while j < len
        invariant 1 <= j <= len
        invariant forall k :: 1 <= k < j ==> Continues(s[i..][k])
      {
        if s[i + j] & 0xC0 != 0x80 {
          assert !Continues(s[i..][j]);
          return false;
        }
        j := j + 1;
      }
      assert s[i..][len..] == s[i + len..];
      i := i + len;
    }
    return true;
  }

  method Utf8CharCount(s: seq<bv8>) returns (count: nat)
    ensures count == CharCount(s)
  {
    count := 0;
    var i := 0;
    while i < |s|
      invariant count + (if i < |s| then CharCount(s[i..]) else 0) == CharCount(s)
      decreases |s| - i
    {
      var len := CharLength(s[i]);
      if len == 0 { break; }
      if i + len <= |s| { assert s[i..][len..] == s[i + len..]; }
      i := i + len;
      count := count + 1;
    }
  }
}
