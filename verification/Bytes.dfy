/** Little-endian integers in byte strings: the packed headers of include/darwincore/network/protocol.h. */
module Bytes {

  type byte = bv8

  function Power256(k: nat): (p: nat)
    ensures p > 0
  {
    if k == 0 then 1 else 256 * Power256(k - 1)
  }

  lemma Widths()
    ensures Power256(2) == 0x1_0000 && Power256(4) == 0x1_0000_0000 && Power256(8) == 0x1_0000_0000_0000_0000
  {
    assert Power256(3) == 256 * Power256(2);
    assert Power256(4) == 256 * Power256(3);
    assert Power256(5) == 256 * Power256(4);
    assert Power256(6) == 256 * Power256(5);
    assert Power256(7) == 256 * Power256(6);
    assert Power256(8) == 256 * Power256(7);
  }

  /** The number of a half-byte. */
  function NumberOfHalf(h: byte): nat {
    match h
    case 0 => 0 case 1 => 1 case 2 => 2 case 3 => 3 case 4 => 4 case 5 => 5 case 6 => 6 case 7 => 7
    case 8 => 8 case 9 => 9 case 10 => 10 case 11 => 11 case 12 => 12 case 13 => 13 case 14 => 14 case _ => 15
  }

  /** The half-byte of a number. */
  function HalfOf(n: nat): byte {
    match n
    case 0 => 0 case 1 => 1 case 2 => 2 case 3 => 3 case 4 => 4 case 5 => 5 case 6 => 6 case 7 => 7
    case 8 => 8 case 9 => 9 case 10 => 10 case 11 => 11 case 12 => 12 case 13 => 13 case 14 => 14 case _ => 15
  }

  lemma HalfRoundTrip(n: nat)
    requires n < 16
    ensures HalfOf(n) < 16 && NumberOfHalf(HalfOf(n)) == n
  {
  }

  function NumberOf(b: byte): nat {
    16 * NumberOfHalf(b >> 4) + NumberOfHalf(b & 0xF)
  }

  function ByteOf(m: nat): byte {
    (HalfOf(m / 16) << 4) | HalfOf(m % 16)
  }

  lemma Halves(h: byte, l: byte)
    requires h < 16 && l < 16
    ensures ((h << 4) | l) >> 4 == h && ((h << 4) | l) & 0xF == l
  {
  }

  lemma NumberOfByteOf(m: nat)
    requires m < 256
    ensures NumberOf(ByteOf(m)) == m
  {
    HalfRoundTrip(m / 16);
    HalfRoundTrip(m % 16);
    Halves(HalfOf(m / 16), HalfOf(m % 16));
  }

  /** The k low bytes of n, lowest first. */
  function LittleEndian(n: nat, k: nat): (s: seq<byte>)
    ensures |s| == k
    decreases k, n
  {
    if k == 0 then [] else [ByteOf(n % 256)] + LittleEndian(n / 256, k - 1)
  }

  function Value(s: seq<byte>): nat
    decreases |s|
  {
    if s == [] then 0 else NumberOf(s[0]) + 256 * Value(s[1..])
  }

  /** An unsigned field that fits its width survives being stored and loaded. */
  lemma {:induction false} LoadStored(n: nat, k: nat)
    requires n < Power256(k)
    ensures Value(LittleEndian(n, k)) == n
    decreases k
  {
    if k > 0 {
      LoadStored(n / 256, k - 1);
      NumberOfByteOf(n % 256);
      assert LittleEndian(n, k)[1..] == LittleEndian(n / 256, k - 1);
    }
  }

  lemma HalfLoaded(h: byte)
    requires h < 16
    ensures NumberOfHalf(h) < 16 && HalfOf(NumberOfHalf(h)) == h
  {
  }

  lemma Rejoined(b: byte)
    ensures b >> 4 < 16 && b & 0xF < 16 && ((b >> 4) << 4) | (b & 0xF) == b
  {
  }

  lemma ByteOfHalves(x: nat, y: nat, h: byte, l: byte, b: byte)
    requires x < 16 && y < 16 && HalfOf(x) == h && HalfOf(y) == l && (h << 4) | l == b
    ensures ByteOf(16 * x + y) == b
  {
    assert (16 * x + y) / 16 == x && (16 * x + y) % 16 == y;
  }

  lemma ByteOfNumberOf(b: byte)
    ensures NumberOf(b) < 256 && ByteOf(NumberOf(b)) == b
  {
    var h, l := b >> 4, b & 0xF;
    assert h < 16 && l < 16 && (h << 4) | l == b by { Rejoined(b); }
    assert NumberOfHalf(h) < 16 && HalfOf(NumberOfHalf(h)) == h by { HalfLoaded(h); }
    assert NumberOfHalf(l) < 16 && HalfOf(NumberOfHalf(l)) == l by { HalfLoaded(l); }
    ByteOfHalves(NumberOfHalf(h), NumberOfHalf(l), h, l, b);
  }

  /** Any bytes are the little-endian form of the number that they load. */
  lemma {:induction false} StoreLoaded(s: seq<byte>)
    ensures Value(s) < Power256(|s|) && LittleEndian(Value(s), |s|) == s
    decreases |s|
  {
    if s != [] {
      ByteOfNumberOf(s[0]);
      StoreLoaded(s[1..]);
      assert Value(s) % 256 == NumberOf(s[0]) && Value(s) / 256 == Value(s[1..]);
    }
  }

  lemma Fields16(n: nat)
    requires n < 0x1_0000
    ensures Value(LittleEndian(n, 2)) == n
  {
    Widths();
    LoadStored(n, 2);
  }

  lemma Fields32(n: nat)
    requires n < 0x1_0000_0000
    ensures Value(LittleEndian(n, 4)) == n
  {
    Widths();
    LoadStored(n, 4);
  }

  lemma Fields64(n: nat)
    requires n < 0x1_0000_0000_0000_0000
    ensures Value(LittleEndian(n, 8)) == n
  {
    Widths();
    LoadStored(n, 8);
  }
}
