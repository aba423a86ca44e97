/**
 CalculateCRC32 (src/darwincore/network/protocol.cpp): the table-driven CRC against the
 bit-by-bit shift register with the reflected polynomial 0xEDB88320 (section 8 of RFC 1952),
 and what the register detects.
 */
module Crc32 {

  type byte = bv8

  // ---------------------------------------------------------------- the shift register

  const POLY: bv32 := 0xEDB8_8320
  const ONES: bv32 := 0xFFFF_FFFF

  function ShiftBit(c: bv32): bv32 {
    if c & 1 == 1 then (c >> 1) ^ POLY else c >> 1
  }

  function Eight(f: bv32 -> bv32, c: bv32): bv32 {
    f(f(f(f(f(f(f(f(c))))))))
  }

  function Shift8(c: bv32): bv32 {
    Eight(ShiftBit, c)
  }

  /** One byte xored into the low end of the register and shifted out bit by bit. */
  function Update(c: bv32, b: byte): bv32 {
    Shift8(c ^ (b as bv32))
  }

  function Fold<W, B>(step: (W, B) -> W, c: W, s: seq<B>): W
    decreases |s|
  {
    if s == [] then c else Fold(step, step(c, s[0]), s[1..])
  }

  function CrcWith(step: (bv32, byte) -> bv32, s: seq<byte>): bv32 {
    Fold(step, ONES, s) ^ ONES
  }

  /** The CRC of the bit-by-bit register. */
  function Crc(s: seq<byte>): bv32 {
    CrcWith(Update, s)
  }

  // ---------------------------------------------------------------- the lookup table

  function Row0(i: bv8): (r: bv32)
    ensures i < 16 ==> r == Shift8((0x00 | i) as bv32)
  {
    match i
    case 0 => 0x00000000 case 1 => 0x77073096 case 2 => 0xee0e612c case 3 => 0x990951ba
    case 4 => 0x076dc419 case 5 => 0x706af48f case 6 => 0xe963a535 case 7 => 0x9e6495a3
    case 8 => 0x0edb8832 case 9 => 0x79dcb8a4 case 10 => 0xe0d5e91e case 11 => 0x97d2d988
    case 12 => 0x09b64c2b case 13 => 0x7eb17cbd case 14 => 0xe7b82d07 case _ => 0x90bf1d91
  }

  function Row1(i: bv8): (r: bv32)
    ensures i < 16 ==> r == Shift8((0x10 | i) as bv32)
  {
    match i
    case 0 => 0x1db71064 case 1 => 0x6ab020f2 case 2 => 0xf3b97148 case 3 => 0x84be41de
    case 4 => 0x1adad47d case 5 => 0x6ddde4eb case 6 => 0xf4d4b551 case 7 => 0x83d385c7
    case 8 => 0x136c9856 case 9 => 0x646ba8c0 case 10 => 0xfd62f97a case 11 => 0x8a65c9ec
    case 12 => 0x14015c4f case 13 => 0x63066cd9 case 14 => 0xfa0f3d63 case _ => 0x8d080df5
  }

  function Row2(i: bv8): (r: bv32)
    ensures i < 16 ==> r == Shift8((0x20 | i) as bv32)
  {
    match i
    case 0 => 0x3b6e20c8 case 1 => 0x4c69105e case 2 => 0xd56041e4 case 3 => 0xa2677172
    case 4 => 0x3c03e4d1 case 5 => 0x4b04d447 case 6 => 0xd20d85fd case 7 => 0xa50ab56b
    case 8 => 0x35b5a8fa case 9 => 0x42b2986c case 10 => 0xdbbbc9d6 case 11 => 0xacbcf940
    case 12 => 0x32d86ce3 case 13 => 0x45df5c75 case 14 => 0xdcd60dcf case _ => 0xabd13d59
  }

  function Row3(i: bv8): (r: bv32)
    ensures i < 16 ==> r == Shift8((0x30 | i) as bv32)
  {
    match i
    case 0 => 0x26d930ac case 1 => 0x51de003a case 2 => 0xc8d75180 case 3 => 0xbfd06116
    case 4 => 0x21b4f4b5 case 5 => 0x56b3c423 case 6 => 0xcfba9599 case 7 => 0xb8bda50f
    case 8 => 0x2802b89e case 9 => 0x5f058808 case 10 => 0xc60cd9b2 case 11 => 0xb10be924
    case 12 => 0x2f6f7c87 case 13 => 0x58684c11 case 14 => 0xc1611dab case _ => 0xb6662d3d
  }

  function Row4(i: bv8): (r: bv32)
    ensures i < 16 ==> r == Shift8((0x40 | i) as bv32)
  {
    match i
    case 0 => 0x76dc4190 case 1 => 0x01db7106 case 2 => 0x98d220bc case 3 => 0xefd5102a
    case 4 => 0x71b18589 case 5 => 0x06b6b51f case 6 => 0x9fbfe4a5 case 7 => 0xe8b8d433
    case 8 => 0x7807c9a2 case 9 => 0x0f00f934 case 10 => 0x9609a88e case 11 => 0xe10e9818
    case 12 => 0x7f6a0dbb case 13 => 0x086d3d2d case 14 => 0x91646c97 case _ => 0xe6635c01
  }

  function Row5(i: bv8): (r: bv32)
    ensures i < 16 ==> r == Shift8((0x50 | i) as bv32)
  {
    match i
    case 0 => 0x6b6b51f4 case 1 => 0x1c6c6162 case 2 => 0x856530d8 case 3 => 0xf262004e
    case 4 => 0x6c0695ed case 5 => 0x1b01a57b case 6 => 0x8208f4c1 case 7 => 0xf50fc457
    case 8 => 0x65b0d9c6 case 9 => 0x12b7e950 case 10 => 0x8bbeb8ea case 11 => 0xfcb9887c
    case 12 => 0x62dd1ddf case 13 => 0x15da2d49 case 14 => 0x8cd37cf3 case _ => 0xfbd44c65
  }

  function Row6(i: bv8): (r: bv32)
    ensures i < 16 ==> r == Shift8((0x60 | i) as bv32)
  {
    match i
    case 0 => 0x4db26158 case 1 => 0x3ab551ce case 2 => 0xa3bc0074 case 3 => 0xd4bb30e2
    case 4 => 0x4adfa541 case 5 => 0x3dd895d7 case 6 => 0xa4d1c46d case 7 => 0xd3d6f4fb
    case 8 => 0x4369e96a case 9 => 0x346ed9fc case 10 => 0xad678846 case 11 => 0xda60b8d0
    case 12 => 0x44042d73 case 13 => 0x33031de5 case 14 => 0xaa0a4c5f case _ => 0xdd0d7cc9
  }

  function Row7(i: bv8): (r: bv32)
    ensures i < 16 ==> r == Shift8((0x70 | i) as bv32)
  {
    match i
    case 0 => 0x5005713c case 1 => 0x270241aa case 2 => 0xbe0b1010 case 3 => 0xc90c2086
    case 4 => 0x5768b525 case 5 => 0x206f85b3 case 6 => 0xb966d409 case 7 => 0xce61e49f
    case 8 => 0x5edef90e case 9 => 0x29d9c998 case 10 => 0xb0d09822 case 11 => 0xc7d7a8b4
    case 12 => 0x59b33d17 case 13 => 0x2eb40d81 case 14 => 0xb7bd5c3b case _ => 0xc0ba6cad
  }

  function Row8(i: bv8): (r: bv32)
    ensures i < 16 ==> r == Shift8((0x80 | i) as bv32)
  {
    match i
    case 0 => 0xedb88320 case 1 => 0x9abfb3b6 case 2 => 0x03b6e20c case 3 => 0x74b1d29a
    case 4 => 0xead54739 case 5 => 0x9dd277af case 6 => 0x04db2615 case 7 => 0x73dc1683
    case 8 => 0xe3630b12 case 9 => 0x94643b84 case 10 => 0x0d6d6a3e case 11 => 0x7a6a5aa8
    case 12 => 0xe40ecf0b case 13 => 0x9309ff9d case 14 => 0x0a00ae27 case _ => 0x7d079eb1
  }

  function Row9(i: bv8): (r: bv32)
    ensures i < 16 ==> r == Shift8((0x90 | i) as bv32)
  {
    match i
    case 0 => 0xf00f9344 case 1 => 0x8708a3d2 case 2 => 0x1e01f268 case 3 => 0x6906c2fe
    case 4 => 0xf762575d case 5 => 0x806567cb case 6 => 0x196c3671 case 7 => 0x6e6b06e7
    case 8 => 0xfed41b76 case 9 => 0x89d32be0 case 10 => 0x10da7a5a case 11 => 0x67dd4acc
    case 12 => 0xf9b9df6f case 13 => 0x8ebeeff9 case 14 => 0x17b7be43 case _ => 0x60b08ed5
  }

  function RowA(i: bv8): (r: bv32)
    ensures i < 16 ==> r == Shift8((0xA0 | i) as bv32)
  {
    match i
    case 0 => 0xd6d6a3e8 case 1 => 0xa1d1937e case 2 => 0x38d8c2c4 case 3 => 0x4fdff252
    case 4 => 0xd1bb67f1 case 5 => 0xa6bc5767 case 6 => 0x3fb506dd case 7 => 0x48b2364b
    case 8 => 0xd80d2bda case 9 => 0xaf0a1b4c case 10 => 0x36034af6 case 11 => 0x41047a60
    case 12 => 0xdf60efc3 case 13 => 0xa867df55 case 14 => 0x316e8eef case _ => 0x4669be79
  }

  function RowB(i: bv8): (r: bv32)
    ensures i < 16 ==> r == Shift8((0xB0 | i) as bv32)
  {
    match i
    case 0 => 0xcb61b38c case 1 => 0xbc66831a case 2 => 0x256fd2a0 case 3 => 0x5268e236
    case 4 => 0xcc0c7795 case 5 => 0xbb0b4703 case 6 => 0x220216b9 case 7 => 0x5505262f
    case 8 => 0xc5ba3bbe case 9 => 0xb2bd0b28 case 10 => 0x2bb45a92 case 11 => 0x5cb36a04
    case 12 => 0xc2d7ffa7 case 13 => 0xb5d0cf31 case 14 => 0x2cd99e8b case _ => 0x5bdeae1d
  }

  function RowC(i: bv8): (r: bv32)
    ensures i < 16 ==> r == Shift8((0xC0 | i) as bv32)
  {
    match i
    case 0 => 0x9b64c2b0 case 1 => 0xec63f226 case 2 => 0x756aa39c case 3 => 0x026d930a
    case 4 => 0x9c0906a9 case 5 => 0xeb0e363f case 6 => 0x72076785 case 7 => 0x05005713
    case 8 => 0x95bf4a82 case 9 => 0xe2b87a14 case 10 => 0x7bb12bae case 11 => 0x0cb61b38
    case 12 => 0x92d28e9b case 13 => 0xe5d5be0d case 14 => 0x7cdcefb7 case _ => 0x0bdbdf21
  }

  function RowD(i: bv8): (r: bv32)
    ensures i < 16 ==> r == Shift8((0xD0 | i) as bv32)
  {
    match i
    case 0 => 0x86d3d2d4 case 1 => 0xf1d4e242 case 2 => 0x68ddb3f8 case 3 => 0x1fda836e
    case 4 => 0x81be16cd case 5 => 0xf6b9265b case 6 => 0x6fb077e1 case 7 => 0x18b74777
    case 8 => 0x88085ae6 case 9 => 0xff0f6a70 case 10 => 0x66063bca case 11 => 0x11010b5c
    case 12 => 0x8f659eff case 13 => 0xf862ae69 case 14 => 0x616bffd3 case _ => 0x166ccf45
  }

  function RowE(i: bv8): (r: bv32)
    ensures i < 16 ==> r == Shift8((0xE0 | i) as bv32)
  {
    match i
    case 0 => 0xa00ae278 case 1 => 0xd70dd2ee case 2 => 0x4e048354 case 3 => 0x3903b3c2
    case 4 => 0xa7672661 case 5 => 0xd06016f7 case 6 => 0x4969474d case 7 => 0x3e6e77db
    case 8 => 0xaed16a4a case 9 => 0xd9d65adc case 10 => 0x40df0b66 case 11 => 0x37d83bf0
    case 12 => 0xa9bcae53 case 13 => 0xdebb9ec5 case 14 => 0x47b2cf7f case _ => 0x30b5ffe9
  }

  function RowF(i: bv8): (r: bv32)
    ensures i < 16 ==> r == Shift8((0xF0 | i) as bv32)
  {
    match i
    case 0 => 0xbdbdf21c case 1 => 0xcabac28a case 2 => 0x53b39330 case 3 => 0x24b4a3a6
    case 4 => 0xbad03605 case 5 => 0xcdd70693 case 6 => 0x54de5729 case 7 => 0x23d967bf
    case 8 => 0xb3667a2e case 9 => 0xc4614ab8 case 10 => 0x5d681b02 case 11 => 0x2a6f2b94
    case 12 => 0xb40bbe37 case 13 => 0xc30c8ea1 case 14 => 0x5a05df1b case _ => 0x2d02ef8d
  }

  /** CRC_TABLE of the source, sixteen entries a row. */
  function CrcTable(i: bv8): bv32 {
    var lo := i & 0xF;
    match i >> 4
    case 0 => Row0(lo) case 1 => Row1(lo) case 2 => Row2(lo) case 3 => Row3(lo)
    case 4 => Row4(lo) case 5 => Row5(lo) case 6 => Row6(lo) case 7 => Row7(lo)
    case 8 => Row8(lo) case 9 => Row9(lo) case 10 => RowA(lo) case 11 => RowB(lo)
    case 12 => RowC(lo) case 13 => RowD(lo) case 14 => RowE(lo) case _ => RowF(lo)
  }

  lemma Nibbles(i: bv8)
    ensures i & 0xF < 16 && i >> 4 < 16 && ((i >> 4) << 4) | (i & 0xF) == i
  {
  }

  /** Every table entry is its index shifted out of the register. */
  lemma TableIsShift(i: bv8)
    ensures CrcTable(i) == Shift8(i as bv32)
  {
    Nibbles(i);
    var lo := i & 0xF;
    match i >> 4
    case 0 => assert i == 0x00 | lo && CrcTable(i) == Row0(lo);
    case 1 => assert i == 0x10 | lo && CrcTable(i) == Row1(lo);
    case 2 => assert i == 0x20 | lo && CrcTable(i) == Row2(lo);
    case 3 => assert i == 0x30 | lo && CrcTable(i) == Row3(lo);
    case 4 => assert i == 0x40 | lo && CrcTable(i) == Row4(lo);
    case 5 => assert i == 0x50 | lo && CrcTable(i) == Row5(lo);
    case 6 => assert i == 0x60 | lo && CrcTable(i) == Row6(lo);
    case 7 => assert i == 0x70 | lo && CrcTable(i) == Row7(lo);
    case 8 => assert i == 0x80 | lo && CrcTable(i) == Row8(lo);
    case 9 => assert i == 0x90 | lo && CrcTable(i) == Row9(lo);
    case 10 => assert i == 0xA0 | lo && CrcTable(i) == RowA(lo);
    case 11 => assert i == 0xB0 | lo && CrcTable(i) == RowB(lo);
    case 12 => assert i == 0xC0 | lo && CrcTable(i) == RowC(lo);
    case 13 => assert i == 0xD0 | lo && CrcTable(i) == RowD(lo);
    case 14 => assert i == 0xE0 | lo && CrcTable(i) == RowE(lo);
    case _ => assert i == 0xF0 | lo && CrcTable(i) == RowF(lo);
  }

  // ---------------------------------------------------------------- the register is linear

  lemma XorShift(a: bv32, b: bv32)
    ensures (a ^ b) >> 1 == (a >> 1) ^ (b >> 1)
  {
  }

  lemma XorLowBit(a: bv32, b: bv32)
    ensures ((a ^ b) & 1 == 1) == ((a & 1 == 1) != (b & 1 == 1))
  {
  }

  lemma XorCancel(x: bv32, y: bv32, p: bv32)
    ensures (x ^ p) ^ (y ^ p) == x ^ y && (x ^ p) ^ y == (x ^ y) ^ p && x ^ (y ^ p) == (x ^ y) ^ p
  {
  }

  lemma ShiftBitXor(a: bv32, b: bv32)
    ensures ShiftBit(a ^ b) == ShiftBit(a) ^ ShiftBit(b)
  {
    XorShift(a, b);
    XorLowBit(a, b);
    XorCancel(a >> 1, b >> 1, POLY);
  }

  function Xor(a: bv32, b: bv32): bv32 { a ^ b }
  function Up1(y: bv32): bv32 { y << 1 }
  function Up8(y: bv32): bv32 { y << 8 }

  ghost predicate Linear(f: bv32 -> bv32) {
    forall a, b :: f(Xor(a, b)) == Xor(f(a), f(b))
  }

  ghost predicate Undoes(g: bv32 -> bv32, f: bv32 -> bv32) {
    forall c :: g(f(c)) == c
  }

  /** What the four-byte argument needs of eight shifts: they lose nothing and just move zero-padded bytes down. */
  ghost predicate ByteShift(f: bv32 -> bv32, g: bv32 -> bv32) {
    Linear(f) && Undoes(g, f) && forall p :: p < 0x100_0000 ==> f(Up8(p)) == p
  }

  lemma EightLinear(f: bv32 -> bv32, a: bv32, b: bv32)
    requires Linear(f)
    ensures Eight(f, Xor(a, b)) == Xor(Eight(f, a), Eight(f, b))
  {
  }

  lemma EightUndone(f: bv32 -> bv32, g: bv32 -> bv32, c: bv32)
    requires Undoes(g, f)
    ensures Eight(g, Eight(f, c)) == c
  {
    var c1 := f(c);
    var c2 := f(c1);
    var c3 := f(c2);
    var c4 := f(c3);
    var c5 := f(c4);
    var c6 := f(c5);
    var c7 := f(c6);
    assert g(f(c7)) == c7 && g(f(c6)) == c6 && g(f(c5)) == c5 && g(f(c4)) == c4;
    assert g(f(c3)) == c3 && g(f(c2)) == c2 && g(f(c1)) == c1 && g(f(c)) == c;
  }

  function Unshift(c: bv32): bv32 {
    if c & 0x8000_0000 != 0 then ((c ^ POLY) << 1) | 1 else c << 1
  }

  lemma UnshiftShift(c: bv32)
    ensures Unshift(ShiftBit(c)) == c
  {
  }

  lemma ShiftBitPlain(y: bv32)
    requires y < 0x8000_0000
    ensures ShiftBit(Up1(y)) == y
  {
  }

  lemma Up8IsUp1(p: bv32)
    requires p < 0x100_0000
    ensures Up8(p) == Eight(Up1, p)
  {
  }

  lemma EightPlain(f: bv32 -> bv32, p: bv32)
    requires p < 0x100_0000
    requires forall y :: y < 0x8000_0000 ==> f(Up1(y)) == y
    ensures Eight(f, Up8(p)) == p
  {
    Up8IsUp1(p);
    var p1 := Up1(p);
    var p2 := Up1(p1);
    var p3 := Up1(p2);
    var p4 := Up1(p3);
    var p5 := Up1(p4);
    var p6 := Up1(p5);
    var p7 := Up1(p6);
    assert f(Up1(p7)) == p7;
    assert f(Up1(p6)) == p6;
    assert f(Up1(p5)) == p5;
    assert f(Up1(p4)) == p4;
    assert f(Up1(p3)) == p3;
    assert f(Up1(p2)) == p2;
    assert f(Up1(p1)) == p1;
  }

  function Unshift8(c: bv32): bv32 {
    Eight(Unshift, c)
  }

  lemma Shift8Linear()
    ensures Linear(Shift8)
  {
    forall a, b ensures ShiftBit(Xor(a, b)) == Xor(ShiftBit(a), ShiftBit(b)) { ShiftBitXor(a, b); }
    forall a, b ensures Shift8(Xor(a, b)) == Xor(Shift8(a), Shift8(b)) { EightLinear(ShiftBit, a, b); }
  }

  lemma Shift8Undone()
    ensures Undoes(Unshift8, Shift8)
  {
    forall c ensures Unshift(ShiftBit(c)) == c { UnshiftShift(c); }
    forall c ensures Unshift8(Shift8(c)) == c { EightUndone(ShiftBit, Unshift, c); }
  }

  lemma Shift8Plain()
    ensures forall p :: p < 0x100_0000 ==> Shift8(Up8(p)) == p
  {
    forall y | y < 0x8000_0000 ensures ShiftBit(Up1(y)) == y { ShiftBitPlain(y); }
    forall p | p < 0x100_0000 ensures Shift8(Up8(p)) == p { EightPlain(ShiftBit, p); }
  }

  lemma Shift8IsByteShift()
    ensures ByteShift(Shift8, Unshift8)
  {
    Shift8Linear();
    Shift8Undone();
    Shift8Plain();
  }

  // ---------------------------------------------------------------- folds over byte strings

  lemma {:induction false} FoldConcat<W, B>(step: (W, B) -> W, c: W, s: seq<B>, t: seq<B>)
    ensures Fold(step, c, s + t) == Fold(step, Fold(step, c, s), t)
    decreases |s|
  {
    if s == [] {
      assert s + t == t;
    } else {
      assert (s + t)[1..] == s[1..] + t;
      FoldConcat(step, step(c, s[0]), s[1..], t);
    }
  }

  ghost predicate StepUndone<W(!new), B(!new)>(undo: (W, B) -> W, step: (W, B) -> W) {
    forall c, b :: undo(step(c, b), b) == c
  }

  /** Different states stay different over the same string. */
  lemma {:induction false} FoldInjective<W(!new), B(!new)>(undo: (W, B) -> W, step: (W, B) -> W, c: W, d: W, s: seq<B>)
    requires StepUndone(undo, step) && Fold(step, c, s) == Fold(step, d, s)
    ensures c == d
    decreases |s|
  {
    if s != [] {
      FoldInjective(undo, step, step(c, s[0]), step(d, s[0]), s[1..]);
      assert undo(step(c, s[0]), s[0]) == undo(step(d, s[0]), s[0]);
    }
  }

  /** Strings that agree outside [i..j) and end in the same state pass through [i..j) from and to the same states. */
  lemma FoldWindow<W(!new), B(!new)>(undo: (W, B) -> W, step: (W, B) -> W, c: W, s: seq<B>, t: seq<B>, i: nat, j: nat)
    requires StepUndone(undo, step) && i <= j <= |s| == |t| && s[..i] == t[..i] && s[j..] == t[j..]
    requires Fold(step, c, s) == Fold(step, c, t)
    ensures var d := Fold(step, c, s[..i]); Fold(step, d, s[i..j]) == Fold(step, d, t[i..j])
  {
    var d := Fold(step, c, s[..i]);
    assert s == s[..i] + (s[i..j] + s[j..]) && t == t[..i] + (t[i..j] + t[j..]);
    FoldConcat(step, c, s[..i], s[i..j] + s[j..]);
    FoldConcat(step, c, t[..i], t[i..j] + t[j..]);
    FoldConcat(step, d, s[i..j], s[j..]);
    FoldConcat(step, d, t[i..j], t[j..]);
    FoldInjective(undo, step, Fold(step, d, s[i..j]), Fold(step, d, t[i..j]), s[j..]);
  }

  lemma FoldCons<W, B>(step: (W, B) -> W, c: W, b: B, s: seq<B>)
    ensures Fold(step, c, [b] + s) == Fold(step, step(c, b), s)
  {
    assert ([b] + s)[1..] == s;
  }

  lemma Fold4<W, B>(step: (W, B) -> W, c: W, s: seq<B>)
    requires |s| == 4
    ensures Fold(step, c, s) == step(step(step(step(c, s[0]), s[1]), s[2]), s[3])
  {
    var c1 := step(c, s[0]);
    var c2 := step(c1, s[1]);
    var c3 := step(c2, s[2]);
    assert s == [s[0]] + ([s[1]] + ([s[2]] + ([s[3]] + [])));
    FoldCons(step, c, s[0], [s[1]] + ([s[2]] + ([s[3]] + [])));
    FoldCons(step, c1, s[1], [s[2]] + ([s[3]] + []));
    FoldCons(step, c2, s[2], [s[3]] + []);
    FoldCons(step, c3, s[3], []);
  }

  // ---------------------------------------------------------------- four bytes at once

  lemma XorAssoc(a: bv32, b: bv32, c: bv32)
    ensures Xor(Xor(a, b), c) == Xor(a, Xor(b, c))
  {
  }

  lemma XorInjective(x: bv32, a: bv32, b: bv32)
    requires Xor(x, a) == Xor(x, b)
    ensures a == b
  {
    assert Xor(x, Xor(x, a)) == a && Xor(x, Xor(x, b)) == b;
  }

  /** A byte string xored in after a shift is the same string, one byte higher, xored in before it. */
  lemma Absorb(f: bv32 -> bv32, g: bv32 -> bv32, c: bv32, b: bv32, p: bv32)
    requires ByteShift(f, g) && p < 0x100_0000
    ensures Xor(f(Xor(c, b)), p) == f(Xor(c, Xor(b, Up8(p))))
  {
    assert Xor(f(Xor(c, b)), f(Up8(p))) == f(Xor(Xor(c, b), Up8(p)));
    XorAssoc(c, b, Up8(p));
  }

  function Word(b0: bv32, b1: bv32, b2: bv32, b3: bv32): bv32 {
    Xor(b0, Up8(Xor(b1, Up8(Xor(b2, Up8(b3))))))
  }

  lemma WordBound(b1: bv32, b2: bv32, b3: bv32)
    requires b1 < 0x100 && b2 < 0x100 && b3 < 0x100
    ensures Xor(b2, Up8(b3)) < 0x100_0000 && Xor(b1, Up8(Xor(b2, Up8(b3)))) < 0x100_0000
  {
  }

  lemma QuadIsWord(f: bv32 -> bv32, g: bv32 -> bv32, c: bv32, b0: bv32, b1: bv32, b2: bv32, b3: bv32)
    requires ByteShift(f, g) && b0 < 0x100 && b1 < 0x100 && b2 < 0x100 && b3 < 0x100
    ensures f(Xor(f(Xor(f(Xor(f(Xor(c, b0)), b1)), b2)), b3)) == f(f(f(f(Xor(c, Word(b0, b1, b2, b3))))))
  {
    var r1 := f(Xor(c, b0));
    var r2 := f(Xor(r1, b1));
    WordBound(b1, b2, b3);
    var p2 := Xor(b2, Up8(b3));
    var p1 := Xor(b1, Up8(p2));
    Absorb(f, g, r2, b2, b3);
    Absorb(f, g, r1, b1, p2);
    Absorb(f, g, c, b0, p1);
  }

  /** The four little-endian bytes that memcpy of a uint32_t stores. */
  function Trailer(x: bv32): (t: seq<byte>)
    ensures |t| == 4
  {
    [(x & 0xFF) as byte, ((x >> 8) & 0xFF) as byte, ((x >> 16) & 0xFF) as byte, (x >> 24) as byte]
  }

  lemma WordByte0(b0: byte, b1: byte, b2: byte, b3: byte)
    ensures (Word(b0 as bv32, b1 as bv32, b2 as bv32, b3 as bv32) & 0xFF) as byte == b0
  {
  }

  lemma WordByte1(b0: byte, b1: byte, b2: byte, b3: byte)
    ensures ((Word(b0 as bv32, b1 as bv32, b2 as bv32, b3 as bv32) >> 8) & 0xFF) as byte == b1
  {
  }

  lemma WordByte2(b0: byte, b1: byte, b2: byte, b3: byte)
    ensures ((Word(b0 as bv32, b1 as bv32, b2 as bv32, b3 as bv32) >> 16) & 0xFF) as byte == b2
  {
  }

  lemma WordByte3(b0: byte, b1: byte, b2: byte, b3: byte)
    ensures (Word(b0 as bv32, b1 as bv32, b2 as bv32, b3 as bv32) >> 24) as byte == b3
  {
  }

  lemma BytesWord(x: bv32)
    ensures WordOf(Trailer(x)) == x
  {
  }

  function WordOf(s: seq<byte>): bv32
    requires |s| == 4
  {
    ByteWord(s[0], s[1], s[2], s[3])
  }

  function ByteWord(a: byte, b: byte, c: byte, d: byte): bv32 {
    Word(a as bv32, b as bv32, c as bv32, d as bv32)
  }

  /** Feeding four bytes is xoring them in at once and then shifting them all out. */
  lemma FoldWord(step: (bv32, byte) -> bv32, f: bv32 -> bv32, g: bv32 -> bv32, c: bv32, s: seq<byte>)
    requires ByteShift(f, g) && |s| == 4
    requires forall c, b :: step(c, b) == f(Xor(c, b as bv32))
    ensures Fold(step, c, s) == f(f(f(f(Xor(c, WordOf(s))))))
  {
    Fold4(step, c, s);
    QuadIsWord(f, g, c, s[0] as bv32, s[1] as bv32, s[2] as bv32, s[3] as bv32);
  }

  lemma FourUndone(f: bv32 -> bv32, g: bv32 -> bv32, a: bv32, b: bv32)
    requires Undoes(g, f) && f(f(f(f(a)))) == f(f(f(f(b))))
    ensures a == b
  {
    assert g(f(f(f(f(a))))) == f(f(f(a))) && g(f(f(f(f(b))))) == f(f(f(b)));
    assert g(f(f(f(a)))) == f(f(a)) && g(f(f(f(b)))) == f(f(b));
    assert g(f(f(a))) == f(a) && g(f(f(b))) == f(b);
    assert g(f(a)) == a && g(f(b)) == b;
  }

  lemma WordRecovered(f: bv32 -> bv32, g: bv32 -> bv32, c: bv32, w: bv32, v: bv32)
    requires Undoes(g, f) && f(f(f(f(Xor(c, w))))) == f(f(f(f(Xor(c, v)))))
    ensures w == v
  {
    FourUndone(f, g, Xor(c, w), Xor(c, v));
    XorInjective(c, w, v);
  }

  lemma WordInjective(a: byte, b: byte, c: byte, d: byte, a': byte, b': byte, c': byte, d': byte, w: bv32)
    requires ByteWord(a, b, c, d) == w == ByteWord(a', b', c', d')
    ensures a == a' && b == b' && c == c' && d == d'
  {
    WordByte0(a, b, c, d);
    WordByte0(a', b', c', d');
    WordByte1(a, b, c, d);
    WordByte1(a', b', c', d');
    WordByte2(a, b, c, d);
    WordByte2(a', b', c', d');
    WordByte3(a, b, c, d);
    WordByte3(a', b', c', d');
  }

  lemma SameFour<T>(s: seq<T>, t: seq<T>)
    requires |s| == |t| == 4 && s[0] == t[0] && s[1] == t[1] && s[2] == t[2] && s[3] == t[3]
    ensures s == t
  {
  }

  lemma WordOfInjective(s: seq<byte>, t: seq<byte>)
    requires |s| == |t| == 4 && WordOf(s) == WordOf(t)
    ensures s == t
  {
    WordInjective(s[0], s[1], s[2], s[3], t[0], t[1], t[2], t[3], WordOf(s));
    SameFour(s, t);
  }

  lemma QuadInjective(step: (bv32, byte) -> bv32, f: bv32 -> bv32, g: bv32 -> bv32, c: bv32, s: seq<byte>, t: seq<byte>)
    requires ByteShift(f, g) && |s| == |t| == 4 && Fold(step, c, s) == Fold(step, c, t)
    requires forall c, b :: step(c, b) == f(Xor(c, b as bv32))
    ensures s == t
  {
    FoldWord(step, f, g, c, s);
    FoldWord(step, f, g, c, t);
    WordRecovered(f, g, c, WordOf(s), WordOf(t));
    WordOfInjective(s, t);
  }

  /** Two strings of at most four bytes leave different registers unless they are equal. */
  lemma ShortInjective(step: (bv32, byte) -> bv32, f: bv32 -> bv32, g: bv32 -> bv32, c: bv32, s: seq<byte>, t: seq<byte>)
    requires ByteShift(f, g) && |s| == |t| <= 4 && Fold(step, c, s) == Fold(step, c, t)
    requires forall c, b :: step(c, b) == f(Xor(c, b as bv32))
    ensures s == t
  {
    var pad: seq<byte> := seq(4 - |s|, _ => 0);
    FoldConcat(step, c, s, pad);
    FoldConcat(step, c, t, pad);
    QuadInjective(step, f, g, c, s + pad, t + pad);
    assert s == (s + pad)[..|s|] && t == (t + pad)[..|s|];
  }

  // ---------------------------------------------------------------- main results

  function Unupdate(c: bv32, b: byte): bv32 {
    Xor(Unshift8(c), b as bv32)
  }

  /** The bit-by-bit register has the structure the arguments above use. */
  lemma UpdateFacts()
    ensures forall c, b :: Update(c, b) == Shift8(Xor(c, b as bv32))
    ensures StepUndone(Unupdate, Update)
  {
    forall c, b ensures Unupdate(Update(c, b), b) == c { UpdateUndone(c, b); }
  }

  lemma UpdateUndone(c: bv32, b: byte)
    ensures Unupdate(Update(c, b), b) == c
  {
    var x := c ^ (b as bv32);
    assert Unshift8(Shift8(x)) == x by { Shift8Undone(); }
    XorTwice(c, b as bv32);
  }

  lemma XorTwice(c: bv32, x: bv32)
    ensures Xor(c ^ x, x) == c
  {
  }

  /** Strings of equal length that differ only within four consecutive bytes. */
  ghost predicate DifferInBurst(s: seq<byte>, t: seq<byte>) {
    |s| == |t| && s != t &&
    exists i, j :: 0 <= i <= j <= |s| && j <= i + 4 && s[..i] == t[..i] && s[j..] == t[j..]
  }

  lemma Rejoin<T>(s: seq<T>, t: seq<T>, i: nat, j: nat)
    requires i <= j <= |s| == |t| && s[..i] == t[..i] && s[i..j] == t[i..j] && s[j..] == t[j..]
    ensures s == t
  {
    assert s == s[..i] + s[i..j] + s[j..] && t == t[..i] + t[i..j] + t[j..];
  }

  /** The facts about the step function and its byte shift that the results below rest on. */
  ghost predicate Steps(step: (bv32, byte) -> bv32, undo: (bv32, byte) -> bv32, f: bv32 -> bv32, g: bv32 -> bv32) {
    ByteShift(f, g) && StepUndone(undo, step) && forall c, b :: step(c, b) == f(Xor(c, b as bv32))
  }

  lemma BurstSplits(step: (bv32, byte) -> bv32, undo: (bv32, byte) -> bv32, f: bv32 -> bv32, g: bv32 -> bv32, c: bv32, s: seq<byte>, t: seq<byte>)
    requires Steps(step, undo, f, g) && DifferInBurst(s, t)
    ensures Fold(step, c, s) != Fold(step, c, t)
  {
    var i, j :| 0 <= i <= j <= |s| && j <= i + 4 && s[..i] == t[..i] && s[j..] == t[j..];
    if Fold(step, c, s) == Fold(step, c, t) {
      FoldWindow(undo, step, c, s, t, i, j);
      ShortInjective(step, f, g, Fold(step, c, s[..i]), s[i..j], t[i..j]);
      Rejoin(s, t, i, j);
    }
  }

  lemma XorDiffers(a: bv32, b: bv32)
    requires a != b
    ensures a ^ ONES != b ^ ONES
  {
  }

  lemma BurstSplitsCrc(step: (bv32, byte) -> bv32, undo: (bv32, byte) -> bv32, f: bv32 -> bv32, g: bv32 -> bv32, s: seq<byte>, t: seq<byte>)
    requires Steps(step, undo, f, g) && DifferInBurst(s, t)
    ensures CrcWith(step, s) != CrcWith(step, t)
  {
    BurstSplits(step, undo, f, g, ONES, s, t);
    XorDiffers(Fold(step, ONES, s), Fold(step, ONES, t));
  }

  /** A burst of up to four damaged bytes always changes the CRC. */
  lemma BurstChangesCrc(s: seq<byte>, t: seq<byte>)
    requires DifferInBurst(s, t)
    ensures Crc(s) != Crc(t)
  {
    Shift8IsByteShift();
    UpdateFacts();
    BurstSplitsCrc(Update, Unupdate, Shift8, Unshift8, s, t);
  }

  predicate Matches(step: (bv32, byte) -> bv32, payload: seq<byte>)
    requires |payload| >= 4
  {
    payload[|payload| - 4..] == Trailer(CrcWith(step, payload[..|payload| - 4]))
  }

  /** Does the last word of the payload hold the CRC of what precedes it? */
  predicate TrailerMatches(payload: seq<byte>)
    requires |payload| >= 4
  {
    Matches(Update, payload)
  }

  function Residue(f: bv32 -> bv32): bv32 {
    f(f(f(f(ONES))))
  }

  lemma XorSelf(r: bv32)
    ensures Xor(r, r ^ ONES) == ONES
  {
  }

  lemma RightTrailer(step: (bv32, byte) -> bv32, undo: (bv32, byte) -> bv32, f: bv32 -> bv32, g: bv32 -> bv32, r: bv32)
    requires Steps(step, undo, f, g)
    ensures Fold(step, r, Trailer(r ^ ONES)) == Residue(f)
  {
    FoldWord(step, f, g, r, Trailer(r ^ ONES));
    BytesWord(r ^ ONES);
    XorSelf(r);
  }

  lemma TrailerIffResidue(step: (bv32, byte) -> bv32, undo: (bv32, byte) -> bv32, f: bv32 -> bv32, g: bv32 -> bv32, r: bv32, got: seq<byte>)
    requires Steps(step, undo, f, g) && |got| == 4
    ensures got == Trailer(r ^ ONES) <==> Fold(step, r, got) == Residue(f)
  {
    RightTrailer(step, undo, f, g, r);
    var want := Trailer(r ^ ONES);
    if Fold(step, r, got) == Residue(f) { QuadInjective(step, f, g, r, got, want); }
  }

  lemma SplitMatches(step: (bv32, byte) -> bv32, payload: seq<byte>, data: seq<byte>, got: seq<byte>)
    requires payload == data + got && |got| == 4
    ensures Matches(step, payload) <==> got == Trailer(CrcWith(step, data))
  {
    assert payload[|payload| - 4..] == got && payload[..|payload| - 4] == data;
  }

  lemma SplitIffResidue(step: (bv32, byte) -> bv32, undo: (bv32, byte) -> bv32, f: bv32 -> bv32, g: bv32 -> bv32, data: seq<byte>, got: seq<byte>)
    requires Steps(step, undo, f, g) && |got| == 4
    ensures got == Trailer(CrcWith(step, data)) <==> Fold(step, Fold(step, ONES, data), got) == Residue(f)
  {
    TrailerIffResidue(step, undo, f, g, Fold(step, ONES, data), got);
  }

  /** A trailer is right exactly when the register over data and trailer ends in one constant. */
  lemma MatchesIffResidue(step: (bv32, byte) -> bv32, undo: (bv32, byte) -> bv32, f: bv32 -> bv32, g: bv32 -> bv32, payload: seq<byte>)
    requires Steps(step, undo, f, g) && |payload| >= 4
    ensures Matches(step, payload) <==> Fold(step, ONES, payload) == Residue(f)
  {
    var data, got := Parts(payload);
    PartsIffResidue(step, undo, f, g, payload, data, got);
  }

  lemma Parts(payload: seq<byte>) returns (data: seq<byte>, got: seq<byte>)
    requires |payload| >= 4
    ensures payload == data + got && |got| == 4
  {
    data, got := payload[..|payload| - 4], payload[|payload| - 4..];
  }

  lemma PartsIffResidue(step: (bv32, byte) -> bv32, undo: (bv32, byte) -> bv32, f: bv32 -> bv32, g: bv32 -> bv32, payload: seq<byte>, data: seq<byte>, got: seq<byte>)
    requires Steps(step, undo, f, g) && payload == data + got && |got| == 4
    ensures Matches(step, payload) <==> Fold(step, ONES, payload) == Residue(f)
  {
    SplitMatches(step, payload, data, got);
    FoldConcat(step, ONES, data, got);
    SplitIffResidue(step, undo, f, g, data, got);
  }

  lemma BurstBreaksMatch(step: (bv32, byte) -> bv32, undo: (bv32, byte) -> bv32, f: bv32 -> bv32, g: bv32 -> bv32, sent: seq<byte>, received: seq<byte>)
    requires Steps(step, undo, f, g)
    requires |sent| >= 4 && Matches(step, sent) && DifferInBurst(sent, received)
    ensures !Matches(step, received)
  {
    MatchesIffResidue(step, undo, f, g, sent);
    MatchesIffResidue(step, undo, f, g, received);
    BurstSplits(step, undo, f, g, ONES, sent, received);
  }

  /** A burst of up to four damaged bytes anywhere in data or trailer never passes the check. */
  lemma BurstIsDetected(sent: seq<byte>, received: seq<byte>)
    requires |sent| >= 4 && TrailerMatches(sent) && DifferInBurst(sent, received)
    ensures !TrailerMatches(received)
  {
    Shift8IsByteShift();
    UpdateFacts();
    BurstBreaksMatch(Update, Unupdate, Shift8, Unshift8, sent, received);
  }

  // ---------------------------------------------------------------- the table-driven loop

  /** The register with a byte xored in, cut into the table index and the rest. */
  lemma Cut(crc: bv32, b: byte) returns (x: bv32, lo: bv32, hi: bv32)
    ensures x == Xor(crc, b as bv32) && lo == (crc ^ (b as bv32)) & 0xFF && hi == crc >> 8
    ensures lo < 0x100 && hi < 0x100_0000 && x == Xor(lo, Up8(hi))
  {
    x, lo, hi := crc ^ (b as bv32), (crc ^ (b as bv32)) & 0xFF, crc >> 8;
  }

  lemma TableUpdate(table: bv8 -> bv32, f: bv32 -> bv32, g: bv32 -> bv32, x: bv32, lo: bv32, hi: bv32)
    requires ByteShift(f, g) && forall i :: table(i) == f(i as bv32)
    requires lo < 0x100 && hi < 0x100_0000 && Xor(lo, Up8(hi)) == x
    ensures Xor(table(lo as bv8), hi) == f(x)
  {
    assert f(Xor(lo, Up8(hi))) == Xor(f(lo), f(Up8(hi)));
  }

  /** The source's update: look up the low byte of crc ^ data[i], xor with the rest of crc. */
  function Lookup(table: bv8 -> bv32, crc: bv32, b: byte): bv32 {
    Xor(table(((crc ^ (b as bv32)) & 0xFF) as bv8), crc >> 8)
  }

  /** One table lookup does what eight single-bit shifts do. */
  lemma LookupIsShift(table: bv8 -> bv32, f: bv32 -> bv32, g: bv32 -> bv32, crc: bv32, b: byte)
    requires ByteShift(f, g) && forall i :: table(i) == f(i as bv32)
    ensures Lookup(table, crc, b) == f(Xor(crc, b as bv32))
  {
    var x, lo, hi := Cut(crc, b);
    TableUpdate(table, f, g, x, lo, hi);
  }

  /** The loop of CalculateCRC32, over any update step. */
  method Loop<W, B>(step: (W, B) -> W, init: W, data: seq<B>) returns (crc: W)
    ensures crc == Fold(step, init, data)
  {
    crc := init;
    for i := 0 to |data|
      invariant Fold(step, crc, data[i..]) == Fold(step, init, data)
    {
      assert data[i..][1..] == data[i + 1..];
      crc := step(crc, data[i]);
    }
  }

  lemma {:induction false} FoldSame<W(!new), B(!new)>(step: (W, B) -> W, step': (W, B) -> W, c: W, s: seq<B>)
    requires forall c, b :: step(c, b) == step'(c, b)
    ensures Fold(step, c, s) == Fold(step', c, s)
    decreases |s|
  {
    if s != [] { FoldSame(step, step', step(c, s[0]), s[1..]); }
  }

  function TableUpdateStep(crc: bv32, b: byte): bv32 {
    Lookup(CrcTable, crc, b)
  }

  lemma TableStepIsUpdate()
    ensures forall c, b :: TableUpdateStep(c, b) == Update(c, b)
  {
    Shift8IsByteShift();
    forall i ensures CrcTable(i) == Shift8(i as bv32) { TableIsShift(i); }
    forall c, b ensures TableUpdateStep(c, b) == Update(c, b) { LookupIsShift(CrcTable, Shift8, Unshift8, c, b); }
  }

  /** CalculateCRC32: the table-driven loop computes the bit-by-bit register's CRC. */
  method CalculateCrc32(data: seq<byte>) returns (crc: bv32)
    ensures crc == Crc(data)
  {
    crc := Loop(TableUpdateStep, ONES, data);
    TableStepIsUpdate();
    FoldSame(TableUpdateStep, Update, ONES, data);
    crc := crc ^ ONES;
  }

  // ---------------------------------------------------------------- the check value

  lemma FirstSteps(c: bv32, b1: byte, b2: byte, b3: byte, b4: byte, b5: byte)
    requires c == 0xFFFF_FFFF && b1 == 0x31 && b2 == 0x32 && b3 == 0x33 && b4 == 0x34 && b5 == 0x35
    ensures Update(Update(Update(Update(Update(c, b1), b2), b3), b4), b5) == 0x340a_c5e3
  {
    assert Update(c, b1) == 0x7c23_1048;
    assert Update(0x7c23_1048, b2) == 0xb0ac_bb32;
    assert Update(0xb0ac_bb32, b3) == 0x77b7_9c2d;
    assert Update(0x77b7_9c2d, b4) == 0x641c_1f5c;
  }

  lemma LastSteps(c: bv32, b6: byte, b7: byte, b8: byte, b9: byte)
    requires c == 0x340a_c5e3 && b6 == 0x36 && b7 == 0x37 && b8 == 0x38 && b9 == 0x39
    ensures Update(Update(Update(Update(c, b6), b7), b8), b9) == 0x340b_c6d9
  {
    assert Update(c, b6) == 0xf68d_2c9e;
    assert Update(0xf68d_2c9e, b7) == 0xaffc_9660;
    assert Update(0xaffc_9660, b8) == 0x651f_2550;
  }

  lemma Fold5<W, B>(step: (W, B) -> W, c: W, s: seq<B>)
    requires |s| == 5
    ensures Fold(step, c, s) == step(step(step(step(step(c, s[0]), s[1]), s[2]), s[3]), s[4])
  {
    Fold4(step, c, s[..4]);
    FoldConcat(step, c, s[..4], [s[4]]);
    FoldCons(step, Fold(step, c, s[..4]), s[4], []);
    assert s[..4] + [s[4]] == s && [s[4]] + [] == [s[4]];
  }

  lemma Fold9<W, B>(step: (W, B) -> W, c: W, s: seq<B>, d: W)
    requires |s| == 9 && step(step(step(step(step(c, s[0]), s[1]), s[2]), s[3]), s[4]) == d
    ensures Fold(step, c, s) == step(step(step(step(d, s[5]), s[6]), s[7]), s[8])
  {
    Fold5(step, c, s[..5]);
    Fold4(step, d, s[5..]);
    FoldConcat(step, c, s[..5], s[5..]);
    assert s[..5] + s[5..] == s;
  }

  /** The check value of the CRC-32 of gzip and PKZIP: the register's start, polynomial and final inversion are theirs. */
  lemma CheckValue(s: seq<byte>)
    requires s == [0x31, 0x32, 0x33, 0x34, 0x35, 0x36, 0x37, 0x38, 0x39]
    ensures Crc(s) == 0xCBF4_3926
  {
    var d: bv32 := 0x340a_c5e3;
    FirstSteps(ONES, s[0], s[1], s[2], s[3], s[4]);
    LastSteps(d, s[5], s[6], s[7], s[8]);
    Fold9(Update, ONES, s, d);
  }
}
