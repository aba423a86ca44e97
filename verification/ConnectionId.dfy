/**
 ConnectionIdGenerator (src/darwincore/network/connection_id_generator.cpp): a date, a reactor
 number, a file descriptor and a sequence number in disjoint bit fields of 64 bits, so that `|`
 of the shifted fields is their sum and `>>` and `&` are division and remainder.
 */
module ConnectionId {

  const DATE_UNIT := 0x100_0000_0000
  const REACTOR_UNIT := 0x1_0000_0000
  const FD_UNIT := 0x1_0000

  function Generate(date: nat, reactorId: nat, fd: nat, sequence: nat): nat {
    (date % 0x100_0000) * DATE_UNIT + (reactorId % 0x100) * REACTOR_UNIT + (fd % 0x1_0000) * FD_UNIT + sequence % 0x1_0000
  }

  function DateOf(id: nat): nat { id / DATE_UNIT % 0x100_0000 }

  function ReactorOf(id: nat): nat { id / REACTOR_UNIT % 0x100 }

  function FdOf(id: nat): nat { id / FD_UNIT % 0x1_0000 }

  function SequenceOf(id: nat): nat { id % 0x1_0000 }

  // ---------------------------------------------------------------- the bit operations

  /** The source's shifts and ors of masked fields are the sum above, in 64 bits. */
  lemma OrIsSum(date: bv64, reactorId: bv64, fd: bv64, sequence: bv64)
    requires date <= 0xFF_FFFF && reactorId <= 0xFF && fd <= 0xFFFF && sequence <= 0xFFFF
    ensures (date << 40) | (reactorId << 32) | (fd << 16) | sequence ==
            date * 0x100_0000_0000 + reactorId * 0x1_0000_0000 + fd * 0x1_0000 + sequence
  {
  }

  /** The source's shifts and masks are the quotients and remainders below. */
  lemma ShiftIsQuotient(id: bv64)
    ensures (id >> 40) & 0xFF_FFFF == id / 0x100_0000_0000 % 0x100_0000
    ensures (id >> 32) & 0xFF == id / 0x1_0000_0000 % 0x100
    ensures (id >> 16) & 0xFFFF == id / 0x1_0000 % 0x1_0000
    ensures id & 0xFFFF == id % 0x1_0000
  {
  }

  // ---------------------------------------------------------------- round trips

  /** Parsing gives back every field as far as its width reaches. */
  lemma ParseGenerated(date: nat, reactorId: nat, fd: nat, sequence: nat)
    ensures var id := Generate(date, reactorId, fd, sequence);
            && id < 0x1_0000_0000_0000_0000
            && DateOf(id) == date % 0x100_0000 && ReactorOf(id) == reactorId % 0x100
            && FdOf(id) == fd % 0x1_0000 && SequenceOf(id) == sequence % 0x1_0000
  {
    var d, r, f, q := date % 0x100_0000, reactorId % 0x100, fd % 0x1_0000, sequence % 0x1_0000;
    FieldAt(d * DATE_UNIT + r * REACTOR_UNIT + f * FD_UNIT + q, (d * 0x100 + r) * 0x1_0000 + f, q, f, d * 0x100 + r);
    HighFields(d * DATE_UNIT + r * REACTOR_UNIT + f * FD_UNIT + q, d, r, f * FD_UNIT + q);
  }

  lemma FieldAt(id: nat, above: nat, q: nat, f: nat, rest: nat)
    requires id == above * FD_UNIT + q && q < 0x1_0000 && above == rest * 0x1_0000 + f && f < 0x1_0000
    ensures SequenceOf(id) == q && FdOf(id) == f
  {
    assert id / FD_UNIT == above;
  }

  lemma HighFields(id: nat, d: nat, r: nat, low: nat)
    requires id == d * DATE_UNIT + r * REACTOR_UNIT + low && low < REACTOR_UNIT && r < 0x100 && d < 0x100_0000
    ensures ReactorOf(id) == r && DateOf(id) == d && id < 0x1_0000_0000_0000_0000
  {
    assert id / REACTOR_UNIT == d * 0x100 + r;
    assert id / DATE_UNIT == d;
  }

  /** An id is determined by its fields, and every 64-bit number is the id of its fields. */
  lemma GenerateParsed(id: nat)
    requires id < 0x1_0000_0000_0000_0000
    ensures Generate(DateOf(id), ReactorOf(id), FdOf(id), SequenceOf(id)) == id
  {
    var a := id / FD_UNIT;
    var b := a / 0x1_0000;
    var c := b / 0x100;
    assert id / REACTOR_UNIT == b;
    assert id / DATE_UNIT == c && c < 0x100_0000;
    assert id == a * FD_UNIT + id % 0x1_0000 && a == b * 0x1_0000 + a % 0x1_0000 && b == c * 0x100 + b % 0x100;
  }
}
