/**
 The capacity of both ring queues (include/darwincore/foundation/container/RingQueue.h): a request is
 rounded up to a power of two by smearing its highest bit downwards, in 64-bit arithmetic.
 */
module RingCapacity {

  const TOP: bv64 := 0x8000_0000_0000_0000

  predicate IsPowerOfTwo(p: bv64) {
    p != 0 && p & (p - 1) == 0
  }

  function By1(n: bv64): bv64 { n | (n >> 1) }
  function By2(n: bv64): bv64 { n | (n >> 2) }
  function By4(n: bv64): bv64 { n | (n >> 4) }
  function By8(n: bv64): bv64 { n | (n >> 8) }
  function By16(n: bv64): bv64 { n | (n >> 16) }
  function By32(n: bv64): bv64 { n | (n >> 32) }

  /** All bits from the highest set one down. */
  function Smear(n: bv64): bv64 {
    By32(By16(By8(By4(By2(By1(n))))))
  }

  /** One more than the smeared predecessor. */
  function RoundedBy(smear: bv64 -> bv64, n: bv64): bv64 {
    if n == 0 then 1 else smear(n - 1) + 1
  }

  function Rounded(n: bv64): bv64 {
    RoundedBy(Smear, n)
  }

  method NextPowerOfTwo(request: bv64) returns (capacity: bv64)
    ensures capacity == Rounded(request)
    ensures 0 < request <= TOP ==> IsLeastPower(request, capacity)
  {
    if 0 < request <= TOP { RoundedIsLeastOfAll(request); }
    var n := request;
    if n == 0 { return 1; }
    n := n - 1;
    n := By1(n);
    n := By2(n);
    n := By4(n);
    n := By8(n);
    n := By16(n);
    n := By32(n);
    return n + 1;
  }

  /** Every bit from the highest one down is set. */
  predicate IsMask(q: bv64) { q & (q + 1) == 0 }

  /** What smearing does to a number: a mask that covers it, and no larger one than needed. */
  predicate SmearsTo(m: bv64, s: bv64) {
    IsMask(s) && m <= s && (m < TOP ==> s < TOP) && (s >> 1 < m || m == 0 == s)
  }

  lemma SmearFits(m: bv64)
    ensures SmearsTo(m, Smear(m))
  {
    SmearFills(m);
    SmearTight(m);
  }

  lemma SmearFills(m: bv64)
    ensures IsMask(Smear(m)) && m <= Smear(m) && (m < TOP ==> Smear(m) < TOP)
  {}

  lemma SmearTight(m: bv64)
    ensures Smear(m) >> 1 < m || m == 0 == Smear(m)
  {}

  lemma Successor(m: bv64, s: bv64, n: bv64, r: bv64)
    requires m < TOP && SmearsTo(m, s) && m == n - 1 && r == s + 1
    ensures IsPowerOfTwo(r) && n <= r && (n == 1 ==> r == 1) && (n != 1 ==> r >> 1 < n)
  {}

  lemma BelowTop(n: bv64)
    requires 0 < n <= TOP
    ensures n - 1 < TOP && n != 0
  {}

  /** Between a power of two and its half there is no other. */
  lemma NoneBetween(r: bv64, n: bv64, p: bv64)
    requires IsPowerOfTwo(r) && IsPowerOfTwo(p) && (r >> 1 < n || r == 1) && n <= p
    ensures r <= p
  {}

  /** r is a power of two not below n, and p is no smaller one. */
  predicate LeastFor(n: bv64, r: bv64, p: bv64) {
    IsPowerOfTwo(r) && n <= r && (IsPowerOfTwo(p) && n <= p ==> r <= p)
  }

  lemma LeastFrom(m: bv64, s: bv64, n: bv64, r: bv64, p: bv64)
    requires m < TOP && SmearsTo(m, s) && m == n - 1 && r == s + 1
    ensures LeastFor(n, r, p)
  {
    Successor(m, s, n, r);
    if IsPowerOfTwo(p) && n <= p { NoneBetween(r, n, p); }
  }

  lemma LeastBy(smear: bv64 -> bv64, n: bv64, p: bv64)
    requires n != 0 && n - 1 < TOP && SmearsTo(n - 1, smear(n - 1))
    ensures LeastFor(n, RoundedBy(smear, n), p)
  {
    LeastFrom(n - 1, smear(n - 1), n, RoundedBy(smear, n), p);
  }

  /** The least power of two that is not below the request, for as long as 64 bits can hold one. */
  lemma RoundedIsLeast(n: bv64, p: bv64)
    requires 0 < n <= TOP
    ensures LeastFor(n, Rounded(n), p)
  {
    BelowTop(n);
    SmearFits(n - 1);
    LeastBy(Smear, n, p);
  }

  ghost predicate IsLeastPower(n: bv64, r: bv64) {
    forall p :: LeastFor(n, r, p)
  }

  lemma LeastOfAllBy(smear: bv64 -> bv64, n: bv64)
    requires n != 0 && n - 1 < TOP && SmearsTo(n - 1, smear(n - 1))
    ensures IsLeastPower(n, RoundedBy(smear, n))
  {
    forall p ensures LeastFor(n, RoundedBy(smear, n), p) { LeastBy(smear, n, p); }
  }

  lemma RoundedIsLeastOfAll(n: bv64)
    requires 0 < n <= TOP
    ensures IsLeastPower(n, Rounded(n))
  {
    BelowTop(n);
    SmearFits(n - 1);
    LeastOfAllBy(Smear, n);
  }

  /** Two cells or more, which the multi-producer queue needs, come exactly from requests in this range. */
  lemma EnoughCellsExactly(n: bv64)
    ensures Rounded(n) >= 2 <==> 2 <= n <= TOP
    ensures Rounded(n) == 0 <==> n > TOP
  {}
}
