/** Time-to-live arithmetic in Go's fixed-width integers; times and durations are nanoseconds. */
module Ttl {
  import opened Dns

  const SECOND: int := 1_000_000_000
  const MAX_DURATION: int := 0x7fff_ffff_ffff_ffff

  /** Wrap to a signed 64-bit number. */
  function Int64(x: int): int {
    (x + 0x8000_0000_0000_0000) % 0x1_0000_0000_0000_0000 - 0x8000_0000_0000_0000
  }

  /** Conversion to an unsigned 32-bit number keeps the low bits. */
  function Uint32(x: int): uint32 {
    x % 0x1_0000_0000
  }

  /** Division rounds toward zero. */
  function Quotient(a: int, b: int): int
    requires b > 0
  {
    if a >= 0 then a / b else -((-a) / b)
  }

  function Seconds(n: int): int {
    Int64(n * SECOND)
  }

  /** What is left of `ttl` seconds at the given age, as written into a served record. */
  function ServedTtl(ttl: uint32, age: int): uint32 {
    Uint32(Quotient(Int64(Seconds(ttl) - age), SECOND))
  }

  function SecondsRoundedUp(age: nat): nat {
    (age + SECOND - 1) / SECOND
  }

  /** The intended value: the TTL minus the age rounded up to seconds, never below zero. */
  function Remaining(ttl: uint32, age: nat): uint32 {
    if SecondsRoundedUp(age) <= ttl then ttl - SecondsRoundedUp(age) else 0
  }

  lemma SecondsDoNotOverflow(ttl: uint32)
    ensures Seconds(ttl) == ttl * SECOND
  {
  }

  lemma QuotientInTime(ttl: uint32, age: nat)
    requires age <= ttl * SECOND
    ensures Quotient(ttl * SECOND - age, SECOND) == ttl - SecondsRoundedUp(age) == Remaining(ttl, age)
  {
  }

  lemma QuotientLate(ttl: uint32, age: nat)
    requires age > ttl * SECOND
    ensures Quotient(ttl * SECOND - age, SECOND) == -(age / SECOND - ttl)
    ensures age / SECOND >= ttl && (age / SECOND == ttl <==> age < (ttl + 1) * SECOND)
    ensures Remaining(ttl, age) == 0
  {
  }

  lemma NegationKeepsMultiples(n: int)
    ensures (-n) % 0x1_0000_0000 == 0 <==> n % 0x1_0000_0000 == 0
  {
  }

  /**
   The served TTL is the intended one exactly while the age stays under the TTL plus one second (or the
   overrun is a multiple of 2^32 seconds): later the negative quotient wraps around.
   */
  lemma ServedExact(ttl: uint32, age: nat)
    requires age <= MAX_DURATION
    ensures ServedTtl(ttl, age) == Remaining(ttl, age) <==>
            age < (ttl + 1) * SECOND || (age / SECOND - ttl) % 0x1_0000_0000 == 0
  {
    assert Int64(Seconds(ttl) - age) == ttl * SECOND - age;
    if age <= ttl * SECOND {
      QuotientInTime(ttl, age);
    } else {
      QuotientLate(ttl, age);
      NegationKeepsMultiples(age / SECOND - ttl);
    }
  }

  /** From one second past its end on, a TTL wraps: each whole second late counts down from 2^32. */
  lemma LateServeWraps(ttl: uint32, age: nat)
    requires age <= MAX_DURATION && 1 <= age / SECOND - ttl < 0x1_0000_0000
    ensures ServedTtl(ttl, age) == 0x1_0000_0000 - (age / SECOND - ttl) && Remaining(ttl, age) == 0
  {
    assert Int64(Seconds(ttl) - age) == ttl * SECOND - age;
    QuotientLate(ttl, age);
  }

  /** A hit checked while valid and served less than a second later never wraps. */
  lemma ServedInTime(ttl: uint32, checkedAge: nat, servedAge: nat)
    requires checkedAge < Seconds(ttl)
    requires checkedAge <= servedAge < checkedAge + SECOND
    ensures ServedTtl(ttl, servedAge) == Remaining(ttl, servedAge) <= ttl
  {
    ServedExact(ttl, servedAge);
  }

  /** Later hits on one entry are served with TTLs that do not grow. */
  lemma ServedDecreases(ttl: uint32, earlier: nat, later: nat)
    requires earlier <= later < (ttl + 1) * SECOND
    ensures ServedTtl(ttl, later) <= ServedTtl(ttl, earlier)
  {
    ServedExact(ttl, earlier);
    ServedExact(ttl, later);
  }
}
