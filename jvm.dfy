/** The JVM's fixed-width integers and the `hashCode` of its boxed types, as
    the wallet service relies on them, plus the time scale of `LocalDateTime`
    (nanoseconds since the epoch, read in UTC). */
module Jvm {
  import opened Wrappers

  const LONG_MIN: int := -0x8000_0000_0000_0000
  const LONG_MAX: int := 0x7FFF_FFFF_FFFF_FFFF
  const INT_MIN: int := -0x8000_0000
  const INT_MAX: int := 0x7FFF_FFFF

  /** Kotlin `Long` / SQL `bigint`. */
  type Long = x: int | LONG_MIN <= x <= LONG_MAX

  /** Kotlin `Int`. */
  type Int = x: int | INT_MIN <= x <= INT_MAX

  /** Two's-complement wrap-around of a 64-bit operation. */
  function WrapLong(x: int): (r: Long)
    ensures LONG_MIN <= x <= LONG_MAX ==> r == x
    ensures (x - r) % 0x1_0000_0000_0000_0000 == 0
  {
    (x - LONG_MIN) % 0x1_0000_0000_0000_0000 + LONG_MIN
  }

  /** Two's-complement wrap-around of a 32-bit operation. */
  function WrapInt(x: int): (r: Int)
    ensures INT_MIN <= x <= INT_MAX ==> r == x
    ensures (x - r) % 0x1_0000_0000 == 0
  {
    (x - INT_MIN) % 0x1_0000_0000 + INT_MIN
  }

  /** A 64-bit subtraction `a - b` of two longs wraps to a negative value exactly
      when its true result is negative or above LONG_MAX; when `a` is positive
      the true result is never below LONG_MIN, so the wrapped difference is
      non-negative exactly when the true difference fits and is non-negative. */
  lemma WrappedDifferenceNonNegative(a: Long, b: Long)
    requires a > 0
    ensures WrapLong(a - b) >= 0 <==> 0 <= a - b <= LONG_MAX
  {
    if a - b > LONG_MAX {
      assert WrapLong(a - b) == a - b - 0x1_0000_0000_0000_0000;
    }
  }

  /** The signed reading of a 32-bit pattern. */
  function SignedInt(bits: bv32): (r: Int)
    ensures bits as int <= INT_MAX ==> r == bits as int
    ensures bits as int > INT_MAX ==> r == bits as int - 0x1_0000_0000
  {
    WrapInt(bits as int)
  }

  /** `java.lang.Long.hashCode`: `(int)(value ^ (value >>> 32))`, the exclusive
      or of the two 32-bit halves of the two's-complement pattern. */
  function LongHash(v: Long): Int {
    var pattern := v % 0x1_0000_0000_0000_0000;
    var low := pattern % 0x1_0000_0000;
    var high := pattern / 0x1_0000_0000;
    SignedInt((low as bv32) ^ (high as bv32))
  }

  function Pow31(n: nat): (p: nat)
    ensures p >= 1
  {
    if n == 0 then 1 else 31 * Pow31(n - 1)
  }

  /** The polynomial `s[0]*31^(n-1) + ... + s[n-1]` over unbounded integers. */
  function PolyHash(s: string): int {
    if s == [] then 0 else s[0] as int * Pow31(|s| - 1) + PolyHash(s[1..])
  }

  /** The polynomial read from the right: Horner's step on the last character. */
  lemma {:induction false} PolyHashLast(s: string)
    requires s != []
    ensures PolyHash(s) == 31 * PolyHash(s[..|s| - 1]) + s[|s| - 1] as int
    decreases |s|
  {
    var n := |s|;
    if n > 1 {
      var t := s[1..];
      PolyHashLast(t);
      assert t[..n - 2] == s[..n - 1][1..];
      assert t[n - 2] == s[n - 1];
      assert Pow31(n - 1) == 31 * Pow31(n - 2);
      assert s[0] as int * Pow31(n - 1) == 31 * (s[0] as int * Pow31(n - 2));
    }
  }

  /** Two integers congruent modulo 2^32 stay so after Horner's step. */
  lemma CongruentStep(a: int, b: int, c: int)
    requires (a - b) % 0x1_0000_0000 == 0
    ensures ((31 * a + c) - (31 * b + c)) % 0x1_0000_0000 == 0
  {
    var k := (a - b) / 0x1_0000_0000;
    assert a - b == 0x1_0000_0000 * k;
    assert (31 * a + c) - (31 * b + c) == 0x1_0000_0000 * (31 * k);
  }

  /** Congruence modulo 2^32 is transitive. */
  lemma CongruentTrans(a: int, b: int, c: int)
    requires (a - b) % 0x1_0000_0000 == 0 && (b - c) % 0x1_0000_0000 == 0
    ensures (a - c) % 0x1_0000_0000 == 0
  {
    var k := (a - b) / 0x1_0000_0000;
    var j := (b - c) / 0x1_0000_0000;
    assert a - c == 0x1_0000_0000 * (k + j);
  }

  /** `java.lang.String.hashCode`: `s[0]*31^(n-1) + ... + s[n-1]` in 32-bit
      arithmetic, computed left to right. */
  function StringHash(s: string): (h: Int)
    ensures (h - PolyHash(s)) % 0x1_0000_0000 == 0
  {
    if s == [] then 0
    else
      var prefix := s[..|s| - 1];
      var c := s[|s| - 1] as int;
      var x := 31 * StringHash(prefix) + c;
      PolyHashLast(s);
      CongruentStep(StringHash(prefix), PolyHash(prefix), c);
      CongruentTrans(WrapInt(x), x, PolyHash(s));
      WrapInt(x)
  }

  /** A `LocalDateTime` in UTC, as nanoseconds since 1970-01-01T00:00. */
  type Time = int

  const NANOS_PER_SECOND: int := 1_000_000_000

  /** `LocalDateTime.toEpochSecond(ZoneOffset.UTC)`: whole seconds, rounded down. */
  function EpochSecond(t: Time): (s: int)
    ensures s * NANOS_PER_SECOND <= t < (s + 1) * NANOS_PER_SECOND
  {
    t / NANOS_PER_SECOND
  }

  /** `Instant.MIN` and `Instant.MAX` in epoch seconds: the starts of the
      years -1,000,000,000 and 1,000,000,000 and the last second of the
      latter. */
  const INSTANT_MIN_SECOND: int := -31557014167219200
  const INSTANT_MAX_SECOND: int := 31556889864403199

  /** The first second of `LocalDateTime.MIN` and the last second of
      `LocalDateTime.MAX` read in UTC (years -999,999,999 and 999,999,999):
      one leap year inside the `Instant` range at each end. A second outside
      them has an epoch day `LocalDate` refuses. */
  const LOCAL_DATE_TIME_MIN_SECOND: int := -31557014135596800
  const LOCAL_DATE_TIME_MAX_SECOND: int := 31556889832780799

  /** The `DateTimeException`s the conversions below raise. */
  datatype DateTimeError =
    | NanoOfSecondOutOfRange(nanos: int)
    | InstantOutOfRange(seconds: int)
    | EpochDayOutOfRange(seconds: int)

  /** `LocalDateTime.ofEpochSecond(seconds, nanos, ZoneOffset.UTC)`: the
      nano-of-second is checked first, then the epoch day of the second. */
  function OfEpochSecond(seconds: Long, nanos: Int): (r: Result<Time, DateTimeError>)
    ensures r.Success? <==> 0 <= nanos < NANOS_PER_SECOND
                            && LOCAL_DATE_TIME_MIN_SECOND <= seconds <= LOCAL_DATE_TIME_MAX_SECOND
    ensures !(0 <= nanos < NANOS_PER_SECOND) ==> r == Failure(NanoOfSecondOutOfRange(nanos))
    ensures r.Success? ==> EpochSecond(r.value) == seconds
  {
    if !(0 <= nanos < NANOS_PER_SECOND) then Failure(NanoOfSecondOutOfRange(nanos))
    else if !(LOCAL_DATE_TIME_MIN_SECOND <= seconds <= LOCAL_DATE_TIME_MAX_SECOND) then Failure(EpochDayOutOfRange(seconds))
    else Success(seconds * NANOS_PER_SECOND + nanos)
  }

  /** `LocalDateTime.ofInstant(Instant.ofEpochSecond(seconds), ZoneId.of("UTC"))`:
      `Instant` refuses a second outside its own range, then `LocalDateTime`
      one outside the narrower range of its dates; the result is the start of
      that second. */
  function OfInstantSecond(seconds: Long): (r: Result<Time, DateTimeError>)
    ensures r.Success? <==> LOCAL_DATE_TIME_MIN_SECOND <= seconds <= LOCAL_DATE_TIME_MAX_SECOND
    ensures !(INSTANT_MIN_SECOND <= seconds <= INSTANT_MAX_SECOND) ==> r == Failure(InstantOutOfRange(seconds))
    ensures r.Success? ==> EpochSecond(r.value) == seconds && r.value % NANOS_PER_SECOND == 0
  {
    if !(INSTANT_MIN_SECOND <= seconds <= INSTANT_MAX_SECOND) then Failure(InstantOutOfRange(seconds))
    else if !(LOCAL_DATE_TIME_MIN_SECOND <= seconds <= LOCAL_DATE_TIME_MAX_SECOND) then Failure(EpochDayOutOfRange(seconds))
    else Success(seconds * NANOS_PER_SECOND)
  }
}
