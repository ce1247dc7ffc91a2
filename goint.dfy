/**
 * Go's fixed-width integers and the normalisation done by `time.Unix`,
 * written out on Dafny's unbounded integers.
 */
module GoInt {

  const TWO_31: int := 0x8000_0000
  const TWO_32: int := 0x1_0000_0000
  const TWO_63: int := 0x8000_0000_0000_0000
  const TWO_64: int := 0x1_0000_0000_0000_0000

  /** Nanoseconds per second. */
  const NANOS_PER_SEC: int := 1_000_000_000

  /** Nanoseconds per millisecond (the `1000*1000` factor of the handlers). */
  const NANOS_PER_MILLI: int := 1_000_000

  type int32 = x: int | -TWO_31 <= x < TWO_31
  type int64 = x: int | -TWO_63 <= x < TWO_63

  /** Two's-complement wrap-around of an exact result to 64 bits, as Go's int64 arithmetic does. */
  function Wrap64(x: int): (r: int64)
    ensures (x - r) % TWO_64 == 0
    ensures -TWO_63 <= x < TWO_63 ==> r == x
  {
    (x + TWO_63) % TWO_64 - TWO_63
  }

  /** Go's conversion `int32(x)`: keeps the low 32 bits, read as a signed value. */
  function Int32Of(x: int): (r: int32)
    ensures (x - r) % TWO_32 == 0
    ensures -TWO_31 <= x < TWO_31 ==> r == x
  {
    (x + TWO_31) % TWO_32 - TWO_31
  }

  /** Go's integer division, which truncates toward zero. */
  function GoQuot(a: int, b: int): (q: int)
    requires b > 0
    ensures a >= 0 ==> 0 <= a - q * b < b
    ensures a < 0 ==> -b < a - q * b <= 0
  {
    if a >= 0 then a / b else -((-a) / b)
  }

  /** An instant as `time.Time` reports it: `Unix()` seconds and `Nanosecond()`. */
  datatype Instant = Instant(sec: int64, nsec: int32)

  /**
   * `time.Unix(0, nsec)`: when nsec lies outside [0, 1e9) it moves whole seconds
   * out of it by truncating division and then borrows one second if the
   * remainder is negative.
   */
  function UnixTime(nsec: int64): (t: Instant)
    ensures t.sec * NANOS_PER_SEC + t.nsec == nsec
    ensures 0 <= t.nsec < NANOS_PER_SEC
  {
    if nsec < 0 || nsec >= NANOS_PER_SEC then
      var n := GoQuot(nsec, NANOS_PER_SEC);
      var rem := nsec - n * NANOS_PER_SEC;
      if rem < 0 then Instant(n - 1, rem + NANOS_PER_SEC) else Instant(n, rem)
    else
      Instant(0, nsec)
  }

  /** The normalisation is floor division: seconds and remainder are determined by nsec. */
  lemma UnixTimeIsFloor(nsec: int64)
    ensures UnixTime(nsec) == Instant(nsec / NANOS_PER_SEC, nsec % NANOS_PER_SEC)
  {
    var t := UnixTime(nsec);
    DivModUnique(nsec, t.sec, t.nsec);
  }

  /** A quotient and a remainder in [0, 1e9) that rebuild `a` are Dafny's `/` and `%`. */
  lemma DivModUnique(a: int, q: int, r: int)
    requires q * NANOS_PER_SEC + r == a && 0 <= r < NANOS_PER_SEC
    ensures q == a / NANOS_PER_SEC && r == a % NANOS_PER_SEC
  {
    assert (q - a / NANOS_PER_SEC) * NANOS_PER_SEC == a % NANOS_PER_SEC - r;
  }

  /**
   * The handlers' total `1000*1000*millisec + nanosec`, evaluated in int64:
   * the product wraps, then the sum wraps.
   */
  function TotalNanos(millisec: int64, nanosec: int64): (ns: int64)
    ensures (NANOS_PER_MILLI * millisec + nanosec - ns) % TWO_64 == 0
  {
    var product := NANOS_PER_MILLI * millisec;
    var wrapped := Wrap64(product);
    var ns := Wrap64(wrapped + nanosec);
    MultiplesAdd(product - wrapped, wrapped + nanosec - ns);
    ns
  }

  /** The sum of two multiples of 2^64 is a multiple of 2^64. */
  lemma MultiplesAdd(x: int, y: int)
    requires x % TWO_64 == 0 && y % TWO_64 == 0
    ensures (x + y) % TWO_64 == 0
  {
    var m, n := x / TWO_64, y / TWO_64;
    assert x == m * TWO_64 && y == n * TWO_64;
    assert x + y == (m + n) * TWO_64;
  }

  /** Without overflow the wrapped total is the exact total. */
  lemma TotalNanosExact(millisec: int64, nanosec: int64)
    requires -TWO_63 <= NANOS_PER_MILLI * millisec + nanosec < TWO_63
    ensures TotalNanos(millisec, nanosec) == NANOS_PER_MILLI * millisec + nanosec
  {
    var exact := NANOS_PER_MILLI * millisec + nanosec;
    var ns := TotalNanos(millisec, nanosec);
    var d := exact - ns;
    assert d % TWO_64 == 0;
    assert -TWO_64 < d < TWO_64;
    assert d == (d / TWO_64) * TWO_64;
  }
}
