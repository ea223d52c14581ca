/**
 When a failed attempt may be repeated and how long the client waits first
 (sdk/go/client.go:269-291 and 599-621). Durations are nanoseconds, as in package time.
 */
module RetryPolicy {
  import opened Options

  const MILLISECOND := 1_000_000
  const SECOND := 1_000_000_000
  const MINUTE := 60 * SECOND

  predicate Idempotent(verb: string) {
    verb == "GET" || verb == "HEAD" || verb == "DELETE"
  }

  predicate RetriableStatus(status: int) {
    status == 429 || status == 502 || status == 503 || status == 504
  }

  function Min(a: int, b: int): int { if a <= b then a else b }

  function Max(a: int, b: int): int { if a <= b then b else a }

  // ---- backoff ----

  /** What rand.Float64 returns. */
  type Draw = x: real | 0.0 <= x < 1.0 witness 0.0

  function Pow2(n: nat): (p: nat)
    ensures p >= 1
  {
    if n == 0 then 1 else 2 * Pow2(n - 1)
  }

  /** The ceiling of the full jitter, in milliseconds. */
  function Ceiling(attempt: nat): nat {
    Min(8000, 250 * Pow2(attempt))
  }

  function Backoff(attempt: nat, draw: Draw): int {
    (draw * Ceiling(attempt) as real).Floor * MILLISECOND
  }

  lemma {:induction false} Pow2Monotone(m: nat, n: nat)
    requires m <= n
    ensures Pow2(m) <= Pow2(n)
  {
    if m < n { Pow2Monotone(m, n - 1); }
  }

  /** The ceiling doubles from 250 ms and is 8 s from the sixth attempt on. */
  lemma CeilingShape(attempt: nat)
    ensures Ceiling(attempt) == if attempt < 5 then 250 * Pow2(attempt) else 8000
    ensures Ceiling(attempt) <= Ceiling(attempt + 1) <= 8000
  {
    assert Pow2(4) == 16 && Pow2(5) == 32;
    if attempt < 5 { Pow2Monotone(attempt, 4); } else { Pow2Monotone(5, attempt); }
  }

  lemma BackoffBelowCeiling(attempt: nat, draw: Draw)
    ensures 0 <= Backoff(attempt, draw) <= (Ceiling(attempt) - 1) * MILLISECOND
  {
    CeilingShape(attempt);
    var c := Ceiling(attempt) as real;
    assert 0.0 <= draw * c < c;
  }

  /** The least bound on n backoffs in a row, in milliseconds. */
  function TotalCeiling(n: nat): nat {
    if n <= 6 then 250 * (Pow2(n) - 1) else 15750 + 8000 * (n - 6)
  }

  lemma TotalCeilingStep(n: nat)
    ensures TotalCeiling(n + 1) == TotalCeiling(n) + Ceiling(n)
  {
    CeilingShape(n);
    assert Pow2(5) == 32 && Pow2(6) == 64;
  }

  lemma TotalCeilingIs(n: nat)
    requires n > 0
    ensures TotalCeiling(n) == if n <= 6 then [250, 750, 1750, 3750, 7750, 15750][n - 1] else 15750 + 8000 * (n - 6)
  {
    assert Pow2(1) == 2 && Pow2(2) == 4 && Pow2(3) == 8 && Pow2(4) == 16 && Pow2(5) == 32 && Pow2(6) == 64;
  }

  lemma CeilingIs(attempt: nat)
    ensures Ceiling(attempt) == if attempt < 5 then [250, 500, 1000, 2000, 4000][attempt] else 8000
  {
    CeilingShape(attempt);
    assert Pow2(0) == 1 && Pow2(1) == 2 && Pow2(2) == 4 && Pow2(3) == 8 && Pow2(4) == 16;
  }

  // ---- Retry-After ----

  const TWO_63 := 0x8000_0000_0000_0000
  const TWO_64 := 0x1_0000_0000_0000_0000

  /** Go's int and time.Duration. */
  type Int64 = x: int | -TWO_63 <= x < TWO_63

  /** A product in 64-bit arithmetic. */
  function Wrap64(x: int): Int64 {
    (x + TWO_63) % TWO_64 - TWO_63
  }

  /** The header once trimmed: empty, what strconv.Atoi reads, what http.ParseTime reads, or neither. */
  datatype RetryAfter = Absent | DeltaSeconds(n: Int64) | HttpDate(until: Int64) | Unreadable

  function ParseRetryAfter(header: RetryAfter): Option<int> {
    match header
    case Absent => None
    case DeltaSeconds(n) => if n < 0 then None else Some(Min(Wrap64(n * SECOND), MINUTE))
    case HttpDate(until) => Some(Max(0, Min(until, MINUTE)))
    case Unreadable => None
  }

  /** What the deployment asked for, capped at a minute. */
  function Asked(n: nat): int {
    Min(n * SECOND, MINUTE)
  }

  lemma RetryAfterIsCapped(header: RetryAfter)
    ensures ParseRetryAfter(header).Some? ==> ParseRetryAfter(header).value <= 60_000_000_000
    ensures header.HttpDate? ==> ParseRetryAfter(header).Some? && 0 <= ParseRetryAfter(header).value
  {}

  lemma WrapMeets(x: nat)
    ensures Wrap64(x) == if x % TWO_64 < TWO_63 then x % TWO_64 else x % TWO_64 - TWO_64
    ensures (x % TWO_64 < TWO_63) == (x / TWO_63 % 2 == 0)
  {
    var q, r := x / TWO_64, x % TWO_64;
    assert x == q * TWO_64 + r;
    if r < TWO_63 {
      assert x / TWO_63 == 2 * q;
    } else {
      assert x / TWO_63 == 2 * q + 1;
    }
  }

  /**
   The wait is the one asked for exactly when the product does not wrap below a minute: for all
   values up to 9223372036 s, and above that when the wrapped product happens to reach the cap.
   */
  lemma HonestExactlyWhen(n: Int64)
    requires n >= 0
    ensures ParseRetryAfter(DeltaSeconds(n)) == Some(Asked(n))
       <==> n <= 9223372036 || MINUTE <= (n * SECOND) % TWO_64 < TWO_63
  {
    WrapMeets(n * SECOND);
  }

  /** A negative wait comes out exactly when the product has an odd number of 2^63 in it. */
  lemma NegativeExactlyWhen(n: Int64)
    requires n >= 0
    ensures ParseRetryAfter(DeltaSeconds(n)).value < 0 <==> n * SECOND / TWO_63 % 2 == 1
  {
    WrapMeets(n * SECOND);
  }

  /** The threshold is tight: one second more, and the client does not wait at all. */
  lemma FirstWrap()
    ensures ParseRetryAfter(DeltaSeconds(9223372036)) == Some(MINUTE)
    ensures ParseRetryAfter(DeltaSeconds(9223372037)) == Some(-9223372036709551616)
  {}
}
