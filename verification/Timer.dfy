/** MillisecondTimer and timespec_from_ms. */
module Timer {
  import opened Words

  datatype Timespec = Timespec(sec: int, nsec: int)

  predicate Normalised(t: Timespec) { 0 <= t.nsec < 1_000_000_000 }

  /** The instant as a number of nanoseconds. */
  function Nanos(t: Timespec): int { t.sec * 1_000_000_000 + t.nsec }

  /** A C++ conversion of a floating-point number to an integer. */
  function Truncate(x: real): int {
    if x >= 0.0 then x.Floor else -((-x).Floor)
  }

  lemma FloorOfQuotient(a: int, b: int)
    requires b > 0
    ensures (a as real / b as real).Floor == a / b
  {
    var q, r := a / b, a % b;
    assert a == q * b + r;
    var x := a as real / b as real;
    assert x * b as real == a as real;
    assert q as real * b as real <= a as real < (q + 1) as real * b as real;
    assert q as real <= x < (q + 1) as real;
  }

  lemma TruncatedQuotient(a: int, b: int)
    requires b > 0
    ensures Truncate(a as real / b as real) == TruncDiv(a, b)
  {
    FloorOfQuotient(a, b);
    FloorOfQuotient(-a, b);
    assert (-a) as real / b as real == -(a as real / b as real);
  }

  /** Nothing is left exactly when less than a millisecond is. */
  lemma NothingLeft(nanos: int)
    ensures TruncDiv(nanos, 1_000_000) <= 0 <==> nanos < 1_000_000
  {
  }

  class MillisecondTimer {
    var expiry: Timespec

    /** `now` is what the clock read when the timer was made. */
    constructor (now: Timespec, millis: nat)
      requires Normalised(now)
      ensures Normalised(expiry) && Nanos(expiry) == Nanos(now) + millis * 1_000_000
      ensures expiry.sec * 1_000_000_000 + expiry.nsec == now.sec * 1_000_000_000 + now.nsec + millis * 1_000_000
      ensures 0 <= expiry.nsec < 1_000_000_000
    {
      var nsec := now.nsec + millis * 1_000_000;
      if nsec >= 1_000_000_000 {
        var secDiff := nsec / 1_000_000_000;
        expiry := Timespec(now.sec + secDiff, nsec % 1_000_000_000);
      } else {
        expiry := Timespec(now.sec, nsec);
      }
    }

    /** The milliseconds left, rounded towards zero although seconds and nanoseconds are subtracted apart. */
    method Remaining(now: Timespec) returns (millis: int)
      ensures millis == TruncDiv(Nanos(expiry) - Nanos(now), 1_000_000)
    {
      millis := (expiry.sec - now.sec) * 1000;
      millis := Truncate(millis as real + (expiry.nsec - now.nsec) as real / 1000000.0);
      var apart := Nanos(expiry) - Nanos(now);
      TruncatedQuotient(apart, 1_000_000);
      assert ((expiry.sec - now.sec) * 1000) as real + (expiry.nsec - now.nsec) as real / 1000000.0
          == apart as real / 1000000.0;
    }
  }

  method TimespecFromMs(millis: nat) returns (t: Timespec)
    requires millis < TWO_32
    ensures Normalised(t) && Nanos(t) == millis * 1_000_000
    ensures t.sec == millis / 1000 && t.nsec == millis % 1000 * 1_000_000
  {
    var sec := Truncate(millis as real / 1000.0);
    TruncatedQuotient(millis, 1000);
    t := Timespec(sec, (millis - sec * 1000) * 1_000_000);
  }
}
