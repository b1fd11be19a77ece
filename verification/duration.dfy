/** The human-readable split of a giveaway's duration into days, hours,
    minutes and seconds, as shown in the creation announcement. */
module Duration {

  const SecondsPerDay: int := 86400
  const SecondsPerHour: int := 3600
  const SecondsPerMinute: int := 60

  /** The four numbers the announcement prints as `<d>d <h>h <m>m <s>s`. */
  datatype Parts = Parts(days: int, hours: int, minutes: int, seconds: int)

  /** `Math.floor(a / b)` for a positive divisor. */
  function FloorDiv(a: int, b: int): (q: int)
    requires b > 0
    ensures b * q <= a < b * (q + 1)
  {
    a / b
  }

  /** JavaScript's `a % b` for a positive divisor: the remainder takes the
      sign of the dividend (truncating division), unlike Dafny's `%`. */
  function TruncRem(a: int, b: int): (r: int)
    requires b > 0
    ensures a >= 0 ==> 0 <= r < b
    ensures a < 0 ==> -b < r <= 0
    ensures exists q :: a == b * q + r
  {
    if a >= 0 then
      assert a == b * (a / b) + a % b;
      a % b
    else
      assert -a == b * ((-a) / b) + (-a) % b;
      assert a == b * (-((-a) / b)) + -((-a) % b);
      -((-a) % b)
  }

  /** The weighted sum the four parts stand for. */
  function TotalSeconds(p: Parts): int
  {
    p.days * SecondsPerDay + p.hours * SecondsPerHour + p.minutes * SecondsPerMinute + p.seconds
  }

  /** A decomposition in which every part below days is within its unit's range. */
  predicate Normalized(p: Parts)
  {
    0 <= p.days && 0 <= p.hours < 24 && 0 <= p.minutes < 60 && 0 <= p.seconds < 60
  }

  /** durationToString without the text: days, the hours left over from whole
      days, the minutes left over from whole hours and the seconds left over
      from whole minutes. For a non-negative duration the parts add back up
      to it and each lies within its unit's range. */
  function DurationParts(seconds: int): (p: Parts)
    ensures seconds >= 0 ==> Normalized(p) && TotalSeconds(p) == seconds
  {
    var p := Parts(FloorDiv(seconds, SecondsPerDay),
                   FloorDiv(TruncRem(seconds, SecondsPerDay), SecondsPerHour),
                   FloorDiv(TruncRem(seconds, SecondsPerHour), SecondsPerMinute),
                   TruncRem(seconds, SecondsPerMinute));
    if seconds >= 0 then
      NonNegativeParts(seconds);
      p
    else
      p
  }

  /** The arithmetic behind DurationParts' contract, stated over Dafny's
      operators (they agree with JavaScript's on non-negative operands). */
  lemma NonNegativeParts(n: int)
    requires n >= 0
    ensures var p := Parts(n / 86400, (n % 86400) / 3600, (n % 3600) / 60, n % 60);
            Normalized(p) && TotalSeconds(p) == n
  {
    var d, r := n / 86400, n % 86400;
    assert n == 86400 * d + r;
    var h, r2 := r / 3600, r % 3600;
    assert r == 3600 * h + r2 && h < 24;
    // the remainder modulo an hour is the same taken from n or from r
    assert n == 3600 * (24 * d + h) + r2;
    assert n % 3600 == r2;
    var m, s := r2 / 60, r2 % 60;
    assert r2 == 60 * m + s && m < 60;
    assert n == 60 * (60 * (24 * d + h) + m) + s;
    assert n % 60 == s;
  }

  /** A negative duration (creation accepts one) gives a negative day count
      and no positive part: `Math.floor` rounds the days down while the
      truncating `%` keeps the dividend's sign. */
  lemma NegativeParts(seconds: int)
    requires seconds < 0
    ensures var p := DurationParts(seconds);
            p.days < 0 && p.hours <= 0 && p.minutes <= 0 && p.seconds <= 0
  {
  }

  /** Minus one minute is shown as -1d -1h -1m 0s, parts that do not add
      back up to the duration. */
  lemma MinusOneMinute()
    ensures DurationParts(-60) == Parts(-1, -1, -1, 0)
    ensures TotalSeconds(DurationParts(-60)) != -60
  {
  }

  /** A normalized decomposition of a duration is unique: any days, hours,
      minutes and seconds in range that add up to `seconds` are the ones
      DurationParts computes. */
  lemma PartsUnique(seconds: int, p: Parts)
    requires seconds >= 0
    requires Normalized(p) && TotalSeconds(p) == seconds
    ensures p == DurationParts(seconds)
  {
    var q := DurationParts(seconds);
    var lowP := p.hours * 3600 + p.minutes * 60 + p.seconds;
    var lowQ := q.hours * 3600 + q.minutes * 60 + q.seconds;
    assert 0 <= lowP < 86400 && 0 <= lowQ < 86400;
    assert p.days == q.days;
    assert lowP == lowQ;
    assert p.hours == q.hours;
    assert p.minutes == q.minutes;
  }
}
