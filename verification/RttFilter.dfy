/** The smoothed round-trip time and the message lifetime derived from it (src/srt/connection.rs), over reals. */
module RttFilter {
  import opened Bytes

  const INIT_MS := 70
  const MIN_MS := 60
  const MAX_MS := 800
  const TTL_MAX_MS := 1500

  function Clamp(x: int): int {
    if x < MIN_MS then MIN_MS else if x > MAX_MS then MAX_MS else x
  }

  /** `f64::round` of a positive value. */
  function Round(x: real): int {
    (x + 0.5).Floor
  }

  /** The new average; a sample that is not finite is `None`. */
  function Updated(ewma: int, sample: Option<real>): int {
    if sample.None? || !(sample.value > 0.0) then ewma
    else Clamp(Round((ewma as real) * (1.0 - 1.0 / 8.0) + sample.value / 8.0))
  }

  function UpdatedAll(ewma: int, samples: seq<Option<real>>): int {
    if samples == [] then ewma else Updated(UpdatedAll(ewma, samples[..|samples| - 1]), samples[|samples| - 1])
  }

  function AdaptiveTtl(ewma: int, ttlMin: int): int {
    var t := if ewma * 3 > ttlMin then ewma * 3 else ttlMin;
    if t < TTL_MAX_MS then t else TTL_MAX_MS
  }

  /** The lifetime is the least one that is at least three averages and at least the configured minimum, cut off at
      1500. */
  lemma {:induction false} TtlIsLeast(ewma: int, ttlMin: int, v: int)
    ensures var t := AdaptiveTtl(ewma, ttlMin);
            && t <= 1500 && (t < 1500 ==> t >= 3 * ewma && t >= ttlMin)
            && (v >= 3 * ewma && v >= ttlMin ==> t <= v)
            && (t == 1500 <==> 3 * ewma >= 1500 || ttlMin >= 1500)
  {
  }

  /** A sample that is not finite or not positive changes nothing. */
  lemma {:induction false} RejectedSample(ewma: int, sample: Option<real>)
    requires sample.None? || sample.value <= 0.0
    ensures Updated(ewma, sample) == ewma
  {
  }

  /** Any other sample gives the nearest whole number to seven eighths of the average and an eighth of the sample,
      halves upwards, as far as the range allows. */
  lemma {:induction false} UpdatedIsNearest(ewma: int, sample: real)
    requires sample > 0.0
    ensures var x := (7.0 * (ewma as real) + sample) / 8.0; var t := Updated(ewma, Some(sample));
            && 60 <= t <= 800
            && (t > 60 ==> (t as real) - 0.5 <= x) && (t < 800 ==> x < (t as real) + 0.5)
  {
    var x := (ewma as real) * (1.0 - 1.0 / 8.0) + sample / 8.0;
    assert x == (7.0 * (ewma as real) + sample) / 8.0;
    var n := (x + 0.5).Floor;
    assert (n as real) <= x + 0.5 < (n as real) + 1.0;
    assert Updated(ewma, Some(sample)) == Clamp(n);
    if n < 60 {
      assert (n as real) + 1.0 <= 60.0;
    } else if n > 800 {
      assert (n as real) >= 801.0;
    }
  }

  /** THEOREM (bounds). Over all sample sequences the average stays in 60..800 and the lifetime in 180..1500. */
  lemma {:induction false} AlwaysInRange(samples: seq<Option<real>>, ttlMin: int)
    ensures MIN_MS <= UpdatedAll(INIT_MS, samples) <= MAX_MS
    ensures 180 <= AdaptiveTtl(UpdatedAll(INIT_MS, samples), ttlMin) <= TTL_MAX_MS
    decreases |samples|
  {
    hide Round;
    if samples != [] {
      AlwaysInRange(samples[..|samples| - 1], ttlMin);
    }
  }

  /** Under a whole-number sample the filter moves by an eighth of the distance, rounded. */
  lemma {:induction false} IntegerStep(e: int, s: int)
    requires MIN_MS <= e <= MAX_MS && MIN_MS <= s <= MAX_MS
    ensures Updated(e, Some(s as real)) == e + (s - e + 4) / 8
  {
    var x := (e as real) * (1.0 - 1.0 / 8.0) + (s as real) / 8.0;
    var q := (7 * e + s + 4) / 8;
    var m := (7 * e + s + 4) % 8;
    assert 7 * e + s + 4 == 8 * q + m;
    assert x + 0.5 == ((7 * e + s + 4) as real) / 8.0;
    assert ((7 * e + s + 4) as real) == 8.0 * (q as real) + (m as real);
    assert (q as real) <= x + 0.5 < (q as real) + 1.0;
    assert (x + 0.5).Floor == q;
    assert q == e + (s - e + 4) / 8;
  }

  function Repeated(e: int, s: int, n: nat): int {
    if n == 0 then e else Updated(Repeated(e, s, n - 1), Some(s as real))
  }

  /** One step towards a constant sample: never past it, and no step exactly in the dead band. */
  lemma {:induction false} StepTowards(e: int, s: int)
    requires MIN_MS <= e <= MAX_MS && MIN_MS <= s <= MAX_MS
    ensures var t := Updated(e, Some(s as real));
            && (e <= s ==> e <= t <= s) && (s <= e ==> s <= t <= e)
            && (t == e <==> -4 <= s - e <= 3)
  {
    IntegerStep(e, s);
  }

  /** THEOREM (constant sample). The average moves monotonically towards the sample without overshoot, from wherever
      it is. */
  lemma {:induction false} MovesMonotonically(e: int, s: int, n: nat)
    requires MIN_MS <= e <= MAX_MS && MIN_MS <= s <= MAX_MS
    ensures e <= s ==> e <= Repeated(e, s, n) <= Repeated(e, s, n + 1) <= s
    ensures s <= e ==> s <= Repeated(e, s, n + 1) <= Repeated(e, s, n) <= e
    decreases n
  {
    hide Updated;
    if n > 0 {
      MovesMonotonically(e, s, n - 1);
    }
    StepTowards(Repeated(e, s, n), s);
  }

  /** THEOREM (where it stops). After as many samples as the initial distance it has stopped, and it stops exactly in
      the dead band. */
  lemma {:induction false} StopsInDeadBand(e: int, s: int, n: nat)
    requires MIN_MS <= e <= MAX_MS && MIN_MS <= s <= MAX_MS
    ensures Repeated(e, s, n + 1) == Repeated(e, s, n) <==> -4 <= s - Repeated(e, s, n) <= 3
    ensures n >= (if e <= s then s - e else e - s) ==> -4 <= s - Repeated(e, s, n) <= 3
  {
    hide Updated;
    MovesMonotonically(e, s, n);
    StepTowards(Repeated(e, s, n), s);
    Closes(e, s, n);
  }

  /** Every sample outside the dead band brings the average closer. */
  lemma {:induction false} Closes(e: int, s: int, n: nat)
    requires MIN_MS <= e <= MAX_MS && MIN_MS <= s <= MAX_MS
    ensures -4 <= s - Repeated(e, s, n) <= 3
            || (e <= s && s - Repeated(e, s, n) <= s - e - n) || (s <= e && Repeated(e, s, n) - s <= e - s - n)
    decreases n
  {
    hide Updated;
    if n > 0 {
      Closes(e, s, n - 1);
      MovesMonotonically(e, s, n - 1);
      StepTowards(Repeated(e, s, n - 1), s);
    }
  }

  class RttTracker {
    var ewmaMs: int
    const ttlMinMs: int

    constructor (ttlMinMs: int)
      ensures ewmaMs == 70 && this.ttlMinMs == ttlMinMs
    {
      ewmaMs, this.ttlMinMs := INIT_MS, ttlMinMs;
    }

    method Update(rtt: Option<real>) returns (r: int)
      modifies this
      ensures r == ewmaMs == Updated(old(ewmaMs), rtt)
    {
      if rtt.None? || !(rtt.value > 0.0) {
        return ewmaMs;
      }
      var next := ((ewmaMs as real) * (1.0 - 1.0 / 8.0) + rtt.value / 8.0 + 0.5).Floor;
      if next < MIN_MS {
        next := MIN_MS;
      } else if next > MAX_MS {
        next := MAX_MS;
      }
      ewmaMs := next;
      r := next;
    }

    /** `adaptive_ttl` */
    method Ttl() returns (t: int)
      ensures t == AdaptiveTtl(ewmaMs, ttlMinMs)
    {
      t := ewmaMs * 3;
      if t < ttlMinMs {
        t := ttlMinMs;
      }
      if t > TTL_MAX_MS {
        t := TTL_MAX_MS;
      }
    }
  }
}
