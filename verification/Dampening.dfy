/** Feedback dampening: a moving average whose learning rate falls as samples accumulate. Scores are reals. */
module Dampening {
  import opened Results

  const ALPHA_MIN := 0.1
  const ALPHA_MAX := 0.5
  const RAMP_SAMPLES := 50.0
  const PSEUDO_COUNT := 10.0

  /** A configuration, any field of which may be missing. */
  datatype Config = Config(
    alphaMin: Option<real>, alphaMax: Option<real>, rampSamples: Option<real>, pseudoCount: Option<real>)
  {
    function Resolved(): Settings {
      Settings(
        OrDefault(alphaMin, ALPHA_MIN), OrDefault(alphaMax, ALPHA_MAX),
        OrDefault(rampSamples, RAMP_SAMPLES), OrDefault(pseudoCount, PSEUDO_COUNT))
    }

    /** The ranges the configuration schema admits; the last two are whole numbers there. */
    predicate MeetsSchema() {
      var s := Resolved();
      0.0 <= s.alphaMin <= 1.0 && 0.0 <= s.alphaMax <= 1.0 && s.rampSamples >= 1.0 && s.pseudoCount >= 0.0
    }
  }

  function OrDefault<T>(o: Option<T>, default: T): T {
    if o.Some? then o.value else default
  }

  datatype Settings = Settings(alphaMin: real, alphaMax: real, rampSamples: real, pseudoCount: real)

  /** A sample count: a number, or NaN or an infinity. */
  datatype Count = Finite(n: real) | NotFinite

  datatype DampeningError = MinExceedsMax | BadSampleCount

  function Max(a: real, b: real): real {
    if a >= b then a else b
  }

  function Min(a: real, b: real): real {
    if a <= b then a else b
  }

  function Abs(a: real): real {
    if a >= 0.0 then a else -a
  }

  /** The learning rate after `n` samples: the upper rate at none, the lower one from the end of the ramp on. */
  function Alpha(s: Settings, n: real): real
    requires s.rampSamples != 0.0
  {
    var rampProgress := Min(n / s.rampSamples, 1.0);
    s.alphaMin + (s.alphaMax - s.alphaMin) * (1.0 - rampProgress)
  }

  /** Nothing is divided by zero; any configuration within the schema divides by positive numbers. */
  predicate Divides(oldScore: Option<real>, sampleCount: Count, config: Config) {
    var s := config.Resolved();
    if oldScore.Some? then s.rampSamples != 0.0
    else sampleCount.Finite? ==> s.pseudoCount + Max(sampleCount.n, 1.0) != 0.0
  }

  function ComputeDampenedScore(oldScore: Option<real>, newScore: real, sampleCount: Count, config: Config)
    : Result<real, DampeningError>
    requires Divides(oldScore, sampleCount, config)
  {
    var s := config.Resolved();
    if s.alphaMin > s.alphaMax then Failure(MinExceedsMax)
    else if sampleCount.NotFinite? || sampleCount.n < 0.0 then Failure(BadSampleCount)
    else if oldScore.None? then
      var effectiveSamples := Max(sampleCount.n, 1.0);
      var weight := s.pseudoCount / (s.pseudoCount + effectiveSamples);
      Success(weight * 0.5 + (1.0 - weight) * newScore)
    else Success(oldScore.value + Alpha(s, sampleCount.n) * (newScore - oldScore.value))
  }

  // ----- One step -----

  /** A score is computed exactly for a finite, non-negative count under ordered learning rates. */
  lemma ScoresWhenUsable(oldScore: Option<real>, newScore: real, sampleCount: Count, config: Config)
    requires Divides(oldScore, sampleCount, config)
    ensures ComputeDampenedScore(oldScore, newScore, sampleCount, config).Success? <==>
              && config.Resolved().alphaMin <= config.Resolved().alphaMax
              && sampleCount.Finite? && sampleCount.n >= 0.0
  {
  }

  lemma Product(a: real, b: real)
    requires a >= 0.0 && b >= 0.0
    ensures a * b >= 0.0
  {
  }

  lemma Scaled(a: real, b: real, c: real)
    requires a <= b && c >= 0.0
    ensures a * c <= b * c
  {
    Product(b - a, c);
  }

  lemma Part(a: real, c: real, m: real)
    requires 0.0 <= a <= 1.0 && c >= 0.0 && m == a * c
    ensures 0.0 <= m <= c
  {
    var rest := 1.0 - a;
    Product(a, c);
    Product(rest, c);
    assert a * c + rest * c == c;
  }

  lemma DividedByMore(n: real, d: real)
    requires n >= 0.0 && d > 0.0
    ensures n / d >= 0.0
    ensures n <= d <==> n / d <= 1.0
    ensures n >= d <==> n / d >= 1.0
  {
    var q := n / d;
    assert q * d == n;
    if q < 0.0 {
      Product(-q, d);
    }
    if q <= 1.0 {
      Scaled(q, 1.0, d);
    } else {
      assert (q - 1.0) * d > 0.0;
    }
  }

  lemma Divided(n: real, m: real, d: real)
    requires n <= m && d > 0.0
    ensures n / d <= m / d
  {
    var x, y := n / d, m / d;
    assert x * d == n && y * d == m;
    if x > y {
      Scaled(y, x, d);
    }
  }

  lemma Between(lo: real, hi: real, p: real, q: real, x: real, y: real)
    requires lo <= hi && 0.0 <= q <= p <= 1.0
    requires x == lo + (hi - lo) * p && y == lo + (hi - lo) * q
    ensures lo <= y <= x <= hi
  {
    var spread := hi - lo;
    var less, more := q * spread, p * spread;
    Part(q, spread, less);
    Part(p, spread, more);
    Scaled(q, p, spread);
    assert (hi - lo) * q == less && (hi - lo) * p == more;
  }

  lemma Moved(alpha: real, lo: real, hi: real, x: real, y: real, z: real)
    requires 0.0 <= lo <= alpha <= hi <= 1.0
    requires z == x + alpha * (y - x)
    ensures lo * Abs(y - x) <= Abs(z - x) <= hi * Abs(y - x)
    ensures Min(x, y) <= z <= Max(x, y)
  {
    var gap, step := Abs(y - x), alpha * Abs(y - x);
    Part(alpha, gap, step);
    Scaled(lo, alpha, gap);
    Scaled(alpha, hi, gap);
    if y >= x {
      assert gap == y - x && alpha * (y - x) == step;
      assert x <= x + step <= y;
    } else {
      assert gap == x - y && alpha * (y - x) == -step;
      assert y <= x - step <= x;
    }
  }

  lemma AlphaIs(s: Settings, n: real, p: real)
    requires s.rampSamples != 0.0 && p == 1.0 - Min(n / s.rampSamples, 1.0)
    ensures Alpha(s, n) == s.alphaMin + (s.alphaMax - s.alphaMin) * p
    ensures p == 0.0 ==> Alpha(s, n) == s.alphaMin
    ensures p == 1.0 ==> Alpha(s, n) == s.alphaMax
  {
  }

  /** The learning rate lies between the two configured ones, which it reaches at the ends of the ramp, and never
      rises with the number of samples. */
  lemma AlphaInRange(s: Settings, n: real, m: real)
    requires s.rampSamples > 0.0 && s.alphaMin <= s.alphaMax && 0.0 <= n <= m
    ensures s.alphaMin <= Alpha(s, m) <= Alpha(s, n) <= s.alphaMax
    ensures n >= s.rampSamples ==> Alpha(s, n) == s.alphaMin
    ensures n == 0.0 ==> Alpha(s, n) == s.alphaMax
  {
    hide Alpha;
    var ramp := s.rampSamples;
    var p, q := 1.0 - Min(n / ramp, 1.0), 1.0 - Min(m / ramp, 1.0);
    RampsBetween(n, m, ramp, p, q);
    AlphaIs(s, n, p);
    AlphaIs(s, m, q);
    Between(s.alphaMin, s.alphaMax, p, q, Alpha(s, n), Alpha(s, m));
  }

  lemma RampsBetween(n: real, m: real, ramp: real, p: real, q: real)
    requires ramp > 0.0 && 0.0 <= n <= m && p == 1.0 - Min(n / ramp, 1.0) && q == 1.0 - Min(m / ramp, 1.0)
    ensures 0.0 <= q <= p <= 1.0
    ensures n >= ramp ==> p == 0.0
    ensures n == 0.0 ==> p == 1.0
  {
    DividedByMore(n, ramp);
    DividedByMore(m, ramp);
    Divided(n, m, ramp);
  }

  lemma SteadyStep(oldScore: real, newScore: real, n: real, config: Config)
    requires config.MeetsSchema() && config.Resolved().alphaMin <= config.Resolved().alphaMax && n >= 0.0
    ensures ComputeDampenedScore(Some(oldScore), newScore, Finite(n), config)
         == Success(oldScore + Alpha(config.Resolved(), n) * (newScore - oldScore))
  {
    hide Alpha;
    var r := ComputeDampenedScore(Some(oldScore), newScore, Finite(n), config);
    assert r.Success?;
    assert r.value == oldScore + Alpha(config.Resolved(), n) * (newScore - oldScore);
  }

  /** The bounded feedback invariant: a step moves towards the observation, by no more than the upper learning rate
      times the gap and no less than the lower one times it. */
  lemma StepIsBounded(oldScore: real, newScore: real, n: real, config: Config)
    requires config.MeetsSchema() && config.Resolved().alphaMin <= config.Resolved().alphaMax && n >= 0.0
    ensures var s, r := config.Resolved(), ComputeDampenedScore(Some(oldScore), newScore, Finite(n), config);
            && r.Success?
            && s.alphaMin * Abs(newScore - oldScore) <= Abs(r.value - oldScore) <= s.alphaMax * Abs(newScore - oldScore)
            && Min(oldScore, newScore) <= r.value <= Max(oldScore, newScore)
  {
    hide Alpha, ComputeDampenedScore, Abs, Min, Max;
    var s := config.Resolved();
    var alpha := Alpha(s, n);
    SteadyStep(oldScore, newScore, n, config);
    AlphaInRange(s, n, n);
    Moved(alpha, s.alphaMin, s.alphaMax, oldScore, newScore,
          ComputeDampenedScore(Some(oldScore), newScore, Finite(n), config).value);
  }

  lemma MeanOfBoth(weight: real, pseudo: real, total: real, x: real, r: real)
    requires total > 0.0 && weight == pseudo / total && r == x + weight * (0.5 - x)
    ensures r * total == pseudo * 0.5 + (total - pseudo) * x
  {
    assert weight * total == pseudo;
    calc {
      r * total;
      x * total + weight * total * (0.5 - x);
      x * total + pseudo * (0.5 - x);
    }
  }

  /** A first score is the mean of as many halves as the pseudo count says and as many observations as there are
      samples, at least one; it lies between one half and the observation. */
  lemma ColdStartIsBounded(newScore: real, n: real, config: Config)
    requires config.MeetsSchema() && config.Resolved().alphaMin <= config.Resolved().alphaMax && n >= 0.0
    ensures var r := ComputeDampenedScore(None, newScore, Finite(n), config);
            var pseudo, samples := config.Resolved().pseudoCount, Max(n, 1.0);
            && r.Success? && Min(0.5, newScore) <= r.value <= Max(0.5, newScore)
            && r.value * (pseudo + samples) == pseudo * 0.5 + samples * newScore
  {
    var pseudo := config.Resolved().pseudoCount;
    var total := pseudo + Max(n, 1.0);
    DividedByMore(pseudo, total);
    var weight := pseudo / total;
    var r := ComputeDampenedScore(None, newScore, Finite(n), config).value;
    assert r == newScore + weight * (0.5 - newScore);
    if newScore <= 0.5 {
      var gap := 0.5 - newScore;
      Part(weight, gap, weight * gap);
      assert r == newScore + weight * gap;
    } else {
      var gap := newScore - 0.5;
      Part(weight, gap, weight * gap);
      assert r == newScore - weight * gap;
    }
    MeanOfBoth(weight, pseudo, total, newScore, r);
  }

  // ----- Runs -----

  datatype Observation = Observation(score: real, count: Count)

  /** Feeding each result back as the next old score. */
  function Run(start: Option<real>, observations: seq<Observation>, config: Config)
    : Result<Option<real>, DampeningError>
    requires config.MeetsSchema()
  {
    if observations == [] then Success(start)
    else
      var n := |observations| - 1;
      var before :- Run(start, observations[..n], config);
      var after :- ComputeDampenedScore(before, observations[n].score, observations[n].count, config);
      Success(Some(after))
  }

  predicate Usable(observations: seq<Observation>, config: Config) {
    && config.MeetsSchema() && config.Resolved().alphaMin <= config.Resolved().alphaMax
    && forall i :: 0 <= i < |observations| ==> observations[i].count.Finite? && observations[i].count.n >= 0.0
  }

  /** A run stays in any interval that holds its observations and its start, or one half if it starts cold. */
  lemma {:induction false} RunStaysInHull(start: Option<real>, observations: seq<Observation>, config: Config,
                                          lo: real, hi: real)
    requires Usable(observations, config)
    requires lo <= (if start.Some? then start.value else 0.5) <= hi
    requires forall i :: 0 <= i < |observations| ==> lo <= observations[i].score <= hi
    ensures var r := Run(start, observations, config);
            && r.Success? && (r.value.Some? <==> start.Some? || observations != [])
            && (r.value.Some? ==> lo <= r.value.value <= hi)
  {
    hide ComputeDampenedScore;
    if observations != [] {
      var n := |observations| - 1;
      RunStaysInHull(start, observations[..n], config, lo, hi);
      var before, last := Run(start, observations[..n], config).value, observations[n];
      if before.Some? {
        StepIsBounded(before.value, last.score, last.count.n, config);
      } else {
        ColdStartIsBounded(last.score, last.count.n, config);
      }
    }
  }

  function Power(x: real, n: nat): real {
    if n == 0 then 1.0 else x * Power(x, n - 1)
  }

  /** What a run leaves of its start: the product of what each step leaves. */
  function Remains(observations: seq<Observation>, config: Config): real
    requires Usable(observations, config)
  {
    if observations == [] then 1.0
    else
      var n := |observations| - 1;
      (1.0 - Alpha(config.Resolved(), observations[n].count.n)) * Remains(observations[..n], config)
  }

  /** Two runs on the same observations end as far apart as they started, times a factor that depends on neither
      start. */
  lemma {:induction false} RunsDifferByFactor(a: real, b: real, observations: seq<Observation>, config: Config)
    requires Usable(observations, config)
    ensures var x, y := Run(Some(a), observations, config), Run(Some(b), observations, config);
            && x.Success? && x.value.Some? && y.Success? && y.value.Some?
            && x.value.value - y.value.value == Remains(observations, config) * (a - b)
  {
    hide Alpha, ComputeDampenedScore;
    if observations != [] {
      var n := |observations| - 1;
      var last := observations[n];
      var alpha, rest := Alpha(config.Resolved(), last.count.n), Remains(observations[..n], config);
      RunsDifferByFactor(a, b, observations[..n], config);
      var x := Run(Some(a), observations[..n], config).value.value;
      var y := Run(Some(b), observations[..n], config).value.value;
      SteadyStep(x, last.score, last.count.n, config);
      SteadyStep(y, last.score, last.count.n, config);
      Contracted(x, y, last.score, alpha, rest, a - b);
      assert Remains(observations, config) == (1.0 - alpha) * rest;
    }
  }

  lemma Contracted(x: real, y: real, score: real, alpha: real, rest: real, gap: real)
    requires x - y == rest * gap
    ensures x + alpha * (score - x) - (y + alpha * (score - y)) == (1.0 - alpha) * rest * gap
  {
    calc {
      x + alpha * (score - x) - (y + alpha * (score - y));
      (1.0 - alpha) * (x - y);
      (1.0 - alpha) * (rest * gap);
    }
  }

  lemma FactorBounds(alpha: real, alphaMin: real, alphaMax: real, rest: real, low: real, high: real)
    requires alphaMin <= alpha <= alphaMax <= 1.0
    requires 0.0 <= low <= rest <= high
    ensures 0.0 <= (1.0 - alphaMax) * low <= (1.0 - alpha) * rest <= (1.0 - alphaMin) * high
  {
    var p, q, r := 1.0 - alphaMax, 1.0 - alpha, 1.0 - alphaMin;
    Product(p, low);
    Scaled(p, q, low);
    Scaled(low, rest, q);
    Scaled(q, r, rest);
    Scaled(rest, high, r);
    assert p * low <= q * low == low * q <= rest * q == q * rest <= r * rest == rest * r <= high * r == r * high;
  }

  lemma {:induction false} RemainsInRange(observations: seq<Observation>, config: Config)
    requires Usable(observations, config)
    ensures var s, n := config.Resolved(), |observations|;
            0.0 <= Power(1.0 - s.alphaMax, n) <= Remains(observations, config) <= Power(1.0 - s.alphaMin, n)
  {
    hide Alpha;
    if observations != [] {
      var s, n := config.Resolved(), |observations| - 1;
      var count := observations[n].count.n;
      RemainsInRange(observations[..n], config);
      AlphaInRange(s, count, count);
      FactorBounds(Alpha(s, count), s.alphaMin, s.alphaMax, Remains(observations[..n], config),
                   Power(1.0 - s.alphaMax, n), Power(1.0 - s.alphaMin, n));
    }
  }

  /** The start is forgotten: after `n` observations two runs differ by at most `(1 - alpha_min)^n` times their first
      distance, and by at least `(1 - alpha_max)^n` times it. */
  lemma RunsContract(a: real, b: real, observations: seq<Observation>, config: Config)
    requires Usable(observations, config)
    ensures var x, y := Run(Some(a), observations, config), Run(Some(b), observations, config);
            var s, n := config.Resolved(), |observations|;
            && x.Success? && x.value.Some? && y.Success? && y.value.Some?
            && Power(1.0 - s.alphaMax, n) * Abs(a - b)
               <= Abs(x.value.value - y.value.value)
               <= Power(1.0 - s.alphaMin, n) * Abs(a - b)
  {
    hide Run, Remains, Power;
    RunsDifferByFactor(a, b, observations, config);
    RemainsInRange(observations, config);
    var s, n, factor := config.Resolved(), |observations|, Remains(observations, config);
    Scaled(Power(1.0 - s.alphaMax, n), factor, Abs(a - b));
    Scaled(factor, Power(1.0 - s.alphaMin, n), Abs(a - b));
    assert Abs(factor * (a - b)) == factor * Abs(a - b) by {
      Product(factor, Abs(a - b));
    }
  }

  // ----- The defaults -----

  /** Without a configuration the rate falls from one half to one tenth over fifty samples, and a first score is drawn
      towards one half as if by ten samples. */
  lemma Defaults(oldScore: real, newScore: real, n: real)
    requires n >= 0.0
    ensures var none := Config(None, None, None, None);
            var rate := if n <= 50.0 then 0.5 - 0.008 * n else 0.1;
            && ComputeDampenedScore(Some(oldScore), newScore, Finite(n), none)
               == Success(oldScore + rate * (newScore - oldScore))
            && (n >= 1.0 ==>
                  var r := ComputeDampenedScore(None, newScore, Finite(n), none);
                  r.Success? && r.value * (10.0 + n) == 10.0 * 0.5 + n * newScore)
  {
    hide ComputeDampenedScore, Alpha;
    var none := Config(None, None, None, None);
    var rate := if n <= 50.0 then 0.5 - 0.008 * n else 0.1;
    SteadyStep(oldScore, newScore, n, none);
    DefaultRate(n);
    assert Alpha(none.Resolved(), n) == rate;
    if n >= 1.0 {
      ColdStartIsBounded(newScore, n, none);
    }
  }

  lemma DefaultRate(n: real)
    requires n >= 0.0
    ensures Alpha(Config(None, None, None, None).Resolved(), n) == if n <= 50.0 then 0.5 - 0.008 * n else 0.1
  {
    DividedByMore(n, 50.0);
  }

  /** Rates in the wrong order, and counts that are negative or no finite number, are refused, the rates first. */
  lemma Refused(oldScore: Option<real>, newScore: real, sampleCount: Count, config: Config)
    requires Divides(oldScore, sampleCount, config)
    ensures config.Resolved().alphaMin > config.Resolved().alphaMax ==>
              ComputeDampenedScore(oldScore, newScore, sampleCount, config) == Failure(MinExceedsMax)
    ensures config.Resolved().alphaMin <= config.Resolved().alphaMax
            && (sampleCount == NotFinite || sampleCount.n < 0.0) ==>
              ComputeDampenedScore(oldScore, newScore, sampleCount, config) == Failure(BadSampleCount)
  {
  }
}
