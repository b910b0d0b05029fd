/** The cyclic Slurm load generator: a midpoint integration of a job rate whose phase
    accumulator turns the fractional rate into whole job submissions. */
module SlurmLoad {
  import opened Wrappers

  /** The slack of the accumulator's floor and of its snap to zero. */
  const TOLERANCE: real := 0.000000000001

  datatype Config = Config(
    minRate: real, maxRate: real, cycleMinutes: real,
    tickSeconds: real, minuteSeconds: real, maxMinutes: real)
  {
    /** What the argument parsers and `validate` let through. */
    ghost predicate Valid() {
      0.0 <= minRate <= maxRate && 0.0 < cycleMinutes && 0.0 < tickSeconds &&
      0.0 <= minuteSeconds && 0.0 <= maxMinutes
    }

    predicate Finite() { maxMinutes != 0.0 }

    function CycleSeconds(): real { cycleMinutes * 60.0 }

    /** The run's length; only meaningful for a finite run. */
    function DurationSeconds(): real { maxMinutes * 60.0 }
  }

  /** The envelope (1 - cos(2 pi p)) / 2, known only by its range, its extremes and its half-cycle
      symmetry. */
  ghost predicate IsWave(w: real -> real) {
    && w(0.0) == 0.0 && w(0.5) == 1.0
    && (forall p: real :: 0.0 <= p < 1.0 ==> 0.0 <= w(p) <= 1.0)
    && (forall p: real :: 0.0 <= p < 0.5 ==> Opposed(w, p))
  }

  ghost predicate Opposed(w: real -> real, p: real) { w(p) + w(p + 0.5) == 1.0 }

  function Abs(x: real): (r: real)
    ensures 0.0 <= r && (r == x || r == -x)
  {
    if x < 0.0 then -x else x
  }

  function Max(x: real, y: real): (r: real)
    ensures x <= r && y <= r && (r == x || r == y)
  {
    if x < y then y else x
  }

  function Min(x: real, y: real): (r: real)
    ensures r <= x && r <= y && (r == x || r == y)
  {
    if y < x then y else x
  }

  /** Python's `x % 1.0`. */
  function Fraction(x: real): (r: real)
    ensures 0.0 <= r < 1.0
  {
    x - x.Floor as real
  }

  /* ----- Arithmetic kept apart from the state it is used on ----- */

  /** n times x as repeated addition. */
  ghost function Times(n: nat, x: real): real { if n == 0 then 0.0 else Times(n - 1, x) + x }

  lemma {:induction false} TimesIsProduct(n: nat, x: real)
    ensures Times(n, x) == n as real * x
  {
    if n != 0 {
      TimesIsProduct(n - 1, x);
      assert n as real == (n - 1) as real + 1.0;
    }
  }

  lemma ScaleMonotone(x: real, y: real, c: real)
    requires x <= y && 0.0 <= c
    ensures x * c <= y * c
  {
    assert (y - x) * c >= 0.0;
  }

  lemma Distribute(a: real, b: real, c: real)
    ensures (a + b) * c == a * c + b * c
  {
  }

  lemma ScaleStrict(x: real, c: real)
    requires 0.0 < x && 0.0 < c
    ensures 0.0 < x * c
  {
  }

  lemma QuotientIs(a: real, c: real, q: real)
    requires 0.0 < c && q * c == a
    ensures a / c == q
  {
    QuotientCompare(q, a, c);
    var d := a / c;
    assert d * c == a;
    if q < d { Distribute(d, -q, c); ScaleStrict(d - q, c); }
  }

  lemma QuotientCompare(x: real, d: real, t: real)
    requires 0.0 < t
    ensures x < d / t <==> x * t < d
    ensures 0.0 < d ==> 0.0 < d / t
  {
    var q := d / t;
    assert q * t == d;
    if x < q { assert 0.0 < (q - x) * t; Distribute(q, -x, t); }
    else { ScaleMonotone(q, x, t); }
    if q <= 0.0 { ScaleMonotone(q, 0.0, t); }
  }

  lemma CeilingCompare(k: int, q: real)
    ensures k as real < q <==> k < -(-q).Floor
  {
    assert (-k) as real == -(k as real);
    if -k <= (-q).Floor { assert (-k) as real <= (-q).Floor as real; }
  }

  lemma HalfCycleFraction(x: real)
    ensures Fraction(x) < 0.5 ==> Fraction(x + 0.5) == Fraction(x) + 0.5
    ensures 0.5 <= Fraction(x) ==> Fraction(x + 0.5) == Fraction(x) - 0.5
  {
    FloorIs(x + 0.5, if Fraction(x) < 0.5 then x.Floor else x.Floor + 1);
  }

  lemma FloorIs(x: real, n: int)
    requires n as real <= x < n as real + 1.0
    ensures x.Floor == n
  {
    assert x.Floor as real <= x < x.Floor as real + 1.0;
    assert -1.0 < (x.Floor - n) as real < 1.0;
  }

  /* ----- The rate ----- */

  function RateAtPhase(cfg: Config, w: real -> real, phase: real): real {
    cfg.minRate + (cfg.maxRate - cfg.minRate) * w(phase)
  }

  /** The jobs that a rate in jobs per minute gives in some seconds. */
  function Work(rate: real, seconds: real): real { rate * seconds / 60.0 }

  lemma WorkMonotone(r: real, s: real, seconds: real)
    requires r <= s && 0.0 <= seconds
    ensures Work(r, seconds) <= Work(s, seconds)
    ensures r == 0.0 ==> Work(r, seconds) == 0.0
  {
    ScaleMonotone(r, s, seconds);
  }

  lemma WorkAdds(rate: real, a: real, b: real)
    ensures Work(rate, a + b) == Work(rate, a) + Work(rate, b)
  {
    Distribute(a, b, rate);
  }

  lemma WorkOfRates(r: real, s: real, seconds: real)
    ensures Work(r + s, seconds) == Work(r, seconds) + Work(s, seconds)
  {
    Distribute(r, s, seconds);
  }

  lemma WorkOfNoTime(rate: real)
    ensures Work(rate, 0.0) == 0.0
  {
  }

  function RateAt(cfg: Config, w: real -> real, seconds: real): real
    requires cfg.Valid()
  {
    RateAtPhase(cfg, w, Fraction(seconds / cfg.CycleSeconds()))
  }

  /* ----- The phase accumulator, for any increments ----- */

  /** `math.isclose(a, b, abs_tol = tolerance)`, with its default relative slack of 1e-9. */
  predicate IsClose(a: real, b: real, tolerance: real) {
    Abs(a - b) <= Max(0.000000001 * Max(Abs(a), Abs(b)), tolerance)
  }

  function JobsNow(phase: real, tolerance: real): int { (phase + tolerance).Floor }

  function PhaseAfter(phase: real, jobs: int, tolerance: real): real {
    var rest := Max(0.0, phase - jobs as real);
    if IsClose(rest, 0.0, tolerance) then 0.0 else rest
  }

  datatype Account = Account(jobs: int, phase: real)

  function Feed(increments: seq<real>, tolerance: real): Account {
    if increments == [] then Account(0, 0.0)
    else
      var n := |increments| - 1;
      var before := Feed(increments[..n], tolerance);
      var phase := before.phase + increments[n];
      var jobs := JobsNow(phase, tolerance);
      Account(before.jobs + jobs, PhaseAfter(phase, jobs, tolerance))
  }

  function Sum(xs: seq<real>): real {
    if xs == [] then 0.0 else Sum(xs[..|xs| - 1]) + xs[|xs| - 1]
  }

  /** One tick moves at most the tolerance between the jobs and the work that was owed. */
  lemma AccumulatorStep(phase: real, tolerance: real)
    requires 0.0 <= phase && 0.0 <= tolerance
    ensures var jobs := JobsNow(phase, tolerance);
            var rest := PhaseAfter(phase, jobs, tolerance);
            0 <= jobs && 0.0 <= rest < 1.0 && Abs(jobs as real + rest - phase) <= tolerance
  {
  }

  /** With the generator's tolerance of a million-millionth: a job is issued as soon as the phase is that
      close to it, and what is carried over is the rest of the phase, or nothing if that is no more. */
  lemma WholeJobsAreTaken(phase: real)
    requires 0.0 <= phase
    ensures var jobs := JobsNow(phase, TOLERANCE);
            var rest := PhaseAfter(phase, jobs, TOLERANCE);
            && jobs as real <= phase + 0.000000000001 < jobs as real + 1.0
            && rest == if phase <= jobs as real + 0.000000000001 then 0.0 else phase - jobs as real
  {
  }

  lemma {:induction false} Drift(increments: seq<real>, tolerance: real)
    requires 0.0 <= tolerance && forall i :: 0 <= i < |increments| ==> 0.0 <= increments[i]
    ensures 0 <= Feed(increments, tolerance).jobs
    ensures 0.0 <= Feed(increments, tolerance).phase < 1.0
    ensures Abs(Feed(increments, tolerance).jobs as real + Feed(increments, tolerance).phase - Sum(increments))
            <= Times(|increments|, tolerance)
  {
    if increments != [] {
      var n := |increments| - 1;
      Drift(increments[..n], tolerance);
      AccumulatorStep(Feed(increments[..n], tolerance).phase + increments[n], tolerance);
    }
  }

  /** Conservation: jobs issued plus the carried phase account for all the work fed in, up to
      one tolerance a tick, whatever the rates and the tick sizes. */
  lemma Conservation(increments: seq<real>, tolerance: real)
    requires 0.0 <= tolerance && forall i :: 0 <= i < |increments| ==> 0.0 <= increments[i]
    ensures 0 <= Feed(increments, tolerance).jobs
    ensures 0.0 <= Feed(increments, tolerance).phase < 1.0
    ensures Abs(Feed(increments, tolerance).jobs as real + Feed(increments, tolerance).phase - Sum(increments))
            <= |increments| as real * tolerance
  {
    hide Feed, Sum, Times;
    Drift(increments, tolerance);
    TimesIsProduct(|increments|, tolerance);
  }

  /** Without tolerance the generator has issued exactly the whole jobs of the exact sum. */
  lemma ExactWithoutTolerance(increments: seq<real>)
    requires forall i :: 0 <= i < |increments| ==> 0.0 <= increments[i]
    ensures Feed(increments, 0.0).jobs == Sum(increments).Floor
  {
    Conservation(increments, 0.0);
    FloorIs(Sum(increments), Feed(increments, 0.0).jobs);
  }

  /* ----- The run: k ticks of the loop ----- */

  /** The logical time at which tick k starts. */
  function Logical(cfg: Config, k: nat): real {
    if k == 0 then 0.0 else Logical(cfg, k - 1) + TickAt(cfg, Logical(cfg, k - 1))
  }

  /** The tick taken at a logical time: the last one is cut to end at the duration. */
  function TickAt(cfg: Config, logical: real): real {
    if cfg.Finite() then Min(cfg.tickSeconds, cfg.DurationSeconds() - logical) else cfg.tickSeconds
  }

  /** The jobs owed for the tick that starts at a logical time, by the midpoint rule. */
  function Owed(cfg: Config, w: real -> real, logical: real): real
    requires cfg.Valid()
  {
    Work(RateAt(cfg, w, logical + TickAt(cfg, logical) / 2.0), TickAt(cfg, logical))
  }

  function Increments(cfg: Config, w: real -> real, k: nat): (r: seq<real>)
    requires cfg.Valid()
    ensures |r| == k
  {
    if k == 0 then [] else Increments(cfg, w, k - 1) + [Owed(cfg, w, Logical(cfg, k - 1))]
  }

  function TicksOf(cfg: Config): int
    requires cfg.Valid()
  {
    -(-(cfg.DurationSeconds() / cfg.tickSeconds)).Floor
  }

  lemma {:induction false} Tiling(cfg: Config, k: nat)
    requires cfg.Valid()
    ensures Logical(cfg, k) == if cfg.Finite() then Min(Times(k, cfg.tickSeconds), cfg.DurationSeconds())
                               else Times(k, cfg.tickSeconds)
    ensures 0.0 <= TickAt(cfg, Logical(cfg, k)) <= cfg.tickSeconds
  {
    if k != 0 { Tiling(cfg, k - 1); }
  }

  /** Time tiling: ticks are full until the duration cuts the last one. */
  lemma LogicalIsTiled(cfg: Config, k: nat)
    requires cfg.Valid()
    ensures Logical(cfg, k) == if cfg.Finite() then Min(k as real * cfg.tickSeconds, cfg.DurationSeconds())
                               else k as real * cfg.tickSeconds
  {
    Tiling(cfg, k);
    hide Times, Logical;
    TimesIsProduct(k, cfg.tickSeconds);
  }

  /** The loop's guard holds before tick k exactly when k is below ceil(duration / tick), so a
      finite run takes that many ticks and stops at the duration itself. */
  lemma TickCount(cfg: Config, k: nat)
    requires cfg.Valid() && cfg.Finite()
    ensures Logical(cfg, k) < cfg.DurationSeconds() <==> k < TicksOf(cfg)
    ensures TicksOf(cfg) <= k ==> Logical(cfg, k) == cfg.DurationSeconds()
    ensures 0 < TicksOf(cfg)
  {
    LogicalIsTiled(cfg, k);
    QuotientCompare(k as real, cfg.DurationSeconds(), cfg.tickSeconds);
    CeilingCompare(k, cfg.DurationSeconds() / cfg.tickSeconds);
    CeilingCompare(0, cfg.DurationSeconds() / cfg.tickSeconds);
  }

  lemma PartOfRange(v: real, d: real)
    requires 0.0 <= v <= 1.0 && 0.0 <= d
    ensures 0.0 <= d * v <= d
  {
    ScaleMonotone(0.0, v, d);
    ScaleMonotone(v, 1.0, d);
  }

  lemma PhaseBounds(cfg: Config, w: real -> real, phase: real)
    requires cfg.minRate <= cfg.maxRate && IsWave(w) && 0.0 <= phase < 1.0
    ensures cfg.minRate <= RateAtPhase(cfg, w, phase) <= cfg.maxRate
  {
    PartOfRange(w(phase), cfg.maxRate - cfg.minRate);
  }

  lemma RateBounds(cfg: Config, w: real -> real, seconds: real)
    requires cfg.Valid() && IsWave(w)
    ensures cfg.minRate <= RateAt(cfg, w, seconds) <= cfg.maxRate
  {
    hide RateAtPhase;
    PhaseBounds(cfg, w, Fraction(seconds / cfg.CycleSeconds()));
  }

  lemma OwedBounds(cfg: Config, w: real -> real, k: nat)
    requires cfg.Valid() && IsWave(w)
    ensures 0.0 <= Owed(cfg, w, Logical(cfg, k))
    ensures Work(cfg.minRate, TickAt(cfg, Logical(cfg, k))) <= Owed(cfg, w, Logical(cfg, k))
            <= Work(cfg.maxRate, TickAt(cfg, Logical(cfg, k)))
  {
    hide Work, RateAt;
    Tiling(cfg, k);
    var logical := Logical(cfg, k);
    var tick := TickAt(cfg, logical);
    var rate := RateAt(cfg, w, logical + tick / 2.0);
    RateBounds(cfg, w, logical + tick / 2.0);
    WorkMonotone(0.0, rate, tick);
    WorkMonotone(cfg.minRate, rate, tick);
    WorkMonotone(rate, cfg.maxRate, tick);
  }

  lemma SumOfIncrements(cfg: Config, w: real -> real, k: nat)
    requires cfg.Valid() && 0 < k
    ensures Sum(Increments(cfg, w, k)) == Sum(Increments(cfg, w, k - 1)) + Owed(cfg, w, Logical(cfg, k - 1))
  {
    hide Owed;
    assert Increments(cfg, w, k)[..k - 1] == Increments(cfg, w, k - 1);
  }

  lemma {:induction false} OwedNonNegative(cfg: Config, w: real -> real, k: nat)
    requires cfg.Valid() && IsWave(w)
    ensures forall i :: 0 <= i < k ==> 0.0 <= Increments(cfg, w, k)[i]
  {
    hide Owed, Work, IsWave;
    if k != 0 {
      OwedNonNegative(cfg, w, k - 1);
      OwedBounds(cfg, w, k - 1);
    }
  }

  lemma LogicalNext(cfg: Config, k: nat)
    requires 0 < k
    ensures Logical(cfg, k) == Logical(cfg, k - 1) + TickAt(cfg, Logical(cfg, k - 1))
  {
    hide TickAt;
  }

  lemma NothingYet(cfg: Config, w: real -> real)
    requires cfg.Valid()
    ensures Logical(cfg, 0) == 0.0 == Sum(Increments(cfg, w, 0))
  {
  }

  lemma WorkStep(low: real, high: real, logical: real, tick: real, sum: real, owed: real)
    requires Work(low, logical) <= sum <= Work(high, logical)
    requires Work(low, tick) <= owed <= Work(high, tick)
    ensures Work(low, logical + tick) <= sum + owed <= Work(high, logical + tick)
  {
    WorkAdds(low, logical, tick);
    WorkAdds(high, logical, tick);
    hide Work;
  }

  /** The work owed after k ticks lies between the extreme rates held over the elapsed time. */
  lemma {:induction false} WorkBounds(cfg: Config, w: real -> real, k: nat)
    requires cfg.Valid() && IsWave(w)
    ensures Work(cfg.minRate, Logical(cfg, k)) <= Sum(Increments(cfg, w, k)) <= Work(cfg.maxRate, Logical(cfg, k))
  {
    hide *;
    NothingYet(cfg, w);
    if k == 0 {
      WorkOfNoTime(cfg.minRate);
      WorkOfNoTime(cfg.maxRate);
    } else {
      WorkBounds(cfg, w, k - 1);
      OwedBounds(cfg, w, k - 1);
      SumOfIncrements(cfg, w, k);
      LogicalNext(cfg, k);
      var logical := Logical(cfg, k - 1);
      WorkStep(cfg.minRate, cfg.maxRate, logical, TickAt(cfg, logical), Sum(Increments(cfg, w, k - 1)),
          Owed(cfg, w, logical));
    }
  }

  function Issued(cfg: Config, w: real -> real, k: nat): Account
    requires cfg.Valid()
  {
    Feed(Increments(cfg, w, k), TOLERANCE)
  }

  lemma IssuedNext(cfg: Config, w: real -> real, k: nat)
    requires cfg.Valid() && IsWave(w)
    ensures var phase := Issued(cfg, w, k).phase + Owed(cfg, w, Logical(cfg, k));
            var jobs := JobsNow(phase, TOLERANCE);
            && 0 <= jobs
            && Issued(cfg, w, k + 1) == Account(Issued(cfg, w, k).jobs + jobs, PhaseAfter(phase, jobs, TOLERANCE))
  {
    hide Owed, JobsNow, PhaseAfter, Work, IsWave;
    assert Increments(cfg, w, k + 1)[..k] == Increments(cfg, w, k);
    OwedNonNegative(cfg, w, k);
    OwedBounds(cfg, w, k);
    Conservation(Increments(cfg, w, k), TOLERANCE);
    AccumulatorStep(Issued(cfg, w, k).phase + Owed(cfg, w, Logical(cfg, k)), TOLERANCE);
  }

  /** How far the tolerance can carry the jobs away from the work in k ticks. */
  function Slack(k: nat): real { k as real * TOLERANCE }

  lemma IssuedDrift(cfg: Config, w: real -> real, k: nat)
    requires cfg.Valid() && IsWave(w)
    ensures 0.0 <= Issued(cfg, w, k).phase < 1.0
    ensures Abs(Issued(cfg, w, k).jobs as real + Issued(cfg, w, k).phase - Sum(Increments(cfg, w, k))) <= Slack(k)
  {
    hide Feed, Sum, Increments, Work;
    OwedNonNegative(cfg, w, k);
    Conservation(Increments(cfg, w, k), TOLERANCE);
  }

  /** The jobs of a whole finite run stay within one job, and the drift, of the extreme rates. */
  lemma JobBounds(cfg: Config, w: real -> real)
    requires cfg.Valid() && cfg.Finite() && IsWave(w)
    ensures 0 < TicksOf(cfg)
    ensures Work(cfg.minRate, cfg.DurationSeconds()) - 1.0 - Slack(TicksOf(cfg))
            < Issued(cfg, w, TicksOf(cfg)).jobs as real
            <= Work(cfg.maxRate, cfg.DurationSeconds()) + Slack(TicksOf(cfg))
  {
    hide Work, Issued, TicksOf, Sum, Increments;
    TickCount(cfg, 0);
    var k := TicksOf(cfg);
    TickCount(cfg, k);
    WorkBounds(cfg, w, k);
    IssuedDrift(cfg, w, k);
  }

  /* ----- Full cycles ----- */

  /** A cycle cut into n equal ticks, n even, that the duration does not cut short for m cycles. */
  ghost predicate WholeCycles(cfg: Config, n: nat, m: nat) {
    && cfg.Valid() && 0 < n && n % 2 == 0
    && n as real * cfg.tickSeconds == cfg.CycleSeconds()
    && (cfg.Finite() ==> m as real * cfg.CycleSeconds() <= cfg.DurationSeconds())
  }

  lemma Regroup(m: nat, n: nat, t: real)
    ensures (m * n) as real * t == m as real * (n as real * t)
  {
    assert (m * n) as real == m as real * n as real;
  }

  lemma TickFits(k: nat, i: nat, t: real, end: real)
    requires i < k && 0.0 < t && k as real * t <= end
    ensures i as real * t + t <= end
  {
    ScaleMonotone(i as real + 1.0, k as real, t);
    Distribute(i as real, 1.0, t);
  }

  /** Such a tick is neither delayed nor cut. */
  lemma UncutTick(cfg: Config, i: nat, at: real)
    requires cfg.Valid() && at == i as real * cfg.tickSeconds
    requires cfg.Finite() ==> at + cfg.tickSeconds <= cfg.DurationSeconds()
    ensures Logical(cfg, i) == at && TickAt(cfg, Logical(cfg, i)) == cfg.tickSeconds
  {
    hide Logical;
    LogicalIsTiled(cfg, i);
  }

  lemma CycleTick(cfg: Config, n: nat, m: nat, i: nat)
    requires WholeCycles(cfg, n, m) && i < m * n
    ensures Logical(cfg, i) == i as real * cfg.tickSeconds && TickAt(cfg, Logical(cfg, i)) == cfg.tickSeconds
  {
    hide Logical, TickAt, Config.DurationSeconds, Config.CycleSeconds;
    var t := cfg.tickSeconds;
    Regroup(m, n, t);
    if cfg.Finite() { TickFits(m * n, i, t, cfg.DurationSeconds()); }
    UncutTick(cfg, i, i as real * t);
  }

  lemma HalfCycleLater(a: real, c: real)
    requires 0.0 < c
    ensures (a + c / 2.0) / c == a / c + 0.5
  {
    var x := a / c;
    assert x * c == a;
    Distribute(x, 0.5, c);
    QuotientIs(a + c / 2.0, c, x + 0.5);
  }

  /** Rates half a cycle apart add up to the sum of the extreme rates. */
  lemma OpposedRates(cfg: Config, w: real -> real, a: real, b: real)
    requires cfg.Valid() && IsWave(w) && b == a + cfg.CycleSeconds() / 2.0
    ensures RateAt(cfg, w, a) + RateAt(cfg, w, b) == cfg.minRate + cfg.maxRate
  {
    var c := cfg.CycleSeconds();
    HalfCycleLater(a, c);
    HalfCycleFraction(a / c);
    var p, q := Fraction(a / c), Fraction(a / c + 0.5);
    assert w(p) + w(q) == 1.0 by {
      if p < 0.5 { assert Opposed(w, p); } else { assert Opposed(w, q); }
    }
    var d := cfg.maxRate - cfg.minRate;
    assert d * w(p) + d * w(q) == d by { Distribute(w(p), w(q), d); }
  }

  /** The rate repeats itself with every cycle. */
  lemma RateIsCyclic(cfg: Config, w: real -> real, k: nat, a: real)
    requires cfg.Valid()
    ensures RateAt(cfg, w, k as real * cfg.CycleSeconds() + a) == RateAt(cfg, w, a)
  {
    var b := k as real * cfg.CycleSeconds() + a;
    SamePhase(k, a, b, cfg.CycleSeconds());
    hide RateAtPhase, Fraction, Config.CycleSeconds;
  }

  lemma SamePhase(k: nat, a: real, b: real, c: real)
    requires 0.0 < c && b == k as real * c + a
    ensures Fraction(b / c) == Fraction(a / c)
  {
    var x := a / c;
    assert x * c == a;
    Distribute(k as real, x, c);
    QuotientIs(b, c, k as real + x);
    FloorIs(k as real + x, k + x.Floor);
  }

  /** Every cycle starts at the lowest rate, and is at the highest when half of it is over. */
  lemma CyclesRunFromLowToHigh(cfg: Config, w: real -> real, k: nat)
    requires cfg.Valid() && IsWave(w)
    ensures RateAt(cfg, w, k as real * cfg.CycleSeconds()) == cfg.minRate
    ensures RateAt(cfg, w, k as real * cfg.CycleSeconds() + cfg.CycleSeconds() / 2.0) == cfg.maxRate
  {
    var c := cfg.CycleSeconds();
    RateIsCyclic(cfg, w, k, 0.0);
    RateIsCyclic(cfg, w, k, c / 2.0);
    QuotientIs(0.0, c, 0.0);
    QuotientIs(c / 2.0, c, 0.5);
    FloorIs(0.5, 0);
    assert RateAt(cfg, w, c / 2.0) == RateAtPhase(cfg, w, 0.5) == cfg.maxRate;
  }

  /** The cosine falls on the first half of its cycle, so that the envelope rises. */
  ghost predicate IsRising(w: real -> real) { forall p: real, q: real :: 0.0 <= p <= q <= 0.5 ==> w(p) <= w(q) }

  lemma InFirstHalf(a: real, c: real)
    requires 0.0 <= a <= c / 2.0 && 0.0 < c
    ensures 0.0 <= a / c <= 0.5 && Fraction(a / c) == a / c
  {
    QuotientCompare(0.5, a, c);
    QuotientCompare(0.0, a, c);
    if a == 0.0 { QuotientIs(0.0, c, 0.0); }
    FloorIs(a / c, 0);
  }

  lemma QuotientMonotone(a: real, b: real, c: real)
    requires a <= b && 0.0 < c
    ensures a / c <= b / c
  {
    var x, y := a / c, b / c;
    assert x * c == a && y * c == b;
    if y < x { ScaleStrict(x - y, c); Distribute(x, -y, c); }
  }

  lemma RisingRate(cfg: Config, w: real -> real, a: real, b: real)
    requires cfg.Valid() && IsRising(w) && 0.0 <= a <= b <= cfg.CycleSeconds() / 2.0
    ensures RateAt(cfg, w, a) <= RateAt(cfg, w, b)
  {
    var c := cfg.CycleSeconds();
    InFirstHalf(a, c);
    InFirstHalf(b, c);
    QuotientMonotone(a, b, c);
    var p, q := a / c, b / c;
    assert w(p) <= w(q);
    ScaleMonotone(w(p), w(q), cfg.maxRate - cfg.minRate);
  }

  lemma FirstHalfTimes(n: nat, i: nat, j: nat, t: real, c: real)
    requires n % 2 == 0 && n as real * t == c && i <= j < n / 2 && 0.0 < t
    ensures 0.0 <= i as real * t + t / 2.0 <= j as real * t + t / 2.0 <= c / 2.0
  {
    var h := n / 2;
    assert n as real == h as real + h as real;
    Distribute(h as real, h as real, t);
    ScaleMonotone(0.0, i as real, t);
    ScaleMonotone(i as real, j as real, t);
    ScaleMonotone(j as real + 1.0, h as real, t);
    Distribute(j as real, 1.0, t);
  }

  lemma CycleStart(k: nat, n: nat, i: nat, t: real, c: real)
    requires n as real * t == c
    ensures (k * n + i) as real * t + t / 2.0 == k as real * c + (i as real * t + t / 2.0)
  {
    Regroup(k, n, t);
    assert (k * n + i) as real == (k * n) as real + i as real;
    Distribute((k * n) as real, i as real, t);
  }

  lemma TicksAreInCycle(k: nat, m: nat, n: nat, i: nat)
    requires k < m && i < n
    ensures k * n + i < m * n
  {
    CyclesFit(k + 1, m, n);
  }

  lemma OwedInLaterCycle(cfg: Config, w: real -> real, n: nat, m: nat, k: nat, i: nat, a: real)
    requires WholeCycles(cfg, n, m) && k < m && i < n && a == i as real * cfg.tickSeconds + cfg.tickSeconds / 2.0
    ensures Owed(cfg, w, Logical(cfg, k * n + i)) == Work(RateAt(cfg, w, a), cfg.tickSeconds)
  {
    hide Work, RateAt, Owed, Logical, Config.CycleSeconds;
    TicksAreInCycle(k, m, n, i);
    CycleStart(k, n, i, cfg.tickSeconds, cfg.CycleSeconds());
    OwedInCycle(cfg, w, n, m, k * n + i, k as real * cfg.CycleSeconds() + a);
    RateIsCyclic(cfg, w, k, a);
  }

  /** The load of every cycle builds up: on its first half a tick owes no less than an earlier one. */
  lemma LoadBuildsUp(cfg: Config, w: real -> real, n: nat, m: nat, k: nat, i: nat, j: nat)
    requires WholeCycles(cfg, n, m) && IsRising(w) && k < m && i <= j < n / 2
    ensures Owed(cfg, w, Logical(cfg, k * n + i)) <= Owed(cfg, w, Logical(cfg, k * n + j))
  {
    hide Work, RateAt, IsRising, Owed, Logical, Config.CycleSeconds;
    var t := cfg.tickSeconds;
    var a, b := i as real * t + t / 2.0, j as real * t + t / 2.0;
    FirstHalfTimes(n, i, j, t, cfg.CycleSeconds());
    OwedInLaterCycle(cfg, w, n, m, k, i, a);
    OwedInLaterCycle(cfg, w, n, m, k, j, b);
    RisingRate(cfg, w, a, b);
    WorkMonotone(RateAt(cfg, w, a), RateAt(cfg, w, b), t);
  }

  lemma HalfCycleOfTicks(n: nat, i: nat, t: real, c: real)
    requires n % 2 == 0 && n as real * t == c
    ensures (i + n / 2) as real * t == i as real * t + c / 2.0
  {
    var h := n / 2;
    assert n as real == h as real + h as real;
    Distribute(h as real, h as real, t);
    assert (i + h) as real == i as real + h as real;
    Distribute(i as real, h as real, t);
  }

  lemma OwedInCycle(cfg: Config, w: real -> real, n: nat, m: nat, i: nat, midpoint: real)
    requires WholeCycles(cfg, n, m) && i < m * n && midpoint == i as real * cfg.tickSeconds + cfg.tickSeconds / 2.0
    ensures Owed(cfg, w, Logical(cfg, i)) == Work(RateAt(cfg, w, midpoint), cfg.tickSeconds)
  {
    hide Work, RateAt, Logical, TickAt;
    CycleTick(cfg, n, m, i);
  }

  /** Ticks half a cycle apart together owe what one tick at the sum of the extreme rates does. */
  lemma PairedTicks(cfg: Config, w: real -> real, n: nat, m: nat, i: nat)
    requires WholeCycles(cfg, n, m) && IsWave(w) && i + n / 2 < m * n
    ensures Owed(cfg, w, Logical(cfg, i)) + Owed(cfg, w, Logical(cfg, i + n / 2))
            == Work(cfg.minRate + cfg.maxRate, cfg.tickSeconds)
  {
    hide Work, RateAt, IsWave, Owed, Logical;
    HalfCycleOfTicks(n, i, cfg.tickSeconds, cfg.CycleSeconds());
    var a := i as real * cfg.tickSeconds + cfg.tickSeconds / 2.0;
    var b := a + cfg.CycleSeconds() / 2.0;
    OwedInCycle(cfg, w, n, m, i, a);
    OwedInCycle(cfg, w, n, m, i + n / 2, b);
    hide WholeCycles, Config.CycleSeconds;
    OpposedRates(cfg, w, a, b);
    WorkOfRates(RateAt(cfg, w, a), RateAt(cfg, w, b), cfg.tickSeconds);
    var pace := cfg.minRate + cfg.maxRate;
    assert Work(RateAt(cfg, w, a) + RateAt(cfg, w, b), cfg.tickSeconds) == Work(pace, cfg.tickSeconds);
  }

  /** The cosine falls as it rises: the envelope read backwards is itself. */
  ghost predicate IsMirrored(w: real -> real) { forall p: real :: 0.0 < p < 1.0 ==> w(p) == w(1.0 - p) }

  lemma MirroredTime(n: nat, i: nat, t: real, c: real)
    requires i < n && n as real * t == c && 0.0 < t
    ensures (n - 1 - i) as real * t + t / 2.0 == c - (i as real * t + t / 2.0)
    ensures 0.0 < i as real * t + t / 2.0 < c
  {
    var j := n - 1 - i;
    assert n as real == j as real + 1.0 + i as real;
    Distribute(j as real, 1.0 + i as real, t);
    Distribute(1.0, i as real, t);
    ScaleMonotone(0.0, i as real, t);
    ScaleMonotone(0.0, j as real, t);
  }

  lemma MirroredRate(cfg: Config, w: real -> real, a: real)
    requires cfg.Valid() && IsMirrored(w) && 0.0 < a < cfg.CycleSeconds()
    ensures RateAt(cfg, w, a) == RateAt(cfg, w, cfg.CycleSeconds() - a)
  {
    var c := cfg.CycleSeconds();
    var x := a / c;
    QuotientCompare(0.0, a, c);
    assert x * c == a;
    Distribute(x, 1.0 - x, c);
    QuotientIs(c - a, c, 1.0 - x);
    InsideCycle(x, a, c);
    FloorIs(x, 0);
    FloorIs(1.0 - x, 0);
  }

  lemma InsideCycle(x: real, a: real, c: real)
    requires 0.0 < a < c && x * c == a
    ensures 0.0 < x < 1.0
  {
    if x <= 0.0 { ScaleMonotone(x, 0.0, c); }
    if 1.0 <= x { ScaleMonotone(1.0, x, c); }
  }

  /** The midpoint rule is even-handed: a cycle's i-th tick from its start owes what its i-th from
      the end does. */
  lemma MirroredTicks(cfg: Config, w: real -> real, n: nat, m: nat, i: nat)
    requires WholeCycles(cfg, n, m) && IsMirrored(w) && 0 < m && i < n
    ensures Owed(cfg, w, Logical(cfg, i)) == Owed(cfg, w, Logical(cfg, n - 1 - i))
  {
    hide Work, RateAt, IsMirrored, Owed, Logical;
    CyclesFit(1, m, n);
    var a := i as real * cfg.tickSeconds + cfg.tickSeconds / 2.0;
    MirroredTime(n, i, cfg.tickSeconds, cfg.CycleSeconds());
    OwedInCycle(cfg, w, n, m, i, a);
    OwedInCycle(cfg, w, n, m, n - 1 - i, cfg.CycleSeconds() - a);
    MirroredRate(cfg, w, a);
  }

  /** The work of j ticks from s, together with that of the j ticks half a cycle later. */
  lemma {:induction false} PairedWork(cfg: Config, w: real -> real, n: nat, m: nat, s: nat, j: nat)
    requires WholeCycles(cfg, n, m) && IsWave(w) && j <= n / 2 && s + n <= m * n
    ensures Sum(Increments(cfg, w, s + j)) - Sum(Increments(cfg, w, s))
            + Sum(Increments(cfg, w, s + n / 2 + j)) - Sum(Increments(cfg, w, s + n / 2))
            == Times(j, Work(cfg.minRate + cfg.maxRate, cfg.tickSeconds))
  {
    hide Work, Owed, Sum, Increments, Logical, IsWave;
    if j != 0 {
      PairedWork(cfg, w, n, m, s, j - 1);
      assert s + n / 2 + j - 1 == s + j - 1 + n / 2;
      assert s + j - 1 + n / 2 < m * n;
      PairedTicks(cfg, w, n, m, s + j - 1);
      SumOfIncrements(cfg, w, s + j);
      SumOfIncrements(cfg, w, s + n / 2 + j);
    }
  }

  lemma WholeIsTwoHalves(cfg: Config, n: nat, m: nat)
    requires WholeCycles(cfg, n, m)
    ensures n / 2 + n / 2 == n
  {
  }

  /** One cycle's work: its first half paired with its second. */
  lemma OneCycleWork(cfg: Config, w: real -> real, n: nat, m: nat, s: nat)
    requires WholeCycles(cfg, n, m) && IsWave(w) && s + n <= m * n
    ensures Sum(Increments(cfg, w, s + n))
            == Sum(Increments(cfg, w, s)) + Times(n / 2, Work(cfg.minRate + cfg.maxRate, cfg.tickSeconds))
  {
    hide *;
    WholeIsTwoHalves(cfg, n, m);
    PairedWork(cfg, w, n, m, s, n / 2);
    assert s + n / 2 + n / 2 == s + n;
  }

  lemma {:induction false} WholeCycleWork(cfg: Config, w: real -> real, n: nat, m: nat, c: nat)
    requires WholeCycles(cfg, n, m) && IsWave(w) && c <= m
    ensures Sum(Increments(cfg, w, c * n))
            == Times(c, Times(n / 2, Work(cfg.minRate + cfg.maxRate, cfg.tickSeconds)))
  {
    hide Work, Owed, Logical, IsWave, WholeCycles;
    if c == 0 {
      assert c * n == 0;
    } else {
      hide Sum, Increments;
      WholeCycleWork(cfg, w, n, m, c - 1);
      CyclesFit(c, m, n);
      OneCycleWork(cfg, w, n, m, (c - 1) * n);
    }
  }

  lemma CyclesFit(c: nat, m: nat, n: nat)
    requires 0 < c <= m
    ensures (c - 1) * n + n == c * n <= m * n
  {
  }

  /** What m cycles give at the mean of the two rates. */
  function MeanJobs(cfg: Config, m: nat): real {
    m as real * (cfg.cycleMinutes * ((cfg.minRate + cfg.maxRate) / 2.0))
  }

  lemma MeanOfCycles(cfg: Config, n: nat, m: nat)
    requires WholeCycles(cfg, n, m)
    ensures m as real * Times(n / 2, Work(cfg.minRate + cfg.maxRate, cfg.tickSeconds)) == MeanJobs(cfg, m)
  {
    CycleWork(n, cfg.minRate + cfg.maxRate, cfg.tickSeconds, cfg.cycleMinutes);
    hide Times, Work;
  }

  lemma MeanIsExact(cfg: Config, w: real -> real, n: nat, m: nat)
    requires WholeCycles(cfg, n, m) && IsWave(w)
    ensures Sum(Increments(cfg, w, m * n)) == MeanJobs(cfg, m)
  {
    hide *;
    WholeCycleWork(cfg, w, n, m, m);
    TimesIsProduct(m, Times(n / 2, Work(cfg.minRate + cfg.maxRate, cfg.tickSeconds)));
    MeanOfCycles(cfg, n, m);
  }

  /** Full-cycle mean: after m whole cycles of n ticks the jobs issued differ by less than one,
      plus the drift, from what the mean of the two rates gives. */
  lemma FullCycleMean(cfg: Config, w: real -> real, n: nat, m: nat)
    requires WholeCycles(cfg, n, m) && IsWave(w)
    ensures Abs(Issued(cfg, w, m * n).jobs as real - MeanJobs(cfg, m)) < 1.0 + (m * n) as real * 0.000000000001
  {
    hide MeanJobs, IsWave, Issued, Sum, Increments;
    MeanIsExact(cfg, w, n, m);
    IssuedDrift(cfg, w, m * n);
    var account := Issued(cfg, w, m * n);
    WithinOneJob(account.jobs as real, account.phase, MeanJobs(cfg, m), Slack(m * n));
  }

  lemma WithinOneJob(jobs: real, phase: real, sum: real, slack: real)
    requires 0.0 <= phase < 1.0 && Abs(jobs + phase - sum) <= slack
    ensures Abs(jobs - sum) < 1.0 + slack
  {
  }

  lemma CycleWork(n: nat, pace: real, tick: real, minutes: real)
    requires n % 2 == 0 && n as real * tick == minutes * 60.0
    ensures Times(n / 2, Work(pace, tick)) == minutes * (pace / 2.0)
  {
    var h := n / 2;
    TimesIsProduct(h, Work(pace, tick));
    hide Times;
    assert n as real == h as real + h as real;
    Distribute(h as real, h as real, tick);
    assert h as real * (pace * tick) == pace * (h as real * tick);
  }

  /** A run that no signal ends takes the configured minutes, of 60 logical seconds each, in the fewest
      ticks that reach them. */
  ghost predicate RanFor(cfg: Config, ticks: nat, logicalSeconds: real) {
    && cfg.maxMinutes != 0.0 && logicalSeconds == cfg.maxMinutes * 60.0
    && (ticks - 1) as real * cfg.tickSeconds < logicalSeconds <= ticks as real * cfg.tickSeconds
  }

  lemma FullRunIs(cfg: Config, ticks: nat)
    requires cfg.Valid() && cfg.Finite() && ticks == TicksOf(cfg)
    ensures RanFor(cfg, ticks, cfg.DurationSeconds())
  {
    TickCount(cfg, ticks);
    LogicalIsTiled(cfg, ticks);
    TickCount(cfg, ticks - 1);
    LogicalIsTiled(cfg, ticks - 1);
    hide Logical, TicksOf;
  }

  /* ----- The imperative loop ----- */

  /** One call of sbatch: when it was made, for which logical time, and whether sbatch took it.
      A refused submission is logged and still counted. */
  datatype Submission = Submission(wall: real, logical: real, accepted: bool)

  /** The submissions that sbatch took. */
  function AcceptedCount(submissions: seq<Submission>): nat {
    if submissions == [] then 0
    else AcceptedCount(submissions[..|submissions| - 1]) + if submissions[|submissions| - 1].accepted then 1 else 0
  }

  /** The accepted submissions are all exactly when none was refused. */
  lemma {:induction false} AcceptedAreAll(submissions: seq<Submission>)
    ensures AcceptedCount(submissions) <= |submissions|
    ensures AcceptedCount(submissions) == |submissions| <==>
                forall i :: 0 <= i < |submissions| ==> submissions[i].accepted
  {
    if submissions != [] {
      var n := |submissions| - 1;
      AcceptedAreAll(submissions[..n]);
      assert forall i :: 0 <= i < n ==> submissions[..n][i] == submissions[i];
    }
  }

  /* ----- Signals ----- */

  /** Where in a tick a signal can end the run: at its start, once the work is fed to the phase, once
      the whole jobs are taken off it, once it is snapped to zero, or, with the logical time advanced,
      when some jobs are counted, be it in the sleep before the first or between two. There sbatch may
      have been called for one job more, which is not counted yet. */
  datatype Point = Start | Fed | TakenOff | Snapped | Submitting(counted: nat, called: bool)

  datatype Signal = Signal(tick: nat, point: Point)

  /** What the final summary reports. */
  datatype Report = Report(jobs: int, phase: real, logical: real)

  /** The whole jobs of tick k. */
  function JobsOfTick(cfg: Config, w: real -> real, k: nat): int
    requires cfg.Valid()
  {
    JobsNow(Issued(cfg, w, k).phase + Owed(cfg, w, Logical(cfg, k)), TOLERANCE)
  }

  /** A point at which the tick has already done all its submissions is the end of the tick. */
  function Within(point: Point, jobs: int): Point
    requires 0 <= jobs
  {
    if point.Submitting? && jobs <= point.counted then Submitting(jobs, false) else point
  }

  function ReportAt(cfg: Config, w: real -> real, k: nat, point: Point): Report
    requires cfg.Valid()
  {
    var before, fed := Issued(cfg, w, k), Issued(cfg, w, k).phase + Owed(cfg, w, Logical(cfg, k));
    match point
    case Start => Report(before.jobs, before.phase, Logical(cfg, k))
    case Fed => Report(before.jobs, fed, Logical(cfg, k))
    case TakenOff => Report(before.jobs, Max(0.0, fed - JobsOfTick(cfg, w, k) as real), Logical(cfg, k))
    case Snapped => Report(before.jobs, Issued(cfg, w, k + 1).phase, Logical(cfg, k))
    case Submitting(counted, _) => Report(before.jobs + counted, Issued(cfg, w, k + 1).phase, Logical(cfg, k + 1))
  }

  /** The jobs that are off the phase and not in the count. */
  function Missing(cfg: Config, w: real -> real, k: nat, point: Point): int
    requires cfg.Valid()
  {
    match point
    case Start => 0
    case Fed => 0
    case TakenOff => JobsOfTick(cfg, w, k)
    case Snapped => JobsOfTick(cfg, w, k)
    case Submitting(counted, _) => JobsOfTick(cfg, w, k) - counted
  }

  /** The work that was fed to the phase. */
  function WorkFed(cfg: Config, w: real -> real, k: nat, point: Point): real
    requires cfg.Valid()
  {
    Sum(Increments(cfg, w, if point.Start? then k else k + 1))
  }

  lemma TakenOffDrift(phase: real, tolerance: real)
    requires 0.0 <= phase && 0.0 <= tolerance
    ensures var jobs := JobsNow(phase, tolerance);
            Abs(jobs as real + Max(0.0, phase - jobs as real) - phase) <= tolerance
  {
  }

  lemma SlackNext(k: nat)
    ensures Slack(k + 1) == Slack(k) + TOLERANCE
  {
    Distribute(k as real, 1.0, TOLERANCE);
  }

  /** At whatever point a run is cut, the report and the missing jobs account for the work. */
  lemma CutAccounts(cfg: Config, w: real -> real, k: nat, point: Point)
    requires cfg.Valid() && IsWave(w)
    ensures var r := ReportAt(cfg, w, k, point);
            Abs((r.jobs + Missing(cfg, w, k, point)) as real + r.phase - WorkFed(cfg, w, k, point)) <= Slack(k + 1)
  {
    hide Work, Owed, Logical, Feed, Sum, Increments, Issued, IsWave, JobsNow, PhaseAfter, Slack, Config.Valid;
    IssuedDrift(cfg, w, k);
    IssuedDrift(cfg, w, k + 1);
    IssuedNext(cfg, w, k);
    SumOfIncrements(cfg, w, k + 1);
    SlackNext(k);
    OwedBounds(cfg, w, k);
    TakenOffDrift(Issued(cfg, w, k).phase + Owed(cfg, w, Logical(cfg, k)), TOLERANCE);
  }

  /** So the report of a cut run accounts for the work, up to the drift, exactly when no job is missing:
      at the start of a tick or before jobs are taken off, and else when the tick issued no job or all of
      its jobs are counted. */
  lemma CutConservesExactly(cfg: Config, w: real -> real, k: nat, point: Point)
    requires cfg.Valid() && IsWave(w) && 2.0 * Slack(k + 1) < 1.0
    requires 0 <= JobsOfTick(cfg, w, k) && point == Within(point, JobsOfTick(cfg, w, k))
    ensures var r := ReportAt(cfg, w, k, point);
            Abs(r.jobs as real + r.phase - WorkFed(cfg, w, k, point)) <= Slack(k + 1) <==>
              || point.Start? || point.Fed?
              || (if point.Submitting? then point.counted else 0) == JobsOfTick(cfg, w, k)
  {
    CutAccounts(cfg, w, k, point);
    hide JobsOfTick, ReportAt, WorkFed, Slack, IsWave, Config.Valid;
  }

  /** A run of one tick that owes one job. The job counts though sbatch may refuse it; and a signal in
      the first sleep reports no job and no phase for the work of one. */
  lemma OneJobIsOwed(w: real -> real)
    requires IsWave(w)
    ensures var cfg := Config(60.0, 60.0, 1.0, 1.0, 60.0, 1.0);
            && cfg.Valid() && Issued(cfg, w, 1).jobs == 1
            && ReportAt(cfg, w, 0, Submitting(0, false)) == Report(0, 0.0, 1.0)
            && WorkFed(cfg, w, 0, Submitting(0, false)) == 1.0
  {
    var cfg := Config(60.0, 60.0, 1.0, 1.0, 60.0, 1.0);
    assert Increments(cfg, w, 1)[..0] == [] && Increments(cfg, w, 0) == [];
    assert TickAt(cfg, 0.0) == 1.0 && Logical(cfg, 0) == 0.0 && Logical(cfg, 1) == 1.0;
    RateBounds(cfg, w, 0.5);
    hide RateAt, Fraction;
    var owed := Increments(cfg, w, 1);
    assert owed[0] == Owed(cfg, w, Logical(cfg, 0)) == 1.0;
    assert Feed(owed[..0], TOLERANCE) == Account(0, 0.0);
    FloorIs(1.0 + TOLERANCE, 1);
    assert JobsNow(0.0 + owed[0], TOLERANCE) == 1;
    assert Feed(owed, TOLERANCE) == Account(1, PhaseAfter(1.0, 1, TOLERANCE));
    assert Sum(owed[..0]) == 0.0;
  }

  /** The submission belongs to the tick in which the accumulator issued its job, and carries the
      logical time at that tick's end. */
  ghost predicate Stamped(cfg: Config, w: real -> real, ticks: nat, submissions: seq<Submission>, i: nat)
    requires cfg.Valid() && i < |submissions|
  {
    exists k: nat :: StampedBy(cfg, w, ticks, submissions[i], i, k)
  }

  ghost predicate StampedBy(cfg: Config, w: real -> real, ticks: nat, s: Submission, i: nat, k: nat)
    requires cfg.Valid()
  {
    k < ticks && Issued(cfg, w, k).jobs <= i < Issued(cfg, w, k + 1).jobs && s.logical == Logical(cfg, k + 1)
  }

  lemma StampsStay(cfg: Config, w: real -> real, ticks: nat, before: seq<Submission>, after: seq<Submission>, i: nat)
    requires cfg.Valid() && before <= after && i < |before| && Stamped(cfg, w, ticks, before, i)
    ensures Stamped(cfg, w, ticks + 1, after, i)
  {
    hide Issued, Logical;
    var k: nat :| StampedBy(cfg, w, ticks, before[i], i, k);
    assert StampedBy(cfg, w, ticks + 1, after[i], i, k);
  }

  lemma NewStamp(cfg: Config, w: real -> real, ticks: nat, submissions: seq<Submission>, i: nat)
    requires cfg.Valid() && i < |submissions| && submissions[i].logical == Logical(cfg, ticks + 1)
    requires Issued(cfg, w, ticks).jobs <= i < Issued(cfg, w, ticks + 1).jobs
    ensures Stamped(cfg, w, ticks + 1, submissions, i)
  {
    hide Issued, Logical;
    assert StampedBy(cfg, w, ticks + 1, submissions[i], i, ticks);
  }

  /** A monotonic clock that an adversary moves forward whenever anything takes time. */
  class Clock {
    var now: real

    constructor () { now := 0.0; }

    method Pass()
      modifies this
      ensures old(now) <= now
    {
      var delay: real := *;
      if 0.0 < delay { now := now + delay; }
    }

    method Sleep(seconds: real)
      requires 0.0 <= seconds
      modifies this
      ensures old(now) + seconds <= now
    {
      now := now + seconds;
      Pass();
    }
  }

  class LoadGenerator {
    const config: Config
    const wave: real -> real
    const startTime: real
    /** Whether sbatch takes its i-th call. */
    const accepts: nat -> bool
    var totalJobs: nat
    var logicalSeconds: real
    var jobPhase: real
    var submissions: seq<Submission>
    ghost var ticks: nat

    constructor (config: Config, wave: real -> real, accepts: nat -> bool, clock: Clock)
      requires config.Valid() && IsWave(wave)
      ensures Valid() && ticks == 0 && this.config == config && this.wave == wave && this.accepts == accepts
      ensures startTime == clock.now
    {
      this.config, this.wave, this.accepts, this.startTime := config, wave, accepts, clock.now;
      totalJobs, logicalSeconds, jobPhase, submissions, ticks := 0, 0.0, 0.0, [], 0;
    }

    function TargetWallTime(logical: real): real {
      startTime + logical / 60.0 * config.minuteSeconds
    }

    ghost predicate Paced(s: Submission) { TargetWallTime(s.logical) <= s.wall }

    /** The state between two ticks. */
    ghost predicate Valid()
      reads this
    {
      CutAt(Start)
    }

    ghost predicate Recorded(made: seq<Submission>, i: nat, ticks: nat)
      requires config.Valid() && i < |made|
    {
      Paced(made[i]) && made[i].accepted == accepts(i) && Stamped(config, wave, ticks, made, i)
    }

    ghost predicate AllRecorded(made: seq<Submission>, ticks: nat)
      requires config.Valid()
    {
      forall i :: 0 <= i < |made| ==> Recorded(made, i, ticks)
    }

    /** The state at some point of a tick. */
    ghost predicate CutAt(point: Point)
      reads this
    {
      && config.Valid() && IsWave(wave)
      && Report(totalJobs, jobPhase, logicalSeconds) == ReportAt(config, wave, ticks, point)
      && |submissions| == totalJobs + (if point.Submitting? && point.called then 1 else 0)
      && AllRecorded(submissions, if point.Submitting? then ticks + 1 else ticks)
    }

    predicate Unfinished()
      reads this
    {
      config.Finite() ==> logicalSeconds < config.DurationSeconds()
    }

    /** Runs until the duration is reached, or until a signal ends it at some point of some tick; so an
        endless run is every run that a signal cuts off. */
    method Run(clock: Clock, signal: Option<Signal>) returns (cut: bool)
      requires Valid() && ticks == 0
      requires !config.Finite() ==> signal.Some?
      modifies this, clock
      ensures cut <==> signal.Some? && (config.Finite() ==> signal.value.tick < TicksOf(config))
      ensures cut ==> ticks == signal.value.tick && 0 <= JobsOfTick(config, wave, ticks)
                      && CutAt(Within(signal.value.point, JobsOfTick(config, wave, ticks)))
      ensures !cut ==> Valid() && ticks == TicksOf(config) && logicalSeconds == config.DurationSeconds()
      ensures !cut ==> RanFor(config, ticks, logicalSeconds)
      ensures AllOnTime()
      ensures old(submissions) <= submissions
      ensures AcceptedCount(submissions) <= |submissions|
      ensures AcceptedCount(submissions) == |submissions| <==> forall i: nat :: i < |submissions| ==> accepts(i)
    {
      hide ReportAt, JobsOfTick, AllRecorded, AllOnTime, RanFor;
      cut := false;
      var passed := 0;
      ReportAtStart(config, wave, ticks);
      if config.Finite() { TickCount(config, 0); }
      while !cut && Unfinished()
        invariant old(submissions) <= submissions
        invariant !cut ==> Valid() && logicalSeconds == Logical(config, ticks)
        invariant config.Finite() ==> ticks <= TicksOf(config)
        invariant config.Finite() && cut ==> ticks < TicksOf(config)
        invariant signal.Some? && !cut ==>
                    ticks <= signal.value.tick || (config.Finite() && TicksOf(config) <= signal.value.tick)
        invariant cut ==> signal.Some? && ticks == signal.value.tick && 0 <= JobsOfTick(config, wave, ticks)
                          && CutAt(Within(signal.value.point, JobsOfTick(config, wave, ticks)))
        invariant passed == ticks
        decreases !cut, if config.Finite() then TicksOf(config) - ticks else signal.value.tick - ticks
      {
        if config.Finite() { TickCount(config, ticks); }
        if signal.Some? && signal.value.tick == passed {
          cut := Tick(clock, Some(signal.value.point));
        } else {
          cut := Tick(clock, None);
          passed := passed + 1;
          ReportAtStart(config, wave, ticks);
        }
      }
      if config.Finite() { TickCount(config, ticks); }
      AcceptedAsAnswered();
      AllArePaced();
      if !cut { FullRunIs(config, ticks); }
    }

    /** No submission is made before its logical time, at so many wall seconds a minute, has come. */
    ghost predicate AllOnTime()
      reads this
    {
      forall i :: 0 <= i < |submissions| ==>
        startTime + submissions[i].logical / 60.0 * config.minuteSeconds <= submissions[i].wall
    }

    lemma AllArePaced()
      requires config.Valid() && exists t: nat :: AllRecorded(submissions, t)
      ensures AllOnTime()
    {
      hide Stamped, Config.Valid;
      var t: nat :| AllRecorded(submissions, t);
      forall i | 0 <= i < |submissions| ensures Paced(submissions[i]) { assert Recorded(submissions, i, t); }
    }

    lemma AcceptedAsAnswered()
      requires config.Valid() && exists t: nat :: AllRecorded(submissions, t)
      ensures AcceptedCount(submissions) <= |submissions|
      ensures AcceptedCount(submissions) == |submissions| <==> forall i: nat :: i < |submissions| ==> accepts(i)
    {
      hide Stamped, Config.Valid, Paced;
      AcceptedAreAll(submissions);
      var t: nat :| AllRecorded(submissions, t);
      forall i | 0 <= i < |submissions| ensures submissions[i].accepted == accepts(i) {
        assert Recorded(submissions, i, t);
      }
    }

    /** One pass of the loop body, as far as a signal lets it come. */
    method Tick(clock: Clock, signal: Option<Point>) returns (cut: bool)
      requires Valid()
      modifies this, clock
      ensures old(submissions) <= submissions && cut == signal.Some?
      ensures !cut ==> Valid() && ticks == old(ticks) + 1
      ensures !cut ==> forall i :: old(|submissions|) <= i < |submissions| ==> submissions[i].logical == logicalSeconds
      ensures cut ==> ticks == old(ticks) && 0 <= JobsOfTick(config, wave, ticks)
                      && CutAt(Within(signal.value, JobsOfTick(config, wave, ticks)))
    {
      hide Issued, Work, Owed, RateAt, IsWave, JobsNow, PhaseAfter, TargetWallTime, TickAt, Config.Valid, Logical,
           Stamped, AllRecorded;
      IssuedNext(config, wave, ticks);
      LogicalNext(config, ticks + 1);
      assert Report(totalJobs, jobPhase, logicalSeconds) == ReportAt(config, wave, ticks, Start);
      ghost var before := submissions;
      var jobsThisTick: int;
      jobsThisTick, cut := Accumulate(signal);
      if cut { return; }
      clock.Pass();
      var sleepSeconds := TargetWallTime(logicalSeconds) - clock.now;
      if 0.0 < sleepSeconds { clock.Sleep(sleepSeconds); }
      cut := Submit(jobsThisTick, clock, signal);
      RecordTick(before, submissions, ticks);
      if cut || signal.Some? { return true; }
      ticks := ticks + 1;
    }

    /** The submissions of tick k join those before it. */
    lemma RecordTick(before: seq<Submission>, after: seq<Submission>, k: nat)
      requires config.Valid() && AllRecorded(before, k) && before <= after
      requires |before| == Issued(config, wave, k).jobs && |after| <= Issued(config, wave, k + 1).jobs
      requires forall i :: |before| <= i < |after| ==>
                 Paced(after[i]) && after[i].logical == Logical(config, k + 1) && after[i].accepted == accepts(i)
      ensures AllRecorded(after, k + 1)
    {
      hide Issued, Logical, Stamped, TargetWallTime, Config.Valid;
      ghost var next := k + 1;
      forall i | 0 <= i < |after| ensures Recorded(after, i, next) {
        if i < |before| {
          assert Recorded(before, i, k);
          StampsStay(config, wave, k, before, after, i);
        } else {
          NewStamp(config, wave, k, after, i);
        }
      }
    }

    /** Integrates the rate over one tick and takes the whole jobs off the phase. */
    method Accumulate(signal: Option<Point>) returns (jobsThisTick: int, cut: bool)
      requires config.Valid()
      modifies this`jobPhase, this`logicalSeconds
      ensures cut <==> signal.Some? && !signal.value.Submitting?
      ensures logicalSeconds ==
                  if cut then old(logicalSeconds) else old(logicalSeconds + TickAt(config, logicalSeconds))
      ensures var fed := old(jobPhase + Owed(config, wave, logicalSeconds));
              var jobs := JobsNow(fed, TOLERANCE);
              && (!cut ==> jobsThisTick == jobs && jobPhase == PhaseAfter(fed, jobs, TOLERANCE))
              && (cut ==> jobPhase == match signal.value
                                      case Start => old(jobPhase)
                                      case Fed => fed
                                      case TakenOff => Max(0.0, fed - jobs as real)
                                      case _ => PhaseAfter(fed, jobs, TOLERANCE))
    {
      hide Work, RateAt;
      jobsThisTick, cut := 0, true;
      if signal == Some(Start) { return; }
      var tickSeconds := TickAt(config, logicalSeconds);
      var midpoint := logicalSeconds + tickSeconds / 2.0;
      jobPhase := jobPhase + Work(RateAt(config, wave, midpoint), tickSeconds);
      if signal == Some(Fed) { return; }
      jobsThisTick := JobsNow(jobPhase, TOLERANCE);
      jobPhase := Max(0.0, jobPhase - jobsThisTick as real);
      if signal == Some(TakenOff) { return; }
      if IsClose(jobPhase, 0.0, TOLERANCE) { jobPhase := 0.0; }
      if signal == Some(Snapped) { return; }
      logicalSeconds := logicalSeconds + tickSeconds;
      cut := false;
    }

    /** Calls sbatch once for each job of the tick. */
    method Submit(jobsThisTick: nat, clock: Clock, signal: Option<Point>) returns (cut: bool)
      requires TargetWallTime(logicalSeconds) <= clock.now && |submissions| == totalJobs
      modifies this`totalJobs, this`submissions, clock
      ensures cut <==> signal.Some? && signal.value.Submitting? && signal.value.counted < jobsThisTick
      ensures totalJobs == old(totalJobs) + if cut then signal.value.counted else jobsThisTick
      ensures |submissions| == totalJobs + (if cut && signal.value.called then 1 else 0)
      ensures old(submissions) <= submissions
      ensures forall i :: old(|submissions|) <= i < |submissions| ==>
                && Paced(submissions[i])
                && submissions[i].logical == logicalSeconds && submissions[i].accepted == accepts(i)
    {
      for jobIndex := 1 to jobsThisTick + 1
        invariant totalJobs == old(totalJobs) + jobIndex - 1
        invariant old(submissions) <= submissions && |submissions| == totalJobs
        invariant TargetWallTime(logicalSeconds) <= clock.now
        invariant signal.Some? && signal.value.Submitting? ==> jobIndex - 1 <= signal.value.counted
        invariant forall i :: old(|submissions|) <= i < |submissions| ==>
                    && Paced(submissions[i])
                    && submissions[i].logical == logicalSeconds && submissions[i].accepted == accepts(i)
      {
        if signal == Some(Submitting(jobIndex - 1, false)) { return true; }
        clock.Pass();
        submissions := submissions + [Submission(clock.now, logicalSeconds, accepts(totalJobs))];
        if signal == Some(Submitting(jobIndex - 1, true)) { return true; }
        totalJobs := totalJobs + 1;
      }
      return false;
    }
  }

  lemma ReportAtStart(cfg: Config, w: real -> real, k: nat)
    requires cfg.Valid()
    ensures ReportAt(cfg, w, k, Start).logical == Logical(cfg, k)
  {
  }
}
