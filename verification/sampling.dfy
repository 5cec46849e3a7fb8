/** The Metropolis sampler: trial moves wrapped into the periodic box, the
    Metropolis acceptance rule, the trajectory both samplers append to, and
    the inverse-temperature schedule of simulated annealing. The total
    potential, `exp` and the uniform random numbers are inputs. */
module Sampling {
  import opened Geometry
  import opened Errors
  import opened SystemConfig

  /** What one Metropolis step needs besides the state: the total potential
      (positions, Lennard-Jones flag, Coulomb flag), `exp`, the box side and
      the step size. */
  datatype Moves = Moves(total: (seq<Vec>, bool, bool) -> real, exp: real -> real, box: real, step: real)

  /** The potential the sampler evaluates: both contributions switched on. */
  function Energy(m: Moves, xyz: seq<Vec>): real
  {
    m.total(xyz, true, true)
  }

  /** One coordinate of a trial move, `(x + 2 L step (u - 0.5)) mod L` with
      Python's modulo. */
  function TrialCoord(x: real, box: real, step: real, u: real): real
    requires box > 0.0
  {
    FMod(x + 2.0 * box * step * (u - 0.5), box)
  }

  /** Trial positions from the uniforms `draws[3 i]`, `draws[3 i + 1]`,
      `draws[3 i + 2]` for particle `i` (row-major, as `rand(n, 3)` fills
      them): every trial position lies in the box. */
  function TrialPositions(xyz: seq<Vec>, box: real, step: real, draws: seq<real>): (t: seq<Vec>)
    requires box > 0.0 && |draws| >= 3 * |xyz|
    ensures |t| == |xyz| && InBox(t, box)
  {
    seq(|xyz|, i requires 0 <= i < |xyz| =>
      Vec(TrialCoord(xyz[i].x, box, step, draws[3 * i]),
          TrialCoord(xyz[i].y, box, step, draws[3 * i + 1]),
          TrialCoord(xyz[i].z, box, step, draws[3 * i + 2])))
  }

  /** `exp(beta * (pot - pot_trial))`: the probability with which an uphill
      trial is taken. */
  function Acceptance(m: Moves, beta: real, pot: real, potTrial: real): real
  {
    m.exp(beta * (pot - potTrial))
  }

  /** The outcome of one step and how many uniforms it consumed. */
  datatype Step = Step(xyz: seq<Vec>, pot: real, used: nat)

  /** `_update`: the trial is accepted when its potential is not higher, or
      else when the next uniform is below `exp(beta (pot - pot_trial))`; that
      uniform is drawn only in the second case. A rejected step returns the
      old positions and potential. The rule case by case: `UpdateRule`. */
  function Update(m: Moves, xyz: seq<Vec>, pot: real, beta: real, draws: seq<real>): (s: Step)
    requires m.box > 0.0 && |draws| >= 3 * |xyz| + 1
    ensures |s.xyz| == |xyz|
    ensures 3 * |xyz| <= s.used <= 3 * |xyz| + 1
    ensures (s.xyz == xyz && s.pot == pot)
         || (s.xyz == TrialPositions(xyz, m.box, m.step, draws) && s.pot == Energy(m, s.xyz))
  {
    var trial := TrialPositions(xyz, m.box, m.step, draws);
    var potTrial := Energy(m, trial);
    if potTrial <= pot then Step(trial, potTrial, 3 * |xyz|)
    else if draws[3 * |xyz|] < Acceptance(m, beta, pot, potTrial) then Step(trial, potTrial, 3 * |xyz| + 1)
    else Step(xyz, pot, 3 * |xyz| + 1)
  }

  /** The Metropolis rule of `_update`: a trial that does not raise the
      potential is taken after the `3 n` uniforms of the move; an uphill trial
      reads one more uniform and is taken exactly when that uniform is below
      the acceptance `exp(beta (pot - pot_trial))`, the old positions and
      potential being kept otherwise. */
  lemma UpdateRule(m: Moves, xyz: seq<Vec>, pot: real, beta: real, draws: seq<real>)
    requires m.box > 0.0 && |draws| >= 3 * |xyz| + 1
    ensures var trial := TrialPositions(xyz, m.box, m.step, draws);
      var s := Update(m, xyz, pot, beta, draws);
      Energy(m, trial) <= pot ==> s.xyz == trial && s.pot == Energy(m, trial) && s.used == 3 * |xyz|
    ensures var trial := TrialPositions(xyz, m.box, m.step, draws);
      var s := Update(m, xyz, pot, beta, draws);
      Energy(m, trial) > pot ==>
        s.used == 3 * |xyz| + 1
        && (draws[3 * |xyz|] < Acceptance(m, beta, pot, Energy(m, trial)) ==> s.xyz == trial && s.pot == Energy(m, trial))
        && (draws[3 * |xyz|] >= Acceptance(m, beta, pot, Energy(m, trial)) ==> s.xyz == xyz && s.pot == pot)
  {
  }

  /** The trajectory so far and how many uniforms it consumed. */
  datatype Chain = Chain(xyzs: seq<seq<Vec>>, pots: seq<real>, used: nat)

  /** The uniforms one step may need at most. */
  function PerStep(n: nat): nat
  {
    3 * n + 1
  }

  /** The trajectory after one step per inverse temperature in `betas`,
      starting from `xyz0` with potential `pot0`: one more entry per step,
      each step reading its uniforms where the previous one stopped. */
  function Run(m: Moves, xyz0: seq<Vec>, pot0: real, betas: seq<real>, draws: seq<real>): (c: Chain)
    requires m.box > 0.0 && |draws| >= Budget(|betas|, |xyz0|)
    ensures |c.xyzs| == |c.pots| == |betas| + 1
    ensures c.xyzs[0] == xyz0 && c.pots[0] == pot0
    ensures forall k :: 0 <= k < |c.xyzs| ==> |c.xyzs[k]| == |xyz0|
    ensures c.used <= Budget(|betas|, |xyz0|)
    decreases |betas|
  {
    if betas == [] then Chain([xyz0], [pot0], 0)
    else
      var k := |betas| - 1;
      var prev := Run(m, xyz0, pot0, betas[..k], draws);
      var s := Update(m, prev.xyzs[k], prev.pots[k], betas[k], draws[prev.used..]);
      Chain(prev.xyzs + [s.xyz], prev.pots + [s.pot], prev.used + s.used)
  }

  /** The uniforms `steps` steps may need at most, `steps * (3 n + 1)`. */
  function Budget(steps: nat, n: nat): nat
  {
    if steps == 0 then 0 else Budget(steps - 1, n) + PerStep(n)
  }

  /** More steps may need more uniforms. */
  lemma {:induction false} BudgetMonotone(a: nat, b: nat, n: nat)
    requires a <= b
    ensures Budget(a, n) <= Budget(b, n)
    decreases b
  {
    if a < b {
      BudgetMonotone(a, b - 1, n);
    }
  }

  /** Running the first `i` steps gives the first `i + 1` entries of the
      whole run. */
  lemma {:induction false} RunPrefix(m: Moves, xyz0: seq<Vec>, pot0: real, betas: seq<real>,
                                     draws: seq<real>, i: nat)
    requires m.box > 0.0 && |draws| >= Budget(|betas|, |xyz0|)
    requires i <= |betas| && |draws| >= Budget(i, |xyz0|)
    ensures Run(m, xyz0, pot0, betas[..i], draws).xyzs == Run(m, xyz0, pot0, betas, draws).xyzs[..i + 1]
    ensures Run(m, xyz0, pot0, betas[..i], draws).pots == Run(m, xyz0, pot0, betas, draws).pots[..i + 1]
    decreases |betas|
  {
    if i == |betas| {
      assert betas[..i] == betas;
    } else {
      var k := |betas| - 1;
      var short := betas[..k];
      RunDropLast(m, xyz0, pot0, betas, draws);
      RunPrefix(m, xyz0, pot0, short, draws, i);
      TakeTake(betas, k, i);
      var whole := Run(m, xyz0, pot0, betas, draws);
      var mid := Run(m, xyz0, pot0, short, draws);
      var head := Run(m, xyz0, pot0, betas[..i], draws);
      assert head == Run(m, xyz0, pot0, short[..i], draws);
      assert mid.xyzs == whole.xyzs[..k + 1] && mid.pots == whole.pots[..k + 1];
      assert head.xyzs == mid.xyzs[..i + 1] && head.pots == mid.pots[..i + 1];
      TakeTake(whole.xyzs, k + 1, i + 1);
      TakeTake(whole.pots, k + 1, i + 1);
    }
  }

  lemma TakeTake<T>(s: seq<T>, a: nat, b: nat)
    requires b <= a <= |s|
    ensures s[..a][..b] == s[..b]
  {
  }

  /** The run over the first `i + 1` inverse temperatures is the run over
      the first `i` with one more `_update` appended. */
  lemma RunExtend(m: Moves, xyz0: seq<Vec>, pot0: real, betas: seq<real>, draws: seq<real>, i: nat)
    requires m.box > 0.0 && |draws| >= Budget(|betas|, |xyz0|) && i < |betas|
    ensures Budget(i, |xyz0|) <= Budget(i + 1, |xyz0|) <= |draws|
    ensures var prev := Run(m, xyz0, pot0, betas[..i], draws);
      var s := Update(m, prev.xyzs[i], prev.pots[i], betas[i], draws[prev.used..]);
      Run(m, xyz0, pot0, betas[..i + 1], draws) == Chain(prev.xyzs + [s.xyz], prev.pots + [s.pot], prev.used + s.used)
  {
    BudgetMonotone(i + 1, |betas|, |xyz0|);
    var bs := betas[..i + 1];
    assert bs[..i] == betas[..i];
    RunUnfold(m, xyz0, pot0, bs, draws);
  }

  /** One unfolding of `Run`: the last step is `_update` applied where the
      run of the other steps ends. */
  lemma RunUnfold(m: Moves, xyz0: seq<Vec>, pot0: real, betas: seq<real>, draws: seq<real>)
    requires m.box > 0.0 && |draws| >= Budget(|betas|, |xyz0|) && betas != []
    ensures |draws| >= Budget(|betas| - 1, |xyz0|)
    ensures var k := |betas| - 1;
      var prev := Run(m, xyz0, pot0, betas[..k], draws);
      var s := Update(m, prev.xyzs[k], prev.pots[k], betas[k], draws[prev.used..]);
      Run(m, xyz0, pot0, betas, draws) == Chain(prev.xyzs + [s.xyz], prev.pots + [s.pot], prev.used + s.used)
  {
  }

  /** One pass of the sampling loop keeps its invariant. */
  lemma SampleStep(m: Moves, xyz0: seq<Vec>, pot0: real, betas: seq<real>, draws: seq<real>, i: nat,
                   xyzs: seq<seq<Vec>>, pots: seq<real>, used: nat)
    requires m.box > 0.0 && |draws| >= Budget(|betas|, |xyz0|) && i < |betas|
    requires Budget(i, |xyz0|) <= |draws| && Run(m, xyz0, pot0, betas[..i], draws) == Chain(xyzs, pots, used)
    ensures i < |xyzs| && i < |pots| && |draws| >= used + 3 * |xyzs[i]| + 1
    ensures Budget(i + 1, |xyz0|) <= |draws|
    ensures var s := Update(m, xyzs[i], pots[i], betas[i], draws[used..]);
      Run(m, xyz0, pot0, betas[..i + 1], draws) == Chain(xyzs + [s.xyz], pots + [s.pot], used + s.used)
  {
    RunExtend(m, xyz0, pot0, betas, draws, i);
  }

  /** A run without its last step is the run's trajectory without its last
      entry. */
  lemma RunDropLast(m: Moves, xyz0: seq<Vec>, pot0: real, betas: seq<real>, draws: seq<real>)
    requires m.box > 0.0 && |draws| >= Budget(|betas|, |xyz0|) && betas != []
    ensures |draws| >= Budget(|betas| - 1, |xyz0|)
    ensures Run(m, xyz0, pot0, betas[..|betas| - 1], draws).xyzs == Run(m, xyz0, pot0, betas, draws).xyzs[..|betas|]
    ensures Run(m, xyz0, pot0, betas[..|betas| - 1], draws).pots == Run(m, xyz0, pot0, betas, draws).pots[..|betas|]
  {
    var k := |betas| - 1;
    BudgetMonotone(k, |betas|, |xyz0|);
    var prev := Run(m, xyz0, pot0, betas[..k], draws);
    var whole := Run(m, xyz0, pot0, betas, draws);
    assert whole.xyzs[..k + 1] == prev.xyzs;
  }

  /** Every entry after the first is a copy of the one before it, or an
      accepted trial: a position inside the box together with its own
      potential. */
  lemma RunSteps(m: Moves, xyz0: seq<Vec>, pot0: real, betas: seq<real>, draws: seq<real>, k: nat)
    requires m.box > 0.0 && |draws| >= Budget(|betas|, |xyz0|) && k < |betas|
    ensures var c := Run(m, xyz0, pot0, betas, draws);
      (c.xyzs[k + 1] == c.xyzs[k] && c.pots[k + 1] == c.pots[k])
      || (InBox(c.xyzs[k + 1], m.box) && c.pots[k + 1] == Energy(m, c.xyzs[k + 1]))
  {
    BudgetMonotone(k + 1, |betas|, |xyz0|);
    var short := betas[..k + 1];
    LastStep(m, xyz0, pot0, short, draws);
    RunPrefix(m, xyz0, pot0, betas, draws, k + 1);
    var c := Run(m, xyz0, pot0, betas, draws);
    var p := Run(m, xyz0, pot0, short, draws);
    assert c.xyzs[k + 1] == p.xyzs[k + 1] && c.pots[k + 1] == p.pots[k + 1];
    assert c.xyzs[k] == p.xyzs[k] && c.pots[k] == p.pots[k];
  }

  /** The last step of a run keeps the entry before it or is an accepted
      trial. */
  lemma LastStep(m: Moves, xyz0: seq<Vec>, pot0: real, betas: seq<real>, draws: seq<real>)
    requires m.box > 0.0 && |draws| >= Budget(|betas|, |xyz0|) && betas != []
    ensures var c := Run(m, xyz0, pot0, betas, draws); var k := |betas| - 1;
      (c.xyzs[k + 1] == c.xyzs[k] && c.pots[k + 1] == c.pots[k])
      || (InBox(c.xyzs[k + 1], m.box) && c.pots[k + 1] == Energy(m, c.xyzs[k + 1]))
  {
  }

  /** Starting inside the box, every entry of the trajectory is inside the box. */
  lemma RunStaysInBox(m: Moves, xyz0: seq<Vec>, pot0: real, betas: seq<real>, draws: seq<real>)
    requires m.box > 0.0 && |draws| >= Budget(|betas|, |xyz0|) && InBox(xyz0, m.box)
    ensures forall k :: 0 <= k < |betas| + 1 ==> InBox(Run(m, xyz0, pot0, betas, draws).xyzs[k], m.box)
  {
    var c := Run(m, xyz0, pot0, betas, draws);
    var k := 0;
    while k < |betas|
      invariant 0 <= k <= |betas|
      invariant forall j :: 0 <= j <= k ==> InBox(c.xyzs[j], m.box)
    {
      RunSteps(m, xyz0, pot0, betas, draws, k);
      k := k + 1;
    }
  }

  /** A trajectory: the positions and the potentials, starting with the
      initial configuration. */
  datatype Trajectory = Trajectory(xyzs: seq<seq<Vec>>, pots: seq<real>)

  /** The loop both samplers share: one `_update` per inverse temperature,
      appending each outcome to the trajectory. */
  method Sample(m: Moves, xyz0: seq<Vec>, pot0: real, betas: seq<real>, draws: seq<real>)
    returns (t: Trajectory)
    requires m.box > 0.0 && |draws| >= Budget(|betas|, |xyz0|)
    ensures var c := Run(m, xyz0, pot0, betas, draws); t == Trajectory(c.xyzs, c.pots)
  {
    var xyzTraj: seq<seq<Vec>> := [xyz0];
    var potTraj: seq<real> := [pot0];
    var used: nat := 0;
    var i := 0;
    while i < |betas|
      invariant 0 <= i <= |betas|
      invariant Budget(i, |xyz0|) <= |draws|
      invariant Run(m, xyz0, pot0, betas[..i], draws) == Chain(xyzTraj, potTraj, used)
    {
      SampleStep(m, xyz0, pot0, betas, draws, i, xyzTraj, potTraj, used);
      var s := Update(m, xyzTraj[i], potTraj[i], betas[i], draws[used..]);
      xyzTraj := xyzTraj + [s.xyz];
      potTraj := potTraj + [s.pot];
      used := used + s.used;
      i := i + 1;
    }
    assert betas[..|betas|] == betas;
    return Trajectory(xyzTraj, potTraj);
  }

  /** The first point of the linspace numpy builds for the annealing schedule. */
  const LinspaceStart: real := 0.000000000000001

  /** `numpy.linspace(a, b, num)`: `num` evenly spaced points from `a` to `b`
      inclusive; a single point is `a`. */
  function Linspace(a: real, b: real, num: nat): (s: seq<real>)
    ensures |s| == num
    ensures num >= 1 ==> s[0] == a
    ensures num >= 2 ==> s[num - 1] == b
  {
    if num == 0 then []
    else if num == 1 then [a]
    else
      var d := (b - a) / (num - 1) as real;
      assert (num - 1) as real * d == b - a;
      seq(num, k requires 0 <= k < num => a + k as real * d)
  }

  /** Every inverse of a schedule point exists: no point is zero. */
  predicate ScheduleDefined(beta: real, n: int)
  {
    beta != 0.0 && n >= 0 ==> NoZero(Linspace(LinspaceStart, 1.0 / beta, n))
  }

  predicate NoZero(s: seq<real>)
  {
    forall k :: 0 <= k < |s| ==> s[k] != 0.0
  }

  /** `1.0 / linspace(1e-15, 1 / beta, n)[::-1]`. */
  function Schedule(beta: real, n: nat): (s: seq<real>)
    requires beta != 0.0 && ScheduleDefined(beta, n)
    ensures |s| == n
  {
    var lin := Linspace(LinspaceStart, 1.0 / beta, n);
    seq(n, i requires 0 <= i < n => 1.0 / lin[n - 1 - i])
  }

  /** For `n >= 2` the schedule starts at `beta`. */
  lemma ScheduleStartsAtBeta(beta: real, n: nat)
    requires beta != 0.0 && ScheduleDefined(beta, n) && n >= 2
    ensures Schedule(beta, n)[0] == beta
  {
    var lin := Linspace(LinspaceStart, 1.0 / beta, n);
    assert Schedule(beta, n)[0] == 1.0 / lin[n - 1];
  }

  /** The schedule ends at `1 / 1e-15 = 1e15`. */
  lemma ScheduleEndsAtLimit(beta: real, n: nat)
    requires beta != 0.0 && ScheduleDefined(beta, n) && n >= 1
    ensures Schedule(beta, n)[n - 1] == 1000000000000000.0
  {
    var lin := Linspace(LinspaceStart, 1.0 / beta, n);
    assert Schedule(beta, n)[n - 1] == 1.0 / lin[0];
  }

  /** Scaling a step by `k` between 0 and `top` stays between 0 and the
      scaled `top`, in the direction of the step's sign. */
  lemma ScaleBetween(k: real, top: real, d: real)
    requires 0.0 <= k <= top
    ensures d >= 0.0 ==> 0.0 <= k * d <= top * d
    ensures d < 0.0 ==> top * d <= k * d <= 0.0
  {
    if d > 0.0 {
      if k < top {
        MulLtMonotone(d, k, top);
      }
      if k > 0.0 {
        MulLtMonotone(d, 0.0, k);
      }
      assert d * k == k * d && d * top == top * d;
    } else if d < 0.0 {
      if k < top {
        MulLtMonotone(-d, k, top);
      }
      if k > 0.0 {
        MulLtMonotone(-d, 0.0, k);
      }
      assert -d * k == -(k * d) && -d * top == -(top * d);
    }
  }

  /** Every linspace point lies between the two end points. */
  lemma LinspaceBetween(a: real, b: real, num: nat)
    ensures forall k :: 0 <= k < num ==>
      (Min(a, b) <= Linspace(a, b, num)[k] <= Max(a, b))
  {
    if num >= 2 {
      var d := (b - a) / (num - 1) as real;
      var top := (num - 1) as real;
      assert top * d == b - a;
      forall k | 0 <= k < num ensures Min(a, b) <= Linspace(a, b, num)[k] <= Max(a, b) {
        LinspaceAt(a, b, num, k);
        StepBetween(a, b, top, d, k as real);
      }
    }
  }

  /** A point `a + k * d` with `0 <= k <= top` and `top * d == b - a` lies
      between `a` and `b`. */
  lemma StepBetween(a: real, b: real, top: real, d: real, k: real)
    requires top * d == b - a && 0.0 <= k <= top
    ensures Min(a, b) <= a + k * d <= Max(a, b)
  {
    ScaleBetween(k, top, d);
    BetweenEnds(a, b, k * d);
  }

  /** An offset from `a` between 0 and `b - a` lands between `a` and `b`. */
  lemma BetweenEnds(a: real, b: real, x: real)
    requires 0.0 <= x <= b - a || b - a <= x <= 0.0
    ensures Min(a, b) <= a + x <= Max(a, b)
  {
  }

  /** Point `k` of a linspace of at least two points is `a + k * step`. */
  lemma LinspaceAt(a: real, b: real, num: nat, k: nat)
    requires 2 <= num && k < num
    ensures Linspace(a, b, num)[k] == a + k as real * ((b - a) / (num - 1) as real)
  {
  }

  /** With `a <= b` the points increase. */
  lemma LinspaceNonDecreasing(a: real, b: real, num: nat)
    requires a <= b
    ensures forall k, l :: 0 <= k <= l < num ==> Linspace(a, b, num)[k] <= Linspace(a, b, num)[l]
  {
    if num >= 2 {
      var d := (b - a) / (num - 1) as real;
      assert d >= 0.0;
      forall k, l | 0 <= k <= l < num ensures Linspace(a, b, num)[k] <= Linspace(a, b, num)[l] {
        ScaleBetween((l - k) as real, (l - k) as real, d);
        assert l as real * d == k as real * d + (l - k) as real * d;
      }
    }
  }

  /** A positive `beta` never puts zero into the linspace: every schedule
      entry is defined, and positive. */
  lemma PositiveBetaSchedule(beta: real, n: nat)
    requires beta > 0.0
    ensures ScheduleDefined(beta, n)
    ensures forall i :: 0 <= i < n ==> Schedule(beta, n)[i] > 0.0
  {
    LinspaceBetween(LinspaceStart, 1.0 / beta, n);
    var lin := Linspace(LinspaceStart, 1.0 / beta, n);
    assert forall k :: 0 <= k < n ==> lin[k] > 0.0;
  }

  lemma ReciprocalAntitone(x: real, y: real)
    requires 0.0 < x <= y
    ensures 1.0 / y <= 1.0 / x
  {
    if x < y {
      DivLess(1.0, y / x, y);
      assert (y / x) / y == 1.0 / x;
      DivLess(x, y, x);
    }
  }

  /** For `0 < beta <= 1e15` the inverse temperature never decreases along
      the schedule: the system is cooled. */
  lemma ScheduleNonDecreasing(beta: real, n: nat)
    requires 0.0 < beta <= 1000000000000000.0
    ensures ScheduleDefined(beta, n)
    ensures forall i, j :: 0 <= i <= j < n ==> Schedule(beta, n)[i] <= Schedule(beta, n)[j]
  {
    PositiveBetaSchedule(beta, n);
    var lin := Linspace(LinspaceStart, 1.0 / beta, n);
    ReciprocalAntitone(beta, 1000000000000000.0);
    assert LinspaceStart <= 1.0 / beta;
    LinspaceNonDecreasing(LinspaceStart, 1.0 / beta, n);
    LinspaceBetween(LinspaceStart, 1.0 / beta, n);
    forall i, j | 0 <= i <= j < n ensures Schedule(beta, n)[i] <= Schedule(beta, n)[j] {
      ReciprocalAntitone(lin[n - 1 - j], lin[n - 1 - i]);
    }
  }

  /** A sampler over one system configuration. */
  class Sampler {
    const conf: SystemConfiguration

    constructor (configuration: SystemConfiguration)
      requires |configuration.xyz| > 0
      ensures conf == configuration
    {
      conf := configuration;
    }

    /** `metropolis`: validates the iteration count, the step and `beta` in
        that order before any potential is evaluated, then runs one update
        per iteration at constant `beta`. */
    method Metropolis(total: (seq<Vec>, bool, bool) -> real, exp: real -> real, iterationNumber: int,
                      step: real, beta: real, draws: seq<real>) returns (res: Result<Trajectory>)
      requires conf.Valid()
      requires iterationNumber > 0 ==> |draws| >= Budget(iterationNumber, |conf.xyz|)
      ensures iterationNumber <= 0 ==> res == Failure(NonPositiveIterations)
      ensures iterationNumber > 0 && step <= 0.0 ==> res == Failure(NonPositiveStep)
      ensures iterationNumber > 0 && step > 0.0 && beta <= 0.0 ==> res == Failure(NonPositiveBeta)
      ensures iterationNumber > 0 && step > 0.0 && beta > 0.0 ==>
        var m := Moves(total, exp, conf.boxSize, step);
        var c := Run(m, conf.xyz, Energy(m, conf.xyz), Repeat(beta, iterationNumber), draws);
        res == Success(Trajectory(c.xyzs, c.pots))
    {
      if iterationNumber <= 0 {
        return Failure(NonPositiveIterations);
      }
      if step <= 0.0 {
        return Failure(NonPositiveStep);
      }
      if beta <= 0.0 {
        return Failure(NonPositiveBeta);
      }
      var m := Moves(total, exp, conf.boxSize, step);
      var pot := conf.Potential(total, conf.xyz, true, true);
      var t := Sample(m, conf.xyz, pot.value, Repeat(beta, iterationNumber), draws);
      return Success(t);
    }

    /** `metropolis_sa`: no validation; `1 / beta` fails for `beta == 0`,
        numpy's linspace fails for a negative count, and otherwise one update
        runs per entry of the annealing schedule. */
    method MetropolisSa(total: (seq<Vec>, bool, bool) -> real, exp: real -> real, iterationNumber: int,
                        step: real, beta: real, draws: seq<real>) returns (res: Result<Trajectory>)
      requires conf.Valid() && conf.boxSize > 0.0
      requires ScheduleDefined(beta, iterationNumber)
      requires iterationNumber > 0 ==> |draws| >= Budget(iterationNumber, |conf.xyz|)
      ensures beta == 0.0 ==> res == Failure(ZeroDivision)
      ensures beta != 0.0 && iterationNumber < 0 ==> res == Failure(NegativeSampleCount)
      ensures beta != 0.0 && iterationNumber >= 0 ==>
        var m := Moves(total, exp, conf.boxSize, step);
        var c := Run(m, conf.xyz, Energy(m, conf.xyz), Schedule(beta, iterationNumber), draws);
        res == Success(Trajectory(c.xyzs, c.pots))
    {
      if beta == 0.0 {
        return Failure(ZeroDivision);
      }
      if iterationNumber < 0 {
        return Failure(NegativeSampleCount);
      }
      var betaValues := Schedule(beta, iterationNumber);
      var m := Moves(total, exp, conf.boxSize, step);
      var pot := conf.Potential(total, conf.xyz, true, true);
      var t := Sample(m, conf.xyz, pot.value, betaValues, draws);
      return Success(t);
    }
  }

  /** `Sampler(...)`: a configuration without particles is rejected; a
      validated configuration never is. */
  method NewSampler(configuration: SystemConfiguration) returns (err: Option<Error>, sampler: Sampler?)
    ensures |configuration.xyz| == 0 <==> err == Some(NoParticles)
    ensures err.None? ==> sampler != null && sampler.conf == configuration
    ensures configuration.Valid() ==> err.None?
  {
    if |configuration.xyz| == 0 {
      return Some(NoParticles), null;
    }
    sampler := new Sampler(configuration);
    return None, sampler;
  }
}
