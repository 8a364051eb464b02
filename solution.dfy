/**
 The solution object of the PK model: it holds a model, a protocol and the
 evaluation grid, evaluates the right-hand side of the selected dosing regime,
 and prepares the initial-value problem that the ODE integrator solves.
 */
module PkSolution {
  import opened Flux

  /** The two right-hand sides the solver can hand to the integrator. */
  datatype Regime = Intravenous | Subcutaneous

  /** The regime a protocol selects. */
  function SelectRegime(p: Protocol): Regime
  {
    if p.subcutaneous then Subcutaneous else Intravenous
  }

  /** The length of the state vector in a regime: one pool per compartment,
      plus the depot in front when dosing is subcutaneous. */
  function StateSize(m: Model, r: Regime): nat
  {
    match r
    case Intravenous => m.size
    case Subcutaneous => m.size + 1
  }

  /** The all-zero state of `n` pools. */
  function Zeros(n: nat): seq<real>
  {
    seq(n, _ => 0.0)
  }

  /** The right-hand side of a regime at time `t`, with the protocol's dose
      rate (and, for subcutaneous dosing, its absorption rate) bound in: the
      function the solver passes to the integrator. */
  function StepFunction(m: Model, p: Protocol, r: Regime, t: real, y: seq<real>): seq<real>
    requires ValidModel(m) && |y| >= StateSize(m, r)
  {
    match r
    case Intravenous => IntravenousRhs(m, p.dose(t), y)
    case Subcutaneous => SubcutaneousRhs(m, p.dose(t), p.k_a, y)
  }

  /** The right-hand side of either regime maps a state of the regime's size to
      a derivative of that same size. */
  lemma StepFunctionKeepsStateSize(m: Model, p: Protocol, r: Regime, t: real, y: seq<real>)
    requires ValidModel(m) && |y| >= StateSize(m, r)
    ensures |StepFunction(m, p, r, t, y)| == StateSize(m, r)
  {
    match r
    case Intravenous => IntravenousRhsEntries(m, p.dose(t), y);
    case Subcutaneous => SubcutaneousRhsEntries(m, p.dose(t), p.k_a, y);
  }

  /** With no drug anywhere and no dose at time `t`, the zero state of either
      regime is a rest point: its derivative is the zero vector. */
  lemma ZeroStateIsRestPoint(m: Model, p: Protocol, r: Regime, t: real)
    requires ValidModel(m) && p.dose(t) == 0.0
    ensures StepFunction(m, p, r, t, Zeros(StateSize(m, r))) == Zeros(StateSize(m, r))
  {
    var y := Zeros(StateSize(m, r));
    match r
    case Intravenous =>
      IntravenousAtRest(m, y);
    case Subcutaneous =>
      SubcutaneousAtRest(m, p.k_a, y);
  }

  /** `numpy.linspace(start, stop, num)` over the reals: `num` equally spaced
      points, the last one `stop` when there are at least two. */
  function Linspace(start: real, stop: real, num: nat): seq<real>
  {
    if num == 1 then [start]
    else seq(num, i requires 0 <= i < num => GridPoint(start, stop, num, i))
  }

  /** Point `i` of a grid of `num >= 2` points from `start` to `stop`. */
  function GridPoint(start: real, stop: real, num: nat, i: nat): real
    requires num >= 2
  {
    start + (stop - start) * (i as real) / ((num - 1) as real)
  }

  /** The grid has `num` points, starts at `start`, ends at `stop` when it has
      two points or more, and increases strictly when `start < stop`. */
  lemma LinspaceGrid(start: real, stop: real, num: nat)
    ensures |Linspace(start, stop, num)| == num
    ensures num >= 1 ==> Linspace(start, stop, num)[0] == start
    ensures num >= 2 ==> Linspace(start, stop, num)[num - 1] == stop
    ensures start < stop ==> StrictlyIncreasing(Linspace(start, stop, num))
  {
    var g := Linspace(start, stop, num);
    if num >= 2 {
      GridEnds(start, stop, num);
      assert g[0] == GridPoint(start, stop, num, 0);
      assert g[num - 1] == GridPoint(start, stop, num, num - 1);
      if start < stop {
        forall i, j | 0 <= i < j < num
          ensures g[i] < g[j]
        {
          assert g[i] == GridPoint(start, stop, num, i) && g[j] == GridPoint(start, stop, num, j);
          GridIncreases(start, stop, num, i, j);
        }
      }
    }
  }

  /** The first grid point is `start` and the last is `stop`. */
  lemma GridEnds(start: real, stop: real, num: nat)
    requires num >= 2
    ensures GridPoint(start, stop, num, 0) == start
    ensures GridPoint(start, stop, num, num - 1) == stop
  {
    var w, d := stop - start, (num - 1) as real;
    assert w * d / d == w;
  }

  /** A later grid point lies above an earlier one on a rising grid. */
  lemma GridIncreases(start: real, stop: real, num: nat, i: nat, j: nat)
    requires num >= 2 && start < stop && i < j
    ensures GridPoint(start, stop, num, i) < GridPoint(start, stop, num, j)
  {
    var w, d := stop - start, (num - 1) as real;
    assert w * (i as real) < w * (j as real);
  }

  /** Every point of a sequence lies strictly below every later one. */
  ghost predicate StrictlyIncreasing(g: seq<real>)
  {
    forall i, j :: 0 <= i < j < |g| ==> g[i] < g[j]
  }

  /** A PK model solution. `model`, `protocol` and the evaluation grid `tEval`
      are fixed when the solution is made; `Solver` sets the initial state
      `y0`. */
  class Solution {
    const model: Model
    const protocol: Protocol
    const tEval: seq<real>
    var y0: seq<real>

    /** Makes the solution over `nsteps` grid points from 0 to `tmax` and runs
        the solver once. */
    constructor (model: Model, protocol: Protocol, tmax: real, nsteps: nat)
      requires nsteps >= 1
      ensures this.model == model && this.protocol == protocol
      ensures tEval == Linspace(0.0, tmax, nsteps)
      ensures y0 == Zeros(StateSize(model, SelectRegime(protocol)))
    {
      this.model := model;
      this.protocol := protocol;
      this.tEval := Linspace(0.0, tmax, nsteps);
      new;
      LinspaceGrid(0.0, tmax, nsteps);
      var _ := Solver();
    }

    /** The intravenous right-hand side at time `t` and state `y`. */
    method RhsIntravenous(t: real, y: seq<real>) returns (dqdt: seq<real>)
      requires ValidModel(model) && |y| >= model.size
      ensures dqdt == IntravenousRhs(model, protocol.dose(t), y)
    {
      var state := y;
      var vc := model.Vc;
      var cl := model.CL;
      var cleared := state[0] / vc * cl;
      dqdt := [0.0];
      ghost var fluxes := Fluxes(model, state[0], state[1..]);
      var fluxSum := 0.0;
      for comp := 1 to model.size
        invariant |dqdt| == comp
        invariant dqdt[1..] == fluxes[..comp - 1]
        invariant fluxSum == Sum(dqdt[1..])
      {
        var qPi := model.Qps[comp - 1];
        var vPi := model.Vps[comp - 1];
        var flux := qPi * (state[0] / vc - state[comp] / vPi);
        assert flux == fluxes[comp - 1];
        assert fluxes[..comp] == fluxes[..comp - 1] + [flux];
        assert (dqdt + [flux])[1..] == dqdt[1..] + [flux];
        SumAppend(dqdt[1..], flux);
        dqdt := dqdt + [flux];
        fluxSum := fluxSum + flux;
      }
      assert dqdt[1..] == fluxes;
      assert cleared == Cleared(model, state[0]);
      dqdt := dqdt[0 := protocol.dose(t) - cleared - fluxSum];
      assert dqdt == [dqdt[0]] + dqdt[1..];
    }

    /** The subcutaneous right-hand side at time `t` and state `y`, whose entry
        0 is the depot. */
    method RhsSubcutaneous(t: real, y: seq<real>) returns (dqdt: seq<real>)
      requires ValidModel(model) && |y| >= model.size + 1
      ensures dqdt == SubcutaneousRhs(model, protocol.dose(t), protocol.k_a, y)
    {
      var state := y;
      var vc := model.Vc;
      var cl := model.CL;
      var cleared := state[1] / vc * cl;
      dqdt := [0.0, 0.0];
      var dq0dt := protocol.dose(t);
      dq0dt := dq0dt - protocol.k_a * state[0];
      dqdt := dqdt[0 := dq0dt];
      ghost var fluxes := Fluxes(model, state[1], state[2..]);
      var fluxSum := 0.0;
      for comp := 1 to model.size
        invariant |dqdt| == comp + 1
        invariant dqdt[0] == dq0dt
        invariant dqdt[2..] == fluxes[..comp - 1]
        invariant fluxSum == Sum(dqdt[2..])
      {
        var qPi := model.Qps[comp - 1];
        var vPi := model.Vps[comp - 1];
        var flux := qPi * (state[1] / vc - state[comp + 1] / vPi);
        assert flux == fluxes[comp - 1];
        assert fluxes[..comp] == fluxes[..comp - 1] + [flux];
        assert (dqdt + [flux])[2..] == dqdt[2..] + [flux];
        SumAppend(dqdt[2..], flux);
        dqdt := dqdt + [flux];
        fluxSum := fluxSum + flux;
      }
      assert dqdt[2..] == fluxes;
      assert cleared == Cleared(model, state[1]);
      dqdt := dqdt[1 := protocol.k_a * state[0] - cleared - fluxSum];
      ghost var spec := SubcutaneousRhs(model, protocol.dose(t), protocol.k_a, y);
      SubcutaneousRhsEntries(model, protocol.dose(t), protocol.k_a, y);
      assert spec[2..] == fluxes;
      assert dqdt[0] == spec[0];
      assert fluxSum == Sum(spec[2..]);
      assert dqdt[1] == spec[1];
      assert dqdt[2..] == spec[2..];
      assert dqdt == [spec[0], spec[1]] + spec[2..];
    }

    /** Selects the right-hand side from the protocol and sets the zero initial
        state of the matching size. Returns the initial-value problem handed to
        the integrator: the selected regime, the time span from the first to
        the last grid point, the initial state and the grid. */
    method Solver() returns (ivp: Ivp)
      requires |tEval| >= 1
      modifies this
      ensures y0 == Zeros(StateSize(model, SelectRegime(protocol)))
      ensures ivp == Ivp(SelectRegime(protocol), tEval[0], tEval[|tEval| - 1], y0, tEval)
      ensures ValidModel(model) ==> forall t ::
        |StepFunction(model, protocol, ivp.rhs, t, ivp.y0)| == |ivp.y0|
    {
      var stepFunc: Regime;
      if protocol.subcutaneous {
        stepFunc := Subcutaneous;
        y0 := Zeros(model.size + 1);
      } else {
        stepFunc := Intravenous;
        y0 := Zeros(model.size);
      }
      ivp := Ivp(stepFunc, tEval[0], tEval[|tEval| - 1], y0, tEval);
      if ValidModel(model) {
        forall t: real
          ensures |StepFunction(model, protocol, ivp.rhs, t, ivp.y0)| == |ivp.y0|
        {
          StepFunctionKeepsStateSize(model, protocol, stepFunc, t, y0);
        }
      }
    }
  }

  /** The arguments of one call to the ODE integrator: the right-hand side,
      the time span `[tStart, tEnd]`, the initial state and the grid at which
      the trajectory is reported. */
  datatype Ivp = Ivp(rhs: Regime, tStart: real, tEnd: real, y0: seq<real>, tEval: seq<real>)
}
