# PK model flux engine in Dafny

This project models the core of a pharmacokinetic (PK) simulator: the
`Solution` class of `pkmodel/solution.py`. The model covers:

- the two right-hand sides (RHS) the ODE integrator evaluates. In the
  intravenous one, the state is `[central, peripheral_1, ..]`. In the
  subcutaneous one, a depot pool sits in front: `[depot, central, peripheral_1, ..]`;
- the solver's choice between them;
- the zero initial state the solver sizes to match the chosen RHS.

Every quantity is a Dafny `real`.

- `flux.dfy`, module `Flux`, holds the following:
  - the model and protocol parameters the engine reads (`Model`, `Protocol`);
  - the pure specification of both right-hand sides (`IntravenousRhs`, `SubcutaneousRhs`);
  - the lemmas about them: entry-by-entry formulas, the one-slot shift between
    the two state layouts, mass balance, the zero state as a rest point, and the
    single-compartment case.
- `solution.dfy`, module `PkSolution`, holds the class `Solution`:
  - the fixed fields `model`, `protocol` and `tEval`, and the field `y0` that
    the solver sets;
  - `RhsIntravenous` and `RhsSubcutaneous`, which build the derivative by
    appending in a loop and keep a running `fluxSum`, as the source does. Each
    is proved to compute its specification function;
  - `Solver`, which picks the regime and builds the zero initial state;
  - `Linspace`, an exact real-number model of the evaluation grid.

`Protocol.dose` stands for `dose_time_function`, a total function of time.
The absorption rate `k_a` is read from the protocol, as the source does.
The right-hand sides ask of the model only what evaluation needs (`ValidModel`):
- at least one compartment;
- a rate and a volume for every peripheral compartment;
- no zero volume as a divisor.

The source checks no positivity, so neither does the model.

## Model

| member | source | states |
|---|---|---|
| `PkSolution.Solution.RhsIntravenous` | pkmodel/solution.py:39-67 | The loop that appends one flux per peripheral compartment, keeps `flux_sum` and finally overwrites slot 0 returns exactly the intravenous derivative `IntravenousRhs` at the protocol's dose rate at `t`. |
| `PkSolution.Solution.RhsSubcutaneous` | pkmodel/solution.py:69-87 | The loop that starts from two slots, fills the depot slot, appends one flux per peripheral compartment read one index further on, and finally overwrites slot 1 returns exactly `SubcutaneousRhs` with the protocol's dose rate and `k_a`. |
| `Flux.IntravenousRhsEntries` | pkmodel/solution.py:51-66 | The intravenous derivative has exactly `size` entries. Entry `comp` (for `1 <= comp < size`) is `Qps[comp-1] * (y[0]/Vc - y[comp]/Vps[comp-1])`. Entry 0 is `dose - y[0]/Vc*CL` minus the sum of the other entries. |
| `Flux.SubcutaneousRhsEntries` | pkmodel/solution.py:73-86 | The subcutaneous derivative has exactly `size + 1` entries. Entry 0 (depot) is `dose - k_a*y[0]`. Entry `comp + 1` is the flux of compartment `comp`, with the central pool read from `y[1]` and the peripheral one from `y[comp + 1]`. Entry 1 (central) is `k_a*y[0] - y[1]/Vc*CL` minus the sum of the fluxes. |
| `Flux.SubcutaneousIsShiftedIntravenous` | pkmodel/solution.py:73-86 | The subcutaneous derivative is the depot entry followed by the intravenous derivative of the state without its depot, with the absorption `k_a*y[0]` in place of the dose. This is the one-slot index offset between the two layouts. |
| `Flux.IntravenousMassBalance` | pkmodel/solution.py:51-66 | The intravenous derivatives sum to `dose - y[0]/Vc*CL`: every flux added to a peripheral compartment is taken from the central one. |
| `Flux.SubcutaneousMassBalance` | pkmodel/solution.py:73-86 | The subcutaneous derivatives sum to `dose - y[1]/Vc*CL`: absorption and fluxes only move mass between pools. |
| `Flux.IntravenousAtRest` | pkmodel/solution.py:51-66 | With an all-zero state and zero dose rate, every intravenous derivative entry is zero. |
| `Flux.SubcutaneousAtRest` | pkmodel/solution.py:73-86 | With an all-zero state and zero dose rate, every subcutaneous derivative entry is zero. |
| `Flux.DepotDrains` | pkmodel/solution.py:75-77 | Without dosing, with `k_a >= 0` and a non-negative depot, the depot derivative is never positive. |
| `Flux.CentralOnly` | pkmodel/solution.py:52-66 | With `size = 1` the peripheral loop does nothing and the intravenous derivative is the single entry `dose - y[0]/Vc*CL`. |
| `Flux.SumAppend` | pkmodel/solution.py:65 | Adding a flux to the running sum adds it to the sum of all fluxes appended so far. This is the invariant `flux_sum` keeps. |
| `PkSolution.Solution.Solver` | pkmodel/solution.py:89-105 | Selects the subcutaneous RHS when `protocol.subcutaneous` holds and the intravenous one otherwise. Sets `y0` to zeros of length `size + 1` or `size` to match. Hands the integrator the span from the first to the last grid point. When the model is valid, the selected RHS returns a vector as long as `y0` at every time. |
| `PkSolution.StepFunctionKeepsStateSize` | pkmodel/solution.py:90-102 | The RHS of either regime maps a state of the size the solver gives `y0` to a derivative of that same size. |
| `PkSolution.ZeroStateIsRestPoint` | pkmodel/solution.py:90-99 | For either regime, when the dose rate at `t` is zero, the RHS maps the zero initial state that the solver builds to the zero vector. |
| `PkSolution.LinspaceGrid` | pkmodel/solution.py:36 | The grid `linspace(0, tmax, nsteps)` has `nsteps` points. It starts at 0. It ends at `tmax` when it has two points or more. It is strictly increasing when `tmax > 0`. |
| `PkSolution.Solution.constructor` | pkmodel/solution.py:33-37 | Stores the model and the protocol, builds the grid and runs the solver once, which leaves `y0` all zero and of the selected regime's size. |

## Left out

- The integrator call `scipy.integrate.solve_ivp` (pkmodel/solution.py:101-105) is left out, because it is a foreign adaptive Runge-Kutta solver with floating-point error control. `Solver` returns the initial-value problem it would hand over (`Ivp`: regime, time span, initial state, grid) in place of the trajectory.
- The field `sol` is not modelled. The source first fills it with zeros and then replaces it with the integrator's result, which is left out.
- `generate_plot` (pkmodel/solution.py:109-147) is matplotlib rendering and display. It is not part of this model.
- Floating point: all arithmetic is over `real`. Rounding, overflow, NaN and infinities are not modelled.
- `ValidModel`, `Solution.RhsIntravenous`, `Solution.RhsSubcutaneous`: the preconditions exclude the inputs on which the source fails or leaves the reals, instead of modelling those outcomes. Dividing by a zero `Vc` or `Vps[i]` yields an infinity or NaN under numpy (pkmodel/solution.py:51,63,73,83). `Qps` or `Vps` shorter than `size - 1` raises IndexError (pkmodel/solution.py:59,61,81,82). A state shorter than `size` (intravenous) or `size + 1` (subcutaneous) raises IndexError (pkmodel/solution.py:63,83).
- `Solution.constructor`: the defaults `tmax = 1` and `nsteps = 1000` are not modelled, so the caller passes both explicitly. `nsteps >= 1` is required, because the solver reads the first and last grid points.
- `LinspaceGrid`: the grid is exact over the reals. The rounding numpy applies to the spacing is not modelled.
- A model with `size = 0` is excluded by `ValidModel`. With it, the solver builds a zero state of length 0 (intravenous) or 1 (subcutaneous), and the right-hand side then reads `state[0]` or `state[1]` past its end and raises IndexError (pkmodel/solution.py:51,73,92,98).
- The Model and Protocol classes are not part of this model. Only the fields the solution reads appear, as the datatypes `Model` and `Protocol`.
- The code validates no parameters, raises no errors of its own and builds each derivative by appending to a list; the model does the same.
