/**
 The compartmental flux engine of a pharmacokinetic (PK) model.

 Drug mass sits in pools ("compartments"): a central compartment, which receives
 the dose and is cleared, and `size - 1` peripheral compartments that exchange
 mass with the central one in proportion to the difference of concentrations.
 Subcutaneous dosing adds one more pool in front, the depot, which drains into
 the central compartment at the absorption rate `k_a`.

 This module holds the data the engine reads and the pure specification of the
 two right-hand sides (the derivative vectors handed to the ODE integrator),
 together with the facts proved about them: the entry-by-entry formulas, the
 index shift between the two state layouts and mass balance.
 */
module Flux {

  /** The parameters of a PK model that the engine reads. `size` counts every
      compartment of the model: the central one and `size - 1` peripheral ones.
      Peripheral compartment `comp` (for `1 <= comp < size`) has transfer rate
      `Qps[comp - 1]` and volume `Vps[comp - 1]`. */
  datatype Model = Model(size: nat, Vc: real, CL: real, Qps: seq<real>, Vps: seq<real>)

  /** The parameters of a dosing protocol that the engine reads: whether the
      dose is subcutaneous, the dose rate as a function of time, and the
      absorption rate from the depot (read only when dosing is subcutaneous). */
  datatype Protocol = Protocol(subcutaneous: bool, dose: real -> real, k_a: real)

  /** What evaluating a right-hand side needs of the model: at least the central
      compartment, a transfer rate and a volume for every peripheral
      compartment, and no division by a zero volume. Nothing asks for positive
      volumes or rates: the engine itself does not. */
  predicate ValidModel(m: Model)
  {
    && m.size >= 1
    && |m.Qps| >= m.size - 1
    && |m.Vps| >= m.size - 1
    && m.Vc != 0.0
    && forall i :: 0 <= i < m.size - 1 ==> m.Vps[i] != 0.0
  }

  /** The sum of a vector of rates. */
  function Sum(s: seq<real>): real
  {
    if s == [] then 0.0 else s[0] + Sum(s[1..])
  }

  /** Adding one term at the end of a running sum adds it to the sum. */
  lemma {:induction false} SumAppend(s: seq<real>, x: real)
    ensures Sum(s + [x]) == Sum(s) + x
  {
    if s == [] {
      assert [] + [x] == [x];
    } else {
      assert (s + [x])[1..] == s[1..] + [x];
      SumAppend(s[1..], x);
    }
  }

  /** A vector of zero rates sums to zero. */
  lemma {:induction false} SumOfZeros(s: seq<real>)
    requires forall i :: 0 <= i < |s| ==> s[i] == 0.0
    ensures Sum(s) == 0.0
  {
    if s != [] {
      SumOfZeros(s[1..]);
    }
  }

  /** Drug mass removed per unit time from a central compartment holding `central`. */
  function Cleared(m: Model, central: real): real
    requires m.Vc != 0.0
  {
    central / m.Vc * m.CL
  }

  /** The flux from the central compartment into peripheral compartment `comp`,
      driven by the difference of their concentrations. */
  function PeripheralFlux(m: Model, central: real, peripheral: real, comp: nat): real
    requires ValidModel(m) && 1 <= comp < m.size
  {
    m.Qps[comp - 1] * (central / m.Vc - peripheral / m.Vps[comp - 1])
  }

  /** The fluxes into peripheral compartments `1 .. size - 1`, whose quantities
      are the first `size - 1` entries of `peripherals`. */
  function Fluxes(m: Model, central: real, peripherals: seq<real>): seq<real>
    requires ValidModel(m) && |peripherals| >= m.size - 1
  {
    seq(m.size - 1, i requires 0 <= i < m.size - 1 => PeripheralFlux(m, central, peripherals[i], i + 1))
  }

  /** The intravenous right-hand side. The state is
      `[central, peripheral_1, .., peripheral_(size-1)]`; `dose` is the dose
      rate at the time of evaluation. */
  function IntravenousRhs(m: Model, dose: real, y: seq<real>): seq<real>
    requires ValidModel(m) && |y| >= m.size
  {
    var f := Fluxes(m, y[0], y[1..]);
    [dose - Cleared(m, y[0]) - Sum(f)] + f
  }

  /** The subcutaneous right-hand side. The state is
      `[depot, central, peripheral_1, .., peripheral_(size-1)]`; `dose` is the
      dose rate at the time of evaluation and `ka` the absorption rate. */
  function SubcutaneousRhs(m: Model, dose: real, ka: real, y: seq<real>): seq<real>
    requires ValidModel(m) && |y| >= m.size + 1
  {
    var f := Fluxes(m, y[1], y[2..]);
    [dose - ka * y[0], ka * y[0] - Cleared(m, y[1]) - Sum(f)] + f
  }

  /** Entry by entry, the intravenous derivative has one slot per compartment:
      slot `comp` of a peripheral compartment is its flux from the central
      compartment, read at `y[0]` and `y[comp]`, and the central slot is the
      dose minus clearance minus every flux leaving it. */
  lemma IntravenousRhsEntries(m: Model, dose: real, y: seq<real>)
    requires ValidModel(m) && |y| >= m.size
    ensures |IntravenousRhs(m, dose, y)| == m.size
    ensures forall comp :: 1 <= comp < m.size ==>
      IntravenousRhs(m, dose, y)[comp] == PeripheralFlux(m, y[0], y[comp], comp)
    ensures IntravenousRhs(m, dose, y)[0]
      == dose - y[0] / m.Vc * m.CL - Sum(IntravenousRhs(m, dose, y)[1..])
  {
    var r := IntravenousRhs(m, dose, y);
    assert r[1..] == Fluxes(m, y[0], y[1..]);
  }

  /** Entry by entry, the subcutaneous derivative has one slot more than there
      are compartments: slot 0 is the depot, which receives the dose and loses
      `ka * y[0]`; slot 1 is the central compartment, read at `y[1]`; slot
      `j = comp + 1` is peripheral compartment `comp = j - 1`, read at `y[j]`. */
  lemma SubcutaneousRhsEntries(m: Model, dose: real, ka: real, y: seq<real>)
    requires ValidModel(m) && |y| >= m.size + 1
    ensures |SubcutaneousRhs(m, dose, ka, y)| == m.size + 1
    ensures SubcutaneousRhs(m, dose, ka, y)[0] == dose - ka * y[0]
    ensures forall j :: 2 <= j < m.size + 1 ==>
      SubcutaneousRhs(m, dose, ka, y)[j] == PeripheralFlux(m, y[1], y[j], j - 1)
    ensures SubcutaneousRhs(m, dose, ka, y)[1]
      == ka * y[0] - y[1] / m.Vc * m.CL - Sum(SubcutaneousRhs(m, dose, ka, y)[2..])
  {
    var r := SubcutaneousRhs(m, dose, ka, y);
    assert r[2..] == Fluxes(m, y[1], y[2..]);
  }

  /** The subcutaneous layout is the intravenous one shifted by the depot slot:
      dropping the depot entry leaves the intravenous derivative of the state
      without its depot, with the absorption `ka * y[0]` in place of the dose. */
  lemma SubcutaneousIsShiftedIntravenous(m: Model, dose: real, ka: real, y: seq<real>)
    requires ValidModel(m) && |y| >= m.size + 1
    ensures SubcutaneousRhs(m, dose, ka, y)
      == [dose - ka * y[0]] + IntravenousRhs(m, ka * y[0], y[1..])
  {
    assert y[1..][0] == y[1];
    assert y[1..][1..] == y[2..];
  }

  /** Intravenous mass balance: the fluxes only move mass between compartments,
      so the derivatives add up to the dose minus what is cleared. */
  lemma IntravenousMassBalance(m: Model, dose: real, y: seq<real>)
    requires ValidModel(m) && |y| >= m.size
    ensures Sum(IntravenousRhs(m, dose, y)) == dose - y[0] / m.Vc * m.CL
  {
    var f := Fluxes(m, y[0], y[1..]);
    var r := IntravenousRhs(m, dose, y);
    assert r[1..] == f;
  }

  /** Subcutaneous mass balance: absorption and the fluxes only move mass
      between pools, so the derivatives add up to the dose minus what is
      cleared from the central compartment, read at `y[1]`. */
  lemma SubcutaneousMassBalance(m: Model, dose: real, ka: real, y: seq<real>)
    requires ValidModel(m) && |y| >= m.size + 1
    ensures Sum(SubcutaneousRhs(m, dose, ka, y)) == dose - y[1] / m.Vc * m.CL
  {
    var iv := IntravenousRhs(m, ka * y[0], y[1..]);
    SubcutaneousIsShiftedIntravenous(m, dose, ka, y);
    assert ([dose - ka * y[0]] + iv)[1..] == iv;
    IntravenousMassBalance(m, ka * y[0], y[1..]);
  }

  /** No drug and no dose: every flux is zero, so the intravenous derivative is
      the zero vector, of one entry per compartment. */
  lemma IntravenousAtRest(m: Model, y: seq<real>)
    requires ValidModel(m) && |y| >= m.size
    requires forall i :: 0 <= i < |y| ==> y[i] == 0.0
    ensures |IntravenousRhs(m, 0.0, y)| == m.size
    ensures forall i :: 0 <= i < m.size ==> IntravenousRhs(m, 0.0, y)[i] == 0.0
  {
    var f := Fluxes(m, y[0], y[1..]);
    assert forall i :: 0 <= i < |f| ==> f[i] == 0.0;
    SumOfZeros(f);
  }

  /** No drug and no dose: the subcutaneous derivative is the zero vector, of
      one entry per compartment plus the depot. */
  lemma SubcutaneousAtRest(m: Model, ka: real, y: seq<real>)
    requires ValidModel(m) && |y| >= m.size + 1
    requires forall i :: 0 <= i < |y| ==> y[i] == 0.0
    ensures |SubcutaneousRhs(m, 0.0, ka, y)| == m.size + 1
    ensures forall i :: 0 <= i < m.size + 1 ==> SubcutaneousRhs(m, 0.0, ka, y)[i] == 0.0
  {
    var f := Fluxes(m, y[1], y[2..]);
    assert forall i :: 0 <= i < |f| ==> f[i] == 0.0;
    SumOfZeros(f);
  }

  /** Without dosing, a non-negative absorption rate drains a non-negative
      depot: its derivative is never positive. */
  lemma DepotDrains(m: Model, ka: real, y: seq<real>)
    requires ValidModel(m) && |y| >= m.size + 1
    requires ka >= 0.0 && y[0] >= 0.0
    ensures SubcutaneousRhs(m, 0.0, ka, y)[0] <= 0.0
  {
    assert ka * y[0] >= 0.0;
  }

  /** A model with the central compartment alone has no flux to compute: the
      intravenous derivative is the single entry dose minus clearance. */
  lemma CentralOnly(m: Model, dose: real, y: seq<real>)
    requires ValidModel(m) && m.size == 1 && |y| >= 1
    ensures IntravenousRhs(m, dose, y) == [dose - y[0] / m.Vc * m.CL]
  {
    var f := Fluxes(m, y[0], y[1..]);
    assert f == [];
    assert Cleared(m, y[0]) == y[0] / m.Vc * m.CL;
  }
}
