/**
 * The pyqubo builder of the 12-direction lattice (QUBO/HCOMB12_QUBO.py): a variable table
 * of four bits per step with six pinned bits, the redundancy term, the overlap term over
 * pairs three or more apart, the backtrack term, one adjacency indicator per pair two or
 * more apart with a non-zero energy, and the objective
 * contact energy + penalty * overlap + penalty * back + penalty * redundancy with
 * penalty 1 - sum(energies).
 * Every builder takes the comparison sizing: AsWritten is the program, Safe gives each
 * comparison enough bits for the distances it must tell apart.
 */
module Fcc12Qubo {
  import opened BoolExpr
  import opened BitOpsQubo
  import opened Assembly
  import opened AxisTests
  import opened Geometry
  import opened Objective
  import opened ThreeAxes
  import opened Fcc12

  /** `set_default`: write the six pinned constants into the variable table. */
  method SetDefault(vars: map<(nat, nat), Expr>) returns (r: map<(nat, nat), Expr>)
    ensures r.Keys == vars.Keys + Presets.Keys
    ensures forall k :: k in r ==> r[k] == (if k in Presets then Num(Presets[k]) else vars[k])
  {
    r := vars[(0, 0) := Num(true)];
    r := r[(0, 1) := Num(false)];
    r := r[(0, 2) := Num(true)];
    r := r[(0, 3) := Num(true)];
    r := r[(1, 0) := Num(true)];
    r := r[(1, 3) := Num(true)];
  }

  /**
   * `initialize_q_vars(num_amino, 4)` then `set_default`: every entry of the table is what
   * the pinned table reads, so the builders below read `Pinned(Presets)`.
   */
  method DefaultTable(n: nat) returns (qVars: map<(nat, nat), Expr>)
    ensures forall t: nat, i: nat :: (t, i) in qVars <==> (t < n && i < 4) || (t, i) in Presets
    ensures forall k :: k in qVars ==> qVars[k] == Pinned(Presets)(k.0, k.1)
  {
    var vars := InitializeQVars(n, 4);
    qVars := SetDefault(vars);
  }

  /** `create_redundancy_constraint`: steps 0 .. n - 2. */
  method CreateRedundancyConstraint(n: nat) returns (redundancy: Expr)
    ensures redundancy == Redundancy(Pinned(Presets), n)
  {
    redundancy := OrOverSteps(RedundancyClauses(Pinned(Presets)), n - 1);
  }

  /** `create_overlap_constraint`: pairs three or more apart. */
  method CreateOverlapConstraint(n: nat, sizing: Sizing) returns (overlap: Expr)
    ensures overlap == Overlap(Axes(Pinned(Presets)), sizing, n, 3)
  {
    overlap := OrOverPairs((a1: nat, a2: nat) => OverlapFlag(Axes(Pinned(Presets)), sizing, a1, a2), n, 3);
  }

  /** `create_back_constraint`: turns 0 .. n - 3. */
  method CreateBackConstraint(n: nat) returns (back: Expr)
    ensures back == Back(Pinned(Presets), n)
  {
    back := OrOverSteps(BackClauses(Pinned(Presets)), n - 2);
  }

  /** The adjacency indicator of each pair, over the pinned table. */
  function Indicator12(sizing: Sizing): (nat, nat) -> Expr
  {
    (a1: nat, a2: nat) => Adjacency(Pinned(Presets), sizing, a1, a2)
  }

  /** The three constraints, in the order the model adds them. */
  function Constraints(n: nat, sizing: Sizing): seq<Expr>
  {
    var q := Pinned(Presets);
    [Overlap(Axes(q), sizing, n, 3), Back(q, n), Redundancy(q, n)]
  }

  /** The objective `create_energy_function` compiles, for a chain of n residues. */
  function Objective12(matrix: seq<seq<int>>, n: nat, sizing: Sizing): Poly
  {
    var ps := Contacts(matrix, n, 2);
    var es := EnergiesOf(matrix, ps);
    Model(IndicatorsOf(Indicator12(sizing), ps), es, SignedPenalty(es), Constraints(n, sizing))
  }

  /**
   * `create_energy_function` up to `compile`: interactions and energies, their weighted sum,
   * the penalty 1 - sum(energies), and penalty times the overlap, backtrack and redundancy terms.
   */
  method CreateEnergyFunction(matrix: seq<seq<int>>, n: nat, sizing: Sizing) returns (model: Poly)
    requires IsSquare(matrix, n)
    ensures model == Objective12(matrix, n, sizing)
  {
    var interactions, energies := CreateInteractions(Indicator12(sizing), matrix, n, 2);
    var total := TotalInteractionEnergy(interactions, energies);
    var penalty := SignedPenalty(energies);
    var redundancy := CreateRedundancyConstraint(n);
    var overlap := CreateOverlapConstraint(n, sizing);
    var back := CreateBackConstraint(n);
    model := Add(Add(Add(total, Scale(penalty, Term(overlap))), Scale(penalty, Term(back))), Scale(penalty, Term(redundancy)));
    var cs := [overlap, back, redundancy];
    assert cs[..2] == [overlap, back] && [overlap, back][..1] == [overlap] && [overlap][..0] == [];
    assert Assemble(total, penalty, [overlap]) == Add(total, Scale(penalty, Term(overlap)));
    assert Assemble(total, penalty, [overlap, back]) == Add(Add(total, Scale(penalty, Term(overlap))), Scale(penalty, Term(back)));
    assert Assemble(total, penalty, cs) == model;
  }

  /** Under any assignment, the pinned table reads the walk with the pins written in. */
  lemma PinnedWalk(a: Assignment)
    ensures Reflects(Pinned(Presets), a, Effective(Presets, a))
  {
    PinnedReflects(Presets, a);
  }

  /** No constraint holds exactly when none of the three terms does. */
  lemma ConstraintsViolated(n: nat, sizing: Sizing, a: Assignment)
    ensures var q := Pinned(Presets);
      (Violations(Constraints(n, sizing), a) == 0)
      <==> !(Eval(Redundancy(q, n), a) || Eval(Overlap(Axes(q), sizing, n, 3), a) || Eval(Back(q, n), a))
  {
    var cs := Constraints(n, sizing);
    ViolationsMeaning(cs, a);
    assert cs[0] == Overlap(Axes(Pinned(Presets)), sizing, n, 3);
  }

  /**
   * With the safe sizing the objective is the energy of the fold's contacts plus the
   * penalty for each violated constraint, and no constraint is violated exactly when the
   * walk is a fold.
   */
  lemma SafeObjectiveMeaning(matrix: seq<seq<int>>, n: nat, a: Assignment)
    requires IsSquare(matrix, n)
    ensures var b, ps := Effective(Presets, a), Contacts(matrix, n, 2);
      PolyValue(Objective12(matrix, n, Safe), a)
        == FoldEnergy(matrix, ps, Touching(b)) + SignedPenalty(EnergiesOf(matrix, ps)) * Violations(Constraints(n, Safe), a)
      && (Violations(Constraints(n, Safe), a) == 0 <==> IsFold(b, n))
  {
    var b, ps := Effective(Presets, a), Contacts(matrix, n, 2);
    var q := Pinned(Presets);
    PinnedWalk(a);
    var es := EnergiesOf(matrix, ps);
    var ind := IndicatorsOf(Indicator12(Safe), ps);
    ModelValue(ind, es, SignedPenalty(es), Constraints(n, Safe), a);
    forall p | p in ps
      ensures Eval(Indicator12(Safe)(p.0, p.1), a) <==> Touching(b)(p.0, p.1)
    {
      ContactsMembership(matrix, n, 2, p);
      AdjacencyExact(q, a, b, p.0, p.1);
    }
    InteractionEnergyMeaning(Indicator12(Safe), matrix, ps, Touching(b), a);
    ConstraintsViolated(n, Safe, a);
    ConstraintsExact(q, a, b, n);
  }

  /** As written, a walk that is not a fold still violates a constraint. */
  lemma AsWrittenPenalisesClashes(n: nat, a: Assignment)
    requires !IsFold(Effective(Presets, a), n)
    ensures Violations(Constraints(n, AsWritten), a) >= 1
  {
    PinnedWalk(a);
    ConstraintsCatch(Pinned(Presets), a, Effective(Presets, a), n);
    ConstraintsViolated(n, AsWritten, a);
  }

  /**
   * As written, the straight north-east walk, which the pins allow, is a fold of every
   * length, yet from five residues on it violates the overlap constraint.
   */
  lemma AsWrittenPenalisesStraightFold(n: nat, a: Assignment)
    requires StraightNE(Effective(Presets, a)) && n >= 5
    ensures IsFold(Effective(Presets, a), n)
    ensures Violations(Constraints(n, AsWritten), a) >= 1
  {
    PinnedWalk(a);
    OverlapFalseAlarm(Pinned(Presets), a, Effective(Presets, a), n);
    ConstraintsViolated(n, AsWritten, a);
  }

  /**
   * With no positive contact energy, the safe objective scores every fold strictly below
   * every walk that is not a fold.
   */
  lemma SafeFoldsWin(matrix: seq<seq<int>>, n: nat, good: Assignment, bad: Assignment)
    requires IsSquare(matrix, n)
    requires forall i, j :: 0 <= i < n && 0 <= j < n ==> matrix[i][j] <= 0
    requires IsFold(Effective(Presets, good), n) && !IsFold(Effective(Presets, bad), n)
    ensures PolyValue(Objective12(matrix, n, Safe), bad) > PolyValue(Objective12(matrix, n, Safe), good)
  {
    var ps := Contacts(matrix, n, 2);
    var es := EnergiesOf(matrix, ps);
    var cs := Constraints(n, Safe);
    forall i | 0 <= i < |es|
      ensures es[i] <= 0
    {
      EnergiesOfIndex(matrix, ps, i);
      ContactsMembership(matrix, n, 2, ps[i]);
    }
    SignedPenaltyDominatesWhenNonPositive(es);
    SafeObjectiveMeaning(matrix, n, good);
    SafeObjectiveMeaning(matrix, n, bad);
    ViolationsMeaning(cs, good);
    ViolationsMeaning(cs, bad);
    Dominance(IndicatorsOf(Indicator12(Safe), ps), es, SignedPenalty(es), cs, good, bad);
  }
}
