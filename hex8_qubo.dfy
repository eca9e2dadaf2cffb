/**
 * The pyqubo builder of the 8-direction lattice (QUBO/HCOMB8_QUBO.py): a variable table of
 * three bits per step with two pinned bits, the backtrack term, the overlap term over pairs
 * three or more apart, one adjacency indicator per pair two or more apart with a non-zero
 * energy, and the objective contact energy + 40 * overlap + 40 * back.
 * Every builder takes the comparison sizing: AsWritten is the program, Safe gives each
 * comparison enough bits for the distances it must tell apart.
 */
module Hex8Qubo {
  import opened BoolExpr
  import opened BitOpsQubo
  import opened Assembly
  import opened AxisTests
  import opened Geometry
  import opened Objective
  import opened Hex8

  /** The fixed penalty weight of both constraints. */
  const Penalty: int := 40

  /** `set_default`: write the two pinned constants into the variable table. */
  method SetDefault(vars: map<(nat, nat), Expr>) returns (r: map<(nat, nat), Expr>)
    ensures r.Keys == vars.Keys + Presets.Keys
    ensures forall k :: k in r ==> r[k] == (if k in Presets then Num(Presets[k]) else vars[k])
  {
    r := vars[(0, 0) := Num(false)];
    r := r[(0, 1) := Num(false)];
  }

  /**
   * `initialize_q_vars(num_amino, 3)` then `set_default`: every entry of the table is what
   * the pinned table reads, so the builders below read `Pinned(Presets)`.
   */
  method DefaultTable(n: nat) returns (qVars: map<(nat, nat), Expr>)
    ensures forall t: nat, i: nat :: (t, i) in qVars <==> (t < n && i < 3) || (t, i) in Presets
    ensures forall k :: k in qVars ==> qVars[k] == Pinned(Presets)(k.0, k.1)
  {
    var vars := InitializeQVars(n, 3);
    qVars := SetDefault(vars);
  }

  /** `create_back_constraint`: turns 0 .. n - 3. */
  method CreateBackConstraint(n: nat) returns (back: Expr)
    ensures back == Back(Pinned(Presets), n)
  {
    back := OrOverSteps(BackClauses(Pinned(Presets)), n - 2);
  }

  /** `create_overlap_constraint`: pairs three or more apart. */
  method CreateOverlapConstraint(n: nat, sizing: Sizing) returns (overlap: Expr)
    ensures overlap == Overlap(Pinned(Presets), sizing, n, 3)
  {
    overlap := OrOverPairs((a1: nat, a2: nat) => OverlapFlag(Pinned(Presets), sizing, a1, a2), n, 3);
  }

  /** The adjacency indicator of each pair, over the pinned table. */
  function Indicator8(sizing: Sizing): (nat, nat) -> Expr
  {
    (a1: nat, a2: nat) => Adjacency(Pinned(Presets), sizing, a1, a2)
  }

  /** The objective `create_energy_function` compiles, for a chain of n residues. */
  function Objective8(matrix: seq<seq<int>>, n: nat, sizing: Sizing): Poly
  {
    var ps := Contacts(matrix, n, 2);
    Model(IndicatorsOf(Indicator8(sizing), ps), EnergiesOf(matrix, ps), Penalty,
      [Overlap(Pinned(Presets), sizing, n, 3), Back(Pinned(Presets), n)])
  }

  /**
   * `create_energy_function` up to `compile`: interactions and energies, their weighted sum,
   * and 40 times the overlap and the backtrack terms.
   */
  method CreateEnergyFunction(matrix: seq<seq<int>>, n: nat, sizing: Sizing) returns (model: Poly)
    requires IsSquare(matrix, n)
    ensures model == Objective8(matrix, n, sizing)
  {
    var interactions, energies := CreateInteractions(Indicator8(sizing), matrix, n, 2);
    var total := TotalInteractionEnergy(interactions, energies);
    var back := CreateBackConstraint(n);
    var overlap := CreateOverlapConstraint(n, sizing);
    model := Add(Add(total, Scale(Penalty, Term(overlap))), Scale(Penalty, Term(back)));
    var cs := [overlap, back];
    assert cs[..1] == [overlap] && [overlap][..0] == [];
    assert Assemble(total, Penalty, [overlap]) == Add(total, Scale(Penalty, Term(overlap)));
    assert Assemble(total, Penalty, cs) == model;
  }

  /** Under any assignment, the pinned table reads the walk with the pins written in. */
  lemma PinnedWalk(a: Assignment)
    ensures Reflects(Pinned(Presets), a, Effective(Presets, a))
  {
    PinnedReflects(Presets, a);
  }

  /**
   * With the safe sizing the objective is the energy of the fold's contacts plus 40 for each
   * violated constraint, and no constraint is violated exactly when the walk is self-avoiding.
   */
  lemma SafeObjectiveMeaning(matrix: seq<seq<int>>, n: nat, a: Assignment)
    requires IsSquare(matrix, n)
    ensures var b, ps := Effective(Presets, a), Contacts(matrix, n, 2);
      var cs := [Overlap(Pinned(Presets), Safe, n, 3), Back(Pinned(Presets), n)];
      PolyValue(Objective8(matrix, n, Safe), a) == FoldEnergy(matrix, ps, Touching(b)) + Penalty * Violations(cs, a)
      && (Violations(cs, a) == 0 <==> SelfAvoiding(Moves(b), n))
  {
    var b, ps := Effective(Presets, a), Contacts(matrix, n, 2);
    var q := Pinned(Presets);
    var cs := [Overlap(q, Safe, n, 3), Back(q, n)];
    PinnedWalk(a);
    var es := EnergiesOf(matrix, ps);
    var ind := IndicatorsOf(Indicator8(Safe), ps);
    ModelValue(ind, es, Penalty, cs, a);
    forall p | p in ps
      ensures Eval(Indicator8(Safe)(p.0, p.1), a) <==> Touching(b)(p.0, p.1)
    {
      ContactsMembership(matrix, n, 2, p);
      AdjacencyExact(q, a, b, p.0, p.1);
    }
    InteractionEnergyMeaning(Indicator8(Safe), matrix, ps, Touching(b), a);
    ViolationsMeaning(cs, a);
    ConstraintsExact(q, a, b, n);
  }

  /**
   * As written, any clash still costs at least the penalty once: a walk that is not
   * self-avoiding violates a constraint.
   */
  lemma AsWrittenPenalisesClashes(n: nat, a: Assignment)
    requires !SelfAvoiding(Moves(Effective(Presets, a)), n)
    ensures Violations([Overlap(Pinned(Presets), AsWritten, n, 3), Back(Pinned(Presets), n)], a) >= 1
  {
    var q := Pinned(Presets);
    PinnedWalk(a);
    ConstraintsCatch(q, a, Effective(Presets, a), n);
    ViolationsMeaning([Overlap(q, AsWritten, n, 3), Back(q, n)], a);
  }

  /**
   * As written, the straight walk up, which the pins allow, is a fold of every length, yet
   * from five residues on it violates the overlap constraint.
   */
  lemma AsWrittenPenalisesStraightFold(n: nat, a: Assignment)
    requires StraightUp(Effective(Presets, a)) && n >= 5
    ensures SelfAvoiding(Moves(Effective(Presets, a)), n)
    ensures Violations([Overlap(Pinned(Presets), AsWritten, n, 3), Back(Pinned(Presets), n)], a) >= 1
  {
    var q := Pinned(Presets);
    PinnedWalk(a);
    OverlapFalseAlarm(q, a, Effective(Presets, a), n);
    ViolationsMeaning([Overlap(q, AsWritten, n, 3), Back(q, n)], a);
  }

  /**
   * When the contact energies' magnitudes add up to less than 40, the safe objective scores
   * every fold strictly below every walk that is not self-avoiding.
   */
  lemma SafeFoldsWin(matrix: seq<seq<int>>, n: nat, good: Assignment, bad: Assignment)
    requires IsSquare(matrix, n)
    requires SumAbs(EnergiesOf(matrix, Contacts(matrix, n, 2))) < Penalty
    requires SelfAvoiding(Moves(Effective(Presets, good)), n) && !SelfAvoiding(Moves(Effective(Presets, bad)), n)
    ensures PolyValue(Objective8(matrix, n, Safe), bad) > PolyValue(Objective8(matrix, n, Safe), good)
  {
    var ps := Contacts(matrix, n, 2);
    var es := EnergiesOf(matrix, ps);
    var q := Pinned(Presets);
    var cs := [Overlap(q, Safe, n, 3), Back(q, n)];
    SafeObjectiveMeaning(matrix, n, good);
    SafeObjectiveMeaning(matrix, n, bad);
    ViolationsMeaning(cs, good);
    ViolationsMeaning(cs, bad);
    Dominance(IndicatorsOf(Indicator8(Safe), ps), es, Penalty, cs, good, bad);
  }
}
