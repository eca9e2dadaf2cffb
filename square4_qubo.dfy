/**
 * The pyqubo builder of the square lattice (QUBO/HCOMB4_QUBO.py): a variable table with
 * three pinned bits, the overlap term over pairs four or more apart, the backtrack term,
 * one adjacency indicator per pair three or more apart with a non-zero energy, and the
 * objective contact energy + penalty * (overlap + back) with penalty 1 - sum(energies).
 * Every builder takes the comparison sizing: AsWritten is the program, Safe gives each
 * comparison enough bits for the distances it must tell apart.
 */
module Square4Qubo {
  import opened BoolExpr
  import opened BitOpsQubo
  import opened Assembly
  import opened AxisTests
  import opened Geometry
  import opened Objective
  import opened Square4

  /** `set_default`: write the three pinned constants into the variable table. */
  method SetDefault(vars: map<(nat, nat), Expr>) returns (r: map<(nat, nat), Expr>)
    ensures r.Keys == vars.Keys + Presets.Keys
    ensures forall k :: k in r ==> r[k] == (if k in Presets then Num(Presets[k]) else vars[k])
  {
    r := vars[(0, 0) := Num(false)];
    r := r[(0, 1) := Num(true)];
    r := r[(1, 1) := Num(true)];
  }

  /**
   * `initialize_q_vars(num_amino, 2)` then `set_default`: every entry of the table is what
   * the pinned table reads, so the builders below read `Pinned(Presets)`.
   */
  method DefaultTable(n: nat) returns (qVars: map<(nat, nat), Expr>)
    ensures forall t: nat, i: nat :: (t, i) in qVars <==> (t < n && i < 2) || (t, i) in Presets
    ensures forall k :: k in qVars ==> qVars[k] == Pinned(Presets)(k.0, k.1)
  {
    var vars := InitializeQVars(n, 2);
    qVars := SetDefault(vars);
  }

  /** `create_overlap_constraint`: pairs four or more apart. */
  method CreateOverlapConstraint(n: nat, sizing: Sizing) returns (overlap: Expr)
    ensures overlap == Overlap(Pinned(Presets), sizing, n, 4)
  {
    overlap := OrOverPairs((a1: nat, a2: nat) => OverlapFlag(Pinned(Presets), sizing, a1, a2), n, 4);
  }

  /** `create_back_constraint`: turns 0 .. n - 3. */
  method CreateBackConstraint(n: nat) returns (back: Expr)
    ensures back == Back(Pinned(Presets), n)
  {
    back := OrOverSteps(BackClauses(Pinned(Presets)), n - 2);
  }

  /** The adjacency indicator of each pair, over the pinned table. */
  function Indicator4(sizing: Sizing): (nat, nat) -> Expr
  {
    (a1: nat, a2: nat) => Adjacency(Pinned(Presets), sizing, a1, a2)
  }

  /** The objective `create_energy_function` compiles, for a chain of n residues. */
  function Objective4(matrix: seq<seq<int>>, n: nat, sizing: Sizing): Poly
  {
    var ps := Contacts(matrix, n, 3);
    var es := EnergiesOf(matrix, ps);
    Model(IndicatorsOf(Indicator4(sizing), ps), es, SignedPenalty(es),
      [Overlap(Pinned(Presets), sizing, n, 4), Back(Pinned(Presets), n)])
  }

  /**
   * `create_energy_function` up to `compile`: interactions and energies, their weighted sum,
   * the penalty 1 - sum(energies), and penalty times the overlap and the backtrack terms.
   */
  method CreateEnergyFunction(matrix: seq<seq<int>>, n: nat, sizing: Sizing) returns (model: Poly)
    requires IsSquare(matrix, n)
    ensures model == Objective4(matrix, n, sizing)
  {
    var interactions, energies := CreateInteractions(Indicator4(sizing), matrix, n, 3);
    var total := TotalInteractionEnergy(interactions, energies);
    var penalty := SignedPenalty(energies);
    var overlap := CreateOverlapConstraint(n, sizing);
    var back := CreateBackConstraint(n);
    model := Add(Add(total, Scale(penalty, Term(overlap))), Scale(penalty, Term(back)));
    var cs := [overlap, back];
    assert cs[..1] == [overlap] && [overlap][..0] == [];
    assert Assemble(total, penalty, [overlap]) == Add(total, Scale(penalty, Term(overlap)));
    assert Assemble(total, penalty, cs) == model;
  }

  /** Under any assignment, the pinned table reads the walk with the pins written in. */
  lemma PinnedWalk(a: Assignment)
    ensures Reflects(Pinned(Presets), a, Effective(Presets, a))
  {
    PinnedReflects(Presets, a);
  }

  /**
   * With the safe sizing the objective is the energy of the fold's contacts plus the
   * penalty for each violated constraint, and no constraint is violated exactly when the
   * walk is self-avoiding.
   */
  lemma SafeObjectiveMeaning(matrix: seq<seq<int>>, n: nat, a: Assignment)
    requires IsSquare(matrix, n)
    ensures var b, ps := Effective(Presets, a), Contacts(matrix, n, 3);
      var cs := [Overlap(Pinned(Presets), Safe, n, 4), Back(Pinned(Presets), n)];
      PolyValue(Objective4(matrix, n, Safe), a)
        == FoldEnergy(matrix, ps, Touching(b)) + SignedPenalty(EnergiesOf(matrix, ps)) * Violations(cs, a)
      && (Violations(cs, a) == 0 <==> SelfAvoiding(Moves(b), n))
  {
    var b, ps := Effective(Presets, a), Contacts(matrix, n, 3);
    var q := Pinned(Presets);
    var cs := [Overlap(q, Safe, n, 4), Back(q, n)];
    PinnedWalk(a);
    var es := EnergiesOf(matrix, ps);
    var ind := IndicatorsOf(Indicator4(Safe), ps);
    ModelValue(ind, es, SignedPenalty(es), cs, a);
    forall p | p in ps
      ensures Eval(Indicator4(Safe)(p.0, p.1), a) <==> Touching(b)(p.0, p.1)
    {
      ContactsMembership(matrix, n, 3, p);
      AdjacencyExact(q, a, b, p.0, p.1);
    }
    InteractionEnergyMeaning(Indicator4(Safe), matrix, ps, Touching(b), a);
    ViolationsMeaning(cs, a);
    ConstraintsExact(q, a, b, n, 4);
  }

  /**
   * As written, any clash still costs at least the penalty once: a walk that is not
   * self-avoiding violates a constraint.
   */
  lemma AsWrittenPenalisesClashes(n: nat, a: Assignment)
    requires !SelfAvoiding(Moves(Effective(Presets, a)), n)
    ensures Violations([Overlap(Pinned(Presets), AsWritten, n, 4), Back(Pinned(Presets), n)], a) >= 1
  {
    var q := Pinned(Presets);
    var cs := [Overlap(q, AsWritten, n, 4), Back(q, n)];
    PinnedWalk(a);
    ConstraintsCatch(q, a, Effective(Presets, a), n, 4);
    ViolationsMeaning(cs, a);
  }

  /**
   * As written, the straight walk east, which the pins allow, is a fold of every length, yet
   * from five residues on it violates the overlap constraint.
   */
  lemma AsWrittenPenalisesStraightFold(n: nat, a: Assignment)
    requires StraightEast(Effective(Presets, a)) && n >= 5
    ensures SelfAvoiding(Moves(Effective(Presets, a)), n)
    ensures Violations([Overlap(Pinned(Presets), AsWritten, n, 4), Back(Pinned(Presets), n)], a) >= 1
  {
    var q := Pinned(Presets);
    PinnedWalk(a);
    OverlapFalseAlarm(q, a, Effective(Presets, a), n);
    ViolationsMeaning([Overlap(q, AsWritten, n, 4), Back(q, n)], a);
  }

  /**
   * With no positive contact energy, the safe objective scores every fold strictly below
   * every walk that is not self-avoiding.
   */
  lemma SafeFoldsWin(matrix: seq<seq<int>>, n: nat, good: Assignment, bad: Assignment)
    requires IsSquare(matrix, n)
    requires forall i, j :: 0 <= i < n && 0 <= j < n ==> matrix[i][j] <= 0
    requires SelfAvoiding(Moves(Effective(Presets, good)), n) && !SelfAvoiding(Moves(Effective(Presets, bad)), n)
    ensures PolyValue(Objective4(matrix, n, Safe), bad) > PolyValue(Objective4(matrix, n, Safe), good)
  {
    var ps := Contacts(matrix, n, 3);
    var es := EnergiesOf(matrix, ps);
    var q := Pinned(Presets);
    var cs := [Overlap(q, Safe, n, 4), Back(q, n)];
    forall i | 0 <= i < |es|
      ensures es[i] <= 0
    {
      EnergiesOfIndex(matrix, ps, i);
      ContactsMembership(matrix, n, 3, ps[i]);
    }
    SignedPenaltyDominatesWhenNonPositive(es);
    SafeObjectiveMeaning(matrix, n, good);
    SafeObjectiveMeaning(matrix, n, bad);
    ViolationsMeaning(cs, good);
    ViolationsMeaning(cs, bad);
    Dominance(IndicatorsOf(Indicator4(Safe), ps), es, SignedPenalty(es), cs, good, bad);
  }
}
