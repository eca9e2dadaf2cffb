/**
 * The pyqubo objective each lattice assembles: every interaction indicator times its
 * contact energy, plus the penalty times each hard-constraint indicator (overlap,
 * backtrack, and for the 12-direction lattice the unused codes). A minimiser is only a
 * valid fold if every constraint violation costs more than any gain in contact energy.
 */
module Objective {
  import opened BoolExpr
  import opened Assembly

  /** pyqubo arithmetic over gate expressions: constants, gates (as 0/1 polynomials), sums, scalings. */
  datatype Poly = Const(c: int) | Term(e: Expr) | Add(l: Poly, r: Poly) | Scale(k: int, p: Poly)

  function PolyValue(p: Poly, a: Assignment): int
  {
    match p
    case Const(c) => c
    case Term(e) => Value(e, a)
    case Add(l, r) => PolyValue(l, a) + PolyValue(r, a)
    case Scale(k, q) => k * PolyValue(q, a)
  }

  // ---------------------------------------------------------------- contact energy

  /** `total = Num(0); for i: total = total + interactions[i] * energy_values[i]`, after k terms. */
  function InteractionSum(interactions: seq<Expr>, energies: seq<int>, k: nat): Poly
    requires k <= |interactions| && k <= |energies|
  {
    if k == 0 then Const(0) else Add(InteractionSum(interactions, energies, k - 1), Scale(energies[k - 1], Term(interactions[k - 1])))
  }

  /** The contact energy of an assignment: the energies of the pairs whose indicator holds. */
  function ContactEnergy(interactions: seq<Expr>, energies: seq<int>, k: nat, a: Assignment): int
    requires k <= |interactions| && k <= |energies|
  {
    if k == 0 then 0 else ContactEnergy(interactions, energies, k - 1, a) + (if Eval(interactions[k - 1], a) then energies[k - 1] else 0)
  }

  lemma {:induction false} InteractionSumValue(interactions: seq<Expr>, energies: seq<int>, k: nat, a: Assignment)
    requires k <= |interactions| && k <= |energies|
    ensures PolyValue(InteractionSum(interactions, energies, k), a) == ContactEnergy(interactions, energies, k, a)
  {
    if k > 0 {
      InteractionSumValue(interactions, energies, k - 1, a);
      ValueIsIndicator(interactions[k - 1], a);
      var e := energies[k - 1];
      var step := Scale(e, Term(interactions[k - 1]));
      assert PolyValue(InteractionSum(interactions, energies, k), a)
          == PolyValue(InteractionSum(interactions, energies, k - 1), a) + PolyValue(step, a);
      assert PolyValue(step, a) == e * PolyValue(Term(interactions[k - 1]), a) == e * Value(interactions[k - 1], a);
      if Eval(interactions[k - 1], a) {
        assert e * Value(interactions[k - 1], a) == e * 1 == e;
      } else {
        assert e * Value(interactions[k - 1], a) == e * 0 == 0;
      }
    }
  }

  /** The loop that adds up the interaction terms. */
  method TotalInteractionEnergy(interactions: seq<Expr>, energies: seq<int>) returns (total: Poly)
    requires |interactions| == |energies|
    ensures total == InteractionSum(interactions, energies, |interactions|)
  {
    total := Const(0);
    var i := 0;
    while i < |interactions|
      invariant i <= |interactions|
      invariant total == InteractionSum(interactions, energies, i)
    {
      total := Add(total, Scale(energies[i], Term(interactions[i])));
      i := i + 1;
    }
  }

  function SumOf(es: seq<int>): int
  {
    if es == [] then 0 else SumOf(es[..|es| - 1]) + es[|es| - 1]
  }

  function Abs(x: int): nat
  {
    if x < 0 then -x else x
  }

  /** The sum of the absolute values of the energies. */
  function SumAbs(es: seq<int>): nat
  {
    if es == [] then 0 else SumAbs(es[..|es| - 1]) + Abs(es[|es| - 1])
  }

  /** Two assignments differ in contact energy by at most the sum of the absolute energies. */
  lemma {:induction false} ContactEnergyGap(interactions: seq<Expr>, energies: seq<int>, k: nat, a: Assignment, b: Assignment)
    requires k <= |interactions| && k <= |energies|
    ensures ContactEnergy(interactions, energies, k, a) - ContactEnergy(interactions, energies, k, b) <= SumAbs(energies[..k])
  {
    if k > 0 {
      ContactEnergyGap(interactions, energies, k - 1, a, b);
      assert energies[..k][..k - 1] == energies[..k - 1];
    }
  }

  /** The contact energy over the first k terms depends on nothing after them. */
  lemma {:induction false} ContactEnergyPrefix(is1: seq<Expr>, es1: seq<int>, is2: seq<Expr>, es2: seq<int>, k: nat, a: Assignment)
    requires k <= |is1| && k <= |es1| && k <= |is2| && k <= |es2|
    requires is1[..k] == is2[..k] && es1[..k] == es2[..k]
    ensures ContactEnergy(is1, es1, k, a) == ContactEnergy(is2, es2, k, a)
  {
    if k > 0 {
      assert is1[k - 1] == is1[..k][k - 1] && is2[k - 1] == is2[..k][k - 1];
      assert es1[k - 1] == es1[..k][k - 1] && es2[k - 1] == es2[..k][k - 1];
      assert is1[..k - 1] == is1[..k][..k - 1] && is2[..k - 1] == is2[..k][..k - 1];
      assert es1[..k - 1] == es1[..k][..k - 1] && es2[..k - 1] == es2[..k][..k - 1];
      ContactEnergyPrefix(is1, es1, is2, es2, k - 1, a);
    }
  }

  /** The energy of the listed pairs that are in contact. */
  ghost function FoldEnergy(matrix: seq<seq<int>>, ps: seq<(nat, nat)>, touching: (nat, nat) -> bool): int
  {
    if ps == [] then 0
    else
      var p := ps[|ps| - 1];
      FoldEnergy(matrix, ps[..|ps| - 1], touching) + (if touching(p.0, p.1) then Energy(matrix, p.0, p.1) else 0)
  }

  /**
   * When every interaction indicator holds exactly when its pair is in contact, the contact
   * energy of an assignment is the energy of the fold's contacts.
   */
  lemma {:induction false} InteractionEnergyMeaning(adjacency: (nat, nat) -> Expr, matrix: seq<seq<int>>, ps: seq<(nat, nat)>,
                                                     touching: (nat, nat) -> bool, a: Assignment)
    requires forall p :: p in ps ==> (Eval(adjacency(p.0, p.1), a) <==> touching(p.0, p.1))
    ensures ContactEnergy(IndicatorsOf(adjacency, ps), EnergiesOf(matrix, ps), |ps|, a) == FoldEnergy(matrix, ps, touching)
  {
    if ps != [] {
      var init, p := ps[..|ps| - 1], ps[|ps| - 1];
      assert ps == init + [p];
      AppendContact(adjacency, matrix, init, p);
      var ind, en := IndicatorsOf(adjacency, ps), EnergiesOf(matrix, ps);
      assert ind[..|init|] == IndicatorsOf(adjacency, init);
      assert en[..|init|] == EnergiesOf(matrix, init);
      assert IndicatorsOf(adjacency, init)[..|init|] == IndicatorsOf(adjacency, init);
      assert EnergiesOf(matrix, init)[..|init|] == EnergiesOf(matrix, init);
      ContactEnergyPrefix(ind, en, IndicatorsOf(adjacency, init), EnergiesOf(matrix, init), |init|, a);
      InteractionEnergyMeaning(adjacency, matrix, init, touching, a);
    }
  }

  // ---------------------------------------------------------------- penalties and the model

  /** `model = total + Num(penalty) * c0 + Num(penalty) * c1 + ...`. */
  function Assemble(total: Poly, penalty: int, constraints: seq<Expr>): Poly
  {
    if constraints == [] then total
    else Add(Assemble(total, penalty, constraints[..|constraints| - 1]), Scale(penalty, Term(constraints[|constraints| - 1])))
  }

  /** How many constraint indicators an assignment violates. */
  function Violations(constraints: seq<Expr>, a: Assignment): nat
  {
    if constraints == [] then 0
    else Violations(constraints[..|constraints| - 1], a) + Indicator(Eval(constraints[|constraints| - 1], a))
  }

  lemma {:induction false} AssembleValue(total: Poly, penalty: int, constraints: seq<Expr>, a: Assignment)
    ensures PolyValue(Assemble(total, penalty, constraints), a) == PolyValue(total, a) + penalty * Violations(constraints, a)
  {
    if constraints != [] {
      var last := constraints[|constraints| - 1];
      AssembleValue(total, penalty, constraints[..|constraints| - 1], a);
      ValueIsIndicator(last, a);
      var before, bit := Violations(constraints[..|constraints| - 1], a), Indicator(Eval(last, a));
      assert Violations(constraints, a) == before + bit;
      assert penalty * (before + bit) == penalty * before + penalty * bit;
      assert PolyValue(Scale(penalty, Term(last)), a) == penalty * bit;
    }
  }

  lemma {:induction false} ViolationsMeaning(constraints: seq<Expr>, a: Assignment)
    ensures Violations(constraints, a) == 0 <==> forall i :: 0 <= i < |constraints| ==> !Eval(constraints[i], a)
  {
    if constraints != [] {
      var init := constraints[..|constraints| - 1];
      ViolationsMeaning(init, a);
      assert forall i :: 0 <= i < |init| ==> init[i] == constraints[i];
    }
  }

  /** The objective of a lattice: contact energy, then each constraint times the penalty. */
  function Model(interactions: seq<Expr>, energies: seq<int>, penalty: int, constraints: seq<Expr>): Poly
    requires |interactions| == |energies|
  {
    Assemble(InteractionSum(interactions, energies, |interactions|), penalty, constraints)
  }

  /** The objective's value: the contact energy plus the penalty for every violated constraint. */
  lemma ModelValue(interactions: seq<Expr>, energies: seq<int>, penalty: int, constraints: seq<Expr>, a: Assignment)
    requires |interactions| == |energies|
    ensures PolyValue(Model(interactions, energies, penalty, constraints), a)
         == ContactEnergy(interactions, energies, |interactions|, a) + penalty * Violations(constraints, a)
  {
    AssembleValue(InteractionSum(interactions, energies, |interactions|), penalty, constraints, a);
    InteractionSumValue(interactions, energies, |interactions|, a);
  }

  /**
   * Penalty dominance: when the penalty exceeds the sum of the absolute contact energies,
   * every assignment that violates a constraint scores strictly above every assignment that
   * violates none, so a minimiser never violates a constraint that some assignment keeps.
   */
  lemma Dominance(interactions: seq<Expr>, energies: seq<int>, penalty: int, constraints: seq<Expr>, good: Assignment, bad: Assignment)
    requires |interactions| == |energies| && penalty > SumAbs(energies)
    requires forall i :: 0 <= i < |constraints| ==> !Eval(constraints[i], good)
    requires exists i :: 0 <= i < |constraints| && Eval(constraints[i], bad)
    ensures PolyValue(Model(interactions, energies, penalty, constraints), bad)
          > PolyValue(Model(interactions, energies, penalty, constraints), good)
  {
    ViolationsMeaning(constraints, good);
    ViolationsMeaning(constraints, bad);
    ModelValue(interactions, energies, penalty, constraints, good);
    ModelValue(interactions, energies, penalty, constraints, bad);
    ContactEnergyGap(interactions, energies, |interactions|, good, bad);
    assert energies[..|interactions|] == energies;
    PenaltyOutweighs(SumAbs(energies), penalty, Violations(constraints, bad),
      ContactEnergy(interactions, energies, |interactions|, good),
      ContactEnergy(interactions, energies, |interactions|, bad));
  }

  lemma PenaltyOutweighs(s: nat, penalty: int, v: nat, cg: int, cb: int)
    requires penalty > s && v >= 1 && cg - cb <= s
    ensures cb + penalty * v > cg
  {
    assert penalty * v == penalty + penalty * (v - 1);
    assert penalty * (v - 1) >= 0;
  }

  /** `penalty = (sum(energy_values) * -1) + 1`, the penalty of the 4- and 12-direction lattices. */
  function SignedPenalty(energies: seq<int>): int
  {
    1 - SumOf(energies)
  }

  /** When no contact energy is positive the written penalty dominates. */
  lemma {:induction false} SignedPenaltyDominatesWhenNonPositive(energies: seq<int>)
    requires forall i :: 0 <= i < |energies| ==> energies[i] <= 0
    ensures SignedPenalty(energies) > SumAbs(energies)
  {
    if energies != [] {
      var init := energies[..|energies| - 1];
      assert forall i :: 0 <= i < |init| ==> init[i] == energies[i];
      SignedPenaltyDominatesWhenNonPositive(init);
    }
  }

  /** An assignment that sets only bit 1 of every step. */
  function OnlyBitOne(): Assignment
  {
    (t: nat, i: nat) => i == 1
  }

  /** An assignment that sets only bit 0 of every step. */
  function OnlyBitZero(): Assignment
  {
    (t: nat, i: nat) => i == 0
  }

  /**
   * With a positive contact energy the written penalty can vanish: for the single energy 1
   * it is 0, and an assignment that violates the only constraint and makes no contact
   * scores below one that keeps the constraint and makes the contact.
   */
  lemma SignedPenaltyFailsWithPositiveEnergy()
    ensures SignedPenalty([1]) == 0
    ensures Eval(Var(0, 0), OnlyBitZero()) && !Eval(Var(0, 0), OnlyBitOne())
    ensures PolyValue(Model([Var(0, 1)], [1], SignedPenalty([1]), [Var(0, 0)]), OnlyBitZero())
          < PolyValue(Model([Var(0, 1)], [1], SignedPenalty([1]), [Var(0, 0)]), OnlyBitOne())
  {
    var es: seq<int> := [1];
    assert es[..0] == [];
    assert SumOf(es) == 1;
    SingleTermModel(Var(0, 1), 1, 0, Var(0, 0), OnlyBitZero());
    SingleTermModel(Var(0, 1), 1, 0, Var(0, 0), OnlyBitOne());
  }

  /** The objective of one interaction and one constraint. */
  lemma SingleTermModel(x: Expr, e: int, penalty: int, c: Expr, a: Assignment)
    ensures PolyValue(Model([x], [e], penalty, [c]), a) == (if Eval(x, a) then e else 0) + penalty * Indicator(Eval(c, a))
  {
    var xs, es, cs := [x], [e], [c];
    assert cs[..0] == [];
    ModelValue(xs, es, penalty, cs, a);
    assert ContactEnergy(xs, es, 1, a) == (if Eval(x, a) then e else 0);
  }

  /** A penalty that always dominates: one more than the sum of the absolute energies. */
  function DominatingPenalty(energies: seq<int>): (p: int)
    ensures p > SumAbs(energies)
  {
    1 + SumAbs(energies)
  }

  /** It agrees with the written penalty whenever no energy is positive. */
  lemma {:induction false} DominatingPenaltyAgrees(energies: seq<int>)
    requires forall i :: 0 <= i < |energies| ==> energies[i] <= 0
    ensures DominatingPenalty(energies) == SignedPenalty(energies)
  {
    if energies != [] {
      var init := energies[..|energies| - 1];
      assert forall i :: 0 <= i < |init| ==> init[i] == energies[i];
      DominatingPenaltyAgrees(init);
    }
  }
}
