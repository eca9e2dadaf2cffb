/**
 * The sympy builder of the square lattice (HCOMB4.py). It builds over a fresh variable
 * table, with the overlap term over pairs three or more apart, then passes the overlap term,
 * the backtrack term and each interaction indicator through `set_default_and_dnf`, which
 * substitutes the same three pinned bits as the pyqubo builder. The sums of direction
 * predicates are the pyqubo bit operations; the printed lines are returned as data.
 */
module Square4Sympy {
  import opened Outcomes
  import opened BoolExpr
  import opened Assembly
  import opened AxisTests
  import opened Geometry
  import opened SympyForm
  import opened Square4

  /** The three `subs` calls of `set_default_and_dnf`, in order. */
  const Subs4: PinList := [((0, 0), false), ((0, 1), true), ((1, 1), true)]

  /** The substitutions pin the same bits as the pyqubo table. */
  lemma Subs4Presets()
    ensures PinMap(Subs4) == Presets
  {
    assert Subs4[1..] == [((0, 1), true), ((1, 1), true)];
    assert Subs4[1..][1..] == [((1, 1), true)];
  }

  /** `set_default_and_dnf` over the table of n steps of two bits. */
  function Finish4(e: Expr, n: nat, toDnf: Expr -> Option<Expr>): (r: Option<Expr>)
    ensures n < 2 ==> r == None
  {
    assert n < 2 ==> !(Subs4[2].0.0 < n);
    SetDefaultAndDnf(e, Subs4, n, 2, toDnf)
  }

  /** A term that survives `set_default_and_dnf` reads the walk with the pins written in. */
  lemma Finish4Meaning(e: Expr, n: nat, toDnf: Expr -> Option<Expr>, a: Assignment)
    requires Sound(toDnf) && Finish4(e, n, toDnf).Some?
    ensures Eval(Finish4(e, n, toDnf).value, a) == Eval(e, Effective(Presets, a))
  {
    SetDefaultAndDnfMeaning(e, Subs4, n, 2, toDnf, a);
    Subs4Presets();
  }

  /** `create_overlap_constraint`: pairs three or more apart. */
  method CreateOverlapConstraint(n: nat, sizing: Sizing) returns (overlap: Expr)
    ensures overlap == Overlap(Fresh(), sizing, n, 3)
  {
    overlap := OrOverPairs((a1: nat, a2: nat) => OverlapFlag(Fresh(), sizing, a1, a2), n, 3);
  }

  /** `create_back_constraint`: turns 0 .. n - 3. */
  method CreateBackConstraint(n: nat) returns (back: Expr)
    ensures back == Back(Fresh(), n)
  {
    back := OrOverSteps(BackClauses(Fresh()), n - 2);
  }

  /** One printed line of `create_interactions`: the pair, then the finished indicator. */
  function Line4(n: nat, toDnf: Expr -> Option<Expr>, sizing: Sizing): (nat, nat) -> (nat, nat, Option<Expr>)
  {
    (a1: nat, a2: nat) => (a1, a2, Finish4(Adjacency(Fresh(), sizing, a1, a2), n, toDnf))
  }

  /**
   * `create_energy_function`: the finished overlap and backtrack terms, and the lines of
   * `create_interactions` (pairs three or more apart with a non-zero energy) with their energies.
   */
  method CreateEnergyFunction(matrix: seq<seq<int>>, n: nat, toDnf: Expr -> Option<Expr>, sizing: Sizing)
    returns (overlap: Option<Expr>, back: Option<Expr>, lines: seq<(nat, nat, Option<Expr>)>, energies: seq<int>)
    requires IsSquare(matrix, n)
    ensures overlap == Finish4(Overlap(Fresh(), sizing, n, 3), n, toDnf)
    ensures back == Finish4(Back(Fresh(), n), n, toDnf)
    ensures lines == IndicatorsOf(Line4(n, toDnf, sizing), Contacts(matrix, n, 3))
    ensures energies == EnergiesOf(matrix, Contacts(matrix, n, 3))
  {
    var o := CreateOverlapConstraint(n, sizing);
    overlap := Finish4(o, n, toDnf);
    var bk := CreateBackConstraint(n);
    back := Finish4(bk, n, toDnf);
    lines, energies := CreateInteractions(Line4(n, toDnf, sizing), matrix, n, 3);
  }

  /** The fresh table read under the pinned assignment is the pinned walk. */
  lemma FreshWalk(a: Assignment)
    ensures Reflects(Fresh(), Effective(Presets, a), Effective(Presets, a))
  {
    FreshReflects(Effective(Presets, a));
  }

  /**
   * With the safe sizing, the finished overlap and backtrack terms together hold exactly when
   * the pinned walk is not self-avoiding.
   */
  lemma SafeConstraintsMeaning(n: nat, toDnf: Expr -> Option<Expr>, a: Assignment, overlap: Expr, back: Expr)
    requires Sound(toDnf)
    requires Finish4(Overlap(Fresh(), Safe, n, 3), n, toDnf) == Some(overlap)
    requires Finish4(Back(Fresh(), n), n, toDnf) == Some(back)
    ensures Eval(overlap, a) || Eval(back, a) <==> !SelfAvoiding(Moves(Effective(Presets, a)), n)
  {
    var b := Effective(Presets, a);
    Finish4Meaning(Overlap(Fresh(), Safe, n, 3), n, toDnf, a);
    Finish4Meaning(Back(Fresh(), n), n, toDnf, a);
    FreshWalk(a);
    ConstraintsExact(Fresh(), b, b, n, 3);
  }

  /** As written, a walk that is not self-avoiding still makes one of the finished terms hold. */
  lemma AsWrittenConstraintsCatch(n: nat, toDnf: Expr -> Option<Expr>, a: Assignment, overlap: Expr, back: Expr)
    requires Sound(toDnf)
    requires Finish4(Overlap(Fresh(), AsWritten, n, 3), n, toDnf) == Some(overlap)
    requires Finish4(Back(Fresh(), n), n, toDnf) == Some(back)
    requires !SelfAvoiding(Moves(Effective(Presets, a)), n)
    ensures Eval(overlap, a) || Eval(back, a)
  {
    var b := Effective(Presets, a);
    Finish4Meaning(Overlap(Fresh(), AsWritten, n, 3), n, toDnf, a);
    Finish4Meaning(Back(Fresh(), n), n, toDnf, a);
    FreshWalk(a);
    ConstraintsCatch(Fresh(), b, b, n, 3);
  }

  /** With the safe sizing, each finished interaction term holds exactly when its pair is in contact. */
  lemma SafeLineMeaning(n: nat, toDnf: Expr -> Option<Expr>, a1: nat, a2: nat, a: Assignment)
    requires Sound(toDnf) && a1 + 3 <= a2
    requires Line4(n, toDnf, Safe)(a1, a2).2.Some?
    ensures Eval(Line4(n, toDnf, Safe)(a1, a2).2.value, a) <==> Touching(Effective(Presets, a))(a1, a2)
  {
    var b := Effective(Presets, a);
    Finish4Meaning(Adjacency(Fresh(), Safe, a1, a2), n, toDnf, a);
    FreshWalk(a);
    AdjacencyExact(Fresh(), b, b, a1, a2);
  }
}
