/**
 * The sympy builder of the eight-direction lattice (HCOMB8.py). It builds over a fresh
 * variable table of three bits per step, with the overlap term over pairs two or more apart
 * and no backtrack term, then passes the overlap term and each interaction indicator through
 * `set_default_and_dnf`, which substitutes the same two pinned bits as the pyqubo builder.
 * sympy flattens nested `And` and `Or`, so its n-ary predicates and the three-way adjacency
 * disjunction are the formulas of the pyqubo builder; the printed lines are returned as data.
 */
module Hex8Sympy {
  import opened Outcomes
  import opened BoolExpr
  import opened Assembly
  import opened AxisTests
  import opened Geometry
  import opened SympyForm
  import opened Hex8

  /** The two `subs` calls of `set_default_and_dnf`, in order. */
  const Subs8: PinList := [((0, 0), false), ((0, 1), false)]

  /** The substitutions pin the same bits as the pyqubo table. */
  lemma Subs8Presets()
    ensures PinMap(Subs8) == Presets
  {
    assert Subs8[1..] == [((0, 1), false)];
  }

  /** `set_default_and_dnf` over the table of n steps of three bits. */
  function Finish8(e: Expr, n: nat, toDnf: Expr -> Option<Expr>): (r: Option<Expr>)
    ensures n < 1 ==> r == None
  {
    assert n < 1 ==> !(Subs8[0].0.0 < n);
    SetDefaultAndDnf(e, Subs8, n, 3, toDnf)
  }

  /** A term that survives `set_default_and_dnf` reads the walk with the pins written in. */
  lemma Finish8Meaning(e: Expr, n: nat, toDnf: Expr -> Option<Expr>, a: Assignment)
    requires Sound(toDnf) && Finish8(e, n, toDnf).Some?
    ensures Eval(Finish8(e, n, toDnf).value, a) == Eval(e, Effective(Presets, a))
  {
    SetDefaultAndDnfMeaning(e, Subs8, n, 3, toDnf, a);
    Subs8Presets();
  }

  /** `create_overlap_constraint`: pairs two or more apart. */
  method CreateOverlapConstraint(n: nat, sizing: Sizing) returns (overlap: Expr)
    ensures overlap == Overlap(Fresh(), sizing, n, 2)
  {
    overlap := OrOverPairs((a1: nat, a2: nat) => OverlapFlag(Fresh(), sizing, a1, a2), n, 2);
  }

  /** One printed line of `create_interactions`: the pair, then the finished indicator. */
  function Line8(n: nat, toDnf: Expr -> Option<Expr>, sizing: Sizing): (nat, nat) -> (nat, nat, Option<Expr>)
  {
    (a1: nat, a2: nat) => (a1, a2, Finish8(Adjacency(Fresh(), sizing, a1, a2), n, toDnf))
  }

  /**
   * `create_energy_function`: the finished overlap term, and the lines of
   * `create_interactions` (pairs two or more apart with a non-zero energy) with their energies.
   */
  method CreateEnergyFunction(matrix: seq<seq<int>>, n: nat, toDnf: Expr -> Option<Expr>, sizing: Sizing)
    returns (overlap: Option<Expr>, lines: seq<(nat, nat, Option<Expr>)>, energies: seq<int>)
    requires IsSquare(matrix, n)
    ensures overlap == Finish8(Overlap(Fresh(), sizing, n, 2), n, toDnf)
    ensures lines == IndicatorsOf(Line8(n, toDnf, sizing), Contacts(matrix, n, 2))
    ensures energies == EnergiesOf(matrix, Contacts(matrix, n, 2))
  {
    var o := CreateOverlapConstraint(n, sizing);
    overlap := Finish8(o, n, toDnf);
    lines, energies := CreateInteractions(Line8(n, toDnf, sizing), matrix, n, 2);
  }

  /** The fresh table read under the pinned assignment is the pinned walk. */
  lemma FreshWalk(a: Assignment)
    ensures Reflects(Fresh(), Effective(Presets, a), Effective(Presets, a))
  {
    FreshReflects(Effective(Presets, a));
  }

  /**
   * With the safe sizing, the finished overlap term, the only constraint this builder
   * emits, holds exactly when the pinned walk is not self-avoiding.
   */
  lemma SafeOverlapMeaning(n: nat, toDnf: Expr -> Option<Expr>, a: Assignment, overlap: Expr)
    requires Sound(toDnf)
    requires Finish8(Overlap(Fresh(), Safe, n, 2), n, toDnf) == Some(overlap)
    ensures Eval(overlap, a) <==> !SelfAvoiding(Moves(Effective(Presets, a)), n)
  {
    var b := Effective(Presets, a);
    Finish8Meaning(Overlap(Fresh(), Safe, n, 2), n, toDnf, a);
    FreshWalk(a);
    OverlapAloneExact(Fresh(), b, b, n);
  }

  /** As written, a walk that is not self-avoiding still makes the finished overlap term hold. */
  lemma AsWrittenOverlapCatches(n: nat, toDnf: Expr -> Option<Expr>, a: Assignment, overlap: Expr)
    requires Sound(toDnf)
    requires Finish8(Overlap(Fresh(), AsWritten, n, 2), n, toDnf) == Some(overlap)
    requires !SelfAvoiding(Moves(Effective(Presets, a)), n)
    ensures Eval(overlap, a)
  {
    var b := Effective(Presets, a);
    Finish8Meaning(Overlap(Fresh(), AsWritten, n, 2), n, toDnf, a);
    FreshWalk(a);
    OverlapAloneCatches(Fresh(), b, b, n);
  }

  /**
   * As written, the straight walk up, which the pins allow, is a fold of every length, yet
   * from three residues on the finished overlap term holds on it.
   */
  lemma AsWrittenFlagsStraightUp(n: nat, toDnf: Expr -> Option<Expr>, a: Assignment, overlap: Expr)
    requires Sound(toDnf)
    requires Finish8(Overlap(Fresh(), AsWritten, n, 2), n, toDnf) == Some(overlap)
    requires StraightUp(Effective(Presets, a)) && n >= 3
    ensures SelfAvoiding(Moves(Effective(Presets, a)), n)
    ensures Eval(overlap, a)
  {
    var b := Effective(Presets, a);
    Finish8Meaning(Overlap(Fresh(), AsWritten, n, 2), n, toDnf, a);
    FreshWalk(a);
    OverlapAloneFalseAlarm(Fresh(), b, b, n);
  }

  /** With the safe sizing, each finished interaction term holds exactly when its pair is in contact. */
  lemma SafeLineMeaning(n: nat, toDnf: Expr -> Option<Expr>, a1: nat, a2: nat, a: Assignment)
    requires Sound(toDnf) && a1 + 2 <= a2
    requires Line8(n, toDnf, Safe)(a1, a2).2.Some?
    ensures Eval(Line8(n, toDnf, Safe)(a1, a2).2.value, a) <==> Touching(Effective(Presets, a))(a1, a2)
  {
    var b := Effective(Presets, a);
    Finish8Meaning(Adjacency(Fresh(), Safe, a1, a2), n, toDnf, a);
    FreshWalk(a);
    AdjacencyExact(Fresh(), b, b, a1, a2);
  }

  /** As written, a finished interaction term never misses a contact. */
  lemma AsWrittenLineCatches(n: nat, toDnf: Expr -> Option<Expr>, a1: nat, a2: nat, a: Assignment)
    requires Sound(toDnf) && a1 + 2 <= a2
    requires Line8(n, toDnf, AsWritten)(a1, a2).2.Some?
    requires Touching(Effective(Presets, a))(a1, a2)
    ensures Eval(Line8(n, toDnf, AsWritten)(a1, a2).2.value, a)
  {
    var b := Effective(Presets, a);
    Finish8Meaning(Adjacency(Fresh(), AsWritten, a1, a2), n, toDnf, a);
    FreshWalk(a);
    AdjacencyCatches(Fresh(), b, b, a1, a2);
  }
}
