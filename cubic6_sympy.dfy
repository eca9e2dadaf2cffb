/**
 * The sympy builder of the 6-direction cubic lattice (Binary/HCOMB6.py). It builds over a
 * fresh variable table of three bits per step the redundancy term, the overlap term over
 * pairs four or more apart, the backtrack term and one adjacency indicator per pair three or
 * more apart with a non-zero energy, passing each through `set_default_and_dnf`, which
 * substitutes five pinned bits. The printed lines are returned as data.
 */
module Cubic6Sympy {
  import opened Outcomes
  import opened BoolExpr
  import opened Assembly
  import opened AxisTests
  import opened Geometry
  import opened SympyForm
  import opened ThreeAxes
  import opened Cubic6

  /** The five `subs` calls of `set_default_and_dnf`, in order. */
  const Subs6: PinList := [((0, 0), false), ((0, 1), false), ((0, 2), false), ((1, 1), false), ((1, 2), false)]

  /** The substitutions pin the bits of `Presets`. */
  lemma Subs6Presets()
    ensures PinMap(Subs6) == Presets
  {
    assert Subs6[1..] == [((0, 1), false), ((0, 2), false), ((1, 1), false), ((1, 2), false)];
    assert Subs6[1..][1..] == [((0, 2), false), ((1, 1), false), ((1, 2), false)];
    assert Subs6[1..][1..][1..] == [((1, 1), false), ((1, 2), false)];
    assert Subs6[1..][1..][1..][1..] == [((1, 2), false)];
  }

  /**
   * `set_default_and_dnf` over the table of n steps of three bits: with fewer than two steps
   * the pinned variables of step 1 are missing, the lookup raises and the result is None.
   */
  function Finish6(e: Expr, n: nat, toDnf: Expr -> Option<Expr>): (r: Option<Expr>)
    ensures n < 2 ==> r == None
  {
    assert n < 2 ==> !(Subs6[3].0.0 < n);
    SetDefaultAndDnf(e, Subs6, n, 3, toDnf)
  }

  /** A term that survives `set_default_and_dnf` reads the walk with the pins written in. */
  lemma Finish6Meaning(e: Expr, n: nat, toDnf: Expr -> Option<Expr>, a: Assignment)
    requires Sound(toDnf) && Finish6(e, n, toDnf).Some?
    ensures Eval(Finish6(e, n, toDnf).value, a) == Eval(e, Effective(Presets, a))
  {
    SetDefaultAndDnfMeaning(e, Subs6, n, 3, toDnf, a);
    Subs6Presets();
  }

  /** `create_redundancy_constraint`: steps 0 .. n - 2. */
  method CreateRedundancyConstraint(n: nat) returns (redundancy: Expr)
    ensures redundancy == Redundancy(Fresh(), n)
  {
    redundancy := OrOverSteps(RedundancyClauses(Fresh()), n - 1);
  }

  /** `create_overlap_constraint`: pairs four or more apart. */
  method CreateOverlapConstraint(n: nat, sizing: Sizing) returns (overlap: Expr)
    ensures overlap == Overlap(Axes(Fresh()), sizing, n, 4)
  {
    overlap := OrOverPairs((a1: nat, a2: nat) => OverlapFlag(Axes(Fresh()), sizing, a1, a2), n, 4);
  }

  /** `create_back_constraint`: turns 0 .. n - 3. */
  method CreateBackConstraint(n: nat) returns (back: Expr)
    ensures back == Back(Fresh(), n)
  {
    back := OrOverSteps(BackClauses(Fresh()), n - 2);
  }

  /** One printed line of `create_interactions`: the pair, then the finished indicator. */
  function Line6(n: nat, toDnf: Expr -> Option<Expr>, sizing: Sizing): (nat, nat) -> (nat, nat, Option<Expr>)
  {
    (a1: nat, a2: nat) => (a1, a2, Finish6(Adjacency(Fresh(), sizing, a1, a2), n, toDnf))
  }

  /**
   * `create_energy_function`: the finished redundancy, overlap and backtrack terms, and the
   * lines of `create_interactions` (pairs three or more apart with a non-zero energy) with
   * their energies.
   */
  method CreateEnergyFunction(matrix: seq<seq<int>>, n: nat, toDnf: Expr -> Option<Expr>, sizing: Sizing)
    returns (redundancy: Option<Expr>, overlap: Option<Expr>, back: Option<Expr>,
             lines: seq<(nat, nat, Option<Expr>)>, energies: seq<int>)
    requires IsSquare(matrix, n)
    ensures redundancy == Finish6(Redundancy(Fresh(), n), n, toDnf)
    ensures overlap == Finish6(Overlap(Axes(Fresh()), sizing, n, 4), n, toDnf)
    ensures back == Finish6(Back(Fresh(), n), n, toDnf)
    ensures lines == IndicatorsOf(Line6(n, toDnf, sizing), Contacts(matrix, n, 3))
    ensures energies == EnergiesOf(matrix, Contacts(matrix, n, 3))
  {
    var r := CreateRedundancyConstraint(n);
    redundancy := Finish6(r, n, toDnf);
    var o := CreateOverlapConstraint(n, sizing);
    overlap := Finish6(o, n, toDnf);
    var bk := CreateBackConstraint(n);
    back := Finish6(bk, n, toDnf);
    lines, energies := CreateInteractions(Line6(n, toDnf, sizing), matrix, n, 3);
  }

  /** The fresh table read under the pinned assignment is the pinned walk. */
  lemma FreshWalk(a: Assignment)
    ensures Reflects(Fresh(), Effective(Presets, a), Effective(Presets, a))
  {
    FreshReflects(Effective(Presets, a));
  }

  /**
   * With the safe sizing, the three finished constraint terms together hold exactly when the
   * pinned walk is not a fold.
   */
  lemma SafeConstraintsMeaning(n: nat, toDnf: Expr -> Option<Expr>, a: Assignment, redundancy: Expr, overlap: Expr, back: Expr)
    requires Sound(toDnf)
    requires Finish6(Redundancy(Fresh(), n), n, toDnf) == Some(redundancy)
    requires Finish6(Overlap(Axes(Fresh()), Safe, n, 4), n, toDnf) == Some(overlap)
    requires Finish6(Back(Fresh(), n), n, toDnf) == Some(back)
    ensures Eval(redundancy, a) || Eval(overlap, a) || Eval(back, a) <==> !IsFold(Effective(Presets, a), n)
  {
    var b := Effective(Presets, a);
    Finish6Meaning(Redundancy(Fresh(), n), n, toDnf, a);
    Finish6Meaning(Overlap(Axes(Fresh()), Safe, n, 4), n, toDnf, a);
    Finish6Meaning(Back(Fresh(), n), n, toDnf, a);
    FreshWalk(a);
    ConstraintsExact(Fresh(), b, b, n);
  }

  /** As written, a walk that is not a fold still makes one of the finished terms hold. */
  lemma AsWrittenConstraintsCatch(n: nat, toDnf: Expr -> Option<Expr>, a: Assignment, redundancy: Expr, overlap: Expr, back: Expr)
    requires Sound(toDnf)
    requires Finish6(Redundancy(Fresh(), n), n, toDnf) == Some(redundancy)
    requires Finish6(Overlap(Axes(Fresh()), AsWritten, n, 4), n, toDnf) == Some(overlap)
    requires Finish6(Back(Fresh(), n), n, toDnf) == Some(back)
    requires !IsFold(Effective(Presets, a), n)
    ensures Eval(redundancy, a) || Eval(overlap, a) || Eval(back, a)
  {
    var b := Effective(Presets, a);
    Finish6Meaning(Redundancy(Fresh(), n), n, toDnf, a);
    Finish6Meaning(Overlap(Axes(Fresh()), AsWritten, n, 4), n, toDnf, a);
    Finish6Meaning(Back(Fresh(), n), n, toDnf, a);
    FreshWalk(a);
    ConstraintsCatch(Fresh(), b, b, n);
  }

  /**
   * As written, the straight east walk, which the pins allow, is a fold of every length, yet
   * from five residues on the finished overlap term holds on it.
   */
  lemma AsWrittenFlagsStraightE(n: nat, toDnf: Expr -> Option<Expr>, a: Assignment, overlap: Expr)
    requires Sound(toDnf)
    requires Finish6(Overlap(Axes(Fresh()), AsWritten, n, 4), n, toDnf) == Some(overlap)
    requires StraightE(Effective(Presets, a)) && n >= 5
    ensures IsFold(Effective(Presets, a), n)
    ensures Eval(overlap, a)
  {
    var b := Effective(Presets, a);
    Finish6Meaning(Overlap(Axes(Fresh()), AsWritten, n, 4), n, toDnf, a);
    FreshWalk(a);
    OverlapFalseAlarm(Fresh(), b, b, n);
  }

  /** With the safe sizing, each finished interaction term holds exactly when its pair is in contact. */
  lemma SafeLineMeaning(n: nat, toDnf: Expr -> Option<Expr>, a1: nat, a2: nat, a: Assignment)
    requires Sound(toDnf) && a1 + 3 <= a2
    requires Line6(n, toDnf, Safe)(a1, a2).2.Some?
    ensures Eval(Line6(n, toDnf, Safe)(a1, a2).2.value, a) <==> Touching(Effective(Presets, a))(a1, a2)
  {
    var b := Effective(Presets, a);
    Finish6Meaning(Adjacency(Fresh(), Safe, a1, a2), n, toDnf, a);
    FreshWalk(a);
    AdjacencyExact(Fresh(), b, b, a1, a2);
  }

  /** As written, a finished interaction term never misses a contact. */
  lemma AsWrittenLineCatches(n: nat, toDnf: Expr -> Option<Expr>, a1: nat, a2: nat, a: Assignment)
    requires Sound(toDnf) && a1 + 3 <= a2
    requires Line6(n, toDnf, AsWritten)(a1, a2).2.Some?
    requires Touching(Effective(Presets, a))(a1, a2)
    ensures Eval(Line6(n, toDnf, AsWritten)(a1, a2).2.value, a)
  {
    var b := Effective(Presets, a);
    Finish6Meaning(Adjacency(Fresh(), AsWritten, a1, a2), n, toDnf, a);
    FreshWalk(a);
    AdjacencyCatches(Fresh(), b, b, a1, a2);
  }

  /**
   * As written, on the straight east walk the finished interaction term of two residues three
   * sites apart holds although they are not in contact.
   */
  lemma AsWrittenLineFalseContact(n: nat, toDnf: Expr -> Option<Expr>, a1: nat, a: Assignment)
    requires Sound(toDnf)
    requires Line6(n, toDnf, AsWritten)(a1, a1 + 3).2.Some?
    requires StraightE(Effective(Presets, a))
    ensures !Touching(Effective(Presets, a))(a1, a1 + 3)
    ensures Eval(Line6(n, toDnf, AsWritten)(a1, a1 + 3).2.value, a)
  {
    var b := Effective(Presets, a);
    Finish6Meaning(Adjacency(Fresh(), AsWritten, a1, a1 + 3), n, toDnf, a);
    FreshWalk(a);
    AdjacencyFalseContact(Fresh(), b, b, a1, a1 + 3);
  }
}
