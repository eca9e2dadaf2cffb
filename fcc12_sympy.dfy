/**
 * The sympy builder of the 12-direction lattice (Binary/HCOMB12.py). It builds over a fresh
 * variable table of four bits per step the redundancy term, the backtrack term, the overlap
 * term over pairs three or more apart and one adjacency indicator per pair two or more apart
 * with a non-zero energy, passing each through `set_default_and_dnf`, which substitutes the
 * same six pinned bits as the pyqubo builder. sympy flattens nested `And` and `Or`, so its
 * n-ary conjunctions are the formulas of the pyqubo builder; the printed lines are returned
 * as data.
 */
module Fcc12Sympy {
  import opened Outcomes
  import opened BoolExpr
  import opened Assembly
  import opened AxisTests
  import opened Geometry
  import opened SympyForm
  import opened ThreeAxes
  import opened Fcc12

  /** The six `subs` calls of `set_default_and_dnf`, in order. */
  const Subs12: PinList := [((0, 0), true), ((0, 1), false), ((0, 2), true), ((0, 3), true), ((1, 0), true), ((1, 3), true)]

  /** The substitutions pin the same bits as the pyqubo table. */
  lemma Subs12Presets()
    ensures PinMap(Subs12) == Presets
  {
    assert Subs12[1..] == [((0, 1), false), ((0, 2), true), ((0, 3), true), ((1, 0), true), ((1, 3), true)];
    assert Subs12[1..][1..] == [((0, 2), true), ((0, 3), true), ((1, 0), true), ((1, 3), true)];
    assert Subs12[1..][1..][1..] == [((0, 3), true), ((1, 0), true), ((1, 3), true)];
    assert Subs12[1..][1..][1..][1..] == [((1, 0), true), ((1, 3), true)];
    assert Subs12[1..][1..][1..][1..][1..] == [((1, 3), true)];
  }

  /**
   * `set_default_and_dnf` over the table of n steps of four bits: with fewer than two steps
   * the pinned variables of step 1 are missing, the lookup raises and the result is None.
   */
  function Finish12(e: Expr, n: nat, toDnf: Expr -> Option<Expr>): (r: Option<Expr>)
    ensures n < 2 ==> r == None
  {
    assert n < 2 ==> !(Subs12[4].0.0 < n);
    SetDefaultAndDnf(e, Subs12, n, 4, toDnf)
  }

  /** A term that survives `set_default_and_dnf` reads the walk with the pins written in. */
  lemma Finish12Meaning(e: Expr, n: nat, toDnf: Expr -> Option<Expr>, a: Assignment)
    requires Sound(toDnf) && Finish12(e, n, toDnf).Some?
    ensures Eval(Finish12(e, n, toDnf).value, a) == Eval(e, Effective(Presets, a))
  {
    SetDefaultAndDnfMeaning(e, Subs12, n, 4, toDnf, a);
    Subs12Presets();
  }

  /** `create_redundancy_constraint`: steps 0 .. n - 2. */
  method CreateRedundancyConstraint(n: nat) returns (redundancy: Expr)
    ensures redundancy == Redundancy(Fresh(), n)
  {
    redundancy := OrOverSteps(RedundancyClauses(Fresh()), n - 1);
  }

  /** `create_back_constraint`: turns 0 .. n - 3. */
  method CreateBackConstraint(n: nat) returns (back: Expr)
    ensures back == Back(Fresh(), n)
  {
    back := OrOverSteps(BackClauses(Fresh()), n - 2);
  }

  /** `create_overlap_constraint`: pairs three or more apart. */
  method CreateOverlapConstraint(n: nat, sizing: Sizing) returns (overlap: Expr)
    ensures overlap == Overlap(Axes(Fresh()), sizing, n, 3)
  {
    overlap := OrOverPairs((a1: nat, a2: nat) => OverlapFlag(Axes(Fresh()), sizing, a1, a2), n, 3);
  }

  /** One printed line of `create_interactions`: the pair, then the finished indicator. */
  function Line12(n: nat, toDnf: Expr -> Option<Expr>, sizing: Sizing): (nat, nat) -> (nat, nat, Option<Expr>)
  {
    (a1: nat, a2: nat) => (a1, a2, Finish12(Adjacency(Fresh(), sizing, a1, a2), n, toDnf))
  }

  /**
   * `create_energy_function`: the finished redundancy, backtrack and overlap terms, and the
   * lines of `create_interactions` (pairs two or more apart with a non-zero energy) with
   * their energies.
   */
  method CreateEnergyFunction(matrix: seq<seq<int>>, n: nat, toDnf: Expr -> Option<Expr>, sizing: Sizing)
    returns (redundancy: Option<Expr>, back: Option<Expr>, overlap: Option<Expr>,
             lines: seq<(nat, nat, Option<Expr>)>, energies: seq<int>)
    requires IsSquare(matrix, n)
    ensures redundancy == Finish12(Redundancy(Fresh(), n), n, toDnf)
    ensures back == Finish12(Back(Fresh(), n), n, toDnf)
    ensures overlap == Finish12(Overlap(Axes(Fresh()), sizing, n, 3), n, toDnf)
    ensures lines == IndicatorsOf(Line12(n, toDnf, sizing), Contacts(matrix, n, 2))
    ensures energies == EnergiesOf(matrix, Contacts(matrix, n, 2))
  {
    var r := CreateRedundancyConstraint(n);
    redundancy := Finish12(r, n, toDnf);
    var bk := CreateBackConstraint(n);
    back := Finish12(bk, n, toDnf);
    var o := CreateOverlapConstraint(n, sizing);
    overlap := Finish12(o, n, toDnf);
    lines, energies := CreateInteractions(Line12(n, toDnf, sizing), matrix, n, 2);
  }

  /** The fresh table read under the pinned assignment is the pinned walk. */
  lemma FreshWalk(a: Assignment)
    ensures Reflects(Fresh(), Effective(Presets, a), Effective(Presets, a))
  {
    FreshReflects(Effective(Presets, a));
  }

  /**
   * With the safe sizing, the three finished constraint terms together hold exactly when the
   * pinned walk is not a fold.
   */
  lemma SafeConstraintsMeaning(n: nat, toDnf: Expr -> Option<Expr>, a: Assignment, redundancy: Expr, back: Expr, overlap: Expr)
    requires Sound(toDnf)
    requires Finish12(Redundancy(Fresh(), n), n, toDnf) == Some(redundancy)
    requires Finish12(Back(Fresh(), n), n, toDnf) == Some(back)
    requires Finish12(Overlap(Axes(Fresh()), Safe, n, 3), n, toDnf) == Some(overlap)
    ensures Eval(redundancy, a) || Eval(overlap, a) || Eval(back, a) <==> !IsFold(Effective(Presets, a), n)
  {
    var b := Effective(Presets, a);
    Finish12Meaning(Redundancy(Fresh(), n), n, toDnf, a);
    Finish12Meaning(Back(Fresh(), n), n, toDnf, a);
    Finish12Meaning(Overlap(Axes(Fresh()), Safe, n, 3), n, toDnf, a);
    FreshWalk(a);
    ConstraintsExact(Fresh(), b, b, n);
  }

  /** As written, a walk that is not a fold still makes one of the finished terms hold. */
  lemma AsWrittenConstraintsCatch(n: nat, toDnf: Expr -> Option<Expr>, a: Assignment, redundancy: Expr, back: Expr, overlap: Expr)
    requires Sound(toDnf)
    requires Finish12(Redundancy(Fresh(), n), n, toDnf) == Some(redundancy)
    requires Finish12(Back(Fresh(), n), n, toDnf) == Some(back)
    requires Finish12(Overlap(Axes(Fresh()), AsWritten, n, 3), n, toDnf) == Some(overlap)
    requires !IsFold(Effective(Presets, a), n)
    ensures Eval(redundancy, a) || Eval(overlap, a) || Eval(back, a)
  {
    var b := Effective(Presets, a);
    Finish12Meaning(Redundancy(Fresh(), n), n, toDnf, a);
    Finish12Meaning(Back(Fresh(), n), n, toDnf, a);
    Finish12Meaning(Overlap(Axes(Fresh()), AsWritten, n, 3), n, toDnf, a);
    FreshWalk(a);
    ConstraintsCatch(Fresh(), b, b, n);
  }

  /**
   * As written, the straight north-east walk, which the pins allow, is a fold of every
   * length, yet from five residues on the finished overlap term holds on it.
   */
  lemma AsWrittenFlagsStraightNE(n: nat, toDnf: Expr -> Option<Expr>, a: Assignment, overlap: Expr)
    requires Sound(toDnf)
    requires Finish12(Overlap(Axes(Fresh()), AsWritten, n, 3), n, toDnf) == Some(overlap)
    requires StraightNE(Effective(Presets, a)) && n >= 5
    ensures IsFold(Effective(Presets, a), n)
    ensures Eval(overlap, a)
  {
    var b := Effective(Presets, a);
    Finish12Meaning(Overlap(Axes(Fresh()), AsWritten, n, 3), n, toDnf, a);
    FreshWalk(a);
    OverlapFalseAlarm(Fresh(), b, b, n);
  }

  /** With the safe sizing, each finished interaction term holds exactly when its pair is in contact. */
  lemma SafeLineMeaning(n: nat, toDnf: Expr -> Option<Expr>, a1: nat, a2: nat, a: Assignment)
    requires Sound(toDnf) && a1 + 2 <= a2
    requires Line12(n, toDnf, Safe)(a1, a2).2.Some?
    ensures Eval(Line12(n, toDnf, Safe)(a1, a2).2.value, a) <==> Touching(Effective(Presets, a))(a1, a2)
  {
    var b := Effective(Presets, a);
    Finish12Meaning(Adjacency(Fresh(), Safe, a1, a2), n, toDnf, a);
    FreshWalk(a);
    AdjacencyExact(Fresh(), b, b, a1, a2);
  }

  /** As written, a finished interaction term never misses a contact. */
  lemma AsWrittenLineCatches(n: nat, toDnf: Expr -> Option<Expr>, a1: nat, a2: nat, a: Assignment)
    requires Sound(toDnf) && a1 + 2 <= a2
    requires Line12(n, toDnf, AsWritten)(a1, a2).2.Some?
    requires Touching(Effective(Presets, a))(a1, a2)
    ensures Eval(Line12(n, toDnf, AsWritten)(a1, a2).2.value, a)
  {
    var b := Effective(Presets, a);
    Finish12Meaning(Adjacency(Fresh(), AsWritten, a1, a2), n, toDnf, a);
    FreshWalk(a);
    AdjacencyCatches(Fresh(), b, b, a1, a2);
  }

  /**
   * As written, on the straight north-east walk the finished interaction term of two residues
   * three sites apart holds although they are not in contact.
   */
  lemma AsWrittenLineFalseContact(n: nat, toDnf: Expr -> Option<Expr>, a1: nat, a: Assignment)
    requires Sound(toDnf)
    requires Line12(n, toDnf, AsWritten)(a1, a1 + 3).2.Some?
    requires StraightNE(Effective(Presets, a))
    ensures !Touching(Effective(Presets, a))(a1, a1 + 3)
    ensures Eval(Line12(n, toDnf, AsWritten)(a1, a1 + 3).2.value, a)
  {
    var b := Effective(Presets, a);
    Finish12Meaning(Adjacency(Fresh(), AsWritten, a1, a1 + 3), n, toDnf, a);
    FreshWalk(a);
    AdjacencyFalseContact(Fresh(), b, b, a1, a1 + 3);
  }
}
