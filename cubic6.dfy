/**
 * The 6-direction cubic lattice of the sympy builder (Binary/HCOMB6.py), three bits
 * (q_a, q_b, q_c) per step, with the integer vectors the builder counts: E = 000 (1, 0, 0),
 * W = 001 (-1, 0, 0), N = 010 (0, 1, 0), S = 011 (0, -1, 0), U = 100 (0, 0, 1),
 * D = 101 (0, 0, -1). The two codes 11x are no direction: every predicate is false on them
 * and the redundancy term rules them out. sympy flattens nested And and Or, so its
 * three-way conjunctions are written here as nested two-way ones.
 */
module Cubic6 {
  import opened Numeric
  import opened Outcomes
  import opened BoolExpr
  import opened BitOpsQubo
  import opened Assembly
  import opened AxisTests
  import opened Geometry
  import opened ThreeAxes

  datatype Direction = E | W | N | S | U | D

  /** The code (q_a, q_b, q_c) of each direction. */
  function Code(d: Direction): (bool, bool, bool)
  {
    match d
    case E => (false, false, false)
    case W => (false, false, true)
    case N => (false, true, false)
    case S => (false, true, true)
    case U => (true, false, false)
    case D => (true, false, true)
  }

  /** The direction a step's three bits encode; the codes 11x encode none. */
  function Decode(qa: bool, qb: bool, qc: bool): (r: Option<Direction>)
    ensures r.None? <==> qa && qb
    ensures r.Some? ==> Code(r.value) == (qa, qb, qc)
  {
    if qa then
      if qb then None else Some(if qc then D else U)
    else if qb then Some(if qc then S else N)
    else Some(if qc then W else E)
  }

  lemma DecodeCode(d: Direction)
    ensures Decode(Code(d).0, Code(d).1, Code(d).2) == Some(d)
  {
  }

  /** The integer movement vector of each direction. */
  function Step(d: Direction): Vec
  {
    match d
    case E => Vec(1, 0, 0)
    case W => Vec(-1, 0, 0)
    case N => Vec(0, 1, 0)
    case S => Vec(0, -1, 0)
    case U => Vec(0, 0, 1)
    case D => Vec(0, 0, -1)
  }

  /** What the predicates count for a step: its vector, or no movement for a code that is no direction. */
  function StepOf(r: Option<Direction>): Vec
  {
    match r
    case Some(d) => Step(d)
    case None => Origin
  }

  /** Two residues are in contact when one lattice move separates them. */
  predicate IsMove(v: Vec)
  {
    exists d: Direction :: Step(d) == v
  }

  /** Two coordinates are unchanged and the third changes by one. */
  predicate OneUnit(v: Vec)
  {
    (v.y == 0 && v.z == 0 && (v.x == 1 || v.x == -1))
    || (v.x == 0 && v.z == 0 && (v.y == 1 || v.y == -1))
    || (v.x == 0 && v.y == 0 && (v.z == 1 || v.z == -1))
  }

  /** The six moves are exactly the vectors with two zero and one unit coordinate. */
  lemma IsMoveComponents(v: Vec)
    ensures IsMove(v) <==> OneUnit(v)
  {
    if OneUnit(v) {
      if v.x != 0 {
        assert v == Step(if v.x == 1 then E else W);
      } else if v.y != 0 {
        assert v == Step(if v.y == 1 then N else S);
      } else {
        assert v == Step(if v.z == 1 then U else D);
      }
    }
  }

  /** The walk an assignment encodes. */
  function Moves(b: Assignment): nat -> Vec
  {
    (t: nat) => StepOf(Decode(b(t, 0), b(t, 1), b(t, 2)))
  }

  /** Steps 0 .. n - 2 of a chain of n residues all encode a direction. */
  ghost predicate ValidSteps(b: Assignment, n: nat)
  {
    forall t: nat :: t + 1 < n ==> !(b(t, 0) && b(t, 1))
  }

  /** A fold: every step is a direction and no two residues share a site. */
  ghost predicate IsFold(b: Assignment, n: nat)
  {
    ValidSteps(b, n) && SelfAvoiding(Moves(b), n)
  }

  /** Every step is no movement or one of the six moves, so each coordinate changes by at most one. */
  lemma MovesShape(b: Assignment)
    ensures forall t: nat :: Moves(b)(t) == Origin || OneUnit(Moves(b)(t))
    ensures UnitSteps(Moves(b))
  {
    forall t: nat
      ensures Moves(b)(t) == Origin || OneUnit(Moves(b)(t))
      ensures -1 <= Moves(b)(t).x <= 1 && -1 <= Moves(b)(t).y <= 1 && -1 <= Moves(b)(t).z <= 1
    {
      var r := Decode(b(t, 0), b(t, 1), b(t, 2));
      assert Moves(b)(t) == StepOf(r);
    }
  }

  /** One step is no movement or one of the six moves. */
  lemma StepShape(b: Assignment, t: nat)
    ensures Moves(b)(t) == Origin || OneUnit(Moves(b)(t))
  {
    var r := Decode(b(t, 0), b(t, 1), b(t, 2));
    assert Moves(b)(t) == StepOf(r);
  }

  /** A step that encodes a direction moves, and by an odd coordinate sum. */
  lemma ValidMoves(b: Assignment, n: nat)
    requires ValidSteps(b, n)
    ensures NonZeroSteps(Moves(b), n) && OddSteps(Moves(b), n)
  {
    forall t: nat | t + 1 < n
      ensures Moves(b)(t) != Origin
      ensures (Moves(b)(t).x + Moves(b)(t).y + Moves(b)(t).z) % 2 == 1
    {
      var r := Decode(b(t, 0), b(t, 1), b(t, 2));
      assert r.Some? && Moves(b)(t) == Step(r.value);
    }
  }

  // ---------------------------------------------------------------- pinned bits

  /** `set_default_and_dnf`: q_0 = 000 and q_1 = x00. */
  const Presets: Pins := map[(0, 0) := false, (0, 1) := false, (0, 2) := false, (1, 1) := false, (1, 2) := false]

  /** The pins fix step 0 to E and step 1 to E or U ... */
  lemma PresetsFixStart(a: Assignment)
    ensures var e := Effective(Presets, a);
      Decode(e(0, 0), e(0, 1), e(0, 2)) == Some(E)
      && Decode(e(1, 0), e(1, 1), e(1, 2)) in {Some(E), Some(U)}
  {
  }

  /** ... and lose no walk that already starts that way. */
  lemma PresetsKeepCanonicalWalks(b: Assignment)
    requires Decode(b(0, 0), b(0, 1), b(0, 2)) == Some(E)
    requires Decode(b(1, 0), b(1, 1), b(1, 2)) in {Some(E), Some(U)}
    ensures forall t: nat, i: nat :: Effective(Presets, b)(t, i) == b(t, i)
  {
  }

  // ---------------------------------------------------------------- direction predicates

  function DxPlus(q: Table, t: nat): Expr
  {
    And(Not(q(t, 0)), And(Not(q(t, 1)), Not(q(t, 2))))
  }

  function DxMinus(q: Table, t: nat): Expr
  {
    And(Not(q(t, 0)), And(Not(q(t, 1)), q(t, 2)))
  }

  function DyPlus(q: Table, t: nat): Expr
  {
    And(Not(q(t, 0)), And(q(t, 1), Not(q(t, 2))))
  }

  function DyMinus(q: Table, t: nat): Expr
  {
    And(Not(q(t, 0)), And(q(t, 1), q(t, 2)))
  }

  function DzPlus(q: Table, t: nat): Expr
  {
    And(q(t, 0), And(Not(q(t, 1)), Not(q(t, 2))))
  }

  function DzMinus(q: Table, t: nat): Expr
  {
    And(q(t, 0), And(Not(q(t, 1)), q(t, 2)))
  }

  /** On the bits alone: each predicate's formula is true exactly when the step moves its way along its axis. */
  lemma PredicateBits(qa: bool, qb: bool, qc: bool)
    ensures var v := StepOf(Decode(qa, qb, qc));
      && (!qa && !qb && !qc <==> v.x == 1) && (!qa && !qb && qc <==> v.x == -1)
      && (!qa && qb && !qc <==> v.y == 1) && (!qa && qb && qc <==> v.y == -1)
      && (qa && !qb && !qc <==> v.z == 1) && (qa && !qb && qc <==> v.z == -1)
  {
  }

  /** Each predicate recognises exactly the steps that move its way along its axis. */
  lemma PredicatesMatchTable(q: Table, a: Assignment, b: Assignment, t: nat)
    requires Reflects(q, a, b)
    ensures var v := Moves(b)(t);
      && (Eval(DxPlus(q, t), a) <==> v.x == 1) && (Eval(DxMinus(q, t), a) <==> v.x == -1)
      && (Eval(DyPlus(q, t), a) <==> v.y == 1) && (Eval(DyMinus(q, t), a) <==> v.y == -1)
      && (Eval(DzPlus(q, t), a) <==> v.z == 1) && (Eval(DzMinus(q, t), a) <==> v.z == -1)
  {
    var x, y, z := q(t, 0), q(t, 1), q(t, 2);
    assert Eval(x, a) == b(t, 0) && Eval(y, a) == b(t, 1) && Eval(z, a) == b(t, 2);
    PredicateBits(b(t, 0), b(t, 1), b(t, 2));
    EvalAnd3(Not(x), Not(y), Not(z), a);
    EvalAnd3(Not(x), Not(y), z, a);
    EvalAnd3(Not(x), y, Not(z), a);
    EvalAnd3(Not(x), y, z, a);
    EvalAnd3(x, Not(y), Not(z), a);
    EvalAnd3(x, Not(y), z, a);
  }

  function XFamily(q: Table): (f: Family)
    ensures NonEmpty(f) && |f.plus| == 1 && |f.minus| == 1 && f.axis == X
  {
    Family(X, [(t: nat) => DxPlus(q, t)], [(t: nat) => DxMinus(q, t)])
  }

  function YFamily(q: Table): (f: Family)
    ensures NonEmpty(f) && |f.plus| == 1 && |f.minus| == 1 && f.axis == Y
  {
    Family(Y, [(t: nat) => DyPlus(q, t)], [(t: nat) => DyMinus(q, t)])
  }

  function ZFamily(q: Table): (f: Family)
    ensures NonEmpty(f) && |f.plus| == 1 && |f.minus| == 1 && f.axis == Z
  {
    Family(Z, [(t: nat) => DzPlus(q, t)], [(t: nat) => DzMinus(q, t)])
  }

  /** The x, y and z families, in the order each bit's overlap flag chains them. */
  function Axes(q: Table): (fams: seq<Family>)
    ensures Axes3(fams)
  {
    [XFamily(q), YFamily(q), ZFamily(q)]
  }

  /** The hit counts read the integer vector: plus hits minus minus hits is the step's coordinate. */
  lemma FamiliesRead(q: Table, a: Assignment, b: Assignment)
    requires Reflects(q, a, b)
    ensures ReadAll(Axes(q), a, Moves(b))
  {
    var x, y, z := XFamily(q), YFamily(q), ZFamily(q);
    forall t: nat
      ensures Count(Row(x.plus, t), a) - Count(Row(x.minus, t), a) == Moves(b)(t).x
      ensures Count(Row(y.plus, t), a) - Count(Row(y.minus, t), a) == Moves(b)(t).y
      ensures Count(Row(z.plus, t), a) - Count(Row(z.minus, t), a) == Moves(b)(t).z
    {
      CountOne(x.plus[0], t, a);
      CountOne(x.minus[0], t, a);
      CountOne(y.plus[0], t, a);
      CountOne(y.minus[0], t, a);
      CountOne(z.plus[0], t, a);
      CountOne(z.minus[0], t, a);
      PredicatesMatchTable(q, a, b, t);
      MovesShape(b);
    }
    assert Axes(q)[0] == x && Axes(q)[1] == y && Axes(q)[2] == z;
  }

  // ---------------------------------------------------------------- redundancy

  /** Step t's code is 11x, no direction. */
  function Unused(q: Table, t: nat): Expr
  {
    And(q(t, 0), q(t, 1))
  }

  lemma UnusedMeaning(q: Table, a: Assignment, b: Assignment, t: nat)
    requires Reflects(q, a, b)
    ensures Eval(Unused(q, t), a) <==> b(t, 0) && b(t, 1)
  {
    assert Eval(q(t, 0), a) == b(t, 0) && Eval(q(t, 1), a) == b(t, 1);
  }

  function RedundancyClauses(q: Table): nat -> seq<Expr>
  {
    (t: nat) => [Unused(q, t)]
  }

  /** `create_redundancy_constraint`: the Or, seeded with false, of the unused-code tests of steps 0 .. n - 2. */
  function Redundancy(q: Table, n: nat): Expr
  {
    OrSteps(RedundancyClauses(q), if n < 1 then 0 else n - 1)
  }

  /** The redundancy term holds exactly when some step of the chain encodes no direction. */
  lemma RedundancyMeaning(q: Table, a: Assignment, b: Assignment, n: nat)
    requires Reflects(q, a, b)
    ensures Eval(Redundancy(q, n), a) <==> !ValidSteps(b, n)
  {
    var k := if n < 1 then 0 else n - 1;
    OrStepsMeaning(RedundancyClauses(q), k, a);
    if Eval(Redundancy(q, n), a) {
      var t: nat, j :| t < k && 0 <= j < |RedundancyClauses(q)(t)| && Eval(RedundancyClauses(q)(t)[j], a);
      UnusedMeaning(q, a, b, t);
      assert RedundancyClauses(q)(t)[j] == Unused(q, t);
    }
    if !ValidSteps(b, n) {
      var t: nat :| t + 1 < n && b(t, 0) && b(t, 1);
      UnusedMeaning(q, a, b, t);
      assert RedundancyClauses(q)(t)[0] == Unused(q, t);
      assert t < k && Eval(RedundancyClauses(q)(t)[0], a);
    }
  }

  // ---------------------------------------------------------------- backtracking

  /** The predicate reading a move of sign `plus` along an axis. */
  function Moving(q: Table, t: nat, axis: Axis, plus: bool): Expr
  {
    match axis
    case X => if plus then DxPlus(q, t) else DxMinus(q, t)
    case Y => if plus then DyPlus(q, t) else DyMinus(q, t)
    case Z => if plus then DzPlus(q, t) else DzMinus(q, t)
  }

  function Sign(plus: bool): int
  {
    if plus then 1 else -1
  }

  lemma MovingMeaning(q: Table, a: Assignment, b: Assignment, t: nat, axis: Axis, plus: bool)
    requires Reflects(q, a, b)
    ensures Eval(Moving(q, t, axis, plus), a) <==> Component(Moves(b)(t), axis) == Sign(plus)
  {
    PredicatesMatchTable(q, a, b, t);
  }

  /** The six reversal patterns in the written order: x+ x-, x- x+, y+ y-, y- y+, z+ z-, z- z+. */
  const Turns: seq<(Axis, bool)> := [(X, true), (X, false), (Y, true), (Y, false), (Z, true), (Z, false)]

  /** The clause of one pattern: step t moves s along the axis and step t + 1 the other way. */
  function Reversal(q: Table, t: nat, axis: Axis, s: bool): Expr
  {
    And(Moving(q, t, axis, s), Moving(q, t + 1, axis, !s))
  }

  lemma ReversalMeaning(q: Table, a: Assignment, b: Assignment, t: nat, axis: Axis, s: bool)
    requires Reflects(q, a, b)
    ensures Eval(Reversal(q, t, axis, s), a)
        <==> Component(Moves(b)(t), axis) == Sign(s) && Component(Moves(b)(t + 1), axis) == -Sign(s)
  {
    MovingMeaning(q, a, b, t, axis, s);
    MovingMeaning(q, a, b, t + 1, axis, !s);
  }

  /** The reversal clauses of turn t. */
  function Reversals(q: Table, t: nat): (r: seq<Expr>)
    ensures |r| == |Turns|
  {
    seq(|Turns|, j requires 0 <= j < |Turns| => Reversal(q, t, Turns[j].0, Turns[j].1))
  }

  function BackClauses(q: Table): nat -> seq<Expr>
  {
    (t: nat) => Reversals(q, t)
  }

  /** `create_back_constraint`: the Or of the reversal clauses of turns 0 .. n - 3. */
  function Back(q: Table, n: nat): Expr
  {
    OrSteps(BackClauses(q), if n < 2 then 0 else n - 2)
  }

  /** The pattern a move undone by the next one follows. */
  function TurnOf(m: Vec): (j: nat)
    ensures j < |Turns|
  {
    if m.x != 0 then (if m.x == 1 then 0 else 1)
    else if m.y != 0 then (if m.y == 1 then 2 else 3)
    else (if m.z == 1 then 4 else 5)
  }

  /** A move and its reverse follow the pattern of the move's axis and sign. */
  lemma TurnOfFollows(m: Vec)
    requires OneUnit(m)
    ensures var p := Turns[TurnOf(m)];
      Component(m, p.0) == Sign(p.1) && Component(Negate(m), p.0) == -Sign(p.1)
  {
    var j := TurnOf(m);
    if m.x != 0 {
      assert Turns[j] == (X, m.x == 1);
    } else if m.y != 0 {
      assert Turns[j] == (Y, m.y == 1);
    } else {
      assert Turns[j] == (Z, m.z == 1);
    }
  }

  /** A clause that holds means step t + 1 undoes step t. */
  lemma ReversalUndoes(q: Table, a: Assignment, b: Assignment, t: nat, j: nat)
    requires Reflects(q, a, b) && j < |Turns| && Eval(Reversals(q, t)[j], a)
    ensures Moves(b)(t) != Origin && Moves(b)(t + 1) == Negate(Moves(b)(t))
  {
    StepShape(b, t);
    StepShape(b, t + 1);
    assert Reversals(q, t)[j] == Reversal(q, t, Turns[j].0, Turns[j].1);
    ReversalMeaning(q, a, b, t, Turns[j].0, Turns[j].1);
  }

  /** A step t + 1 that undoes step t makes a clause hold. */
  lemma UndoingReversal(q: Table, a: Assignment, b: Assignment, t: nat)
    requires Reflects(q, a, b) && Moves(b)(t) != Origin && Moves(b)(t + 1) == Negate(Moves(b)(t))
    ensures exists j :: 0 <= j < |Reversals(q, t)| && Eval(Reversals(q, t)[j], a)
  {
    var m1 := Moves(b)(t);
    StepShape(b, t);
    var j := TurnOf(m1);
    TurnOfFollows(m1);
    ReversalMeaning(q, a, b, t, Turns[j].0, Turns[j].1);
    assert Reversals(q, t)[j] == Reversal(q, t, Turns[j].0, Turns[j].1);
  }

  /** A clause of turn t holds exactly when step t moves and step t + 1 undoes it. */
  lemma ReversalsMeaning(q: Table, a: Assignment, b: Assignment, t: nat)
    requires Reflects(q, a, b)
    ensures (exists j :: 0 <= j < |Reversals(q, t)| && Eval(Reversals(q, t)[j], a))
        <==> Moves(b)(t) != Origin && Moves(b)(t + 1) == Negate(Moves(b)(t))
  {
    if exists j :: 0 <= j < |Reversals(q, t)| && Eval(Reversals(q, t)[j], a) {
      var j :| 0 <= j < |Reversals(q, t)| && Eval(Reversals(q, t)[j], a);
      ReversalUndoes(q, a, b, t, j);
    }
    if Moves(b)(t) != Origin && Moves(b)(t + 1) == Negate(Moves(b)(t)) {
      UndoingReversal(q, a, b, t);
    }
  }

  /** On a chain whose steps all encode directions, the backtrack term holds exactly when some step undoes the one before. */
  lemma BackMeaning(q: Table, a: Assignment, b: Assignment, n: nat)
    requires Reflects(q, a, b) && ValidSteps(b, n)
    ensures Eval(Back(q, n), a) <==> Backtracks(Moves(b), n)
  {
    var k := if n < 2 then 0 else n - 2;
    OrStepsMeaning(BackClauses(q), k, a);
    if Eval(Back(q, n), a) {
      var t: nat, j :| t < k && 0 <= j < |BackClauses(q)(t)| && Eval(BackClauses(q)(t)[j], a);
      ReversalsMeaning(q, a, b, t);
      assert t + 2 < n;
    }
    if Backtracks(Moves(b), n) {
      var t: nat :| t + 2 < n && Moves(b)(t + 1) == Negate(Moves(b)(t));
      ValidMoves(b, n);
      ReversalsMeaning(q, a, b, t);
      var j :| 0 <= j < |Reversals(q, t)| && Eval(Reversals(q, t)[j], a);
      assert t < k && Eval(BackClauses(q)(t)[j], a);
    }
  }

  // ---------------------------------------------------------------- the three constraints together

  /**
   * With the safe widths, the redundancy term, the overlap term over pairs four or more apart
   * and the backtrack term together hold exactly when the walk is not a fold: every step is a
   * direction, neighbours never meet, residues two apart meet only by backtracking, and
   * residues an odd number of steps apart never meet on this lattice.
   */
  lemma ConstraintsExact(q: Table, a: Assignment, b: Assignment, n: nat)
    requires Reflects(q, a, b)
    ensures Eval(Redundancy(q, n), a) || Eval(Overlap(Axes(q), Safe, n, 4), a) || Eval(Back(q, n), a)
        <==> !IsFold(b, n)
  {
    RedundancyMeaning(q, a, b, n);
    if ValidSteps(b, n) {
      MovesShape(b);
      FamiliesRead(q, a, b);
      OverlapExact(Axes(q), a, Moves(b), n, 4);
      BackMeaning(q, a, b, n);
      ValidMoves(b, n);
      SelfAvoidingSplit(Moves(b), n);
      OddApart(Moves(b), n);
    }
  }

  /** As written the three terms still never let a walk that is not a fold through. */
  lemma ConstraintsCatch(q: Table, a: Assignment, b: Assignment, n: nat)
    requires Reflects(q, a, b) && !IsFold(b, n)
    ensures Eval(Redundancy(q, n), a) || Eval(Overlap(Axes(q), AsWritten, n, 4), a) || Eval(Back(q, n), a)
  {
    RedundancyMeaning(q, a, b, n);
    if ValidSteps(b, n) {
      BackMeaning(q, a, b, n);
      ValidMoves(b, n);
      SelfAvoidingSplit(Moves(b), n);
      if !Backtracks(Moves(b), n) {
        OddApart(Moves(b), n);
        FamiliesRead(q, a, b);
        OverlapCatches(Axes(q), a, Moves(b), n, 4);
      }
    }
  }

  // ---------------------------------------------------------------- adjacency

  /** The indicator's shape: (x, y equal, z off by one) or (y, z equal, x off) or (x, z equal, y off). */
  function ThreeCases(xe: Expr, ye: Expr, ze: Expr, xo: Expr, yo: Expr, zo: Expr): Expr
  {
    Or(And(xe, And(ye, zo)), Or(And(ye, And(ze, xo)), And(xe, And(ze, yo))))
  }

  lemma ThreeCasesEval(xe: Expr, ye: Expr, ze: Expr, xo: Expr, yo: Expr, zo: Expr, a: Assignment)
    ensures Eval(ThreeCases(xe, ye, ze, xo, yo, zo), a)
        == ((Eval(xe, a) && Eval(ye, a) && Eval(zo, a)) || (Eval(ye, a) && Eval(ze, a) && Eval(xo, a))
           || (Eval(xe, a) && Eval(ze, a) && Eval(yo, a)))
  {
    EvalAnd3(xe, ye, zo, a);
    EvalAnd3(ye, ze, xo, a);
    EvalAnd3(xe, ze, yo, a);
  }

  /** The contact test of the pair a1 < a2, equalities on we bits and offsets on wo bits. */
  function Contact(q: Table, a1: nat, a2: nat, we: nat, wo: nat): Expr
    requires ContactFits(a1, a2, we, wo)
  {
    var fs := Axes(q);
    ThreeCases(Equal(fs, 0, a1, a2, we, wo), Equal(fs, 1, a1, a2, we, wo), Equal(fs, 2, a1, a2, we, wo),
      OffByOne(fs, 0, a1, a2, we, wo), OffByOne(fs, 1, a1, a2, we, wo), OffByOne(fs, 2, a1, a2, we, wo))
  }

  /** Two coordinates agree and the third is off by one, as the six comparisons of fs read it. */
  predicate CasesHold(fs: seq<Family>, a1: nat, a2: nat, we: nat, wo: nat, a: Assignment)
    requires Axes3(fs) && ContactFits(a1, a2, we, wo)
  {
    (Eval(Equal(fs, 0, a1, a2, we, wo), a) && Eval(Equal(fs, 1, a1, a2, we, wo), a) && Eval(OffByOne(fs, 2, a1, a2, we, wo), a))
    || (Eval(Equal(fs, 1, a1, a2, we, wo), a) && Eval(Equal(fs, 2, a1, a2, we, wo), a) && Eval(OffByOne(fs, 0, a1, a2, we, wo), a))
    || (Eval(Equal(fs, 0, a1, a2, we, wo), a) && Eval(Equal(fs, 2, a1, a2, we, wo), a) && Eval(OffByOne(fs, 1, a1, a2, we, wo), a))
  }

  /** The contact test, read through its six comparisons. */
  lemma ContactRead(q: Table, a1: nat, a2: nat, we: nat, wo: nat, a: Assignment)
    requires ContactFits(a1, a2, we, wo)
    ensures Eval(Contact(q, a1, a2, we, wo), a) == CasesHold(Axes(q), a1, a2, we, wo, a)
  {
    var fs := Axes(q);
    ThreeCasesEval(Equal(fs, 0, a1, a2, we, wo), Equal(fs, 1, a1, a2, we, wo), Equal(fs, 2, a1, a2, we, wo),
      OffByOne(fs, 0, a1, a2, we, wo), OffByOne(fs, 1, a1, a2, we, wo), OffByOne(fs, 2, a1, a2, we, wo), a);
  }

  /** With room for every value, the comparisons hold exactly when the change is one unit along one axis. */
  lemma CasesExact(fs: seq<Family>, a: Assignment, m: nat -> Vec, a1: nat, a2: nat, we: nat, wo: nat)
    requires Axes3(fs) && ContactFits(a1, a2, we, wo) && ContactRoom(a2 - a1, we, wo)
    requires ReadAll(fs, a, m) && UnitSteps(m)
    ensures CasesHold(fs, a1, a2, we, wo, a) <==> OneUnit(Disp(m, a1, a2))
  {
    TestsExact(fs, 0, a1, a2, we, wo, a, m);
    TestsExact(fs, 1, a1, a2, we, wo, a, m);
    TestsExact(fs, 2, a1, a2, we, wo, a, m);
  }

  /** Whatever the widths, the comparisons hold on a change of one unit along one axis. */
  lemma CasesCatch(fs: seq<Family>, a: Assignment, m: nat -> Vec, a1: nat, a2: nat, we: nat, wo: nat)
    requires Axes3(fs) && ContactFits(a1, a2, we, wo) && ReadAll(fs, a, m)
    requires OneUnit(Disp(m, a1, a2))
    ensures CasesHold(fs, a1, a2, we, wo, a)
  {
    var v := Disp(m, a1, a2);
    if v.x != 0 {
      EqualCatches(fs, 1, a1, a2, we, wo, a, m);
      EqualCatches(fs, 2, a1, a2, we, wo, a, m);
      OffByOneCatches(fs, 0, a1, a2, we, wo, a, m);
    } else if v.y != 0 {
      EqualCatches(fs, 0, a1, a2, we, wo, a, m);
      EqualCatches(fs, 2, a1, a2, we, wo, a, m);
      OffByOneCatches(fs, 1, a1, a2, we, wo, a, m);
    } else {
      EqualCatches(fs, 0, a1, a2, we, wo, a, m);
      EqualCatches(fs, 1, a1, a2, we, wo, a, m);
      OffByOneCatches(fs, 2, a1, a2, we, wo, a, m);
    }
  }

  /** With room for every value, the contact test holds exactly when the pair is one move apart. */
  lemma ContactExact(q: Table, a: Assignment, b: Assignment, a1: nat, a2: nat, we: nat, wo: nat)
    requires ContactFits(a1, a2, we, wo) && ContactRoom(a2 - a1, we, wo) && Reflects(q, a, b)
    ensures Eval(Contact(q, a1, a2, we, wo), a) <==> IsMove(Disp(Moves(b), a1, a2))
  {
    FamiliesRead(q, a, b);
    MovesShape(b);
    ContactRead(q, a1, a2, we, wo, a);
    CasesExact(Axes(q), a, Moves(b), a1, a2, we, wo);
    IsMoveComponents(Disp(Moves(b), a1, a2));
  }

  /** Whatever the widths, the contact test never misses a pair one move apart. */
  lemma ContactCatches(q: Table, a: Assignment, b: Assignment, a1: nat, a2: nat, we: nat, wo: nat)
    requires ContactFits(a1, a2, we, wo) && Reflects(q, a, b)
    requires IsMove(Disp(Moves(b), a1, a2))
    ensures Eval(Contact(q, a1, a2, we, wo), a)
  {
    FamiliesRead(q, a, b);
    ContactRead(q, a1, a2, we, wo, a);
    IsMoveComponents(Disp(Moves(b), a1, a2));
    CasesCatch(Axes(q), a, Moves(b), a1, a2, we, wo);
  }

  /** `adjacency_indicator` of residues a1 + 2 <= a2, with the sizing's widths. */
  function Adjacency(q: Table, sizing: Sizing, a1: nat, a2: nat): Expr
  {
    if a2 < a1 + 2 then Num(false)
    else Contact(q, a1, a2, ContactWidths(sizing, a2 - a1).0, ContactWidths(sizing, a2 - a1).1)
  }

  /** Residues i and j of the walk b are in contact. */
  function Touching(b: Assignment): (nat, nat) -> bool
  {
    (i: nat, j: nat) => IsMove(Minus(Position(Moves(b), j), Position(Moves(b), i)))
  }

  /** With the safe widths the indicator holds exactly when the two residues are in contact. */
  lemma AdjacencyExact(q: Table, a: Assignment, b: Assignment, a1: nat, a2: nat)
    requires a1 + 2 <= a2 && Reflects(q, a, b)
    ensures Eval(Adjacency(q, Safe, a1, a2), a) <==> Touching(b)(a1, a2)
  {
    var ws := ContactWidths(Safe, a2 - a1);
    ContactExact(q, a, b, a1, a2, ws.0, ws.1);
    DispIsPositionDifference(Moves(b), a1, a2);
  }

  /** As written the indicator never misses a contact. */
  lemma AdjacencyCatches(q: Table, a: Assignment, b: Assignment, a1: nat, a2: nat)
    requires a1 + 2 <= a2 && Reflects(q, a, b) && Touching(b)(a1, a2)
    ensures Eval(Adjacency(q, AsWritten, a1, a2), a)
  {
    var ws := ContactWidths(AsWritten, a2 - a1);
    DispIsPositionDifference(Moves(b), a1, a2);
    ContactCatches(q, a, b, a1, a2, ws.0, ws.1);
  }

  // ---------------------------------------------------------------- the bit counts as written

  /** A walk whose every step is 000, east. */
  ghost predicate StraightE(b: Assignment)
  {
    forall t: nat :: !b(t, 0) && !b(t, 1) && !b(t, 2)
  }

  /** The straight east walk as one assignment; it agrees with the pins. */
  function AllE(): Assignment
  {
    (t: nat, i: nat) => false
  }

  lemma AllEWitness()
    ensures StraightE(AllE()) && Reflects(Pinned(Presets), AllE(), AllE())
  {
  }

  lemma ESteps(b: Assignment)
    requires StraightE(b)
    ensures forall t: nat :: Moves(b)(t) == Vec(1, 0, 0)
  {
    forall t: nat
      ensures Moves(b)(t) == Vec(1, 0, 0)
    {
      assert !b(t, 0) && !b(t, 1) && !b(t, 2);
    }
  }

  lemma EDisp(b: Assignment, i: nat, j: nat)
    requires StraightE(b) && i <= j
    ensures Disp(Moves(b), i, j) == Vec(j - i, 0, 0)
  {
    ESteps(b);
    LineDisp(Moves(b), Vec(1, 0, 0), i, j);
  }

  /** The straight east walk is a fold of every length. */
  lemma EIsFold(b: Assignment, n: nat)
    requires StraightE(b)
    ensures IsFold(b, n)
  {
    forall i: nat, j: nat | i + 1 <= j < n
      ensures Position(Moves(b), i) != Position(Moves(b), j)
    {
      EDisp(b, 0, i);
      EDisp(b, 0, j);
      DispIsPositionDifference(Moves(b), 0, i);
      DispIsPositionDifference(Moves(b), 0, j);
    }
  }

  /**
   * As written, on a straight east walk of n >= 5 residues the last residue and the one four
   * before it are flagged as overlapping: their x counts differ by 4, which two bits cannot
   * tell from 0. The overlap term penalises a fold.
   */
  lemma OverlapFalseAlarm(q: Table, a: Assignment, b: Assignment, n: nat)
    requires Reflects(q, a, b) && StraightE(b) && n >= 5
    ensures IsFold(b, n)
    ensures Eval(Overlap(Axes(q), AsWritten, n, 4), a)
  {
    var a1, a2 := n - 5, n - 1;
    EDisp(b, a1, a2);
    WrittenWidths();
    FamiliesRead(q, a, b);
    OverlapWraps(Axes(q), a, Moves(b), n, 4, a1, a2);
    EIsFold(b, n);
  }

  /**
   * As written, any two residues three sites apart on a straight east walk are reported in
   * contact: y and z agree, and 3 + 1 is 0 on the two bits the x offset test uses.
   */
  lemma AdjacencyFalseContact(q: Table, a: Assignment, b: Assignment, a1: nat, a2: nat)
    requires Reflects(q, a, b) && StraightE(b) && a2 == a1 + 3
    ensures !Touching(b)(a1, a2)
    ensures Eval(Adjacency(q, AsWritten, a1, a2), a)
  {
    var fs, v := Axes(q), Disp(Moves(b), a1, a2);
    EDisp(b, a1, a2);
    IsMoveComponents(v);
    DispIsPositionDifference(Moves(b), a1, a2);
    WrittenWidths();
    FamiliesRead(q, a, b);
    assert Component(v, fs[0].axis) == 3 && Component(v, fs[1].axis) == 0 && Component(v, fs[2].axis) == 0;
    EqualWraps(fs, 1, a1, a2, 2, 2, a, Moves(b));
    EqualWraps(fs, 2, a1, a2, 2, 2, a, Moves(b));
    OffByOneWraps(fs, 0, a1, a2, 2, 2, a, Moves(b));
    ContactRead(q, a1, a2, 2, 2, a);
    assert Adjacency(q, AsWritten, a1, a2) == Contact(q, a1, a2, 2, 2);
  }
}
