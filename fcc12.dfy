/**
 * The 12-direction lattice, four bits (q_a, q_b, q_c, q_d) per step, with the integer vectors
 * the builders count: NE = 1011 (1, 1, 0), NW = 1111 (-1, 1, 0), SE = 1010 (1, -1, 0),
 * SW = 1110 (-1, -1, 0), UN = 0111 (0, 1, 1), US = 0101 (0, -1, 1), DN = 0110 (0, 1, -1),
 * DS = 0100 (0, -1, -1), UE = 1001 (1, 0, 1), UW = 1101 (-1, 0, 1), DE = 1000 (1, 0, -1),
 * DW = 1100 (-1, 0, -1). The four codes 00xx are no direction: every predicate is false on
 * them and the redundancy term rules them out. The pyqubo and the sympy builders build the
 * same formulas; sympy flattens nested And and Or, so its n-ary predicates are these ones.
 */
module Fcc12 {
  import opened Numeric
  import opened Outcomes
  import opened BoolExpr
  import opened BitOpsQubo
  import opened Assembly
  import opened AxisTests
  import opened Geometry
  import opened ThreeAxes

  datatype Direction = NE | NW | SE | SW | UN | US | DN | DS | UE | UW | DE | DW

  /** The code (q_a, q_b, q_c, q_d) of each direction. */
  function Code(d: Direction): (bool, bool, bool, bool)
  {
    match d
    case NE => (true, false, true, true)
    case NW => (true, true, true, true)
    case SE => (true, false, true, false)
    case SW => (true, true, true, false)
    case UN => (false, true, true, true)
    case US => (false, true, false, true)
    case DN => (false, true, true, false)
    case DS => (false, true, false, false)
    case UE => (true, false, false, true)
    case UW => (true, true, false, true)
    case DE => (true, false, false, false)
    case DW => (true, true, false, false)
  }

  /** The direction a step's four bits encode; the codes 00xx encode none. */
  function Decode(qa: bool, qb: bool, qc: bool, qd: bool): (r: Option<Direction>)
    ensures r.None? <==> !qa && !qb
    ensures r.Some? ==> Code(r.value) == (qa, qb, qc, qd)
  {
    if qa then
      if qb then Some(if qc then (if qd then NW else SW) else (if qd then UW else DW))
      else Some(if qc then (if qd then NE else SE) else (if qd then UE else DE))
    else if qb then Some(if qc then (if qd then UN else DN) else (if qd then US else DS))
    else None
  }

  lemma DecodeCode(d: Direction)
    ensures Decode(Code(d).0, Code(d).1, Code(d).2, Code(d).3) == Some(d)
  {
  }

  /** The integer movement vector of each direction. */
  function Step(d: Direction): Vec
  {
    match d
    case NE => Vec(1, 1, 0)
    case NW => Vec(-1, 1, 0)
    case SE => Vec(1, -1, 0)
    case SW => Vec(-1, -1, 0)
    case UN => Vec(0, 1, 1)
    case US => Vec(0, -1, 1)
    case DN => Vec(0, 1, -1)
    case DS => Vec(0, -1, -1)
    case UE => Vec(1, 0, 1)
    case UW => Vec(-1, 0, 1)
    case DE => Vec(1, 0, -1)
    case DW => Vec(-1, 0, -1)
  }

  /** What the predicates count for a step: its vector, or no movement for a code that is no direction. */
  function StepOf(r: Option<Direction>): Vec
  {
    match r
    case Some(d) => Step(d)
    case None => Origin
  }

  /** Two residues are in contact when one lattice move separates them. */
  predicate IsMove(v: Vec)
  {
    exists d: Direction :: Step(d) == v
  }

  /** One coordinate is unchanged and the other two change by one. */
  predicate TwoUnits(v: Vec)
  {
    (v.x == 0 && (v.y == 1 || v.y == -1) && (v.z == 1 || v.z == -1))
    || (v.y == 0 && (v.x == 1 || v.x == -1) && (v.z == 1 || v.z == -1))
    || (v.z == 0 && (v.x == 1 || v.x == -1) && (v.y == 1 || v.y == -1))
  }

  /** The twelve moves are exactly the vectors with one zero and two unit coordinates. */
  lemma IsMoveComponents(v: Vec)
    ensures IsMove(v) <==> TwoUnits(v)
  {
    if TwoUnits(v) {
      if v.x == 0 {
        assert v == Step(if v.y == 1 then (if v.z == 1 then UN else DN) else (if v.z == 1 then US else DS));
      } else if v.y == 0 {
        assert v == Step(if v.x == 1 then (if v.z == 1 then UE else DE) else (if v.z == 1 then UW else DW));
      } else {
        assert v == Step(if v.x == 1 then (if v.y == 1 then NE else SE) else (if v.y == 1 then NW else SW));
      }
    }
  }

  /** The walk an assignment encodes. */
  function Moves(b: Assignment): nat -> Vec
  {
    (t: nat) => StepOf(Decode(b(t, 0), b(t, 1), b(t, 2), b(t, 3)))
  }

  /** Steps 0 .. n - 2 of a chain of n residues all encode a direction. */
  ghost predicate ValidSteps(b: Assignment, n: nat)
  {
    forall t: nat :: t + 1 < n ==> b(t, 0) || b(t, 1)
  }

  /** A fold: every step is a direction and no two residues share a site. */
  ghost predicate IsFold(b: Assignment, n: nat)
  {
    ValidSteps(b, n) && SelfAvoiding(Moves(b), n)
  }

  /** Every step is no movement or one of the twelve moves, so each coordinate changes by at most one. */
  lemma MovesShape(b: Assignment)
    ensures forall t: nat :: Moves(b)(t) == Origin || TwoUnits(Moves(b)(t))
    ensures UnitSteps(Moves(b))
  {
    forall t: nat
      ensures Moves(b)(t) == Origin || TwoUnits(Moves(b)(t))
      ensures -1 <= Moves(b)(t).x <= 1 && -1 <= Moves(b)(t).y <= 1 && -1 <= Moves(b)(t).z <= 1
    {
      var r := Decode(b(t, 0), b(t, 1), b(t, 2), b(t, 3));
      assert Moves(b)(t) == StepOf(r);
    }
  }

  /** Step t is no movement or one of the twelve moves. */
  lemma MoveShape(b: Assignment, t: nat, m: Vec)
    requires m == Moves(b)(t)
    ensures m == Origin || TwoUnits(m)
  {
    MovesShape(b);
  }

  /** A step that encodes a direction moves. */
  lemma ValidMoves(b: Assignment, n: nat)
    requires ValidSteps(b, n)
    ensures NonZeroSteps(Moves(b), n)
  {
    forall t: nat | t + 1 < n
      ensures Moves(b)(t) != Origin
    {
      var r := Decode(b(t, 0), b(t, 1), b(t, 2), b(t, 3));
      assert r.Some? && Moves(b)(t) == Step(r.value);
    }
  }

  // ---------------------------------------------------------------- pinned bits

  /** `set_default`: q_0 = 1011 and q_1 = 1xx1. */
  const Presets: Pins := map[(0, 0) := true, (0, 1) := false, (0, 2) := true, (0, 3) := true, (1, 0) := true, (1, 3) := true]

  /** The pins fix step 0 to NE and step 1 to NE, NW, UE or UW ... */
  lemma PresetsFixStart(a: Assignment)
    ensures var e := Effective(Presets, a);
      Decode(e(0, 0), e(0, 1), e(0, 2), e(0, 3)) == Some(NE)
      && Decode(e(1, 0), e(1, 1), e(1, 2), e(1, 3)) in {Some(NE), Some(NW), Some(UE), Some(UW)}
  {
  }

  /** ... and lose no walk that already starts that way. */
  lemma PresetsKeepCanonicalWalks(b: Assignment)
    requires Decode(b(0, 0), b(0, 1), b(0, 2), b(0, 3)) == Some(NE)
    requires Decode(b(1, 0), b(1, 1), b(1, 2), b(1, 3)) in {Some(NE), Some(NW), Some(UE), Some(UW)}
    ensures forall t: nat, i: nat :: Effective(Presets, b)(t, i) == b(t, i)
  {
  }

  // ---------------------------------------------------------------- direction predicates

  function DxPlus(q: Table, t: nat): Expr
  {
    And(q(t, 0), Not(q(t, 1)))
  }

  function DxMinus(q: Table, t: nat): Expr
  {
    And(q(t, 0), q(t, 1))
  }

  function DyPlus(q: Table, t: nat): Expr
  {
    Or(And(q(t, 0), And(q(t, 2), q(t, 3))), And(Not(q(t, 0)), And(q(t, 1), q(t, 2))))
  }

  function DyMinus(q: Table, t: nat): Expr
  {
    Or(And(q(t, 0), And(q(t, 2), Not(q(t, 3)))), And(Not(q(t, 0)), And(q(t, 1), Not(q(t, 2)))))
  }

  function DzPlus(q: Table, t: nat): Expr
  {
    Or(And(q(t, 0), And(Not(q(t, 2)), q(t, 3))), And(Not(q(t, 0)), And(q(t, 1), q(t, 3))))
  }

  function DzMinus(q: Table, t: nat): Expr
  {
    Or(And(q(t, 0), And(Not(q(t, 2)), Not(q(t, 3)))), And(Not(q(t, 0)), And(q(t, 1), Not(q(t, 3)))))
  }

  /** On the bits alone: each predicate's formula is true exactly when the step moves its way along its axis. */
  lemma PredicateBits(qa: bool, qb: bool, qc: bool, qd: bool)
    ensures var v := StepOf(Decode(qa, qb, qc, qd));
      && (qa && !qb <==> v.x == 1) && (qa && qb <==> v.x == -1)
      && ((qa && qc && qd) || (!qa && qb && qc) <==> v.y == 1)
      && ((qa && qc && !qd) || (!qa && qb && !qc) <==> v.y == -1)
      && ((qa && !qc && qd) || (!qa && qb && qd) <==> v.z == 1)
      && ((qa && !qc && !qd) || (!qa && qb && !qd) <==> v.z == -1)
  {
  }

  /** A two-way Or of three-way Ands, as the y and z predicates are written. */
  lemma EvalOrOfAnd3(x1: Expr, y1: Expr, z1: Expr, x2: Expr, y2: Expr, z2: Expr, a: Assignment)
    ensures Eval(Or(And(x1, And(y1, z1)), And(x2, And(y2, z2))), a)
        == ((Eval(x1, a) && Eval(y1, a) && Eval(z1, a)) || (Eval(x2, a) && Eval(y2, a) && Eval(z2, a)))
  {
    EvalAnd3(x1, y1, z1, a);
    EvalAnd3(x2, y2, z2, a);
  }

  /** Each predicate recognises exactly the steps that move its way along its axis. */
  lemma PredicatesMatchTable(q: Table, a: Assignment, b: Assignment, t: nat)
    requires Reflects(q, a, b)
    ensures var v := Moves(b)(t);
      && (Eval(DxPlus(q, t), a) <==> v.x == 1) && (Eval(DxMinus(q, t), a) <==> v.x == -1)
      && (Eval(DyPlus(q, t), a) <==> v.y == 1) && (Eval(DyMinus(q, t), a) <==> v.y == -1)
      && (Eval(DzPlus(q, t), a) <==> v.z == 1) && (Eval(DzMinus(q, t), a) <==> v.z == -1)
  {
    var w, x, y, z := q(t, 0), q(t, 1), q(t, 2), q(t, 3);
    assert Eval(w, a) == b(t, 0) && Eval(x, a) == b(t, 1) && Eval(y, a) == b(t, 2) && Eval(z, a) == b(t, 3);
    PredicateBits(b(t, 0), b(t, 1), b(t, 2), b(t, 3));
    EvalOrOfAnd3(w, y, z, Not(w), x, y, a);
    EvalOrOfAnd3(w, y, Not(z), Not(w), x, Not(y), a);
    EvalOrOfAnd3(w, Not(y), z, Not(w), x, z, a);
    EvalOrOfAnd3(w, Not(y), Not(z), Not(w), x, Not(z), a);
  }

  function XFamily(q: Table): (f: Family)
    ensures NonEmpty(f) && |f.plus| == 1 && |f.minus| == 1 && f.axis == X
  {
    Family(X, [(t: nat) => DxPlus(q, t)], [(t: nat) => DxMinus(q, t)])
  }

  function YFamily(q: Table): (f: Family)
    ensures NonEmpty(f) && |f.plus| == 1 && |f.minus| == 1 && f.axis == Y
  {
    Family(Y, [(t: nat) => DyPlus(q, t)], [(t: nat) => DyMinus(q, t)])
  }

  function ZFamily(q: Table): (f: Family)
    ensures NonEmpty(f) && |f.plus| == 1 && |f.minus| == 1 && f.axis == Z
  {
    Family(Z, [(t: nat) => DzPlus(q, t)], [(t: nat) => DzMinus(q, t)])
  }

  /** The x, y and z families, in the order each bit's overlap flag chains them. */
  function Axes(q: Table): (fams: seq<Family>)
    ensures Axes3(fams)
  {
    [XFamily(q), YFamily(q), ZFamily(q)]
  }

  /** The hit counts read the integer vector: plus hits minus minus hits is the step's coordinate. */
  lemma FamiliesRead(q: Table, a: Assignment, b: Assignment)
    requires Reflects(q, a, b)
    ensures ReadAll(Axes(q), a, Moves(b))
  {
    var x, y, z := XFamily(q), YFamily(q), ZFamily(q);
    forall t: nat
      ensures Count(Row(x.plus, t), a) - Count(Row(x.minus, t), a) == Moves(b)(t).x
      ensures Count(Row(y.plus, t), a) - Count(Row(y.minus, t), a) == Moves(b)(t).y
      ensures Count(Row(z.plus, t), a) - Count(Row(z.minus, t), a) == Moves(b)(t).z
    {
      CountOne(x.plus[0], t, a);
      CountOne(x.minus[0], t, a);
      CountOne(y.plus[0], t, a);
      CountOne(y.minus[0], t, a);
      CountOne(z.plus[0], t, a);
      CountOne(z.minus[0], t, a);
      PredicatesMatchTable(q, a, b, t);
      MovesShape(b);
    }
    assert Axes(q)[0] == x && Axes(q)[1] == y && Axes(q)[2] == z;
  }

  // ---------------------------------------------------------------- redundancy

  /** Step t's code is 00xx, no direction. */
  function Unused(q: Table, t: nat): Expr
  {
    And(Not(q(t, 0)), Not(q(t, 1)))
  }

  lemma UnusedMeaning(q: Table, a: Assignment, b: Assignment, t: nat)
    requires Reflects(q, a, b)
    ensures Eval(Unused(q, t), a) <==> !b(t, 0) && !b(t, 1)
  {
    assert Eval(q(t, 0), a) == b(t, 0) && Eval(q(t, 1), a) == b(t, 1);
  }

  function RedundancyClauses(q: Table): nat -> seq<Expr>
  {
    (t: nat) => [Unused(q, t)]
  }

  /** `create_redundancy_constraint`: the Or, seeded with 0, of the unused-code tests of steps 0 .. n - 2. */
  function Redundancy(q: Table, n: nat): Expr
  {
    OrSteps(RedundancyClauses(q), if n < 1 then 0 else n - 1)
  }

  /** The redundancy term holds exactly when some step of the chain encodes no direction. */
  lemma RedundancyMeaning(q: Table, a: Assignment, b: Assignment, n: nat)
    requires Reflects(q, a, b)
    ensures Eval(Redundancy(q, n), a) <==> !ValidSteps(b, n)
  {
    var k := if n < 1 then 0 else n - 1;
    OrStepsMeaning(RedundancyClauses(q), k, a);
    if Eval(Redundancy(q, n), a) {
      var t: nat, j :| t < k && 0 <= j < |RedundancyClauses(q)(t)| && Eval(RedundancyClauses(q)(t)[j], a);
      UnusedMeaning(q, a, b, t);
      assert RedundancyClauses(q)(t)[j] == Unused(q, t);
    }
    if !ValidSteps(b, n) {
      var t: nat :| t + 1 < n && !(b(t, 0) || b(t, 1));
      UnusedMeaning(q, a, b, t);
      assert RedundancyClauses(q)(t)[0] == Unused(q, t);
      assert t < k && Eval(RedundancyClauses(q)(t)[0], a);
    }
  }

  // ---------------------------------------------------------------- backtracking

  /** The predicate reading a move of sign `plus` along an axis. */
  function Moving(q: Table, t: nat, axis: Axis, plus: bool): Expr
  {
    match axis
    case X => if plus then DxPlus(q, t) else DxMinus(q, t)
    case Y => if plus then DyPlus(q, t) else DyMinus(q, t)
    case Z => if plus then DzPlus(q, t) else DzMinus(q, t)
  }

  function Sign(plus: bool): int
  {
    if plus then 1 else -1
  }

  lemma MovingMeaning(q: Table, a: Assignment, b: Assignment, t: nat, axis: Axis, plus: bool)
    requires Reflects(q, a, b)
    ensures Eval(Moving(q, t, axis, plus), a) <==> Component(Moves(b)(t), axis) == Sign(plus)
  {
    PredicatesMatchTable(q, a, b, t);
  }

  /** A reversal pattern: step t moves s1 along axis a1 and s2 along a2, step t + 1 the other way on both. */
  datatype Plane = Plane(a1: Axis, s1: bool, a2: Axis, s2: bool)

  /**
   * The twelve reversal patterns in the written order: x+y+, x-y-, y+z+, y-z-, z+x+, z-x-,
   * x+y-, x-y+, y+z-, y-z+, z+x-, z-x+.
   */
  const Planes: seq<Plane> := [
    Plane(X, true, Y, true), Plane(X, false, Y, false), Plane(Y, true, Z, true), Plane(Y, false, Z, false),
    Plane(Z, true, X, true), Plane(Z, false, X, false), Plane(X, true, Y, false), Plane(X, false, Y, true),
    Plane(Y, true, Z, false), Plane(Y, false, Z, true), Plane(Z, true, X, false), Plane(Z, false, X, true)]

  /** The clause of one pattern, as four nested Ands of the predicates of steps t and t + 1. */
  function Reversal(q: Table, t: nat, p: Plane): Expr
  {
    And(Moving(q, t, p.a1, p.s1), And(Moving(q, t, p.a2, p.s2),
      And(Moving(q, t + 1, p.a1, !p.s1), Moving(q, t + 1, p.a2, !p.s2))))
  }

  /** The two moves follow the pattern. */
  predicate Follows(p: Plane, m1: Vec, m2: Vec)
  {
    Component(m1, p.a1) == Sign(p.s1) && Component(m1, p.a2) == Sign(p.s2)
    && Component(m2, p.a1) == -Sign(p.s1) && Component(m2, p.a2) == -Sign(p.s2)
  }

  lemma ReversalMeaning(q: Table, a: Assignment, b: Assignment, t: nat, p: Plane)
    requires Reflects(q, a, b)
    ensures Eval(Reversal(q, t, p), a) <==> Follows(p, Moves(b)(t), Moves(b)(t + 1))
  {
    var e1, e2 := Moving(q, t, p.a1, p.s1), Moving(q, t, p.a2, p.s2);
    var e3, e4 := Moving(q, t + 1, p.a1, !p.s1), Moving(q, t + 1, p.a2, !p.s2);
    EvalAnd3(e1, e2, And(e3, e4), a);
    MovingMeaning(q, a, b, t, p.a1, p.s1);
    MovingMeaning(q, a, b, t, p.a2, p.s2);
    MovingMeaning(q, a, b, t + 1, p.a1, !p.s1);
    MovingMeaning(q, a, b, t + 1, p.a2, !p.s2);
  }

  /** The reversal clauses of turn t. */
  function Reversals(q: Table, t: nat): (r: seq<Expr>)
    ensures |r| == |Planes|
  {
    seq(|Planes|, j requires 0 <= j < |Planes| => Reversal(q, t, Planes[j]))
  }

  function BackClauses(q: Table): nat -> seq<Expr>
  {
    (t: nat) => Reversals(q, t)
  }

  /** `create_back_constraint`: the Or of the reversal clauses of turns 0 .. n - 3. */
  function Back(q: Table, n: nat): Expr
  {
    OrSteps(BackClauses(q), if n < 2 then 0 else n - 2)
  }

  /** Under a pattern, two moves of the lattice undo each other. */
  lemma FollowsUndoes(p: Plane, m1: Vec, m2: Vec)
    requires p.a1 != p.a2 && Follows(p, m1, m2)
    requires m1 == Origin || TwoUnits(m1)
    requires m2 == Origin || TwoUnits(m2)
    ensures m1 != Origin && m2 == Negate(m1)
  {
    if p.a1 != Z && p.a2 != Z {
      UndoesIn(m1.x, m1.y, m1.z, m2.x, m2.y, m2.z);
    } else if p.a1 != Y && p.a2 != Y {
      UndoesIn(m1.x, m1.z, m1.y, m2.x, m2.z, m2.y);
    } else {
      UndoesIn(m1.y, m1.z, m1.x, m2.y, m2.z, m2.x);
    }
  }

  /** Two moves that are opposite units on two coordinates agree on the third, which is 0. */
  lemma UndoesIn(u1: int, v1: int, w1: int, u2: int, v2: int, w2: int)
    requires (u1 == 1 || u1 == -1) && u2 == -u1 && (v1 == 1 || v1 == -1) && v2 == -v1
    requires (w1 == 0 || (u1 == 0 || v1 == 0)) && (w2 == 0 || (u2 == 0 || v2 == 0))
    ensures w1 == 0 && w2 == -w1
  {
  }

  /** The pattern a move undone by the next one follows. */
  function PlaneOf(m: Vec): (j: nat)
    ensures j < |Planes|
  {
    if m.z == 0 then
      (if m.x == 1 then (if m.y == 1 then 0 else 6) else (if m.y == 1 then 7 else 1))
    else if m.x == 0 then
      (if m.y == 1 then (if m.z == 1 then 2 else 8) else (if m.z == 1 then 9 else 3))
    else
      (if m.z == 1 then (if m.x == 1 then 4 else 10) else (if m.x == 1 then 11 else 5))
  }

  lemma PlaneOfFollows(m1: Vec, m2: Vec)
    requires TwoUnits(m1) && m2 == Negate(m1)
    ensures Follows(Planes[PlaneOf(m1)], m1, m2)
  {
    if m1.z == 0 {
      FlatPlaneFollows(m1, m2, PlaneOf(m1));
    } else if m1.x == 0 {
      SidePlaneFollows(m1, m2, PlaneOf(m1));
    } else {
      FrontPlaneFollows(m1, m2, PlaneOf(m1));
    }
  }

  /** Moves in the xy plane follow patterns 0, 1, 6 and 7. */
  lemma FlatPlaneFollows(m1: Vec, m2: Vec, j: nat)
    requires m1.z == 0 && (m1.x == 1 || m1.x == -1) && (m1.y == 1 || m1.y == -1) && m2 == Negate(m1)
    requires j == (if m1.x == 1 then (if m1.y == 1 then 0 else 6) else (if m1.y == 1 then 7 else 1))
    ensures Follows(Planes[j], m1, m2)
  {
  }

  /** Moves in the yz plane follow patterns 2, 3, 8 and 9. */
  lemma SidePlaneFollows(m1: Vec, m2: Vec, j: nat)
    requires m1.x == 0 && (m1.y == 1 || m1.y == -1) && (m1.z == 1 || m1.z == -1) && m2 == Negate(m1)
    requires j == (if m1.y == 1 then (if m1.z == 1 then 2 else 8) else (if m1.z == 1 then 9 else 3))
    ensures Follows(Planes[j], m1, m2)
  {
  }

  /** Moves in the zx plane follow patterns 4, 5, 10 and 11. */
  lemma FrontPlaneFollows(m1: Vec, m2: Vec, j: nat)
    requires m1.y == 0 && (m1.z == 1 || m1.z == -1) && (m1.x == 1 || m1.x == -1) && m2 == Negate(m1)
    requires j == (if m1.z == 1 then (if m1.x == 1 then 4 else 10) else (if m1.x == 1 then 11 else 5))
    ensures Follows(Planes[j], m1, m2)
  {
  }

  /** Every pattern names two different axes. */
  lemma PlanesDistinct(j: nat)
    requires j < |Planes|
    ensures Planes[j].a1 != Planes[j].a2
  {
  }

  /** A clause of turn t holds exactly when step t moves and step t + 1 undoes it. */
  lemma ReversalsMeaning(q: Table, a: Assignment, b: Assignment, t: nat)
    requires Reflects(q, a, b)
    ensures (exists j :: 0 <= j < |Reversals(q, t)| && Eval(Reversals(q, t)[j], a))
        <==> Moves(b)(t) != Origin && Moves(b)(t + 1) == Negate(Moves(b)(t))
  {
    if exists j :: 0 <= j < |Reversals(q, t)| && Eval(Reversals(q, t)[j], a) {
      var j :| 0 <= j < |Reversals(q, t)| && Eval(Reversals(q, t)[j], a);
      ReversalUndoes(q, a, b, t, j);
    }
    if Moves(b)(t) != Origin && Moves(b)(t + 1) == Negate(Moves(b)(t)) {
      UndoingReversal(q, a, b, t);
    }
  }

  /** A clause that holds means step t + 1 undoes step t. */
  lemma ReversalUndoes(q: Table, a: Assignment, b: Assignment, t: nat, j: nat)
    requires Reflects(q, a, b) && j < |Planes| && Eval(Reversals(q, t)[j], a)
    ensures Moves(b)(t) != Origin && Moves(b)(t + 1) == Negate(Moves(b)(t))
  {
    MovesShape(b);
    assert Reversals(q, t)[j] == Reversal(q, t, Planes[j]);
    ReversalMeaning(q, a, b, t, Planes[j]);
    PlanesDistinct(j);
    FollowsUndoes(Planes[j], Moves(b)(t), Moves(b)(t + 1));
  }

  /** A step t + 1 that undoes step t makes a clause hold. */
  lemma UndoingReversal(q: Table, a: Assignment, b: Assignment, t: nat)
    requires Reflects(q, a, b) && Moves(b)(t) != Origin && Moves(b)(t + 1) == Negate(Moves(b)(t))
    ensures exists j :: 0 <= j < |Reversals(q, t)| && Eval(Reversals(q, t)[j], a)
  {
    var m1, m2 := Moves(b)(t), Moves(b)(t + 1);
    MoveShape(b, t, m1);
    var j := PlaneOf(m1);
    PlaneOfFollows(m1, m2);
    ReversalMeaning(q, a, b, t, Planes[j]);
    ReversalAt(q, t, j);
  }

  /** Clause j of turn t is the reversal of pattern j. */
  lemma ReversalAt(q: Table, t: nat, j: nat)
    requires j < |Planes|
    ensures j < |Reversals(q, t)| && Reversals(q, t)[j] == Reversal(q, t, Planes[j])
  {
  }

  /** On a chain whose steps all encode directions, the backtrack term holds exactly when some step undoes the one before. */
  lemma BackMeaning(q: Table, a: Assignment, b: Assignment, n: nat)
    requires Reflects(q, a, b) && ValidSteps(b, n)
    ensures Eval(Back(q, n), a) <==> Backtracks(Moves(b), n)
  {
    var k := if n < 2 then 0 else n - 2;
    OrStepsMeaning(BackClauses(q), k, a);
    if Eval(Back(q, n), a) {
      var t: nat, j :| t < k && 0 <= j < |BackClauses(q)(t)| && Eval(BackClauses(q)(t)[j], a);
      ReversalsMeaning(q, a, b, t);
      assert t + 2 < n;
    }
    if Backtracks(Moves(b), n) {
      var t: nat :| t + 2 < n && Moves(b)(t + 1) == Negate(Moves(b)(t));
      ValidMoves(b, n);
      ReversalsMeaning(q, a, b, t);
      var j :| 0 <= j < |Reversals(q, t)| && Eval(Reversals(q, t)[j], a);
      assert t < k && Eval(BackClauses(q)(t)[j], a);
    }
  }

  // ---------------------------------------------------------------- the three constraints together

  /**
   * With the safe widths, the redundancy term, the overlap term over pairs three or more
   * apart and the backtrack term together hold exactly when the walk is not a fold: every
   * step is a direction, neighbours never meet, and residues two apart meet only by
   * backtracking.
   */
  lemma ConstraintsExact(q: Table, a: Assignment, b: Assignment, n: nat)
    requires Reflects(q, a, b)
    ensures Eval(Redundancy(q, n), a) || Eval(Overlap(Axes(q), Safe, n, 3), a) || Eval(Back(q, n), a)
        <==> !IsFold(b, n)
  {
    RedundancyMeaning(q, a, b, n);
    if ValidSteps(b, n) {
      MovesShape(b);
      FamiliesRead(q, a, b);
      OverlapExact(Axes(q), a, Moves(b), n, 3);
      BackMeaning(q, a, b, n);
      ValidMoves(b, n);
      SelfAvoidingSplit(Moves(b), n);
    }
  }

  /** As written the three terms still never let a walk that is not a fold through. */
  lemma ConstraintsCatch(q: Table, a: Assignment, b: Assignment, n: nat)
    requires Reflects(q, a, b) && !IsFold(b, n)
    ensures Eval(Redundancy(q, n), a) || Eval(Overlap(Axes(q), AsWritten, n, 3), a) || Eval(Back(q, n), a)
  {
    RedundancyMeaning(q, a, b, n);
    if ValidSteps(b, n) {
      BackMeaning(q, a, b, n);
      ValidMoves(b, n);
      SelfAvoidingSplit(Moves(b), n);
      if !Backtracks(Moves(b), n) {
        FamiliesRead(q, a, b);
        OverlapCatches(Axes(q), a, Moves(b), n, 3);
      }
    }
  }

  // ---------------------------------------------------------------- adjacency

  /** The indicator's shape: (x equal, y and z off by one) or (y equal, x and z off) or (z equal, x and y off). */
  function ThreeCases(xe: Expr, ye: Expr, ze: Expr, xo: Expr, yo: Expr, zo: Expr): Expr
  {
    Or(And(xe, And(yo, zo)), Or(And(ye, And(xo, zo)), And(ze, And(xo, yo))))
  }

  lemma ThreeCasesEval(xe: Expr, ye: Expr, ze: Expr, xo: Expr, yo: Expr, zo: Expr, a: Assignment)
    ensures Eval(ThreeCases(xe, ye, ze, xo, yo, zo), a)
        == ((Eval(xe, a) && Eval(yo, a) && Eval(zo, a)) || (Eval(ye, a) && Eval(xo, a) && Eval(zo, a))
           || (Eval(ze, a) && Eval(xo, a) && Eval(yo, a)))
  {
    EvalAnd3(xe, yo, zo, a);
    EvalAnd3(ye, xo, zo, a);
    EvalAnd3(ze, xo, yo, a);
  }

  /** The contact test of the pair a1 < a2, equalities on we bits and offsets on wo bits. */
  function Contact(q: Table, a1: nat, a2: nat, we: nat, wo: nat): Expr
    requires ContactFits(a1, a2, we, wo)
  {
    var fs := Axes(q);
    ThreeCases(Equal(fs, 0, a1, a2, we, wo), Equal(fs, 1, a1, a2, we, wo), Equal(fs, 2, a1, a2, we, wo),
      OffByOne(fs, 0, a1, a2, we, wo), OffByOne(fs, 1, a1, a2, we, wo), OffByOne(fs, 2, a1, a2, we, wo))
  }

  /** One coordinate agrees and the other two are off by one, as the six comparisons of fs read it. */
  predicate CasesHold(fs: seq<Family>, a1: nat, a2: nat, we: nat, wo: nat, a: Assignment)
    requires Axes3(fs) && ContactFits(a1, a2, we, wo)
  {
    (Eval(Equal(fs, 0, a1, a2, we, wo), a) && Eval(OffByOne(fs, 1, a1, a2, we, wo), a) && Eval(OffByOne(fs, 2, a1, a2, we, wo), a))
    || (Eval(Equal(fs, 1, a1, a2, we, wo), a) && Eval(OffByOne(fs, 0, a1, a2, we, wo), a) && Eval(OffByOne(fs, 2, a1, a2, we, wo), a))
    || (Eval(Equal(fs, 2, a1, a2, we, wo), a) && Eval(OffByOne(fs, 0, a1, a2, we, wo), a) && Eval(OffByOne(fs, 1, a1, a2, we, wo), a))
  }

  /** The contact test, read through its six comparisons. */
  lemma ContactRead(q: Table, a1: nat, a2: nat, we: nat, wo: nat, a: Assignment)
    requires ContactFits(a1, a2, we, wo)
    ensures Eval(Contact(q, a1, a2, we, wo), a) == CasesHold(Axes(q), a1, a2, we, wo, a)
  {
    var fs := Axes(q);
    ThreeCasesEval(Equal(fs, 0, a1, a2, we, wo), Equal(fs, 1, a1, a2, we, wo), Equal(fs, 2, a1, a2, we, wo),
      OffByOne(fs, 0, a1, a2, we, wo), OffByOne(fs, 1, a1, a2, we, wo), OffByOne(fs, 2, a1, a2, we, wo), a);
  }

  /** With room for every value, the comparisons hold exactly when the change has one zero and two unit coordinates. */
  lemma CasesExact(fs: seq<Family>, a: Assignment, m: nat -> Vec, a1: nat, a2: nat, we: nat, wo: nat)
    requires Axes3(fs) && ContactFits(a1, a2, we, wo) && ContactRoom(a2 - a1, we, wo)
    requires ReadAll(fs, a, m) && UnitSteps(m)
    ensures CasesHold(fs, a1, a2, we, wo, a) <==> TwoUnits(Disp(m, a1, a2))
  {
    TestsExact(fs, 0, a1, a2, we, wo, a, m);
    TestsExact(fs, 1, a1, a2, we, wo, a, m);
    TestsExact(fs, 2, a1, a2, we, wo, a, m);
  }

  /** Whatever the widths, the comparisons hold on a change with one zero and two unit coordinates. */
  lemma CasesCatch(fs: seq<Family>, a: Assignment, m: nat -> Vec, a1: nat, a2: nat, we: nat, wo: nat)
    requires Axes3(fs) && ContactFits(a1, a2, we, wo) && ReadAll(fs, a, m)
    requires TwoUnits(Disp(m, a1, a2))
    ensures CasesHold(fs, a1, a2, we, wo, a)
  {
    var v := Disp(m, a1, a2);
    if v.x == 0 {
      EqualCatches(fs, 0, a1, a2, we, wo, a, m);
      OffByOneCatches(fs, 1, a1, a2, we, wo, a, m);
      OffByOneCatches(fs, 2, a1, a2, we, wo, a, m);
    } else if v.y == 0 {
      EqualCatches(fs, 1, a1, a2, we, wo, a, m);
      OffByOneCatches(fs, 0, a1, a2, we, wo, a, m);
      OffByOneCatches(fs, 2, a1, a2, we, wo, a, m);
    } else {
      EqualCatches(fs, 2, a1, a2, we, wo, a, m);
      OffByOneCatches(fs, 0, a1, a2, we, wo, a, m);
      OffByOneCatches(fs, 1, a1, a2, we, wo, a, m);
    }
  }

  /** With room for every value, the contact test holds exactly when the pair is one move apart. */
  lemma ContactExact(q: Table, a: Assignment, b: Assignment, a1: nat, a2: nat, we: nat, wo: nat)
    requires ContactFits(a1, a2, we, wo) && ContactRoom(a2 - a1, we, wo) && Reflects(q, a, b)
    ensures Eval(Contact(q, a1, a2, we, wo), a) <==> IsMove(Disp(Moves(b), a1, a2))
  {
    FamiliesRead(q, a, b);
    MovesShape(b);
    ContactRead(q, a1, a2, we, wo, a);
    CasesExact(Axes(q), a, Moves(b), a1, a2, we, wo);
    IsMoveComponents(Disp(Moves(b), a1, a2));
  }

  /** Whatever the widths, the contact test never misses a pair one move apart. */
  lemma ContactCatches(q: Table, a: Assignment, b: Assignment, a1: nat, a2: nat, we: nat, wo: nat)
    requires ContactFits(a1, a2, we, wo) && Reflects(q, a, b)
    requires IsMove(Disp(Moves(b), a1, a2))
    ensures Eval(Contact(q, a1, a2, we, wo), a)
  {
    FamiliesRead(q, a, b);
    ContactRead(q, a1, a2, we, wo, a);
    IsMoveComponents(Disp(Moves(b), a1, a2));
    CasesCatch(Axes(q), a, Moves(b), a1, a2, we, wo);
  }

  /** `adjacency_indicator` of residues a1 + 2 <= a2, with the sizing's widths. */
  function Adjacency(q: Table, sizing: Sizing, a1: nat, a2: nat): Expr
  {
    if a2 < a1 + 2 then Num(false)
    else Contact(q, a1, a2, ContactWidths(sizing, a2 - a1).0, ContactWidths(sizing, a2 - a1).1)
  }

  /** Residues i and j of the walk b are in contact. */
  function Touching(b: Assignment): (nat, nat) -> bool
  {
    (i: nat, j: nat) => IsMove(Minus(Position(Moves(b), j), Position(Moves(b), i)))
  }

  /** With the safe widths the indicator holds exactly when the two residues are in contact. */
  lemma AdjacencyExact(q: Table, a: Assignment, b: Assignment, a1: nat, a2: nat)
    requires a1 + 2 <= a2 && Reflects(q, a, b)
    ensures Eval(Adjacency(q, Safe, a1, a2), a) <==> Touching(b)(a1, a2)
  {
    var ws := ContactWidths(Safe, a2 - a1);
    ContactExact(q, a, b, a1, a2, ws.0, ws.1);
    DispIsPositionDifference(Moves(b), a1, a2);
  }

  /** As written the indicator never misses a contact. */
  lemma AdjacencyCatches(q: Table, a: Assignment, b: Assignment, a1: nat, a2: nat)
    requires a1 + 2 <= a2 && Reflects(q, a, b) && Touching(b)(a1, a2)
    ensures Eval(Adjacency(q, AsWritten, a1, a2), a)
  {
    var ws := ContactWidths(AsWritten, a2 - a1);
    DispIsPositionDifference(Moves(b), a1, a2);
    ContactCatches(q, a, b, a1, a2, ws.0, ws.1);
  }

  // ---------------------------------------------------------------- the bit counts as written

  /** A walk whose every step is 1011, north-east. */
  ghost predicate StraightNE(b: Assignment)
  {
    forall t: nat :: b(t, 0) && !b(t, 1) && b(t, 2) && b(t, 3)
  }

  /** The straight north-east walk as one assignment; it agrees with the pins. */
  function AllNE(): Assignment
  {
    (t: nat, i: nat) => i != 1
  }

  lemma AllNEWitness()
    ensures StraightNE(AllNE()) && Reflects(Pinned(Presets), AllNE(), AllNE())
  {
  }

  lemma NESteps(b: Assignment)
    requires StraightNE(b)
    ensures forall t: nat :: Moves(b)(t) == Vec(1, 1, 0)
  {
    forall t: nat
      ensures Moves(b)(t) == Vec(1, 1, 0)
    {
      assert b(t, 0) && !b(t, 1) && b(t, 2) && b(t, 3);
    }
  }

  lemma NEDisp(b: Assignment, i: nat, j: nat)
    requires StraightNE(b) && i <= j
    ensures Disp(Moves(b), i, j) == Vec(j - i, j - i, 0)
  {
    NESteps(b);
    LineDisp(Moves(b), Vec(1, 1, 0), i, j);
  }

  /** The straight north-east walk is a fold of every length. */
  lemma NEIsFold(b: Assignment, n: nat)
    requires StraightNE(b)
    ensures IsFold(b, n)
  {
    forall i: nat, j: nat | i + 1 <= j < n
      ensures Position(Moves(b), i) != Position(Moves(b), j)
    {
      NEDisp(b, 0, i);
      NEDisp(b, 0, j);
      DispIsPositionDifference(Moves(b), 0, i);
      DispIsPositionDifference(Moves(b), 0, j);
    }
  }

  /**
   * As written, on a straight north-east walk of n >= 5 residues the last residue and the one
   * four before it are flagged as overlapping: their x and y counts differ by 4, which two
   * bits cannot tell from 0. The overlap term penalises a fold.
   */
  lemma OverlapFalseAlarm(q: Table, a: Assignment, b: Assignment, n: nat)
    requires Reflects(q, a, b) && StraightNE(b) && n >= 5
    ensures IsFold(b, n)
    ensures Eval(Overlap(Axes(q), AsWritten, n, 3), a)
  {
    var a1, a2 := n - 5, n - 1;
    NEDisp(b, a1, a2);
    WrittenWidths();
    FamiliesRead(q, a, b);
    OverlapWraps(Axes(q), a, Moves(b), n, 3, a1, a2);
    NEIsFold(b, n);
  }

  /**
   * As written, any two residues three sites apart on a straight north-east walk are
   * reported in contact: z agrees, and 3 + 1 is 0 on the two bits the x and y offset tests use.
   */
  lemma AdjacencyFalseContact(q: Table, a: Assignment, b: Assignment, a1: nat, a2: nat)
    requires Reflects(q, a, b) && StraightNE(b) && a2 == a1 + 3
    ensures !Touching(b)(a1, a2)
    ensures Eval(Adjacency(q, AsWritten, a1, a2), a)
  {
    var fs, v := Axes(q), Disp(Moves(b), a1, a2);
    NEDisp(b, a1, a2);
    IsMoveComponents(v);
    DispIsPositionDifference(Moves(b), a1, a2);
    WrittenWidths();
    FamiliesRead(q, a, b);
    assert Component(v, fs[0].axis) == 3 && Component(v, fs[1].axis) == 3 && Component(v, fs[2].axis) == 0;
    EqualWraps(fs, 2, a1, a2, 2, 2, a, Moves(b));
    OffByOneWraps(fs, 0, a1, a2, 2, 2, a, Moves(b));
    OffByOneWraps(fs, 1, a1, a2, 2, 2, a, Moves(b));
    ContactRead(q, a1, a2, 2, 2, a);
    assert Adjacency(q, AsWritten, a1, a2) == Contact(q, a1, a2, 2, 2);
  }
}
