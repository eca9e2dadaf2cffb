/**
 * The 8-direction lattice, three bits (q_a, q_b, q_c) per step, with the integer vectors
 * the builders count: N = 111 (0, 2, 0), S = 000 (0, -2, 0), NE = 011 (1, 1, 0),
 * SW = 100 (-1, -1, 0), NW = 101 (-1, 1, 0), SE = 010 (1, -1, 0), U = 001 (0, 0, 1),
 * D = 110 (0, 0, -1). The y axis is read by two predicates on each side, so a N or S step
 * counts twice. The pyqubo and the sympy builders build the same formulas; sympy flattens
 * nested And and Or, so its n-ary predicates are these ones.
 */
module Hex8 {
  import opened Numeric
  import opened BoolExpr
  import opened BitOpsQubo
  import opened Assembly
  import opened AxisTests
  import opened Geometry

  datatype Direction = N | S | NE | SW | NW | SE | U | D

  /** The code (q_a, q_b, q_c) of each direction. */
  function Code(d: Direction): (bool, bool, bool)
  {
    match d
    case N => (true, true, true)
    case S => (false, false, false)
    case NE => (false, true, true)
    case SW => (true, false, false)
    case NW => (true, false, true)
    case SE => (false, true, false)
    case U => (false, false, true)
    case D => (true, true, false)
  }

  /** The direction a step's three bits encode; all eight codes are used. */
  function Decode(qa: bool, qb: bool, qc: bool): (d: Direction)
    ensures Code(d) == (qa, qb, qc)
  {
    if qa then
      if qb then (if qc then N else D) else (if qc then NW else SW)
    else
      if qb then (if qc then NE else SE) else (if qc then U else S)
  }

  lemma DecodeCode(d: Direction)
    ensures Decode(Code(d).0, Code(d).1, Code(d).2) == d
  {
  }

  /** The integer movement vector of each direction. */
  function Step(d: Direction): Vec
  {
    match d
    case N => Vec(0, 2, 0)
    case S => Vec(0, -2, 0)
    case NE => Vec(1, 1, 0)
    case SW => Vec(-1, -1, 0)
    case NW => Vec(-1, 1, 0)
    case SE => Vec(1, -1, 0)
    case U => Vec(0, 0, 1)
    case D => Vec(0, 0, -1)
  }

  /** Two residues are in contact when one lattice move separates them. */
  predicate IsMove(v: Vec)
  {
    exists d: Direction :: Step(d) == v
  }

  /** The walk an assignment encodes. */
  function Moves(b: Assignment): nat -> Vec
  {
    (t: nat) => Step(Decode(b(t, 0), b(t, 1), b(t, 2)))
  }

  /** No step stands still; x and z change by at most one per step, y by at most two. */
  lemma MovesShape(b: Assignment)
    ensures NonZeroMoves(Moves(b))
    ensures Bounded(Moves(b), X, 1) && Bounded(Moves(b), Y, 2) && Bounded(Moves(b), Z, 1)
  {
    forall t: nat
      ensures Moves(b)(t) != Origin
      ensures -1 <= Moves(b)(t).x <= 1 && -2 <= Moves(b)(t).y <= 2 && -1 <= Moves(b)(t).z <= 1
    {
      var d := Decode(b(t, 0), b(t, 1), b(t, 2));
      assert Moves(b)(t) == Step(d);
    }
  }

  // ---------------------------------------------------------------- pinned bits

  /** `set_default`: q_0a = 0 and q_0b = 0. */
  const Presets: Pins := map[(0, 0) := false, (0, 1) := false]

  /** The pins fix step 0 to S or U ... */
  lemma PresetsFixStart(a: Assignment)
    ensures Decode(Effective(Presets, a)(0, 0), Effective(Presets, a)(0, 1), Effective(Presets, a)(0, 2)) in {S, U}
  {
  }

  /** ... and lose no walk that already starts that way. */
  lemma PresetsKeepCanonicalWalks(b: Assignment)
    requires Decode(b(0, 0), b(0, 1), b(0, 2)) in {S, U}
    ensures forall t: nat, i: nat :: Effective(Presets, b)(t, i) == b(t, i)
  {
    assert Code(Decode(b(0, 0), b(0, 1), b(0, 2))) == (b(0, 0), b(0, 1), b(0, 2));
  }

  // ---------------------------------------------------------------- direction predicates

  function DxPlus(q: Table, t: nat): Expr
  {
    And(Not(q(t, 0)), q(t, 1))
  }

  function DxMinus(q: Table, t: nat): Expr
  {
    And(q(t, 0), Not(q(t, 1)))
  }

  function DyPlus(q: Table, t: nat): Expr
  {
    Or(And(q(t, 0), And(q(t, 1), q(t, 2))),
       Or(And(Not(q(t, 0)), And(q(t, 1), q(t, 2))),
          And(q(t, 0), And(Not(q(t, 1)), q(t, 2)))))
  }

  function DyMinus(q: Table, t: nat): Expr
  {
    Or(And(Not(q(t, 0)), And(Not(q(t, 1)), Not(q(t, 2)))),
       Or(And(q(t, 0), And(Not(q(t, 1)), Not(q(t, 2)))),
          And(Not(q(t, 0)), And(q(t, 1), Not(q(t, 2))))))
  }

  function DyPlusPlus(q: Table, t: nat): Expr
  {
    And(q(t, 0), And(q(t, 1), q(t, 2)))
  }

  function DyMinusMinus(q: Table, t: nat): Expr
  {
    And(Not(q(t, 0)), And(Not(q(t, 1)), Not(q(t, 2))))
  }

  function DzPlus(q: Table, t: nat): Expr
  {
    And(Not(q(t, 0)), And(Not(q(t, 1)), q(t, 2)))
  }

  function DzMinus(q: Table, t: nat): Expr
  {
    And(q(t, 0), And(q(t, 1), Not(q(t, 2))))
  }

  /** Each predicate recognises exactly the directions that move its way along its axis. */
  lemma PredicatesMatchTable(q: Table, a: Assignment, b: Assignment, t: nat)
    requires Reflects(q, a, b)
    ensures var d := Decode(b(t, 0), b(t, 1), b(t, 2));
      && (Eval(DxPlus(q, t), a) <==> d in {NE, SE})
      && (Eval(DxMinus(q, t), a) <==> d in {NW, SW})
      && (Eval(DyPlus(q, t), a) <==> d in {N, NE, NW})
      && (Eval(DyMinus(q, t), a) <==> d in {S, SW, SE})
      && (Eval(DyPlusPlus(q, t), a) <==> d == N)
      && (Eval(DyMinusMinus(q, t), a) <==> d == S)
      && (Eval(DzPlus(q, t), a) <==> d == U)
      && (Eval(DzMinus(q, t), a) <==> d == D)
  {
    var qa, qb, qc := b(t, 0), b(t, 1), b(t, 2);
    var x, y, z := q(t, 0), q(t, 1), q(t, 2);
    assert Eval(x, a) == qa && Eval(y, a) == qb && Eval(z, a) == qc;
    EvalAnd3(x, y, z, a);
    EvalAnd3(Not(x), Not(y), Not(z), a);
    EvalAnd3(Not(x), Not(y), z, a);
    EvalAnd3(x, y, Not(z), a);
    YPredicatesMatch(q, a, b, t);
  }

  lemma YPredicatesMatch(q: Table, a: Assignment, b: Assignment, t: nat)
    requires Reflects(q, a, b)
    ensures var d := Decode(b(t, 0), b(t, 1), b(t, 2));
      && (Eval(DyPlus(q, t), a) <==> d in {N, NE, NW})
      && (Eval(DyMinus(q, t), a) <==> d in {S, SW, SE})
  {
    var x, y, z := q(t, 0), q(t, 1), q(t, 2);
    assert Eval(x, a) == b(t, 0) && Eval(y, a) == b(t, 1) && Eval(z, a) == b(t, 2);
    EvalAnd3(x, y, z, a);
    EvalAnd3(Not(x), y, z, a);
    EvalAnd3(x, Not(y), z, a);
    EvalAnd3(Not(x), Not(y), Not(z), a);
    EvalAnd3(x, Not(y), Not(z), a);
    EvalAnd3(Not(x), y, Not(z), a);
  }

  function XFamily(q: Table): (f: Family)
    ensures NonEmpty(f) && |f.plus| == 1 && |f.minus| == 1 && f.axis == X
  {
    Family(X, [(t: nat) => DxPlus(q, t)], [(t: nat) => DxMinus(q, t)])
  }

  /** `sum_of_y` appends dy_plus then dy_plus_plus per step (dy_minus, dy_minus_minus on the other side). */
  function YFamily(q: Table): (f: Family)
    ensures NonEmpty(f) && |f.plus| == 2 && |f.minus| == 2 && f.axis == Y
  {
    Family(Y, [(t: nat) => DyPlus(q, t), (t: nat) => DyPlusPlus(q, t)],
              [(t: nat) => DyMinus(q, t), (t: nat) => DyMinusMinus(q, t)])
  }

  function ZFamily(q: Table): (f: Family)
    ensures NonEmpty(f) && |f.plus| == 1 && |f.minus| == 1 && f.axis == Z
  {
    Family(Z, [(t: nat) => DzPlus(q, t)], [(t: nat) => DzMinus(q, t)])
  }

  /** The hit counts read the integer vector: plus hits minus minus hits is the step's coordinate. */
  lemma FamiliesRead(q: Table, a: Assignment, b: Assignment)
    requires Reflects(q, a, b)
    ensures Reads(XFamily(q), a, Moves(b)) && Reads(YFamily(q), a, Moves(b)) && Reads(ZFamily(q), a, Moves(b))
  {
    XFamilyReads(q, a, b);
    YFamilyReads(q, a, b);
    ZFamilyReads(q, a, b);
  }

  lemma XFamilyReads(q: Table, a: Assignment, b: Assignment)
    requires Reflects(q, a, b)
    ensures Reads(XFamily(q), a, Moves(b))
  {
    forall t: nat
      ensures Count(Row(XFamily(q).plus, t), a) - Count(Row(XFamily(q).minus, t), a) == Moves(b)(t).x
    {
      StepRead(q, a, b, t);
    }
  }

  lemma YFamilyReads(q: Table, a: Assignment, b: Assignment)
    requires Reflects(q, a, b)
    ensures Reads(YFamily(q), a, Moves(b))
  {
    forall t: nat
      ensures Count(Row(YFamily(q).plus, t), a) - Count(Row(YFamily(q).minus, t), a) == Moves(b)(t).y
    {
      StepRead(q, a, b, t);
    }
  }

  lemma ZFamilyReads(q: Table, a: Assignment, b: Assignment)
    requires Reflects(q, a, b)
    ensures Reads(ZFamily(q), a, Moves(b))
  {
    forall t: nat
      ensures Count(Row(ZFamily(q).plus, t), a) - Count(Row(ZFamily(q).minus, t), a) == Moves(b)(t).z
    {
      StepRead(q, a, b, t);
    }
  }

  lemma StepRead(q: Table, a: Assignment, b: Assignment, t: nat)
    requires Reflects(q, a, b)
    ensures Count(Row(XFamily(q).plus, t), a) - Count(Row(XFamily(q).minus, t), a) == Moves(b)(t).x
    ensures Count(Row(YFamily(q).plus, t), a) - Count(Row(YFamily(q).minus, t), a) == Moves(b)(t).y
    ensures Count(Row(ZFamily(q).plus, t), a) - Count(Row(ZFamily(q).minus, t), a) == Moves(b)(t).z
  {
    var x, y, z := XFamily(q), YFamily(q), ZFamily(q);
    CountOne(x.plus[0], t, a);
    CountOne(x.minus[0], t, a);
    CountTwo(y.plus[0], y.plus[1], t, a);
    CountTwo(y.minus[0], y.minus[1], t, a);
    CountOne(z.plus[0], t, a);
    CountOne(z.minus[0], t, a);
    PredicatesMatchTable(q, a, b, t);
    assert Moves(b)(t) == Step(Decode(b(t, 0), b(t, 1), b(t, 2)));
  }

  // ---------------------------------------------------------------- overlap

  /** The x and z comparisons take w bits of d-bit sums, the y comparison wy bits of 2d-bit sums. */
  predicate FlagFits(a1: nat, a2: nat, w: nat, wy: nat)
  {
    a1 < a2 && w <= a2 - a1 && wy <= 2 * (a2 - a1)
  }

  lemma SegmentsSpan(q: Table, a1: nat, a2: nat, w: nat, wy: nat)
    requires FlagFits(a1, a2, w, wy)
    ensures Spans([XFamily(q), ZFamily(q)], a1, a2, w) && Spans([YFamily(q)], a1, a2, wy)
  {
  }

  /**
   * The overlap flag of one pair: the first bit loop chains the x and z Xnors of bits
   * 0 .. w - 1, the second appends the y Xnors of bits 0 .. wy - 1 to the same And.
   */
  function Flag(q: Table, a1: nat, a2: nat, w: nat, wy: nat): Expr
    requires FlagFits(a1, a2, w, wy)
  {
    SegmentsSpan(q, a1, a2, w, wy);
    AndFold(Segment([XFamily(q), ZFamily(q)], a1, a2, w) + Segment([YFamily(q)], a1, a2, wy))
  }

  /** The flag holds exactly when w bits cannot see the x and z changes and wy bits cannot see the y change. */
  lemma FlagRead(q: Table, a: Assignment, b: Assignment, a1: nat, a2: nat, w: nat, wy: nat)
    requires FlagFits(a1, a2, w, wy) && Reflects(q, a, b)
    ensures var v := Disp(Moves(b), a1, a2);
      Eval(Flag(q, a1, a2, w, wy), a) <==> Wraps(v.x, w) && Wraps(v.z, w) && Wraps(v.y, wy)
  {
    SegmentsSpan(q, a1, a2, w, wy);
    AndFoldAppend(Segment([XFamily(q), ZFamily(q)], a1, a2, w), Segment([YFamily(q)], a1, a2, wy), a);
    XZSegmentRead(q, a, b, a1, a2, w);
    YSegmentRead(q, a, b, a1, a2, wy);
  }

  lemma XZSegmentRead(q: Table, a: Assignment, b: Assignment, a1: nat, a2: nat, w: nat)
    requires a1 < a2 && w <= a2 - a1 && Reflects(q, a, b)
    ensures Spans([XFamily(q), ZFamily(q)], a1, a2, w)
    ensures AllHold(Segment([XFamily(q), ZFamily(q)], a1, a2, w), a)
        <==> Wraps(Disp(Moves(b), a1, a2).x, w) && Wraps(Disp(Moves(b), a1, a2).z, w)
  {
    var xz := [XFamily(q), ZFamily(q)];
    assert Spans(xz, a1, a2, w);
    FamiliesRead(q, a, b);
    SegmentMeaning(xz, a1, a2, w, a, Moves(b));
    assert xz[0].axis == X && xz[1].axis == Z;
  }

  lemma YSegmentRead(q: Table, a: Assignment, b: Assignment, a1: nat, a2: nat, wy: nat)
    requires a1 < a2 && wy <= 2 * (a2 - a1) && Reflects(q, a, b)
    ensures Spans([YFamily(q)], a1, a2, wy)
    ensures AllHold(Segment([YFamily(q)], a1, a2, wy), a) <==> Wraps(Disp(Moves(b), a1, a2).y, wy)
  {
    var y := [YFamily(q)];
    assert Spans(y, a1, a2, wy);
    FamiliesRead(q, a, b);
    SegmentMeaning(y, a1, a2, wy, a, Moves(b));
    assert y[0].axis == Y;
  }

  /**
   * The comparison widths of a pair d apart: x and z on ceil(log2(d)) bits and y on one
   * more, as written; the safe widths hold d and 2d. Either way no comparison takes more
   * bits than its sums have.
   */
  function FlagWidths(sizing: Sizing, d: nat): (r: (nat, nat))
    requires d >= 1
    ensures r.0 <= d && r.1 <= 2 * d
    ensures sizing == Safe ==> d < Pow2(r.0) && 2 * d < Pow2(r.1)
  {
    CeilLog2Below(d);
    Pow2Above(d);
    Pow2Above(2 * d);
    WidthAtMost(sizing, CeilLog2(d), d, d);
    WidthAtMost(sizing, CeilLog2(d) + 1, 2 * d, 2 * d);
    (Width(sizing, CeilLog2(d), d), Width(sizing, CeilLog2(d) + 1, 2 * d))
  }

  /** `create_overlap_constraint`'s flag of residues a1 < a2, with the sizing's widths. */
  function OverlapFlag(q: Table, sizing: Sizing, a1: nat, a2: nat): Expr
  {
    if a2 <= a1 then Num(false)
    else Flag(q, a1, a2, FlagWidths(sizing, a2 - a1).0, FlagWidths(sizing, a2 - a1).1)
  }

  /** When w bits hold d and wy bits hold 2d, the flag holds exactly when the two residues share a site. */
  lemma FlagExact(q: Table, a: Assignment, b: Assignment, a1: nat, a2: nat, w: nat, wy: nat)
    requires FlagFits(a1, a2, w, wy) && Reflects(q, a, b)
    requires a2 - a1 < Pow2(w) && 2 * (a2 - a1) < Pow2(wy)
    ensures Eval(Flag(q, a1, a2, w, wy), a) <==> Position(Moves(b), a1) == Position(Moves(b), a2)
  {
    var d, v := a2 - a1, Disp(Moves(b), a1, a2);
    FlagRead(q, a, b, a1, a2, w, wy);
    MovesShape(b);
    DispBounded(Moves(b), X, 1, a1, a2);
    DispBounded(Moves(b), Y, 2, a1, a2);
    DispBounded(Moves(b), Z, 1, a1, a2);
    WrapsOnlyZero(v.x, d, w);
    WrapsOnlyZero(v.z, d, w);
    WrapsOnlyZero(v.y, 2 * d, wy);
    SameSite(Moves(b), a1, a2);
  }

  /** Whatever the widths, the flag holds when the two residues share a site. */
  lemma FlagCatches(q: Table, a: Assignment, b: Assignment, a1: nat, a2: nat, w: nat, wy: nat)
    requires FlagFits(a1, a2, w, wy) && Reflects(q, a, b)
    requires Position(Moves(b), a1) == Position(Moves(b), a2)
    ensures Eval(Flag(q, a1, a2, w, wy), a)
  {
    FlagRead(q, a, b, a1, a2, w, wy);
    SameSite(Moves(b), a1, a2);
    WrapsZero(w);
    WrapsZero(wy);
  }

  /** With the safe widths the flag holds exactly when the two residues share a site. */
  lemma OverlapFlagExact(q: Table, a: Assignment, b: Assignment, a1: nat, a2: nat)
    requires a1 < a2 && Reflects(q, a, b)
    ensures Eval(OverlapFlag(q, Safe, a1, a2), a) <==> Position(Moves(b), a1) == Position(Moves(b), a2)
  {
    var ws := FlagWidths(Safe, a2 - a1);
    FlagExact(q, a, b, a1, a2, ws.0, ws.1);
  }

  /** As written the flag never misses two residues that share a site. */
  lemma OverlapFlagCatches(q: Table, a: Assignment, b: Assignment, a1: nat, a2: nat)
    requires a1 < a2 && Reflects(q, a, b)
    requires Position(Moves(b), a1) == Position(Moves(b), a2)
    ensures Eval(OverlapFlag(q, AsWritten, a1, a2), a)
  {
    var ws := FlagWidths(AsWritten, a2 - a1);
    FlagCatches(q, a, b, a1, a2, ws.0, ws.1);
  }

  /** `create_overlap_constraint`: the Or of the flags of every pair at least minSep apart. */
  function Overlap(q: Table, sizing: Sizing, n: nat, minSep: nat): Expr
  {
    OrPairs((a1: nat, a2: nat) => OverlapFlag(q, sizing, a1, a2), n, minSep)
  }

  /** With the safe widths the overlap term holds exactly when two residues minSep or more apart meet. */
  lemma OverlapExact(q: Table, a: Assignment, b: Assignment, n: nat, minSep: nat)
    requires minSep >= 1 && Reflects(q, a, b)
    ensures Eval(Overlap(q, Safe, n, minSep), a) <==> !ApartFrom(Moves(b), n, minSep)
  {
    var flag := (a1: nat, a2: nat) => OverlapFlag(q, Safe, a1, a2);
    forall a1: nat, a2: nat | a1 + minSep <= a2 < n
      ensures Eval(flag(a1, a2), a) <==> Position(Moves(b), a1) == Position(Moves(b), a2)
    {
      OverlapFlagExact(q, a, b, a1, a2);
    }
    OrPairsFindsMeeting(flag, n, minSep, a, Moves(b));
  }

  /** As written the overlap term holds whenever two residues minSep or more apart meet. */
  lemma OverlapCatches(q: Table, a: Assignment, b: Assignment, n: nat, minSep: nat)
    requires minSep >= 1 && Reflects(q, a, b) && !ApartFrom(Moves(b), n, minSep)
    ensures Eval(Overlap(q, AsWritten, n, minSep), a)
  {
    var flag := (a1: nat, a2: nat) => OverlapFlag(q, AsWritten, a1, a2);
    OrPairsMeaning(flag, n, minSep, a);
    var a1: nat, a2: nat :| a1 + minSep <= a2 < n && Position(Moves(b), a1) == Position(Moves(b), a2);
    OverlapFlagCatches(q, a, b, a1, a2);
    assert Eval(flag(a1, a2), a);
  }

  // ---------------------------------------------------------------- backtracking

  /** Bit i of step t read as the value v: the variable for 1, its negation for 0. */
  function Bit(q: Table, t: nat, i: nat, v: bool): Expr
  {
    if v then q(t, i) else Not(q(t, i))
  }

  /** Step t has the code c1 and step t + 1 the code c2, as six nested Ands of their bits. */
  function CodePair(q: Table, t: nat, c1: (bool, bool, bool), c2: (bool, bool, bool)): Expr
  {
    And(Bit(q, t, 0, c1.0), And(Bit(q, t, 1, c1.1), And(Bit(q, t, 2, c1.2),
      And(Bit(q, t + 1, 0, c2.0), And(Bit(q, t + 1, 1, c2.1), Bit(q, t + 1, 2, c2.2))))))
  }

  lemma CodePairMeaning(q: Table, a: Assignment, b: Assignment, t: nat, c1: (bool, bool, bool), c2: (bool, bool, bool))
    requires Reflects(q, a, b)
    ensures Eval(CodePair(q, t, c1, c2), a)
        <==> ((b(t, 0), b(t, 1), b(t, 2)) == c1 && (b(t + 1, 0), b(t + 1, 1), b(t + 1, 2)) == c2)
  {
    var x0, x1, x2 := Bit(q, t, 0, c1.0), Bit(q, t, 1, c1.1), Bit(q, t, 2, c1.2);
    var y0, y1, y2 := Bit(q, t + 1, 0, c2.0), Bit(q, t + 1, 1, c2.1), Bit(q, t + 1, 2, c2.2);
    EvalAnd3(y0, y1, y2, a);
    EvalAnd3(x1, x2, And(y0, And(y1, y2)), a);
    assert Eval(x0, a) == (b(t, 0) == c1.0) && Eval(x1, a) == (b(t, 1) == c1.1) && Eval(x2, a) == (b(t, 2) == c1.2);
    assert Eval(y0, a) == (b(t + 1, 0) == c2.0) && Eval(y1, a) == (b(t + 1, 1) == c2.1) && Eval(y2, a) == (b(t + 1, 2) == c2.2);
  }

  /** Three bits are the code of a direction exactly when they decode to it. */
  lemma CodeMatches(qa: bool, qb: bool, qc: bool, d: Direction)
    ensures (qa, qb, qc) == Code(d) <==> Decode(qa, qb, qc) == d
  {
    DecodeCode(d);
  }

  /**
   * The eight reversal clauses of turn t, in the written order: NE then SW, SW then NE,
   * NW then SE, SE then NW on the raw bits, then N then S, S then N, U then D, D then U
   * through the predicates.
   */
  function Reversals(q: Table, t: nat): seq<Expr>
  {
    [CodePair(q, t, Code(NE), Code(SW)), CodePair(q, t, Code(SW), Code(NE)),
     CodePair(q, t, Code(NW), Code(SE)), CodePair(q, t, Code(SE), Code(NW)),
     And(DyPlusPlus(q, t), DyMinusMinus(q, t + 1)), And(DyMinusMinus(q, t), DyPlusPlus(q, t + 1)),
     And(DzPlus(q, t), DzMinus(q, t + 1)), And(DzMinus(q, t), DzPlus(q, t + 1))]
  }

  function BackClauses(q: Table): nat -> seq<Expr>
  {
    (t: nat) => Reversals(q, t)
  }

  /** `create_back_constraint`: the Or of the reversal clauses of turns 0 .. n - 3. */
  function Back(q: Table, n: nat): Expr
  {
    OrSteps(BackClauses(q), if n < 2 then 0 else n - 2)
  }

  /** The direction that undoes each direction. */
  function Opposite(d: Direction): Direction
  {
    match d
    case N => S
    case S => N
    case NE => SW
    case SW => NE
    case NW => SE
    case SE => NW
    case U => D
    case D => U
  }

  lemma StepInjective(d1: Direction, d2: Direction)
    requires Step(d1) == Step(d2)
    ensures d1 == d2
  {
  }

  lemma OppositeUndoes(d1: Direction, d2: Direction)
    ensures Step(d2) == Negate(Step(d1)) <==> d2 == Opposite(d1)
  {
    assert Negate(Step(d1)) == Step(Opposite(d1));
    if Step(d2) == Negate(Step(d1)) {
      StepInjective(d2, Opposite(d1));
    }
  }

  /** The eight reversals are exactly the pairs of opposite directions. */
  lemma ReversalPairs(d1: Direction, d2: Direction)
    ensures (d1 == NE && d2 == SW) || (d1 == SW && d2 == NE) || (d1 == NW && d2 == SE) || (d1 == SE && d2 == NW)
        || (d1 == N && d2 == S) || (d1 == S && d2 == N) || (d1 == U && d2 == D) || (d1 == D && d2 == U)
        <==> d2 == Opposite(d1)
  {
  }

  /** The first four clauses of turn t hold exactly on the four diagonal reversals. */
  lemma DiagonalReversals(q: Table, a: Assignment, b: Assignment, t: nat)
    requires Reflects(q, a, b)
    ensures var d1, d2, cs := Decode(b(t, 0), b(t, 1), b(t, 2)), Decode(b(t + 1, 0), b(t + 1, 1), b(t + 1, 2)), Reversals(q, t);
      && (Eval(cs[0], a) <==> d1 == NE && d2 == SW) && (Eval(cs[1], a) <==> d1 == SW && d2 == NE)
      && (Eval(cs[2], a) <==> d1 == NW && d2 == SE) && (Eval(cs[3], a) <==> d1 == SE && d2 == NW)
  {
    CodePairDecodes(q, a, b, t, NE, SW);
    CodePairDecodes(q, a, b, t, SW, NE);
    CodePairDecodes(q, a, b, t, NW, SE);
    CodePairDecodes(q, a, b, t, SE, NW);
  }

  /** The clause testing the codes of d and e at turn t holds exactly when steps t and t + 1 decode to d and e. */
  lemma CodePairDecodes(q: Table, a: Assignment, b: Assignment, t: nat, d: Direction, e: Direction)
    requires Reflects(q, a, b)
    ensures Eval(CodePair(q, t, Code(d), Code(e)), a)
        <==> Decode(b(t, 0), b(t, 1), b(t, 2)) == d && Decode(b(t + 1, 0), b(t + 1, 1), b(t + 1, 2)) == e
  {
    CodePairMeaning(q, a, b, t, Code(d), Code(e));
    CodeMatches(b(t, 0), b(t, 1), b(t, 2), d);
    CodeMatches(b(t + 1, 0), b(t + 1, 1), b(t + 1, 2), e);
  }

  /** The last four clauses of turn t hold exactly on the reversals along y and z. */
  lemma AxialReversals(q: Table, a: Assignment, b: Assignment, t: nat)
    requires Reflects(q, a, b)
    ensures var d1, d2, cs := Decode(b(t, 0), b(t, 1), b(t, 2)), Decode(b(t + 1, 0), b(t + 1, 1), b(t + 1, 2)), Reversals(q, t);
      && (Eval(cs[4], a) <==> d1 == N && d2 == S) && (Eval(cs[5], a) <==> d1 == S && d2 == N)
      && (Eval(cs[6], a) <==> d1 == U && d2 == D) && (Eval(cs[7], a) <==> d1 == D && d2 == U)
  {
    PredicatesMatchTable(q, a, b, t);
    PredicatesMatchTable(q, a, b, t + 1);
  }

  /** A clause of turn t holds exactly when step t + 1 goes the opposite way to step t. */
  lemma ReversalsMeaning(q: Table, a: Assignment, b: Assignment, t: nat)
    requires Reflects(q, a, b)
    ensures (exists j :: 0 <= j < |Reversals(q, t)| && Eval(Reversals(q, t)[j], a))
        <==> Decode(b(t + 1, 0), b(t + 1, 1), b(t + 1, 2)) == Opposite(Decode(b(t, 0), b(t, 1), b(t, 2)))
  {
    var d1, d2 := Decode(b(t, 0), b(t, 1), b(t, 2)), Decode(b(t + 1, 0), b(t + 1, 1), b(t + 1, 2));
    var cs := Reversals(q, t);
    DiagonalReversals(q, a, b, t);
    AxialReversals(q, a, b, t);
    ReversalPairs(d1, d2);
    if d2 == Opposite(d1) {
      var j := match d1 case NE => 0 case SW => 1 case NW => 2 case SE => 3 case N => 4 case S => 5 case U => 6 case D => 7;
      assert 0 <= j < |cs| && Eval(cs[j], a);
    }
  }

  /** Step t + 1 undoes step t exactly when its direction is the opposite one. */
  lemma UndoesMeansOpposite(b: Assignment, t: nat)
    ensures Moves(b)(t + 1) == Negate(Moves(b)(t))
        <==> Decode(b(t + 1, 0), b(t + 1, 1), b(t + 1, 2)) == Opposite(Decode(b(t, 0), b(t, 1), b(t, 2)))
  {
    var d1, d2 := Decode(b(t, 0), b(t, 1), b(t, 2)), Decode(b(t + 1, 0), b(t + 1, 1), b(t + 1, 2));
    assert Moves(b)(t) == Step(d1) && Moves(b)(t + 1) == Step(d2);
    OppositeUndoes(d1, d2);
  }

  /** The backtrack term holds exactly when some step among 0 .. n - 2 undoes the one before. */
  lemma BackMeaning(q: Table, a: Assignment, b: Assignment, n: nat)
    requires Reflects(q, a, b)
    ensures Eval(Back(q, n), a) <==> Backtracks(Moves(b), n)
  {
    var k := if n < 2 then 0 else n - 2;
    OrStepsMeaning(BackClauses(q), k, a);
    if Eval(Back(q, n), a) {
      var t: nat, j :| t < k && 0 <= j < |BackClauses(q)(t)| && Eval(BackClauses(q)(t)[j], a);
      ReversalsMeaning(q, a, b, t);
      UndoesMeansOpposite(b, t);
      assert t + 2 < n;
    }
    if Backtracks(Moves(b), n) {
      var t: nat :| t + 2 < n && Moves(b)(t + 1) == Negate(Moves(b)(t));
      ReversalsMeaning(q, a, b, t);
      UndoesMeansOpposite(b, t);
      var j :| 0 <= j < |Reversals(q, t)| && Eval(Reversals(q, t)[j], a);
      assert t < k && Eval(BackClauses(q)(t)[j], a);
    }
  }

  // ---------------------------------------------------------------- the two constraints together

  /**
   * With the safe widths, the overlap term over pairs three or more apart together with the
   * backtrack term holds exactly when the walk is not self-avoiding: neighbours never meet,
   * and residues two apart meet only by backtracking.
   */
  lemma ConstraintsExact(q: Table, a: Assignment, b: Assignment, n: nat)
    requires Reflects(q, a, b)
    ensures Eval(Overlap(q, Safe, n, 3), a) || Eval(Back(q, n), a) <==> !SelfAvoiding(Moves(b), n)
  {
    MovesShape(b);
    OverlapExact(q, a, b, n, 3);
    BackMeaning(q, a, b, n);
    SelfAvoidingSplit(Moves(b), n);
  }

  /** As written the two terms still never let a clash through. */
  lemma ConstraintsCatch(q: Table, a: Assignment, b: Assignment, n: nat)
    requires Reflects(q, a, b) && !SelfAvoiding(Moves(b), n)
    ensures Eval(Overlap(q, AsWritten, n, 3), a) || Eval(Back(q, n), a)
  {
    MovesShape(b);
    BackMeaning(q, a, b, n);
    SelfAvoidingSplit(Moves(b), n);
    if !Backtracks(Moves(b), n) {
      OverlapCatches(q, a, b, n, 3);
    }
  }

  /**
   * With the safe widths, the overlap term over pairs two or more apart holds on its own
   * exactly when the walk is not self-avoiding.
   */
  lemma OverlapAloneExact(q: Table, a: Assignment, b: Assignment, n: nat)
    requires Reflects(q, a, b)
    ensures Eval(Overlap(q, Safe, n, 2), a) <==> !SelfAvoiding(Moves(b), n)
  {
    MovesShape(b);
    OverlapExact(q, a, b, n, 2);
    ApartFromTwo(Moves(b), n);
  }

  /** As written, the overlap term over pairs two or more apart holds whenever the walk clashes. */
  lemma OverlapAloneCatches(q: Table, a: Assignment, b: Assignment, n: nat)
    requires Reflects(q, a, b) && !SelfAvoiding(Moves(b), n)
    ensures Eval(Overlap(q, AsWritten, n, 2), a)
  {
    MovesShape(b);
    ApartFromTwo(Moves(b), n);
    OverlapCatches(q, a, b, n, 2);
  }

  // ---------------------------------------------------------------- adjacency

  /**
   * The five widths of `adjacency_indicator`: x and z equality, y equality, x and z offset by
   * one, y offset by one, y offset by two.
   */
  datatype Widths = Widths(eq: nat, eqY: nat, one: nat, oneY: nat, twoY: nat)

  /** Every comparison of the pair a1 < a2 takes no more bits than its sums have. */
  predicate ContactFits(a1: nat, a2: nat, w: Widths)
  {
    a1 < a2 && w.eq <= a2 - a1 && w.one <= a2 - a1
    && w.eqY <= 2 * (a2 - a1) && w.oneY <= 2 * (a2 - a1) && w.twoY <= 2 * (a2 - a1)
  }

  /** Room for every value: x and z change by at most d, y by at most 2d, and the tests add up to 2. */
  predicate ContactRoom(d: nat, w: Widths)
  {
    d < Pow2(w.eq) && d + 1 < Pow2(w.one) && 2 * d < Pow2(w.eqY) && 2 * d + 1 < Pow2(w.oneY) && 2 * d + 2 < Pow2(w.twoY)
  }

  /**
   * The widths of a pair d apart: ceil(log2(d)) for x and z equality, one more for y,
   * ceil(log2(d + 1)) for the x and z offsets by one, one more for y, and
   * ceil(log2(d + 2)) + 1 for the y offsets by two, as written; the safe widths hold
   * d, 2d, d + 1, 2d + 1 and 2d + 2.
   */
  function ContactWidths(sizing: Sizing, d: nat): (w: Widths)
    requires d >= 2
    ensures w.eq <= d && w.one <= d && w.eqY <= 2 * d && w.oneY <= 2 * d && w.twoY <= 2 * d
    ensures sizing == Safe ==> ContactRoom(d, w)
  {
    Widths(AxisWidth(sizing, d, 0), YWidth(sizing, d, 0), AxisWidth(sizing, d, 1), YWidth(sizing, d, 1), YWidth(sizing, d, 2))
  }

  /** ceil(log2(d + k)) + 1 bits for a y test of a pair d apart, or enough for 2d + k. */
  function YWidth(sizing: Sizing, d: nat, k: nat): (w: nat)
    requires d >= 2 && k <= 2
    ensures w <= 2 * d && (sizing == Safe ==> 2 * d + k < Pow2(w))
  {
    var m, bound := d + k, 2 * d + k;
    Pow2Linear(2 * d);
    WidthFits(sizing, m, 1, bound, 2 * d);
    Width(sizing, CeilLog2(m) + 1, bound)
  }

  lemma ContactTestsFit(q: Table, a1: nat, a2: nat, w: Widths)
    requires ContactFits(a1, a2, w)
    ensures Fits(XFamily(q), 0, 0, a1, a2, w.eq) && Fits(XFamily(q), 1, 0, a1, a2, w.one) && Fits(XFamily(q), 0, 1, a1, a2, w.one)
    ensures Fits(ZFamily(q), 0, 0, a1, a2, w.eq) && Fits(ZFamily(q), 1, 0, a1, a2, w.one) && Fits(ZFamily(q), 0, 1, a1, a2, w.one)
    ensures Fits(YFamily(q), 0, 0, a1, a2, w.eqY) && Fits(YFamily(q), 1, 0, a1, a2, w.oneY) && Fits(YFamily(q), 0, 1, a1, a2, w.oneY)
    ensures Fits(YFamily(q), 2, 0, a1, a2, w.twoY) && Fits(YFamily(q), 0, 2, a1, a2, w.twoY)
  {
    TestsFit(XFamily(q), a1, a2, w.eq, w.one);
    TestsFit(ZFamily(q), a1, a2, w.eq, w.one);
  }

  /**
   * The indicator's shape: (x and z equal, y off by two) or (x and y equal, z off by one) or
   * (z equal, x off by one, y off by one).
   */
  function ThreeCases(xe: Expr, ye: Expr, ze: Expr, xo: Expr, yo: Expr, zo: Expr, y2: Expr): Expr
  {
    Or(And(And(xe, ze), y2), Or(And(And(xe, ye), zo), And(And(ze, xo), yo)))
  }

  lemma ThreeCasesEval(xe: Expr, ye: Expr, ze: Expr, xo: Expr, yo: Expr, zo: Expr, y2: Expr, a: Assignment)
    ensures Eval(ThreeCases(xe, ye, ze, xo, yo, zo, y2), a)
        == ((Eval(xe, a) && Eval(ze, a) && Eval(y2, a)) || (Eval(xe, a) && Eval(ye, a) && Eval(zo, a))
           || (Eval(ze, a) && Eval(xo, a) && Eval(yo, a)))
  {
    var c1, c2, c3 := And(And(xe, ze), y2), And(And(xe, ye), zo), And(And(ze, xo), yo);
    assert Eval(c1, a) == (Eval(And(xe, ze), a) && Eval(y2, a));
    assert Eval(c2, a) == (Eval(And(xe, ye), a) && Eval(zo, a));
    assert Eval(c3, a) == (Eval(And(ze, xo), a) && Eval(yo, a));
    assert Eval(Or(c2, c3), a) == (Eval(c2, a) || Eval(c3, a));
  }

  /** The contact test of the pair a1 < a2 with the widths w, as `adjacency_indicator` assembles it. */
  function Contact(q: Table, a1: nat, a2: nat, w: Widths): Expr
    requires ContactFits(a1, a2, w)
  {
    ContactTestsFit(q, a1, a2, w);
    var x, y, z := XFamily(q), YFamily(q), ZFamily(q);
    ThreeCases(Test(x, 0, 0, a1, a2, w.eq), Test(y, 0, 0, a1, a2, w.eqY), Test(z, 0, 0, a1, a2, w.eq),
      Offset(x, a1, a2, w.one), Offset(y, a1, a2, w.oneY), Offset(z, a1, a2, w.one), Offset2(y, a1, a2, w.twoY))
  }

  /** The contact test, read through its seven comparisons. */
  lemma ContactRead(q: Table, a1: nat, a2: nat, w: Widths, a: Assignment)
    requires ContactFits(a1, a2, w)
    ensures (ContactTestsFit(q, a1, a2, w);
      var x, y, z := XFamily(q), YFamily(q), ZFamily(q);
      Eval(Contact(q, a1, a2, w), a)
        == ((Eval(Test(x, 0, 0, a1, a2, w.eq), a) && Eval(Test(z, 0, 0, a1, a2, w.eq), a) && Eval(Offset2(y, a1, a2, w.twoY), a))
           || (Eval(Test(x, 0, 0, a1, a2, w.eq), a) && Eval(Test(y, 0, 0, a1, a2, w.eqY), a) && Eval(Offset(z, a1, a2, w.one), a))
           || (Eval(Test(z, 0, 0, a1, a2, w.eq), a) && Eval(Offset(x, a1, a2, w.one), a) && Eval(Offset(y, a1, a2, w.oneY), a))))
  {
    ContactTestsFit(q, a1, a2, w);
    var x, y, z := XFamily(q), YFamily(q), ZFamily(q);
    ThreeCasesEval(Test(x, 0, 0, a1, a2, w.eq), Test(y, 0, 0, a1, a2, w.eqY), Test(z, 0, 0, a1, a2, w.eq),
      Offset(x, a1, a2, w.one), Offset(y, a1, a2, w.oneY), Offset(z, a1, a2, w.one), Offset2(y, a1, a2, w.twoY), a);
  }

  /** A lattice move is one of three shapes: two along y, one along z, or one along both x and y. */
  lemma IsMoveComponents(v: Vec)
    ensures IsMove(v)
        <==> ((v.x == 0 && v.z == 0 && (v.y == 2 || v.y == -2))
          || (v.x == 0 && v.y == 0 && (v.z == 1 || v.z == -1))
          || (v.z == 0 && (v.x == 1 || v.x == -1) && (v.y == 1 || v.y == -1)))
  {
    if v.x == 0 && v.z == 0 && (v.y == 2 || v.y == -2) {
      assert v == Step(if v.y == 2 then N else S);
    } else if v.x == 0 && v.y == 0 && (v.z == 1 || v.z == -1) {
      assert v == Step(if v.z == 1 then U else D);
    } else if v.z == 0 && (v.x == 1 || v.x == -1) && (v.y == 1 || v.y == -1) {
      if v.x == 1 {
        assert v == Step(if v.y == 1 then NE else SE);
      } else {
        assert v == Step(if v.y == 1 then NW else SW);
      }
    }
  }

  /** Residues i and j of the walk b are in contact. */
  function Touching(b: Assignment): (nat, nat) -> bool
  {
    (i: nat, j: nat) => IsMove(Minus(Position(Moves(b), j), Position(Moves(b), i)))
  }

  /** With room for every value, each x and z comparison holds exactly on its change. */
  lemma XZTestsExact(q: Table, a: Assignment, b: Assignment, a1: nat, a2: nat, w: Widths)
    requires ContactFits(a1, a2, w) && ContactRoom(a2 - a1, w) && Reflects(q, a, b)
    ensures (ContactTestsFit(q, a1, a2, w);
      var v := Disp(Moves(b), a1, a2);
      && (Eval(Test(XFamily(q), 0, 0, a1, a2, w.eq), a) <==> v.x == 0)
      && (Eval(Test(ZFamily(q), 0, 0, a1, a2, w.eq), a) <==> v.z == 0)
      && (Eval(Offset(XFamily(q), a1, a2, w.one), a) <==> v.x == 1 || v.x == -1)
      && (Eval(Offset(ZFamily(q), a1, a2, w.one), a) <==> v.z == 1 || v.z == -1))
  {
    ContactTestsFit(q, a1, a2, w);
    FamiliesRead(q, a, b);
    MovesShape(b);
    var x, z := XFamily(q), ZFamily(q);
    ExactTest(x, 0, 0, a1, a2, w.eq, a, Moves(b), 1);
    ExactTest(z, 0, 0, a1, a2, w.eq, a, Moves(b), 1);
    OffsetExact(x, a1, a2, w.one, a, Moves(b), 1);
    OffsetExact(z, a1, a2, w.one, a, Moves(b), 1);
  }

  /** With room for every value, each y comparison holds exactly on its change. */
  lemma YTestsExact(q: Table, a: Assignment, b: Assignment, a1: nat, a2: nat, w: Widths)
    requires ContactFits(a1, a2, w) && ContactRoom(a2 - a1, w) && Reflects(q, a, b)
    ensures (ContactTestsFit(q, a1, a2, w);
      var v := Disp(Moves(b), a1, a2);
      && (Eval(Test(YFamily(q), 0, 0, a1, a2, w.eqY), a) <==> v.y == 0)
      && (Eval(Offset(YFamily(q), a1, a2, w.oneY), a) <==> v.y == 1 || v.y == -1)
      && (Eval(Offset2(YFamily(q), a1, a2, w.twoY), a) <==> v.y == 2 || v.y == -2))
  {
    ContactTestsFit(q, a1, a2, w);
    FamiliesRead(q, a, b);
    MovesShape(b);
    var y := YFamily(q);
    ExactTest(y, 0, 0, a1, a2, w.eqY, a, Moves(b), 2);
    OffsetExact(y, a1, a2, w.oneY, a, Moves(b), 2);
    Offset2Exact(y, a1, a2, w.twoY, a, Moves(b), 2);
  }

  /** With room for every value, the contact test holds exactly when the pair is one move apart. */
  lemma ContactExact(q: Table, a: Assignment, b: Assignment, a1: nat, a2: nat, w: Widths)
    requires ContactFits(a1, a2, w) && ContactRoom(a2 - a1, w) && Reflects(q, a, b)
    ensures Eval(Contact(q, a1, a2, w), a) <==> IsMove(Disp(Moves(b), a1, a2))
  {
    ContactRead(q, a1, a2, w, a);
    XZTestsExact(q, a, b, a1, a2, w);
    YTestsExact(q, a, b, a1, a2, w);
    IsMoveComponents(Disp(Moves(b), a1, a2));
  }

  /** Whatever the widths, the contact test never misses a pair one move apart. */
  lemma ContactCatches(q: Table, a: Assignment, b: Assignment, a1: nat, a2: nat, w: Widths)
    requires ContactFits(a1, a2, w) && Reflects(q, a, b)
    requires IsMove(Disp(Moves(b), a1, a2))
    ensures Eval(Contact(q, a1, a2, w), a)
  {
    var v, m := Disp(Moves(b), a1, a2), Moves(b);
    var x, y, z := XFamily(q), YFamily(q), ZFamily(q);
    ContactRead(q, a1, a2, w, a);
    FamiliesRead(q, a, b);
    IsMoveComponents(v);
    assert x.axis == X && y.axis == Y && z.axis == Z;
    if v.x == 0 && v.z == 0 && (v.y == 2 || v.y == -2) {
      TestCatches(x, 0, 0, a1, a2, w.eq, a, m);
      TestCatches(z, 0, 0, a1, a2, w.eq, a, m);
      Offset2Catches(y, a1, a2, w.twoY, a, m);
    } else if v.x == 0 && v.y == 0 {
      TestCatches(x, 0, 0, a1, a2, w.eq, a, m);
      TestCatches(y, 0, 0, a1, a2, w.eqY, a, m);
      OffsetCatches(z, a1, a2, w.one, a, m);
    } else {
      TestCatches(z, 0, 0, a1, a2, w.eq, a, m);
      OffsetCatches(x, a1, a2, w.one, a, m);
      OffsetCatches(y, a1, a2, w.oneY, a, m);
    }
  }

  /** `adjacency_indicator` of residues a1 + 2 <= a2, with the sizing's widths. */
  function Adjacency(q: Table, sizing: Sizing, a1: nat, a2: nat): Expr
  {
    if a2 < a1 + 2 then Num(false) else Contact(q, a1, a2, ContactWidths(sizing, a2 - a1))
  }

  /** With the safe widths the indicator holds exactly when the two residues are in contact. */
  lemma AdjacencyExact(q: Table, a: Assignment, b: Assignment, a1: nat, a2: nat)
    requires a1 + 2 <= a2 && Reflects(q, a, b)
    ensures Eval(Adjacency(q, Safe, a1, a2), a) <==> Touching(b)(a1, a2)
  {
    ContactExact(q, a, b, a1, a2, ContactWidths(Safe, a2 - a1));
    DispIsPositionDifference(Moves(b), a1, a2);
  }

  /** As written the indicator never misses a contact. */
  lemma AdjacencyCatches(q: Table, a: Assignment, b: Assignment, a1: nat, a2: nat)
    requires a1 + 2 <= a2 && Reflects(q, a, b) && Touching(b)(a1, a2)
    ensures Eval(Adjacency(q, AsWritten, a1, a2), a)
  {
    DispIsPositionDifference(Moves(b), a1, a2);
    ContactCatches(q, a, b, a1, a2, ContactWidths(AsWritten, a2 - a1));
  }

  // ---------------------------------------------------------------- the bit counts as written

  /** A walk whose every step is 001, up. */
  ghost predicate StraightUp(b: Assignment)
  {
    forall t: nat :: !b(t, 0) && !b(t, 1) && b(t, 2)
  }

  /** The straight walk up as one assignment; it agrees with the pins. */
  function AllUp(): Assignment
  {
    (t: nat, i: nat) => i == 2
  }

  lemma AllUpWitness()
    ensures StraightUp(AllUp()) && Reflects(Pinned(Presets), AllUp(), AllUp())
  {
  }

  /** Every step of a straight walk up moves one site along z. */
  lemma UpSteps(b: Assignment)
    requires StraightUp(b)
    ensures forall t: nat :: Moves(b)(t) == Vec(0, 0, 1)
  {
    forall t: nat
      ensures Moves(b)(t) == Vec(0, 0, 1)
    {
      assert !b(t, 0) && !b(t, 1) && b(t, 2);
    }
  }

  lemma UpDisp(b: Assignment, i: nat, j: nat)
    requires StraightUp(b) && i <= j
    ensures Disp(Moves(b), i, j) == Vec(0, 0, j - i)
  {
    UpSteps(b);
    LineDisp(Moves(b), Vec(0, 0, 1), i, j);
  }

  lemma UpSelfAvoiding(b: Assignment, n: nat)
    requires StraightUp(b)
    ensures SelfAvoiding(Moves(b), n)
  {
    forall i: nat, j: nat | i + 1 <= j < n
      ensures Position(Moves(b), i) != Position(Moves(b), j)
    {
      UpDisp(b, 0, i);
      UpDisp(b, 0, j);
      DispIsPositionDifference(Moves(b), 0, i);
      DispIsPositionDifference(Moves(b), 0, j);
    }
  }

  /** Distances 2 and 4 get one and two bits for x and z, which cannot tell them from 0. */
  lemma UpDistancesWrap(d: nat)
    requires d == 2 || d == 4
    ensures FlagWidths(AsWritten, d) == (CeilLog2(d), CeilLog2(d) + 1)
    ensures Wraps(d, CeilLog2(d)) && Wraps(0, CeilLog2(d)) && Wraps(0, CeilLog2(d) + 1)
  {
    SmallLogs();
  }

  /** Residues two or four apart on a straight walk up raise the as-written overlap flag. */
  lemma UpFlagged(q: Table, a: Assignment, b: Assignment, a1: nat, a2: nat)
    requires Reflects(q, a, b) && StraightUp(b) && (a2 == a1 + 2 || a2 == a1 + 4)
    ensures Eval(OverlapFlag(q, AsWritten, a1, a2), a)
  {
    var d := a2 - a1;
    UpDisp(b, a1, a2);
    UpDistancesWrap(d);
    FlagRead(q, a, b, a1, a2, CeilLog2(d), CeilLog2(d) + 1);
  }

  /**
   * As written, on a straight walk up of n >= 5 residues the last residue and the one four
   * before it are flagged as overlapping: their z counts differ by 4, which two bits cannot
   * tell from 0. The overlap term over pairs three or more apart penalises a valid fold.
   */
  lemma OverlapFalseAlarm(q: Table, a: Assignment, b: Assignment, n: nat)
    requires Reflects(q, a, b) && StraightUp(b) && n >= 5
    ensures SelfAvoiding(Moves(b), n)
    ensures Eval(Overlap(q, AsWritten, n, 3), a)
  {
    var a1, a2 := n - 5, n - 1;
    UpFlagged(q, a, b, a1, a2);
    var flag := (a1: nat, a2: nat) => OverlapFlag(q, AsWritten, a1, a2);
    OrPairsMeaning(flag, n, 3, a);
    assert Eval(flag(a1, a2), a);
    UpSelfAvoiding(b, n);
  }

  /**
   * As written, on a straight walk up of n >= 3 residues the last residue and the one two
   * before it are flagged: their z counts differ by 2, which one bit cannot tell from 0.
   * The overlap term over pairs two or more apart penalises every straight walk up.
   */
  lemma OverlapAloneFalseAlarm(q: Table, a: Assignment, b: Assignment, n: nat)
    requires Reflects(q, a, b) && StraightUp(b) && n >= 3
    ensures SelfAvoiding(Moves(b), n)
    ensures Eval(Overlap(q, AsWritten, n, 2), a)
  {
    var a1, a2 := n - 3, n - 1;
    UpFlagged(q, a, b, a1, a2);
    var flag := (a1: nat, a2: nat) => OverlapFlag(q, AsWritten, a1, a2);
    OrPairsMeaning(flag, n, 2, a);
    assert Eval(flag(a1, a2), a);
    UpSelfAvoiding(b, n);
  }

  /** The written widths of a pair three apart. */
  lemma ThreeApartWidths()
    ensures ContactWidths(AsWritten, 3) == Widths(2, 3, 2, 3, 4)
  {
    SmallLogs();
  }

  /** Two bits cannot tell 4 from 0. */
  lemma ThreeApartWraps()
    ensures Wraps(0, 2) && Wraps(0, 3) && Wraps(4, 2)
  {
    SmallLogs();
    WrapsZero(2);
    WrapsZero(3);
  }

  /**
   * As written, any two residues three sites apart on a straight walk up are reported in
   * contact: x and y agree, and 3 + 1 is 0 on the two bits the z offset test uses.
   */
  lemma AdjacencyFalseContact(q: Table, a: Assignment, b: Assignment, a1: nat, a2: nat)
    requires Reflects(q, a, b) && StraightUp(b) && a2 == a1 + 3
    ensures !Touching(b)(a1, a2)
    ensures Eval(Adjacency(q, AsWritten, a1, a2), a)
  {
    var v := Disp(Moves(b), a1, a2);
    UpDisp(b, a1, a2);
    IsMoveComponents(v);
    DispIsPositionDifference(Moves(b), a1, a2);
    ThreeApartWidths();
    UpContactTests(q, a, b, a1, a2);
    ContactRead(q, a1, a2, Widths(2, 3, 2, 3, 4), a);
  }

  /** Three steps up: x and y have not changed, and on two bits z looks one step down. */
  lemma UpContactTests(q: Table, a: Assignment, b: Assignment, a1: nat, a2: nat)
    requires Reflects(q, a, b) && StraightUp(b) && a2 == a1 + 3
    ensures ContactFits(a1, a2, Widths(2, 3, 2, 3, 4))
    ensures (ContactTestsFit(q, a1, a2, Widths(2, 3, 2, 3, 4));
      && Eval(Test(XFamily(q), 0, 0, a1, a2, 2), a) && Eval(Test(YFamily(q), 0, 0, a1, a2, 3), a)
      && Eval(Offset(ZFamily(q), a1, a2, 2), a))
  {
    ContactTestsFit(q, a1, a2, Widths(2, 3, 2, 3, 4));
    UpDisp(b, a1, a2);
    FamiliesRead(q, a, b);
    UpTestHolds(XFamily(q), 0, 0, a1, a2, 2, a, Moves(b), 0);
    UpTestHolds(YFamily(q), 0, 0, a1, a2, 3, a, Moves(b), 0);
    UpTestHolds(ZFamily(q), 1, 0, a1, a2, 2, a, Moves(b), 3);
  }

  /** A comparison whose sums differ by 0 or 4 holds on two or three bits. */
  lemma UpTestHolds(f: Family, seedP: nat, seedM: nat, a1: nat, a2: nat, w: nat, a: Assignment, move: nat -> Vec, c: int)
    requires Fits(f, seedP, seedM, a1, a2, w) && Reads(f, a, move) && (w == 2 || w == 3)
    requires Component(Disp(move, a1, a2), f.axis) == c && (seedP - seedM + c == 0 || (seedP - seedM + c == 4 && w == 2))
    ensures Eval(Test(f, seedP, seedM, a1, a2, w), a)
  {
    ThreeApartWraps();
    TestWraps(f, seedP, seedM, a1, a2, w, a, move);
  }
}
