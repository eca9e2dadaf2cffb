/**
 * The 4-direction square lattice, two bits (q_a, q_b) per step:
 * E = 01 (1, 0), W = 10 (-1, 0), N = 11 (0, 1), S = 00 (0, -1).
 * The direction predicates, the overlap, backtrack and adjacency formulas are the same
 * in the pyqubo and the sympy builders; they are written here once over a variable
 * table, and each builder supplies its table and its loop bounds.
 */
module Square4 {
  import opened Numeric
  import opened BoolExpr
  import opened BitOpsQubo
  import opened Assembly
  import opened AxisTests
  import opened Geometry

  datatype Direction = E | W | N | S

  /** The code (q_a, q_b) of each direction. */
  function Code(d: Direction): (bool, bool)
  {
    match d
    case E => (false, true)
    case W => (true, false)
    case N => (true, true)
    case S => (false, false)
  }

  /** The direction a step's two bits encode; every code is used. */
  function Decode(qa: bool, qb: bool): (d: Direction)
    ensures Code(d) == (qa, qb)
  {
    if qa then (if qb then N else W) else (if qb then E else S)
  }

  lemma DecodeCode(d: Direction)
    ensures Decode(Code(d).0, Code(d).1) == d
  {
  }

  /** The movement vector of each direction. */
  function Step(d: Direction): Vec
  {
    match d
    case E => Vec(1, 0, 0)
    case W => Vec(-1, 0, 0)
    case N => Vec(0, 1, 0)
    case S => Vec(0, -1, 0)
  }

  /** Two residues are in contact when one lattice move separates them. */
  predicate IsMove(v: Vec)
  {
    v == Step(E) || v == Step(W) || v == Step(N) || v == Step(S)
  }

  /** The walk an assignment encodes. */
  function Moves(b: Assignment): nat -> Vec
  {
    (t: nat) => Step(Decode(b(t, 0), b(t, 1)))
  }

  /** The square walk never stands still, changes x + y by one per step and never leaves the plane. */
  lemma MovesShape(b: Assignment)
    ensures NonZeroMoves(Moves(b)) && forall n: nat :: OddSteps(Moves(b), n)
    ensures Bounded(Moves(b), X, 1) && Bounded(Moves(b), Y, 1) && Bounded(Moves(b), Z, 0)
  {
    forall t: nat
      ensures Moves(b)(t) != Origin && (Moves(b)(t).x + Moves(b)(t).y + Moves(b)(t).z) % 2 == 1
      ensures -1 <= Moves(b)(t).x <= 1 && -1 <= Moves(b)(t).y <= 1 && Moves(b)(t).z == 0
    {
      var d := Decode(b(t, 0), b(t, 1));
      assert Moves(b)(t) == Step(d);
    }
  }

  // ---------------------------------------------------------------- pinned bits

  /** `set_default`: q_0a = 0, q_0b = 1, q_1b = 1. */
  const Presets: Pins := map[(0, 0) := false, (0, 1) := true, (1, 1) := true]

  /** The pins fix step 0 to E and step 1 to E or N ... */
  lemma PresetsFixStart(a: Assignment)
    ensures Decode(Effective(Presets, a)(0, 0), Effective(Presets, a)(0, 1)) == E
    ensures Decode(Effective(Presets, a)(1, 0), Effective(Presets, a)(1, 1)) in {E, N}
  {
  }

  /** ... and lose no walk that already starts that way. */
  lemma PresetsKeepCanonicalWalks(b: Assignment)
    requires Decode(b(0, 0), b(0, 1)) == E && Decode(b(1, 0), b(1, 1)) in {E, N}
    ensures forall t: nat, i: nat :: Effective(Presets, b)(t, i) == b(t, i)
  {
    assert Code(Decode(b(0, 0), b(0, 1))) == (b(0, 0), b(0, 1));
    assert Code(Decode(b(1, 0), b(1, 1))) == (b(1, 0), b(1, 1));
  }

  // ---------------------------------------------------------------- direction predicates

  function DxPlus(q: Table, t: nat): Expr
  {
    And(Not(q(t, 0)), q(t, 1))
  }

  function DxMinus(q: Table, t: nat): Expr
  {
    And(q(t, 0), Not(q(t, 1)))
  }

  function DyPlus(q: Table, t: nat): Expr
  {
    And(q(t, 0), q(t, 1))
  }

  function DyMinus(q: Table, t: nat): Expr
  {
    And(Not(q(t, 0)), Not(q(t, 1)))
  }

  /** Each predicate recognises exactly its direction's code, so exactly one holds per step. */
  lemma PredicatesMatchTable(q: Table, a: Assignment, b: Assignment, t: nat)
    requires Reflects(q, a, b)
    ensures Eval(DxPlus(q, t), a) <==> Decode(b(t, 0), b(t, 1)) == E
    ensures Eval(DxMinus(q, t), a) <==> Decode(b(t, 0), b(t, 1)) == W
    ensures Eval(DyPlus(q, t), a) <==> Decode(b(t, 0), b(t, 1)) == N
    ensures Eval(DyMinus(q, t), a) <==> Decode(b(t, 0), b(t, 1)) == S
  {
    assert Eval(q(t, 0), a) == b(t, 0) && Eval(q(t, 1), a) == b(t, 1);
  }

  function XFamily(q: Table): (f: Family)
    ensures NonEmpty(f)
  {
    Family(X, [(t: nat) => DxPlus(q, t)], [(t: nat) => DxMinus(q, t)])
  }

  function YFamily(q: Table): (f: Family)
    ensures NonEmpty(f)
  {
    Family(Y, [(t: nat) => DyPlus(q, t)], [(t: nat) => DyMinus(q, t)])
  }

  /** The overlap loop compares the x and the y family. */
  function Axes(q: Table): (fams: seq<Family>)
    ensures |fams| == 2 && forall k :: 0 <= k < |fams| ==> NonEmpty(fams[k])
  {
    [XFamily(q), YFamily(q)]
  }

  /** dx_plus - dx_minus and dy_plus - dy_minus are the x and y of the step's vector. */
  lemma FamiliesRead(q: Table, a: Assignment, b: Assignment)
    requires Reflects(q, a, b)
    ensures Reads(XFamily(q), a, Moves(b)) && Reads(YFamily(q), a, Moves(b))
  {
    forall t: nat
      ensures Count(Row(XFamily(q).plus, t), a) - Count(Row(XFamily(q).minus, t), a) == Moves(b)(t).x
      ensures Count(Row(YFamily(q).plus, t), a) - Count(Row(YFamily(q).minus, t), a) == Moves(b)(t).y
    {
      CountOne(XFamily(q).plus[0], t, a);
      CountOne(XFamily(q).minus[0], t, a);
      CountOne(YFamily(q).plus[0], t, a);
      CountOne(YFamily(q).minus[0], t, a);
      PredicatesMatchTable(q, a, b, t);
    }
  }

  // ---------------------------------------------------------------- overlap

  /**
   * The overlap flag of residues a1 < a2: the x and the y counts agree on
   * ceil(log2(a2 - a1)) low bits as written, or on enough bits to hold a2 - a1.
   */
  function OverlapFlag(q: Table, sizing: Sizing, a1: nat, a2: nat): Expr
  {
    if a2 <= a1 then Num(false)
    else
      var w := Width(sizing, CeilLog2(a2 - a1), a2 - a1);
      OverlapWidthFits(sizing, a2 - a1);
      SpansSteps(Axes(q), a1, a2, w);
      AndFold(Segment(Axes(q), a1, a2, w))
  }

  lemma OverlapWidthFits(sizing: Sizing, d: nat)
    requires d >= 1
    ensures Width(sizing, CeilLog2(d), d) <= d
  {
    CeilLog2Below(d);
    Pow2Above(d);
    WidthAtMost(sizing, CeilLog2(d), d, d);
  }

  /** For a1 < a2 the flag is the conjunction of the segment's bit flags on w bits. */
  lemma OverlapFlagIs(q: Table, sizing: Sizing, a1: nat, a2: nat, w: nat)
    requires a1 < a2 && w == Width(sizing, CeilLog2(a2 - a1), a2 - a1)
    ensures Spans(Axes(q), a1, a2, w) && OverlapFlag(q, sizing, a1, a2) == AndFold(Segment(Axes(q), a1, a2, w))
  {
    OverlapWidthFits(sizing, a2 - a1);
    SpansSteps(Axes(q), a1, a2, w);
  }

  /** With the safe width the flag holds exactly when the two residues share a site. */
  lemma OverlapFlagExact(q: Table, a: Assignment, b: Assignment, a1: nat, a2: nat)
    requires a1 < a2 && Reflects(q, a, b)
    ensures Eval(OverlapFlag(q, Safe, a1, a2), a) <==> Position(Moves(b), a1) == Position(Moves(b), a2)
  {
    var fams, w := Axes(q), Width(Safe, CeilLog2(a2 - a1), a2 - a1);
    OverlapFlagIs(q, Safe, a1, a2, w);
    FamiliesRead(q, a, b);
    MovesShape(b);
    TwoAxesExact(fams, a1, a2, w, a, Moves(b), 1);
    FlatDisp(Moves(b), Z, a1, a2);
    SameSite(Moves(b), a1, a2);
  }

  /** As written the flag never misses two residues that share a site. */
  lemma OverlapFlagCatches(q: Table, a: Assignment, b: Assignment, a1: nat, a2: nat)
    requires a1 < a2 && Reflects(q, a, b)
    requires Position(Moves(b), a1) == Position(Moves(b), a2)
    ensures Eval(OverlapFlag(q, AsWritten, a1, a2), a)
  {
    var fams, w := Axes(q), CeilLog2(a2 - a1);
    OverlapFlagIs(q, AsWritten, a1, a2, w);
    FamiliesRead(q, a, b);
    SameSite(Moves(b), a1, a2);
    TwoAxesCatches(fams, a1, a2, w, a, Moves(b));
  }

  /** As written the flag is also raised when both coordinate changes are nonzero multiples of 2^w. */
  lemma OverlapFlagWraps(q: Table, a: Assignment, b: Assignment, a1: nat, a2: nat)
    requires a1 < a2 && Reflects(q, a, b)
    requires Wraps(Disp(Moves(b), a1, a2).x, CeilLog2(a2 - a1)) && Wraps(Disp(Moves(b), a1, a2).y, CeilLog2(a2 - a1))
    ensures Eval(OverlapFlag(q, AsWritten, a1, a2), a)
  {
    var fams, w := Axes(q), CeilLog2(a2 - a1);
    OverlapFlagIs(q, AsWritten, a1, a2, w);
    FamiliesRead(q, a, b);
    var v := Disp(Moves(b), a1, a2);
    assert Component(v, fams[0].axis) == v.x && Component(v, fams[1].axis) == v.y;
    TwoAxesWraps(fams, a1, a2, w, a, Moves(b));
  }

  /** `create_overlap_constraint`: the Or of the flags of every pair at least minSep apart. */
  function Overlap(q: Table, sizing: Sizing, n: nat, minSep: nat): Expr
  {
    OrPairs((a1: nat, a2: nat) => OverlapFlag(q, sizing, a1, a2), n, minSep)
  }

  /** With the safe width the overlap term holds exactly when two residues minSep or more apart meet. */
  lemma OverlapExact(q: Table, a: Assignment, b: Assignment, n: nat, minSep: nat)
    requires minSep >= 1 && Reflects(q, a, b)
    ensures Eval(Overlap(q, Safe, n, minSep), a) <==> !ApartFrom(Moves(b), n, minSep)
  {
    var flag := (a1: nat, a2: nat) => OverlapFlag(q, Safe, a1, a2);
    forall a1: nat, a2: nat | a1 + minSep <= a2 < n
      ensures Eval(flag(a1, a2), a) <==> Position(Moves(b), a1) == Position(Moves(b), a2)
    {
      OverlapFlagExact(q, a, b, a1, a2);
    }
    OrPairsFindsMeeting(flag, n, minSep, a, Moves(b));
  }

  /** As written the overlap term holds whenever two residues minSep or more apart meet. */
  lemma OverlapCatches(q: Table, a: Assignment, b: Assignment, n: nat, minSep: nat)
    requires minSep >= 1 && Reflects(q, a, b) && !ApartFrom(Moves(b), n, minSep)
    ensures Eval(Overlap(q, AsWritten, n, minSep), a)
  {
    var flag := (a1: nat, a2: nat) => OverlapFlag(q, AsWritten, a1, a2);
    OrPairsMeaning(flag, n, minSep, a);
    var a1: nat, a2: nat :| a1 + minSep <= a2 < n && Position(Moves(b), a1) == Position(Moves(b), a2);
    OverlapFlagCatches(q, a, b, a1, a2);
    assert Eval(flag(a1, a2), a);
  }

  // ---------------------------------------------------------------- backtracking

  /** The four reversal clauses of turn t: E then W, W then E, N then S, S then N. */
  function Reversals(q: Table, t: nat): seq<Expr>
  {
    [And(DxPlus(q, t), DxMinus(q, t + 1)), And(DxMinus(q, t), DxPlus(q, t + 1)),
     And(DyPlus(q, t), DyMinus(q, t + 1)), And(DyMinus(q, t), DyPlus(q, t + 1))]
  }

  function BackClauses(q: Table): nat -> seq<Expr>
  {
    (t: nat) => Reversals(q, t)
  }

  /** `create_back_constraint`: the Or of the reversal clauses of turns 0 .. n - 3. */
  function Back(q: Table, n: nat): Expr
  {
    OrSteps(BackClauses(q), if n < 2 then 0 else n - 2)
  }

  /** The direction that undoes each direction. */
  function Opposite(d: Direction): Direction
  {
    match d
    case E => W
    case W => E
    case N => S
    case S => N
  }

  lemma OppositeUndoes(d1: Direction, d2: Direction)
    ensures Step(d2) == Negate(Step(d1)) <==> d2 == Opposite(d1)
  {
    assert Negate(Step(d1)) == Step(Opposite(d1));
    if Step(d2) == Negate(Step(d1)) {
      StepInjective(d2, Opposite(d1));
    }
  }

  lemma StepInjective(d1: Direction, d2: Direction)
    requires Step(d1) == Step(d2)
    ensures d1 == d2
  {
  }

  /** The four reversals are exactly the pairs of opposite directions. */
  lemma ReversalPairs(d1: Direction, d2: Direction)
    ensures (d1 == E && d2 == W) || (d1 == W && d2 == E) || (d1 == N && d2 == S) || (d1 == S && d2 == N)
        <==> d2 == Opposite(d1)
  {
  }

  /** A clause of turn t holds exactly when step t + 1 goes the opposite way to step t. */
  lemma ReversalsMeaning(q: Table, a: Assignment, b: Assignment, t: nat)
    requires Reflects(q, a, b)
    ensures (exists j :: 0 <= j < |Reversals(q, t)| && Eval(Reversals(q, t)[j], a))
        <==> Decode(b(t + 1, 0), b(t + 1, 1)) == Opposite(Decode(b(t, 0), b(t, 1)))
  {
    var d1, d2 := Decode(b(t, 0), b(t, 1)), Decode(b(t + 1, 0), b(t + 1, 1));
    var cs := Reversals(q, t);
    PredicatesMatchTable(q, a, b, t);
    PredicatesMatchTable(q, a, b, t + 1);
    assert Eval(cs[0], a) <==> d1 == E && d2 == W;
    assert Eval(cs[1], a) <==> d1 == W && d2 == E;
    assert Eval(cs[2], a) <==> d1 == N && d2 == S;
    assert Eval(cs[3], a) <==> d1 == S && d2 == N;
    ReversalPairs(d1, d2);
    if d2 == Opposite(d1) {
      if Eval(cs[0], a) {
        assert 0 < |cs|;
      } else if Eval(cs[1], a) {
        assert 1 < |cs|;
      } else if Eval(cs[2], a) {
        assert 2 < |cs|;
      } else {
        assert Eval(cs[3], a);
      }
    }
  }

  /** Step t + 1 undoes step t exactly when its direction is the opposite one. */
  lemma UndoesMeansOpposite(b: Assignment, t: nat)
    ensures Moves(b)(t + 1) == Negate(Moves(b)(t))
        <==> Decode(b(t + 1, 0), b(t + 1, 1)) == Opposite(Decode(b(t, 0), b(t, 1)))
  {
    var d1, d2 := Decode(b(t, 0), b(t, 1)), Decode(b(t + 1, 0), b(t + 1, 1));
    assert Moves(b)(t) == Step(d1) && Moves(b)(t + 1) == Step(d2);
    OppositeUndoes(d1, d2);
  }

  /** The backtrack term holds exactly when some step among 0 .. n - 2 undoes the one before. */
  lemma BackMeaning(q: Table, a: Assignment, b: Assignment, n: nat)
    requires Reflects(q, a, b)
    ensures Eval(Back(q, n), a) <==> Backtracks(Moves(b), n)
  {
    var k := if n < 2 then 0 else n - 2;
    OrStepsMeaning(BackClauses(q), k, a);
    if Eval(Back(q, n), a) {
      var t: nat, j :| t < k && 0 <= j < |BackClauses(q)(t)| && Eval(BackClauses(q)(t)[j], a);
      ReversalsMeaning(q, a, b, t);
      UndoesMeansOpposite(b, t);
      assert t + 2 < n;
    }
    if Backtracks(Moves(b), n) {
      var t: nat :| t + 2 < n && Moves(b)(t + 1) == Negate(Moves(b)(t));
      ReversalsMeaning(q, a, b, t);
      UndoesMeansOpposite(b, t);
      var j :| 0 <= j < |Reversals(q, t)| && Eval(Reversals(q, t)[j], a);
      assert t < k && Eval(BackClauses(q)(t)[j], a);
    }
  }

  /**
   * With the safe widths, the overlap term (pairs 3 or 4 apart and more) together with the
   * backtrack term holds exactly when the walk is not self-avoiding: residues one apart
   * never meet, two apart meet only by backtracking, and three apart never meet on this
   * lattice.
   */
  lemma ConstraintsExact(q: Table, a: Assignment, b: Assignment, n: nat, minSep: nat)
    requires Reflects(q, a, b) && (minSep == 3 || minSep == 4)
    ensures Eval(Overlap(q, Safe, n, minSep), a) || Eval(Back(q, n), a) <==> !SelfAvoiding(Moves(b), n)
  {
    MovesShape(b);
    OverlapExact(q, a, b, n, minSep);
    BackMeaning(q, a, b, n);
    SelfAvoidingSplit(Moves(b), n);
    OddApart(Moves(b), n);
  }

  /** As written the two terms still never let a clash through. */
  lemma ConstraintsCatch(q: Table, a: Assignment, b: Assignment, n: nat, minSep: nat)
    requires Reflects(q, a, b) && (minSep == 3 || minSep == 4) && !SelfAvoiding(Moves(b), n)
    ensures Eval(Overlap(q, AsWritten, n, minSep), a) || Eval(Back(q, n), a)
  {
    MovesShape(b);
    BackMeaning(q, a, b, n);
    SelfAvoidingSplit(Moves(b), n);
    OddApart(Moves(b), n);
    if !Backtracks(Moves(b), n) {
      OverlapCatches(q, a, b, n, minSep);
    }
  }

  // ---------------------------------------------------------------- adjacency

  /**
   * `adjacency_indicator` of residues a1 + 2 <= a2: (x equal and y offset by one) or
   * (y equal and x offset by one). The equality tests use ceil(log2(a2 - a1)) bits and the
   * offset tests ceil(log2(a2 - a1 + 1)) as written; the safe widths hold a2 - a1 and
   * a2 - a1 + 1.
   */
  function Adjacency(q: Table, sizing: Sizing, a1: nat, a2: nat): Expr
  {
    if a2 < a1 + 2 then Num(false)
    else
      var d := a2 - a1;
      var we, wo := Width(sizing, CeilLog2(d), d), Width(sizing, CeilLog2(d + 1), d + 1);
      WidthsWithin(sizing, d, we, wo);
      PlanarContact(XFamily(q), YFamily(q), a1, a2, we, wo)
  }

  /** For a2 >= a1 + 2 the indicator is the planar contact test on the two widths. */
  lemma AdjacencyIs(q: Table, sizing: Sizing, a1: nat, a2: nat, we: nat, wo: nat)
    requires a1 + 2 <= a2
    requires we == Width(sizing, CeilLog2(a2 - a1), a2 - a1) && wo == Width(sizing, CeilLog2(a2 - a1 + 1), a2 - a1 + 1)
    ensures we <= a2 - a1 && wo <= a2 - a1
    ensures Adjacency(q, sizing, a1, a2) == PlanarContact(XFamily(q), YFamily(q), a1, a2, we, wo)
  {
    WidthsWithin(sizing, a2 - a1, we, wo);
  }

  lemma WidthsWithin(sizing: Sizing, d: nat, we: nat, wo: nat)
    requires d >= 2 && we == Width(sizing, CeilLog2(d), d) && wo == Width(sizing, CeilLog2(d + 1), d + 1)
    ensures we <= d && wo <= d
  {
    AdjacencyWidthsFit(sizing, d);
  }

  lemma AdjacencyWidthsFit(sizing: Sizing, d: nat)
    requires d >= 2
    ensures Width(sizing, CeilLog2(d), d) <= d && Width(sizing, CeilLog2(d + 1), d + 1) <= d
  {
    RoomAbove(d, 1);
    LogWidthWithin(sizing, d, d);
    LogWidthWithin(sizing, d + 1, d);
  }

  /** Either width for a bound m below 2^d fits in d bits. */
  lemma LogWidthWithin(sizing: Sizing, m: nat, d: nat)
    requires 1 <= m && m < Pow2(d)
    ensures Width(sizing, CeilLog2(m), m) <= d
  {
    CeilLog2AtMost(m, d);
    WidthAtMost(sizing, CeilLog2(m), m, d);
  }

  /** A lattice move changes one of x and y by one and nothing else. */
  lemma IsMoveComponents(v: Vec)
    ensures IsMove(v)
        <==> v.z == 0 && ((v.x == 0 && (v.y == 1 || v.y == -1)) || (v.y == 0 && (v.x == 1 || v.x == -1)))
  {
    if v.z == 0 && ((v.x == 0 && (v.y == 1 || v.y == -1)) || (v.y == 0 && (v.x == 1 || v.x == -1))) {
      if v.x == 1 {
        assert v == Step(E);
      } else if v.x == -1 {
        assert v == Step(W);
      } else if v.y == 1 {
        assert v == Step(N);
      } else {
        assert v == Step(S);
      }
    }
  }

  /** Residues i and j of the walk b are in contact. */
  function Touching(b: Assignment): (nat, nat) -> bool
  {
    (i: nat, j: nat) => IsMove(Minus(Position(Moves(b), j), Position(Moves(b), i)))
  }

  /** With room for the distance in both widths, the contact test holds exactly on a contact. */
  lemma ContactExact(q: Table, a: Assignment, b: Assignment, a1: nat, a2: nat, we: nat, wo: nat)
    requires a1 < a2 && we <= a2 - a1 && wo <= a2 - a1 && Reflects(q, a, b)
    requires a2 - a1 < Pow2(we) && a2 - a1 + 1 < Pow2(wo)
    ensures Eval(PlanarContact(XFamily(q), YFamily(q), a1, a2, we, wo), a) <==> IsMove(Disp(Moves(b), a1, a2))
  {
    FamiliesRead(q, a, b);
    MovesShape(b);
    var v := Disp(Moves(b), a1, a2);
    PlanarContactExact(XFamily(q), YFamily(q), a1, a2, we, wo, a, Moves(b));
    FlatDisp(Moves(b), Z, a1, a2);
    IsMoveComponents(v);
    assert XFamily(q).axis == X && YFamily(q).axis == Y;
  }

  /** Whatever the widths, the contact test never misses a contact. */
  lemma ContactCatches(q: Table, a: Assignment, b: Assignment, a1: nat, a2: nat, we: nat, wo: nat)
    requires a1 < a2 && we <= a2 - a1 && wo <= a2 - a1 && Reflects(q, a, b)
    requires IsMove(Disp(Moves(b), a1, a2))
    ensures Eval(PlanarContact(XFamily(q), YFamily(q), a1, a2, we, wo), a)
  {
    FamiliesRead(q, a, b);
    IsMoveComponents(Disp(Moves(b), a1, a2));
    PlanarContactCatches(XFamily(q), YFamily(q), a1, a2, we, wo, a, Moves(b));
  }

  /** With the safe widths the indicator holds exactly when the two residues are in contact. */
  lemma AdjacencyExact(q: Table, a: Assignment, b: Assignment, a1: nat, a2: nat)
    requires a1 + 2 <= a2 && Reflects(q, a, b)
    ensures Eval(Adjacency(q, Safe, a1, a2), a) <==> IsMove(Minus(Position(Moves(b), a2), Position(Moves(b), a1)))
  {
    var we, wo := Width(Safe, CeilLog2(a2 - a1), a2 - a1), Width(Safe, CeilLog2(a2 - a1 + 1), a2 - a1 + 1);
    AdjacencyIs(q, Safe, a1, a2, we, wo);
    ContactExact(q, a, b, a1, a2, we, wo);
    DispIsPositionDifference(Moves(b), a1, a2);
  }

  /** As written the indicator never misses a contact. */
  lemma AdjacencyCatches(q: Table, a: Assignment, b: Assignment, a1: nat, a2: nat)
    requires a1 + 2 <= a2 && Reflects(q, a, b)
    requires IsMove(Minus(Position(Moves(b), a2), Position(Moves(b), a1)))
    ensures Eval(Adjacency(q, AsWritten, a1, a2), a)
  {
    var we, wo := CeilLog2(a2 - a1), CeilLog2(a2 - a1 + 1);
    AdjacencyIs(q, AsWritten, a1, a2, we, wo);
    DispIsPositionDifference(Moves(b), a1, a2);
    ContactCatches(q, a, b, a1, a2, we, wo);
  }

  // ---------------------------------------------------------------- the bit counts as written

  /** A walk whose every step is 01, east. */
  ghost predicate StraightEast(b: Assignment)
  {
    forall t: nat :: !b(t, 0) && b(t, 1)
  }

  /** The straight walk as one assignment; it agrees with the pins. */
  function AllEast(): Assignment
  {
    (t: nat, i: nat) => i == 1
  }

  lemma AllEastWitness()
    ensures StraightEast(AllEast()) && Reflects(Pinned(Presets), AllEast(), AllEast())
  {
  }

  /** Every step of a straight walk east moves one site along x. */
  lemma StraightSteps(b: Assignment)
    requires StraightEast(b)
    ensures forall t: nat :: Moves(b)(t) == Vec(1, 0, 0)
  {
    forall t: nat
      ensures Moves(b)(t) == Vec(1, 0, 0)
    {
      assert !b(t, 0) && b(t, 1);
    }
  }

  lemma StraightDisp(b: Assignment, i: nat, j: nat)
    requires StraightEast(b) && i <= j
    ensures Disp(Moves(b), i, j) == Vec(j - i, 0, 0)
  {
    StraightSteps(b);
    LineDisp(Moves(b), Vec(1, 0, 0), i, j);
  }

  lemma StraightSelfAvoiding(b: Assignment, n: nat)
    requires StraightEast(b)
    ensures SelfAvoiding(Moves(b), n)
  {
    forall i: nat, j: nat | i + 1 <= j < n
      ensures Position(Moves(b), i) != Position(Moves(b), j)
    {
      StraightDisp(b, 0, i);
      StraightDisp(b, 0, j);
    }
  }

  /**
   * As written, on a straight walk of n >= 5 residues the last residue and the one four before
   * it are flagged as overlapping: their x counts differ by 4, which two bits cannot tell from 0.
   * The overlap term therefore penalises a valid fold.
   */
  lemma OverlapFalseAlarm(q: Table, a: Assignment, b: Assignment, n: nat)
    requires Reflects(q, a, b) && StraightEast(b) && n >= 5
    ensures SelfAvoiding(Moves(b), n)
    ensures Eval(Overlap(q, AsWritten, n, 4), a)
  {
    var a1, a2 := n - 5, n - 1;
    StraightFlagged(q, a, b, a1, a2);
    var flag := (a1: nat, a2: nat) => OverlapFlag(q, AsWritten, a1, a2);
    OrPairsMeaning(flag, n, 4, a);
    assert Eval(flag(a1, a2), a);
    StraightSelfAvoiding(b, n);
  }

  /** Residues four apart on a straight walk raise the as-written overlap flag. */
  lemma StraightFlagged(q: Table, a: Assignment, b: Assignment, a1: nat, a2: nat)
    requires Reflects(q, a, b) && StraightEast(b) && a2 == a1 + 4
    ensures Eval(OverlapFlag(q, AsWritten, a1, a2), a)
  {
    StraightDisp(b, a1, a2);
    TwoBitsWrap(a2 - a1);
    OverlapFlagWraps(q, a, b, a1, a2);
  }

  /**
   * As written, any two residues three sites apart on a straight walk are reported in contact:
   * their x counts differ by 3, and 3 + 1 is 0 on the two bits the offset test uses.
   */
  lemma AdjacencyFalseContact(q: Table, a: Assignment, b: Assignment, a1: nat, a2: nat)
    requires Reflects(q, a, b) && StraightEast(b) && a2 == a1 + 3
    ensures !IsMove(Minus(Position(Moves(b), a2), Position(Moves(b), a1)))
    ensures Eval(Adjacency(q, AsWritten, a1, a2), a)
  {
    StraightApart(b, a1, a2);
    StraightFlaggedInContact(q, a, b, a1, a2);
  }

  /** Residues three sites apart on a straight walk are not in contact. */
  lemma StraightApart(b: Assignment, a1: nat, a2: nat)
    requires StraightEast(b) && a2 == a1 + 3
    ensures !IsMove(Minus(Position(Moves(b), a2), Position(Moves(b), a1)))
  {
    StraightDisp(b, a1, a2);
    IsMoveComponents(Disp(Moves(b), a1, a2));
    DispIsPositionDifference(Moves(b), a1, a2);
  }

  /** On two bits, residues three sites apart on a straight walk raise the as-written indicator. */
  lemma StraightFlaggedInContact(q: Table, a: Assignment, b: Assignment, a1: nat, a2: nat)
    requires Reflects(q, a, b) && StraightEast(b) && a2 == a1 + 3
    ensures Eval(Adjacency(q, AsWritten, a1, a2), a)
  {
    var x, y := XFamily(q), YFamily(q);
    TwoBitsWrap(3);
    TwoBitsWrap(4);
    AdjacencyIs(q, AsWritten, a1, a2, 2, 2);
    TestsFit(x, a1, a2, 2, 2);
    TestsFit(y, a1, a2, 2, 2);
    StraightContactTests(q, a, b, a1, a2);
    PlanarContactRead(x, y, a1, a2, 2, 2, a);
  }

  /** Three steps east: y has not changed, and on two bits x looks one step west. */
  lemma StraightContactTests(q: Table, a: Assignment, b: Assignment, a1: nat, a2: nat)
    requires Reflects(q, a, b) && StraightEast(b) && a2 == a1 + 3
    ensures Fits(YFamily(q), 0, 0, a1, a2, 2) && Fits(XFamily(q), 1, 0, a1, a2, 2) && Fits(XFamily(q), 0, 1, a1, a2, 2)
    ensures Eval(Test(YFamily(q), 0, 0, a1, a2, 2), a) && Eval(Offset(XFamily(q), a1, a2, 2), a)
  {
    var x, y := XFamily(q), YFamily(q);
    FamiliesRead(q, a, b);
    StraightDisp(b, a1, a2);
    TwoBitsWrap(a2 - a1);
    TestsFit(x, a1, a2, 2, 2);
    TestsFit(y, a1, a2, 2, 2);
    assert x.axis == X && y.axis == Y;
    TestWraps(y, 0, 0, a1, a2, 2, a, Moves(b));
    TestWraps(x, 1, 0, a1, a2, 2, a, Moves(b));
  }
}
