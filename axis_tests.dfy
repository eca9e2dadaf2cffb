/**
 * The coordinate tests every lattice builds from direction sums. One axis of a lattice
 * is read by two families of predicates: a step adds its hits in the plus family and
 * subtracts its hits in the minus family (the 8-direction y axis counts a N or S step
 * twice). Comparing the two adder outputs bit by bit decides, modulo a power of two,
 * whether the residues' coordinates on that axis differ by a given offset.
 */
module AxisTests {
  import opened Numeric
  import opened BoolExpr
  import opened BitOpsQubo
  import opened Assembly
  import opened Geometry

  /** The variable table a builder reads: q_vars[(t, i)]. */
  type Table = (nat, nat) -> Expr

  /** The pyqubo table: pinned bits hold their constant, every other entry is its variable. */
  function Pinned(pins: Pins): Table
  {
    (t: nat, i: nat) => Lookup(pins, t, i)
  }

  /** The sympy table: every entry is its variable; the pins are substituted afterwards. */
  function Fresh(): Table
  {
    (t: nat, i: nat) => Var(t, i)
  }

  /** Reading the pinned table under a is reading the fresh table under the pinned assignment. */
  lemma PinnedReadsEffective(pins: Pins, a: Assignment, t: nat, i: nat)
    ensures Eval(Pinned(pins)(t, i), a) == Eval(Fresh()(t, i), Effective(pins, a))
  {
  }

  /** Under a, every entry of table q reads as the variable's value under b. */
  ghost predicate Reflects(q: Table, a: Assignment, b: Assignment)
  {
    forall t: nat, i: nat :: Eval(q(t, i), a) == b(t, i)
  }

  /** The pinned table reads the pinned assignment. */
  lemma PinnedReflects(pins: Pins, a: Assignment)
    ensures Reflects(Pinned(pins), a, Effective(pins, a))
  {
  }

  /** The fresh table reads the assignment itself. */
  lemma FreshReflects(a: Assignment)
    ensures Reflects(Fresh(), a, a)
  {
  }

  datatype Family = Family(axis: Axis, plus: seq<nat -> Expr>, minus: seq<nat -> Expr>)

  predicate NonEmpty(f: Family)
  {
    |f.plus| >= 1 && |f.minus| >= 1
  }

  /** Under a, every step's plus hits minus its minus hits is the move's coordinate on the axis. */
  ghost predicate Reads(f: Family, a: Assignment, move: nat -> Vec)
  {
    forall t: nat :: Count(Row(f.plus, t), a) - Count(Row(f.minus, t), a) == Component(move(t), f.axis)
  }

  /** Every move's coordinate on the axis lies in -bound .. bound. */
  ghost predicate Bounded(move: nat -> Vec, axis: Axis, bound: nat)
  {
    forall t: nat :: -(bound as int) <= Component(move(t), axis) <= bound
  }

  lemma CountOne(f: nat -> Expr, t: nat, a: Assignment)
    ensures Count(Row([f], t), a) == Indicator(Eval(f(t), a))
  {
    RowOne(f, t);
    assert [f(t)][1..] == [];
  }

  lemma CountTwo(f1: nat -> Expr, f2: nat -> Expr, t: nat, a: Assignment)
    ensures Count(Row([f1, f2], t), a) == Indicator(Eval(f1(t), a)) + Indicator(Eval(f2(t), a))
  {
    RowTwo(f1, f2, t);
    assert [f1(t), f2(t)][1..] == [f2(t)];
    assert [f2(t)][1..] == [];
  }

  /** Over end - start steps the coordinate moves by at most bound per step. */
  lemma {:induction false} DispBounded(move: nat -> Vec, axis: Axis, bound: nat, start: nat, end: nat)
    requires start <= end && Bounded(move, axis, bound)
    ensures -((bound * (end - start)) as int) <= Component(Disp(move, start, end), axis) <= bound * (end - start)
    decreases end
  {
    if end > start {
      DispBounded(move, axis, bound, start, end - 1);
      assert bound * (end - start) == bound * (end - 1 - start) + bound;
      assert Component(Disp(move, start, end), axis)
          == Component(Disp(move, start, end - 1), axis) + Component(move(end - 1), axis);
    }
  }

  /** A coordinate no step changes stays where it started. */
  lemma FlatDisp(move: nat -> Vec, axis: Axis, start: nat, end: nat)
    requires start <= end && Bounded(move, axis, 0)
    ensures Component(Disp(move, start, end), axis) == 0
  {
    DispBounded(move, axis, 0, start, end);
    assert 0 * (end - start) == 0;
  }

  // ---------------------------------------------------------------- one comparison

  /** The two seeded sums over a1 .. a2 - 1 are both non-empty and have at least w bits. */
  predicate Fits(f: Family, seedP: nat, seedM: nat, a1: nat, a2: nat, w: nat)
  {
    && a1 < a2 && NonEmpty(f)
    && 1 <= seedP + |f.plus| * (a2 - a1) && w <= seedP + |f.plus| * (a2 - a1)
    && 1 <= seedM + |f.minus| * (a2 - a1) && w <= seedM + |f.minus| * (a2 - a1)
  }

  /** A family with a predicate on each side has room for w bits over w or more steps, whatever the seeds. */
  lemma FitsSteps(f: Family, seedP: nat, seedM: nat, a1: nat, a2: nat, w: nat)
    requires NonEmpty(f) && a1 < a2 && w <= a2 - a1
    ensures Fits(f, seedP, seedM, a1, a2, w)
  {
    MulAtLeast(|f.plus|, a2 - a1);
    MulAtLeast(|f.minus|, a2 - a1);
  }

  /** Room for an equality test on we bits and both offset tests on wo bits. */
  lemma TestsFit(f: Family, a1: nat, a2: nat, we: nat, wo: nat)
    requires NonEmpty(f) && a1 < a2 && we <= a2 - a1 && wo <= a2 - a1
    ensures Fits(f, 0, 0, a1, a2, we) && Fits(f, 1, 0, a1, a2, wo) && Fits(f, 0, 1, a1, a2, wo)
  {
    FitsSteps(f, 0, 0, a1, a2, we);
    FitsSteps(f, 1, 0, a1, a2, wo);
    FitsSteps(f, 0, 1, a1, a2, wo);
  }

  /**
   * The comparison of the (seedP + plus hits) and (seedM + minus hits) sums on their w low
   * bits, as each builder's bit loop accumulates it.
   */
  function Test(f: Family, seedP: nat, seedM: nat, a1: nat, a2: nat, w: nat): Expr
    requires Fits(f, seedP, seedM, a1, a2, w)
  {
    EqualBits(SumBits(seedP, f.plus, a1, a2), SumBits(seedM, f.minus, a1, a2), w)
  }

  /**
   * A comparison holds exactly when the coordinate change between residues a1 and a2, plus
   * seedP - seedM, is a multiple of 2^w.
   */
  lemma TestMeaning(f: Family, seedP: nat, seedM: nat, a1: nat, a2: nat, w: nat, a: Assignment, move: nat -> Vec)
    requires Fits(f, seedP, seedM, a1, a2, w) && Reads(f, a, move)
    ensures Eval(Test(f, seedP, seedM, a1, a2, w), a)
        <==> (seedP - seedM + Component(Disp(move, a1, a2), f.axis)) % Pow2(w) == 0
  {
    ReadsTally(f, a1, a2, a, move);
    TestTallies(f, seedP, seedM, a1, a2, w, a);
    var c := Component(Disp(move, a1, a2), f.axis);
    ShiftedTallies(seedP, seedM, Tally(f.plus, a1, a2, a), Tally(f.minus, a1, a2, a), c, Pow2(w));
  }

  lemma ShiftedTallies(seedP: int, seedM: int, tp: int, tm: int, c: int, m: int)
    requires tp - tm == c && m > 0
    ensures (seedP + tp - (seedM + tm)) % m == 0 <==> (seedP - seedM + c) % m == 0
  {
    assert seedP + tp - (seedM + tm) == seedP - seedM + c;
  }

  /** A comparison holds exactly when the two seeded tallies agree modulo 2^w. */
  lemma TestTallies(f: Family, seedP: nat, seedM: nat, a1: nat, a2: nat, w: nat, a: Assignment)
    requires Fits(f, seedP, seedM, a1, a2, w)
    ensures Eval(Test(f, seedP, seedM, a1, a2, w), a)
        <==> (seedP + Tally(f.plus, a1, a2, a) - (seedM + Tally(f.minus, a1, a2, a))) % Pow2(w) == 0
  {
    CompareSums(seedP, f.plus, seedM, f.minus, a1, a2, w, a);
  }

  /** Under a, the plus tally less the minus tally is the coordinate change. */
  lemma ReadsTally(f: Family, a1: nat, a2: nat, a: Assignment, move: nat -> Vec)
    requires Reads(f, a, move)
    ensures Tally(f.plus, a1, a2, a) - Tally(f.minus, a1, a2, a) == Component(Disp(move, a1, a2), f.axis)
  {
    if a1 <= a2 {
      TallyDisplacement(f.plus, f.minus, a1, a2, a, move, f.axis);
    }
  }

  /** A comparison never misses: when the coordinates differ by exactly seedM - seedP it holds. */
  lemma TestCatches(f: Family, seedP: nat, seedM: nat, a1: nat, a2: nat, w: nat, a: Assignment, move: nat -> Vec)
    requires Fits(f, seedP, seedM, a1, a2, w) && Reads(f, a, move)
    requires Component(Disp(move, a1, a2), f.axis) == seedM - seedP
    ensures Eval(Test(f, seedP, seedM, a1, a2, w), a)
  {
    TestMeaning(f, seedP, seedM, a1, a2, w, a, move);
    assert seedP - seedM + Component(Disp(move, a1, a2), f.axis) == 0;
    ModSmall(0, Pow2(w));
  }

  /**
   * With enough bits for every reachable value the comparison is exact: it holds exactly
   * when the coordinates differ by seedM - seedP.
   */
  lemma ExactTest(f: Family, seedP: nat, seedM: nat, a1: nat, a2: nat, w: nat, a: Assignment, move: nat -> Vec, bound: nat)
    requires Fits(f, seedP, seedM, a1, a2, w) && Reads(f, a, move) && Bounded(move, f.axis, bound)
    requires bound * (a2 - a1) + seedP + seedM < Pow2(w)
    ensures Eval(Test(f, seedP, seedM, a1, a2, w), a) <==> Component(Disp(move, a1, a2), f.axis) == seedM - seedP
  {
    TestMeaning(f, seedP, seedM, a1, a2, w, a, move);
    DispBounded(move, f.axis, bound, a1, a2);
    var c := Component(Disp(move, a1, a2), f.axis);
    SmallOffset(c, bound * (a2 - a1), seedP, seedM, Pow2(w));
  }

  lemma SmallOffset(c: int, reach: nat, seedP: nat, seedM: nat, m: int)
    requires -(reach as int) <= c <= reach && reach + seedP + seedM < m
    ensures (seedP - seedM + c) % m == 0 <==> c == seedM - seedP
  {
    var v := seedP - seedM + c;
    if v % m == 0 {
      SmallMultipleIsZero(v, m);
    }
    if c == seedM - seedP {
      assert v == 0;
    }
  }

  /** `plus_one` or `minus_one`: the coordinates differ by 1 in one direction or the other. */
  function Offset(f: Family, a1: nat, a2: nat, w: nat): Expr
    requires Fits(f, 1, 0, a1, a2, w) && Fits(f, 0, 1, a1, a2, w)
  {
    Or(Test(f, 1, 0, a1, a2, w), Test(f, 0, 1, a1, a2, w))
  }

  /** With enough bits the offset test holds exactly when the coordinate changes by 1 or -1. */
  lemma OffsetExact(f: Family, a1: nat, a2: nat, w: nat, a: Assignment, move: nat -> Vec, bound: nat)
    requires Fits(f, 1, 0, a1, a2, w) && Fits(f, 0, 1, a1, a2, w) && Reads(f, a, move) && Bounded(move, f.axis, bound)
    requires bound * (a2 - a1) + 1 < Pow2(w)
    ensures Eval(Offset(f, a1, a2, w), a)
        <==> Component(Disp(move, a1, a2), f.axis) == 1 || Component(Disp(move, a1, a2), f.axis) == -1
  {
    ExactTest(f, 1, 0, a1, a2, w, a, move, bound);
    ExactTest(f, 0, 1, a1, a2, w, a, move, bound);
    OffsetFromTests(f, a1, a2, w, a, Component(Disp(move, a1, a2), f.axis));
  }

  /** The offset test is the disjunction of its two exact comparisons. */
  lemma OffsetFromTests(f: Family, a1: nat, a2: nat, w: nat, a: Assignment, c: int)
    requires Fits(f, 1, 0, a1, a2, w) && Fits(f, 0, 1, a1, a2, w)
    requires Eval(Test(f, 1, 0, a1, a2, w), a) <==> c == -1
    requires Eval(Test(f, 0, 1, a1, a2, w), a) <==> c == 1
    ensures Eval(Offset(f, a1, a2, w), a) <==> c == 1 || c == -1
  {
  }

  /** The offset test never misses a change by 1 or -1. */
  lemma OffsetCatches(f: Family, a1: nat, a2: nat, w: nat, a: Assignment, move: nat -> Vec)
    requires Fits(f, 1, 0, a1, a2, w) && Fits(f, 0, 1, a1, a2, w) && Reads(f, a, move)
    requires Component(Disp(move, a1, a2), f.axis) == 1 || Component(Disp(move, a1, a2), f.axis) == -1
    ensures Eval(Offset(f, a1, a2, w), a)
  {
    if Component(Disp(move, a1, a2), f.axis) == -1 {
      TestCatches(f, 1, 0, a1, a2, w, a, move);
    } else {
      TestCatches(f, 0, 1, a1, a2, w, a, move);
    }
  }

  /** `plus_two` or `minus_two`: the coordinates differ by 2 in one direction or the other. */
  function Offset2(f: Family, a1: nat, a2: nat, w: nat): Expr
    requires Fits(f, 2, 0, a1, a2, w) && Fits(f, 0, 2, a1, a2, w)
  {
    Or(Test(f, 2, 0, a1, a2, w), Test(f, 0, 2, a1, a2, w))
  }

  /** With enough bits the two-step offset test holds exactly when the coordinate changes by 2 or -2. */
  lemma Offset2Exact(f: Family, a1: nat, a2: nat, w: nat, a: Assignment, move: nat -> Vec, bound: nat)
    requires Fits(f, 2, 0, a1, a2, w) && Fits(f, 0, 2, a1, a2, w) && Reads(f, a, move) && Bounded(move, f.axis, bound)
    requires bound * (a2 - a1) + 2 < Pow2(w)
    ensures Eval(Offset2(f, a1, a2, w), a)
        <==> Component(Disp(move, a1, a2), f.axis) == 2 || Component(Disp(move, a1, a2), f.axis) == -2
  {
    ExactTest(f, 2, 0, a1, a2, w, a, move, bound);
    ExactTest(f, 0, 2, a1, a2, w, a, move, bound);
    Offset2FromTests(f, a1, a2, w, a, Component(Disp(move, a1, a2), f.axis));
  }

  /** The two-step offset test is the disjunction of its two exact comparisons. */
  lemma Offset2FromTests(f: Family, a1: nat, a2: nat, w: nat, a: Assignment, c: int)
    requires Fits(f, 2, 0, a1, a2, w) && Fits(f, 0, 2, a1, a2, w)
    requires Eval(Test(f, 2, 0, a1, a2, w), a) <==> c == -2
    requires Eval(Test(f, 0, 2, a1, a2, w), a) <==> c == 2
    ensures Eval(Offset2(f, a1, a2, w), a) <==> c == 2 || c == -2
  {
  }

  /** The two-step offset test never misses a change by 2 or -2. */
  lemma Offset2Catches(f: Family, a1: nat, a2: nat, w: nat, a: Assignment, move: nat -> Vec)
    requires Fits(f, 2, 0, a1, a2, w) && Fits(f, 0, 2, a1, a2, w) && Reads(f, a, move)
    requires Component(Disp(move, a1, a2), f.axis) == 2 || Component(Disp(move, a1, a2), f.axis) == -2
    ensures Eval(Offset2(f, a1, a2, w), a)
  {
    if Component(Disp(move, a1, a2), f.axis) == -2 {
      TestCatches(f, 2, 0, a1, a2, w, a, move);
    } else {
      TestCatches(f, 0, 2, a1, a2, w, a, move);
    }
  }

  // ---------------------------------------------------------------- contact in a plane

  /**
   * The planar contact test: (x equal and y offset by one) or (y equal and x offset by one),
   * the equalities on we bits and the offsets on wo bits.
   */
  function PlanarContact(fx: Family, fy: Family, a1: nat, a2: nat, we: nat, wo: nat): Expr
    requires NonEmpty(fx) && NonEmpty(fy) && a1 < a2 && we <= a2 - a1 && wo <= a2 - a1
  {
    TestsFit(fx, a1, a2, we, wo);
    TestsFit(fy, a1, a2, we, wo);
    Or(And(Test(fx, 0, 0, a1, a2, we), Offset(fy, a1, a2, wo)),
       And(Test(fy, 0, 0, a1, a2, we), Offset(fx, a1, a2, wo)))
  }

  /** The planar test, read through its two equality and two offset tests. */
  lemma PlanarContactRead(fx: Family, fy: Family, a1: nat, a2: nat, we: nat, wo: nat, a: Assignment)
    requires NonEmpty(fx) && NonEmpty(fy) && a1 < a2 && we <= a2 - a1 && wo <= a2 - a1
    requires Fits(fx, 0, 0, a1, a2, we) && Fits(fx, 1, 0, a1, a2, wo) && Fits(fx, 0, 1, a1, a2, wo)
    requires Fits(fy, 0, 0, a1, a2, we) && Fits(fy, 1, 0, a1, a2, wo) && Fits(fy, 0, 1, a1, a2, wo)
    ensures Eval(PlanarContact(fx, fy, a1, a2, we, wo), a)
        == ((Eval(Test(fx, 0, 0, a1, a2, we), a) && Eval(Offset(fy, a1, a2, wo), a))
           || (Eval(Test(fy, 0, 0, a1, a2, we), a) && Eval(Offset(fx, a1, a2, wo), a)))
  {
    assert PlanarContact(fx, fy, a1, a2, we, wo)
        == Or(And(Test(fx, 0, 0, a1, a2, we), Offset(fy, a1, a2, wo)), And(Test(fy, 0, 0, a1, a2, we), Offset(fx, a1, a2, wo)));
    EvalOrOfAnds(Test(fx, 0, 0, a1, a2, we), Offset(fy, a1, a2, wo), Test(fy, 0, 0, a1, a2, we), Offset(fx, a1, a2, wo), a);
  }

  /** With room for the distance in both widths, the planar test holds exactly on a unit offset along one axis. */
  lemma PlanarContactExact(fx: Family, fy: Family, a1: nat, a2: nat, we: nat, wo: nat, a: Assignment, move: nat -> Vec)
    requires NonEmpty(fx) && NonEmpty(fy) && a1 < a2 && we <= a2 - a1 && wo <= a2 - a1
    requires Reads(fx, a, move) && Reads(fy, a, move) && Bounded(move, fx.axis, 1) && Bounded(move, fy.axis, 1)
    requires a2 - a1 < Pow2(we) && a2 - a1 + 1 < Pow2(wo)
    ensures Eval(PlanarContact(fx, fy, a1, a2, we, wo), a)
        <==> ((Component(Disp(move, a1, a2), fx.axis) == 0
               && (Component(Disp(move, a1, a2), fy.axis) == 1 || Component(Disp(move, a1, a2), fy.axis) == -1))
             || (Component(Disp(move, a1, a2), fy.axis) == 0
               && (Component(Disp(move, a1, a2), fx.axis) == 1 || Component(Disp(move, a1, a2), fx.axis) == -1)))
  {
    TestsFit(fx, a1, a2, we, wo);
    TestsFit(fy, a1, a2, we, wo);
    ExactTest(fx, 0, 0, a1, a2, we, a, move, 1);
    ExactTest(fy, 0, 0, a1, a2, we, a, move, 1);
    OffsetExact(fx, a1, a2, wo, a, move, 1);
    OffsetExact(fy, a1, a2, wo, a, move, 1);
    var cx, cy := Component(Disp(move, a1, a2), fx.axis), Component(Disp(move, a1, a2), fy.axis);
    var tx, ty := Eval(Test(fx, 0, 0, a1, a2, we), a), Eval(Test(fy, 0, 0, a1, a2, we), a);
    var ox, oy := Eval(Offset(fx, a1, a2, wo), a), Eval(Offset(fy, a1, a2, wo), a);
    assert tx == (cx == 0) && ty == (cy == 0);
    assert ox == (cx == 1 || cx == -1) && oy == (cy == 1 || cy == -1);
    PlanarContactRead(fx, fy, a1, a2, we, wo, a);
  }

  /** Whatever the widths, the planar test never misses a unit offset along one axis. */
  lemma PlanarContactCatches(fx: Family, fy: Family, a1: nat, a2: nat, we: nat, wo: nat, a: Assignment, move: nat -> Vec)
    requires NonEmpty(fx) && NonEmpty(fy) && a1 < a2 && we <= a2 - a1 && wo <= a2 - a1
    requires Reads(fx, a, move) && Reads(fy, a, move)
    requires (Component(Disp(move, a1, a2), fx.axis) == 0
              && (Component(Disp(move, a1, a2), fy.axis) == 1 || Component(Disp(move, a1, a2), fy.axis) == -1))
          || (Component(Disp(move, a1, a2), fy.axis) == 0
              && (Component(Disp(move, a1, a2), fx.axis) == 1 || Component(Disp(move, a1, a2), fx.axis) == -1))
    ensures Eval(PlanarContact(fx, fy, a1, a2, we, wo), a)
  {
    TestsFit(fx, a1, a2, we, wo);
    TestsFit(fy, a1, a2, we, wo);
    PlanarContactRead(fx, fy, a1, a2, we, wo, a);
    if Component(Disp(move, a1, a2), fx.axis) == 0 {
      TestCatches(fx, 0, 0, a1, a2, we, a, move);
      OffsetCatches(fy, a1, a2, wo, a, move);
    } else {
      TestCatches(fy, 0, 0, a1, a2, we, a, move);
      OffsetCatches(fx, a1, a2, wo, a, move);
    }
  }

  // ---------------------------------------------------------------- sizing the comparisons

  /** The bit counts as the program computes them, or enough bits to separate every value. */
  datatype Sizing = AsWritten | Safe

  /**
   * The width of one comparison: the program's count, or, when every value it must tell
   * apart from 0 lies in -bound .. bound, the least count whose power of two exceeds bound.
   */
  function Width(sizing: Sizing, written: nat, bound: nat): (w: nat)
    ensures sizing == Safe ==> bound < Pow2(w)
  {
    if sizing == AsWritten then written else CeilLog2(bound + 1)
  }

  /** A width of ceil(log2(m)) + e bits, or a safe one for bound, stays within limit. */
  lemma WidthFits(sizing: Sizing, m: nat, e: nat, bound: nat, limit: nat)
    requires m >= 1 && m - 1 + e <= limit && bound < Pow2(limit)
    ensures Width(sizing, CeilLog2(m) + e, bound) <= limit
  {
    CeilLog2Below(m);
    WidthAtMost(sizing, CeilLog2(m) + e, bound, limit);
  }

  /**
   * ceil(log2(d + k)) bits for a comparison, over a pair d apart, along an axis that changes
   * by at most one per step, or enough bits for d + k. Either way the sums have room for it.
   */
  function AxisWidth(sizing: Sizing, d: nat, k: nat): (w: nat)
    requires d >= 1 && k <= 1 && (k == 0 || d >= 2)
    ensures w <= d && (sizing == Safe ==> d + k < Pow2(w))
  {
    var m := d + k;
    RoomAbove(d, k);
    WidthFits(sizing, m, 0, m, d);
    Width(sizing, CeilLog2(m), m)
  }

  /** A width is at most limit when the written count is and, for the safe width, 2^limit exceeds bound. */
  lemma WidthAtMost(sizing: Sizing, written: nat, bound: nat, limit: nat)
    requires written <= limit && bound < Pow2(limit)
    ensures Width(sizing, written, bound) <= limit
  {
    if sizing == Safe {
      CeilLog2AtMost(bound + 1, limit);
    }
  }

  /** When 2^k leaves room above k + extra, k bits hold the safe width for bound k + extra. */
  lemma SafeWidthFits(k: nat, extra: nat)
    requires (k >= 1 && extra == 0) || (k >= 2 && extra <= 1) || (k >= 3 && extra <= 2)
    ensures CeilLog2(k + extra + 1) <= k
  {
    if k >= 2 {
      Pow2Linear(k);
    }
    Pow2Above(k);
    CeilLog2AtMost(k + extra + 1, k);
  }

  // ---------------------------------------------------------------- the per-bit overlap flags

  function SumPair(f: Family, a1: nat, a2: nat): (seq<Expr>, seq<Expr>)
    requires a1 < a2 && NonEmpty(f)
  {
    (SumBits(0, f.plus, a1, a2), SumBits(0, f.minus, a1, a2))
  }

  /** Every family reads some predicate on both sides and has at least w bits per sum. */
  predicate Spans(fams: seq<Family>, a1: nat, a2: nat, w: nat)
  {
    a1 < a2
    && forall k :: 0 <= k < |fams| ==>
         NonEmpty(fams[k]) && w <= |fams[k].plus| * (a2 - a1) && w <= |fams[k].minus| * (a2 - a1)
  }

  /** Families with a predicate on each side have room for w bits over w or more steps. */
  lemma SpansSteps(fams: seq<Family>, a1: nat, a2: nat, w: nat)
    requires a1 < a2 && w <= a2 - a1
    requires forall k :: 0 <= k < |fams| ==> NonEmpty(fams[k])
    ensures Spans(fams, a1, a2, w)
  {
    forall k | 0 <= k < |fams|
      ensures w <= |fams[k].plus| * (a2 - a1) && w <= |fams[k].minus| * (a2 - a1)
    {
      MulAtLeast(|fams[k].plus|, a2 - a1);
      MulAtLeast(|fams[k].minus|, a2 - a1);
    }
  }

  /**
   * The flags of bits 0 .. w - 1 of an overlap loop: flag `bit` chains the Xnors of every
   * family's two sums at that bit.
   */
  function Segment(fams: seq<Family>, a1: nat, a2: nat, w: nat): (r: seq<Expr>)
    requires Spans(fams, a1, a2, w)
    ensures |r| == w
  {
    BitFlags(seq(|fams|, k requires 0 <= k < |fams| => SumPair(fams[k], a1, a2)), w)
  }

  /** One family's two sums agree modulo 2^w exactly when its coordinate change is a multiple of 2^w. */
  lemma FamilyAgrees(f: Family, a1: nat, a2: nat, w: nat, a: Assignment, move: nat -> Vec)
    requires a1 < a2 && NonEmpty(f) && Reads(f, a, move)
    ensures Weight(SumPair(f, a1, a2).0, a) % Pow2(w) == Weight(SumPair(f, a1, a2).1, a) % Pow2(w)
        <==> Component(Disp(move, a1, a2), f.axis) % Pow2(w) == 0
  {
    var pair := SumPair(f, a1, a2);
    PairCounts(f, a1, a2, a);
    TallyDisplacement(f.plus, f.minus, a1, a2, a, move, f.axis);
    var c := Component(Disp(move, a1, a2), f.axis);
    AgreeExactlyWhenDivides(Weight(pair.0, a), Weight(pair.1, a), Tally(f.plus, a1, a2, a), Tally(f.minus, a1, a2, a), c, w);
  }

  /** The two sums of a family count the turns going each way. */
  lemma PairCounts(f: Family, a1: nat, a2: nat, a: Assignment)
    requires a1 < a2 && NonEmpty(f)
    ensures Weight(SumPair(f, a1, a2).0, a) == Tally(f.plus, a1, a2, a)
    ensures Weight(SumPair(f, a1, a2).1, a) == Tally(f.minus, a1, a2, a)
  {
    MulAtLeast(|f.plus|, a2 - a1);
    MulAtLeast(|f.minus|, a2 - a1);
    SumBitsCounts(0, f.plus, a1, a2, a);
    SumBitsCounts(0, f.minus, a1, a2, a);
  }

  lemma AgreeExactlyWhenDivides(wp: int, wm: int, tp: int, tm: int, c: int, w: nat)
    requires wp == tp && wm == tm && tp - tm == c
    ensures wp % Pow2(w) == wm % Pow2(w) <==> c % Pow2(w) == 0
  {
    ModDifference(tp, tm, Pow2(w));
  }

  /** All flags of a segment hold exactly when every family's coordinate change is a multiple of 2^w. */
  lemma SegmentMeaning(fams: seq<Family>, a1: nat, a2: nat, w: nat, a: Assignment, move: nat -> Vec)
    requires Spans(fams, a1, a2, w)
    requires forall k :: 0 <= k < |fams| ==> Reads(fams[k], a, move)
    ensures (forall i :: 0 <= i < w ==> Eval(Segment(fams, a1, a2, w)[i], a))
        <==> forall k :: 0 <= k < |fams| ==> Component(Disp(move, a1, a2), fams[k].axis) % Pow2(w) == 0
  {
    var pairs := seq(|fams|, k requires 0 <= k < |fams| => SumPair(fams[k], a1, a2));
    assert Segment(fams, a1, a2, w) == BitFlags(pairs, w);
    BitFlagsMeaning(pairs, w, a);
    forall k | 0 <= k < |fams|
      ensures Weight(pairs[k].0, a) % Pow2(w) == Weight(pairs[k].1, a) % Pow2(w)
          <==> Component(Disp(move, a1, a2), fams[k].axis) % Pow2(w) == 0
    {
      FamilyAgrees(fams[k], a1, a2, w, a, move);
    }
  }

  /** With enough bits, all flags of a segment hold exactly when no family's coordinate changes. */
  lemma SegmentExact(fams: seq<Family>, a1: nat, a2: nat, w: nat, a: Assignment, move: nat -> Vec, bound: nat)
    requires Spans(fams, a1, a2, w)
    requires forall k :: 0 <= k < |fams| ==> Reads(fams[k], a, move) && Bounded(move, fams[k].axis, bound)
    requires bound * (a2 - a1) < Pow2(w)
    ensures (forall i :: 0 <= i < w ==> Eval(Segment(fams, a1, a2, w)[i], a))
        <==> forall k :: 0 <= k < |fams| ==> Component(Disp(move, a1, a2), fams[k].axis) == 0
  {
    SegmentMeaning(fams, a1, a2, w, a, move);
    forall k | 0 <= k < |fams|
      ensures Component(Disp(move, a1, a2), fams[k].axis) % Pow2(w) == 0
          <==> Component(Disp(move, a1, a2), fams[k].axis) == 0
    {
      var v := Component(Disp(move, a1, a2), fams[k].axis);
      DispBounded(move, fams[k].axis, bound, a1, a2);
      if v % Pow2(w) == 0 {
        SmallMultipleIsZero(v, Pow2(w));
      }
    }
  }

  /** With enough bits, a raised overlap flag means the family's coordinate is unchanged. */
  lemma SegmentRulesOut(fams: seq<Family>, k: nat, a1: nat, a2: nat, w: nat, a: Assignment, move: nat -> Vec, bound: nat)
    requires Spans(fams, a1, a2, w) && k < |fams|
    requires Reads(fams[k], a, move) && Bounded(move, fams[k].axis, bound)
    requires bound * (a2 - a1) < Pow2(w)
    requires Eval(AndFold(Segment(fams, a1, a2, w)), a)
    ensures Component(Disp(move, a1, a2), fams[k].axis) == 0
  {
    var pairs := seq(|fams|, j requires 0 <= j < |fams| => SumPair(fams[j], a1, a2));
    assert Segment(fams, a1, a2, w) == BitFlags(pairs, w);
    AndFoldMeaning(BitFlags(pairs, w), a);
    BitFlagsMeaning(pairs, w, a);
    assert Weight(pairs[k].0, a) % Pow2(w) == Weight(pairs[k].1, a) % Pow2(w);
    FamilyAgrees(fams[k], a1, a2, w, a, move);
    var v := Component(Disp(move, a1, a2), fams[k].axis);
    DispBounded(move, fams[k].axis, bound, a1, a2);
    SmallMultipleIsZero(v, Pow2(w));
  }

  /** The overlap flag of two families, with enough bits: both coordinates are unchanged. */
  lemma TwoAxesExact(fams: seq<Family>, a1: nat, a2: nat, w: nat, a: Assignment, move: nat -> Vec, bound: nat)
    requires |fams| == 2 && Spans(fams, a1, a2, w)
    requires Reads(fams[0], a, move) && Reads(fams[1], a, move)
    requires Bounded(move, fams[0].axis, bound) && Bounded(move, fams[1].axis, bound)
    requires bound * (a2 - a1) < Pow2(w)
    ensures Eval(AndFold(Segment(fams, a1, a2, w)), a)
        <==> Component(Disp(move, a1, a2), fams[0].axis) == 0 && Component(Disp(move, a1, a2), fams[1].axis) == 0
  {
    if Eval(AndFold(Segment(fams, a1, a2, w)), a) {
      SegmentRulesOut(fams, 0, a1, a2, w, a, move, bound);
      SegmentRulesOut(fams, 1, a1, a2, w, a, move, bound);
    } else if Component(Disp(move, a1, a2), fams[0].axis) == 0 && Component(Disp(move, a1, a2), fams[1].axis) == 0 {
      TwoAxesCatches(fams, a1, a2, w, a, move);
    }
  }

  /** w bits cannot tell c from 0. */
  predicate Wraps(c: int, w: nat)
  {
    c % Pow2(w) == 0
  }

  /** No width misses a change of 0. */
  lemma WrapsZero(w: nat)
    ensures Wraps(0, w)
  {
    ModSmall(0, Pow2(w));
  }

  /** When 2^w exceeds every value c can take, w bits tell c from 0. */
  lemma WrapsOnlyZero(c: int, bound: nat, w: nat)
    requires -(bound as int) <= c <= bound && bound < Pow2(w)
    ensures Wraps(c, w) <==> c == 0
  {
    if Wraps(c, w) {
      SmallMultipleIsZero(c, Pow2(w));
    }
  }

  /** Distances 3 and 4 are both given two bits, which cannot tell 4 from 0. */
  lemma TwoBitsWrap(d: nat)
    requires d == 3 || d == 4
    ensures CeilLog2(d) == 2 && Wraps(4, 2) && Wraps(0, 2)
  {
    SmallLogs();
  }

  /** A comparison holds whenever its w bits cannot see the difference it is testing. */
  lemma TestWraps(f: Family, seedP: nat, seedM: nat, a1: nat, a2: nat, w: nat, a: Assignment, move: nat -> Vec)
    requires Fits(f, seedP, seedM, a1, a2, w) && Reads(f, a, move)
    requires Wraps(seedP - seedM + Component(Disp(move, a1, a2), f.axis), w)
    ensures Eval(Test(f, seedP, seedM, a1, a2, w), a)
  {
    TestMeaning(f, seedP, seedM, a1, a2, w, a, move);
  }

  /** The overlap flag of two families is raised whenever both coordinate changes are multiples of 2^w. */
  lemma TwoAxesWraps(fams: seq<Family>, a1: nat, a2: nat, w: nat, a: Assignment, move: nat -> Vec)
    requires |fams| == 2 && Spans(fams, a1, a2, w)
    requires Reads(fams[0], a, move) && Reads(fams[1], a, move)
    requires Wraps(Component(Disp(move, a1, a2), fams[0].axis), w)
    requires Wraps(Component(Disp(move, a1, a2), fams[1].axis), w)
    ensures Eval(AndFold(Segment(fams, a1, a2, w)), a)
  {
    forall k | 0 <= k < |fams|
      ensures Reads(fams[k], a, move) && Component(Disp(move, a1, a2), fams[k].axis) % Pow2(w) == 0
    {
    }
    AndFoldMeaning(Segment(fams, a1, a2, w), a);
    SegmentMeaning(fams, a1, a2, w, a, move);
  }

  /** Whatever the width, the overlap flag of two families is raised when both coordinates are unchanged. */
  lemma TwoAxesCatches(fams: seq<Family>, a1: nat, a2: nat, w: nat, a: Assignment, move: nat -> Vec)
    requires |fams| == 2 && Spans(fams, a1, a2, w)
    requires Reads(fams[0], a, move) && Reads(fams[1], a, move)
    requires Component(Disp(move, a1, a2), fams[0].axis) == 0 && Component(Disp(move, a1, a2), fams[1].axis) == 0
    ensures Eval(AndFold(Segment(fams, a1, a2, w)), a)
  {
    Pow2Above(w);
    ModSmall(0, Pow2(w));
    TwoAxesWraps(fams, a1, a2, w, a, move);
  }

  /** Every flag of the list holds. */
  ghost predicate AllHold(flags: seq<Expr>, a: Assignment)
  {
    forall i :: 0 <= i < |flags| ==> Eval(flags[i], a)
  }

  /** The running And over two flag lists, one after the other, holds when every flag of both holds. */
  lemma AndFoldAppend(s1: seq<Expr>, s2: seq<Expr>, a: Assignment)
    ensures Eval(AndFold(s1 + s2), a) <==> AllHold(s1, a) && AllHold(s2, a)
  {
    AndFoldMeaning(s1 + s2, a);
    assert forall i :: 0 <= i < |s1| ==> (s1 + s2)[i] == s1[i];
    assert forall i :: 0 <= i < |s2| ==> (s1 + s2)[|s1| + i] == s2[i];
  }
}
