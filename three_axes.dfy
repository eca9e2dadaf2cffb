/**
 * The coordinate tests of the two lattices whose steps change each of x, y and z by at
 * most one and whose axes are each read by one predicate per side: the cubic lattice of
 * six directions and the face-centred lattice of twelve. The overlap flag of a pair chains,
 * bit by bit, the Xnors of the x, y and z sums; the contact tests compare one family's sums
 * for equality on we bits and for an offset of one on wo bits.
 */
module ThreeAxes {
  import opened Numeric
  import opened BoolExpr
  import opened Assembly
  import opened AxisTests
  import opened Geometry

  /** Three families reading x, y and z in that order, each with a predicate on both sides. */
  predicate Axes3(fams: seq<Family>)
  {
    |fams| == 3 && fams[0].axis == X && fams[1].axis == Y && fams[2].axis == Z
    && NonEmpty(fams[0]) && NonEmpty(fams[1]) && NonEmpty(fams[2])
  }

  /** Under a, the three families read the walk. */
  ghost predicate ReadAll(fams: seq<Family>, a: Assignment, move: nat -> Vec)
  {
    Axes3(fams) && Reads(fams[0], a, move) && Reads(fams[1], a, move) && Reads(fams[2], a, move)
  }

  /** No step changes a coordinate by more than one. */
  ghost predicate UnitSteps(move: nat -> Vec)
  {
    Bounded(move, X, 1) && Bounded(move, Y, 1) && Bounded(move, Z, 1)
  }

  // ---------------------------------------------------------------- overlap

  /** The overlap flag of residues a1 < a2 on w bits: the And of the per-bit x, y, z flags. */
  function Flag(fams: seq<Family>, a1: nat, a2: nat, w: nat): Expr
    requires Axes3(fams) && a1 < a2 && w <= a2 - a1
  {
    SpansSteps(fams, a1, a2, w);
    AndFold(Segment(fams, a1, a2, w))
  }

  /** The flag holds exactly when w bits cannot see any of the three coordinate changes. */
  lemma FlagRead(fams: seq<Family>, a1: nat, a2: nat, w: nat, a: Assignment, move: nat -> Vec)
    requires a1 < a2 && w <= a2 - a1 && ReadAll(fams, a, move)
    ensures var v := Disp(move, a1, a2);
      Eval(Flag(fams, a1, a2, w), a) <==> Wraps(v.x, w) && Wraps(v.y, w) && Wraps(v.z, w)
  {
    SegmentRead(fams, a1, a2, w, a, move);
    AndFoldMeaning(Segment(fams, a1, a2, w), a);
  }

  lemma SegmentRead(fams: seq<Family>, a1: nat, a2: nat, w: nat, a: Assignment, move: nat -> Vec)
    requires a1 < a2 && w <= a2 - a1 && ReadAll(fams, a, move)
    ensures Spans(fams, a1, a2, w)
    ensures var v := Disp(move, a1, a2);
      AllHold(Segment(fams, a1, a2, w), a) <==> Wraps(v.x, w) && Wraps(v.y, w) && Wraps(v.z, w)
  {
    SpansSteps(fams, a1, a2, w);
    SegmentMeaning(fams, a1, a2, w, a, move);
    var v := Disp(move, a1, a2);
    assert Component(v, fams[0].axis) == v.x && Component(v, fams[1].axis) == v.y && Component(v, fams[2].axis) == v.z;
  }

  /** When 2^w exceeds the distance, the flag holds exactly when the two residues share a site. */
  lemma FlagExact(fams: seq<Family>, a1: nat, a2: nat, w: nat, a: Assignment, move: nat -> Vec)
    requires a1 < a2 && w <= a2 - a1 && ReadAll(fams, a, move) && UnitSteps(move)
    requires a2 - a1 < Pow2(w)
    ensures Eval(Flag(fams, a1, a2, w), a) <==> Position(move, a1) == Position(move, a2)
  {
    var d, v := a2 - a1, Disp(move, a1, a2);
    FlagRead(fams, a1, a2, w, a, move);
    DispBounded(move, X, 1, a1, a2);
    DispBounded(move, Y, 1, a1, a2);
    DispBounded(move, Z, 1, a1, a2);
    WrapsOnlyZero(v.x, d, w);
    WrapsOnlyZero(v.y, d, w);
    WrapsOnlyZero(v.z, d, w);
    SameSite(move, a1, a2);
  }

  /** Whatever the width, the flag holds when the two residues share a site. */
  lemma FlagCatches(fams: seq<Family>, a1: nat, a2: nat, w: nat, a: Assignment, move: nat -> Vec)
    requires a1 < a2 && w <= a2 - a1 && ReadAll(fams, a, move)
    requires Position(move, a1) == Position(move, a2)
    ensures Eval(Flag(fams, a1, a2, w), a)
  {
    FlagRead(fams, a1, a2, w, a, move);
    SameSite(move, a1, a2);
    WrapsZero(w);
  }

  /** `create_overlap_constraint`'s flag of residues a1 < a2, on ceil(log2(a2 - a1)) bits or the safe width. */
  function OverlapFlag(fams: seq<Family>, sizing: Sizing, a1: nat, a2: nat): Expr
    requires Axes3(fams)
  {
    if a2 <= a1 then Num(false) else Flag(fams, a1, a2, AxisWidth(sizing, a2 - a1, 0))
  }

  /** With the safe width the flag holds exactly when the two residues share a site. */
  lemma OverlapFlagExact(fams: seq<Family>, a1: nat, a2: nat, a: Assignment, move: nat -> Vec)
    requires a1 < a2 && ReadAll(fams, a, move) && UnitSteps(move)
    ensures Eval(OverlapFlag(fams, Safe, a1, a2), a) <==> Position(move, a1) == Position(move, a2)
  {
    FlagExact(fams, a1, a2, AxisWidth(Safe, a2 - a1, 0), a, move);
  }

  /** As written the flag never misses two residues that share a site. */
  lemma OverlapFlagCatches(fams: seq<Family>, a1: nat, a2: nat, a: Assignment, move: nat -> Vec)
    requires a1 < a2 && ReadAll(fams, a, move)
    requires Position(move, a1) == Position(move, a2)
    ensures Eval(OverlapFlag(fams, AsWritten, a1, a2), a)
  {
    FlagCatches(fams, a1, a2, AxisWidth(AsWritten, a2 - a1, 0), a, move);
  }

  /** `create_overlap_constraint`: the Or of the flags of every pair at least minSep apart. */
  function Overlap(fams: seq<Family>, sizing: Sizing, n: nat, minSep: nat): Expr
    requires Axes3(fams)
  {
    OrPairs((a1: nat, a2: nat) => OverlapFlag(fams, sizing, a1, a2), n, minSep)
  }

  /** With the safe widths the overlap term holds exactly when two residues minSep or more apart meet. */
  lemma OverlapExact(fams: seq<Family>, a: Assignment, move: nat -> Vec, n: nat, minSep: nat)
    requires minSep >= 1 && ReadAll(fams, a, move) && UnitSteps(move)
    ensures Eval(Overlap(fams, Safe, n, minSep), a) <==> !ApartFrom(move, n, minSep)
  {
    var flag := (a1: nat, a2: nat) => OverlapFlag(fams, Safe, a1, a2);
    forall a1: nat, a2: nat | a1 + minSep <= a2 < n
      ensures Eval(flag(a1, a2), a) <==> Position(move, a1) == Position(move, a2)
    {
      OverlapFlagExact(fams, a1, a2, a, move);
    }
    OrPairsFindsMeeting(flag, n, minSep, a, move);
  }

  /** As written the overlap term holds whenever two residues minSep or more apart meet. */
  lemma OverlapCatches(fams: seq<Family>, a: Assignment, move: nat -> Vec, n: nat, minSep: nat)
    requires minSep >= 1 && ReadAll(fams, a, move) && !ApartFrom(move, n, minSep)
    ensures Eval(Overlap(fams, AsWritten, n, minSep), a)
  {
    var flag := (a1: nat, a2: nat) => OverlapFlag(fams, AsWritten, a1, a2);
    OrPairsMeaning(flag, n, minSep, a);
    var a1: nat, a2: nat :| a1 + minSep <= a2 < n && Position(move, a1) == Position(move, a2);
    OverlapFlagCatches(fams, a1, a2, a, move);
    assert Eval(flag(a1, a2), a);
  }

  /** As written, the overlap term holds when a pair minSep or more apart has changes its written width cannot see. */
  lemma OverlapWraps(fams: seq<Family>, a: Assignment, move: nat -> Vec, n: nat, minSep: nat, a1: nat, a2: nat)
    requires minSep >= 1 && ReadAll(fams, a, move) && a1 + minSep <= a2 < n
    requires var w, v := AxisWidth(AsWritten, a2 - a1, 0), Disp(move, a1, a2);
      Wraps(v.x, w) && Wraps(v.y, w) && Wraps(v.z, w)
    ensures Eval(Overlap(fams, AsWritten, n, minSep), a)
  {
    FlagRead(fams, a1, a2, AxisWidth(AsWritten, a2 - a1, 0), a, move);
    var flag := (a1: nat, a2: nat) => OverlapFlag(fams, AsWritten, a1, a2);
    OrPairsMeaning(flag, n, minSep, a);
    assert Eval(flag(a1, a2), a);
  }

  // ---------------------------------------------------------------- contact

  /** Every comparison of the pair a1 < a2 takes no more bits than its sums have. */
  predicate ContactFits(a1: nat, a2: nat, we: nat, wo: nat)
  {
    a1 < a2 && we <= a2 - a1 && wo <= a2 - a1
  }

  lemma AllTestsFit(fams: seq<Family>, a1: nat, a2: nat, we: nat, wo: nat)
    requires Axes3(fams) && ContactFits(a1, a2, we, wo)
    ensures forall k :: 0 <= k < 3 ==>
      Fits(fams[k], 0, 0, a1, a2, we) && Fits(fams[k], 1, 0, a1, a2, wo) && Fits(fams[k], 0, 1, a1, a2, wo)
  {
    TestsFit(fams[0], a1, a2, we, wo);
    TestsFit(fams[1], a1, a2, we, wo);
    TestsFit(fams[2], a1, a2, we, wo);
  }

  /** The `_equal` test of family k: its two sums agree on we bits. */
  function Equal(fams: seq<Family>, k: nat, a1: nat, a2: nat, we: nat, wo: nat): Expr
    requires Axes3(fams) && k < 3 && ContactFits(a1, a2, we, wo)
  {
    AllTestsFit(fams, a1, a2, we, wo);
    Test(fams[k], 0, 0, a1, a2, we)
  }

  /** `Or(_plus_one, _minus_one)` of family k, on wo bits. */
  function OffByOne(fams: seq<Family>, k: nat, a1: nat, a2: nat, we: nat, wo: nat): Expr
    requires Axes3(fams) && k < 3 && ContactFits(a1, a2, we, wo)
  {
    AllTestsFit(fams, a1, a2, we, wo);
    Offset(fams[k], a1, a2, wo)
  }

  /** Room for every value: the coordinates change by at most d, and the offset tests add one. */
  predicate ContactRoom(d: nat, we: nat, wo: nat)
  {
    d < Pow2(we) && d + 1 < Pow2(wo)
  }

  /** With room for every value, each test of family k holds exactly on its coordinate change. */
  lemma TestsExact(fams: seq<Family>, k: nat, a1: nat, a2: nat, we: nat, wo: nat, a: Assignment, move: nat -> Vec)
    requires k < 3 && ContactFits(a1, a2, we, wo) && ContactRoom(a2 - a1, we, wo)
    requires ReadAll(fams, a, move) && UnitSteps(move)
    ensures var c := Component(Disp(move, a1, a2), fams[k].axis);
      (Eval(Equal(fams, k, a1, a2, we, wo), a) <==> c == 0)
      && (Eval(OffByOne(fams, k, a1, a2, we, wo), a) <==> c == 1 || c == -1)
  {
    AllTestsFit(fams, a1, a2, we, wo);
    assert Bounded(move, fams[k].axis, 1) && Reads(fams[k], a, move);
    ExactTest(fams[k], 0, 0, a1, a2, we, a, move, 1);
    OffsetExact(fams[k], a1, a2, wo, a, move, 1);
  }

  /** Whatever the widths, the equality test of family k holds when its coordinate is unchanged. */
  lemma EqualCatches(fams: seq<Family>, k: nat, a1: nat, a2: nat, we: nat, wo: nat, a: Assignment, move: nat -> Vec)
    requires k < 3 && ContactFits(a1, a2, we, wo) && ReadAll(fams, a, move)
    requires Component(Disp(move, a1, a2), fams[k].axis) == 0
    ensures Eval(Equal(fams, k, a1, a2, we, wo), a)
  {
    var f := fams[k];
    ReadOne(fams, k, a, move);
    TestsAre(fams, k, a1, a2, we, wo, f);
    TestCatches(f, 0, 0, a1, a2, we, a, move);
  }

  /** Whatever the widths, the offset test of family k holds when its coordinate changes by one. */
  lemma OffByOneCatches(fams: seq<Family>, k: nat, a1: nat, a2: nat, we: nat, wo: nat, a: Assignment, move: nat -> Vec)
    requires k < 3 && ContactFits(a1, a2, we, wo) && ReadAll(fams, a, move)
    requires Component(Disp(move, a1, a2), fams[k].axis) == 1 || Component(Disp(move, a1, a2), fams[k].axis) == -1
    ensures Eval(OffByOne(fams, k, a1, a2, we, wo), a)
  {
    var f := fams[k];
    ReadOne(fams, k, a, move);
    TestsAre(fams, k, a1, a2, we, wo, f);
    OffsetCatches(f, a1, a2, wo, a, move);
  }

  /** Whatever the widths, the equality test of family k holds when we bits cannot see its coordinate change. */
  lemma EqualWraps(fams: seq<Family>, k: nat, a1: nat, a2: nat, we: nat, wo: nat, a: Assignment, move: nat -> Vec)
    requires k < 3 && ContactFits(a1, a2, we, wo) && ReadAll(fams, a, move)
    requires Wraps(Component(Disp(move, a1, a2), fams[k].axis), we)
    ensures Eval(Equal(fams, k, a1, a2, we, wo), a)
  {
    var f := fams[k];
    ReadOne(fams, k, a, move);
    TestsAre(fams, k, a1, a2, we, wo, f);
    EqualTestWraps(f, a1, a2, we, wo, a, move, Component(Disp(move, a1, a2), f.axis));
  }

  /** Whatever the widths, the offset test of family k holds when wo bits cannot tell its change plus one from 0. */
  lemma OffByOneWraps(fams: seq<Family>, k: nat, a1: nat, a2: nat, we: nat, wo: nat, a: Assignment, move: nat -> Vec)
    requires k < 3 && ContactFits(a1, a2, we, wo) && ReadAll(fams, a, move)
    requires Wraps(1 + Component(Disp(move, a1, a2), fams[k].axis), wo)
    ensures Eval(OffByOne(fams, k, a1, a2, we, wo), a)
  {
    var f := fams[k];
    ReadOne(fams, k, a, move);
    TestsAre(fams, k, a1, a2, we, wo, f);
    OffsetTestWraps(f, a1, a2, we, wo, a, move, Component(Disp(move, a1, a2), f.axis));
  }

  lemma OrLeft(x: Expr, y: Expr, a: Assignment)
    requires Eval(x, a)
    ensures Eval(Or(x, y), a)
  {
  }

  /** Family k reads the walk when all three do. */
  lemma ReadOne(fams: seq<Family>, k: nat, a: Assignment, move: nat -> Vec)
    requires k < 3 && ReadAll(fams, a, move)
    ensures Reads(fams[k], a, move)
  {
    if k == 0 { } else if k == 1 { } else { }
  }

  /** The two tests of family k, written over the family itself. */
  lemma TestsAre(fams: seq<Family>, k: nat, a1: nat, a2: nat, we: nat, wo: nat, f: Family)
    requires Axes3(fams) && k < 3 && ContactFits(a1, a2, we, wo) && f == fams[k]
    ensures NonEmpty(f)
    ensures Fits(f, 0, 0, a1, a2, we) && Fits(f, 1, 0, a1, a2, wo) && Fits(f, 0, 1, a1, a2, wo)
    ensures Equal(fams, k, a1, a2, we, wo) == Test(f, 0, 0, a1, a2, we)
    ensures OffByOne(fams, k, a1, a2, we, wo) == Offset(f, a1, a2, wo)
  {
    TestsFit(f, a1, a2, we, wo);
  }

  /** One family's equality test holds when we bits cannot see its coordinate change c. */
  lemma EqualTestWraps(f: Family, a1: nat, a2: nat, we: nat, wo: nat, a: Assignment, move: nat -> Vec, c: int)
    requires Fits(f, 0, 0, a1, a2, we) && Reads(f, a, move)
    requires c == Component(Disp(move, a1, a2), f.axis) && Wraps(c, we)
    ensures Eval(Test(f, 0, 0, a1, a2, we), a)
  {
    TestWraps(f, 0, 0, a1, a2, we, a, move);
  }

  /** One family's offset test holds when wo bits cannot tell c + 1 from 0. */
  lemma OffsetTestWraps(f: Family, a1: nat, a2: nat, we: nat, wo: nat, a: Assignment, move: nat -> Vec, c: int)
    requires Fits(f, 1, 0, a1, a2, wo) && Fits(f, 0, 1, a1, a2, wo) && Reads(f, a, move)
    requires c == Component(Disp(move, a1, a2), f.axis) && Wraps(1 + c, wo)
    ensures Eval(Offset(f, a1, a2, wo), a)
  {
    TestWraps(f, 1, 0, a1, a2, wo, a, move);
    OrLeft(Test(f, 1, 0, a1, a2, wo), Test(f, 0, 1, a1, a2, wo), a);
  }

  /** The written widths of pairs three and four apart: two bits each, which cannot tell 4 from 0. */
  lemma WrittenWidths()
    ensures AxisWidth(AsWritten, 3, 0) == 2 && AxisWidth(AsWritten, 3, 1) == 2 && AxisWidth(AsWritten, 4, 0) == 2
    ensures Wraps(4, 2) && Wraps(0, 2)
  {
    SmallLogs();
  }

  /**
   * The widths of a pair d apart: ceil(log2(d)) bits for equality and ceil(log2(d + 1)) for
   * the offsets, as written; the safe widths hold d and d + 1.
   */
  function ContactWidths(sizing: Sizing, d: nat): (r: (nat, nat))
    requires d >= 2
    ensures r.0 <= d && r.1 <= d
    ensures sizing == Safe ==> ContactRoom(d, r.0, r.1)
  {
    (AxisWidth(sizing, d, 0), AxisWidth(sizing, d, 1))
  }
}
