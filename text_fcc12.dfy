/**
 * The text builder of the 12-direction lattice (HCOMB12.py): every direction test is a sum of
 * products over the four bits of a step, the redundancy, back and overlap penalties and the
 * interaction lines are strings, and the whole energy text has step 0 and two bits of step 1
 * pinned by `replace`.
 *
 * The tests agree with the table the file opens with. The back term written for SW pairs it
 * with SE (1010) at the next step instead of NE (1011), its reversal: `WrittenBack` is the table
 * as written, `CorrectedBack` the one the other eleven terms follow.
 */
module TextFcc12 {
  import opened Numeric
  import opened Geometry
  import opened Outcomes
  import opened TextForm
  import opened TextLattice
  import Fcc12
  import opened Fcc12Templates

  // ---------------------------------------------------------------- the direction tests


  function DxPlus(t: nat): string { Rendered(DxPlusTemplate, t) }

  function DxMinus(t: nat): string { Rendered(DxMinusTemplate, t) }

  function DyPlus(t: nat): string { Rendered(DyPlusTemplate, t) }

  function DyMinus(t: nat): string { Rendered(DyMinusTemplate, t) }

  function DzPlus(t: nat): string { Rendered(DzPlusTemplate, t) }

  function DzMinus(t: nat): string { Rendered(DzMinusTemplate, t) }

  /** The six tests, in the order of the direction sums. */
  function Written(): Predicates
  {
    Predicates(DxPlus, DxMinus, DyPlus, DyMinus, DzPlus, DzMinus)
  }

  /** The test of moving along an axis, one way or the other. */
  function Test(p: Predicates, a: Axis, plus: bool): nat -> string
  {
    match a
    case X => if plus then p.xPlus else p.xMinus
    case Y => if plus then p.yPlus else p.yMinus
    case Z => if plus then p.zPlus else p.zMinus
  }

  function Template(a: Axis, plus: bool): string
  {
    match a
    case X => if plus then DxPlusTemplate else DxMinusTemplate
    case Y => if plus then DyPlusTemplate else DyMinusTemplate
    case Z => if plus then DzPlusTemplate else DzMinusTemplate
  }

  /** The products each template adds, bit 1 first. */
  function Prods(a: Axis, plus: bool): (prods: seq<seq<Lit>>)
    ensures SmallSums(prods)
  {
    match a
    case X => [[Lit(1, true), Lit(2, !plus)]]
    case Y => [[Lit(1, true), Lit(3, true), Lit(4, plus)], [Lit(1, false), Lit(2, true), Lit(3, plus)]]
    case Z => [[Lit(1, true), Lit(3, false), Lit(4, plus)], [Lit(1, false), Lit(2, true), Lit(4, plus)]]
  }

  /** The literals of the four bits, with the slot letter `t`. */
  lemma SlotLiterals()
    ensures LitText(Lit(1, true), "t") == "q^t_1" && LitText(Lit(1, false), "t") == "-q^t_1"
    ensures LitText(Lit(2, true), "t") == "q^t_2" && LitText(Lit(2, false), "t") == "-q^t_2"
    ensures LitText(Lit(3, true), "t") == "q^t_3" && LitText(Lit(3, false), "t") == "-q^t_3"
    ensures LitText(Lit(4, true), "t") == "q^t_4" && LitText(Lit(4, false), "t") == "-q^t_4"
  {
  }

  /** The sum of one product of two literals, literal by literal. */
  lemma SumOfOneTwo(prods: seq<seq<Lit>>, s: string)
    requires |prods| == 1 && |prods[0]| == 2 && SmallSums(prods)
    ensures SumText(prods, s) == LitText(prods[0][0], s) + " * " + LitText(prods[0][1], s)
  {
    var lits := prods[0];
    assert lits[..1] == [lits[0]] && lits[..1][0] == lits[0];
    assert ProductText(lits, s) == ProductText(lits[..1], s) + " * " + LitText(lits[1], s);
  }

  /** A sum of two products of three literals, literal by literal from the left. */
  lemma SumOfTwoThrees(prods: seq<seq<Lit>>, s: string)
    requires |prods| == 2 && |prods[0]| == 3 && |prods[1]| == 3 && SmallSums(prods)
    ensures SumText(prods, s)
      == LitText(prods[0][0], s) + " * " + LitText(prods[0][1], s) + " * " + LitText(prods[0][2], s) + " + "
         + LitText(prods[1][0], s) + " * " + LitText(prods[1][1], s) + " * " + LitText(prods[1][2], s)
  {
    assert prods[..1] == [prods[0]];
    ProductOfThree(prods[0], s);
    ProductOfThree(prods[1], s);
    var a, b := LitText(prods[1][0], s), LitText(prods[1][1], s);
    var c := LitText(prods[1][2], s);
    var x := ProductText(prods[0], s) + " + ";
    assert x + (a + " * " + b + " * " + c) == x + a + " * " + b + " * " + c;
  }

  lemma DxPlusSpelled()
    ensures DxPlusTemplate == SumText(Prods(X, true), "t")
  {
    DxPlusUnits();
    SumOfOneTwo(Prods(X, true), "t");
    SlotLiterals();
  }

  lemma DxMinusSpelled()
    ensures DxMinusTemplate == SumText(Prods(X, false), "t")
  {
    DxMinusUnits();
    SumOfOneTwo(Prods(X, false), "t");
    SlotLiterals();
  }

  lemma DyPlusSpelled()
    ensures DyPlusTemplate == SumText(Prods(Y, true), "t")
  {
    DyPlusUnits();
    SumOfTwoThrees(Prods(Y, true), "t");
    SlotLiterals();
  }

  lemma DyMinusSpelled()
    ensures DyMinusTemplate == SumText(Prods(Y, false), "t")
  {
    DyMinusUnits();
    SumOfTwoThrees(Prods(Y, false), "t");
    SlotLiterals();
  }

  lemma DzPlusSpelled()
    ensures DzPlusTemplate == SumText(Prods(Z, true), "t")
  {
    DzPlusUnits();
    SumOfTwoThrees(Prods(Z, true), "t");
    SlotLiterals();
  }

  lemma DzMinusSpelled()
    ensures DzMinusTemplate == SumText(Prods(Z, false), "t")
  {
    DzMinusUnits();
    SumOfTwoThrees(Prods(Z, false), "t");
    SlotLiterals();
  }

  /** Each template is the sum of its products with the slot letter `t`. */
  lemma TemplateSpelled(a: Axis, plus: bool)
    ensures Template(a, plus) == SumText(Prods(a, plus), "t")
  {
    match a
    case X => if plus { DxPlusSpelled(); } else { DxMinusSpelled(); }
    case Y => if plus { DyPlusSpelled(); } else { DyMinusSpelled(); }
    case Z => if plus { DzPlusSpelled(); } else { DzMinusSpelled(); }
  }

  /** A predicate table whose test along each axis, each way, renders that template's sum of step t. */
  ghost predicate RendersSums(p: Predicates)
  {
    forall a: Axis, plus: bool, t: nat {:trigger Test(p, a, plus)(t)} ::
      Test(p, a, plus)(t) == SumText(Prods(a, plus), NatToString(t))
  }

  /** The `replace('t', str(t))` of each template gives the sum of its products at step t. */
  lemma WrittenRenders()
    ensures RendersSums(Written())
  {
    forall a: Axis, plus: bool, t: nat
      ensures Test(Written(), a, plus)(t) == SumText(Prods(a, plus), NatToString(t))
    {
      assert Test(Written(), a, plus)(t) == Rendered(Template(a, plus), t) by {
        match a
        case X => case Y => case Z =>
      }
      TemplateSpelled(a, plus);
      SumTemplate(Prods(a, plus), 't', 'a', NatToString(t));
    }
  }

  /** A rendered test holds no letter `a` or `b`: the half adders' second replace only meets their own slot. */
  lemma RenderedPlain(a: Axis, plus: bool, t: nat)
    ensures 'a' !in Test(Written(), a, plus)(t) && 'b' !in Test(Written(), a, plus)(t)
  {
    WrittenRenders();
    SumPlain(Prods(a, plus), NatToString(t), 'a');
    SumPlain(Prods(a, plus), NatToString(t), 'b');
  }

  // ---------------------------------------------------------------- what the tests mean

  /** The four bits of a direction's code, bit 1 first. */
  function CodeSeq(d: Fcc12.Direction): (code: seq<bool>)
    ensures |code| == 4
  {
    var c := Fcc12.Code(d);
    [c.0, c.1, c.2, c.3]
  }

  /** The move a step's four bits name: its direction's vector, or none for the codes 00xx. */
  function MoveOf(code: seq<bool>): Vec
    requires |code| == 4
  {
    Fcc12.StepOf(Fcc12.Decode(code[0], code[1], code[2], code[3]))
  }

  lemma SumOfTwoHolds(prods: seq<seq<Lit>>, code: seq<bool>)
    requires |prods| == 2
    ensures SumHolds(prods, code) <==> LitsHold(prods[0], code) || LitsHold(prods[1], code)
  {
  }

  lemma LitsOfThreeHold(lits: seq<Lit>, code: seq<bool>)
    requires |lits| == 3 && |code| == 4 && forall i :: 0 <= i < 3 ==> 1 <= lits[i].bit <= 4
    ensures LitsHold(lits, code) <==>
      code[lits[0].bit - 1] == lits[0].positive && code[lits[1].bit - 1] == lits[1].positive
      && code[lits[2].bit - 1] == lits[2].positive
  {
  }

  /**
   * The sum of a test holds on a step's bits exactly when the step moves one unit its way along
   * the test's axis; on the codes 00xx, which name no direction, no test holds.
   */
  lemma ProdsMeaning(a: Axis, plus: bool, code: seq<bool>)
    requires |code| == 4
    ensures SumHolds(Prods(a, plus), code) <==> Component(MoveOf(code), a) == (if plus then 1 else -1)
  {
    Fcc12.PredicateBits(code[0], code[1], code[2], code[3]);
    var prods := Prods(a, plus);
    if a == X {
      assert SumHolds(prods, code) <==> LitsHold(prods[0], code) by {
        if LitsHold(prods[0], code) {
          assert 0 < |prods|;
        }
      }
      var lits := prods[0];
      assert LitsHold(lits, code) <==> code[0] && code[1] == !plus by {
        assert lits[0] == Lit(1, true) && lits[1] == Lit(2, !plus);
      }
    } else {
      SumOfTwoHolds(prods, code);
      LitsOfThreeHold(prods[0], code);
      LitsOfThreeHold(prods[1], code);
    }
  }

  // ---------------------------------------------------------------- redundancy

  /** The literals of the redundancy term: bits 1 and 2 of a step both clear. */
  const RedundancyLits: seq<Lit> := [Lit(1, false), Lit(2, false)]

  /** The redundancy term holds on exactly the four codes 00xx, the ones that name no direction. */
  lemma RedundancyHolds(code: seq<bool>)
    requires |code| == 4
    ensures LitsHold(RedundancyLits, code) <==> Fcc12.Decode(code[0], code[1], code[2], code[3]).None?
  {
    assert RedundancyLits[0] == Lit(1, false) && RedundancyLits[1] == Lit(2, false);
  }

  /** The term of step t: `(-q^t_1 * -q^t_2)`. */
  function RedundancyTerm(t: nat): string
  {
    "(-q^" + NatToString(t) + "_1 * -q^" + NatToString(t) + "_2)"
  }

  /** The terms of steps 0 .. n - 2, in loop order. */
  function RedundancyTerms(n: nat): seq<string>
  {
    Chunks((t: nat) => [RedundancyTerm(t)], if n >= 1 then n - 1 else 0)
  }

  /** `create_redundancy_constraint`: the terms joined by " + ". */
  method CreateRedundancyConstraint(n: nat) returns (redundancy: string)
    ensures redundancy == Join(RedundancyTerms(n), " + ")
  {
    var text := "";
    var steps := if n >= 1 then n - 1 else 0;
    for t := 0 to steps
      invariant text == Appended(Chunks((t: nat) => [RedundancyTerm(t)], t), " + ")
    {
      RedundancyAppended(t, text);
      text := text + "(-q^" + NatToString(t) + "_1 * -q^" + NatToString(t) + "_2)" + " + ";
    }
    AppendedThenCut(RedundancyTerms(n));
    redundancy := DropLast3(text);
  }

  /** Term t of the redundancy text is the product of the negated bits 1 and 2 of step t, one term per step but the last. */
  lemma RedundancyTermsAt(n: nat, t: nat)
    requires t + 1 < n
    ensures |RedundancyTerms(n)| == n - 1
    ensures RedundancyTerms(n)[t] == "(" + ProductText(RedundancyLits, NatToString(t)) + ")"
  {
    RedundancyTermIsProduct(t);
    PlaceRedundancyTerm(n, t, "(" + ProductText(RedundancyLits, NatToString(t)) + ")");
  }

  /** The term of step t lands at position t. */
  lemma PlaceRedundancyTerm(n: nat, t: nat, x: string)
    requires t + 1 < n && RedundancyTerm(t) == x
    ensures |RedundancyTerms(n)| == n - 1 && RedundancyTerms(n)[t] == x
  {
    var g := (t: nat) => [RedundancyTerm(t)];
    ChunksAt(g, 1, n - 1, t);
    SliceItem(Chunks(g, n - 1), g(t), 1 * t, 0);
  }

  /** The append of step t adds the step's term. */
  lemma RedundancyAppended(t: nat, before: string)
    requires before == Appended(Chunks((t: nat) => [RedundancyTerm(t)], t), " + ")
    ensures before + "(-q^" + NatToString(t) + "_1 * -q^" + NatToString(t) + "_2)" + " + "
      == Appended(Chunks((t: nat) => [RedundancyTerm(t)], t + 1), " + ")
  {
    var g := (t: nat) => [RedundancyTerm(t)];
    assert Chunks(g, t + 1) == Chunks(g, t) + [RedundancyTerm(t)];
    AppendedSnoc(Chunks(g, t), RedundancyTerm(t), " + ");
    var s := NatToString(t);
    GlueFive(before, "(-q^", s, "_1 * -q^", s, "_2)");
  }

  /** The term of step t is the product of the negative literals of bits 1 and 2 of that step. */
  lemma RedundancyTermIsProduct(t: nat)
    ensures RedundancyTerm(t) == "(" + ProductText(RedundancyLits, NatToString(t)) + ")"
  {
    var s := NatToString(t);
    assert ProductText(RedundancyLits, s) == LitText(Lit(1, false), s) + " * " + LitText(Lit(2, false), s);
    assert LitText(Lit(1, false), s) == "-q^" + s + "_1" by { assert "_" + [DigitChar(1)] == "_1"; }
    assert LitText(Lit(2, false), s) == "-q^" + s + "_2" by { assert "_" + [DigitChar(2)] == "_2"; }
    RedundancyRegroup(s);
  }

  lemma RedundancyRegroup(s: string)
    ensures "(" + ("-q^" + s + "_1") + " * " + ("-q^" + s + "_2") + ")" == "(-q^" + s + "_1 * -q^" + s + "_2)"
  {
    assert "(" + "-q^" == "(-q^" && "_1" + " * " + "-q^" == "_1 * -q^" && "_2" + ")" == "_2)";
  }

  // ---------------------------------------------------------------- back

  /** A back term: the product of code ca's literals at step sa times code cb's at step sb, in parentheses. */
  function BackText(ca: seq<bool>, cb: seq<bool>, sa: string, sb: string): string
    requires |ca| == 4 && |cb| == 4
  {
    "(" + ProductText(CodeLits(ca), sa) + " * " + ProductText(CodeLits(cb), sb) + ")"
  }

  /** The direction that undoes d. */
  function Reverse(d: Fcc12.Direction): (r: Fcc12.Direction)
    ensures Fcc12.Step(r) == Negate(Fcc12.Step(d))
  {
    match d
    case NE => Fcc12.SW
    case SW => Fcc12.NE
    case NW => Fcc12.SE
    case SE => Fcc12.NW
    case UN => Fcc12.DS
    case DS => Fcc12.UN
    case US => Fcc12.DN
    case DN => Fcc12.US
    case UE => Fcc12.DW
    case DW => Fcc12.UE
    case UW => Fcc12.DE
    case DE => Fcc12.UW
  }

  /** The direction each `backwards_` template tests at the second step of a turn. */
  function WrittenSecond(d: Fcc12.Direction): Fcc12.Direction
  {
    match d
    case NE => Fcc12.SW
    case SW => Fcc12.SE
    case NW => Fcc12.SE
    case SE => Fcc12.NW
    case UN => Fcc12.DS
    case DS => Fcc12.UN
    case US => Fcc12.DN
    case DN => Fcc12.US
    case UE => Fcc12.DW
    case DW => Fcc12.UE
    case UW => Fcc12.DE
    case DE => Fcc12.UW
  }

  /** The twelve templates as written. */
  function WrittenBack(d: Fcc12.Direction): string
  {
    match d
    case NE => BackNETemplate
    case SW => BackSWTemplate
    case NW => BackNWTemplate
    case SE => BackSETemplate
    case UN => BackUNTemplate
    case DS => BackDSTemplate
    case US => BackUSTemplate
    case DN => BackDNTemplate
    case UE => BackUETemplate
    case DW => BackDWTemplate
    case UW => BackUWTemplate
    case DE => BackDETemplate
  }

  /** The back terms the templates are meant to be: each direction followed by its reversal. */
  function CorrectedBack(d: Fcc12.Direction): string
  {
    BackText(CodeSeq(d), CodeSeq(Reverse(d)), "a", "b")
  }

  /** The literals of the four bits, with the slot letter `a`. */
  lemma SlotALiterals()
    ensures LitText(Lit(1, true), "a") == "q^a_1" && LitText(Lit(1, false), "a") == "-q^a_1"
    ensures LitText(Lit(2, true), "a") == "q^a_2" && LitText(Lit(2, false), "a") == "-q^a_2"
    ensures LitText(Lit(3, true), "a") == "q^a_3" && LitText(Lit(3, false), "a") == "-q^a_3"
    ensures LitText(Lit(4, true), "a") == "q^a_4" && LitText(Lit(4, false), "a") == "-q^a_4"
  {
  }

  /** The literals of the four bits, with the slot letter `b`. */
  lemma SlotBLiterals()
    ensures LitText(Lit(1, true), "b") == "q^b_1" && LitText(Lit(1, false), "b") == "-q^b_1"
    ensures LitText(Lit(2, true), "b") == "q^b_2" && LitText(Lit(2, false), "b") == "-q^b_2"
    ensures LitText(Lit(3, true), "b") == "q^b_3" && LitText(Lit(3, false), "b") == "-q^b_3"
    ensures LitText(Lit(4, true), "b") == "q^b_4" && LitText(Lit(4, false), "b") == "-q^b_4"
  {
  }

  /** The product of a four-bit code's literals, literal by literal from the left. */
  lemma FourBitProduct(code: seq<bool>, s: string)
    requires |code| == 4
    ensures ProductText(CodeLits(code), s)
      == LitText(Lit(1, code[0]), s) + " * " + LitText(Lit(2, code[1]), s) + " * " + LitText(Lit(3, code[2]), s)
         + " * " + LitText(Lit(4, code[3]), s)
  {
    var lits := CodeLits(code);
    ProductOfThree(lits[..3], s);
    assert lits[..3][0] == lits[0] && lits[..3][1] == lits[1] && lits[..3][2] == lits[2];
  }

  lemma BackRegroup(l1: string, l2: string, l3: string, l4: string, m1: string, m2: string, m3: string, m4: string)
    ensures "(" + (l1 + " * " + l2 + " * " + l3 + " * " + l4) + " * " + (m1 + " * " + m2 + " * " + m3 + " * " + m4) + ")"
      == "(" + l1 + " * " + l2 + " * " + l3 + " * " + l4 + " * " + m1 + " * " + m2 + " * " + m3 + " * " + m4 + ")"
  {
  }

  lemma BackNESpelled()
    ensures BackNETemplate == BackText(CodeSeq(Fcc12.NE), CodeSeq(Fcc12.SW), "a", "b")
  {
    BackNEUnits();
    FourBitProduct(CodeSeq(Fcc12.NE), "a");
    FourBitProduct(CodeSeq(Fcc12.SW), "b");
    SlotALiterals();
    SlotBLiterals();
    var a, b := CodeSeq(Fcc12.NE), CodeSeq(Fcc12.SW);
    BackRegroup(LitText(Lit(1, a[0]), "a"), LitText(Lit(2, a[1]), "a"), LitText(Lit(3, a[2]), "a"), LitText(Lit(4, a[3]), "a"),
                LitText(Lit(1, b[0]), "b"), LitText(Lit(2, b[1]), "b"), LitText(Lit(3, b[2]), "b"), LitText(Lit(4, b[3]), "b"));
  }

  lemma BackSWSpelled()
    ensures BackSWTemplate == BackText(CodeSeq(Fcc12.SW), CodeSeq(Fcc12.SE), "a", "b")
  {
    BackSWUnits();
    FourBitProduct(CodeSeq(Fcc12.SW), "a");
    FourBitProduct(CodeSeq(Fcc12.SE), "b");
    SlotALiterals();
    SlotBLiterals();
    var a, b := CodeSeq(Fcc12.SW), CodeSeq(Fcc12.SE);
    BackRegroup(LitText(Lit(1, a[0]), "a"), LitText(Lit(2, a[1]), "a"), LitText(Lit(3, a[2]), "a"), LitText(Lit(4, a[3]), "a"),
                LitText(Lit(1, b[0]), "b"), LitText(Lit(2, b[1]), "b"), LitText(Lit(3, b[2]), "b"), LitText(Lit(4, b[3]), "b"));
  }

  lemma BackNWSpelled()
    ensures BackNWTemplate == BackText(CodeSeq(Fcc12.NW), CodeSeq(Fcc12.SE), "a", "b")
  {
    BackNWUnits();
    FourBitProduct(CodeSeq(Fcc12.NW), "a");
    FourBitProduct(CodeSeq(Fcc12.SE), "b");
    SlotALiterals();
    SlotBLiterals();
    var a, b := CodeSeq(Fcc12.NW), CodeSeq(Fcc12.SE);
    BackRegroup(LitText(Lit(1, a[0]), "a"), LitText(Lit(2, a[1]), "a"), LitText(Lit(3, a[2]), "a"), LitText(Lit(4, a[3]), "a"),
                LitText(Lit(1, b[0]), "b"), LitText(Lit(2, b[1]), "b"), LitText(Lit(3, b[2]), "b"), LitText(Lit(4, b[3]), "b"));
  }

  lemma BackSESpelled()
    ensures BackSETemplate == BackText(CodeSeq(Fcc12.SE), CodeSeq(Fcc12.NW), "a", "b")
  {
    BackSEUnits();
    FourBitProduct(CodeSeq(Fcc12.SE), "a");
    FourBitProduct(CodeSeq(Fcc12.NW), "b");
    SlotALiterals();
    SlotBLiterals();
    var a, b := CodeSeq(Fcc12.SE), CodeSeq(Fcc12.NW);
    BackRegroup(LitText(Lit(1, a[0]), "a"), LitText(Lit(2, a[1]), "a"), LitText(Lit(3, a[2]), "a"), LitText(Lit(4, a[3]), "a"),
                LitText(Lit(1, b[0]), "b"), LitText(Lit(2, b[1]), "b"), LitText(Lit(3, b[2]), "b"), LitText(Lit(4, b[3]), "b"));
  }

  lemma BackUNSpelled()
    ensures BackUNTemplate == BackText(CodeSeq(Fcc12.UN), CodeSeq(Fcc12.DS), "a", "b")
  {
    BackUNUnits();
    FourBitProduct(CodeSeq(Fcc12.UN), "a");
    FourBitProduct(CodeSeq(Fcc12.DS), "b");
    SlotALiterals();
    SlotBLiterals();
    var a, b := CodeSeq(Fcc12.UN), CodeSeq(Fcc12.DS);
    BackRegroup(LitText(Lit(1, a[0]), "a"), LitText(Lit(2, a[1]), "a"), LitText(Lit(3, a[2]), "a"), LitText(Lit(4, a[3]), "a"),
                LitText(Lit(1, b[0]), "b"), LitText(Lit(2, b[1]), "b"), LitText(Lit(3, b[2]), "b"), LitText(Lit(4, b[3]), "b"));
  }

  lemma BackDSSpelled()
    ensures BackDSTemplate == BackText(CodeSeq(Fcc12.DS), CodeSeq(Fcc12.UN), "a", "b")
  {
    BackDSUnits();
    FourBitProduct(CodeSeq(Fcc12.DS), "a");
    FourBitProduct(CodeSeq(Fcc12.UN), "b");
    SlotALiterals();
    SlotBLiterals();
    var a, b := CodeSeq(Fcc12.DS), CodeSeq(Fcc12.UN);
    BackRegroup(LitText(Lit(1, a[0]), "a"), LitText(Lit(2, a[1]), "a"), LitText(Lit(3, a[2]), "a"), LitText(Lit(4, a[3]), "a"),
                LitText(Lit(1, b[0]), "b"), LitText(Lit(2, b[1]), "b"), LitText(Lit(3, b[2]), "b"), LitText(Lit(4, b[3]), "b"));
  }

  lemma BackUSSpelled()
    ensures BackUSTemplate == BackText(CodeSeq(Fcc12.US), CodeSeq(Fcc12.DN), "a", "b")
  {
    BackUSUnits();
    FourBitProduct(CodeSeq(Fcc12.US), "a");
    FourBitProduct(CodeSeq(Fcc12.DN), "b");
    SlotALiterals();
    SlotBLiterals();
    var a, b := CodeSeq(Fcc12.US), CodeSeq(Fcc12.DN);
    BackRegroup(LitText(Lit(1, a[0]), "a"), LitText(Lit(2, a[1]), "a"), LitText(Lit(3, a[2]), "a"), LitText(Lit(4, a[3]), "a"),
                LitText(Lit(1, b[0]), "b"), LitText(Lit(2, b[1]), "b"), LitText(Lit(3, b[2]), "b"), LitText(Lit(4, b[3]), "b"));
  }

  lemma BackDNSpelled()
    ensures BackDNTemplate == BackText(CodeSeq(Fcc12.DN), CodeSeq(Fcc12.US), "a", "b")
  {
    BackDNUnits();
    FourBitProduct(CodeSeq(Fcc12.DN), "a");
    FourBitProduct(CodeSeq(Fcc12.US), "b");
    SlotALiterals();
    SlotBLiterals();
    var a, b := CodeSeq(Fcc12.DN), CodeSeq(Fcc12.US);
    BackRegroup(LitText(Lit(1, a[0]), "a"), LitText(Lit(2, a[1]), "a"), LitText(Lit(3, a[2]), "a"), LitText(Lit(4, a[3]), "a"),
                LitText(Lit(1, b[0]), "b"), LitText(Lit(2, b[1]), "b"), LitText(Lit(3, b[2]), "b"), LitText(Lit(4, b[3]), "b"));
  }

  lemma BackUESpelled()
    ensures BackUETemplate == BackText(CodeSeq(Fcc12.UE), CodeSeq(Fcc12.DW), "a", "b")
  {
    BackUEUnits();
    FourBitProduct(CodeSeq(Fcc12.UE), "a");
    FourBitProduct(CodeSeq(Fcc12.DW), "b");
    SlotALiterals();
    SlotBLiterals();
    var a, b := CodeSeq(Fcc12.UE), CodeSeq(Fcc12.DW);
    BackRegroup(LitText(Lit(1, a[0]), "a"), LitText(Lit(2, a[1]), "a"), LitText(Lit(3, a[2]), "a"), LitText(Lit(4, a[3]), "a"),
                LitText(Lit(1, b[0]), "b"), LitText(Lit(2, b[1]), "b"), LitText(Lit(3, b[2]), "b"), LitText(Lit(4, b[3]), "b"));
  }

  lemma BackDWSpelled()
    ensures BackDWTemplate == BackText(CodeSeq(Fcc12.DW), CodeSeq(Fcc12.UE), "a", "b")
  {
    BackDWUnits();
    FourBitProduct(CodeSeq(Fcc12.DW), "a");
    FourBitProduct(CodeSeq(Fcc12.UE), "b");
    SlotALiterals();
    SlotBLiterals();
    var a, b := CodeSeq(Fcc12.DW), CodeSeq(Fcc12.UE);
    BackRegroup(LitText(Lit(1, a[0]), "a"), LitText(Lit(2, a[1]), "a"), LitText(Lit(3, a[2]), "a"), LitText(Lit(4, a[3]), "a"),
                LitText(Lit(1, b[0]), "b"), LitText(Lit(2, b[1]), "b"), LitText(Lit(3, b[2]), "b"), LitText(Lit(4, b[3]), "b"));
  }

  lemma BackUWSpelled()
    ensures BackUWTemplate == BackText(CodeSeq(Fcc12.UW), CodeSeq(Fcc12.DE), "a", "b")
  {
    BackUWUnits();
    FourBitProduct(CodeSeq(Fcc12.UW), "a");
    FourBitProduct(CodeSeq(Fcc12.DE), "b");
    SlotALiterals();
    SlotBLiterals();
    var a, b := CodeSeq(Fcc12.UW), CodeSeq(Fcc12.DE);
    BackRegroup(LitText(Lit(1, a[0]), "a"), LitText(Lit(2, a[1]), "a"), LitText(Lit(3, a[2]), "a"), LitText(Lit(4, a[3]), "a"),
                LitText(Lit(1, b[0]), "b"), LitText(Lit(2, b[1]), "b"), LitText(Lit(3, b[2]), "b"), LitText(Lit(4, b[3]), "b"));
  }

  lemma BackDESpelled()
    ensures BackDETemplate == BackText(CodeSeq(Fcc12.DE), CodeSeq(Fcc12.UW), "a", "b")
  {
    BackDEUnits();
    FourBitProduct(CodeSeq(Fcc12.DE), "a");
    FourBitProduct(CodeSeq(Fcc12.UW), "b");
    SlotALiterals();
    SlotBLiterals();
    var a, b := CodeSeq(Fcc12.DE), CodeSeq(Fcc12.UW);
    BackRegroup(LitText(Lit(1, a[0]), "a"), LitText(Lit(2, a[1]), "a"), LitText(Lit(3, a[2]), "a"), LitText(Lit(4, a[3]), "a"),
                LitText(Lit(1, b[0]), "b"), LitText(Lit(2, b[1]), "b"), LitText(Lit(3, b[2]), "b"), LitText(Lit(4, b[3]), "b"));
  }

  /** Each template as written is the back term of its direction and the direction `WrittenSecond` gives. */
  lemma WrittenBackSpelled(d: Fcc12.Direction)
    ensures WrittenBack(d) == BackText(CodeSeq(d), CodeSeq(WrittenSecond(d)), "a", "b")
  {
    match d
    case NE => BackNESpelled();
    case SW => BackSWSpelled();
    case NW => BackNWSpelled();
    case SE => BackSESpelled();
    case UN => BackUNSpelled();
    case DS => BackDSSpelled();
    case US => BackUSSpelled();
    case DN => BackDNSpelled();
    case UE => BackUESpelled();
    case DW => BackDWSpelled();
    case UW => BackUWSpelled();
    case DE => BackDESpelled();
  }

  /** A table of back templates spells, for every direction d, the back term of d and second(d). */
  ghost predicate BacksSpell(backs: Fcc12.Direction -> string, second: Fcc12.Direction -> Fcc12.Direction)
  {
    forall d: Fcc12.Direction {:trigger backs(d)} :: backs(d) == BackText(CodeSeq(d), CodeSeq(second(d)), "a", "b")
  }

  lemma WrittenBacksSpell()
    ensures BacksSpell(WrittenBack, WrittenSecond)
  {
    forall d: Fcc12.Direction
      ensures WrittenBack(d) == BackText(CodeSeq(d), CodeSeq(WrittenSecond(d)), "a", "b")
    {
      WrittenBackSpelled(d);
    }
  }

  lemma CorrectedBacksSpell()
    ensures BacksSpell(CorrectedBack, Reverse)
  {
  }

  /** `tpl.replace('a', str(t)).replace('b', str(t + 1))`. */
  function BackPair(tpl: string, t: nat): string
  {
    Replace(Replace(tpl, "a", NatToString(t)), "b", NatToString(t + 1))
  }

  /** Replacing a letter in a back term's pieces, one piece at a time. */
  lemma ReplacePieces(x: string, y: string, c: char, r: string)
    requires 'a' <= c <= 'z'
    ensures Replace("(" + x + " * " + y + ")", [c], r) == "(" + Replace(x, [c], r) + " * " + Replace(y, [c], r) + ")"
  {
    ReplaceConcat("(" + x + " * " + y, ")", c, r);
    ReplaceConcat("(" + x + " * ", y, c, r);
    ReplaceConcat("(" + x, " * ", c, r);
    ReplaceConcat("(", x, c, r);
    ReplaceAbsent("(", c, r);
    ReplaceAbsent(" * ", c, r);
    ReplaceAbsent(")", c, r);
  }

  /** The two replaces put step t in the first product and step t + 1 in the second. */
  lemma BackPairMeaning(ca: seq<bool>, cb: seq<bool>, t: nat)
    requires |ca| == 4 && |cb| == 4
    ensures BackPair(BackText(ca, cb, "a", "b"), t) == BackText(ca, cb, NatToString(t), NatToString(t + 1))
  {
    var sa, sb := NatToString(t), NatToString(t + 1);
    var la, lb := CodeLits(ca), CodeLits(cb);
    ProductTemplate(la, 'a', 'b', sa);
    ProductTemplate(lb, 'b', 'a', sb);
    ProductPlain(la, sa, 'b');
    assert "a" == ['a'] && "b" == ['b'];
    ReplacePieces(ProductText(la, "a"), ProductText(lb, "b"), 'a', sa);
    ReplaceAbsent(ProductText(lb, "b"), 'a', sa);
    ReplacePieces(ProductText(la, sa), ProductText(lb, "b"), 'b', sb);
    ReplaceAbsent(ProductText(la, sa), 'b', sb);
  }

  /** The order of the twelve terms of a turn, by the direction tested at the turn's first step. */
  const BackOrder: seq<Fcc12.Direction> :=
    [Fcc12.NE, Fcc12.SW, Fcc12.NW, Fcc12.SE, Fcc12.UN, Fcc12.DS, Fcc12.US, Fcc12.DN, Fcc12.UE, Fcc12.DW, Fcc12.UW, Fcc12.DE]

  /** Every direction opens one term of each turn. */
  lemma BackIndex(d: Fcc12.Direction) returns (j: nat)
    ensures j < 12 && BackOrder[j] == d
  {
    match d
    case NE => j := 0;
    case SW => j := 1;
    case NW => j := 2;
    case SE => j := 3;
    case UN => j := 4;
    case DS => j := 5;
    case US => j := 6;
    case DN => j := 7;
    case UE => j := 8;
    case DW => j := 9;
    case UW => j := 10;
    case DE => j := 11;
  }

  /** The twelve terms of one turn, in the order of the appends of `create_back_constraint`. */
  function TurnBack(backs: Fcc12.Direction -> string, t: nat): (r: seq<string>)
    ensures |r| == 12
  {
    seq(12, j requires 0 <= j < 12 => BackPair(backs(BackOrder[j]), t))
  }

  /** The first six terms of a turn, as the first six appends write them. */
  lemma TurnBackFirst(backs: Fcc12.Direction -> string, t: nat)
    ensures TurnBack(backs, t)[..6]
      == [BackPair(backs(Fcc12.NE), t), BackPair(backs(Fcc12.SW), t), BackPair(backs(Fcc12.NW), t),
          BackPair(backs(Fcc12.SE), t), BackPair(backs(Fcc12.UN), t), BackPair(backs(Fcc12.DS), t)]
  {
  }

  /** The last six terms of a turn, as the last six appends write them. */
  lemma TurnBackLast(backs: Fcc12.Direction -> string, t: nat)
    ensures TurnBack(backs, t)[6..]
      == [BackPair(backs(Fcc12.US), t), BackPair(backs(Fcc12.DN), t), BackPair(backs(Fcc12.UE), t),
          BackPair(backs(Fcc12.DW), t), BackPair(backs(Fcc12.UW), t), BackPair(backs(Fcc12.DE), t)]
  {
  }

  function BackTerms(backs: Fcc12.Direction -> string, n: nat): seq<string>
  {
    Chunks((t: nat) => TurnBack(backs, t), if n >= 2 then n - 2 else 0)
  }

  /**
   * `create_back_constraint` over a table of templates (`WrittenBack` as the file has them,
   * `CorrectedBack` as intended): the twelve terms of every turn 0 .. n - 3 joined by " + ".
   */
  method CreateBackConstraint(backs: Fcc12.Direction -> string, n: nat) returns (back: string)
    ensures back == Join(BackTerms(backs, n), " + ")
  {
    var text := "";
    var turns := if n >= 2 then n - 2 else 0;
    for turn := 0 to turns
      invariant text == Appended(Chunks((t: nat) => TurnBack(backs, t), turn), " + ")
    {
      var before := text;
      text := text + BackPair(backs(Fcc12.NE), turn) + " + ";
      text := text + BackPair(backs(Fcc12.SW), turn) + " + ";
      text := text + BackPair(backs(Fcc12.NW), turn) + " + ";
      text := text + BackPair(backs(Fcc12.SE), turn) + " + ";
      text := text + BackPair(backs(Fcc12.UN), turn) + " + ";
      text := text + BackPair(backs(Fcc12.DS), turn) + " + ";
      text := text + BackPair(backs(Fcc12.US), turn) + " + ";
      text := text + BackPair(backs(Fcc12.DN), turn) + " + ";
      text := text + BackPair(backs(Fcc12.UE), turn) + " + ";
      text := text + BackPair(backs(Fcc12.DW), turn) + " + ";
      text := text + BackPair(backs(Fcc12.UW), turn) + " + ";
      text := text + BackPair(backs(Fcc12.DE), turn) + " + ";
      TurnAppended(backs, turn, before);
    }
    AppendedThenCut(BackTerms(backs, n));
    back := DropLast3(text);
  }

  /** The twelve appends of one turn add the turn's terms. */
  lemma TurnAppended(backs: Fcc12.Direction -> string, turn: nat, before: string)
    requires before == Appended(Chunks((t: nat) => TurnBack(backs, t), turn), " + ")
    ensures before
      + BackPair(backs(Fcc12.NE), turn) + " + "
      + BackPair(backs(Fcc12.SW), turn) + " + "
      + BackPair(backs(Fcc12.NW), turn) + " + "
      + BackPair(backs(Fcc12.SE), turn) + " + "
      + BackPair(backs(Fcc12.UN), turn) + " + "
      + BackPair(backs(Fcc12.DS), turn) + " + "
      + BackPair(backs(Fcc12.US), turn) + " + "
      + BackPair(backs(Fcc12.DN), turn) + " + "
      + BackPair(backs(Fcc12.UE), turn) + " + "
      + BackPair(backs(Fcc12.DW), turn) + " + "
      + BackPair(backs(Fcc12.UW), turn) + " + "
      + BackPair(backs(Fcc12.DE), turn) + " + "
      == Appended(Chunks((t: nat) => TurnBack(backs, t), turn + 1), " + ")
  {
    var g := (t: nat) => TurnBack(backs, t);
    var u := TurnBack(backs, turn);
    assert Chunks(g, turn + 1) == Chunks(g, turn) + u[..6] + u[6..];
    AppendedSix(Chunks(g, turn), u[..6], " + ");
    AppendedSix(Chunks(g, turn) + u[..6], u[6..], " + ");
    TurnBackFirst(backs, turn);
    TurnBackLast(backs, turn);
  }

  /**
   * Twelve terms per turn 0 .. n - 3; term j of turn t is the back term of BackOrder[j] at
   * step t and the direction the table pairs it with at step t + 1.
   */
  lemma BackTermsAt(backs: Fcc12.Direction -> string, second: Fcc12.Direction -> Fcc12.Direction, n: nat, t: nat, j: nat)
    requires BacksSpell(backs, second) && t + 2 < n && j < 12
    ensures |BackTerms(backs, n)| == 12 * (n - 2)
    ensures var d := BackOrder[j];
      BackTerms(backs, n)[12 * t + j] == BackText(CodeSeq(d), CodeSeq(second(d)), NatToString(t), NatToString(t + 1))
  {
    var g := (t: nat) => TurnBack(backs, t);
    ChunkItem(g, 12, n - 2, t, j);
    var d := BackOrder[j];
    BackPairMeaning(CodeSeq(d), CodeSeq(second(d)), t);
  }

  // ---------------------------------------------------------------- what the back terms penalise

  /** The products of a back term hold on the bits x and y of its two steps. */
  predicate BackHolds(ca: seq<bool>, cb: seq<bool>, x: seq<bool>, y: seq<bool>)
    requires |ca| == 4 && |cb| == 4
  {
    LitsHold(CodeLits(ca), x) && LitsHold(CodeLits(cb), y)
  }

  /** A back term holds on exactly its own pair of codes. */
  lemma BackHoldsExactly(ca: seq<bool>, cb: seq<bool>, x: seq<bool>, y: seq<bool>)
    requires |ca| == 4 && |cb| == 4 && |x| == 4 && |y| == 4
    ensures BackHolds(ca, cb, x, y) <==> x == ca && y == cb
  {
    CodeLitsHold(ca, x);
    CodeLitsHold(cb, y);
  }

  /** Some term of a turn, the table pairing each direction d with second(d), holds on the bits x, y of its steps. */
  predicate TurnPenalised(second: Fcc12.Direction -> Fcc12.Direction, x: seq<bool>, y: seq<bool>)
  {
    exists j :: 0 <= j < 12 && BackHolds(CodeSeq(BackOrder[j]), CodeSeq(second(BackOrder[j])), x, y)
  }

  /** A direction's code names its own vector. */
  lemma MoveOfCode(d: Fcc12.Direction)
    ensures MoveOf(CodeSeq(d)) == Fcc12.Step(d) != Origin
  {
    Fcc12.DecodeCode(d);
  }

  /** The bits of a step that moves are the code of the direction it moves in. */
  lemma CodeOfMove(x: seq<bool>) returns (d: Fcc12.Direction)
    requires |x| == 4 && MoveOf(x) != Origin
    ensures x == CodeSeq(d) && MoveOf(x) == Fcc12.Step(d)
  {
    d := Fcc12.Decode(x[0], x[1], x[2], x[3]).value;
    assert x == [x[0], x[1], x[2], x[3]];
  }

  lemma StepInjective(d: Fcc12.Direction, e: Fcc12.Direction)
    requires Fcc12.Step(d) == Fcc12.Step(e)
    ensures d == e
  {
  }

  /** With every direction paired with its reversal, the terms of a turn penalise exactly the steps that undo the step before. */
  lemma CorrectedBackMeaning(x: seq<bool>, y: seq<bool>)
    requires |x| == 4 && |y| == 4
    ensures TurnPenalised(Reverse, x, y) <==> MoveOf(x) != Origin && MoveOf(y) == Negate(MoveOf(x))
  {
    if TurnPenalised(Reverse, x, y) {
      var j :| 0 <= j < 12 && BackHolds(CodeSeq(BackOrder[j]), CodeSeq(Reverse(BackOrder[j])), x, y);
      var d := BackOrder[j];
      BackHoldsExactly(CodeSeq(d), CodeSeq(Reverse(d)), x, y);
      MoveOfCode(d);
      MoveOfCode(Reverse(d));
    }
    if MoveOf(x) != Origin && MoveOf(y) == Negate(MoveOf(x)) {
      var d := CodeOfMove(x);
      MoveOfCode(Reverse(d));
      var e := CodeOfMove(y);
      StepInjective(e, Reverse(d));
      var j := BackIndex(d);
      BackHoldsExactly(CodeSeq(d), CodeSeq(Reverse(d)), x, y);
    }
  }

  /** The written templates pair every direction but SW with its reversal, and SW with SE. */
  lemma WrittenSecondReverses(d: Fcc12.Direction)
    ensures d != Fcc12.SW ==> WrittenSecond(d) == Reverse(d)
    ensures WrittenSecond(Fcc12.SW) == Fcc12.SE != Reverse(Fcc12.SW) == Fcc12.NE
  {
  }

  /** A turn is penalised exactly when its two steps carry the codes of some direction d and of second(d). */
  lemma TurnPenalisedCodes(second: Fcc12.Direction -> Fcc12.Direction, x: seq<bool>, y: seq<bool>)
    requires |x| == 4 && |y| == 4
    ensures TurnPenalised(second, x, y) <==> exists d :: x == CodeSeq(d) && y == CodeSeq(second(d))
  {
    if TurnPenalised(second, x, y) {
      var j :| 0 <= j < 12 && BackHolds(CodeSeq(BackOrder[j]), CodeSeq(second(BackOrder[j])), x, y);
      BackHoldsExactly(CodeSeq(BackOrder[j]), CodeSeq(second(BackOrder[j])), x, y);
    }
    if exists d :: x == CodeSeq(d) && y == CodeSeq(second(d)) {
      var d :| x == CodeSeq(d) && y == CodeSeq(second(d));
      var j := BackIndex(d);
      BackHoldsExactly(CodeSeq(d), CodeSeq(second(d)), x, y);
    }
  }

  lemma CodeSeqInjective(d: Fcc12.Direction, e: Fcc12.Direction)
    requires CodeSeq(d) == CodeSeq(e)
    ensures d == e
  {
    Fcc12.DecodeCode(d);
    Fcc12.DecodeCode(e);
  }

  /** A written term holds on a reversal of a direction other than SW, or on SW then SE. */
  lemma WrittenPenalisedIs(x: seq<bool>, y: seq<bool>)
    requires |x| == 4 && |y| == 4 && TurnPenalised(WrittenSecond, x, y)
    ensures (TurnPenalised(Reverse, x, y) && x != CodeSeq(Fcc12.SW)) || (x == CodeSeq(Fcc12.SW) && y == CodeSeq(Fcc12.SE))
  {
    TurnPenalisedCodes(WrittenSecond, x, y);
    var d :| x == CodeSeq(d) && y == CodeSeq(WrittenSecond(d));
    WrittenSecondReverses(d);
    if d != Fcc12.SW {
      TurnPenalisedCodes(Reverse, x, y);
      assert x == CodeSeq(d) && y == CodeSeq(Reverse(d));
      if x == CodeSeq(Fcc12.SW) {
        CodeSeqInjective(d, Fcc12.SW);
      }
    }
  }

  /** The reversal of a direction other than SW is penalised as written. */
  lemma ReversalPenalisedAsWritten(x: seq<bool>, y: seq<bool>)
    requires |x| == 4 && |y| == 4 && TurnPenalised(Reverse, x, y) && x != CodeSeq(Fcc12.SW)
    ensures TurnPenalised(WrittenSecond, x, y)
  {
    TurnPenalisedCodes(Reverse, x, y);
    var d :| x == CodeSeq(d) && y == CodeSeq(Reverse(d));
    WrittenSecondReverses(d);
    TurnPenalisedCodes(WrittenSecond, x, y);
    assert x == CodeSeq(d) && y == CodeSeq(WrittenSecond(d));
  }

  /**
   * As written, the terms of a turn penalise the reversals of every direction but SW, and in
   * their place the turn SW then SE.
   */
  lemma WrittenBackMeaning(x: seq<bool>, y: seq<bool>)
    requires |x| == 4 && |y| == 4
    ensures TurnPenalised(WrittenSecond, x, y)
      <==> (TurnPenalised(Reverse, x, y) && x != CodeSeq(Fcc12.SW)) || (x == CodeSeq(Fcc12.SW) && y == CodeSeq(Fcc12.SE))
  {
    if TurnPenalised(WrittenSecond, x, y) {
      WrittenPenalisedIs(x, y);
    }
    if TurnPenalised(Reverse, x, y) && x != CodeSeq(Fcc12.SW) {
      ReversalPenalisedAsWritten(x, y);
    }
    if x == CodeSeq(Fcc12.SW) && y == CodeSeq(Fcc12.SE) {
      TurnPenalisedCodes(WrittenSecond, x, y);
      assert x == CodeSeq(Fcc12.SW) && y == CodeSeq(WrittenSecond(Fcc12.SW));
    }
  }

  /**
   * The template `backwards_sw` as written: SW followed by NE, which undoes it, is never
   * penalised, while SW followed by SE, a legal turn, is.
   */
  lemma WrittenBackSW()
    ensures MoveOf(CodeSeq(Fcc12.NE)) == Negate(MoveOf(CodeSeq(Fcc12.SW)))
    ensures !TurnPenalised(WrittenSecond, CodeSeq(Fcc12.SW), CodeSeq(Fcc12.NE))
    ensures MoveOf(CodeSeq(Fcc12.SE)) != Negate(MoveOf(CodeSeq(Fcc12.SW)))
    ensures TurnPenalised(WrittenSecond, CodeSeq(Fcc12.SW), CodeSeq(Fcc12.SE))
  {
    SWThenNE();
    SWThenSE();
  }

  /** SW followed by NE undoes it, and the written template does not penalise it. */
  lemma SWThenNE()
    ensures MoveOf(CodeSeq(Fcc12.NE)) == Negate(MoveOf(CodeSeq(Fcc12.SW)))
    ensures !TurnPenalised(WrittenSecond, CodeSeq(Fcc12.SW), CodeSeq(Fcc12.NE))
  {
    MoveOfCode(Fcc12.NE);
    MoveOfCode(Fcc12.SW);
    NotPenalisedAfter(Fcc12.SW, Fcc12.NE, CodeSeq(Fcc12.SW), CodeSeq(Fcc12.NE));
  }

  /** SW followed by SE is a legal turn, and the written template penalises it. */
  lemma SWThenSE()
    ensures MoveOf(CodeSeq(Fcc12.SE)) != Negate(MoveOf(CodeSeq(Fcc12.SW)))
    ensures TurnPenalised(WrittenSecond, CodeSeq(Fcc12.SW), CodeSeq(Fcc12.SE))
  {
    MoveOfCode(Fcc12.SE);
    MoveOfCode(Fcc12.SW);
    PenalisedAfter(Fcc12.SW, CodeSeq(Fcc12.SW), CodeSeq(Fcc12.SE));
  }

  /** The written terms penalise a direction followed by the direction they pair it with. */
  lemma PenalisedAfter(d: Fcc12.Direction, x: seq<bool>, y: seq<bool>)
    requires x == CodeSeq(d) && y == CodeSeq(WrittenSecond(d))
    ensures TurnPenalised(WrittenSecond, x, y)
  {
    TurnPenalisedCodes(WrittenSecond, x, y);
  }

  /** The written terms do not penalise a direction followed by any other than the one they pair it with. */
  lemma NotPenalisedAfter(d: Fcc12.Direction, e: Fcc12.Direction, x: seq<bool>, y: seq<bool>)
    requires x == CodeSeq(d) && y == CodeSeq(e) && e != WrittenSecond(d)
    ensures !TurnPenalised(WrittenSecond, x, y)
  {
    TurnPenalisedCodes(WrittenSecond, x, y);
    if TurnPenalised(WrittenSecond, x, y) {
      var c :| x == CodeSeq(c) && y == CodeSeq(WrittenSecond(c));
      CodeSeqInjective(c, d);
      CodeSeqInjective(e, WrittenSecond(c));
    }
  }

  // ---------------------------------------------------------------- adjacency

  /** The three cases of `adjacency_indicator`: one axis equal and the other two off by one. */
  const Cases: seq<seq<Factor>> :=
    [[Same(X), Off(Y), Off(Z)], [Same(Y), Off(X), Off(Z)], [Same(Z), Off(X), Off(Y)]]

  /** The cases hold on exactly the twelve moves of the lattice: the sites of a pair are adjacent. */
  lemma CasesAreMoves(v: Vec)
    ensures SomeCaseHolds(Cases, v) <==> Fcc12.IsMove(v)
  {
    Fcc12.IsMoveComponents(v);
    if SomeCaseHolds(Cases, v) {
      var i :| 0 <= i < |Cases| && CaseHolds(Cases[i], v);
      assert FactorHolds(Cases[i][0], v) && FactorHolds(Cases[i][1], v) && FactorHolds(Cases[i][2], v);
    }
    if Fcc12.TwoUnits(v) {
      if v.x == 0 {
        assert CaseHolds(Cases[0], v);
      } else if v.y == 0 {
        assert CaseHolds(Cases[1], v);
      } else {
        assert CaseHolds(Cases[2], v);
      }
    }
  }

  /** A case of one equal axis and two offset ones, spelled as `adjacency_indicator` writes it. */
  function TwoOffsetCaseText(eq: string, plusOne1: string, minusOne1: string, plusOne2: string, minusOne2: string): string
  {
    "((" + DropLast3(eq) + ") * ((" + DropLast3(plusOne1) + ") + (" + DropLast3(minusOne1) + ")) * (("
      + DropLast3(plusOne2) + ") + (" + DropLast3(minusOne2) + ")))"
  }

  lemma CaseRegroup(x: string, u1: string, v1: string, u2: string, v2: string)
    ensures "(" + (("(" + x + ")") + " * " + ("((" + u1 + ") + (" + v1 + "))") + " * " + ("((" + u2 + ") + (" + v2 + "))")) + ")"
      == "((" + x + ") * ((" + u1 + ") + (" + v1 + ")) * ((" + u2 + ") + (" + v2 + ")))"
  {
    assert "(" + "(" == "((" && ")" + " * " + "((" == ") * ((" && "))" + " * " + "((" == ")) * ((" && "))" + ")" == ")))";
  }

  /** A case of three factors, the last two offsets, is `TwoOffsetCaseText` of its parts. */
  lemma CaseSpelled(a: Axis, b: Axis, c: Axis, parts: Parts)
    ensures CaseText([Same(a), Off(b), Off(c)], parts)
      == TwoOffsetCaseText(EqualPart(parts, a), PlusOnePart(parts, b), MinusOnePart(parts, b),
                           PlusOnePart(parts, c), MinusOnePart(parts, c))
  {
    var f := [Same(a), Off(b), Off(c)];
    FactorTexts3(f, parts);
    Join3(FactorText(f[0], parts), FactorText(f[1], parts), FactorText(f[2], parts), " * ");
    var x := DropLast3(EqualPart(parts, a));
    var u1, v1 := DropLast3(PlusOnePart(parts, b)), DropLast3(MinusOnePart(parts, b));
    var u2, v2 := DropLast3(PlusOnePart(parts, c)), DropLast3(MinusOnePart(parts, c));
    assert CaseText(f, parts)
      == "(" + (("(" + x + ")") + " * " + ("((" + u1 + ") + (" + v1 + "))") + " * " + ("((" + u2 + ") + (" + v2 + "))")) + ")";
    CaseRegroup(x, u1, v1, u2, v2);
  }

  /**
   * The indicator of `adjacency_indicator` spelled as its three return lines: x equal with y and
   * z off by one, y equal with x and z off by one, z equal with x and y off by one.
   */
  lemma IndicatorSpelled(parts: Parts)
    ensures IndicatorText(Cases, parts)
      == TwoOffsetCaseText(parts.xEqual, parts.yPlusOne, parts.yMinusOne, parts.zPlusOne, parts.zMinusOne) + " + "
         + TwoOffsetCaseText(parts.yEqual, parts.xPlusOne, parts.xMinusOne, parts.zPlusOne, parts.zMinusOne) + " + "
         + TwoOffsetCaseText(parts.zEqual, parts.xPlusOne, parts.xMinusOne, parts.yPlusOne, parts.yMinusOne)
  {
    CaseTexts3(Cases, parts);
    CaseSpelled(X, Y, Z, parts);
    CaseSpelled(Y, X, Z, parts);
    CaseSpelled(Z, X, Y, parts);
    Join3(CaseText(Cases[0], parts), CaseText(Cases[1], parts), CaseText(Cases[2], parts), " + ");
  }

  // ---------------------------------------------------------------- the energy text

  /** The replaces at the end of `create_energy_function`: q^0_1, q^0_2, q^0_3, q^1_1 to 1 and q^0_4, q^1_4 to 0. */
  const Pins: seq<Pin> :=
    [Pin(0, 1, "1"), Pin(0, 2, "1"), Pin(0, 3, "1"), Pin(0, 4, "0"), Pin(1, 1, "1"), Pin(1, 4, "0")]

  /** Every bit of step 0 and bits 1 and 4 of step 1 are pinned, and nothing else is. */
  lemma PinOfStart(t: nat, bit: nat)
    ensures PinOf(Pins, t, bit)
      == if (t == 0 && 1 <= bit <= 3) || (t == 1 && bit == 1) then Some("1")
         else if (t == 0 || t == 1) && bit == 4 then Some("0")
         else None
  {
    var p := Pins;
    assert p[1..][1..][1..][1..][1..][1..] == [];
  }

  /**
   * The pins on one literal: a pinned literal becomes its sign followed by the pinned value,
   * and every other literal is left as it is.
   */
  lemma PinsFixStart(l: Lit, t: nat)
    requires l.bit < 10
    ensures ApplyPins(LitText(l, NatToString(t)), Pins)
      == if (t == 0 && 1 <= l.bit <= 3) || (t == 1 && l.bit == 1) then Sign(l.positive) + "1"
         else if (t == 0 || t == 1) && l.bit == 4 then Sign(l.positive) + "0"
         else LitText(l, NatToString(t))
  {
    assert SmallPins(Pins);
    PinOfStart(t, l.bit);
    PinsOnLiteral(l, t, Pins);
  }

  /** The value a pin gives a bit of a code. */
  function BitText(b: bool): string
  {
    if b then "1" else "0"
  }

  /** Step 0 is pinned to the code 1110 of SW. */
  lemma PinsFixSouthWest(code: seq<bool>)
    requires |code| == 4
    ensures (forall b :: 1 <= b <= 4 ==> PinOf(Pins, 0, b) == Some(BitText(code[b - 1])))
      <==> code == CodeSeq(Fcc12.SW)
  {
    PinOfStart(0, 1);
    PinOfStart(0, 2);
    PinOfStart(0, 3);
    PinOfStart(0, 4);
    if forall b :: 1 <= b <= 4 ==> PinOf(Pins, 0, b) == Some(BitText(code[b - 1])) {
      assert PinOf(Pins, 0, 1) == Some(BitText(code[0])) && PinOf(Pins, 0, 2) == Some(BitText(code[1]));
      assert PinOf(Pins, 0, 3) == Some(BitText(code[2])) && PinOf(Pins, 0, 4) == Some(BitText(code[3]));
      assert code == [true, true, true, false];
    }
  }

  /**
   * Bits 1 and 4 of step 1 are pinned to 1 and 0, bits 2 and 3 are free: the directions step 1
   * can take are SE, SW, DE and DW, so that SW then SE is a start the pins allow.
   */
  lemma PinsAllowSecond(d: Fcc12.Direction)
    ensures PinOf(Pins, 1, 2) == None && PinOf(Pins, 1, 3) == None
    ensures PinOf(Pins, 1, 1) == Some(BitText(CodeSeq(d)[0])) && PinOf(Pins, 1, 4) == Some(BitText(CodeSeq(d)[3]))
      <==> d == Fcc12.SE || d == Fcc12.SW || d == Fcc12.DE || d == Fcc12.DW
  {
    PinOfStart(1, 1);
    PinOfStart(1, 2);
    PinOfStart(1, 3);
    PinOfStart(1, 4);
  }

  /** The energy text before the pins: the three penalties with their headers, then the interaction lines. */
  function EnergyText(redun: string, overlap: string, backup: string, interactions: string): string
  {
    "REDUNDUNCY_PENALTY\t(" + redun + ")\n"
      + "OVERLAP_PENALTY\t(" + overlap + ")\n"
      + "BACKUP_PENATLY\t(" + backup + ")\n"
      + interactions
  }

  /**
   * `create_energy_function` over the energy matrix of the sequence, with the back templates
   * backs (`WrittenBack` as the file has them, `CorrectedBack` as intended): the penalties of n
   * residues and the interaction lines of the pairs at least 2 apart, with the start pinned.
   */
  method CreateEnergyFunction(backs: Fcc12.Direction -> string, matrix: seq<seq<int>>, n: nat) returns (text: string)
    requires Assembly.IsSquare(matrix, n)
    ensures text == ApplyPins(EnergyText(Join(RedundancyTerms(n), " + "),
                                         Join(OverlapTerms(Written(), n, 2), " + "),
                                         Join(BackTerms(backs, n), " + "),
                                         Appended(InteractionLines(Written(), Cases, matrix, n, 2), "")), Pins)
  {
    var overlap := CreateOverlapConstraint(Written(), n, 2);
    var backup := CreateBackConstraint(backs, n);
    var redun := CreateRedundancyConstraint(n);
    var interactions := CreateInteractions(Written(), Cases, matrix, n, 2);
    assert SmallPins(Pins);
    text := ApplyPins(EnergyText(redun, overlap, backup, interactions), Pins);
  }
}
