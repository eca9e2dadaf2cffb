/**
 * The text builder of the 6-direction cubic lattice (HCOMB6.py): every direction test is a
 * product template over the three bits of a step, the redundancy, back and overlap penalties
 * and the interaction lines are strings, and the whole energy text has the step-0 and step-1
 * literals pinned by `replace`.
 *
 * The templates as written test the codes E 101, W 110, N 001, S 010, U 111, D 100, not the
 * table E 000, W 001, N 010, S 011, U 100, D 101 the file opens with; the redundancy term
 * penalises the codes 11x, two of which the templates use, and the pins fix step 0 to 000,
 * which no template tests. `Written` is the table as written; `Corrected` the opening table,
 * which agrees with the redundancy term and the pins.
 */
module TextCubic6 {
  import opened Numeric
  import opened Geometry
  import opened TextForm
  import opened TextBitOps
  import opened TextLattice
  import opened Outcomes
  import Cubic6

  // ---------------------------------------------------------------- the direction tests

  const DxPlusTemplate: string := "q^t_1 * -q^t_2 * q^t_3"
  const DxMinusTemplate: string := "q^t_1 * q^t_2 * -q^t_3"
  const DyPlusTemplate: string := "-q^t_1 * -q^t_2 * q^t_3"
  const DyMinusTemplate: string := "-q^t_1 * q^t_2 * -q^t_3"
  const DzPlusTemplate: string := "q^t_1 * q^t_2 * q^t_3"
  const DzMinusTemplate: string := "q^t_1 * -q^t_2 * -q^t_3"

  function DxPlus(t: nat): string { Rendered(DxPlusTemplate, t) }

  function DxMinus(t: nat): string { Rendered(DxMinusTemplate, t) }

  function DyPlus(t: nat): string { Rendered(DyPlusTemplate, t) }

  function DyMinus(t: nat): string { Rendered(DyMinusTemplate, t) }

  function DzPlus(t: nat): string { Rendered(DzPlusTemplate, t) }

  function DzMinus(t: nat): string { Rendered(DzMinusTemplate, t) }

  /** The six tests as written, in the order of the direction sums. */
  function Written(): Predicates
  {
    Predicates(DxPlus, DxMinus, DyPlus, DyMinus, DzPlus, DzMinus)
  }

  /** The test of each direction, E W N S U D being x+, x-, y+, y-, z+, z-. */
  function Test(p: Predicates, d: Cubic6.Direction): nat -> string
  {
    match d
    case E => p.xPlus
    case W => p.xMinus
    case N => p.yPlus
    case S => p.yMinus
    case U => p.zPlus
    case D => p.zMinus
  }

  function WrittenTemplate(d: Cubic6.Direction): string
  {
    match d
    case E => DxPlusTemplate
    case W => DxMinusTemplate
    case N => DyPlusTemplate
    case S => DyMinusTemplate
    case U => DzPlusTemplate
    case D => DzMinusTemplate
  }

  /** The code each written template tests, bit 1 first. */
  function WrittenCode(d: Cubic6.Direction): (code: seq<bool>)
    ensures |code| == 3
  {
    match d
    case E => [true, false, true]
    case W => [true, true, false]
    case N => [false, false, true]
    case S => [false, true, false]
    case U => [true, true, true]
    case D => [true, false, false]
  }

  /** The code of the table the file opens with (the one the sympy builder uses). */
  function TableCode(d: Cubic6.Direction): (code: seq<bool>)
    ensures |code| == 3
  {
    var c := Cubic6.Code(d);
    [c.0, c.1, c.2]
  }

  /** The variables of the three bits with the slot letter `t`. */
  lemma SlotVariables()
    ensures Variable(1, "t") == "q^t_1" && Variable(2, "t") == "q^t_2" && Variable(3, "t") == "q^t_3"
  {
  }

  lemma DxPlusSpelled()
    ensures DxPlusTemplate == ProductText(CodeLits([true, false, true]), "t")
  {
    assert DxPlusTemplate == "" + "q^t_1" + " * " + "-" + "q^t_2" + " * " + "" + "q^t_3";
    ThreeBitProduct([true, false, true], "t");
    SlotVariables();
  }

  lemma DxMinusSpelled()
    ensures DxMinusTemplate == ProductText(CodeLits([true, true, false]), "t")
  {
    assert DxMinusTemplate == "" + "q^t_1" + " * " + "" + "q^t_2" + " * " + "-" + "q^t_3";
    ThreeBitProduct([true, true, false], "t");
    SlotVariables();
  }

  lemma DyPlusSpelled()
    ensures DyPlusTemplate == ProductText(CodeLits([false, false, true]), "t")
  {
    assert DyPlusTemplate == "-" + "q^t_1" + " * " + "-" + "q^t_2" + " * " + "" + "q^t_3";
    ThreeBitProduct([false, false, true], "t");
    SlotVariables();
  }

  lemma DyMinusSpelled()
    ensures DyMinusTemplate == ProductText(CodeLits([false, true, false]), "t")
  {
    assert DyMinusTemplate == "-" + "q^t_1" + " * " + "" + "q^t_2" + " * " + "-" + "q^t_3";
    ThreeBitProduct([false, true, false], "t");
    SlotVariables();
  }

  lemma DzPlusSpelled()
    ensures DzPlusTemplate == ProductText(CodeLits([true, true, true]), "t")
  {
    assert DzPlusTemplate == "" + "q^t_1" + " * " + "" + "q^t_2" + " * " + "" + "q^t_3";
    ThreeBitProduct([true, true, true], "t");
    SlotVariables();
  }

  lemma DzMinusSpelled()
    ensures DzMinusTemplate == ProductText(CodeLits([true, false, false]), "t")
  {
    assert DzMinusTemplate == "" + "q^t_1" + " * " + "-" + "q^t_2" + " * " + "-" + "q^t_3";
    ThreeBitProduct([true, false, false], "t");
    SlotVariables();
  }

  /** Each written template is the product of its code's literals with the slot letter `t`. */
  lemma WrittenTemplateCode(d: Cubic6.Direction)
    ensures WrittenTemplate(d) == ProductText(CodeLits(WrittenCode(d)), "t")
  {
    match d
    case E => DxPlusSpelled();
    case W => DxMinusSpelled();
    case N => DyPlusSpelled();
    case S => DyMinusSpelled();
    case U => DzPlusSpelled();
    case D => DzMinusSpelled();
  }

  /** A predicate table whose test of each direction d renders the product of code(d)'s literals. */
  ghost predicate RendersCodes(p: Predicates, code: Cubic6.Direction -> seq<bool>)
  {
    (forall d: Cubic6.Direction :: |code(d)| == 3) &&
    forall d: Cubic6.Direction, t: nat {:trigger Test(p, d)(t)} ::
      |code(d)| == 3 && Test(p, d)(t) == ProductText(CodeLits(code(d)), NatToString(t))
  }

  /** The `replace('t', str(t))` of a three-bit template gives the product of step t. */
  lemma TemplateRenders(code: seq<bool>, t: nat)
    requires |code| == 3
    ensures Rendered(ProductText(CodeLits(code), "t"), t) == ProductText(CodeLits(code), NatToString(t))
  {
    ProductTemplate(CodeLits(code), 't', 'a', NatToString(t));
  }

  /** The written tests render the products of the written codes. */
  lemma WrittenRenders()
    ensures RendersCodes(Written(), WrittenCode)
  {
    forall d: Cubic6.Direction, t: nat
      ensures |WrittenCode(d)| == 3 && Test(Written(), d)(t) == ProductText(CodeLits(WrittenCode(d)), NatToString(t))
    {
      assert Test(Written(), d)(t) == Rendered(WrittenTemplate(d), t) by {
        match d
        case E => case W => case N => case S => case U => case D =>
      }
      WrittenTemplateCode(d);
      TemplateRenders(WrittenCode(d), t);
    }
    assert forall d: Cubic6.Direction :: (WrittenCode)(d) == WrittenCode(d);
  }

  /** The tests with the codes of the table the file opens with, through the same templates. */
  function CorrectedTest(d: Cubic6.Direction, t: nat): string
  {
    Rendered(ProductText(CodeLits(TableCode(d)), "t"), t)
  }

  function Corrected(): Predicates
  {
    Predicates((t: nat) => CorrectedTest(Cubic6.E, t), (t: nat) => CorrectedTest(Cubic6.W, t),
               (t: nat) => CorrectedTest(Cubic6.N, t), (t: nat) => CorrectedTest(Cubic6.S, t),
               (t: nat) => CorrectedTest(Cubic6.U, t), (t: nat) => CorrectedTest(Cubic6.D, t))
  }

  lemma CorrectedRenders()
    ensures RendersCodes(Corrected(), TableCode)
  {
    forall d: Cubic6.Direction, t: nat
      ensures |TableCode(d)| == 3 && Test(Corrected(), d)(t) == ProductText(CodeLits(TableCode(d)), NatToString(t))
    {
      assert Test(Corrected(), d)(t) == CorrectedTest(d, t) by {
        match d
        case E => case W => case N => case S => case U => case D =>
      }
      TemplateRenders(TableCode(d), t);
    }
    assert forall d: Cubic6.Direction :: (TableCode)(d) == TableCode(d);
  }

  /** A rendered test holds no letter `a` or `b`, so the back templates' second replace only meets their own slot. */
  lemma RenderedPlain(p: Predicates, code: Cubic6.Direction -> seq<bool>, d: Cubic6.Direction, t: nat)
    requires RendersCodes(p, code)
    ensures 'a' !in Test(p, d)(t) && 'b' !in Test(p, d)(t)
  {
    var text := Test(p, d)(t);
    assert |code(d)| == 3;
    assert text == ProductText(CodeLits(code(d)), NatToString(t));
    ProductPlain(CodeLits(code(d)), NatToString(t), 'a');
    ProductPlain(CodeLits(code(d)), NatToString(t), 'b');
  }

  // ---------------------------------------------------------------- the code tables

  /** The literals of the redundancy term: bits 1 and 2 of a step both set. */
  const RedundancyLits: seq<Lit> := [Lit(1, true), Lit(2, true)]

  lemma RedundancyHolds(code: seq<bool>)
    requires |code| == 3
    ensures LitsHold(RedundancyLits, code) <==> code[0] && code[1]
  {
    assert RedundancyLits[0] == Lit(1, true) && RedundancyLits[1] == Lit(2, true);
  }

  /**
   * As written, the tests of W (dx_minus) and U (dz_plus) are on the codes 110 and 111, which
   * the redundancy term penalises; no test is on 000, the code the pins give step 0; and no
   * direction keeps the code of the opening table.
   */
  lemma WrittenTableClashes()
    ensures LitsHold(RedundancyLits, WrittenCode(Cubic6.W)) && LitsHold(RedundancyLits, WrittenCode(Cubic6.U))
    ensures forall d :: WrittenCode(d) != [false, false, false]
    ensures forall d :: WrittenCode(d) != TableCode(d)
  {
    RedundancyHolds(WrittenCode(Cubic6.W));
    RedundancyHolds(WrittenCode(Cubic6.U));
  }

  /**
   * The opening table agrees with the rest of the file: no direction's code is penalised by
   * the redundancy term, 000 (step 0 once pinned) is E, and every code the redundancy term
   * allows is exactly one direction's.
   */
  lemma TableAgrees(code: seq<bool>) returns (d: Cubic6.Direction)
    requires |code| == 3 && !(code[0] && code[1])
    ensures TableCode(d) == code
    ensures forall e :: TableCode(e) == code ==> e == d
    ensures forall e :: !LitsHold(RedundancyLits, TableCode(e))
    ensures TableCode(Cubic6.E) == [false, false, false]
  {
    var r := Cubic6.Decode(code[0], code[1], code[2]);
    d := r.value;
    assert code == [code[0], code[1], code[2]];
    forall e
      ensures !LitsHold(RedundancyLits, TableCode(e))
      ensures TableCode(e) == code ==> e == d
    {
      RedundancyHolds(TableCode(e));
      Cubic6.DecodeCode(e);
    }
  }

  // ---------------------------------------------------------------- redundancy

  /** The term of step t: `(q^t_1 * q^t_2)`. */
  function RedundancyTerm(t: nat): string
  {
    "(q^" + NatToString(t) + "_1 * q^" + NatToString(t) + "_2)"
  }

  /** The terms of steps 0 .. n - 2, in loop order. */
  function RedundancyTerms(n: nat): seq<string>
  {
    Chunks((t: nat) => [RedundancyTerm(t)], if n >= 1 then n - 1 else 0)
  }

  /** `create_redundancy_constraint`: the terms joined by " + ". */
  method CreateRedundancyConstraint(n: nat) returns (redundancy: string)
    ensures redundancy == Join(RedundancyTerms(n), " + ")
  {
    var text := "";
    var steps := if n >= 1 then n - 1 else 0;
    for t := 0 to steps
      invariant text == Appended(Chunks((t: nat) => [RedundancyTerm(t)], t), " + ")
    {
      RedundancyAppended(t, text);
      text := text + "(q^" + NatToString(t) + "_1 * q^" + NatToString(t) + "_2)" + " + ";
    }
    AppendedThenCut(RedundancyTerms(n));
    redundancy := DropLast3(text);
  }

  /** The append of step t adds the step's term. */
  lemma RedundancyAppended(t: nat, before: string)
    requires before == Appended(Chunks((t: nat) => [RedundancyTerm(t)], t), " + ")
    ensures before + "(q^" + NatToString(t) + "_1 * q^" + NatToString(t) + "_2)" + " + "
      == Appended(Chunks((t: nat) => [RedundancyTerm(t)], t + 1), " + ")
  {
    var g := (t: nat) => [RedundancyTerm(t)];
    assert Chunks(g, t + 1) == Chunks(g, t) + [RedundancyTerm(t)];
    AppendedSnoc(Chunks(g, t), RedundancyTerm(t), " + ");
    var s := NatToString(t);
    GlueFive(before, "(q^", s, "_1 * q^", s, "_2)");
  }

  /** Term t of the redundancy text is the product of bits 1 and 2 of step t, one term per step but the last. */
  lemma RedundancyTermsAt(n: nat, t: nat)
    requires t + 1 < n
    ensures |RedundancyTerms(n)| == n - 1
    ensures RedundancyTerms(n)[t] == "(" + ProductText(RedundancyLits, NatToString(t)) + ")"
  {
    RedundancyTermIsProduct(t);
    PlaceRedundancyTerm(n, t, "(" + ProductText(RedundancyLits, NatToString(t)) + ")");
  }

  /** The term of step t lands at position t. */
  lemma PlaceRedundancyTerm(n: nat, t: nat, x: string)
    requires t + 1 < n && RedundancyTerm(t) == x
    ensures |RedundancyTerms(n)| == n - 1 && RedundancyTerms(n)[t] == x
  {
    var g := (t: nat) => [RedundancyTerm(t)];
    ChunksAt(g, 1, n - 1, t);
    SliceItem(Chunks(g, n - 1), g(t), 1 * t, 0);
  }

  /** The term of step t is the product of the positive literals of bits 1 and 2 of that step. */
  lemma RedundancyTermIsProduct(t: nat)
    ensures RedundancyTerm(t) == "(" + ProductText(RedundancyLits, NatToString(t)) + ")"
  {
    var s := NatToString(t);
    assert ProductText(RedundancyLits, s) == LitText(Lit(1, true), s) + " * " + LitText(Lit(2, true), s);
    assert LitText(Lit(1, true), s) == "q^" + s + "_1" by { assert "_" + [DigitChar(1)] == "_1"; }
    assert LitText(Lit(2, true), s) == "q^" + s + "_2" by { assert "_" + [DigitChar(2)] == "_2"; }
    assert "(" + ("q^" + s + "_1") + " * " + ("q^" + s + "_2") + ")" == "(q^" + s + "_1 * q^" + s + "_2)" by {
      assert "(" + "q^" == "(q^" && "_1" + " * " + "q^" == "_1 * q^" && "_2" + ")" == "_2)";
    }
  }

  // ---------------------------------------------------------------- back

  const BackTemplate: string := "(a * b)"

  /** `"(a * b)".replace('a', x).replace('b', y)`. */
  function BackPair(x: string, y: string): string
  {
    Substitute(BackTemplate, x, y)
  }

  /** The six terms of one turn: each direction at step t followed by its opposite at step t + 1. */
  function TurnBack(p: Predicates, t: nat): (r: seq<string>)
    ensures |r| == 6
  {
    seq(6, j requires 0 <= j < 6 => BackPair(Test(p, BackOrder[j])(t), Test(p, Opposite(BackOrder[j]))(t + 1)))
  }

  /** The turn's terms in the order the six appends of `create_back_constraint` write them. */
  lemma TurnBackWritten(p: Predicates, t: nat)
    ensures var r := TurnBack(p, t);
      r[0] == BackPair(p.xPlus(t), p.xMinus(t + 1)) && r[1] == BackPair(p.xMinus(t), p.xPlus(t + 1))
      && r[2] == BackPair(p.yPlus(t), p.yMinus(t + 1)) && r[3] == BackPair(p.yMinus(t), p.yPlus(t + 1))
      && r[4] == BackPair(p.zPlus(t), p.zMinus(t + 1)) && r[5] == BackPair(p.zMinus(t), p.zPlus(t + 1))
  {
    TurnBackItems(p, t, 0, p.xPlus, p.xMinus);
    TurnBackItems(p, t, 2, p.yPlus, p.yMinus);
    TurnBackItems(p, t, 4, p.zPlus, p.zMinus);
  }

  /** Terms j and j + 1 of a turn, once the two tests of their axis are known. */
  lemma TurnBackItems(p: Predicates, t: nat, j: nat, f: nat -> string, g: nat -> string)
    requires j + 1 < 6 && Opposite(BackOrder[j]) == BackOrder[j + 1] && Opposite(BackOrder[j + 1]) == BackOrder[j]
    requires Test(p, BackOrder[j]) == f && Test(p, BackOrder[j + 1]) == g
    ensures TurnBack(p, t)[j] == BackPair(f(t), g(t + 1)) && TurnBack(p, t)[j + 1] == BackPair(g(t), f(t + 1))
  {
  }

  function BackTerms(p: Predicates, n: nat): seq<string>
  {
    Chunks((t: nat) => TurnBack(p, t), if n >= 2 then n - 2 else 0)
  }

  /** `create_back_constraint`: the six terms of every turn 0 .. n - 3 joined by " + ". */
  method CreateBackConstraint(p: Predicates, n: nat) returns (back: string)
    ensures back == Join(BackTerms(p, n), " + ")
  {
    var text := "";
    var turns := if n >= 2 then n - 2 else 0;
    for turn := 0 to turns
      invariant text == Appended(Chunks((t: nat) => TurnBack(p, t), turn), " + ")
    {
      var before := text;
      text := text + BackPair(p.xPlus(turn), p.xMinus(turn + 1)) + " + ";
      text := text + BackPair(p.xMinus(turn), p.xPlus(turn + 1)) + " + ";
      text := text + BackPair(p.yPlus(turn), p.yMinus(turn + 1)) + " + ";
      text := text + BackPair(p.yMinus(turn), p.yPlus(turn + 1)) + " + ";
      text := text + BackPair(p.zPlus(turn), p.zMinus(turn + 1)) + " + ";
      text := text + BackPair(p.zMinus(turn), p.zPlus(turn + 1)) + " + ";
      TurnAppended(p, turn, before);
    }
    AppendedThenCut(BackTerms(p, n));
    back := DropLast3(text);
  }

  /** The six appends of one turn add the turn's terms. */
  lemma TurnAppended(p: Predicates, turn: nat, before: string)
    requires before == Appended(Chunks((t: nat) => TurnBack(p, t), turn), " + ")
    ensures before + BackPair(p.xPlus(turn), p.xMinus(turn + 1)) + " + " + BackPair(p.xMinus(turn), p.xPlus(turn + 1)) + " + "
      + BackPair(p.yPlus(turn), p.yMinus(turn + 1)) + " + " + BackPair(p.yMinus(turn), p.yPlus(turn + 1)) + " + "
      + BackPair(p.zPlus(turn), p.zMinus(turn + 1)) + " + " + BackPair(p.zMinus(turn), p.zPlus(turn + 1)) + " + "
      == Appended(Chunks((t: nat) => TurnBack(p, t), turn + 1), " + ")
  {
    var g := (t: nat) => TurnBack(p, t);
    var u := TurnBack(p, turn);
    assert Chunks(g, turn + 1) == Chunks(g, turn) + u;
    AppendedSix(Chunks(g, turn), u, " + ");
    TurnBackWritten(p, turn);
  }

  /** The order of the six terms of a turn, by the direction tested at the turn's first step. */
  const BackOrder: seq<Cubic6.Direction> := [Cubic6.E, Cubic6.W, Cubic6.N, Cubic6.S, Cubic6.U, Cubic6.D]

  /** The direction that undoes d. */
  function Opposite(d: Cubic6.Direction): Cubic6.Direction
  {
    match d
    case E => Cubic6.W
    case W => Cubic6.E
    case N => Cubic6.S
    case S => Cubic6.N
    case U => Cubic6.D
    case D => Cubic6.U
  }

  /** The opposite direction's step is the negation of the direction's own. */
  lemma OppositeUndoes(d: Cubic6.Direction)
    ensures Cubic6.Step(Opposite(d)) == Negate(Cubic6.Step(d))
  {
    match d
    case E => assert Cubic6.Step(Cubic6.W) == Vec(-1, 0, 0);
    case W => assert Cubic6.Step(Cubic6.E) == Vec(1, 0, 0);
    case N => assert Cubic6.Step(Cubic6.S) == Vec(0, -1, 0);
    case S => assert Cubic6.Step(Cubic6.N) == Vec(0, 1, 0);
    case U => assert Cubic6.Step(Cubic6.D) == Vec(0, 0, -1);
    case D => assert Cubic6.Step(Cubic6.U) == Vec(0, 0, 1);
  }


  /** Every direction opens one term of each turn. */
  lemma BackIndex(d: Cubic6.Direction) returns (j: nat)
    ensures j < 6 && BackOrder[j] == d
  {
    match d
    case E => j := 0;
    case W => j := 1;
    case N => j := 2;
    case S => j := 3;
    case U => j := 4;
    case D => j := 5;
  }

  /** On a first operand without a letter `b`, the back template is the product of the two tests. */
  lemma BackPairMeaning(x: string, y: string)
    requires 'b' !in x
    ensures BackPair(x, y) == "(" + x + " * " + y + ")"
  {
    assert BackTemplate == "(" + "a" + " * " + "b" + ")";
    SubstituteTwoSlots("(", " * ", ")", x, y);
    ReplaceAbsent(x, 'b', y);
  }

  /**
   * Six terms per turn 0 .. n - 3; term j of turn t is the product of the direction test of
   * BackOrder[j] at step t with the test of the opposite direction at step t + 1, so that every
   * step followed by its reversal is penalised.
   */
  lemma BackTermsAt(p: Predicates, code: Cubic6.Direction -> seq<bool>, n: nat, t: nat, j: nat)
    requires RendersCodes(p, code) && t + 2 < n && j < 6
    ensures |BackTerms(p, n)| == 6 * (n - 2)
    ensures var d := BackOrder[j];
      BackTerms(p, n)[6 * t + j] == "(" + ProductText(CodeLits(code(d)), NatToString(t)) + " * "
        + ProductText(CodeLits(code(Opposite(d))), NatToString(t + 1)) + ")"
  {
    var d := BackOrder[j];
    var x := "(" + ProductText(CodeLits(code(d)), NatToString(t)) + " * "
      + ProductText(CodeLits(code(Opposite(d))), NatToString(t + 1)) + ")";
    TurnBackAt(p, code, t, j);
    PlaceBackTerm(p, n, t, j, x);
  }

  /** A term of turn t lands at its place among the terms of all turns. */
  lemma PlaceBackTerm(p: Predicates, n: nat, t: nat, j: nat, x: string)
    requires t + 2 < n && j < 6 && TurnBack(p, t)[j] == x
    ensures |BackTerms(p, n)| == 6 * (n - 2) && BackTerms(p, n)[6 * t + j] == x
  {
    BackTermIs(p, n, t);
    SliceItem(BackTerms(p, n), TurnBack(p, t), 6 * t, j);
  }

  /** The terms of turn t sit at positions 6 * t .. 6 * t + 5. */
  lemma BackTermIs(p: Predicates, n: nat, t: nat)
    requires t + 2 < n
    ensures |BackTerms(p, n)| == 6 * (n - 2)
    ensures BackTerms(p, n)[6 * t .. 6 * t + 6] == TurnBack(p, t)
  {
    ChunksAt((t: nat) => TurnBack(p, t), 6, n - 2, t);
  }

  /** Term j of turn t, rendered. */
  lemma TurnBackAt(p: Predicates, code: Cubic6.Direction -> seq<bool>, t: nat, j: nat)
    requires RendersCodes(p, code) && j < 6
    ensures var d := BackOrder[j];
      TurnBack(p, t)[j] == "(" + ProductText(CodeLits(code(d)), NatToString(t)) + " * "
        + ProductText(CodeLits(code(Opposite(d))), NatToString(t + 1)) + ")"
  {
    var d := BackOrder[j];
    RenderedPlain(p, code, d, t);
    BackPairMeaning(Test(p, d)(t), Test(p, Opposite(d))(t + 1));
    var x, y := Test(p, d)(t), Test(p, Opposite(d))(t + 1);
    assert |code(d)| == 3 && |code(Opposite(d))| == 3;
  }

  // ---------------------------------------------------------------- adjacency

  /** The three cases of `adjacency_indicator`: two axes equal and the third off by one. */
  const Cases: seq<seq<Factor>> :=
    [[Same(X), Same(Y), Off(Z)], [Same(X), Same(Z), Off(Y)], [Same(Y), Same(Z), Off(X)]]

  /** The cases hold on exactly the six unit moves: the sites of a pair are adjacent. */
  lemma CasesAreMoves(v: Vec)
    ensures SomeCaseHolds(Cases, v) <==> Cubic6.IsMove(v)
  {
    Cubic6.IsMoveComponents(v);
    if SomeCaseHolds(Cases, v) {
      var i :| 0 <= i < |Cases| && CaseHolds(Cases[i], v);
      assert FactorHolds(Cases[i][0], v) && FactorHolds(Cases[i][1], v) && FactorHolds(Cases[i][2], v);
    }
    if Cubic6.OneUnit(v) {
      if v.x != 0 {
        assert CaseHolds(Cases[2], v);
      } else if v.y != 0 {
        assert CaseHolds(Cases[1], v);
      } else {
        assert CaseHolds(Cases[0], v);
      }
    }
  }

  /** A case of two equal axes and an offset one, spelled as `adjacency_indicator` writes it. */
  function OffsetCaseText(eq1: string, eq2: string, plusOne: string, minusOne: string): string
  {
    "((" + DropLast3(eq1) + ") * (" + DropLast3(eq2) + ") * ((" + DropLast3(plusOne) + ") + (" + DropLast3(minusOne) + ")))"
  }

  lemma CaseRegroup(x: string, y: string, u: string, v: string)
    ensures "(" + (("(" + x + ")") + " * " + ("(" + y + ")") + " * " + ("((" + u + ") + (" + v + "))")) + ")"
      == "((" + x + ") * (" + y + ") * ((" + u + ") + (" + v + ")))"
  {
    assert "(" + "(" == "((" && ")" + " * " + "(" == ") * (" && ")" + " * " + "((" == ") * ((" && "))" + ")" == ")))";
  }

  /** A case of three factors, the last one an offset, is `OffsetCaseText` of its parts. */
  lemma CaseSpelled(a: Axis, b: Axis, c: Axis, parts: Parts)
    ensures CaseText([Same(a), Same(b), Off(c)], parts)
      == OffsetCaseText(EqualPart(parts, a), EqualPart(parts, b), PlusOnePart(parts, c), MinusOnePart(parts, c))
  {
    var f := [Same(a), Same(b), Off(c)];
    FactorTexts3(f, parts);
    Join3(FactorText(f[0], parts), FactorText(f[1], parts), FactorText(f[2], parts), " * ");
    var x, y := DropLast3(EqualPart(parts, a)), DropLast3(EqualPart(parts, b));
    var u, v := DropLast3(PlusOnePart(parts, c)), DropLast3(MinusOnePart(parts, c));
    assert CaseText(f, parts) == "(" + (("(" + x + ")") + " * " + ("(" + y + ")") + " * " + ("((" + u + ") + (" + v + "))")) + ")";
    CaseRegroup(x, y, u, v);
  }

  /**
   * The indicator of `adjacency_indicator` spelled as its three return lines: x and y equal with
   * z off by one, x and z equal with y off by one, y and z equal with x off by one.
   */
  lemma IndicatorSpelled(parts: Parts)
    ensures IndicatorText(Cases, parts)
      == OffsetCaseText(parts.xEqual, parts.yEqual, parts.zPlusOne, parts.zMinusOne) + " + "
         + OffsetCaseText(parts.xEqual, parts.zEqual, parts.yPlusOne, parts.yMinusOne) + " + "
         + OffsetCaseText(parts.yEqual, parts.zEqual, parts.xPlusOne, parts.xMinusOne)
  {
    CaseTexts3(Cases, parts);
    CaseSpelled(X, Y, Z, parts);
    CaseSpelled(X, Z, Y, parts);
    CaseSpelled(Y, Z, X, parts);
    Join3(CaseText(Cases[0], parts), CaseText(Cases[1], parts), CaseText(Cases[2], parts), " + ");
  }

  // ---------------------------------------------------------------- the energy text

  /** The replaces at the end of `create_energy_function`: q^0_1, q^0_2, q^0_3, q^1_2, q^1_3 to 0. */
  const Pins: seq<Pin> := [Pin(0, 1, "0"), Pin(0, 2, "0"), Pin(0, 3, "0"), Pin(1, 2, "0"), Pin(1, 3, "0")]

  /** Every bit of step 0 and bits 2 and 3 of step 1 are pinned to 0, and nothing else is pinned. */
  lemma PinOfStart(t: nat, bit: nat)
    ensures PinOf(Pins, t, bit)
      == if (t == 0 && 1 <= bit <= 3) || (t == 1 && 2 <= bit <= 3) then Some("0") else None
  {
    var p := Pins;
    assert p[1..][1..][1..][1..][1..] == [];
  }

  /**
   * The pins on one literal: a literal of step 0, or of bit 2 or 3 of step 1, becomes its sign
   * followed by 0, and every other literal is left as it is.
   */
  lemma PinsFixStart(l: Lit, t: nat)
    requires l.bit < 10
    ensures ApplyPins(LitText(l, NatToString(t)), Pins)
      == if (t == 0 && 1 <= l.bit <= 3) || (t == 1 && 2 <= l.bit <= 3)
         then Sign(l.positive) + "0" else LitText(l, NatToString(t))
  {
    assert SmallPins(Pins);
    PinOfStart(t, l.bit);
    PinsOnLiteral(l, t, Pins);
  }

  /** Step 0 is pinned to the code 000, which the opening table gives East and no written template tests. */
  lemma PinsFixEast(code: seq<bool>)
    requires |code| == 3
    ensures (forall b :: 1 <= b <= 3 ==> PinOf(Pins, 0, b) == Some(if code[b - 1] then "1" else "0"))
      <==> code == TableCode(Cubic6.E)
  {
    PinOfStart(0, 1);
    PinOfStart(0, 2);
    PinOfStart(0, 3);
    if code == TableCode(Cubic6.E) {
      assert code == [false, false, false];
    }
    if forall b :: 1 <= b <= 3 ==> PinOf(Pins, 0, b) == Some(if code[b - 1] then "1" else "0") {
      assert PinOf(Pins, 0, 1) == Some(if code[0] then "1" else "0");
      assert PinOf(Pins, 0, 2) == Some(if code[1] then "1" else "0");
      assert PinOf(Pins, 0, 3) == Some(if code[2] then "1" else "0");
      assert code == [false, false, false];
    }
  }

  /** The energy text before the pins: the three penalties with their headers, then the interaction lines. */
  function EnergyText(redun: string, overlap: string, backup: string, interactions: string): string
  {
    "REDUNDUNCY_PENALTY\t(" + redun + ")+ \n"
      + "OVERLAP_PENALTY\t(" + overlap + ") + \n"
      + "BACKUP_PENATLY\t(" + backup + ") + \n"
      + interactions
  }

  /**
   * `create_energy_function` over the energy matrix of the sequence, with the direction tests p
   * (`Written()` as the file has them, `Corrected()` as its table intends): the penalties of n
   * residues and the interaction lines of the pairs at least 3 apart, with the start pinned.
   */
  method CreateEnergyFunction(p: Predicates, matrix: seq<seq<int>>, n: nat) returns (text: string)
    requires Assembly.IsSquare(matrix, n)
    ensures text == ApplyPins(EnergyText(Join(RedundancyTerms(n), " + "),
                                         Join(OverlapTerms(p, n, 3), " + "),
                                         Join(BackTerms(p, n), " + "),
                                         Appended(InteractionLines(p, Cases, matrix, n, 3), "")), Pins)
  {
    var overlap := CreateOverlapConstraint(p, n, 3);
    var backup := CreateBackConstraint(p, n);
    var redun := CreateRedundancyConstraint(n);
    var interactions := CreateInteractions(p, Cases, matrix, n, 3);
    assert SmallPins(Pins);
    text := ApplyPins(EnergyText(redun, overlap, backup, interactions), Pins);
  }
}
