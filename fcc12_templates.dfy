/**
 * The string templates of HCOMB12.py as written: the six direction tests and the twelve back
 * terms, each split into its literals, separators and parentheses. Each split is a ground fact
 * about the literal, checked one literal at a time from the right.
 */
module Fcc12Templates {
  const DxPlusTemplate: string := "q^t_1 * -q^t_2"
  const DxMinusTemplate: string := "q^t_1 * q^t_2"
  const DyPlusTemplate: string := "q^t_1 * q^t_3 * q^t_4 + -q^t_1 * q^t_2 * q^t_3"
  const DyMinusTemplate: string := "q^t_1 * q^t_3 * -q^t_4 + -q^t_1 * q^t_2 * -q^t_3"
  const DzPlusTemplate: string := "q^t_1 * -q^t_3 * q^t_4 + -q^t_1 * q^t_2 * q^t_4"
  const DzMinusTemplate: string := "q^t_1 * -q^t_3 * -q^t_4 + -q^t_1 * q^t_2 * -q^t_4"

  const BackNETemplate: string := "(q^a_1 * -q^a_2 * q^a_3 * q^a_4 * q^b_1 * q^b_2 * q^b_3 * -q^b_4)"
  const BackSWTemplate: string := "(q^a_1 * q^a_2 * q^a_3 * -q^a_4 * q^b_1 * -q^b_2 * q^b_3 * -q^b_4)"
  const BackNWTemplate: string := "(q^a_1 * q^a_2 * q^a_3 * q^a_4 * q^b_1 * -q^b_2 * q^b_3 * -q^b_4)"
  const BackSETemplate: string := "(q^a_1 * -q^a_2 * q^a_3 * -q^a_4 * q^b_1 * q^b_2 * q^b_3 * q^b_4)"
  const BackUNTemplate: string := "(-q^a_1 * q^a_2 * q^a_3 * q^a_4 * -q^b_1 * q^b_2 * -q^b_3 * -q^b_4)"
  const BackDSTemplate: string := "(-q^a_1 * q^a_2 * -q^a_3 * -q^a_4 * -q^b_1 * q^b_2 * q^b_3 * q^b_4)"
  const BackUSTemplate: string := "(-q^a_1 * q^a_2 * -q^a_3 * q^a_4 * -q^b_1 * q^b_2 * q^b_3 * -q^b_4)"
  const BackDNTemplate: string := "(-q^a_1 * q^a_2 * q^a_3 * -q^a_4 * -q^b_1 * q^b_2 * -q^b_3 * q^b_4)"
  const BackUETemplate: string := "(q^a_1 * -q^a_2 * -q^a_3 * q^a_4 * q^b_1 * q^b_2 * -q^b_3 * -q^b_4)"
  const BackDWTemplate: string := "(q^a_1 * q^a_2 * -q^a_3 * -q^a_4 * q^b_1 * -q^b_2 * -q^b_3 * q^b_4)"
  const BackUWTemplate: string := "(q^a_1 * q^a_2 * -q^a_3 * q^a_4 * q^b_1 * -q^b_2 * -q^b_3 * -q^b_4)"
  const BackDETemplate: string := "(q^a_1 * -q^a_2 * -q^a_3 * -q^a_4 * q^b_1 * q^b_2 * -q^b_3 * q^b_4)"

  /** The template, unit by unit: literals, separators and parentheses. */
  lemma DxPlusUnits()
    ensures DxPlusTemplate == "q^t_1" + " * " + "-q^t_2"
  {
    DxPlusPeel0("q^t_1 * -q^t_2");
  }

  lemma DxPlusPeel0(w: string)
    requires w == "q^t_1 * -q^t_2"
    ensures w == "q^t_1" + " * " + "-q^t_2"
  {
  }

  /** The template, unit by unit: literals, separators and parentheses. */
  lemma DxMinusUnits()
    ensures DxMinusTemplate == "q^t_1" + " * " + "q^t_2"
  {
    DxMinusPeel0("q^t_1 * q^t_2");
  }

  lemma DxMinusPeel0(w: string)
    requires w == "q^t_1 * q^t_2"
    ensures w == "q^t_1" + " * " + "q^t_2"
  {
  }

  /** The template, unit by unit: literals, separators and parentheses. */
  lemma DyPlusUnits()
    ensures DyPlusTemplate == "q^t_1" + " * " + "q^t_3" + " * " + "q^t_4" + " + " + "-q^t_1" + " * " + "q^t_2" + " * " + "q^t_3"
  {
    DyPlusPeel0("q^t_1 * q^t_3 * q^t_4 + -q^t_1 * q^t_2 * q^t_3");
    DyPlusPeel1("q^t_1 * q^t_3 * q^t_4 + -q^t_1 * q^t_2");
    DyPlusPeel2("q^t_1 * q^t_3 * q^t_4 + -q^t_1");
    DyPlusPeel3("q^t_1 * q^t_3 * q^t_4");
    DyPlusPeel4("q^t_1 * q^t_3");
  }

  lemma DyPlusPeel0(w: string)
    requires w == "q^t_1 * q^t_3 * q^t_4 + -q^t_1 * q^t_2 * q^t_3"
    ensures w == "q^t_1 * q^t_3 * q^t_4 + -q^t_1 * q^t_2" + " * " + "q^t_3"
  {
  }

  lemma DyPlusPeel1(w: string)
    requires w == "q^t_1 * q^t_3 * q^t_4 + -q^t_1 * q^t_2"
    ensures w == "q^t_1 * q^t_3 * q^t_4 + -q^t_1" + " * " + "q^t_2"
  {
  }

  lemma DyPlusPeel2(w: string)
    requires w == "q^t_1 * q^t_3 * q^t_4 + -q^t_1"
    ensures w == "q^t_1 * q^t_3 * q^t_4" + " + " + "-q^t_1"
  {
  }

  lemma DyPlusPeel3(w: string)
    requires w == "q^t_1 * q^t_3 * q^t_4"
    ensures w == "q^t_1 * q^t_3" + " * " + "q^t_4"
  {
  }

  lemma DyPlusPeel4(w: string)
    requires w == "q^t_1 * q^t_3"
    ensures w == "q^t_1" + " * " + "q^t_3"
  {
  }

  /** The template, unit by unit: literals, separators and parentheses. */
  lemma DyMinusUnits()
    ensures DyMinusTemplate == "q^t_1" + " * " + "q^t_3" + " * " + "-q^t_4" + " + " + "-q^t_1" + " * " + "q^t_2" + " * " + "-q^t_3"
  {
    DyMinusPeel0("q^t_1 * q^t_3 * -q^t_4 + -q^t_1 * q^t_2 * -q^t_3");
    DyMinusPeel1("q^t_1 * q^t_3 * -q^t_4 + -q^t_1 * q^t_2");
    DyMinusPeel2("q^t_1 * q^t_3 * -q^t_4 + -q^t_1");
    DyMinusPeel3("q^t_1 * q^t_3 * -q^t_4");
    DyMinusPeel4("q^t_1 * q^t_3");
  }

  lemma DyMinusPeel0(w: string)
    requires w == "q^t_1 * q^t_3 * -q^t_4 + -q^t_1 * q^t_2 * -q^t_3"
    ensures w == "q^t_1 * q^t_3 * -q^t_4 + -q^t_1 * q^t_2" + " * " + "-q^t_3"
  {
  }

  lemma DyMinusPeel1(w: string)
    requires w == "q^t_1 * q^t_3 * -q^t_4 + -q^t_1 * q^t_2"
    ensures w == "q^t_1 * q^t_3 * -q^t_4 + -q^t_1" + " * " + "q^t_2"
  {
  }

  lemma DyMinusPeel2(w: string)
    requires w == "q^t_1 * q^t_3 * -q^t_4 + -q^t_1"
    ensures w == "q^t_1 * q^t_3 * -q^t_4" + " + " + "-q^t_1"
  {
  }

  lemma DyMinusPeel3(w: string)
    requires w == "q^t_1 * q^t_3 * -q^t_4"
    ensures w == "q^t_1 * q^t_3" + " * " + "-q^t_4"
  {
  }

  lemma DyMinusPeel4(w: string)
    requires w == "q^t_1 * q^t_3"
    ensures w == "q^t_1" + " * " + "q^t_3"
  {
  }

  /** The template, unit by unit: literals, separators and parentheses. */
  lemma DzPlusUnits()
    ensures DzPlusTemplate == "q^t_1" + " * " + "-q^t_3" + " * " + "q^t_4" + " + " + "-q^t_1" + " * " + "q^t_2" + " * " + "q^t_4"
  {
    DzPlusPeel0("q^t_1 * -q^t_3 * q^t_4 + -q^t_1 * q^t_2 * q^t_4");
    DzPlusPeel1("q^t_1 * -q^t_3 * q^t_4 + -q^t_1 * q^t_2");
    DzPlusPeel2("q^t_1 * -q^t_3 * q^t_4 + -q^t_1");
    DzPlusPeel3("q^t_1 * -q^t_3 * q^t_4");
    DzPlusPeel4("q^t_1 * -q^t_3");
  }

  lemma DzPlusPeel0(w: string)
    requires w == "q^t_1 * -q^t_3 * q^t_4 + -q^t_1 * q^t_2 * q^t_4"
    ensures w == "q^t_1 * -q^t_3 * q^t_4 + -q^t_1 * q^t_2" + " * " + "q^t_4"
  {
  }

  lemma DzPlusPeel1(w: string)
    requires w == "q^t_1 * -q^t_3 * q^t_4 + -q^t_1 * q^t_2"
    ensures w == "q^t_1 * -q^t_3 * q^t_4 + -q^t_1" + " * " + "q^t_2"
  {
  }

  lemma DzPlusPeel2(w: string)
    requires w == "q^t_1 * -q^t_3 * q^t_4 + -q^t_1"
    ensures w == "q^t_1 * -q^t_3 * q^t_4" + " + " + "-q^t_1"
  {
  }

  lemma DzPlusPeel3(w: string)
    requires w == "q^t_1 * -q^t_3 * q^t_4"
    ensures w == "q^t_1 * -q^t_3" + " * " + "q^t_4"
  {
  }

  lemma DzPlusPeel4(w: string)
    requires w == "q^t_1 * -q^t_3"
    ensures w == "q^t_1" + " * " + "-q^t_3"
  {
  }

  /** The template, unit by unit: literals, separators and parentheses. */
  lemma DzMinusUnits()
    ensures DzMinusTemplate == "q^t_1" + " * " + "-q^t_3" + " * " + "-q^t_4" + " + " + "-q^t_1" + " * " + "q^t_2" + " * " + "-q^t_4"
  {
    DzMinusPeel0("q^t_1 * -q^t_3 * -q^t_4 + -q^t_1 * q^t_2 * -q^t_4");
    DzMinusPeel1("q^t_1 * -q^t_3 * -q^t_4 + -q^t_1 * q^t_2");
    DzMinusPeel2("q^t_1 * -q^t_3 * -q^t_4 + -q^t_1");
    DzMinusPeel3("q^t_1 * -q^t_3 * -q^t_4");
    DzMinusPeel4("q^t_1 * -q^t_3");
  }

  lemma DzMinusPeel0(w: string)
    requires w == "q^t_1 * -q^t_3 * -q^t_4 + -q^t_1 * q^t_2 * -q^t_4"
    ensures w == "q^t_1 * -q^t_3 * -q^t_4 + -q^t_1 * q^t_2" + " * " + "-q^t_4"
  {
  }

  lemma DzMinusPeel1(w: string)
    requires w == "q^t_1 * -q^t_3 * -q^t_4 + -q^t_1 * q^t_2"
    ensures w == "q^t_1 * -q^t_3 * -q^t_4 + -q^t_1" + " * " + "q^t_2"
  {
  }

  lemma DzMinusPeel2(w: string)
    requires w == "q^t_1 * -q^t_3 * -q^t_4 + -q^t_1"
    ensures w == "q^t_1 * -q^t_3 * -q^t_4" + " + " + "-q^t_1"
  {
  }

  lemma DzMinusPeel3(w: string)
    requires w == "q^t_1 * -q^t_3 * -q^t_4"
    ensures w == "q^t_1 * -q^t_3" + " * " + "-q^t_4"
  {
  }

  lemma DzMinusPeel4(w: string)
    requires w == "q^t_1 * -q^t_3"
    ensures w == "q^t_1" + " * " + "-q^t_3"
  {
  }

  /** The template, unit by unit: literals, separators and parentheses. */
  lemma BackNEUnits()
    ensures BackNETemplate == "(" + "q^a_1" + " * " + "-q^a_2" + " * " + "q^a_3" + " * " + "q^a_4" + " * " + "q^b_1" + " * " + "q^b_2" + " * " + "q^b_3" + " * " + "-q^b_4" + ")"
  {
    BackNEPeel0("(q^a_1 * -q^a_2 * q^a_3 * q^a_4 * q^b_1 * q^b_2 * q^b_3 * -q^b_4)");
    BackNEPeel1("(q^a_1 * -q^a_2 * q^a_3 * q^a_4 * q^b_1 * q^b_2 * q^b_3 * -q^b_4");
    BackNEPeel2("(q^a_1 * -q^a_2 * q^a_3 * q^a_4 * q^b_1 * q^b_2 * q^b_3");
    BackNEPeel3("(q^a_1 * -q^a_2 * q^a_3 * q^a_4 * q^b_1 * q^b_2");
    BackNEPeel4("(q^a_1 * -q^a_2 * q^a_3 * q^a_4 * q^b_1");
    BackNEPeel5("(q^a_1 * -q^a_2 * q^a_3 * q^a_4");
    BackNEPeel6("(q^a_1 * -q^a_2 * q^a_3");
    BackNEPeel7("(q^a_1 * -q^a_2");
  }

  lemma BackNEPeel0(w: string)
    requires w == "(q^a_1 * -q^a_2 * q^a_3 * q^a_4 * q^b_1 * q^b_2 * q^b_3 * -q^b_4)"
    ensures w == "(q^a_1 * -q^a_2 * q^a_3 * q^a_4 * q^b_1 * q^b_2 * q^b_3 * -q^b_4" + ")"
  {
  }

  lemma BackNEPeel1(w: string)
    requires w == "(q^a_1 * -q^a_2 * q^a_3 * q^a_4 * q^b_1 * q^b_2 * q^b_3 * -q^b_4"
    ensures w == "(q^a_1 * -q^a_2 * q^a_3 * q^a_4 * q^b_1 * q^b_2 * q^b_3" + " * " + "-q^b_4"
  {
  }

  lemma BackNEPeel2(w: string)
    requires w == "(q^a_1 * -q^a_2 * q^a_3 * q^a_4 * q^b_1 * q^b_2 * q^b_3"
    ensures w == "(q^a_1 * -q^a_2 * q^a_3 * q^a_4 * q^b_1 * q^b_2" + " * " + "q^b_3"
  {
  }

  lemma BackNEPeel3(w: string)
    requires w == "(q^a_1 * -q^a_2 * q^a_3 * q^a_4 * q^b_1 * q^b_2"
    ensures w == "(q^a_1 * -q^a_2 * q^a_3 * q^a_4 * q^b_1" + " * " + "q^b_2"
  {
  }

  lemma BackNEPeel4(w: string)
    requires w == "(q^a_1 * -q^a_2 * q^a_3 * q^a_4 * q^b_1"
    ensures w == "(q^a_1 * -q^a_2 * q^a_3 * q^a_4" + " * " + "q^b_1"
  {
  }

  lemma BackNEPeel5(w: string)
    requires w == "(q^a_1 * -q^a_2 * q^a_3 * q^a_4"
    ensures w == "(q^a_1 * -q^a_2 * q^a_3" + " * " + "q^a_4"
  {
  }

  lemma BackNEPeel6(w: string)
    requires w == "(q^a_1 * -q^a_2 * q^a_3"
    ensures w == "(q^a_1 * -q^a_2" + " * " + "q^a_3"
  {
  }

  lemma BackNEPeel7(w: string)
    requires w == "(q^a_1 * -q^a_2"
    ensures w == "(q^a_1" + " * " + "-q^a_2"
  {
  }

  /** The template, unit by unit: literals, separators and parentheses. */
  lemma BackSWUnits()
    ensures BackSWTemplate == "(" + "q^a_1" + " * " + "q^a_2" + " * " + "q^a_3" + " * " + "-q^a_4" + " * " + "q^b_1" + " * " + "-q^b_2" + " * " + "q^b_3" + " * " + "-q^b_4" + ")"
  {
    BackSWPeel0("(q^a_1 * q^a_2 * q^a_3 * -q^a_4 * q^b_1 * -q^b_2 * q^b_3 * -q^b_4)");
    BackSWPeel1("(q^a_1 * q^a_2 * q^a_3 * -q^a_4 * q^b_1 * -q^b_2 * q^b_3 * -q^b_4");
    BackSWPeel2("(q^a_1 * q^a_2 * q^a_3 * -q^a_4 * q^b_1 * -q^b_2 * q^b_3");
    BackSWPeel3("(q^a_1 * q^a_2 * q^a_3 * -q^a_4 * q^b_1 * -q^b_2");
    BackSWPeel4("(q^a_1 * q^a_2 * q^a_3 * -q^a_4 * q^b_1");
    BackSWPeel5("(q^a_1 * q^a_2 * q^a_3 * -q^a_4");
    BackSWPeel6("(q^a_1 * q^a_2 * q^a_3");
    BackSWPeel7("(q^a_1 * q^a_2");
  }

  lemma BackSWPeel0(w: string)
    requires w == "(q^a_1 * q^a_2 * q^a_3 * -q^a_4 * q^b_1 * -q^b_2 * q^b_3 * -q^b_4)"
    ensures w == "(q^a_1 * q^a_2 * q^a_3 * -q^a_4 * q^b_1 * -q^b_2 * q^b_3 * -q^b_4" + ")"
  {
  }

  lemma BackSWPeel1(w: string)
    requires w == "(q^a_1 * q^a_2 * q^a_3 * -q^a_4 * q^b_1 * -q^b_2 * q^b_3 * -q^b_4"
    ensures w == "(q^a_1 * q^a_2 * q^a_3 * -q^a_4 * q^b_1 * -q^b_2 * q^b_3" + " * " + "-q^b_4"
  {
  }

  lemma BackSWPeel2(w: string)
    requires w == "(q^a_1 * q^a_2 * q^a_3 * -q^a_4 * q^b_1 * -q^b_2 * q^b_3"
    ensures w == "(q^a_1 * q^a_2 * q^a_3 * -q^a_4 * q^b_1 * -q^b_2" + " * " + "q^b_3"
  {
  }

  lemma BackSWPeel3(w: string)
    requires w == "(q^a_1 * q^a_2 * q^a_3 * -q^a_4 * q^b_1 * -q^b_2"
    ensures w == "(q^a_1 * q^a_2 * q^a_3 * -q^a_4 * q^b_1" + " * " + "-q^b_2"
  {
  }

  lemma BackSWPeel4(w: string)
    requires w == "(q^a_1 * q^a_2 * q^a_3 * -q^a_4 * q^b_1"
    ensures w == "(q^a_1 * q^a_2 * q^a_3 * -q^a_4" + " * " + "q^b_1"
  {
  }

  lemma BackSWPeel5(w: string)
    requires w == "(q^a_1 * q^a_2 * q^a_3 * -q^a_4"
    ensures w == "(q^a_1 * q^a_2 * q^a_3" + " * " + "-q^a_4"
  {
  }

  lemma BackSWPeel6(w: string)
    requires w == "(q^a_1 * q^a_2 * q^a_3"
    ensures w == "(q^a_1 * q^a_2" + " * " + "q^a_3"
  {
  }

  lemma BackSWPeel7(w: string)
    requires w == "(q^a_1 * q^a_2"
    ensures w == "(q^a_1" + " * " + "q^a_2"
  {
  }

  /** The template, unit by unit: literals, separators and parentheses. */
  lemma BackNWUnits()
    ensures BackNWTemplate == "(" + "q^a_1" + " * " + "q^a_2" + " * " + "q^a_3" + " * " + "q^a_4" + " * " + "q^b_1" + " * " + "-q^b_2" + " * " + "q^b_3" + " * " + "-q^b_4" + ")"
  {
    BackNWPeel0("(q^a_1 * q^a_2 * q^a_3 * q^a_4 * q^b_1 * -q^b_2 * q^b_3 * -q^b_4)");
    BackNWPeel1("(q^a_1 * q^a_2 * q^a_3 * q^a_4 * q^b_1 * -q^b_2 * q^b_3 * -q^b_4");
    BackNWPeel2("(q^a_1 * q^a_2 * q^a_3 * q^a_4 * q^b_1 * -q^b_2 * q^b_3");
    BackNWPeel3("(q^a_1 * q^a_2 * q^a_3 * q^a_4 * q^b_1 * -q^b_2");
    BackNWPeel4("(q^a_1 * q^a_2 * q^a_3 * q^a_4 * q^b_1");
    BackNWPeel5("(q^a_1 * q^a_2 * q^a_3 * q^a_4");
    BackNWPeel6("(q^a_1 * q^a_2 * q^a_3");
    BackNWPeel7("(q^a_1 * q^a_2");
  }

  lemma BackNWPeel0(w: string)
    requires w == "(q^a_1 * q^a_2 * q^a_3 * q^a_4 * q^b_1 * -q^b_2 * q^b_3 * -q^b_4)"
    ensures w == "(q^a_1 * q^a_2 * q^a_3 * q^a_4 * q^b_1 * -q^b_2 * q^b_3 * -q^b_4" + ")"
  {
  }

  lemma BackNWPeel1(w: string)
    requires w == "(q^a_1 * q^a_2 * q^a_3 * q^a_4 * q^b_1 * -q^b_2 * q^b_3 * -q^b_4"
    ensures w == "(q^a_1 * q^a_2 * q^a_3 * q^a_4 * q^b_1 * -q^b_2 * q^b_3" + " * " + "-q^b_4"
  {
  }

  lemma BackNWPeel2(w: string)
    requires w == "(q^a_1 * q^a_2 * q^a_3 * q^a_4 * q^b_1 * -q^b_2 * q^b_3"
    ensures w == "(q^a_1 * q^a_2 * q^a_3 * q^a_4 * q^b_1 * -q^b_2" + " * " + "q^b_3"
  {
  }

  lemma BackNWPeel3(w: string)
    requires w == "(q^a_1 * q^a_2 * q^a_3 * q^a_4 * q^b_1 * -q^b_2"
    ensures w == "(q^a_1 * q^a_2 * q^a_3 * q^a_4 * q^b_1" + " * " + "-q^b_2"
  {
  }

  lemma BackNWPeel4(w: string)
    requires w == "(q^a_1 * q^a_2 * q^a_3 * q^a_4 * q^b_1"
    ensures w == "(q^a_1 * q^a_2 * q^a_3 * q^a_4" + " * " + "q^b_1"
  {
  }

  lemma BackNWPeel5(w: string)
    requires w == "(q^a_1 * q^a_2 * q^a_3 * q^a_4"
    ensures w == "(q^a_1 * q^a_2 * q^a_3" + " * " + "q^a_4"
  {
  }

  lemma BackNWPeel6(w: string)
    requires w == "(q^a_1 * q^a_2 * q^a_3"
    ensures w == "(q^a_1 * q^a_2" + " * " + "q^a_3"
  {
  }

  lemma BackNWPeel7(w: string)
    requires w == "(q^a_1 * q^a_2"
    ensures w == "(q^a_1" + " * " + "q^a_2"
  {
  }

  /** The template, unit by unit: literals, separators and parentheses. */
  lemma BackSEUnits()
    ensures BackSETemplate == "(" + "q^a_1" + " * " + "-q^a_2" + " * " + "q^a_3" + " * " + "-q^a_4" + " * " + "q^b_1" + " * " + "q^b_2" + " * " + "q^b_3" + " * " + "q^b_4" + ")"
  {
    BackSEPeel0("(q^a_1 * -q^a_2 * q^a_3 * -q^a_4 * q^b_1 * q^b_2 * q^b_3 * q^b_4)");
    BackSEPeel1("(q^a_1 * -q^a_2 * q^a_3 * -q^a_4 * q^b_1 * q^b_2 * q^b_3 * q^b_4");
    BackSEPeel2("(q^a_1 * -q^a_2 * q^a_3 * -q^a_4 * q^b_1 * q^b_2 * q^b_3");
    BackSEPeel3("(q^a_1 * -q^a_2 * q^a_3 * -q^a_4 * q^b_1 * q^b_2");
    BackSEPeel4("(q^a_1 * -q^a_2 * q^a_3 * -q^a_4 * q^b_1");
    BackSEPeel5("(q^a_1 * -q^a_2 * q^a_3 * -q^a_4");
    BackSEPeel6("(q^a_1 * -q^a_2 * q^a_3");
    BackSEPeel7("(q^a_1 * -q^a_2");
  }

  lemma BackSEPeel0(w: string)
    requires w == "(q^a_1 * -q^a_2 * q^a_3 * -q^a_4 * q^b_1 * q^b_2 * q^b_3 * q^b_4)"
    ensures w == "(q^a_1 * -q^a_2 * q^a_3 * -q^a_4 * q^b_1 * q^b_2 * q^b_3 * q^b_4" + ")"
  {
  }

  lemma BackSEPeel1(w: string)
    requires w == "(q^a_1 * -q^a_2 * q^a_3 * -q^a_4 * q^b_1 * q^b_2 * q^b_3 * q^b_4"
    ensures w == "(q^a_1 * -q^a_2 * q^a_3 * -q^a_4 * q^b_1 * q^b_2 * q^b_3" + " * " + "q^b_4"
  {
  }

  lemma BackSEPeel2(w: string)
    requires w == "(q^a_1 * -q^a_2 * q^a_3 * -q^a_4 * q^b_1 * q^b_2 * q^b_3"
    ensures w == "(q^a_1 * -q^a_2 * q^a_3 * -q^a_4 * q^b_1 * q^b_2" + " * " + "q^b_3"
  {
  }

  lemma BackSEPeel3(w: string)
    requires w == "(q^a_1 * -q^a_2 * q^a_3 * -q^a_4 * q^b_1 * q^b_2"
    ensures w == "(q^a_1 * -q^a_2 * q^a_3 * -q^a_4 * q^b_1" + " * " + "q^b_2"
  {
  }

  lemma BackSEPeel4(w: string)
    requires w == "(q^a_1 * -q^a_2 * q^a_3 * -q^a_4 * q^b_1"
    ensures w == "(q^a_1 * -q^a_2 * q^a_3 * -q^a_4" + " * " + "q^b_1"
  {
  }

  lemma BackSEPeel5(w: string)
    requires w == "(q^a_1 * -q^a_2 * q^a_3 * -q^a_4"
    ensures w == "(q^a_1 * -q^a_2 * q^a_3" + " * " + "-q^a_4"
  {
  }

  lemma BackSEPeel6(w: string)
    requires w == "(q^a_1 * -q^a_2 * q^a_3"
    ensures w == "(q^a_1 * -q^a_2" + " * " + "q^a_3"
  {
  }

  lemma BackSEPeel7(w: string)
    requires w == "(q^a_1 * -q^a_2"
    ensures w == "(q^a_1" + " * " + "-q^a_2"
  {
  }

  /** The template, unit by unit: literals, separators and parentheses. */
  lemma BackUNUnits()
    ensures BackUNTemplate == "(" + "-q^a_1" + " * " + "q^a_2" + " * " + "q^a_3" + " * " + "q^a_4" + " * " + "-q^b_1" + " * " + "q^b_2" + " * " + "-q^b_3" + " * " + "-q^b_4" + ")"
  {
    BackUNPeel0("(-q^a_1 * q^a_2 * q^a_3 * q^a_4 * -q^b_1 * q^b_2 * -q^b_3 * -q^b_4)");
    BackUNPeel1("(-q^a_1 * q^a_2 * q^a_3 * q^a_4 * -q^b_1 * q^b_2 * -q^b_3 * -q^b_4");
    BackUNPeel2("(-q^a_1 * q^a_2 * q^a_3 * q^a_4 * -q^b_1 * q^b_2 * -q^b_3");
    BackUNPeel3("(-q^a_1 * q^a_2 * q^a_3 * q^a_4 * -q^b_1 * q^b_2");
    BackUNPeel4("(-q^a_1 * q^a_2 * q^a_3 * q^a_4 * -q^b_1");
    BackUNPeel5("(-q^a_1 * q^a_2 * q^a_3 * q^a_4");
    BackUNPeel6("(-q^a_1 * q^a_2 * q^a_3");
    BackUNPeel7("(-q^a_1 * q^a_2");
  }

  lemma BackUNPeel0(w: string)
    requires w == "(-q^a_1 * q^a_2 * q^a_3 * q^a_4 * -q^b_1 * q^b_2 * -q^b_3 * -q^b_4)"
    ensures w == "(-q^a_1 * q^a_2 * q^a_3 * q^a_4 * -q^b_1 * q^b_2 * -q^b_3 * -q^b_4" + ")"
  {
  }

  lemma BackUNPeel1(w: string)
    requires w == "(-q^a_1 * q^a_2 * q^a_3 * q^a_4 * -q^b_1 * q^b_2 * -q^b_3 * -q^b_4"
    ensures w == "(-q^a_1 * q^a_2 * q^a_3 * q^a_4 * -q^b_1 * q^b_2 * -q^b_3" + " * " + "-q^b_4"
  {
  }

  lemma BackUNPeel2(w: string)
    requires w == "(-q^a_1 * q^a_2 * q^a_3 * q^a_4 * -q^b_1 * q^b_2 * -q^b_3"
    ensures w == "(-q^a_1 * q^a_2 * q^a_3 * q^a_4 * -q^b_1 * q^b_2" + " * " + "-q^b_3"
  {
  }

  lemma BackUNPeel3(w: string)
    requires w == "(-q^a_1 * q^a_2 * q^a_3 * q^a_4 * -q^b_1 * q^b_2"
    ensures w == "(-q^a_1 * q^a_2 * q^a_3 * q^a_4 * -q^b_1" + " * " + "q^b_2"
  {
  }

  lemma BackUNPeel4(w: string)
    requires w == "(-q^a_1 * q^a_2 * q^a_3 * q^a_4 * -q^b_1"
    ensures w == "(-q^a_1 * q^a_2 * q^a_3 * q^a_4" + " * " + "-q^b_1"
  {
  }

  lemma BackUNPeel5(w: string)
    requires w == "(-q^a_1 * q^a_2 * q^a_3 * q^a_4"
    ensures w == "(-q^a_1 * q^a_2 * q^a_3" + " * " + "q^a_4"
  {
  }

  lemma BackUNPeel6(w: string)
    requires w == "(-q^a_1 * q^a_2 * q^a_3"
    ensures w == "(-q^a_1 * q^a_2" + " * " + "q^a_3"
  {
  }

  lemma BackUNPeel7(w: string)
    requires w == "(-q^a_1 * q^a_2"
    ensures w == "(-q^a_1" + " * " + "q^a_2"
  {
  }

  /** The template, unit by unit: literals, separators and parentheses. */
  lemma BackDSUnits()
    ensures BackDSTemplate == "(" + "-q^a_1" + " * " + "q^a_2" + " * " + "-q^a_3" + " * " + "-q^a_4" + " * " + "-q^b_1" + " * " + "q^b_2" + " * " + "q^b_3" + " * " + "q^b_4" + ")"
  {
    BackDSPeel0("(-q^a_1 * q^a_2 * -q^a_3 * -q^a_4 * -q^b_1 * q^b_2 * q^b_3 * q^b_4)");
    BackDSPeel1("(-q^a_1 * q^a_2 * -q^a_3 * -q^a_4 * -q^b_1 * q^b_2 * q^b_3 * q^b_4");
    BackDSPeel2("(-q^a_1 * q^a_2 * -q^a_3 * -q^a_4 * -q^b_1 * q^b_2 * q^b_3");
    BackDSPeel3("(-q^a_1 * q^a_2 * -q^a_3 * -q^a_4 * -q^b_1 * q^b_2");
    BackDSPeel4("(-q^a_1 * q^a_2 * -q^a_3 * -q^a_4 * -q^b_1");
    BackDSPeel5("(-q^a_1 * q^a_2 * -q^a_3 * -q^a_4");
    BackDSPeel6("(-q^a_1 * q^a_2 * -q^a_3");
    BackDSPeel7("(-q^a_1 * q^a_2");
  }

  lemma BackDSPeel0(w: string)
    requires w == "(-q^a_1 * q^a_2 * -q^a_3 * -q^a_4 * -q^b_1 * q^b_2 * q^b_3 * q^b_4)"
    ensures w == "(-q^a_1 * q^a_2 * -q^a_3 * -q^a_4 * -q^b_1 * q^b_2 * q^b_3 * q^b_4" + ")"
  {
  }

  lemma BackDSPeel1(w: string)
    requires w == "(-q^a_1 * q^a_2 * -q^a_3 * -q^a_4 * -q^b_1 * q^b_2 * q^b_3 * q^b_4"
    ensures w == "(-q^a_1 * q^a_2 * -q^a_3 * -q^a_4 * -q^b_1 * q^b_2 * q^b_3" + " * " + "q^b_4"
  {
  }

  lemma BackDSPeel2(w: string)
    requires w == "(-q^a_1 * q^a_2 * -q^a_3 * -q^a_4 * -q^b_1 * q^b_2 * q^b_3"
    ensures w == "(-q^a_1 * q^a_2 * -q^a_3 * -q^a_4 * -q^b_1 * q^b_2" + " * " + "q^b_3"
  {
  }

  lemma BackDSPeel3(w: string)
    requires w == "(-q^a_1 * q^a_2 * -q^a_3 * -q^a_4 * -q^b_1 * q^b_2"
    ensures w == "(-q^a_1 * q^a_2 * -q^a_3 * -q^a_4 * -q^b_1" + " * " + "q^b_2"
  {
  }

  lemma BackDSPeel4(w: string)
    requires w == "(-q^a_1 * q^a_2 * -q^a_3 * -q^a_4 * -q^b_1"
    ensures w == "(-q^a_1 * q^a_2 * -q^a_3 * -q^a_4" + " * " + "-q^b_1"
  {
  }

  lemma BackDSPeel5(w: string)
    requires w == "(-q^a_1 * q^a_2 * -q^a_3 * -q^a_4"
    ensures w == "(-q^a_1 * q^a_2 * -q^a_3" + " * " + "-q^a_4"
  {
  }

  lemma BackDSPeel6(w: string)
    requires w == "(-q^a_1 * q^a_2 * -q^a_3"
    ensures w == "(-q^a_1 * q^a_2" + " * " + "-q^a_3"
  {
  }

  lemma BackDSPeel7(w: string)
    requires w == "(-q^a_1 * q^a_2"
    ensures w == "(-q^a_1" + " * " + "q^a_2"
  {
  }

  /** The template, unit by unit: literals, separators and parentheses. */
  lemma BackUSUnits()
    ensures BackUSTemplate == "(" + "-q^a_1" + " * " + "q^a_2" + " * " + "-q^a_3" + " * " + "q^a_4" + " * " + "-q^b_1" + " * " + "q^b_2" + " * " + "q^b_3" + " * " + "-q^b_4" + ")"
  {
    BackUSPeel0("(-q^a_1 * q^a_2 * -q^a_3 * q^a_4 * -q^b_1 * q^b_2 * q^b_3 * -q^b_4)");
    BackUSPeel1("(-q^a_1 * q^a_2 * -q^a_3 * q^a_4 * -q^b_1 * q^b_2 * q^b_3 * -q^b_4");
    BackUSPeel2("(-q^a_1 * q^a_2 * -q^a_3 * q^a_4 * -q^b_1 * q^b_2 * q^b_3");
    BackUSPeel3("(-q^a_1 * q^a_2 * -q^a_3 * q^a_4 * -q^b_1 * q^b_2");
    BackUSPeel4("(-q^a_1 * q^a_2 * -q^a_3 * q^a_4 * -q^b_1");
    BackUSPeel5("(-q^a_1 * q^a_2 * -q^a_3 * q^a_4");
    BackUSPeel6("(-q^a_1 * q^a_2 * -q^a_3");
    BackUSPeel7("(-q^a_1 * q^a_2");
  }

  lemma BackUSPeel0(w: string)
    requires w == "(-q^a_1 * q^a_2 * -q^a_3 * q^a_4 * -q^b_1 * q^b_2 * q^b_3 * -q^b_4)"
    ensures w == "(-q^a_1 * q^a_2 * -q^a_3 * q^a_4 * -q^b_1 * q^b_2 * q^b_3 * -q^b_4" + ")"
  {
  }

  lemma BackUSPeel1(w: string)
    requires w == "(-q^a_1 * q^a_2 * -q^a_3 * q^a_4 * -q^b_1 * q^b_2 * q^b_3 * -q^b_4"
    ensures w == "(-q^a_1 * q^a_2 * -q^a_3 * q^a_4 * -q^b_1 * q^b_2 * q^b_3" + " * " + "-q^b_4"
  {
  }

  lemma BackUSPeel2(w: string)
    requires w == "(-q^a_1 * q^a_2 * -q^a_3 * q^a_4 * -q^b_1 * q^b_2 * q^b_3"
    ensures w == "(-q^a_1 * q^a_2 * -q^a_3 * q^a_4 * -q^b_1 * q^b_2" + " * " + "q^b_3"
  {
  }

  lemma BackUSPeel3(w: string)
    requires w == "(-q^a_1 * q^a_2 * -q^a_3 * q^a_4 * -q^b_1 * q^b_2"
    ensures w == "(-q^a_1 * q^a_2 * -q^a_3 * q^a_4 * -q^b_1" + " * " + "q^b_2"
  {
  }

  lemma BackUSPeel4(w: string)
    requires w == "(-q^a_1 * q^a_2 * -q^a_3 * q^a_4 * -q^b_1"
    ensures w == "(-q^a_1 * q^a_2 * -q^a_3 * q^a_4" + " * " + "-q^b_1"
  {
  }

  lemma BackUSPeel5(w: string)
    requires w == "(-q^a_1 * q^a_2 * -q^a_3 * q^a_4"
    ensures w == "(-q^a_1 * q^a_2 * -q^a_3" + " * " + "q^a_4"
  {
  }

  lemma BackUSPeel6(w: string)
    requires w == "(-q^a_1 * q^a_2 * -q^a_3"
    ensures w == "(-q^a_1 * q^a_2" + " * " + "-q^a_3"
  {
  }

  lemma BackUSPeel7(w: string)
    requires w == "(-q^a_1 * q^a_2"
    ensures w == "(-q^a_1" + " * " + "q^a_2"
  {
  }

  /** The template, unit by unit: literals, separators and parentheses. */
  lemma BackDNUnits()
    ensures BackDNTemplate == "(" + "-q^a_1" + " * " + "q^a_2" + " * " + "q^a_3" + " * " + "-q^a_4" + " * " + "-q^b_1" + " * " + "q^b_2" + " * " + "-q^b_3" + " * " + "q^b_4" + ")"
  {
    BackDNPeel0("(-q^a_1 * q^a_2 * q^a_3 * -q^a_4 * -q^b_1 * q^b_2 * -q^b_3 * q^b_4)");
    BackDNPeel1("(-q^a_1 * q^a_2 * q^a_3 * -q^a_4 * -q^b_1 * q^b_2 * -q^b_3 * q^b_4");
    BackDNPeel2("(-q^a_1 * q^a_2 * q^a_3 * -q^a_4 * -q^b_1 * q^b_2 * -q^b_3");
    BackDNPeel3("(-q^a_1 * q^a_2 * q^a_3 * -q^a_4 * -q^b_1 * q^b_2");
    BackDNPeel4("(-q^a_1 * q^a_2 * q^a_3 * -q^a_4 * -q^b_1");
    BackDNPeel5("(-q^a_1 * q^a_2 * q^a_3 * -q^a_4");
    BackDNPeel6("(-q^a_1 * q^a_2 * q^a_3");
    BackDNPeel7("(-q^a_1 * q^a_2");
  }

  lemma BackDNPeel0(w: string)
    requires w == "(-q^a_1 * q^a_2 * q^a_3 * -q^a_4 * -q^b_1 * q^b_2 * -q^b_3 * q^b_4)"
    ensures w == "(-q^a_1 * q^a_2 * q^a_3 * -q^a_4 * -q^b_1 * q^b_2 * -q^b_3 * q^b_4" + ")"
  {
  }

  lemma BackDNPeel1(w: string)
    requires w == "(-q^a_1 * q^a_2 * q^a_3 * -q^a_4 * -q^b_1 * q^b_2 * -q^b_3 * q^b_4"
    ensures w == "(-q^a_1 * q^a_2 * q^a_3 * -q^a_4 * -q^b_1 * q^b_2 * -q^b_3" + " * " + "q^b_4"
  {
  }

  lemma BackDNPeel2(w: string)
    requires w == "(-q^a_1 * q^a_2 * q^a_3 * -q^a_4 * -q^b_1 * q^b_2 * -q^b_3"
    ensures w == "(-q^a_1 * q^a_2 * q^a_3 * -q^a_4 * -q^b_1 * q^b_2" + " * " + "-q^b_3"
  {
  }

  lemma BackDNPeel3(w: string)
    requires w == "(-q^a_1 * q^a_2 * q^a_3 * -q^a_4 * -q^b_1 * q^b_2"
    ensures w == "(-q^a_1 * q^a_2 * q^a_3 * -q^a_4 * -q^b_1" + " * " + "q^b_2"
  {
  }

  lemma BackDNPeel4(w: string)
    requires w == "(-q^a_1 * q^a_2 * q^a_3 * -q^a_4 * -q^b_1"
    ensures w == "(-q^a_1 * q^a_2 * q^a_3 * -q^a_4" + " * " + "-q^b_1"
  {
  }

  lemma BackDNPeel5(w: string)
    requires w == "(-q^a_1 * q^a_2 * q^a_3 * -q^a_4"
    ensures w == "(-q^a_1 * q^a_2 * q^a_3" + " * " + "-q^a_4"
  {
  }

  lemma BackDNPeel6(w: string)
    requires w == "(-q^a_1 * q^a_2 * q^a_3"
    ensures w == "(-q^a_1 * q^a_2" + " * " + "q^a_3"
  {
  }

  lemma BackDNPeel7(w: string)
    requires w == "(-q^a_1 * q^a_2"
    ensures w == "(-q^a_1" + " * " + "q^a_2"
  {
  }

  /** The template, unit by unit: literals, separators and parentheses. */
  lemma BackUEUnits()
    ensures BackUETemplate == "(" + "q^a_1" + " * " + "-q^a_2" + " * " + "-q^a_3" + " * " + "q^a_4" + " * " + "q^b_1" + " * " + "q^b_2" + " * " + "-q^b_3" + " * " + "-q^b_4" + ")"
  {
    BackUEPeel0("(q^a_1 * -q^a_2 * -q^a_3 * q^a_4 * q^b_1 * q^b_2 * -q^b_3 * -q^b_4)");
    BackUEPeel1("(q^a_1 * -q^a_2 * -q^a_3 * q^a_4 * q^b_1 * q^b_2 * -q^b_3 * -q^b_4");
    BackUEPeel2("(q^a_1 * -q^a_2 * -q^a_3 * q^a_4 * q^b_1 * q^b_2 * -q^b_3");
    BackUEPeel3("(q^a_1 * -q^a_2 * -q^a_3 * q^a_4 * q^b_1 * q^b_2");
    BackUEPeel4("(q^a_1 * -q^a_2 * -q^a_3 * q^a_4 * q^b_1");
    BackUEPeel5("(q^a_1 * -q^a_2 * -q^a_3 * q^a_4");
    BackUEPeel6("(q^a_1 * -q^a_2 * -q^a_3");
    BackUEPeel7("(q^a_1 * -q^a_2");
  }

  lemma BackUEPeel0(w: string)
    requires w == "(q^a_1 * -q^a_2 * -q^a_3 * q^a_4 * q^b_1 * q^b_2 * -q^b_3 * -q^b_4)"
    ensures w == "(q^a_1 * -q^a_2 * -q^a_3 * q^a_4 * q^b_1 * q^b_2 * -q^b_3 * -q^b_4" + ")"
  {
  }

  lemma BackUEPeel1(w: string)
    requires w == "(q^a_1 * -q^a_2 * -q^a_3 * q^a_4 * q^b_1 * q^b_2 * -q^b_3 * -q^b_4"
    ensures w == "(q^a_1 * -q^a_2 * -q^a_3 * q^a_4 * q^b_1 * q^b_2 * -q^b_3" + " * " + "-q^b_4"
  {
  }

  lemma BackUEPeel2(w: string)
    requires w == "(q^a_1 * -q^a_2 * -q^a_3 * q^a_4 * q^b_1 * q^b_2 * -q^b_3"
    ensures w == "(q^a_1 * -q^a_2 * -q^a_3 * q^a_4 * q^b_1 * q^b_2" + " * " + "-q^b_3"
  {
  }

  lemma BackUEPeel3(w: string)
    requires w == "(q^a_1 * -q^a_2 * -q^a_3 * q^a_4 * q^b_1 * q^b_2"
    ensures w == "(q^a_1 * -q^a_2 * -q^a_3 * q^a_4 * q^b_1" + " * " + "q^b_2"
  {
  }

  lemma BackUEPeel4(w: string)
    requires w == "(q^a_1 * -q^a_2 * -q^a_3 * q^a_4 * q^b_1"
    ensures w == "(q^a_1 * -q^a_2 * -q^a_3 * q^a_4" + " * " + "q^b_1"
  {
  }

  lemma BackUEPeel5(w: string)
    requires w == "(q^a_1 * -q^a_2 * -q^a_3 * q^a_4"
    ensures w == "(q^a_1 * -q^a_2 * -q^a_3" + " * " + "q^a_4"
  {
  }

  lemma BackUEPeel6(w: string)
    requires w == "(q^a_1 * -q^a_2 * -q^a_3"
    ensures w == "(q^a_1 * -q^a_2" + " * " + "-q^a_3"
  {
  }

  lemma BackUEPeel7(w: string)
    requires w == "(q^a_1 * -q^a_2"
    ensures w == "(q^a_1" + " * " + "-q^a_2"
  {
  }

  /** The template, unit by unit: literals, separators and parentheses. */
  lemma BackDWUnits()
    ensures BackDWTemplate == "(" + "q^a_1" + " * " + "q^a_2" + " * " + "-q^a_3" + " * " + "-q^a_4" + " * " + "q^b_1" + " * " + "-q^b_2" + " * " + "-q^b_3" + " * " + "q^b_4" + ")"
  {
    BackDWPeel0("(q^a_1 * q^a_2 * -q^a_3 * -q^a_4 * q^b_1 * -q^b_2 * -q^b_3 * q^b_4)");
    BackDWPeel1("(q^a_1 * q^a_2 * -q^a_3 * -q^a_4 * q^b_1 * -q^b_2 * -q^b_3 * q^b_4");
    BackDWPeel2("(q^a_1 * q^a_2 * -q^a_3 * -q^a_4 * q^b_1 * -q^b_2 * -q^b_3");
    BackDWPeel3("(q^a_1 * q^a_2 * -q^a_3 * -q^a_4 * q^b_1 * -q^b_2");
    BackDWPeel4("(q^a_1 * q^a_2 * -q^a_3 * -q^a_4 * q^b_1");
    BackDWPeel5("(q^a_1 * q^a_2 * -q^a_3 * -q^a_4");
    BackDWPeel6("(q^a_1 * q^a_2 * -q^a_3");
    BackDWPeel7("(q^a_1 * q^a_2");
  }

  lemma BackDWPeel0(w: string)
    requires w == "(q^a_1 * q^a_2 * -q^a_3 * -q^a_4 * q^b_1 * -q^b_2 * -q^b_3 * q^b_4)"
    ensures w == "(q^a_1 * q^a_2 * -q^a_3 * -q^a_4 * q^b_1 * -q^b_2 * -q^b_3 * q^b_4" + ")"
  {
  }

  lemma BackDWPeel1(w: string)
    requires w == "(q^a_1 * q^a_2 * -q^a_3 * -q^a_4 * q^b_1 * -q^b_2 * -q^b_3 * q^b_4"
    ensures w == "(q^a_1 * q^a_2 * -q^a_3 * -q^a_4 * q^b_1 * -q^b_2 * -q^b_3" + " * " + "q^b_4"
  {
  }

  lemma BackDWPeel2(w: string)
    requires w == "(q^a_1 * q^a_2 * -q^a_3 * -q^a_4 * q^b_1 * -q^b_2 * -q^b_3"
    ensures w == "(q^a_1 * q^a_2 * -q^a_3 * -q^a_4 * q^b_1 * -q^b_2" + " * " + "-q^b_3"
  {
  }

  lemma BackDWPeel3(w: string)
    requires w == "(q^a_1 * q^a_2 * -q^a_3 * -q^a_4 * q^b_1 * -q^b_2"
    ensures w == "(q^a_1 * q^a_2 * -q^a_3 * -q^a_4 * q^b_1" + " * " + "-q^b_2"
  {
  }

  lemma BackDWPeel4(w: string)
    requires w == "(q^a_1 * q^a_2 * -q^a_3 * -q^a_4 * q^b_1"
    ensures w == "(q^a_1 * q^a_2 * -q^a_3 * -q^a_4" + " * " + "q^b_1"
  {
  }

  lemma BackDWPeel5(w: string)
    requires w == "(q^a_1 * q^a_2 * -q^a_3 * -q^a_4"
    ensures w == "(q^a_1 * q^a_2 * -q^a_3" + " * " + "-q^a_4"
  {
  }

  lemma BackDWPeel6(w: string)
    requires w == "(q^a_1 * q^a_2 * -q^a_3"
    ensures w == "(q^a_1 * q^a_2" + " * " + "-q^a_3"
  {
  }

  lemma BackDWPeel7(w: string)
    requires w == "(q^a_1 * q^a_2"
    ensures w == "(q^a_1" + " * " + "q^a_2"
  {
  }

  /** The template, unit by unit: literals, separators and parentheses. */
  lemma BackUWUnits()
    ensures BackUWTemplate == "(" + "q^a_1" + " * " + "q^a_2" + " * " + "-q^a_3" + " * " + "q^a_4" + " * " + "q^b_1" + " * " + "-q^b_2" + " * " + "-q^b_3" + " * " + "-q^b_4" + ")"
  {
    BackUWPeel0("(q^a_1 * q^a_2 * -q^a_3 * q^a_4 * q^b_1 * -q^b_2 * -q^b_3 * -q^b_4)");
    BackUWPeel1("(q^a_1 * q^a_2 * -q^a_3 * q^a_4 * q^b_1 * -q^b_2 * -q^b_3 * -q^b_4");
    BackUWPeel2("(q^a_1 * q^a_2 * -q^a_3 * q^a_4 * q^b_1 * -q^b_2 * -q^b_3");
    BackUWPeel3("(q^a_1 * q^a_2 * -q^a_3 * q^a_4 * q^b_1 * -q^b_2");
    BackUWPeel4("(q^a_1 * q^a_2 * -q^a_3 * q^a_4 * q^b_1");
    BackUWPeel5("(q^a_1 * q^a_2 * -q^a_3 * q^a_4");
    BackUWPeel6("(q^a_1 * q^a_2 * -q^a_3");
    BackUWPeel7("(q^a_1 * q^a_2");
  }

  lemma BackUWPeel0(w: string)
    requires w == "(q^a_1 * q^a_2 * -q^a_3 * q^a_4 * q^b_1 * -q^b_2 * -q^b_3 * -q^b_4)"
    ensures w == "(q^a_1 * q^a_2 * -q^a_3 * q^a_4 * q^b_1 * -q^b_2 * -q^b_3 * -q^b_4" + ")"
  {
  }

  lemma BackUWPeel1(w: string)
    requires w == "(q^a_1 * q^a_2 * -q^a_3 * q^a_4 * q^b_1 * -q^b_2 * -q^b_3 * -q^b_4"
    ensures w == "(q^a_1 * q^a_2 * -q^a_3 * q^a_4 * q^b_1 * -q^b_2 * -q^b_3" + " * " + "-q^b_4"
  {
  }

  lemma BackUWPeel2(w: string)
    requires w == "(q^a_1 * q^a_2 * -q^a_3 * q^a_4 * q^b_1 * -q^b_2 * -q^b_3"
    ensures w == "(q^a_1 * q^a_2 * -q^a_3 * q^a_4 * q^b_1 * -q^b_2" + " * " + "-q^b_3"
  {
  }

  lemma BackUWPeel3(w: string)
    requires w == "(q^a_1 * q^a_2 * -q^a_3 * q^a_4 * q^b_1 * -q^b_2"
    ensures w == "(q^a_1 * q^a_2 * -q^a_3 * q^a_4 * q^b_1" + " * " + "-q^b_2"
  {
  }

  lemma BackUWPeel4(w: string)
    requires w == "(q^a_1 * q^a_2 * -q^a_3 * q^a_4 * q^b_1"
    ensures w == "(q^a_1 * q^a_2 * -q^a_3 * q^a_4" + " * " + "q^b_1"
  {
  }

  lemma BackUWPeel5(w: string)
    requires w == "(q^a_1 * q^a_2 * -q^a_3 * q^a_4"
    ensures w == "(q^a_1 * q^a_2 * -q^a_3" + " * " + "q^a_4"
  {
  }

  lemma BackUWPeel6(w: string)
    requires w == "(q^a_1 * q^a_2 * -q^a_3"
    ensures w == "(q^a_1 * q^a_2" + " * " + "-q^a_3"
  {
  }

  lemma BackUWPeel7(w: string)
    requires w == "(q^a_1 * q^a_2"
    ensures w == "(q^a_1" + " * " + "q^a_2"
  {
  }

  /** The template, unit by unit: literals, separators and parentheses. */
  lemma BackDEUnits()
    ensures BackDETemplate == "(" + "q^a_1" + " * " + "-q^a_2" + " * " + "-q^a_3" + " * " + "-q^a_4" + " * " + "q^b_1" + " * " + "q^b_2" + " * " + "-q^b_3" + " * " + "q^b_4" + ")"
  {
    BackDEPeel0("(q^a_1 * -q^a_2 * -q^a_3 * -q^a_4 * q^b_1 * q^b_2 * -q^b_3 * q^b_4)");
    BackDEPeel1("(q^a_1 * -q^a_2 * -q^a_3 * -q^a_4 * q^b_1 * q^b_2 * -q^b_3 * q^b_4");
    BackDEPeel2("(q^a_1 * -q^a_2 * -q^a_3 * -q^a_4 * q^b_1 * q^b_2 * -q^b_3");
    BackDEPeel3("(q^a_1 * -q^a_2 * -q^a_3 * -q^a_4 * q^b_1 * q^b_2");
    BackDEPeel4("(q^a_1 * -q^a_2 * -q^a_3 * -q^a_4 * q^b_1");
    BackDEPeel5("(q^a_1 * -q^a_2 * -q^a_3 * -q^a_4");
    BackDEPeel6("(q^a_1 * -q^a_2 * -q^a_3");
    BackDEPeel7("(q^a_1 * -q^a_2");
  }

  lemma BackDEPeel0(w: string)
    requires w == "(q^a_1 * -q^a_2 * -q^a_3 * -q^a_4 * q^b_1 * q^b_2 * -q^b_3 * q^b_4)"
    ensures w == "(q^a_1 * -q^a_2 * -q^a_3 * -q^a_4 * q^b_1 * q^b_2 * -q^b_3 * q^b_4" + ")"
  {
  }

  lemma BackDEPeel1(w: string)
    requires w == "(q^a_1 * -q^a_2 * -q^a_3 * -q^a_4 * q^b_1 * q^b_2 * -q^b_3 * q^b_4"
    ensures w == "(q^a_1 * -q^a_2 * -q^a_3 * -q^a_4 * q^b_1 * q^b_2 * -q^b_3" + " * " + "q^b_4"
  {
  }

  lemma BackDEPeel2(w: string)
    requires w == "(q^a_1 * -q^a_2 * -q^a_3 * -q^a_4 * q^b_1 * q^b_2 * -q^b_3"
    ensures w == "(q^a_1 * -q^a_2 * -q^a_3 * -q^a_4 * q^b_1 * q^b_2" + " * " + "-q^b_3"
  {
  }

  lemma BackDEPeel3(w: string)
    requires w == "(q^a_1 * -q^a_2 * -q^a_3 * -q^a_4 * q^b_1 * q^b_2"
    ensures w == "(q^a_1 * -q^a_2 * -q^a_3 * -q^a_4 * q^b_1" + " * " + "q^b_2"
  {
  }

  lemma BackDEPeel4(w: string)
    requires w == "(q^a_1 * -q^a_2 * -q^a_3 * -q^a_4 * q^b_1"
    ensures w == "(q^a_1 * -q^a_2 * -q^a_3 * -q^a_4" + " * " + "q^b_1"
  {
  }

  lemma BackDEPeel5(w: string)
    requires w == "(q^a_1 * -q^a_2 * -q^a_3 * -q^a_4"
    ensures w == "(q^a_1 * -q^a_2 * -q^a_3" + " * " + "-q^a_4"
  {
  }

  lemma BackDEPeel6(w: string)
    requires w == "(q^a_1 * -q^a_2 * -q^a_3"
    ensures w == "(q^a_1 * -q^a_2" + " * " + "-q^a_3"
  {
  }

  lemma BackDEPeel7(w: string)
    requires w == "(q^a_1 * -q^a_2"
    ensures w == "(q^a_1" + " * " + "-q^a_2"
  {
  }
}
