/**
 * The text twin of the adder network (BitOps.py): the half adders and the xnor are
 * templates whose letters `a` and `b` are replaced by the operands' text, one `replace`
 * after the other, and the direction sums run the shared adder over those templates.
 */
module TextBitOps {
  import opened Outcomes
  import opened Adder
  import opened TextForm

  const SumTemplate: string := "-(a) * (b) + (a) * -(b)"
  const CarryTemplate: string := "(a) * (b)"
  const XnorTemplate: string := "1 + -(a) + -(b) + 2((a) * (b))"

  /** A template's slots `a` and `b` filled with x and y at once: what the templates mean. */
  function Fill(tpl: string, x: string, y: string): string
  {
    if |tpl| == 0 then ""
    else (if tpl[0] == 'a' then x else if tpl[0] == 'b' then y else [tpl[0]]) + Fill(tpl[1..], x, y)
  }

  /** The program's substitution: every `a` replaced by x, then every `b` of the result by y. */
  function Substitute(tpl: string, x: string, y: string): string
  {
    Replace(Replace(tpl, "a", x), "b", y)
  }

  function SumHalfAdder(x: string, y: string): string { Substitute(SumTemplate, x, y) }

  function CarryHalfAdder(x: string, y: string): string { Substitute(CarryTemplate, x, y) }

  function XnorText(x: string, y: string): string { Substitute(XnorTemplate, x, y) }

  /**
   * The two replaces fill the template as intended whenever the first operand holds no
   * letter `b`: then the second replace only meets the template's own `b` slots.
   */
  lemma {:induction false} SubstituteFills(tpl: string, x: string, y: string)
    requires 'b' !in x
    ensures Substitute(tpl, x, y) == Fill(tpl, x, y)
    decreases |tpl|
  {
    if |tpl| >= 1 {
      var c, rest := tpl[0], tpl[1..];
      assert tpl == [c] + rest;
      ReplaceConcat([c], rest, 'a', x);
      var head := Replace([c], "a", x);
      assert [c][..1] == [c] && [c][1..] == [];
      assert head == (if c == 'a' then x else [c]);
      ReplaceConcat(head, Replace(rest, "a", x), 'b', y);
      SubstituteFills(rest, x, y);
      if c == 'a' {
        ReplaceAbsent(x, 'b', y);
      } else {
        assert head[..1] == [c] && head[1..] == [];
      }
    }
  }

  /** A filled template holds a `b` only if one of the operands does. */
  lemma {:induction false} FillKeepsNoB(tpl: string, x: string, y: string)
    requires 'b' !in x && 'b' !in y
    ensures 'b' !in Fill(tpl, x, y)
    decreases |tpl|
  {
    if |tpl| >= 1 {
      FillKeepsNoB(tpl[1..], x, y);
    }
  }

  /** The half adders and the xnor as intended, with both operands substituted at once. */
  function SumIntended(x: string, y: string): string { Fill(SumTemplate, x, y) }

  function CarryIntended(x: string, y: string): string { Fill(CarryTemplate, x, y) }

  function XnorIntended(x: string, y: string): string { Fill(XnorTemplate, x, y) }

  /** On operands without a letter `b` the three templates give their intended texts. */
  lemma TemplatesAsIntended(x: string, y: string)
    requires 'b' !in x
    ensures SumHalfAdder(x, y) == SumIntended(x, y)
    ensures CarryHalfAdder(x, y) == CarryIntended(x, y)
    ensures XnorText(x, y) == XnorIntended(x, y)
  {
    SubstituteFills(SumTemplate, x, y);
    SubstituteFills(CarryTemplate, x, y);
    SubstituteFills(XnorTemplate, x, y);
  }

  /** Replacing a one-letter text by itself, or a text without the letter, the obvious way. */
  lemma ReplaceLetter(c: char, r: string)
    ensures Replace([c], [c], r) == r
  {
    assert [c][..1] == [c] && [c][1..] == [];
  }

  /**
   * The program's substitution on a template with one `a` slot then one `b` slot: the first
   * operand comes out with its own letters `b` rewritten to the second operand.
   */
  lemma SubstituteTwoSlots(p1: string, p2: string, p3: string, x: string, y: string)
    requires 'a' !in p1 && 'a' !in p2 && 'a' !in p3 && 'b' !in p1 && 'b' !in p2 && 'b' !in p3
    ensures Substitute(p1 + "a" + p2 + "b" + p3, x, y) == p1 + Replace(x, "b", y) + p2 + y + p3
  {
    ReplaceConcat(p1 + "a" + p2 + "b", p3, 'a', x);
    ReplaceConcat(p1 + "a" + p2, "b", 'a', x);
    ReplaceConcat(p1 + "a", p2, 'a', x);
    ReplaceConcat(p1, "a", 'a', x);
    ReplaceLetter('a', x);
    ReplaceAbsent(p1, 'a', x);
    ReplaceAbsent(p2, 'a', x);
    ReplaceAbsent(p3, 'a', x);
    ReplaceAbsent("b", 'a', x);
    assert Replace(p1 + "a" + p2 + "b" + p3, "a", x) == p1 + x + p2 + "b" + p3;
    ReplaceConcat(p1 + x + p2 + "b", p3, 'b', y);
    ReplaceConcat(p1 + x + p2, "b", 'b', y);
    ReplaceConcat(p1 + x, p2, 'b', y);
    ReplaceConcat(p1, x, 'b', y);
    ReplaceLetter('b', y);
    ReplaceAbsent(p1, 'b', y);
    ReplaceAbsent(p2, 'b', y);
    ReplaceAbsent(p3, 'b', y);
  }

  lemma {:induction false} FillConcat(u: string, v: string, x: string, y: string)
    ensures Fill(u + v, x, y) == Fill(u, x, y) + Fill(v, x, y)
    decreases |u|
  {
    if |u| == 0 {
      assert u + v == v;
    } else {
      assert (u + v)[0] == u[0] && (u + v)[1..] == u[1..] + v;
      FillConcat(u[1..], v, x, y);
    }
  }

  /** A text without slots is left as it is. */
  lemma {:induction false} FillPlain(tpl: string, x: string, y: string)
    requires 'a' !in tpl && 'b' !in tpl
    ensures Fill(tpl, x, y) == tpl
    decreases |tpl|
  {
    if |tpl| >= 1 {
      FillPlain(tpl[1..], x, y);
      assert tpl == [tpl[0]] + tpl[1..];
    }
  }

  /** A plain piece followed by a slot letter. */
  lemma FillPieceSlot(p: string, c: char, x: string, y: string)
    requires 'a' !in p && 'b' !in p && (c == 'a' || c == 'b')
    ensures Fill(p + [c], x, y) == p + (if c == 'a' then x else y)
  {
    FillConcat(p, [c], x, y);
    FillPlain(p, x, y);
    assert [c][1..] == [];
  }

  /** The simultaneous substitution on a template with one `a` slot then one `b` slot. */
  lemma FillTwoSlots(p1: string, p2: string, p3: string, x: string, y: string)
    requires 'a' !in p1 && 'a' !in p2 && 'a' !in p3 && 'b' !in p1 && 'b' !in p2 && 'b' !in p3
    ensures Fill(p1 + "a" + p2 + "b" + p3, x, y) == p1 + x + p2 + y + p3
  {
    assert p1 + "a" + p2 + "b" + p3 == (p1 + "a") + ((p2 + "b") + p3);
    FillConcat(p1 + "a", (p2 + "b") + p3, x, y);
    FillConcat(p2 + "b", p3, x, y);
    FillPieceSlot(p1, 'a', x, y);
    FillPieceSlot(p2, 'b', x, y);
    FillPlain(p3, x, y);
  }

  /** `carry_half_adder` as written and as intended, for any operands. */
  lemma CarryAsWritten(x: string, y: string)
    ensures CarryHalfAdder(x, y) == "(" + Replace(x, "b", y) + ") * (" + y + ")"
    ensures CarryIntended(x, y) == "(" + x + ") * (" + y + ")"
  {
    assert CarryTemplate == "(" + "a" + ") * (" + "b" + ")";
    SubstituteTwoSlots("(", ") * (", ")", x, y);
    FillTwoSlots("(", ") * (", ")", x, y);
  }

  /**
   * An operand holding a `b` breaks the carry template: `carry_half_adder("b", y)` gives
   * the product of y with itself, since the second replace also rewrites the `b` the first
   * one inserted; the first operand is lost, while the intended text keeps it.
   */
  lemma RescanBreaksCarry(y: string)
    requires 'b' !in y
    ensures CarryHalfAdder("b", y) == "(" + y + ") * (" + y + ")"
    ensures 'b' !in CarryHalfAdder("b", y) && 'b' in CarryIntended("b", y)
  {
    CarryAsWritten("b", y);
    ReplaceLetter('b', y);
    assert CarryIntended("b", y)[1] == 'b';
  }

  // ---------------------------------------------------------------- the adder on texts

  predicate NoB(l: seq<string>)
  {
    forall i :: 0 <= i < |l| ==> 'b' !in l[i]
  }

  /** A pass over texts without a `b` is the intended pass, and its texts have no `b` either. */
  lemma {:induction false} PassAsIntended(l: seq<string>)
    requires NoB(l)
    ensures Pass(l, CarryHalfAdder, SumHalfAdder) == Pass(l, CarryIntended, SumIntended)
    ensures NoB(Pass(l, CarryIntended, SumIntended))
    decreases |l|
  {
    if |l| >= 2 {
      var x, y := l[|l| - 1], l[|l| - 2];
      TemplatesAsIntended(x, y);
      FillKeepsNoB(SumTemplate, x, y);
      FillKeepsNoB(CarryTemplate, x, y);
      var l' := l[..|l| - 2] + [SumIntended(x, y)];
      assert NoB(l');
      PassAsIntended(l');
      var p := Pass(l', CarryIntended, SumIntended) + [CarryIntended(x, y)];
      assert Pass(l, CarryIntended, SumIntended) == p;
      assert NoB(p);
    }
  }

  /**
   * The whole text adder on inputs without a letter `b`, the only texts the builders feed
   * it, produces exactly the intended half-adder texts at every pass.
   */
  lemma {:induction false} LoaderAsIntended(l: seq<string>)
    requires |l| >= 1 && NoB(l)
    ensures Loader(l, CarryHalfAdder, SumHalfAdder) == Loader(l, CarryIntended, SumIntended)
    decreases |l|
  {
    if |l| >= 2 {
      PassAsIntended(l);
      var p := Pass(l, CarryIntended, SumIntended);
      assert NoB(p[1..]);
      LoaderAsIntended(p[1..]);
    }
  }

  // ---------------------------------------------------------------- direction sums

  /** The texts of dirFunc for steps start .. end - 1. */
  function Window(dirFunc: nat -> string, start: nat, end: nat): (r: seq<string>)
    requires start <= end
    ensures |r| == end - start
    ensures forall i :: 0 <= i < |r| ==> r[i] == dirFunc(start + i)
  {
    seq(end - start, i requires 0 <= i < end - start => dirFunc(start + i))
  }

  /** The bit list `sum_of_directions_plus_one_helper` fills: `'1'`, then steps start + 1 .. end. */
  function PlusOneBits(dirFunc: nat -> string, start: nat, end: nat): (r: seq<string>)
    requires start <= end
    ensures |r| == end - start + 1
  {
    ["1"] + Window(dirFunc, start + 1, end + 1)
  }

  /** The bit list of the plus-one sum over the same steps as the plain sum: `'1'`, then start .. end - 1. */
  function PlusOneBitsIntended(dirFunc: nat -> string, start: nat, end: nat): (r: seq<string>)
    requires start <= end
    ensures |r| == end - start + 1
  {
    ["1"] + Window(dirFunc, start, end)
  }

  /**
   * `sum_of_directions_helper`: the adder over the texts of steps start .. end - 1, d texts
   * for d = end - start, low bit first; with no step the final `bit_list[0]` raises.
   */
  method SumOfDirectionsHelper(dirFunc: nat -> string, start: nat, end: nat) returns (r: Result<seq<string>>)
    ensures end <= start ==> r == Err(IndexError)
    ensures start < end ==> r == Ok(Loader(Window(dirFunc, start, end), CarryHalfAdder, SumHalfAdder))
    ensures start < end ==> |r.value| == end - start
  {
    var counter: int := end - start;
    if counter <= 0 {
      // `[None] * counter` is empty, no pass runs and the final `bit_list[0]` raises
      return Err(IndexError);
    }
    var bitList := new string[counter];
    var i := 0;
    while i < counter
      invariant 0 <= i <= counter
      invariant forall j :: 0 <= j < i ==> bitList[j] == dirFunc(start + j)
    {
      bitList[i] := dirFunc(start + i);
      i := i + 1;
    }
    assert bitList[..] == Window(dirFunc, start, end);
    r := HalfAdderLoader(bitList[..], CarryHalfAdder, SumHalfAdder);
  }

  /**
   * `sum_of_directions_plus_one_helper`: `'1'` at index 0 and the texts of steps
   * start + 1 .. end above it, through the adder, d + 1 texts; end == start gives `['1']`,
   * and end < start leaves the list empty so that `bit_list[0] = '1'` raises.
   */
  method SumOfDirectionsPlusOneHelper(dirFunc: nat -> string, start: nat, end: nat) returns (r: Result<seq<string>>)
    ensures end < start ==> r == Err(IndexError)
    ensures start <= end ==> r == Ok(Loader(PlusOneBits(dirFunc, start, end), CarryHalfAdder, SumHalfAdder))
    ensures start <= end ==> |r.value| == end - start + 1
    ensures end == start ==> r == Ok(["1"])
  {
    var counter: int := end - start + 1;
    if counter <= 0 {
      return Err(IndexError);
    }
    var bitList := new string[counter];
    var i := 1;
    while i < counter
      invariant 1 <= i <= counter
      invariant forall j :: 1 <= j < i ==> bitList[j] == dirFunc(start + j)
    {
      bitList[i] := dirFunc(start + i);
      i := i + 1;
    }
    bitList[0] := "1";
    assert bitList[..] == PlusOneBits(dirFunc, start, end);
    r := HalfAdderLoader(bitList[..], CarryHalfAdder, SumHalfAdder);
  }

  /** The plus-one sum over the same steps as the plain sum: a `'1'` seed below its terms. */
  function SumOfDirectionsPlusOneIntended(dirFunc: nat -> string, start: nat, end: nat): (r: Result<seq<string>>)
    ensures end < start ==> r == Err(IndexError)
    ensures start <= end ==> r.Ok? && |r.value| == end - start + 1
  {
    if end < start then Err(IndexError)
    else Ok(Loader(PlusOneBitsIntended(dirFunc, start, end), CarryHalfAdder, SumHalfAdder))
  }

  /**
   * The corrected plus-one sum adds its seed to exactly the terms of the plain sum, so the
   * two sums of a pair count the same steps.
   */
  lemma PlusOneIntendedSameSteps(dirFunc: nat -> string, start: nat, end: nat)
    requires start <= end
    ensures PlusOneBitsIntended(dirFunc, start, end)[0] == "1"
    ensures PlusOneBitsIntended(dirFunc, start, end)[1..] == Window(dirFunc, start, end)
  {
    assert (["1"] + Window(dirFunc, start, end))[1..] == Window(dirFunc, start, end);
  }

  /**
   * As written, the plus-one sum of steps start .. end - 1 reads steps start + 1 .. end
   * instead: it leaves out step start and reads step end, which the plain sum never does.
   */
  lemma PlusOneReadsOneStepLate(dirFunc: nat -> string, start: nat, end: nat)
    requires start < end
    ensures PlusOneBits(dirFunc, start, end)[end - start] == dirFunc(end)
    ensures forall j :: 1 <= j <= end - start ==> PlusOneBits(dirFunc, start, end)[j] == dirFunc(start + j)
    ensures dirFunc(end) != dirFunc(end - 1) ==> PlusOneBits(dirFunc, start, end) != PlusOneBitsIntended(dirFunc, start, end)
  {
    var w, v := PlusOneBits(dirFunc, start, end), PlusOneBitsIntended(dirFunc, start, end);
    assert w[end - start] == dirFunc(end);
    assert v[end - start] == dirFunc(start + (end - start - 1));
  }
}
