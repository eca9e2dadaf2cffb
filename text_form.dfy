/**
 * The string operations the text builders (BitOps.py, HCOMB6.py, HCOMB12.py) are made of:
 * Python's `str.replace`, the `s += term + " + "` loops whose last three characters are cut
 * off with `s[:-3]`, and the rendering of products of literals `q^t_k` / `-q^t_k`, the only
 * shape the templates put variables in.
 */
module TextForm {
  import opened Numeric
  import opened Outcomes

  /** Python's `s.replace(pat, r)` for a non-empty pattern: left to right, non-overlapping. */
  function Replace(s: string, pat: string, r: string): string
    requires |pat| >= 1
    decreases |s|
  {
    if |s| < |pat| then s
    else if s[..|pat|] == pat then r + Replace(s[|pat|..], pat, r)
    else [s[0]] + Replace(s[1..], pat, r)
  }

  /** Replacing a character the text does not contain changes nothing. */
  lemma {:induction false} ReplaceAbsent(s: string, c: char, r: string)
    requires c !in s
    ensures Replace(s, [c], r) == s
    decreases |s|
  {
    if |s| >= 1 {
      assert s[..1] == [s[0]] && s[0] != c;
      ReplaceAbsent(s[1..], c, r);
      assert [s[0]] + s[1..] == s;
    }
  }

  /** A one-character pattern never spans two pieces, so replacing it distributes over concatenation. */
  lemma {:induction false} ReplaceConcat(x: string, y: string, c: char, r: string)
    ensures Replace(x + y, [c], r) == Replace(x, [c], r) + Replace(y, [c], r)
    decreases |x|
  {
    if |x| == 0 {
      assert x + y == y;
    } else {
      assert (x + y)[..1] == x[..1] == [x[0]] && (x + y)[1..] == x[1..] + y && (x + y)[0] == x[0];
      ReplaceConcat(x[1..], y, c, r);
      if x[0] == c {
        assert Replace(x, [c], r) == r + Replace(x[1..], [c], r);
      } else {
        assert Replace(x, [c], r) == [x[0]] + Replace(x[1..], [c], r);
      }
    }
  }

  // ---------------------------------------------------------------- term lists

  /** The text `for term in terms: s += term + sep` leaves, starting from "". */
  function Appended(terms: seq<string>, sep: string): string
  {
    if |terms| == 0 then "" else Appended(terms[..|terms| - 1], sep) + terms[|terms| - 1] + sep
  }

  /** The terms separated by sep. */
  function Join(terms: seq<string>, sep: string): string
  {
    if |terms| == 0 then "" else if |terms| == 1 then terms[0]
    else Join(terms[..|terms| - 1], sep) + sep + terms[|terms| - 1]
  }

  /** Python's `s[:-3]`: everything but the last three characters, "" for a shorter text. */
  function DropLast3(s: string): string
  {
    if |s| >= 3 then s[..|s| - 3] else ""
  }

  lemma {:induction false} AppendedIsJoin(terms: seq<string>, sep: string)
    requires |terms| >= 1
    ensures Appended(terms, sep) == Join(terms, sep) + sep
    decreases |terms|
  {
    if |terms| >= 2 {
      AppendedIsJoin(terms[..|terms| - 1], sep);
      assert terms[..|terms| - 1][..|terms| - 2] == terms[..|terms| - 2];
    } else {
      assert terms[..0] == [];
    }
  }

  /** Cutting the separator " + " off the appended terms leaves exactly the terms joined by " + ". */
  lemma AppendedThenCut(terms: seq<string>)
    ensures DropLast3(Appended(terms, " + ")) == Join(terms, " + ")
  {
    if |terms| >= 1 {
      AppendedIsJoin(terms, " + ");
      var j := Join(terms, " + ");
      assert (j + " + ")[..|j + " + "| - 3] == j;
    }
  }

  /** Appending one more term. */
  lemma AppendedSnoc(terms: seq<string>, t: string, sep: string)
    ensures Appended(terms + [t], sep) == Appended(terms, sep) + t + sep
  {
    assert (terms + [t])[..|terms + [t]| - 1] == terms;
  }

  /** Appending five pieces one by one appends their concatenation. */
  lemma GlueFive(b: string, x1: string, x2: string, x3: string, x4: string, x5: string)
    ensures b + (x1 + x2 + x3 + x4 + x5) == b + x1 + x2 + x3 + x4 + x5
  {
  }

  /** Appending three more terms. */
  lemma AppendedThree(terms: seq<string>, a: string, b: string, c: string, sep: string)
    ensures Appended(terms + [a, b, c], sep) == Appended(terms, sep) + a + sep + b + sep + c + sep
  {
    AppendedSnoc(terms, a, sep);
    AppendedSnoc(terms + [a], b, sep);
    AppendedSnoc(terms + [a] + [b], c, sep);
    assert terms + [a] + [b] + [c] == terms + [a, b, c];
  }

  /** Appending six more terms. */
  lemma AppendedSix(terms: seq<string>, u: seq<string>, sep: string)
    requires |u| == 6
    ensures Appended(terms + u, sep)
      == Appended(terms, sep) + u[0] + sep + u[1] + sep + u[2] + sep + u[3] + sep + u[4] + sep + u[5] + sep
  {
    AppendedThree(terms, u[0], u[1], u[2], sep);
    AppendedThree(terms + [u[0], u[1], u[2]], u[3], u[4], u[5], sep);
    assert terms + [u[0], u[1], u[2]] + [u[3], u[4], u[5]] == terms + u;
  }

  /** Appending a list of terms, one after the other. */
  lemma {:induction false} AppendedConcat(u: seq<string>, v: seq<string>, sep: string)
    ensures Appended(u + v, sep) == Appended(u, sep) + Appended(v, sep)
    decreases |v|
  {
    if |v| == 0 {
      assert u + v == u;
    } else {
      var v' := v[..|v| - 1];
      assert u + v == (u + v') + [v[|v| - 1]];
      AppendedSnoc(u + v', v[|v| - 1], sep);
      AppendedConcat(u, v', sep);
      AppendedSnoc(v', v[|v| - 1], sep);
      assert v' + [v[|v| - 1]] == v;
    }
  }

  /** A join of two or more terms is longer than its last term. */
  lemma JoinLonger(terms: seq<string>, sep: string)
    requires |terms| >= 2 && |sep| >= 1
    ensures |Join(terms, sep)| > |terms[|terms| - 1]|
  {
  }

  // ---------------------------------------------------------------- literals and products

  /** The chunks g(0), .., g(k - 1), one after the other: what a loop appending g(t) for each t builds. */
  function Chunks<T>(g: nat -> seq<T>, k: nat): seq<T>
  {
    if k == 0 then [] else Chunks(g, k - 1) + g(k - 1)
  }

  /** Chunks of m items each: chunk b sits at positions m * b .. m * b + m - 1. */
  lemma {:induction false} ChunksAt<T>(g: nat -> seq<T>, m: nat, k: nat, b: nat)
    requires b < k && forall i :: |g(i)| == m
    ensures |Chunks(g, k)| == m * k
    ensures Chunks(g, k)[m * b .. m * b + m] == g(b)
    decreases k
  {
    var prev := Chunks(g, k - 1);
    if b < k - 1 {
      ChunksAt(g, m, k - 1, b);
      assert m * b + m <= m * (k - 1) by { MulMonotone(m, b + 1, k - 1); }
      assert (prev + g(k - 1))[m * b .. m * b + m] == prev[m * b .. m * b + m];
    } else {
      if k >= 2 {
        ChunksAt(g, m, k - 1, 0);
      }
      assert |prev| == m * b;
      assert (prev + g(b))[|prev|..|prev| + m] == g(b);
    }
  }

  /** Item j of a slice equal to u is item j of u. */
  lemma SliceItem<T>(s: seq<T>, u: seq<T>, i: nat, j: nat)
    requires i + |u| <= |s| && s[i .. i + |u|] == u && j < |u|
    ensures s[i + j] == u[j]
  {
    assert s[i .. i + |u|][j] == s[i + j];
  }

  /** Item j of chunk b sits at position m * b + j. */
  lemma ChunkItem<T>(g: nat -> seq<T>, m: nat, k: nat, b: nat, j: nat)
    requires b < k && j < m && forall i :: |g(i)| == m
    ensures |Chunks(g, k)| == m * k && m * b + j < m * k
    ensures Chunks(g, k)[m * b + j] == g(b)[j]
  {
    ChunksAt(g, m, k, b);
    assert Chunks(g, k)[m * b .. m * b + m][j] == Chunks(g, k)[m * b + j];
  }

  lemma MulMonotone(m: nat, x: nat, y: nat)
    requires x <= y
    ensures m * x <= m * y
  {
  }

  /** A literal `q^t_k` (positive) or `-q^t_k` of bit k of some step. */
  datatype Lit = Lit(bit: nat, positive: bool)

  /** The sign a literal is written with. */
  function Sign(positive: bool): string
  {
    if positive then "" else "-"
  }

  /** The variable `q^s_k` of bit k, the step written as the text s. */
  function Variable(k: nat, s: string): string
    requires k < 10
  {
    "q^" + s + "_" + [DigitChar(k)]
  }

  /** A literal with the step written as the text s. */
  function LitText(l: Lit, s: string): string
    requires l.bit < 10
  {
    Sign(l.positive) + Variable(l.bit, s)
  }

  predicate SmallBits(lits: seq<Lit>)
  {
    forall i :: 0 <= i < |lits| ==> lits[i].bit < 10
  }

  /** The literals joined by " * ", each with the step written as s. */
  function ProductText(lits: seq<Lit>, s: string): string
    requires SmallBits(lits)
  {
    if |lits| == 0 then "" else if |lits| == 1 then LitText(lits[0], s)
    else ProductText(lits[..|lits| - 1], s) + " * " + LitText(lits[|lits| - 1], s)
  }

  /** The literals of one step's code, bits numbered from 1 as the templates number them. */
  function CodeLits(code: seq<bool>): (lits: seq<Lit>)
    requires |code| < 10
    ensures |lits| == |code| && SmallBits(lits)
  {
    seq(|code|, i requires 0 <= i < |code| => Lit(i + 1, code[i]))
  }

  /** A product of three literals, written out. */
  lemma ProductOfThree(lits: seq<Lit>, s: string)
    requires |lits| == 3 && SmallBits(lits)
    ensures ProductText(lits, s) == LitText(lits[0], s) + " * " + LitText(lits[1], s) + " * " + LitText(lits[2], s)
  {
    assert lits[..2][..1] == [lits[0]] && lits[..2][1] == lits[1];
    assert ProductText(lits[..2], s) == LitText(lits[0], s) + " * " + LitText(lits[1], s);
  }

  /** The literals of a three-bit code, written out. */
  lemma CodeLitsOfThree(code: seq<bool>)
    requires |code| == 3
    ensures CodeLits(code) == [Lit(1, code[0]), Lit(2, code[1]), Lit(3, code[2])]
  {
  }

  /** The product of a three-bit code's literals, written out. */
  lemma ThreeBitProduct(code: seq<bool>, s: string)
    requires |code| == 3
    ensures ProductText(CodeLits(code), s)
      == Sign(code[0]) + Variable(1, s) + " * " + Sign(code[1]) + Variable(2, s) + " * " + Sign(code[2]) + Variable(3, s)
  {
    CodeLitsOfThree(code);
    ProductOfThree(CodeLits(code), s);
  }

  /** Every literal holds on the bits of code: its bit is set exactly when the literal is positive. */
  predicate LitsHold(lits: seq<Lit>, code: seq<bool>)
  {
    forall i :: 0 <= i < |lits| ==> 1 <= lits[i].bit <= |code| && code[lits[i].bit - 1] == lits[i].positive
  }

  /** The product of a code's literals holds on exactly that code. */
  lemma CodeLitsHold(code: seq<bool>, other: seq<bool>)
    requires |code| < 10 && |other| == |code|
    ensures LitsHold(CodeLits(code), other) <==> other == code
  {
    var lits := CodeLits(code);
    if LitsHold(lits, other) {
      forall i | 0 <= i < |code|
        ensures other[i] == code[i]
      {
        assert lits[i] == Lit(i + 1, code[i]);
      }
    }
  }

  /** The characters a rendered literal can hold besides its step text. */
  predicate Plain(c: char)
  {
    c == '-' || c == 'q' || c == '^' || c == '_' || c == ' ' || c == '*' || '0' <= c <= '9'
  }

  /** A product written with the slot character c in place of the step: its template. */
  lemma LitTemplate(l: Lit, c: char, x: char, r: string)
    requires l.bit < 10 && !Plain(c) && !Plain(x) && x != c
    ensures x !in LitText(l, [c])
    ensures Replace(LitText(l, [c]), [c], r) == LitText(l, r)
  {
    var pre := Sign(l.positive) + "q^";
    var post := "_" + [DigitChar(l.bit)];
    assert LitText(l, [c]) == pre + [c] + post;
    ReplaceConcat(pre + [c], post, c, r);
    ReplaceConcat(pre, [c], c, r);
    ReplaceAbsent(pre, c, r);
    ReplaceAbsent(post, c, r);
    assert [c][..1] == [c];
  }

  /**
   * Replacing the slot character of a product template with a step's text gives the product
   * of that step; the template holds no character outside the rendering alphabet but the slot.
   */
  lemma {:induction false} ProductTemplate(lits: seq<Lit>, c: char, x: char, r: string)
    requires SmallBits(lits) && !Plain(c) && !Plain(x) && x != c
    ensures x !in ProductText(lits, [c])
    ensures Replace(ProductText(lits, [c]), [c], r) == ProductText(lits, r)
    decreases |lits|
  {
    if |lits| == 1 {
      LitTemplate(lits[0], c, x, r);
    } else if |lits| >= 2 {
      var k := |lits| - 1;
      LitTemplate(lits[k], c, x, r);
      ProductTemplate(lits[..k], c, x, r);
      var init, last := ProductText(lits[..k], [c]), LitText(lits[k], [c]);
      assert ProductText(lits, [c]) == (init + " * ") + last;
      ReplaceConcat(init + " * ", last, c, r);
      ReplaceConcat(init, " * ", c, r);
      ReplaceAbsent(" * ", c, r);
    }
  }

  /** A product rendered with digits only holds rendering characters. */
  lemma {:induction false} ProductPlain(lits: seq<Lit>, s: string, x: char)
    requires SmallBits(lits) && !Plain(x) && x !in s
    ensures x !in ProductText(lits, s)
    decreases |lits|
  {
    if |lits| >= 2 {
      ProductPlain(lits[..|lits| - 1], s, x);
    }
  }

  /** A template with every letter `t` replaced by the step number. */
  function Rendered(template: string, t: nat): string
  {
    Replace(template, "t", NatToString(t))
  }

  predicate SmallSums(prods: seq<seq<Lit>>)
  {
    forall i :: 0 <= i < |prods| ==> SmallBits(prods[i])
  }

  /** Products of literals added: the products joined by " + ", each with the step written as s. */
  function SumText(prods: seq<seq<Lit>>, s: string): string
    requires SmallSums(prods)
  {
    if |prods| == 0 then "" else if |prods| == 1 then ProductText(prods[0], s)
    else SumText(prods[..|prods| - 1], s) + " + " + ProductText(prods[|prods| - 1], s)
  }

  /** A sum of products holds on code when one of its products does. */
  predicate SumHolds(prods: seq<seq<Lit>>, code: seq<bool>)
  {
    exists i :: 0 <= i < |prods| && LitsHold(prods[i], code)
  }

  /** Replacing the slot character of a sum template renders every product of the sum. */
  lemma {:induction false} SumTemplate(prods: seq<seq<Lit>>, c: char, x: char, r: string)
    requires SmallSums(prods) && !Plain(c) && !Plain(x) && x != c && c != '+' && x != '+'
    ensures x !in SumText(prods, [c])
    ensures Replace(SumText(prods, [c]), [c], r) == SumText(prods, r)
    decreases |prods|
  {
    if |prods| == 1 {
      ProductTemplate(prods[0], c, x, r);
    } else if |prods| >= 2 {
      var k := |prods| - 1;
      ProductTemplate(prods[k], c, x, r);
      SumTemplate(prods[..k], c, x, r);
      var init, last := SumText(prods[..k], [c]), ProductText(prods[k], [c]);
      assert SumText(prods, [c]) == (init + " + ") + last;
      ReplaceConcat(init + " + ", last, c, r);
      ReplaceConcat(init, " + ", c, r);
      ReplaceAbsent(" + ", c, r);
    }
  }

  /** A sum rendered with digits only holds rendering characters and plus signs. */
  lemma {:induction false} SumPlain(prods: seq<seq<Lit>>, s: string, x: char)
    requires SmallSums(prods) && !Plain(x) && x != '+' && x !in s
    ensures x !in SumText(prods, s)
    decreases |prods|
  {
    if |prods| >= 1 {
      ProductPlain(prods[|prods| - 1], s, x);
    }
    if |prods| >= 2 {
      SumPlain(prods[..|prods| - 1], s, x);
    }
  }

  // ---------------------------------------------------------------- pins

  /** Replacing a pattern whose first character the text lacks changes nothing. */
  lemma {:induction false} ReplaceNoStart(s: string, pat: string, r: string)
    requires |pat| >= 1 && pat[0] !in s
    ensures Replace(s, pat, r) == s
    decreases |s|
  {
    if |s| >= |pat| {
      assert s[..|pat|][0] == s[0] != pat[0];
      ReplaceNoStart(s[1..], pat, r);
      assert [s[0]] + s[1..] == s;
    }
  }

  /** A character that cannot start the pattern is passed over. */
  lemma ReplaceBehind(c: char, s: string, pat: string, r: string)
    requires |pat| >= 1 && c != pat[0]
    ensures Replace([c] + s, pat, r) == [c] + Replace(s, pat, r)
  {
    var x := [c] + s;
    assert x[1..] == s && x[0] == c;
    if |x| >= |pat| {
      assert x[..|pat|][0] == c;
    }
  }

  /**
   * Replacing the variable `q^u_j` of a one-digit step u inside the variable `q^s_k` of a
   * step s written in digits: the whole variable when it is that one, nothing otherwise.
   */
  lemma ReplaceVariable(k: nat, s: string, j: nat, u: string, r: string)
    requires k < 10 && j < 10 && |s| >= 1 && |u| == 1
    requires forall i :: 0 <= i < |s| ==> '0' <= s[i] <= '9'
    ensures Replace(Variable(k, s), Variable(j, u), r) == if s == u && k == j then r else Variable(k, s)
  {
    var x, pat := Variable(k, s), Variable(j, u);
    assert |pat| == 5 && pat[0] == 'q' && pat[3] == '_';
    var rest := "^" + s + "_" + [DigitChar(k)];
    assert x == [x[0]] + rest && x[0] == 'q';
    assert 'q' !in rest by {
      assert forall i :: 0 <= i < |rest| ==> rest[i] == '^' || rest[i] == '_' || '0' <= rest[i] <= '9';
    }
    if s == u && k == j {
      assert x == pat && x[..|pat|] == pat && x[|pat|..] == [];
    } else {
      VariableWindow(k, s, j, u);
      ReplaceNoStart(rest, pat, r);
    }
  }

  /** The variable `q^s_k` begins with the variable `q^u_j` of a one-digit step only when they are the same. */
  lemma VariableWindow(k: nat, s: string, j: nat, u: string)
    requires k < 10 && j < 10 && |s| >= 1 && |u| == 1
    requires forall i :: 0 <= i < |s| ==> '0' <= s[i] <= '9'
    ensures var x, pat := Variable(k, s), Variable(j, u);
      |x| >= |pat| && x[..|pat|] == pat ==> s == u && k == j
  {
    var x, pat := Variable(k, s), Variable(j, u);
    if |x| >= |pat| && x[..|pat|] == pat {
      assert x[3] == '_';
      assert |s| == 1;
      assert s == [x[2]] && u == [pat[2]];
      assert DigitChar(k) == x[4] && DigitChar(j) == pat[4];
    }
  }

  /** The same for a literal: its sign stays in front of the replacement. */
  lemma ReplaceLiteral(l: Lit, s: string, j: nat, u: string, r: string)
    requires l.bit < 10 && j < 10 && |s| >= 1 && |u| == 1
    requires forall i :: 0 <= i < |s| ==> '0' <= s[i] <= '9'
    ensures Replace(LitText(l, s), Variable(j, u), r)
      == if s == u && l.bit == j then Sign(l.positive) + r else LitText(l, s)
  {
    ReplaceVariable(l.bit, s, j, u, r);
    if !l.positive {
      ReplaceBehind('-', Variable(l.bit, s), Variable(j, u), r);
      assert LitText(l, s) == ['-'] + Variable(l.bit, s);
    } else {
      assert LitText(l, s) == Variable(l.bit, s);
    }
  }

  /** A final `replace` of the variable `q^step_bit` by a constant text. */
  datatype Pin = Pin(step: nat, bit: nat, value: string)

  /** Pins of one-digit steps and bits, to values without variables. */
  predicate SmallPins(pins: seq<Pin>)
  {
    forall i :: 0 <= i < |pins| ==> pins[i].step < 10 && pins[i].bit < 10 && 'q' !in pins[i].value
  }

  /** The replaces one after the other, each over the text the previous one left. */
  function ApplyPins(s: string, pins: seq<Pin>): string
    requires SmallPins(pins)
    decreases |pins|
  {
    if pins == [] then s
    else ApplyPins(Replace(s, Variable(pins[0].bit, NatToString(pins[0].step)), pins[0].value), pins[1..])
  }

  /** The value the first pin naming (step, bit) gives, if any. */
  function PinOf(pins: seq<Pin>, step: nat, bit: nat): Option<string>
    decreases |pins|
  {
    if pins == [] then None
    else if pins[0].step == step && pins[0].bit == bit then Some(pins[0].value)
    else PinOf(pins[1..], step, bit)
  }

  /** A text without variables goes through the pins unchanged. */
  lemma {:induction false} PinsMiss(s: string, pins: seq<Pin>)
    requires SmallPins(pins) && 'q' !in s
    ensures ApplyPins(s, pins) == s
    decreases |pins|
  {
    if pins != [] {
      var pat := Variable(pins[0].bit, NatToString(pins[0].step));
      ReplaceNoStart(s, pat, pins[0].value);
      PinsMiss(s, pins[1..]);
    }
  }

  /**
   * The pins on one literal of step t: a pinned variable becomes its value, with the literal's
   * sign in front, and every other literal is left as it is.
   */
  lemma {:induction false} PinsOnLiteral(l: Lit, t: nat, pins: seq<Pin>)
    requires l.bit < 10 && SmallPins(pins)
    ensures ApplyPins(LitText(l, NatToString(t)), pins)
      == match PinOf(pins, t, l.bit) case Some(v) => Sign(l.positive) + v case None => LitText(l, NatToString(t))
    decreases |pins|
  {
    if pins != [] {
      var p := pins[0];
      var s, u := NatToString(t), NatToString(p.step);
      ReplaceLiteral(l, s, p.bit, u, p.value);
      if s == u {
        NatToStringInjective(t, p.step);
      }
      if t == p.step && l.bit == p.bit {
        assert 'q' !in Sign(l.positive) + p.value;
        PinsMiss(Sign(l.positive) + p.value, pins[1..]);
      } else {
        PinsOnLiteral(l, t, pins[1..]);
      }
    }
  }
}
