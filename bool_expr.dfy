/**
 * Boolean expressions over the step variables q_{t,i}, as both back ends build them:
 * pyqubo's logic gates over Binary variables and Num constants, and sympy's Boolean
 * formulas over Symbols with true/false. sympy flattens nested And/Or into one n-ary
 * node; here an n-ary And/Or is the left-nested chain of binary nodes, which has the
 * same meaning.
 */
module BoolExpr {
  import opened Numeric

  datatype Expr =
    | Num(value: bool)
    | Var(step: nat, bit: nat)
    | Not(e: Expr)
    | And(l: Expr, r: Expr)
    | Or(l: Expr, r: Expr)
    | Xor(l: Expr, r: Expr)
    | Xnor(l: Expr, r: Expr)

  /** A 0/1 value for every variable q_{t,i}. */
  type Assignment = (nat, nat) -> bool

  function Eval(e: Expr, a: Assignment): bool
  {
    match e
    case Num(v) => v
    case Var(t, i) => a(t, i)
    case Not(x) => !Eval(x, a)
    case And(x, y) => Eval(x, a) && Eval(y, a)
    case Or(x, y) => Eval(x, a) || Eval(y, a)
    case Xor(x, y) => Eval(x, a) != Eval(y, a)
    case Xnor(x, y) => Eval(x, a) == Eval(y, a)
  }

  function Indicator(b: bool): nat
  {
    if b then 1 else 0
  }

  /**
   * The polynomial pyqubo compiles each gate into:
   * And = xy, Or = x + y - xy, Not = 1 - x, Xor = x + y - 2xy, Xnor = 1 - x - y + 2xy.
   */
  function Value(e: Expr, a: Assignment): int
  {
    match e
    case Num(v) => Indicator(v)
    case Var(t, i) => Indicator(a(t, i))
    case Not(x) => 1 - Value(x, a)
    case And(x, y) => Value(x, a) * Value(y, a)
    case Or(x, y) => Value(x, a) + Value(y, a) - Value(x, a) * Value(y, a)
    case Xor(x, y) => Value(x, a) + Value(y, a) - 2 * Value(x, a) * Value(y, a)
    case Xnor(x, y) => 1 - Value(x, a) - Value(y, a) + 2 * Value(x, a) * Value(y, a)
  }

  /** On 0/1 variables every gate polynomial is the indicator of the gate's truth value. */
  lemma {:induction false} ValueIsIndicator(e: Expr, a: Assignment)
    ensures Value(e, a) == Indicator(Eval(e, a))
  {
    match e
    case Num(_) =>
    case Var(_, _) =>
    case Not(x) => ValueIsIndicator(x, a);
    case And(x, y) => ValueIsIndicator(x, a); ValueIsIndicator(y, a);
    case Or(x, y) => ValueIsIndicator(x, a); ValueIsIndicator(y, a);
    case Xor(x, y) => ValueIsIndicator(x, a); ValueIsIndicator(y, a);
    case Xnor(x, y) => ValueIsIndicator(x, a); ValueIsIndicator(y, a);
  }

  /** The gate shape both planar contact tests share: (p and q) or (r and s). */
  lemma EvalOrOfAnds(p: Expr, q: Expr, r: Expr, s: Expr, a: Assignment)
    ensures Eval(Or(And(p, q), And(r, s)), a) == ((Eval(p, a) && Eval(q, a)) || (Eval(r, a) && Eval(s, a)))
  {
  }

  /** The right-nested three-way And the 8-direction predicates use. */
  lemma EvalAnd3(x: Expr, y: Expr, z: Expr, a: Assignment)
    ensures Eval(And(x, And(y, z)), a) == (Eval(x, a) && Eval(y, a) && Eval(z, a))
  {
  }

  // ---------------------------------------------------------------- pinned bits

  /** Bits fixed to a constant, keyed by (step, bit). */
  type Pins = map<(nat, nat), bool>

  /** The entry of a variable table after the pinned bits have been written into it. */
  function Lookup(pins: Pins, t: nat, i: nat): (e: Expr)
    ensures forall a: Assignment :: Eval(e, a) == Effective(pins, a)(t, i)
  {
    if (t, i) in pins then Num(pins[(t, i)]) else Var(t, i)
  }

  /** The assignment seen by a formula whose pinned variables were replaced by constants. */
  function Effective(pins: Pins, a: Assignment): Assignment
  {
    (t: nat, i: nat) => if (t, i) in pins then pins[(t, i)] else a(t, i)
  }

  function Vars(e: Expr): set<(nat, nat)>
  {
    match e
    case Num(_) => {}
    case Var(t, i) => {(t, i)}
    case Not(x) => Vars(x)
    case And(x, y) => Vars(x) + Vars(y)
    case Or(x, y) => Vars(x) + Vars(y)
    case Xor(x, y) => Vars(x) + Vars(y)
    case Xnor(x, y) => Vars(x) + Vars(y)
  }

  /** sympy `subs`: every pinned variable becomes its constant; no pinned variable is left. */
  function Subst(e: Expr, pins: Pins): (r: Expr)
    ensures Vars(r) == Vars(e) - pins.Keys
  {
    match e
    case Num(v) => Num(v)
    case Var(t, i) => if (t, i) in pins then Num(pins[(t, i)]) else Var(t, i)
    case Not(x) => Not(Subst(x, pins))
    case And(x, y) => And(Subst(x, pins), Subst(y, pins))
    case Or(x, y) => Or(Subst(x, pins), Subst(y, pins))
    case Xor(x, y) => Xor(Subst(x, pins), Subst(y, pins))
    case Xnor(x, y) => Xnor(Subst(x, pins), Subst(y, pins))
  }

  /** Substituting the pins means evaluating under the pinned assignment. */
  lemma {:induction false} SubstEval(e: Expr, pins: Pins, a: Assignment)
    ensures Eval(Subst(e, pins), a) == Eval(e, Effective(pins, a))
  {
    match e
    case Num(_) =>
    case Var(_, _) =>
    case Not(x) => SubstEval(x, pins, a);
    case And(x, y) => SubstEval(x, pins, a); SubstEval(y, pins, a);
    case Or(x, y) => SubstEval(x, pins, a); SubstEval(y, pins, a);
    case Xor(x, y) => SubstEval(x, pins, a); SubstEval(y, pins, a);
    case Xnor(x, y) => SubstEval(x, pins, a); SubstEval(y, pins, a);
  }

  // ---------------------------------------------------------------- n-ary connectives

  /** sympy `And(e0, ..., ek)`; the empty conjunction is true. */
  function AllOf(es: seq<Expr>): Expr
  {
    if |es| == 0 then Num(true)
    else if |es| == 1 then es[0]
    else And(AllOf(es[..|es| - 1]), es[|es| - 1])
  }

  lemma {:induction false} AllOfMeaning(es: seq<Expr>, a: Assignment)
    ensures Eval(AllOf(es), a) <==> forall i :: 0 <= i < |es| ==> Eval(es[i], a)
  {
    if |es| > 1 {
      AllOfMeaning(es[..|es| - 1], a);
      assert forall i :: 0 <= i < |es| - 1 ==> es[..|es| - 1][i] == es[i];
    }
  }

  /** sympy `Or(e0, ..., ek)`; the empty disjunction is false. */
  function AnyOf(es: seq<Expr>): Expr
  {
    if |es| == 0 then Num(false)
    else if |es| == 1 then es[0]
    else Or(AnyOf(es[..|es| - 1]), es[|es| - 1])
  }

  lemma {:induction false} AnyOfMeaning(es: seq<Expr>, a: Assignment)
    ensures Eval(AnyOf(es), a) <==> exists i :: 0 <= i < |es| && Eval(es[i], a)
  {
    if |es| > 1 {
      AnyOfMeaning(es[..|es| - 1], a);
      assert forall i :: 0 <= i < |es| - 1 ==> es[..|es| - 1][i] == es[i];
    }
  }

  // ---------------------------------------------------------------- lists of bits

  /** How many expressions of the list are true. */
  function Count(l: seq<Expr>, a: Assignment): (c: nat)
    ensures c <= |l|
  {
    if l == [] then 0 else Indicator(Eval(l[0], a)) + Count(l[1..], a)
  }

  lemma {:induction false} CountAppend(x: seq<Expr>, y: seq<Expr>, a: Assignment)
    ensures Count(x + y, a) == Count(x, a) + Count(y, a)
  {
    if x == [] {
      assert x + y == y;
    } else {
      assert (x + y)[1..] == x[1..] + y;
      CountAppend(x[1..], y, a);
    }
  }

  /** The count of a list is the count of all but its last entry, plus that entry. */
  lemma CountLast(l: seq<Expr>, a: Assignment)
    requires l != []
    ensures Count(l, a) == Count(l[..|l| - 1], a) + Indicator(Eval(l[|l| - 1], a))
  {
    var last := l[|l| - 1];
    assert l == l[..|l| - 1] + [last];
    CountAppend(l[..|l| - 1], [last], a);
    assert [last][1..] == [];
  }

  lemma CountAppendOne(l: seq<Expr>, e: Expr, a: Assignment)
    ensures Count(l + [e], a) == Count(l, a) + Indicator(Eval(e, a))
  {
    CountAppend(l, [e], a);
    assert [e][1..] == [];
  }

  lemma CountTopTwo(l: seq<Expr>, a: Assignment)
    requires |l| >= 2
    ensures Count(l, a) == Count(l[..|l| - 2], a) + Indicator(Eval(l[|l| - 2], a)) + Indicator(Eval(l[|l| - 1], a))
  {
    CountLast(l, a);
    CountLast(l[..|l| - 1], a);
    assert l[..|l| - 1][..|l| - 2] == l[..|l| - 2];
  }

  /** The number a list of bits spells, least significant bit first. */
  function Weight(l: seq<Expr>, a: Assignment): (w: nat)
    ensures w < Pow2(|l|)
  {
    if l == [] then 0 else Indicator(Eval(l[0], a)) + 2 * Weight(l[1..], a)
  }

  /**
   * Two bit lists agree on their w lowest bits exactly when the numbers they spell
   * agree modulo 2^w.
   */
  lemma {:induction false} LowBitsAgree(p: seq<Expr>, m: seq<Expr>, w: nat, a: Assignment)
    requires w <= |p| && w <= |m|
    ensures (forall i :: 0 <= i < w ==> Eval(p[i], a) == Eval(m[i], a))
        <==> Weight(p, a) % Pow2(w) == Weight(m, a) % Pow2(w)
  {
    if w == 0 {
      assert Weight(p, a) % 1 == 0 && Weight(m, a) % 1 == 0;
    } else {
      LowBitsAgree(p[1..], m[1..], w - 1, a);
      LowDigitSplit(Indicator(Eval(p[0], a)), Indicator(Eval(m[0], a)), Weight(p[1..], a), Weight(m[1..], a), Pow2(w - 1));
      AgreeSplit(p, m, w, a);
    }
  }

  /** Two numbers with low digits bp, bm agree modulo 2m exactly when those digits agree and the rest agree modulo m. */
  lemma LowDigitSplit(bp: nat, bm: nat, wp: nat, wm: nat, m: nat)
    requires bp <= 1 && bm <= 1 && m >= 1
    ensures (bp + 2 * wp) % (2 * m) == (bm + 2 * wm) % (2 * m) <==> bp == bm && wp % m == wm % m
  {
    ModDouble(bp, wp, m);
    ModDouble(bm, wm, m);
  }

  /** Two lists agree on their first w values exactly when their heads agree and their tails agree on w - 1. */
  lemma AgreeSplit(p: seq<Expr>, m: seq<Expr>, w: nat, a: Assignment)
    requires 0 < w <= |p| && w <= |m|
    ensures (forall i :: 0 <= i < w ==> Eval(p[i], a) == Eval(m[i], a))
        <==> Eval(p[0], a) == Eval(m[0], a) && forall i :: 0 <= i < w - 1 ==> Eval(p[1..][i], a) == Eval(m[1..][i], a)
  {
    if forall i :: 0 <= i < w ==> Eval(p[i], a) == Eval(m[i], a) {
      forall i | 0 <= i < w - 1
        ensures Eval(p[1..][i], a) == Eval(m[1..][i], a)
      {
        assert p[1..][i] == p[i + 1] && m[1..][i] == m[i + 1];
      }
    }
    if Eval(p[0], a) == Eval(m[0], a) && forall i :: 0 <= i < w - 1 ==> Eval(p[1..][i], a) == Eval(m[1..][i], a) {
      forall i | 0 <= i < w
        ensures Eval(p[i], a) == Eval(m[i], a)
      {
        if i > 0 {
          assert p[1..][i - 1] == p[i] && m[1..][i - 1] == m[i];
        }
      }
    }
  }
}
