/**
 * The sympy builders' post-processing, `set_default_and_dnf`: substitute each pinned
 * variable by its constant, one `subs` after another, then convert to disjunctive normal
 * form; any exception on the way makes the function return None. The conversion to DNF is
 * sympy's and is a parameter here: it either fails (None) or returns a formula.
 */
module SympyForm {
  import opened Outcomes
  import opened BoolExpr

  /** A DNF conversion that, when it succeeds, keeps the meaning of its input. */
  ghost predicate Sound(toDnf: Expr -> Option<Expr>)
  {
    forall e: Expr, a: Assignment :: toDnf(e).Some? ==> Eval(toDnf(e).value, a) == Eval(e, a)
  }

  /** The pinned bits in the order the `subs` calls name them. */
  type PinList = seq<((nat, nat), bool)>

  /** `subs(q_vars[k0], v0)`, then `subs(q_vars[k1], v1)`, and so on. */
  function SubsAll(e: Expr, pins: PinList): Expr
    decreases |pins|
  {
    if pins == [] then e else SubsAll(Subst(e, map[pins[0].0 := pins[0].1]), pins[1..])
  }

  /** The pins as one map; when a key is named twice the first `subs` wins. */
  function PinMap(pins: PinList): Pins
  {
    if pins == [] then map[] else PinMap(pins[1..])[pins[0].0 := pins[0].1]
  }

  /** Every pinned key names a variable the table holds: step below n, bit below bits. */
  predicate PinsInTable(pins: PinList, n: nat, bits: nat)
  {
    forall j :: 0 <= j < |pins| ==> pins[j].0.0 < n && pins[j].0.1 < bits
  }

  /**
   * `set_default_and_dnf` for a table of n steps of `bits` bits: a pinned key outside the
   * table raises KeyError and the function returns None; otherwise the pins are
   * substituted and the result is the conversion's.
   */
  function SetDefaultAndDnf(e: Expr, pins: PinList, n: nat, bits: nat, toDnf: Expr -> Option<Expr>): (r: Option<Expr>)
    ensures !PinsInTable(pins, n, bits) ==> r == None
  {
    if !PinsInTable(pins, n, bits) then None else toDnf(SubsAll(e, pins))
  }

  /** Formulas agree under assignments that agree on every variable. */
  lemma {:induction false} EvalAgrees(e: Expr, a1: Assignment, a2: Assignment)
    requires forall t: nat, i: nat :: a1(t, i) == a2(t, i)
    ensures Eval(e, a1) == Eval(e, a2)
  {
    match e
    case Num(_) =>
    case Var(_, _) =>
    case Not(x) => EvalAgrees(x, a1, a2);
    case And(x, y) => EvalAgrees(x, a1, a2); EvalAgrees(y, a1, a2);
    case Or(x, y) => EvalAgrees(x, a1, a2); EvalAgrees(y, a1, a2);
    case Xor(x, y) => EvalAgrees(x, a1, a2); EvalAgrees(y, a1, a2);
    case Xnor(x, y) => EvalAgrees(x, a1, a2); EvalAgrees(y, a1, a2);
  }

  /** The chain of substitutions evaluates as the formula under the pinned assignment. */
  lemma {:induction false} SubsAllEval(e: Expr, pins: PinList, a: Assignment)
    ensures Eval(SubsAll(e, pins), a) == Eval(e, Effective(PinMap(pins), a))
    decreases |pins|
  {
    if pins == [] {
      EvalAgrees(e, a, Effective(map[], a));
    } else {
      var m0, rest := map[pins[0].0 := pins[0].1], pins[1..];
      var e0 := Subst(e, m0);
      assert SubsAll(e, pins) == SubsAll(e0, rest);
      SubsAllEval(e0, rest, a);
      SubstEval(e, m0, Effective(PinMap(rest), a));
      assert PinMap(pins) == PinMap(rest)[pins[0].0 := pins[0].1];
      forall t: nat, i: nat
        ensures Effective(m0, Effective(PinMap(rest), a))(t, i) == Effective(PinMap(pins), a)(t, i)
      {
      }
      EvalAgrees(e, Effective(m0, Effective(PinMap(rest), a)), Effective(PinMap(pins), a));
    }
  }

  /** A formula that survives `set_default_and_dnf` means what the input means once the pins are written in. */
  lemma SetDefaultAndDnfMeaning(e: Expr, pins: PinList, n: nat, bits: nat, toDnf: Expr -> Option<Expr>, a: Assignment)
    requires Sound(toDnf) && SetDefaultAndDnf(e, pins, n, bits, toDnf).Some?
    ensures Eval(SetDefaultAndDnf(e, pins, n, bits, toDnf).value, a) == Eval(e, Effective(PinMap(pins), a))
  {
    SubsAllEval(e, pins, a);
  }
}
