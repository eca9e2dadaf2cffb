/**
 * The pyqubo bit operations: the variable table, the half-adder network over gates,
 * and the sums that count how many steps satisfy a direction predicate.
 */
module BitOpsQubo {
  import opened Numeric
  import opened Outcomes
  import opened BoolExpr
  import opened Adder

  // ---------------------------------------------------------------- variable table

  /** The name `q_{t}{letter}` given to bit q of step t. */
  function VarName(t: nat, q: nat): string
    requires 'a' as int + q < 0xD800
  {
    "q_" + NatToString(t) + [('a' as int + q) as char]
  }

  /** Distinct (step, bit) pairs get distinct names, so each pair is its own variable. */
  lemma VarNamesDistinct(t1: nat, q1: nat, t2: nat, q2: nat)
    requires 'a' as int + q1 < 0xD800 && 'a' as int + q2 < 0xD800
    requires VarName(t1, q1) == VarName(t2, q2)
    ensures t1 == t2 && q1 == q2
  {
    var n1, n2 := VarName(t1, q1), VarName(t2, q2);
    assert n1[|n1| - 1] == n2[|n2| - 1];
    assert n1[2..|n1| - 1] == NatToString(t1);
    assert n2[2..|n2| - 1] == NatToString(t2);
    NatToStringInjective(t1, t2);
  }

  /** `initialize_q_vars`: one fresh binary variable per step and bit. */
  method InitializeQVars(numAmino: nat, qubitsPerAmino: nat) returns (qVars: map<(nat, nat), Expr>)
    ensures forall t: nat, q: nat :: (t, q) in qVars <==> t < numAmino && q < qubitsPerAmino
    ensures forall k :: k in qVars ==> qVars[k] == Var(k.0, k.1)
  {
    qVars := map[];
    var t := 0;
    while t < numAmino
      invariant t <= numAmino
      invariant forall u: nat, q: nat :: (u, q) in qVars <==> u < t && q < qubitsPerAmino
      invariant forall k :: k in qVars ==> qVars[k] == Var(k.0, k.1)
    {
      var q := 0;
      while q < qubitsPerAmino
        invariant q <= qubitsPerAmino
        invariant forall u: nat, r: nat :: (u, r) in qVars <==> (u < t && r < qubitsPerAmino) || (u == t && r < q)
        invariant forall k :: k in qVars ==> qVars[k] == Var(k.0, k.1)
      {
        qVars := qVars[(t, q) := Var(t, q)];
        q := q + 1;
      }
      t := t + 1;
    }
  }

  // ---------------------------------------------------------------- half adders over gates

  function Carry(x: Expr, y: Expr): Expr { And(x, y) }

  function Sum(x: Expr, y: Expr): Expr { Xor(x, y) }

  /** A half adder keeps the count: its sum bit plus twice its carry bit counts its two inputs. */
  lemma HalfAdderCounts(x: Expr, y: Expr, a: Assignment)
    ensures Indicator(Eval(Sum(x, y), a)) + 2 * Indicator(Eval(Carry(x, y), a)) == Indicator(Eval(x, a)) + Indicator(Eval(y, a))
  {
  }

  /** One pass keeps the count: low bit plus twice the count above it equals the input count. */
  lemma {:induction false} PassKeepsCount(l: seq<Expr>, a: Assignment)
    requires |l| >= 1
    ensures Indicator(Eval(Pass(l, Carry, Sum)[0], a)) + 2 * Count(Pass(l, Carry, Sum)[1..], a) == Count(l, a)
    decreases |l|
  {
    if |l| >= 2 {
      var m := |l|;
      var x, y := l[m - 1], l[m - 2];
      var l' := l[..m - 2] + [Sum(x, y)];
      var p' := Pass(l', Carry, Sum);
      PassKeepsCount(l', a);
      PassTop(l, Carry, Sum);
      StepKeepsCount(l, Pass(l, Carry, Sum), p', a);
    }
  }

  /** The step of the induction, over plain lists: p is p' with the top carry appended. */
  lemma StepKeepsCount(l: seq<Expr>, p: seq<Expr>, p': seq<Expr>, a: Assignment)
    requires |l| >= 2 && |p| >= 1 && |p'| >= 1
    requires p[0] == p'[0] && p[1..] == p'[1..] + [Carry(l[|l| - 1], l[|l| - 2])]
    requires Indicator(Eval(p'[0], a)) + 2 * Count(p'[1..], a) == Count(l[..|l| - 2] + [Sum(l[|l| - 1], l[|l| - 2])], a)
    ensures Indicator(Eval(p[0], a)) + 2 * Count(p[1..], a) == Count(l, a)
  {
    var m := |l|;
    var x, y := l[m - 1], l[m - 2];
    CountTopTwo(l, a);
    CountAppendOne(l[..m - 2], Sum(x, y), a);
    CountAppendOne(p'[1..], Carry(x, y), a);
    HalfAdderCounts(x, y, a);
    PassArithmetic(Indicator(Eval(p'[0], a)), Count(p'[1..], a), Count(p[1..], a), Count(l[..m - 2] + [Sum(x, y)], a), Count(l, a),
      Count(l[..m - 2], a), Indicator(Eval(x, a)), Indicator(Eval(y, a)),
      Indicator(Eval(Sum(x, y), a)), Indicator(Eval(Carry(x, y), a)));
  }

  lemma PassArithmetic(low: int, above: int, above': int, countBefore: int, count: int, base: int, ix: int, iy: int, sb: int, cb: int)
    requires low + 2 * above == countBefore && countBefore == base + sb && sb + 2 * cb == ix + iy
    requires count == base + iy + ix && above' == above + cb
    ensures low + 2 * above' == count
  {
  }

  /**
   * The centre of the construction: the bits `half_adder_loader` returns spell, least
   * significant first, the number of true inputs, under every assignment.
   */
  lemma {:induction false} LoaderCounts(l: seq<Expr>, a: Assignment)
    requires |l| >= 1
    ensures Weight(Loader(l, Carry, Sum), a) == Count(l, a)
    decreases |l|
  {
    if |l| >= 2 {
      var p := Pass(l, Carry, Sum);
      PassKeepsCount(l, a);
      LoaderCounts(p[1..], a);
      assert Loader(l, Carry, Sum)[1..] == Loader(p[1..], Carry, Sum);
    }
  }

  // ---------------------------------------------------------------- direction sums

  /** The predicate values at step t, in the order they are appended. */
  function Row(fs: seq<nat -> Expr>, t: nat): (r: seq<Expr>)
    ensures |r| == |fs|
  {
    seq(|fs|, i requires 0 <= i < |fs| => fs[i](t))
  }

  /** The bit list built for steps start .. end - 1, one Row per step. */
  function Terms(fs: seq<nat -> Expr>, start: nat, end: nat): (r: seq<Expr>)
    requires start <= end
    ensures |r| == |fs| * (end - start)
    decreases end
  {
    if end == start then [] else Terms(fs, start, end - 1) + Row(fs, end - 1)
  }

  /** How many predicates hold, summed over steps start .. end - 1 (none when end <= start). */
  function Tally(fs: seq<nat -> Expr>, start: nat, end: nat, a: Assignment): nat
    decreases end
  {
    if end <= start then 0 else Tally(fs, start, end - 1, a) + Count(Row(fs, end - 1), a)
  }

  lemma {:induction false} TermsCount(fs: seq<nat -> Expr>, start: nat, end: nat, a: Assignment)
    requires start <= end
    ensures Count(Terms(fs, start, end), a) == Tally(fs, start, end, a)
    decreases end
  {
    if end > start {
      TermsCount(fs, start, end - 1, a);
      CountAppend(Terms(fs, start, end - 1), Row(fs, end - 1), a);
    }
  }

  /** The constant-one bits seeding the `_plus_one` and `_plus_two` sums. */
  function Ones(k: nat): (r: seq<Expr>)
    ensures |r| == k
  {
    seq(k, _ => Num(true))
  }

  lemma {:induction false} OnesCount(k: nat, a: Assignment)
    ensures Count(Ones(k), a) == k
  {
    if k > 0 {
      assert Ones(k)[1..] == Ones(k - 1);
      OnesCount(k - 1, a);
    }
  }

  /** The adder output for `seed` constant ones followed by the step terms. */
  function SumBits(seed: nat, fs: seq<nat -> Expr>, start: nat, end: nat): (r: seq<Expr>)
    requires start <= end && seed + |fs| * (end - start) >= 1
    ensures |r| == seed + |fs| * (end - start)
  {
    Loader(Ones(seed) + Terms(fs, start, end), Carry, Sum)
  }

  /**
   * Every direction sum spells seed + (number of predicate hits over the steps), in
   * seed + |fs| * (end - start) bits.
   */
  lemma SumBitsCounts(seed: nat, fs: seq<nat -> Expr>, start: nat, end: nat, a: Assignment)
    requires start <= end && seed + |fs| * (end - start) >= 1
    ensures |SumBits(seed, fs, start, end)| == seed + |fs| * (end - start)
    ensures Weight(SumBits(seed, fs, start, end), a) == seed + Tally(fs, start, end, a)
  {
    LoaderCounts(Ones(seed) + Terms(fs, start, end), a);
    CountAppend(Ones(seed), Terms(fs, start, end), a);
    OnesCount(seed, a);
    TermsCount(fs, start, end, a);
  }

  lemma RowOne(f: nat -> Expr, t: nat)
    ensures Row([f], t) == [f(t)]
  {
  }

  lemma RowTwo(f1: nat -> Expr, f2: nat -> Expr, t: nat)
    ensures Row([f1, f2], t) == [f1(t), f2(t)]
  {
  }

  /** `sum_of_directions`: the count of steps start .. end - 1 satisfying dirFunc. */
  method SumOfDirections(dirFunc: nat -> Expr, start: nat, end: nat) returns (r: Result<seq<Expr>>)
    ensures start < end ==> r == Ok(SumBits(0, [dirFunc], start, end))
    ensures end <= start ==> r == Err(IndexError)
  {
    var bitList: seq<Expr> := [];
    var i := 0;
    while i < end - start
      invariant 0 <= i && (i == 0 || start + i <= end)
      invariant start + i <= end ==> bitList == Ones(0) + Terms([dirFunc], start, start + i)
      invariant end < start ==> bitList == []
    {
      RowOne(dirFunc, start + i);
      bitList := bitList + [dirFunc(start + i)];
      i := i + 1;
    }
    r := HalfAdderLoader(bitList, Carry, Sum);
  }

  /** `sum_of_directions_plus_one`: the same count plus one. */
  method SumOfDirectionsPlusOne(dirFunc: nat -> Expr, start: nat, end: nat) returns (r: Result<seq<Expr>>)
    ensures start <= end ==> r == Ok(SumBits(1, [dirFunc], start, end))
    ensures end < start ==> r == Ok([Num(true)])
  {
    var bitList: seq<Expr> := [Num(true)];
    var i := 0;
    while i < end - start
      invariant 0 <= i && (i == 0 || start + i <= end)
      invariant start + i <= end ==> bitList == Ones(1) + Terms([dirFunc], start, start + i)
      invariant end < start ==> bitList == [Num(true)]
    {
      RowOne(dirFunc, start + i);
      bitList := bitList + [dirFunc(start + i)];
      i := i + 1;
    }
    r := HalfAdderLoader(bitList, Carry, Sum);
  }

  /** The shared loop of the three `sum_of_y` variants, after the seed bits. */
  method AppendPairs(seedBits: seq<Expr>, f1: nat -> Expr, f2: nat -> Expr, start: nat, end: nat)
    returns (bitList: seq<Expr>)
    ensures start <= end ==> bitList == seedBits + Terms([f1, f2], start, end)
    ensures end < start ==> bitList == seedBits
  {
    bitList := seedBits;
    var i := 0;
    while i < end - start
      invariant 0 <= i && (i == 0 || start + i <= end)
      invariant start + i <= end ==> bitList == seedBits + Terms([f1, f2], start, start + i)
      invariant end < start ==> bitList == seedBits
    {
      RowTwo(f1, f2, start + i);
      bitList := bitList + [f1(start + i)];
      bitList := bitList + [f2(start + i)];
      i := i + 1;
    }
  }

  /** `sum_of_y`: the count of hits of two predicates per step (a step can count twice). */
  method SumOfY(f1: nat -> Expr, f2: nat -> Expr, start: nat, end: nat) returns (r: Result<seq<Expr>>)
    ensures start < end ==> r == Ok(SumBits(0, [f1, f2], start, end))
    ensures end <= start ==> r == Err(IndexError)
  {
    var bitList := AppendPairs(Ones(0), f1, f2, start, end);
    r := HalfAdderLoader(bitList, Carry, Sum);
  }

  /** `sum_of_y_plus_one`. */
  method SumOfYPlusOne(f1: nat -> Expr, f2: nat -> Expr, start: nat, end: nat) returns (r: Result<seq<Expr>>)
    ensures start <= end ==> r == Ok(SumBits(1, [f1, f2], start, end))
    ensures end < start ==> r == Ok([Num(true)])
  {
    var bitList := AppendPairs([Num(true)], f1, f2, start, end);
    assert Ones(1) == [Num(true)];
    r := HalfAdderLoader(bitList, Carry, Sum);
  }

  /** `sum_of_y_plus_two`. */
  method SumOfYPlusTwo(f1: nat -> Expr, f2: nat -> Expr, start: nat, end: nat) returns (r: Result<seq<Expr>>)
    ensures start <= end ==> r == Ok(SumBits(2, [f1, f2], start, end))
    ensures end < start ==> r.Ok? && |r.value| == 2
  {
    var bitList := AppendPairs([Num(true), Num(true)], f1, f2, start, end);
    assert Ones(2) == [Num(true), Num(true)];
    r := HalfAdderLoader(bitList, Carry, Sum);
  }

  // ---------------------------------------------------------------- Xnor

  /** `Xnor(a, b) = 1 - a - b + 2ab`: on 0/1 inputs, 1 exactly when they are equal. */
  function XnorPoly(x: int, y: int): (r: int)
    ensures 0 <= x <= 1 && 0 <= y <= 1 ==> r == Indicator(x == y)
  {
    1 - x - y + 2 * x * y
  }
}
