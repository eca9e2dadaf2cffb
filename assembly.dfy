/**
 * The accumulation patterns every constraint builder shares, each as the function it
 * computes and as the loop that computes it: a running And seeded with 1, a running
 * Or seeded with 0, bitwise equality of two adder outputs, the loops over residue
 * pairs and over turns, and the collection of interaction terms.
 */
module Assembly {
  import opened Numeric
  import opened BoolExpr
  import opened Adder
  import opened BitOpsQubo
  import opened Geometry

  // ---------------------------------------------------------------- running And

  /** `acc = Num(1); for f in flags: acc = And(acc, f)`. */
  function AndFold(flags: seq<Expr>): Expr
  {
    if flags == [] then Num(true) else And(AndFold(flags[..|flags| - 1]), flags[|flags| - 1])
  }

  lemma {:induction false} AndFoldMeaning(flags: seq<Expr>, a: Assignment)
    ensures Eval(AndFold(flags), a) <==> forall i :: 0 <= i < |flags| ==> Eval(flags[i], a)
  {
    if flags != [] {
      AndFoldMeaning(flags[..|flags| - 1], a);
      assert forall i :: 0 <= i < |flags| - 1 ==> flags[..|flags| - 1][i] == flags[i];
    }
  }

  // ---------------------------------------------------------------- bitwise equality

  function XnorBits(p: seq<Expr>, m: seq<Expr>, w: nat): (r: seq<Expr>)
    requires w <= |p| && w <= |m|
    ensures |r| == w
  {
    seq(w, bit requires 0 <= bit < w => Xnor(p[bit], m[bit]))
  }

  /** The conjunction of Xnor(p[bit], m[bit]) over the w lowest bits. */
  function EqualBits(p: seq<Expr>, m: seq<Expr>, w: nat): Expr
    requires w <= |p| && w <= |m|
  {
    AndFold(XnorBits(p, m, w))
  }

  /** The comparison loop of the builders: `acc = And(acc, Xnor(p[bit], m[bit]))` per bit. */
  method EqualBitsLoop(p: seq<Expr>, m: seq<Expr>, w: nat) returns (acc: Expr)
    requires w <= |p| && w <= |m|
    ensures acc == EqualBits(p, m, w)
  {
    acc := Num(true);
    var bit := 0;
    while bit < w
      invariant bit <= w
      invariant acc == AndFold(XnorBits(p, m, bit))
    {
      assert XnorBits(p, m, bit + 1)[..bit] == XnorBits(p, m, bit);
      acc := And(acc, Xnor(p[bit], m[bit]));
      bit := bit + 1;
    }
  }

  /** Comparing w bits of two adder outputs compares the numbers they spell modulo 2^w. */
  lemma EqualBitsMeaning(p: seq<Expr>, m: seq<Expr>, w: nat, a: Assignment)
    requires w <= |p| && w <= |m|
    ensures Eval(EqualBits(p, m, w), a) <==> Weight(p, a) % Pow2(w) == Weight(m, a) % Pow2(w)
  {
    var xs := XnorBits(p, m, w);
    AndFoldMeaning(xs, a);
    LowBitsAgree(p, m, w, a);
    forall i | 0 <= i < w
      ensures Eval(xs[i], a) == (Eval(p[i], a) == Eval(m[i], a))
    {
    }
  }

  /**
   * Comparing two direction sums over the same steps: true exactly when
   * (seedP + hits of P) - (seedM + hits of M) is a multiple of 2^w.
   */
  lemma {:induction false} CompareSums(seedP: nat, fp: seq<nat -> Expr>, seedM: nat, fm: seq<nat -> Expr>,
                                      start: nat, end: nat, w: nat, a: Assignment)
    requires start <= end
    requires seedP + |fp| * (end - start) >= 1 && seedM + |fm| * (end - start) >= 1
    requires w <= seedP + |fp| * (end - start) && w <= seedM + |fm| * (end - start)
    ensures |SumBits(seedP, fp, start, end)| == seedP + |fp| * (end - start)
    ensures |SumBits(seedM, fm, start, end)| == seedM + |fm| * (end - start)
    ensures Eval(EqualBits(SumBits(seedP, fp, start, end), SumBits(seedM, fm, start, end), w), a)
        <==> (seedP + Tally(fp, start, end, a) - (seedM + Tally(fm, start, end, a))) % Pow2(w) == 0
  {
    var p, m := SumBits(seedP, fp, start, end), SumBits(seedM, fm, start, end);
    SumBitsCounts(seedP, fp, start, end, a);
    SumBitsCounts(seedM, fm, start, end, a);
    var cp, cm := seedP + Tally(fp, start, end, a), seedM + Tally(fm, start, end, a);
    assert Weight(p, a) == cp && Weight(m, a) == cm;
    EqualBitsMeaning(p, m, w, a);
    ModDifference(cp, cm, Pow2(w));
  }

  /** The hit count of one predicate family never exceeds one per predicate and step. */
  lemma {:induction false} TallyBound(fs: seq<nat -> Expr>, start: nat, end: nat, a: Assignment)
    requires start <= end
    ensures Tally(fs, start, end, a) <= |fs| * (end - start)
  {
    TermsCount(fs, start, end, a);
  }

  /**
   * When the per-step hit counts of P minus those of M are one component of the move,
   * the tallies over a stretch differ by that component of the displacement.
   */
  lemma {:induction false} TallyDisplacement(fp: seq<nat -> Expr>, fm: seq<nat -> Expr>, start: nat, end: nat,
                                            a: Assignment, move: nat -> Vec, axis: Axis)
    requires start <= end
    requires forall t :: start <= t < end ==> Count(Row(fp, t), a) - Count(Row(fm, t), a) == Component(move(t), axis)
    ensures Tally(fp, start, end, a) - Tally(fm, start, end, a) == Component(Disp(move, start, end), axis)
    decreases end
  {
    if end > start {
      TallyDisplacement(fp, fm, start, end - 1, a, move, axis);
    }
  }

  // ---------------------------------------------------------------- per-bit flags of the overlap test

  /** One bit of the overlap test: the Xnors of every compared axis, chained with And. */
  function BitFlag(pairs: seq<(seq<Expr>, seq<Expr>)>, bit: nat): Expr
    requires forall k :: 0 <= k < |pairs| ==> bit < |pairs[k].0| && bit < |pairs[k].1|
  {
    AllOf(seq(|pairs|, k requires 0 <= k < |pairs| => Xnor(pairs[k].0[bit], pairs[k].1[bit])))
  }

  predicate Wide(pairs: seq<(seq<Expr>, seq<Expr>)>, w: nat)
  {
    forall k :: 0 <= k < |pairs| ==> w <= |pairs[k].0| && w <= |pairs[k].1|
  }

  /** The flags of bits 0 .. w - 1. */
  function BitFlags(pairs: seq<(seq<Expr>, seq<Expr>)>, w: nat): (r: seq<Expr>)
    requires Wide(pairs, w)
    ensures |r| == w
  {
    seq(w, bit requires 0 <= bit < w => BitFlag(pairs, bit))
  }

  lemma {:induction false} BitFlagMeaning(pairs: seq<(seq<Expr>, seq<Expr>)>, bit: nat, a: Assignment)
    requires forall k :: 0 <= k < |pairs| ==> bit < |pairs[k].0| && bit < |pairs[k].1|
    ensures Eval(BitFlag(pairs, bit), a)
        <==> forall k :: 0 <= k < |pairs| ==> Eval(pairs[k].0[bit], a) == Eval(pairs[k].1[bit], a)
  {
    var xs := seq(|pairs|, k requires 0 <= k < |pairs| => Xnor(pairs[k].0[bit], pairs[k].1[bit]));
    AllOfMeaning(xs, a);
    assert forall k :: 0 <= k < |pairs| ==> (Eval(xs[k], a) <==> Eval(pairs[k].0[bit], a) == Eval(pairs[k].1[bit], a));
  }

  /** All flags of a segment hold exactly when every compared pair agrees modulo 2^w. */
  lemma {:induction false} BitFlagsMeaning(pairs: seq<(seq<Expr>, seq<Expr>)>, w: nat, a: Assignment)
    requires Wide(pairs, w)
    ensures (forall i :: 0 <= i < w ==> Eval(BitFlags(pairs, w)[i], a))
        <==> forall k :: 0 <= k < |pairs| ==> Weight(pairs[k].0, a) % Pow2(w) == Weight(pairs[k].1, a) % Pow2(w)
  {
    var flags := BitFlags(pairs, w);
    forall k | 0 <= k < |pairs|
      ensures (forall i :: 0 <= i < w ==> Eval(pairs[k].0[i], a) == Eval(pairs[k].1[i], a))
          <==> Weight(pairs[k].0, a) % Pow2(w) == Weight(pairs[k].1, a) % Pow2(w)
    {
      LowBitsAgree(pairs[k].0, pairs[k].1, w, a);
    }
    if forall i :: 0 <= i < w ==> Eval(flags[i], a) {
      forall k, i | 0 <= k < |pairs| && 0 <= i < w
        ensures Eval(pairs[k].0[i], a) == Eval(pairs[k].1[i], a)
      {
        assert Eval(flags[i], a);
        BitFlagMeaning(pairs, i, a);
      }
    }
    if forall k :: 0 <= k < |pairs| ==> Weight(pairs[k].0, a) % Pow2(w) == Weight(pairs[k].1, a) % Pow2(w) {
      forall i | 0 <= i < w
        ensures Eval(flags[i], a)
      {
        BitFlagMeaning(pairs, i, a);
      }
    }
  }

  // ---------------------------------------------------------------- the loop over residue pairs

  /** The running Or after `for amino2 in range(lo, hi): acc = Or(acc, flag(a1, amino2))`. */
  function OrRow(flag: (nat, nat) -> Expr, acc: Expr, a1: nat, lo: nat, hi: nat): Expr
    decreases hi
  {
    if hi <= lo then acc else Or(OrRow(flag, acc, a1, lo, hi - 1), flag(a1, hi - 1))
  }

  /**
   * The running Or, seeded with 0, after the first k turns of
   * `for amino1: for amino2 in range(amino1 + minSep, n)`.
   */
  function OrRows(flag: (nat, nat) -> Expr, n: nat, minSep: nat, k: nat): Expr
  {
    if k == 0 then Num(false) else OrRow(flag, OrRows(flag, n, minSep, k - 1), k - 1, k - 1 + minSep, n)
  }

  /** The Or over all pairs at least minSep apart. */
  function OrPairs(flag: (nat, nat) -> Expr, n: nat, minSep: nat): Expr
  {
    OrRows(flag, n, minSep, n)
  }

  lemma {:induction false} OrRowMeaning(flag: (nat, nat) -> Expr, acc: Expr, a1: nat, lo: nat, hi: nat, a: Assignment)
    ensures Eval(OrRow(flag, acc, a1, lo, hi), a)
        <==> Eval(acc, a) || exists a2: nat :: lo <= a2 < hi && Eval(flag(a1, a2), a)
    decreases hi
  {
    if hi > lo {
      OrRowMeaning(flag, acc, a1, lo, hi - 1, a);
      if exists a2: nat :: lo <= a2 < hi && Eval(flag(a1, a2), a) {
        var a2: nat :| lo <= a2 < hi && Eval(flag(a1, a2), a);
        assert a2 < hi - 1 || a2 == hi - 1;
      }
    }
  }

  lemma {:induction false} OrRowsMeaning(flag: (nat, nat) -> Expr, n: nat, minSep: nat, k: nat, a: Assignment)
    ensures Eval(OrRows(flag, n, minSep, k), a)
        <==> exists a1: nat, a2: nat :: a1 < k && a1 + minSep <= a2 < n && Eval(flag(a1, a2), a)
  {
    if k > 0 {
      var earlier := OrRows(flag, n, minSep, k - 1);
      OrRowsMeaning(flag, n, minSep, k - 1, a);
      OrRowMeaning(flag, earlier, k - 1, k - 1 + minSep, n, a);
      if exists a1: nat, a2: nat :: a1 < k && a1 + minSep <= a2 < n && Eval(flag(a1, a2), a) {
        var a1: nat, a2: nat :| a1 < k && a1 + minSep <= a2 < n && Eval(flag(a1, a2), a);
        if a1 < k - 1 {
          assert Eval(earlier, a);
        } else {
          assert k - 1 + minSep <= a2 < n && Eval(flag(k - 1, a2), a);
        }
      }
    }
  }

  /** The Or over pairs holds exactly when the flag of some pair at least minSep apart holds. */
  lemma OrPairsMeaning(flag: (nat, nat) -> Expr, n: nat, minSep: nat, a: Assignment)
    ensures Eval(OrPairs(flag, n, minSep), a)
        <==> exists a1: nat, a2: nat :: a1 + minSep <= a2 < n && Eval(flag(a1, a2), a)
  {
    OrRowsMeaning(flag, n, minSep, n, a);
  }

  /**
   * When each pair's flag tells whether the two residues share a site, the Or over pairs
   * tells whether the fold leaves some pair minSep or more apart on one site.
   */
  lemma OrPairsFindsMeeting(flag: (nat, nat) -> Expr, n: nat, minSep: nat, a: Assignment, move: nat -> Vec)
    requires forall a1: nat, a2: nat :: a1 + minSep <= a2 < n ==>
      (Eval(flag(a1, a2), a) <==> Position(move, a1) == Position(move, a2))
    ensures Eval(OrPairs(flag, n, minSep), a) <==> !ApartFrom(move, n, minSep)
  {
    OrPairsMeaning(flag, n, minSep, a);
  }

  /**
   * The double loop of `create_overlap_constraint`:
   * `acc = Num(0); for amino1: for amino2 from amino1 + minSep: acc = Or(acc, flag)`.
   */
  method OrOverPairs(flag: (nat, nat) -> Expr, n: nat, minSep: nat) returns (acc: Expr)
    ensures acc == OrPairs(flag, n, minSep)
  {
    acc := Num(false);
    var a1 := 0;
    while a1 < n
      invariant a1 <= n
      invariant acc == OrRows(flag, n, minSep, a1)
    {
      ghost var before := acc;
      var a2 := a1 + minSep;
      while a2 < n
        invariant a1 + minSep <= a2
        invariant a2 <= n || a2 == a1 + minSep
        invariant acc == OrRow(flag, before, a1, a1 + minSep, a2)
      {
        acc := Or(acc, flag(a1, a2));
        a2 := a2 + 1;
      }
      assert acc == OrRow(flag, before, a1, a1 + minSep, n);
      a1 := a1 + 1;
    }
  }

  // ---------------------------------------------------------------- the loop over turns

  /** The running Or after `for c in cs[..j]: acc = Or(acc, c)`. */
  function OrClauses(acc: Expr, cs: seq<Expr>, j: nat): Expr
    requires j <= |cs|
  {
    if j == 0 then acc else Or(OrClauses(acc, cs, j - 1), cs[j - 1])
  }

  /** The running Or, seeded with 0, over every clause of turns 0 .. k - 1, turn by turn. */
  function OrSteps(clauses: nat -> seq<Expr>, k: nat): Expr
  {
    if k == 0 then Num(false) else OrClauses(OrSteps(clauses, k - 1), clauses(k - 1), |clauses(k - 1)|)
  }

  lemma {:induction false} OrClausesMeaning(acc: Expr, cs: seq<Expr>, j: nat, a: Assignment)
    requires j <= |cs|
    ensures Eval(OrClauses(acc, cs, j), a) <==> Eval(acc, a) || exists i :: 0 <= i < j && Eval(cs[i], a)
  {
    if j > 0 {
      OrClausesMeaning(acc, cs, j - 1, a);
    }
  }

  /** The Or over turns holds exactly when some clause of some turn below k holds. */
  lemma {:induction false} OrStepsMeaning(clauses: nat -> seq<Expr>, k: nat, a: Assignment)
    ensures Eval(OrSteps(clauses, k), a)
        <==> exists t: nat, j :: t < k && 0 <= j < |clauses(t)| && Eval(clauses(t)[j], a)
  {
    if k > 0 {
      var earlier := OrSteps(clauses, k - 1);
      OrStepsMeaning(clauses, k - 1, a);
      OrClausesMeaning(earlier, clauses(k - 1), |clauses(k - 1)|, a);
      if exists t: nat, j :: t < k && 0 <= j < |clauses(t)| && Eval(clauses(t)[j], a) {
        var t: nat, j :| t < k && 0 <= j < |clauses(t)| && Eval(clauses(t)[j], a);
        if t < k - 1 {
          assert Eval(earlier, a);
        }
      }
    }
  }

  /**
   * The loop of `create_back_constraint` and `create_redundancy_constraint`:
   * for each turn in range(k), `acc = Or(acc, clause)` for each of the turn's clauses.
   */
  method OrOverSteps(clauses: nat -> seq<Expr>, k: int) returns (acc: Expr)
    ensures acc == OrSteps(clauses, if k < 0 then 0 else k)
  {
    acc := Num(false);
    var t := 0;
    while t < k
      invariant 0 <= t && (t <= k || t == 0)
      invariant acc == OrSteps(clauses, t)
    {
      ghost var before := acc;
      var cs := clauses(t);
      var j := 0;
      while j < |cs|
        invariant j <= |cs|
        invariant acc == OrClauses(before, cs, j)
      {
        acc := Or(acc, cs[j]);
        j := j + 1;
      }
      t := t + 1;
    }
  }

  // ---------------------------------------------------------------- interaction terms

  /** An n by n energy matrix. */
  predicate IsSquare(matrix: seq<seq<int>>, n: nat)
  {
    |matrix| == n && forall i :: 0 <= i < n ==> |matrix[i]| == n
  }

  /** `energy_matrix[a1][a2]`, and 0 for a pair outside the matrix. */
  function Energy(matrix: seq<seq<int>>, a1: nat, a2: nat): int
  {
    if a1 < |matrix| && a2 < |matrix[a1]| then matrix[a1][a2] else 0
  }

  /** `acc` followed by the pairs (a1, a2), a2 in lo .. hi - 1, whose energy is non-zero. */
  function ContactRow(matrix: seq<seq<int>>, acc: seq<(nat, nat)>, a1: nat, lo: nat, hi: nat): seq<(nat, nat)>
    decreases hi
  {
    if hi <= lo then acc
    else ContactRow(matrix, acc, a1, lo, hi - 1) + (if Energy(matrix, a1, hi - 1) != 0 then [(a1, hi - 1)] else [])
  }

  /** The pairs with a non-zero energy among the first k turns of the pair loop, in loop order. */
  function ContactRows(matrix: seq<seq<int>>, n: nat, minSep: nat, k: nat): seq<(nat, nat)>
  {
    if k == 0 then [] else ContactRow(matrix, ContactRows(matrix, n, minSep, k - 1), k - 1, k - 1 + minSep, n)
  }

  /** The residue pairs that receive an interaction term, in loop order. */
  function Contacts(matrix: seq<seq<int>>, n: nat, minSep: nat): seq<(nat, nat)>
  {
    ContactRows(matrix, n, minSep, n)
  }

  lemma {:induction false} ContactRowMembership(matrix: seq<seq<int>>, acc: seq<(nat, nat)>, a1: nat, lo: nat, hi: nat, p: (nat, nat))
    ensures p in ContactRow(matrix, acc, a1, lo, hi)
        <==> p in acc || (p.0 == a1 && lo <= p.1 < hi && Energy(matrix, a1, p.1) != 0)
    decreases hi
  {
    if hi > lo {
      ContactRowMembership(matrix, acc, a1, lo, hi - 1, p);
    }
  }

  lemma {:induction false} ContactRowsMembership(matrix: seq<seq<int>>, n: nat, minSep: nat, k: nat, p: (nat, nat))
    ensures p in ContactRows(matrix, n, minSep, k)
        <==> p.0 < k && p.0 + minSep <= p.1 < n && Energy(matrix, p.0, p.1) != 0
  {
    if k > 0 {
      ContactRowsMembership(matrix, n, minSep, k - 1, p);
      ContactRowMembership(matrix, ContactRows(matrix, n, minSep, k - 1), k - 1, k - 1 + minSep, n, p);
    }
  }

  /** A pair gets an interaction term exactly when it is at least minSep apart and its energy is non-zero. */
  lemma ContactsMembership(matrix: seq<seq<int>>, n: nat, minSep: nat, p: (nat, nat))
    requires IsSquare(matrix, n)
    ensures p in Contacts(matrix, n, minSep) <==> p.0 + minSep <= p.1 < n && matrix[p.0][p.1] != 0
  {
    ContactRowsMembership(matrix, n, minSep, n, p);
  }

  /** The adjacency indicator of each listed pair. */
  function IndicatorsOf<T>(adjacency: (nat, nat) -> T, ps: seq<(nat, nat)>): (r: seq<T>)
    ensures |r| == |ps|
  {
    if ps == [] then [] else IndicatorsOf(adjacency, ps[..|ps| - 1]) + [adjacency(ps[|ps| - 1].0, ps[|ps| - 1].1)]
  }

  /** The energy of each listed pair. */
  function EnergiesOf(matrix: seq<seq<int>>, ps: seq<(nat, nat)>): (r: seq<int>)
    ensures |r| == |ps|
  {
    if ps == [] then [] else EnergiesOf(matrix, ps[..|ps| - 1]) + [Energy(matrix, ps[|ps| - 1].0, ps[|ps| - 1].1)]
  }

  lemma {:induction false} IndicatorsOfIndex<T>(adjacency: (nat, nat) -> T, ps: seq<(nat, nat)>, i: nat)
    requires i < |ps|
    ensures IndicatorsOf(adjacency, ps)[i] == adjacency(ps[i].0, ps[i].1)
  {
    if i < |ps| - 1 {
      IndicatorsOfIndex(adjacency, ps[..|ps| - 1], i);
    }
  }

  lemma {:induction false} EnergiesOfIndex(matrix: seq<seq<int>>, ps: seq<(nat, nat)>, i: nat)
    requires i < |ps|
    ensures EnergiesOf(matrix, ps)[i] == Energy(matrix, ps[i].0, ps[i].1)
  {
    if i < |ps| - 1 {
      EnergiesOfIndex(matrix, ps[..|ps| - 1], i);
    }
  }

  /**
   * Term i is the adjacency indicator of contact i, and energy i is that pair's matrix entry,
   * which is never 0.
   */
  lemma InteractionsAligned<T>(adjacency: (nat, nat) -> T, matrix: seq<seq<int>>, n: nat, minSep: nat, i: nat)
    requires IsSquare(matrix, n) && i < |Contacts(matrix, n, minSep)|
    ensures var p := Contacts(matrix, n, minSep)[i];
      p.0 + minSep <= p.1 < n
      && IndicatorsOf(adjacency, Contacts(matrix, n, minSep))[i] == adjacency(p.0, p.1)
      && EnergiesOf(matrix, Contacts(matrix, n, minSep))[i] == matrix[p.0][p.1] != 0
  {
    var cs := Contacts(matrix, n, minSep);
    ContactsMembership(matrix, n, minSep, cs[i]);
    IndicatorsOfIndex(adjacency, cs, i);
    EnergiesOfIndex(matrix, cs, i);
  }

  /** Appending a pair appends its term and its energy. */
  lemma AppendContact<T>(adjacency: (nat, nat) -> T, matrix: seq<seq<int>>, cs: seq<(nat, nat)>, p: (nat, nat))
    ensures IndicatorsOf(adjacency, cs + [p]) == IndicatorsOf(adjacency, cs) + [adjacency(p.0, p.1)]
    ensures EnergiesOf(matrix, cs + [p]) == EnergiesOf(matrix, cs) + [Energy(matrix, p.0, p.1)]
  {
    assert (cs + [p])[..|cs|] == cs;
  }

  /**
   * `create_interactions`: for every pair at least minSep apart with a non-zero energy,
   * in loop order, the adjacency indicator of the pair and its energy, in two aligned lists.
   */
  method CreateInteractions<T>(adjacency: (nat, nat) -> T, matrix: seq<seq<int>>, n: nat, minSep: nat)
    returns (interactions: seq<T>, energies: seq<int>)
    requires IsSquare(matrix, n)
    ensures interactions == IndicatorsOf(adjacency, Contacts(matrix, n, minSep))
    ensures energies == EnergiesOf(matrix, Contacts(matrix, n, minSep))
  {
    interactions, energies := [], [];
    ghost var contacts: seq<(nat, nat)> := [];
    var a1 := 0;
    while a1 < n
      invariant a1 <= n
      invariant contacts == ContactRows(matrix, n, minSep, a1)
      invariant interactions == IndicatorsOf(adjacency, contacts)
      invariant energies == EnergiesOf(matrix, contacts)
    {
      interactions, energies, contacts := ScanRow(adjacency, matrix, n, minSep, a1, interactions, energies, contacts);
      a1 := a1 + 1;
    }
  }

  /** One turn of the outer loop: the pairs (a1, a1 + minSep) .. (a1, n - 1) with a non-zero energy. */
  method ScanRow<T>(adjacency: (nat, nat) -> T, matrix: seq<seq<int>>, n: nat, minSep: nat, a1: nat,
                    interactions0: seq<T>, energies0: seq<int>, ghost contacts0: seq<(nat, nat)>)
    returns (interactions: seq<T>, energies: seq<int>, ghost contacts: seq<(nat, nat)>)
    requires IsSquare(matrix, n) && a1 < n
    requires interactions0 == IndicatorsOf(adjacency, contacts0) && energies0 == EnergiesOf(matrix, contacts0)
    ensures contacts == ContactRow(matrix, contacts0, a1, a1 + minSep, n)
    ensures interactions == IndicatorsOf(adjacency, contacts) && energies == EnergiesOf(matrix, contacts)
  {
    interactions, energies, contacts := interactions0, energies0, contacts0;
    var a2: nat := a1 + minSep;
    while a2 < n
      invariant a1 + minSep <= a2
      invariant a2 <= n || a2 == a1 + minSep
      invariant contacts == ContactRow(matrix, contacts0, a1, a1 + minSep, a2)
      invariant interactions == IndicatorsOf(adjacency, contacts)
      invariant energies == EnergiesOf(matrix, contacts)
    {
      var energyValue := matrix[a1][a2];
      RowGrows(matrix, contacts0, a1, a1 + minSep, a2, n);
      if energyValue != 0 {
        AppendContact(adjacency, matrix, contacts, (a1, a2));
        interactions := interactions + [adjacency(a1, a2)];
        energies := energies + [energyValue];
        contacts := contacts + [(a1, a2)];
      }
      a2 := a2 + 1;
    }
  }

  /** One more turn of the inner loop appends the pair exactly when its energy is non-zero. */
  lemma RowGrows(matrix: seq<seq<int>>, acc: seq<(nat, nat)>, a1: nat, lo: nat, a2: nat, n: nat)
    requires IsSquare(matrix, n) && a1 < n && lo <= a2 < n
    ensures matrix[a1][a2] != 0 ==> ContactRow(matrix, acc, a1, lo, a2 + 1) == ContactRow(matrix, acc, a1, lo, a2) + [(a1, a2)]
    ensures matrix[a1][a2] == 0 ==> ContactRow(matrix, acc, a1, lo, a2 + 1) == ContactRow(matrix, acc, a1, lo, a2)
  {
    assert Energy(matrix, a1, a2) == matrix[a1][a2];
    assert ContactRow(matrix, acc, a1, lo, a2) + [] == ContactRow(matrix, acc, a1, lo, a2);
  }
}
