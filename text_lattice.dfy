/**
 * What the text builders of the three-axis lattices (HCOMB6.py, HCOMB12.py) share: the six
 * direction sums of a residue pair, the overlap string (three xnor terms for each compared bit
 * of every pair far enough apart), the nine accumulators of `adjacency_indicator` and the cases
 * it multiplies them into, and the interaction lines.
 */
module TextLattice {
  import opened Numeric
  import opened Geometry
  import opened Adder
  import opened TextForm
  import opened TextBitOps
  import Assembly

  /** The six direction predicates of a lattice file, each rendering its test of step t as text. */
  datatype Predicates = Predicates(xPlus: nat -> string, xMinus: nat -> string, yPlus: nat -> string,
                                   yMinus: nat -> string, zPlus: nat -> string, zMinus: nat -> string)

  /** The six direction sums of one pair (`dx_plus_sum` .. `dz_minus_sum`), low bit first. */
  datatype Sums = Sums(xPlus: seq<string>, xMinus: seq<string>, yPlus: seq<string>,
                       yMinus: seq<string>, zPlus: seq<string>, zMinus: seq<string>)

  /** Every sum holds at least k bits. */
  predicate Fits(s: Sums, k: nat)
  {
    |s.xPlus| >= k && |s.xMinus| >= k && |s.yPlus| >= k && |s.yMinus| >= k && |s.zPlus| >= k && |s.zMinus| >= k
  }

  /** `sum_of_directions(name, a1, a2)`: the adder over the predicate texts of steps a1 .. a2 - 1. */
  function DirectionSum(f: nat -> string, a1: nat, a2: nat): (r: seq<string>)
    requires a1 < a2
    ensures |r| == a2 - a1
  {
    Loader(Window(f, a1, a2), CarryHalfAdder, SumHalfAdder)
  }

  /** `sum_of_directions_plus_one(name, a1, a2)`, with the helper's one-step shift. */
  function DirectionSumPlusOne(f: nat -> string, a1: nat, a2: nat): (r: seq<string>)
    requires a1 < a2
    ensures |r| == a2 - a1 + 1
  {
    Loader(PlusOneBits(f, a1, a2), CarryHalfAdder, SumHalfAdder)
  }

  function SumsOf(p: Predicates, a1: nat, a2: nat): (s: Sums)
    requires a1 < a2
    ensures Fits(s, a2 - a1)
  {
    Sums(DirectionSum(p.xPlus, a1, a2), DirectionSum(p.xMinus, a1, a2), DirectionSum(p.yPlus, a1, a2),
         DirectionSum(p.yMinus, a1, a2), DirectionSum(p.zPlus, a1, a2), DirectionSum(p.zMinus, a1, a2))
  }

  function SumsPlusOneOf(p: Predicates, a1: nat, a2: nat): (s: Sums)
    requires a1 < a2
    ensures Fits(s, a2 - a1 + 1)
  {
    Sums(DirectionSumPlusOne(p.xPlus, a1, a2), DirectionSumPlusOne(p.xMinus, a1, a2),
         DirectionSumPlusOne(p.yPlus, a1, a2), DirectionSumPlusOne(p.yMinus, a1, a2),
         DirectionSumPlusOne(p.zPlus, a1, a2), DirectionSumPlusOne(p.zMinus, a1, a2))
  }

  /** The six `sum_of_directions` calls of a pair, each dispatched to its predicate. */
  method DirectionSums(p: Predicates, a1: nat, a2: nat) returns (s: Sums)
    requires a1 < a2
    ensures s == SumsOf(p, a1, a2)
  {
    var xp := SumOfDirectionsHelper(p.xPlus, a1, a2);
    var xm := SumOfDirectionsHelper(p.xMinus, a1, a2);
    var yp := SumOfDirectionsHelper(p.yPlus, a1, a2);
    var ym := SumOfDirectionsHelper(p.yMinus, a1, a2);
    var zp := SumOfDirectionsHelper(p.zPlus, a1, a2);
    var zm := SumOfDirectionsHelper(p.zMinus, a1, a2);
    s := Sums(xp.value, xm.value, yp.value, ym.value, zp.value, zm.value);
  }

  /** The six `sum_of_directions_plus_one` calls of a pair. */
  method DirectionSumsPlusOne(p: Predicates, a1: nat, a2: nat) returns (s: Sums)
    requires a1 < a2
    ensures s == SumsPlusOneOf(p, a1, a2)
  {
    var xp := SumOfDirectionsPlusOneHelper(p.xPlus, a1, a2);
    var xm := SumOfDirectionsPlusOneHelper(p.xMinus, a1, a2);
    var yp := SumOfDirectionsPlusOneHelper(p.yPlus, a1, a2);
    var ym := SumOfDirectionsPlusOneHelper(p.yMinus, a1, a2);
    var zp := SumOfDirectionsPlusOneHelper(p.zPlus, a1, a2);
    var zm := SumOfDirectionsPlusOneHelper(p.zMinus, a1, a2);
    s := Sums(xp.value, xm.value, yp.value, ym.value, zp.value, zm.value);
  }

  /** `range(math.ceil(math.log2(amino2 - amino1)))`: the bits compared, fewer than the sums hold. */
  function Width(a1: nat, a2: nat): (w: nat)
    requires a1 < a2
    ensures w < a2 - a1
  {
    CeilLog2Below(a2 - a1);
    CeilLog2(a2 - a1)
  }

  /** A pair three or more steps apart compares at least two bits. */
  lemma WidthAtLeastTwo(a1: nat, a2: nat)
    requires a1 + 3 <= a2
    ensures Width(a1, a2) >= 2
  {
    SmallLogs();
    CeilLog2Monotone(3, a2 - a1);
  }

  // ---------------------------------------------------------------- overlap

  /** Bit i of a sum ("" past its end, where the loops never look). */
  function At(u: seq<string>, i: nat): string
  {
    if i < |u| then u[i] else ""
  }

  /** The three terms one bit adds: the x, y and z plus and minus sums compared at that bit. */
  function BitTerms(s: Sums, bit: nat): (r: seq<string>)
    ensures |r| == 3
  {
    [XnorText(At(s.xPlus, bit), At(s.xMinus, bit)), XnorText(At(s.yPlus, bit), At(s.yMinus, bit)),
     XnorText(At(s.zPlus, bit), At(s.zMinus, bit))]
  }

  /** The terms of bit i, as one value. */
  function BitsOf(s: Sums): nat -> seq<string>
  {
    (i: nat) => BitTerms(s, i)
  }

  /** The terms of bits 0 .. k - 1, in loop order. */
  function PairTerms(s: Sums, k: nat): seq<string>
  {
    Chunks(BitsOf(s), k)
  }

  /** The terms `create_overlap_constraint` adds for the pair (a1, a2). */
  function PairOverlap(p: Predicates, a1: nat, a2: nat): seq<string>
    requires a1 < a2
  {
    PairTerms(SumsOf(p, a1, a2), Width(a1, a2))
  }

  /** The sums of every pair, as one value (no sums for a pair the loops never form). */
  function SumsFn(p: Predicates): (nat, nat) -> Sums
  {
    (a1: nat, a2: nat) => if a1 < a2 then SumsOf(p, a1, a2) else Sums([], [], [], [], [], [])
  }

  /**
   * sums gives the sums of p for every pair; stated on `SumsOf` terms, so that the loops can
   * speak of sums(a1, a2) without expanding the adders behind it.
   */
  ghost predicate SumsAgree(p: Predicates, sums: (nat, nat) -> Sums)
  {
    forall a1: nat, a2: nat {:trigger SumsOf(p, a1, a2)} :: a1 < a2 ==> SumsOf(p, a1, a2) == sums(a1, a2)
  }

  lemma SumsFnAgrees(p: Predicates)
    ensures SumsAgree(p, SumsFn(p))
  {
  }

  /** The pair terms as the loops see them, nothing for a pair the loops skip. */
  function PairOverlaps(sums: (nat, nat) -> Sums): (nat, nat) -> seq<string>
  {
    (a1: nat, a2: nat) =>
      if a1 < a2 then PairTerms(sums(a1, a2), Width(a1, a2)) else []
  }

  /** For a pair the loops form, the pair terms are those of its own sums. */
  lemma PairOverlapsMeaning(p: Predicates, a1: nat, a2: nat)
    requires a1 < a2
    ensures PairOverlaps(SumsFn(p))(a1, a2) == PairOverlap(p, a1, a2)
  {
    assert SumsFn(p)(a1, a2) == SumsOf(p, a1, a2);
  }

  /** acc followed by f of the pairs (a1, a2), a2 in lo .. hi - 1. */
  function Row<T>(f: (nat, nat) -> seq<T>, acc: seq<T>, a1: nat, lo: nat, hi: nat): seq<T>
    decreases hi
  {
    if hi <= lo then acc else Row(f, acc, a1, lo, hi - 1) + f(a1, hi - 1)
  }

  /** f of the pairs of the first k turns of `for amino1: for amino2 >= amino1 + minSep`. */
  function Rows<T>(f: (nat, nat) -> seq<T>, n: nat, minSep: nat, k: nat): seq<T>
  {
    if k == 0 then [] else Row(f, Rows(f, n, minSep, k - 1), k - 1, k - 1 + minSep, n)
  }

  lemma RowNext<T>(f: (nat, nat) -> seq<T>, acc: seq<T>, a1: nat, lo: nat, hi: nat)
    requires lo <= hi
    ensures Row(f, acc, a1, lo, hi + 1) == Row(f, acc, a1, lo, hi) + f(a1, hi)
  {
  }

  lemma RowBelow<T>(f: (nat, nat) -> seq<T>, acc: seq<T>, a1: nat, lo: nat, hi: nat)
    requires hi < lo
    ensures Row(f, acc, a1, lo, hi + 1) == Row(f, acc, a1, lo, hi)
  {
  }

  lemma RowsNext<T>(f: (nat, nat) -> seq<T>, n: nat, minSep: nat, k: nat)
    ensures Rows(f, n, minSep, k + 1) == Row(f, Rows(f, n, minSep, k), k, k + minSep, n)
  {
  }

  /** Every term of the overlap string, in the order the loops emit them. */
  function OverlapTerms(p: Predicates, n: nat, minSep: nat): seq<string>
  {
    Rows(PairOverlaps(SumsFn(p)), n, minSep, n)
  }

  /** Bit b of a pair contributes its three terms at positions 3b, 3b + 1 and 3b + 2. */
  lemma PairTermsAt(s: Sums, k: nat, b: nat)
    requires b < k
    ensures |PairTerms(s, k)| == 3 * k
    ensures PairTerms(s, k)[3 * b .. 3 * b + 3] == BitTerms(s, b)
  {
    ChunksAt(BitsOf(s), 3, k, b);
  }

  /** The terms of each pair of a row follow the earlier ones without a gap. */
  lemma {:induction false} RowHolds<T>(f: (nat, nat) -> seq<T>, acc: seq<T>, a1: nat, lo: nat, hi: nat, a2: nat)
    returns (u: seq<T>, v: seq<T>)
    requires lo <= a2 < hi
    ensures Row(f, acc, a1, lo, hi) == u + f(a1, a2) + v
    decreases hi
  {
    if a2 == hi - 1 {
      u, v := Row(f, acc, a1, lo, hi - 1), [];
    } else {
      var u', v' := RowHolds(f, acc, a1, lo, hi - 1, a2);
      u, v := u', v' + f(a1, hi - 1);
    }
  }

  /** A row keeps what came before it at its front. */
  lemma {:induction false} RowExtends<T>(f: (nat, nat) -> seq<T>, acc: seq<T>, a1: nat, lo: nat, hi: nat)
    returns (v: seq<T>)
    ensures Row(f, acc, a1, lo, hi) == acc + v
    decreases hi
  {
    if hi <= lo {
      v := [];
    } else {
      var v' := RowExtends(f, acc, a1, lo, hi - 1);
      v := v' + f(a1, hi - 1);
    }
  }

  lemma {:induction false} RowsHold<T>(f: (nat, nat) -> seq<T>, n: nat, minSep: nat, k: nat, a1: nat, a2: nat)
    returns (u: seq<T>, v: seq<T>)
    requires a1 < k && a1 + minSep <= a2 < n
    ensures Rows(f, n, minSep, k) == u + f(a1, a2) + v
    decreases k
  {
    var before := Rows(f, n, minSep, k - 1);
    assert Rows(f, n, minSep, k) == Row(f, before, k - 1, k - 1 + minSep, n);
    if a1 == k - 1 {
      u, v := RowHolds(f, before, a1, a1 + minSep, n, a2);
    } else {
      var u', v' := RowsHold(f, n, minSep, k - 1, a1, a2);
      var w := RowExtends(f, before, k - 1, k - 1 + minSep, n);
      u, v := u', v' + w;
    }
  }

  /**
   * Every pair at least minSep apart has its 3 * Width compare terms in the overlap string,
   * side by side.
   */
  lemma OverlapCoversPair(p: Predicates, n: nat, minSep: nat, a1: nat, a2: nat) returns (u: seq<string>, v: seq<string>)
    requires minSep >= 1 && a1 + minSep <= a2 < n
    ensures OverlapTerms(p, n, minSep) == u + PairOverlap(p, a1, a2) + v
  {
    u, v := RowsHold(PairOverlaps(SumsFn(p)), n, minSep, n, a1, a2);
    PairOverlapsMeaning(p, a1, a2);
  }

  lemma {:induction false} RowFrom<T>(f: (nat, nat) -> seq<T>, acc: seq<T>, a1: nat, lo: nat, hi: nat, t: T)
    requires t in Row(f, acc, a1, lo, hi)
    ensures t in acc || exists a2 :: lo <= a2 < hi && t in f(a1, a2)
    decreases hi
  {
    if hi > lo && t !in f(a1, hi - 1) {
      RowFrom(f, acc, a1, lo, hi - 1, t);
    }
  }

  lemma {:induction false} RowsFrom<T>(f: (nat, nat) -> seq<T>, n: nat, minSep: nat, k: nat, t: T)
    requires t in Rows(f, n, minSep, k)
    ensures exists a1: nat, a2: nat :: a1 < k && a1 + minSep <= a2 < n && t in f(a1, a2)
    decreases k
  {
    var before := Rows(f, n, minSep, k - 1);
    RowFrom(f, before, k - 1, k - 1 + minSep, n, t);
    if t in before {
      RowsFrom(f, n, minSep, k - 1, t);
    }
  }

  /** And every term of the overlap string compares a pair at least minSep apart. */
  lemma OverlapOnlyPairs(p: Predicates, n: nat, minSep: nat, t: string)
    requires minSep >= 1 && t in OverlapTerms(p, n, minSep)
    ensures exists a1: nat, a2: nat :: a1 + minSep <= a2 < n && t in PairOverlap(p, a1, a2)
  {
    RowsFrom(PairOverlaps(SumsFn(p)), n, minSep, n, t);
    var a1: nat, a2: nat :| a1 < n && a1 + minSep <= a2 < n && t in PairOverlaps(SumsFn(p))(a1, a2);
    PairOverlapsMeaning(p, a1, a2);
  }

  /** With no pair minSep apart the loops emit nothing. */
  lemma {:induction false} RowsEmpty<T>(f: (nat, nat) -> seq<T>, n: nat, minSep: nat, k: nat)
    requires n <= minSep
    ensures Rows(f, n, minSep, k) == []
    decreases k
  {
    if k > 0 {
      RowsEmpty(f, n, minSep, k - 1);
    }
  }

  /**
   * `create_overlap_constraint`: every term followed by " + ", the last three characters cut
   * off, which is the terms joined by " + " ("" when no pair is far enough apart).
   */
  method CreateOverlapConstraint(p: Predicates, n: nat, minSep: nat) returns (text: string)
    requires minSep >= 1
    ensures text == Join(OverlapTerms(p, n, minSep), " + ")
  {
    SumsFnAgrees(p);
    text := OverlapLoops(p, SumsFn(p), n, minSep);
  }

  /** The two loops of `create_overlap_constraint`, the sums of each pair named by sums. */
  method OverlapLoops(p: Predicates, ghost sums: (nat, nat) -> Sums, n: nat, minSep: nat) returns (text: string)
    requires minSep >= 1 && SumsAgree(p, sums)
    ensures text == Join(Rows(PairOverlaps(sums), n, minSep, n), " + ")
  {
    var overlap := "";
    ghost var terms: seq<string> := [];
    var a1 := 0;
    while a1 < n
      invariant a1 <= n
      invariant terms == Rows(PairOverlaps(sums), n, minSep, a1)
      invariant overlap == Appended(terms, " + ")
    {
      RowsNext(PairOverlaps(sums), n, minSep, a1);
      overlap, terms := OverlapScanRow(p, sums, n, minSep, a1, overlap, terms);
      a1 := a1 + 1;
    }
    AppendedThenCut(terms);
    text := DropLast3(overlap);
  }

  /** One turn of the outer loop: amino2 over the whole range, the near ones skipped. */
  method OverlapScanRow(p: Predicates, ghost sums: (nat, nat) -> Sums, n: nat, minSep: nat, a1: nat,
                        overlap0: string, ghost terms0: seq<string>)
    returns (overlap: string, ghost terms: seq<string>)
    requires minSep >= 1 && SumsAgree(p, sums) && overlap0 == Appended(terms0, " + ")
    ensures terms == Row(PairOverlaps(sums), terms0, a1, a1 + minSep, n)
    ensures overlap == Appended(terms, " + ")
  {
    overlap, terms := overlap0, terms0;
    ghost var f := PairOverlaps(sums);
    var a2 := 0;
    while a2 < n
      invariant a2 <= n
      invariant terms == Row(f, terms0, a1, a1 + minSep, a2)
      invariant overlap == Appended(terms, " + ")
    {
      if a1 + minSep <= a2 {
        RowNext(f, terms0, a1, a1 + minSep, a2);
        overlap, terms := AppendPairOverlap(p, sums, a1, a2, overlap, terms);
      } else {
        RowBelow(f, terms0, a1, a1 + minSep, a2);
      }
      a2 := a2 + 1;
    }
  }

  /** The six sums of one pair, then three xnor terms per compared bit. */
  method AppendPairOverlap(p: Predicates, ghost sums: (nat, nat) -> Sums, a1: nat, a2: nat,
                           overlap0: string, ghost terms0: seq<string>)
    returns (overlap: string, ghost terms: seq<string>)
    requires a1 < a2 && SumsAgree(p, sums) && overlap0 == Appended(terms0, " + ")
    ensures terms == terms0 + PairOverlaps(sums)(a1, a2)
    ensures overlap == Appended(terms, " + ")
  {
    var s := DirectionSums(p, a1, a2);
    var w := Width(a1, a2);
    overlap, terms := AppendPairTerms(s, w, overlap0, terms0);
  }

  /** The bit loop of one pair: the x, y and z compare terms of each bit below w. */
  method AppendPairTerms(s: Sums, w: nat, overlap0: string, ghost terms0: seq<string>)
    returns (overlap: string, ghost terms: seq<string>)
    requires Fits(s, w) && overlap0 == Appended(terms0, " + ")
    ensures terms == terms0 + PairTerms(s, w)
    ensures overlap == Appended(terms, " + ")
  {
    var added := "";
    var bit := 0;
    while bit < w
      invariant bit <= w
      invariant added == Appended(PairTerms(s, bit), " + ")
    {
      var t := BitsOf(s)(bit);
      AppendedThree(PairTerms(s, bit), t[0], t[1], t[2], " + ");
      assert t == [t[0], t[1], t[2]];
      added := added + t[0] + " + ";
      added := added + t[1] + " + ";
      added := added + t[2] + " + ";
      bit := bit + 1;
    }
    AppendedConcat(terms0, PairTerms(s, w), " + ");
    overlap, terms := overlap0 + added, terms0 + PairTerms(s, w);
  }

  // ---------------------------------------------------------------- adjacency

  /** The xnor terms of bits 0 .. k - 1 of two sums. */
  function XnorTerms(u: seq<string>, v: seq<string>, k: nat): (r: seq<string>)
    requires k <= |u| && k <= |v|
    ensures |r| == k
  {
    if k == 0 then [] else XnorTerms(u, v, k - 1) + [XnorText(u[k - 1], v[k - 1])]
  }

  /** The nine accumulators of `adjacency_indicator`, each a run of terms followed by " + ". */
  datatype Parts = Parts(xEqual: string, yEqual: string, zEqual: string,
                         xPlusOne: string, xMinusOne: string, yPlusOne: string,
                         yMinusOne: string, zPlusOne: string, zMinusOne: string)

  /**
   * The accumulators after k turns of the bit loop, as written: eight of them collect a term
   * per bit, while `z_minus_one = ...` keeps only the latest term.
   */
  function PartsAfter(s: Sums, s1: Sums, k: nat): Parts
    requires Fits(s, k) && Fits(s1, k)
  {
    Parts(Appended(XnorTerms(s.xPlus, s.xMinus, k), " + "),
          Appended(XnorTerms(s.yPlus, s.yMinus, k), " + "),
          Appended(XnorTerms(s.zPlus, s.zMinus, k), " + "),
          Appended(XnorTerms(s1.xPlus, s.xMinus, k), " + "),
          Appended(XnorTerms(s.xPlus, s1.xMinus, k), " + "),
          Appended(XnorTerms(s1.yPlus, s.yMinus, k), " + "),
          Appended(XnorTerms(s.yPlus, s1.yMinus, k), " + "),
          Appended(XnorTerms(s1.zPlus, s.zMinus, k), " + "),
          if k == 0 then "" else XnorText(s.zPlus[k - 1], s1.zMinus[k - 1]) + " + ")
  }

  /** The accumulators with `z_minus_one +=`, as its eight siblings are written. */
  function PartsIntended(s: Sums, s1: Sums, k: nat): Parts
    requires Fits(s, k) && Fits(s1, k)
  {
    PartsAfter(s, s1, k).(zMinusOne := Appended(XnorTerms(s.zPlus, s1.zMinus, k), " + "))
  }

  /** The bit loop of `adjacency_indicator`, nine accumulators side by side. */
  method AdjacencyParts(s: Sums, s1: Sums, w: nat) returns (parts: Parts)
    requires Fits(s, w) && Fits(s1, w)
    ensures parts == PartsAfter(s, s1, w)
  {
    var xEqual, yEqual, zEqual := "", "", "";
    var xPlusOne, xMinusOne, yPlusOne, yMinusOne, zPlusOne, zMinusOne := "", "", "", "", "", "";
    var bit := 0;
    while bit < w
      invariant bit <= w
      invariant Parts(xEqual, yEqual, zEqual, xPlusOne, xMinusOne, yPlusOne, yMinusOne, zPlusOne, zMinusOne)
             == PartsAfter(s, s1, bit)
    {
      XnorTermsSnoc(s.xPlus, s.xMinus, bit);
      XnorTermsSnoc(s.yPlus, s.yMinus, bit);
      XnorTermsSnoc(s.zPlus, s.zMinus, bit);
      XnorTermsSnoc(s1.xPlus, s.xMinus, bit);
      XnorTermsSnoc(s.xPlus, s1.xMinus, bit);
      XnorTermsSnoc(s1.yPlus, s.yMinus, bit);
      XnorTermsSnoc(s.yPlus, s1.yMinus, bit);
      XnorTermsSnoc(s1.zPlus, s.zMinus, bit);
      xEqual := xEqual + XnorText(s.xPlus[bit], s.xMinus[bit]) + " + ";
      yEqual := yEqual + XnorText(s.yPlus[bit], s.yMinus[bit]) + " + ";
      zEqual := zEqual + XnorText(s.zPlus[bit], s.zMinus[bit]) + " + ";
      xPlusOne := xPlusOne + XnorText(s1.xPlus[bit], s.xMinus[bit]) + " + ";
      xMinusOne := xMinusOne + XnorText(s.xPlus[bit], s1.xMinus[bit]) + " + ";
      yPlusOne := yPlusOne + XnorText(s1.yPlus[bit], s.yMinus[bit]) + " + ";
      yMinusOne := yMinusOne + XnorText(s.yPlus[bit], s1.yMinus[bit]) + " + ";
      zPlusOne := zPlusOne + XnorText(s1.zPlus[bit], s.zMinus[bit]) + " + ";
      zMinusOne := XnorText(s.zPlus[bit], s1.zMinus[bit]) + " + ";
      bit := bit + 1;
    }
    parts := Parts(xEqual, yEqual, zEqual, xPlusOne, xMinusOne, yPlusOne, yMinusOne, zPlusOne, zMinusOne);
  }

  /** One more bit appends one more term to an accumulator. */
  lemma XnorTermsSnoc(u: seq<string>, v: seq<string>, k: nat)
    requires k < |u| && k < |v|
    ensures Appended(XnorTerms(u, v, k + 1), " + ") == Appended(XnorTerms(u, v, k), " + ") + XnorText(u[k], v[k]) + " + "
  {
    AppendedSnoc(XnorTerms(u, v, k), XnorText(u[k], v[k]), " + ");
  }

  /** Cut of its last " + ", an accumulator collecting every bit's term is those terms joined. */
  lemma CutAccumulator(u: seq<string>, v: seq<string>, k: nat)
    requires k <= |u| && k <= |v|
    ensures DropLast3(Appended(XnorTerms(u, v, k), " + ")) == Join(XnorTerms(u, v, k), " + ")
  {
    AppendedThenCut(XnorTerms(u, v, k));
  }

  /**
   * As written, `z_minus_one[:-3]` is the last bit's term alone, while the corrected accumulator
   * joins all w terms; from two compared bits on the two differ.
   */
  lemma ZMinusOneKeepsLastTerm(s: Sums, s1: Sums, w: nat)
    requires Fits(s, w) && Fits(s1, w) && w >= 1
    ensures DropLast3(PartsAfter(s, s1, w).zMinusOne) == XnorText(s.zPlus[w - 1], s1.zMinus[w - 1])
    ensures DropLast3(PartsIntended(s, s1, w).zMinusOne) == Join(XnorTerms(s.zPlus, s1.zMinus, w), " + ")
    ensures w >= 2 ==> PartsAfter(s, s1, w).zMinusOne != PartsIntended(s, s1, w).zMinusOne
  {
    var last := XnorText(s.zPlus[w - 1], s1.zMinus[w - 1]);
    AppendedThenCut([last]);
    assert Join([last], " + ") == last;
    var terms := XnorTerms(s.zPlus, s1.zMinus, w);
    CutAccumulator(s.zPlus, s1.zMinus, w);
    if w >= 2 {
      JoinLonger(terms, " + ");
      assert terms[w - 1] == last;
    }
  }

  /**
   * With `+=` throughout, every accumulator cut of its last " + " is all the compared bits'
   * terms joined, z_minus_one of the same shape as x_minus_one and y_minus_one.
   */
  lemma PartsIntendedJoins(s: Sums, s1: Sums, w: nat)
    requires Fits(s, w) && Fits(s1, w)
    ensures DropLast3(PartsIntended(s, s1, w).xMinusOne) == Join(XnorTerms(s.xPlus, s1.xMinus, w), " + ")
    ensures DropLast3(PartsIntended(s, s1, w).yMinusOne) == Join(XnorTerms(s.yPlus, s1.yMinus, w), " + ")
    ensures DropLast3(PartsIntended(s, s1, w).zMinusOne) == Join(XnorTerms(s.zPlus, s1.zMinus, w), " + ")
    ensures DropLast3(PartsIntended(s, s1, w).xPlusOne) == Join(XnorTerms(s1.xPlus, s.xMinus, w), " + ")
    ensures DropLast3(PartsIntended(s, s1, w).yPlusOne) == Join(XnorTerms(s1.yPlus, s.yMinus, w), " + ")
    ensures DropLast3(PartsIntended(s, s1, w).zPlusOne) == Join(XnorTerms(s1.zPlus, s.zMinus, w), " + ")
  {
    CutAccumulator(s.xPlus, s1.xMinus, w);
    CutAccumulator(s.yPlus, s1.yMinus, w);
    CutAccumulator(s.zPlus, s1.zMinus, w);
    CutAccumulator(s1.xPlus, s.xMinus, w);
    CutAccumulator(s1.yPlus, s.yMinus, w);
    CutAccumulator(s1.zPlus, s.zMinus, w);
  }

  // ---------------------------------------------------------------- cases of the indicator

  /** A factor of a case: one axis's counts equal, or one axis's counts one apart either way. */
  datatype Factor = Same(axis: Axis) | Off(axis: Axis)

  function EqualPart(parts: Parts, axis: Axis): string
  {
    match axis
    case X => parts.xEqual
    case Y => parts.yEqual
    case Z => parts.zEqual
  }

  function PlusOnePart(parts: Parts, axis: Axis): string
  {
    match axis
    case X => parts.xPlusOne
    case Y => parts.yPlusOne
    case Z => parts.zPlusOne
  }

  function MinusOnePart(parts: Parts, axis: Axis): string
  {
    match axis
    case X => parts.xMinusOne
    case Y => parts.yMinusOne
    case Z => parts.zMinusOne
  }

  /** `(equal)` for an equal axis, `((plus one) + (minus one))` for an offset axis. */
  function FactorText(f: Factor, parts: Parts): string
  {
    match f
    case Same(a) => "(" + DropLast3(EqualPart(parts, a)) + ")"
    case Off(a) => "((" + DropLast3(PlusOnePart(parts, a)) + ") + (" + DropLast3(MinusOnePart(parts, a)) + "))"
  }

  function FactorTexts(c: seq<Factor>, parts: Parts): (r: seq<string>)
    ensures |r| == |c|
  {
    if c == [] then [] else FactorTexts(c[..|c| - 1], parts) + [FactorText(c[|c| - 1], parts)]
  }

  /** A case: its factors multiplied, in parentheses. */
  function CaseText(c: seq<Factor>, parts: Parts): string
  {
    "(" + Join(FactorTexts(c, parts), " * ") + ")"
  }

  function CaseTexts(cases: seq<seq<Factor>>, parts: Parts): (r: seq<string>)
    ensures |r| == |cases|
  {
    if cases == [] then [] else CaseTexts(cases[..|cases| - 1], parts) + [CaseText(cases[|cases| - 1], parts)]
  }

  /** The indicator: its cases added. */
  function IndicatorText(cases: seq<seq<Factor>>, parts: Parts): string
  {
    Join(CaseTexts(cases, parts), " + ")
  }

  lemma Join3(a: string, b: string, c: string, sep: string)
    ensures Join([a, b, c], sep) == a + sep + b + sep + c
  {
    assert [a, b, c][..2] == [a, b];
    assert [a, b][..1] == [a];
    assert Join([a, b], sep) == a + sep + b;
  }

  /** The texts of three factors, one by one. */
  lemma FactorTexts3(f: seq<Factor>, parts: Parts)
    requires |f| == 3
    ensures FactorTexts(f, parts) == [FactorText(f[0], parts), FactorText(f[1], parts), FactorText(f[2], parts)]
  {
    assert f[..2][..1] == f[..1] && f[..1][..0] == [];
    assert FactorTexts(f[..1], parts) == [FactorText(f[0], parts)];
    assert FactorTexts(f[..2], parts) == [FactorText(f[0], parts), FactorText(f[1], parts)];
  }

  /** The texts of three cases, one by one. */
  lemma CaseTexts3(c: seq<seq<Factor>>, parts: Parts)
    requires |c| == 3
    ensures CaseTexts(c, parts) == [CaseText(c[0], parts), CaseText(c[1], parts), CaseText(c[2], parts)]
  {
    assert c[..2][..1] == c[..1] && c[..1][..0] == [];
    assert CaseTexts(c[..1], parts) == [CaseText(c[0], parts)];
    assert CaseTexts(c[..2], parts) == [CaseText(c[0], parts), CaseText(c[1], parts)];
  }

  /** A displacement meets a factor: zero on an equal axis, one either way on an offset axis. */
  predicate FactorHolds(f: Factor, v: Vec)
  {
    match f
    case Same(a) => Component(v, a) == 0
    case Off(a) => Component(v, a) == 1 || Component(v, a) == -1
  }

  predicate CaseHolds(c: seq<Factor>, v: Vec)
  {
    forall i :: 0 <= i < |c| ==> FactorHolds(c[i], v)
  }

  predicate SomeCaseHolds(cases: seq<seq<Factor>>, v: Vec)
  {
    exists i :: 0 <= i < |cases| && CaseHolds(cases[i], v)
  }

  /** The sums, the accumulators and the cases of one pair, as `adjacency_indicator` builds them. */
  function Indicator(p: Predicates, cases: seq<seq<Factor>>, a1: nat, a2: nat): string
    requires a1 < a2
  {
    IndicatorText(cases, PartsAfter(SumsOf(p, a1, a2), SumsPlusOneOf(p, a1, a2), Width(a1, a2)))
  }

  /** `adjacency_indicator(amino1, amino2)` with the lattice's cases. */
  method AdjacencyIndicator(p: Predicates, cases: seq<seq<Factor>>, a1: nat, a2: nat) returns (r: string)
    requires a1 < a2
    ensures r == Indicator(p, cases, a1, a2)
  {
    var s := DirectionSums(p, a1, a2);
    var s1 := DirectionSumsPlusOne(p, a1, a2);
    var w := Width(a1, a2);
    var parts := AdjacencyParts(s, s1, w);
    r := IndicatorText(cases, parts);
  }

  // ---------------------------------------------------------------- interactions

  /** `str(energy_value)` for an integral entry of the floating point energy matrix. */
  function FloatText(e: int): string
  {
    IntToString(e) + ".0"
  }

  /** The line of one interacting pair: its residues, its energy and its indicator. */
  function InteractionLine(p: Predicates, cases: seq<seq<Factor>>, matrix: seq<seq<int>>, a1: nat, a2: nat): string
    requires a1 < a2
  {
    "INTERACTION(" + NatToString(a1) + "-" + NatToString(a2) + ")\t" + FloatText(Assembly.Energy(matrix, a1, a2))
      + " * (" + Indicator(p, cases, a1, a2) + ")\n"
  }

  /** The line of every pair, as one value ("" for a pair the loops never form). */
  function Lines(p: Predicates, cases: seq<seq<Factor>>, matrix: seq<seq<int>>): (nat, nat) -> string
  {
    (a1: nat, a2: nat) => if a1 < a2 then InteractionLine(p, cases, matrix, a1, a2) else ""
  }

  /** lines gives the line of every pair; stated on `InteractionLine` terms, as `SumsAgree` is. */
  ghost predicate LinesAgree(p: Predicates, cases: seq<seq<Factor>>, matrix: seq<seq<int>>, lines: (nat, nat) -> string)
  {
    forall a1: nat, a2: nat {:trigger InteractionLine(p, cases, matrix, a1, a2)} ::
      a1 < a2 ==> InteractionLine(p, cases, matrix, a1, a2) == lines(a1, a2)
  }

  lemma LinesFnAgrees(p: Predicates, cases: seq<seq<Factor>>, matrix: seq<seq<int>>)
    ensures LinesAgree(p, cases, matrix, Lines(p, cases, matrix))
  {
  }

  /** Every line of the interaction text, in loop order. */
  function InteractionLines(p: Predicates, cases: seq<seq<Factor>>, matrix: seq<seq<int>>, n: nat, minSep: nat): seq<string>
  {
    Assembly.IndicatorsOf(Lines(p, cases, matrix), Assembly.Contacts(matrix, n, minSep))
  }

  /**
   * `create_interactions`: one line for every pair at least minSep apart with a non-zero
   * energy, in loop order, with nothing cut off.
   */
  method CreateInteractions(p: Predicates, cases: seq<seq<Factor>>, matrix: seq<seq<int>>, n: nat, minSep: nat)
    returns (text: string)
    requires Assembly.IsSquare(matrix, n) && minSep >= 1
    ensures text == Appended(InteractionLines(p, cases, matrix, n, minSep), "")
  {
    LinesFnAgrees(p, cases, matrix);
    text := InteractionLoops(p, cases, Lines(p, cases, matrix), matrix, n, minSep);
  }

  /** The two loops of `create_interactions`, the line of each pair named by lines. */
  method InteractionLoops(p: Predicates, cases: seq<seq<Factor>>, ghost lines: (nat, nat) -> string,
                          matrix: seq<seq<int>>, n: nat, minSep: nat) returns (text: string)
    requires Assembly.IsSquare(matrix, n) && minSep >= 1 && LinesAgree(p, cases, matrix, lines)
    ensures text == Appended(Assembly.IndicatorsOf(lines, Assembly.Contacts(matrix, n, minSep)), "")
  {
    text := "";
    ghost var contacts: seq<(nat, nat)> := [];
    var a1 := 0;
    while a1 < n
      invariant a1 <= n
      invariant contacts == Assembly.ContactRows(matrix, n, minSep, a1)
      invariant text == Appended(Assembly.IndicatorsOf(lines, contacts), "")
    {
      text, contacts := InteractionRow(p, cases, lines, matrix, n, minSep, a1, text, contacts);
      a1 := a1 + 1;
    }
  }

  /** One turn of the outer loop: amino2 over the whole range, near pairs and zero energies skipped. */
  method InteractionRow(p: Predicates, cases: seq<seq<Factor>>, ghost lines: (nat, nat) -> string,
                        matrix: seq<seq<int>>, n: nat, minSep: nat, a1: nat,
                        text0: string, ghost contacts0: seq<(nat, nat)>)
    returns (text: string, ghost contacts: seq<(nat, nat)>)
    requires Assembly.IsSquare(matrix, n) && a1 < n && minSep >= 1 && LinesAgree(p, cases, matrix, lines)
    requires text0 == Appended(Assembly.IndicatorsOf(lines, contacts0), "")
    ensures contacts == Assembly.ContactRow(matrix, contacts0, a1, a1 + minSep, n)
    ensures text == Appended(Assembly.IndicatorsOf(lines, contacts), "")
  {
    text, contacts := text0, contacts0;
    var a2 := 0;
    while a2 < n
      invariant a2 <= n
      invariant contacts == Assembly.ContactRow(matrix, contacts0, a1, a1 + minSep, a2)
      invariant text == Appended(Assembly.IndicatorsOf(lines, contacts), "")
    {
      text, contacts := InteractionPair(p, cases, lines, matrix, n, minSep, a1, a2, text, contacts, contacts0);
      a2 := a2 + 1;
    }
  }

  /** The body of the inner loop: the pair's line is written when it is far enough apart and its energy is non-zero. */
  method InteractionPair(p: Predicates, cases: seq<seq<Factor>>, ghost lines: (nat, nat) -> string,
                         matrix: seq<seq<int>>, n: nat, minSep: nat, a1: nat, a2: nat,
                         text0: string, ghost contacts0: seq<(nat, nat)>, ghost acc: seq<(nat, nat)>)
    returns (text: string, ghost contacts: seq<(nat, nat)>)
    requires Assembly.IsSquare(matrix, n) && a1 < n && a2 < n && minSep >= 1 && LinesAgree(p, cases, matrix, lines)
    requires contacts0 == Assembly.ContactRow(matrix, acc, a1, a1 + minSep, a2)
    requires text0 == Appended(Assembly.IndicatorsOf(lines, contacts0), "")
    ensures contacts == Assembly.ContactRow(matrix, acc, a1, a1 + minSep, a2 + 1)
    ensures text == Appended(Assembly.IndicatorsOf(lines, contacts), "")
  {
    text, contacts := text0, contacts0;
    if a1 + minSep > a2 {
      ContactRowBelow(matrix, acc, a1, a1 + minSep, a2);
      return;
    }
    Assembly.RowGrows(matrix, acc, a1, a1 + minSep, a2, n);
    if matrix[a1][a2] != 0 {
      var line := InteractionLineText(p, cases, lines, matrix, a1, a2);
      LineAppended(lines, contacts, a1, a2, text, line);
      text := text + line;
      contacts := contacts + [(a1, a2)];
    }
  }

  /** A turn of the inner loop below its lower bound adds no contact. */
  lemma ContactRowBelow(matrix: seq<seq<int>>, acc: seq<(nat, nat)>, a1: nat, lo: nat, a2: nat)
    requires a2 < lo
    ensures Assembly.ContactRow(matrix, acc, a1, lo, a2 + 1) == Assembly.ContactRow(matrix, acc, a1, lo, a2)
  {
  }

  /** Appending the line of one more contact to the text of the contacts before it gives the text of them all. */
  lemma LineAppended(lines: (nat, nat) -> string, contacts: seq<(nat, nat)>, a1: nat, a2: nat, text: string, line: string)
    requires text == Appended(Assembly.IndicatorsOf(lines, contacts), "") && line == lines(a1, a2)
    ensures text + line == Appended(Assembly.IndicatorsOf(lines, contacts + [(a1, a2)]), "")
  {
    assert (contacts + [(a1, a2)])[..|contacts|] == contacts;
    AppendedSnoc(Assembly.IndicatorsOf(lines, contacts), line, "");
  }

  /** The line of one pair, its indicator built by `adjacency_indicator`. */
  method InteractionLineText(p: Predicates, cases: seq<seq<Factor>>, ghost lines: (nat, nat) -> string,
                             matrix: seq<seq<int>>, a1: nat, a2: nat) returns (line: string)
    requires Assembly.IsSquare(matrix, |matrix|) && a1 < a2 < |matrix| && LinesAgree(p, cases, matrix, lines)
    ensures line == lines(a1, a2)
  {
    var indicator := AdjacencyIndicator(p, cases, a1, a2);
    line := "INTERACTION(" + NatToString(a1) + "-" + NatToString(a2) + ")\t" + FloatText(matrix[a1][a2])
            + " * (" + indicator + ")\n";
    assert line == InteractionLine(p, cases, matrix, a1, a2);
  }

  /**
   * Line i of the interaction text belongs to contact i, and the contacts are exactly the
   * pairs at least minSep apart with a non-zero energy.
   */
  lemma InteractionLinesMeaning(p: Predicates, cases: seq<seq<Factor>>, matrix: seq<seq<int>>, n: nat, minSep: nat,
                                i: nat)
    requires Assembly.IsSquare(matrix, n) && minSep >= 1
    requires i < |Assembly.Contacts(matrix, n, minSep)|
    ensures var q := Assembly.Contacts(matrix, n, minSep)[i];
      q.0 + minSep <= q.1 < n && matrix[q.0][q.1] != 0
      && InteractionLines(p, cases, matrix, n, minSep)[i] == InteractionLine(p, cases, matrix, q.0, q.1)
  {
    var cs := Assembly.Contacts(matrix, n, minSep);
    Assembly.ContactsMembership(matrix, n, minSep, cs[i]);
    Assembly.IndicatorsOfIndex(Lines(p, cases, matrix), cs, i);
  }
}
