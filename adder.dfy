/**
 * The ripple of half adders that turns a list of bits into the binary count of its
 * true entries. Both back ends share the control structure and differ only in what
 * a half adder's carry and sum are (pyqubo gates, or text), so the element type and
 * the two half-adder outputs are parameters here.
 */
module Adder {
  import opened Outcomes

  /**
   * The list after one pass of `half_adder_array`: from the top index down to 1,
   * position `bit` receives carry(x, y) and position `bit - 1` receives sum(x, y),
   * where x and y are the values at `bit` and `bit - 1` just before the step.
   */
  function Pass<T>(l: seq<T>, carry: (T, T) -> T, sum: (T, T) -> T): (r: seq<T>)
    ensures |r| == |l|
    decreases |l|
  {
    if |l| <= 1 then l
    else
      var x, y := l[|l| - 1], l[|l| - 2];
      Pass(l[..|l| - 2] + [sum(x, y)], carry, sum) + [carry(x, y)]
  }

  /**
   * Unfolding a pass at the top: the pass over l is the pass over l with its two top
   * entries replaced by their sum, followed by their carry.
   */
  lemma PassTop<T>(l: seq<T>, carry: (T, T) -> T, sum: (T, T) -> T)
    requires |l| >= 2
    ensures var x, y := l[|l| - 1], l[|l| - 2];
      var p' := Pass(l[..|l| - 2] + [sum(x, y)], carry, sum);
      Pass(l, carry, sum)[0] == p'[0] && Pass(l, carry, sum)[1..] == p'[1..] + [carry(x, y)]
  {
    var x, y := l[|l| - 1], l[|l| - 2];
    var p' := Pass(l[..|l| - 2] + [sum(x, y)], carry, sum);
    var c := carry(x, y);
    assert Pass(l, carry, sum) == p' + [c];
    SliceAppend(p', [c]);
  }

  /** Dropping the first entry of a concatenation whose left part is non-empty. */
  lemma SliceAppend<T>(u: seq<T>, v: seq<T>)
    requires |u| >= 1
    ensures (u + v)[0] == u[0] && (u + v)[1..] == u[1..] + v
  {
  }

  /** One step of the pass: the half adder at `bit` and `bit - 1`, written back in place. */
  lemma PassStep<T>(before: seq<T>, after: seq<T>, bit: nat, carry: (T, T) -> T, sum: (T, T) -> T)
    requires 0 < bit < |before|
    requires after == before[bit := carry(before[bit], before[bit - 1])][bit - 1 := sum(before[bit], before[bit - 1])]
    ensures Pass(after[..bit], carry, sum) + after[bit..] == Pass(before[..bit + 1], carry, sum) + before[bit + 1..]
  {
    var x, y := before[bit], before[bit - 1];
    assert before[..bit + 1][..bit - 1] == before[..bit - 1];
    assert after[..bit] == before[..bit - 1] + [sum(x, y)];
    assert after[bit..] == [carry(x, y)] + before[bit + 1..];
  }

  /** `half_adder_array`: one downward pass, in place. */
  method HalfAdderArray<T>(bits: array<T>, carry: (T, T) -> T, sum: (T, T) -> T)
    modifies bits
    ensures bits[..] == Pass(old(bits[..]), carry, sum)
  {
    var bit := bits.Length - 1;
    assert bits[..bit + 1] == bits[..] && bits[bit + 1..] == [];
    while bit > 0
      invariant -1 <= bit < bits.Length
      invariant bits.Length > 0 ==> bit >= 0
      invariant Pass(bits[..bit + 1], carry, sum) + bits[bit + 1..] == Pass(old(bits[..]), carry, sum)
    {
      ghost var before := bits[..];
      var x := bits[bit];
      var y := bits[bit - 1];
      bits[bit] := carry(x, y);
      bits[bit - 1] := sum(x, y);
      assert bits[..] == before[bit := carry(x, y)][bit - 1 := sum(x, y)];
      PassStep(before, bits[..], bit, carry, sum);
      bit := bit - 1;
    }
    if bits.Length > 0 {
      assert bits[..] == bits[..1] + bits[1..];
    }
  }

  /**
   * The list `half_adder_loader` returns for a non-empty input: the low bit of each
   * pass, then the passes over what is left above it, then the last remaining bit.
   */
  function Loader<T>(l: seq<T>, carry: (T, T) -> T, sum: (T, T) -> T): (r: seq<T>)
    requires |l| >= 1
    ensures |r| == |l|
    decreases |l|
  {
    if |l| == 1 then [l[0]]
    else
      var p := Pass(l, carry, sum);
      [p[0]] + Loader(p[1..], carry, sum)
  }

  /**
   * `half_adder_loader`: size - 1 passes, each emitting the low bit and dropping it,
   * then the last bit; an empty list fails on the final `bit_list[0]`.
   */
  method HalfAdderLoader<T>(bits: seq<T>, carry: (T, T) -> T, sum: (T, T) -> T) returns (r: Result<seq<T>>)
    ensures |bits| == 0 ==> r == Err(IndexError)
    ensures |bits| >= 1 ==> r == Ok(Loader(bits, carry, sum))
  {
    var sumBitList: seq<T> := [];
    var size := |bits|;
    var bitList := bits;
    var i := 0;
    while i < size - 1
      invariant 0 <= i && (size == 0 || i <= size - 1)
      invariant |bitList| == size - i
      invariant size >= 1 ==> sumBitList + Loader(bitList, carry, sum) == Loader(bits, carry, sum)
    {
      var arr := new T[|bitList|](j requires 0 <= j < |bitList| => bitList[j]);
      assert arr[..] == bitList;
      HalfAdderArray(arr, carry, sum);
      sumBitList := sumBitList + [arr[0]];
      bitList := arr[1..];
      i := i + 1;
    }
    if |bitList| == 0 {
      return Err(IndexError);
    }
    r := Ok(sumBitList + [bitList[0]]);
  }
}
