/**
 * The linearisation step of the annealer driver (Annealer.py): the binary quadratic model's
 * variables are sorted into plain bits and ancillaries (names that contain `*`, such as
 * `x1*x2`, standing for a product of bits), and for each ancillary a the constrained model
 * receives one constraint a - b <= 0 per base bit b and one constraint a - sum(b) >= -(k - 1)
 * over its k base bits. On 0/1 values these force a to be the AND of its base bits.
 */
module Annealer {
  import opened Outcomes

  // ---------------------------------------------------------------- names

  /** A variable standing for a product of bits. */
  predicate IsAncillary(v: string)
  {
    '*' in v
  }

  /** `str.replace(' ', '')`. */
  function StripSpaces(s: string): (r: string)
    ensures ' ' !in r
    ensures |r| <= |s|
  {
    if s == [] then [] else (if s[0] == ' ' then [] else [s[0]]) + StripSpaces(s[1..])
  }

  /** Stripping keeps every other character, as often as it occurs. */
  lemma {:induction false} StripSpacesKeeps(s: string, c: char)
    requires c != ' '
    ensures multiset(StripSpaces(s))[c] == multiset(s)[c]
  {
    if s != [] {
      StripSpacesKeeps(s[1..], c);
      assert s == [s[0]] + s[1..];
    }
  }

  /** Stripping a string with no spaces leaves it alone, so stripping twice is stripping once. */
  lemma {:induction false} StripSpacesIdempotent(s: string)
    ensures ' ' !in s ==> StripSpaces(s) == s
    ensures StripSpaces(StripSpaces(s)) == StripSpaces(s)
  {
    if s != [] {
      StripSpacesIdempotent(s[1..]);
      if ' ' !in s {
        assert s[0] in s && s[1..] == s[1..];
        assert ' ' !in s[1..] by {
          forall i | 0 <= i < |s[1..]|
            ensures s[1..][i] != ' '
          {
            assert s[1..][i] == s[i + 1];
          }
        }
      }
    }
    StripSpacesNoSpace(StripSpaces(s));
  }

  /** A string without spaces is its own stripping. */
  lemma {:induction false} StripSpacesNoSpace(s: string)
    requires ' ' !in s
    ensures StripSpaces(s) == s
  {
    if s != [] {
      assert s[0] in s;
      assert ' ' !in s[1..] by {
        forall i | 0 <= i < |s[1..]|
          ensures s[1..][i] != ' '
        {
          assert s[1..][i] == s[i + 1];
        }
      }
      StripSpacesNoSpace(s[1..]);
      assert s == [s[0]] + s[1..];
    }
  }

  /** `str.split(sep)` with an explicit separator: every separator cuts, so n separators give n + 1 pieces. */
  function Split(s: string, sep: char): (r: seq<string>)
    ensures |r| >= 1
  {
    if s == [] then [""]
    else if s[0] == sep then [""] + Split(s[1..], sep)
    else [[s[0]] + Split(s[1..], sep)[0]] + Split(s[1..], sep)[1..]
  }

  /** `sep.join(pieces)`. */
  function Join(pieces: seq<string>, sep: char): string
    requires |pieces| >= 1
  {
    if |pieces| == 1 then pieces[0] else pieces[0] + [sep] + Join(pieces[1..], sep)
  }

  /** Joining the pieces with the separator gives back the string. */
  lemma {:induction false} SplitJoin(s: string, sep: char)
    ensures Join(Split(s, sep), sep) == s
  {
    if s != [] {
      var rest := Split(s[1..], sep);
      SplitJoin(s[1..], sep);
      if s[0] == sep {
        assert Split(s, sep)[1..] == rest;
        assert s == [sep] + s[1..];
      } else {
        var r := Split(s, sep);
        if |rest| == 1 {
          assert r == [[s[0]] + rest[0]];
        } else {
          assert r[1..] == rest[1..];
          assert Join(r, sep) == [s[0]] + (rest[0] + [sep] + Join(rest[1..], sep));
        }
        assert s == [s[0]] + s[1..];
      }
    }
  }

  /** No piece holds the separator, and there is one piece more than there are separators. */
  lemma {:induction false} SplitPieces(s: string, sep: char)
    ensures forall p :: p in Split(s, sep) ==> sep !in p
    ensures |Split(s, sep)| == multiset(s)[sep] + 1
  {
    if s != [] {
      SplitPieces(s[1..], sep);
      assert s == [s[0]] + s[1..];
      var rest := Split(s[1..], sep);
      if s[0] != sep {
        assert rest[0] in rest;
        forall p | p in Split(s, sep)
          ensures sep !in p
        {
          if p != [s[0]] + rest[0] {
            assert p in rest[1..];
            var i :| 0 <= i < |rest[1..]| && rest[1..][i] == p;
            assert rest[i + 1] in rest;
          }
        }
      }
    }
  }

  /** The base bits of an ancillary: its name with spaces removed, split on `*`. */
  function BaseBits(ancillary: string): (r: seq<string>)
    ensures |r| >= 1
  {
    Split(StripSpaces(ancillary), '*')
  }

  /** The base bits joined with `*` are the name without spaces, and none holds a `*` or a space. */
  lemma BaseBitsMeaning(ancillary: string)
    ensures Join(BaseBits(ancillary), '*') == StripSpaces(ancillary)
    ensures forall p :: p in BaseBits(ancillary) ==> '*' !in p && ' ' !in p
  {
    var s := StripSpaces(ancillary);
    SplitJoin(s, '*');
    SplitPieces(s, '*');
    forall p | p in BaseBits(ancillary)
      ensures ' ' !in p
    {
      PieceOfSplit(s, '*', p);
    }
  }

  /** Every character of a piece occurs in the string that was split. */
  lemma {:induction false} PieceOfSplit(s: string, sep: char, p: string)
    requires p in Split(s, sep)
    ensures forall c :: c in p ==> c in s
  {
    if s != [] {
      var rest := Split(s[1..], sep);
      if s[0] == sep {
        if p != "" {
          assert p in rest;
          PieceOfSplit(s[1..], sep, p);
        }
      } else if p == [s[0]] + rest[0] {
        assert rest[0] in rest;
        PieceOfSplit(s[1..], sep, rest[0]);
      } else {
        assert p in rest[1..];
        var i :| 0 <= i < |rest[1..]| && rest[1..][i] == p;
        assert rest[i + 1] in rest;
        PieceOfSplit(s[1..], sep, p);
      }
      forall c | c in s[1..]
        ensures c in s
      {
        var i :| 0 <= i < |s[1..]| && s[1..][i] == c;
        assert s[i + 1] == c;
      }
    }
  }

  // ---------------------------------------------------------------- sorting the variables

  /** The variables the first loop puts in `ancillary_variables`, in order. */
  function Ancillaries(vs: seq<string>): seq<string>
  {
    if vs == [] then []
    else Ancillaries(vs[..|vs| - 1]) + (if IsAncillary(vs[|vs| - 1]) then [vs[|vs| - 1]] else [])
  }

  /** The variables the first loop puts in `linear_variables`, in order. */
  function Linears(vs: seq<string>): seq<string>
  {
    if vs == [] then []
    else Linears(vs[..|vs| - 1]) + (if IsAncillary(vs[|vs| - 1]) then [] else [vs[|vs| - 1]])
  }

  /** The two lists split the variables: together they hold each one as often as the model does. */
  lemma {:induction false} ClassifyPartition(vs: seq<string>)
    ensures multiset(Ancillaries(vs)) + multiset(Linears(vs)) == multiset(vs)
  {
    if vs != [] {
      var init := vs[..|vs| - 1];
      ClassifyPartition(init);
      assert vs == init + [vs[|vs| - 1]];
    }
  }

  /** A name is listed as an ancillary exactly when it is a variable with a `*`, and as a plain bit exactly when it is a variable without. */
  lemma {:induction false} ClassifyMeaning(vs: seq<string>, v: string)
    ensures v in Ancillaries(vs) <==> v in vs && IsAncillary(v)
    ensures v in Linears(vs) <==> v in vs && !IsAncillary(v)
  {
    if vs != [] {
      var init := vs[..|vs| - 1];
      ClassifyMeaning(init, v);
      assert vs == init + [vs[|vs| - 1]];
    }
  }

  /** The first loop of `annealer`: every variable in order, and the ancillaries and plain bits apart. */
  method Classify(bqmVariables: seq<string>) returns (variables: seq<string>, linear: seq<string>, ancillary: seq<string>)
    ensures variables == bqmVariables
    ensures linear == Linears(bqmVariables) && ancillary == Ancillaries(bqmVariables)
  {
    variables, linear, ancillary := [], [], [];
    for i := 0 to |bqmVariables|
      invariant variables == bqmVariables[..i]
      invariant linear == Linears(variables) && ancillary == Ancillaries(variables)
    {
      var v := bqmVariables[i];
      assert bqmVariables[..i + 1][..i] == bqmVariables[..i];
      variables := variables + [v];
      if '*' in v {
        ancillary := ancillary + [v];
      } else {
        linear := linear + [v];
      }
    }
    assert bqmVariables[..|bqmVariables|] == bqmVariables;
  }

  // ---------------------------------------------------------------- constraints

  /** A linear constraint of the constrained model, with the ancillary and bit names it is over. */
  datatype Constraint =
    /** `a - b <= 0`, labelled `'{a} >= {b}'`. */
    | AtMostBit(ancillary: string, bit: string)
    /** `a - sum(bits) >= bound`, labelled `'{a} >= {bits}'`. */
    | AtLeastAll(ancillary: string, bits: seq<string>, bound: int)

  /** The constraints one bit at a time, for the first n base bits. */
  function BitConstraints(ancillary: string, bits: seq<string>): seq<Constraint>
  {
    if bits == [] then [] else BitConstraints(ancillary, bits[..|bits| - 1]) + [AtMostBit(ancillary, bits[|bits| - 1])]
  }

  /** Some base bit of the ancillary is not a variable of the model. */
  predicate MissingBit(ancillary: string, variables: seq<string>)
  {
    exists j :: 0 <= j < |BaseBits(ancillary)| && BaseBits(ancillary)[j] !in variables
  }

  /** The constraints added for one ancillary; a base bit that is not a variable is a KeyError. */
  function ConstraintsFor(ancillary: string, variables: seq<string>): Result<seq<Constraint>>
  {
    var bits := BaseBits(ancillary);
    if MissingBit(ancillary, variables) then Err(KeyError)
    else Ok(BitConstraints(ancillary, bits) + [AtLeastAll(ancillary, bits, -1 * (|bits| - 1))])
  }

  /** The constraints added for the ancillaries in order; the first failing ancillary's error ends it. */
  function AllConstraints(ancillaries: seq<string>, variables: seq<string>): Result<seq<Constraint>>
  {
    if ancillaries == [] then Ok([])
    else
      var init := AllConstraints(ancillaries[..|ancillaries| - 1], variables);
      if init.Err? then init
      else
        var last := ConstraintsFor(ancillaries[|ancillaries| - 1], variables);
        if last.Err? then last else Ok(init.value + last.value)
  }

  /** The constraints fail exactly when some ancillary has a base bit that is not a variable, and then with KeyError. */
  lemma {:induction false} AllConstraintsFail(ancillaries: seq<string>, variables: seq<string>)
    ensures AllConstraints(ancillaries, variables).Err? <==> exists i :: 0 <= i < |ancillaries| && MissingBit(ancillaries[i], variables)
    ensures AllConstraints(ancillaries, variables).Err? ==> AllConstraints(ancillaries, variables).error == KeyError
  {
    if ancillaries != [] {
      var init := ancillaries[..|ancillaries| - 1];
      AllConstraintsFail(init, variables);
      MissingSplit(ancillaries, init, ancillaries[|ancillaries| - 1], variables);
    }
  }

  /** Some ancillary of a list misses a bit exactly when one of its prefix does or its last one does. */
  lemma MissingSplit(ancillaries: seq<string>, init: seq<string>, a: string, variables: seq<string>)
    requires ancillaries == init + [a]
    ensures (exists i :: 0 <= i < |ancillaries| && MissingBit(ancillaries[i], variables))
      <==> (exists i :: 0 <= i < |init| && MissingBit(init[i], variables)) || MissingBit(a, variables)
  {
    if exists i :: 0 <= i < |init| && MissingBit(init[i], variables) {
      var i :| 0 <= i < |init| && MissingBit(init[i], variables);
      assert ancillaries[i] == init[i];
    }
    if MissingBit(a, variables) {
      assert ancillaries[|init|] == a;
    }
    if exists i :: 0 <= i < |ancillaries| && MissingBit(ancillaries[i], variables) {
      var i :| 0 <= i < |ancillaries| && MissingBit(ancillaries[i], variables);
      if i < |init| {
        assert init[i] == ancillaries[i];
      }
    }
  }

  /** Adding one more ancillary extends a successful prefix by that ancillary's constraints, or fails with its error. */
  lemma AllConstraintsStep(ancillaries: seq<string>, variables: seq<string>, i: nat)
    requires i < |ancillaries| && AllConstraints(ancillaries[..i], variables).Ok?
    ensures ConstraintsFor(ancillaries[i], variables).Ok? ==>
      AllConstraints(ancillaries[..i + 1], variables) == Ok(AllConstraints(ancillaries[..i], variables).value + ConstraintsFor(ancillaries[i], variables).value)
    ensures ConstraintsFor(ancillaries[i], variables).Err? ==> AllConstraints(ancillaries[..i + 1], variables).Err?
  {
    assert ancillaries[..i + 1][..i] == ancillaries[..i];
  }

  /** Once a prefix of the ancillaries fails, so does the whole list. */
  lemma {:induction false} AllConstraintsFailExtends(ancillaries: seq<string>, variables: seq<string>, i: nat)
    requires i <= |ancillaries| && AllConstraints(ancillaries[..i], variables).Err?
    ensures AllConstraints(ancillaries, variables).Err?
  {
    AllConstraintsFail(ancillaries[..i], variables);
    AllConstraintsFail(ancillaries, variables);
    var k :| 0 <= k < i && MissingBit(ancillaries[..i][k], variables);
    assert ancillaries[k] == ancillaries[..i][k];
  }

  // ---------------------------------------------------------------- the constrained model

  /** The constrained quadratic model: the objective's variables and the constraints added so far. */
  class Cqm {
    var variables: seq<string>
    var constraints: seq<Constraint>

    /** `ConstrainedQuadraticModel().from_bqm(bqm)`: the bqm's variables and no constraints. */
    constructor FromBqm(bqmVariables: seq<string>)
      ensures variables == bqmVariables && constraints == []
    {
      variables := bqmVariables;
      constraints := [];
    }

    /** `add_constraint`: one more constraint at the end, the variables untouched. */
    method AddConstraint(c: Constraint)
      modifies this
      ensures constraints == old(constraints) + [c]
      ensures variables == old(variables)
    {
      constraints := constraints + [c];
    }
  }

  /** The inner loop and the constraint after it, for one ancillary. */
  method AddAncillary(cqm: Cqm, ancillary: string, variables: seq<string>) returns (r: Result<()>)
    modifies cqm
    ensures ConstraintsFor(ancillary, variables).Err? <==> r.Err?
    ensures r.Err? ==> r.error == KeyError
    ensures r.Ok? ==> cqm.constraints == old(cqm.constraints) + ConstraintsFor(ancillary, variables).value
    ensures cqm.variables == old(cqm.variables)
  {
    var bits := Split(StripSpaces(ancillary), '*');
    for j := 0 to |bits|
      invariant cqm.constraints == old(cqm.constraints) + BitConstraints(ancillary, bits[..j])
      invariant cqm.variables == old(cqm.variables)
      invariant forall m :: 0 <= m < j ==> bits[m] in variables
    {
      if bits[j] !in variables {
        return Err(KeyError);
      }
      assert bits[..j + 1][..j] == bits[..j];
      cqm.AddConstraint(AtMostBit(ancillary, bits[j]));
    }
    assert bits[..|bits|] == bits;
    var lengthConstraint := -1 * (|bits| - 1);
    cqm.AddConstraint(AtLeastAll(ancillary, bits, lengthConstraint));
    r := Ok(());
  }

  /** Lines 6-34 of `annealer`: the constrained model built from the bqm's variables, or KeyError. */
  method Linearise(bqmVariables: seq<string>) returns (r: Result<Cqm>)
    ensures r.Err? <==> AllConstraints(Ancillaries(bqmVariables), bqmVariables).Err?
    ensures r.Err? ==> r.error == KeyError
    ensures r.Ok? ==> fresh(r.value) && r.value.variables == bqmVariables
    ensures r.Ok? ==> r.value.constraints == AllConstraints(Ancillaries(bqmVariables), bqmVariables).value
  {
    var cqm := new Cqm.FromBqm(bqmVariables);
    var variables, linear, ancillary := Classify(bqmVariables);
    for i := 0 to |ancillary|
      invariant AllConstraints(ancillary[..i], variables).Ok?
      invariant cqm.constraints == AllConstraints(ancillary[..i], variables).value
      invariant cqm.variables == bqmVariables
    {
      AllConstraintsStep(ancillary, variables, i);
      var added := AddAncillary(cqm, ancillary[i], variables);
      if added.Err? {
        AllConstraintsFailExtends(ancillary, variables, i + 1);
        return Err(KeyError);
      }
    }
    assert ancillary[..|ancillary|] == ancillary;
    r := Ok(cqm);
  }

  // ---------------------------------------------------------------- what the constraints mean

  /** The sum of the bits' values. */
  function Sum(bits: seq<string>, x: string -> int): int
  {
    if bits == [] then 0 else x(bits[0]) + Sum(bits[1..], x)
  }

  /** 1 when every bit is 1, else 0. */
  function And(bits: seq<string>, x: string -> int): int
  {
    if bits == [] then 1 else if x(bits[0]) == 1 then And(bits[1..], x) else 0
  }

  /** Whether a constraint holds for the values x. */
  predicate Holds(c: Constraint, x: string -> int)
  {
    match c
    case AtMostBit(a, b) => x(a) - x(b) <= 0
    case AtLeastAll(a, bits, bound) => x(a) - Sum(bits, x) >= bound
  }

  predicate AllHold(cs: seq<Constraint>, x: string -> int)
  {
    forall k :: 0 <= k < |cs| ==> Holds(cs[k], x)
  }

  /** Every value 0 or 1. */
  ghost predicate Boolean(x: string -> int)
  {
    forall v :: x(v) == 0 || x(v) == 1
  }

  /** On 0/1 values, the sum of k bits is k when all are 1, and at most k - 1 otherwise. */
  lemma {:induction false} SumAndAnd(bits: seq<string>, x: string -> int)
    requires Boolean(x)
    ensures And(bits, x) == 1 ==> Sum(bits, x) == |bits|
    ensures And(bits, x) != 1 ==> Sum(bits, x) <= |bits| - 1
    ensures And(bits, x) == 1 <==> forall j :: 0 <= j < |bits| ==> x(bits[j]) == 1
    ensures And(bits, x) == 0 || And(bits, x) == 1
  {
    if bits != [] {
      SumAndAnd(bits[1..], x);
      assert x(bits[0]) == 0 || x(bits[0]) == 1;
      if forall j :: 0 <= j < |bits[1..]| ==> x(bits[1..][j]) == 1 {
        if x(bits[0]) == 1 {
          forall j | 0 <= j < |bits|
            ensures x(bits[j]) == 1
          {
            if j > 0 {
              assert bits[j] == bits[1..][j - 1];
            }
          }
        }
      } else {
        var j :| 0 <= j < |bits[1..]| && x(bits[1..][j]) != 1;
        assert bits[1..][j] == bits[j + 1];
      }
    }
  }

  /** The one-bit constraints of an ancillary hold exactly when its value is at most each bit's. */
  lemma {:induction false} BitConstraintsHold(a: string, bits: seq<string>, x: string -> int)
    ensures AllHold(BitConstraints(a, bits), x) <==> forall j :: 0 <= j < |bits| ==> x(a) <= x(bits[j])
    ensures |BitConstraints(a, bits)| == |bits|
  {
    if bits != [] {
      var init := bits[..|bits| - 1];
      BitConstraintsHold(a, init, x);
      var cs := BitConstraints(a, bits);
      assert cs == BitConstraints(a, init) + [AtMostBit(a, bits[|bits| - 1])];
      if AllHold(cs, x) {
        forall j | 0 <= j < |bits|
          ensures x(a) <= x(bits[j])
        {
          assert Holds(cs[j], x);
          if j < |init| {
            assert cs[j] == BitConstraints(a, init)[j];
            assert Holds(BitConstraints(a, init)[j], x);
            BitConstraintAt(a, init, j);
            assert bits[j] == init[j];
          }
        }
      }
      if forall j :: 0 <= j < |bits| ==> x(a) <= x(bits[j]) {
        forall j | 0 <= j < |init|
          ensures x(a) <= x(init[j])
        {
          assert init[j] == bits[j];
        }
        forall k | 0 <= k < |cs|
          ensures Holds(cs[k], x)
        {
          if k < |init| {
            assert cs[k] == BitConstraints(a, init)[k];
          }
        }
      }
    }
  }

  /** The k-th one-bit constraint bounds the ancillary by the k-th bit. */
  lemma {:induction false} BitConstraintAt(a: string, bits: seq<string>, k: nat)
    requires k < |bits|
    ensures |BitConstraints(a, bits)| == |bits| && BitConstraints(a, bits)[k] == AtMostBit(a, bits[k])
  {
    var init := bits[..|bits| - 1];
    BitConstraintsHold(a, init, x => 0);
    if k < |init| {
      BitConstraintAt(a, init, k);
    }
  }

  /**
   * On 0/1 values, an ancillary's k + 1 constraints hold exactly when its value is the AND of its
   * base bits: the one-bit constraints force it to 0 when a bit is 0, and the sum constraint
   * forces it to 1 when every bit is 1.
   */
  lemma ConstraintsForMeanAnd(ancillary: string, variables: seq<string>, x: string -> int)
    requires Boolean(x)
    requires ConstraintsFor(ancillary, variables).Ok?
    ensures AllHold(ConstraintsFor(ancillary, variables).value, x) <==> x(ancillary) == And(BaseBits(ancillary), x)
  {
    var bits := BaseBits(ancillary);
    var cs := ConstraintsFor(ancillary, variables).value;
    var init := BitConstraints(ancillary, bits);
    var last := AtLeastAll(ancillary, bits, -1 * (|bits| - 1));
    assert cs == init + [last];
    BitConstraintsHold(ancillary, bits, x);
    SumAndAnd(bits, x);
    assert x(ancillary) == 0 || x(ancillary) == 1;
    assert AllHold(cs, x) <==> AllHold(init, x) && Holds(last, x) by {
      if AllHold(init, x) && Holds(last, x) {
        forall k | 0 <= k < |cs|
          ensures Holds(cs[k], x)
        {
          if k < |init| {
            assert cs[k] == init[k];
          }
        }
      }
      if AllHold(cs, x) {
        assert cs[|init|] == last;
        forall k | 0 <= k < |init|
          ensures Holds(init[k], x)
        {
          assert cs[k] == init[k];
        }
      }
    }
    if And(bits, x) == 0 {
      var j :| 0 <= j < |bits| && x(bits[j]) != 1;
      assert x(bits[j]) == 0;
    }
  }

  /**
   * On 0/1 values, the constrained model's constraints hold exactly when every ancillary is the
   * AND of its base bits.
   */
  lemma {:induction false} AllConstraintsMeanAnd(ancillaries: seq<string>, variables: seq<string>, x: string -> int)
    requires Boolean(x)
    requires AllConstraints(ancillaries, variables).Ok?
    ensures AllHold(AllConstraints(ancillaries, variables).value, x) <==>
      forall i :: 0 <= i < |ancillaries| ==> x(ancillaries[i]) == And(BaseBits(ancillaries[i]), x)
  {
    if ancillaries != [] {
      var init := ancillaries[..|ancillaries| - 1];
      var a := ancillaries[|ancillaries| - 1];
      AllConstraintsMeanAnd(init, variables, x);
      ConstraintsForMeanAnd(a, variables, x);
      var before := AllConstraints(init, variables).value;
      var mine := ConstraintsFor(a, variables).value;
      var cs := AllConstraints(ancillaries, variables).value;
      assert cs == before + mine;
      AllHoldAppend(before, mine, x);
      AndsSplit(ancillaries, init, a, x);
    }
  }

  /** Every ancillary of a list is the AND of its bits exactly when every one of its prefix is and its last one is. */
  lemma AndsSplit(ancillaries: seq<string>, init: seq<string>, a: string, x: string -> int)
    requires ancillaries == init + [a]
    ensures (forall i :: 0 <= i < |ancillaries| ==> x(ancillaries[i]) == And(BaseBits(ancillaries[i]), x))
      <==> (forall i :: 0 <= i < |init| ==> x(init[i]) == And(BaseBits(init[i]), x)) && x(a) == And(BaseBits(a), x)
  {
    if forall i :: 0 <= i < |init| ==> x(init[i]) == And(BaseBits(init[i]), x) {
      if x(a) == And(BaseBits(a), x) {
        forall i | 0 <= i < |ancillaries|
          ensures x(ancillaries[i]) == And(BaseBits(ancillaries[i]), x)
        {
          if i < |init| {
            assert ancillaries[i] == init[i];
          }
        }
      }
    }
    if forall i :: 0 <= i < |ancillaries| ==> x(ancillaries[i]) == And(BaseBits(ancillaries[i]), x) {
      assert ancillaries[|init|] == a;
      forall i | 0 <= i < |init|
        ensures x(init[i]) == And(BaseBits(init[i]), x)
      {
        assert init[i] == ancillaries[i];
      }
    }
  }

  /** Constraints appended one after the other hold exactly when both lists hold. */
  lemma AllHoldAppend(cs: seq<Constraint>, ds: seq<Constraint>, x: string -> int)
    ensures AllHold(cs + ds, x) <==> AllHold(cs, x) && AllHold(ds, x)
  {
    if AllHold(cs + ds, x) {
      forall k | 0 <= k < |cs|
        ensures Holds(cs[k], x)
      {
        assert (cs + ds)[k] == cs[k];
      }
      forall k | 0 <= k < |ds|
        ensures Holds(ds[k], x)
      {
        assert (cs + ds)[|cs| + k] == ds[k];
      }
    }
  }
}
