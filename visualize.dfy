/**
 * The walk decoder of the visualiser (Visualize.py): the pinned bits are put back in front of
 * the solver's bitstring, the string is cut into k-bit chunks, each chunk is looked up in the
 * lattice's move table and the moves are summed into a path of coordinates; pairs of residues
 * one unit apart are then listed as interactions (two or more steps apart along the chain) and
 * as connections (consecutive residues). Only the integer move tables of the square and cubic
 * lattices are modelled; 2-D points are written with z = 0.
 */
module Visualize {
  import opened Outcomes
  import opened Geometry
  import opened BoolExpr
  import Energy
  import Square4
  import Cubic6
  import Hex8
  import Fcc12

  // ---------------------------------------------------------------- putting the pinned bits back

  function BitChar(b: bool): char
  {
    if b then '1' else '0'
  }

  /** Every preset bit (t, i) of a k-bit-per-step lattice sits at position t * k + i of the full string. */
  ghost predicate PinsPlaced(full: string, pins: Pins, k: nat)
  {
    forall t, i :: (t, i) in pins ==> t * k + i < |full| && full[t * k + i] == BitChar(pins[(t, i)])
  }

  /** `visualize_4`: `'01' + b[0] + '1' + b[1:]`; an empty bitstring has no b[0]. */
  function Full4(b: string): (r: Result<string>)
    ensures r.Ok? <==> |b| >= 1
    ensures r.Ok? ==> |r.value| == |b| + 3
  {
    if |b| == 0 then Err(IndexError) else Ok("01" + [b[0]] + "1" + b[1..])
  }

  /** `visualize_6`: `'000' + b[0] + '00' + b[1:]`. */
  function Full6(b: string): (r: Result<string>)
    ensures r.Ok? <==> |b| >= 1
    ensures r.Ok? ==> |r.value| == |b| + 5
  {
    if |b| == 0 then Err(IndexError) else Ok("000" + [b[0]] + "00" + b[1..])
  }

  /** `visualize_8`: `'00' + b`. */
  function Full8(b: string): (r: string)
    ensures |r| == |b| + 2
  {
    "00" + b
  }

  /** `visualize_12`: `'10111' + b[0] + b[1] + '1' + b[2:]`; fewer than two bits have no b[1]. */
  function Full12(b: string): (r: Result<string>)
    ensures r.Ok? <==> |b| >= 2
    ensures r.Ok? ==> |r.value| == |b| + 6
  {
    if |b| < 2 then Err(IndexError) else Ok("10111" + [b[0]] + [b[1]] + "1" + b[2..])
  }

  /** The 4-lattice string carries the square lattice's preset bits, and dropping them gives back the solver's bits. */
  lemma Full4Pins(b: string)
    requires |b| >= 1
    ensures PinsPlaced(Full4(b).value, Square4.Presets, 2)
    ensures [Full4(b).value[2]] + Full4(b).value[4..] == b
  {
    var r := Full4(b).value;
    assert r[4..] == b[1..];
  }

  /** The 6-lattice string carries the cubic lattice's preset bits, and dropping them gives back the solver's bits. */
  lemma Full6Pins(b: string)
    requires |b| >= 1
    ensures PinsPlaced(Full6(b).value, Cubic6.Presets, 3)
    ensures [Full6(b).value[3]] + Full6(b).value[6..] == b
  {
    var r := Full6(b).value;
    assert r[6..] == b[1..];
  }

  /** The 8-lattice string carries the prismatic lattice's preset bits, and dropping them gives back the solver's bits. */
  lemma Full8Pins(b: string)
    ensures PinsPlaced(Full8(b), Hex8.Presets, 3)
    ensures Full8(b)[2..] == b
  {
  }

  /** The 12-lattice string carries the FCC lattice's preset bits, and dropping them gives back the solver's bits. */
  lemma Full12Pins(b: string)
    requires |b| >= 2
    ensures PinsPlaced(Full12(b).value, Fcc12.Presets, 4)
    ensures Full12(b).value[5..7] + Full12(b).value[8..] == b
  {
    var r := Full12(b).value;
    assert r[8..] == b[2..];
    assert r[5..7] == b[..2];
  }

  // ---------------------------------------------------------------- the move tables

  /** The 4-lattice table of `visualize_4`. */
  const Moves4: map<string, Vec> := map["01" := Vec(1, 0, 0), "10" := Vec(-1, 0, 0), "11" := Vec(0, 1, 0), "00" := Vec(0, -1, 0)]

  /** The 6-lattice table of `visualize_6`. */
  const Moves6: map<string, Vec> := map[
    "000" := Vec(1, 0, 0), "001" := Vec(-1, 0, 0), "010" := Vec(0, 1, 0),
    "011" := Vec(0, -1, 0), "100" := Vec(0, 0, 1), "101" := Vec(0, 0, -1)]

  function Bits2(c: (bool, bool)): string
  {
    [BitChar(c.0), BitChar(c.1)]
  }

  function Bits3(c: (bool, bool, bool)): string
  {
    [BitChar(c.0), BitChar(c.1), BitChar(c.2)]
  }

  /** A string of 0s and 1s. */
  predicate IsBits(s: string)
  {
    forall i :: 0 <= i < |s| ==> s[i] == '0' || s[i] == '1'
  }

  /** The 4-lattice table has every 2-bit code, and gives each direction's code that direction's vector. */
  lemma Moves4Table(d: Square4.Direction, s: string)
    ensures Bits2(Square4.Code(d)) in Moves4 && Moves4[Bits2(Square4.Code(d))] == Square4.Step(d)
    ensures s in Moves4 <==> |s| == 2 && IsBits(s)
  {
    if |s| == 2 && IsBits(s) {
      assert s[0] == '0' || s[0] == '1';
      assert s[1] == '0' || s[1] == '1';
      assert s == [s[0], s[1]];
    }
  }

  /** Distinct codes of the 4-lattice table move in distinct directions, each one lattice move. */
  lemma Moves4Distinct(s1: string, s2: string)
    requires s1 in Moves4 && s2 in Moves4
    ensures Square4.IsMove(Moves4[s1])
    ensures Moves4[s1] == Moves4[s2] <==> s1 == s2
  {
  }

  /**
   * The 6-lattice table gives each direction's code that direction's vector, and its keys are
   * exactly the 3-bit codes of a direction: the two codes 11x, which the QUBO counts as no move,
   * are missing from it.
   */
  lemma Moves6Table(d: Cubic6.Direction, s: string)
    ensures Bits3(Cubic6.Code(d)) in Moves6 && Moves6[Bits3(Cubic6.Code(d))] == Cubic6.Step(d)
    ensures s in Moves6 <==> |s| == 3 && IsBits(s) && !(s[0] == '1' && s[1] == '1')
  {
    if |s| == 3 && IsBits(s) {
      assert s[0] == '0' || s[0] == '1';
      assert s[1] == '0' || s[1] == '1';
      assert s[2] == '0' || s[2] == '1';
      assert s == [s[0], s[1], s[2]];
    }
  }

  /** Distinct codes of the 6-lattice table move in distinct directions, each one lattice move. */
  lemma Moves6Distinct(s1: string, s2: string)
    requires s1 in Moves6 && s2 in Moves6
    ensures Cubic6.IsMove(Moves6[s1])
    ensures Moves6[s1] == Moves6[s2] <==> s1 == s2
  {
    Cubic6.IsMoveComponents(Moves6[s1]);
  }

  // ---------------------------------------------------------------- the coordinates

  function Min(a: nat, b: nat): nat
  {
    if a <= b then a else b
  }

  /** The chunk `binary[i:i + k]` Python slices, cut short at the end of the string. */
  function Chunk(binary: string, k: nat, i: nat): string
    requires i < |binary|
  {
    binary[i..Min(i + k, |binary|)]
  }

  /** The chunks read from position i on, i, i + k, i + 2k, ... below |binary|. */
  function ChunksFrom(binary: string, k: nat, i: nat): seq<string>
    requires k > 0
    decreases |binary| - i
  {
    if i >= |binary| then [] else [Chunk(binary, k, i)] + ChunksFrom(binary, k, i + k)
  }

  function Concat(cs: seq<string>): string
  {
    if cs == [] then "" else cs[0] + Concat(cs[1..])
  }

  /** The chunks put back together are the bitstring. */
  lemma {:induction false} ChunksJoin(binary: string, k: nat, i: nat)
    requires k > 0 && i <= |binary|
    ensures Concat(ChunksFrom(binary, k, i)) == binary[i..]
    decreases |binary| - i
  {
    if i < |binary| {
      var j := Min(i + k, |binary|);
      ChunksJoin(binary, k, j);
      if j < |binary| {
        assert ChunksFrom(binary, k, i + k) == ChunksFrom(binary, k, j);
      } else {
        assert ChunksFrom(binary, k, i + k) == [];
      }
      assert binary[i..] == binary[i..j] + binary[j..];
    }
  }

  /** A result carried through the rest of the walk, after the points already drawn. */
  function After(prefix: seq<Vec>, r: Result<seq<Vec>>): Result<seq<Vec>>
  {
    match r
    case Ok(rest) => Ok(prefix + rest)
    case Err(e) => Err(e)
  }

  /** The points the loop appends from position i on, starting at `here`; a chunk missing from the table fails. */
  function WalkFrom(binary: string, moves: map<string, Vec>, k: nat, i: nat, here: Vec): Result<seq<Vec>>
    requires k > 0
    decreases |binary| - i
  {
    if i >= |binary| then Ok([])
    else if Chunk(binary, k, i) !in moves then Err(KeyError)
    else After([Plus(here, moves[Chunk(binary, k, i)])], WalkFrom(binary, moves, k, i + k, Plus(here, moves[Chunk(binary, k, i)])))
  }

  /** The path `generate_carteisan_coordinates` returns: the origin, then one point per chunk. */
  function Coordinates(binary: string, moves: map<string, Vec>, k: nat): Result<seq<Vec>>
    requires k > 0
  {
    After([Origin], WalkFrom(binary, moves, k, 0, Origin))
  }

  /** `generate_carteisan_coordinates`, k bits per move. */
  method GenerateCoordinates(binary: string, moves: map<string, Vec>, k: nat) returns (r: Result<seq<Vec>>)
    requires k > 0
    ensures r == Coordinates(binary, moves, k)
  {
    var here := Origin;
    var coordinates := [here];
    var i := 0;
    while i < |binary|
      invariant After(coordinates, WalkFrom(binary, moves, k, i, here)) == Coordinates(binary, moves, k)
      decreases |binary| - i
    {
      var move := binary[i..Min(i + k, |binary|)];
      if move !in moves {
        return Err(KeyError);
      }
      here := Plus(here, moves[move]);
      match WalkFrom(binary, moves, k, i + k, here) {
        case Ok(rest) =>
          assert coordinates + ([here] + rest) == (coordinates + [here]) + rest;
        case Err(_) =>
      }
      coordinates := coordinates + [here];
      i := i + k;
    }
    assert coordinates + [] == coordinates;
    r := Ok(coordinates);
  }

  /** The walk from position i succeeds exactly when every chunk from i on is in the table, and then adds one point per chunk, each the previous one moved by its chunk's vector. */
  lemma {:induction false} WalkFromShape(binary: string, moves: map<string, Vec>, k: nat, i: nat, here: Vec)
    requires k > 0
    ensures WalkFrom(binary, moves, k, i, here).Ok? <==> forall c :: c in ChunksFrom(binary, k, i) ==> c in moves
    ensures WalkFrom(binary, moves, k, i, here).Ok? ==>
      var cs, ps := ChunksFrom(binary, k, i), WalkFrom(binary, moves, k, i, here).value;
      |ps| == |cs| && forall t :: 0 <= t < |cs| ==> ps[t] == Plus(if t == 0 then here else ps[t - 1], moves[cs[t]])
    decreases |binary| - i
  {
    if i < |binary| && Chunk(binary, k, i) in moves {
      var next := Plus(here, moves[Chunk(binary, k, i)]);
      WalkFromShape(binary, moves, k, i + k, next);
      var cs := ChunksFrom(binary, k, i);
      assert cs == [Chunk(binary, k, i)] + ChunksFrom(binary, k, i + k);
      assert forall c :: c in cs <==> c == Chunk(binary, k, i) || c in ChunksFrom(binary, k, i + k);
      if WalkFrom(binary, moves, k, i, here).Ok? {
        var ps := WalkFrom(binary, moves, k, i, here).value;
        var rest := WalkFrom(binary, moves, k, i + k, next).value;
        assert ps == [next] + rest;
        forall t | 0 <= t < |cs|
          ensures ps[t] == Plus(if t == 0 then here else ps[t - 1], moves[cs[t]])
        {
          if t > 0 {
            assert ps[t] == rest[t - 1] && cs[t] == ChunksFrom(binary, k, i + k)[t - 1];
          }
        }
      }
    }
  }

  /**
   * The path fails with KeyError exactly when some chunk is missing from the table; otherwise it
   * starts at the origin, has one point more than there are chunks, and each point is the
   * previous one moved by the vector of its chunk.
   */
  lemma CoordinatesShape(binary: string, moves: map<string, Vec>, k: nat)
    requires k > 0
    ensures Coordinates(binary, moves, k).Err? <==> exists c :: c in ChunksFrom(binary, k, 0) && c !in moves
    ensures Coordinates(binary, moves, k).Err? ==> Coordinates(binary, moves, k).error == KeyError
    ensures Coordinates(binary, moves, k).Ok? ==>
      var cs, ps := ChunksFrom(binary, k, 0), Coordinates(binary, moves, k).value;
      |ps| == |cs| + 1 && ps[0] == Origin && forall t :: 0 <= t < |cs| ==> ps[t + 1] == Plus(ps[t], moves[cs[t]])
  {
    WalkFromShape(binary, moves, k, 0, Origin);
    WalkFromFails(binary, moves, k, 0, Origin);
    var r := Coordinates(binary, moves, k);
    if r.Ok? {
      var cs := ChunksFrom(binary, k, 0);
      var rest := WalkFrom(binary, moves, k, 0, Origin).value;
      assert r.value == [Origin] + rest;
      forall t | 0 <= t < |cs|
        ensures r.value[t + 1] == Plus(r.value[t], moves[cs[t]])
      {
        assert r.value[t + 1] == rest[t];
      }
    }
  }

  /** A failing walk fails with KeyError. */
  lemma {:induction false} WalkFromFails(binary: string, moves: map<string, Vec>, k: nat, i: nat, here: Vec)
    requires k > 0
    ensures WalkFrom(binary, moves, k, i, here).Err? ==> WalkFrom(binary, moves, k, i, here).error == KeyError
    decreases |binary| - i
  {
    if i < |binary| && Chunk(binary, k, i) in moves {
      WalkFromFails(binary, moves, k, i + k, Plus(here, moves[Chunk(binary, k, i)]));
    }
  }

  /** Chunk t of the string is `binary[t * k : t * k + k]`, cut short at the end. */
  lemma {:induction false} ChunkAt(binary: string, k: nat, i: nat, t: nat)
    requires k > 0 && t < |ChunksFrom(binary, k, i)|
    ensures i + t * k < |binary| && ChunksFrom(binary, k, i)[t] == Chunk(binary, k, i + t * k)
    decreases t
  {
    if t > 0 {
      ChunkAt(binary, k, i + k, t - 1);
      assert i + k + (t - 1) * k == i + t * k;
    }
  }

  /** A string of 0s and 1s made of whole 2-bit chunks walks the 4-lattice table to the end. */
  lemma {:induction false} WalkFromBits4(binary: string, i: nat, m: nat, here: Vec)
    requires IsBits(binary) && i + 2 * m == |binary|
    ensures WalkFrom(binary, Moves4, 2, i, here).Ok?
    decreases m
  {
    if m > 0 {
      var c := Chunk(binary, 2, i);
      assert c == [binary[i], binary[i + 1]];
      Moves4Table(Square4.Direction.E, c);
      WalkFromBits4(binary, i + 2, m - 1, Plus(here, Moves4[c]));
    }
  }

  /** With a table whose codes are all k bits long, the walk reads whole chunks only: a short trailing chunk is missing. */
  lemma {:induction false} WholeChunks(binary: string, moves: map<string, Vec>, k: nat, i: nat, here: Vec)
    requires k > 0 && i <= |binary| && forall s :: s in moves ==> |s| == k
    requires WalkFrom(binary, moves, k, i, here).Ok?
    ensures |binary| - i == |WalkFrom(binary, moves, k, i, here).value| * k
    decreases |binary| - i
  {
    if i < |binary| {
      var next := Plus(here, moves[Chunk(binary, k, i)]);
      assert |Chunk(binary, k, i)| == k;
      WholeChunks(binary, moves, k, i + k, next);
      var n := |WalkFrom(binary, moves, k, i + k, next).value|;
      assert |WalkFrom(binary, moves, k, i, here).value| == n + 1;
      assert (n + 1) * k == n * k + k;
    }
  }

  /**
   * With a table of k-bit codes, `generate_carteisan_coordinates` succeeds only on a string of
   * whole chunks, and returns |binary| / k + 1 points.
   */
  lemma CoordinatesCount(binary: string, moves: map<string, Vec>, k: nat)
    requires k > 0 && forall s :: s in moves ==> |s| == k
    requires Coordinates(binary, moves, k).Ok?
    ensures |binary| == (|Coordinates(binary, moves, k).value| - 1) * k
  {
    WholeChunks(binary, moves, k, 0, Origin);
  }

  /** One step of a successful path: chunk t is in the table and moves point t to point t + 1. */
  lemma CoordinatesStep(binary: string, moves: map<string, Vec>, k: nat, t: nat)
    requires k > 0 && Coordinates(binary, moves, k).Ok? && t + 1 < |Coordinates(binary, moves, k).value|
    ensures t < |ChunksFrom(binary, k, 0)| && ChunksFrom(binary, k, 0)[t] in moves
    ensures Coordinates(binary, moves, k).value[t + 1] == Plus(Coordinates(binary, moves, k).value[t], moves[ChunksFrom(binary, k, 0)[t]])
  {
    CoordinatesShape(binary, moves, k);
    var cs := ChunksFrom(binary, k, 0);
    assert cs[t] in cs;
  }

  /** A successful path starts at the origin. */
  lemma CoordinatesStart(binary: string, moves: map<string, Vec>, k: nat)
    requires k > 0 && Coordinates(binary, moves, k).Ok?
    ensures |Coordinates(binary, moves, k).value| > 0 && Coordinates(binary, moves, k).value[0] == Origin
  {
  }

  // ---------------------------------------------------------------- the decoded walk is the lattice walk

  /** The bits of the string as the QUBO's variables q(t, i): bit i of step t. */
  function BitsOf(binary: string, k: nat): Assignment
  {
    (t: nat, i: nat) => t * k + i < |binary| && binary[t * k + i] == '1'
  }

  /** A path that starts at the origin and takes move s at step s visits the walk's positions. */
  lemma {:induction false} PathIsWalk(ps: seq<Vec>, m: nat -> Vec, t: nat)
    requires |ps| > 0 && ps[0] == Origin
    requires forall s: nat :: s + 1 < |ps| ==> ps[s + 1] == Plus(ps[s], m(s))
    requires t < |ps|
    ensures ps[t] == Position(m, t)
  {
    if t > 0 {
      PathIsWalk(ps, m, t - 1);
      assert ps[t] == Plus(ps[t - 1], m(t - 1));
    }
  }

  /** A 4-lattice code moves by the vector of the direction the square lattice decodes from its two bits. */
  lemma Moves4Lookup(c: string)
    requires c in Moves4
    ensures |c| == 2 && Moves4[c] == Square4.Step(Square4.Decode(c[0] == '1', c[1] == '1'))
  {
  }

  /** The square lattice's move t, read from the string's bits. */
  lemma Square4MoveOfBits(binary: string, t: nat)
    requires t * 2 + 1 < |binary|
    ensures Square4.Moves(BitsOf(binary, 2))(t) == Square4.Step(Square4.Decode(binary[t * 2] == '1', binary[t * 2 + 1] == '1'))
  {
    var a := BitsOf(binary, 2);
    assert a(t, 0) == (binary[t * 2] == '1') && a(t, 1) == (binary[t * 2 + 1] == '1');
  }

  /** Each step of a decoded 4-lattice path is the move the square lattice's QUBO decodes from the same two bits. */
  lemma Walk4Step(binary: string, t: nat)
    requires Coordinates(binary, Moves4, 2).Ok?
    requires t + 1 < |Coordinates(binary, Moves4, 2).value|
    ensures Coordinates(binary, Moves4, 2).value[t + 1] == Plus(Coordinates(binary, Moves4, 2).value[t], Square4.Moves(BitsOf(binary, 2))(t))
  {
    CoordinatesStep(binary, Moves4, 2, t);
    Chunk4Move(binary, t, ChunksFrom(binary, 2, 0)[t]);
  }

  /** The 4-lattice code cut from the string at step t moves as the square lattice's move t. */
  lemma Chunk4Move(binary: string, t: nat, c: string)
    requires t < |ChunksFrom(binary, 2, 0)| && c == ChunksFrom(binary, 2, 0)[t] && c in Moves4
    ensures Moves4[c] == Square4.Moves(BitsOf(binary, 2))(t)
  {
    ChunkAt(binary, 2, 0, t);
    Moves4Lookup(c);
    assert c == binary[t * 2..t * 2 + 2];
    assert c[0] == binary[t * 2] && c[1] == binary[t * 2 + 1];
    Square4MoveOfBits(binary, t);
  }

  /** A decoded 4-lattice path is the walk of the square lattice: point t is where residue t sits. */
  lemma Walk4Positions(binary: string, t: nat)
    requires Coordinates(binary, Moves4, 2).Ok?
    requires t < |Coordinates(binary, Moves4, 2).value|
    ensures Coordinates(binary, Moves4, 2).value[t] == Position(Square4.Moves(BitsOf(binary, 2)), t)
  {
    CoordinatesStart(binary, Moves4, 2);
    var ps := Coordinates(binary, Moves4, 2).value;
    forall s: nat | s + 1 < |ps|
      ensures ps[s + 1] == Plus(ps[s], Square4.Moves(BitsOf(binary, 2))(s))
    {
      Walk4Step(binary, s);
    }
    PathIsWalk(ps, Square4.Moves(BitsOf(binary, 2)), t);
  }

  /** A 6-lattice code moves by the vector of the direction the cubic lattice decodes from its three bits. */
  lemma Moves6Lookup(c: string)
    requires c in Moves6
    ensures |c| == 3 && Moves6[c] == Cubic6.StepOf(Cubic6.Decode(c[0] == '1', c[1] == '1', c[2] == '1'))
  {
  }

  /** The cubic lattice's move t, read from the string's bits. */
  lemma Cubic6MoveOfBits(binary: string, t: nat)
    requires t * 3 + 2 < |binary|
    ensures Cubic6.Moves(BitsOf(binary, 3))(t) == Cubic6.StepOf(Cubic6.Decode(binary[t * 3] == '1', binary[t * 3 + 1] == '1', binary[t * 3 + 2] == '1'))
  {
    var a := BitsOf(binary, 3);
    assert a(t, 0) == (binary[t * 3] == '1') && a(t, 1) == (binary[t * 3 + 1] == '1') && a(t, 2) == (binary[t * 3 + 2] == '1');
    Cubic6.StepShape(a, t);
  }

  /** Each step of a decoded 6-lattice path is the move the cubic lattice's QUBO decodes from the same three bits. */
  lemma Walk6Step(binary: string, t: nat)
    requires Coordinates(binary, Moves6, 3).Ok?
    requires t + 1 < |Coordinates(binary, Moves6, 3).value|
    ensures Coordinates(binary, Moves6, 3).value[t + 1] == Plus(Coordinates(binary, Moves6, 3).value[t], Cubic6.Moves(BitsOf(binary, 3))(t))
  {
    CoordinatesStep(binary, Moves6, 3, t);
    Chunk6Move(binary, t, ChunksFrom(binary, 3, 0)[t]);
  }

  /** The 6-lattice code cut from the string at step t moves as the cubic lattice's move t. */
  lemma Chunk6Move(binary: string, t: nat, c: string)
    requires t < |ChunksFrom(binary, 3, 0)| && c == ChunksFrom(binary, 3, 0)[t] && c in Moves6
    ensures Moves6[c] == Cubic6.Moves(BitsOf(binary, 3))(t)
  {
    ChunkAt(binary, 3, 0, t);
    Moves6Lookup(c);
    assert c == binary[t * 3..t * 3 + 3];
    assert c[0] == binary[t * 3] && c[1] == binary[t * 3 + 1] && c[2] == binary[t * 3 + 2];
    Cubic6MoveOfBits(binary, t);
  }

  /** A decoded 6-lattice path is the walk of the cubic lattice: point t is where residue t sits. */
  lemma Walk6Positions(binary: string, t: nat)
    requires Coordinates(binary, Moves6, 3).Ok?
    requires t < |Coordinates(binary, Moves6, 3).value|
    ensures Coordinates(binary, Moves6, 3).value[t] == Position(Cubic6.Moves(BitsOf(binary, 3)), t)
  {
    CoordinatesStart(binary, Moves6, 3);
    var ps := Coordinates(binary, Moves6, 3).value;
    forall s: nat | s + 1 < |ps|
      ensures ps[s + 1] == Plus(ps[s], Cubic6.Moves(BitsOf(binary, 3))(s))
    {
      Walk6Step(binary, s);
    }
    PathIsWalk(ps, Cubic6.Moves(BitsOf(binary, 3)), t);
  }

  // ---------------------------------------------------------------- interactions and connections

  /** The squared distance of two points. */
  function SquaredDistance(p: Vec, q: Vec): nat
  {
    var d := Minus(p, q);
    d.x * d.x + d.y * d.y + d.z * d.z
  }

  /** `close_to_one`. */
  predicate CloseToOne(num: real)
  {
    0.98 < num < 1.02
  }

  /** On integer points, a distance close to one is a distance of exactly one. */
  lemma CloseToOneOnIntegers(dist: real, p: Vec, q: Vec)
    requires dist >= 0.0 && dist * dist == SquaredDistance(p, q) as real
    ensures CloseToOne(dist) <==> SquaredDistance(p, q) == 1
    ensures CloseToOne(dist) <==> Touch(p, q)
  {
    TouchMeaning(p, q);
    if dist <= 0.98 {
      assert dist * dist <= 0.98 * dist <= 0.9604;
    }
    if dist >= 1.02 {
      assert dist * dist >= 1.02 * dist >= 1.0404;
    }
    if CloseToOne(dist) {
      assert 0.9604 < dist * dist < 1.0404;
    }
  }

  /** One unit apart along one axis. */
  predicate Touch(p: Vec, q: Vec)
  {
    Cubic6.OneUnit(Minus(q, p))
  }

  /** On integer points, being one unit apart along an axis is being at squared distance one. */
  lemma TouchMeaning(p: Vec, q: Vec)
    ensures Touch(p, q) <==> SquaredDistance(p, q) == 1
  {
    var d := Minus(p, q);
    if SquaredDistance(p, q) == 1 {
      assert d.x * d.x >= 0 && d.y * d.y >= 0 && d.z * d.z >= 0;
      SquareAtMostOne(d.x);
      SquareAtMostOne(d.y);
      SquareAtMostOne(d.z);
    }
  }

  /** An integer whose square is at most one is -1, 0 or 1, with square 0 only for 0. */
  lemma SquareAtMostOne(n: int)
    ensures n * n <= 1 ==> -1 <= n <= 1
    ensures n * n == 0 ==> n == 0
    ensures n * n >= 0
  {
    if n >= 2 {
      assert n * n >= 2 * n;
    } else if n <= -2 {
      assert n * n >= -2 * n;
    }
  }

  /** The pairs the inner loop of the first double loop appends for residue i, from column j on. */
  function RowPairs(c: seq<Vec>, i: nat, j: nat): seq<(Vec, Vec)>
    requires i < |c|
    decreases |c| - j
  {
    if j >= |c| then []
    else (if Touch(c[i], c[j]) then [(c[i], c[j])] else []) + RowPairs(c, i, j + 1)
  }

  /** The interaction pairs the first double loop appends from residue i on. */
  function InteractionsFrom(c: seq<Vec>, i: nat): seq<(Vec, Vec)>
    requires i <= |c|
    decreases |c| - i
  {
    if i == |c| then [] else RowPairs(c, i, i + 2) + InteractionsFrom(c, i + 1)
  }

  /** The connection pairs the second loop appends from residue i on. */
  function ConnectionsFrom(c: seq<Vec>, i: nat): seq<(Vec, Vec)>
    requires i <= |c|
    decreases |c| - i
  {
    if i + 1 >= |c| then []
    else (if Touch(c[i], c[i + 1]) then [(c[i], c[i + 1])] else []) + ConnectionsFrom(c, i + 1)
  }

  /** The inner loop of `get_interaction_coords`: the pairs of residue i appended to `acc`. */
  method ScanRow(c: seq<Vec>, i: nat, acc: seq<(Vec, Vec)>) returns (out: seq<(Vec, Vec)>)
    requires i < |c|
    ensures out == acc + RowPairs(c, i, i + 2)
  {
    out := acc;
    var j := i + 2;
    while j < |c|
      invariant i + 2 <= j
      invariant out + RowPairs(c, i, j) == acc + RowPairs(c, i, i + 2)
      decreases |c| - j
    {
      var found := if Touch(c[i], c[j]) then [(c[i], c[j])] else [];
      var rest := RowPairs(c, i, j + 1);
      assert out + (found + rest) == (out + found) + rest;
      out := out + found;
      j := j + 1;
    }
    assert out + [] == out;
  }

  /** The second loop of `get_interaction_coords`: the bonds between consecutive points that touch. */
  method ScanChain(c: seq<Vec>) returns (connections: seq<(Vec, Vec)>)
    ensures connections == ConnectionsFrom(c, 0)
  {
    connections := [];
    var i := 0;
    while i + 1 < |c|
      invariant i <= |c|
      invariant connections + ConnectionsFrom(c, i) == ConnectionsFrom(c, 0)
      decreases |c| - i
    {
      var found := if Touch(c[i], c[i + 1]) then [(c[i], c[i + 1])] else [];
      var rest := ConnectionsFrom(c, i + 1);
      assert connections + (found + rest) == (connections + found) + rest;
      connections := connections + found;
      i := i + 1;
    }
    assert connections + [] == connections;
  }

  /** `get_interaction_coords` on integer points. */
  method GetInteractionCoords(c: seq<Vec>) returns (interactions: seq<(Vec, Vec)>, connections: seq<(Vec, Vec)>)
    ensures interactions == InteractionsFrom(c, 0)
    ensures connections == ConnectionsFrom(c, 0)
  {
    interactions := [];
    for i := 0 to |c|
      invariant interactions + InteractionsFrom(c, i) == InteractionsFrom(c, 0)
    {
      var row := RowPairs(c, i, i + 2);
      var rest := InteractionsFrom(c, i + 1);
      assert interactions + (row + rest) == (interactions + row) + rest;
      interactions := ScanRow(c, i, interactions);
    }
    assert interactions + [] == interactions;
    connections := ScanChain(c);
  }

  /** A contact of residue i and residue b at or past column j. */
  ghost predicate RowContact(c: seq<Vec>, i: nat, j: nat, p: (Vec, Vec))
    requires i < |c|
  {
    exists b :: j <= b < |c| && Touch(c[i], c[b]) && p == (c[i], c[b])
  }

  /** The pairs of one row are exactly that row's contacts from column j on. */
  lemma {:induction false} RowPairsMeaning(c: seq<Vec>, i: nat, j: nat, p: (Vec, Vec))
    requires i < |c|
    ensures p in RowPairs(c, i, j) <==> RowContact(c, i, j, p)
    decreases |c| - j
  {
    if j < |c| {
      RowPairsMeaning(c, i, j + 1, p);
      if RowContact(c, i, j, p) && !(Touch(c[i], c[j]) && p == (c[i], c[j])) {
        var b :| j <= b < |c| && Touch(c[i], c[b]) && p == (c[i], c[b]);
        if b > j {
          assert RowContact(c, i, j + 1, p);
        }
      }
    }
  }

  /** A contact between residues a and b, with a at or past i and b two or more residues after a. */
  ghost predicate ContactFrom(c: seq<Vec>, i: nat, p: (Vec, Vec))
  {
    exists a, b :: i <= a && a + 2 <= b < |c| && Touch(c[a], c[b]) && p == (c[a], c[b])
  }

  /** Every pair listed from residue i on is a contact two or more residues apart, and every such contact is listed. */
  lemma {:induction false} InteractionsFromMeaning(c: seq<Vec>, i: nat, p: (Vec, Vec))
    requires i <= |c|
    ensures p in InteractionsFrom(c, i) <==> ContactFrom(c, i, p)
    decreases |c| - i
  {
    if i < |c| {
      InteractionsFromMeaning(c, i + 1, p);
      RowPairsMeaning(c, i, i + 2, p);
      if RowContact(c, i, i + 2, p) {
        var b :| i + 2 <= b < |c| && Touch(c[i], c[b]) && p == (c[i], c[b]);
        assert ContactFrom(c, i, p);
      }
      if ContactFrom(c, i + 1, p) {
        var a, b :| i + 1 <= a && a + 2 <= b < |c| && Touch(c[a], c[b]) && p == (c[a], c[b]);
        assert ContactFrom(c, i, p);
      }
      if ContactFrom(c, i, p) {
        var a, b :| i <= a && a + 2 <= b < |c| && Touch(c[a], c[b]) && p == (c[a], c[b]);
        if a == i {
          assert RowContact(c, i, i + 2, p);
        } else {
          assert ContactFrom(c, i + 1, p);
        }
      }
    }
  }

  /** The interactions are exactly the pairs of points one unit apart whose residues are two or more steps apart. */
  lemma InteractionsMeaning(c: seq<Vec>, p: (Vec, Vec))
    ensures p in InteractionsFrom(c, 0) <==> exists a, b :: 0 <= a && a + 2 <= b < |c| && Touch(c[a], c[b]) && p == (c[a], c[b])
  {
    InteractionsFromMeaning(c, 0, p);
  }

  /** When every step of the path is a unit move, every consecutive pair is a connection, in order. */
  lemma {:induction false} UnitStepsAllConnected(c: seq<Vec>, i: nat)
    requires i < |c| && forall t :: 0 <= t < |c| - 1 ==> Touch(c[t], c[t + 1])
    ensures |ConnectionsFrom(c, i)| == |c| - 1 - i
    ensures forall k :: 0 <= k < |c| - 1 - i ==> ConnectionsFrom(c, i)[k] == (c[i + k], c[i + k + 1])
    decreases |c| - i
  {
    if i + 1 < |c| {
      UnitStepsAllConnected(c, i + 1);
      var rest := ConnectionsFrom(c, i + 1);
      assert ConnectionsFrom(c, i) == [(c[i], c[i + 1])] + rest;
    }
  }

  /** Each code of the 4- and 6-lattice tables moves one unit. */
  lemma TableMovesOneUnit(moves: map<string, Vec>, s: string, p: Vec)
    requires moves == Moves4 || moves == Moves6
    requires s in moves
    ensures Touch(p, Plus(p, moves[s]))
  {
  }

  /** Every step of a path drawn from the 4- or 6-lattice table is a unit move, so every bond is drawn. */
  lemma TableStepsTouch(binary: string, moves: map<string, Vec>, k: nat, t: nat)
    requires (moves == Moves4 && k == 2) || (moves == Moves6 && k == 3)
    requires Coordinates(binary, moves, k).Ok? && t + 1 < |Coordinates(binary, moves, k).value|
    ensures Touch(Coordinates(binary, moves, k).value[t], Coordinates(binary, moves, k).value[t + 1])
  {
    CoordinatesStep(binary, moves, k, t);
    TableMovesOneUnit(moves, ChunksFrom(binary, k, 0)[t], Coordinates(binary, moves, k).value[t]);
  }

  // ---------------------------------------------------------------- colours

  /** `encoded_sequence`: the HP letters for HP, the HPAB letters for HPAB and WHPAB, the residues themselves otherwise. */
  method EncodedSequence(model: string, sequence: string) returns (colors: string)
    ensures Energy.IsTableModel(model) ==> colors == Energy.Encoding(model, sequence)
    ensures !Energy.IsTableModel(model) ==> colors == sequence
  {
    if model == "HP" {
      colors := Energy.EncodeHp(sequence);
    } else if model == "HPAB" {
      colors := Energy.EncodeHpab(sequence);
    } else if model == "WHPAB" {
      colors := Energy.EncodeHpab(sequence);
    } else {
      colors := sequence;
    }
  }

  // ---------------------------------------------------------------- what is drawn

  /** What `plot_lattice` is handed: the path, the colour letters and the pairs drawn as contacts and as bonds. */
  datatype Drawing = Drawing(coordinates: seq<Vec>, colors: string, interactions: seq<(Vec, Vec)>, connections: seq<(Vec, Vec)>)

  /** The colour letters of `encoded_sequence`, as a function. */
  function Colors(model: string, sequence: string): string
  {
    if Energy.IsTableModel(model) then Energy.Encoding(model, sequence) else sequence
  }

  /** `visualize_4` up to the plot: pins, path, colours, contacts and bonds. */
  method Visualize4(sequence: string, model: string, binaryOutput: string) returns (r: Result<Drawing>)
    ensures |binaryOutput| == 0 ==> r == Err(IndexError)
    ensures |binaryOutput| > 0 ==> (r.Err? <==> Coordinates(Full4(binaryOutput).value, Moves4, 2).Err?)
    ensures r.Err? ==> r.error == IndexError || r.error == KeyError
    ensures r.Ok? ==> |binaryOutput| > 0 && r.value.coordinates == Coordinates(Full4(binaryOutput).value, Moves4, 2).value
    ensures r.Ok? ==> r.value.colors == Colors(model, sequence)
    ensures r.Ok? ==> r.value.interactions == InteractionsFrom(r.value.coordinates, 0) && r.value.connections == ConnectionsFrom(r.value.coordinates, 0)
  {
    if |binaryOutput| == 0 {
      return Err(IndexError);
    }
    var binary := "01" + [binaryOutput[0]] + "1" + binaryOutput[1..];
    var coordinates := GenerateCoordinates(binary, Moves4, 2);
    if coordinates.Err? {
      CoordinatesShape(binary, Moves4, 2);
      return Err(coordinates.error);
    }
    var colors := EncodedSequence(model, sequence);
    var interactions, connections := GetInteractionCoords(coordinates.value);
    r := Ok(Drawing(coordinates.value, colors, interactions, connections));
  }

  /** `visualize_6` up to the plot: pins, path, colours, contacts and bonds. */
  method Visualize6(sequence: string, model: string, binaryOutput: string) returns (r: Result<Drawing>)
    ensures |binaryOutput| == 0 ==> r == Err(IndexError)
    ensures |binaryOutput| > 0 ==> (r.Err? <==> Coordinates(Full6(binaryOutput).value, Moves6, 3).Err?)
    ensures r.Err? ==> r.error == IndexError || r.error == KeyError
    ensures r.Ok? ==> |binaryOutput| > 0 && r.value.coordinates == Coordinates(Full6(binaryOutput).value, Moves6, 3).value
    ensures r.Ok? ==> r.value.colors == Colors(model, sequence)
    ensures r.Ok? ==> r.value.interactions == InteractionsFrom(r.value.coordinates, 0) && r.value.connections == ConnectionsFrom(r.value.coordinates, 0)
  {
    if |binaryOutput| == 0 {
      return Err(IndexError);
    }
    var binary := "000" + [binaryOutput[0]] + "00" + binaryOutput[1..];
    var coordinates := GenerateCoordinates(binary, Moves6, 3);
    if coordinates.Err? {
      CoordinatesShape(binary, Moves6, 3);
      return Err(coordinates.error);
    }
    var colors := EncodedSequence(model, sequence);
    var interactions, connections := GetInteractionCoords(coordinates.value);
    r := Ok(Drawing(coordinates.value, colors, interactions, connections));
  }

  /**
   * A solver answer of 2n + 1 bits always decodes on the 4-lattice: n + 3 points, point t where
   * the square lattice's walk puts residue t, and each bond a unit step.
   */
  lemma Visualize4Draws(binaryOutput: string, n: nat)
    requires IsBits(binaryOutput) && |binaryOutput| == 2 * n + 1
    ensures Full4(binaryOutput).Ok? && Coordinates(Full4(binaryOutput).value, Moves4, 2).Ok?
    ensures var full := Full4(binaryOutput).value;
      var ps := Coordinates(full, Moves4, 2).value;
      |ps| == n + 3 &&
      (forall t :: 0 <= t < |ps| ==> ps[t] == Position(Square4.Moves(BitsOf(full, 2)), t)) &&
      (forall t :: 0 <= t < |ps| - 1 ==> Touch(ps[t], ps[t + 1]))
  {
    var full := Full4(binaryOutput).value;
    assert IsBits(full) by {
      forall i | 0 <= i < |full|
        ensures full[i] == '0' || full[i] == '1'
      {
        if i >= 4 {
          assert full[i] == binaryOutput[i - 3];
        }
      }
    }
    WalkFromBits4(full, 0, n + 2, Origin);
    var ps := Coordinates(full, Moves4, 2).value;
    CoordinatesCount(full, Moves4, 2);
    forall t | 0 <= t < |ps|
      ensures ps[t] == Position(Square4.Moves(BitsOf(full, 2)), t)
    {
      Walk4Positions(full, t);
    }
    forall t | 0 <= t < |ps| - 1
      ensures Touch(ps[t], ps[t + 1])
    {
      TableStepsTouch(full, Moves4, 2, t);
    }
  }
}
