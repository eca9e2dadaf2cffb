/** Lattice vectors and walks: the geometric reading of a chain of moves. */
module Geometry {

  /** Integer lattice vector; the square lattice leaves z at 0. */
  datatype Vec = Vec(x: int, y: int, z: int)

  const Origin := Vec(0, 0, 0)

  function Plus(u: Vec, v: Vec): Vec
  {
    Vec(u.x + v.x, u.y + v.y, u.z + v.z)
  }

  function Minus(u: Vec, v: Vec): Vec
  {
    Vec(u.x - v.x, u.y - v.y, u.z - v.z)
  }

  function Negate(u: Vec): Vec
  {
    Vec(-u.x, -u.y, -u.z)
  }

  /** Two points coincide exactly when their difference is the zero vector. */
  lemma SamePlace(u: Vec, v: Vec)
    ensures u == v <==> Minus(v, u) == Origin
  {
    if Minus(v, u) == Origin {
      assert u.x == v.x && u.y == v.y && u.z == v.z;
    }
  }

  datatype Axis = X | Y | Z

  function Component(v: Vec, axis: Axis): int
  {
    match axis
    case X => v.x
    case Y => v.y
    case Z => v.z
  }

  /** The sum of the moves of steps start .. end - 1 (none when end <= start, as with range). */
  function Disp(move: nat -> Vec, start: nat, end: nat): Vec
    decreases end
  {
    if end <= start then Origin else Plus(Disp(move, start, end - 1), move(end - 1))
  }

  /** k copies of v. */
  function Times(k: int, v: Vec): Vec
  {
    Vec(k * v.x, k * v.y, k * v.z)
  }

  /** One more copy of v is one more move by v. */
  lemma TimesStep(k: int, v: Vec)
    ensures Times(k + 1, v) == Plus(Times(k, v), v)
  {
    assert (k + 1) * v.x == k * v.x + v.x;
    assert (k + 1) * v.y == k * v.y + v.y;
    assert (k + 1) * v.z == k * v.z + v.z;
  }

  /** A walk that repeats one move travels that move once per step. */
  lemma {:induction false} LineDisp(move: nat -> Vec, v: Vec, i: nat, j: nat)
    requires forall t: nat :: move(t) == v
    requires i <= j
    ensures Disp(move, i, j) == Times(j - i, v)
    decreases j
  {
    if j > i {
      LineDisp(move, v, i, j - 1);
      TimesStep(j - 1 - i, v);
      assert j - i == (j - 1 - i) + 1;
    }
  }

  /** Where residue k sits when residue 0 is at the origin. */
  function Position(move: nat -> Vec, k: nat): Vec
  {
    Disp(move, 0, k)
  }

  /** The displacement between residues i and j is the difference of their positions. */
  lemma {:induction false} DispIsPositionDifference(move: nat -> Vec, i: nat, j: nat)
    requires i <= j
    ensures Disp(move, i, j) == Minus(Position(move, j), Position(move, i))
    decreases j
  {
    if j > i {
      DispIsPositionDifference(move, i, j - 1);
    }
  }

  /** Two residues share a site exactly when no coordinate changes between them. */
  lemma SameSite(move: nat -> Vec, i: nat, j: nat)
    requires i <= j
    ensures Position(move, i) == Position(move, j)
        <==> (Component(Disp(move, i, j), X) == 0 && Component(Disp(move, i, j), Y) == 0
             && Component(Disp(move, i, j), Z) == 0)
  {
    DispIsPositionDifference(move, i, j);
    SamePlace(Position(move, i), Position(move, j));
  }

  // ---------------------------------------------------------------- self-avoidance

  /** Residues at least sep apart along the chain never share a site. */
  ghost predicate ApartFrom(move: nat -> Vec, n: nat, sep: nat)
  {
    forall i: nat, j: nat :: i + sep <= j < n ==> Position(move, i) != Position(move, j)
  }

  /** A fold: no two of residues 0 .. n - 1 share a site. */
  ghost predicate SelfAvoiding(move: nat -> Vec, n: nat)
  {
    ApartFrom(move, n, 1)
  }

  ghost predicate NonZeroMoves(move: nat -> Vec)
  {
    forall t: nat :: move(t) != Origin
  }

  /** No step a chain of n residues takes, 0 .. n - 2, stands still. */
  ghost predicate NonZeroSteps(move: nat -> Vec, n: nat)
  {
    forall t: nat :: t + 1 < n ==> move(t) != Origin
  }

  /** Some step among 0 .. n - 2 undoes the step before it. */
  ghost predicate Backtracks(move: nat -> Vec, n: nat)
  {
    exists t: nat :: t + 2 < n && move(t + 1) == Negate(move(t))
  }

  /** Residues i and i + 2 share a site exactly when step i + 1 undoes step i. */
  lemma SecondNeighbour(move: nat -> Vec, i: nat)
    ensures Position(move, i) == Position(move, i + 2) <==> move(i + 1) == Negate(move(i))
  {
    DispIsPositionDifference(move, i, i + 2);
    assert Disp(move, i, i + 1) == Plus(Origin, move(i));
    assert Disp(move, i, i + 2) == Plus(Disp(move, i, i + 1), move(i + 1));
  }

  /**
   * With no zero step, a chain is self-avoiding exactly when it never backtracks and
   * residues three or more apart never meet.
   */
  lemma SelfAvoidingSplit(move: nat -> Vec, n: nat)
    requires NonZeroSteps(move, n)
    ensures SelfAvoiding(move, n) <==> !Backtracks(move, n) && ApartFrom(move, n, 3)
  {
    if SelfAvoiding(move, n) {
      forall t: nat | t + 2 < n
        ensures move(t + 1) != Negate(move(t))
      {
        SecondNeighbour(move, t);
      }
    }
    if !Backtracks(move, n) && ApartFrom(move, n, 3) {
      forall i: nat, j: nat | i + 1 <= j < n
        ensures Position(move, i) != Position(move, j)
      {
        if j == i + 1 {
          DispIsPositionDifference(move, i, i + 1);
          assert Disp(move, i, i + 1) == Plus(Origin, move(i));
        } else if j == i + 2 {
          SecondNeighbour(move, i);
        }
      }
    }
  }

  /** With no zero step, residues next to each other never meet, so only those two or more apart matter. */
  lemma ApartFromTwo(move: nat -> Vec, n: nat)
    requires NonZeroMoves(move)
    ensures SelfAvoiding(move, n) <==> ApartFrom(move, n, 2)
  {
    if ApartFrom(move, n, 2) {
      forall i: nat, j: nat | i + 1 <= j < n
        ensures Position(move, i) != Position(move, j)
      {
        if j == i + 1 {
          DispIsPositionDifference(move, i, i + 1);
          assert Disp(move, i, i + 1) == Plus(Origin, move(i));
        }
      }
    }
  }

  /** Every step of a chain of n residues, 0 .. n - 2, changes x + y + z by an odd amount (square and cubic lattices). */
  ghost predicate OddSteps(move: nat -> Vec, n: nat)
  {
    forall t: nat :: t + 1 < n ==> (move(t).x + move(t).y + move(t).z) % 2 == 1
  }

  /** Under odd steps, the coordinate sum of a displacement has the parity of its step count. */
  lemma {:induction false} DispParity(move: nat -> Vec, n: nat, i: nat, j: nat)
    requires i <= j < n && OddSteps(move, n)
    ensures (Disp(move, i, j).x + Disp(move, i, j).y + Disp(move, i, j).z) % 2 == (j - i) % 2
    decreases j
  {
    if j > i {
      DispParity(move, n, i, j - 1);
      OddStep(move, n, j - 1);
      ParityStep(Disp(move, i, j - 1), move(j - 1), j - 1 - i, j - i);
    }
  }

  lemma OddStep(move: nat -> Vec, n: nat, t: nat)
    requires t + 1 < n && OddSteps(move, n)
    ensures (move(t).x + move(t).y + move(t).z) % 2 == 1
  {
  }

  /** Adding a move with odd coordinate sum flips the parity of a coordinate sum. */
  lemma ParityStep(d: Vec, m: Vec, k: int, k1: int)
    requires k1 == k + 1
    requires (d.x + d.y + d.z) % 2 == k % 2 && (m.x + m.y + m.z) % 2 == 1
    ensures (Plus(d, m).x + Plus(d, m).y + Plus(d, m).z) % 2 == k1 % 2
  {
    var s, t := d.x + d.y + d.z, m.x + m.y + m.z;
    assert Plus(d, m).x + Plus(d, m).y + Plus(d, m).z == s + t;
  }

  /** Under odd steps, residues an odd number of steps apart never meet. */
  lemma OddApart(move: nat -> Vec, n: nat)
    requires OddSteps(move, n)
    ensures ApartFrom(move, n, 3) <==> ApartFrom(move, n, 4)
  {
    if ApartFrom(move, n, 4) {
      forall i: nat, j: nat | i + 3 <= j < n
        ensures Position(move, i) != Position(move, j)
      {
        if j == i + 3 {
          DispParity(move, n, i, j);
          DispIsPositionDifference(move, i, j);
        }
      }
    }
  }
}
