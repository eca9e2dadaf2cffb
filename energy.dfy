/**
 * The energy matrix of a sequence (Energy.py): the residues are classed into the letters of a
 * model (HP or HPAB), each pair of residues looks up the energy of its two letters in the
 * model's table, and under the Miyazawa-Jernigan model the contact energies are replaced by
 * their ranks, -1 for the largest.
 */
module Energy {
  import opened Outcomes

  // ---------------------------------------------------------------- the encoders

  /** The hydrophobic residues, polar residues and acids, as the encoders test them. */
  const Hydrophobic: string := "AGILMFPWV"
  const Polar: string := "NQSTY"
  const Acidic: string := "DE"

  /** The HP letter of a residue. */
  function HpClass(c: char): char
  {
    if c in Hydrophobic then 'H' else 'P'
  }

  /** The HPAB letter of a residue, the classes tested in the encoder's order. */
  function HpabClass(c: char): char
  {
    if c in Hydrophobic then 'H' else if c in Polar then 'P' else if c in Acidic then 'A' else 'B'
  }

  /** `encode_hp`: one letter per residue, H exactly for the hydrophobic ones. */
  method EncodeHp(sequence: string) returns (hp: string)
    ensures |hp| == |sequence|
    ensures forall i :: 0 <= i < |sequence| ==> hp[i] == HpClass(sequence[i])
  {
    hp := "";
    for k := 0 to |sequence|
      invariant |hp| == k
      invariant forall i :: 0 <= i < k ==> hp[i] == HpClass(sequence[i])
    {
      if sequence[k] in Hydrophobic {
        hp := hp + "H";
      } else {
        hp := hp + "P";
      }
    }
  }

  /** `encode_hpab`: one letter per residue, H, P, A or B. */
  method EncodeHpab(sequence: string) returns (hpab: string)
    ensures |hpab| == |sequence|
    ensures forall i :: 0 <= i < |sequence| ==> hpab[i] == HpabClass(sequence[i])
  {
    hpab := "";
    for k := 0 to |sequence|
      invariant |hpab| == k
      invariant forall i :: 0 <= i < k ==> hpab[i] == HpabClass(sequence[i])
    {
      if sequence[k] in Hydrophobic {
        hpab := hpab + "H";
      } else if sequence[k] in Polar {
        hpab := hpab + "P";
      } else if sequence[k] in Acidic {
        hpab := hpab + "A";
      } else {
        hpab := hpab + "B";
      }
    }
  }

  /** A residue is H in the HP encoding exactly when it is hydrophobic, and P otherwise. */
  lemma HpClassMeaning(c: char)
    ensures HpClass(c) == 'H' <==> c in Hydrophobic
    ensures HpClass(c) == 'P' <==> c !in Hydrophobic
  {
  }

  /**
   * The three residue classes are disjoint, so the order the encoder tests them in does not
   * matter: each letter of HPAB is exactly its class, B being every residue in none of them.
   */
  lemma HpabClassMeaning(c: char)
    ensures HpabClass(c) == 'H' <==> c in Hydrophobic
    ensures HpabClass(c) == 'P' <==> c in Polar
    ensures HpabClass(c) == 'A' <==> c in Acidic
    ensures HpabClass(c) == 'B' <==> c !in Hydrophobic && c !in Polar && c !in Acidic
  {
  }

  /** HPAB refines HP: the two agree on H, and every P of HP is P, A or B in HPAB. */
  lemma HpabRefinesHp(c: char)
    ensures HpabClass(c) == 'H' <==> HpClass(c) == 'H'
    ensures HpClass(c) == 'P' <==> HpabClass(c) in "PAB"
  {
  }

  // ---------------------------------------------------------------- the tables

  /** `get_energy_hp_table`, keyed by the pair of letters the source concatenates. */
  const HpTable: map<(char, char), int> := map[('H', 'H') := 1, ('H', 'P') := 0, ('P', 'H') := 0, ('P', 'P') := 0]

  /** `get_energy_hpab_table`. */
  const HpabTable: map<(char, char), int> := map[
    ('H', 'H') := -1, ('H', 'P') := 0, ('H', 'A') := 0, ('H', 'B') := 0,
    ('P', 'H') := 0, ('P', 'P') := 0, ('P', 'A') := 0, ('P', 'B') := 0,
    ('A', 'H') := 0, ('A', 'P') := 0, ('A', 'A') := 1, ('A', 'B') := -1,
    ('B', 'H') := 0, ('B', 'P') := 0, ('B', 'A') := -1, ('B', 'B') := 1]

  /** `get_energy_whpab_table`. */
  const WhpabTable: map<(char, char), int> := map[
    ('H', 'H') := -4, ('H', 'P') := 0, ('H', 'A') := -1, ('H', 'B') := -1,
    ('P', 'H') := 0, ('P', 'P') := 0, ('P', 'A') := 0, ('P', 'B') := 0,
    ('A', 'H') := -1, ('A', 'P') := 0, ('A', 'A') := 2, ('A', 'B') := -2,
    ('B', 'H') := -1, ('B', 'P') := 0, ('B', 'A') := -2, ('B', 'B') := 2]

  /** The HP table holds every pair of HP letters, and only HH interacts, with energy 1. */
  lemma HpTableMeaning(a: char, b: char)
    ensures (a, b) in HpTable <==> a in "HP" && b in "HP"
    ensures (a, b) in HpTable ==> (HpTable[(a, b)] == 1 <==> a == 'H' && b == 'H') && HpTable[(a, b)] in {0, 1}
  {
  }

  /** The HPAB table holds every pair of HPAB letters and gives both orders of a pair the same energy. */
  lemma HpabTableSymmetric(a: char, b: char)
    ensures (a, b) in HpabTable <==> a in "HPAB" && b in "HPAB"
    ensures (a, b) in HpabTable ==> HpabTable[(a, b)] == HpabTable[(b, a)]
  {
  }

  /** The weighted HPAB table holds every pair of HPAB letters and gives both orders of a pair the same energy. */
  lemma WhpabTableSymmetric(a: char, b: char)
    ensures (a, b) in WhpabTable <==> a in "HPAB" && b in "HPAB"
    ensures (a, b) in WhpabTable ==> WhpabTable[(a, b)] == WhpabTable[(b, a)]
  {
  }

  // ---------------------------------------------------------------- the table models

  /** The models `get_energy_matrix` looks up in a table: HP, HPAB and WHPAB. */
  predicate IsTableModel(model: string)
  {
    model == "HP" || model == "HPAB" || model == "WHPAB"
  }

  /** The encoding a table model uses: HP for HP, HPAB for HPAB and WHPAB. */
  function Encoding(model: string, sequence: string): (enc: string)
    requires IsTableModel(model)
    ensures |enc| == |sequence|
  {
    if model == "HP" then seq(|sequence|, i requires 0 <= i < |sequence| => HpClass(sequence[i]))
    else seq(|sequence|, i requires 0 <= i < |sequence| => HpabClass(sequence[i]))
  }

  function TableOf(model: string): map<(char, char), int>
    requires IsTableModel(model)
  {
    if model == "HP" then HpTable else if model == "HPAB" then HpabTable else WhpabTable
  }

  /** Every pair of letters an encoding produces is a key of its model's table: the lookups never fail. */
  lemma TableCoversEncoding(model: string, sequence: string, i: nat, j: nat)
    requires IsTableModel(model) && i < |sequence| && j < |sequence|
    ensures (Encoding(model, sequence)[i], Encoding(model, sequence)[j]) in TableOf(model)
  {
    var enc := Encoding(model, sequence);
    if model == "HP" {
      HpTableMeaning(enc[i], enc[j]);
    } else {
      assert enc[i] in "HPAB" && enc[j] in "HPAB";
      HpabTableSymmetric(enc[i], enc[j]);
      WhpabTableSymmetric(enc[i], enc[j]);
    }
  }

  /** The energy of residues i and j under a table model. */
  function TableEntry(model: string, sequence: string, i: nat, j: nat): int
    requires IsTableModel(model) && i < |sequence| && j < |sequence|
  {
    TableCoversEncoding(model, sequence, i, j);
    TableOf(model)[(Encoding(model, sequence)[i], Encoding(model, sequence)[j])]
  }

  /** Under HP, two residues interact, with energy 1, exactly when both are hydrophobic; every other pair has 0. */
  lemma HpEntryMeaning(sequence: string, i: nat, j: nat)
    requires i < |sequence| && j < |sequence|
    ensures TableEntry("HP", sequence, i, j) == (if sequence[i] in Hydrophobic && sequence[j] in Hydrophobic then 1 else 0)
  {
    var enc := Encoding("HP", sequence);
    HpTableMeaning(enc[i], enc[j]);
  }

  /** Under HPAB and WHPAB the matrix is symmetric. */
  lemma TableEntrySymmetric(model: string, sequence: string, i: nat, j: nat)
    requires IsTableModel(model) && model != "HP" && i < |sequence| && j < |sequence|
    ensures TableEntry(model, sequence, i, j) == TableEntry(model, sequence, j, i)
  {
    var enc := Encoding(model, sequence);
    HpabTableSymmetric(enc[i], enc[j]);
    WhpabTableSymmetric(enc[i], enc[j]);
  }

  /** The double loop of `get_energy_matrix` for a table model, over a fresh matrix of zeros. */
  method FillFromTable(enc: string, table: map<(char, char), int>) returns (m: array2<real>)
    requires forall i, j :: 0 <= i < |enc| && 0 <= j < |enc| ==> (enc[i], enc[j]) in table
    ensures fresh(m) && m.Length0 == |enc| && m.Length1 == |enc|
    ensures forall i, j :: 0 <= i < |enc| && 0 <= j < |enc| ==> m[i, j] == table[(enc[i], enc[j])] as real
  {
    var n := |enc|;
    m := new real[n, n]((i, j) => 0.0);
    for i := 0 to n
      invariant forall a, b :: 0 <= a < i && 0 <= b < n ==> m[a, b] == table[(enc[a], enc[b])] as real
    {
      for j := 0 to n
        invariant forall a, b :: 0 <= a < i && 0 <= b < n ==> m[a, b] == table[(enc[a], enc[b])] as real
        invariant forall b :: 0 <= b < j ==> m[i, b] == table[(enc[i], enc[b])] as real
      {
        m[i, j] := table[(enc[i], enc[j])] as real;
      }
    }
  }

  // ---------------------------------------------------------------- the Miyazawa-Jernigan model

  /** The key residues i and j look up in the contact table. */
  function Pair(s: string, i: nat, j: nat): (char, char)
    requires i < |s| && j < |s|
  {
    (s[i], s[j])
  }

  /** Residue i has an entry in the contact table for every residue of the sequence. */
  predicate RowCovered(s: string, mj: map<(char, char), real>, i: nat)
    requires i < |s|
  {
    forall b :: 0 <= b < |s| ==> Pair(s, i, b) in mj
  }

  /** Rows 0 .. i - 1 have an entry in the contact table for every residue of the sequence. */
  predicate RowsCovered(s: string, mj: map<(char, char), real>, i: nat)
    requires i <= |s|
  {
    forall a, b :: 0 <= a < i && 0 <= b < |s| ==> Pair(s, a, b) in mj
  }

  /** Every pair of residues of the sequence has an entry in the contact table. */
  predicate MjCovers(s: string, mj: map<(char, char), real>)
  {
    RowsCovered(s, mj, |s|)
  }

  /** The contact energy of residues i and j; the fill never reads it for a missing pair (0.0 there). */
  function MjEntry(s: string, mj: map<(char, char), real>, i: nat, j: nat): real
    requires i < |s| && j < |s|
  {
    if Pair(s, i, j) in mj then mj[Pair(s, i, j)] else 0.0
  }

  /** The entries of row i the inner loop appends before column j. */
  function RowEntries(s: string, mj: map<(char, char), real>, i: nat, j: nat): seq<real>
    requires i < |s| && j <= |s|
  {
    seq(j, b requires 0 <= b < j => MjEntry(s, mj, i, b))
  }

  /** The entries of rows 0 .. i - 1, in the order the fill appends them. */
  function Entries(s: string, mj: map<(char, char), real>, i: nat): seq<real>
    requires i <= |s|
  {
    if i == 0 then [] else Entries(s, mj, i - 1) + RowEntries(s, mj, i - 1, |s|)
  }

  /** All the entries of the matrix, as the MJ fill appends them. */
  function Values(s: string, mj: map<(char, char), real>): seq<real>
  {
    Entries(s, mj, |s|)
  }

  lemma RowEntriesHold(s: string, mj: map<(char, char), real>, i: nat, j: nat, b: nat)
    requires i < |s| && j <= |s| && b < j
    ensures MjEntry(s, mj, i, b) in RowEntries(s, mj, i, j)
  {
    assert RowEntries(s, mj, i, j)[b] == MjEntry(s, mj, i, b);
  }

  lemma RowEntriesAreEntries(s: string, mj: map<(char, char), real>, i: nat, j: nat, v: real)
    requires i < |s| && j <= |s| && v in RowEntries(s, mj, i, j)
    ensures exists b :: 0 <= b < |s| && v == MjEntry(s, mj, i, b)
  {
    var b :| 0 <= b < j && RowEntries(s, mj, i, j)[b] == v;
  }

  /** The fill appends row i after rows 0 .. i - 1. */
  lemma EntriesStep(s: string, mj: map<(char, char), real>, i: nat)
    requires i < |s|
    ensures Entries(s, mj, i + 1) == Entries(s, mj, i) + RowEntries(s, mj, i, |s|)
  {
  }

  /** The entries of row a are among the values appended once row a is filled. */
  lemma LastRowHolds(s: string, mj: map<(char, char), real>, a: nat, b: nat)
    requires a < |s| && b < |s|
    ensures MjEntry(s, mj, a, b) in Entries(s, mj, a + 1)
  {
    EntriesStep(s, mj, a);
    RowEntriesHold(s, mj, a, |s|, b);
  }

  /** Every entry of the matrix is among the values the fill appends. */
  lemma EntriesHold(s: string, mj: map<(char, char), real>, i: nat, a: nat, b: nat)
    requires i <= |s| && a < i && b < |s|
    ensures MjEntry(s, mj, a, b) in Entries(s, mj, i)
  {
    LastRowHolds(s, mj, a, b);
    EntriesGrow(s, mj, a + 1, i, MjEntry(s, mj, a, b));
  }

  /** A value appended by the first j rows stays among the values of the first i >= j rows. */
  lemma {:induction false} EntriesGrow(s: string, mj: map<(char, char), real>, j: nat, i: nat, v: real)
    requires j <= i <= |s| && v in Entries(s, mj, j)
    ensures v in Entries(s, mj, i)
    decreases i
  {
    if j < i {
      EntriesGrow(s, mj, j, i - 1, v);
      EarlierRowsKept(s, mj, i - 1, v);
    }
  }

  /** Filling one more row keeps the values already appended. */
  lemma EarlierRowsKept(s: string, mj: map<(char, char), real>, k: nat, v: real)
    requires k < |s| && v in Entries(s, mj, k)
    ensures v in Entries(s, mj, k + 1)
  {
    EntriesStep(s, mj, k);
    InLeftPart(v, Entries(s, mj, k), RowEntries(s, mj, k, |s|));
  }

  lemma InLeftPart<T>(x: T, u: seq<T>, v: seq<T>)
    requires x in u
    ensures x in u + v
  {
  }

  /** Every value the fill appends is an entry of the matrix. */
  lemma {:induction false} EntriesAreEntries(s: string, mj: map<(char, char), real>, i: nat, v: real)
    requires i <= |s| && v in Entries(s, mj, i)
    ensures exists a, b :: 0 <= a < i && 0 <= b < |s| && v == MjEntry(s, mj, a, b)
  {
    var k := i - 1;
    EntriesStep(s, mj, k);
    if v in Entries(s, mj, k) {
      EntriesAreEntries(s, mj, k, v);
    } else {
      RowEntriesAreEntries(s, mj, k, |s|, v);
    }
  }

  /** The inner loop of the MJ fill: row i from the contact table; a missing residue stops it. */
  method FillRowFromMj(m: array2<real>, s: string, mj: map<(char, char), real>, i: nat) returns (row: seq<real>, found: bool)
    requires m.Length0 == |s| && m.Length1 == |s| && i < |s|
    modifies m
    ensures found <==> RowCovered(s, mj, i)
    ensures found ==> row == RowEntries(s, mj, i, |s|)
    ensures found ==> forall b :: 0 <= b < |s| ==> m[i, b] == MjEntry(s, mj, i, b)
    ensures forall a, b :: 0 <= a < |s| && 0 <= b < |s| && a != i ==> m[a, b] == old(m[a, b])
  {
    row := [];
    for j := 0 to |s|
      invariant forall b :: 0 <= b < j ==> Pair(s, i, b) in mj && m[i, b] == mj[Pair(s, i, b)]
      invariant row == RowEntries(s, mj, i, j)
      invariant forall a, b :: 0 <= a < |s| && 0 <= b < |s| && a != i ==> m[a, b] == old(m[a, b])
    {
      if Pair(s, i, j) !in mj {
        found := false;
        return;
      }
      m[i, j] := mj[Pair(s, i, j)];
      row := row + [mj[Pair(s, i, j)]];
      assert row == RowEntries(s, mj, i, j + 1);
    }
    found := true;
  }

  /** The double loop of `get_energy_matrix` for MJ: each contact energy stored and appended; a missing residue stops it. */
  method FillFromMj(s: string, mj: map<(char, char), real>) returns (m: array2<real>, values: seq<real>, found: bool)
    ensures fresh(m) && m.Length0 == |s| && m.Length1 == |s|
    ensures found <==> MjCovers(s, mj)
    ensures found ==> values == Values(s, mj)
    ensures found ==> forall i, j :: 0 <= i < |s| && 0 <= j < |s| ==> m[i, j] == MjEntry(s, mj, i, j)
  {
    var n := |s|;
    m := new real[n, n]((i, j) => 0.0);
    values := [];
    for i := 0 to n
      invariant RowsCovered(s, mj, i)
      invariant forall a, b :: 0 <= a < i && 0 <= b < n ==> m[a, b] == MjEntry(s, mj, a, b)
      invariant values == Entries(s, mj, i)
    {
      var row, rowFound := FillRowFromMj(m, s, mj, i);
      if !rowFound {
        found := false;
        return;
      }
      values := values + row;
    }
    found := true;
  }

  /** Strictly decreasing: distinct values, largest first. */
  predicate Descending(s: seq<real>)
  {
    forall i, j :: 0 <= i < j < |s| ==> s[i] > s[j]
  }

  /** A value put in its place in a strictly decreasing list, unless the list holds it already. */
  function Insert(s: seq<real>, v: real): (r: seq<real>)
    requires Descending(s)
    ensures Descending(r)
    ensures forall w :: w in r <==> w in s || w == v
  {
    if |s| == 0 then [v]
    else if s[0] == v then s
    else if v > s[0] then [v] + s
    else
      var rest := Insert(s[1..], v);
      assert forall k :: 0 <= k < |rest| ==> s[0] > rest[k] by {
        forall k | 0 <= k < |rest|
          ensures s[0] > rest[k]
        {
          if rest[k] != v {
            assert rest[k] in s[1..];
            var i :| 0 <= i < |s| - 1 && s[1..][i] == rest[k];
            assert s[i + 1] == rest[k];
          }
        }
      }
      assert forall w :: w in s <==> w == s[0] || w in s[1..];
      [s[0]] + rest
  }

  /** `sorted(set(values), reverse=True)`, built one value at a time. */
  function SortedSet(values: seq<real>): (r: seq<real>)
    ensures Descending(r)
  {
    if values == [] then [] else Insert(SortedSet(values[..|values| - 1]), values[|values| - 1])
  }

  /** The sorted set holds exactly the values. */
  lemma {:induction false} SortedSetElements(values: seq<real>)
    ensures forall w :: w in SortedSet(values) <==> w in values
  {
    if values != [] {
      var init := values[..|values| - 1];
      SortedSetElements(init);
      assert values == init + [values[|values| - 1]];
    }
  }

  /** Two strictly decreasing lists of the same values are the same list: the sorted set does not depend on how it is built. */
  lemma {:induction false} DescendingUnique(s: seq<real>, t: seq<real>)
    requires Descending(s) && Descending(t)
    requires forall w :: w in s <==> w in t
    ensures s == t
    decreases |s|
  {
    assert s == [] <==> t == [] by {
      if s != [] { assert s[0] in s; }
      if t != [] { assert t[0] in t; }
    }
    if s != [] {
      HeadsAgree(s, t);
      TailsAgree(s, t);
      DescendingUnique(s[1..], t[1..]);
      assert s == [s[0]] + s[1..] && t == [t[0]] + t[1..];
    }
  }

  /** Two non-empty strictly decreasing lists of the same values start with the same, largest, value. */
  lemma HeadsAgree(s: seq<real>, t: seq<real>)
    requires Descending(s) && Descending(t) && s != [] && t != []
    requires forall w :: w in s <==> w in t
    ensures s[0] == t[0]
  {
    assert s[0] >= t[0] by {
      assert t[0] in t;
      var j :| 0 <= j < |s| && s[j] == t[0];
      assert s[0] >= s[j];
    }
    assert t[0] >= s[0] by {
      assert s[0] in s;
      var i :| 0 <= i < |t| && t[i] == s[0];
      assert t[0] >= t[i];
    }
  }

  /** Past a common head, two strictly decreasing lists of the same values still hold the same values. */
  lemma TailsAgree(s: seq<real>, t: seq<real>)
    requires Descending(s) && Descending(t) && s != [] && t != [] && s[0] == t[0]
    requires forall w :: w in s <==> w in t
    ensures forall w :: w in s[1..] <==> w in t[1..]
  {
    forall w
      ensures w in s[1..] ==> w in t[1..]
    {
      if w in s[1..] {
        TailValue(s, t, w);
      }
    }
    forall w
      ensures w in t[1..] ==> w in s[1..]
    {
      if w in t[1..] {
        TailValue(t, s, w);
      }
    }
  }

  lemma TailValue(s: seq<real>, t: seq<real>, w: real)
    requires Descending(s) && Descending(t) && s != [] && t != [] && s[0] == t[0]
    requires forall w :: w in s <==> w in t
    requires w in s[1..]
    ensures w in t[1..]
  {
    var i :| 0 <= i < |s| - 1 && s[1..][i] == w;
    assert s[i + 1] == w && w < s[0] && w in t;
    var k :| 0 <= k < |t| && t[k] == w;
    assert k != 0;
    assert t[1..][k - 1] == w;
  }

  /** `energies.sort(reverse = True)` of the distinct values, one value at a time. */
  method DistinctDescending(values: seq<real>) returns (energies: seq<real>)
    ensures energies == SortedSet(values)
  {
    energies := [];
    for k := 0 to |values|
      invariant energies == SortedSet(values[..k])
    {
      assert values[..k + 1][..k] == values[..k];
      energies := Insert(energies, values[k]);
    }
    assert values[..|values|] == values;
  }

  /** The position of a value in a list that holds it. */
  function IndexOf(s: seq<real>, v: real): (k: nat)
    requires v in s
    ensures k < |s| && s[k] == v
  {
    if s[0] == v then 0 else
      assert v in s[1..];
      1 + IndexOf(s[1..], v)
  }

  /** `energy_dict[v]`: the rank of v among the distinct energies, -1 for the largest. */
  function RankOf(energies: seq<real>, v: real): int
    requires v in energies
  {
    -1 - IndexOf(energies, v)
  }

  /** Ranks lie in -k .. -1 for k distinct energies, and follow the order of the energies they replace. */
  lemma RankOrder(energies: seq<real>, v: real, w: real)
    requires Descending(energies) && v in energies && w in energies
    ensures -|energies| <= RankOf(energies, v) <= -1
    ensures v > w <==> RankOf(energies, v) > RankOf(energies, w)
    ensures v == w <==> RankOf(energies, v) == RankOf(energies, w)
  {
  }

  /** The loop rewriting every entry by its rank. */
  method RankEntries(m: array2<real>, energies: seq<real>)
    requires forall i, j :: 0 <= i < m.Length0 && 0 <= j < m.Length1 ==> m[i, j] in energies
    modifies m
    ensures forall i, j :: 0 <= i < m.Length0 && 0 <= j < m.Length1 ==>
      old(m[i, j]) in energies && m[i, j] == RankOf(energies, old(m[i, j])) as real
  {
    for i := 0 to m.Length0
      invariant forall a, b :: 0 <= a < i && 0 <= b < m.Length1 ==>
        old(m[a, b]) in energies && m[a, b] == RankOf(energies, old(m[a, b])) as real
      invariant forall a, b :: i <= a < m.Length0 && 0 <= b < m.Length1 ==> m[a, b] == old(m[a, b])
    {
      for j := 0 to m.Length1
        invariant forall a, b :: 0 <= a < i && 0 <= b < m.Length1 ==>
          old(m[a, b]) in energies && m[a, b] == RankOf(energies, old(m[a, b])) as real
        invariant forall b :: 0 <= b < j ==> old(m[i, b]) in energies && m[i, b] == RankOf(energies, old(m[i, b])) as real
        invariant forall a, b :: i <= a < m.Length0 && 0 <= b < m.Length1 && (a > i || b >= j) ==> m[a, b] == old(m[a, b])
      {
        m[i, j] := RankOf(energies, m[i, j]) as real;
      }
    }
  }

  /** The ranked energy of residues i and j under MJ. */
  function MjRank(s: string, mj: map<(char, char), real>, i: nat, j: nat): int
    requires MjCovers(s, mj) && i < |s| && j < |s|
  {
    var energies := SortedSet(Values(s, mj));
    SortedSetElements(Values(s, mj));
    EntriesHold(s, mj, |s|, i, j);
    RankOf(energies, MjEntry(s, mj, i, j))
  }

  /**
   * Under MJ, with k distinct contact energies among the pairs of the sequence, every ranked
   * entry lies in -k .. -1 and two entries compare as the contact energies they replace.
   */
  lemma MjRankOrder(s: string, mj: map<(char, char), real>, i: nat, j: nat, k: nat, l: nat)
    requires MjCovers(s, mj) && i < |s| && j < |s| && k < |s| && l < |s|
    ensures -|SortedSet(Values(s, mj))| <= MjRank(s, mj, i, j) <= -1
    ensures MjEntry(s, mj, i, j) > MjEntry(s, mj, k, l) <==> MjRank(s, mj, i, j) > MjRank(s, mj, k, l)
    ensures MjEntry(s, mj, i, j) == MjEntry(s, mj, k, l) <==> MjRank(s, mj, i, j) == MjRank(s, mj, k, l)
  {
    var values := Values(s, mj);
    SortedSetElements(values);
    EntriesHold(s, mj, |s|, i, j);
    EntriesHold(s, mj, |s|, k, l);
    RankOrder(SortedSet(values), MjEntry(s, mj, i, j), MjEntry(s, mj, k, l));
  }

  /** The ranks are dense: every rank in -k .. -1 is the rank of some pair of the sequence. */
  lemma MjRanksDense(s: string, mj: map<(char, char), real>, r: int)
    requires MjCovers(s, mj) && -|SortedSet(Values(s, mj))| <= r <= -1
    ensures exists i, j :: 0 <= i < |s| && 0 <= j < |s| && MjRank(s, mj, i, j) == r
  {
    var values := Values(s, mj);
    var energies := SortedSet(values);
    SortedSetElements(values);
    var v := energies[-1 - r];
    EntriesAreEntries(s, mj, |s|, v);
    var i, j :| 0 <= i < |s| && 0 <= j < |s| && v == MjEntry(s, mj, i, j);
    var x := IndexOf(energies, v);
    assert x == -1 - r by {
      assert energies[x] == energies[-1 - r];
    }
    assert MjRank(s, mj, i, j) == r;
  }

  // ---------------------------------------------------------------- the matrix

  /**
   * `get_energy_matrix`: a model other than HP, HPAB, WHPAB and MJ raises ValueError; a table
   * model fills entry (i, j) from the letters of residues i and j; MJ fills the contact
   * energies, raises KeyError on a residue the contact table lacks, and ranks the entries.
   */
  method GetEnergyMatrix(sequence: string, model: string, mj: map<(char, char), real>) returns (r: Result<array2<real>>)
    ensures !IsTableModel(model) && model != "MJ" ==> r == Err(ValueError)
    ensures model == "MJ" && !MjCovers(sequence, mj) ==> r == Err(KeyError)
    ensures (IsTableModel(model) || (model == "MJ" && MjCovers(sequence, mj))) ==>
      r.Ok? && fresh(r.value) && r.value.Length0 == |sequence| && r.value.Length1 == |sequence|
    ensures IsTableModel(model) ==> forall i, j :: 0 <= i < |sequence| && 0 <= j < |sequence| ==>
      r.value[i, j] == TableEntry(model, sequence, i, j) as real
    ensures model == "MJ" && MjCovers(sequence, mj) ==> forall i, j :: 0 <= i < |sequence| && 0 <= j < |sequence| ==>
      r.value[i, j] == MjRank(sequence, mj, i, j) as real
    ensures r.Ok? ==> forall i, j :: 0 <= i < r.value.Length0 && 0 <= j < r.value.Length1 ==>
      r.value[i, j] == r.value[i, j].Floor as real
  {
    if IsTableModel(model) {
      var enc;
      if model == "HP" {
        enc := EncodeHp(sequence);
      } else {
        enc := EncodeHpab(sequence);
      }
      assert enc == Encoding(model, sequence);
      forall i, j | 0 <= i < |enc| && 0 <= j < |enc|
        ensures (enc[i], enc[j]) in TableOf(model)
      {
        TableCoversEncoding(model, sequence, i, j);
      }
      var m := FillFromTable(enc, TableOf(model));
      r := Ok(m);
    } else if model == "MJ" {
      var m, values, found := FillFromMj(sequence, mj);
      if !found {
        return Err(KeyError);
      }
      var energies := DistinctDescending(values);
      SortedSetElements(values);
      forall i, j | 0 <= i < |sequence| && 0 <= j < |sequence|
        ensures m[i, j] in energies
      {
        EntriesHold(sequence, mj, |sequence|, i, j);
      }
      RankEntries(m, energies);
      r := Ok(m);
    } else {
      r := Err(ValueError);
    }
  }
}
