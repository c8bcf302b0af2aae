/**
 The cost model and the distance recurrence of min_edit_distance/med.py,
 and what an alignment of two strings is.

 `Dist(s, t, a, b)` is the value the matrix holds at row `a + 1`, column
 `b + 1` (the matrix is 1-based inside a border of labels): the cost of
 turning `s[..a]` into `t[..b]`. `Track(s, t, a, b)` is the operation tag the
 track matrix holds there: 0 delete, 1 substitute, 2 insert.
 */
module EditDistanceSpec {

  function InsCost(): nat { 1 }

  function DelCost(): nat { 1 }

  function SubCost(si: char, ti: char): nat {
    if ti == si then 0 else 2
  }

  /** Substituting is free exactly for equal characters and otherwise costs a deletion plus an insertion. */
  lemma CostModel(x: char, y: char)
    ensures InsCost() == 1 && DelCost() == 1
    ensures SubCost(x, y) == 0 <==> x == y
    ensures x != y ==> SubCost(x, y) == DelCost() + InsCost()
  {
  }

  function Min(a: int, b: int): int {
    if a <= b then a else b
  }

  /**
   min_of_3: the least of the delete, substitute and insert candidates, with
   the tag of a candidate that attains it; on ties substitute wins, then delete.
   */
  function MinOf3(a: int, b: int, c: int): (r: (int, int))
    ensures r.0 <= a && r.0 <= b && r.0 <= c
    ensures (r.1 == 0 && r.0 == a) || (r.1 == 1 && r.0 == b) || (r.1 == 2 && r.0 == c)
    ensures r.1 == 1 <==> b == r.0
    ensures r.1 == 0 <==> b != r.0 && a == r.0
  {
    var m := Min(a, Min(b, c));
    if b == m then (m, 1)
    else if a == m then (m, 0)
    else (m, 2)
  }

  /**
   The distance matrix: 0 in the corner, the first row built by insertions,
   the first column by deletions, every other cell the `min_of_3` of its three
   neighbours' candidates.
   */
  function Dist(s: seq<char>, t: seq<char>, a: nat, b: nat): (r: nat)
    requires a <= |s| && b <= |t|
    ensures a == 0 ==> r == b
    ensures b == 0 ==> r == a
    ensures r <= a + b
    decreases a + b
  {
    if a == 0 && b == 0 then 0
    else if a == 0 then Dist(s, t, 0, b - 1) + InsCost()
    else if b == 0 then Dist(s, t, a - 1, 0) + DelCost()
    else
      MinOf3(Dist(s, t, a - 1, b) + DelCost(),
             Dist(s, t, a - 1, b - 1) + SubCost(s[a - 1], t[b - 1]),
             Dist(s, t, a, b - 1) + InsCost()).0
  }

  /** The track matrix: 2 along the first row, 0 down the first column, the `min_of_3` tag inside. */
  function Track(s: seq<char>, t: seq<char>, a: nat, b: nat): int
    requires a <= |s| && b <= |t|
  {
    if a == 0 && b == 0 then 0
    else if a == 0 then 2
    else if b == 0 then 0
    else
      MinOf3(Dist(s, t, a - 1, b) + DelCost(),
             Dist(s, t, a - 1, b - 1) + SubCost(s[a - 1], t[b - 1]),
             Dist(s, t, a, b - 1) + InsCost()).1
  }

  /** An inner cell is the `min_of_3` of its three candidates, value and tag. */
  lemma InteriorCell(s: seq<char>, t: seq<char>, a: nat, b: nat)
    requires 0 < a <= |s| && 0 < b <= |t|
    ensures var v := MinOf3(Dist(s, t, a - 1, b) + DelCost(),
                            Dist(s, t, a - 1, b - 1) + SubCost(s[a - 1], t[b - 1]),
                            Dist(s, t, a, b - 1) + InsCost());
      Dist(s, t, a, b) == v.0 && Track(s, t, a, b) == v.1
  {
  }

  /** Following a tag away from the corner stays in the matrix and accounts for the cell's value exactly. */
  lemma TrackStep(s: seq<char>, t: seq<char>, a: nat, b: nat)
    requires a <= |s| && b <= |t| && a + b > 0
    ensures Track(s, t, a, b) == 0 ==> a > 0 && Dist(s, t, a, b) == Dist(s, t, a - 1, b) + DelCost()
    ensures Track(s, t, a, b) == 1 ==>
      a > 0 && b > 0 && Dist(s, t, a, b) == Dist(s, t, a - 1, b - 1) + SubCost(s[a - 1], t[b - 1])
    ensures Track(s, t, a, b) != 0 && Track(s, t, a, b) != 1 ==>
      Track(s, t, a, b) == 2 && b > 0 && Dist(s, t, a, b) == Dist(s, t, a, b - 1) + InsCost()
  {
  }

  /** Each of the three moves bounds a cell from above. */
  lemma DistMoves(s: seq<char>, t: seq<char>, a: nat, b: nat)
    requires a <= |s| && b <= |t|
    ensures a > 0 ==> Dist(s, t, a, b) <= Dist(s, t, a - 1, b) + DelCost()
    ensures b > 0 ==> Dist(s, t, a, b) <= Dist(s, t, a, b - 1) + InsCost()
    ensures a > 0 && b > 0 ==> Dist(s, t, a, b) <= Dist(s, t, a - 1, b - 1) + SubCost(s[a - 1], t[b - 1])
  {
  }

  /** A cell depends only on the prefixes it covers. */
  lemma {:induction false} DistPrefix(s: seq<char>, t: seq<char>, s': seq<char>, t': seq<char>, a: nat, b: nat)
    requires a <= |s| && b <= |t| && a <= |s'| && b <= |t'|
    requires s[..a] == s'[..a] && t[..b] == t'[..b]
    ensures Dist(s, t, a, b) == Dist(s', t', a, b)
    decreases a + b
  {
    if a > 0 { assert s[..a - 1] == s[..a][..a - 1] && s'[..a - 1] == s'[..a][..a - 1]; }
    if b > 0 { assert t[..b - 1] == t[..b][..b - 1] && t'[..b - 1] == t'[..b][..b - 1]; }
    if a > 0 && b > 0 {
      assert s[a - 1] == s[..a][a - 1] == s'[a - 1];
      assert t[b - 1] == t[..b][b - 1] == t'[b - 1];
      DistPrefix(s, t, s', t', a - 1, b);
      DistPrefix(s, t, s', t', a - 1, b - 1);
      DistPrefix(s, t, s', t', a, b - 1);
    } else if a > 0 {
      DistPrefix(s, t, s', t', a - 1, b);
    } else if b > 0 {
      DistPrefix(s, t, s', t', a, b - 1);
    }
  }

  /** The distance is 0 exactly between equal strings. */
  lemma {:induction false} DistZero(s: seq<char>, t: seq<char>, a: nat, b: nat)
    requires a <= |s| && b <= |t|
    ensures Dist(s, t, a, b) == 0 <==> a == b && s[..a] == t[..b]
    decreases a + b
  {
    if a > 0 && b > 0 {
      DistZero(s, t, a - 1, b - 1);
      assert s[..a] == s[..a - 1] + [s[a - 1]];
      assert t[..b] == t[..b - 1] + [t[b - 1]];
      if a == b && s[..a] == t[..b] {
        assert s[a - 1] == s[..a][a - 1] == t[..b][b - 1] == t[b - 1];
        assert s[..a - 1] == s[..a][..a - 1];
        assert t[..b - 1] == t[..b][..b - 1];
      }
    }
  }

  // ---------------------------------------------------------------------------
  // Alignments
  // ---------------------------------------------------------------------------

  /** The gap the traceback writes into the row that an operation skips. */
  const Gap: char := '*'

  predicate IsOp(op: char) { op == 'd' || op == 's' || op == 'i' }

  /** The entries of `row` at the positions whose operation is not `skip`. */
  function Keep(ops: seq<char>, row: seq<char>, skip: char): seq<char>
    requires |ops| == |row|
  {
    if |ops| == 0 then []
    else (if ops[0] == skip then [] else [row[0]]) + Keep(ops[1..], row[1..], skip)
  }

  function OpCost(op: char, sc: char, tc: char): nat {
    if op == 'd' then DelCost()
    else if op == 'i' then InsCost()
    else if op == 's' then SubCost(sc, tc)
    else 0
  }

  /** Total cost of an alignment: d and i cost 1, s costs `sub_cost` of its two characters. */
  function Cost(ops: seq<char>, sr: seq<char>, tr: seq<char>): nat
    requires |ops| == |sr| == |tr|
  {
    if |ops| == 0 then 0
    else OpCost(ops[0], sr[0], tr[0]) + Cost(ops[1..], sr[1..], tr[1..])
  }

  /**
   Three rows of equal length spelling an edit of `s` into `t`: a delete has a
   gap in the target row, an insert a gap in the source row, and dropping
   those positions gives back `s` and `t`.
   */
  predicate IsAlignment(ops: seq<char>, sr: seq<char>, tr: seq<char>, s: seq<char>, t: seq<char>) {
    |ops| == |sr| == |tr| &&
    (forall k :: 0 <= k < |ops| ==> IsOp(ops[k])) &&
    (forall k :: 0 <= k < |ops| && ops[k] == 'd' ==> tr[k] == Gap) &&
    (forall k :: 0 <= k < |ops| && ops[k] == 'i' ==> sr[k] == Gap) &&
    Keep(ops, sr, 'i') == s && Keep(ops, tr, 'd') == t
  }

  lemma {:induction false} KeepAppend(o1: seq<char>, r1: seq<char>, o2: seq<char>, r2: seq<char>, skip: char)
    requires |o1| == |r1| && |o2| == |r2|
    ensures Keep(o1 + o2, r1 + r2, skip) == Keep(o1, r1, skip) + Keep(o2, r2, skip)
  {
    if |o1| > 0 {
      assert (o1 + o2)[1..] == o1[1..] + o2;
      assert (r1 + r2)[1..] == r1[1..] + r2;
      KeepAppend(o1[1..], r1[1..], o2, r2, skip);
    } else {
      assert o1 + o2 == o2 && r1 + r2 == r2;
    }
  }

  lemma {:induction false} CostAppend(o1: seq<char>, s1: seq<char>, t1: seq<char>, o2: seq<char>, s2: seq<char>, t2: seq<char>)
    requires |o1| == |s1| == |t1| && |o2| == |s2| == |t2|
    ensures Cost(o1 + o2, s1 + s2, t1 + t2) == Cost(o1, s1, t1) + Cost(o2, s2, t2)
  {
    if |o1| > 0 {
      assert (o1 + o2)[1..] == o1[1..] + o2;
      assert (s1 + s2)[1..] == s1[1..] + s2;
      assert (t1 + t2)[1..] == t1[1..] + t2;
      CostAppend(o1[1..], s1[1..], t1[1..], o2, s2, t2);
    } else {
      assert o1 + o2 == o2 && s1 + s2 == s2 && t1 + t2 == t2;
    }
  }

  /** Prepending one column to an alignment, as the traceback does. */
  lemma AlignmentCons(op: char, sc: char, tc: char, ops: seq<char>, sr: seq<char>, tr: seq<char>, s: seq<char>, t: seq<char>)
    requires IsAlignment(ops, sr, tr, s, t) && IsOp(op)
    requires op == 'd' ==> tc == Gap
    requires op == 'i' ==> sc == Gap
    ensures IsAlignment([op] + ops, [sc] + sr, [tc] + tr,
                        (if op == 'i' then [] else [sc]) + s,
                        (if op == 'd' then [] else [tc]) + t)
    ensures Cost([op] + ops, [sc] + sr, [tc] + tr) == OpCost(op, sc, tc) + Cost(ops, sr, tr)
  {
    assert ([op] + ops)[1..] == ops && ([sc] + sr)[1..] == sr && ([tc] + tr)[1..] == tr;
  }

  /** Dropping the last column of an alignment leaves an alignment of the shortened strings. */
  lemma AlignmentInit(ops: seq<char>, sr: seq<char>, tr: seq<char>, s: seq<char>, t: seq<char>)
    requires IsAlignment(ops, sr, tr, s, t) && |ops| > 0
    ensures var n := |ops| - 1;
      (ops[n] != 'i' ==> |s| > 0 && sr[n] == s[|s| - 1]) &&
      (ops[n] != 'd' ==> |t| > 0 && tr[n] == t[|t| - 1]) &&
      IsAlignment(ops[..n], sr[..n], tr[..n],
                  if ops[n] == 'i' then s else s[..|s| - 1],
                  if ops[n] == 'd' then t else t[..|t| - 1]) &&
      Cost(ops, sr, tr) == Cost(ops[..n], sr[..n], tr[..n]) + OpCost(ops[n], sr[n], tr[n])
  {
    var n := |ops| - 1;
    var o1, s1, t1 := ops[..n], sr[..n], tr[..n];
    var op, sc, tc := ops[n], sr[n], tr[n];
    assert ops == o1 + [op] && sr == s1 + [sc] && tr == t1 + [tc];
    KeepAppend(o1, s1, [op], [sc], 'i');
    KeepAppend(o1, t1, [op], [tc], 'd');
    CostAppend(o1, s1, t1, [op], [sc], [tc]);
    assert Keep([op], [sc], 'i') == (if op == 'i' then [] else [sc]);
    assert Keep([op], [tc], 'd') == (if op == 'd' then [] else [tc]);
    var s', t' := Keep(o1, s1, 'i'), Keep(o1, t1, 'd');
    if op != 'i' { assert s == s' + [sc]; assert s[..|s| - 1] == s'; }
    if op != 'd' { assert t == t' + [tc]; assert t[..|t| - 1] == t'; }
  }

  /** The cell of `s` into `t` is at most the cell the last column's operation comes from plus that operation's cost. */
  lemma LastColumnBound(s: seq<char>, t: seq<char>, op: char, sc: char, tc: char)
    requires IsOp(op)
    requires op != 'i' ==> |s| > 0 && sc == s[|s| - 1]
    requires op != 'd' ==> |t| > 0 && tc == t[|t| - 1]
    ensures var s' := if op == 'i' then s else s[..|s| - 1];
      var t' := if op == 'd' then t else t[..|t| - 1];
      Dist(s, t, |s|, |t|) <= Dist(s', t', |s'|, |t'|) + OpCost(op, sc, tc)
  {
    var s' := if op == 'i' then s else s[..|s| - 1];
    var t' := if op == 'd' then t else t[..|t| - 1];
    DistPrefix(s', t', s, t, |s'|, |t'|);
    DistMoves(s, t, |s|, |t|);
  }

  /** No alignment of `s` into `t` costs less than the matrix's last cell. */
  lemma {:induction false} AlignmentCostBound(ops: seq<char>, sr: seq<char>, tr: seq<char>, s: seq<char>, t: seq<char>)
    requires IsAlignment(ops, sr, tr, s, t)
    ensures Cost(ops, sr, tr) >= Dist(s, t, |s|, |t|)
    decreases |ops|
  {
    if |ops| > 0 {
      var n := |ops| - 1;
      AlignmentInit(ops, sr, tr, s, t);
      var s' := if ops[n] == 'i' then s else s[..|s| - 1];
      var t' := if ops[n] == 'd' then t else t[..|t| - 1];
      AlignmentCostBound(ops[..n], sr[..n], tr[..n], s', t');
      LastColumnBound(s, t, ops[n], sr[n], tr[n]);
    }
  }

  /** Weight of a relabelled operation line: d and i 1, s 2, a blank (an equal-character substitution) 0. */
  function Weight(marks: seq<char>): nat {
    if |marks| == 0 then 0
    else (if marks[0] == 'd' || marks[0] == 'i' then 1 else if marks[0] == 's' then 2 else 0) + Weight(marks[1..])
  }

  predicate NoGap(s: seq<char>) {
    forall k :: 0 <= k < |s| ==> s[k] != Gap
  }

  /** The row without its gap characters. */
  function DropGaps(row: seq<char>): seq<char> {
    if |row| == 0 then [] else (if row[0] == Gap then [] else [row[0]]) + DropGaps(row[1..])
  }

  /** When the kept characters contain no gap, dropping gaps keeps exactly them. */
  lemma {:induction false} DropGapsKeep(ops: seq<char>, row: seq<char>, skip: char)
    requires |ops| == |row|
    requires forall k :: 0 <= k < |ops| && ops[k] == skip ==> row[k] == Gap
    requires NoGap(Keep(ops, row, skip))
    ensures DropGaps(row) == Keep(ops, row, skip)
  {
    if |ops| > 0 {
      var rest := Keep(ops[1..], row[1..], skip);
      assert Keep(ops, row, skip) == (if ops[0] == skip then [] else [row[0]]) + rest;
      assert NoGap(rest) by {
        forall k | 0 <= k < |rest|
          ensures rest[k] != Gap
        {
          if ops[0] != skip { assert rest[k] == Keep(ops, row, skip)[k + 1]; }
          else { assert rest[k] == Keep(ops, row, skip)[k]; }
        }
      }
      if ops[0] != skip { assert Keep(ops, row, skip)[0] == row[0]; }
      DropGapsKeep(ops[1..], row[1..], skip);
    }
  }
}
