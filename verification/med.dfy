/**
 minimum_edit_distance of min_edit_distance/med.py: the matrix fill, the
 traceback that spells out one cheapest alignment, and the relabelling of
 free substitutions.

 The matrices are lists of `|source| + 2` rows of `|target| + 2` entries, as
 the source builds them; row 0 and column 0 hold display labels in the
 source and are never read, so here they stay 0. Cell `[i][j]` for
 `i, j >= 1` holds `Dist(source, target, i - 1, j - 1)`.
 */
module MinEditDistance {
  import opened EditDistanceSpec

  /** A matrix as the source builds it: a list of rows. */
  type Matrix = seq<seq<int>>

  /** `mat` has `rows` rows of `cols` entries each. */
  predicate Shaped(mat: Matrix, rows: nat, cols: nat) {
    |mat| == rows && forall r :: 0 <= r < rows ==> |mat[r]| == cols
  }

  /**
   Cell `[r][c]` obeys the rule the fill writes it by: 0 in the corner, one
   insertion more than its left neighbour along the first row (tag 2), one
   deletion more than the cell above down the first column (tag 0), and
   inside, the value and tag `min_of_3` gives for the three neighbours'
   candidates.
   */
  predicate CellRule(dis: Matrix, track: Matrix, s: seq<char>, t: seq<char>, r: int, c: int)
    requires Shaped(dis, |s| + 2, |t| + 2) && Shaped(track, |s| + 2, |t| + 2)
    requires 1 <= r <= |s| + 1 && 1 <= c <= |t| + 1
  {
    if r == 1 && c == 1 then dis[1][1] == 0 && track[1][1] == 0
    else if r == 1 then dis[1][c] == dis[1][c - 1] + InsCost() && track[1][c] == 2
    else if c == 1 then dis[r][1] == dis[r - 1][1] + DelCost() && track[r][1] == 0
    else
      var v := MinOf3(dis[r - 1][c] + DelCost(), dis[r - 1][c - 1] + SubCost(s[r - 2], t[c - 2]), dis[r][c - 1] + InsCost());
      dis[r][c] == v.0 && track[r][c] == v.1
  }

  /** Every cell in rows and columns 1 and on obeys its rule. */
  predicate Recurrence(dis: Matrix, track: Matrix, s: seq<char>, t: seq<char>) {
    Shaped(dis, |s| + 2, |t| + 2) && Shaped(track, |s| + 2, |t| + 2) &&
    forall r, c :: 1 <= r <= |s| + 1 && 1 <= c <= |t| + 1 ==> CellRule(dis, track, s, t, r, c)
  }

  /** Cell `[a + 1][b + 1]` holds the distance of `s[..a]` and `t[..b]`. */
  predicate CellHolds(dis: Matrix, s: seq<char>, t: seq<char>, a: nat, b: nat)
    requires Shaped(dis, |s| + 2, |t| + 2) && a <= |s| && b <= |t|
  {
    dis[a + 1][b + 1] == Dist(s, t, a, b)
  }

  /** Both matrices hold the distance and the tag of every pair of prefixes in rows and columns 1 and on. */
  predicate Filled(dis: Matrix, track: Matrix, s: seq<char>, t: seq<char>) {
    Shaped(dis, |s| + 2, |t| + 2) && Shaped(track, |s| + 2, |t| + 2) &&
    (forall a: nat, b: nat :: a <= |s| && b <= |t| ==> CellHolds(dis, s, t, a, b)) &&
    (forall a: nat, b: nat :: a <= |s| && b <= |t| ==> track[a + 1][b + 1] == Track(s, t, a, b))
  }

  /** An inner cell whose rule holds and whose three neighbours hold their distances holds its own. */
  lemma RuleStep(dis: Matrix, track: Matrix, s: seq<char>, t: seq<char>, a: nat, b: nat)
    requires Shaped(dis, |s| + 2, |t| + 2) && Shaped(track, |s| + 2, |t| + 2)
    requires 0 < a <= |s| && 0 < b <= |t| && CellRule(dis, track, s, t, a + 1, b + 1)
    requires CellHolds(dis, s, t, a - 1, b)
    requires CellHolds(dis, s, t, a - 1, b - 1)
    requires CellHolds(dis, s, t, a, b - 1)
    ensures CellHolds(dis, s, t, a, b)
  {
    InteriorCell(s, t, a, b);
  }

  /** In a matrix obeying the recurrence, cell `[a + 1][b + 1]` holds the distance of `s[..a]` and `t[..b]`. */
  lemma {:induction false} RecurrenceCell(dis: Matrix, track: Matrix, s: seq<char>, t: seq<char>, a: nat, b: nat)
    requires Recurrence(dis, track, s, t) && a <= |s| && b <= |t|
    ensures CellHolds(dis, s, t, a, b)
    decreases a + b, 1
  {
    assert CellRule(dis, track, s, t, a + 1, b + 1);
    if a > 0 && b > 0 {
      RecurrenceInner(dis, track, s, t, a, b);
    } else if a > 0 {
      RecurrenceCell(dis, track, s, t, a - 1, b);
    } else if b > 0 {
      RecurrenceCell(dis, track, s, t, a, b - 1);
    }
  }

  /** The inner-cell case of `RecurrenceCell`: the three neighbours first, then the cell's rule. */
  lemma {:induction false} RecurrenceInner(dis: Matrix, track: Matrix, s: seq<char>, t: seq<char>, a: nat, b: nat)
    requires Recurrence(dis, track, s, t) && 0 < a <= |s| && 0 < b <= |t|
    ensures CellHolds(dis, s, t, a, b)
    decreases a + b, 0
  {
    RecurrenceCell(dis, track, s, t, a - 1, b);
    RecurrenceCell(dis, track, s, t, a, b - 1);
    RecurrenceCell(dis, track, s, t, a - 1, b - 1);
    assert CellRule(dis, track, s, t, a + 1, b + 1);
    RuleStep(dis, track, s, t, a, b);
  }

  /** An inner cell whose rule holds and whose three neighbours hold their distances holds the tag `Track` gives. */
  lemma TagStep(dis: Matrix, track: Matrix, s: seq<char>, t: seq<char>, a: nat, b: nat)
    requires Shaped(dis, |s| + 2, |t| + 2) && Shaped(track, |s| + 2, |t| + 2)
    requires 0 < a <= |s| && 0 < b <= |t| && CellRule(dis, track, s, t, a + 1, b + 1)
    requires CellHolds(dis, s, t, a - 1, b)
    requires CellHolds(dis, s, t, a - 1, b - 1)
    requires CellHolds(dis, s, t, a, b - 1)
    ensures track[a + 1][b + 1] == Track(s, t, a, b)
  {
    InteriorCell(s, t, a, b);
  }

  /** Once the distances are in place, the recurrence puts the tag of `s[..a]` and `t[..b]` in cell `[a + 1][b + 1]`. */
  lemma TagCell(dis: Matrix, track: Matrix, s: seq<char>, t: seq<char>, a: nat, b: nat)
    requires Recurrence(dis, track, s, t) && a <= |s| && b <= |t|
    requires forall a': nat, b': nat :: a' <= |s| && b' <= |t| ==> CellHolds(dis, s, t, a', b')
    ensures track[a + 1][b + 1] == Track(s, t, a, b)
  {
    assert CellRule(dis, track, s, t, a + 1, b + 1);
    if a > 0 && b > 0 {
      TagStep(dis, track, s, t, a, b);
    }
  }

  lemma RecurrenceFilled(dis: Matrix, track: Matrix, s: seq<char>, t: seq<char>)
    requires Recurrence(dis, track, s, t)
    ensures Filled(dis, track, s, t)
  {
    forall a: nat, b: nat | a <= |s| && b <= |t|
      ensures CellHolds(dis, s, t, a, b)
    {
      RecurrenceCell(dis, track, s, t, a, b);
    }
    forall a: nat, b: nat | a <= |s| && b <= |t|
      ensures track[a + 1][b + 1] == Track(s, t, a, b)
    {
      TagCell(dis, track, s, t, a, b);
    }
  }

  /** A cell's rule reads only the cell and its three neighbours, so it survives any change elsewhere. */
  lemma RuleFrame(d0: Matrix, t0: Matrix, d1: Matrix, t1: Matrix, s: seq<char>, t: seq<char>, r: int, c: int)
    requires Shaped(d0, |s| + 2, |t| + 2) && Shaped(t0, |s| + 2, |t| + 2)
    requires Shaped(d1, |s| + 2, |t| + 2) && Shaped(t1, |s| + 2, |t| + 2)
    requires 1 <= r <= |s| + 1 && 1 <= c <= |t| + 1 && CellRule(d0, t0, s, t, r, c)
    requires d1[r][c] == d0[r][c] && t1[r][c] == t0[r][c]
    requires r > 1 ==> d1[r - 1][c] == d0[r - 1][c]
    requires r > 1 && c > 1 ==> d1[r - 1][c - 1] == d0[r - 1][c - 1]
    requires c > 1 ==> d1[r][c - 1] == d0[r][c - 1]
    ensures CellRule(d1, t1, s, t, r, c)
  {
  }

  /** The state of the fill before row `i`: the borders and every inner row above `i` obey their rules. */
  predicate FilledUpTo(dis: Matrix, track: Matrix, s: seq<char>, t: seq<char>, i: int) {
    Shaped(dis, |s| + 2, |t| + 2) && Shaped(track, |s| + 2, |t| + 2) &&
    (forall r :: 1 <= r <= |s| + 1 ==> CellRule(dis, track, s, t, r, 1)) &&
    (forall c :: 1 <= c <= |t| + 1 ==> CellRule(dis, track, s, t, 1, c)) &&
    (forall r, c :: 2 <= r < i && r <= |s| + 1 && 2 <= c <= |t| + 1 ==> CellRule(dis, track, s, t, r, c))
  }

  /** The fill: the corner and the two borders, then the inner cells row by row. */
  method FillMatrices(target: seq<char>, source: seq<char>) returns (dis: Matrix, track: Matrix)
    ensures Recurrence(dis, track, source, target)
    ensures Filled(dis, track, source, target)
  {
    dis, track := FillBorders(target, source);
    for i := 2 to |source| + 2
      invariant FilledUpTo(dis, track, source, target, i)
    {
      var row, trow := FillRow(dis[i - 1], dis[i], track[i], source, target, i);
      InstallRow(dis, track, row, trow, source, target, i);
      dis, track := dis[i := row], track[i := trow];
    }
    assert Recurrence(dis, track, source, target);
    RecurrenceFilled(dis, track, source, target);
  }

  /** Putting a row computed by `FillRow` in place as row `i` advances the fill by one row. */
  lemma InstallRow(dis: Matrix, track: Matrix, row: seq<int>, trow: seq<int>, s: seq<char>, t: seq<char>, i: int)
    requires FilledUpTo(dis, track, s, t, i) && 2 <= i <= |s| + 1
    requires |row| == |trow| == |t| + 2 && row[1] == dis[i][1] && trow[1] == track[i][1]
    requires forall c :: 2 <= c <= |t| + 1 ==>
      var v := MinOf3(dis[i - 1][c] + DelCost(), dis[i - 1][c - 1] + SubCost(s[i - 2], t[c - 2]), row[c - 1] + InsCost());
      row[c] == v.0 && trow[c] == v.1
    ensures FilledUpTo(dis[i := row], track[i := trow], s, t, i + 1)
  {
    var d1, t1 := dis[i := row], track[i := trow];
    forall r | 1 <= r <= |s| + 1
      ensures CellRule(d1, t1, s, t, r, 1)
    {
      RuleFrame(dis, track, d1, t1, s, t, r, 1);
    }
    forall c | 1 <= c <= |t| + 1
      ensures CellRule(d1, t1, s, t, 1, c)
    {
      RuleFrame(dis, track, d1, t1, s, t, 1, c);
    }
    forall r, c | 2 <= r < i + 1 && 2 <= c <= |t| + 1
      ensures CellRule(d1, t1, s, t, r, c)
    {
      if r < i {
        RuleFrame(dis, track, d1, t1, s, t, r, c);
      }
    }
  }

  /**
   The initialisation: zero matrices, 0 in the corner `[1][1]`, the first row
   by insertions (tag 2) and the first column by deletions (tag 0).
   */
  method FillBorders(target: seq<char>, source: seq<char>) returns (dis: Matrix, track: Matrix)
    ensures Shaped(dis, |source| + 2, |target| + 2) && Shaped(track, |source| + 2, |target| + 2)
    ensures forall c :: 1 <= c <= |target| + 1 ==> CellRule(dis, track, source, target, 1, c)
    ensures forall r :: 1 <= r <= |source| + 1 ==> CellRule(dis, track, source, target, r, 1)
  {
    var n, m := |target|, |source|;
    var zeros := seq(n + 2, _ => 0);
    dis := seq(m + 2, _ => zeros);
    track := seq(m + 2, _ => zeros);
    dis := dis[1 := dis[1][1 := 0]];
    dis, track := FirstRow(dis, track, source, target);
    dis, track := FirstColumn(dis, track, source, target);
  }

  /** The first row, by insertions from the corner (tag 2). */
  method FirstRow(dis0: Matrix, track0: Matrix, source: seq<char>, target: seq<char>) returns (dis: Matrix, track: Matrix)
    requires Shaped(dis0, |source| + 2, |target| + 2) && Shaped(track0, |source| + 2, |target| + 2)
    requires dis0[1][1] == 0 && forall r :: 1 <= r <= |source| + 1 ==> track0[r][1] == 0
    ensures Shaped(dis, |source| + 2, |target| + 2) && Shaped(track, |source| + 2, |target| + 2)
    ensures forall c :: 1 <= c <= |target| + 1 ==> CellRule(dis, track, source, target, 1, c)
    ensures forall r :: 1 <= r <= |source| + 1 ==> track[r][1] == 0
  {
    var n, m := |target|, |source|;
    dis, track := dis0, track0;
    for j := 2 to n + 2
      invariant Shaped(dis, m + 2, n + 2) && Shaped(track, m + 2, n + 2)
      invariant forall c :: 1 <= c < j ==> CellRule(dis, track, source, target, 1, c)
      invariant forall r :: 1 <= r <= m + 1 ==> track[r][1] == 0
    {
      ghost var d0, t0 := dis, track;
      dis := dis[1 := dis[1][j := dis[1][j - 1] + InsCost()]];
      track := track[1 := track[1][j := 2]];
      forall c | 1 <= c < j
        ensures CellRule(dis, track, source, target, 1, c)
      {
        RuleFrame(d0, t0, dis, track, source, target, 1, c);
      }
    }
  }

  /** The first column below the corner, by deletions (tag 0), leaving the first row as it is. */
  method FirstColumn(dis0: Matrix, track0: Matrix, source: seq<char>, target: seq<char>) returns (dis: Matrix, track: Matrix)
    requires Shaped(dis0, |source| + 2, |target| + 2) && Shaped(track0, |source| + 2, |target| + 2)
    requires forall c :: 1 <= c <= |target| + 1 ==> CellRule(dis0, track0, source, target, 1, c)
    ensures Shaped(dis, |source| + 2, |target| + 2) && Shaped(track, |source| + 2, |target| + 2)
    ensures forall c :: 1 <= c <= |target| + 1 ==> CellRule(dis, track, source, target, 1, c)
    ensures forall r :: 1 <= r <= |source| + 1 ==> CellRule(dis, track, source, target, r, 1)
  {
    var n, m := |target|, |source|;
    dis, track := dis0, track0;
    assert CellRule(dis, track, source, target, 1, 1);
    for i := 2 to m + 2
      invariant Shaped(dis, m + 2, n + 2) && Shaped(track, m + 2, n + 2)
      invariant forall c :: 1 <= c <= n + 1 ==> CellRule(dis, track, source, target, 1, c)
      invariant forall r :: 1 <= r < i ==> CellRule(dis, track, source, target, r, 1)
    {
      ghost var d0, t0 := dis, track;
      dis := dis[i := dis[i][1 := dis[i - 1][1] + DelCost()]];
      track := track[i := track[i][1 := 0]];
      forall c | 1 <= c <= n + 1
        ensures CellRule(dis, track, source, target, 1, c)
      {
        RuleFrame(d0, t0, dis, track, source, target, 1, c);
      }
      forall r | 1 <= r < i
        ensures CellRule(dis, track, source, target, r, 1)
      {
        RuleFrame(d0, t0, dis, track, source, target, r, 1);
      }
    }
  }

  /**
   One pass of the inner loop: row `i` of both matrices from row `i - 1`
   (`prev`) and the cell to the left, starting from the row's first-column
   entries (`row0`, `trow0`). `source[i - 2]` and `target[c - 2]` are the
   source's `source[i-1]` and `target[j-1]` behind the '#' prefix.
   */
  method FillRow(prev: seq<int>, row0: seq<int>, trow0: seq<int>, source: seq<char>, target: seq<char>, i: nat)
    returns (row: seq<int>, trow: seq<int>)
    requires |prev| == |row0| == |trow0| == |target| + 2
    requires 2 <= i <= |source| + 1
    ensures |row| == |trow| == |target| + 2 && row[1] == row0[1] && trow[1] == trow0[1]
    ensures forall c :: 2 <= c <= |target| + 1 ==>
      var v := MinOf3(prev[c] + DelCost(), prev[c - 1] + SubCost(source[i - 2], target[c - 2]), row[c - 1] + InsCost());
      row[c] == v.0 && trow[c] == v.1
  {
    row, trow := row0, trow0;
    for j := 2 to |target| + 2
      invariant |row| == |trow| == |target| + 2 && row[1] == row0[1] && trow[1] == trow0[1]
      invariant forall c :: 2 <= c < j ==>
        var v := MinOf3(prev[c] + DelCost(), prev[c - 1] + SubCost(source[i - 2], target[c - 2]), row[c - 1] + InsCost());
        row[c] == v.0 && trow[c] == v.1
    {
      var v := MinOf3(prev[j] + DelCost(), prev[j - 1] + SubCost(source[i - 2], target[j - 2]), row[j - 1] + InsCost());
      row, trow := row[j := v.0], trow[j := v.1];
    }
  }

  /**
   Following the tag of cell `[i][j]` leads to a neighbour inside the matrix
   whose value plus the operation's cost is the cell's value.
   */
  predicate StepOk(dis: Matrix, track: Matrix, s: seq<char>, t: seq<char>, i: int, j: int)
    requires Shaped(dis, |s| + 2, |t| + 2) && Shaped(track, |s| + 2, |t| + 2)
  {
    1 <= i <= |s| + 1 && 1 <= j <= |t| + 1 &&
    (track[i][j] == 0 ==> i > 1 && dis[i][j] == dis[i - 1][j] + DelCost()) &&
    (track[i][j] == 1 ==> i > 1 && j > 1 && dis[i][j] == dis[i - 1][j - 1] + SubCost(s[i - 2], t[j - 2])) &&
    (track[i][j] != 0 && track[i][j] != 1 ==> j > 1 && dis[i][j] == dis[i][j - 1] + InsCost())
  }

  /** What the traceback relies on: a 0 corner and a consistent tag in every other cell. */
  predicate Traceable(dis: Matrix, track: Matrix, s: seq<char>, t: seq<char>) {
    Shaped(dis, |s| + 2, |t| + 2) && Shaped(track, |s| + 2, |t| + 2) &&
    dis[1][1] == 0 &&
    forall i, j :: 1 <= i <= |s| + 1 && 1 <= j <= |t| + 1 && i + j > 2 ==> StepOk(dis, track, s, t, i, j)
  }

  /** In a matrix obeying the recurrence every tag away from the corner points at the neighbour it came from. */
  lemma RecurrenceTraceable(dis: Matrix, track: Matrix, s: seq<char>, t: seq<char>)
    requires Recurrence(dis, track, s, t)
    ensures Traceable(dis, track, s, t)
  {
    assert CellRule(dis, track, s, t, 1, 1);
    forall i, j | 1 <= i <= |s| + 1 && 1 <= j <= |t| + 1 && i + j > 2
      ensures StepOk(dis, track, s, t, i, j)
    {
      assert CellRule(dis, track, s, t, i, j);
    }
  }

  /**
   The traceback from the last cell to cell [1, 1]: each tag prepends one
   column (d: source character over a gap, s: both characters, i: a gap over
   the target character). The result is an alignment of `source` into `target`
   whose cost is the value of the last cell.
   */
  method Traceback(target: seq<char>, source: seq<char>, dis: Matrix, track: Matrix)
    returns (sourceRow: seq<char>, targetRow: seq<char>, ops: seq<char>)
    requires |source| + |target| >= 1
    requires Traceable(dis, track, source, target)
    ensures IsAlignment(ops, sourceRow, targetRow, source, target)
    ensures Cost(ops, sourceRow, targetRow) == dis[|source| + 1][|target| + 1]
  {
    assert source[|source|..] == [] && target[|target|..] == [];
    sourceRow, targetRow, ops := TraceFrom(target, source, dis, track, |source| + 1, |target| + 1, [], [], []);
  }

  /**
   The traceback loop from cell `[i, j]` on, with the columns already
   collected for the suffixes `source[i - 1..]` and `target[j - 1..]`. The
   source tests for `[1, 1]` after each step; the first cell is never `[1, 1]`.
   */
  method TraceFrom(target: seq<char>, source: seq<char>, dis: Matrix, track: Matrix, i: nat, j: nat,
                   sourceRow: seq<char>, targetRow: seq<char>, ops: seq<char>)
    returns (sourceRow': seq<char>, targetRow': seq<char>, ops': seq<char>)
    requires Traceable(dis, track, source, target)
    requires 1 <= i <= |source| + 1 && 1 <= j <= |target| + 1
    requires IsAlignment(ops, sourceRow, targetRow, source[i - 1..], target[j - 1..])
    ensures IsAlignment(ops', sourceRow', targetRow', source, target)
    ensures Cost(ops', sourceRow', targetRow') == Cost(ops, sourceRow, targetRow) + dis[i][j]
    decreases i + j
  {
    if i + j == 2 {
      assert source[0..] == source && target[0..] == target;
      sourceRow', targetRow', ops' := sourceRow, targetRow, ops;
    } else {
      var i1, j1, sr, tr, o := TraceStep(target, source, dis, track, i, j, sourceRow, targetRow, ops);
      sourceRow', targetRow', ops' := TraceFrom(target, source, dis, track, i1, j1, sr, tr, o);
    }
  }

  /**
   One iteration of the traceback loop at cell `[i, j]`: the tag picks the
   column to prepend and the neighbour to move to.
   */
  method TraceStep(target: seq<char>, source: seq<char>, dis: Matrix, track: Matrix, i: nat, j: nat,
                   sourceRow: seq<char>, targetRow: seq<char>, ops: seq<char>)
    returns (i': nat, j': nat, sourceRow': seq<char>, targetRow': seq<char>, ops': seq<char>)
    requires Traceable(dis, track, source, target)
    requires 1 <= i <= |source| + 1 && 1 <= j <= |target| + 1 && i + j > 2
    requires IsAlignment(ops, sourceRow, targetRow, source[i - 1..], target[j - 1..])
    ensures 1 <= i' <= i && 1 <= j' <= j && i' + j' < i + j
    ensures IsAlignment(ops', sourceRow', targetRow', source[i' - 1..], target[j' - 1..])
    ensures Cost(ops', sourceRow', targetRow') + dis[i'][j'] == Cost(ops, sourceRow, targetRow) + dis[i][j]
  {
    var tgt := ['#'] + target;
    var src := ['#'] + source;
    ghost var s0, t0 := source[i - 1..], target[j - 1..];
    assert StepOk(dis, track, source, target, i, j);
    if track[i][j] == 0 {
      assert source[i - 2..] == [src[i - 1]] + s0;
      AlignmentCons('d', src[i - 1], Gap, ops, sourceRow, targetRow, s0, t0);
      i', j', ops', targetRow', sourceRow' := i - 1, j, ['d'] + ops, [Gap] + targetRow, [src[i - 1]] + sourceRow;
    } else if track[i][j] == 1 {
      assert source[i - 2..] == [src[i - 1]] + s0;
      assert target[j - 2..] == [tgt[j - 1]] + t0;
      AlignmentCons('s', src[i - 1], tgt[j - 1], ops, sourceRow, targetRow, s0, t0);
      i', j', ops', targetRow', sourceRow' := i - 1, j - 1, ['s'] + ops, [tgt[j - 1]] + targetRow, [src[i - 1]] + sourceRow;
    } else {
      assert target[j - 2..] == [tgt[j - 1]] + t0;
      AlignmentCons('i', Gap, tgt[j - 1], ops, sourceRow, targetRow, s0, t0);
      i', j', ops', targetRow', sourceRow' := i, j - 1, ['i'] + ops, [tgt[j - 1]] + targetRow, [Gap] + sourceRow;
    }
  }

  /** The mark the relabelling loop gives a column: a substitution of equal characters becomes a blank. */
  function Mark(op: char, sc: char, tc: char): char {
    if op == 's' && sc == tc then ' ' else op
  }

  /** The relabelling loop over the operation line. */
  method Relabel(ops: seq<char>, sourceRow: seq<char>, targetRow: seq<char>) returns (marks: seq<char>)
    requires |ops| == |sourceRow| == |targetRow|
    ensures |marks| == |ops|
    ensures forall k :: 0 <= k < |ops| ==> marks[k] == Mark(ops[k], sourceRow[k], targetRow[k])
  {
    marks := ops;
    for k := 0 to |marks|
      invariant |marks| == |ops|
      invariant forall q :: 0 <= q < k ==> marks[q] == Mark(ops[q], sourceRow[q], targetRow[q])
      invariant forall q :: k <= q < |ops| ==> marks[q] == ops[q]
    {
      if marks[k] == 's' && sourceRow[k] == targetRow[k] {
        marks := marks[k := ' '];
      }
    }
  }

  /** Read off the relabelled line, the weights add up to the alignment's cost. */
  lemma {:induction false} MarksWeigh(ops: seq<char>, sr: seq<char>, tr: seq<char>, marks: seq<char>)
    requires |ops| == |sr| == |tr| == |marks|
    requires forall k :: 0 <= k < |ops| ==> IsOp(ops[k])
    requires forall k :: 0 <= k < |ops| ==> marks[k] == Mark(ops[k], sr[k], tr[k])
    ensures Weight(marks) == Cost(ops, sr, tr)
  {
    if |ops| > 0 {
      assert IsOp(ops[0]) && marks[0] == Mark(ops[0], sr[0], tr[0]);
      MarksWeigh(ops[1..], sr[1..], tr[1..], marks[1..]);
    }
  }

  /** What the program reports for one pair of strings. */
  datatype Report =
    | Reported(distance: nat, sourceRow: seq<char>, targetRow: seq<char>, ops: seq<char>, marks: seq<char>)
      /** Two empty strings: the traceback walks off the matrix and the program stops with an index error. */
    | TracebackOutOfRange(distance: nat)

  /**
   minimum_edit_distance(target, source): the distance in the last cell, and
   for non-empty input the traceback's rows, its operation line and the
   relabelled line.
   */
  method MinimumEditDistance(target: seq<char>, source: seq<char>) returns (r: Report)
    ensures r.distance == Dist(source, target, |source|, |target|)
    ensures r.distance == 0 <==> source == target
    ensures r.TracebackOutOfRange? <==> source == [] && target == []
    ensures r.Reported? ==> IsAlignment(r.ops, r.sourceRow, r.targetRow, source, target)
    ensures r.Reported? ==> Cost(r.ops, r.sourceRow, r.targetRow) == r.distance
    ensures r.Reported? ==> |r.marks| == |r.ops| && Weight(r.marks) == r.distance
    ensures r.Reported? ==> forall k :: 0 <= k < |r.ops| ==>
      r.marks[k] == Mark(r.ops[k], r.sourceRow[k], r.targetRow[k])
    ensures r.Reported? && NoGap(source) && NoGap(target) ==>
      DropGaps(r.sourceRow) == source && DropGaps(r.targetRow) == target
    ensures forall ops: seq<char>, sr: seq<char>, tr: seq<char> :: IsAlignment(ops, sr, tr, source, target) ==> Cost(ops, sr, tr) >= r.distance
  {
    var dis, track := FillMatrices(target, source);
    var distance := dis[|source| + 1][|target| + 1];
    assert CellHolds(dis, source, target, |source|, |target|);
    DistanceMeaning(source, target);
    if |source| + |target| == 0 {
      return TracebackOutOfRange(distance);
    }
    RecurrenceTraceable(dis, track, source, target);
    var sourceRow, targetRow, ops := Traceback(target, source, dis, track);
    var marks := Relabel(ops, sourceRow, targetRow);
    MarksWeigh(ops, sourceRow, targetRow, marks);
    if NoGap(source) && NoGap(target) {
      RowsSpellInputs(ops, sourceRow, targetRow, source, target);
    }
    r := Reported(distance, sourceRow, targetRow, ops, marks);
  }

  /** The last cell is 0 exactly for equal strings, and no alignment costs less. */
  lemma DistanceMeaning(source: seq<char>, target: seq<char>)
    ensures Dist(source, target, |source|, |target|) == 0 <==> source == target
    ensures forall ops: seq<char>, sr: seq<char>, tr: seq<char> :: IsAlignment(ops, sr, tr, source, target) ==>
      Cost(ops, sr, tr) >= Dist(source, target, |source|, |target|)
  {
    DistZero(source, target, |source|, |target|);
    assert source[..|source|] == source && target[..|target|] == target;
    forall ops, sr, tr | IsAlignment(ops, sr, tr, source, target)
      ensures Cost(ops, sr, tr) >= Dist(source, target, |source|, |target|)
    {
      AlignmentCostBound(ops, sr, tr, source, target);
    }
  }

  /** On gap-free strings, deleting the gaps from the two printed rows gives back the inputs. */
  lemma RowsSpellInputs(ops: seq<char>, sr: seq<char>, tr: seq<char>, s: seq<char>, t: seq<char>)
    requires IsAlignment(ops, sr, tr, s, t) && NoGap(s) && NoGap(t)
    ensures DropGaps(sr) == s && DropGaps(tr) == t
  {
    DropGapsKeep(ops, sr, 'i');
    DropGapsKeep(ops, tr, 'd');
  }
}
