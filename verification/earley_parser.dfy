/**
 The chart driver of earley_parser.py: the passes `_step_1` .. `_step_6` and
 the two fixpoint loops of `parse`.

 The chart is the list of tables built so far, `tables[k]` being the table
 with index `k`, so `get_table_by_idx(k)` is `tables[k]`. While a table is
 being closed, the earlier tables are passed as `earlier` and the table under
 construction as `cur`, with `cur.idx == |earlier|`.
 */
module EarleyParser {
  import opened EarleyItems
  import opened EarleyTables

  /** The start symbol the parser seeds table 0 with. */
  const Start: Symbol := "S"

  /** The exceptions `word_type_dict[token][0]` raises. */
  datatype ParseError = UnknownToken(token: string) | NoCategory(token: string)

  datatype Outcome<T> = Ok(value: T) | Fail(error: ParseError)

  /**
   The table `get_table_by_idx(o)` returns while `cur` is being built: `cur`
   itself for its own index, an earlier table otherwise.
   */
  function TableAt(earlier: seq<Table>, cur: Table, o: nat): seq<Item> {
    if o == cur.idx then cur.stations
    else if o < |earlier| then earlier[o].stations
    else []
  }

  /** A complete station `z` of `t` has been propagated back into `t`. */
  predicate CompleteDone(earlier: seq<Table>, t: Table, z: Item) {
    Complete(z) ==>
      forall y :: y in TableAt(earlier, t, z.origin) && Awaits(y, z.lhs) ==> Advance(y) in t.stations
  }

  /** A station `z` of `t` waiting for a nonterminal has had that nonterminal predicted in `t`. */
  predicate PredictDone(g: seq<Rule>, t: Table, z: Item) {
    AwaitsNonterminal(z) ==>
      forall r :: r in g && r.lhs == z.body[z.dot] ==> Item(r.lhs, r.body, 0, t.idx) in t.stations
  }

  /** `x` was produced by completing some complete station of `t`. */
  predicate CompletedInto(earlier: seq<Table>, t: Table, x: Item) {
    exists z :: z in t.stations && Complete(z) && AdvancedFrom(TableAt(earlier, t, z.origin), z.lhs, x)
  }

  /** `x` was predicted for some station of `t` waiting for the nonterminal `x.lhs`. */
  predicate PredictedInto(g: seq<Rule>, t: Table, x: Item) {
    IsPrediction(g, x.lhs, t.idx, x) &&
    exists z :: z in t.stations && AwaitsNonterminal(z) && z.body[z.dot] == x.lhs
  }

  /** Neither Complete nor Predict can add a station to `t` any more. */
  predicate Sealed(g: seq<Rule>, earlier: seq<Table>, t: Table) {
    forall z :: z in t.stations ==> CompleteDone(earlier, t, z) && PredictDone(g, t, z)
  }

  // ---------------------------------------------------------------------------
  // Complete: _step_2 / _step_5
  // ---------------------------------------------------------------------------

  /**
   One iteration of the loop of _step_5 at station `st` of `cur`: a complete
   station sends its left-hand side back to the table its origin names, which
   is `cur` itself when the station spans nothing.
   */
  function CompleteStep(g: seq<Rule>, earlier: seq<Table>, cur: Table, st: Item): (r: Table)
    requires ChartOk(g, earlier) && TableOk(g, cur) && cur.idx == |earlier| && st in cur.stations
    ensures r.idx == cur.idx && cur.stations <= r.stations && TableOk(g, r)
    ensures Complete(st) || r == cur
    ensures forall x :: x in r.stations ==>
      x in cur.stations || AdvancedFrom(TableAt(earlier, r, st.origin), st.lhs, x)
    ensures r.stations == cur.stations ==> CompleteDone(earlier, cur, st)
  {
    if !Complete(st) then cur
    else if st.origin == cur.idx then BacktrackSelf(g, cur, st.lhs, 0)
    else
      var r := cur.(stations := BacktrackFrom(earlier[st.origin].stations, cur.stations, st.lhs));
      assert TableAt(earlier, r, st.origin) == earlier[st.origin].stations;
      assert TableOk(g, r) by {
        forall x | x in r.stations && x !in cur.stations
          ensures InUniverse(g, cur.idx, x)
        {
          assert AdvancedFrom(earlier[st.origin].stations, st.lhs, x);
          assert InUniverse(g, st.origin, Retreat(x));
        }
      }
      r
  }

  /**
   The loop of _step_5 (and of _step_2, its instance for table 0, where every
   origin is 0) from position `k` on. The loop also reaches the stations
   appended during it.
   */
  function CompleteWalk(g: seq<Rule>, earlier: seq<Table>, cur: Table, k: nat): (r: Table)
    requires ChartOk(g, earlier) && TableOk(g, cur) && cur.idx == |earlier|
    requires k <= |cur.stations|
    ensures r.idx == cur.idx && cur.stations <= r.stations && TableOk(g, r)
    ensures forall x :: x in r.stations ==> x in cur.stations || CompletedInto(earlier, r, x)
    ensures r.stations == cur.stations ==>
      forall j :: k <= j < |cur.stations| ==> CompleteDone(earlier, cur, cur.stations[j])
    decreases |Universe(g, cur.idx)| - k
  {
    TableBound(g, cur);
    if k == |cur.stations| then cur
    else
      var st := cur.stations[k];
      assert st in cur.stations;
      var next := CompleteStep(g, earlier, cur, st);
      var r := CompleteWalk(g, earlier, next, k + 1);
      CompleteWalkSound(g, earlier, cur, next, r, st);
      r
  }

  /** The stations one step of the walk adds are completions recorded in the final table. */
  lemma CompleteWalkSound(g: seq<Rule>, earlier: seq<Table>, cur: Table, next: Table, r: Table, st: Item)
    requires cur.idx == |earlier| && st in cur.stations
    requires next.idx == cur.idx && r.idx == cur.idx
    requires cur.stations <= next.stations <= r.stations
    requires Complete(st) || next == cur
    requires forall x :: x in next.stations ==>
      x in cur.stations || AdvancedFrom(TableAt(earlier, next, st.origin), st.lhs, x)
    requires forall x :: x in r.stations ==> x in next.stations || CompletedInto(earlier, r, x)
    ensures forall x :: x in r.stations ==> x in cur.stations || CompletedInto(earlier, r, x)
  {
    forall x | x in r.stations && x !in cur.stations && x in next.stations
      ensures CompletedInto(earlier, r, x)
    {
      assert st in r.stations;
      assert AdvancedFrom(TableAt(earlier, next, st.origin), st.lhs, x);
      if st.origin == cur.idx {
        assert Retreat(x) in r.stations;
      }
      assert AdvancedFrom(TableAt(earlier, r, st.origin), st.lhs, x);
    }
  }

  // ---------------------------------------------------------------------------
  // Predict: _step_3 / _step_6
  // ---------------------------------------------------------------------------

  /**
   The loop of _step_6 (and of _step_3, the same code on table 0) from
   position `k` on: each station whose next symbol is upper-case has that
   nonterminal expanded from the grammar into the same table. The loop also
   reaches the stations appended during it.
   */
  function PredictWalk(g: seq<Rule>, cur: Table, k: nat): (r: Table)
    requires TableOk(g, cur) && k <= |cur.stations|
    ensures r.idx == cur.idx && cur.stations <= r.stations && TableOk(g, r)
    ensures forall x :: x in r.stations ==> x in cur.stations || PredictedInto(g, r, x)
    ensures forall j :: k <= j < |r.stations| ==> PredictDone(g, r, r.stations[j])
    decreases |Universe(g, cur.idx)| - k
  {
    TableBound(g, cur);
    if k == |cur.stations| then cur
    else
      var st := cur.stations[k];
      assert st in cur.stations;
      var next := PredictStep(g, cur, st);
      var r := PredictWalk(g, next, k + 1);
      PredictWalkSound(g, cur, next, r, k);
      r
  }

  /**
   The body of the _step_6 loop for one station: when its next symbol is a
   nonterminal, that nonterminal's productions are expanded into the table.
   */
  function PredictStep(g: seq<Rule>, cur: Table, st: Item): (r: Table)
    requires TableOk(g, cur) && st in cur.stations
    ensures r.idx == cur.idx && cur.stations <= r.stations && TableOk(g, r)
    ensures forall x :: x in r.stations <==>
      x in cur.stations || (AwaitsNonterminal(st) && IsPrediction(g, st.body[st.dot], cur.idx, x))
  {
    if AwaitsNonterminal(st) then Expand(g, cur, st.body[st.dot]) else cur
  }

  /** The stations one step of the walk adds are predictions, and the step's station is done. */
  lemma PredictWalkSound(g: seq<Rule>, cur: Table, next: Table, r: Table, k: nat)
    requires k < |cur.stations|
    requires next.idx == cur.idx && r.idx == cur.idx && cur.stations <= next.stations <= r.stations
    requires forall x :: x in next.stations <==>
      x in cur.stations || (AwaitsNonterminal(cur.stations[k]) && IsPrediction(g, cur.stations[k].body[cur.stations[k].dot], cur.idx, x))
    requires forall x :: x in r.stations ==> x in next.stations || PredictedInto(g, r, x)
    requires forall j :: k + 1 <= j < |r.stations| ==> PredictDone(g, r, r.stations[j])
    ensures forall x :: x in r.stations ==> x in cur.stations || PredictedInto(g, r, x)
    ensures forall j :: k <= j < |r.stations| ==> PredictDone(g, r, r.stations[j])
  {
    var st := cur.stations[k];
    assert r.stations[k] == st;
    PrefixMembers(next.stations, r.stations);
    assert PredictDone(g, r, st) by {
      if AwaitsNonterminal(st) {
        forall rule | rule in g && rule.lhs == st.body[st.dot]
          ensures Item(rule.lhs, rule.body, 0, r.idx) in r.stations
        {
          assert IsPrediction(g, st.body[st.dot], cur.idx, Item(rule.lhs, rule.body, 0, cur.idx));
        }
      }
    }
  }

  /** One repetition of a closure loop: Complete, then Predict. */
  function Pass(g: seq<Rule>, earlier: seq<Table>, cur: Table): (r: Table)
    requires ChartOk(g, earlier) && TableOk(g, cur) && cur.idx == |earlier|
    ensures r.idx == cur.idx && cur.stations <= r.stations && TableOk(g, r)
  {
    PredictWalk(g, CompleteWalk(g, earlier, cur, 0), 0)
  }

  /**
   The closure loop of `parse`: repeat the Complete and Predict passes until
   a pass leaves the table's stations unchanged.
   */
  function Close(g: seq<Rule>, earlier: seq<Table>, cur: Table): (r: Table)
    requires ChartOk(g, earlier) && TableOk(g, cur) && cur.idx == |earlier|
    ensures r.idx == cur.idx && cur.stations <= r.stations && TableOk(g, r)
    ensures Pass(g, earlier, r) == r
    ensures Sealed(g, earlier, r)
    decreases |Universe(g, cur.idx)| - |cur.stations|
  {
    var completed := CompleteWalk(g, earlier, cur, 0);
    var next := PredictWalk(g, completed, 0);
    if next.stations == cur.stations then
      assert completed.stations == cur.stations;
      assert next == cur;
      cur
    else
      TableBound(g, next);
      Close(g, earlier, next)
  }

  // ---------------------------------------------------------------------------
  // Seeding and scanning
  // ---------------------------------------------------------------------------

  /** _step_1: table 0 starts with the predictions of the start symbol. */
  function Seed(g: seq<Rule>): (r: Table)
    ensures r.idx == 0 && TableOk(g, r)
    ensures forall x :: x in r.stations <==> IsPrediction(g, Start, 0, x)
  {
    Expand(g, Table(0, []), Start)
  }

  /** The token has an entry in the category dictionary with at least one category. */
  predicate Known(words: map<string, seq<Symbol>>, token: string) {
    token in words && |words[token]| > 0
  }

  /** The exception `word_type_dict[token][0]` raises for a token that is not known. */
  function ErrorFor(words: map<string, seq<Symbol>>, token: string): ParseError {
    if token !in words then UnknownToken(token) else NoCategory(token)
  }

  /** `tokens[k]` is the first token at or after position `from` that is not known. */
  predicate FirstUnknown(words: map<string, seq<Symbol>>, tokens: seq<string>, from: nat, k: nat)
    requires k < |tokens|
  {
    from <= k && !Known(words, tokens[k]) &&
    forall j :: from <= j < k ==> Known(words, tokens[j])
  }

  /**
   _step_4: the new table `prev.idx + 1` holds the stations of `prev` that
   expect the token's FIRST category as a lower-case terminal, each advanced
   past it with its origin kept. A missing token or an empty category list
   raises in the source.
   */
  function Scan(words: map<string, seq<Symbol>>, token: string, prev: Table): (r: Outcome<Table>)
    ensures r.Ok? <==> Known(words, token)
    ensures !Known(words, token) ==> r == Fail(ErrorFor(words, token))
    ensures r.Ok? ==> r.value.idx == prev.idx + 1 && Distinct(r.value.stations)
    ensures r.Ok? ==> forall x :: x in r.value.stations <==> ScannedFrom(prev.stations, words[token][0], x)
    ensures r.Ok? ==> forall y :: y in prev.stations && ScansWith(y, words[token][0]) ==> Advance(y) in r.value.stations
  {
    if token !in words then Fail(UnknownToken(token))
    else if |words[token]| == 0 then Fail(NoCategory(token))
    else
      var terminal := words[token][0];
      var r := ScanInto(prev.stations, terminal, []);
      assert forall y :: y in prev.stations && ScansWith(y, terminal) ==> Retreat(Advance(y)) == y;
      Ok(Table(prev.idx + 1, r))
  }

  lemma ScanOk(g: seq<Rule>, words: map<string, seq<Symbol>>, token: string, prev: Table)
    requires TableOk(g, prev) && Known(words, token)
    ensures TableOk(g, Scan(words, token, prev).value)
  {
    var t := Scan(words, token, prev).value;
    forall x | x in t.stations
      ensures InUniverse(g, t.idx, x)
    {
      assert InUniverse(g, prev.idx, Retreat(x));
    }
  }

  // ---------------------------------------------------------------------------
  // parse
  // ---------------------------------------------------------------------------

  /** Every table of the chart is sealed against the tables before it. */
  predicate AllSealed(g: seq<Rule>, chart: seq<Table>) {
    forall k :: 0 <= k < |chart| ==> Sealed(g, chart[..k], chart[k])
  }

  /** `t` holds every station that scanning `token` produces from `prev`. */
  predicate ScannedInto(words: map<string, seq<Symbol>>, token: string, prev: Table, t: Table) {
    Known(words, token) ==>
      forall y :: y in prev.stations && ScansWith(y, words[token][0]) ==> Advance(y) in t.stations
  }

  /** Table `k` holds every station that scanning token `k - 1` produces. */
  predicate ScansKept(words: map<string, seq<Symbol>>, tokens: seq<string>, chart: seq<Table>)
    requires |chart| <= |tokens| + 1
  {
    forall k :: 0 < k < |chart| ==> ScannedInto(words, tokens[k - 1], chart[k - 1], chart[k])
  }

  /**
   The token loop of `parse`, from the table after `done` tokens on: scan the
   next token into a new table and close it.
   */
  function ParseFrom(g: seq<Rule>, words: map<string, seq<Symbol>>, tokens: seq<string>, chart: seq<Table>): (r: Outcome<seq<Table>>)
    requires 0 < |chart| <= |tokens| + 1
    requires ChartOk(g, chart) && AllSealed(g, chart) && ScansKept(words, tokens, chart)
    ensures r.Ok? <==> forall k :: |chart| - 1 <= k < |tokens| ==> Known(words, tokens[k])
    ensures r.Fail? ==>
      exists k :: |chart| - 1 <= k < |tokens| && FirstUnknown(words, tokens, |chart| - 1, k) &&
                  r.error == ErrorFor(words, tokens[k])
    ensures r.Ok? ==> |r.value| == |tokens| + 1 && chart <= r.value
    ensures r.Ok? ==> ChartOk(g, r.value) && AllSealed(g, r.value) && ScansKept(words, tokens, r.value)
    decreases |tokens| + 1 - |chart|
  {
    if |chart| == |tokens| + 1 then Ok(chart)
    else
      var k := |chart| - 1;
      var token := tokens[k];
      var scan := Scan(words, token, chart[k]);
      if scan.Fail? then
        assert FirstUnknown(words, tokens, k, k);
        Fail(scan.error)
      else
        var t := NextTable(g, words, tokens, chart);
        var r := ParseFrom(g, words, tokens, chart + [t]);
        FirstUnknownFrom(words, tokens, k, r);
        r
  }

  /**
   One turn of the token loop on a known token: scan it out of the last
   table (`_input`, i.e. _step_4) and close the new table (_step_5 and _step_6).
   */
  function NextTable(g: seq<Rule>, words: map<string, seq<Symbol>>, tokens: seq<string>, chart: seq<Table>): (t: Table)
    requires 0 < |chart| <= |tokens| && Known(words, tokens[|chart| - 1])
    requires ChartOk(g, chart) && AllSealed(g, chart) && ScansKept(words, tokens, chart)
    ensures t.idx == |chart| && Sealed(g, chart, t)
    ensures ChartOk(g, chart + [t]) && AllSealed(g, chart + [t]) && ScansKept(words, tokens, chart + [t])
  {
    var k := |chart| - 1;
    var scan := Scan(words, tokens[k], chart[k]);
    ScanOk(g, words, tokens[k], chart[k]);
    var t := Close(g, chart, scan.value);
    ExtendChart(g, words, tokens, chart, scan.value, t);
    t
  }

  /** Appending a scanned and closed table keeps the chart invariants. */
  lemma ExtendChart(g: seq<Rule>, words: map<string, seq<Symbol>>, tokens: seq<string>, chart: seq<Table>, scanned: Table, t: Table)
    requires 0 < |chart| <= |tokens|
    requires ChartOk(g, chart) && AllSealed(g, chart) && ScansKept(words, tokens, chart)
    requires Known(words, tokens[|chart| - 1])
    requires Scan(words, tokens[|chart| - 1], chart[|chart| - 1]) == Ok(scanned)
    requires scanned.stations <= t.stations && t.idx == |chart| && TableOk(g, t) && Sealed(g, chart, t)
    ensures ChartOk(g, chart + [t]) && AllSealed(g, chart + [t]) && ScansKept(words, tokens, chart + [t])
  {
    ExtendSealed(g, chart, t);
    ExtendScans(words, tokens, chart, scanned, t);
  }

  /** A table sealed against the chart before it can be appended to a sealed chart. */
  lemma ExtendSealed(g: seq<Rule>, chart: seq<Table>, t: Table)
    requires AllSealed(g, chart) && Sealed(g, chart, t)
    ensures AllSealed(g, chart + [t])
  {
    var chart' := chart + [t];
    assert chart'[..|chart|] == chart;
    forall j | 0 <= j < |chart'|
      ensures Sealed(g, chart'[..j], chart'[j])
    {
      if j < |chart| { assert chart'[..j] == chart[..j]; }
    }
  }

  /** A table holding what scanning the next token produced can be appended without losing a scan. */
  lemma ExtendScans(words: map<string, seq<Symbol>>, tokens: seq<string>, chart: seq<Table>, scanned: Table, t: Table)
    requires 0 < |chart| <= |tokens| && ScansKept(words, tokens, chart)
    requires Known(words, tokens[|chart| - 1])
    requires Scan(words, tokens[|chart| - 1], chart[|chart| - 1]) == Ok(scanned)
    requires scanned.stations <= t.stations
    ensures ScansKept(words, tokens, chart + [t])
  {
    PrefixMembers(scanned.stations, t.stations);
    assert ScannedInto(words, tokens[|chart| - 1], chart[|chart| - 1], t);
  }

  /**
   One step of the token loop's outcome: when token `from` is known, the
   outcome of the loop from `from + 1` on is also the right outcome from
   `from` on.
   */
  lemma FirstUnknownFrom<T>(words: map<string, seq<Symbol>>, tokens: seq<string>, from: nat, r: Outcome<T>)
    requires from < |tokens| && Known(words, tokens[from])
    requires r.Ok? <==> forall k :: from + 1 <= k < |tokens| ==> Known(words, tokens[k])
    requires r.Fail? ==>
      exists k :: from + 1 <= k < |tokens| && FirstUnknown(words, tokens, from + 1, k) &&
                  r.error == ErrorFor(words, tokens[k])
    ensures r.Ok? <==> forall k :: from <= k < |tokens| ==> Known(words, tokens[k])
    ensures r.Fail? ==>
      exists k :: from <= k < |tokens| && FirstUnknown(words, tokens, from, k) &&
                  r.error == ErrorFor(words, tokens[k])
  {
    if r.Fail? {
      var k :| from + 1 <= k < |tokens| && FirstUnknown(words, tokens, from + 1, k) &&
               r.error == ErrorFor(words, tokens[k]);
      assert FirstUnknown(words, tokens, from, k);
    }
  }

  /**
   `parse`: seed and close table 0, then scan and close one table per token.
   On success there is one table per position, `tables[k].idx == k`, and each
   table is closed under Complete and Predict. The source prints the tables;
   it does not decide acceptance.
   */
  function Parse(g: seq<Rule>, words: map<string, seq<Symbol>>, tokens: seq<string>): (r: Outcome<seq<Table>>)
    ensures r.Ok? <==> forall k :: 0 <= k < |tokens| ==> Known(words, tokens[k])
    ensures r.Fail? ==>
      exists k :: 0 <= k < |tokens| && FirstUnknown(words, tokens, 0, k) &&
                  r.error == ErrorFor(words, tokens[k])
    ensures r.Ok? ==> |r.value| == |tokens| + 1 && ChartOk(g, r.value)
    ensures r.Ok? ==> Seed(g).stations <= r.value[0].stations
    ensures r.Ok? ==> AllSealed(g, r.value) && ScansKept(words, tokens, r.value)
  {
    var t0 := Close(g, [], Seed(g));
    assert [t0][..0] == [];
    ParseFrom(g, words, tokens, [t0])
  }

  /**
   A specification-level query the source does not implement: the last table
   holds a complete station of the start symbol that began at column 0.
   */
  predicate Accepts(chart: seq<Table>)
    requires |chart| > 0
  {
    exists x :: x in chart[|chart| - 1].stations && x.lhs == Start && Complete(x) && x.origin == 0
  }
}
