/**
 Grammar and tables of the Earley parser in earley_parser.py, with the three
 inference rules as they act on one destination table: Predict (`_expand`
 from the grammar), Scan (`_input`) and Complete (`_backtrack`).

 A table is an insertion-ordered list of stations; every append is guarded by
 `is_overlap`, so a table never holds the same station twice.
 */
module EarleyTables {
  import opened EarleyItems

  /**
   A grammar station: one production of a nonterminal. The source also gives
   these stations the origin -1, which is never read.
   */
  datatype Rule = Rule(lhs: Symbol, body: seq<Symbol>)

  /** One column of the chart: its index and its stations in insertion order. */
  datatype Table = Table(idx: nat, stations: seq<Item>)

  // ---------------------------------------------------------------------------
  // Grammar
  // ---------------------------------------------------------------------------

  /** The productions listed under one dictionary key, in list order. */
  function Productions(key: Symbol, infers: seq<seq<Symbol>>): (g: seq<Rule>)
    ensures |g| == |infers|
    ensures forall r :: r in g <==> r.lhs == key && r.body in infers
    ensures forall k :: 0 <= k < |infers| ==> g[k] == Rule(key, infers[k])
  {
    if |infers| == 0 then []
    else [Rule(key, infers[0])] + Productions(key, infers[1..])
  }

  /**
   Grammar.__init__: one grammar station per production, keys in dictionary
   order. `entries` is the dictionary as a list of (key, productions) pairs.
   */
  function BuildGrammar(entries: seq<(Symbol, seq<seq<Symbol>>)>): (g: seq<Rule>)
    ensures forall r :: r in g <==> exists e :: e in entries && r.lhs == e.0 && r.body in e.1
  {
    if |entries| == 0 then []
    else
      var g := Productions(entries[0].0, entries[0].1) + BuildGrammar(entries[1..]);
      assert forall e :: e in entries <==> e == entries[0] || e in entries[1..];
      g
  }

  // ---------------------------------------------------------------------------
  // Duplicate-free tables
  // ---------------------------------------------------------------------------

  function SetOf<T>(s: seq<T>): set<T> {
    set x | x in s
  }

  predicate Distinct<T(==)>(s: seq<T>) {
    forall i, j :: 0 <= i < j < |s| ==> s[i] != s[j]
  }

  /**
   is_overlap: appending `st` leaves the set of stations unchanged, which is
   the case exactly when `st` is already present.
   */
  function IsOverlap<T(==)>(st: T, stations: seq<T>): (r: bool)
    ensures r <==> st in stations
  {
    var grown := SetOf(stations + [st]);
    assert st in grown;
    assert st in stations ==> grown == SetOf(stations);
    grown == SetOf(stations)
  }

  /** The guarded append `if not is_overlap(st, table): table.append(st)`. */
  function AddStation(stations: seq<Item>, st: Item): (r: seq<Item>)
    ensures stations <= r
    ensures forall x :: x in r <==> x in stations || x == st
    ensures Distinct(stations) ==> Distinct(r)
    ensures |r| == if st in stations then |stations| else |stations| + 1
  {
    if IsOverlap(st, stations) then stations else stations + [st]
  }

  lemma PrefixMembers<T>(a: seq<T>, b: seq<T>)
    requires a <= b
    ensures forall x :: x in a ==> x in b
  {
    forall x | x in a
      ensures x in b
    {
      var i :| 0 <= i < |a| && a[i] == x;
      assert b[i] == x;
    }
  }

  lemma {:induction false} DistinctCard<T>(s: seq<T>)
    requires Distinct(s)
    ensures |SetOf(s)| == |s|
  {
    if |s| > 0 {
      var last := s[|s| - 1];
      var init := s[..|s| - 1];
      assert Distinct(init);
      DistinctCard(init);
      assert SetOf(s) == SetOf(init) + {last};
      assert last !in SetOf(init);
    }
  }

  // ---------------------------------------------------------------------------
  // The finite universe of stations for one table
  // ---------------------------------------------------------------------------

  /** `x` is a dotted production of `g` whose origin does not lie past column `i`. */
  predicate InUniverse(g: seq<Rule>, i: nat, x: Item) {
    Rule(x.lhs, x.body) in g && x.dot <= |x.body| && x.origin <= i
  }

  /** Every station a table with index `i` can ever hold. */
  function Universe(g: seq<Rule>, i: nat): set<Item> {
    set r, d: nat, o: nat | r in g && d <= |r.body| && o <= i :: Item(r.lhs, r.body, d, o)
  }

  /** The invariant every table keeps: no duplicates, origin bound, productions of `g`. */
  predicate TableOk(g: seq<Rule>, t: Table) {
    Distinct(t.stations) && forall x :: x in t.stations ==> InUniverse(g, t.idx, x)
  }

  /** Tables are addressed by position (`tables[k].idx == k`) and each keeps the invariant. */
  predicate ChartOk(g: seq<Rule>, tables: seq<Table>) {
    forall k :: 0 <= k < |tables| ==> tables[k].idx == k && TableOk(g, tables[k])
  }

  /** A table can never hold more stations than its universe has. */
  lemma TableBound(g: seq<Rule>, t: Table)
    requires TableOk(g, t)
    ensures |t.stations| <= |Universe(g, t.idx)|
  {
    forall x | x in SetOf(t.stations)
      ensures x in Universe(g, t.idx)
    {
      var r := Rule(x.lhs, x.body);
      assert Item(r.lhs, r.body, x.dot, x.origin) == x;
    }
    DistinctCard(t.stations);
    SubsetCard(SetOf(t.stations), Universe(g, t.idx));
  }

  lemma SubsetCard<T>(a: set<T>, b: set<T>)
    requires a <= b
    ensures |a| <= |b|
  {
    assert b == a + (b - a);
    assert a * (b - a) == {};
  }

  // ---------------------------------------------------------------------------
  // Predict: _expand from the grammar
  // ---------------------------------------------------------------------------

  /** `x` is the prediction of a production of `nt` at column `i`. */
  predicate IsPrediction(g: seq<Rule>, nt: Symbol, i: nat, x: Item) {
    x.lhs == nt && x.dot == 0 && x.origin == i && Rule(x.lhs, x.body) in g
  }

  /**
   _expand(grammar, dst, nt): for every grammar station of `nt`, the station
   with the dot moved to the front and origin `dst.idx`, unless present.
   */
  function Expand(grammar: seq<Rule>, dst: Table, nt: Symbol): (r: Table)
    ensures r.idx == dst.idx && dst.stations <= r.stations
    ensures Distinct(dst.stations) ==> Distinct(r.stations)
    ensures forall x :: x in r.stations <==> x in dst.stations || IsPrediction(grammar, nt, dst.idx, x)
    decreases |grammar|
  {
    if |grammar| == 0 then dst
    else
      var rule := grammar[0];
      var next :=
        if rule.lhs == nt then dst.(stations := AddStation(dst.stations, Item(rule.lhs, rule.body, 0, dst.idx)))
        else dst;
      assert forall q :: q in grammar <==> q == rule || q in grammar[1..];
      Expand(grammar[1..], next, nt)
  }

  lemma ExpandOk(g: seq<Rule>, dst: Table, nt: Symbol)
    requires TableOk(g, dst)
    ensures TableOk(g, Expand(g, dst, nt))
  {
  }

  // ---------------------------------------------------------------------------
  // Scan and Complete: stations advanced from another table
  // ---------------------------------------------------------------------------

  /** The station one step before `x`, which `_move_dot` turns into `x`. */
  function Retreat(x: Item): (r: Item)
    requires x.dot > 0
    ensures r.dot < |r.body| ==> Advance(r) == x
  {
    x.(dot := x.dot - 1)
  }

  /** `x` is a station of `src` waiting for `sym`, with the dot moved past `sym`. */
  predicate AdvancedFrom(src: seq<Item>, sym: Symbol, x: Item) {
    x.dot > 0 && Awaits(Retreat(x), sym) && Retreat(x) in src
  }

  /** `x` is a station of `src` whose next symbol is the terminal, with the dot moved past it. */
  predicate ScannedFrom(src: seq<Item>, terminal: Symbol, x: Item) {
    x.dot > 0 && ScansWith(Retreat(x), terminal) && Retreat(x) in src
  }

  /**
   The loop of _step_4: every station of `src` whose next symbol is the
   lower-case `terminal` is handed to _input, which appends it with the dot
   advanced and the origin kept.
   */
  function ScanInto(src: seq<Item>, terminal: Symbol, dst: seq<Item>): (r: seq<Item>)
    ensures dst <= r
    ensures Distinct(dst) ==> Distinct(r)
    ensures forall x :: x in r <==> x in dst || ScannedFrom(src, terminal, x)
    decreases |src|
  {
    if |src| == 0 then dst
    else
      var st := src[0];
      var next := if ScansWith(st, terminal) then AddStation(dst, Advance(st)) else dst;
      assert forall y :: y in src <==> y == st || y in src[1..];
      ScanInto(src[1..], terminal, next)
  }

  /**
   _backtrack(src, dst, nt) for two different tables: every station of `src`
   whose next symbol is `nt` is appended to `dst` with the dot moved past it.
   */
  function BacktrackFrom(src: seq<Item>, dst: seq<Item>, nt: Symbol): (r: seq<Item>)
    ensures dst <= r
    ensures Distinct(dst) ==> Distinct(r)
    ensures forall x :: x in r <==> x in dst || AdvancedFrom(src, nt, x)
    decreases |src|
  {
    if |src| == 0 then dst
    else
      var st := src[0];
      var next := if Awaits(st, nt) then AddStation(dst, Advance(st)) else dst;
      assert forall y :: y in src <==> y == st || y in src[1..];
      BacktrackFrom(src[1..], next, nt)
  }

  /**
   _backtrack(t, t, nt): the source table is the destination itself, and the
   loop `for station in src_table.stations` also reaches the stations that it
   appends. The walk starts at position `k`.
   */
  function BacktrackSelf(g: seq<Rule>, t: Table, nt: Symbol, k: nat): (r: Table)
    requires TableOk(g, t) && k <= |t.stations|
    ensures r.idx == t.idx && t.stations <= r.stations && TableOk(g, r)
    ensures forall x :: x in r.stations ==> x in t.stations || AdvancedFrom(r.stations, nt, x)
    ensures forall j :: k <= j < |r.stations| && Awaits(r.stations[j], nt) ==> Advance(r.stations[j]) in r.stations
    decreases |Universe(g, t.idx)| - k
  {
    TableBound(g, t);
    if k == |t.stations| then t
    else
      var st := t.stations[k];
      assert st in t.stations;
      var next := if Awaits(st, nt) then t.(stations := AddStation(t.stations, Advance(st))) else t;
      var r := BacktrackSelf(g, next, nt, k + 1);
      assert r.stations[k] == st;
      r
  }
}
