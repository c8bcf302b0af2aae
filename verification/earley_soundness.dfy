/**
 Soundness of the chart that `parse` in earley_parser.py builds.

 Scanning compares a terminal with the FIRST category of each token, so the
 sentence the parser actually recognises is the sequence of those first
 categories, `Categories(words, tokens)`. A station of table `i` is valid when
 the symbols before its dot derive the categories from its origin up to `i`.
 Every pass only adds stations justified by valid ones, so every station in
 the chart is valid; in particular a complete start station from column 0 in
 the last table means the start symbol derives the whole sentence.
 */
module EarleySoundness {
  import opened EarleyItems
  import opened EarleyTables
  import opened EarleyParser

  // ---------------------------------------------------------------------------
  // Derivations
  // ---------------------------------------------------------------------------

  /** `syms` derives `cats[lo..hi]` using at most `n` nested productions of `g`. */
  ghost predicate DerivesSeq(g: seq<Rule>, cats: seq<Symbol>, syms: seq<Symbol>, lo: nat, hi: nat, n: nat)
    decreases n, |syms|
  {
    if |syms| == 0 then lo == hi
    else
      exists mid: nat :: lo <= mid <= hi &&
        DerivesSym(g, cats, syms[0], lo, mid, n) && DerivesSeq(g, cats, syms[1..], mid, hi, n)
  }

  /**
   `sym` derives `cats[lo..hi]`: a lower-case terminal matches the one category
   it covers, any symbol can be rewritten by one of its productions.
   */
  ghost predicate DerivesSym(g: seq<Rule>, cats: seq<Symbol>, sym: Symbol, lo: nat, hi: nat, n: nat)
    decreases n, 0
  {
    lo <= hi &&
    ((IsLower(sym) && hi == lo + 1 && lo < |cats| && cats[lo] == sym) ||
     (n > 0 && exists r :: r in g && r.lhs == sym && DerivesSeq(g, cats, r.body, lo, hi, n - 1)))
  }

  lemma {:induction false} SeqMono(g: seq<Rule>, cats: seq<Symbol>, syms: seq<Symbol>, lo: nat, hi: nat, n: nat, m: nat)
    requires n <= m && DerivesSeq(g, cats, syms, lo, hi, n)
    ensures DerivesSeq(g, cats, syms, lo, hi, m)
    decreases n, |syms|
  {
    if |syms| > 0 {
      var mid: nat :| lo <= mid <= hi &&
        DerivesSym(g, cats, syms[0], lo, mid, n) && DerivesSeq(g, cats, syms[1..], mid, hi, n);
      SymMono(g, cats, syms[0], lo, mid, n, m);
      SeqMono(g, cats, syms[1..], mid, hi, n, m);
    }
  }

  lemma {:induction false} SymMono(g: seq<Rule>, cats: seq<Symbol>, sym: Symbol, lo: nat, hi: nat, n: nat, m: nat)
    requires n <= m && DerivesSym(g, cats, sym, lo, hi, n)
    ensures DerivesSym(g, cats, sym, lo, hi, m)
    decreases n, 0
  {
    if !(IsLower(sym) && hi == lo + 1 && lo < |cats| && cats[lo] == sym) {
      var r :| r in g && r.lhs == sym && DerivesSeq(g, cats, r.body, lo, hi, n - 1);
      SeqMono(g, cats, r.body, lo, hi, n - 1, m - 1);
    }
  }

  /** A derivation of `syms` followed by one of `sym` derives `syms + [sym]`. */
  lemma {:induction false} SeqSnoc(g: seq<Rule>, cats: seq<Symbol>, syms: seq<Symbol>, sym: Symbol, lo: nat, mid: nat, hi: nat, n: nat)
    requires DerivesSeq(g, cats, syms, lo, mid, n) && DerivesSym(g, cats, sym, mid, hi, n)
    ensures DerivesSeq(g, cats, syms + [sym], lo, hi, n)
    decreases |syms|
  {
    if |syms| == 0 {
      assert syms + [sym] == [sym];
      assert DerivesSeq(g, cats, [sym][1..], hi, hi, n);
    } else {
      var m: nat :| lo <= m <= mid &&
        DerivesSym(g, cats, syms[0], lo, m, n) && DerivesSeq(g, cats, syms[1..], m, mid, n);
      SeqSnoc(g, cats, syms[1..], sym, m, mid, hi, n);
      assert (syms + [sym])[1..] == syms[1..] + [sym];
    }
  }

  // ---------------------------------------------------------------------------
  // Valid stations
  // ---------------------------------------------------------------------------

  /** The sentence the scanner sees: the first category of every known token. */
  function Categories(words: map<string, seq<Symbol>>, tokens: seq<string>): (r: seq<Symbol>)
    ensures |r| == |tokens|
    ensures forall k :: 0 <= k < |tokens| && Known(words, tokens[k]) ==> r[k] == words[tokens[k]][0]
  {
    if |tokens| == 0 then []
    else [if Known(words, tokens[0]) then words[tokens[0]][0] else ""] + Categories(words, tokens[1..])
  }

  /** The symbols before the dot of `x` derive the categories from its origin up to column `i`. */
  ghost predicate ValidAt(g: seq<Rule>, cats: seq<Symbol>, x: Item, i: nat) {
    x.dot <= |x.body| && x.origin <= i &&
    exists n: nat :: DerivesSeq(g, cats, x.body[..x.dot], x.origin, i, n)
  }

  ghost predicate SoundTable(g: seq<Rule>, cats: seq<Symbol>, t: Table) {
    forall x :: x in t.stations ==> ValidAt(g, cats, x, t.idx)
  }

  ghost predicate SoundChart(g: seq<Rule>, cats: seq<Symbol>, chart: seq<Table>) {
    forall k :: 0 <= k < |chart| ==> SoundTable(g, cats, chart[k])
  }

  /** A prediction has nothing before its dot and so derives the empty span. */
  lemma PredictionValid(g: seq<Rule>, cats: seq<Symbol>, nt: Symbol, i: nat, x: Item)
    requires IsPrediction(g, nt, i, x)
    ensures ValidAt(g, cats, x, i)
  {
    assert DerivesSeq(g, cats, x.body[..0], i, i, 0);
  }

  /** Complete: a valid station waiting for `z.lhs`, advanced over a valid complete `z`, is valid. */
  lemma {:induction false} CompletionValid(g: seq<Rule>, cats: seq<Symbol>, y: Item, z: Item, i: nat)
    requires ValidAt(g, cats, y, z.origin) && Awaits(y, z.lhs)
    requires ValidAt(g, cats, z, i) && Complete(z) && Rule(z.lhs, z.body) in g
    ensures ValidAt(g, cats, Advance(y), i)
  {
    var n1 :| DerivesSeq(g, cats, y.body[..y.dot], y.origin, z.origin, n1);
    var n2 :| DerivesSeq(g, cats, z.body[..z.dot], z.origin, i, n2);
    var n := n1 + n2 + 1;
    SeqMono(g, cats, y.body[..y.dot], y.origin, z.origin, n1, n);
    SeqMono(g, cats, z.body[..z.dot], z.origin, i, n2, n - 1);
    assert z.body[..z.dot] == z.body;
    assert DerivesSym(g, cats, z.lhs, z.origin, i, n);
    SeqSnoc(g, cats, y.body[..y.dot], z.lhs, y.origin, z.origin, i, n);
    assert Advance(y).body[..Advance(y).dot] == y.body[..y.dot] + [z.lhs];
  }

  /** Scan: a valid station of table `i` whose next terminal is category `i`, advanced, is valid in table `i + 1`. */
  lemma {:induction false} ScanValid(g: seq<Rule>, cats: seq<Symbol>, y: Item, i: nat)
    requires i < |cats| && ValidAt(g, cats, y, i) && ScansWith(y, cats[i])
    ensures ValidAt(g, cats, Advance(y), i + 1)
  {
    var n :| DerivesSeq(g, cats, y.body[..y.dot], y.origin, i, n);
    assert DerivesSym(g, cats, y.body[y.dot], i, i + 1, n);
    SeqSnoc(g, cats, y.body[..y.dot], y.body[y.dot], y.origin, i, i + 1, n);
    assert Advance(y).body[..Advance(y).dot] == y.body[..y.dot] + [y.body[y.dot]];
  }

  // ---------------------------------------------------------------------------
  // Every pass keeps the tables sound
  // ---------------------------------------------------------------------------

  lemma ExpandSound(g: seq<Rule>, cats: seq<Symbol>, dst: Table, nt: Symbol)
    requires SoundTable(g, cats, dst)
    ensures SoundTable(g, cats, Expand(g, dst, nt))
  {
    forall x | x in Expand(g, dst, nt).stations
      ensures ValidAt(g, cats, x, dst.idx)
    {
      if x !in dst.stations { PredictionValid(g, cats, nt, dst.idx, x); }
    }
  }

  lemma BacktrackFromSound(g: seq<Rule>, cats: seq<Symbol>, src: seq<Item>, dst: seq<Item>, z: Item, i: nat)
    requires forall y :: y in src ==> ValidAt(g, cats, y, z.origin)
    requires forall x :: x in dst ==> ValidAt(g, cats, x, i)
    requires ValidAt(g, cats, z, i) && Complete(z) && Rule(z.lhs, z.body) in g
    ensures forall x :: x in BacktrackFrom(src, dst, z.lhs) ==> ValidAt(g, cats, x, i)
  {
    forall x | x in BacktrackFrom(src, dst, z.lhs) && x !in dst
      ensures ValidAt(g, cats, x, i)
    {
      assert AdvancedFrom(src, z.lhs, x);
      CompletionValid(g, cats, Retreat(x), z, i);
    }
  }

  lemma {:induction false} BacktrackSelfSound(g: seq<Rule>, cats: seq<Symbol>, t: Table, z: Item, k: nat)
    requires TableOk(g, t) && k <= |t.stations| && SoundTable(g, cats, t)
    requires z in t.stations && Complete(z) && z.origin == t.idx
    ensures SoundTable(g, cats, BacktrackSelf(g, t, z.lhs, k))
    decreases |Universe(g, t.idx)| - k
  {
    TableBound(g, t);
    if k < |t.stations| {
      var st := t.stations[k];
      assert st in t.stations;
      var next := if Awaits(st, z.lhs) then t.(stations := AddStation(t.stations, Advance(st))) else t;
      if Awaits(st, z.lhs) {
        CompletionValid(g, cats, st, z, t.idx);
        assert InUniverse(g, t.idx, Advance(st));
      }
      assert BacktrackSelf(g, t, z.lhs, k) == BacktrackSelf(g, next, z.lhs, k + 1);
      BacktrackSelfSound(g, cats, next, z, k + 1);
    }
  }

  lemma CompleteStepSoundness(g: seq<Rule>, cats: seq<Symbol>, earlier: seq<Table>, cur: Table, st: Item)
    requires ChartOk(g, earlier) && TableOk(g, cur) && cur.idx == |earlier| && st in cur.stations
    requires SoundChart(g, cats, earlier) && SoundTable(g, cats, cur)
    ensures SoundTable(g, cats, CompleteStep(g, earlier, cur, st))
  {
    if Complete(st) && st.origin == cur.idx {
      BacktrackSelfSound(g, cats, cur, st, 0);
    } else if Complete(st) {
      BacktrackFromSound(g, cats, earlier[st.origin].stations, cur.stations, st, cur.idx);
    }
  }

  lemma {:induction false} CompleteWalkSoundness(g: seq<Rule>, cats: seq<Symbol>, earlier: seq<Table>, cur: Table, k: nat)
    requires ChartOk(g, earlier) && TableOk(g, cur) && cur.idx == |earlier| && k <= |cur.stations|
    requires SoundChart(g, cats, earlier) && SoundTable(g, cats, cur)
    ensures SoundTable(g, cats, CompleteWalk(g, earlier, cur, k))
    decreases |Universe(g, cur.idx)| - k
  {
    TableBound(g, cur);
    if k < |cur.stations| {
      var st := cur.stations[k];
      assert st in cur.stations;
      var next := CompleteStep(g, earlier, cur, st);
      CompleteStepSoundness(g, cats, earlier, cur, st);
      assert CompleteWalk(g, earlier, cur, k) == CompleteWalk(g, earlier, next, k + 1);
      CompleteWalkSoundness(g, cats, earlier, next, k + 1);
    }
  }

  lemma {:induction false} PredictWalkSoundness(g: seq<Rule>, cats: seq<Symbol>, cur: Table, k: nat)
    requires TableOk(g, cur) && k <= |cur.stations| && SoundTable(g, cats, cur)
    ensures SoundTable(g, cats, PredictWalk(g, cur, k))
    decreases |Universe(g, cur.idx)| - k
  {
    TableBound(g, cur);
    if k < |cur.stations| {
      var st := cur.stations[k];
      var next := if AwaitsNonterminal(st) then Expand(g, cur, st.body[st.dot]) else cur;
      if AwaitsNonterminal(st) { ExpandSound(g, cats, cur, st.body[st.dot]); ExpandOk(g, cur, st.body[st.dot]); }
      assert PredictWalk(g, cur, k) == PredictWalk(g, next, k + 1);
      PredictWalkSoundness(g, cats, next, k + 1);
    }
  }

  lemma {:induction false} CloseSoundness(g: seq<Rule>, cats: seq<Symbol>, earlier: seq<Table>, cur: Table)
    requires ChartOk(g, earlier) && TableOk(g, cur) && cur.idx == |earlier|
    requires SoundChart(g, cats, earlier) && SoundTable(g, cats, cur)
    ensures SoundTable(g, cats, Close(g, earlier, cur))
    decreases |Universe(g, cur.idx)| - |cur.stations|
  {
    var completed := CompleteWalk(g, earlier, cur, 0);
    var next := PredictWalk(g, completed, 0);
    CompleteWalkSoundness(g, cats, earlier, cur, 0);
    PredictWalkSoundness(g, cats, completed, 0);
    if next.stations != cur.stations {
      TableBound(g, next);
      CloseSoundness(g, cats, earlier, next);
    }
  }

  lemma ScanSoundness(g: seq<Rule>, cats: seq<Symbol>, words: map<string, seq<Symbol>>, token: string, prev: Table)
    requires Known(words, token) && prev.idx < |cats| && cats[prev.idx] == words[token][0]
    requires SoundTable(g, cats, prev)
    ensures SoundTable(g, cats, Scan(words, token, prev).value)
  {
    var t := Scan(words, token, prev).value;
    forall x | x in t.stations
      ensures ValidAt(g, cats, x, t.idx)
    {
      assert ScannedFrom(prev.stations, words[token][0], x);
      ScanValid(g, cats, Retreat(x), prev.idx);
    }
  }

  lemma {:induction false} ParseFromSoundness(g: seq<Rule>, words: map<string, seq<Symbol>>, tokens: seq<string>, chart: seq<Table>)
    requires 0 < |chart| <= |tokens| + 1
    requires ChartOk(g, chart) && AllSealed(g, chart) && ScansKept(words, tokens, chart)
    requires SoundChart(g, Categories(words, tokens), chart)
    ensures ParseFrom(g, words, tokens, chart).Ok? ==>
      SoundChart(g, Categories(words, tokens), ParseFrom(g, words, tokens, chart).value)
    decreases |tokens| + 1 - |chart|
  {
    var cats := Categories(words, tokens);
    if |chart| < |tokens| + 1 {
      var k := |chart| - 1;
      var token := tokens[k];
      var scan := Scan(words, token, chart[k]);
      if scan.Ok? {
        ScanOk(g, words, token, chart[k]);
        ScanSoundness(g, cats, words, token, chart[k]);
        var t := NextTable(g, words, tokens, chart);
        CloseSoundness(g, cats, chart, scan.value);
        assert ParseFrom(g, words, tokens, chart) == ParseFrom(g, words, tokens, chart + [t]);
        ParseFromSoundness(g, words, tokens, chart + [t]);
      }
    }
  }

  /** Every station of every table `parse` builds is valid for the tokens' first categories. */
  lemma ParseSound(g: seq<Rule>, words: map<string, seq<Symbol>>, tokens: seq<string>)
    requires Parse(g, words, tokens).Ok?
    ensures SoundChart(g, Categories(words, tokens), Parse(g, words, tokens).value)
  {
    var cats := Categories(words, tokens);
    forall x | x in Seed(g).stations
      ensures ValidAt(g, cats, x, 0)
    {
      PredictionValid(g, cats, Start, 0, x);
    }
    CloseSoundness(g, cats, [], Seed(g));
    var t0 := Close(g, [], Seed(g));
    assert [t0][..0] == [];
    ParseFromSoundness(g, words, tokens, [t0]);
  }

  /** Acceptance is sound: the start symbol derives the whole sentence of first categories. */
  lemma AcceptsDerives(g: seq<Rule>, words: map<string, seq<Symbol>>, tokens: seq<string>)
    requires Parse(g, words, tokens).Ok? && Accepts(Parse(g, words, tokens).value)
    ensures exists n: nat :: DerivesSym(g, Categories(words, tokens), Start, 0, |tokens|, n)
  {
    var chart := Parse(g, words, tokens).value;
    var cats := Categories(words, tokens);
    ParseSound(g, words, tokens);
    var x :| x in chart[|tokens|].stations && x.lhs == Start && Complete(x) && x.origin == 0;
    assert ValidAt(g, cats, x, chart[|tokens|].idx);
    var n: nat :| DerivesSeq(g, cats, x.body[..x.dot], 0, |tokens|, n);
    assert x.body[..x.dot] == x.body;
    assert InUniverse(g, |tokens|, x);
    assert DerivesSym(g, cats, Start, 0, |tokens|, n + 1);
  }
}
