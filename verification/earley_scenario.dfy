/**
 A worked sentence for the parser of earley_parser.py, derived from the
 contracts of `Parse` alone (seeded table 0, every table sealed under
 Complete and Predict, every scan kept): the chart must contain the station
 chain that recognises the sentence.
 */
module EarleyScenario {
  import opened EarleyItems
  import opened EarleyTables
  import opened EarleyParser

  /** S -> NP VP, NP -> det N, N -> n, VP -> vi */
  function SmallGrammar(): seq<Rule> {
    BuildGrammar([("S", [["NP", "VP"]]), ("NP", [["det", "N"]]), ("N", [["n"]]), ("VP", [["vi"]])])
  }

  function SmallWords(): map<string, seq<Symbol>> {
    map["the" := ["det"], "student" := ["n"], "sat" := ["vi"]]
  }

  lemma SmallGrammarRules()
    ensures Rule("S", ["NP", "VP"]) in SmallGrammar()
    ensures Rule("NP", ["det", "N"]) in SmallGrammar()
    ensures Rule("N", ["n"]) in SmallGrammar()
    ensures Rule("VP", ["vi"]) in SmallGrammar()
  {
    var entries := [("S", [["NP", "VP"]]), ("NP", [["det", "N"]]), ("N", [["n"]]), ("VP", [["vi"]])];
    assert entries[0] in entries && entries[1] in entries && entries[2] in entries && entries[3] in entries;
    assert ["NP", "VP"] in entries[0].1 && ["det", "N"] in entries[1].1;
    assert ["n"] in entries[2].1 && ["vi"] in entries[3].1;
  }

  lemma SmallWordsLookup()
    ensures "the" in SmallWords() && "student" in SmallWords() && "sat" in SmallWords()
    ensures SmallWords()["the"] == ["det"] && SmallWords()["student"] == ["n"] && SmallWords()["sat"] == ["vi"]
  {
    assert "the"[1] != "sat"[1] && |"the"| != |"student"| && |"sat"| != |"student"|;
  }

  lemma SymbolKinds()
    ensures IsUpper("NP") && IsUpper("N") && IsUpper("VP")
    ensures IsLower("det") && IsLower("n") && IsLower("vi")
  {
    assert IsUpperChar("NP"[0]) && IsUpperChar("N"[0]) && IsUpperChar("VP"[0]);
    assert IsLowerChar("det"[0]) && IsLowerChar("n"[0]) && IsLowerChar("vi"[0]);
  }

  // ---------------------------------------------------------------------------
  // The closure of a parsed chart, table by table
  // ---------------------------------------------------------------------------

  /** Predict: a station of table `k` waiting for a nonterminal has its productions predicted in table `k`. */
  lemma ChartPredicts(g: seq<Rule>, c: seq<Table>, k: nat, z: Item, r: Rule)
    requires ChartOk(g, c) && AllSealed(g, c) && k < |c|
    requires z in c[k].stations && AwaitsNonterminal(z) && r in g && r.lhs == z.body[z.dot]
    ensures Item(r.lhs, r.body, 0, k) in c[k].stations
  {
    assert Sealed(g, c[..k], c[k]);
    assert PredictDone(g, c[k], z);
  }

  /** Scan: a station of table `k` expecting token `k`'s first category is advanced into table `k + 1`. */
  lemma ChartScans(w: map<string, seq<Symbol>>, toks: seq<string>, c: seq<Table>, k: nat, y: Item)
    requires |c| <= |toks| + 1 && ScansKept(w, toks, c) && k + 1 < |c|
    requires Known(w, toks[k]) && y in c[k].stations && ScansWith(y, w[toks[k]][0])
    ensures Advance(y) in c[k + 1].stations
  {
    assert ScannedInto(w, toks[k], c[k], c[k + 1]);
  }

  /** Complete: a complete station of table `k` advances every station of its origin table waiting for it. */
  lemma ChartCompletes(g: seq<Rule>, c: seq<Table>, k: nat, z: Item, y: Item)
    requires ChartOk(g, c) && AllSealed(g, c) && k < |c|
    requires z in c[k].stations && Complete(z) && y in c[z.origin].stations && Awaits(y, z.lhs)
    ensures Advance(y) in c[k].stations
  {
    assert Sealed(g, c[..k], c[k]);
    assert InUniverse(g, k, z);
    assert TableAt(c[..k], c[k], z.origin) == c[z.origin].stations;
    assert CompleteDone(c[..k], c[k], z);
  }

  /** What `Parse` promises about a successful chart. */
  predicate Guaranteed(g: seq<Rule>, w: map<string, seq<Symbol>>, toks: seq<string>, c: seq<Table>) {
    |c| == |toks| + 1 && ChartOk(g, c) && AllSealed(g, c) && ScansKept(w, toks, c) &&
    Seed(g).stations <= c[0].stations
  }

  /**
   Any chart with the guarantees of `Parse`, for a grammar with the four
   productions and three tokens whose first categories are det, n and vi,
   accepts.
   */
  lemma AcceptsChain(g: seq<Rule>, w: map<string, seq<Symbol>>, toks: seq<string>, c: seq<Table>)
    requires Rule("S", ["NP", "VP"]) in g && Rule("NP", ["det", "N"]) in g
    requires Rule("N", ["n"]) in g && Rule("VP", ["vi"]) in g
    requires |toks| == 3 && Known(w, toks[0]) && Known(w, toks[1]) && Known(w, toks[2])
    requires w[toks[0]][0] == "det" && w[toks[1]][0] == "n" && w[toks[2]][0] == "vi"
    requires |c| == 4 && Guaranteed(g, w, toks, c)
    ensures Accepts(c)
  {
    SymbolKinds();
    var x0 := Item("S", ["NP", "VP"], 0, 0);
    assert IsPrediction(g, Start, 0, x0);
    PrefixMembers(Seed(g).stations, c[0].stations);
    ChartPredicts(g, c, 0, x0, Rule("NP", ["det", "N"]));
    var x1 := Item("NP", ["det", "N"], 0, 0);
    ChartScans(w, toks, c, 0, x1);
    var x2 := Advance(x1);
    ChartPredicts(g, c, 1, x2, Rule("N", ["n"]));
    var x3 := Item("N", ["n"], 0, 1);
    ChartScans(w, toks, c, 1, x3);
    var x4 := Advance(x3);
    ChartCompletes(g, c, 2, x4, x2);
    var x5 := Advance(x2);
    ChartCompletes(g, c, 2, x5, x0);
    var x6 := Advance(x0);
    ChartPredicts(g, c, 2, x6, Rule("VP", ["vi"]));
    var x7 := Item("VP", ["vi"], 0, 2);
    ChartScans(w, toks, c, 2, x7);
    var x8 := Advance(x7);
    ChartCompletes(g, c, 3, x8, x6);
    var x9 := Advance(x6);
    assert x9 in c[3].stations && Complete(x9) && x9.lhs == Start && x9.origin == 0;
  }

  /** `parse` on such inputs succeeds and its chart accepts. */
  lemma AcceptsParse(g: seq<Rule>, w: map<string, seq<Symbol>>, toks: seq<string>)
    requires Rule("S", ["NP", "VP"]) in g && Rule("NP", ["det", "N"]) in g
    requires Rule("N", ["n"]) in g && Rule("VP", ["vi"]) in g
    requires |toks| == 3 && Known(w, toks[0]) && Known(w, toks[1]) && Known(w, toks[2])
    requires w[toks[0]][0] == "det" && w[toks[1]][0] == "n" && w[toks[2]][0] == "vi"
    ensures Parse(g, w, toks).Ok?
    ensures Accepts(Parse(g, w, toks).value)
  {
    forall k | 0 <= k < |toks|
      ensures Known(w, toks[k])
    {
      assert k == 0 || k == 1 || k == 2;
    }
    var r := Parse(g, w, toks);
    assert Guaranteed(g, w, toks, r.value);
    AcceptsChain(g, w, toks, r.value);
  }

  /** "the student sat" is accepted: the last table holds S -> NP VP . from column 0. */
  lemma AcceptanceScenario()
    ensures Parse(SmallGrammar(), SmallWords(), ["the", "student", "sat"]).Ok?
    ensures Accepts(Parse(SmallGrammar(), SmallWords(), ["the", "student", "sat"]).value)
  {
    SmallGrammarRules();
    SmallWordsLookup();
    AcceptsParse(SmallGrammar(), SmallWords(), ["the", "student", "sat"]);
  }
}
