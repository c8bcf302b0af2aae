/**
 Stations (dotted rules) of the Earley parser in earley_parser.py.

 The parser stores a station as a left-hand nonterminal `inp`, a body `out`
 in which the literal symbol "." marks the dot, and an origin column `idx`.
 This module models that raw representation together with the utility
 functions that inspect and move the dot, and relates them to an abstract
 `Item` that keeps the dot as a number.
 */
module EarleyItems {

  type Symbol = string

  /** The marker the parser inserts into a body to show the dot. */
  const Dot: Symbol := "."

  datatype Option<T> = None | Some(value: T)

  // ---------------------------------------------------------------------------
  // Symbol kinds: str.isupper / str.islower restricted to ASCII letters
  // ---------------------------------------------------------------------------

  predicate IsUpperChar(c: char) { 'A' <= c <= 'Z' }
  predicate IsLowerChar(c: char) { 'a' <= c <= 'z' }

  /** At least one cased letter and no lower-case letter (a nonterminal name). */
  predicate IsUpper(s: Symbol) {
    (exists k :: 0 <= k < |s| && IsUpperChar(s[k])) &&
    (forall k :: 0 <= k < |s| ==> !IsLowerChar(s[k]))
  }

  /** At least one cased letter and no upper-case letter (a terminal name). */
  predicate IsLower(s: Symbol) {
    (exists k :: 0 <= k < |s| && IsLowerChar(s[k])) &&
    (forall k :: 0 <= k < |s| ==> !IsUpperChar(s[k]))
  }

  /** The two symbol kinds never overlap, and the dot marker has neither kind. */
  lemma KindsExclusive(s: Symbol)
    ensures !(IsUpper(s) && IsLower(s))
    ensures !IsUpper(Dot) && !IsLower(Dot)
  {
    assert Dot[0] == '.';
  }

  // ---------------------------------------------------------------------------
  // Raw stations
  // ---------------------------------------------------------------------------

  /** A station exactly as the parser stores it; equality is structural. */
  datatype Station = Station(inp: Symbol, out: seq<Symbol>, idx: int)

  predicate NoDot(s: seq<Symbol>) {
    forall k :: 0 <= k < |s| ==> s[k] != Dot
  }

  /** Number of dot markers in a body. */
  function DotCount(s: seq<Symbol>): nat {
    if |s| == 0 then 0 else (if s[0] == Dot then 1 else 0) + DotCount(s[1..])
  }

  /** The body with every dot marker removed. */
  function Strip(s: seq<Symbol>): seq<Symbol> {
    if |s| == 0 then [] else (if s[0] == Dot then [] else [s[0]]) + Strip(s[1..])
  }

  lemma {:induction false} DotCountAppend(a: seq<Symbol>, b: seq<Symbol>)
    ensures DotCount(a + b) == DotCount(a) + DotCount(b)
    ensures Strip(a + b) == Strip(a) + Strip(b)
  {
    if |a| > 0 {
      assert (a + b)[1..] == a[1..] + b;
      DotCountAppend(a[1..], b);
    } else {
      assert a + b == b;
    }
  }

  lemma {:induction false} NoDotCount(s: seq<Symbol>)
    requires NoDot(s)
    ensures DotCount(s) == 0 && Strip(s) == s
  {
    if |s| > 0 {
      NoDotCount(s[1..]);
      assert [s[0]] + s[1..] == s;
    }
  }

  /**
   Position of the first dot marker, or -1 when there is none
   (the `dot_idx` search of _move_dot and `dot_positions[0]`).
   */
  function FirstDot(s: seq<Symbol>): (r: int)
    ensures -1 <= r < |s|
    ensures 0 <= r < |s| ==> s[r] == Dot && NoDot(s[..r])
    ensures r < 0 ==> NoDot(s)
  {
    if |s| == 0 then -1
    else if s[0] == Dot then 0
    else
      var p := FirstDot(s[1..]);
      if p < 0 then -1
      else
        assert s[..p + 1] == [s[0]] + s[1..][..p];
        p + 1
  }

  /** Python's list.insert(i, x) for i >= 0: past the end it appends. */
  function ListInsert(s: seq<Symbol>, i: nat, x: Symbol): seq<Symbol> {
    if i <= |s| then s[..i] + [x] + s[i..] else s + [x]
  }

  /**
   _move_dot: delete the first dot (if any) and re-insert a dot one place
   after where it was; with no dot, the dot is inserted at the front.
   */
  function MoveDot(st: Station): (r: Station)
    ensures r.inp == st.inp && r.idx == st.idx
    ensures FirstDot(st.out) < 0 ==> r.out == [Dot] + st.out
    ensures var p := FirstDot(st.out);
      0 <= p < |st.out| - 1 ==> r.out == st.out[..p] + [st.out[p + 1], Dot] + st.out[p + 2..]
    ensures 0 <= FirstDot(st.out) == |st.out| - 1 ==> r == st
    ensures DotCount(r.out) == if DotCount(st.out) == 0 then 1 else DotCount(st.out)
    ensures Strip(r.out) == Strip(st.out)
  {
    var p := FirstDot(st.out);
    var rest := if p < 0 then st.out else st.out[..p] + st.out[p + 1..];
    var out := ListInsert(rest, p + 1, Dot);
    MoveDotFacts(st.out, p, rest, out);
    st.(out := out)
  }

  lemma {:induction false} MoveDotFacts(s: seq<Symbol>, p: int, rest: seq<Symbol>, out: seq<Symbol>)
    requires p == FirstDot(s)
    requires rest == if p < 0 then s else s[..p] + s[p + 1..]
    requires out == ListInsert(rest, p + 1, Dot)
    ensures p < 0 ==> out == [Dot] + s
    ensures 0 <= p < |s| - 1 ==> out == s[..p] + [s[p + 1], Dot] + s[p + 2..]
    ensures 0 <= p == |s| - 1 ==> out == s
    ensures DotCount(out) == if DotCount(s) == 0 then 1 else DotCount(s)
    ensures Strip(out) == Strip(s)
  {
    SingleDot();
    if p < 0 {
      NoDotCount(s);
      DotCountAppend([Dot], s);
    } else {
      MoveDotFound(s, p, rest, out);
    }
  }

  lemma SingleDot()
    ensures DotCount([Dot]) == 1 && Strip([Dot]) == []
  {
    assert [Dot][0] == Dot;
    assert [Dot][1..] == [];
  }

  lemma {:induction false} MoveDotFound(s: seq<Symbol>, p: nat, rest: seq<Symbol>, out: seq<Symbol>)
    requires p < |s| && s[p] == Dot
    requires rest == s[..p] + s[p + 1..]
    requires out == ListInsert(rest, p + 1, Dot)
    ensures p < |s| - 1 ==> out == s[..p] + [s[p + 1], Dot] + s[p + 2..]
    ensures 0 <= p == |s| - 1 ==> out == s
    ensures DotCount(out) == DotCount(s) >= 1
    ensures Strip(out) == Strip(s)
  {
    DeleteDot(s, p);
    InsertDot(rest, p + 1);
    if p < |s| - 1 {
      assert rest[..p + 1] == s[..p] + [s[p + 1]];
      assert rest[p + 1..] == s[p + 2..];
    } else {
      assert rest == s[..p];
      assert s[..p] + [Dot] == s;
    }
  }

  lemma {:induction false} DeleteDot(s: seq<Symbol>, p: nat)
    requires p < |s| && s[p] == Dot
    ensures DotCount(s[..p] + s[p + 1..]) + 1 == DotCount(s)
    ensures Strip(s[..p] + s[p + 1..]) == Strip(s)
  {
    var a, b := s[..p], s[p + 1..];
    SingleDot();
    assert s == (a + [Dot]) + b;
    DotCountAppend(a + [Dot], b);
    DotCountAppend(a, [Dot]);
    DotCountAppend(a, b);
  }

  lemma {:induction false} InsertDot(s: seq<Symbol>, i: nat)
    ensures DotCount(ListInsert(s, i, Dot)) == DotCount(s) + 1
    ensures Strip(ListInsert(s, i, Dot)) == Strip(s)
  {
    if i <= |s| {
      var a, b := s[..i], s[i..];
      assert s == a + b;
      DotCountAppend(a, b);
      DotBetween(a, b);
    } else {
      SingleDot();
      DotCountAppend(s, [Dot]);
    }
  }

  /** A dot put between two pieces adds one to their dot counts and nothing to their symbols. */
  lemma DotBetween(a: seq<Symbol>, b: seq<Symbol>)
    ensures DotCount(a + [Dot] + b) == DotCount(a) + DotCount(b) + 1
    ensures Strip(a + [Dot] + b) == Strip(a) + Strip(b)
  {
    SingleDot();
    DotCountAppend(a + [Dot], b);
    DotCountAppend(a, [Dot]);
  }

  /** is_expand: (next symbol is upper-case, next symbol) when the dot is not last. */
  function IsExpand(out: seq<Symbol>): (bool, Option<Symbol>) {
    var p := FirstDot(out);
    if p < 0 then (false, None)
    else if p == |out| - 1 then (false, None)
    else (IsUpper(out[p + 1]), Some(out[p + 1]))
  }

  /** is_input: the next symbol is lower-case and equals `terminal`. */
  predicate IsInput(out: seq<Symbol>, terminal: Symbol) {
    var p := FirstDot(out);
    if p < 0 then false
    else if p == |out| - 1 then false
    else IsLower(out[p + 1]) && out[p + 1] == terminal
  }

  /** is_backtrack: the body ends in the dot (the source indexes out[-1]). */
  predicate IsBacktrack(out: seq<Symbol>)
    requires |out| > 0
  {
    out[|out| - 1] == Dot
  }

  /** The inner test of _backtrack: some `nt` stands right after a dot. */
  predicate BacktrackMatch(out: seq<Symbol>, nt: Symbol) {
    exists i :: 0 < i < |out| && out[i] == nt && out[i - 1] == Dot
  }

  // ---------------------------------------------------------------------------
  // Abstract items
  // ---------------------------------------------------------------------------

  /** A dotted rule with the dot kept as a position in `body`. */
  datatype Item = Item(lhs: Symbol, body: seq<Symbol>, dot: nat, origin: nat)

  /** The dot is at the end: the item is complete. */
  predicate Complete(it: Item) { it.dot == |it.body| }

  /** The symbol right after the dot is `sym`. */
  predicate Awaits(it: Item, sym: Symbol) { it.dot < |it.body| && it.body[it.dot] == sym }

  /** The symbol right after the dot is a nonterminal. */
  predicate AwaitsNonterminal(it: Item) { it.dot < |it.body| && IsUpper(it.body[it.dot]) }

  /** The symbol right after the dot is the terminal `terminal`. */
  predicate ScansWith(it: Item, terminal: Symbol) {
    it.dot < |it.body| && IsLower(it.body[it.dot]) && it.body[it.dot] == terminal
  }

  function Advance(it: Item): (r: Item)
    requires it.dot < |it.body|
    ensures r.lhs == it.lhs && r.body == it.body && r.origin == it.origin
    ensures r.dot == it.dot + 1
  {
    it.(dot := it.dot + 1)
  }

  /** Items that the raw representation can express faithfully. */
  predicate WellFormed(it: Item) { it.dot <= |it.body| && NoDot(it.body) }

  function Render(body: seq<Symbol>, d: nat): seq<Symbol>
    requires d <= |body|
  {
    body[..d] + [Dot] + body[d..]
  }

  function ToStation(it: Item): Station
    requires it.dot <= |it.body|
  {
    Station(it.lhs, Render(it.body, it.dot), it.origin)
  }

  // ---------------------------------------------------------------------------
  // The raw tests agree with the abstract item
  // ---------------------------------------------------------------------------

  lemma RenderFacts(body: seq<Symbol>, d: nat)
    requires NoDot(body) && d <= |body|
    ensures |Render(body, d)| == |body| + 1
    ensures FirstDot(Render(body, d)) == d
    ensures forall k :: 0 <= k < |body| + 1 && k != d ==> Render(body, d)[k] != Dot
    ensures Render(body, d)[..d] == body[..d] && Render(body, d)[d + 1..] == body[d..]
  {
    var out := Render(body, d);
    assert out[d] == Dot;
    forall k | 0 <= k < |body| + 1 && k != d
      ensures out[k] != Dot
    {
      if k < d { assert out[k] == body[k]; } else { assert out[k] == body[k - 1]; }
    }
    assert out[..d] == body[..d];
    assert out[d + 1..] == body[d..];
  }

  /** The body of a rendered item carries exactly one dot and, stripped, is the item's body. */
  lemma RenderOneDot(body: seq<Symbol>, d: nat)
    requires NoDot(body) && d <= |body|
    ensures DotCount(Render(body, d)) == 1
    ensures Strip(Render(body, d)) == body
  {
    NoDotCount(body[..d]);
    NoDotCount(body[d..]);
    DotCountAppend(body[..d], [Dot]);
    DotCountAppend(body[..d] + [Dot], body[d..]);
    DotCountAppend([Dot], []);
    assert [Dot][0] == Dot;
    assert body[..d] + body[d..] == body;
  }

  /** _move_dot on a station advances the item by one, or leaves a complete item as it is. */
  lemma MoveDotAdvances(it: Item)
    requires WellFormed(it)
    ensures it.dot < |it.body| ==> MoveDot(ToStation(it)) == ToStation(Advance(it))
    ensures it.dot == |it.body| ==> MoveDot(ToStation(it)) == ToStation(it)
  {
    var b, d := it.body, it.dot;
    var out := Render(b, d);
    RenderFacts(b, d);
    if d < |b| {
      var r := MoveDot(ToStation(it));
      assert r.out == out[..d] + [out[d + 1], Dot] + out[d + 2..];
      assert out[d + 1] == b[d];
      assert out[d + 2..] == b[d + 1..];
      assert b[..d] + [b[d]] == b[..d + 1];
      assert r.out == Render(b, d + 1);
    }
  }

  /** _move_dot on a grammar body (which has no dot) yields the item with the dot in front. */
  lemma MoveDotPredicts(lhs: Symbol, body: seq<Symbol>, idx: int)
    requires NoDot(body)
    ensures MoveDot(Station(lhs, body, idx)).out == Render(body, 0)
  {
    assert body[..0] == [] && body[0..] == body;
  }

  lemma RenderedExpand(it: Item)
    requires WellFormed(it)
    ensures IsExpand(ToStation(it).out) ==
      if it.dot < |it.body| then (IsUpper(it.body[it.dot]), Some(it.body[it.dot])) else (false, None)
    ensures IsExpand(ToStation(it).out).0 <==> AwaitsNonterminal(it)
  {
    RenderFacts(it.body, it.dot);
    if it.dot < |it.body| {
      assert Render(it.body, it.dot)[it.dot + 1] == it.body[it.dot];
    }
  }

  lemma RenderedInput(it: Item, terminal: Symbol)
    requires WellFormed(it)
    ensures IsInput(ToStation(it).out, terminal) <==> ScansWith(it, terminal)
  {
    RenderFacts(it.body, it.dot);
    if it.dot < |it.body| {
      assert Render(it.body, it.dot)[it.dot + 1] == it.body[it.dot];
    }
  }

  lemma RenderedBacktrack(it: Item)
    requires WellFormed(it)
    ensures |ToStation(it).out| > 0
    ensures IsBacktrack(ToStation(it).out) <==> Complete(it)
  {
    RenderFacts(it.body, it.dot);
  }

  lemma RenderedBacktrackMatch(it: Item, nt: Symbol)
    requires WellFormed(it)
    ensures BacktrackMatch(ToStation(it).out, nt) <==> Awaits(it, nt)
  {
    var out := Render(it.body, it.dot);
    RenderFacts(it.body, it.dot);
    if Awaits(it, nt) {
      assert out[it.dot + 1] == it.body[it.dot];
      assert 0 < it.dot + 1 < |out| && out[it.dot + 1] == nt && out[it.dot] == Dot;
    }
    if BacktrackMatch(out, nt) {
      var i :| 0 < i < |out| && out[i] == nt && out[i - 1] == Dot;
      assert i - 1 == it.dot;
      assert out[i] == it.body[it.dot];
    }
  }

  /** Structural station equality is item equality. */
  lemma StationEquality(a: Item, b: Item)
    requires WellFormed(a) && WellFormed(b)
    ensures ToStation(a) == ToStation(b) <==> a == b
  {
    if ToStation(a) == ToStation(b) {
      RenderFacts(a.body, a.dot);
      RenderFacts(b.body, b.dot);
      RenderOneDot(a.body, a.dot);
      RenderOneDot(b.body, b.dot);
    }
  }
}
