/** What the graph file looks like, and what any text the parser accepts looks like. */
module GraphLaws {
  import Graphs
  import opened GraphText

  // ---- numbers ------------------------------------------------------------------------

  /** The conversions to 32 bits wrap around: the result is in range and differs by a multiple of 2^32. */
  lemma NarrowingWraps(v: int)
    ensures -0x8000_0000 <= Int32(v) < 0x8000_0000 && (Int32(v) - v) % 0x1_0000_0000 == 0
    ensures 0 <= UInt32(v) < 0x1_0000_0000 && (UInt32(v) - v) % 0x1_0000_0000 == 0
  {
  }

  /** Numbers are written in decimal, most significant digit first, without leading zeros. */
  lemma Decimal(n: nat, d: nat)
    requires d < 10
    ensures n > 0 ==> ShowNat(10 * n + d) == ShowNat(n) + ["0123456789"[d]]
    ensures ShowNat(d) == ["0123456789"[d]] && (n > 0 ==> ShowInt(-(n as int)) == "-" + ShowNat(n)) && ShowInt(n) == ShowNat(n)
  {
    OneDigit(d);
    LastDigit(n, d);
    hide Digit;
  }

  lemma OneDigit(d: nat)
    requires d < 10
    ensures Digit(d) == "0123456789"[d]
  {
  }

  lemma LastDigit(n: nat, d: nat)
    requires d < 10
    ensures (10 * n + d) / 10 == n && (10 * n + d) % 10 == d
  {
  }

  // ---- what is written ------------------------------------------------------------------

  predicate StandsAt(t: string, i: nat, piece: string) { i + |piece| <= |t| && t[i..i + |piece|] == piece }

  ghost predicate Contains(t: string, piece: string) { exists i: nat :: StandsAt(t, i, piece) }

  lemma ContainsHere(a: string, piece: string, b: string)
    ensures Contains(a + piece + b, piece)
  {
    assert StandsAt(a + piece + b, |a|, piece);
  }

  lemma ContainsAround(a: string, t: string, b: string, piece: string)
    requires Contains(t, piece)
    ensures Contains(a + t + b, piece)
  {
    var i: nat :| StandsAt(t, i, piece);
    var u := a + t + b;
    assert u[|a| + i..|a| + i + |piece|] == t[i..i + |piece|];
    assert StandsAt(u, |a| + i, piece);
  }

  /** One line of the file. */
  function Entry(key: string, v: int): string { "  \"" + key + "\": " + ShowInt(v) + ",\n" }

  /** The saved text carries every number under its own key. */
  lemma EveryKeyWritten(g: JsonGraph)
    ensures var t := Print(g);
      && Contains(t, Entry("version", 1)) && Contains(t, Entry("dim", g.dim)) && Contains(t, Entry("vec_count", g.vecCount))
      && Contains(t, Entry("M", g.M)) && Contains(t, Entry("M_max0", g.Mmax0))
      && Contains(t, Entry("ef_construction", g.efConstruction)) && Contains(t, Entry("ef_search", g.efSearch))
      && Contains(t, Entry("max_layers", g.maxLayers)) && Contains(t, Entry("entry_point", g.entryPoint))
      && Contains(t, Entry("max_layer", g.maxLayer))
  {
    hide Contains, Entry, Print, HeadA, HeadB;
    HeadALines(g);
    HeadBLines(g);
    PrintParts(g);
    var a, b, rest := HeadA(g), HeadB(g), AfterHead(g);
    hide AfterHead;
    ContainsAround("{\n", a, b + rest, Entry("version", 1));
    ContainsAround("{\n", a, b + rest, Entry("dim", g.dim));
    ContainsAround("{\n", a, b + rest, Entry("vec_count", g.vecCount));
    ContainsAround("{\n", a, b + rest, Entry("M", g.M));
    ContainsAround("{\n", a, b + rest, Entry("M_max0", g.Mmax0));
    ContainsAround("{\n" + a, b, rest, Entry("ef_construction", g.efConstruction));
    ContainsAround("{\n" + a, b, rest, Entry("ef_search", g.efSearch));
    ContainsAround("{\n" + a, b, rest, Entry("max_layers", g.maxLayers));
    ContainsAround("{\n" + a, b, rest, Entry("entry_point", g.entryPoint));
    ContainsAround("{\n" + a, b, rest, Entry("max_layer", g.maxLayer));
  }

  function AfterHead(g: JsonGraph): string { "  \"adj\": [\n" + ShowNodes(g.adj) + "  ]\n}\n" }

  lemma PrintParts(g: JsonGraph)
    ensures Print(g) == "{\n" + HeadA(g) + (HeadB(g) + AfterHead(g)) && Print(g) == ("{\n" + HeadA(g)) + HeadB(g) + AfterHead(g)
  {
    hide HeadA, HeadB, ShowNodes;
    var o, a, b, c, d, e := "{\n", HeadA(g), HeadB(g), "  \"adj\": [\n", ShowNodes(g.adj), "  ]\n}\n";
    Regroup(o + a + b, c, d, e);
    Regroup2(o + a, b, c + d + e);
  }

  lemma Regroup(x: string, c: string, d: string, e: string)
    ensures x + c + d + e == x + (c + d + e)
  {
  }

  lemma Regroup2(x: string, b: string, c: string)
    ensures x + b + c == x + (b + c)
  {
  }

  lemma LineIs(key: string, v: int)
    ensures Line(key, v) == Entry(key, v)
  {
    hide ShowInt;
  }

  lemma FiveLines(a: string, b: string, c: string, d: string, e: string)
    ensures var t := a + b + c + d + e;
      Contains(t, a) && Contains(t, b) && Contains(t, c) && Contains(t, d) && Contains(t, e)
  {
    hide Contains;
    var t := a + b + c + d + e;
    assert t == "" + a + (b + c + d + e) && t == a + b + (c + d + e) && t == (a + b) + c + (d + e);
    assert t == (a + b + c) + d + e && t == (a + b + c + d) + e + "";
    ContainsHere("", a, b + c + d + e);
    ContainsHere(a, b, c + d + e);
    ContainsHere(a + b, c, d + e);
    ContainsHere(a + b + c, d, e);
    ContainsHere(a + b + c + d, e, "");
  }

  lemma HeadALines(g: JsonGraph)
    ensures var t := HeadA(g);
      && Contains(t, Entry("version", 1)) && Contains(t, Entry("dim", g.dim)) && Contains(t, Entry("vec_count", g.vecCount))
      && Contains(t, Entry("M", g.M)) && Contains(t, Entry("M_max0", g.Mmax0))
  {
    hide Contains, Line, Entry;
    LineIs("version", 1); LineIs("dim", g.dim); LineIs("vec_count", g.vecCount); LineIs("M", g.M); LineIs("M_max0", g.Mmax0);
    FiveLines(Line("version", 1), Line("dim", g.dim), Line("vec_count", g.vecCount), Line("M", g.M), Line("M_max0", g.Mmax0));
  }

  lemma HeadBLines(g: JsonGraph)
    ensures var t := HeadB(g);
      && Contains(t, Entry("ef_construction", g.efConstruction)) && Contains(t, Entry("ef_search", g.efSearch))
      && Contains(t, Entry("max_layers", g.maxLayers)) && Contains(t, Entry("entry_point", g.entryPoint))
      && Contains(t, Entry("max_layer", g.maxLayer))
  {
    hide Contains, Line, Entry;
    LineIs("ef_construction", g.efConstruction); LineIs("ef_search", g.efSearch); LineIs("max_layers", g.maxLayers);
    LineIs("entry_point", g.entryPoint); LineIs("max_layer", g.maxLayer);
    FiveLines(Line("ef_construction", g.efConstruction), Line("ef_search", g.efSearch), Line("max_layers", g.maxLayers),
              Line("entry_point", g.entryPoint), Line("max_layer", g.maxLayer));
  }

  // ---- what is accepted -------------------------------------------------------------------

  /** White space in front of a list, a node or the whole text does not matter. */
  lemma LeadingSpace(ws: string, t: string)
    requires forall i :: 0 <= i < |ws| ==> ws[i] in {' ', '\n', '\r', '\t'}
    ensures Array(ws + t) == Array(t) && Node(ws + t) == Node(t) && Parse(ws + t) == Parse(t)
    ensures Int(ws + t) == Int(t)
  {
    hide ArrayItems, LayerItems, Members, Key, Digits;
    SkipsAll(ws, t);
    SkipTwice(ws + t);
    SkipTwice(t);
  }

  lemma {:induction false} SkipsAll(ws: string, t: string)
    requires forall i :: 0 <= i < |ws| ==> ws[i] in {' ', '\n', '\r', '\t'}
    ensures Skip(ws + t) == Skip(t)
  {
    if ws == "" {
      assert ws + t == t;
    } else {
      SkipsAll(ws[1..], t);
      assert (ws + t)[1..] == ws[1..] + t;
    }
  }

  lemma {:induction false} SkipTwice(t: string)
    ensures Skip(Skip(t)) == Skip(t)
  {
    if t != "" && IsSpace(t[0]) { SkipTwice(t[1..]); }
  }

  /** The characters that are neither white space nor part of a number. */
  function Marks(t: string): string {
    if t == "" then ""
    else if t[0] in {' ', '\n', '\r', '\t', '-'} || '0' <= t[0] <= '9' then Marks(t[1..])
    else [t[0]] + Marks(t[1..])
  }

  function Commas(n: nat): string { if n == 0 then "" else "," + Commas(n - 1) }

  function ArrayMarks(ids: seq<nat>): string { "[" + Commas(if ids == [] then 0 else |ids| - 1) + "]" }

  function LayersMarks(layers: seq<seq<nat>>): string {
    if layers == [] then "" else ArrayMarks(layers[0]) + (if |layers| == 1 then "" else "," + LayersMarks(layers[1..]))
  }

  function NodeMarks(layers: seq<seq<nat>>): string { "{\"l\":[" + LayersMarks(layers) + "]}" }

  function NodesMarks(adj: Graphs.Adj): string {
    if adj == [] then "" else NodeMarks(adj[0]) + (if |adj| == 1 then "" else "," + NodesMarks(adj[1..]))
  }

  lemma {:induction false} MarksSkip(t: string)
    ensures Marks(Skip(t)) == Marks(t)
  {
    if t != "" && IsSpace(t[0]) { MarksSkip(t[1..]); }
  }

  predicate IsMark(c: char) { c !in {' ', '\n', '\r', '\t', '-', '\0'} && !('0' <= c <= '9') }

  lemma MarksExpect(t: string, c: char)
    requires IsMark(c) && Expect(t, c).Ok?
    ensures Marks(t) == [c] + Marks(Expect(t, c).rest)
  {
    MarksSkip(t);
  }

  /** A mark under the cursor. */
  lemma MarksPeek(t: string, c: char)
    requires IsMark(c) && Peek(Skip(t)) == c
    ensures Skip(t) != "" && Marks(t) == [c] + Marks(Skip(t)[1..])
  {
    MarksSkip(t);
  }

  lemma {:induction false} MarksDigits(t: string, v: int)
    ensures Marks(Digits(t, v).1) == Marks(t)
    decreases |t|
  {
    if t != "" && '0' <= t[0] <= '9' { MarksDigits(t[1..], v * 10 + (t[0] as int - 48)); }
  }

  lemma MarksInt(t: string)
    ensures Marks(Int(t).1) == Marks(t)
  {
    MarksSkip(t);
    var u := Skip(t);
    if Peek(u) == '-' { MarksDigits(u[1..], 0); } else { MarksDigits(u, 0); }
  }

  lemma {:induction false} ItemsShape(t: string, ids: seq<nat>)
    requires ArrayItems(t, ids).Ok?
    ensures var r := ArrayItems(t, ids); |r.value| > |ids| && Marks(t) == Commas(|r.value| - |ids| - 1) + "]" + Marks(r.rest)
    decreases |t|
  {
    hide Marks, Int, Skip;
    var (v, u) := Int(t);
    MarksInt(t);
    var ids', w := ids + [UInt32(v)], Skip(u);
    SkipTwice(u);
    if Peek(w) == ']' {
      MarksPeek(u, ']');
    } else {
      MarksSkip(u);
      MarksExpect(w, ',');
      ItemsShape(Expect(w, ',').rest, ids');
    }
  }

  lemma ArrayShape(t: string)
    requires Array(t).Ok?
    ensures Marks(t) == ArrayMarks(Array(t).value) + Marks(Array(t).rest)
  {
    hide Marks, ArrayItems, Skip;
    MarksSkip(t);
    MarksExpect(Skip(t), '[');
    var u := Expect(Skip(t), '[').rest;
    var w := Skip(u);
    SkipTwice(u);
    if Peek(w) == ']' {
      MarksPeek(u, ']');
    } else {
      MarksSkip(u);
      ItemsShape(w, []);
    }
  }

  /** What a loop over separated items adds to the list it was given. */
  lemma {:induction false} LayersShape(t: string, layers: seq<seq<nat>>)
    requires LayerItems(t, layers).Ok?
    ensures var r := LayerItems(t, layers);
      |r.value| > |layers| && r.value[..|layers|] == layers && Marks(t) == LayersMarks(r.value[|layers|..]) + "]" + Marks(r.rest)
    decreases |t|
  {
    hide Marks, Array, ArrayMarks, Skip;
    ArrayShape(t);
    var a := Array(t);
    var layers', w := layers + [a.value], Skip(a.rest);
    SkipTwice(a.rest);
    if Peek(w) == ']' {
      MarksPeek(a.rest, ']');
      assert layers'[|layers|..] == [a.value];
    } else {
      MarksSkip(a.rest);
      MarksExpect(w, ',');
      var x := Expect(w, ',').rest;
      MarksSkip(x);
      LayersShape(Skip(x), layers');
      var r := LayerItems(Skip(x), layers');
      assert r.value[|layers|..][1..] == r.value[|layers'|..] && r.value[..|layers'|] == layers';
      assert r.value[|layers|..][0] == r.value[..|layers'|][|layers|] == a.value;
    }
  }

  lemma {:induction false} UnquotedIs(t: string, key: string)
    ensures var r := Unquoted(t, key); |r.0| >= |key| && r.0[..|key|] == key && t == r.0[|key|..] + r.1
    decreases |t|
  {
    if Peek(t) != '\0' && t[0] != '"' { UnquotedIs(t[1..], key + [t[0]]); }
  }

  lemma KeyShape(t: string)
    requires Key(t).Ok? && Key(t).value == "l"
    ensures Marks(t) == "\"l\"" + Marks(Key(t).rest)
  {
    hide Marks, Skip, Unquoted;
    MarksSkip(t);
    MarksExpect(Skip(t), '"');
    var u := Expect(Skip(t), '"').rest;
    UnquotedIs(u, "");
    var (key, v) := Unquoted(u, "");
    assert u == "l" + v;
    MarkFirst('l', v);
    MarksExpect(v, '"');
  }

  lemma MarkFirst(c: char, t: string)
    requires IsMark(c)
    ensures Marks([c] + t) == [c] + Marks(t)
  {
    assert ([c] + t)[1..] == t;
  }

  lemma OpenShape(t: string)
    requires NodeOpen(t).Ok?
    ensures Marks(t) == "{\"l\":[" + Marks(NodeOpen(t).rest)
  {
    hide Marks, Skip, Key;
    MarksSkip(t);
    MarksExpect(Skip(t), '{');
    var u := Expect(Skip(t), '{').rest;
    MarksSkip(u);
    KeyShape(Skip(u));
    var v := Key(Skip(u)).rest;
    MarksExpect(v, ':');
    var w := Expect(v, ':').rest;
    MarksSkip(w);
    MarksExpect(Skip(w), '[');
  }

  /** An accepted node has exactly the punctuation of the lists it was read as: nothing is missing, nothing is skipped. */
  lemma NodeShape(t: string)
    requires Node(t).Ok?
    ensures Marks(t) == NodeMarks(Node(t).value) + Marks(Node(t).rest)
  {
    hide Marks, Skip, NodeOpen, LayerItems, LayersMarks;
    OpenShape(t);
    var u := NodeOpen(t).rest;
    var w := Skip(u);
    SkipTwice(u);
    if Peek(w) == ']' {
      MarksPeek(u, ']');
      NoLayerMarks();
      MarksExpect(w[1..], '}');
    } else {
      MarksSkip(u);
      LayersShape(w, []);
      var r := LayerItems(w, []);
      assert r.value[0..] == r.value;
      MarksExpect(r.rest, '}');
    }
  }

  lemma NoLayerMarks()
    ensures LayersMarks([]) == ""
  {
  }

  lemma {:induction false} NodesShape(t: string, adj: Graphs.Adj)
    requires NodeItems(t, adj).Ok?
    ensures var r := NodeItems(t, adj);
      |r.value| > |adj| && r.value[..|adj|] == adj && Marks(t) == NodesMarks(r.value[|adj|..]) + "]" + Marks(r.rest)
    decreases |t|
  {
    hide Marks, Node, NodeMarks, Skip;
    NodeShape(t);
    var a := Node(t);
    var adj', w := adj + [a.value], Skip(a.rest);
    SkipTwice(a.rest);
    if Peek(w) == ']' {
      MarksPeek(a.rest, ']');
      assert adj'[|adj|..] == [a.value];
    } else {
      MarksSkip(a.rest);
      MarksExpect(w, ',');
      var x := Expect(w, ',').rest;
      MarksSkip(x);
      NodesShape(Skip(x), adj');
      var r := NodeItems(Skip(x), adj');
      assert r.value[|adj|..][1..] == r.value[|adj'|..] && r.value[..|adj'|] == adj';
      assert r.value[|adj|..][0] == r.value[..|adj'|][|adj|] == a.value;
    }
  }

  /** A key the file does not have is not skipped with its value: unless a comma, a key or the end follows at once, the text is refused. */
  lemma UnknownKeyRefused(t: string, g: JsonGraph, key: string, v: string)
    requires Peek(Skip(t)) != '}' && KeyColon(Skip(t)) == Ok(key, v) && Skip(v) == v
    requires key !in {"version", "dim", "vec_count", "M", "M_max0", "ef_construction", "ef_search", "max_layers", "entry_point", "max_layer", "adj"}
    requires Peek(v) !in {',', '"', '}'}
    ensures Members(t, g) == Throws
  {
    hide KeyColon, Unquoted;
    assert Value(v, key, g) == Ok(g, v);
    NoKey(v);
  }

  lemma NoKey(v: string)
    requires Skip(v) == v && Peek(v) !in {',', '"'}
    ensures KeyColon(v) == Throws
  {
  }
}
