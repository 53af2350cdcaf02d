/** Parsing what the writer prints gives the graph back. */
module GraphRoundTrip {
  import Graphs
  import opened GraphText

  predicate Solid(t: string) { t != "" && !IsSpace(t[0]) }

  lemma {:induction false} SkipSpaces(ws: string, t: string)
    requires (forall i :: 0 <= i < |ws| ==> IsSpace(ws[i])) && Solid(t)
    ensures Skip(ws + t) == t
  {
    if ws == "" {
      assert ws + t == t;
    } else {
      assert (ws + t)[1..] == ws[1..] + t;
      SkipSpaces(ws[1..], t);
    }
  }

  /** A character that is no space is met where it stands. */
  lemma Comes(c: char, t: string)
    requires !IsSpace(c) && c != '\0'
    ensures Skip([c] + t) == [c] + t && Peek([c] + t) == c && ([c] + t)[1..] == t && Expect([c] + t, c) == Ok((), t)
  {
    SkipSpaces("", [c] + t);
    assert "" + ([c] + t) == [c] + t;
  }

  lemma {:induction false} UnquotedName(name: string, t: string, acc: string)
    requires forall i :: 0 <= i < |name| ==> name[i] != '"' && name[i] != '\0'
    ensures Unquoted(name + "\"" + t, acc) == (acc + name, "\"" + t)
    decreases |name|
  {
    var u := name + "\"" + t;
    if name == "" {
      assert u == "\"" + t && acc + name == acc;
    } else {
      assert u[1..] == name[1..] + "\"" + t;
      UnquotedName(name[1..], t, acc + [name[0]]);
      assert acc + [name[0]] + name[1..] == acc + name;
    }
  }

  lemma KeyRead(name: string, t: string)
    requires forall i :: 0 <= i < |name| ==> name[i] != '"' && name[i] != '\0'
    ensures Key("\"" + name + "\"" + t) == Ok(name, t)
  {
    var u := name + "\"" + t;
    assert "\"" + name + "\"" + t == "\"" + u;
    SkipSpaces("", "\"" + u);
    assert "" + ("\"" + u) == "\"" + u && ("\"" + u)[1..] == u;
    UnquotedName(name, t, "");
    SkipSpaces("", "\"" + t);
    assert "" + ("\"" + t) == "\"" + t && ("\"" + t)[1..] == t && "" + name == name;
  }

  predicate NoDigit(t: string) { t == "" || !('0' <= t[0] <= '9') }

  lemma {:induction false} DigitsRead(n: nat, t: string)
    ensures Digits(ShowNat(n) + t, 0) == Digits(t, n)
  {
    if n < 10 {
      DigitRead(n, t, 0);
    } else {
      var u := [Digit(n % 10)] + t;
      assert ShowNat(n) + t == ShowNat(n / 10) + u;
      DigitsRead(n / 10, u);
      DigitRead(n % 10, t, n / 10);
    }
  }

  lemma DigitRead(d: nat, t: string, v: int)
    requires d < 10
    ensures Digits([Digit(d)] + t, v) == Digits(t, v * 10 + d)
  {
    assert ([Digit(d)] + t)[1..] == t;
  }

  lemma ShowNatIsSolid(n: nat)
    ensures Solid(ShowNat(n)) && ShowNat(n)[0] != '-' && ShowNat(n)[0] != ']' && ShowNat(n)[0] != '\0'
  {
  }

  /** Reading a printed integer. */
  lemma IntRead(v: int, t: string)
    requires NoDigit(t)
    ensures Int(ShowInt(v) + t) == (v, t)
  {
    hide Digits, ShowNat, Skip, Peek;
    var n := if v < 0 then -v else v;
    DigitsRead(n, t);
    EndOfDigits(t, n);
    if v < 0 {
      assert ShowInt(v) + t == ['-'] + (ShowNat(n) + t);
      Comes('-', ShowNat(n) + t);
    } else {
      ShowNatIsSolid(n);
      var u := ShowNat(n) + t;
      assert u == [ShowNat(n)[0]] + u[1..];
      Comes(ShowNat(n)[0], u[1..]);
    }
  }

  lemma EndOfDigits(t: string, v: int)
    requires NoDigit(t)
    ensures Digits(t, v) == (v, t)
  {
  }

  // ---- lists -----------------------------------------------------------------------

  predicate Ids32(ids: seq<nat>) { forall i :: 0 <= i < |ids| ==> ids[i] < 0x1_0000_0000 }

  lemma NatRead(n: nat, t: string)
    requires NoDigit(t)
    ensures Int(ShowNat(n) + t) == (n, t)
  {
    IntRead(n, t);
  }

  lemma {:induction false} ItemsRead(ids: seq<nat>, t: string, acc: seq<nat>)
    requires ids != [] && Ids32(ids)
    ensures ArrayItems(ShowIds(ids) + "]" + t, acc) == Ok(acc + ids, t)
    decreases |ids|
  {
    hide Int, Skip, Expect, Peek, ShowNat;
    var u := ShowIds(ids) + "]" + t;
    if |ids| == 1 {
      var v := [']'] + t;
      assert u == ShowNat(ids[0]) + v;
      NatRead(ids[0], v);
      Comes(']', t);
      assert acc + [ids[0]] == acc + ids;
    } else {
      var w := ShowIds(ids[1..]) + "]" + t;
      var v := [','] + w;
      assert u == ShowNat(ids[0]) + v;
      NatRead(ids[0], v);
      Comes(',', w);
      ItemsRead(ids[1..], t, acc + [ids[0]]);
      assert acc + [ids[0]] + ids[1..] == acc + ids;
    }
  }

  lemma ArrayRead(ids: seq<nat>, t: string)
    requires Ids32(ids)
    ensures Array("[" + ShowIds(ids) + "]" + t) == Ok(ids, t)
  {
    hide Skip, Expect, Peek, ShowIds, ArrayItems;
    var w := ShowIds(ids) + "]" + t;
    assert "[" + ShowIds(ids) + "]" + t == ['['] + w;
    Comes('[', w);
    if ids == [] {
      NoIdsShown();
      assert w == [']'] + t;
      Comes(']', t);
    } else {
      FirstIdShown(ids, "]" + t);
      assert w == ShowIds(ids) + ("]" + t);
      ItemsRead(ids, t, []);
      assert [] + ids == ids;
    }
  }

  lemma NoIdsShown()
    ensures ShowIds([]) == ""
  {
  }

  lemma FirstIdShown(ids: seq<nat>, t: string)
    requires ids != []
    ensures var w := ShowIds(ids) + t; Skip(w) == w && Peek(w) != ']'
  {
    var w := ShowIds(ids) + t;
    ShowNatIsSolid(ids[0]);
    assert w[0] == ShowNat(ids[0])[0];
    SkipSpaces("", w);
    assert "" + w == w;
  }

  predicate Layers32(layers: seq<seq<nat>>) { forall i :: 0 <= i < |layers| ==> Ids32(layers[i]) }

  lemma {:induction false} LayersRead(layers: seq<seq<nat>>, t: string, acc: seq<seq<nat>>)
    requires layers != [] && Layers32(layers)
    ensures LayerItems(ShowLayers(layers) + "]" + t, acc) == Ok(acc + layers, t)
    decreases |layers|
  {
    hide Array, ShowIds, Skip, Expect, Peek;
    var u := ShowLayers(layers) + "]" + t;
    if |layers| == 1 {
      var v := [']'] + t;
      assert u == "[" + ShowIds(layers[0]) + "]" + v;
      ArrayRead(layers[0], v);
      Comes(']', t);
      assert acc + [layers[0]] == acc + layers;
    } else {
      var w := ShowLayers(layers[1..]) + "]" + t;
      var v := [','] + w;
      assert u == "[" + ShowIds(layers[0]) + "]" + v;
      ArrayRead(layers[0], v);
      Comes(',', w);
      assert w == ['['] + w[1..];
      Comes('[', w[1..]);
      LayersRead(layers[1..], t, acc + [layers[0]]);
      assert acc + [layers[0]] + layers[1..] == acc + layers;
    }
  }

  lemma NodeOpened(t: string)
    ensures NodeOpen("    {\"l\":[" + t) == Ok((), t)
  {
    hide Skip, Expect, Peek, Key;
    var b := "[" + t;
    var q := "l\":[" + t;
    var a := ['"'] + q;
    var o := ['{'] + a;
    assert "    {\"l\":[" + t == "    " + o;
    SkipSpaces("    ", o);
    Comes('{', a);
    Comes('"', q);
    assert a == "\"" + "l" + "\"" + ([':'] + b);
    KeyRead("l", [':'] + b);
    Comes(':', b);
    assert b == ['['] + t;
    Comes('[', t);
  }

  lemma NodeRead(layers: seq<seq<nat>>, t: string)
    requires Layers32(layers)
    ensures Node(ShowNode(layers) + t) == Ok(layers, t)
  {
    hide LayerItems, ShowLayers, NodeOpen, Skip, Expect, Peek;
    var y := ['}'] + t;
    var w := ShowLayers(layers) + "]" + y;
    assert ShowNode(layers) + t == "    {\"l\":[" + w;
    NodeOpened(w);
    Comes('}', t);
    if layers == [] {
      NoLayersShown();
      assert w == [']'] + y;
      Comes(']', y);
    } else {
      FirstLayerShown(layers);
      assert w == ['['] + w[1..];
      Comes('[', w[1..]);
      LayersRead(layers, y, []);
      assert [] + layers == layers;
    }
  }

  lemma NoLayersShown()
    ensures ShowLayers([]) == ""
  {
  }

  lemma FirstLayerShown(layers: seq<seq<nat>>)
    requires layers != []
    ensures ShowLayers(layers) != "" && ShowLayers(layers)[0] == '['
  {
  }

  predicate Adj32(adj: Graphs.Adj) { forall i :: 0 <= i < |adj| ==> Layers32(adj[i]) }

  lemma {:induction false} NodesRead(adj: Graphs.Adj, t: string, acc: Graphs.Adj)
    requires adj != [] && Adj32(adj)
    ensures NodeItems(ShowNodes(adj) + "  ]" + t, acc) == Ok(acc + adj, t)
    ensures NodeItems(Skip(ShowNodes(adj) + "  ]" + t), acc) == Ok(acc + adj, t)
    decreases |adj|
  {
    hide Node, ShowNode, Skip, Expect, Peek;
    var u := ShowNodes(adj) + "  ]" + t;
    if |adj| == 1 {
      var e := [']'] + t;
      var v := "\n  " + e;
      assert ShowNodes(adj[1..]) == "";
      assert u == ShowNode(adj[0]) + v;
      NodeReadSkipped(adj[0], v);
      SkipSpaces("\n  ", e);
      Comes(']', t);
      assert acc + [adj[0]] == acc + adj;
    } else {
      var w := ShowNodes(adj[1..]) + "  ]" + t;
      var v := [','] + ("\n" + w);
      assert u == ShowNode(adj[0]) + v;
      NodeReadSkipped(adj[0], v);
      Comes(',', "\n" + w);
      SkipNewline(w);
      NodesRead(adj[1..], t, acc + [adj[0]]);
      assert acc + [adj[0]] + adj[1..] == acc + adj;
    }
  }

  lemma SkipNewline(t: string)
    ensures Skip("\n" + t) == Skip(t)
  {
    assert ("\n" + t)[1..] == t;
  }

  /** What follows the spaces of a printed node. */
  function FromBrace(layers: seq<seq<nat>>, t: string): string { "\"l\":[" + ShowLayers(layers) + "]}" + t }

  lemma NodeBrace(layers: seq<seq<nat>>, t: string)
    ensures ShowNode(layers) + t == "    " + (['{'] + FromBrace(layers, t))
  {
    hide ShowLayers;
  }

  /** Spaces before a node do not matter. */
  lemma NodeReadSkipped(layers: seq<seq<nat>>, t: string)
    requires Layers32(layers)
    ensures Node(ShowNode(layers) + t) == Ok(layers, t) && Node(Skip(ShowNode(layers) + t)) == Ok(layers, t)
  {
    hide ShowLayers, LayerItems, Expect, Key, FromBrace, ShowNode, Skip, Peek;
    NodeRead(layers, t);
    var a := FromBrace(layers, t);
    NodeBrace(layers, t);
    SkipSpaces("    ", ['{'] + a);
    Comes('{', a);
  }

  // ---- the whole file -----------------------------------------------------------------

  predicate Name(key: string) { forall i :: 0 <= i < |key| ==> key[i] != '"' && key[i] != '\0' }

  lemma KeyColonRead(sep: string, key: string, t: string)
    requires (sep == "\n" || sep == ",\n") && Name(key) && Solid(t)
    ensures var u := Skip(sep + "  \"" + key + "\": " + t);
      Peek(u) != '}' && KeyColon(u) == Ok(key, t)
  {
    hide Skip, Expect, Peek, Key;
    var c := [':'] + (" " + t);
    var q := ['"'] + (key + "\"" + c);
    var all := sep + "  \"" + key + "\": " + t;
    SkipSpaces("\n  ", q);
    Comes('"', key + "\"" + c);
    if sep == "\n" {
      assert all == "\n  " + q;
    } else {
      assert all == [','] + ("\n  " + q);
      Comes(',', "\n  " + q);
    }
    assert q == "\"" + key + "\"" + c;
    KeyRead(key, c);
    Comes(':', " " + t);
    SkipSpaces(" ", t);
  }

  lemma ShowIntIsSolid(v: int, t: string)
    ensures Solid(ShowInt(v) + t)
  {
    ShowNatIsSolid(if v < 0 then -v else v);
  }

  /** One line of the header. */
  lemma LineRead(sep: string, key: string, v: int, t: string, g: JsonGraph)
    requires (sep == "\n" || sep == ",\n") && Name(key) && IsNumberKey(key) && NoDigit(t)
    ensures Members(sep + Body(key, v) + t, g) == Members(t, Set(g, key, v))
  {
    hide KeyColon, Set, Skip, Peek, Int, ShowInt, IsNumberKey;
    var x := ShowInt(v) + t;
    ShowIntIsSolid(v, t);
    KeyColonRead(sep, key, x);
    assert sep + Body(key, v) + t == sep + "  \"" + key + "\": " + x;
    IntRead(v, t);
  }

  lemma AdjIsNoNumber()
    ensures !IsNumberKey("adj") && Name("adj")
  {
  }

  /** The value of the `adj` key. */
  lemma AdjValue(adj: Graphs.Adj, g: JsonGraph, t: string)
    requires Adj32(adj) && g.adj == []
    ensures Value("[\n" + ShowNodes(adj) + "  ]" + t, "adj", g) == Ok(g.(adj := adj), t)
  {
    hide ShowNodes, NodeItems, Skip, Peek, Expect, IsNumberKey;
    AdjIsNoNumber();
    var nodes := ShowNodes(adj) + "  ]" + t;
    assert "[\n" + ShowNodes(adj) + "  ]" + t == ['['] + ("\n" + nodes);
    Comes('[', "\n" + nodes);
    SkipNewline(nodes);
    if adj == [] {
      NoNodesShown();
      assert nodes == "  " + ([']'] + t);
      SkipSpaces("  ", [']'] + t);
      Comes(']', t);
    } else {
      NodesRead(adj, t, []);
      assert [] + adj == adj;
      FirstNodeShown(adj, "  ]" + t);
      assert nodes == ShowNodes(adj) + ("  ]" + t);
    }
  }

  /** The adjacency lists and the end of the file. */
  lemma AdjRead(adj: Graphs.Adj, g: JsonGraph)
    requires Adj32(adj) && g.adj == []
    ensures Members(",\n  \"adj\": [\n" + ShowNodes(adj) + "  ]\n}\n", g) == Ok(g.(adj := adj), "\n")
  {
    hide KeyColon, ShowNodes, Value, Skip, Peek;
    var x := "[\n" + ShowNodes(adj) + "  ]" + "\n}\n";
    assert ",\n  \"adj\": [\n" + ShowNodes(adj) + "  ]\n}\n" == ",\n" + "  \"" + "adj" + "\": " + x;
    AdjIsNoNumber();
    KeyColonRead(",\n", "adj", x);
    AdjValue(adj, g, "\n}\n");
    Finish(g.(adj := adj));
  }

  lemma NoNodesShown()
    ensures ShowNodes([]) == ""
  {
  }

  lemma FirstNodeShown(adj: Graphs.Adj, t: string)
    requires adj != []
    ensures Peek(Skip(ShowNodes(adj) + t)) == '{'
  {
    hide ShowNode, FromBrace, Skip, Peek;
    var u := (if |adj| == 1 then "" else ",") + "\n" + ShowNodes(adj[1..]) + t;
    assert ShowNodes(adj) + t == ShowNode(adj[0]) + u;
    NodeBrace(adj[0], u);
    SkipSpaces("    ", ['{'] + FromBrace(adj[0], u));
    Comes('{', FromBrace(adj[0], u));
  }

  lemma Finish(g: JsonGraph)
    ensures Members("\n}\n", g) == Ok(g, "\n")
  {
    SkipSpaces("\n", "}\n");
    assert "\n" + "}\n" == "\n}\n" && "}\n"[1..] == "\n";
  }

  /** What the fields of a printed graph can hold. */
  predicate Printable(g: JsonGraph) {
    && IsInt32(g.dim) && g.vecCount < 0x1_0000_0000 && IsInt32(g.M) && IsInt32(g.Mmax0) && IsInt32(g.efConstruction)
    && IsInt32(g.efSearch) && IsInt32(g.maxLayers) && g.entryPoint < 0x1_0000_0000 && IsInt32(g.maxLayer) && Adj32(g.adj)
  }

  // The text of a printed graph from each line on, the separator in front.
  function FromAdj(g: JsonGraph): string { ",\n  \"adj\": [\n" + ShowNodes(g.adj) + "  ]\n}\n" }
  function FromMaxLayer(g: JsonGraph): string { ",\n" + Body("max_layer", g.maxLayer) + FromAdj(g) }
  function FromEntryPoint(g: JsonGraph): string { ",\n" + Body("entry_point", g.entryPoint) + FromMaxLayer(g) }
  function FromMaxLayers(g: JsonGraph): string { ",\n" + Body("max_layers", g.maxLayers) + FromEntryPoint(g) }
  function FromEfSearch(g: JsonGraph): string { ",\n" + Body("ef_search", g.efSearch) + FromMaxLayers(g) }
  function FromEfConstruction(g: JsonGraph): string { ",\n" + Body("ef_construction", g.efConstruction) + FromEfSearch(g) }
  function FromMmax0(g: JsonGraph): string { ",\n" + Body("M_max0", g.Mmax0) + FromEfConstruction(g) }
  function FromM(g: JsonGraph): string { ",\n" + Body("M", g.M) + FromMmax0(g) }
  function FromVecCount(g: JsonGraph): string { ",\n" + Body("vec_count", g.vecCount) + FromM(g) }
  function FromDim(g: JsonGraph): string { ",\n" + Body("dim", g.dim) + FromVecCount(g) }
  function FromVersion(g: JsonGraph): string { "\n" + Body("version", 1) + FromDim(g) }

  lemma PrintedB1(g: JsonGraph, t: string)
    requires FromMaxLayers(g) == ",\n" + t
    ensures FromEfConstruction(g) == ",\n" + (Line("ef_construction", g.efConstruction) + Line("ef_search", g.efSearch) + t)
  {
    hide Body, FromMaxLayers;
  }

  lemma PrintedB2(g: JsonGraph)
    ensures FromMaxLayers(g) == ",\n" + (Line("max_layers", g.maxLayers) + Line("entry_point", g.entryPoint)
      + Line("max_layer", g.maxLayer) + "  \"adj\": [\n" + ShowNodes(g.adj) + "  ]\n}\n")
  {
    hide Body, ShowNodes;
    assert FromEntryPoint(g) == ",\n" + (Line("entry_point", g.entryPoint) + Body("max_layer", g.maxLayer) + FromAdj(g));
  }

  lemma PrintedA1(g: JsonGraph, t: string)
    requires FromM(g) == ",\n" + t
    ensures ['{'] + FromVersion(g) == "{\n" + Line("version", 1) + Line("dim", g.dim) + Line("vec_count", g.vecCount) + t
  {
    hide Body, FromM;
    assert FromDim(g) == ",\n" + Body("dim", g.dim) + ",\n" + Body("vec_count", g.vecCount) + ",\n" + t;
  }

  lemma PrintedA2(g: JsonGraph, t: string)
    requires FromEfConstruction(g) == ",\n" + t
    ensures FromM(g) == ",\n" + (Line("M", g.M) + Line("M_max0", g.Mmax0) + t)
  {
    hide Body, FromEfConstruction;
  }

  lemma PrintedLines(g: JsonGraph)
    ensures Print(g) == ['{'] + FromVersion(g)
  {
    hide Line, ShowNodes, FromVersion, FromEfConstruction, FromMaxLayers, FromM;
    var t2 := Line("max_layers", g.maxLayers) + Line("entry_point", g.entryPoint)
      + Line("max_layer", g.maxLayer) + "  \"adj\": [\n" + ShowNodes(g.adj) + "  ]\n}\n";
    PrintedB2(g);
    var t1 := Line("ef_construction", g.efConstruction) + Line("ef_search", g.efSearch) + t2;
    PrintedB1(g, t2);
    var t0 := Line("M", g.M) + Line("M_max0", g.Mmax0) + t1;
    PrintedA2(g, t1);
    PrintedA1(g, t0);
    PrintedAll(g, t2, t1, t0);
  }

  lemma PrintedAll(g: JsonGraph, t2: string, t1: string, t0: string)
    requires t2 == Line("max_layers", g.maxLayers) + Line("entry_point", g.entryPoint)
      + Line("max_layer", g.maxLayer) + "  \"adj\": [\n" + ShowNodes(g.adj) + "  ]\n}\n"
    requires t1 == Line("ef_construction", g.efConstruction) + Line("ef_search", g.efSearch) + t2
    requires t0 == Line("M", g.M) + Line("M_max0", g.Mmax0) + t1
    ensures Print(g) == "{\n" + Line("version", 1) + Line("dim", g.dim) + Line("vec_count", g.vecCount) + t0
  {
    hide Line, ShowNodes;
    assert HeadB(g) + "  \"adj\": [\n" + ShowNodes(g.adj) + "  ]\n}\n" == t1;
    assert Print(g) == "{\n" + HeadA(g) + t1;
  }

  lemma ReadA(g: JsonGraph)
    requires Printable(g)
    ensures Members(FromVersion(g), BLANK) == Members(FromM(g), JsonGraph(1, g.dim, g.vecCount, 0, 0, 0, 0, 0, 0, 0, []))
  {
    hide Members, Body, FromM;
    var g0 := BLANK;
    LineRead("\n", "version", 1, FromDim(g), g0);
    var g1 := g0.(version := 1);
    LineRead(",\n", "dim", g.dim, FromVecCount(g), g1);
    var g2 := g1.(dim := g.dim);
    CommaFirst(g);
    LineRead(",\n", "vec_count", g.vecCount, FromM(g), g2);
  }

  lemma ReadM(g: JsonGraph)
    requires Printable(g)
    ensures Members(FromM(g), JsonGraph(1, g.dim, g.vecCount, 0, 0, 0, 0, 0, 0, 0, []))
      == Members(FromEfConstruction(g), JsonGraph(1, g.dim, g.vecCount, g.M, g.Mmax0, 0, 0, 0, 0, 0, []))
  {
    hide Members, Body, FromEfConstruction;
    var g3 := JsonGraph(1, g.dim, g.vecCount, 0, 0, 0, 0, 0, 0, 0, []);
    LineRead(",\n", "M", g.M, FromMmax0(g), g3);
    var g4 := g3.(M := g.M);
    CommaFirst(g);
    LineRead(",\n", "M_max0", g.Mmax0, FromEfConstruction(g), g4);
  }

  lemma CommaFirst(g: JsonGraph)
    ensures NoDigit(FromM(g)) && NoDigit(FromEfConstruction(g)) && NoDigit(FromEntryPoint(g))
  {
  }

  lemma ReadB(g: JsonGraph)
    requires Printable(g)
    ensures Members(FromEfConstruction(g), JsonGraph(1, g.dim, g.vecCount, g.M, g.Mmax0, 0, 0, 0, 0, 0, []))
      == Members(FromEntryPoint(g), JsonGraph(1, g.dim, g.vecCount, g.M, g.Mmax0, g.efConstruction, g.efSearch, g.maxLayers, 0, 0, []))
  {
    hide Members, Body, FromEntryPoint;
    var g5 := JsonGraph(1, g.dim, g.vecCount, g.M, g.Mmax0, 0, 0, 0, 0, 0, []);
    LineRead(",\n", "ef_construction", g.efConstruction, FromEfSearch(g), g5);
    var g6 := g5.(efConstruction := g.efConstruction);
    LineRead(",\n", "ef_search", g.efSearch, FromMaxLayers(g), g6);
    var g7 := g6.(efSearch := g.efSearch);
    CommaFirst(g);
    LineRead(",\n", "max_layers", g.maxLayers, FromEntryPoint(g), g7);
  }

  lemma ReadC(g: JsonGraph)
    requires Printable(g)
    ensures Members(FromEntryPoint(g), JsonGraph(1, g.dim, g.vecCount, g.M, g.Mmax0, g.efConstruction, g.efSearch, g.maxLayers, 0, 0, []))
      == Ok(g.(version := 1), "\n")
  {
    hide Members, Body;
    var g8 := JsonGraph(1, g.dim, g.vecCount, g.M, g.Mmax0, g.efConstruction, g.efSearch, g.maxLayers, 0, 0, []);
    LineRead(",\n", "entry_point", g.entryPoint, FromMaxLayer(g), g8);
    var g9 := g8.(entryPoint := g.entryPoint);
    LineRead(",\n", "max_layer", g.maxLayer, FromAdj(g), g9);
    AdjRead(g.adj, g9.(maxLayer := g.maxLayer));
  }

  /** The round trip: parsing a printed graph gives every field and every list back, as version 1. */
  lemma ParsePrint(g: JsonGraph)
    requires Printable(g)
    ensures Parse(Print(g)) == Ok(g.(version := 1), "\n")
  {
    hide Members, Print, FromVersion, FromM, FromEfConstruction, FromEntryPoint, Expect;
    PrintedLines(g);
    Comes('{', FromVersion(g));
    ReadA(g);
    ReadM(g);
    ReadB(g);
    ReadC(g);
  }
}
