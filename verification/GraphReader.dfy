/** The recursive-descent parser of the graph file: one cursor that the parsing methods advance. */
module GraphReaders {
  import Graphs
  import opened GraphText

  class Reader {
    const text: string
    var p: nat

    ghost predicate Valid()
      reads this
    {
      p <= |text|
    }

    /** The text that is left. */
    ghost function Rest(): string
      requires Valid()
      reads this
    {
      text[p..]
    }

    constructor (text: string)
      ensures Valid() && Rest() == text
    {
      this.text, p := text, 0;
      new;
      assert text[0..] == text;
    }

    /** The character under the cursor. */
    function Current(): (c: char)
      requires Valid()
      reads this
      ensures c == Peek(Rest())
    {
      if p < |text| then text[p] else '\0'
    }

    method Advance()
      requires Valid() && p < |text|
      modifies this
      ensures Valid() && Rest() == old(Rest())[1..]
    {
      p := p + 1;
    }

    method SkipWs()
      requires Valid()
      modifies this
      ensures Valid() && Rest() == Skip(old(Rest()))
    {
      while Current() == ' ' || Current() == '\n' || Current() == '\r' || Current() == '\t'
        invariant Valid() && Skip(Rest()) == Skip(old(Rest()))
        decreases |text| - p
      {
        Advance();
      }
    }

    /** Consumes `c`; false stands for the exception. */
    method Expecting(c: char) returns (ok: bool)
      requires Valid() && c != '\0'
      modifies this
      ensures Valid() && ok == Expect(old(Rest()), c).Ok?
      ensures ok ==> Rest() == Expect(old(Rest()), c).rest
    {
      SkipWs();
      ok := Current() == c;
      if ok { Advance(); }
    }

    method ParseKey() returns (ok: bool, key: string)
      requires Valid()
      modifies this
      ensures Valid() && ok == Key(old(Rest())).Ok?
      ensures ok ==> Key(old(Rest())) == Ok(key, Rest())
    {
      key := "";
      SkipWs();
      ok := Expecting('"');
      if !ok { return; }
      ghost var u := Rest();
      while Current() != '\0' && Current() != '"'
        invariant Valid() && Unquoted(u, "") == Unquoted(Rest(), key)
        decreases |text| - p
      {
        key := key + [Current()];
        Advance();
      }
      ok := Expecting('"');
    }

    method ParseInt() returns (v: int)
      requires Valid()
      modifies this
      ensures Valid() && Int(old(Rest())) == (v, Rest())
    {
      SkipWs();
      var neg := false;
      if Current() == '-' {
        neg := true;
        Advance();
      }
      ghost var u := Rest();
      v := 0;
      while '0' <= Current() <= '9'
        invariant Valid() && Digits(u, 0) == Digits(Rest(), v)
        decreases |text| - p
      {
        v := v * 10 + (Current() as int - 48);
        Advance();
      }
      if neg { v := -v; }
    }

    method ParseU32Array() returns (ok: bool, ids: seq<nat>)
      requires Valid()
      modifies this
      ensures Valid() && ok == Array(old(Rest())).Ok?
      ensures ok ==> Array(old(Rest())) == Ok(ids, Rest())
    {
      hide Int, Skip, Expect;
      ids := [];
      SkipWs();
      ok := Expecting('[');
      if !ok { return; }
      SkipWs();
      if Current() == ']' { Advance(); return; }
      ghost var u := Rest();
      while true
        invariant Valid() && ArrayItems(u, []) == ArrayItems(Rest(), ids)
        decreases |text| - p
      {
        var v := ParseInt();
        ids := ids + [UInt32(v)];
        SkipWs();
        if Current() == ']' { Advance(); break; }
        ok := Expecting(',');
        if !ok { return; }
      }
    }

    method ParseLayers(ghost u: string) returns (ok: bool, layers: seq<seq<nat>>)
      requires Valid() && Rest() == u
      modifies this
      ensures Valid() && ok == LayerItems(u, []).Ok?
      ensures ok ==> LayerItems(u, []) == Ok(layers, Rest())
    {
      hide Array, Skip, Expect;
      layers := [];
      while true
        invariant Valid() && LayerItems(u, []) == LayerItems(Rest(), layers)
        decreases |text| - p
      {
        var good, ids := ParseU32Array();
        if !good { return false, layers; }
        layers := layers + [ids];
        SkipWs();
        if Current() == ']' { Advance(); return true, layers; }
        ok := Expecting(',');
        if !ok { return; }
        SkipWs();
      }
    }

    method ParseNodeAdj() returns (ok: bool, layers: seq<seq<nat>>)
      requires Valid()
      modifies this
      ensures Valid() && ok == Node(old(Rest())).Ok?
      ensures ok ==> Node(old(Rest())) == Ok(layers, Rest())
    {
      hide Skip, Expect, Key, LayerItems;
      layers := [];
      SkipWs();
      ok := Expecting('{');
      if !ok { return; }
      SkipWs();
      var key;
      ok, key := ParseKey();
      if !ok { return; }
      if key != "l" { return false, layers; }
      ok := Expecting(':');
      if !ok { return; }
      SkipWs();
      ok := Expecting('[');
      if !ok { return; }
      SkipWs();
      if Current() == ']' {
        Advance();
      } else {
        ok, layers := ParseLayers(Rest());
        if !ok { return; }
      }
      ok := Expecting('}');
    }

    method ParseNodes(ghost u: string, before: Graphs.Adj) returns (ok: bool, adj: Graphs.Adj)
      requires Valid() && Rest() == u
      modifies this
      ensures Valid() && ok == NodeItems(u, before).Ok?
      ensures ok ==> NodeItems(u, before) == Ok(adj, Rest())
    {
      hide Node, Skip, Expect;
      adj := before;
      while true
        invariant Valid() && NodeItems(u, before) == NodeItems(Rest(), adj)
        decreases |text| - p
      {
        var good, layers := ParseNodeAdj();
        if !good { return false, adj; }
        adj := adj + [layers];
        SkipWs();
        if Current() == ']' { Advance(); return true, adj; }
        ok := Expecting(',');
        if !ok { return; }
        SkipWs();
      }
    }

    /** The value of one key. */
    method ParseValue(key: string, g: JsonGraph) returns (ok: bool, g': JsonGraph)
      requires Valid()
      modifies this
      ensures Valid() && ok == Value(old(Rest()), key, g).Ok?
      ensures ok ==> Value(old(Rest()), key, g) == Ok(g', Rest())
    {
      hide Skip, Expect, NodeItems, Set, IsNumberKey, Int;
      ok, g' := true, g;
      if IsNumberKey(key) {
        var v := ParseInt();
        g' := Set(g, key, v);
      } else if key == "adj" {
        ok := Expecting('[');
        if !ok { return; }
        SkipWs();
        if Current() == ']' { Advance(); return; }
        var adj;
        ok, adj := ParseNodes(Rest(), g.adj);
        g' := g.(adj := adj);
      }
    }

    /** Parses the whole text; it always terminates, with a graph or with an exception. */
    method ParseJsonGraph() returns (ok: bool, g: JsonGraph)
      requires Valid()
      modifies this
      ensures Valid() && ok == Parse(old(Rest())).Ok?
      ensures ok ==> Parse(old(Rest())) == Ok(g, Rest())
    {
      hide Skip, Expect, Key, Value;
      g := BLANK;
      ok := Expecting('{');
      if !ok { return; }
      ghost var u := Rest();
      while true
        invariant Valid() && Members(u, BLANK) == Members(Rest(), g)
        decreases |text| - p
      {
        SkipWs();
        if Current() == '}' { Advance(); return true, g; }
        if Current() == ',' { Advance(); SkipWs(); }
        var key;
        ok, key := ParseKey();
        if !ok { return; }
        ok := Expecting(':');
        if !ok { return; }
        SkipWs();
        ok, g := ParseValue(key, g);
        if !ok { return; }
      }
    }
  }
}
