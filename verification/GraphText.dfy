/** The graph file: what the writer prints and what the parser makes of any text. */
module GraphText {
  import Graphs

  datatype JsonGraph = JsonGraph(version: int, dim: int, vecCount: nat, M: int, Mmax0: int, efConstruction: int,
                                 efSearch: int, maxLayers: int, entryPoint: nat, maxLayer: int, adj: Graphs.Adj)

  /** A zero-initialised graph. */
  const BLANK: JsonGraph := JsonGraph(0, 0, 0, 0, 0, 0, 0, 0, 0, 0, [])

  // ---- integer conversions ----------------------------------------------------------

  /** `(int)` of a wider integer. */
  function Int32(v: int): int {
    var m := v % 0x1_0000_0000;
    if m < 0x8000_0000 then m else m - 0x1_0000_0000
  }

  /** `(uint32_t)` of a wider integer. */
  function UInt32(v: int): nat { v % 0x1_0000_0000 }

  predicate IsInt32(v: int) { -0x8000_0000 <= v < 0x8000_0000 }

  // ---- the writer -------------------------------------------------------------------

  function Digit(d: nat): char
    requires d < 10
  {
    (d + 48) as char
  }

  function ShowNat(n: nat): (r: string)
    ensures r != "" && forall i :: 0 <= i < |r| ==> '0' <= r[i] <= '9'
  {
    if n < 10 then [Digit(n)] else ShowNat(n / 10) + [Digit(n % 10)]
  }

  function ShowInt(v: int): string { if v < 0 then "-" + ShowNat(-v) else ShowNat(v) }

  function Body(key: string, v: int): string { "  \"" + key + "\": " + ShowInt(v) }

  function Line(key: string, v: int): string { Body(key, v) + ",\n" }

  function ShowIds(ids: seq<nat>): string {
    if ids == [] then "" else if |ids| == 1 then ShowNat(ids[0]) else ShowNat(ids[0]) + "," + ShowIds(ids[1..])
  }

  function ShowLayers(layers: seq<seq<nat>>): string {
    if layers == [] then ""
    else "[" + ShowIds(layers[0]) + "]" + (if |layers| == 1 then "" else "," + ShowLayers(layers[1..]))
  }

  function ShowNode(layers: seq<seq<nat>>): string { "    {\"l\":[" + ShowLayers(layers) + "]}" }

  function ShowNodes(adj: Graphs.Adj): string {
    if adj == [] then "" else ShowNode(adj[0]) + (if |adj| == 1 then "" else ",") + "\n" + ShowNodes(adj[1..])
  }

  function HeadA(g: JsonGraph): string {
    Line("version", 1) + Line("dim", g.dim) + Line("vec_count", g.vecCount) + Line("M", g.M) + Line("M_max0", g.Mmax0)
  }

  function HeadB(g: JsonGraph): string {
    Line("ef_construction", g.efConstruction) + Line("ef_search", g.efSearch) + Line("max_layers", g.maxLayers)
    + Line("entry_point", g.entryPoint) + Line("max_layer", g.maxLayer)
  }

  /** The whole file. */
  function Print(g: JsonGraph): string {
    "{\n" + HeadA(g) + HeadB(g) + "  \"adj\": [\n" + ShowNodes(g.adj) + "  ]\n}\n"
  }

  // ---- the parser, on the text that is left ---------------------------------------------

  /** A parsed value and the text after it, or an exception. */
  datatype Parsed<+T> = Ok(value: T, rest: string) | Throws

  predicate IsSpace(c: char) { c == ' ' || c == '\n' || c == '\r' || c == '\t' }

  /** The character at the cursor; the text is NUL-terminated. */
  function Peek(t: string): char { if t == "" then '\0' else t[0] }

  function Skip(t: string): (r: string)
    ensures |r| <= |t|
  {
    if t != "" && IsSpace(t[0]) then Skip(t[1..]) else t
  }

  function Expect(t: string, c: char): (r: Parsed<()>)
    ensures r.Ok? ==> |r.rest| < |t|
    requires c != '\0'
  {
    var u := Skip(t);
    if Peek(u) == c then Ok((), u[1..]) else Throws
  }

  /** The characters up to a quote or the end of the text. */
  function Unquoted(t: string, key: string): (r: (string, string))
    ensures |r.1| <= |t|
    decreases |t|
  {
    if Peek(t) != '\0' && t[0] != '"' then Unquoted(t[1..], key + [t[0]]) else (key, t)
  }

  function Key(t: string): (r: Parsed<string>)
    ensures r.Ok? ==> |r.rest| < |t|
  {
    match Expect(Skip(t), '"')
    case Throws => Throws
    case Ok(_, u) =>
      var (key, v) := Unquoted(u, "");
      match Expect(v, '"')
      case Throws => Throws
      case Ok(_, w) => Ok(key, w)
  }

  function Digits(t: string, v: int): (r: (int, string))
    ensures |r.1| <= |t|
    decreases |t|
  {
    if t != "" && '0' <= t[0] <= '9' then Digits(t[1..], v * 10 + (t[0] as int - 48)) else (v, t)
  }

  /** `parse_int`: an optional sign and any number of digits, none included. */
  function Int(t: string): (r: (int, string))
    ensures |r.1| <= |t|
  {
    var u := Skip(t);
    if Peek(u) == '-' then
      var (v, w) := Digits(u[1..], 0);
      (-v, w)
    else Digits(u, 0)
  }

  function ArrayItems(t: string, ids: seq<nat>): (r: Parsed<seq<nat>>)
    ensures r.Ok? ==> |r.rest| < |t|
    decreases |t|
  {
    var (v, u) := Int(t);
    var ids' := ids + [UInt32(v)];
    var w := Skip(u);
    if Peek(w) == ']' then Ok(ids', w[1..])
    else match Expect(w, ',')
      case Throws => Throws
      case Ok(_, x) => ArrayItems(x, ids')
  }

  function Array(t: string): (r: Parsed<seq<nat>>)
    ensures r.Ok? ==> |r.rest| < |t|
  {
    match Expect(Skip(t), '[')
    case Throws => Throws
    case Ok(_, u) =>
      var w := Skip(u);
      if Peek(w) == ']' then Ok([], w[1..]) else ArrayItems(w, [])
  }

  function LayerItems(t: string, layers: seq<seq<nat>>): (r: Parsed<seq<seq<nat>>>)
    ensures r.Ok? ==> |r.rest| < |t|
    decreases |t|
  {
    match Array(t)
    case Throws => Throws
    case Ok(ids, u) =>
      var layers' := layers + [ids];
      var w := Skip(u);
      if Peek(w) == ']' then Ok(layers', w[1..])
      else match Expect(w, ',')
        case Throws => Throws
        case Ok(_, x) => LayerItems(Skip(x), layers')
  }

  /** The part of a node before its layers. */
  function NodeOpen(t: string): (r: Parsed<()>)
    ensures r.Ok? ==> |r.rest| < |t|
  {
    match Expect(Skip(t), '{')
    case Throws => Throws
    case Ok(_, u) =>
      match Key(Skip(u))
      case Throws => Throws
      case Ok(key, v) =>
        if key != "l" then Throws
        else match Expect(v, ':')
          case Throws => Throws
          case Ok(_, w) => Expect(Skip(w), '[')
  }

  function Node(t: string): (r: Parsed<seq<seq<nat>>>)
    ensures r.Ok? ==> |r.rest| < |t|
  {
    match NodeOpen(t)
    case Throws => Throws
    case Ok(_, u) =>
      var w := Skip(u);
      var layers := if Peek(w) == ']' then Ok([], w[1..]) else LayerItems(w, []);
      match layers
      case Throws => Throws
      case Ok(ls, x) =>
        match Expect(x, '}')
        case Throws => Throws
        case Ok(_, y) => Ok(ls, y)
  }

  function NodeItems(t: string, adj: Graphs.Adj): (r: Parsed<Graphs.Adj>)
    ensures r.Ok? ==> |r.rest| < |t|
    decreases |t|
  {
    match Node(t)
    case Throws => Throws
    case Ok(layers, u) =>
      var adj' := adj + [layers];
      var w := Skip(u);
      if Peek(w) == ']' then Ok(adj', w[1..])
      else match Expect(w, ',')
        case Throws => Throws
        case Ok(_, x) => NodeItems(Skip(x), adj')
  }

  predicate IsNumberKey(key: string) {
    key in ["version", "dim", "vec_count", "M", "M_max0", "ef_construction", "ef_search", "max_layers", "entry_point", "max_layer"]
  }

  /** Storing a number under its key. */
  function Set(g: JsonGraph, key: string, v: int): JsonGraph {
    if key == "version" then g.(version := Int32(v))
    else if key == "dim" then g.(dim := Int32(v))
    else if key == "vec_count" then g.(vecCount := UInt32(v))
    else if key == "M" then g.(M := Int32(v))
    else if key == "M_max0" then g.(Mmax0 := Int32(v))
    else if key == "ef_construction" then g.(efConstruction := Int32(v))
    else if key == "ef_search" then g.(efSearch := Int32(v))
    else if key == "max_layers" then g.(maxLayers := Int32(v))
    else if key == "entry_point" then g.(entryPoint := UInt32(v))
    else if key == "max_layer" then g.(maxLayer := Int32(v))
    else g
  }

  /** The value of a key. An unknown key consumes nothing. */
  function Value(t: string, key: string, g: JsonGraph): (r: Parsed<JsonGraph>)
    ensures r.Ok? ==> |r.rest| <= |t|
  {
    if IsNumberKey(key) then
      var (v, u) := Int(t);
      Ok(Set(g, key, v), u)
    else if key == "adj" then
      match Expect(t, '[')
      case Throws => Throws
      case Ok(_, u) =>
        var w := Skip(u);
        if Peek(w) == ']' then Ok(g, w[1..])
        else match NodeItems(w, g.adj)
          case Throws => Throws
          case Ok(adj, x) => Ok(g.(adj := adj), x)
    else Ok(g, t)
  }

  /** A comma, if there is one, and the key and colon that follow. */
  function KeyColon(t: string): (r: Parsed<string>)
    ensures r.Ok? ==> |r.rest| < |t|
  {
    var u := if Peek(t) == ',' then Skip(t[1..]) else t;
    match Key(u)
    case Throws => Throws
    case Ok(key, v) =>
      match Expect(v, ':')
      case Throws => Throws
      case Ok(_, w) => Ok(key, Skip(w))
  }

  function Members(t: string, g: JsonGraph): (r: Parsed<JsonGraph>)
    decreases |t|
  {
    var u := Skip(t);
    if Peek(u) == '}' then Ok(g, u[1..])
    else match KeyColon(u)
      case Throws => Throws
      case Ok(key, v) =>
        match Value(v, key, g)
        case Throws => Throws
        case Ok(g', w) => Members(w, g')
  }

  /** `parse_json_graph` on the text of a file. */
  function Parse(t: string): Parsed<JsonGraph> {
    match Expect(t, '{')
    case Throws => Throws
    case Ok(_, u) => Members(u, BLANK)
  }
}
