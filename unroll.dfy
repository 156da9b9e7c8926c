/** `unrollChildren` (WebhookListener/businessLogic.js:33-58): a query-result
    node becomes a capability, its children ordered, unrolled in turn and its
    parsed `description` metadata merged on top. */
module Unrolling {
  import opened Wrappers
  import opened JsonValues
  import opened Graph
  import opened ChildOrder

  /** `JSON.parse`: `None` where it throws. */
  type Parser = string -> Option<Json>

  function Lookup(m: map<string, Json>, k: string): Option<Json> {
    if k in m then Some(m[k]) else None
  }

  /** The `description` the node contributes: its own, or the fact sheet's when
      the children are taken from the fact sheet (lines 34-35). */
  function Description(n: GraphNode): Option<Json> {
    match n
    case Direct(v) => Lookup(v.fields, "description")
    case Wrapper(e, fs) =>
      if e.children.Selected? then Lookup(e.fields, "description") else Lookup(fs.fields, "description")
  }

  /** The child edges (lines 34-35): a plain vertex's own `children.edges`
      (`None`, the `null` the later `map` throws on, when not selected); for an
      edge without children of its own, the fact sheet's, defaulting to `[]`. */
  function RawChildren(n: GraphNode): Option<seq<GraphNode>> {
    match n
    case Direct(v) => if v.children.Selected? then Some(v.children.edges) else None
    case Wrapper(e, fs) =>
      if e.children.Selected? then Some(e.children.edges)
      else if fs.children.Selected? then Some(fs.children.edges)
      else Some([])
  }

  /** The vertex whose fields the output copies (line 55). */
  function Base(n: GraphNode): Vertex {
    match n
    case Direct(v) => v
    case Wrapper(_, fs) => fs
  }

  /** `relToParentId` (line 55): the wrapping edge's id, or `null`. */
  function RelToParent(n: GraphNode): Option<string> {
    match n
    case Direct(_) => None
    case Wrapper(e, _) => Some(e.id)
  }

  /** The parsed metadata (lines 36-42): `null` or absent reads as `'{}'`; a
      string is parsed, a parse failure giving `{}`. Other values reach
      `JSON.parse` through `String(...)`: a number or boolean parses back to
      itself and an object's `"[object Object]"` fails, giving `{}`. */
  function Metadata(desc: Option<Json>, parse: Parser): Json {
    match desc
    case None => Obj(map[])
    case Some(d) =>
      match d
      case Null => Obj(map[])
      case Str(s) => parse(s).GetOr(Obj(map[]))
      case Num(_) => d
      case Bool(_) => d
      case Arr(_) => Obj(map[])
      case Obj(_) => Obj(map[])
  }

  /** The order the children are sorted by (lines 44-46): `Some([])` when no sort
      happens (`childrenOrder` absent or its `length` falsy), `None` where the
      source throws: destructuring `null`, reading `null.length`, or calling
      `reduce` on a non-array whose `length` is truthy. */
  function SortOrder(meta: Json): Option<seq<Json>> {
    match meta
    case Null => None
    case Obj(m) =>
      if "childrenOrder" !in m then Some([])
      else (
        match m["childrenOrder"]
        case Null => None
        case Bool(_) => Some([])
        case Num(_) => Some([])
        case Str(s) => if s == "" then Some([]) else None
        case Arr(xs) => Some(xs)
        case Obj(o) => if "length" in o && Truthy(o["length"]) then None else Some([]))
    case _ => Some([])
  }

  /** The keys `{ ...meta }` copies (line 57). */
  function Spread(meta: Json): map<string, Json> {
    match meta
    case Obj(m) => m
    case Str(s) => IndexKeys(Chars(s))
    case Arr(xs) => IndexKeys(xs)
    case _ => map[]
  }

  /** The children after the optional sort (lines 45-52). The comparator
      destructures `node.factSheet.id`, so it throws once it meets an edge
      without a fact sheet — and with two or more children every one is met. */
  function Ordered(raw: seq<GraphNode>, order: seq<Json>): (r: Option<seq<GraphNode>>)
    ensures r.Some? ==> multiset(r.value) == multiset(raw)
  {
    if order == [] then Some(raw)
    else if |raw| >= 2 && exists i :: 0 <= i < |raw| && raw[i].Direct? then None
    else Some(SortChildren(raw, RankTable(order)))
  }

  /** The parsed metadata of a node. */
  function MetaOf(n: GraphNode, parse: Parser): Json {
    Metadata(Description(n), parse)
  }

  /** The child edges in the order they are unrolled; `None` where reading the
      metadata, the children or the sort throws. */
  function SortedChildren(n: GraphNode, parse: Parser): (r: Option<seq<GraphNode>>)
    ensures r.Some? ==> RawChildren(n).Some? && multiset(r.value) == multiset(RawChildren(n).value)
  {
    var order := SortOrder(MetaOf(n, parse));
    var raw := RawChildren(n);
    if order.None? || raw.None? then None else Ordered(raw.value, order.value)
  }

  /** `unrollChildren(node)`; `None` where it throws. */
  function Unroll(n: GraphNode, parse: Parser): Option<CapNode>
    decreases n
  {
    match SortedChildren(n, parse)
    case None => None
    case Some(sorted) =>
      // `children.map(({ node }) => unrollChildren(node))` (line 54)
      var kids := AllSome(seq(|sorted|, i requires 0 <= i < |sorted| =>
        (assert sorted[i] in multiset(RawChildren(n).value); Unroll(sorted[i], parse))));
      if kids.None? then None
      else Some(CapNode(Base(n).id, Base(n).fields - {"description"}, RelToParent(n), kids.value, Spread(MetaOf(n, parse))))
  }

  /** `edges.map(({ node }) => unrollChildren(node))` over a list of nodes: the
      top-level list (line 63), or a node's sorted children (line 54). */
  function UnrollAll(nodes: seq<GraphNode>, parse: Parser): (r: Option<seq<CapNode>>)
    ensures r.Some? <==> forall i :: 0 <= i < |nodes| ==> Unroll(nodes[i], parse).Some?
    ensures r.Some? ==> |r.value| == |nodes| && forall i :: 0 <= i < |nodes| ==> Unroll(nodes[i], parse) == Some(r.value[i])
  {
    AllSome(Map(nodes, g => Unroll(g, parse)))
  }

  /** `Unroll` in terms of `UnrollAll`: a node unrolls when its sorted children
      do, into its base vertex, its parent link, the unrolled children and the
      spread metadata. */
  lemma UnrollDef(n: GraphNode, parse: Parser)
    ensures Unroll(n, parse).Some? <==>
      SortedChildren(n, parse).Some? && UnrollAll(SortedChildren(n, parse).value, parse).Some?
    ensures Unroll(n, parse).Some? ==>
      Unroll(n, parse).value == CapNode(Base(n).id, Base(n).fields - {"description"}, RelToParent(n),
        UnrollAll(SortedChildren(n, parse).value, parse).value, Spread(MetaOf(n, parse)))
  {
    if SortedChildren(n, parse).Some? {
      var sorted := SortedChildren(n, parse).value;
      assert seq(|sorted|, i requires 0 <= i < |sorted| =>
        (assert sorted[i] in multiset(RawChildren(n).value); Unroll(sorted[i], parse)))
        == Map(sorted, g => Unroll(g, parse));
    }
  }

  /** An unrolled node keeps its base vertex's id. */
  lemma UnrollId(n: GraphNode, parse: Parser, c: CapNode)
    requires Unroll(n, parse) == Some(c)
    ensures c.id == Base(n).id
  {
    UnrollDef(n, parse);
  }

  /** No description, `null`, or one that does not parse. */
  ghost predicate NoUsableDescription(n: GraphNode, parse: Parser) {
    match Description(n)
    case None => true
    case Some(d) => d == Null || (d.Str? && parse(d.s).None?)
  }

  /** A missing, `null` or malformed description is read as `{}`: it never makes
      the unrolling throw, adds no metadata and leaves the query order. */
  lemma DescriptionFaultTolerant(n: GraphNode, parse: Parser)
    requires NoUsableDescription(n, parse)
    ensures MetaOf(n, parse) == Obj(map[])
    ensures Unroll(n, parse).Some? <==>
      RawChildren(n).Some? && UnrollAll(RawChildren(n).value, parse).Some?
    ensures Unroll(n, parse).Some? ==>
      Unroll(n, parse).value.extra == map[] &&
      Unroll(n, parse).value.children == UnrollAll(RawChildren(n).value, parse).value
  {
    UnrollDef(n, parse);
  }

  /** `relToParentId` is `null` exactly for a plain vertex and is the wrapping
      edge's id otherwise; the base fields come from the fact sheet when there
      is one, else from the node, without `description`. */
  lemma WrapperResolution(n: GraphNode, parse: Parser, c: CapNode)
    requires Unroll(n, parse) == Some(c)
    ensures c.relToParentId.None? <==> n.Direct?
    ensures n.Wrapper? ==>
      c.relToParentId == Some(n.edge.id) && c.id == n.factSheet.id &&
      c.fields == n.factSheet.fields - {"description"}
    ensures n.Direct? ==> c.id == n.vertex.id && c.fields == n.vertex.fields - {"description"}
  {
    UnrollDef(n, parse);
  }

  /** A reordered list unrolls exactly when the original does, into a
      reordering of its unrolling. */
  lemma UnrollAllPermutation(xs: seq<GraphNode>, ys: seq<GraphNode>, parse: Parser, d: CapNode)
    requires multiset(xs) == multiset(ys)
    requires UnrollAll(xs, parse).Some?
    ensures UnrollAll(ys, parse).Some?
    ensures multiset(UnrollAll(xs, parse).value) == multiset(UnrollAll(ys, parse).value)
  {
    var u := g => Unroll(g, parse);
    var kx, ky := Map(xs, u), Map(ys, u);
    MapPermutation(xs, ys, u);
    forall i | 0 <= i < |ys|
      ensures Unroll(ys[i], parse).Some?
    {
      assert ky[i] in multiset(kx);
    }
    var v := (o: Option<CapNode>) => o.GetOr(d);
    MapPermutation(kx, ky, v);
    assert UnrollAll(xs, parse).value == Map(kx, v);
    assert UnrollAll(ys, parse).value == Map(ky, v);
  }

  /** The output children are the unrolled input edges, only reordered. */
  lemma ChildrenPreserved(n: GraphNode, parse: Parser, c: CapNode)
    requires Unroll(n, parse) == Some(c)
    ensures RawChildren(n).Some? && UnrollAll(RawChildren(n).value, parse).Some?
    ensures multiset(c.children) == multiset(UnrollAll(RawChildren(n).value, parse).value)
  {
    UnrollDef(n, parse);
    UnrollAllPermutation(SortedChildren(n, parse).value, RawChildren(n).value, parse, c);
  }

  /** A leaf fact sheet (no `children` selected on the edge or on the fact
      sheet) unrolls with `children = []`. */
  lemma LeafHasNoChildren(e: Vertex, fs: Vertex, parse: Parser)
    requires e.children == NotSelected && fs.children == NotSelected
    ensures Unroll(Wrapper(e, fs), parse).Some? <==> SortOrder(MetaOf(Wrapper(e, fs), parse)).Some?
    ensures Unroll(Wrapper(e, fs), parse).Some? ==> Unroll(Wrapper(e, fs), parse).value.children == []
  {
    UnrollDef(Wrapper(e, fs), parse);
  }

  /** When none of the children's ids is ranked by `childrenOrder` (in
      particular when it is empty or absent), the query order is kept. */
  lemma KeepsQueryOrder(n: GraphNode, parse: Parser, raw: seq<GraphNode>, order: seq<Json>, c: CapNode)
    requires RawChildren(n) == Some(raw)
    requires SortOrder(MetaOf(n, parse)) == Some(order)
    requires forall i :: 0 <= i < |raw| ==> SortKey(raw[i]) !in RankTable(order)
    requires Unroll(n, parse) == Some(c)
    ensures UnrollAll(raw, parse).Some? && c.children == UnrollAll(raw, parse).value
  {
    UnrollDef(n, parse);
    UnrankedKeepsOrder(raw, RankTable(order));
  }

  /** When `childrenOrder` lists exactly the distinct fact-sheet ids of the
      child edges, the sort cannot throw and the output children carry those
      ids in that order. */
  lemma FollowsChildrenOrder(n: GraphNode, parse: Parser, raw: seq<GraphNode>, ids: seq<string>)
    requires RawChildren(n) == Some(raw)
    requires SortOrder(MetaOf(n, parse)) == Some(Strs(ids))
    requires Distinct(ids)
    requires forall i :: 0 <= i < |raw| ==> raw[i].Wrapper?
    requires multiset(Keys(raw)) == multiset(ids)
    ensures SortedChildren(n, parse).Some?
    ensures Unroll(n, parse).Some? ==>
      |Unroll(n, parse).value.children| == |ids| &&
      forall i :: 0 <= i < |ids| ==> Unroll(n, parse).value.children[i].id == ids[i]
  {
    UnrollDef(n, parse);
    var table := RankTable(Strs(ids));
    if ids == [] {
      assert |Keys(raw)| == 0 by { assert |multiset(Keys(raw))| == 0; }
    } else {
      var sorted := SortChildren(raw, table);
      assert SortedChildren(n, parse) == Some(sorted);
      SortFollowsOrder(raw, ids, Strs(ids));
      if Unroll(n, parse).Some? {
        var kids := Unroll(n, parse).value.children;
        forall i | 0 <= i < |ids|
          ensures kids[i].id == ids[i]
        {
          assert sorted[i] in multiset(raw);
          UnrollId(sorted[i], parse, kids[i]);
          assert Keys(sorted)[i] == ids[i];
        }
      }
    }
  }

  /** The metadata keys are spread last: each appears in the output object with
      the metadata's value, overriding `id`, `relToParentId`, `children` and the
      base fields; `description` appears only if the metadata defines it. */
  lemma MergePrecedence(n: GraphNode, parse: Parser, c: CapNode)
    requires Unroll(n, parse) == Some(c)
    ensures forall k :: k in Spread(MetaOf(n, parse)) ==>
      k in ToJson(c).props && ToJson(c).props[k] == Spread(MetaOf(n, parse))[k]
    ensures "description" in ToJson(c).props <==> "description" in Spread(MetaOf(n, parse))
    ensures ToJson(c).props.Keys ==
      (Base(n).fields.Keys - {"description"}) + {"id", "relToParentId", "children"} + Spread(MetaOf(n, parse)).Keys
    ensures forall k ::
      (k in Base(n).fields && k !in Spread(MetaOf(n, parse)) && k !in {"description", "id", "relToParentId", "children"}) ==>
        ToJson(c).props[k] == Base(n).fields[k]
  {
    UnrollDef(n, parse);
  }
}
