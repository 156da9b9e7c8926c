/** The shapes `unrollChildren` (WebhookListener/businessLogic.js:33-58) reads
    and writes: query-result nodes, and capability nodes with their JSON view. */
module Graph {
  import opened Wrappers
  import opened JsonValues

  /** A vertex of the query result: its `id`, its other fields as returned
      (`type`, `name`, `level`, `description`, ...; never `id` or `children`),
      and its `children` relation. */
  datatype Vertex = Vertex(id: string, fields: map<string, Json>, children: Relation)

  /** A `children` relation: absent when the query did not select it, else the
      nodes of its `edges`, in query order. */
  datatype Relation = NotSelected | Selected(edges: seq<GraphNode>)

  /** A node of the query result. `Direct` is a vertex reached itself; a
      `Wrapper` is a relation edge (its own `id`, and rarely its own fields or
      children) that carries the referenced vertex in its `factSheet` field. */
  datatype GraphNode =
    | Direct(vertex: Vertex)
    | Wrapper(edge: Vertex, factSheet: Vertex)

  /** An unrolled capability: the structural part (`id`, the vertex's other
      fields without `description`, `relToParentId`, `children`) plus the
      metadata parsed from `description`, kept apart in `extra`. */
  datatype CapNode = CapNode(
    id: string,
    fields: map<string, Json>,
    relToParentId: Option<string>,
    children: seq<CapNode>,
    extra: map<string, Json>)

  function RelJson(rel: Option<string>): Json {
    match rel
    case None => Null
    case Some(e) => Str(e)
  }

  /** The object the source builds, `{ ...node, ...description }`: the
      metadata keys are spread last, so they win over every structural key. */
  function ToJson(c: CapNode): (j: Json)
    ensures j.Obj?
    decreases c
  {
    var kids := seq(|c.children|, i requires 0 <= i < |c.children| => ToJson(c.children[i]));
    Obj(c.fields["id" := Str(c.id)]["relToParentId" := RelJson(c.relToParentId)]["children" := Arr(kids)] + c.extra)
  }
}
