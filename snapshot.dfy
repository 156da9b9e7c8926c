/** `generateBcMaps` and `rebuildBcMaps` (WebhookListener/businessLogic.js:60-77):
    the published capability trees, wrapped in a snapshot that may carry the
    sequence number of the event that triggered it. */
module Snapshots {
  import opened Wrappers
  import opened JsonValues
  import opened Graph
  import opened Unrolling

  /** `({ published }) => !!published`, read from the merged object: a missing
      key is `undefined`, hence falsy. */
  predicate Published(c: CapNode) {
    var p := ToJson(c).props;
    "published" in p && Truthy(p["published"])
  }

  /** `bcMaps.filter(({ published }) => !!published)` (line 64). */
  function PublishedOnly(cs: seq<CapNode>): (r: seq<CapNode>)
    ensures |r| <= |cs|
    ensures forall i :: 0 <= i < |r| ==> Published(r[i])
  {
    Filter(cs, Published)
  }

  /** The filter keeps each published value as often as it occurs, and drops
      every unpublished one. */
  lemma PublishedOnlyCount(cs: seq<CapNode>, c: CapNode)
    ensures multiset(PublishedOnly(cs))[c] == if Published(c) then multiset(cs)[c] else 0
  {
    FilterCount(cs, Published, c);
  }

  /** The filter keeps the relative order: filtering a concatenation
      concatenates the filtered parts. */
  lemma PublishedOnlyConcat(a: seq<CapNode>, b: seq<CapNode>)
    ensures PublishedOnly(a + b) == PublishedOnly(a) + PublishedOnly(b)
  {
    FilterConcat(a, b, Published);
  }

  /** The upstream session: who was asked. */
  datatype Session = Session(workspaceId: string, instance: string)

  /** What the upstream calls returned: the session after `authenticator.start()`
      (`None` when it fails), the top-level nodes of `allFactSheets.edges` from
      `executeGraphQL` (`None` when it fails), and the clock reading. */
  datatype Upstream = Upstream(session: Option<Session>, nodes: Option<seq<GraphNode>>, timestamp: string)

  /** The object `generateBcMaps` returns, plus the field `rebuildBcMaps` may add. */
  datatype Snapshot = Snapshot(
    workspaceId: string,
    instance: string,
    timestamp: string,
    bcMaps: seq<CapNode>,
    transactionSequenceNumber: Option<int>)

  /** `generateBcMaps()` (lines 11-70); `None` where it throws. */
  function GenerateBcMaps(up: Upstream, parse: Parser): (r: Option<Snapshot>)
    ensures r.Some? <==> up.session.Some? && up.nodes.Some? && UnrollAll(up.nodes.value, parse).Some?
    ensures r.Some? ==> r.value.transactionSequenceNumber.None?
  {
    match up.session
    case None => None
    case Some(session) =>
      match up.nodes
      case None => None
      case Some(nodes) =>
        match UnrollAll(nodes, parse)
        case None => None
        case Some(trees) =>
          Some(Snapshot(session.workspaceId, session.instance, up.timestamp, PublishedOnly(trees), None))
  }

  /** The snapshot holds exactly the published top-level trees, in query order
      and with their multiplicities. */
  lemma GeneratedArePublished(up: Upstream, parse: Parser, s: Snapshot, c: CapNode)
    requires GenerateBcMaps(up, parse) == Some(s)
    ensures s.workspaceId == up.session.value.workspaceId && s.instance == up.session.value.instance
    ensures s.timestamp == up.timestamp
    ensures s.bcMaps == PublishedOnly(UnrollAll(up.nodes.value, parse).value)
    ensures forall i :: 0 <= i < |s.bcMaps| ==> Published(s.bcMaps[i])
    ensures multiset(s.bcMaps)[c] ==
      if Published(c) then multiset(UnrollAll(up.nodes.value, parse).value)[c] else 0
  {
    PublishedOnlyCount(UnrollAll(up.nodes.value, parse).value, c);
  }

  /** `if (transactionSequenceNumber) bcMaps.transactionSequenceNumber = ...`
      (line 74): set only when the number is truthy, that is non-zero. */
  function Stamp(s: Snapshot, t: int): Snapshot {
    if t != 0 then s.(transactionSequenceNumber := Some(t)) else s
  }

  /** `rebuildBcMaps(t)` (lines 72-77). */
  function RebuildBcMaps(t: int, up: Upstream, parse: Parser): (r: Option<Snapshot>)
    ensures r.Some? <==> GenerateBcMaps(up, parse).Some?
  {
    match GenerateBcMaps(up, parse)
    case None => None
    case Some(s) => Some(Stamp(s, t))
  }

  /** The number attached to a snapshot rebuilt for `t`. */
  function StampOf(t: int): Option<int> {
    if t != 0 then Some(t) else None
  }

  /** A rebuilt snapshot carries `transactionSequenceNumber` exactly when the
      argument is non-zero (so `-1` from a cold start is attached and `0` is
      not), with that value, and is otherwise the generated snapshot. */
  lemma RebuildStamp(t: int, up: Upstream, parse: Parser, s: Snapshot)
    requires RebuildBcMaps(t, up, parse) == Some(s)
    ensures s.transactionSequenceNumber.Some? <==> t != 0
    ensures s.transactionSequenceNumber.Some? ==> s.transactionSequenceNumber.value == t
    ensures s.(transactionSequenceNumber := None) == GenerateBcMaps(up, parse).value
  {
  }
}
