/** The Neo4j importer of `import_to_neo4j.py`: every node record of the
  * exported graph document is shaped according to its `type` and upserted
  * (`MERGE … SET n += props`) under its label and id; then every edge record
  * merges one relationship between every pair of nodes carrying its `from`
  * and `to` ids. The graph database is modelled as an in-memory store. */
module GraphImport {
  import opened Wrappers
  import opened Text

  /** A JSON value as Python's `json` module decodes it. Numbers are integers;
    * any other value (a float, a list, an object) is carried together with
    * the text Python's `str()` gives it. */
  datatype JValue = JStr(s: string) | JInt(i: int) | JBool(b: bool) | JNull | JOther(text: string)

  /** A decoded JSON object (a Python dict) and a node's property map. */
  type Record = map<string, JValue>

  /** Python's `str()`, which an f-string applies to each placeholder. */
  function PyStr(v: JValue): string
  {
    match v
    case JStr(s) => s
    case JInt(i) => IntToString(i)
    case JBool(b) => if b then "True" else "False"
    case JNull => "None"
    case JOther(t) => t
  }

  /** `dict.get(key, default)`. */
  function Get(r: Record, key: string, default: JValue): JValue
  {
    if key in r then r[key] else default
  }

  // ---------------------------------------------------------------------
  // Shaping a node record (import_to_neo4j.py:71-134)
  // ---------------------------------------------------------------------

  /** `{k: v for k, v in node.items() if k != "type"}`. */
  function WithoutType(node: Record): (props: Record)
    ensures props.Keys == node.Keys - {"type"}
    ensures forall k :: k in props ==> props[k] == node[k]
  {
    node - {"type"}
  }

  /** The `source_code` value of a struct or function node: the record's own
    * `source`, or the empty string when it has none. */
  function SourceOf(node: Record): JValue
  {
    Get(node, "source", JStr(""))
  }

  /** Struct shaping: `type` dropped, `source` renamed to `source_code`. */
  function ShapeStruct(node: Record): (props: Record)
    ensures "type" !in props && "source" !in props
    ensures props.Keys == (node.Keys - {"type", "source"}) + {"source_code"}
    ensures props["source_code"] == SourceOf(node)
    ensures forall k :: k in node && k !in {"type", "source", "source_code"} ==> props[k] == node[k]
  {
    WithoutType(node)["source_code" := SourceOf(node)] - {"source"}
  }

  /** The derived `node_description` text of a function node. */
  function Description(name: JValue, moduleId: JValue, source: JValue): string
  {
    "Function " + PyStr(name) + " defined in " + PyStr(moduleId) + ". Code: " + PyStr(source)
  }

  /** Function shaping: as for a struct, plus `node_description` built from
    * `name` and `module_id` (each `""` when absent) and the source code. */
  function ShapeFunction(node: Record): (props: Record)
    ensures "type" !in props && "source" !in props
    ensures props.Keys == (node.Keys - {"type", "source"}) + {"source_code", "node_description"}
    ensures props["source_code"] == SourceOf(node)
    ensures props["node_description"]
         == JStr(Description(Get(node, "name", JStr("")), Get(node, "module_id", JStr("")), SourceOf(node)))
    ensures forall k :: k in node && k !in {"type", "source", "source_code", "node_description"} ==> props[k] == node[k]
  {
    var props := ShapeStruct(node);
    assert "name" != "source_code" && "name" != "type" && "name" != "source";
    assert "module_id" != "source_code" && "module_id" != "type" && "module_id" != "source";
    var desc := Description(Get(props, "name", JStr("")), Get(props, "module_id", JStr("")), props["source_code"]);
    props["node_description" := JStr(desc)]
  }

  /** A shaped node: the label it is merged under and its property map. */
  datatype Shaped = Shaped(nodeLabel: string, props: Record)

  /** The node's `type`, `"Unknown"` when absent. */
  function NodeType(node: Record): JValue
  {
    Get(node, "type", JStr("Unknown"))
  }

  /** The dispatch on `type` in the node loop. */
  function ShapeNode(node: Record): (r: Shaped)
    ensures NodeType(node) == JStr("Function") ==> r == Shaped("Function", ShapeFunction(node))
    ensures NodeType(node) == JStr("Struct") ==> r == Shaped("Struct", ShapeStruct(node))
    ensures NodeType(node) !in {JStr("Function"), JStr("Struct")}
            ==> r == Shaped(PyStr(NodeType(node)), WithoutType(node))
  {
    var t := NodeType(node);
    if t == JStr("Function") then Shaped("Function", ShapeFunction(node))
    else if t == JStr("Struct") then Shaped("Struct", ShapeStruct(node))
    else if t == JStr("Module") then Shaped("Module", WithoutType(node))
    else Shaped(PyStr(t), WithoutType(node))
  }

  /** A shaped node never carries `type`, and it keeps the record's `id`. */
  lemma ShapeNodeKeepsId(node: Record)
    ensures "type" !in ShapeNode(node).props
    ensures "id" in ShapeNode(node).props <==> "id" in node
    ensures "id" in node ==> ShapeNode(node).props["id"] == node["id"]
  {
    var t := NodeType(node);
    assert "id" !in {"type", "source", "source_code", "node_description"};
    if t == JStr("Function") {
      assert ShapeNode(node).props == ShapeFunction(node);
    } else if t == JStr("Struct") {
      assert ShapeNode(node).props == ShapeStruct(node);
    } else {
      assert ShapeNode(node).props == WithoutType(node);
    }
  }

  /** A record without `type` is merged under the label `Unknown`; any other
    * `type` text that is not a dispatched kind becomes the label verbatim. */
  lemma LabelOfShapedNode(node: Record)
    ensures "type" !in node ==> ShapeNode(node).nodeLabel == "Unknown"
    ensures ShapeNode(node).nodeLabel == PyStr(NodeType(node))
  {
  }

  // ---------------------------------------------------------------------
  // The store and its update rules
  // ---------------------------------------------------------------------

  /** A node is identified by its label and its `id` value, as `MERGE (n:L {id: …})` does. */
  datatype NodeKey = NodeKey(nodeLabel: string, id: JValue)

  /** A relationship `(from)-[:relType]->(to)`. */
  datatype Rel = Rel(from: NodeKey, to: NodeKey, relType: string)

  /** `SET n += props`: non-null values overwrite, null values remove the
    * property, and properties not mentioned are kept. */
  function SetProps(current: Record, props: Record): (r: Record)
    ensures forall k :: k in props && props[k] != JNull ==> k in r && r[k] == props[k]
    ensures forall k :: k in props && props[k] == JNull ==> k !in r
    ensures forall k :: k !in props ==> (k in r <==> k in current)
    ensures forall k :: k !in props && k in current ==> r[k] == current[k]
  {
    map k | k in current.Keys + props.Keys && !(k in props && props[k] == JNull)
      :: if k in props then props[k] else current[k]
  }

  /** A shaped node can be merged only when it has a non-null `id`: otherwise
    * the Python code raises a `KeyError` or Neo4j refuses to merge on null. */
  predicate HasMergeableId(props: Record)
  {
    "id" in props && props["id"] != JNull
  }

  /** `MERGE (n:label {id: props.id})` followed by `SET n += props`. */
  function UpsertNode(nodes: map<NodeKey, Record>, s: Shaped): Result<map<NodeKey, Record>>
  {
    if !HasMergeableId(s.props) then Failure("cannot merge a node without an id")
    else
      var key := NodeKey(s.nodeLabel, s.props["id"]);
      var base := if key in nodes then nodes[key] else map["id" := s.props["id"]];
      Success(nodes[key := SetProps(base, s.props)])
  }

  /** A node that did not exist is created with exactly the given non-null
    * properties, and no other node changes. */
  lemma UpsertCreates(nodes: map<NodeKey, Record>, s: Shaped)
    requires HasMergeableId(s.props)
    requires NodeKey(s.nodeLabel, s.props["id"]) !in nodes
    ensures UpsertNode(nodes, s).Success?
    ensures var r := UpsertNode(nodes, s).value;
            var key := NodeKey(s.nodeLabel, s.props["id"]);
            && r.Keys == nodes.Keys + {key}
            && (forall k :: k in r[key] <==> k in s.props && s.props[k] != JNull)
            && (forall k :: k in r[key] ==> r[key][k] == s.props[k])
            && (forall other :: other in nodes ==> r[other] == nodes[other])
  {
  }

  /** Merging into an existing node overwrites the given keys, removes the
    * keys given as null, keeps every other property (merge, not replace),
    * and changes no other node. */
  lemma UpsertMerges(nodes: map<NodeKey, Record>, s: Shaped)
    requires HasMergeableId(s.props)
    requires NodeKey(s.nodeLabel, s.props["id"]) in nodes
    ensures UpsertNode(nodes, s).Success?
    ensures var r := UpsertNode(nodes, s).value;
            var key := NodeKey(s.nodeLabel, s.props["id"]);
            var before := nodes[key];
            && r.Keys == nodes.Keys
            && (forall k :: k in s.props && s.props[k] != JNull ==> k in r[key] && r[key][k] == s.props[k])
            && (forall k :: k in s.props && s.props[k] == JNull ==> k !in r[key])
            && (forall k :: k in before && k !in s.props ==> k in r[key] && r[key][k] == before[k])
            && (forall other :: other in nodes && other != key ==> r[other] == nodes[other])
  {
  }

  /** `SET n += props` twice is `SET n += props` once. */
  lemma SetPropsIdempotent(current: Record, props: Record)
    ensures SetProps(SetProps(current, props), props) == SetProps(current, props)
  {
    var once := SetProps(current, props);
    var twice := SetProps(once, props);
    assert forall k :: k in twice <==> k in once;
    assert forall k :: k in twice ==> twice[k] == once[k];
  }

  /** Upserting the same shaped node twice equals upserting it once. */
  lemma UpsertIdempotent(nodes: map<NodeKey, Record>, s: Shaped)
    requires UpsertNode(nodes, s).Success?
    ensures UpsertNode(UpsertNode(nodes, s).value, s) == UpsertNode(nodes, s)
  {
    var key := NodeKey(s.nodeLabel, s.props["id"]);
    var base := if key in nodes then nodes[key] else map["id" := s.props["id"]];
    var once := UpsertNode(nodes, s).value;
    assert once == nodes[key := SetProps(base, s.props)];
    SetPropsIdempotent(base, s.props);
    assert once[key := SetProps(once[key], s.props)] == once;
  }

  /** The ids of the nodes MATCH `(a {id: v})` finds: any label, and never for null. */
  predicate HasId(nodes: map<NodeKey, Record>, k: NodeKey, v: JValue)
    requires k in nodes
  {
    v != JNull && "id" in nodes[k] && nodes[k]["id"] == v
  }

  /** An edge record's relationship type, `RELATED_TO` when absent. */
  function EdgeType(edge: Record): string
  {
    PyStr(Get(edge, "type", JStr("RELATED_TO")))
  }

  /** The relationships one edge record merges: one per pair of matched nodes. */
  function EdgeRels(nodes: map<NodeKey, Record>, edge: Record): set<Rel>
  {
    var src := Get(edge, "from", JNull);
    var dst := Get(edge, "to", JNull);
    set a, b | a in nodes.Keys && b in nodes.Keys && HasId(nodes, a, src) && HasId(nodes, b, dst)
      :: Rel(a, b, EdgeType(edge))
  }

  /** `MATCH (a {id: from}) MATCH (b {id: to}) MERGE (a)-[r:type]->(b)`. */
  function MergeEdge(nodes: map<NodeKey, Record>, rels: set<Rel>, edge: Record): (r: set<Rel>)
    ensures rels <= r
  {
    rels + EdgeRels(nodes, edge)
  }

  /** Every pair of matched nodes is related, and nothing else is added. */
  lemma MergeEdgeRelatesAllMatches(nodes: map<NodeKey, Record>, rels: set<Rel>, edge: Record)
    ensures forall a, b :: a in nodes && b in nodes
              && HasId(nodes, a, Get(edge, "from", JNull)) && HasId(nodes, b, Get(edge, "to", JNull))
              ==> Rel(a, b, EdgeType(edge)) in MergeEdge(nodes, rels, edge)
    ensures forall r :: r in MergeEdge(nodes, rels, edge) && r !in rels
              ==> r.from in nodes && r.to in nodes && r.relType == EdgeType(edge)
                  && HasId(nodes, r.from, Get(edge, "from", JNull))
                  && HasId(nodes, r.to, Get(edge, "to", JNull))
  {
    forall a, b | a in nodes && b in nodes
      && HasId(nodes, a, Get(edge, "from", JNull)) && HasId(nodes, b, Get(edge, "to", JNull))
      ensures Rel(a, b, EdgeType(edge)) in MergeEdge(nodes, rels, edge)
    {
      assert Rel(a, b, EdgeType(edge)) in EdgeRels(nodes, edge);
    }
  }

  /** When no node carries the edge's `from` id or none carries its `to` id
    * (in particular when either key is missing), nothing changes. */
  lemma MergeEdgeMissingEndpoint(nodes: map<NodeKey, Record>, rels: set<Rel>, edge: Record)
    requires (forall a :: a in nodes ==> !HasId(nodes, a, Get(edge, "from", JNull)))
          || (forall b :: b in nodes ==> !HasId(nodes, b, Get(edge, "to", JNull)))
    ensures MergeEdge(nodes, rels, edge) == rels
  {
    assert EdgeRels(nodes, edge) == {};
  }

  /** A relationship is never duplicated: merging the same edge again changes nothing. */
  lemma MergeEdgeIdempotent(nodes: map<NodeKey, Record>, rels: set<Rel>, edge: Record)
    ensures MergeEdge(nodes, MergeEdge(nodes, rels, edge), edge) == MergeEdge(nodes, rels, edge)
  {
  }

  /** An edge record without `type` relates its endpoints with `RELATED_TO`. */
  lemma EdgeTypeDefault(edge: Record)
    requires "type" !in edge
    ensures EdgeType(edge) == "RELATED_TO"
  {
  }

  // ---------------------------------------------------------------------
  // The whole import
  // ---------------------------------------------------------------------

  /** The decoded graph document; `None` stands for a missing `nodes` or `edges` key. */
  datatype Document = Document(nodes: Option<seq<Record>>, edges: Option<seq<Record>>)

  /** `data.get(key, [])`. */
  function ListOrEmpty(l: Option<seq<Record>>): seq<Record>
  {
    if l.Some? then l.value else []
  }

  /** Shaping and upserting the records in document order. */
  function UpsertAll(nodes: map<NodeKey, Record>, records: seq<Record>): Result<map<NodeKey, Record>>
    decreases |records|
  {
    if |records| == 0 then Success(nodes)
    else
      var prefix := UpsertAll(nodes, records[..|records| - 1]);
      if prefix.Failure? then prefix
      else UpsertNode(prefix.value, ShapeNode(records[|records| - 1]))
  }

  /** Merging the edge records in document order. */
  function MergeAllEdges(nodes: map<NodeKey, Record>, rels: set<Rel>, edges: seq<Record>): set<Rel>
    decreases |edges|
  {
    if |edges| == 0 then rels
    else MergeEdge(nodes, MergeAllEdges(nodes, rels, edges[..|edges| - 1]), edges[|edges| - 1])
  }

  /** Once a prefix of the records fails, the whole node phase fails. */
  lemma {:induction false} UpsertAllPrefixFailure(nodes: map<NodeKey, Record>, records: seq<Record>, n: nat)
    requires n <= |records|
    requires UpsertAll(nodes, records[..n]).Failure?
    ensures UpsertAll(nodes, records).Failure?
    decreases |records|
  {
    if n == |records| {
      assert records[..n] == records;
    } else {
      var shorter := records[..|records| - 1];
      assert shorter[..n] == records[..n];
      UpsertAllPrefixFailure(nodes, shorter, n);
    }
  }

  /** The store after `create_nodes_and_edges`: all nodes first, then all
    * edges against the resulting nodes; a failure anywhere fails the whole
    * write transaction. */
  function Import(nodes: map<NodeKey, Record>, rels: set<Rel>, data: Document)
    : Result<(map<NodeKey, Record>, set<Rel>)>
  {
    var upserted := UpsertAll(nodes, ListOrEmpty(data.nodes));
    if upserted.Failure? then Failure(upserted.error)
    else Success((upserted.value, MergeAllEdges(upserted.value, rels, ListOrEmpty(data.edges))))
  }

  /** A document without `nodes` and `edges` keys changes nothing. */
  lemma ImportEmptyDocument(nodes: map<NodeKey, Record>, rels: set<Rel>)
    ensures Import(nodes, rels, Document(None, None)) == Success((nodes, rels))
  {
  }

  /** A record the node phase can merge: it has a non-null `id`. */
  predicate RecordHasId(record: Record)
  {
    "id" in record && record["id"] != JNull
  }

  /** Upserting one shaped record fails exactly when the record has no usable `id`. */
  lemma UpsertRecordFailsIffMissingId(nodes: map<NodeKey, Record>, record: Record)
    ensures UpsertNode(nodes, ShapeNode(record)).Failure? <==> !RecordHasId(record)
  {
    ShapeNodeKeepsId(record);
  }

  /** The node phase fails exactly when some record has no usable `id`. */
  lemma {:induction false} UpsertAllFailsIffMissingId(nodes: map<NodeKey, Record>, records: seq<Record>)
    ensures UpsertAll(nodes, records).Failure? <==> exists i :: 0 <= i < |records| && !RecordHasId(records[i])
    decreases |records|
  {
    if |records| > 0 {
      var prefix := records[..|records| - 1];
      var last := records[|records| - 1];
      UpsertAllFailsIffMissingId(nodes, prefix);
      var p := UpsertAll(nodes, prefix);
      if p.Success? {
        UpsertRecordFailsIffMissingId(p.value, last);
      }
      if exists i :: 0 <= i < |prefix| && !RecordHasId(prefix[i]) {
        var i :| 0 <= i < |prefix| && !RecordHasId(prefix[i]);
        assert records[i] == prefix[i];
      } else {
        forall i | 0 <= i < |records| - 1
          ensures RecordHasId(records[i])
        {
          assert records[i] == prefix[i];
        }
      }
    }
  }

  /** Whether the import fails depends on the node records' ids only: the
    * whole write fails exactly when some node record has no usable `id`. */
  lemma ImportFailsIffMissingId(nodes: map<NodeKey, Record>, rels: set<Rel>, data: Document)
    ensures Import(nodes, rels, data).Failure?
        <==> exists i :: 0 <= i < |ListOrEmpty(data.nodes)| && !RecordHasId(ListOrEmpty(data.nodes)[i])
  {
    UpsertAllFailsIffMissingId(nodes, ListOrEmpty(data.nodes));
  }

  // ---------------------------------------------------------------------
  // Importing twice
  // ---------------------------------------------------------------------

  /** `SET n += p` then `SET n += q` is `SET n += p + q`: the later map wins
    * on every key both mention. */
  lemma SetPropsCompose(current: Record, p: Record, q: Record)
    ensures SetProps(SetProps(current, p), q) == SetProps(current, p + q)
  {
    var l := SetProps(SetProps(current, p), q);
    var r := SetProps(current, p + q);
    assert forall k :: k in l <==> k in r;
    assert forall k :: k in l ==> l[k] == r[k];
  }

  /** The key a shaped node is merged under. */
  function KeyOf(s: Shaped): NodeKey
  {
    NodeKey(s.nodeLabel, Get(s.props, "id", JNull))
  }

  /** Some record of the list is merged under `k`. */
  predicate Touches(records: seq<Record>, k: NodeKey)
    decreases |records|
  {
    |records| > 0 && (KeyOf(ShapeNode(records[|records| - 1])) == k || Touches(records[..|records| - 1], k))
  }

  /** The properties the records merged under `k` set, later ones winning. */
  function PropsFor(records: seq<Record>, k: NodeKey): Record
    decreases |records|
  {
    if |records| == 0 then map[]
    else
      var s := ShapeNode(records[|records| - 1]);
      var p := PropsFor(records[..|records| - 1], k);
      if KeyOf(s) == k then p + s.props else p
  }

  /** No record merged under `k`, no properties for it. */
  lemma {:induction false} UntouchedNoProps(records: seq<Record>, k: NodeKey)
    requires !Touches(records, k)
    ensures PropsFor(records, k) == map[]
    decreases |records|
  {
    if |records| > 0 {
      UntouchedNoProps(records[..|records| - 1], k);
    }
  }

  /** What a node starts from before its first `SET`: the stored node, or
    * a fresh one holding only its id. */
  function Base(nodes: map<NodeKey, Record>, k: NodeKey): Record
  {
    if k in nodes then nodes[k] else map["id" := k.id]
  }

  /** The node phase key by key: a key some record is merged under holds its
    * starting properties updated once by all those records' properties,
    * later records winning; every other key keeps its node, and no other
    * key appears. */
  lemma UpsertAllAt(nodes: map<NodeKey, Record>, records: seq<Record>)
    requires UpsertAll(nodes, records).Success?
    ensures var r := UpsertAll(nodes, records).value;
            && (forall k :: k in r <==> k in nodes || Touches(records, k))
            && (forall k :: Touches(records, k) ==> r[k] == SetProps(Base(nodes, k), PropsFor(records, k)))
            && (forall k :: k in nodes && !Touches(records, k) ==> r[k] == nodes[k])
  {
    var r := UpsertAll(nodes, records).value;
    forall k
      ensures (k in r <==> k in nodes || Touches(records, k))
      ensures Touches(records, k) ==> r[k] == SetProps(Base(nodes, k), PropsFor(records, k))
      ensures k in nodes && !Touches(records, k) ==> r[k] == nodes[k]
    {
      UpsertAllAtKey(nodes, records, k);
    }
  }

  /** The node phase at one key. */
  lemma {:induction false} UpsertAllAtKey(nodes: map<NodeKey, Record>, records: seq<Record>, k: NodeKey)
    requires UpsertAll(nodes, records).Success?
    ensures var r := UpsertAll(nodes, records).value;
            && (k in r <==> k in nodes || Touches(records, k))
            && (Touches(records, k) ==> r[k] == SetProps(Base(nodes, k), PropsFor(records, k)))
            && (k in nodes && !Touches(records, k) ==> r[k] == nodes[k])
    decreases |records|
  {
    if |records| > 0 {
      var prefix := records[..|records| - 1];
      var s := ShapeNode(records[|records| - 1]);
      UpsertAllAtKey(nodes, prefix, k);
      var m := UpsertAll(nodes, prefix).value;
      assert UpsertAll(nodes, records) == UpsertNode(m, s);
      if !Touches(prefix, k) {
        UntouchedNoProps(prefix, k);
      }
      assert Touches(records, k) == (KeyOf(s) == k || Touches(prefix, k));
      assert PropsFor(records, k) == if KeyOf(s) == k then PropsFor(prefix, k) + s.props else PropsFor(prefix, k);
      UpsertNodeAtKey(nodes, m, s, Touches(prefix, k), PropsFor(prefix, k), k);
    }
  }

  /** One more upsert at one key, given what the earlier ones left there. */
  lemma UpsertNodeAtKey(nodes: map<NodeKey, Record>, m: map<NodeKey, Record>, s: Shaped, touched: bool, props: Record, k: NodeKey)
    requires UpsertNode(m, s).Success?
    requires k in m <==> k in nodes || touched
    requires touched ==> m[k] == SetProps(Base(nodes, k), props)
    requires k in nodes && !touched ==> m[k] == nodes[k]
    requires !touched ==> props == map[]
    ensures var r := UpsertNode(m, s).value;
            var t := KeyOf(s) == k || touched;
            var p := if KeyOf(s) == k then props + s.props else props;
            && (k in r <==> k in nodes || t)
            && (t ==> r[k] == SetProps(Base(nodes, k), p))
            && (k in nodes && !t ==> r[k] == nodes[k])
  {
    assert HasMergeableId(s.props) && KeyOf(s) == NodeKey(s.nodeLabel, s.props["id"]);
    if KeyOf(s) == k {
      if touched {
        SetPropsCompose(Base(nodes, k), props, s.props);
      } else {
        assert Base(m, k) == Base(nodes, k);
        assert map[] + s.props == s.props;
      }
    }
  }

  /** Importing the same document a second time leaves the store as the
    * first import left it: every node record merges the same properties
    * again, and every edge finds the same nodes and relationships. */
  lemma ImportIdempotent(nodes: map<NodeKey, Record>, rels: set<Rel>, data: Document)
    requires Import(nodes, rels, data).Success?
    ensures var once := Import(nodes, rels, data).value;
            Import(once.0, once.1, data) == Import(nodes, rels, data)
  {
    var records := ListOrEmpty(data.nodes);
    var edges := ListOrEmpty(data.edges);
    var n1 := UpsertAll(nodes, records).value;
    UpsertAllFailsIffMissingId(nodes, records);
    UpsertAllFailsIffMissingId(n1, records);
    UpsertAllAt(nodes, records);
    UpsertAllAt(n1, records);
    var n2 := UpsertAll(n1, records).value;
    forall k | Touches(records, k)
      ensures n2[k] == n1[k]
    {
      SetPropsIdempotent(Base(nodes, k), PropsFor(records, k));
    }
    assert n2 == n1;
    MergeAllEdgesAdds(n1, rels, edges);
    MergeAllEdgesAdds(n1, MergeAllEdges(n1, rels, edges), edges);
  }

  /** The edge phase adds to the relationships it starts from the same
    * relationships whatever those are. */
  lemma {:induction false} MergeAllEdgesAdds(nodes: map<NodeKey, Record>, rels: set<Rel>, edges: seq<Record>)
    ensures MergeAllEdges(nodes, rels, edges) == rels + MergeAllEdges(nodes, {}, edges)
    decreases |edges|
  {
    if |edges| > 0 {
      MergeAllEdgesAdds(nodes, rels, edges[..|edges| - 1]);
    }
  }

  /** The store the importer writes into. Every node holds its own key's id
    * as `id` property, and every relationship joins two stored nodes. */
  class Store {
    var nodes: map<NodeKey, Record>
    var rels: set<Rel>

    ghost predicate Valid()
      reads this
    {
      && (forall k :: k in nodes ==> k.id != JNull && "id" in nodes[k] && nodes[k]["id"] == k.id)
      && (forall r :: r in rels ==> r.from in nodes && r.to in nodes)
    }

    constructor ()
      ensures Valid()
      ensures nodes == map[] && rels == {}
    {
      nodes := map[];
      rels := {};
    }

    /** One node's `tx.run(MERGE …)`. */
    method MergeNode(s: Shaped) returns (ok: bool)
      requires Valid()
      modifies this
      ensures Valid()
      ensures ok == UpsertNode(old(nodes), s).Success?
      ensures ok ==> nodes == UpsertNode(old(nodes), s).value
      ensures !ok ==> nodes == old(nodes)
      ensures rels == old(rels)
    {
      if !("id" in s.props) || s.props["id"] == JNull {
        return false;
      }
      var key := NodeKey(s.nodeLabel, s.props["id"]);
      var base: Record;
      if key in nodes {
        base := nodes[key];
      } else {
        base := map["id" := s.props["id"]];
      }
      nodes := nodes[key := SetProps(base, s.props)];
      ok := true;
    }

    /** One edge's `tx.run(MATCH … MERGE …)`. */
    method MergeEdgeRecord(edge: Record)
      requires Valid()
      modifies this
      ensures Valid()
      ensures nodes == old(nodes)
      ensures rels == MergeEdge(old(nodes), old(rels), edge)
    {
      rels := MergeEdge(nodes, rels, edge);
    }

    /** `create_nodes_and_edges` run as one write transaction: on failure the
      * store is rolled back to its state before the call. */
    method CreateNodesAndEdges(data: Document) returns (ok: bool)
      requires Valid()
      modifies this
      ensures Valid()
      ensures ok == Import(old(nodes), old(rels), data).Success?
      ensures ok ==> (nodes, rels) == Import(old(nodes), old(rels), data).value
      ensures !ok ==> nodes == old(nodes) && rels == old(rels)
    {
      ok := MergeNodes(ListOrEmpty(data.nodes));
      if !ok {
        return;
      }
      MergeEdges(ListOrEmpty(data.edges));
    }

    /** The node phase: each record merged in turn; the store is left as it
      * was when one of them fails. */
    method MergeNodes(records: seq<Record>) returns (ok: bool)
      requires Valid()
      modifies this
      ensures Valid()
      ensures rels == old(rels)
      ensures ok == UpsertAll(old(nodes), records).Success?
      ensures ok ==> nodes == UpsertAll(old(nodes), records).value
      ensures !ok ==> nodes == old(nodes)
    {
      var savedNodes := nodes;
      var i := 0;
      while i < |records|
        invariant 0 <= i <= |records|
        invariant Valid()
        invariant rels == old(rels)
        invariant UpsertAll(savedNodes, records[..i]) == Success(nodes)
      {
        assert records[..i + 1][..i] == records[..i];
        var merged := MergeNode(ShapeNode(records[i]));
        if !merged {
          UpsertAllPrefixFailure(savedNodes, records, i + 1);
          nodes := savedNodes;
          return false;
        }
        i := i + 1;
      }
      assert records[..i] == records;
      ok := true;
    }

    /** The edge phase: each edge record merged in turn. */
    method MergeEdges(edges: seq<Record>)
      requires Valid()
      modifies this
      ensures Valid()
      ensures nodes == old(nodes)
      ensures rels == MergeAllEdges(old(nodes), old(rels), edges)
    {
      var j := 0;
      while j < |edges|
        invariant 0 <= j <= |edges|
        invariant Valid()
        invariant nodes == old(nodes)
        invariant rels == MergeAllEdges(nodes, old(rels), edges[..j])
      {
        assert edges[..j + 1][..j] == edges[..j];
        MergeEdgeRecord(edges[j]);
        j := j + 1;
      }
      assert edges[..j] == edges;
    }
  }
}
