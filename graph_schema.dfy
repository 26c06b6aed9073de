/** The graph document the scanner writes (`src/scanner/graph.rs`) and its
  * JSON form as the importer reads it: nodes and edges are objects tagged by
  * a `type` field naming the variant. */
module GraphSchema {
  import opened Text
  import GraphImport
  import Wrappers

  datatype ModuleNode = ModuleNode(id: string, address: string, name: string)

  datatype FunctionNode = FunctionNode(
    id: string, moduleId: string, name: string, visibility: string,
    isNative: bool, argCount: nat, source: string)

  datatype StructNode = StructNode(
    id: string, moduleId: string, name: string, abilities: seq<string>,
    isResource: bool, source: string)

  datatype NodeWrapper =
    | ModuleW(m: ModuleNode)
    | FunctionW(f: FunctionNode)
    | StructW(s: StructNode)
  {
    function Id(): string
    {
      match this
      case ModuleW(m) => m.id
      case FunctionW(f) => f.id
      case StructW(s) => s.id
    }
  }

  datatype EdgeWrapper = Defines(from: string, to: string) | Calls(from: string, to: string)

  datatype GraphOutput = GraphOutput(nodes: seq<NodeWrapper>, edges: seq<EdgeWrapper>)

  /** Python's `str()` of a decoded list of strings, e.g. `['key', 'store']`. */
  function StringListText(items: seq<string>): string
  {
    "[" + Join(seq(|items|, i requires 0 <= i < |items| => "'" + items[i] + "'"), ", ") + "]"
  }

  /** The serde form of a node: its fields plus the tag `type`. */
  function NodeRecord(n: NodeWrapper): (r: GraphImport.Record)
    ensures "type" in r && "id" in r && r["id"] == GraphImport.JStr(n.Id())
    ensures r["type"] == GraphImport.JStr(
      match n case ModuleW(_) => "Module" case FunctionW(_) => "Function" case StructW(_) => "Struct")
  {
    match n
    case ModuleW(m) =>
      map["type" := GraphImport.JStr("Module"), "id" := GraphImport.JStr(m.id),
          "address" := GraphImport.JStr(m.address), "name" := GraphImport.JStr(m.name)]
    case FunctionW(f) =>
      map["type" := GraphImport.JStr("Function"), "id" := GraphImport.JStr(f.id),
          "module_id" := GraphImport.JStr(f.moduleId), "name" := GraphImport.JStr(f.name),
          "visibility" := GraphImport.JStr(f.visibility), "is_native" := GraphImport.JBool(f.isNative),
          "arg_count" := GraphImport.JInt(f.argCount), "source" := GraphImport.JStr(f.source)]
    case StructW(s) =>
      map["type" := GraphImport.JStr("Struct"), "id" := GraphImport.JStr(s.id),
          "module_id" := GraphImport.JStr(s.moduleId), "name" := GraphImport.JStr(s.name),
          "abilities" := GraphImport.JOther(StringListText(s.abilities)),
          "is_resource" := GraphImport.JBool(s.isResource), "source" := GraphImport.JStr(s.source)]
  }

  /** The serde form of an edge: `from`, `to` and the tag `type`. */
  function EdgeRecord(e: EdgeWrapper): (r: GraphImport.Record)
    ensures r.Keys == {"type", "from", "to"}
    ensures r["from"] == GraphImport.JStr(e.from) && r["to"] == GraphImport.JStr(e.to)
    ensures r["type"] == GraphImport.JStr(if e.Defines? then "Defines" else "Calls")
  {
    map["type" := GraphImport.JStr(if e.Defines? then "Defines" else "Calls"),
        "from" := GraphImport.JStr(e.from), "to" := GraphImport.JStr(e.to)]
  }

  function ToDocument(g: GraphOutput): GraphImport.Document
  {
    GraphImport.Document(
      Wrappers.Some(seq(|g.nodes|, i requires 0 <= i < |g.nodes| => NodeRecord(g.nodes[i]))),
      Wrappers.Some(seq(|g.edges|, i requires 0 <= i < |g.edges| => EdgeRecord(g.edges[i]))))
  }

  /** The importer dispatches every exported node to the shaping of its own
    * kind and merges it under the label naming that kind. */
  lemma ImporterDispatchesOnTag(n: NodeWrapper)
    ensures GraphImport.ShapeNode(NodeRecord(n)).nodeLabel
         == (match n case ModuleW(_) => "Module" case FunctionW(_) => "Function" case StructW(_) => "Struct")
  {
  }

  /** An exported function node reaches the store with the description the
    * importer derives from its own name, module id and source. */
  lemma ImportedFunctionDescription(f: FunctionNode)
    ensures var props := GraphImport.ShapeNode(NodeRecord(FunctionW(f))).props;
            && props["node_description"]
               == GraphImport.JStr("Function " + f.name + " defined in " + f.moduleId + ". Code: " + f.source)
            && props["source_code"] == GraphImport.JStr(f.source)
            && "source" !in props
  {
  }

  /** An exported document always imports: every node carries a string id. */
  lemma ExportedDocumentImports(nodes: map<GraphImport.NodeKey, GraphImport.Record>,
                                rels: set<GraphImport.Rel>, g: GraphOutput)
    ensures GraphImport.Import(nodes, rels, ToDocument(g)).Success?
  {
    var doc := ToDocument(g);
    GraphImport.ImportFailsIffMissingId(nodes, rels, doc);
    forall i | 0 <= i < |g.nodes|
      ensures GraphImport.RecordHasId(GraphImport.ListOrEmpty(doc.nodes)[i])
    {
      assert GraphImport.ListOrEmpty(doc.nodes)[i] == NodeRecord(g.nodes[i]);
    }
  }

  /** Exported edges import with their own tag as relationship type. */
  lemma ImportedEdgeType(e: EdgeWrapper)
    ensures GraphImport.EdgeType(EdgeRecord(e)) == (if e.Defines? then "Defines" else "Calls")
  {
  }
}
