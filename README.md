# A verified model of the Move knowledge-graph analyser

The analyser reads compiled Move modules and translates each function from
Move's stack-machine bytecode into stackless bytecode. That translation
simulates the operand stack with temporaries, labels branch targets, removes
fall-through into labels and builds def/use tables and a call graph. Over the
result it runs dataflow helpers:

- upper bounds on unsigned values;
- the temporaries each loop modifies;
- textual rendering.

Ten bug detectors use these helpers, for example:

- unchecked call results;
- shift overflow;
- precision loss;
- loops that never exit;
- unused constants and private functions;
- redundant casts and boolean tests;
- recursion;
- repeated calls.

The scanner merges the detectors' findings into a per-module report. An
exporter turns the modules into a property graph of Module, Struct and
Function nodes with `Defines` and `Calls` edges. A Python importer upserts
that graph into Neo4j. An older analyser (`src/detect/`) holds simpler
versions of several detectors.

The project models all of these pieces in Dafny, one module per file:

| file | what it models |
|---|---|
| `wrappers.dfy`, `text.dfy` | options and results; decimal rendering, prefixes, searches and joins |
| `stackless.dfy` | Move model types, constants, operations and stackless bytecodes |
| `graph_import.dfy` | the importer: record shaping and the merge-on-key store (`Store` class) |
| `graph_schema.dfy` | the exported graph document and its JSON form, and how the importer reads it |
| `exporter.dfy` | the graph exporter, including the cutting of definitions out of source text |
| `move_utils.dfy` | helpers of the translator: signatures, constants, locals, field tables, the location table, definition lookup |
| `bytecode_gen.dfy` | the translation of one Move instruction (operand-stack simulation) |
| `function_gen.dfy` | the translation of a whole function (labels, fall-through elimination, def/use tables) and the call graph (`Generator` class) |
| `data_dependency.dfy` | the upper-bound and constancy analysis (`DataDepent` class) |
| `fatloop.dfy` | modified temporaries, fat loops and back edges |
| `bytecode_display.dfy` | rendering of temporaries, labels, operations and instructions |
| `packages.dfy` | the registry of translated modules (`Packages` class) |
| `dep_utils.dfy` | dependency-module recognition and the test pipelines |
| `scan_result.dfy` | the scan report and its pretty form |
| `detection.dfy` | what the detectors share |
| `detector1.dfy` … `detector10.dfy` | the scanner's ten detectors |
| `detectors_run.dfy` | the scanner's driver (`Detectors` class) |
| `legacy_detect*.dfy` | the first analyser's detectors |

The model follows the program's own code. Where the model goes against a
comment or a declaration, the code wins:

- **The report's counts.** `src/scanner/result.rs:66-70` declares the report
  with `modules_count` keyed by success and failure. `complete_result`
  (`src/scanner/detectors.rs:149-154`) writes `modules_status` keyed by pass
  and wrong. The report therefore carries both maps.
- **Detector kinds.** The kinds the detectors hand over are declared outside
  the files modelled here. They are modelled as ten kinds, of which the eight
  `run` merges map one to one onto the report's detector types.

A few calls into external code are modelled as inputs:

- the Move bytecode and its module metadata;
- the control-flow graph and its natural loops;
- the symbol pool;
- source files;
- the clock.

Every unwrap or index that panics on a malformed input becomes a
`requires`. Every `Option` and `Result` the code returns is modelled as one.

## Model

| member | source | states |
|---|---|---|
| `GraphImport.WithoutType` | import_to_neo4j.py:72 | the properties are the record's own entries minus `type`, values unchanged |
| `GraphImport.ShapeStruct` | import_to_neo4j.py:80-90 | a struct record loses `type` and `source`, gains `source_code` holding the source (`""` when absent), every other entry kept |
| `GraphImport.ShapeFunction` | import_to_neo4j.py:99-111 | as for a struct, plus `node_description` = `Function <name> defined in <module_id>. Code: <source>` with `""` for missing keys |
| `GraphImport.ShapeNode` | import_to_neo4j.py:122-134 | a `Function` record takes function shaping, a `Struct` record struct shaping, any other record (including `Module`) only loses `type` and is labelled with its `type` text |
| `GraphImport.ShapeNodeKeepsId` | import_to_neo4j.py:72-134 | a shaped node never carries `type`, and it has `id` exactly when the record has, with the same value |
| `GraphImport.LabelOfShapedNode` | import_to_neo4j.py:123 | a record without `type` is merged under the label `Unknown`; otherwise the label is the `type` text |
| `GraphImport.SetProps` | import_to_neo4j.py:75-76 | `SET n += props`: non-null values overwrite, null values remove the key, unmentioned keys are kept |
| `GraphImport.UpsertCreates` | import_to_neo4j.py:73-78 | `MERGE` on a new key creates exactly one node holding the non-null properties; no other node changes |
| `GraphImport.UpsertMerges` | import_to_neo4j.py:92-97 | `MERGE` on an existing key merges rather than replaces: given keys overwritten, null keys removed, other keys kept, other nodes unchanged |
| `GraphImport.SetPropsIdempotent` | import_to_neo4j.py:75-76 | applying the same property map twice equals applying it once |
| `GraphImport.UpsertIdempotent` | import_to_neo4j.py:113-118 | upserting the same shaped node twice equals upserting it once |
| `GraphImport.MergeEdge` | import_to_neo4j.py:138-148 | the edge merge only adds relationships |
| `GraphImport.MergeEdgeRelatesAllMatches` | import_to_neo4j.py:143-147 | every pair of nodes matching `from` and `to` gets the typed relationship, and every added relationship joins such a pair |
| `GraphImport.MergeEdgeMissingEndpoint` | import_to_neo4j.py:144-145 | when no node matches `from` or none matches `to`, nothing is added |
| `GraphImport.MergeEdgeIdempotent` | import_to_neo4j.py:146 | `MERGE` never duplicates a relationship: merging the same edge again changes nothing |
| `GraphImport.EdgeTypeDefault` | import_to_neo4j.py:139 | an edge record without `type` is created as `RELATED_TO` |
| `GraphImport.UpsertAllPrefixFailure` | import_to_neo4j.py:122-134 | once one node record fails, the whole node phase fails |
| `GraphImport.ImportEmptyDocument` | import_to_neo4j.py:122-138 | a document without `nodes` and `edges` changes nothing |
| `GraphImport.UpsertRecordFailsIffMissingId` | import_to_neo4j.py:78 | upserting one record fails exactly when it has no usable `id` |
| `GraphImport.UpsertAllFailsIffMissingId` | import_to_neo4j.py:122-134 | the node phase fails exactly when some node record has no usable `id` |
| `GraphImport.ImportFailsIffMissingId` | import_to_neo4j.py:67-148 | the whole write fails exactly when some node record has no usable `id`, whatever the edges are |
| `GraphImport.SetPropsCompose` | import_to_neo4j.py:75-76 | two `SET n += props` in a row equal one with the second map laid over the first |
| `GraphImport.UpsertAllAt` | import_to_neo4j.py:122-134 | after the node loop a key holds a node exactly when it did before or some record merged into it; such a node holds its old properties (or just its id) updated once by all those records' properties, the later ones winning; every other node is unchanged |
| `GraphImport.MergeAllEdgesAdds` | import_to_neo4j.py:138-148 | the edge loop adds to the existing relationships exactly what it would create in an empty graph |
| `GraphImport.ImportIdempotent` | import_to_neo4j.py:67-148 | importing a document a second time, into the graph the first import produced, succeeds and yields that same graph |
| `GraphImport.Store.constructor` | import_to_neo4j.py:65 | an empty store that satisfies the store invariant |
| `GraphImport.Store.MergeNode` | import_to_neo4j.py:71-118 | one node's merge: the store becomes the upsert of the old nodes, or is unchanged on failure; relationships unchanged; invariant kept |
| `GraphImport.Store.MergeEdgeRecord` | import_to_neo4j.py:139-148 | one edge's merge: relationships become the edge merge of the old ones, nodes unchanged, invariant kept |
| `GraphImport.Store.MergeNodes` | import_to_neo4j.py:122-134 | the node loop: nodes become the fold of upserts over the records, or are restored when one fails |
| `GraphImport.Store.MergeEdges` | import_to_neo4j.py:138-148 | the edge loop: relationships become the fold of edge merges, nodes unchanged |
| `GraphImport.Store.CreateNodesAndEdges` | import_to_neo4j.py:67-152 | one write transaction: the new store is exactly `Import` of the old one, and the old store on failure |
| `GraphSchema.NodeRecord` | src/scanner/graph.rs:9-43 | a serialised node carries the tag `type` naming its variant and its `id` as a string |
| `GraphSchema.EdgeRecord` | src/scanner/graph.rs:45-50 | a serialised edge has exactly `type`, `from` and `to`, the tag being `Defines` or `Calls` |
| `GraphSchema.ImporterDispatchesOnTag` | src/scanner/graph.rs:10-15 | the importer sends every exported node to the shaping of its own kind and labels it with that kind (import_to_neo4j.py:122-129) |
| `GraphSchema.ImportedFunctionDescription` | src/scanner/graph.rs:24-33 | an exported function reaches the store with `source_code` and the description built from its own name, module id and source |
| `GraphSchema.ExportedDocumentImports` | src/scanner/graph.rs:3-7 | an exported document always imports without failure: every node has a string id |
| `GraphSchema.ImportedEdgeType` | src/scanner/graph.rs:46-50 | an exported edge becomes a relationship typed by its own tag |
| `Exporter.SplitModuleIdRoundTrip` | src/scanner/exporter.rs:47-57 | an id with `::` splits at its first `::`: address and name joined by `::` give the id back, and the address holds no `::` |
| `Exporter.SplitModuleIdRoundTripWhenPresent` | src/scanner/exporter.rs:47-57 | the same round trip, stated for every id that contains `::` |
| `Exporter.SpaceRunSpec` | src/scanner/exporter.rs:162 | the `\s+` run is all whitespace and maximal |
| `Exporter.FindDefinitionSpec` | src/scanner/exporter.rs:162-164 | the search returns a match of `\bkind\s+name\b`, and no match lies before it (the leftmost match `re.find` gives) |
| `Exporter.FirstCloseSpec` | src/scanner/exporter.rs:171-185 | the scan stops at the first place a brace balances after one was seen, or at a `;` before any brace, and nowhere earlier |
| `Exporter.DefinitionTextSpec` | src/scanner/exporter.rs:161-201 | the cut text starts at the leftmost match and ends at the first stop; it is empty exactly when there is no match or the scan never stops |
| `Exporter.DefinitionTextBalanced` | src/scanner/exporter.rs:171-185 | a definition cut at `}` has balanced braces and contains one; a definition cut at `;` has no brace |
| `Exporter.ExtractDefinition` | src/scanner/exporter.rs:161-201 | `extract_definition` computes exactly the cut text, counting positions in characters |
| `Exporter.ScanEnd` | src/scanner/exporter.rs:167-185 | the brace-counting loop returns the offset just past the first stop, and 0 when there is none |
| `Exporter.CharIndexAtByte` | src/scanner/exporter.rs:196 | a byte offset maps to a character index only on a character boundary within the text |
| `Exporter.SliceBytes` | src/scanner/exporter.rs:196 | slicing `&str` with byte offsets succeeds only when both offsets fall on character boundaries |
| `Exporter.AsciiPrefixBytes` | src/scanner/exporter.rs:165-166 | over an ASCII prefix, byte and character positions shift alike |
| `Exporter.AsWrittenAgreesOnAscii` | src/scanner/exporter.rs:161-201 | on ASCII sources the code as written cuts the same text as the character-based definition |
| `Exporter.AsWrittenDropsTerminator` | src/scanner/exporter.rs:178-196 | on `fun f(é);` the code as written cuts one character short and loses the `;` |
| `Exporter.VisibilityText` | src/scanner/exporter.rs:104-108 | visibility is rendered as one of `public`, `friend`, `private` |
| `Exporter.SourcePath` | src/scanner/exporter.rs:24 | `rsplit_once(':')`: the path is everything before the last `:`, and there is none without a `:` |
| `Exporter.ModuleSource` | src/scanner/exporter.rs:19-30 | source text is only available for a module with a location whose file was readable |
| `Exporter.GetSrc` | src/scanner/exporter.rs:33-44 | no source gives `""`; a span with `start < end` within the text's byte length is cut at those byte offsets: the cut is the `&str` slice, spans `end - start` bytes and follows the text's first `start` bytes; anything else falls back to `extract_definition`. Offsets off a character boundary, where the slice panics, are excluded by `Cuttable` |
| `Exporter.CharIndexAtByteSpec` | src/scanner/exporter.rs:37-38 | byte offset `b` is the boundary before character `k` exactly when the first `k` characters take `b` bytes |
| `Exporter.CutBytes` | src/scanner/exporter.rs:38 | slicing between two character boundaries succeeds, yields `end - start` bytes and is the part of the text after its first `start` bytes |
| `Exporter.GetSrcAscii` | src/scanner/exporter.rs:33-44 | on ASCII text bytes and characters coincide: every span can be cut and an in-range span cuts the characters `start..end` |
| `Exporter.GetSrcCountsBytes` | src/scanner/exporter.rs:35-38 | the span counts bytes: in `é\nstruct S {}\n` the span 3..14 cuts `struct S {}` |
| `Exporter.ModuleNodeOf` | src/scanner/exporter.rs:46-63 | the Module node has the module name as id, split into address and name (`0x0` and the whole name when there is no `::`) |
| `Exporter.StructNodeOf` | src/scanner/exporter.rs:66-89 | the Struct node has the qualified id, its abilities (none when the definition index is missing) and `is_resource` exactly when `key` is among them |
| `Exporter.FunctionNodeOf` | src/scanner/exporter.rs:98-124 | the Function node has the qualified id, the definition's visibility and native flag, and the argument count |
| `Exporter.StructNodes` | src/scanner/exporter.rs:66-95 | one struct node per struct |
| `Exporter.FunctionNodes` | src/scanner/exporter.rs:98-130 | one function node per function |
| `Exporter.DefinesEdges` | src/scanner/exporter.rs:91-129 | one `Defines` edge per name |
| `Exporter.DefinesEdgesAt` | src/scanner/exporter.rs:91-129 | the `i`-th `Defines` edge goes from the module to the `i`-th qualified name |
| `Exporter.CallsEdgesFromModuleZero` | src/scanner/exporter.rs:133-147 | every `Calls` edge comes from a call-graph edge whose caller is in module 0, and every such edge yields one |
| `Exporter.CallsEdgesAreCalls` | src/scanner/exporter.rs:141-146 | the call-graph loop only emits `Calls` edges |
| `Exporter.ModuleNodes` | src/scanner/exporter.rs:59-124 | a module contributes its Module node first, then one node per struct and per function |
| `Exporter.ModuleEdgesShape` | src/scanner/exporter.rs:91-146 | each struct and then each function is defined by the module, once, in order; all later edges are calls |
| `Exporter.ExportGraphCounts` | src/scanner/exporter.rs:14-151 | the graph has one node per module, struct and function, and at least one edge per struct and function |
| `Exporter.PushStructs` | src/scanner/exporter.rs:66-95 | the struct loop pushes exactly the struct nodes and their `Defines` edges |
| `Exporter.PushFunctions` | src/scanner/exporter.rs:98-130 | the function loop pushes exactly the function nodes and their `Defines` edges |
| `Exporter.PushCalls` | src/scanner/exporter.rs:133-147 | the call-graph loop pushes exactly the calls made from module 0 |
| `Exporter.ExportModule` | src/scanner/exporter.rs:18-147 | one pass of the module loop yields the module's graph |
| `Exporter.Export` | src/scanner/exporter.rs:14-151 | `export` returns the concatenation of every module's graph, in registry order |
| `Exporter.ExportGraphStep` | src/scanner/exporter.rs:18-148 | one more module appends its nodes and edges after the ones before |
| `Exporter.SourceText` | src/scanner/exporter.rs:33-44 | the `get_src` closure computes `GetSrc`, slicing at byte offsets |
| `Exporter.ExportImports` | src/scanner/exporter.rs:14-151 | every exported graph imports without failure (import_to_neo4j.py:67-148) |
| `MoveUtils.GlobalizeSignature` | src/move_ir/utils.rs:103-133 | a token becomes a reference type exactly when it is a reference token, and a mutable one exactly when it is mutable |
| `MoveUtils.GlobalizeSignatures` | src/move_ir/utils.rs:135-139 | one type per token, in order |
| `MoveUtils.GlobalizeInjective` | src/move_ir/utils.rs:103-133 | with distinct struct handles, two tokens globalise to the same type exactly when they are equal up to writing a plain struct as an empty instantiation |
| `MoveUtils.AsBytes` | src/move_ir/utils.rs:149-158 | a vector of constants becomes bytes exactly when every element is a `u8` constant |
| `MoveUtils.AsAddresses` | src/move_ir/utils.rs:159-168 | a vector of constants becomes addresses exactly when every element is an address constant |
| `MoveUtils.TranslateElems` | src/move_ir/utils.rs:169-175 | a successful element translation yields one constant per remaining element |
| `MoveUtils.TranslateValueSpec` | src/move_ir/utils.rs:146-189 | `translate_value` succeeds exactly on well-typed (type, value) pairs and panics on the rest; its constant has the form the type calls for and stands for the value |
| `MoveUtils.TranslateMismatch` | src/move_ir/utils.rs:187 | a pair that is neither a vector of a vector type nor a primitive type's value fails |
| `MoveUtils.TranslateScalarSpec` | src/move_ir/utils.rs:177-187 | a primitive type translates exactly a value of that type, to the constant standing for it |
| `MoveUtils.TranslateVectorSpec` | src/move_ir/utils.rs:148-176 | a vector translates exactly when every element does; `vector<u8>` becomes a byte array, `vector<address>` an address array, any other a vector of constants |
| `MoveUtils.TranslateElemsSpec` | src/move_ir/utils.rs:169-175 | element-wise translation succeeds exactly when every remaining element is well typed, and yields their translations in order |
| `MoveUtils.GetLocalType` | src/move_ir/utils.rs:191-207 | a parameter index reads the parameter's token; any other reads the locals signature at the index cast to `u8` |
| `MoveUtils.LocalTypeIsDeclared` | src/move_ir/utils.rs:191-207 | when the locals signature lists the parameters first and has at most 256 entries, every local's type is its own entry |
| `MoveUtils.GetLocalName` | src/move_ir/utils.rs:209-234 | the declared argument name, else the source-map name with `%#` replaced, else `$t` and the index |
| `MoveUtils.GetLocalNameClean` | src/move_ir/utils.rs:218-229 | a name not taken from the declared arguments never holds the `%#` marker |
| `MoveUtils.GetFnameByQid` | src/move_ir/utils.rs:276-283 | the qualified name is the module name, `::` and the function name |
| `MoveUtils.GetFnameByQidSplits` | src/move_ir/utils.rs:276-283 | a qualified name splits back at its first `::` into the module and function names |
| `MoveUtils.ReturnsTextInjective` | src/move_ir/utils.rs:373-393 | the return annotation determines the return types: two lists of non-empty type texts without spaces that print the same are equal |
| `MoveUtils.WriteReturns` | src/move_ir/utils.rs:373-393 | the loop writing the return types computes `ReturnsText` |
| `MoveUtils.CreateStructFields` | src/move_ir/utils.rs:536-546 | the loop building the field map computes the field table of the struct |
| `MoveUtils.FieldTableOffsets` | src/move_ir/utils.rs:538-543 | with distinct names, the table holds exactly the field names, the `i`-th under offset `i` |
| `MoveUtils.StructFieldsOffsets` | src/move_ir/utils.rs:535-546 | declared fields get offsets 0..n-1 in declaration order and each offset names back its field; a native struct has no fields |
| `MoveUtils.ClosestBelowSpec` | src/move_ir/utils.rs:567-569 | the filtered minimum is the nearest definition before the offset, and there is none exactly when no definition precedes it |
| `MoveUtils.GetDefBytecodeSpec` | src/move_ir/utils.rs:562-576 | the instruction returned defines the temporary: the only one, else the nearest one before the offset, else the first |
| `MoveUtils.NewLocAttr` | src/move_ir/utils.rs:55-65 | the new attribute id is the table's size and the table gains exactly that entry |
| `MoveUtils.NewLocAttrGrows` | src/move_ir/utils.rs:55-65 | attribute ids stay dense: the table grows by one key, so ids are 0, 1, 2, … and never reused |
| `BytecodeGen.NewFunctionInfo` | src/move_ir/generate_bytecode.rs:50-64 | a new function keeps its index and name and starts with no arguments, no code, no locals and empty tables |
| `BytecodeGen.NewAttr` | src/move_ir/utils.rs:55-65 | a fresh attribute id is the size of the location table before the call |
| `BytecodeGen.InstrEffect` | src/move_ir/generate_bytecode.rs:337-1582 | the translation of an instruction other than the unconditional branch pops exactly the operands the instruction takes |
| `BytecodeGen.Prelude` | src/move_ir/generate_bytecode.rs:314-320 | the label and the attribute id of an offset leave the stack, the count, the types and the fall-through labels alone |
| `BytecodeGen.SingleIn` | src/move_ir/generate_bytecode.rs:272-296 | the definitions and uses of a one-instruction code are those of the instruction |
| `BytecodeGen.DefsInNone` | src/move_ir/generate_bytecode.rs:272-296 | code whose instructions define nothing defines nothing |
| `BytecodeGen.DefsInSingles` | src/move_ir/generate_bytecode.rs:272-296 | code whose i-th instruction defines temporary `from + i` defines the run of temporaries from `from` |
| `BytecodeGen.DefsInAppend` | src/move_ir/generate_bytecode.rs:272-296 | the definitions of joined code are the definitions of the parts, in order |
| `BytecodeGen.UsesInAppend` | src/move_ir/generate_bytecode.rs:272-296 | the uses of joined code are the uses of the parts, in order |
| `BytecodeGen.SinkShape` | src/move_ir/generate_bytecode.rs:338-369 | an instruction that consumes the top temporary and defines nothing uses exactly the popped operand and allocates nothing |
| `BytecodeGen.UnaryShape` | src/move_ir/generate_bytecode.rs:330-332 | a unary call uses the top temporary and defines one fresh temporary |
| `BytecodeGen.BinaryShape` | src/move_ir/generate_bytecode.rs:333-335 | a binary call uses the two top temporaries and defines one fresh temporary |
| `BytecodeGen.LoadShape` | src/move_ir/generate_bytecode.rs:497-686 | a literal load uses nothing and defines one fresh temporary |
| `BytecodeGen.SinkCodeShape` | src/move_ir/generate_bytecode.rs:338-369 | `Pop`, `BrTrue`, `BrFalse` and `Abort` emit code that defines nothing and uses the popped temporary |
| `BytecodeGen.SinkEffectOf` | src/move_ir/generate_bytecode.rs:338-369 | `Pop`, `BrTrue`, `BrFalse` and `Abort` have the effect their operand counts describe |
| `BytecodeGen.StLocEffectOf` | src/move_ir/generate_bytecode.rs:371-379 | `StLoc` pops one operand and defines the stored local |
| `BytecodeGen.RetEffectOf` | src/move_ir/generate_bytecode.rs:381-390 | `Ret` pops as many operands as the function returns, uses exactly them and defines nothing |
| `BytecodeGen.NopEffectOf` | src/move_ir/generate_bytecode.rs:1412 | `Nop` pops and defines nothing |
| `BytecodeGen.ControlEffectOf` | src/move_ir/generate_bytecode.rs:338-390 | every control instruction other than the unconditional branch has the effect its operand counts describe |
| `BytecodeGen.ConstLoadEffectOf` | src/move_ir/generate_bytecode.rs:497-686 | every literal load defines one fresh temporary of the literal's type and pops nothing |
| `BytecodeGen.LocalLoadEffectOf` | src/move_ir/generate_bytecode.rs:687-714 | `CopyLoc` and `MoveLoc` define one fresh temporary and use exactly the local they read |
| `BytecodeGen.BorrowLocEffectOf` | src/move_ir/generate_bytecode.rs:715-744 | a borrow of a local defines one fresh reference temporary and uses exactly the borrowed local |
| `BytecodeGen.LoadEffectOf` | src/move_ir/generate_bytecode.rs:497-744 | every load instruction has the effect its operand counts describe |
| `BytecodeGen.StoreShape` | src/move_ir/generate_bytecode.rs:981-990 | a write through a reference uses the two top temporaries and defines nothing |
| `BytecodeGen.UnaryArithEffectOf` | src/move_ir/generate_bytecode.rs:569-646 | casts and `Not` pop one operand and define one fresh temporary of the result type |
| `BytecodeGen.BinaryArithEffectOf` | src/move_ir/generate_bytecode.rs:991-1214 | arithmetic, logic and comparisons pop two operands and define one fresh temporary |
| `BytecodeGen.ArithEffectOf` | src/move_ir/generate_bytecode.rs:569-646 | every arithmetic instruction has the effect its operand counts describe |
| `BytecodeGen.FreezeEffectOf` | src/move_ir/generate_bytecode.rs:420-437 | `FreezeRef` of a mutable reference defines one fresh immutable reference; of anything else it pops the operand and emits nothing |
| `BytecodeGen.ReadShape` | src/move_ir/generate_bytecode.rs:967-980 | a read through a reference uses the top temporary and defines one fresh temporary |
| `BytecodeGen.ReadRefEffectOf` | src/move_ir/generate_bytecode.rs:967-980 | `ReadRef` defines one fresh temporary, typed only when the operand is typed as a reference |
| `BytecodeGen.StoreEffectOf` | src/move_ir/generate_bytecode.rs:981-990 | `WriteRef`, and `MoveTo` of lines 1377-1411, pop two operands and define nothing |
| `BytecodeGen.UnaryRefEffectOf` | src/move_ir/generate_bytecode.rs:1215-1376 | global borrows, `Exists`, `MoveFrom` and the field borrows of lines 438-496 pop their operand and define one fresh temporary |
| `BytecodeGen.ReferenceEffectOf` | src/move_ir/generate_bytecode.rs:420-496 | every reference instruction, and the global-storage ones of lines 1215-1411, has the effect its operand counts describe |
| `BytecodeGen.CallEffectOf` | src/move_ir/generate_bytecode.rs:745-810 | a call pops its arguments and defines one fresh temporary per return value |
| `BytecodeGen.PackEffectOf` | src/move_ir/generate_bytecode.rs:811-880 | `Pack` pops one operand per field and defines one fresh struct temporary |
| `BytecodeGen.UnpackEffectOf` | src/move_ir/generate_bytecode.rs:881-966 | `Unpack` pops the struct and defines one fresh temporary per field |
| `BytecodeGen.CallGroupEffectOf` | src/move_ir/generate_bytecode.rs:745-966 | calls, packs and unpacks have the effect their operand counts describe |
| `BytecodeGen.VecPackCodeDefs` | src/move_ir/generate_bytecode.rs:1497-1537 | `VecPack` defines the new vector and, when it packs elements, a mutable borrow of it, all under the instruction's attribute id |
| `BytecodeGen.VecUnpackCodeDefs` | src/move_ir/generate_bytecode.rs:1538-1580 | `VecUnpack` of n elements defines n popped elements and a borrow of the vector, and nothing when n is 0 |
| `BytecodeGen.VecUnpackCodeAttrs` | src/move_ir/generate_bytecode.rs:1538-1580 | all the code of a vector unpack carries the instruction's attribute id |
| `BytecodeGen.NotReference` | src/move_ir/generate_bytecode.rs:420-437 | only reference instructions can drop their operand or leave a result untyped |
| `BytecodeGen.VecPackEffectOf` | src/move_ir/generate_bytecode.rs:1497-1537 | `VecPack` pops its elements and pushes the vector |
| `BytecodeGen.VecUnpackEffectOf` | src/move_ir/generate_bytecode.rs:1538-1580 | `VecUnpack` pops the vector and pushes its elements |
| `BytecodeGen.VecUnaryEffectOf` | src/move_ir/generate_bytecode.rs:1416-1432 | `VecLen` and `VecPopBack` pop the vector reference and define one fresh temporary |
| `BytecodeGen.VecBorrowEffectOf` | src/move_ir/generate_bytecode.rs:1433-1456 | a vector borrow pops the reference and the index and defines one fresh element reference |
| `BytecodeGen.VecUpdateEffectOf` | src/move_ir/generate_bytecode.rs:1457-1496 | `VecPushBack` and `VecSwap` pop their operands and define nothing |
| `BytecodeGen.VectorEffectOf` | src/move_ir/generate_bytecode.rs:1416-1580 | every vector instruction has the effect its operand counts describe |
| `BytecodeGen.InstrEffectOf` | src/move_ir/generate_bytecode.rs:337-1582 | every instruction other than the unconditional branch pops its operands, pushes its results as fresh temporaries, types them, and emits code under its attribute id that defines exactly those temporaries and uses exactly the popped operands |
| `BytecodeGen.UnlabelledPrelude` | src/move_ir/generate_bytecode.rs:314-320 | an offset without a label only takes one fresh attribute id recording the function's location |
| `BytecodeGen.LabelledPrelude` | src/move_ir/generate_bytecode.rs:314-320 | a labelled offset first emits its label under one fresh attribute id, then takes the next one |
| `BytecodeGen.PreludeSpec` | src/move_ir/generate_bytecode.rs:314-320 | attribute ids are handed out densely, each records the function's location, and the only code emitted is the offset's label |
| `BytecodeGen.StepSpec` | src/move_ir/generate_bytecode.rs:305-1582 | one translated instruction pops its operands, pushes fresh temporaries numbered from the old count, records their types and appends its code after the label |
| `BytecodeGen.StepKeepsStackAllocated` | src/move_ir/generate_bytecode.rs:305-1582 | every temporary on the stack stays below the temporary count |
| `BytecodeGen.StepKeepsTyped` | src/move_ir/generate_bytecode.rs:305-1582 | the local types keep covering exactly the allocated temporaries, except after a read through an operand not typed as a reference |
| `BytecodeGen.BranchStepSpec` | src/move_ir/generate_bytecode.rs:392-418 | the unconditional branch leaves the stack, the count and the types alone and only rewrites the code |
| `BytecodeGen.BranchCodeSpec` | src/move_ir/generate_bytecode.rs:396-417 | the result ends in a jump to the target or a branch whose else label is the target; everything before that last instruction is the old code; at most one label is dropped, and only one listed as fall-through; the labels named by jumps and branches are among those of the old code plus the target |
| `FunctionGen.LabelsNumbered` | src/move_ir/generate_bytecode.rs:216-236 | each label is the number of labels created before it, in the order the loop creates them |
| `FunctionGen.LabelsDistinct` | src/move_ir/generate_bytecode.rs:216-236 | distinct offsets get distinct labels, every label is below the number of labels, and so is every fall-through label |
| `FunctionGen.LabelsKeys` | src/move_ir/generate_bytecode.rs:216-236 | the labelled offsets are exactly the offsets the first instructions need |
| `FunctionGen.NeededSpec` | src/move_ir/generate_bytecode.rs:218-234 | an offset is needed exactly when an earlier instruction branches to it or is a conditional branch right before it |
| `FunctionGen.LabelsCover` | src/move_ir/generate_bytecode.rs:216-236 | an offset has a label exactly when one of the scanned instructions branches to it or is a conditional branch right before it |
| `FunctionGen.LabelsStable` | src/move_ir/generate_bytecode.rs:223-233 | a label, once given to an offset, is never replaced, and fall-through labels are only added |
| `FunctionGen.LabelStepFallthrough` | src/move_ir/generate_bytecode.rs:217-235 | one scanned instruction keeps the old labels and records the offset after a conditional branch as fall-through exactly when it creates that offset's label |
| `FunctionGen.FallthroughsUpTo` | src/move_ir/generate_bytecode.rs:216-236 | after each prefix of the scan, the fall-through labels are exactly those created for the offset after a conditional branch |
| `FunctionGen.FallthroughCreated` | src/move_ir/generate_bytecode.rs:228-235 | a label is fall-through exactly when it was first created for the offset after a conditional branch |
| `FunctionGen.BuildLabels` | src/move_ir/generate_bytecode.rs:216-236 | the label loop computes the labelling of the whole code |
| `FunctionGen.RunKeepsStackAllocated` | src/move_ir/generate_bytecode.rs:239-248 | translating the code keeps every temporary on the stack allocated |
| `FunctionGen.RunKeepsTyped` | src/move_ir/generate_bytecode.rs:239-248 | when every read through a reference is typed, the local types still cover exactly the allocated temporaries after translation |
| `FunctionGen.RunKeepsFallthrough` | src/move_ir/generate_bytecode.rs:239-248 | translation changes neither the fall-through labels nor the function's index, name and argument count |
| `FunctionGen.EliminatedLayout` | src/move_ir/generate_bytecode.rs:250-261 | the elimination keeps the instructions in order, puts a jump right before each label that follows an instruction that does not branch, and adds nothing else |
| `FunctionGen.EliminatedLabelsFollowBranches` | src/move_ir/generate_bytecode.rs:250-261 | afterwards every label but a leading one follows an instruction that branches, and the last instruction is unchanged |
| `FunctionGen.RecordAll` | src/move_ir/generate_bytecode.rs:273-283 | recording offsets keeps one row per local |
| `FunctionGen.Table` | src/move_ir/generate_bytecode.rs:263-296 | the def and use tables have one row per local type |
| `FunctionGen.TableRowsSorted` | src/move_ir/generate_bytecode.rs:266-296 | every row lists offsets of the code in ascending order |
| `FunctionGen.TableRowMembers` | src/move_ir/generate_bytecode.rs:266-296 | the row of a temporary holds an offset exactly when the instruction there defines (or uses) that temporary |
| `FunctionGen.CorrectedFallthroughUnreferenced` | src/move_ir/generate_bytecode.rs:228-235 | every corrected fall-through label is named only by its own conditional branch, so deleting its `Label` leaves no jump without a target |
| `FunctionGen.ReuseExampleLabels` | src/move_ir/generate_bytecode.rs:216-236 | in the five-instruction example, label 1 is recorded as fall-through although a later `Branch` targets it |
| `FunctionGen.ReuseStep` | src/move_ir/generate_bytecode.rs:305-418 | each of the example's five instructions translates to the next state of the run |
| `FunctionGen.FallthroughReuseAsWritten` | src/move_ir/generate_bytecode.rs:392-418 | as written, the example's code ends up with `Jump` to label 1 but no `Label 1` |
| `FunctionGen.ReuseStart` | src/move_ir/generate_bytecode.rs:200-215 | the as-written start state of the example has its local typed and no code |
| `FunctionGen.LocalTypes` | src/move_ir/generate_bytecode.rs:201-207 | one type per local, in order |
| `FunctionGen.TranslationShape` | src/move_ir/generate_bytecode.rs:192-300 | the recorded function keeps its index and name, counts its locals as arguments, records the corrected fall-through labels, has one def and one use row per local type, and every label but a leading one follows a branch |
| `FunctionGen.TranslationTables` | src/move_ir/generate_bytecode.rs:263-299 | the def (use) row of each local holds exactly the offsets of the recorded code that define (use) it |
| `FunctionGen.Infos` | src/move_ir/generate_bytecode.rs:193-302 | the recorded functions, in definition order |
| `FunctionGen.EliminateFallthrough` | src/move_ir/generate_bytecode.rs:250-261 | the elimination loop computes the specified elimination of the whole code |
| `FunctionGen.Record` | src/move_ir/generate_bytecode.rs:273-283 | the per-temporary loop records the offset once per occurrence |
| `FunctionGen.RecordSnoc` | src/move_ir/generate_bytecode.rs:273-283 | recording one more occurrence appends the offset to that temporary's row only |
| `FunctionGen.BuildTables` | src/move_ir/generate_bytecode.rs:263-296 | the def/use loop computes both tables of the whole code |
| `FunctionGen.NodeMapSpec` | src/move_ir/generate_bytecode.rs:1598-1609 | every handle's identifier has a node, that node carries the identifier, and no other identifier has one |
| `FunctionGen.CallEdgesSpec` | src/move_ir/generate_bytecode.rs:1611-1639 | an edge joins two nodes exactly when the first is a defined function and the second a function with a node that its code calls |
| `FunctionGen.CollectCallees` | src/move_ir/generate_bytecode.rs:1618-1631 | the callees collected are exactly the functions the code calls |
| `FunctionGen.GenerateCode` | src/move_ir/generate_bytecode.rs:239-248 | the generation loop computes the translation run of the whole code |
| `FunctionGen.RunStep` | src/move_ir/generate_bytecode.rs:239-248 | one instruction of the loop can be translated and advances the run |
| `FunctionGen.Generator.constructor` | src/move_ir/generate_bytecode.rs:176-189 | a new generator has no temporaries, no functions and an empty call graph |
| `FunctionGen.Generator.GenerateFunction` | src/move_ir/generate_bytecode.rs:193-302 | one round appends the translated function and leaves the temporary count and stack as the translation does, with the call graph untouched |
| `FunctionGen.Generator.GenerateFunctions` | src/move_ir/generate_bytecode.rs:192-303 | every function definition is translated in order and recorded, and the call graph is untouched |
| `FunctionGen.Generator.BuildCallGraph` | src/move_ir/generate_bytecode.rs:1594-1642 | one node per function handle, in order, and an edge from each defined function to each callee with a node; nothing else changes |
| `FunctionGen.AddNodes` | src/move_ir/generate_bytecode.rs:1598-1609 | the node loop adds every handle and maps it to its node |
| `FunctionGen.AddEdges` | src/move_ir/generate_bytecode.rs:1633-1638 | the edge loop adds an edge to each callee that has a node |
| `FatLoops.ValueTemps` | src/move_ir/fatloop.rs:111-119 | for temporaries that all have a type, the value targets of a list of results are exactly its temporaries that are not mutable references |
| `FatLoops.MutTemps` | src/move_ir/fatloop.rs:105-114 | for temporaries that all have a type, the reference targets of a list are exactly its mutable references, each tagged with the given havoc flag |
| `FatLoops.ModifiesSpec` | src/move_ir/fatloop.rs:54-139 | for an instruction whose looked-up temporaries have types and whose `write_ref` has a first operand (where the source would panic otherwise): an assignment replaces a mutable reference or writes a value; a load writes a value; `write_ref` only changes what its first operand points to; a Move call changes what its mutable-reference arguments point to and writes or replaces its results; an abort action's code temporary is always written; every other instruction modifies nothing |
| `FatLoops.Interval` | src/move_ir/fatloop.rs:155-158 | the offsets of a block's instruction range |
| `FatLoops.Instrs` | src/move_ir/fatloop.rs:155-158 | the instructions of a basic block are the offsets from its lower to its upper bound |
| `FatLoops.ModTable` | src/move_ir/fatloop.rs:159-160 | one classification per instruction |
| `FatLoops.TableAt` | src/move_ir/fatloop.rs:159-160 | the table holds what the instruction at each offset modifies |
| `FatLoops.MergeAllSpec` | src/move_ir/fatloop.rs:162-169 | merging reference targets keeps every old key and adds every new one, and a key is fully havocked when it was before or any new entry for it is |
| `FatLoops.NoTargets` | src/move_ir/fatloop.rs:147-148 | before any instruction there are no targets |
| `FatLoops.Absorb` | src/move_ir/fatloop.rs:159-169 | adding one instruction's targets keeps the collected sets equal to what the handled instructions modify |
| `FatLoops.MergeTargets` | src/move_ir/fatloop.rs:162-169 | the `entry` / `and_modify` / `or_insert` loop computes the merge |
| `FatLoops.CollectInstrTargets` | src/move_ir/fatloop.rs:159-169 | one step of the inner loop adds one instruction's targets |
| `FatLoops.CollectBlockTargets` | src/move_ir/fatloop.rs:155-170 | the inner loop adds the targets of every instruction of the block |
| `FatLoops.NextBlock` | src/move_ir/fatloop.rs:154-158 | a body block is basic and its instructions join the offsets handled so far |
| `FatLoops.CollectBlock` | src/move_ir/fatloop.rs:154-171 | one step of the outer loop adds the targets of one body block |
| `FatLoops.CollectLoopTargets` | src/move_ir/fatloop.rs:141-173 | the targets are what the instructions of the union of the sub-loops' bodies modify |
| `FatLoops.CollectLoopInvariants` | src/move_ir/fatloop.rs:26-52 | the invariants are the run of listed assertions right after the header's label, by offset with their attribute id; with the empty invariant set there are none |
| `FatLoops.BackEdges` | src/move_ir/fatloop.rs:175-199 | the back edges are the last offsets of the latch blocks, each of which jumps or branches to the header's label |
| `FatLoops.WithHeaderSpec` | src/move_ir/fatloop.rs:222-227 | the loops filed under a header are exactly the natural loops with that header |
| `FatLoops.GroupedSpec` | src/move_ir/fatloop.rs:221-227 | every natural loop is in its header's group and every group holds only loops of its own header |
| `FatLoops.GroupByHeader` | src/move_ir/fatloop.rs:221-227 | the grouping loop files each natural loop under its header, in order |
| `FatLoops.GroupedSnoc` | src/move_ir/fatloop.rs:222-227 | one more loop is appended to its header's group |
| `FatLoops.GroupBodies` | src/move_ir/fatloop.rs:149-158 | a well-formed group's body blocks are basic and its latches branch back to the header |
| `FatLoops.GroupsOk` | src/move_ir/fatloop.rs:230-243 | every group of well-formed natural loops is well formed |
| `FatLoops.BuildFatLoop` | src/move_ir/fatloop.rs:231-255 | the fat loop of a header holds its sub-loops, its invariants, its targets and its back edges |
| `FatLoops.GetLoops` | src/move_ir/fatloop.rs:201-258 | the natural loops are returned unchanged, with one fat loop per loop header built from the natural loops of that header |
| `FatLoops.BuildFatLoops` | src/move_ir/fatloop.rs:229-256 | one fat loop per group, under its header |
| `FatLoops.BodyOffsets` | src/move_ir/fatloop.rs:149-158 | the offsets of a group's body blocks are those inside some sub-loop's body block |
| `FatLoops.TargetsSpec` | src/move_ir/fatloop.rs:141-173 | a collected value target is written as a value at some handled offset, a reference target is changed at some handled offset, and it is fully havocked exactly when some handled instruction replaces it |
| `FatLoops.FatLoopTargetsSpec` | src/move_ir/fatloop.rs:241-242 | the targets of a fat loop are exactly what the instructions of its sub-loops' bodies modify, in both directions |
| `FatLoops.FatLoopBackEdges` | src/move_ir/fatloop.rs:243 | every back edge of a fat loop jumps or branches to the label its header block starts with |
| `DataDependency.UintMaxSpec` | src/move_ir/data_dependency.rs:330-358 | an unsigned type of width n has the maximum 2^n - 1, every other type has none, and `is_uint` holds for exactly the types that have one |
| `DataDependency.UintMaxExists` | src/move_ir/data_dependency.rs:344-358 | a maximum exists exactly for the six unsigned types |
| `DataDependency.UintMaxValue` | src/move_ir/data_dependency.rs:347-352 | the six literal maxima are 2^8 - 1 through 2^256 - 1 |
| `DataDependency.ConstantWithinType` | src/move_ir/data_dependency.rs:360-370 | a literal has a bound exactly when it is of an unsigned type, and the bound never exceeds that type's maximum |
| `DataDependency.GetMinUint` | src/move_ir/data_dependency.rs:372-376 | the result is one of the two bounds and at most both |
| `DataDependency.BinaryOperationMax` | src/move_ir/data_dependency.rs:378-428 | the result always has a bound |
| `DataDependency.SaturatingBound` | src/move_ir/data_dependency.rs:410-419 | for sums, bitwise operations and products the bound is the true result clipped at the destination type's maximum, so it never exceeds that maximum |
| `DataDependency.ProductSaturates` | src/move_ir/data_dependency.rs:416-419 | a product's bound is the product clipped at the type's maximum, overflow of 256 bits included |
| `DataDependency.SumSaturates` | src/move_ir/data_dependency.rs:412-415 | a sum's bound is the sum clipped at the type's maximum, overflow of 256 bits included |
| `DataDependency.BinaryBoundSound` | src/move_ir/data_dependency.rs:378-428 | for operands within their bounds (and equal to them when constant), the result of a non-aborting `+`, `-`, `*`, `/` or `%` lies within the computed bound, and a difference or remainder of two constants equals it and is marked constant |
| `DataDependency.DivBound` | src/move_ir/data_dependency.rs:420 | a quotient stays within the dividend's bound |
| `DataDependency.ModBound` | src/move_ir/data_dependency.rs:384-394 | a remainder stays within the computed bound, and equals it for two constants |
| `DataDependency.IsConstSpec` | src/move_ir/data_dependency.rs:94-115 | a node is constant exactly when no parameter flows into it |
| `DataDependency.LoopConditionsSpec` | src/move_ir/data_dependency.rs:68-92 | a temporary is collected exactly when a node reachable through operation nodes borrows it or copies it |
| `DataDependency.ConditionsFromSpec` | src/move_ir/data_dependency.rs:75-79 | the subnodes from the i-th on collect exactly the temporaries borrowed or copied within them |
| `DataDependency.SaneDefined` | src/move_ir/data_dependency.rs:68-115 | on well-shaped nodes `is_const` and `loop_condition_from_copy` do not panic |
| `DataDependency.DataDepent.constructor` | src/move_ir/data_dependency.rs:180 | the analysis starts with no entries |
| `DataDependency.DataDepent.InsertOrModify` | src/move_ir/data_dependency.rs:166-168 | the entry for `dst` is replaced and nothing else changes |
| `DataDependency.DataDepent.Get` | src/move_ir/data_dependency.rs:170-172 | the node recorded for the temporary, which must exist |
| `DataDependency.Args` | src/move_ir/data_dependency.rs:211-214 | one node per operand, in order |
| `DataDependency.CallNodes` | src/move_ir/data_dependency.rs:234-239 | one node per result of a call |
| `DataDependency.UnpackNodes` | src/move_ir/data_dependency.rs:283-301 | one node per unpacked field |
| `DataDependency.Params` | src/move_ir/data_dependency.rs:186-191 | exactly the parameters have a node |
| `DataDependency.CollectNodes` | src/move_ir/data_dependency.rs:211-214 | the loop reads the operands' nodes in order |
| `DataDependency.InsertEach` | src/move_ir/data_dependency.rs:234-239 | the loop records one node per result, in order |
| `DataDependency.Analyse` | src/move_ir/data_dependency.rs:194-325 | one instruction records the node of what it writes, as the per-instruction specification says |
| `DataDependency.DataDependencyOf` | src/move_ir/data_dependency.rs:175-328 | the analysis is the parameters' nodes followed by every instruction's step, in order |
| `DataDependency.InsertAllFrame` | src/move_ir/data_dependency.rs:234-239 | recording results adds exactly them, keeps the other entries and keeps every node well shaped |
| `DataDependency.StepFrame` | src/move_ir/data_dependency.rs:194-325 | one instruction adds exactly the temporaries it writes and leaves every other entry as it was |
| `DataDependency.DepsFrame` | src/move_ir/data_dependency.rs:193-326 | after the analysis a temporary has a node exactly when it had one before or some instruction writes it, and a temporary nothing writes keeps its node |
| `DataDependency.ParamsKept` | src/move_ir/data_dependency.rs:186-326 | the temporaries with a node are the parameters and those written, and a parameter nothing writes keeps its parameter node |
| `DataDependency.StepSane` | src/move_ir/data_dependency.rs:194-325 | one instruction keeps every node well shaped |
| `DataDependency.DepsSane` | src/move_ir/data_dependency.rs:193-326 | every node the analysis records is well shaped, so `is_const` and `loop_condition_from_copy` do not panic on it |
| `DataDependency.ParamsSane` | src/move_ir/data_dependency.rs:186-191 | the parameters' nodes are well shaped and none is constant |
| `BytecodeDisplay.LStrSpec` | src/move_ir/bytecode_display.rs:183-185 | a temporary prints as `$t` followed by the decimal digits of its index, with no blank, and the index can be read back from the digits |
| `BytecodeDisplay.LStrInjective` | src/move_ir/bytecode_display.rs:183-185 | distinct temporaries print differently |
| `BytecodeDisplay.LabelStr` | src/move_ir/bytecode_display.rs:187-192 | a label with a known offset prints as that offset's digits; an unknown one prints as `L` and its number; the text starts with `L` exactly when the offset is unknown |
| `BytecodeDisplay.TempTexts` | src/move_ir/bytecode_display.rs:172-177 | one text per temporary of the list |
| `BytecodeDisplay.WriteLocals` | src/move_ir/bytecode_display.rs:162-181 | the loop writing a list of temporaries produces the list's rendering: a single temporary bare unless braces are forced, otherwise parenthesised and comma separated |
| `BytecodeDisplay.TempTextsSeparable` | src/move_ir/bytecode_display.rs:183-185 | temporary texts are non-empty and hold no blank and no comma, so they can be cut apart again |
| `BytecodeDisplay.JoinShape` | src/move_ir/bytecode_display.rs:172-177 | a comma-separated list of separable items is empty exactly when there are no items and holds a blank exactly when there are at least two |
| `BytecodeDisplay.JoinInjective` | src/move_ir/bytecode_display.rs:172-177 | a comma-separated list of separable items determines the items |
| `BytecodeDisplay.TempTextsInjective` | src/move_ir/bytecode_display.rs:172-177 | the texts of two lists of temporaries agree only when the lists do |
| `BytecodeDisplay.FmtLocalsInjective` | src/move_ir/bytecode_display.rs:162-181 | the rendering of a list of temporaries determines the list, whether braces were forced or not |
| `BytecodeDisplay.FmtLocalsShape` | src/move_ir/bytecode_display.rs:168-179 | a list starts with `(` exactly when braces are forced or it is not a single temporary, and prints as `()` exactly when it is empty |
| `BytecodeDisplay.TypeArgsText` | src/move_ir/bytecode_display.rs:408-425 | no text for no type arguments; otherwise the text opens with `<` and ends with `>` followed by the literal `fmt_type_args` |
| `BytecodeDisplay.TypeTexts` | src/move_ir/bytecode_display.rs:415-420 | one text per type argument |
| `BytecodeDisplay.WriteTypeArgs` | src/move_ir/bytecode_display.rs:408-425 | the loop writing the type arguments produces their rendering |
| `BytecodeDisplay.FieldSuffixSpec` | src/move_ir/bytecode_display.rs:240-253 | the suffix is empty exactly when no field has the offset, and is `.` and the name of the first field with the offset otherwise |
| `BytecodeDisplay.WriteFieldSuffix` | src/move_ir/bytecode_display.rs:243-252 | the loop over the field data, stopping at the first match, writes that suffix |
| `BytecodeDisplay.CastRoundTrip` | src/move_ir/bytecode_display.rs:349-354 | every cast prints, and its text parses back to the same cast |
| `BytecodeDisplay.OperatorRoundTrip` | src/move_ir/bytecode_display.rs:355-375 | every unary and binary operator prints, and its symbol parses back to the same operator |
| `BytecodeDisplay.OneCharRoundTrip` | src/move_ir/bytecode_display.rs:355-369 | the one-character symbols parse back to their operators |
| `BytecodeDisplay.TwoCharRoundTrip` | src/move_ir/bytecode_display.rs:366-375 | the two-character symbols parse back to their operators |
| `BytecodeDisplay.AssignTextInjective` | src/move_ir/bytecode_display.rs:76-84 | an assignment's text determines its destination, its source and its kind |
| `BytecodeDisplay.AssignRestInjective` | src/move_ir/bytecode_display.rs:77-83 | the part after `:= ` determines the source and the kind of assignment |
| `BytecodeDisplay.DstsTextInjective` | src/move_ir/bytecode_display.rs:85-90 | the destinations part of a call's text determines the destinations, whatever follows |
| `BytecodeDisplay.CallDstsDetermined` | src/move_ir/bytecode_display.rs:85-100 | two calls that differ only in their destinations print the same only when the destinations agree |
| `BytecodeDisplay.LabelTextInjective` | src/move_ir/bytecode_display.rs:120-122 | `label Ln` names its label: two label instructions print alike exactly when their labels agree |
| `BytecodeDisplay.ControlTextsDistinct` | src/move_ir/bytecode_display.rs:108-122 | a jump prints `goto` and its target's text, and a label never prints like a jump or a branch |
| `Packages.FunctionIndexSpec` | src/move_ir/packages.rs:37-43 | the index is that of the first entry with the function id, and 0 when no entry has it |
| `Packages.FunctionIndexLeast` | src/move_ir/packages.rs:37-43 | with the ascending keys of the ordered map, the index is the least definition index mapped to the id |
| `Packages.Packages.constructor` | src/move_ir/packages.rs:14-18 | a new registry holds no modules |
| `Packages.Packages.InsertStbgr` | src/move_ir/packages.rs:20-24 | the module is registered under its name, replacing any module of that name, and nothing else changes |
| `Packages.Packages.GetAllStbgr` | src/move_ir/packages.rs:26-28 | every registered module, each as looked up by name |
| `Packages.Packages.GetStbgrByMname` | src/move_ir/packages.rs:30-32 | the module registered under the name, and None exactly when there is none |
| `Packages.Packages.GetFunction` | src/move_ir/packages.rs:34-45 | the function at the definition index of the first entry with the id, index 0 when there is none; the module and that function must exist |
| `DepUtils.IsDepModule` | src/utils/utils.rs:27-38 | a module is a dependency exactly when its full name starts with `0x1` or `0x3` |
| `DepUtils.ModuleAddress` | src/utils/utils.rs:30 | the address part of a full name is its text up to the first `::`, or the whole name when there is none |
| `DepUtils.AddressImpliesPrefix` | src/utils/utils.rs:27-38 | every module whose address is a dependency address passes the prefix test |
| `DepUtils.PrefixAcceptsOtherAddress` | src/utils/utils.rs:31-36 | the prefix test accepts `0x10::coin`, whose address `0x10` is not a dependency address |
| `DepUtils.QualifiedNameAddress` | src/utils/utils.rs:27-38 | with the address test, `addr::name` (colon-free `addr`) is a dependency module exactly when `addr` is `0x1` or `0x3`, whatever the name |
| `DepUtils.FrameworkModuleIsDep` | src/utils/utils.rs:9 | `0x1::vector` and `0x3::sui_system` are recognised by their address |
| `DepUtils.GetTestedTransformationPipeline` | src/utils/utils.rs:46-61 | `from_move` gives no pipeline, `usage_analysis` a pipeline running the usage analysis only, and any other name the error naming the directory |
| `ScanResult.DetectorTypesComplete` | src/scanner/result.rs:17-41 | the list of kinds holds every kind |
| `ScanResult.DetectorTypeText` | src/scanner/result.rs:42-55 | every kind prints as a non-empty name |
| `ScanResult.DetectorTypeRoundTrip` | src/scanner/result.rs:17-55 | the printed name is the serde name: it reads back as the same kind, and only printed names read back at all |
| `ScanResult.DetectorTypeTextInjective` | src/scanner/result.rs:42-55 | distinct kinds print differently |
| `ScanResult.ModuleInfo.UpdateDetectors` | src/scanner/result.rs:142-144 | the kind must have a list; one value is appended to it and nothing else changes |
| `ScanResult.ModuleInfo.UpdatesDetectors` | src/scanner/result.rs:147-152 | the values are appended in order to the kind's list and nothing else changes |
| `ScanResult.ModuleInfo.InitFunctions` | src/scanner/result.rs:153-157 | a function not yet registered gets an empty list; a registered one is left alone |
| `ScanResult.ModuleInfo.UpdateFunctions` | src/scanner/result.rs:159-161 | the function must be registered; the kind is appended to its list and nothing else changes |
| `ScanResult.EmptyModuleInfo` | src/scanner/result.rs:123-139 | every kind has an empty list, both function counts are 0, no function is registered, and nothing is found |
| `ScanResult.InitFunctionsIdempotent` | src/scanner/result.rs:153-157 | registering a function twice is registering it once |
| `ScanResult.UpdatesIsRepeatedUpdate` | src/scanner/result.rs:142-152 | appending values one at a time is appending them all at once |
| `ScanResult.Result.AddModule` | src/scanner/result.rs:93-95 | the module's findings are entered under its name, replacing an older entry, and nothing else changes |
| `ScanResult.EmptyResult` | src/scanner/result.rs:85-91 | no module has succeeded or failed, and none is recorded |
| `ScanResult.PrettyModulesSpec` | src/scanner/result.rs:172-186 | a module is printed exactly when some detector found something in it, with exactly its non-empty lists, unchanged |
| `ScanResult.ModuleFindings` | src/scanner/result.rs:175-183 | the loop over one module's kinds keeps exactly the non-empty lists |
| `ScanResult.PrettyFrom` | src/scanner/result.rs:172-186 | the counts and the time are copied, and the modules are those with findings, with their non-empty lists |
| `ScanResult.PassCount` | src/scanner/result.rs:195 | the pass figure plus the wrong figure is the number of analysed modules; the unsigned subtraction needs the printed modules not to outnumber them |
| `ScanResult.WrongCount` | src/scanner/result.rs:196 | the wrong figure is the number of printed modules |
| `Text.NatToString` | src/move_ir/bytecode_display.rs:184 | a number prints as at least one decimal digit, a single one exactly when it is below 10 |
| `Text.NatToStringRoundTrip` | src/move_ir/bytecode_display.rs:184 | reading the digits back gives the number |
| `Text.NatToStringInjective` | src/move_ir/bytecode_display.rs:184 | distinct numbers print differently |
| `Text.FindFrom` | src/scanner/exporter.rs:48-57 | the first occurrence of the pattern at or after the start, -1 when there is none |
| `Text.LastIndexOf` | src/scanner/exporter.rs:24 | the last occurrence of the character, -1 exactly when there is none |
| `Detection.DefOf` | src/move_ir/utils.rs:562-576 | the definition looked up for an operand is an instruction of the code that defines it |
| `Detection.DefReadable` | src/move_ir/utils.rs:562-576 | in typed code the definition of an operand can be inspected for its result type |
| `Detection.ExitBlocks` | src/scanner/detects/detect4.rs:73-80 | the exit blocks are exactly the loop's blocks with a successor outside the loop |
| `DetectorsRun.KindType` | src/scanner/detectors.rs:117-128 | the kinds of detectors 1 to 8 each have a report list with a non-empty printed name; the recursive-call and repeated-call kinds have none |
| `DetectorsRun.RunOrderTyped` | src/scanner/detectors.rs:44-53 | every kind `run` merges has a report list, and no two of them share one |
| `DetectorsRun.NativeCount` | src/scanner/detectors.rs:104-111 | the native count of the first `n` functions is at most `n` |
| `DetectorsRun.InitialInfo` | src/scanner/detectors.rs:96-111 | a module starts without findings, with its constant-pool size, all its functions counted, and the natives among them counted separately |
| `DetectorsRun.ModuleInfoOf` | src/scanner/detectors.rs:97-111 | the counting loop produces exactly the module's initial entry |
| `DetectorsRun.Merged` | src/scanner/detectors.rs:117-131 | the module names are kept, each module with findings has them appended to the kind's list, and every other module is unchanged |
| `DetectorsRun.MergedNone` | src/scanner/detectors.rs:119-130 | merging no module's findings changes nothing |
| `DetectorsRun.MergedStep` | src/scanner/detectors.rs:119-130 | merging one more module updates exactly that module |
| `DetectorsRun.PushAll` | src/scanner/detectors.rs:120-129 | pushing the values one by one appends them, in order, to the kind's list |
| `DetectorsRun.MergedSpec` | src/scanner/detectors.rs:117-131 | after merging, each list of each module is its old list followed by the findings of that module if the list is the merged kind's, and unchanged otherwise |
| `DetectorsRun.WrongModules` | src/scanner/detectors.rs:138-148 | the wrong modules are exactly the recorded modules with some non-empty list |
| `DetectorsRun.ModulePasses` | src/scanner/detectors.rs:139-144 | a module passes exactly when all its lists are empty |
| `DetectorsRun.CountWrong` | src/scanner/detectors.rs:137-148 | the loop counts exactly the wrong modules |
| `DetectorsRun.CountsPartition` | src/scanner/detectors.rs:136-154 | the wrong modules are at most all modules, so the unsigned subtraction does not underflow, and the difference counts the passing modules |
| `DetectorsRun.PassModules` | src/scanner/detectors.rs:149-151 | pass plus wrong is the number of modules, and pass counts the modules without findings |
| `DetectorsRun.NoFindingNoWrong` | src/scanner/detectors.rs:145-147 | when no module has a finding no module is wrong |
| `DetectorsRun.AddedNone` | src/scanner/detectors.rs:96-113 | adding no module changes nothing |
| `DetectorsRun.AddedStep` | src/scanner/detectors.rs:112 | adding one more module enters its initial entry under its name |
| `DetectorsRun.InitModules` | src/scanner/detectors.rs:95-114 | every loaded module gets its initial entry, replacing an older one, and every other recorded module is kept |
| `DetectorsRun.MergedUpTo` | src/scanner/detectors.rs:55-58 | merging findings keeps the module names and each module's set of kinds |
| `DetectorsRun.MergedKeeps` | src/scanner/detectors.rs:55-58 | findings mergeable into the initial report stay mergeable after earlier merges |
| `DetectorsRun.AddOne` | src/scanner/detectors.rs:96-113 | one iteration of the loop adds that module's initial entry |
| `DetectorsRun.MergeOne` | src/scanner/detectors.rs:119-130 | one iteration pushes exactly that module's findings |
| `DetectorsRun.MergeFound` | src/scanner/detectors.rs:119-130 | the loop merges the findings of every module named |
| `DetectorsRun.AddAll` | src/scanner/detectors.rs:96-113 | the loop adds an initial entry for every loaded module |
| `DetectorsRun.Detectors.constructor` | src/scanner/detectors.rs:31-36 | the report starts empty |
| `DetectorsRun.Detectors.InitResult` | src/scanner/detectors.rs:95-114 | the report's modules become the initial modules of the loaded packages, and nothing else changes |
| `DetectorsRun.Detectors.MergeResult` | src/scanner/detectors.rs:117-131 | the report's modules become the merge of the detector's findings into its kind's lists, and nothing else changes |
| `DetectorsRun.Detectors.CompleteResult` | src/scanner/detectors.rs:134-155 | the elapsed time is recorded, the pass figure is the number of modules without findings and the wrong figure the number with some; modules are unchanged |
| `DetectorsRun.Detectors.MergeAll` | src/scanner/detectors.rs:55-58 | the findings of each detector are merged in order, and the counts and time are unchanged |
| `DetectorsRun.Detectors.Run` | src/scanner/detectors.rs:38-61 | the report's modules are the initial modules with the eight detectors' findings merged in order, the time is the elapsed time, and the pass and wrong figures add up to the number of modules |
| `Detector1.WindowEnd` | src/scanner/detects/detect1.rs:26-27 | the window after a call ends after one instruction per result, clipped to the end of the code |
| `Detector1.DetectUncheckedReturn` | src/scanner/detects/detect1.rs:10-55 | the names collected over the whole code: for each call of a Move function with results, the callee's name once per destroy in its window, in code order |
| `Detector1.WindowDrops` | src/scanner/detects/detect1.rs:26-39 | the inner loop collects the callee's name once per destroy in the window |
| `Detector1.DestroyCountPositive` | src/scanner/detects/detect1.rs:30-37 | a window contributes a name exactly when it holds a destroy |
| `Detector1.DroppedSpec` | src/scanner/detects/detect1.rs:18-46 | a name is reported exactly when some call of it has a destroy within its window |
| `Detector1.NoResultsNoReport` | src/scanner/detects/detect1.rs:21-24 | a call without results contributes nothing |
| `Detector1.DroppedBound` | src/scanner/detects/detect1.rs:26-39 | each call contributes at most one name per result |
| `Detector1.DestroyCountAtMost` | src/scanner/detects/detect1.rs:26-39 | a window holds at most as many destroys as instructions |
| `Detector2.BitLength` | src/scanner/detects/detect2.rs:54 | `256 - leading_zeros` of a value is the least k with the value below 2^k |
| `Detector2.BitLengthBelow` | src/scanner/detects/detect2.rs:54 | a value below 2^m needs at most m bits |
| `Detector2.ShiftedWidth` | src/scanner/detects/detect2.rs:54 | the width is a 32-bit number, and for a shift bound that does not wrap it is the value's significant bits plus the shift bound |
| `Detector2.BitLengthU256` | src/scanner/detects/detect2.rs:54 | a 256-bit value has at most 256 significant bits |
| `Detector2.WidthNoWrap` | src/scanner/detects/detect2.rs:54 | a small shift bound passes the truncation to 32 bits and the 32-bit addition intact |
| `Detector2.DetectOverflow` | src/scanner/detects/detect2.rs:38-67 | the function's name exactly when some left shift's bounds give a width beyond its result type's, examining every shift |
| `Detector2.ShiftBits` | src/scanner/detects/detect2.rs:54 | a value needing k bits, shifted by s, needs exactly k + s bits |
| `Detector2.WideShiftOverflows` | src/scanner/detects/detect2.rs:54 | past the width, the largest value shifted by the largest amount reaches 2^w |
| `Detector2.NarrowShiftFits` | src/scanner/detects/detect2.rs:54 | within the width, the shifted value stays below 2^w |
| `Detector2.FlagMeansOverflow` | src/scanner/detects/detect2.rs:54 | for a positive value bound and a shift bound that does not wrap, a shift is flagged exactly when shifting the largest value by the largest amount leaves the type |
| `Detector2.UnflaggedShiftFits` | src/scanner/detects/detect2.rs:54 | an unflagged shift stays within its type for every value and amount within the bounds |
| `Detector3.DetectPrecisionLoss` | src/scanner/detects/detect3.rs:43-102 | the function's name is returned exactly when some multiplication has an operand whose definition is a division or a call of `sqrt`, and nothing otherwise |
| `Detector3.QuotientTimesIsLossy` | src/scanner/detects/detect3.rs:53-65 | a multiplication whose first operand's only definition is a division is a precision-loss site |
| `Detector4.BorrowReference` | src/scanner/detects/detect4.rs:168-199 | a copy or store yields (source, destination, false) exactly when the source is a mutable reference, a move yields nothing; a borrow of a local, a global or a field yields (operand, result, whether through a field), every other call and instruction nothing |
| `Detector4.ChangedLoopCondition` | src/scanner/detects/detect4.rs:120-166 | the result is the recursive keeps-relation of the block's range from `lower + offset`: false when the condition is assigned or passed to a Move function, and the conjunction over the references made of it from the next instruction on |
| `Detector4.KeptNotWritten` | src/scanner/detects/detect4.rs:133-164 | a range that keeps the condition contains no assignment to it and no Move call taking it |
| `Detector4.UntouchedKept` | src/scanner/detects/detect4.rs:133-164 | a range in which no instruction writes, copies or passes the condition keeps it |
| `Detector4.BodyBlock` | src/scanner/detects/detect4.rs:83-93 | every block of a sub-loop has a content, ends inside the code and has a successor list |
| `Detector4.BodiesOkSub` | src/scanner/detects/detect4.rs:64-68 | sub-loops taken from well-formed natural loops are well formed |
| `Detector4.BodySuccessors` | src/scanner/detects/detect4.rs:73-75 | every block of the union of the bodies has successors in the graph |
| `Detector4.Unions` | src/scanner/detects/detect4.rs:66-71 | the set built is the union of all the sub-loops' bodies |
| `Detector4.BodyBlocksSnoc` | src/scanner/detects/detect4.rs:68-71 | the union over one more sub-loop adds exactly that sub-loop's body |
| `Detector4.Branchs` | src/scanner/detects/detect4.rs:73-80 | the set built is exactly the blocks of the union with a successor outside it |
| `Detector4.CollectConditions` | src/scanner/detects/detect4.rs:82-100 | a temporary is collected exactly when it is the copy-traced condition of the branch ending some exit block of some sub-loop |
| `Detector4.BlockKeepsAll` | src/scanner/detects/detect4.rs:104-108 | true exactly when the block keeps every collected condition |
| `Detector4.AllKeep` | src/scanner/detects/detect4.rs:102-110 | true exactly when every block of every sub-loop keeps every collected condition |
| `Detector4.FatLoopKept` | src/scanner/detects/detect4.rs:64-110 | the steps for one fat loop compute exactly whether all of its blocks keep all of its exit conditions |
| `Detector4.GroupsOk` | src/scanner/detects/detect4.rs:55-58 | the sub-loops grouped by header are within the graph, and the branches' conditions have data-dependency nodes |
| `Detector4.FatLoopsOf` | src/move_ir/fatloop.rs:201-258 | the fat loops read by the detector have the headers of the natural loops as keys, each holding exactly that header's natural loops |
| `Detector4.DetectInfiniteLoop` | src/scanner/detects/detect4.rs:49-118 | the name is returned exactly when the function has a fat loop and every fat loop keeps its exit conditions in every block |
| `Detector4.NoLoopsNotFlagged` | src/scanner/detects/detect4.rs:59-63 | a function without natural loops is never reported |
| `Detector5.VisitConstants` | src/scanner/detects/detect5.rs:38-56 | the flag of a pool constant is set exactly when some definition with a body loads it |
| `Detector5.UsedByNext` | src/scanner/detects/detect5.rs:43-55 | a constant is used by one more definition exactly when it was already used or that definition's body loads it |
| `Detector5.DetectUnusedConstants` | src/scanner/detects/detect5.rs:38-69 | the result is the renderings of the never-loaded constants in pool order |
| `Detector5.UnusedSpec` | src/scanner/detects/detect5.rs:57-65 | a rendering is reported exactly when some constant with that rendering is loaded by no definition |
| `Detector5.AllUsedReportsNothing` | src/scanner/detects/detect5.rs:57-65 | a pool whose constants are all loaded yields no report |
| `Detector5.NativesLoadNothing` | src/scanner/detects/detect5.rs:44-55 | definitions without code load no constant |
| `Detector6.GetUnusedFunctions` | src/scanner/detects/detect6.rs:64-83 | the result lists, in node-table order, exactly the functions whose call-graph node has no incoming edge |
| `Detector6.UncalledSpec` | src/scanner/detects/detect6.rs:69-81 | a function is listed exactly when some node-table entry for it has no caller |
| `Detector6.DetectUnusedPrivateFunctions` | src/scanner/detects/detect6.rs:42-63 | every uncalled function has a definition, and the names returned are those of the uncalled functions that are private, not entry functions and not named `init…`, in order |
| `Detector6.PrivateNamesSpec` | src/scanner/detects/detect6.rs:48-61 | a name is kept exactly when some listed function of that name has a reportable definition |
| `Detector6.ReportedSpec` | src/scanner/detects/detect6.rs:42-83 | a name is reported exactly when a function of that name has no caller and is private, not an entry function and not named `init…` |
| `Detector7.CastTarget` | src/scanner/detects/detect7.rs:53-90 | an operation has a target type exactly when it is one of the six casts, and that type is an unsigned integer |
| `Detector7.DetectUnnecessaryTypeConversion` | src/scanner/detects/detect7.rs:43-102 | the name is returned exactly when some cast's operand already has the cast's target type, and nothing otherwise |
| `Detector8.DetectUnnecessaryBoolJudgment` | src/scanner/detects/detect8.rs:43-111 | the name is returned exactly when some `==` or `!=` has one operand defined by a boolean literal and the other defined with a boolean result, and nothing otherwise |
| `Detector8.LiteralAgainstBoolSymmetric` | src/scanner/detects/detect8.rs:57-58 | the operand test gives the same answer with the operands swapped |
| `Detector8.TwoLiterals` | src/scanner/detects/detect8.rs:77-111 | comparing two boolean literals is reported exactly when one of the literals' temporaries is typed boolean |
| `Detector9.DetectRecursiveFunctionCall` | src/scanner/detects/detect9.rs:39-66 | the name is returned exactly when some call names a function of the module itself (module index 0) with the function's own name |
| `Detector10.Pushed` | src/scanner/detects/detect10.rs:86-95 | the successors pushed are those not on the path, each once, and every successor ends up on the path or pushed |
| `Detector10.PushedKeepsPathDistinct` | src/scanner/detects/detect10.rs:86-95 | pushing keeps the path free of repetitions |
| `Detector10.PushSuccessors` | src/scanner/detects/detect10.rs:86-95 | the stack and the path both grow by exactly the pushed successors |
| `Detector10.GrowsKeeps` | src/scanner/detects/detect10.rs:66 | temporaries once known equal stay equal as the sets grow |
| `Detector10.Grown` | src/scanner/detects/detect10.rs:120-127 | inserting into the sets holding the source keeps their number |
| `Detector10.JoinedLinks` | src/scanner/detects/detect10.rs:188-209 | after an assignment or reference the destination and source are known equal, and every earlier set only grows |
| `Detector10.JoinedOnlyLinksDst` | src/scanner/detects/detect10.rs:188-209 | the update relates no pair of temporaries other than through the destination |
| `Detector10.InsertWhere` | src/scanner/detects/detect10.rs:120-127 | the destination is inserted into exactly the sets holding the source, and the flag tells whether one did |
| `Detector10.JoinOrCreate` | src/scanner/detects/detect10.rs:118-135 | the sets become the join of destination and source, a new pair set when none held the source |
| `Detector10.FieldRecords` | src/scanner/detects/detect10.rs:147-161 | a flag once set stays set, and when set the result is recorded with the borrowed field of a temporary equal to the struct |
| `Detector10.BorrowFieldStep` | src/scanner/detects/detect10.rs:141-183 | the sets only grow and the result is recorded with the borrowed field, of the struct itself or of a temporary equal to it |
| `Detector10.BlockCallsSpec` | src/scanner/detects/detect10.rs:99-108 | every recorded call is a Move call of the block's range |
| `Detector10.LinkedGrows` | src/scanner/detects/detect10.rs:66 | the equalities recorded for a range survive further growth of the sets |
| `Detector10.GrowsTrans` | src/scanner/detects/detect10.rs:66 | growth of the sets is transitive |
| `Detector10.ScanInstr` | src/scanner/detects/detect10.rs:103-211 | one instruction only grows the sets and leaves its assignment or reference recorded in them |
| `Detector10.ScanBlock` | src/scanner/detects/detect10.rs:98-215 | a Basic block's Move calls are recorded in code order, for `lower..=upper`, and every equality it makes is in the grown sets |
| `Detector10.SameCallEqualArgs` | src/scanner/detects/detect10.rs:247-262 | two calls not told apart pass, position by position, equal arguments wherever the first argument is tracked |
| `Detector10.UntrackedArgsAgree` | src/scanner/detects/detect10.rs:252-261 | arguments no set tracks are never told apart, so `f(x)` and `f(y)` count as the same call |
| `Detector10.FindDiff` | src/scanner/detects/detect10.rs:243-262 | the calls differ exactly when module or type arguments differ or some set holds one paired argument but not the other |
| `Detector10.CheckBlock` | src/scanner/detects/detect10.rs:225-267 | the report only grows, never repeats a callee, and every callee added is repeated among the recorded calls |
| `Detector10.CheckRepeats` | src/scanner/detects/detect10.rs:218-268 | the report of an exit block extends the earlier one without repetition by callees repeated among the recorded calls |
| `Detector10.Unwind` | src/scanner/detects/detect10.rs:282-290 | the path is cut back to the stack's top, which is not among the popped blocks, and exactly the popped blocks' calls are forgotten; nothing changes when the stack is empty |
| `Detector10.RepeatedTwoCalls` | src/scanner/detects/detect10.rs:264-266 | a callee repeated among the recorded calls is called at two sites of the function |
| `Detector10.SiteIsCall` | src/scanner/detects/detect10.rs:104-108 | a recorded site is a Move call of the code |
| `Detector10.RecordedMinus` | src/scanner/detects/detect10.rs:288 | forgetting blocks keeps the other blocks' recorded calls |
| `Detector10.Visit` | src/scanner/detects/detect10.rs:84-292 | one block visit keeps the stack within the graph, the path and the report free of repetitions, and every reported callee called at two sites; the report only grows |
| `Detector10.DetectRepeatedFunctionCall` | src/scanner/detects/detect10.rs:57-299 | None when nothing is repeated; otherwise a non-empty list without repetitions of callees each called at two sites of the function |
| `LegacyDetect.CallPopped` | src/detect/detect.rs:22-40 | the check of one call is true exactly when it has results and each is destroyed, last result first, by the instructions right after it |
| `LegacyDetect.DetectUncheckedReturn` | src/detect/detect.rs:16-49 | true exactly when some Move call's results are all popped right after it |
| `LegacyDetect.NoResultsNotFlagged` | src/detect/detect.rs:23 | a call without results is never flagged |
| `LegacyDetect.GetUnusedFunctions` | src/detect/detect.rs:52-65 | the result lists, in graph-table order, the functions outside the dependency modules whose node has no incoming edge |
| `LegacyDetect.UnusedSpec` | src/detect/detect.rs:54-63 | a function is listed exactly when it has a graph entry outside the dependency modules without a caller |
| `LegacyDetect.DetectUnusedPrivateFunctions` | src/detect/detect.rs:67-80 | the result is the private functions among the unused ones, in order |
| `LegacyDetect.PrivateSpec` | src/detect/detect.rs:70-77 | a function is kept exactly when it is listed and private |
| `LegacyDetect.ReportedSpec` | src/detect/detect.rs:52-80 | a function is reported exactly when it is private, outside the dependency modules and has no caller |
| `LegacyDetect.UsedRow` | src/detect/detect.rs:87-104 | the row has one flag per pool constant, set exactly when some definition with a body loads the constant |
| `LegacyDetect.DetectUnusedConstants` | src/detect/detect.rs:82-107 | the rows printed are the used-flag rows of the non-dependency modules, in module order |
| `LegacyDetect.ModuleRow` | src/detect/detect.rs:88-104 | the visit of one module computes exactly its used-flag row |
| `LegacyDetect.UsedRowsPrinted` | src/detect/detect.rs:83-105 | every non-dependency module's row is printed |
| `LegacyDetect.DepModulesSilent` | src/detect/detect.rs:84-86 | dependency modules print nothing |
| `LegacyDetect1.DetectUncheckedReturn` | src/detect/detect1.rs:13-50 | true exactly when some Move call with results is followed, within as many instructions as it has results and inside the code, by a destroy |
| `LegacyDetect2.OperandIndex` | src/detect/detect2.rs:123-158 | the offset settled on is the nearest offset in 1..t whose first result is the operand, and 0 when there is none; every offset passed over does not define it |
| `LegacyDetect2.GetOprandBytecode` | src/detect/detect2.rs:123-158 | the scan down from `offset - 1` returns the instruction at the offset `OperandIndex` names |
| `LegacyDetect2.ConstBits` | src/detect/detect2.rs:20-57 | a literal has a width exactly when it is an unsigned integer, and the width is that of its type |
| `LegacyDetect2.LeadingZerosMeansOverflow` | src/detect/detect2.rs:24 | for a positive literal of `w` bits, fewer leading zeros than the shift amount holds exactly when shifting it reaches 2^w |
| `LegacyDetect2.ExamineShl` | src/detect/detect2.rs:15-114 | the verdict on one shift is the reporting rule: a non-literal amount, a literal that loses bits in its own width, an assigned operand, a `%` whose modulus is not a literal or loses bits in 256 bits, or a cast to at most the operand width plus the amount |
| `LegacyDetect2.DetectOverflow` | src/detect/detect2.rs:11-121 | true exactly when some shift is reported; when false, no shift of the code is reported |
| `LegacyDetect2.LiteralShiftReported` | src/detect/detect2.rs:20-57 | a shift of a positive literal by a literal amount is reported exactly when the shifted value leaves the literal's type |
| `LegacyDetect3.DetectPrecisionLoss` | src/detect/detect3.rs:12-58 | true exactly when some multiplication has an operand defined by a division or a `sqrt` call |
| `LegacyDetect4.HeaderBody` | src/detect/detect4.rs:19-26 | a block is in the union exactly when it is in the body of some natural loop with that header |
| `LegacyDetect4.Unions` | src/detect/detect4.rs:19-26 | the loop over the natural loops builds exactly that union |
| `LegacyDetect4.ExitPasses` | src/detect/detect4.rs:36-65 | an exit block passes exactly when it is not a Basic block ending in a branch, or the branch's condition is constant |
| `LegacyDetect4.HeaderExitsConst` | src/detect/detect4.rs:17-66 | the check of one fat loop is true exactly when every exit block of its union passes |
| `LegacyDetect4.FatLoopHeaders` | src/detect/detect4.rs:13-17 | the headers iterated are exactly the fat loops' headers, none when there are no natural loops |
| `LegacyDetect4.DetectInfiniteLoop` | src/detect/detect4.rs:11-68 | true exactly when the function has fat loops and every exit branch of each tests a constant condition |
| `LegacyDetect4.NoLoopsNotReported` | src/detect/detect4.rs:16 | a function without loops is not reported |
| `LegacyDetect4.ExitConstNoParam` | src/detect/detect4.rs:51-59 | an exit block ending in a branch passes exactly when its condition's data dependency reaches no parameter |
| `LegacyDetect8.ExamineJudgment` | src/detect/detect8.rs:16-25 | the verdict on one test is true exactly when one operand is a boolean literal and the other has a boolean result |
| `LegacyDetect8.DetectUnnecessaryBoolJudgment` | src/detect/detect8.rs:12-32 | true exactly when some `==` or `!=` is unnecessary; when false, no test of the code is |

## Left out

- Process, build and file handling are not modelled: building the Move project, finding the bytecode directory, `main` of `import_to_neo4j.py`, `visit_dirs` and `build_compiled_modules`. Reading a module's source file is an input: the file's text, or its absence.
- The Neo4j driver, sessions and transactions are replaced by the in-memory `GraphImport.Store`. One import call updates it, so the single write unit of work holds by construction. The Cypher text and label interpolation are not modelled.
- `output_result` (`src/scanner/detectors.rs:63-92`) is not modelled: it writes JSON and prints the report. The same goes for the printing in `print_func_signature` (`src/move_ir/utils.rs:425-519`), `call_graph2str` and `display` of `src/move_ir/utils.rs`, `DataDepent::display` and the colour escapes of `PrettyResult`'s `Display`. The counts that `Display` prints are modelled (`ScanResult.PassCount`, `ScanResult.WrongCount`).
- The first analyser's `println!` output is returned rather than printed. `LegacyDetect.DetectUnusedConstants` returns the rows `src/detect/detect.rs:105` prints. `LegacyDetect1.DetectUncheckedReturn` returns only the yes-or-no answer, without printing the callee names.
- The Move binary format is not parsed. `CompiledModule`, its handle and signature tables, `SymbolPool`, `GlobalEnv` and the `TypeDisplayContext` are abstract inputs. The metadata an instruction reads is resolved into the instruction itself: argument and return counts, field counts and types, ids, type arguments and the translated constant. `get_field_info`, `get_type_params`, `get_fun_id_by_idx`, `get_struct_id_by_idx`, `get_type`, `get_module_handle_index_of_*` and `addr_to_big_uint` are those lookups, so they are inputs here too.
- The control-flow graph (`get_control_flow_graph`, `src/move_ir/generate_bytecode.rs:1583-1592`) and natural-loop discovery (`compute_reducible`, used at `src/move_ir/fatloop.rs:215-218`) are not computed. Block contents, successors and natural loops are inputs.
- The cross-module branch of `data_dependency` (`src/move_ir/data_dependency.rs:203-233`) is not modelled. That branch follows a callee in another module through `Packages` and reads its `Ret` nodes. A call's node is built from its own sources instead.
- 256-bit unsigned values are bounded `nat`s. The 32-bit truncation in the overflow test is written out (`Detector2.ShiftedWidth`).
- The order of hash-map iteration is not modelled; the maps are Dafny maps and sets. `Detector10` compares the recorded calls block by block, in an order the model does not fix. The call graph's edges are a set, because petgraph's edge order depends on interning indexes.
- Each scanner detector's `run` loop is not modelled: it goes over the registry, skips natives and pushes the per-function verdicts into its `DetectContent`. The per-function detections are modelled. `DetectorsRun.Detectors.Run` takes the eight contents as inputs, as `Detectors::run` receives them from the detectors. `Detector10`'s `format!` of `f(g,h)` is also left out.
- `BorrowNode_display` and `BorrowEdge_display` (`src/move_ir/bytecode_display.rs:45-62,436-508`) are not modelled: they render borrow-analysis nodes no part of the analyser produces. The renderings of `SaveMem`, `SaveSpecVar` and `Prop`, which the source leaves unwritten, print nothing.
- `src/detect/detect6.rs` is the filter `Detector6.DetectUnusedPrivateFunctions` states, returning ids instead of names. It is not modelled a second time.
- `pass_assign` and `get_const_u16`…`get_const_u256` of `src/detect/detect2.rs` are never called, so they are not modelled. The tests `is_ldconst`, `is_assign`, `is_call`, `get_const` and `get_const_u8` are written inline in `LegacyDetect2.ExamineShl`.
- `src/scanner/detector.rs`, `src/move_ir/sbir_generator.rs`, `src/move_ir/control_flow_graph.rs`, `src/scanner/printer.rs`, the command line and option parsing and the unit tests are not part of this model.
- Detector10.DetectRepeatedFunctionCall: the depth-first search is bounded by a `fuel` number of visited blocks, because the source's loop terminates only through its path bookkeeping. The contract states soundness only: every reported callee is reported once and is called at two sites of the function. It does not state that every repeated call on a path is found.
- LegacyDetect2.DetectOverflow and LegacyDetect8.DetectUnnecessaryBoolJudgment require only that every site the scan reaches before its first report can be examined without a panic. They say nothing about sites after that report.
- Exporter.FindDefinitionSpec: `\b` and `\s` of the definition pattern are the ASCII word and space characters (`IsWordChar`, `IsSpaceChar`). The regex crate's classes are Unicode, so a match next to a non-ASCII letter, digit or space can differ.
- Exporter.ExtractDefinition: positions count characters. The byte-offset slicing of the code as written is modelled separately (see Findings).
- FunctionGen.Generator.GenerateFunction: it uses the corrected fall-through labels (see Findings). The code as written is the concrete run `FunctionGen.FallthroughReuseAsWritten`.
- LegacyDetect.GetUnusedFunctions and LegacyDetect.DetectUnusedConstants: they recognise dependency modules with the corrected address test (see Findings).

## Findings

| source | as written | input that shows it | evidently intended | confidence | as-written member | corrected member |
|---|---|---|---|---|---|---|
| src/scanner/exporter.rs:165-196 | the end of a definition is found by enumerating characters; that character count is then added to a byte offset and used to slice the `&str` | `fun f(é);` (`é` takes two bytes): the cut ends one character early and loses the `;` | cut at the character that closes the definition | not executed | `Exporter.AsWrittenDropsTerminator` | `Exporter.DefinitionTextSpec` |
| src/move_ir/generate_bytecode.rs:216-236,392-418 | a label created for the fall-through after `BrTrue`/`BrFalse` stays recorded as fall-through even when a later `Branch` reuses it as its target; the branch rewrite then deletes that label | `[LdTrue, BrTrue(3), Branch(4), Branch(2), Ret]` translates to code with `Jump` to label 1 and no `Label 1` | delete only fall-through labels that no branch targets | not executed | `FunctionGen.FallthroughReuseAsWritten` | `FunctionGen.CorrectedFallthroughUnreferenced` |
| src/utils/utils.rs:27-38 | `is_dep_module` tests whether the full module name starts with `0x1` or `0x3` | `0x10::coin` counts as a dependency module | compare the module's address with the dependency addresses | not executed | `DepUtils.PrefixAcceptsOtherAddress` | `DepUtils.QualifiedNameAddress` |
