/** `Detector6`: private functions nothing calls. */
module Detector6 {
  import opened Stackless
  import opened Text
  import opened Packages

  /** Some call-graph edge enters node `nid`. */
  predicate HasCaller(edges: set<(nat, nat)>, nid: nat)
  {
    exists e :: e in edges && e.1 == nid
  }

  /** The functions among the first `n` call-graph entries whose node has no
    * incoming edge, in entry order. */
  function UncalledUpTo(nodes: seq<(Qid, nat)>, edges: set<(nat, nat)>, n: nat): seq<Qid>
    requires n <= |nodes|
  {
    if n == 0 then []
    else UncalledUpTo(nodes, edges, n - 1) + (if HasCaller(edges, nodes[n - 1].1) then [] else [nodes[n - 1].0])
  }

  /** `get_unused_functions`: the functions whose call-graph node has no
    * incoming edge, in the order of the node table. */
  method GetUnusedFunctions(entry: ModuleEntry) returns (unused: seq<Qid>)
    ensures unused == UncalledUpTo(entry.funcToNode, entry.callEdges, |entry.funcToNode|)
  {
    unused := [];
    for i := 0 to |entry.funcToNode|
      invariant unused == UncalledUpTo(entry.funcToNode, entry.callEdges, i)
    {
      var (fid, nid) := entry.funcToNode[i];
      if !HasCaller(entry.callEdges, nid) {
        unused := unused + [fid];
      }
    }
  }

  /** The function has module data: a definition index within the module. */
  predicate Known(entry: ModuleEntry, q: Qid)
  {
    q.fun in entry.functionDefIdx && entry.functionDefIdx[q.fun] < |entry.defs|
  }

  /** A definition `detect_unused_private_functions` reports once unused:
    * private, not an entry function, and not named like an initialiser. */
  predicate Reportable(d: FunctionDef)
  {
    d.visibility == Private && !d.isEntry && !StartsWith(d.name, "init")
  }

  /** The names of the reportable functions among `qs[..n]`, in order. */
  function PrivateNamesUpTo(entry: ModuleEntry, qs: seq<Qid>, n: nat): seq<string>
    requires n <= |qs| && forall i :: 0 <= i < |qs| ==> Known(entry, qs[i])
  {
    if n == 0 then []
    else
      PrivateNamesUpTo(entry, qs, n - 1) +
      (if Reportable(entry.defs[entry.functionDefIdx[qs[n - 1].fun]]) then [qs[n - 1].fun] else [])
  }

  /** Every function without a caller has module data. */
  predicate UncalledKnown(entry: ModuleEntry)
  {
    forall i :: 0 <= i < |entry.funcToNode| && !HasCaller(entry.callEdges, entry.funcToNode[i].1) ==>
      Known(entry, entry.funcToNode[i].0)
  }

  lemma {:induction false} UncalledSpec(nodes: seq<(Qid, nat)>, edges: set<(nat, nat)>, n: nat, q: Qid)
    requires n <= |nodes|
    ensures q in UncalledUpTo(nodes, edges, n) <==>
      exists i :: 0 <= i < n && nodes[i].0 == q && !HasCaller(edges, nodes[i].1)
  {
    if n > 0 {
      UncalledSpec(nodes, edges, n - 1, q);
    }
  }

  /** `detect_unused_private_functions`: the names of the functions without
    * a caller that are private, not entry functions and not initialisers. */
  method DetectUnusedPrivateFunctions(entry: ModuleEntry) returns (names: seq<string>)
    requires UncalledKnown(entry)
    ensures var unused := UncalledUpTo(entry.funcToNode, entry.callEdges, |entry.funcToNode|);
            (forall i :: 0 <= i < |unused| ==> Known(entry, unused[i])) &&
            names == PrivateNamesUpTo(entry, unused, |unused|)
  {
    var unused := GetUnusedFunctions(entry);
    forall i | 0 <= i < |unused| ensures Known(entry, unused[i]) {
      UncalledSpec(entry.funcToNode, entry.callEdges, |entry.funcToNode|, unused[i]);
    }
    names := [];
    for i := 0 to |unused|
      invariant names == PrivateNamesUpTo(entry, unused, i)
    {
      var def := entry.defs[entry.functionDefIdx[unused[i].fun]];
      if def.visibility == Private && !def.isEntry && !StartsWith(def.name, "init") {
        names := names + [unused[i].fun];
      }
    }
  }

  lemma {:induction false} PrivateNamesSpec(entry: ModuleEntry, qs: seq<Qid>, n: nat, x: string)
    requires n <= |qs| && forall i :: 0 <= i < |qs| ==> Known(entry, qs[i])
    ensures x in PrivateNamesUpTo(entry, qs, n) <==>
      exists i :: 0 <= i < n && qs[i].fun == x && Reportable(entry.defs[entry.functionDefIdx[qs[i].fun]])
  {
    if n > 0 {
      PrivateNamesSpec(entry, qs, n - 1, x);
    }
  }

  /** A name is reported exactly when some function of that name has no
    * caller and its definition is reportable: so a public, friend or entry
    * function, or one whose name starts with `init`, never is. */
  lemma ReportedSpec(entry: ModuleEntry, x: string)
    requires UncalledKnown(entry)
    ensures var unused := UncalledUpTo(entry.funcToNode, entry.callEdges, |entry.funcToNode|);
            (forall i :: 0 <= i < |unused| ==> Known(entry, unused[i])) &&
            (x in PrivateNamesUpTo(entry, unused, |unused|) <==>
              exists i :: 0 <= i < |entry.funcToNode| && entry.funcToNode[i].0.fun == x &&
                !HasCaller(entry.callEdges, entry.funcToNode[i].1) &&
                Known(entry, entry.funcToNode[i].0) &&
                Reportable(entry.defs[entry.functionDefIdx[x]]))
  {
    var nodes := entry.funcToNode;
    var unused := UncalledUpTo(nodes, entry.callEdges, |nodes|);
    forall i | 0 <= i < |unused| ensures Known(entry, unused[i]) {
      UncalledSpec(nodes, entry.callEdges, |nodes|, unused[i]);
    }
    PrivateNamesSpec(entry, unused, |unused|, x);
    if x in PrivateNamesUpTo(entry, unused, |unused|) {
      var i :| 0 <= i < |unused| && unused[i].fun == x && Reportable(entry.defs[entry.functionDefIdx[unused[i].fun]]);
      UncalledSpec(nodes, entry.callEdges, |nodes|, unused[i]);
    }
    if exists i :: 0 <= i < |nodes| && nodes[i].0.fun == x && !HasCaller(entry.callEdges, nodes[i].1) &&
         Known(entry, nodes[i].0) && Reportable(entry.defs[entry.functionDefIdx[x]]) {
      var i :| 0 <= i < |nodes| && nodes[i].0.fun == x && !HasCaller(entry.callEdges, nodes[i].1) &&
         Known(entry, nodes[i].0) && Reportable(entry.defs[entry.functionDefIdx[x]]);
      UncalledSpec(nodes, entry.callEdges, |nodes|, nodes[i].0);
      var k :| 0 <= k < |unused| && unused[k] == nodes[i].0;
    }
  }
}
