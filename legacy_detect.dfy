/** The whole-program detectors of the first analyser
  * (`src/detect/detect.rs`): unchecked call results over the code of a
  * scanned function, and unused functions and constants over every module a
  * `MoveScanner` loaded. */
module LegacyDetect {
  import opened Stackless
  import opened Packages
  import DepUtils
  import Detector5
  import Detector6

  // ---------------------------------------------------------------------
  // detect_unchecked_return

  /** `b` destroys the temporary `t`. */
  predicate Pops(b: Bytecode, t: nat)
  {
    b.Call? && b.op == Destroy && |b.srcs| >= 1 && b.srcs[0] == t
  }

  /** The call at `o` has results and they are destroyed right after it,
    * the last result first: for each i, the instruction `r - i` places
    * after the call destroys result i. */
  predicate PopsResults(code: seq<Bytecode>, o: nat)
  {
    o < |code| && code[o].Call? && code[o].op.Function? && |code[o].dsts| >= 1 &&
    o + |code[o].dsts| < |code| &&
    forall i :: 0 <= i < |code[o].dsts| ==> Pops(code[o + |code[o].dsts| - i], code[o].dsts[i])
  }

  /** What the check reads exists: the instruction as many places after a
    * call as it has results, and the operand of every destroy. */
  predicate PopsReadable(code: seq<Bytecode>)
  {
    (forall o :: 0 <= o < |code| && code[o].Call? && code[o].op.Function? && |code[o].dsts| >= 1 ==>
       o + |code[o].dsts| < |code|) &&
    (forall o :: 0 <= o < |code| && code[o].Call? && code[o].op == Destroy ==> |code[o].srcs| >= 1)
  }

  /** The check of the call at `o`, stopping at the first result not popped
    * in place. */
  method CallPopped(code: seq<Bytecode>, o: nat) returns (flag: bool)
    requires PopsReadable(code) && o < |code| && code[o].Call? && code[o].op.Function?
    ensures flag == PopsResults(code, o)
  {
    var dsts := code[o].dsts;
    var retCnt := |dsts|;
    flag := retCnt != 0;
    var id := 0;
    while id < retCnt && flag
      invariant 0 <= id <= retCnt
      invariant flag <==> retCnt != 0 && forall i :: 0 <= i < id ==> Pops(code[o + retCnt - i], dsts[i])
    {
      var b := code[o + retCnt - id];
      assert b.Call? && b.op == Destroy ==> |b.srcs| >= 1;
      if !(b.Call? && b.op == Destroy && b.srcs[0] == dsts[id]) {
        assert !Pops(code[o + retCnt - id], dsts[id]);
        flag := false;
      }
      id := id + 1;
    }
  }

  /** `detect_unchecked_return`: true exactly when some call's results are
    * all popped right after it. */
  method DetectUncheckedReturn(code: seq<Bytecode>) returns (r: bool)
    requires PopsReadable(code)
    ensures r <==> exists o :: 0 <= o < |code| && PopsResults(code, o)
  {
    var res: seq<bool> := [];
    for o := 0 to |code|
      invariant (true in res) <==> exists p :: 0 <= p < o && PopsResults(code, p)
    {
      if code[o].Call? && code[o].op.Function? {
        var flag := CallPopped(code, o);
        res := res + [flag];
      }
    }
    r := true in res;
  }

  /** A call without results is never flagged. */
  lemma NoResultsNotFlagged(code: seq<Bytecode>, o: nat)
    requires o < |code| && code[o].Call? && |code[o].dsts| == 0
    ensures !PopsResults(code, o)
  {
  }

  // ---------------------------------------------------------------------
  // The scanner's modules

  /** A module the scanner loaded: its full name, its function definitions
    * and the size of its constant pool. */
  datatype ScannedModule = ScannedModule(fullName: string, defs: seq<FunctionDef>, poolSize: nat)

  /** `MoveScanner`, as these detectors read it: the loaded modules, the
    * call-graph node of every function in key order, the call edges, and
    * the visibility of every function. */
  datatype MoveScanner = MoveScanner(
    modules: seq<ScannedModule>,
    funMap: seq<(Qid, nat)>,
    callEdges: set<(nat, nat)>,
    visibility: map<Qid, Visibility>)

  /** The function's module is loaded. */
  predicate InLoadedModule(ms: MoveScanner, q: Qid)
  {
    q.moduleIdx < |ms.modules|
  }

  /** The function is in a dependency module. */
  predicate InDep(ms: MoveScanner, q: Qid)
    requires InLoadedModule(ms, q)
  {
    DepUtils.IsDepAddress(ms.modules[q.moduleIdx].fullName)
  }

  /** Every function of the call graph is in a loaded module. */
  predicate GraphKnown(ms: MoveScanner)
  {
    forall i :: 0 <= i < |ms.funMap| ==> InLoadedModule(ms, ms.funMap[i].0)
  }

  /** The functions among the first `n` graph entries outside the dependency
    * modules that have no caller, in key order. */
  function UnusedUpTo(ms: MoveScanner, n: nat): seq<Qid>
    requires GraphKnown(ms) && n <= |ms.funMap|
  {
    if n == 0 then []
    else
      var (fid, nid) := ms.funMap[n - 1];
      UnusedUpTo(ms, n - 1) + (if InDep(ms, fid) || Detector6.HasCaller(ms.callEdges, nid) then [] else [fid])
  }

  /** `get_unused_functions`: the functions of the loaded non-dependency
    * modules whose call-graph node has no incoming edge. */
  method GetUnusedFunctions(ms: MoveScanner) returns (unused: seq<Qid>)
    requires GraphKnown(ms)
    ensures unused == UnusedUpTo(ms, |ms.funMap|)
  {
    unused := [];
    for i := 0 to |ms.funMap|
      invariant unused == UnusedUpTo(ms, i)
    {
      var (fid, nid) := ms.funMap[i];
      if DepUtils.IsDepAddress(ms.modules[fid.moduleIdx].fullName) {
        continue;
      }
      if !Detector6.HasCaller(ms.callEdges, nid) {
        unused := unused + [fid];
      }
    }
  }

  /** A function is listed exactly when it has a graph entry outside the
    * dependency modules with no incoming edge. */
  lemma {:induction false} UnusedSpec(ms: MoveScanner, n: nat, q: Qid)
    requires GraphKnown(ms) && n <= |ms.funMap|
    ensures q in UnusedUpTo(ms, n) <==>
      exists i :: 0 <= i < n && ms.funMap[i].0 == q && !InDep(ms, q) && !Detector6.HasCaller(ms.callEdges, ms.funMap[i].1)
  {
    if n > 0 {
      UnusedSpec(ms, n - 1, q);
    }
  }

  /** Every unused function has a recorded visibility. */
  predicate UnusedKnown(ms: MoveScanner)
    requires GraphKnown(ms)
  {
    forall i :: 0 <= i < |UnusedUpTo(ms, |ms.funMap|)| ==> UnusedUpTo(ms, |ms.funMap|)[i] in ms.visibility
  }

  /** The private functions among `qs[..n]`, in order. */
  function PrivateUpTo(ms: MoveScanner, qs: seq<Qid>, n: nat): seq<Qid>
    requires n <= |qs| && forall i :: 0 <= i < |qs| ==> qs[i] in ms.visibility
  {
    if n == 0 then []
    else PrivateUpTo(ms, qs, n - 1) + (if ms.visibility[qs[n - 1]] == Private then [qs[n - 1]] else [])
  }

  /** `detect_unused_private_functions`: the unused functions that are
    * private, in the order `get_unused_functions` lists them. */
  method DetectUnusedPrivateFunctions(ms: MoveScanner) returns (r: seq<Qid>)
    requires GraphKnown(ms) && UnusedKnown(ms)
    ensures r == PrivateUpTo(ms, UnusedUpTo(ms, |ms.funMap|), |UnusedUpTo(ms, |ms.funMap|)|)
  {
    var unused := GetUnusedFunctions(ms);
    r := [];
    for i := 0 to |unused|
      invariant r == PrivateUpTo(ms, unused, i)
    {
      var fun := unused[i];
      if ms.visibility[fun] == Private {
        r := r + [fun];
      }
    }
  }

  /** A function is reported exactly when it is unused, outside the
    * dependency modules, and private. */
  lemma {:induction false} PrivateSpec(ms: MoveScanner, qs: seq<Qid>, n: nat, q: Qid)
    requires n <= |qs| && forall i :: 0 <= i < |qs| ==> qs[i] in ms.visibility
    ensures q in PrivateUpTo(ms, qs, n) <==> q in qs[..n] && ms.visibility[q] == Private
  {
    if n > 0 {
      PrivateSpec(ms, qs, n - 1, q);
      assert qs[..n] == qs[..n - 1] + [qs[n - 1]];
    }
  }

  /** The whole report: private unused functions of the non-dependency
    * modules, and nothing else. */
  lemma ReportedSpec(ms: MoveScanner, q: Qid)
    requires GraphKnown(ms) && UnusedKnown(ms)
    ensures var unused := UnusedUpTo(ms, |ms.funMap|);
            q in PrivateUpTo(ms, unused, |unused|) <==>
              q in ms.visibility && ms.visibility[q] == Private &&
              exists i :: 0 <= i < |ms.funMap| && ms.funMap[i].0 == q && !InDep(ms, q) &&
                !Detector6.HasCaller(ms.callEdges, ms.funMap[i].1)
  {
    var unused := UnusedUpTo(ms, |ms.funMap|);
    PrivateSpec(ms, unused, |unused|, q);
    UnusedSpec(ms, |ms.funMap|, q);
    assert unused[..|unused|] == unused;
  }

  // ---------------------------------------------------------------------
  // detect_unused_constants

  /** The used flags of a module: flag `c` is set when some function with a
    * body loads constant `c`. */
  function UsedRow(m: ScannedModule): (row: seq<bool>)
    ensures |row| == m.poolSize
    ensures forall c :: 0 <= c < m.poolSize ==> (row[c] <==> Detector5.UsedBy(m.defs, |m.defs|, c))
  {
    seq(m.poolSize, c requires 0 <= c < m.poolSize => Detector5.UsedBy(m.defs, |m.defs|, c))
  }

  /** The rows the detector prints for `modules[..n]`: one per
    * non-dependency module, in module order. */
  function UsedRows(modules: seq<ScannedModule>, n: nat): seq<seq<bool>>
    requires n <= |modules|
  {
    if n == 0 then []
    else UsedRows(modules, n - 1) + (if DepUtils.IsDepAddress(modules[n - 1].fullName) then [] else [UsedRow(modules[n - 1])])
  }

  /** Every constant a function of a non-dependency module loads is in its
    * pool. */
  predicate PoolsCover(modules: seq<ScannedModule>)
  {
    forall k :: 0 <= k < |modules| && !DepUtils.IsDepAddress(modules[k].fullName) ==>
      Detector5.LoadsWithin(modules[k].defs, modules[k].poolSize)
  }

  /** `detect_unused_constants`: the used flags printed for every
    * non-dependency module. */
  method DetectUnusedConstants(ms: MoveScanner) returns (rows: seq<seq<bool>>)
    requires PoolsCover(ms.modules)
    ensures rows == UsedRows(ms.modules, |ms.modules|)
  {
    rows := [];
    for k := 0 to |ms.modules|
      invariant rows == UsedRows(ms.modules, k)
    {
      var m := ms.modules[k];
      if DepUtils.IsDepAddress(m.fullName) {
        continue;
      }
      var row := ModuleRow(m);
      rows := rows + [row];
    }
  }

  /** The used flags of one module, from the constant visit. */
  method ModuleRow(m: ScannedModule) returns (row: seq<bool>)
    requires Detector5.LoadsWithin(m.defs, m.poolSize)
    ensures row == UsedRow(m)
  {
    var used := Detector5.VisitConstants(m.defs, m.poolSize);
    row := used[..];
    assert |row| == m.poolSize;
    assert forall c :: 0 <= c < m.poolSize ==> row[c] == UsedRow(m)[c];
  }

  /** Every non-dependency module's row is printed. */
  lemma {:induction false} UsedRowsPrinted(modules: seq<ScannedModule>, n: nat, k: nat)
    requires k < n <= |modules| && !DepUtils.IsDepAddress(modules[k].fullName)
    ensures UsedRow(modules[k]) in UsedRows(modules, n)
  {
    var rows := UsedRows(modules, n);
    if k < n - 1 {
      UsedRowsPrinted(modules, n - 1, k);
      var prev := UsedRows(modules, n - 1);
      var j :| 0 <= j < |prev| && prev[j] == UsedRow(modules[k]);
      assert rows[j] == prev[j];
    } else {
      assert rows[|rows| - 1] == UsedRow(modules[k]);
    }
  }

  /** Dependency modules add no row. */
  lemma {:induction false} DepModulesSilent(modules: seq<ScannedModule>, n: nat)
    requires n <= |modules|
    requires forall k :: 0 <= k < n ==> DepUtils.IsDepAddress(modules[k].fullName)
    ensures UsedRows(modules, n) == []
  {
    if n > 0 {
      DepModulesSilent(modules, n - 1);
    }
  }
}
