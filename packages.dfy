/** The registry of translated modules, keyed by module name. */
module Packages {
  import opened Wrappers
  import Stackless
  import BytecodeGen
  import FatLoops
  import DataDependency

  /** The visibility of a function definition. */
  datatype Visibility = Private | Public | Friend

  /** A stack-bytecode instruction of a definition, as far as the analyses
    * read it: a load of a pool constant by index, or anything else. */
  datatype StackInstr = LdConst(constIdx: nat) | OtherInstr

  /** A function definition of the compiled module: its name, whether it is
    * native, its visibility, whether it is an entry function, and its stack
    * bytecode when it has a body. */
  datatype FunctionDef = FunctionDef(
    name: string, isNative: bool, visibility: Visibility, isEntry: bool,
    code: Option<seq<StackInstr>>)

  /** The control-flow graph of a translated function: the entry block, each
    * block's content and its successors. */
  datatype Cfg = Cfg(entry: nat, content: map<nat, FatLoops.BlockContent>, successors: map<nat, seq<nat>>)

  /** A module's generator (`StacklessBytecodeGenerator`) as the registry
    * and the detectors read it:
    * - its name and its definition-index to function-id table, in
    *   ascending index order;
    * - its translated functions, with the control-flow graph, natural loops
    *   and dependency map of each, in definition order;
    * - its function definitions and the debug rendering of each constant
    *   of its pool;
    * - the definition index of each function id;
    * - the call graph: the node of each function in key order, and the
    *   edges between nodes. */
  datatype ModuleEntry = ModuleEntry(
    name: string,
    functionIdxToId: seq<(nat, string)>,
    functions: seq<BytecodeGen.FunctionInfo>,
    cfgs: seq<Cfg>,
    naturalLoops: seq<seq<FatLoops.NaturalLoop>>,
    dataDependency: seq<map<nat, DataDependency.Node>>,
    defs: seq<FunctionDef>,
    constants: seq<string>,
    functionDefIdx: map<string, nat>,
    funcToNode: seq<(Stackless.Qid, nat)>,
    callEdges: set<(nat, nat)>)

  /** The entries of an ordered map: strictly ascending keys. */
  predicate Ascending(table: seq<(nat, string)>)
  {
    forall i, j :: 0 <= i < j < |table| ==> table[i].0 < table[j].0
  }

  /** The definition index `get_function` settles on: that of the first
    * table entry whose id is `fid`, 0 when there is none. */
  function FunctionIndex(table: seq<(nat, string)>, fid: string): nat
    decreases |table|
  {
    if table == [] then 0
    else if table[0].1 == fid then table[0].0
    else FunctionIndex(table[1..], fid)
  }

  /** The index is that of the first entry with id `fid`, and 0 when no
    * entry has it. */
  lemma {:induction false} FunctionIndexSpec(table: seq<(nat, string)>, fid: string)
    ensures (forall i :: 0 <= i < |table| ==> table[i].1 != fid) ==> FunctionIndex(table, fid) == 0
    ensures forall k :: 0 <= k < |table| && table[k].1 == fid && (forall j :: 0 <= j < k ==> table[j].1 != fid) ==>
      FunctionIndex(table, fid) == table[k].0
    decreases |table|
  {
    if table != [] {
      var rest := table[1..];
      FunctionIndexSpec(rest, fid);
      assert forall i :: 1 <= i < |table| ==> table[i] == rest[i - 1];
      forall k | 1 <= k < |table| && table[k].1 == fid && (forall j :: 0 <= j < k ==> table[j].1 != fid)
        ensures FunctionIndex(table, fid) == table[k].0
      {
        assert forall j :: 0 <= j < k - 1 ==> rest[j].1 != fid by {
          forall j | 0 <= j < k - 1 ensures rest[j].1 != fid {
            assert rest[j] == table[j + 1];
          }
        }
      }
    }
  }

  /** With ascending keys, as in the ordered map the source iterates, the
    * index is the least definition index mapped to `fid`. */
  lemma {:induction false} FunctionIndexLeast(table: seq<(nat, string)>, fid: string)
    requires Ascending(table)
    ensures forall i :: 0 <= i < |table| && table[i].1 == fid ==> FunctionIndex(table, fid) <= table[i].0
    decreases |table|
  {
    if table != [] && table[0].1 != fid {
      var rest := table[1..];
      FunctionIndexLeast(rest, fid);
      forall i | 0 <= i < |table| && table[i].1 == fid ensures FunctionIndex(table, fid) <= table[i].0 {
        assert table[i] == rest[i - 1];
      }
    }
  }

  /** `Packages`: the generators of the loaded modules by module name. */
  class Packages {
    var packages: map<string, ModuleEntry>

    /** `Packages::new`: no modules. */
    constructor ()
      ensures packages == map[]
    {
      packages := map[];
    }

    /** `insert_stbgr`: registers a module under its name, replacing any
      * module registered under the same name. */
    method InsertStbgr(stbgr: ModuleEntry)
      modifies this
      ensures packages == old(packages)[stbgr.name := stbgr]
    {
      packages := packages[stbgr.name := stbgr];
    }

    /** `get_all_stbgr`: every registered module. */
    function GetAllStbgr(): (r: map<string, ModuleEntry>)
      reads this
      ensures forall m :: m in r <==> m in packages
      ensures forall m :: m in r ==> r[m] == packages[m] && r[m] == GetStbgrByMname(m).value
    {
      packages
    }

    /** `get_stbgr_by_mname`: the module registered under the name, None
      * when there is none. */
    function GetStbgrByMname(mname: string): (r: Option<ModuleEntry>)
      reads this
      ensures r.None? <==> mname !in packages
      ensures r.Some? ==> r.value == packages[mname]
    {
      if mname in packages then Some(packages[mname]) else None
    }

    /** `get_function`: the registered module must exist, and the function
      * at the definition index of `fid` must exist in it. */
    method GetFunction(mname: string, fid: string) returns (f: BytecodeGen.FunctionInfo)
      requires mname in packages
      requires FunctionIndex(packages[mname].functionIdxToId, fid) < |packages[mname].functions|
      ensures f == packages[mname].functions[FunctionIndex(packages[mname].functionIdxToId, fid)]
    {
      var stbgr := GetStbgrByMname(mname).value;
      var table := stbgr.functionIdxToId;
      var idx := 0;
      var i := 0;
      while i < |table|
        invariant 0 <= i <= |table|
        invariant FunctionIndex(table, fid) == FunctionIndex(table[i..], fid)
        invariant idx == 0
      {
        if fid == table[i].1 {
          assert table[i..][0] == table[i];
          idx := table[i].0;
          break;
        }
        assert table[i..][1..] == table[i + 1..];
        i := i + 1;
      }
      f := stbgr.functions[idx];
    }
  }
}
