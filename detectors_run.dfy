/** The scanner's driver (`scanner/detectors.rs`): the report is set up from
  * the loaded modules, the findings of detectors 1 to 8 are merged into it in
  * that order, and the pass and wrong module counts complete it. */
module DetectorsRun {
  import opened Wrappers
  import opened ScanResult
  import Packages
  import Detection

  /** The report list a detector kind's findings go to; the two call-graph
    * kinds have none. */
  function KindType(k: Detection.DetectKind): (r: Option<DetectorType>)
    ensures r.None? <==> k.RecursiveFunctionCall? || k.RepeatedFunctionCall?
    ensures r.Some? ==> DetectorTypeText(r.value) != ""
  {
    match k
    case UncheckedReturn => Some(DetectorType.UncheckedReturn)
    case Overflow => Some(DetectorType.Overflow)
    case PrecisionLoss => Some(DetectorType.PrecisionLoss)
    case InfiniteLoop => Some(DetectorType.InfiniteLoop)
    case UnusedConstant => Some(DetectorType.UnusedConstant)
    case UnusedPrivateFunctions => Some(DetectorType.UnusedPrivateFunctions)
    case UnnecessaryTypeConversion => Some(DetectorType.UnnecessaryTypeConversion)
    case UnnecessaryBoolJudgment => Some(DetectorType.UnnecessaryBoolJudgment)
    case RecursiveFunctionCall => None
    case RepeatedFunctionCall => None
  }

  /** The kinds of detectors 1 to 8, in the order `run` runs them. */
  const RunOrder: seq<Detection.DetectKind> := [
    Detection.UncheckedReturn, Detection.Overflow, Detection.PrecisionLoss, Detection.InfiniteLoop,
    Detection.UnusedConstant, Detection.UnusedPrivateFunctions,
    Detection.UnnecessaryTypeConversion, Detection.UnnecessaryBoolJudgment]

  /** Every kind `run` merges has a report list, and no two share one. */
  lemma RunOrderTyped()
    ensures forall i :: 0 <= i < |RunOrder| ==> KindType(RunOrder[i]).Some?
    ensures forall i, j :: 0 <= i < j < |RunOrder| ==> KindType(RunOrder[i]) != KindType(RunOrder[j])
  {
  }

  // ---------------------------------------------------------------------
  // init_result

  /** The number of native definitions among the first `n` functions. */
  function NativeCount(entry: Packages.ModuleEntry, n: nat): (c: nat)
    requires n <= |entry.defs|
    ensures c <= n
  {
    if n == 0 then 0 else NativeCount(entry, n - 1) + (if Detection.IsNative(entry, n - 1) then 1 else 0)
  }

  /** Each translated function has a definition. */
  predicate Countable(all: map<string, Packages.ModuleEntry>)
  {
    forall m :: m in all ==> |all[m].functions| <= |all[m].defs|
  }

  /** The initial entry of a module: no findings, its constant count, and
    * its function and native function counts. */
  function InitialInfo(entry: Packages.ModuleEntry): (info: ModuleInfo)
    requires |entry.functions| <= |entry.defs|
    ensures !HasFinding(info) && info.detectors == EmptyModuleInfo().detectors
    ensures info.constantCount == |entry.constants|
    ensures info.functionCount.Keys == {All, Native}
    ensures info.functionCount[All] == |entry.functions|
    ensures info.functionCount[Native] == NativeCount(entry, |entry.functions|) <= info.functionCount[All]
  {
    EmptyModuleInfo().(constantCount := |entry.constants|,
                       functionCount := map[All := |entry.functions|, Native := NativeCount(entry, |entry.functions|)])
  }

  /** The counting loop of `init_result` for one module. */
  method ModuleInfoOf(entry: Packages.ModuleEntry) returns (info: ModuleInfo)
    requires |entry.functions| <= |entry.defs|
    ensures info == InitialInfo(entry)
  {
    info := EmptyModuleInfo();
    info := info.(constantCount := |entry.constants|);
    info := info.(functionCount := info.functionCount[All := |entry.functions|]);
    for idx := 0 to |entry.functions|
      invariant info == EmptyModuleInfo().(constantCount := |entry.constants|,
                          functionCount := map[All := |entry.functions|, Native := NativeCount(entry, idx)])
    {
      if Detection.IsNative(entry, idx) {
        info := info.(functionCount := info.functionCount[Native := info.functionCount[Native] + 1]);
      }
    }
  }

  // ---------------------------------------------------------------------
  // merge_result

  /** Every module with findings is in the report and has a list for
    * `kind`. */
  predicate Fits(modules: map<string, ModuleInfo>, kind: DetectorType, found: map<string, seq<string>>)
  {
    forall m :: m in found ==> m in modules && kind in modules[m].detectors
  }

  /** The modules after merging the findings of the modules in `done`
    * into the list of `kind`. */
  function MergedPart(modules: map<string, ModuleInfo>, kind: DetectorType, found: map<string, seq<string>>, done: set<string>): map<string, ModuleInfo>
    requires Fits(modules, kind, found)
  {
    map m | m in modules :: if m in found && m in done then modules[m].UpdatesDetectors(kind, found[m]) else modules[m]
  }

  /** The modules after merging `found` into the list of `kind`: each named
    * module's list is extended by its findings in order. */
  function Merged(modules: map<string, ModuleInfo>, kind: DetectorType, found: map<string, seq<string>>): (r: map<string, ModuleInfo>)
    requires Fits(modules, kind, found)
    ensures r.Keys == modules.Keys
    ensures forall m :: m in found ==> r[m] == modules[m].UpdatesDetectors(kind, found[m])
    ensures forall m :: m in modules && m !in found ==> r[m] == modules[m]
  {
    MergedPart(modules, kind, found, found.Keys)
  }

  /** Merging no module's findings changes nothing. */
  lemma MergedNone(modules: map<string, ModuleInfo>, kind: DetectorType, found: map<string, seq<string>>)
    requires Fits(modules, kind, found)
    ensures MergedPart(modules, kind, found, {}) == modules
  {
    var a := MergedPart(modules, kind, found, {});
    assert a.Keys == modules.Keys;
  }

  lemma MergedStep(modules: map<string, ModuleInfo>, kind: DetectorType, found: map<string, seq<string>>, done: set<string>, x: string)
    requires Fits(modules, kind, found)
    requires x in found && x !in done
    ensures MergedPart(modules, kind, found, done + {x}) ==
            MergedPart(modules, kind, found, done)[x := modules[x].UpdatesDetectors(kind, found[x])]
  {
    var a := MergedPart(modules, kind, found, done + {x});
    var b := MergedPart(modules, kind, found, done)[x := modules[x].UpdatesDetectors(kind, found[x])];
    assert a.Keys == b.Keys;
    forall m | m in a ensures a[m] == b[m] {
    }
  }

  /** The findings each push onto the list of `kind`, one after another. */
  method PushAll(info: ModuleInfo, kind: DetectorType, values: seq<string>) returns (r: ModuleInfo)
    requires kind in info.detectors
    ensures r == info.UpdatesDetectors(kind, values)
  {
    r := info;
    UpdatesIsRepeatedUpdate(info, kind, []);
    for i := 0 to |values|
      invariant r == info.UpdatesDetectors(kind, values[..i])
    {
      UpdatesIsRepeatedUpdate(info, kind, values[..i + 1]);
      assert values[..i + 1][..i] == values[..i];
      r := r.UpdateDetectors(kind, values[i]);
    }
    assert values[..|values|] == values;
  }

  /** Merging records every finding under its module and kind, in order,
    * and leaves every other list, and every module without findings,
    * unchanged. */
  lemma MergedSpec(modules: map<string, ModuleInfo>, kind: DetectorType, found: map<string, seq<string>>, m: string, k: DetectorType)
    requires forall n :: n in found ==> n in modules && kind in modules[n].detectors
    requires m in modules && k in modules[m].detectors
    ensures var r := Merged(modules, kind, found);
            k in r[m].detectors &&
            r[m].detectors[k] == modules[m].detectors[k] + (if k == kind && m in found then found[m] else [])
  {
  }

  // ---------------------------------------------------------------------
  // complete_result

  /** The modules with at least one finding. */
  function WrongModules(modules: map<string, ModuleInfo>): (r: set<string>)
    ensures r <= modules.Keys
    ensures forall m :: m in r <==> m in modules && HasFinding(modules[m])
  {
    set m | m in modules && HasFinding(modules[m])
  }

  /** The pass test of one module: every list empty. */
  method ModulePasses(info: ModuleInfo) returns (pass: bool)
    ensures pass <==> !HasFinding(info)
  {
    pass := true;
    var rest := info.detectors.Keys;
    while rest != {}
      invariant rest <= info.detectors.Keys
      invariant pass <==> forall k :: k in info.detectors && k !in rest ==> info.detectors[k] == []
      decreases rest
    {
      var k :| k in rest;
      if info.detectors[k] != [] {
        pass := false;
      }
      rest := rest - {k};
    }
  }

  /** The count of modules with findings. */
  method CountWrong(modules: map<string, ModuleInfo>) returns (wrong: nat)
    ensures wrong == |WrongModules(modules)|
  {
    wrong := 0;
    var rest := modules.Keys;
    ghost var counted: set<string> := {};
    while rest != {}
      invariant rest <= modules.Keys
      invariant counted == set m | m in modules && m !in rest && HasFinding(modules[m])
      invariant wrong == |counted|
      decreases rest
    {
      var m :| m in rest;
      var pass := ModulePasses(modules[m]);
      if !pass {
        assert m !in counted;
        counted := counted + {m};
        wrong := wrong + 1;
      }
      rest := rest - {m};
    }
    assert counted == WrongModules(modules);
  }

  /** The summary counts: pass modules are those without findings, and
    * pass plus wrong is the number of modules. */
  lemma {:induction false} CountsPartition(modules: map<string, ModuleInfo>)
    ensures |WrongModules(modules)| <= |modules|
    ensures |modules| - |WrongModules(modules)| == |modules.Keys - WrongModules(modules)|
  {
    var w := WrongModules(modules);
    assert modules.Keys == (modules.Keys - w) + w;
    assert (modules.Keys - w) * w == {};
  }

  /** The count of modules without findings. */
  function PassModules(modules: map<string, ModuleInfo>): (n: nat)
    ensures n + |WrongModules(modules)| == |modules|
    ensures n == |modules.Keys - WrongModules(modules)|
  {
    CountsPartition(modules);
    |modules| - |WrongModules(modules)|
  }

  /** A report whose modules all pass has no wrong module. */
  lemma NoFindingNoWrong(modules: map<string, ModuleInfo>)
    requires forall m :: m in modules ==> !HasFinding(modules[m])
    ensures |WrongModules(modules)| == 0
  {
    assert WrongModules(modules) == {};
  }

  // ---------------------------------------------------------------------
  // Detectors

  /** `init` with an initial entry for each module of `done`. */
  function Added(init: map<string, ModuleInfo>, all: map<string, Packages.ModuleEntry>, done: set<string>): map<string, ModuleInfo>
    requires Countable(all) && done <= all.Keys
  {
    map m | m in init.Keys + done :: if m in done then InitialInfo(all[m]) else init[m]
  }

  /** Adding no module changes nothing. */
  lemma AddedNone(init: map<string, ModuleInfo>, all: map<string, Packages.ModuleEntry>)
    requires Countable(all)
    ensures Added(init, all, {}) == init
  {
    var a := Added(init, all, {});
    assert a.Keys == init.Keys;
  }

  lemma AddedStep(init: map<string, ModuleInfo>, all: map<string, Packages.ModuleEntry>, done: set<string>, x: string)
    requires Countable(all) && done <= all.Keys && x in all
    ensures Added(init, all, done + {x}) == Added(init, all, done)[x := InitialInfo(all[x])]
  {
    var a := Added(init, all, done + {x});
    var b := Added(init, all, done)[x := InitialInfo(all[x])];
    assert a.Keys == b.Keys;
    forall m | m in a ensures a[m] == b[m] {
      if m == x {
        assert a[m] == InitialInfo(all[x]);
      } else {
        assert a[m] == Added(init, all, done)[m];
      }
    }
  }

  /** The modules the report starts from: `init` plus an initial entry for
    * each loaded module. */
  function InitModules(init: map<string, ModuleInfo>, all: map<string, Packages.ModuleEntry>): (r: map<string, ModuleInfo>)
    requires Countable(all)
    ensures r.Keys == init.Keys + all.Keys
    ensures forall m :: m in all ==> r[m] == InitialInfo(all[m])
    ensures forall m :: m in init && m !in all ==> r[m] == init[m]
  {
    Added(init, all, all.Keys)
  }

  /** Each detector's findings name modules of the report, under a kind with
    * a list. */
  predicate Mergeable(modules: map<string, ModuleInfo>, content: Detection.DetectContent)
  {
    KindType(content.kind).Some? &&
    forall m :: m in content.result ==> m in modules && KindType(content.kind).value in modules[m].detectors
  }

  /** The modules after merging `contents[..n]` in order. */
  function MergedUpTo(modules: map<string, ModuleInfo>, contents: seq<Detection.DetectContent>, n: nat): (r: map<string, ModuleInfo>)
    requires n <= |contents|
    requires forall i :: 0 <= i < |contents| ==> Mergeable(modules, contents[i])
    ensures r.Keys == modules.Keys
    ensures forall m :: m in r ==> r[m].detectors.Keys == modules[m].detectors.Keys
  {
    if n == 0 then modules
    else
      var prev := MergedUpTo(modules, contents, n - 1);
      MergedKeeps(modules, prev, contents[n - 1]);
      Merged(prev, KindType(contents[n - 1].kind).value, contents[n - 1].result)
  }

  lemma MergedKeeps(modules: map<string, ModuleInfo>, prev: map<string, ModuleInfo>, content: Detection.DetectContent)
    requires Mergeable(modules, content)
    requires prev.Keys == modules.Keys && forall m :: m in prev ==> prev[m].detectors.Keys == modules[m].detectors.Keys
    ensures Mergeable(prev, content)
  {
  }

  /** Taking `x` out of the modules still to visit adds it to those
    * visited. */
  lemma TakeOne(all: set<string>, rest: set<string>, x: string)
    requires x in rest && rest <= all
    ensures all - (rest - {x}) == (all - rest) + {x}
  {
  }

  /** One step of `init_result`: the module's entry, counted and added. */
  method AddOne(ghost init: map<string, ModuleInfo>, all: map<string, Packages.ModuleEntry>,
                ghost done: set<string>, cur: map<string, ModuleInfo>, mname: string)
    returns (next: map<string, ModuleInfo>)
    requires Countable(all) && done <= all.Keys && mname in all
    requires cur == Added(init, all, done)
    ensures next == Added(init, all, done + {mname})
  {
    var info := ModuleInfoOf(all[mname]);
    AddedStep(init, all, done, mname);
    next := EmptyResult().(modules := cur).AddModule(mname, info).modules;
  }

  /** One step of `merge_result`: the findings of one module pushed onto
    * its list. */
  method MergeOne(ghost modules: map<string, ModuleInfo>, kind: DetectorType, found: map<string, seq<string>>,
                  ghost done: set<string>, cur: map<string, ModuleInfo>, mname: string)
    returns (next: map<string, ModuleInfo>)
    requires Fits(modules, kind, found)
    requires mname in found && mname !in done
    requires cur == MergedPart(modules, kind, found, done)
    ensures next == MergedPart(modules, kind, found, done + {mname})
  {
    var info := PushAll(cur[mname], kind, found[mname]);
    MergedStep(modules, kind, found, done, mname);
    next := cur[mname := info];
  }

  /** The loop of `merge_result` over the modules with findings. */
  method MergeFound(modules: map<string, ModuleInfo>, kind: DetectorType, found: map<string, seq<string>>)
    returns (r: map<string, ModuleInfo>)
    requires Fits(modules, kind, found)
    ensures r == MergedPart(modules, kind, found, found.Keys)
  {
    r := modules;
    var rest := found.Keys;
    ghost var done: set<string> := {};
    MergedNone(modules, kind, found);
    while rest != {}
      invariant rest <= found.Keys && done == found.Keys - rest
      invariant r == MergedPart(modules, kind, found, done)
      decreases rest
    {
      var mname :| mname in rest;
      r := MergeOne(modules, kind, found, done, r, mname);
      TakeOne(found.Keys, rest, mname);
      done := done + {mname};
      rest := rest - {mname};
    }
  }

  /** The loop of `init_result`: each loaded module's initial entry is
    * added to the report. */
  method AddAll(init: map<string, ModuleInfo>, all: map<string, Packages.ModuleEntry>) returns (modules: map<string, ModuleInfo>)
    requires Countable(all)
    ensures modules == Added(init, all, all.Keys)
  {
    modules := init;
    var rest := all.Keys;
    ghost var done: set<string> := {};
    AddedNone(init, all);
    while rest != {}
      invariant rest <= all.Keys && done == all.Keys - rest
      invariant modules == Added(init, all, done)
      decreases rest
    {
      var mname :| mname in rest;
      modules := AddOne(init, all, done, modules, mname);
      TakeOne(all.Keys, rest, mname);
      done := done + {mname};
      rest := rest - {mname};
    }
  }

  /** `Detectors`: the report being built. */
  class Detectors {
    var result: ScanResult.Result

    /** `Detectors::new`: an empty report. */
    constructor ()
      ensures result == EmptyResult()
    {
      result := EmptyResult();
    }

    /** `init_result`: an initial entry for every loaded module. */
    method InitResult(packages: Packages.Packages)
      requires Countable(packages.packages)
      modifies this
      ensures result == old(result).(modules := InitModules(old(result).modules, packages.packages))
    {
      var all := packages.GetAllStbgr();
      var modules := AddAll(result.modules, all);
      result := result.(modules := modules);
    }

    /** `merge_result`: the findings of one detector, appended module by
      * module to the report list of its kind; every named module must be
      * in the report. */
    method MergeResult(content: Detection.DetectContent)
      requires Mergeable(result.modules, content)
      modifies this
      ensures result == old(result).(modules := Merged(old(result).modules, KindType(content.kind).value, content.result))
    {
      var kind := KindType(content.kind).value;
      var modules := MergeFound(result.modules, kind, content.result);
      result := result.(modules := modules);
    }

    /** `complete_result`: the elapsed time, and the pass and wrong module
      * counts. */
    method CompleteResult(elapsed: nat)
      modifies this
      ensures result.modules == old(result).modules
      ensures result.totalTime == elapsed && result.modulesCount == old(result).modulesCount
      ensures result.modulesStatus == old(result).modulesStatus
        [Pass := PassModules(old(result).modules)]
        [Wrong := |WrongModules(old(result).modules)|]
    {
      result := result.(totalTime := elapsed);
      var moduleCount := |result.modules|;
      var wrongModuleCount := CountWrong(result.modules);
      CountsPartition(result.modules);
      assert moduleCount - wrongModuleCount == PassModules(result.modules);
      result := result.(modulesStatus := result.modulesStatus[Pass := moduleCount - wrongModuleCount]);
      result := result.(modulesStatus := result.modulesStatus[Wrong := wrongModuleCount]);
    }

    /** The loop of `run` over the detectors: each one's findings merged
      * right after it runs, in order. */
    method MergeAll(contents: seq<Detection.DetectContent>)
      requires forall i :: 0 <= i < |contents| ==> Mergeable(result.modules, contents[i])
      modifies this
      ensures result.modules == MergedUpTo(old(result).modules, contents, |contents|)
      ensures result.modulesCount == old(result).modulesCount && result.totalTime == old(result).totalTime
    {
      for i := 0 to |contents|
        invariant result.modules == MergedUpTo(old(result).modules, contents, i)
        invariant result.modulesCount == old(result).modulesCount && result.totalTime == old(result).totalTime
      {
        MergedKeeps(old(result).modules, result.modules, contents[i]);
        MergeResult(contents[i]);
      }
    }

    /** `run`: start the report from the loaded modules, merge the findings of
      * detectors 1 to 8 in order, then complete the counts. The detectors'
      * findings and the elapsed time are the inputs. */
    method Run(packages: Packages.Packages, contents: seq<Detection.DetectContent>, elapsed: nat)
      requires Countable(packages.packages)
      requires |contents| == |RunOrder| && forall i :: 0 <= i < |contents| ==> contents[i].kind == RunOrder[i]
      requires forall i :: 0 <= i < |contents| ==> Mergeable(InitModules(result.modules, packages.packages), contents[i])
      modifies this
      ensures var modules := MergedUpTo(InitModules(old(result).modules, packages.packages), contents, |contents|);
              result.modules == modules && result.totalTime == elapsed &&
              Pass in result.modulesStatus && Wrong in result.modulesStatus &&
              result.modulesStatus[Pass] + result.modulesStatus[Wrong] == |modules| &&
              result.modulesStatus[Wrong] == |WrongModules(modules)| &&
              result.modulesStatus[Pass] == PassModules(modules)
    {
      ghost var initial := InitModules(result.modules, packages.packages);
      InitResult(packages);
      assert result.modules == initial;
      MergeAll(contents);
      ghost var merged := result.modules;
      assert merged == MergedUpTo(initial, contents, |contents|);
      CompleteResult(elapsed);
      assert result.modules == merged;
      assert result.modulesStatus[Pass] == PassModules(merged) && result.modulesStatus[Wrong] == |WrongModules(merged)|;
    }
  }
}
