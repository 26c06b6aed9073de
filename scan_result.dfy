/** The scan report of `scanner/result.rs`: per-module detector findings and
  * function counts, the summary counts, and the pretty form that keeps only
  * the detectors that found something. The report's structs are owned values
  * stored inside maps, so they are datatypes here and their `&mut self`
  * methods return the updated value. */
module ScanResult {
  import Wrappers

  /** Whether a module could be analysed. */
  datatype Status = Success | Failed

  /** Whether a module passed the detectors (no finding) or not; the counts
    * `complete_result` records. */
  datatype ModuleStatus = Pass | Wrong

  datatype DetectorType =
    | UncheckedReturn | Overflow | PrecisionLoss | InfiniteLoop
    | UnnecessaryTypeConversion | UnnecessaryBoolJudgment
    | UnusedConstant | UnusedPrivateFunctions

  datatype FunctionType = All | Native

  /** The detector kinds in declaration order. */
  const DetectorTypes: seq<DetectorType> := [
    UncheckedReturn, Overflow, PrecisionLoss, InfiniteLoop,
    UnnecessaryTypeConversion, UnnecessaryBoolJudgment,
    UnusedConstant, UnusedPrivateFunctions]

  lemma DetectorTypesComplete()
    ensures forall d: DetectorType :: d in DetectorTypes
  {
    forall d: DetectorType ensures d in DetectorTypes {
      match d
      case UncheckedReturn => assert d == DetectorTypes[0];
      case Overflow => assert d == DetectorTypes[1];
      case PrecisionLoss => assert d == DetectorTypes[2];
      case InfiniteLoop => assert d == DetectorTypes[3];
      case UnnecessaryTypeConversion => assert d == DetectorTypes[4];
      case UnnecessaryBoolJudgment => assert d == DetectorTypes[5];
      case UnusedConstant => assert d == DetectorTypes[6];
      case UnusedPrivateFunctions => assert d == DetectorTypes[7];
    }
  }

  // ---------------------------------------------------------------------
  // Names

  /** `Display for DetectorType`, which prints the serde name of the kind. */
  function DetectorTypeText(d: DetectorType): (r: string)
    ensures |r| > 0
  {
    match d
    case UncheckedReturn => "unchecked_return"
    case Overflow => "overflow"
    case PrecisionLoss => "precision_loss"
    case InfiniteLoop => "infinite_loop"
    case UnnecessaryTypeConversion => "unnecessary_type_conversion"
    case UnnecessaryBoolJudgment => "unnecessary_bool_judgment"
    case UnusedConstant => "unused_constant"
    case UnusedPrivateFunctions => "unused_private_functions"
  }

  /** The serde deserialisation of a kind from its name. */
  function ParseDetectorType(s: string): Wrappers.Option<DetectorType>
  {
    if s == "unchecked_return" then Wrappers.Some(UncheckedReturn)
    else if s == "overflow" then Wrappers.Some(Overflow)
    else if s == "precision_loss" then Wrappers.Some(PrecisionLoss)
    else if s == "infinite_loop" then Wrappers.Some(InfiniteLoop)
    else if s == "unnecessary_type_conversion" then Wrappers.Some(UnnecessaryTypeConversion)
    else if s == "unnecessary_bool_judgment" then Wrappers.Some(UnnecessaryBoolJudgment)
    else if s == "unused_constant" then Wrappers.Some(UnusedConstant)
    else if s == "unused_private_functions" then Wrappers.Some(UnusedPrivateFunctions)
    else Wrappers.None
  }

  /** The printed name is the serde name: it reads back as the same kind,
    * and only printed names read back at all. */
  lemma DetectorTypeRoundTrip(d: DetectorType, s: string)
    ensures ParseDetectorType(DetectorTypeText(d)) == Wrappers.Some(d)
    ensures ParseDetectorType(s).Some? ==> DetectorTypeText(ParseDetectorType(s).value) == s
  {
  }

  /** Distinct kinds print differently. */
  lemma DetectorTypeTextInjective(a: DetectorType, b: DetectorType)
    requires DetectorTypeText(a) == DetectorTypeText(b)
    ensures a == b
  {
    DetectorTypeRoundTrip(a, "");
    DetectorTypeRoundTrip(b, "");
  }

  // ---------------------------------------------------------------------
  // ModuleInfo

  /** The findings of one module: detector kind to reported values, function
    * counts, the constant count, and the kinds each function was flagged by. */
  datatype ModuleInfo = ModuleInfo(
    time: nat,
    functionCount: map<FunctionType, nat>,
    constantCount: nat,
    detectors: map<DetectorType, seq<string>>,
    functions: map<string, seq<DetectorType>>)
  {
    /** `update_detectors`: the kind must have a list; one value is appended
      * to it and nothing else changes. */
    function UpdateDetectors(kind: DetectorType, value: string): (r: ModuleInfo)
      requires kind in detectors
      ensures r.detectors.Keys == detectors.Keys
      ensures r.detectors[kind] == detectors[kind] + [value]
      ensures forall k :: k in detectors && k != kind ==> r.detectors[k] == detectors[k]
      ensures r.time == time && r.functionCount == functionCount
      ensures r.constantCount == constantCount && r.functions == functions
    {
      this.(detectors := detectors[kind := detectors[kind] + [value]])
    }

    /** `updates_detectors`: the values are appended in order to that kind's
      * list and nothing else changes. */
    function UpdatesDetectors(kind: DetectorType, values: seq<string>): (r: ModuleInfo)
      requires kind in detectors
      ensures r.detectors.Keys == detectors.Keys
      ensures r.detectors[kind] == detectors[kind] + values
      ensures forall k :: k in detectors && k != kind ==> r.detectors[k] == detectors[k]
      ensures r.time == time && r.functionCount == functionCount
      ensures r.constantCount == constantCount && r.functions == functions
    {
      this.(detectors := detectors[kind := detectors[kind] + values])
    }

    /** `init_functions`: registers a function with no kinds unless it is
      * registered already, in which case nothing changes. */
    function InitFunctions(name: string): (r: ModuleInfo)
      ensures r.functions.Keys == functions.Keys + {name}
      ensures name in functions ==> r == this
      ensures name !in functions ==> r.functions[name] == []
      ensures forall f :: f in functions ==> r.functions[f] == functions[f]
      ensures r.detectors == detectors && r.functionCount == functionCount
    {
      if name !in functions then this.(functions := functions[name := []]) else this
    }

    /** `update_functions`: the function must be registered; the kind is
      * appended to its list. */
    function UpdateFunctions(name: string, kind: DetectorType): (r: ModuleInfo)
      requires name in functions
      ensures r.functions.Keys == functions.Keys
      ensures r.functions[name] == functions[name] + [kind]
      ensures forall f :: f in functions && f != name ==> r.functions[f] == functions[f]
      ensures r.detectors == detectors && r.functionCount == functionCount
    {
      this.(functions := functions[name := functions[name] + [kind]])
    }
  }

  /** Some detector reported something for the module. */
  predicate HasFinding(info: ModuleInfo)
  {
    exists k :: k in info.detectors && info.detectors[k] != []
  }

  /** `ModuleInfo::empty`: every kind has an empty list, both function counts
    * are 0 and no function is registered. */
  function EmptyModuleInfo(): (r: ModuleInfo)
    ensures forall k: DetectorType :: k in r.detectors && r.detectors[k] == []
    ensures r.functionCount.Keys == {All, Native}
    ensures r.functionCount[All] == 0 && r.functionCount[Native] == 0
    ensures r.constantCount == 0 && r.time == 0 && r.functions == map[]
    ensures !HasFinding(r)
  {
    DetectorTypesComplete();
    ModuleInfo(0, map[All := 0, Native := 0], 0, map k: DetectorType | k in DetectorTypes :: [], map[])
  }

  /** Registering a function twice is registering it once. */
  lemma InitFunctionsIdempotent(info: ModuleInfo, name: string)
    ensures info.InitFunctions(name).InitFunctions(name) == info.InitFunctions(name)
  {
  }

  /** Appending values one at a time is appending them all at once. */
  lemma {:induction false} UpdatesIsRepeatedUpdate(info: ModuleInfo, kind: DetectorType, values: seq<string>)
    requires kind in info.detectors
    ensures values != [] ==>
      info.UpdatesDetectors(kind, values)
        == info.UpdatesDetectors(kind, values[..|values| - 1]).UpdateDetectors(kind, values[|values| - 1])
    ensures values == [] ==> info.UpdatesDetectors(kind, values) == info
  {
    if values != [] {
      var front := values[..|values| - 1];
      assert values == front + [values[|values| - 1]];
      assert info.detectors[kind] + values == (info.detectors[kind] + front) + [values[|values| - 1]];
    } else {
      assert info.detectors[kind] + values == info.detectors[kind];
    }
  }

  // ---------------------------------------------------------------------
  // Result

  /** The whole scan report. `modulesStatus` holds the pass and wrong counts
    * `complete_result` computes. */
  datatype Result = Result(
    modulesCount: map<Status, nat>,
    totalTime: nat,
    modules: map<string, ModuleInfo>,
    modulesStatus: map<ModuleStatus, nat>)
  {
    /** `add_module`: a module of the same name is replaced. */
    function AddModule(name: string, info: ModuleInfo): (r: Result)
      ensures r.modules.Keys == modules.Keys + {name}
      ensures r.modules[name] == info
      ensures forall m :: m in modules && m != name ==> r.modules[m] == modules[m]
      ensures r.modulesCount == modulesCount && r.totalTime == totalTime && r.modulesStatus == modulesStatus
    {
      this.(modules := modules[name := info])
    }
  }

  /** `Result::empty`: no module analysed, succeeded, or failed yet. */
  function EmptyResult(): (r: Result)
    ensures r.modulesCount.Keys == {Success, Failed}
    ensures r.modulesCount[Success] == 0 && r.modulesCount[Failed] == 0
    ensures r.modules == map[] && r.totalTime == 0
  {
    Result(map[Success := 0, Failed := 0], 0, map[], map[])
  }

  // ---------------------------------------------------------------------
  // PrettyResult

  /** The report as printed: per module, only the kinds with findings. */
  datatype PrettyResult = PrettyResult(
    modulesCount: map<Status, nat>,
    totalTime: nat,
    modules: map<string, map<DetectorType, seq<string>>>)

  /** The non-empty lists of a detector map. */
  function Findings(d: map<DetectorType, seq<string>>): map<DetectorType, seq<string>>
  {
    map k | k in d && d[k] != [] :: d[k]
  }

  /** The modules with findings, each with its non-empty lists. */
  function PrettyModules(modules: map<string, ModuleInfo>): map<string, map<DetectorType, seq<string>>>
  {
    map m | m in modules && HasFinding(modules[m]) :: Findings(modules[m].detectors)
  }

  /** A module is printed exactly when some detector found something in it,
    * and it is printed with exactly its non-empty lists, unchanged. */
  lemma PrettyModulesSpec(modules: map<string, ModuleInfo>, m: string, k: DetectorType)
    ensures m in PrettyModules(modules) <==> m in modules && HasFinding(modules[m])
    ensures m in PrettyModules(modules) ==>
      (k in PrettyModules(modules)[m] <==> k in modules[m].detectors && modules[m].detectors[k] != [])
    ensures m in PrettyModules(modules) && k in PrettyModules(modules)[m] ==>
      PrettyModules(modules)[m][k] == modules[m].detectors[k]
  {
  }

  /** The findings of one module, gathered kind by kind. */
  method ModuleFindings(d: map<DetectorType, seq<string>>) returns (found: map<DetectorType, seq<string>>)
    ensures found == Findings(d)
  {
    found := map[];
    var rest := d.Keys;
    while rest != {}
      invariant rest <= d.Keys
      invariant found == map k | k in d && k !in rest && d[k] != [] :: d[k]
      decreases rest
    {
      var k :| k in rest;
      if d[k] != [] {
        found := found[k := d[k]];
      }
      rest := rest - {k};
    }
  }

  /** `PrettyResult::from`: counts and time are copied; each module with a
    * non-empty list is entered with its non-empty lists. */
  method PrettyFrom(result: Result) returns (p: PrettyResult)
    ensures p.modules == PrettyModules(result.modules)
    ensures p.modulesCount == result.modulesCount && p.totalTime == result.totalTime
  {
    var modules: map<string, map<DetectorType, seq<string>>> := map[];
    var rest := result.modules.Keys;
    while rest != {}
      invariant rest <= result.modules.Keys
      invariant modules == map m | m in result.modules && m !in rest && HasFinding(result.modules[m])
                             :: Findings(result.modules[m].detectors)
      decreases rest
    {
      var m :| m in rest;
      var found := ModuleFindings(result.modules[m].detectors);
      if found != map[] {
        assert HasFinding(result.modules[m]) by {
          var k :| k in found;
        }
        modules := modules[m := found];
      } else {
        assert forall k :: k in result.modules[m].detectors && result.modules[m].detectors[k] != [] ==> k in found;
      }
      rest := rest - {m};
    }
    p := PrettyResult(result.modulesCount, result.totalTime, modules);
  }

  /** The `pass` figure of the printed summary: analysed modules (succeeded
    * plus failed) minus the modules printed with findings. The unsigned
    * subtraction needs the printed modules not to outnumber them. */
  function PassCount(p: PrettyResult): (n: nat)
    requires Success in p.modulesCount && Failed in p.modulesCount
    requires p.modulesCount[Success] + p.modulesCount[Failed] >= |p.modules|
    ensures n + WrongCount(p) == p.modulesCount[Success] + p.modulesCount[Failed]
  {
    p.modulesCount[Success] + p.modulesCount[Failed] - |p.modules|
  }

  /** The `wrong` figure of the printed summary: the modules printed. */
  function WrongCount(p: PrettyResult): (n: nat)
    ensures n == |p.modules.Keys|
  {
    |p.modules|
  }
}
