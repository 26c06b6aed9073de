/** Small helpers of `utils/utils.rs`: recognising dependency modules by their
  * address, and choosing the transformation pipeline of a test directory. */
module DepUtils {
  import opened Text
  import opened Wrappers

  /** The addresses of the framework modules every package depends on. */
  const DepAddresses: seq<string> := ["0x1", "0x3"]

  // ---------------------------------------------------------------------
  // is_dep_module as written: a prefix test on the full module name

  /** Some dependency address is a prefix of the full name `addr::name`. */
  predicate DepByPrefix(fullName: string)
  {
    exists i :: 0 <= i < |DepAddresses| && StartsWith(fullName, DepAddresses[i])
  }

  /** `is_dep_module`: scans the dependency addresses and stops at the first
    * one the full name starts with. */
  method IsDepModule(fullName: string) returns (isDep: bool)
    ensures isDep <==> DepByPrefix(fullName)
  {
    isDep := false;
    var i := 0;
    while i < |DepAddresses|
      invariant 0 <= i <= |DepAddresses|
      invariant !isDep ==> forall j :: 0 <= j < i ==> !StartsWith(fullName, DepAddresses[j])
      invariant isDep ==> DepByPrefix(fullName)
    {
      if StartsWith(fullName, DepAddresses[i]) {
        isDep := true;
        break;
      }
      i := i + 1;
    }
  }

  // ---------------------------------------------------------------------
  // The address part of a full module name

  /** The text before the first `::`, or the whole name without one. */
  function ModuleAddress(fullName: string): (r: string)
    ensures StartsWith(fullName, r)
    ensures forall j :: 0 <= j && j + 2 <= |r| ==> !OccursAt(fullName, "::", j)
    ensures r != fullName ==> OccursAt(fullName, "::", |r|)
  {
    var k := FindFrom(fullName, "::", 0);
    if k == -1 then fullName else fullName[..k]
  }

  /** The intended test: the module's address is one of the dependency
    * addresses. */
  predicate IsDepAddress(fullName: string)
  {
    ModuleAddress(fullName) in DepAddresses
  }

  /** The address test is a refinement of the prefix test: every module it
    * accepts, the prefix test accepts too. */
  lemma AddressImpliesPrefix(fullName: string)
    ensures IsDepAddress(fullName) ==> DepByPrefix(fullName)
  {
    if IsDepAddress(fullName) {
      var a := ModuleAddress(fullName);
      if a == "0x1" {
        assert StartsWith(fullName, DepAddresses[0]);
      } else {
        assert StartsWith(fullName, DepAddresses[1]);
      }
    }
  }

  /** No `::` starts at j where the next two characters are not both colons. */
  lemma NoSeparatorAt(s: string, j: nat)
    requires j + 2 <= |s| && (s[j] != ':' || s[j + 1] != ':')
    ensures !OccursAt(s, "::", j)
  {
    assert s[j..j + 2] == [s[j], s[j + 1]];
  }

  /** `::` starts at j where the next two characters are colons. */
  lemma SeparatorAt(s: string, j: nat)
    requires j + 2 <= |s| && s[j] == ':' && s[j + 1] == ':'
    ensures OccursAt(s, "::", j)
  {
    assert s[j..j + 2] == [s[j], s[j + 1]];
  }

  /** The prefix test accepts a module at address `0x10` as a dependency,
    * although its address is not a dependency address. */
  lemma PrefixAcceptsOtherAddress()
    ensures DepByPrefix("0x10::coin")
    ensures ModuleAddress("0x10::coin") == "0x10"
    ensures !IsDepAddress("0x10::coin")
  {
    var s := "0x10::coin";
    assert s[..3] == "0x1";
    assert StartsWith(s, DepAddresses[0]);
    SeparatorAt(s, 4);
    NoSeparatorAt(s, 0); NoSeparatorAt(s, 1); NoSeparatorAt(s, 2); NoSeparatorAt(s, 3);
    assert FindFrom(s, "::", 0) == 4;
    assert ModuleAddress(s) == s[..4];
  }

  /** The corrected test reads the address a qualified name was built from:
    * `addr::name` with a colon-free `addr` is a dependency module exactly
    * when `addr` is one of the dependency addresses, whatever `name` is. */
  lemma QualifiedNameAddress(addr: string, name: string)
    requires ':' !in addr
    ensures ModuleAddress(addr + "::" + name) == addr
    ensures IsDepAddress(addr + "::" + name) <==> addr in DepAddresses
  {
    var s := addr + "::" + name;
    SeparatorAt(s, |addr|);
    var k := FindFrom(s, "::", 0);
    assert k != -1 && k <= |addr|;
    assert s[..k] == addr;
  }

  /** A framework module is recognised by its address. */
  lemma FrameworkModuleIsDep()
    ensures IsDepAddress("0x1::vector")
    ensures IsDepAddress("0x3::sui_system")
  {
    var s := "0x1::vector";
    SeparatorAt(s, 3);
    NoSeparatorAt(s, 0); NoSeparatorAt(s, 1); NoSeparatorAt(s, 2);
    assert FindFrom(s, "::", 0) == 3;
    assert ModuleAddress(s) == s[..3] == DepAddresses[0];
    var t := "0x3::sui_system";
    SeparatorAt(t, 3);
    NoSeparatorAt(t, 0); NoSeparatorAt(t, 1); NoSeparatorAt(t, 2);
    assert FindFrom(t, "::", 0) == 3;
    assert ModuleAddress(t) == t[..3] == DepAddresses[1];
  }

  // ---------------------------------------------------------------------
  // get_tested_transformation_pipeline

  /** The function-target processors a test pipeline can hold. */
  datatype Processor = UsageProcessor

  /** `FunctionTargetPipeline`: processors run in order; the default one is
    * empty. */
  datatype Pipeline = Pipeline(processors: seq<Processor>)

  /** `get_tested_transformation_pipeline`: "from_move" tests the bytecode as
    * generated, "usage_analysis" runs the usage analysis, any other directory
    * is an error naming it. */
  function GetTestedTransformationPipeline(dirName: string): (r: Result<Option<Pipeline>>)
    ensures dirName == "from_move" <==> r == Success(None)
    ensures dirName == "usage_analysis" <==> r.Success? && r.value.Some?
    ensures r.Success? && r.value.Some? ==> r.value.value.processors == [UsageProcessor]
    ensures r.Failure? <==> dirName != "from_move" && dirName != "usage_analysis"
    ensures r.Failure? ==> r.error == "the sub-directory `" + dirName + "` has no associated pipeline to test"
  {
    if dirName == "from_move" then Success(None)
    else if dirName == "usage_analysis" then Success(Some(Pipeline([UsageProcessor])))
    else Failure("the sub-directory `" + dirName + "` has no associated pipeline to test")
  }
}
