/** `Detector9`: functions that call themselves. */
module Detector9 {
  import opened Wrappers
  import opened Stackless
  import Packages
  import BytecodeGen
  import opened Detection

  /** A call of a function of the module under analysis (module index 0)
    * with the given name. */
  predicate CallsSelf(b: Bytecode, name: string)
  {
    b.Call? && b.op.Function? && b.op.fid == name && b.op.mid == 0
  }

  /** `detect_recursive_function_call`: the name of the definition when the
    * function's code calls a function of its own module with its own name. */
  method DetectRecursiveFunctionCall(entry: Packages.ModuleEntry, idx: nat) returns (r: Option<string>)
    requires idx < |entry.functions| && idx < |entry.defs|
    ensures var f := entry.functions[idx];
            r.Some? <==> exists o :: 0 <= o < |f.code| && CallsSelf(f.code[o], f.name)
    ensures r.Some? ==> r.value == FunctionName(entry, idx)
  {
    var f := entry.functions[idx];
    var found := false;
    for o := 0 to |f.code|
      invariant found <==> exists p :: 0 <= p < o && CallsSelf(f.code[p], f.name)
    {
      if CallsSelf(f.code[o], f.name) {
        found := true;
      }
    }
    r := if found then Some(FunctionName(entry, idx)) else None;
  }
}
