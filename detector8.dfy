/** `Detector8`: comparisons of a boolean with a boolean literal. */
module Detector8 {
  import opened Wrappers
  import opened Stackless
  import Packages
  import BytecodeGen
  import opened Detection

  /** One operand is a boolean literal and the other a boolean result. */
  predicate LiteralAgainstBool(o1: Bytecode, o2: Bytecode, types: seq<Type>)
    requires RetReadable(o1, types) && RetReadable(o2, types)
  {
    (IsLdBool(o1) && RetIsBool(o2, types)) || (IsLdBool(o2) && RetIsBool(o1, types))
  }

  /** An equality or inequality at offset `o` whose operands, as found by
    * `get_def_bytecode`, are a boolean literal and a boolean. */
  predicate BoolJudgment(f: BytecodeGen.FunctionInfo, o: nat)
    requires o < |f.code| && WellFormed(f) && OperandsDefined(f)
  {
    var b := f.code[o];
    b.Call? && (b.op == Eq || b.op == Neq) &&
    var o1 := DefOf(f, b.srcs[0], o);
    var o2 := DefOf(f, b.srcs[1], o);
    DefReadable(f, b.srcs[0], o);
    DefReadable(f, b.srcs[1], o);
    LiteralAgainstBool(o1, o2, f.localTypes)
  }

  /** `detect_unnecessary_bool_judgment`: the function's name when some
    * comparison tests a boolean against a literal, stopping at the first. */
  method DetectUnnecessaryBoolJudgment(f: BytecodeGen.FunctionInfo, entry: Packages.ModuleEntry, idx: nat)
    returns (r: Option<string>)
    requires WellFormed(f) && OperandsDefined(f) && idx < |entry.defs|
    ensures r.Some? <==> exists o :: 0 <= o < |f.code| && BoolJudgment(f, o)
    ensures r.Some? ==> r.value == FunctionName(entry, idx)
  {
    var o := 0;
    while o < |f.code| && !BoolJudgment(f, o)
      invariant 0 <= o <= |f.code|
      invariant forall p :: 0 <= p < o ==> !BoolJudgment(f, p)
    {
      o := o + 1;
    }
    r := if o < |f.code| then Some(FunctionName(entry, idx)) else None;
  }

  /** The test is symmetric in the two operands. */
  lemma LiteralAgainstBoolSymmetric(o1: Bytecode, o2: Bytecode, types: seq<Type>)
    requires RetReadable(o1, types) && RetReadable(o2, types)
    ensures LiteralAgainstBool(o1, o2, types) <==> LiteralAgainstBool(o2, o1, types)
  {
  }

  /** Comparing two literals is reported only when the literals' temporaries
    * are typed boolean: a literal is a boolean result too. */
  lemma TwoLiterals(o1: Bytecode, o2: Bytecode, types: seq<Type>)
    requires RetReadable(o1, types) && RetReadable(o2, types)
    requires IsLdBool(o1) && IsLdBool(o2)
    ensures LiteralAgainstBool(o1, o2, types) <==> types[o1.ldst] == Primitive(Bool) || types[o2.ldst] == Primitive(Bool)
  {
  }
}
