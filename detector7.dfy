/** `Detector7`: casts of a value to the type it already has. */
module Detector7 {
  import opened Wrappers
  import opened Stackless
  import Packages
  import BytecodeGen
  import opened Detection

  /** The type a cast operation converts to. */
  function CastTarget(op: Operation): (r: Option<Type>)
    ensures r.Some? <==> op.CastU8? || op.CastU16? || op.CastU32? || op.CastU64? || op.CastU128? || op.CastU256?
    ensures r.Some? ==> UBits(r.value) > 0
  {
    match op
    case CastU8 => Some(Primitive(U8))
    case CastU16 => Some(Primitive(U16))
    case CastU32 => Some(Primitive(U32))
    case CastU64 => Some(Primitive(U64))
    case CastU128 => Some(Primitive(U128))
    case CastU256 => Some(Primitive(U256))
    case _ => None
  }

  /** A cast whose operand already has the target type. */
  predicate SameTypeCast(b: Bytecode, types: seq<Type>)
    requires CallShaped(b) && InstrTyped(b, |types|)
  {
    b.Call? && CastTarget(b.op).Some? && types[b.srcs[0]] == CastTarget(b.op).value
  }

  /** `detect_unnecessary_type_conversion`: the function's name when some
    * cast converts a value to its own type, stopping at the first one. */
  method DetectUnnecessaryTypeConversion(f: BytecodeGen.FunctionInfo, entry: Packages.ModuleEntry, idx: nat)
    returns (r: Option<string>)
    requires WellFormed(f) && idx < |entry.defs|
    ensures r.Some? <==> exists o :: 0 <= o < |f.code| && SameTypeCast(f.code[o], f.localTypes)
    ensures r.Some? ==> r.value == FunctionName(entry, idx)
  {
    var o := 0;
    while o < |f.code| && !SameTypeCast(f.code[o], f.localTypes)
      invariant 0 <= o <= |f.code|
      invariant forall p :: 0 <= p < o ==> !SameTypeCast(f.code[p], f.localTypes)
    {
      o := o + 1;
    }
    r := if o < |f.code| then Some(FunctionName(entry, idx)) else None;
  }
}
