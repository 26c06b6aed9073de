/** `Detector3`: multiplications of a value that already lost precision. */
module Detector3 {
  import opened Wrappers
  import opened Stackless
  import Packages
  import BytecodeGen
  import opened Detection

  /** An operand produced by a division or a square root. */
  predicate Lossy(b: Bytecode)
  {
    IsDiv(b) || IsSqrt(b)
  }

  /** A multiplication at offset `o` one of whose operands, as found by
    * `get_def_bytecode`, is lossy. */
  predicate LossyMul(f: BytecodeGen.FunctionInfo, o: nat)
    requires o < |f.code| && WellFormed(f) && OperandsDefined(f)
  {
    var b := f.code[o];
    b.Call? && b.op == Mul && (Lossy(DefOf(f, b.srcs[0], o)) || Lossy(DefOf(f, b.srcs[1], o)))
  }

  /** `detect_precision_loss`: the function's name when some multiplication
    * reads the result of a division or of `sqrt`, stopping at the first. */
  method DetectPrecisionLoss(f: BytecodeGen.FunctionInfo, entry: Packages.ModuleEntry, idx: nat)
    returns (r: Option<string>)
    requires WellFormed(f) && OperandsDefined(f) && idx < |entry.defs|
    ensures r.Some? <==> exists o :: 0 <= o < |f.code| && LossyMul(f, o)
    ensures r.Some? ==> r.value == FunctionName(entry, idx)
  {
    var o := 0;
    while o < |f.code| && !LossyMul(f, o)
      invariant 0 <= o <= |f.code|
      invariant forall p :: 0 <= p < o ==> !LossyMul(f, p)
    {
      o := o + 1;
    }
    r := if o < |f.code| then Some(FunctionName(entry, idx)) else None;
  }

  /** A multiplication of a quotient is reported even when the quotient's
    * operands were defined long before, as long as the division is the
    * operand's only definition. */
  lemma QuotientTimesIsLossy(f: BytecodeGen.FunctionInfo, o: nat)
    requires o < |f.code| && WellFormed(f) && OperandsDefined(f)
    requires f.code[o].Call? && f.code[o].op == Mul
    requires |f.defAttrid[f.code[o].srcs[0]]| == 1 && IsDiv(f.code[f.defAttrid[f.code[o].srcs[0]][0]])
    ensures LossyMul(f, o)
  {
  }
}
