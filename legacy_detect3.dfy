/** The precision-loss detector of the first analyser
  * (`src/detect/detect3.rs`): the same test as the scanner's, with a
  * yes-or-no answer. */
module LegacyDetect3 {
  import opened Stackless
  import BytecodeGen
  import opened Detection
  import Detector3

  /** `detect_precision_loss`: true exactly when some multiplication reads
    * the result of a division or of `sqrt`; the scan stops at the first. */
  method DetectPrecisionLoss(f: BytecodeGen.FunctionInfo) returns (r: bool)
    requires WellFormed(f) && OperandsDefined(f)
    ensures r <==> exists o :: 0 <= o < |f.code| && Detector3.LossyMul(f, o)
  {
    r := false;
    var o := 0;
    while o < |f.code| && !r
      invariant 0 <= o <= |f.code|
      invariant !r ==> forall p :: 0 <= p < o ==> !Detector3.LossyMul(f, p)
      invariant r ==> o > 0 && Detector3.LossyMul(f, o - 1)
    {
      var b := f.code[o];
      if b.Call? && b.op == Mul {
        var oprand1 := DefOf(f, b.srcs[0], o);
        var oprand2 := DefOf(f, b.srcs[1], o);
        if IsDiv(oprand1) || IsDiv(oprand2) || IsSqrt(oprand1) || IsSqrt(oprand2) {
          r := true;
        }
      }
      o := o + 1;
    }
  }
}
