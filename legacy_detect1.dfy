/** The unchecked-return detector of the first analyser
  * (`src/detect/detect1.rs`): the same window test as the scanner's, with
  * a yes-or-no answer. */
module LegacyDetect1 {
  import opened Stackless
  import BytecodeGen
  import Detector1

  /** `detect_unchecked_return`: true exactly when some call of a Move
    * function with results is followed, within as many instructions as it
    * has results, by a destroy. */
  method DetectUncheckedReturn(f: BytecodeGen.FunctionInfo) returns (b: bool)
    ensures b <==> exists o: nat, j: nat :: o < |f.code| && Detector1.DroppedResult(f.code, o, j)
  {
    var beCallFuncs := Detector1.DetectUncheckedReturn(f);
    b := beCallFuncs != [];
    if b {
      Detector1.DroppedSpec(f.code, |f.code|, beCallFuncs[0]);
    } else {
      forall o: nat, j: nat | o < |f.code| && Detector1.DroppedResult(f.code, o, j)
        ensures false
      {
        Detector1.DroppedSpec(f.code, |f.code|, f.code[o].op.fid);
      }
    }
  }
}
