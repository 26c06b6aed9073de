/** The unnecessary-boolean-judgment detector of the first analyser
  * (`src/detect/detect8.rs`): an equality test between a boolean literal and
  * a boolean value, with operands found by the backward operand scan. */
module LegacyDetect8 {
  import opened Stackless
  import BytecodeGen
  import opened Detection
  import opened LegacyDetect2

  /** An equality or inequality test at offset `o`. */
  predicate JudgmentSite(code: seq<Bytecode>, o: nat)
  {
    o < |code| && code[o].Call? && (code[o].op == Eq || code[o].op == Neq)
  }

  /** The first operand's definition, scanned from `o - 2`. */
  function Left(code: seq<Bytecode>, o: nat): Bytecode
    requires JudgmentSite(code, o) && |code[o].srcs| >= 2 && o >= 2 && ScanOk(code, o - 2, code[o].srcs[0])
  {
    code[OperandIndex(code, o - 2, code[o].srcs[0])]
  }

  /** The second operand's definition, scanned from `o - 1`. */
  function Right(code: seq<Bytecode>, o: nat): Bytecode
    requires JudgmentSite(code, o) && |code[o].srcs| >= 2 && o >= 1 && ScanOk(code, o - 1, code[o].srcs[1])
  {
    code[OperandIndex(code, o - 1, code[o].srcs[1])]
  }

  /** The test at `o` can be examined without a panic: it has two operands
    * and is not among the first two instructions, both scans stay in range,
    * and the result type of an operand is declared whenever the other
    * operand is a boolean literal, which is when it is read. */
  predicate JudgmentReadable(code: seq<Bytecode>, types: seq<Type>, o: nat)
    requires JudgmentSite(code, o)
  {
    |code[o].srcs| >= 2 && o >= 2 &&
    ScanOk(code, o - 2, code[o].srcs[0]) && ScanOk(code, o - 1, code[o].srcs[1]) &&
    (IsLdBool(Left(code, o)) ==> RetReadable(Right(code, o), types)) &&
    (IsLdBool(Right(code, o)) ==> RetReadable(Left(code, o), types))
  }

  /** The test compares a boolean literal with a boolean result, in either
    * order. */
  predicate Unnecessary(code: seq<Bytecode>, types: seq<Type>, o: nat)
    requires JudgmentSite(code, o) && JudgmentReadable(code, types, o)
  {
    (IsLdBool(Left(code, o)) && RetIsBool(Right(code, o), types)) ||
    (IsLdBool(Right(code, o)) && RetIsBool(Left(code, o), types))
  }

  /** Every test before offset `o` can be examined and is not reported. */
  predicate ClearBefore(code: seq<Bytecode>, types: seq<Type>, o: nat)
  {
    forall p :: 0 <= p < o && JudgmentSite(code, p) ==> JudgmentReadable(code, types, p) && !Unnecessary(code, types, p)
  }

  /** The tests the detector reaches, those before the first report, can be
    * examined. */
  predicate JudgmentsReadable(code: seq<Bytecode>, types: seq<Type>)
  {
    forall o :: 0 <= o < |code| && JudgmentSite(code, o) && ClearBefore(code, types, o) ==> JudgmentReadable(code, types, o)
  }

  /** The examination of the test at `o`, with its operand scans. */
  method ExamineJudgment(code: seq<Bytecode>, types: seq<Type>, o: nat) returns (hit: bool)
    requires JudgmentSite(code, o) && JudgmentReadable(code, types, o)
    ensures hit == Unnecessary(code, types, o)
  {
    var srcs := code[o].srcs;
    var oprand1 := GetOprandBytecode(code, o - 1, srcs[0]);
    var oprand2 := GetOprandBytecode(code, o, srcs[1]);
    hit := (IsLdBool(oprand1) && RetIsBool(oprand2, types)) || (IsLdBool(oprand2) && RetIsBool(oprand1, types));
  }

  /** `detect_unnecessary_bool_judgment`: true exactly when some test is
    * unnecessary; the scan stops at the first. */
  method DetectUnnecessaryBoolJudgment(f: BytecodeGen.FunctionInfo, types: seq<Type>) returns (r: bool)
    requires JudgmentsReadable(f.code, types)
    ensures r <==> exists o :: JudgmentSite(f.code, o) && JudgmentReadable(f.code, types, o) && Unnecessary(f.code, types, o)
    ensures !r ==> ClearBefore(f.code, types, |f.code|)
  {
    var code := f.code;
    for o := 0 to |code|
      invariant ClearBefore(code, types, o)
    {
      if code[o].Call? && (code[o].op == Eq || code[o].op == Neq) {
        var hit := ExamineJudgment(code, types, o);
        if hit {
          return true;
        }
      }
    }
    return false;
  }
}
