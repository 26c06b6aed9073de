/** The overflow detector of the first analyser (`src/detect/detect2.rs`):
  * left shifts whose operands, found by a backward scan of the code, may
  * push bits out of the result's type. Its operand scan
  * (`get_oprand_bytecode`) is shared with the boolean-judgment detector. */
module LegacyDetect2 {
  import opened Wrappers
  import opened Stackless
  import BytecodeGen
  import DataDependency
  import Detector2
  import Detector7

  // ---------------------------------------------------------------------
  // get_oprand_bytecode

  /** The scan reads the first result of a call, so a call it passes has
    * one. */
  predicate Readable(b: Bytecode)
  {
    b.Call? ==> |b.dsts| > 0
  }

  /** The instruction's first result is the temporary `src`. */
  predicate DefinesFirst(b: Bytecode, src: nat)
    requires Readable(b)
  {
    match b
    case Call(_, dsts, _, _, _) => dsts[0] == src
    case Assign(_, dst, _, _) => dst == src
    case Load(_, dst, _) => dst == src
    case _ => false
  }

  /** The backward scan from offset `t` stays within the code and reads
    * only calls with results, down to the definition of `src` or to
    * offset 0. */
  predicate ScanOk(code: seq<Bytecode>, t: nat, src: nat)
    decreases t
  {
    t < |code| && (t == 0 || (Readable(code[t]) && (DefinesFirst(code[t], src) || ScanOk(code, t - 1, src))))
  }

  /** The offset the scan from `t` settles on: the nearest offset in
    * [1, t] whose first result is `src`, and 0 when there is none. */
  function OperandIndex(code: seq<Bytecode>, t: nat, src: nat): (k: nat)
    requires ScanOk(code, t, src)
    ensures k <= t < |code|
    ensures k > 0 ==> Readable(code[k]) && DefinesFirst(code[k], src)
    ensures forall j :: k < j <= t ==> Readable(code[j]) && !DefinesFirst(code[j], src)
    decreases t
  {
    if t == 0 then 0
    else if DefinesFirst(code[t], src) then t
    else OperandIndex(code, t - 1, src)
  }

  /** `get_oprand_bytecode(code, offset, src)`: scans down from
    * `offset - 1` and returns the first instruction defining `src`, the
    * instruction at offset 0 when it reaches it. */
  method GetOprandBytecode(code: seq<Bytecode>, offset: nat, src: nat) returns (b: Bytecode)
    requires offset >= 1 && ScanOk(code, offset - 1, src)
    ensures b == code[OperandIndex(code, offset - 1, src)]
  {
    var t := offset - 1;
    while t != 0
      invariant t <= offset - 1
      invariant ScanOk(code, t, src)
      invariant OperandIndex(code, offset - 1, src) == OperandIndex(code, t, src)
      decreases t
    {
      match code[t] {
        case Call(_, dsts, _, _, _) =>
          if dsts[0] == src {
            return code[t];
          }
        case Assign(_, dst, _, _) =>
          if dst == src {
            return code[t];
          }
        case Load(_, dst, _) =>
          if dst == src {
            return code[t];
          }
        case _ =>
      }
      t := t - 1;
    }
    return code[0];
  }

  // ---------------------------------------------------------------------
  // Constants

  /** The width of an unsigned literal's type, 0 for other literals. */
  function ConstBits(c: Constant): (w: nat)
    ensures w > 0 <==> DataDependency.GetUintConstant(c).Some?
    ensures w > 0 ==> w == UBits(DataDependency.ConstantType(c).value)
  {
    match c
    case U8C(_) => 8
    case U16C(_) => 16
    case U32C(_) => 32
    case U64C(_) => 64
    case U128C(_) => 128
    case U256C(_) => 256
    case _ => 0
  }

  /** `leading_zeros` of a value in an unsigned integer of `w` bits. */
  function LeadingZeros(c: nat, w: nat): int
  {
    w - Detector2.BitLength(c)
  }

  /** Fewer leading zeros than the shift amount means the shifted literal
    * leaves its type: for a positive literal of `w` bits, the test holds
    * exactly when shifting it by `s` reaches 2^w. */
  lemma LeadingZerosMeansOverflow(c: nat, w: nat, s: nat)
    requires 0 < c
    ensures LeadingZeros(c, w) < s <==> c * DataDependency.Pow2(s) >= DataDependency.Pow2(w)
  {
    if Detector2.BitLength(c) + s > w {
      Detector2.WideShiftOverflows(c, s, w);
    } else {
      Detector2.NarrowShiftFits(c, s, w);
    }
  }

  // ---------------------------------------------------------------------
  // detect_overflow

  /** A left shift at offset `o`. */
  predicate ShlSite(code: seq<Bytecode>, o: nat)
  {
    o < |code| && code[o].Call? && code[o].op == Shl
  }

  /** The first operand's definition: the scan passed `o - 1`, so starting
    * at `o - 2`. */
  function Operand1(code: seq<Bytecode>, o: nat): Bytecode
    requires ShlSite(code, o) && |code[o].srcs| >= 2 && o >= 2 && ScanOk(code, o - 2, code[o].srcs[0])
  {
    code[OperandIndex(code, o - 2, code[o].srcs[0])]
  }

  /** The shift amount's definition: the scan starting at `o - 1`. */
  function Operand2(code: seq<Bytecode>, o: nat): Bytecode
    requires ShlSite(code, o) && |code[o].srcs| >= 2 && o >= 1 && ScanOk(code, o - 1, code[o].srcs[1])
  {
    code[OperandIndex(code, o - 1, code[o].srcs[1])]
  }

  /** What the examination of the shift at `o` reads exists, so that it
    * does not panic: the shift has two operands and is not among the first
    * two instructions, both scans stay in range, a loaded shift amount is a
    * `u8` literal, the modulus of a `%` first operand is found (scanning
    * from the shift) and is an unsigned literal when loaded, and the
    * operand of a cast first operand has a type. */
  predicate ShlReadable(code: seq<Bytecode>, types: seq<Type>, o: nat)
    requires ShlSite(code, o)
  {
    |code[o].srcs| >= 2 && o >= 2 &&
    ScanOk(code, o - 2, code[o].srcs[0]) && ScanOk(code, o - 1, code[o].srcs[1]) &&
    var op1 := Operand1(code, o);
    var op2 := Operand2(code, o);
    (op2.Load? ==> op2.cons.U8C?) &&
    (op2.Load? && op1.Call? && op1.op == Mod ==>
       |op1.srcs| >= 2 && ScanOk(code, o - 1, op1.srcs[1]) &&
       (code[OperandIndex(code, o - 1, op1.srcs[1])].Load? ==>
          DataDependency.GetUintConstant(code[OperandIndex(code, o - 1, op1.srcs[1])].cons).Some?)) &&
    (op2.Load? && op1.Call? && Detector7.CastTarget(op1.op).Some? ==> |op1.srcs| >= 1 && op1.srcs[0] < |types|)
  }

  /** Whether the shift at `o` is reported:
    * - a shift amount not loaded from a literal is reported;
    * - a literal first operand is reported when its leading zeros in its
    *   own width are fewer than the shift amount;
    * - an assigned first operand is reported;
    * - a `%` first operand is reported when its modulus is not a literal,
    *   or is one with fewer leading zeros in 256 bits than the shift amount;
    * - a cast to `w` bits is reported when `w` is at most the width of the
    *   cast's operand type plus the shift amount;
    * - any other first operand is not. */
  predicate ShlReported(code: seq<Bytecode>, types: seq<Type>, o: nat)
    requires ShlSite(code, o) && ShlReadable(code, types, o)
  {
    var op2 := Operand2(code, o);
    if !op2.Load? then true
    else
      var shl := op2.cons.v8;
      var op1 := Operand1(code, o);
      match op1
      case Load(_, _, c) => ConstBits(c) > 0 && LeadingZeros(DataDependency.GetUintConstant(c).value, ConstBits(c)) < shl
      case Assign(_, _, _, _) => true
      case Call(_, _, op, srcs, _) =>
        if op == Mod then
          var m := code[OperandIndex(code, o - 1, srcs[1])];
          !m.Load? || LeadingZeros(DataDependency.GetUintConstant(m.cons).value, 256) < shl
        else if Detector7.CastTarget(op).Some? then
          UBits(Detector7.CastTarget(op).value) <= UBits(types[srcs[0]]) + shl
        else false
      case _ => false
  }

  /** Every shift before offset `o` can be examined and is not reported. */
  predicate ClearBefore(code: seq<Bytecode>, types: seq<Type>, o: nat)
  {
    forall p :: 0 <= p < o && ShlSite(code, p) ==> ShlReadable(code, types, p) && !ShlReported(code, types, p)
  }

  /** The shifts the detector reaches can be examined: every shift that no
    * earlier report cuts off. */
  predicate ShiftsReadable(code: seq<Bytecode>, types: seq<Type>)
  {
    forall o :: 0 <= o < |code| && ShlSite(code, o) && ClearBefore(code, types, o) ==> ShlReadable(code, types, o)
  }

  /** The examination of the shift at `o`, with its operand scans. */
  method ExamineShl(code: seq<Bytecode>, types: seq<Type>, o: nat) returns (hit: bool)
    requires ShlSite(code, o) && ShlReadable(code, types, o)
    ensures hit == ShlReported(code, types, o)
  {
    var srcs := code[o].srcs;
    var oprand1 := GetOprandBytecode(code, o - 1, srcs[0]);
    var oprand2 := GetOprandBytecode(code, o, srcs[1]);
    if !oprand2.Load? {
      return true;
    }
    var shl := oprand2.cons.v8;
    match oprand1
    case Load(_, _, c) =>
      hit := ConstBits(c) > 0 && LeadingZeros(DataDependency.GetUintConstant(c).value, ConstBits(c)) < shl;
    case Assign(_, _, _, _) =>
      hit := true;
    case Call(_, _, op, msrcs, _) =>
      if op == Mod {
        var modNum := GetOprandBytecode(code, o, msrcs[1]);
        hit := !modNum.Load? || LeadingZeros(DataDependency.GetUintConstant(modNum.cons).value, 256) < shl;
      } else if Detector7.CastTarget(op).Some? {
        hit := UBits(Detector7.CastTarget(op).value) <= UBits(types[msrcs[0]]) + shl;
      } else {
        hit := false;
      }
    case _ =>
      hit := false;
  }

  /** `detect_overflow`: true at the first reported shift, false when no
    * shift is reported. */
  method DetectOverflow(f: BytecodeGen.FunctionInfo, types: seq<Type>) returns (r: bool)
    requires ShiftsReadable(f.code, types)
    ensures r <==> exists o :: ShlSite(f.code, o) && ShlReadable(f.code, types, o) && ShlReported(f.code, types, o)
    ensures !r ==> ClearBefore(f.code, types, |f.code|)
  {
    var code := f.code;
    for o := 0 to |code|
      invariant ClearBefore(code, types, o)
    {
      if code[o].Call? && code[o].op == Shl {
        var hit := ExamineShl(code, types, o);
        if hit {
          return true;
        }
      }
    }
    return false;
  }

  /** A shift of a positive literal by a literal amount is reported exactly
    * when the shifted literal leaves the literal's own type. */
  lemma LiteralShiftReported(code: seq<Bytecode>, types: seq<Type>, o: nat)
    requires ShlSite(code, o) && ShlReadable(code, types, o)
    requires Operand1(code, o).Load? && Operand2(code, o).Load?
    requires ConstBits(Operand1(code, o).cons) > 0 && DataDependency.GetUintConstant(Operand1(code, o).cons).value > 0
    ensures var c := Operand1(code, o).cons;
            ShlReported(code, types, o) <==>
              DataDependency.GetUintConstant(c).value * DataDependency.Pow2(Operand2(code, o).cons.v8) >= DataDependency.Pow2(ConstBits(c))
  {
    var c := Operand1(code, o).cons;
    LeadingZerosMeansOverflow(DataDependency.GetUintConstant(c).value, ConstBits(c), Operand2(code, o).cons.v8);
  }
}
