/** What every detector shares: the content a detector hands to the report
  * (`DetectContent`), the names of definitions, the operand tests of the
  * bytecode detectors and the exit blocks of a loop. */
module Detection {
  import opened Wrappers
  import opened Stackless
  import Packages
  import BytecodeGen
  import MoveUtils

  /** How serious a kind of finding is. */
  datatype Severity = Minor | Major

  /** The kinds of finding the detectors produce. */
  datatype DetectKind =
    | UncheckedReturn
    | Overflow
    | PrecisionLoss
    | InfiniteLoop
    | UnusedConstant
    | UnusedPrivateFunctions
    | UnnecessaryTypeConversion
    | UnnecessaryBoolJudgment
    | RecursiveFunctionCall
    | RepeatedFunctionCall

  /** What a detector's `run` leaves behind: the kind and severity of its
    * findings and, per module name, the findings themselves. */
  datatype DetectContent = DetectContent(severity: Severity, kind: DetectKind, result: map<string, seq<string>>)

  // ---------------------------------------------------------------------
  // Definitions of a module

  /** `get_function_name`: the name of the definition at `idx`. */
  function FunctionName(entry: Packages.ModuleEntry, idx: nat): string
    requires idx < |entry.defs|
  {
    entry.defs[idx].name
  }

  /** `is_native`: the definition at `idx` has no Move body. */
  predicate IsNative(entry: Packages.ModuleEntry, idx: nat)
    requires idx < |entry.defs|
  {
    entry.defs[idx].isNative
  }

  // ---------------------------------------------------------------------
  // Well-formed code, as the translator produces it

  /** Every temporary a bytecode names has a declared type. */
  predicate InstrTyped(b: Bytecode, n: nat)
  {
    match b
    case Assign(_, dst, src, _) => dst < n && src < n
    case Call(_, dsts, _, srcs, _) =>
      (forall i :: 0 <= i < |dsts| ==> dsts[i] < n) && (forall i :: 0 <= i < |srcs| ==> srcs[i] < n)
    case Load(_, dst, _) => dst < n
    case Branch(_, _, _, cond) => cond < n
    case _ => true
  }

  /** Every temporary the code names has a type in `localTypes`. */
  predicate Typed(f: BytecodeGen.FunctionInfo)
  {
    forall o :: 0 <= o < |f.code| ==> InstrTyped(f.code[o], |f.localTypes|)
  }

  /** The operations that read one operand and write one result. */
  predicate UnaryOp(op: Operation)
  {
    op.CastU8? || op.CastU16? || op.CastU32? || op.CastU64? || op.CastU128? || op.CastU256?
    || op.Not? || op.FreezeRef? || op.ReadRef? || op.BorrowLoc? || op.BorrowField? || op.BorrowGlobal?
  }

  /** The operations that read two operands and write one result. */
  predicate BinaryOp(op: Operation)
  {
    op.Add? || op.Sub? || op.Mul? || op.Div? || op.Mod? || op.BitOr? || op.BitAnd? || op.Xor?
    || op.Shl? || op.Shr? || op.Lt? || op.Gt? || op.Le? || op.Ge? || op.Or? || op.And?
    || op.Eq? || op.Neq?
  }

  /** A call of a unary or binary operation has its operands and its
    * result. */
  predicate CallShaped(b: Bytecode)
  {
    b.Call? ==>
      (UnaryOp(b.op) ==> |b.srcs| >= 1 && |b.dsts| >= 1) &&
      (BinaryOp(b.op) ==> |b.srcs| >= 2 && |b.dsts| >= 1)
  }

  /** The code of a translated function: typed temporaries, and operations
    * with their operands. */
  predicate WellFormed(f: BytecodeGen.FunctionInfo)
  {
    Typed(f) && forall o :: 0 <= o < |f.code| ==> CallShaped(f.code[o])
  }

  /** The instruction defines temporary `t`. */
  predicate Defines(b: Bytecode, t: nat)
  {
    match b
    case Assign(_, dst, _, _) => dst == t
    case Call(_, dsts, _, _, _) => t in dsts
    case Load(_, dst, _) => dst == t
    case _ => false
  }

  /** The definition table of temporary `t` lists offsets of `code` that
    * define it. */
  predicate DefsOf(f: BytecodeGen.FunctionInfo, t: nat)
  {
    t < |f.defAttrid| &&
    forall k :: 0 <= k < |f.defAttrid[t]| ==> f.defAttrid[t][k] < |f.code| && Defines(f.code[f.defAttrid[t][k]], t)
  }

  /** Temporary `t` has at least one recorded definition, as every operand
    * the translator pushes does; `get_def_bytecode` can look it up. */
  predicate Defined(f: BytecodeGen.FunctionInfo, t: nat)
  {
    DefsOf(f, t) && |f.defAttrid[t]| > 0
  }

  /** The definition of an operand, of a temporary with recorded
    * definitions: a bytecode that defines it. */
  function DefOf(f: BytecodeGen.FunctionInfo, t: nat, o: nat): (b: Bytecode)
    requires Defined(f, t)
    ensures Defines(b, t) && b in f.code
  {
    MoveUtils.GetDefBytecodeSpec(f.code, f.defAttrid, t, o);
    MoveUtils.GetDefBytecode(f.code, f.defAttrid, t, o)
  }

  /** The operands of every binary operation have recorded definitions. */
  predicate OperandsDefined(f: BytecodeGen.FunctionInfo)
  {
    forall o :: 0 <= o < |f.code| && f.code[o].Call? && BinaryOp(f.code[o].op) && |f.code[o].srcs| >= 2 ==>
      Defined(f, f.code[o].srcs[0]) && Defined(f, f.code[o].srcs[1])
  }

  // ---------------------------------------------------------------------
  // Operand tests

  /** `is_div`: a division. */
  predicate IsDiv(b: Bytecode)
  {
    b.Call? && b.op == Div
  }

  /** `is_sqrt`: a call of a Move function named `sqrt`. */
  predicate IsSqrt(b: Bytecode)
  {
    b.Call? && b.op.Function? && b.op.fid == "sqrt"
  }

  /** `is_ldbool`: a load of the literal `true` or `false`. */
  predicate IsLdBool(b: Bytecode)
  {
    b.Load? && b.cons.BoolC?
  }

  /** The instructions `ret_is_bool` can read: a call it inspects has a
    * result, and the result's type is declared. */
  predicate RetReadable(b: Bytecode, types: seq<Type>)
  {
    match b
    case Call(_, dsts, _, _, _) => |dsts| > 0 && dsts[0] < |types|
    case Assign(_, dst, _, _) => dst < |types|
    case Load(_, dst, _) => dst < |types|
    case _ => true
  }

  /** `ret_is_bool`: the instruction's (first) result is a boolean. */
  predicate RetIsBool(b: Bytecode, types: seq<Type>)
    requires RetReadable(b, types)
  {
    match b
    case Call(_, dsts, _, _, _) => types[dsts[0]] == Primitive(Bool)
    case Assign(_, dst, _, _) => types[dst] == Primitive(Bool)
    case Load(_, dst, _) => types[dst] == Primitive(Bool)
    case _ => false
  }

  /** The definition of an operand of typed code can be read by
    * `ret_is_bool`. */
  lemma DefReadable(f: BytecodeGen.FunctionInfo, t: nat, o: nat)
    requires Typed(f) && Defined(f, t)
    ensures RetReadable(DefOf(f, t, o), f.localTypes)
  {
    var b := DefOf(f, t, o);
    var k :| 0 <= k < |f.code| && f.code[k] == b;
    assert InstrTyped(f.code[k], |f.localTypes|);
  }

  // ---------------------------------------------------------------------
  // Loop exits

  /** The blocks of `body` with a successor outside `body`: the blocks a
    * loop is left from. */
  function ExitBlocks(successors: map<nat, seq<nat>>, body: set<nat>): (r: set<nat>)
    requires forall b :: b in body ==> b in successors
    ensures forall b :: b in r <==> b in body && exists s :: s in successors[b] && s !in body
  {
    set b | b in body && exists s :: s in successors[b] && s !in body
  }
}
