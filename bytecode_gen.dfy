/** The translation of one stack-machine Move instruction into stackless
  * bytecode (`generate_bytecode` in `src/move_ir/generate_bytecode.rs`):
  * the operand stack is simulated by a stack of temporary indexes, each
  * produced value gets a fresh temporary, and every instruction gets a new
  * attribute id in the function's location table. The module metadata an
  * instruction reads (argument and return counts, field counts and types,
  * struct and function ids, type arguments, the translated constant) is
  * resolved into the instruction itself. */
module BytecodeGen {
  import opened Stackless
  import opened Wrappers
  import MoveUtils

  // ---------------------------------------------------------------------
  // Move instructions

  datatype Width = W8 | W16 | W32 | W64 | W128 | W256

  function WidthType(w: Width): Type
  {
    match w
    case W8 => Primitive(U8)
    case W16 => Primitive(U16)
    case W32 => Primitive(U32)
    case W64 => Primitive(U64)
    case W128 => Primitive(U128)
    case W256 => Primitive(U256)
  }

  function CastOperation(w: Width): Operation
  {
    match w
    case W8 => CastU8
    case W16 => CastU16
    case W32 => CastU32
    case W64 => CastU64
    case W128 => CastU128
    case W256 => CastU256
  }

  datatype ArithOp = AddOp | SubOp | MulOp | ModOp | DivOp | BitOrOp | BitAndOp | XorOp | ShlOp | ShrOp

  function ArithOperation(op: ArithOp): Operation
  {
    match op
    case AddOp => Add
    case SubOp => Sub
    case MulOp => Mul
    case ModOp => Mod
    case DivOp => Div
    case BitOrOp => BitOr
    case BitAndOp => BitAnd
    case XorOp => Xor
    case ShlOp => Shl
    case ShrOp => Shr
  }

  datatype CmpOp = LtOp | GtOp | LeOp | GeOp

  function CmpOperation(op: CmpOp): Operation
  {
    match op
    case LtOp => Lt
    case GtOp => Gt
    case LeOp => Le
    case GeOp => Ge
  }

  /** The Move instructions, with the metadata each one reads resolved,
    * grouped by how they are translated. Generic and non-generic forms
    * share a constructor (the latter with no type arguments); mutable and
    * immutable borrows carry `isMut`. */
  datatype MoveInstr =
    | BranchI(target: nat)
    | Ctrl(ctrl: ControlInstr)
    | Ld(ld: LoadInstr)
    | Ar(ar: ArithInstr)
    | Rf(rf: RefInstr)
    | Cl(cl: CallInstr)
    | Vc(vc: VecInstr)

  /** Control flow other than the unconditional branch, pops and stores. */
  datatype ControlInstr =
    | PopI
    | BrTrueI(target: nat)
    | BrFalseI(target: nat)
    | AbortI
    | StLocI(idx: u8)
    | RetI
    | NopI

  /** Constants and locals. */
  datatype LoadInstr =
    | LdU8I(n8: u8) | LdU16I(n16: u16) | LdU32I(n32: u32) | LdU64I(n64: u64) | LdU128I(n128: u128) | LdU256I(n256: u256)
    | LdConstI(cty: Type, value: Constant)
    | LdTrueI | LdFalseI
    | CopyLocI(idx: u8) | MoveLocI(idx: u8) | BorrowLocI(isMut: bool, idx: u8)

  /** Casts, arithmetic, logic and comparisons. */
  datatype ArithInstr =
    | CastI(width: Width)
    | ArithI(aop: ArithOp)
    | OrI | AndI | NotI | EqI | NeqI
    | CmpI(cop: CmpOp)

  /** References and global storage. */
  datatype RefInstr =
    | FreezeRefI
    | BorrowFieldI(isMut: bool, mid: nat, sid: string, targs: seq<Type>, offset: nat, fieldType: Type)
    | ReadRefI | WriteRefI
    | ExistsI(mid: nat, sid: string, targs: seq<Type>)
    | BorrowGlobalI(isMut: bool, mid: nat, sid: string, targs: seq<Type>)
    | MoveFromI(mid: nat, sid: string, targs: seq<Type>)
    | MoveToI(mid: nat, sid: string, targs: seq<Type>)

  /** Function calls and struct packing; `retTypes` are the callee's
    * instantiated return types, `fieldTypes` the unpacked fields' types in
    * offset order. */
  datatype CallInstr =
    | CallI(mid: nat, fid: string, targs: seq<Type>, argCount: nat, retTypes: seq<Type>)
    | PackI(mid: nat, sid: string, targs: seq<Type>, fieldCount: nat)
    | UnpackI(mid: nat, sid: string, targs: seq<Type>, fieldTypes: seq<Type>)

  /** The vector instructions. */
  datatype VecInstr =
    | VecLenI(tys: seq<Type>)
    | VecBorrowI(isMut: bool, ty: Type)
    | VecPushBackI(tys: seq<Type>)
    | VecPopBackI(ty: Type)
    | VecSwapI(tys: seq<Type>)
    | VecPackI(ty: Type, n: u64)
    | VecUnpackI(ty: Type, n: u64)

  // ---------------------------------------------------------------------
  // Per-function state

  datatype Loc = Loc(file: nat, start: nat, end: nat)

  /** `FunctionInfo`: the translated function and its side tables. */
  datatype FunctionInfo = FunctionInfo(
    idx: nat, name: string, argsCount: nat,
    code: seq<Bytecode>, localTypes: seq<Type>,
    locationTable: map<nat, Loc>, fallthroughLabels: set<nat>,
    defAttrid: seq<seq<nat>>, useAttrid: seq<seq<nat>>)

  /** `FunctionInfo::new`: a function with no code, no locals and empty tables. */
  function NewFunctionInfo(idx: nat, name: string): (r: FunctionInfo)
    ensures r.idx == idx && r.name == name && r.argsCount == 0
    ensures r.code == [] && r.localTypes == [] && r.locationTable == map[]
    ensures r.fallthroughLabels == {} && r.defAttrid == [] && r.useAttrid == []
  {
    FunctionInfo(idx, name, 0, [], [], map[], {}, [], [])
  }

  /** What the translation of one function reads: the struct handles, the
    * parameter and locals signatures, the return count, the function's
    * location (every attribute of the function records it) and the index
    * of the `vector` module. */
  datatype Context = Context(
    handles: seq<MoveUtils.StructHandle>, params: seq<MoveUtils.Token>,
    locals: Option<seq<MoveUtils.Token>>, returnCount: nat, loc: Loc, vecModule: nat)

  predicate LocalTyped(ctx: Context, idx: nat)
  {
    (idx < |ctx.params| ==> MoveUtils.TokenValid(ctx.handles, ctx.params[idx]))
    && (idx >= |ctx.params| ==>
          ctx.locals.Some? && idx % 256 < |ctx.locals.value|
          && MoveUtils.TokenValid(ctx.handles, ctx.locals.value[idx % 256]))
  }

  function LocalType(ctx: Context, idx: nat): Type
    requires LocalTyped(ctx, idx)
  {
    MoveUtils.GetLocalType(ctx.handles, ctx.params, ctx.locals, idx)
  }

  /** The generator's simulation state: `temp_count`, `temp_stack` and the
    * function under construction. */
  datatype GenState = GenState(tempCount: nat, tempStack: seq<nat>, fn: FunctionInfo)


  // ---------------------------------------------------------------------
  // Effects

  function Temps(from: nat, n: nat): (r: seq<nat>)
    ensures |r| == n && forall i :: 0 <= i < n ==> r[i] == from + i
  {
    seq(n, i requires 0 <= i < n => from + i)
  }

  /** The top `n` temporaries, bottom-most first. */
  function Top(stack: seq<nat>, n: nat): seq<nat>
    requires n <= |stack|
  {
    stack[|stack| - n..]
  }

  /** What one instruction does to the generator's state: `pops` operands
    * leave the stack, `pushed` fresh temporaries are pushed and `hidden`
    * more are allocated without being pushed, `types` are appended to the
    * local types and `code` to the function's code. */
  datatype Effect = Effect(pops: nat, pushed: nat, hidden: nat, types: seq<Type>, code: seq<Bytecode>)

  function Apply(g: GenState, e: Effect): GenState
    requires e.pops <= |g.tempStack|
  {
    var st := g.tempStack;
    GenState(g.tempCount + e.pushed + e.hidden,
             st[..|st| - e.pops] + Temps(g.tempCount, e.pushed),
             g.fn.(localTypes := g.fn.localTypes + e.types, code := g.fn.code + e.code))
  }

  function NewAttr(g: GenState, loc: Loc): (r: (GenState, nat))
    ensures r.1 == |g.fn.locationTable|
  {
    var (t, a) := MoveUtils.NewLocAttr(g.fn.locationTable, loc);
    (g.(fn := g.fn.(locationTable := t)), a)
  }

  function CallB(attr: nat, dsts: seq<nat>, op: Operation, srcs: seq<nat>): Bytecode
  {
    Call(attr, dsts, op, srcs, NoAbort)
  }

  function VecOp(ctx: Context, name: string, tys: seq<Type>): Operation
  {
    Function(ctx.vecModule, name, tys)
  }

  function TopOf(g: GenState): nat
    requires |g.tempStack| >= 1
  {
    g.tempStack[|g.tempStack| - 1]
  }

  function SecondOf(g: GenState): nat
    requires |g.tempStack| >= 2
  {
    g.tempStack[|g.tempStack| - 2]
  }

  lemma TopOne(g: GenState)
    requires |g.tempStack| >= 1
    ensures Top(g.tempStack, 1) == [TopOf(g)]
  {
  }

  lemma TopTwo(g: GenState)
    requires |g.tempStack| >= 2
    ensures Top(g.tempStack, 2) == [SecondOf(g), TopOf(g)]
  {
  }

  /** One operand in, one fresh result of type `ty` out. */
  function UnaryE(g: GenState, attr: nat, op: Operation, ty: Type): Effect
    requires |g.tempStack| >= 1
  {
    Effect(1, 1, 0, [ty], [CallB(attr, [g.tempCount], op, [TopOf(g)])])
  }

  /** Two operands in, in stack order, one fresh result of type `ty` out. */
  function BinaryE(g: GenState, attr: nat, op: Operation, ty: Type): Effect
    requires |g.tempStack| >= 2
  {
    Effect(2, 1, 0, [ty], [CallB(attr, [g.tempCount], op, [SecondOf(g), TopOf(g)])])
  }

  /** An operand consumed with no result. */
  function SinkE(b: Bytecode): Effect
  {
    Effect(1, 0, 0, [], [b])
  }

  function LoadE(g: GenState, attr: nat, ty: Type, c: Constant): Effect
  {
    Effect(0, 1, 0, [ty], [Load(attr, g.tempCount, c)])
  }
  // ---------------------------------------------------------------------
  // Operand counts

  /** How many temporaries the instruction pops. */
  function Pops(ctx: Context, instr: MoveInstr): nat
  {
    match instr
    case BranchI(_) => 0
    case Ctrl(c) =>
      (match c
       case RetI => ctx.returnCount
       case NopI => 0
       case _ => 1)
    case Ld(_) => 0
    case Ar(a) =>
      (match a
       case CastI(_) => 1
       case NotI => 1
       case _ => 2)
    case Rf(r) =>
      (match r
       case WriteRefI => 2
       case MoveToI(_, _, _) => 2
       case _ => 1)
    case Cl(c) =>
      (match c
       case CallI(_, _, _, n, _) => n
       case PackI(_, _, _, n) => n
       case UnpackI(_, _, _, _) => 1)
    case Vc(v) =>
      (match v
       case VecBorrowI(_, _) => 2
       case VecPushBackI(_) => 2
       case VecSwapI(_) => 3
       case VecPackI(_, n) => n as nat
       case _ => 1)
  }

  /** How many fresh temporaries the instruction pushes. */
  function Pushes(instr: MoveInstr): nat
  {
    match instr
    case BranchI(_) => 0
    case Ctrl(_) => 0
    case Ld(_) => 1
    case Ar(_) => 1
    case Rf(r) => if r.WriteRefI? || r.MoveToI? then 0 else 1
    case Cl(c) =>
      (match c
       case CallI(_, _, _, _, rets) => |rets|
       case PackI(_, _, _, _) => 1
       case UnpackI(_, _, _, tys) => |tys|)
    case Vc(v) =>
      (match v
       case VecPushBackI(_) => 0
       case VecSwapI(_) => 0
       case VecUnpackI(_, n) => n as nat
       case _ => 1)
  }

  /** The local a copy, move or borrow reads, if any. */
  function LocalRead(instr: MoveInstr): Option<nat>
  {
    match instr
    case Ld(l) => if l.CopyLocI? || l.MoveLocI? || l.BorrowLocI? then Some(l.idx as nat) else None
    case _ => None
  }

  /** Whether the operands the instruction reads are there: enough
    * temporaries on the stack and the types of the temporaries and locals
    * it inspects (the source panics otherwise). */
  predicate Operands(ctx: Context, g: GenState, instr: MoveInstr)
  {
    var st := g.tempStack;
    Pops(ctx, instr) <= |st|
    && ((instr.Rf? && (instr.rf.FreezeRefI? || instr.rf.ReadRefI?)) ==> st[|st| - 1] < |g.fn.localTypes|)
    && ((instr.Ar? && instr.ar.ArithI?) ==> st[|st| - 2] < |g.fn.localTypes|)
    && (LocalRead(instr).Some? ==> LocalTyped(ctx, LocalRead(instr).value))
  }

  /** Whether the instruction can be translated at `offset`: its operands
    * are there and the label map has its targets. */
  predicate CanStep(ctx: Context, g: GenState, instr: MoveInstr, offset: nat, labels: map<nat, nat>)
  {
    Operands(ctx, g, instr)
    && (instr.Ctrl? && (instr.ctrl.BrTrueI? || instr.ctrl.BrFalseI?) ==>
          instr.ctrl.target in labels && offset + 1 in labels)
    && (instr.BranchI? ==> instr.target in labels)
  }

  // ---------------------------------------------------------------------
  // The translation, instruction group by instruction group

  /** The instruction a pop, a conditional branch or an abort emits for
    * its operand `s`. */
  function SinkCode(attr: nat, c: ControlInstr, s: nat, offset: nat, labels: map<nat, nat>): Bytecode
    requires c.PopI? || c.BrTrueI? || c.BrFalseI? || c.AbortI?
    requires c.BrTrueI? || c.BrFalseI? ==> c.target in labels && offset + 1 in labels
  {
    match c
    case PopI => CallB(attr, [], Destroy, [s])
    case BrTrueI(t) => Branch(attr, labels[t], labels[offset + 1], s)
    case BrFalseI(t) => Branch(attr, labels[offset + 1], labels[t], s)
    case AbortI => Abort(attr, s)
  }

  function ControlEffect(ctx: Context, g: GenState, attr: nat, c: ControlInstr, offset: nat, labels: map<nat, nat>): Effect
    requires CanStep(ctx, g, Ctrl(c), offset, labels)
  {
    match c
    case StLocI(idx) => SinkE(Assign(attr, idx as nat, TopOf(g), Store))
    case RetI => Effect(ctx.returnCount, 0, 0, [], [Ret(attr, Top(g.tempStack, ctx.returnCount))])
    case NopI => Effect(0, 0, 0, [], [Nop(attr)])
    case _ => SinkE(SinkCode(attr, c, TopOf(g), offset, labels))
  }

  /** The type and the value a constant load pushes. */
  function LoadedConstant(l: LoadInstr): (Type, Constant)
    requires !(l.CopyLocI? || l.MoveLocI? || l.BorrowLocI?)
  {
    match l
    case LdU8I(n) => (Primitive(U8), U8C(n))
    case LdU16I(n) => (Primitive(U16), U16C(n))
    case LdU32I(n) => (Primitive(U32), U32C(n))
    case LdU64I(n) => (Primitive(U64), U64C(n))
    case LdU128I(n) => (Primitive(U128), U128C(n))
    case LdU256I(n) => (Primitive(U256), U256C(n))
    case LdConstI(ty, c) => (ty, c)
    case LdTrueI => (Primitive(Bool), BoolC(true))
    case LdFalseI => (Primitive(Bool), BoolC(false))
  }

  function LoadEffect(ctx: Context, g: GenState, attr: nat, l: LoadInstr): Effect
    requires Operands(ctx, g, Ld(l))
  {
    var tc := g.tempCount;
    match l
    case CopyLocI(idx) => Effect(0, 1, 0, [LocalType(ctx, idx as nat)], [Assign(attr, tc, idx as nat, Copy)])
    case MoveLocI(idx) => Effect(0, 1, 0, [LocalType(ctx, idx as nat)], [Assign(attr, tc, idx as nat, Move)])
    case BorrowLocI(isMut, idx) =>
      Effect(0, 1, 0, [Reference(isMut, LocalType(ctx, idx as nat))], [CallB(attr, [tc], BorrowLoc, [idx as nat])])
    case _ => LoadE(g, attr, LoadedConstant(l).0, LoadedConstant(l).1)
  }

  /** The operation of a two-operand arithmetic, logic or comparison instruction. */
  function BinaryOperation(a: ArithInstr): Operation
    requires !(a.CastI? || a.NotI?)
  {
    match a
    case ArithI(op) => ArithOperation(op)
    case OrI => Or
    case AndI => And
    case EqI => Eq
    case NeqI => Neq
    case CmpI(op) => CmpOperation(op)
  }

  /** Arithmetic results take the type of the left operand; logic and
    * comparisons produce a `bool`. */
  function BinaryResultType(g: GenState, a: ArithInstr): Type
    requires |g.tempStack| >= 2 && (a.ArithI? ==> SecondOf(g) < |g.fn.localTypes|)
  {
    if a.ArithI? then g.fn.localTypes[SecondOf(g)] else Primitive(Bool)
  }

  function ArithEffect(ctx: Context, g: GenState, attr: nat, a: ArithInstr): Effect
    requires Operands(ctx, g, Ar(a))
  {
    match a
    case CastI(w) => UnaryE(g, attr, CastOperation(w), WidthType(w))
    case NotI => UnaryE(g, attr, Not, Primitive(Bool))
    case _ => BinaryE(g, attr, BinaryOperation(a), BinaryResultType(g, a))
  }

  /** Two operands in, top-most first, no result. */
  function StoreE(g: GenState, attr: nat, op: Operation): Effect
    requires |g.tempStack| >= 2
  {
    Effect(2, 0, 0, [], [CallB(attr, [], op, [TopOf(g), SecondOf(g)])])
  }

  /** A read through the reference on top of the stack, into a fresh
    * temporary whose type, when known, is `types`. */
  function ReadE(g: GenState, attr: nat, types: seq<Type>): Effect
    requires |g.tempStack| >= 1
  {
    Effect(1, 1, 0, types, [CallB(attr, [g.tempCount], ReadRef, [TopOf(g)])])
  }

  /** The operation of a one-operand reference or global-storage instruction. */
  function RefOperation(r: RefInstr): Operation
    requires !(r.FreezeRefI? || r.ReadRefI? || r.WriteRefI? || r.MoveToI?)
  {
    match r
    case BorrowFieldI(_, mid, sid, targs, off, _) => BorrowField(mid, sid, targs, off)
    case ExistsI(mid, sid, targs) => Exists(mid, sid, targs)
    case BorrowGlobalI(_, mid, sid, targs) => BorrowGlobal(mid, sid, targs)
    case MoveFromI(mid, sid, targs) => MoveFrom(mid, sid, targs)
  }

  function RefResultType(r: RefInstr): Type
    requires !(r.FreezeRefI? || r.ReadRefI? || r.WriteRefI? || r.MoveToI?)
  {
    match r
    case BorrowFieldI(isMut, _, _, _, _, fty) => Reference(isMut, fty)
    case ExistsI(_, _, _) => Primitive(Bool)
    case BorrowGlobalI(isMut, mid, sid, targs) => Reference(isMut, Struct(mid, sid, targs))
    case MoveFromI(mid, sid, targs) => Struct(mid, sid, targs)
  }

  function ReferenceEffect(ctx: Context, g: GenState, attr: nat, r: RefInstr): Effect
    requires Operands(ctx, g, Rf(r))
  {
    match r
    case FreezeRefI =>
      var sig := g.fn.localTypes[TopOf(g)];
      if sig.Reference? && sig.isMut then UnaryE(g, attr, FreezeRef, Reference(false, sig.referent))
      else Effect(1, 0, 0, [], [])
    case ReadRefI =>
      var sig := g.fn.localTypes[TopOf(g)];
      ReadE(g, attr, if sig.Reference? then [sig.referent] else [])
    case WriteRefI => StoreE(g, attr, WriteRef)
    case MoveToI(mid, sid, targs) => StoreE(g, attr, MoveTo(mid, sid, targs))
    case _ => UnaryE(g, attr, RefOperation(r), RefResultType(r))
  }

  function CallEffect(ctx: Context, g: GenState, attr: nat, c: CallInstr): Effect
    requires Operands(ctx, g, Cl(c))
  {
    var st := g.tempStack;
    var tc := g.tempCount;
    match c
    case CallI(mid, fid, targs, n, rets) =>
      Effect(n, |rets|, 0, rets, [CallB(attr, Temps(tc, |rets|), Function(mid, fid, targs), Top(st, n))])
    case PackI(mid, sid, targs, n) =>
      Effect(n, 1, 0, [Struct(mid, sid, targs)], [CallB(attr, [tc], Pack(mid, sid, targs), Top(st, n))])
    case UnpackI(mid, sid, targs, ftys) =>
      Effect(1, |ftys|, 0, ftys, [CallB(attr, Temps(tc, |ftys|), Unpack(mid, sid, targs), [TopOf(g)])])
  }

  /** `vector::pack` of the operands `ops` into the fresh temporary `tc`:
    * an empty vector, a mutable borrow of it in the hidden temporary
    * `tc + 1`, and one `push_back` per operand, bottom-most first. */
  function VecPackCode(ctx: Context, attr: nat, ty: Type, tc: nat, ops: seq<nat>): seq<Bytecode>
  {
    [CallB(attr, [tc], VecOp(ctx, "empty", [ty]), [])]
    + if |ops| == 0 then []
      else [CallB(attr, [tc + 1], BorrowLoc, [tc])]
           + seq(|ops|, i requires 0 <= i < |ops| => CallB(attr, [], VecOp(ctx, "push_back", [ty]), [tc + 1, ops[i]]))
  }

  /** `vector::unpack` of `s` into the fresh temporaries `tc .. tc + n - 1`:
    * one `pop_back` per temporary through a mutable borrow in the hidden
    * temporary `tc + n`, then `destroy_empty`. */
  function VecUnpackCode(ctx: Context, attr: nat, ty: Type, tc: nat, n: nat, s: nat): seq<Bytecode>
  {
    (if n == 0 then []
     else [CallB(attr, [tc + n], BorrowLoc, [s])]
          + seq(n, i requires 0 <= i < n => CallB(attr, [tc + i], VecOp(ctx, "pop_back", [ty]), [tc + n])))
    + [CallB(attr, [], VecOp(ctx, "destroy_empty", [ty]), [s])]
  }

  function VectorEffect(ctx: Context, g: GenState, attr: nat, v: VecInstr): Effect
    requires Operands(ctx, g, Vc(v))
  {
    var st := g.tempStack;
    var tc := g.tempCount;
    match v
    case VecLenI(tys) => UnaryE(g, attr, VecOp(ctx, "length", tys), Primitive(U64))
    case VecBorrowI(isMut, ty) =>
      BinaryE(g, attr, VecOp(ctx, if isMut then "borrow_mut" else "borrow", [ty]), Reference(isMut, ty))
    case VecPushBackI(tys) => Effect(2, 0, 0, [], [CallB(attr, [], VecOp(ctx, "push_back", tys), Top(st, 2))])
    case VecPopBackI(ty) => UnaryE(g, attr, VecOp(ctx, "pop_back", [ty]), ty)
    case VecSwapI(tys) => Effect(3, 0, 0, [], [CallB(attr, [], VecOp(ctx, "swap", tys), Top(st, 3))])
    case VecPackI(ty, n) =>
      Effect(n as nat, 1, if n == 0 then 0 else 1,
             [Vector(ty)] + (if n == 0 then [] else [Reference(true, Vector(ty))]),
             VecPackCode(ctx, attr, ty, tc, Top(st, n as nat)))
    case VecUnpackI(ty, n) =>
      Effect(1, n as nat, if n == 0 then 0 else 1,
             seq(n, i => ty) + (if n == 0 then [] else [Reference(true, Vector(ty))]),
             VecUnpackCode(ctx, attr, ty, tc, n as nat, TopOf(g)))
  }

  /** The effect of every instruction but the unconditional branch. */
  function InstrEffect(ctx: Context, g: GenState, attr: nat, instr: MoveInstr, offset: nat, labels: map<nat, nat>): (r: Effect)
    requires !instr.BranchI? && CanStep(ctx, g, instr, offset, labels)
    ensures r.pops == Pops(ctx, instr)
  {
    match instr
    case Ctrl(c) => ControlEffect(ctx, g, attr, c, offset, labels)
    case Ld(l) => LoadEffect(ctx, g, attr, l)
    case Ar(a) => ArithEffect(ctx, g, attr, a)
    case Rf(r) => ReferenceEffect(ctx, g, attr, r)
    case Cl(c) => CallEffect(ctx, g, attr, c)
    case Vc(v) => VectorEffect(ctx, g, attr, v)
  }

  /** The code after an unconditional branch to `target`: the pattern
    * `if c goto L1 else L2; label L2` with L2 a fall-through label becomes
    * `if c goto L1 else target`; otherwise a jump is appended. */
  function BranchCode(code: seq<Bytecode>, fallthrough: set<nat>, attr: nat, target: nat): seq<Bytecode>
  {
    var at := |code|;
    if at >= 2 && code[at - 2].Branch? && code[at - 1].Label?
       && code[at - 1].lab in fallthrough && code[at - 2].elseLabel == code[at - 1].lab
    then code[..at - 2] + [Branch(code[at - 2].battr, code[at - 2].thenLabel, target, code[at - 2].cond)]
    else code + [Jump(attr, target)]
  }

  /** The label of the offset, if it has one, then a fresh attribute id. */
  function Prelude(ctx: Context, g0: GenState, offset: nat, labels: map<nat, nat>): (r: (GenState, nat))
    ensures r.0.tempCount == g0.tempCount && r.0.tempStack == g0.tempStack
    ensures r.0.fn.localTypes == g0.fn.localTypes && r.0.fn.fallthroughLabels == g0.fn.fallthroughLabels
  {
    var g1 :=
      if offset in labels then
        var (h, la) := NewAttr(g0, ctx.loc); h.(fn := h.fn.(code := h.fn.code + [Label(la, labels[offset])]))
      else g0;
    NewAttr(g1, ctx.loc)
  }

  /** The state after translating `instr` at `offset` (`generate_bytecode`).
    * The label and the attribute id leave the stack and the types as they
    * are, so the effect is computed from the state before them. */
  function Step(ctx: Context, g0: GenState, instr: MoveInstr, offset: nat, labels: map<nat, nat>): GenState
    requires CanStep(ctx, g0, instr, offset, labels)
  {
    var (g, attr) := Prelude(ctx, g0, offset, labels);
    if instr.BranchI? then
      g.(fn := g.fn.(code := BranchCode(g.fn.code, g.fn.fallthroughLabels, attr, labels[instr.target])))
    else Apply(g, InstrEffect(ctx, g0, attr, instr, offset, labels))
  }

  // ---------------------------------------------------------------------
  // Definitions and uses

  /** The temporaries an instruction defines, as the def table of
    * `generate_function` records them. */
  function Defs(b: Bytecode): seq<nat>
  {
    match b
    case Assign(_, dst, _, _) => [dst]
    case Call(_, dsts, _, _, _) => dsts
    case Load(_, dst, _) => [dst]
    case _ => []
  }

  /** The temporaries an instruction uses, as the use table records them. */
  function Uses(b: Bytecode): seq<nat>
  {
    match b
    case Assign(_, _, src, _) => [src]
    case Call(_, _, _, srcs, _) => srcs
    case Ret(_, rets) => rets
    case Branch(_, _, _, c) => [c]
    case Abort(_, c) => [c]
    case _ => []
  }

  function DefsIn(code: seq<Bytecode>): seq<nat>
  {
    if |code| == 0 then [] else Defs(code[0]) + DefsIn(code[1..])
  }

  function UsesIn(code: seq<Bytecode>): seq<nat>
  {
    if |code| == 0 then [] else Uses(code[0]) + UsesIn(code[1..])
  }

  function AttrOf(b: Bytecode): nat
  {
    match b
    case Assign(a, _, _, _) => a
    case Call(a, _, _, _, _) => a
    case Ret(a, _) => a
    case Load(a, _, _) => a
    case Branch(a, _, _, _) => a
    case Jump(a, _) => a
    case Label(a, _) => a
    case Abort(a, _) => a
    case Nop(a) => a
    case SaveMem(a, _, _) => a
    case SaveSpecVar(a, _, _) => a
    case Prop(a, _, _) => a
  }

  lemma SingleIn(b: Bytecode)
    ensures DefsIn([b]) == Defs(b) && UsesIn([b]) == Uses(b)
  {
    assert [b][1..] == [];
  }

  lemma {:induction false} DefsInNone(code: seq<Bytecode>)
    requires forall i :: 0 <= i < |code| ==> Defs(code[i]) == []
    ensures DefsIn(code) == []
  {
    if |code| > 0 {
      DefsInNone(code[1..]);
    }
  }

  lemma {:induction false} DefsInSingles(code: seq<Bytecode>, from: nat)
    requires forall i :: 0 <= i < |code| ==> Defs(code[i]) == [from + i]
    ensures DefsIn(code) == Temps(from, |code|)
  {
    if |code| > 0 {
      DefsInSingles(code[1..], from + 1);
      assert Defs(code[0]) == [from];
    }
  }

  lemma {:induction false} DefsInAppend(a: seq<Bytecode>, b: seq<Bytecode>)
    ensures DefsIn(a + b) == DefsIn(a) + DefsIn(b)
  {
    if |a| > 0 {
      assert (a + b)[1..] == a[1..] + b;
      DefsInAppend(a[1..], b);
    } else {
      assert a + b == b;
    }
  }

  lemma {:induction false} UsesInAppend(a: seq<Bytecode>, b: seq<Bytecode>)
    ensures UsesIn(a + b) == UsesIn(a) + UsesIn(b)
  {
    if |a| > 0 {
      assert (a + b)[1..] == a[1..] + b;
      UsesInAppend(a[1..], b);
    } else {
      assert a + b == b;
    }
  }

  // ---------------------------------------------------------------------
  // The effect of one instruction

  /** `FreezeRef` of a temporary that is not a mutable reference pops it
    * and emits nothing. */
  predicate FreezeDrops(ctx: Context, g: GenState, instr: MoveInstr)
    requires Operands(ctx, g, instr)
  {
    instr.Rf? && instr.rf.FreezeRefI?
    && var sig := g.fn.localTypes[TopOf(g)];
       !(sig.Reference? && sig.isMut)
  }

  /** `ReadRef` of a temporary that is not a reference pushes a temporary
    * without recording its type. */
  predicate ReadRefUntyped(ctx: Context, g: GenState, instr: MoveInstr)
    requires Operands(ctx, g, instr)
  {
    instr.Rf? && instr.rf.ReadRefI? && !g.fn.localTypes[TopOf(g)].Reference?
  }

  /** The number of fresh temporaries left on the stack. */
  function Pushed(ctx: Context, g: GenState, instr: MoveInstr): nat
    requires Operands(ctx, g, instr)
  {
    if FreezeDrops(ctx, g, instr) then 0 else Pushes(instr)
  }

  /** The number of fresh temporaries not left on the stack: the mutable
    * vector reference of a non-empty vector pack or unpack. */
  function HiddenCount(instr: MoveInstr): nat
  {
    if instr.Vc? && (instr.vc.VecPackI? || instr.vc.VecUnpackI?) && instr.vc.n > 0 then 1 else 0
  }

  /** The instructions whose uses are exactly the operands they pop. */
  predicate UsesStack(ctx: Context, g: GenState, instr: MoveInstr)
    requires Operands(ctx, g, instr)
  {
    LocalRead(instr).None? && !(instr.Vc? && (instr.vc.VecPackI? || instr.vc.VecUnpackI?))
    && !FreezeDrops(ctx, g, instr)
  }

  /** The code of an effect uses exactly the operands it pops. */
  predicate StackUses(g: GenState, e: Effect)
    requires e.pops <= |g.tempStack|
  {
    multiset(UsesIn(e.code)) == multiset(Top(g.tempStack, e.pops))
  }

  /** The code of an effect defines exactly the temporaries it allocates. */
  predicate FreshDefs(g: GenState, e: Effect)
  {
    multiset(DefsIn(e.code)) == multiset(Temps(g.tempCount, e.pushed + e.hidden))
  }

  /** All the code of an effect carries the attribute id `attr`. */
  predicate AttrsOf(attr: nat, e: Effect)
  {
    forall i :: 0 <= i < |e.code| ==> AttrOf(e.code[i]) == attr
  }

  /** What the effect of `instr` is, in terms of the instruction alone: it
    * pops the instruction's operands and pushes its results as fresh
    * temporaries; it types every fresh temporary (but for the untyped
    * read); all its code carries `attr`, defines exactly the fresh
    * temporaries (or the local a store writes) and uses exactly the popped
    * operands (or the local a copy, move or borrow reads). */
  predicate EffectOf(ctx: Context, g: GenState, attr: nat, instr: MoveInstr, e: Effect)
    requires Operands(ctx, g, instr)
  {
    var n := Pushed(ctx, g, instr);
    var stores := instr.Ctrl? && instr.ctrl.StLocI?;
    e.pops == Pops(ctx, instr) && e.pushed == n && e.hidden == HiddenCount(instr)
    && |e.types| == n + HiddenCount(instr) - (if ReadRefUntyped(ctx, g, instr) then 1 else 0)
    && AttrsOf(attr, e)
    && (stores ==> DefsIn(e.code) == [instr.ctrl.idx as nat])
    && (!stores ==> FreshDefs(g, e))
    && (UsesStack(ctx, g, instr) ==> StackUses(g, e))
    && (LocalRead(instr).Some? ==> UsesIn(e.code) == [LocalRead(instr).value])
  }

  // Shapes of the elementary effects

  lemma SinkShape(g: GenState, b: Bytecode)
    requires |g.tempStack| >= 1 && Defs(b) == [] && Uses(b) == [TopOf(g)]
    ensures StackUses(g, SinkE(b)) && FreshDefs(g, SinkE(b)) && AttrsOf(AttrOf(b), SinkE(b))
  {
    SingleIn(b);
    TopOne(g);
  }

  lemma UnaryShape(g: GenState, attr: nat, op: Operation, ty: Type)
    requires |g.tempStack| >= 1
    ensures var e := UnaryE(g, attr, op, ty);
      StackUses(g, e) && FreshDefs(g, e) && AttrsOf(attr, e)
  {
    SingleIn(UnaryE(g, attr, op, ty).code[0]);
    TopOne(g);
    assert Temps(g.tempCount, 1) == [g.tempCount];
  }

  lemma BinaryShape(g: GenState, attr: nat, op: Operation, ty: Type)
    requires |g.tempStack| >= 2
    ensures var e := BinaryE(g, attr, op, ty);
      StackUses(g, e) && FreshDefs(g, e) && AttrsOf(attr, e)
  {
    SingleIn(BinaryE(g, attr, op, ty).code[0]);
    TopTwo(g);
    assert Temps(g.tempCount, 1) == [g.tempCount];
  }

  lemma LoadShape(g: GenState, attr: nat, ty: Type, c: Constant)
    ensures var e := LoadE(g, attr, ty, c);
      StackUses(g, e) && FreshDefs(g, e) && AttrsOf(attr, e)
  {
    SingleIn(LoadE(g, attr, ty, c).code[0]);
    assert Temps(g.tempCount, 1) == [g.tempCount];
  }

  lemma SinkCodeShape(attr: nat, c: ControlInstr, s: nat, offset: nat, labels: map<nat, nat>)
    requires c.PopI? || c.BrTrueI? || c.BrFalseI? || c.AbortI?
    requires c.BrTrueI? || c.BrFalseI? ==> c.target in labels && offset + 1 in labels
    ensures var b := SinkCode(attr, c, s, offset, labels);
      Defs(b) == [] && Uses(b) == [s] && AttrOf(b) == attr
  {
  }

  lemma SinkEffectOf(ctx: Context, g: GenState, attr: nat, c: ControlInstr, offset: nat, labels: map<nat, nat>)
    requires (c.PopI? || c.BrTrueI? || c.BrFalseI? || c.AbortI?) && CanStep(ctx, g, Ctrl(c), offset, labels)
    ensures EffectOf(ctx, g, attr, Ctrl(c), ControlEffect(ctx, g, attr, c, offset, labels))
  {
    SinkCodeShape(attr, c, TopOf(g), offset, labels);
    SinkShape(g, SinkCode(attr, c, TopOf(g), offset, labels));
  }

  lemma StLocEffectOf(ctx: Context, g: GenState, attr: nat, c: ControlInstr, offset: nat, labels: map<nat, nat>)
    requires c.StLocI? && CanStep(ctx, g, Ctrl(c), offset, labels)
    ensures EffectOf(ctx, g, attr, Ctrl(c), ControlEffect(ctx, g, attr, c, offset, labels))
  {
    SingleIn(Assign(attr, c.idx as nat, TopOf(g), Store));
    TopOne(g);
  }

  lemma RetEffectOf(ctx: Context, g: GenState, attr: nat, c: ControlInstr, offset: nat, labels: map<nat, nat>)
    requires c.RetI? && CanStep(ctx, g, Ctrl(c), offset, labels)
    ensures EffectOf(ctx, g, attr, Ctrl(c), ControlEffect(ctx, g, attr, c, offset, labels))
  {
    SingleIn(Ret(attr, Top(g.tempStack, ctx.returnCount)));
  }

  lemma NopEffectOf(ctx: Context, g: GenState, attr: nat, c: ControlInstr, offset: nat, labels: map<nat, nat>)
    requires c.NopI? && CanStep(ctx, g, Ctrl(c), offset, labels)
    ensures EffectOf(ctx, g, attr, Ctrl(c), ControlEffect(ctx, g, attr, c, offset, labels))
  {
    SingleIn(Nop(attr));
  }

  lemma ControlEffectOf(ctx: Context, g: GenState, attr: nat, c: ControlInstr, offset: nat, labels: map<nat, nat>)
    requires CanStep(ctx, g, Ctrl(c), offset, labels)
    ensures EffectOf(ctx, g, attr, Ctrl(c), ControlEffect(ctx, g, attr, c, offset, labels))
  {
    if c.StLocI? {
      StLocEffectOf(ctx, g, attr, c, offset, labels);
    } else if c.RetI? {
      RetEffectOf(ctx, g, attr, c, offset, labels);
    } else if c.NopI? {
      NopEffectOf(ctx, g, attr, c, offset, labels);
    } else {
      SinkEffectOf(ctx, g, attr, c, offset, labels);
    }
  }

  lemma ConstLoadEffectOf(ctx: Context, g: GenState, attr: nat, l: LoadInstr)
    requires !(l.CopyLocI? || l.MoveLocI? || l.BorrowLocI?) && Operands(ctx, g, Ld(l))
    ensures EffectOf(ctx, g, attr, Ld(l), LoadEffect(ctx, g, attr, l))
  {
    LoadShape(g, attr, LoadedConstant(l).0, LoadedConstant(l).1);
  }

  lemma LocalLoadEffectOf(ctx: Context, g: GenState, attr: nat, l: LoadInstr)
    requires (l.CopyLocI? || l.MoveLocI?) && Operands(ctx, g, Ld(l))
    ensures EffectOf(ctx, g, attr, Ld(l), LoadEffect(ctx, g, attr, l))
  {
    var b := LoadEffect(ctx, g, attr, l).code[0];
    SingleIn(b);
    assert Temps(g.tempCount, 1) == [g.tempCount];
  }

  lemma BorrowLocEffectOf(ctx: Context, g: GenState, attr: nat, l: LoadInstr)
    requires l.BorrowLocI? && Operands(ctx, g, Ld(l))
    ensures EffectOf(ctx, g, attr, Ld(l), LoadEffect(ctx, g, attr, l))
  {
    SingleIn(CallB(attr, [g.tempCount], BorrowLoc, [l.idx as nat]));
    assert Temps(g.tempCount, 1) == [g.tempCount];
  }

  lemma LoadEffectOf(ctx: Context, g: GenState, attr: nat, l: LoadInstr)
    requires Operands(ctx, g, Ld(l))
    ensures EffectOf(ctx, g, attr, Ld(l), LoadEffect(ctx, g, attr, l))
  {
    if l.CopyLocI? || l.MoveLocI? {
      LocalLoadEffectOf(ctx, g, attr, l);
    } else if l.BorrowLocI? {
      BorrowLocEffectOf(ctx, g, attr, l);
    } else {
      ConstLoadEffectOf(ctx, g, attr, l);
    }
  }

  lemma StoreShape(g: GenState, attr: nat, op: Operation)
    requires |g.tempStack| >= 2
    ensures var e := StoreE(g, attr, op);
      StackUses(g, e) && FreshDefs(g, e) && AttrsOf(attr, e)
  {
    SingleIn(StoreE(g, attr, op).code[0]);
    TopTwo(g);
    var st := g.tempStack;
    assert [TopOf(g), SecondOf(g)] == [st[|st| - 1]] + [st[|st| - 2]];
    assert [SecondOf(g), TopOf(g)] == [st[|st| - 2]] + [st[|st| - 1]];
  }

  lemma UnaryArithEffectOf(ctx: Context, g: GenState, attr: nat, a: ArithInstr)
    requires (a.CastI? || a.NotI?) && Operands(ctx, g, Ar(a))
    ensures EffectOf(ctx, g, attr, Ar(a), ArithEffect(ctx, g, attr, a))
  {
    if a.CastI? {
      UnaryShape(g, attr, CastOperation(a.width), WidthType(a.width));
    } else {
      UnaryShape(g, attr, Not, Primitive(Bool));
    }
  }

  lemma BinaryArithEffectOf(ctx: Context, g: GenState, attr: nat, a: ArithInstr)
    requires !(a.CastI? || a.NotI?) && Operands(ctx, g, Ar(a))
    ensures EffectOf(ctx, g, attr, Ar(a), ArithEffect(ctx, g, attr, a))
  {
    BinaryShape(g, attr, BinaryOperation(a), BinaryResultType(g, a));
  }

  lemma ArithEffectOf(ctx: Context, g: GenState, attr: nat, a: ArithInstr)
    requires Operands(ctx, g, Ar(a))
    ensures EffectOf(ctx, g, attr, Ar(a), ArithEffect(ctx, g, attr, a))
  {
    if a.CastI? || a.NotI? {
      UnaryArithEffectOf(ctx, g, attr, a);
    } else {
      BinaryArithEffectOf(ctx, g, attr, a);
    }
  }

  lemma FreezeEffectOf(ctx: Context, g: GenState, attr: nat, r: RefInstr)
    requires r.FreezeRefI? && Operands(ctx, g, Rf(r))
    ensures EffectOf(ctx, g, attr, Rf(r), ReferenceEffect(ctx, g, attr, r))
  {
    var sig := g.fn.localTypes[TopOf(g)];
    if sig.Reference? && sig.isMut {
      assert !FreezeDrops(ctx, g, Rf(r)) && Pushed(ctx, g, Rf(r)) == 1 && UsesStack(ctx, g, Rf(r));
      UnaryShape(g, attr, FreezeRef, Reference(false, sig.referent));
    } else {
      assert FreezeDrops(ctx, g, Rf(r)) && Pushed(ctx, g, Rf(r)) == 0;
      assert Temps(g.tempCount, 0) == [];
    }
  }

  lemma ReadShape(g: GenState, attr: nat, types: seq<Type>)
    requires |g.tempStack| >= 1
    ensures var e := ReadE(g, attr, types);
      StackUses(g, e) && FreshDefs(g, e) && AttrsOf(attr, e)
  {
    SingleIn(ReadE(g, attr, types).code[0]);
    TopOne(g);
    assert Temps(g.tempCount, 1) == [g.tempCount];
  }

  lemma ReadRefEffectOf(ctx: Context, g: GenState, attr: nat, r: RefInstr)
    requires r.ReadRefI? && Operands(ctx, g, Rf(r))
    ensures EffectOf(ctx, g, attr, Rf(r), ReferenceEffect(ctx, g, attr, r))
  {
    var sig := g.fn.localTypes[TopOf(g)];
    var types := if sig.Reference? then [sig.referent] else [];
    assert ReferenceEffect(ctx, g, attr, r) == ReadE(g, attr, types);
    assert !FreezeDrops(ctx, g, Rf(r)) && Pushed(ctx, g, Rf(r)) == 1 && UsesStack(ctx, g, Rf(r));
    assert ReadRefUntyped(ctx, g, Rf(r)) <==> !sig.Reference?;
    ReadShape(g, attr, types);
  }

  lemma StoreEffectOf(ctx: Context, g: GenState, attr: nat, r: RefInstr)
    requires (r.WriteRefI? || r.MoveToI?) && Operands(ctx, g, Rf(r))
    ensures EffectOf(ctx, g, attr, Rf(r), ReferenceEffect(ctx, g, attr, r))
  {
    if r.WriteRefI? {
      StoreShape(g, attr, WriteRef);
    } else {
      StoreShape(g, attr, MoveTo(r.mid, r.sid, r.targs));
    }
  }

  lemma UnaryRefEffectOf(ctx: Context, g: GenState, attr: nat, r: RefInstr)
    requires !(r.FreezeRefI? || r.ReadRefI? || r.WriteRefI? || r.MoveToI?) && Operands(ctx, g, Rf(r))
    ensures EffectOf(ctx, g, attr, Rf(r), ReferenceEffect(ctx, g, attr, r))
  {
    UnaryShape(g, attr, RefOperation(r), RefResultType(r));
  }

  lemma ReferenceEffectOf(ctx: Context, g: GenState, attr: nat, r: RefInstr)
    requires Operands(ctx, g, Rf(r))
    ensures EffectOf(ctx, g, attr, Rf(r), ReferenceEffect(ctx, g, attr, r))
  {
    if r.FreezeRefI? {
      FreezeEffectOf(ctx, g, attr, r);
    } else if r.ReadRefI? {
      ReadRefEffectOf(ctx, g, attr, r);
    } else if r.WriteRefI? || r.MoveToI? {
      StoreEffectOf(ctx, g, attr, r);
    } else {
      UnaryRefEffectOf(ctx, g, attr, r);
    }
  }

  lemma CallEffectOf(ctx: Context, g: GenState, attr: nat, c: CallInstr)
    requires c.CallI? && Operands(ctx, g, Cl(c))
    ensures EffectOf(ctx, g, attr, Cl(c), CallEffect(ctx, g, attr, c))
  {
    SingleIn(CallB(attr, Temps(g.tempCount, |c.retTypes|), Function(c.mid, c.fid, c.targs), Top(g.tempStack, c.argCount)));
  }

  lemma PackEffectOf(ctx: Context, g: GenState, attr: nat, c: CallInstr)
    requires c.PackI? && Operands(ctx, g, Cl(c))
    ensures EffectOf(ctx, g, attr, Cl(c), CallEffect(ctx, g, attr, c))
  {
    SingleIn(CallB(attr, [g.tempCount], Pack(c.mid, c.sid, c.targs), Top(g.tempStack, c.fieldCount)));
    assert Temps(g.tempCount, 1) == [g.tempCount];
  }

  lemma UnpackEffectOf(ctx: Context, g: GenState, attr: nat, c: CallInstr)
    requires c.UnpackI? && Operands(ctx, g, Cl(c))
    ensures EffectOf(ctx, g, attr, Cl(c), CallEffect(ctx, g, attr, c))
  {
    SingleIn(CallB(attr, Temps(g.tempCount, |c.fieldTypes|), Unpack(c.mid, c.sid, c.targs), [TopOf(g)]));
    TopOne(g);
  }

  lemma CallGroupEffectOf(ctx: Context, g: GenState, attr: nat, c: CallInstr)
    requires Operands(ctx, g, Cl(c))
    ensures EffectOf(ctx, g, attr, Cl(c), CallEffect(ctx, g, attr, c))
  {
    if c.CallI? {
      CallEffectOf(ctx, g, attr, c);
    } else if c.PackI? {
      PackEffectOf(ctx, g, attr, c);
    } else {
      UnpackEffectOf(ctx, g, attr, c);
    }
  }

  /** `vector::pack` defines the vector and, for a non-empty pack, the
    * borrow of it. */
  lemma VecPackCodeDefs(ctx: Context, attr: nat, ty: Type, tc: nat, ops: seq<nat>)
    ensures DefsIn(VecPackCode(ctx, attr, ty, tc, ops)) == Temps(tc, if |ops| == 0 then 1 else 2)
    ensures forall i :: 0 <= i < |VecPackCode(ctx, attr, ty, tc, ops)| ==> AttrOf(VecPackCode(ctx, attr, ty, tc, ops)[i]) == attr
  {
    var first := CallB(attr, [tc], VecOp(ctx, "empty", [ty]), []);
    SingleIn(first);
    if |ops| == 0 {
      assert Temps(tc, 1) == [tc];
    } else {
      var borrow := CallB(attr, [tc + 1], BorrowLoc, [tc]);
      var pushes := seq(|ops|, i requires 0 <= i < |ops| => CallB(attr, [], VecOp(ctx, "push_back", [ty]), [tc + 1, ops[i]]));
      SingleIn(borrow);
      DefsInNone(pushes);
      DefsInAppend([first], [borrow] + pushes);
      DefsInAppend([borrow], pushes);
      assert VecPackCode(ctx, attr, ty, tc, ops) == [first] + ([borrow] + pushes);
      assert Temps(tc, 2) == [tc, tc + 1];
    }
  }

  /** `vector::unpack` defines the popped elements and, for a non-empty
    * unpack, the borrow of the vector. */
  lemma VecUnpackCodeDefs(ctx: Context, attr: nat, ty: Type, tc: nat, n: nat, s: nat)
    ensures multiset(DefsIn(VecUnpackCode(ctx, attr, ty, tc, n, s))) == multiset(Temps(tc, if n == 0 then 0 else n + 1))
  {
    var last := CallB(attr, [], VecOp(ctx, "destroy_empty", [ty]), [s]);
    SingleIn(last);
    if n == 0 {
      assert VecUnpackCode(ctx, attr, ty, tc, n, s) == [last];
    } else {
      var borrow := CallB(attr, [tc + n], BorrowLoc, [s]);
      var pops := seq(n, i requires 0 <= i < n => CallB(attr, [tc + i], VecOp(ctx, "pop_back", [ty]), [tc + n]));
      forall i | 0 <= i < n
        ensures Defs(pops[i]) == [tc + i]
      {
      }
      SingleIn(borrow);
      DefsInSingles(pops, tc);
      DefsInAppend([borrow] + pops, [last]);
      DefsInAppend([borrow], pops);
      assert VecUnpackCode(ctx, attr, ty, tc, n, s) == ([borrow] + pops) + [last];
      var d := DefsIn(VecUnpackCode(ctx, attr, ty, tc, n, s));
      assert d == [tc + n] + Temps(tc, n);
      assert Temps(tc, n + 1) == Temps(tc, n) + [tc + n];
    }
  }

  lemma VecUnpackCodeAttrs(ctx: Context, attr: nat, ty: Type, tc: nat, n: nat, s: nat)
    ensures forall i :: 0 <= i < |VecUnpackCode(ctx, attr, ty, tc, n, s)| ==> AttrOf(VecUnpackCode(ctx, attr, ty, tc, n, s)[i]) == attr
  {
    var code := VecUnpackCode(ctx, attr, ty, tc, n, s);
    forall i | 0 <= i < |code|
      ensures AttrOf(code[i]) == attr
    {
      if n > 0 && 0 < i <= n {
        assert code[i] == CallB(attr, [tc + (i - 1)], VecOp(ctx, "pop_back", [ty]), [tc + n]);
      }
    }
  }

  lemma NotReference(ctx: Context, g: GenState, instr: MoveInstr)
    requires Operands(ctx, g, instr) && !instr.Rf?
    ensures !FreezeDrops(ctx, g, instr) && !ReadRefUntyped(ctx, g, instr) && Pushed(ctx, g, instr) == Pushes(instr)
  {
  }

  lemma VecPackEffectOf(ctx: Context, g: GenState, attr: nat, v: VecInstr)
    requires v.VecPackI? && Operands(ctx, g, Vc(v))
    ensures EffectOf(ctx, g, attr, Vc(v), VectorEffect(ctx, g, attr, v))
  {
    var n := v.n as nat;
    var e := VectorEffect(ctx, g, attr, v);
    var code := VecPackCode(ctx, attr, v.ty, g.tempCount, Top(g.tempStack, n));
    assert e == Effect(n, 1, if n == 0 then 0 else 1, [Vector(v.ty)] + (if n == 0 then [] else [Reference(true, Vector(v.ty))]), code);
    NotReference(ctx, g, Vc(v));
    assert Pushed(ctx, g, Vc(v)) == 1 && !UsesStack(ctx, g, Vc(v));
    VecPackCodeDefs(ctx, attr, v.ty, g.tempCount, Top(g.tempStack, n));
    assert FreshDefs(g, e) && AttrsOf(attr, e);
  }

  lemma VecUnpackEffectOf(ctx: Context, g: GenState, attr: nat, v: VecInstr)
    requires v.VecUnpackI? && Operands(ctx, g, Vc(v))
    ensures EffectOf(ctx, g, attr, Vc(v), VectorEffect(ctx, g, attr, v))
  {
    var n := v.n as nat;
    var h := if n == 0 then 0 else 1;
    var e := VectorEffect(ctx, g, attr, v);
    var code := VecUnpackCode(ctx, attr, v.ty, g.tempCount, n, TopOf(g));
    assert e == Effect(1, n, h, seq(n, i => v.ty) + (if n == 0 then [] else [Reference(true, Vector(v.ty))]), code);
    NotReference(ctx, g, Vc(v));
    assert Pushed(ctx, g, Vc(v)) == n && HiddenCount(Vc(v)) == h && !UsesStack(ctx, g, Vc(v));
    VecUnpackCodeDefs(ctx, attr, v.ty, g.tempCount, n, TopOf(g));
    VecUnpackCodeAttrs(ctx, attr, v.ty, g.tempCount, n, TopOf(g));
    assert FreshDefs(g, e) && AttrsOf(attr, e);
  }

  lemma VecUnaryEffectOf(ctx: Context, g: GenState, attr: nat, v: VecInstr)
    requires (v.VecLenI? || v.VecPopBackI?) && Operands(ctx, g, Vc(v))
    ensures EffectOf(ctx, g, attr, Vc(v), VectorEffect(ctx, g, attr, v))
  {
    NotReference(ctx, g, Vc(v));
    assert Pushed(ctx, g, Vc(v)) == 1 && UsesStack(ctx, g, Vc(v));
    if v.VecLenI? {
      assert VectorEffect(ctx, g, attr, v) == UnaryE(g, attr, VecOp(ctx, "length", v.tys), Primitive(U64));
      UnaryShape(g, attr, VecOp(ctx, "length", v.tys), Primitive(U64));
    } else {
      assert VectorEffect(ctx, g, attr, v) == UnaryE(g, attr, VecOp(ctx, "pop_back", [v.ty]), v.ty);
      UnaryShape(g, attr, VecOp(ctx, "pop_back", [v.ty]), v.ty);
    }
  }

  lemma VecBorrowEffectOf(ctx: Context, g: GenState, attr: nat, v: VecInstr)
    requires v.VecBorrowI? && Operands(ctx, g, Vc(v))
    ensures EffectOf(ctx, g, attr, Vc(v), VectorEffect(ctx, g, attr, v))
  {
    var op := VecOp(ctx, if v.isMut then "borrow_mut" else "borrow", [v.ty]);
    NotReference(ctx, g, Vc(v));
    assert Pushed(ctx, g, Vc(v)) == 1 && UsesStack(ctx, g, Vc(v));
    assert VectorEffect(ctx, g, attr, v) == BinaryE(g, attr, op, Reference(v.isMut, v.ty));
    BinaryShape(g, attr, op, Reference(v.isMut, v.ty));
  }

  lemma VecUpdateEffectOf(ctx: Context, g: GenState, attr: nat, v: VecInstr)
    requires (v.VecPushBackI? || v.VecSwapI?) && Operands(ctx, g, Vc(v))
    ensures EffectOf(ctx, g, attr, Vc(v), VectorEffect(ctx, g, attr, v))
  {
    var e := VectorEffect(ctx, g, attr, v);
    NotReference(ctx, g, Vc(v));
    assert Pushed(ctx, g, Vc(v)) == 0 && UsesStack(ctx, g, Vc(v));
    assert |e.code| == 1 && Uses(e.code[0]) == Top(g.tempStack, e.pops) && Defs(e.code[0]) == [];
    SingleIn(e.code[0]);
    assert e.code == [e.code[0]];
    assert Temps(g.tempCount, 0) == [];
  }

  lemma VectorEffectOf(ctx: Context, g: GenState, attr: nat, v: VecInstr)
    requires Operands(ctx, g, Vc(v))
    ensures EffectOf(ctx, g, attr, Vc(v), VectorEffect(ctx, g, attr, v))
  {
    if v.VecPackI? {
      VecPackEffectOf(ctx, g, attr, v);
    } else if v.VecUnpackI? {
      VecUnpackEffectOf(ctx, g, attr, v);
    } else if v.VecLenI? || v.VecPopBackI? {
      VecUnaryEffectOf(ctx, g, attr, v);
    } else if v.VecBorrowI? {
      VecBorrowEffectOf(ctx, g, attr, v);
    } else {
      VecUpdateEffectOf(ctx, g, attr, v);
    }
  }

  /** Every instruction but the unconditional branch has the effect its
    * operand counts, results and operands describe. */
  lemma InstrEffectOf(ctx: Context, g: GenState, attr: nat, instr: MoveInstr, offset: nat, labels: map<nat, nat>)
    requires !instr.BranchI? && CanStep(ctx, g, instr, offset, labels)
    ensures EffectOf(ctx, g, attr, instr, InstrEffect(ctx, g, attr, instr, offset, labels))
  {
    match instr
    case Ctrl(c) => ControlEffectOf(ctx, g, attr, c, offset, labels);
    case Ld(l) => LoadEffectOf(ctx, g, attr, l);
    case Ar(a) => ArithEffectOf(ctx, g, attr, a);
    case Rf(r) => ReferenceEffectOf(ctx, g, attr, r);
    case Cl(c) => CallGroupEffectOf(ctx, g, attr, c);
    case Vc(v) => VectorEffectOf(ctx, g, attr, v);
  }

  // ---------------------------------------------------------------------
  // One step of the translation

  /** What the prelude of an offset does to the code and the location
    * table: `ids` are the attribute ids it hands out, `emitted` the label
    * it emits. */
  ghost predicate PreludeDoes(ctx: Context, g0: GenState, g: GenState, ids: set<nat>, emitted: seq<Bytecode>)
  {
    var t := g0.fn.locationTable;
    && g.fn.code == g0.fn.code + emitted
    && g.fn.locationTable.Keys == t.Keys + ids
    && MoveUtils.DenseTable(g.fn.locationTable)
    && (forall a :: a in t ==> g.fn.locationTable[a] == t[a])
    && (forall a :: a in ids ==> g.fn.locationTable[a] == ctx.loc)
    && g == g0.(fn := g0.fn.(code := g.fn.code, locationTable := g.fn.locationTable))
  }

  lemma UnlabelledPrelude(ctx: Context, g0: GenState, offset: nat, labels: map<nat, nat>)
    requires MoveUtils.DenseTable(g0.fn.locationTable) && offset !in labels
    ensures var (g, attr) := Prelude(ctx, g0, offset, labels);
      var t := g0.fn.locationTable;
      attr == |t| && |g.fn.locationTable| == |t| + 1 && PreludeDoes(ctx, g0, g, {attr}, [])
  {
    MoveUtils.NewLocAttrGrows(g0.fn.locationTable, ctx.loc);
  }

  lemma LabelledPrelude(ctx: Context, g0: GenState, offset: nat, labels: map<nat, nat>)
    requires MoveUtils.DenseTable(g0.fn.locationTable) && offset in labels
    ensures var (g, attr) := Prelude(ctx, g0, offset, labels);
      var t := g0.fn.locationTable;
      attr == |t| + 1 && |g.fn.locationTable| == |t| + 2
      && PreludeDoes(ctx, g0, g, {|t|, attr}, [Label(|t|, labels[offset])])
  {
    var t := g0.fn.locationTable;
    var (h, la) := NewAttr(g0, ctx.loc);
    MoveUtils.NewLocAttrGrows(t, ctx.loc);
    var t1 := h.fn.locationTable;
    assert la == |t| && t1 == t[la := ctx.loc];
    var g1 := h.(fn := h.fn.(code := h.fn.code + [Label(la, labels[offset])]));
    var (g, attr) := NewAttr(g1, ctx.loc);
    assert (g, attr) == Prelude(ctx, g0, offset, labels);
    MoveUtils.NewLocAttrGrows(t1, ctx.loc);
    var t2 := g.fn.locationTable;
    assert attr == |t1| == |t| + 1 && t2 == t1[attr := ctx.loc];
    assert t2.Keys == t.Keys + {|t|, attr};
    assert g.fn.code == g0.fn.code + [Label(|t|, labels[offset])];
  }

  /** The label of a labelled offset comes first, under the attribute id
    * `|t|`; the instruction's own attribute id is the next one. Ids are
    * handed out densely, every one recording the function's location, and
    * nothing else changes. */
  lemma PreludeSpec(ctx: Context, g0: GenState, offset: nat, labels: map<nat, nat>)
    requires MoveUtils.DenseTable(g0.fn.locationTable)
    ensures var (g, attr) := Prelude(ctx, g0, offset, labels);
      var t := g0.fn.locationTable;
      var labelled := offset in labels;
      && attr == |t| + (if labelled then 1 else 0)
      && |g.fn.locationTable| == attr + 1
      && PreludeDoes(ctx, g0, g, {|t|, attr}, if labelled then [Label(|t|, labels[offset])] else [])
  {
    if offset in labels {
      LabelledPrelude(ctx, g0, offset, labels);
    } else {
      UnlabelledPrelude(ctx, g0, offset, labels);
      var attr := Prelude(ctx, g0, offset, labels).1;
      assert {|g0.fn.locationTable|, attr} == {attr};
    }
  }

  /** A non-branch instruction pops `Pops` operands and pushes `Pushed`
    * fresh temporaries numbered from the old `temp_count`; the temporary
    * count also covers the hidden ones, one type is recorded per fresh
    * temporary, and the emitted code follows the label. */
  lemma StepSpec(ctx: Context, g0: GenState, instr: MoveInstr, offset: nat, labels: map<nat, nat>)
    requires !instr.BranchI? && CanStep(ctx, g0, instr, offset, labels)
    ensures var g := Step(ctx, g0, instr, offset, labels);
      var (p, attr) := Prelude(ctx, g0, offset, labels);
      var e := InstrEffect(ctx, g0, attr, instr, offset, labels);
      var st := g0.tempStack;
      && EffectOf(ctx, g0, attr, instr, e)
      && g.tempCount == g0.tempCount + Pushed(ctx, g0, instr) + HiddenCount(instr)
      && g.tempStack == st[..|st| - Pops(ctx, instr)] + Temps(g0.tempCount, Pushed(ctx, g0, instr))
      && g.fn.localTypes == g0.fn.localTypes + e.types
      && g.fn.code == p.fn.code + e.code
      && g.fn.locationTable == p.fn.locationTable
      && g.fn.fallthroughLabels == g0.fn.fallthroughLabels
  {
    var (p, attr) := Prelude(ctx, g0, offset, labels);
    InstrEffectOf(ctx, g0, attr, instr, offset, labels);
  }

  /** Every temporary on the stack has already been allocated. */
  predicate StackAllocated(g: GenState)
  {
    forall i :: 0 <= i < |g.tempStack| ==> g.tempStack[i] < g.tempCount
  }

  /** The local types cover exactly the allocated temporaries. */
  predicate Typed(g: GenState)
  {
    |g.fn.localTypes| == g.tempCount
  }

  lemma StepKeepsStackAllocated(ctx: Context, g0: GenState, instr: MoveInstr, offset: nat, labels: map<nat, nat>)
    requires CanStep(ctx, g0, instr, offset, labels) && StackAllocated(g0)
    ensures StackAllocated(Step(ctx, g0, instr, offset, labels))
  {
    if !instr.BranchI? {
      StepSpec(ctx, g0, instr, offset, labels);
      var g := Step(ctx, g0, instr, offset, labels);
      var st := g0.tempStack;
      var keep := |st| - Pops(ctx, instr);
      forall i | 0 <= i < |g.tempStack|
        ensures g.tempStack[i] < g.tempCount
      {
        if i < keep {
          assert g.tempStack[i] == st[i];
        } else {
          assert g.tempStack[i] == g0.tempCount + (i - keep);
        }
      }
    }
  }

  /** Every instruction records the type of each temporary it allocates,
    * except a read through a temporary not typed as a reference. */
  lemma StepKeepsTyped(ctx: Context, g0: GenState, instr: MoveInstr, offset: nat, labels: map<nat, nat>)
    requires CanStep(ctx, g0, instr, offset, labels) && Typed(g0)
    ensures Typed(Step(ctx, g0, instr, offset, labels)) <==> !ReadRefUntyped(ctx, g0, instr)
  {
    if !instr.BranchI? {
      StepSpec(ctx, g0, instr, offset, labels);
    }
  }

  /** The unconditional branch leaves the stack, the count and the types
    * alone and only rewrites the code. */
  lemma BranchStepSpec(ctx: Context, g0: GenState, target: nat, offset: nat, labels: map<nat, nat>)
    requires CanStep(ctx, g0, BranchI(target), offset, labels)
    ensures var g := Step(ctx, g0, BranchI(target), offset, labels);
      var (p, attr) := Prelude(ctx, g0, offset, labels);
      && g.tempCount == g0.tempCount && g.tempStack == g0.tempStack
      && g.fn.localTypes == g0.fn.localTypes
      && g.fn.code == BranchCode(p.fn.code, g0.fn.fallthroughLabels, attr, labels[target])
  {
  }

  /** The labels an instruction transfers control to. */
  function Targets(b: Bytecode): set<nat>
  {
    match b
    case Jump(_, t) => {t}
    case Branch(_, t, e, _) => {t, e}
    case _ => {}
  }

  /** The labels some instruction of the code transfers control to. */
  function NamedLabels(code: seq<Bytecode>): set<nat>
  {
    set i, l | 0 <= i < |code| && l in Targets(code[i]) :: l
  }

  /** The number of `Label` instructions of the code. */
  function LabelCount(code: seq<Bytecode>): nat
    decreases |code|
  {
    if |code| == 0 then 0 else LabelCount(code[..|code| - 1]) + (if code[|code| - 1].Label? then 1 else 0)
  }

  lemma {:induction false} LabelCountAppend(a: seq<Bytecode>, b: seq<Bytecode>)
    ensures LabelCount(a + b) == LabelCount(a) + LabelCount(b)
    decreases |b|
  {
    if |b| == 0 {
      assert a + b == a;
    } else {
      assert (a + b)[..|a + b| - 1] == a + b[..|b| - 1];
      LabelCountAppend(a, b[..|b| - 1]);
    }
  }

  /** The branch rewrite ends the code with a transfer to the target (a
    * jump, or the folded conditional branch whose else label it becomes),
    * keeps every instruction before the last, removes at most one `Label`
    * and only a fall-through one, and names no label that the code did not
    * already name besides the target. */
  lemma BranchCodeSpec(code: seq<Bytecode>, fallthrough: set<nat>, attr: nat, target: nat)
    ensures var r := BranchCode(code, fallthrough, attr, target);
      && |r| > 0
      && (r[|r| - 1] == Jump(attr, target) || (r[|r| - 1].Branch? && r[|r| - 1].elseLabel == target))
      && (forall i :: 0 <= i < |r| - 1 ==> r[i] == code[i])
      && (forall b :: b in r && b.Label? ==> b in code)
      && (forall b :: b in code && b.Label? && b !in r ==> b.lab in fallthrough)
      && LabelCount(r) <= LabelCount(code) <= LabelCount(r) + 1
      && NamedLabels(r) <= NamedLabels(code) + {target}
  {
    var r := BranchCode(code, fallthrough, attr, target);
    var at := |code|;
    if at >= 2 && code[at - 2].Branch? && code[at - 1].Label?
       && code[at - 1].lab in fallthrough && code[at - 2].elseLabel == code[at - 1].lab {
      var br := Branch(code[at - 2].battr, code[at - 2].thenLabel, target, code[at - 2].cond);
      var pre := code[..at - 2];
      assert r == pre + [br];
      assert code == pre + [code[at - 2], code[at - 1]];
      LabelCountAppend(pre, [br]);
      LabelCountAppend(pre, [code[at - 2], code[at - 1]]);
      assert LabelCount([code[at - 2], code[at - 1]]) == 1 by {
        assert [code[at - 2], code[at - 1]][..1] == [code[at - 2]];
      }
      forall l | l in NamedLabels(r)
        ensures l in NamedLabels(code) + {target}
      {
        var i :| 0 <= i < |r| && l in Targets(r[i]);
        if i < at - 2 {
          assert r[i] == code[i];
        } else if l != target {
          assert l == code[at - 2].thenLabel && l in Targets(code[at - 2]);
        }
      }
    } else {
      LabelCountAppend(code, [Jump(attr, target)]);
      forall l | l in NamedLabels(r)
        ensures l in NamedLabels(code) + {target}
      {
        var i :| 0 <= i < |r| && l in Targets(r[i]);
        if i < at {
          assert r[i] == code[i];
        }
      }
    }
  }
}
