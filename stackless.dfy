/** The stackless intermediate representation the analyser produces and every
  * detector consumes: Move model types, constants, operations and bytecodes.
  * Module ids are indexes into the module-handle table (0 is the module under
  * analysis); function and struct ids are identified by their symbol's text. */
module Stackless {

  // Unsigned machine integers of Move.
  type u8 = x: int | 0 <= x < 0x100
  type u16 = x: int | 0 <= x < 0x1_0000
  type u32 = x: int | 0 <= x < 0x1_0000_0000
  type u64 = x: int | 0 <= x < 0x1_0000_0000_0000_0000
  type u128 = x: int | 0 <= x < 0x1_0000_0000_0000_0000_0000_0000_0000_0000
  type u256 = x: int | 0 <= x < 0x1_0000_0000_0000_0000_0000_0000_0000_0000_0000_0000_0000_0000_0000_0000_0000_0000

  const U256_MODULUS: int := 0x1_0000_0000_0000_0000_0000_0000_0000_0000_0000_0000_0000_0000_0000_0000_0000_0000

  datatype PrimitiveType =
    | Bool | U8 | U16 | U32 | U64 | U128 | U256 | Address | Signer
    | Num | Range | EventStore

  datatype Type =
    | Primitive(prim: PrimitiveType)
    | Tuple(elems: seq<Type>)
    | Vector(elem: Type)
    | Struct(mid: nat, sid: string, targs: seq<Type>)
    | TypeParameter(index: nat)
    | Reference(isMut: bool, referent: Type)
    | Error

  predicate IsMutableReference(t: Type)
  {
    t.Reference? && t.isMut
  }

  predicate IsReference(t: Type)
  {
    t.Reference?
  }

  /** The unsigned integer types, by width. */
  function UintType(bits: nat): Type
  {
    if bits == 8 then Primitive(U8)
    else if bits == 16 then Primitive(U16)
    else if bits == 32 then Primitive(U32)
    else if bits == 64 then Primitive(U64)
    else if bits == 128 then Primitive(U128)
    else Primitive(U256)
  }

  datatype Constant =
    | BoolC(b: bool)
    | U8C(v8: u8)
    | U16C(v16: u16)
    | U32C(v32: u32)
    | U64C(v64: u64)
    | U128C(v128: u128)
    | U256C(v256: u256)
    | AddressC(addr: nat)
    | ByteArray(bytes: seq<u8>)
    | AddressArray(addrs: seq<nat>)
    | VectorC(elems: seq<Constant>)

  datatype HavocKind = HavocValue | MutationValue | MutationAll

  datatype BorrowNode =
    | GlobalRoot(gmid: nat, gsid: string, gtargs: seq<Type>)
    | LocalRoot(localIdx: nat)
    | ReferenceNode(refIdx: nat)
    | ReturnPlaceholder(retIdx: nat)

  datatype BorrowEdge = FieldEdge(fieldOffset: nat) | IndexEdge | DirectEdge | HyperEdge(parts: seq<BorrowEdge>)

  datatype Operation =
    // calls
    | Function(mid: nat, fid: string, targs: seq<Type>)
    | OpaqueCallBegin(omid: nat, ofid: string, otargs: seq<Type>)
    | OpaqueCallEnd(emid: nat, efid: string, etargs: seq<Type>)
    // structs
    | Pack(pmid: nat, psid: string, ptargs: seq<Type>)
    | Unpack(umid: nat, usid: string, utargs: seq<Type>)
    // borrows
    | BorrowLoc
    | BorrowField(bmid: nat, bsid: string, btargs: seq<Type>, offset: nat)
    | BorrowGlobal(gmid: nat, gsid: string, gtargs: seq<Type>)
    | GetField(fmid: nat, fsid: string, ftargs: seq<Type>, foffset: nat)
    | GetGlobal(ggmid: nat, ggsid: string, ggtargs: seq<Type>)
    // resources
    | MoveTo(tmid: nat, tsid: string, ttargs: seq<Type>)
    | MoveFrom(fromMid: nat, fromSid: string, fromTargs: seq<Type>)
    | Exists(xmid: nat, xsid: string, xtargs: seq<Type>)
    // builtins
    | Uninit | Destroy | ReadRef | WriteRef | FreezeRef
    // memory model
    | UnpackRef | PackRef | UnpackRefDeep | PackRefDeep
    | WriteBack(node: BorrowNode, edge: BorrowEdge)
    | IsParent(pnode: BorrowNode, pedge: BorrowEdge)
    | Havoc(kind: HavocKind)
    | Stop
    // unary
    | CastU8 | CastU16 | CastU32 | CastU64 | CastU128 | CastU256 | Not
    // binary
    | Add | Sub | Mul | Div | Mod | BitOr | BitAnd | Xor | Shl | Shr
    | Lt | Gt | Le | Ge | Or | And | Eq | Neq
    // debugging
    | TraceLocal(local: nat) | TraceReturn(ret: nat) | TraceAbort
    | TraceExp(expId: nat) | EmitEvent | EventStoreDiverge | TraceGlobalMem(memId: nat)

  /** A qualified function id: a module index and a function name (the
    * symbol a `FunId` interns). */
  datatype Qid = Qid(moduleIdx: nat, fun: string)

  datatype AssignKind = Copy | Move | Store

  datatype AbortAction = AbortAction(abortLabel: nat, abortCode: nat)

  datatype Bytecode =
    | Assign(aattr: nat, dst: nat, src: nat, kind: AssignKind)
    | Call(cattr: nat, dsts: seq<nat>, op: Operation, srcs: seq<nat>, onAbort: AbortActionOpt)
    | Ret(rattr: nat, rets: seq<nat>)
    | Load(lattr: nat, ldst: nat, cons: Constant)
    | Branch(battr: nat, thenLabel: nat, elseLabel: nat, cond: nat)
    | Jump(jattr: nat, target: nat)
    | Label(labAttr: nat, lab: nat)
    | Abort(abAttr: nat, code: nat)
    | Nop(nattr: nat)
    | SaveMem(smAttr: nat, smLabel: nat, smMem: nat)
    | SaveSpecVar(svAttr: nat, svLabel: nat, svVar: nat)
    | Prop(prAttr: nat, propKind: PropKind, propId: nat)

  datatype PropKind = PropAssume | PropAssert | PropModifies

  datatype AbortActionOpt = NoAbort | OnAbort(action: AbortAction)

  /** `Bytecode::is_branch` of the stackless-bytecode library (not part of
    * this model's sources): a conditional branch (a Branch, or a Call with an
    * abort action) or an unconditional one (Ret, Jump, Abort, a `stop` call). */
  predicate IsBranch(b: Bytecode)
  {
    b.Branch? || b.Jump? || b.Ret? || b.Abort?
    || (b.Call? && (b.onAbort.OnAbort? || b.op == Stop))
  }

  /** A call of a Move function (`Operation::Function`). */
  predicate IsFunctionCall(b: Bytecode)
  {
    b.Call? && b.op.Function?
  }

  /** A call of the builtin `destroy`. */
  predicate IsDestroy(b: Bytecode)
  {
    b.Call? && b.op == Destroy
  }

  /** The unsigned integer types. */
  predicate UintPrim(p: PrimitiveType)
  {
    p.U8? || p.U16? || p.U32? || p.U64? || p.U128? || p.U256?
  }

  /** The unsigned width of a primitive integer type, 0 for every other type. */
  function UBits(t: Type): (w: nat)
    ensures w == 0 || w == 8 || w == 16 || w == 32 || w == 64 || w == 128 || w == 256
    ensures w != 0 <==> t.Primitive? && UintPrim(t.prim)
  {
    match t
    case Primitive(U8) => 8
    case Primitive(U16) => 16
    case Primitive(U32) => 32
    case Primitive(U64) => 64
    case Primitive(U128) => 128
    case Primitive(U256) => 256
    case _ => 0
  }
}
