/** Upper-bound tracking over the temporaries of one function
  * (`src/move_ir/data_dependency.rs`). Every temporary the analyser has seen
  * written maps to a dependency node: the operation, constant, parameter type
  * or assignment that produced it, the nodes it was computed from, an upper
  * bound on its unsigned value (a 256-bit unsigned integer, here a bounded
  * `nat`) and whether that bound is taken from constants. */
module DataDependency {
  import opened Stackless
  import opened Wrappers
  import opened BytecodeGen

  // ---------------------------------------------------------------------
  // Unsigned widths and bounds
  // ---------------------------------------------------------------------

  function Pow2(n: nat): (p: nat)
    ensures p >= 1
  {
    if n == 0 then 1 else 2 * Pow2(n - 1)
  }

  lemma {:induction false} Pow2Add(a: nat, b: nat)
    ensures Pow2(a + b) == Pow2(a) * Pow2(b)
  {
    if a > 0 {
      Pow2Add(a - 1, b);
    }
  }

  lemma Pow2Doubled(n: nat, p: nat)
    requires Pow2(n) == p
    ensures Pow2(n + n) == p * p
  {
    Pow2Add(n, n);
  }

  lemma Pow2Widths()
    ensures Pow2(8) == 0x100
    ensures Pow2(16) == 0x1_0000
    ensures Pow2(32) == 0x1_0000_0000
    ensures Pow2(64) == 0x1_0000_0000_0000_0000
    ensures Pow2(128) == 0x1_0000_0000_0000_0000_0000_0000_0000_0000
    ensures Pow2(256) == U256_MODULUS
  {
    Pow2Doubled(4, 16);
    Pow2Doubled(8, 0x100);
    Pow2Doubled(16, 0x1_0000);
    Pow2Doubled(32, 0x1_0000_0000);
    Pow2Doubled(64, 0x1_0000_0000_0000_0000);
    Pow2Doubled(128, 0x1_0000_0000_0000_0000_0000_0000_0000_0000);
  }

  /** `is_uint`: the six unsigned integer types. */
  predicate IsUint(t: Type)
  {
    t.Primitive? && UintPrim(t.prim)
  }

  /** `get_uint_max`: the largest value of an unsigned type, written as the
    * analyser writes it, in decimal. */
  function GetUintMax(t: Type): Option<u256>
  {
    match t
    case Primitive(U8) => Some(255)
    case Primitive(U16) => Some(65535)
    case Primitive(U32) => Some(4294967295)
    case Primitive(U64) => Some(18446744073709551615)
    case Primitive(U128) => Some(340282366920938463463374607431768211455)
    case Primitive(U256) => Some(115792089237316195423570985008687907853269984665640564039457584007913129639935)
    case _ => None
  }

  /** The maximum of an unsigned type of width n is 2^n - 1, every other type
    * has none, and `is_uint` holds for exactly the types that have one. */
  lemma UintMaxSpec(t: Type)
    ensures GetUintMax(t).Some? <==> IsUint(t)
    ensures IsUint(t) <==> UBits(t) != 0
    ensures IsUint(t) ==> GetUintMax(t).value == Pow2(UBits(t)) - 1
  {
    UintMaxExists(t);
    if IsUint(t) {
      UintMaxValue(t);
    }
  }

  lemma UintMaxExists(t: Type)
    ensures GetUintMax(t).Some? <==> IsUint(t)
    ensures IsUint(t) <==> UBits(t) != 0
  {
    if t.Primitive? {
      match t.prim {
        case U8 =>
        case U16 =>
        case U32 =>
        case U64 =>
        case U128 =>
        case U256 =>
        case _ =>
      }
    }
  }

  lemma UintMaxValue(t: Type)
    requires IsUint(t)
    ensures GetUintMax(t).value == Pow2(UBits(t)) - 1
  {
    Pow2Widths();
    match t.prim {
      case U8 => assert UBits(t) == 8;
      case U16 => assert UBits(t) == 16;
      case U32 => assert UBits(t) == 32;
      case U64 => assert UBits(t) == 64;
      case U128 => assert UBits(t) == 128;
      case U256 => assert UBits(t) == 256;
    }
  }

  /** `get_uint_constant`: the value of an unsigned literal. */
  function GetUintConstant(c: Constant): Option<u256>
  {
    match c
    case U8C(v) => Some(v)
    case U16C(v) => Some(v as u256)
    case U32C(v) => Some(v as u256)
    case U64C(v) => Some(v as u256)
    case U128C(v) => Some(v as u256)
    case U256C(v) => Some(v as u256)
    case _ => None
  }

  /** The type of a scalar literal. */
  function ConstantType(c: Constant): Option<Type>
  {
    match c
    case BoolC(_) => Some(Primitive(Bool))
    case U8C(_) => Some(Primitive(U8))
    case U16C(_) => Some(Primitive(U16))
    case U32C(_) => Some(Primitive(U32))
    case U64C(_) => Some(Primitive(U64))
    case U128C(_) => Some(Primitive(U128))
    case U256C(_) => Some(Primitive(U256))
    case AddressC(_) => Some(Primitive(Address))
    case _ => None
  }

  /** A literal has a bound exactly when it is of an unsigned type, and the
    * bound never exceeds that type's maximum. */
  lemma ConstantWithinType(c: Constant)
    ensures GetUintConstant(c).Some? <==> ConstantType(c).Some? && IsUint(ConstantType(c).value)
    ensures GetUintConstant(c).Some? ==> GetUintConstant(c).value <= GetUintMax(ConstantType(c).value).value
  {
  }

  function Min(a: u256, b: u256): u256
  {
    if a <= b then a else b
  }

  /** `get_min_uint`: the smaller of two bounds, both of which must exist. */
  function GetMinUint(u1: Option<u256>, u2: Option<u256>): (r: Option<u256>)
    requires u1.Some? && u2.Some?
    ensures r.Some? && r.value <= u1.value && r.value <= u2.value
    ensures r.value == u1.value || r.value == u2.value
  {
    Some(Min(u1.value, u2.value))
  }

  // ---------------------------------------------------------------------
  // Bounds of binary operations
  // ---------------------------------------------------------------------

  /** What `binary_operation_max` needs to avoid a panic: the exact remainder
    * needs a non-zero divisor, the exact difference and `u2 - 1` must not go
    * below zero, and a saturating bound needs the destination's maximum. */
  predicate BinaryOk(op: Operation, u1: u256, u2: u256, c1: bool, c2: bool, ty: Type)
  {
    match op
    case Mod => if c1 && c2 then u2 != 0 else u1 < u2 || u2 >= 1
    case Sub => c1 && c2 ==> u1 >= u2
    case Add | BitAnd | BitOr | Xor | Mul => IsUint(ty)
    case _ => true
  }

  /** `binary_operation_max`: the bound of the result of a binary operation
    * from the operands' bounds, and whether it is constant. Additions (and
    * the bitwise operations, bounded the same way) and products saturate at
    * the destination type's maximum; a left shift wraps at 256 bits. */
  function BinaryOperationMax(op: Operation, u1: Option<u256>, u2: Option<u256>, c1: bool, c2: bool, ty: Type): (r: (Option<u256>, bool))
    requires u1.Some? && u2.Some?
    requires BinaryOk(op, u1.value, u2.value, c1, c2, ty)
    ensures r.0.Some?
  {
    var uint1, uint2 := u1.value, u2.value;
    match op
    case Mod => ModMax(uint1, uint2, c1, c2)
    case Sub => SubMax(uint1, uint2, c1, c2)
    case Add | BitAnd | BitOr | Xor => SaturatedMax(uint1 + uint2, ty)
    case Mul => MulNat(uint1, uint2); SaturatedMax(uint1 * uint2, ty)
    case Div | Shr => (Some(uint1), false)
    case Shl => (Some((uint1 * Pow2((uint2 % 0x1_0000_0000) % 256)) % U256_MODULUS), false)
    case _ => (Some(0), false)
  }

  function ModMax(uint1: u256, uint2: u256, c1: bool, c2: bool): (Option<u256>, bool)
    requires if c1 && c2 then uint2 != 0 else uint1 < uint2 || uint2 >= 1
  {
    if c1 && c2 then (Some((uint1 % uint2) as u256), true)
    else if uint1 < uint2 then (Some(uint1), c1)
    else (Some((uint2 - 1) as u256), false)
  }

  function SubMax(uint1: u256, uint2: u256, c1: bool, c2: bool): (Option<u256>, bool)
    requires c1 && c2 ==> uint1 >= uint2
  {
    if c1 && c2 then (Some((uint1 - uint2) as u256), true)
    else if c2 then (if uint1 >= uint2 then (Some((uint1 - uint2) as u256), false) else (Some(uint1), false))
    else (Some(uint1), false)
  }

  /** The overflowing 256-bit result of an addition or product, replaced by
    * the destination type's maximum on overflow and clipped to it otherwise. */
  function SaturatedMax(exact: nat, ty: Type): (Option<u256>, bool)
    requires IsUint(ty)
  {
    var flag := exact >= U256_MODULUS;
    (Some(if flag then GetUintMax(ty).value else Min(exact % U256_MODULUS, GetUintMax(ty).value)), false)
  }

  /** Sums and products are bounded by the true result clipped at the
    * destination type's maximum, so the bound never exceeds that maximum. */
  lemma SaturatingBound(op: Operation, u1: u256, u2: u256, c1: bool, c2: bool, ty: Type)
    requires (op.Add? || op.BitAnd? || op.BitOr? || op.Xor? || op.Mul?) && IsUint(ty)
    ensures var r := BinaryOperationMax(op, Some(u1), Some(u2), c1, c2, ty).0.value;
      r <= GetUintMax(ty).value
      && r == (if op.Mul? then Min2(u1 * u2, GetUintMax(ty).value) else Min2(u1 + u2, GetUintMax(ty).value))
  {
    if op.Mul? {
      ProductSaturates(u1, u2, c1, c2, ty);
    } else {
      SumSaturates(op, u1, u2, c1, c2, ty);
    }
  }

  lemma ProductSaturates(u1: u256, u2: u256, c1: bool, c2: bool, ty: Type)
    requires IsUint(ty)
    ensures BinaryOperationMax(Mul, Some(u1), Some(u2), c1, c2, ty).0.value == Min2(u1 * u2, GetUintMax(ty).value)
  {
    MulNat(u1, u2);
    var v := u1 * u2;
    assert BinaryOperationMax(Mul, Some(u1), Some(u2), c1, c2, ty) == SaturatedMax(v, ty);
    SaturatedMaxSpec(v, ty);
  }

  lemma SumSaturates(op: Operation, u1: u256, u2: u256, c1: bool, c2: bool, ty: Type)
    requires (op.Add? || op.BitAnd? || op.BitOr? || op.Xor?) && IsUint(ty)
    ensures BinaryOperationMax(op, Some(u1), Some(u2), c1, c2, ty).0.value == Min2(u1 + u2, GetUintMax(ty).value)
  {
    var v := u1 + u2;
    assert BinaryOperationMax(op, Some(u1), Some(u2), c1, c2, ty) == SaturatedMax(v, ty);
    SaturatedMaxSpec(v, ty);
  }

  lemma SaturatedMaxSpec(v: nat, ty: Type)
    requires IsUint(ty)
    ensures SaturatedMax(v, ty).0.value == Min2(v, GetUintMax(ty).value)
  {
    if v < U256_MODULUS {
      assert v % U256_MODULUS == v;
    }
  }

  /** A product of naturals is a natural. */
  lemma MulNat(a: int, b: int)
    requires a >= 0 && b >= 0
    ensures a * b >= 0
  {
  }

  function Min2(a: int, b: int): int
  {
    if a <= b then a else b
  }

  /** The arithmetic operations. */
  predicate ArithOp(op: Operation)
  {
    op.Add? || op.Sub? || op.Mul? || op.Div? || op.Mod?
  }

  /** Move's own arithmetic on values that do not abort. */
  function MoveArith(op: Operation, x: nat, y: nat): nat
    requires ArithOp(op)
    requires op == Sub ==> x >= y
    requires (op.Div? || op.Mod?) ==> y > 0
  {
    match op
    case Add => x + y
    case Sub => x - y
    case Mul => x * y
    case Div => x / y
    case Mod => x % y
  }

  /** The operation does not abort at run time: no overflow of the
    * destination type, no underflow, no division by zero. */
  predicate NoAbort(op: Operation, x: nat, y: nat, ty: Type)
    requires ArithOp(op) && IsUint(ty)
  {
    match op
    case Add => x + y <= GetUintMax(ty).value
    case Mul => x * y <= GetUintMax(ty).value
    case Sub => x >= y
    case _ => y > 0
  }

  lemma MulMonotone(x: nat, y: nat, a: nat, b: nat)
    requires x <= a && y <= b
    ensures x * y <= a * b
  {
    assert x * y <= a * y;
    assert a * y <= a * b;
  }

  /** The bounds are sound: for operand values within their bounds (and equal
    * to them when marked constant), the result of a non-aborting operation
    * lies within the computed bound, and it equals the bound when both
    * operands are constant for a difference or a remainder. */
  lemma {:induction false} BinaryBoundSound(op: Operation, u1: u256, u2: u256, c1: bool, c2: bool, ty: Type, x: nat, y: nat)
    requires ArithOp(op) && IsUint(ty)
    requires BinaryOk(op, u1, u2, c1, c2, ty)
    requires x <= u1 && y <= u2 && (c1 ==> x == u1) && (c2 ==> y == u2)
    requires NoAbort(op, x, y, ty)
    ensures MoveArith(op, x, y) <= BinaryOperationMax(op, Some(u1), Some(u2), c1, c2, ty).0.value
    ensures (op.Sub? || op.Mod?) && c1 && c2 ==>
      MoveArith(op, x, y) == BinaryOperationMax(op, Some(u1), Some(u2), c1, c2, ty).0.value
      && BinaryOperationMax(op, Some(u1), Some(u2), c1, c2, ty).1
  {
    if op == Add || op == Mul {
      SaturatingBound(op, u1, u2, c1, c2, ty);
      if op == Mul {
        MulMonotone(x, y, u1, u2);
      }
    } else if op == Div {
      DivBound(u1, u2, c1, c2, ty, x, y);
    } else if op == Mod {
      ModBound(u1, u2, c1, c2, ty, x, y);
    }
  }

  lemma DivBound(u1: u256, u2: u256, c1: bool, c2: bool, ty: Type, x: nat, y: nat)
    requires x <= u1 && y > 0
    ensures x / y <= BinaryOperationMax(Div, Some(u1), Some(u2), c1, c2, ty).0.value
  {
    DivAtMost(x, y);
  }

  lemma DivAtMost(x: nat, y: nat)
    requires y > 0
    ensures x / y <= x
  {
    var q: nat := x / y;
    assert x == q * y + x % y;
    MulMonotone(q, 1, q, y);
  }

  lemma ModBound(u1: u256, u2: u256, c1: bool, c2: bool, ty: Type, x: nat, y: nat)
    requires BinaryOk(Mod, u1, u2, c1, c2, ty)
    requires x <= u1 && 0 < y <= u2 && (c1 ==> x == u1) && (c2 ==> y == u2)
    ensures x % y <= BinaryOperationMax(Mod, Some(u1), Some(u2), c1, c2, ty).0.value
    ensures c1 && c2 ==> x % y == BinaryOperationMax(Mod, Some(u1), Some(u2), c1, c2, ty).0.value
  {
    ModAtMost(x, y);
  }

  lemma ModAtMost(x: nat, y: nat)
    requires y > 0
    ensures x % y < y && x % y <= x
  {
    var q: nat := x / y;
    assert x == q * y + x % y;
    assert q * y >= 0;
  }

  // ---------------------------------------------------------------------
  // Dependency nodes
  // ---------------------------------------------------------------------

  /** `Val`: what produced a node. */
  datatype Val =
    | ByteCode(bc: Bytecode)      // an operation (a call)
    | Const(con: Constant)        // a loaded literal
    | ParamType(ty: Type)         // a parameter, by its type
    | Assigned(assign: Bytecode)  // a copy, move or store assignment

  datatype Node = Node(value: Val, subnodes: seq<Node>, max: Option<u256>, isConstant: bool)

  predicate IsBorrowLoc(bc: Bytecode)
  {
    bc.Call? && bc.op == BorrowLoc
  }

  /** The nodes `is_const` visits are well formed: an assignment node has the
    * child it reads. */
  predicate ConstDefined(n: Node)
  {
    match n.value
    case ByteCode(bc) => bc.Call? ==> forall i :: 0 <= i < |n.subnodes| ==> ConstDefined(n.subnodes[i])
    case Assigned(_) => |n.subnodes| > 0 && ConstDefined(n.subnodes[0])
    case _ => true
  }

  /** `Node::is_const`: literals are constant and parameters are not; a call
    * is constant when all its operands are, an assignment when its source
    * is. A non-call operation node counts as constant. */
  function IsConst(n: Node): bool
    requires ConstDefined(n)
  {
    match n.value
    case ByteCode(bc) => bc.Call? ==> forall i :: 0 <= i < |n.subnodes| ==> IsConst(n.subnodes[i])
    case Const(_) => true
    case ParamType(_) => false
    case Assigned(_) => IsConst(n.subnodes[0])
  }

  /** Some parameter flows into the node through calls and assignments. */
  predicate ReachesParam(n: Node)
  {
    match n.value
    case ParamType(_) => true
    case ByteCode(bc) => bc.Call? && exists i :: 0 <= i < |n.subnodes| && ReachesParam(n.subnodes[i])
    case Assigned(_) => |n.subnodes| > 0 && ReachesParam(n.subnodes[0])
    case Const(_) => false
  }

  /** A node is constant exactly when no parameter flows into it. */
  lemma {:induction false} IsConstSpec(n: Node)
    requires ConstDefined(n)
    ensures IsConst(n) <==> !ReachesParam(n)
  {
    match n.value
    case ByteCode(bc) =>
      if bc.Call? {
        forall i | 0 <= i < |n.subnodes|
          ensures IsConst(n.subnodes[i]) <==> !ReachesParam(n.subnodes[i])
        {
          IsConstSpec(n.subnodes[i]);
        }
      }
    case Assigned(_) =>
      IsConstSpec(n.subnodes[0]);
    case _ =>
  }

  /** The nodes `loop_condition_from_copy` visits are well formed: a
    * borrow of a local has the local it borrows. */
  predicate CondDefined(n: Node)
  {
    match n.value
    case ByteCode(bc) =>
      if IsBorrowLoc(bc) then |bc.srcs| > 0
      else forall i :: 0 <= i < |n.subnodes| ==> CondDefined(n.subnodes[i])
    case _ => true
  }

  /** `Node::loop_condition_from_copy`: the temporaries this node's value is
    * read from, collected in order, that a loop condition may name: the local
    * of a `borrow_local` and the source of a copy. Collection descends through
    * operation nodes only, and not below those two. */
  function LoopConditions(n: Node): seq<nat>
    requires CondDefined(n)
    decreases n, |n.subnodes| + 1
  {
    match n.value
    case ByteCode(bc) =>
      if IsBorrowLoc(bc) then [bc.srcs[0]] else ConditionsFrom(n, 0)
    case Assigned(a) =>
      if a.Assign? && a.kind == Copy then [a.src] else []
    case _ => []
  }

  function ConditionsFrom(n: Node, i: nat): seq<nat>
    requires n.value.ByteCode? && !IsBorrowLoc(n.value.bc) && CondDefined(n)
    requires i <= |n.subnodes|
    decreases n, |n.subnodes| - i
  {
    if i == |n.subnodes| then []
    else LoopConditions(n.subnodes[i]) + ConditionsFrom(n, i + 1)
  }

  /** m is n, or is reachable from n through operation nodes other than
    * borrows of locals. */
  predicate Within(m: Node, n: Node)
  {
    m == n
    || (n.value.ByteCode? && !IsBorrowLoc(n.value.bc)
        && exists i :: 0 <= i < |n.subnodes| && Within(m, n.subnodes[i]))
  }

  /** Node m names temporary x as a possible loop condition. */
  predicate CopiedFrom(m: Node, x: nat)
  {
    (m.value.ByteCode? && IsBorrowLoc(m.value.bc) && |m.value.bc.srcs| > 0 && m.value.bc.srcs[0] == x)
    || (m.value.Assigned? && m.value.assign.Assign? && m.value.assign.kind == Copy && m.value.assign.src == x)
  }

  /** x is collected exactly when a node reachable through operation nodes
    * borrows local x or copies x. */
  lemma {:induction false} LoopConditionsSpec(n: Node, x: nat)
    requires CondDefined(n)
    ensures x in LoopConditions(n) <==> exists m :: Within(m, n) && CopiedFrom(m, x)
    decreases n, |n.subnodes| + 1
  {
    match n.value
    case ByteCode(bc) =>
      if IsBorrowLoc(bc) {
        assert Within(n, n);
        forall m | Within(m, n) ensures m == n { }
      } else {
        ConditionsFromSpec(n, 0, x);
        if x in LoopConditions(n) {
          var j, m :| 0 <= j < |n.subnodes| && Within(m, n.subnodes[j]) && CopiedFrom(m, x);
          assert Within(m, n);
        }
        if exists m :: Within(m, n) && CopiedFrom(m, x) {
          var m :| Within(m, n) && CopiedFrom(m, x);
          if m != n {
            var j :| 0 <= j < |n.subnodes| && Within(m, n.subnodes[j]);
            assert exists j, m' :: 0 <= j < |n.subnodes| && Within(m', n.subnodes[j]) && CopiedFrom(m', x);
          }
        }
      }
    case Assigned(a) =>
      forall m | Within(m, n) ensures m == n { }
      if a.Assign? && a.kind == Copy && a.src == x {
        assert Within(n, n) && CopiedFrom(n, x);
      }
    case _ =>
      forall m | Within(m, n) ensures m == n { }
  }

  lemma {:induction false} ConditionsFromSpec(n: Node, i: nat, x: nat)
    requires n.value.ByteCode? && !IsBorrowLoc(n.value.bc) && CondDefined(n)
    requires i <= |n.subnodes|
    ensures x in ConditionsFrom(n, i) <==>
      exists j, m :: i <= j < |n.subnodes| && Within(m, n.subnodes[j]) && CopiedFrom(m, x)
    decreases n, |n.subnodes| - i
  {
    if i < |n.subnodes| {
      LoopConditionsSpec(n.subnodes[i], x);
      ConditionsFromSpec(n, i + 1, x);
      if exists j, m :: i <= j < |n.subnodes| && Within(m, n.subnodes[j]) && CopiedFrom(m, x) {
        var j, m :| i <= j < |n.subnodes| && Within(m, n.subnodes[j]) && CopiedFrom(m, x);
        if j == i {
          assert x in LoopConditions(n.subnodes[i]);
        } else {
          assert x in ConditionsFrom(n, i + 1);
        }
      }
    }
  }

  /** The shape of every node the analysis builds: operation nodes hold
    * calls, a borrow of a local names its local, assignment nodes hold an
    * assignment and its one source, literals and parameters are leaves. */
  predicate Sane(n: Node)
  {
    (match n.value
     case ByteCode(bc) => bc.Call? && (bc.op == BorrowLoc ==> |bc.srcs| > 0)
     case Assigned(a) => a.Assign? && |n.subnodes| == 1
     case _ => n.subnodes == [])
    && forall i :: 0 <= i < |n.subnodes| ==> Sane(n.subnodes[i])
  }

  /** On well-shaped nodes both `is_const` and `loop_condition_from_copy` are
    * defined. */
  lemma {:induction false} SaneDefined(n: Node)
    requires Sane(n)
    ensures ConstDefined(n) && CondDefined(n)
  {
    forall i | 0 <= i < |n.subnodes| {
      SaneDefined(n.subnodes[i]);
    }
  }

  // ---------------------------------------------------------------------
  // The dependency map
  // ---------------------------------------------------------------------

  /** `DataDepent`: the dependency node of every temporary written so far. */
  class DataDepent {
    var data: map<nat, Node>

    constructor ()
      ensures data == map[]
    {
      data := map[];
    }

    /** `insert_or_modify`: a later entry replaces an earlier one. */
    method InsertOrModify(dst: nat, node: Node)
      modifies this
      ensures data == old(data)[dst := node]
    {
      data := data[dst := node];
    }

    /** `get`: the entry must exist. */
    function Get(src: nat): (n: Node)
      reads this
      requires src in data
      ensures n == data[src]
    {
      data[src]
    }
  }

  /** The arms of the analysis' match on the operation of a call. */
  datatype OpKind = CallK | ArithK | CompareK | CastK | NotK | PackK | UnpackK | ForwardK | SkipK

  function KindOf(op: Operation): OpKind
  {
    match op
    case Function(_, _, _) => CallK
    case Sub | Add | Mul | Div | Mod | BitOr | BitAnd | Xor | Shl | Shr => ArithK
    case Lt | Gt | Le | Ge | Or | And | Eq | Neq => CompareK
    case CastU8 | CastU16 | CastU32 | CastU64 | CastU128 | CastU256 => CastK
    case Not => NotK
    case Pack(_, _, _) => PackK
    case Unpack(_, _, _) => UnpackK
    case Exists(_, _, _) | FreezeRef | BorrowField(_, _, _, _) | BorrowLoc | ReadRef
      | BorrowGlobal(_, _, _) | MoveFrom(_, _, _) => ForwardK
    case _ => SkipK
  }

  predicate AllIn(ts: seq<nat>, data: map<nat, Node>)
  {
    forall i :: 0 <= i < |ts| ==> ts[i] in data
  }

  predicate AllBelow(ts: seq<nat>, n: nat)
  {
    forall i :: 0 <= i < |ts| ==> ts[i] < n
  }

  /** The nodes of the given temporaries, in order. */
  function Args(data: map<nat, Node>, srcs: seq<nat>): (r: seq<Node>)
    requires AllIn(srcs, data)
    ensures |r| == |srcs|
  {
    seq(|srcs|, i requires 0 <= i < |srcs| => data[srcs[i]])
  }

  /** Writes the nodes to the temporaries, one after the other. */
  function InsertAll(data: map<nat, Node>, dsts: seq<nat>, nodes: seq<Node>): map<nat, Node>
    requires |dsts| == |nodes|
    decreases |dsts|
  {
    if dsts == [] then data else InsertAll(data[dsts[0] := nodes[0]], dsts[1..], nodes[1..])
  }

  /** The node recorded for each result of a call of a Move function: the
    * call over its operands, bounded by the result's type. */
  function CallNodes(bc: Bytecode, args: seq<Node>, dsts: seq<nat>, types: seq<Type>): (r: seq<Node>)
    requires AllBelow(dsts, |types|)
    ensures |r| == |dsts|
  {
    seq(|dsts|, i requires 0 <= i < |dsts| => Node(ByteCode(bc), args, GetUintMax(types[dsts[i]]), false))
  }

  /** The bound of the i-th field of an unpacked struct: the packed operand's
    * bound when the struct comes from a pack with one operand per field and
    * that operand has one, else the field type's maximum. */
  function UnpackMax(packed: Node, dsts: seq<nat>, types: seq<Type>, i: nat): Option<u256>
    requires i < |dsts| && dsts[i] < |types|
  {
    if |packed.subnodes| == |dsts| then
      if packed.subnodes[i].max.None? then GetUintMax(types[dsts[i]]) else packed.subnodes[i].max
    else GetUintMax(types[dsts[i]])
  }

  function UnpackNodes(bc: Bytecode, packed: Node, dsts: seq<nat>, types: seq<Type>): (r: seq<Node>)
    requires AllBelow(dsts, |types|)
    ensures |r| == |dsts|
  {
    seq(|dsts|, i requires 0 <= i < |dsts| => Node(ByteCode(bc), [packed], UnpackMax(packed, dsts, types, i), false))
  }

  /** What the analysis of one instruction reads must be there: its
    * operands' nodes, its results' types, and the bounds a bound computation
    * unwraps. */
  predicate StepOk(data: map<nat, Node>, types: seq<Type>, bc: Bytecode)
  {
    match bc
    case Assign(_, _, src, _) => src in data
    case Call(_, dsts, op, srcs, _) =>
      (match KindOf(op)
       case CallK => AllIn(srcs, data) && AllBelow(dsts, |types|)
       case ArithK =>
         |srcs| >= 2 && srcs[0] in data && srcs[1] in data && |dsts| >= 1 && dsts[0] < |types|
         && data[srcs[0]].max.Some? && data[srcs[1]].max.Some?
         && BinaryOk(op, data[srcs[0]].max.value, data[srcs[1]].max.value,
                     data[srcs[0]].isConstant, data[srcs[1]].isConstant, types[dsts[0]])
       case CompareK => |srcs| >= 2 && srcs[0] in data && srcs[1] in data && |dsts| >= 1
       case CastK =>
         |srcs| >= 1 && srcs[0] in data && |dsts| >= 1 && dsts[0] < |types|
         && data[srcs[0]].max.Some? && IsUint(types[dsts[0]])
       case NotK => |srcs| >= 1 && srcs[0] in data && |dsts| >= 1
       case PackK => AllIn(srcs, data) && |dsts| >= 1
       case UnpackK => |srcs| >= 1 && srcs[0] in data && AllBelow(dsts, |types|)
       case ForwardK => |srcs| >= 1 && srcs[0] in data && |dsts| >= 1 && dsts[0] < |types|
       case SkipK => true)
    case _ => true
  }

  /** The analysis of one instruction: the new dependency map. */
  function Step(data: map<nat, Node>, types: seq<Type>, bc: Bytecode): map<nat, Node>
    requires StepOk(data, types, bc)
  {
    match bc
    case Assign(_, dst, src, _) =>
      data[dst := Node(Assigned(bc), [data[src]], data[src].max, false)]
    case Call(_, dsts, op, srcs, _) =>
      (match KindOf(op)
       case CallK => InsertAll(data, dsts, CallNodes(bc, Args(data, srcs), dsts, types))
       case ArithK =>
         var l, r := data[srcs[0]], data[srcs[1]];
         var b := BinaryOperationMax(op, l.max, r.max, l.isConstant, r.isConstant, types[dsts[0]]);
         data[dsts[0] := Node(ByteCode(bc), [l, r], b.0, b.1)]
       case CompareK =>
         data[dsts[0] := Node(ByteCode(bc), [data[srcs[0]], data[srcs[1]]], None, false)]
       case CastK =>
         var n := data[srcs[0]];
         data[dsts[0] := Node(ByteCode(bc), [n], GetMinUint(n.max, GetUintMax(types[dsts[0]])), n.isConstant)]
       case NotK =>
         data[dsts[0] := Node(ByteCode(bc), [data[srcs[0]]], None, false)]
       case PackK =>
         data[dsts[0] := Node(ByteCode(bc), Args(data, srcs), None, false)]
       case UnpackK =>
         InsertAll(data, dsts, UnpackNodes(bc, data[srcs[0]], dsts, types))
       case ForwardK =>
         data[dsts[0] := Node(ByteCode(bc), [data[srcs[0]]], GetUintMax(types[dsts[0]]), false)]
       case SkipK => data)
    case Load(_, dst, con) =>
      data[dst := Node(Const(con), [], GetUintConstant(con), true)]
    case _ => data
  }

  /** Every instruction of the sequence can be analysed in turn. */
  predicate Runs(data: map<nat, Node>, types: seq<Type>, code: seq<Bytecode>)
    decreases |code|
  {
    code == [] || (StepOk(data, types, code[0]) && Runs(Step(data, types, code[0]), types, code[1..]))
  }

  /** The dependency map after analysing the instructions in order. */
  function Deps(data: map<nat, Node>, types: seq<Type>, code: seq<Bytecode>): map<nat, Node>
    requires Runs(data, types, code)
    decreases |code|
  {
    if code == [] then data else Deps(Step(data, types, code[0]), types, code[1..])
  }

  /** A parameter's node: its type, bounded by the type's maximum. */
  function ParamNode(t: Type): Node
  {
    Node(ParamType(t), [], GetUintMax(t), false)
  }

  function Params(types: seq<Type>, n: nat): (m: map<nat, Node>)
    requires n <= |types|
    ensures forall i: nat :: i in m <==> i < n
  {
    map i | 0 <= i < n :: ParamNode(types[i])
  }

  /** The temporaries an instruction writes. */
  function Written(bc: Bytecode): set<nat>
  {
    match bc
    case Assign(_, dst, _, _) => {dst}
    case Load(_, dst, _) => {dst}
    case Call(_, dsts, op, _, _) =>
      if KindOf(op).CallK? || KindOf(op).UnpackK? then set i | 0 <= i < |dsts| :: dsts[i]
      else if KindOf(op) == SkipK || |dsts| == 0 then {}
      else {dsts[0]}
    case _ => {}
  }

  function WrittenBy(code: seq<Bytecode>): set<nat>
    decreases |code|
  {
    if code == [] then {} else Written(code[0]) + WrittenBy(code[1..])
  }

  // ---------------------------------------------------------------------
  // The analysis loop
  // ---------------------------------------------------------------------

  /** Reads the nodes of the operands, in order. */
  method CollectNodes(dd: DataDepent, srcs: seq<nat>) returns (nodes: seq<Node>)
    requires AllIn(srcs, dd.data)
    ensures nodes == Args(dd.data, srcs)
  {
    nodes := [];
    for j := 0 to |srcs|
      invariant |nodes| == j
      invariant forall i :: 0 <= i < j ==> nodes[i] == dd.data[srcs[i]]
    {
      nodes := nodes + [dd.Get(srcs[j])];
    }
  }

  /** Records the nodes for the temporaries, one after the other. */
  method InsertEach(dd: DataDepent, dsts: seq<nat>, nodes: seq<Node>)
    requires |dsts| == |nodes|
    modifies dd
    ensures dd.data == InsertAll(old(dd.data), dsts, nodes)
  {
    for j := 0 to |dsts|
      invariant InsertAll(dd.data, dsts[j..], nodes[j..]) == InsertAll(old(dd.data), dsts, nodes)
    {
      assert dsts[j..][1..] == dsts[j + 1..] && nodes[j..][1..] == nodes[j + 1..];
      dd.InsertOrModify(dsts[j], nodes[j]);
    }
  }

  /** The loop body of `data_dependency`: records the node of what one
    * instruction writes. */
  method Analyse(dd: DataDepent, types: seq<Type>, bc: Bytecode)
    requires StepOk(dd.data, types, bc)
    modifies dd
    ensures dd.data == Step(old(dd.data), types, bc)
  {
    match bc
    case Assign(_, dst, src, _) =>
      var node := dd.Get(src);
      dd.InsertOrModify(dst, Node(Assigned(bc), [node], node.max, false));
    case Call(_, dsts, op, srcs, _) =>
      match KindOf(op) {
      case CallK =>
        var nodes := CollectNodes(dd, srcs);
        InsertEach(dd, dsts, CallNodes(bc, nodes, dsts, types));
      case ArithK =>
        var lnode := dd.Get(srcs[0]);
        var rnode := dd.Get(srcs[1]);
        var b := BinaryOperationMax(op, lnode.max, rnode.max, lnode.isConstant, rnode.isConstant, types[dsts[0]]);
        dd.InsertOrModify(dsts[0], Node(ByteCode(bc), [lnode, rnode], b.0, b.1));
      case CompareK =>
        var lnode := dd.Get(srcs[0]);
        var rnode := dd.Get(srcs[1]);
        dd.InsertOrModify(dsts[0], Node(ByteCode(bc), [lnode, rnode], None, false));
      case CastK =>
        var node := dd.Get(srcs[0]);
        var max := GetMinUint(node.max, GetUintMax(types[dsts[0]]));
        dd.InsertOrModify(dsts[0], Node(ByteCode(bc), [node], max, node.isConstant));
      case NotK =>
        var node := dd.Get(srcs[0]);
        dd.InsertOrModify(dsts[0], Node(ByteCode(bc), [node], None, false));
      case PackK =>
        var nodes := CollectNodes(dd, srcs);
        dd.InsertOrModify(dsts[0], Node(ByteCode(bc), nodes, None, false));
      case UnpackK =>
        var node := dd.Get(srcs[0]);
        InsertEach(dd, dsts, UnpackNodes(bc, node, dsts, types));
      case ForwardK =>
        var node := dd.Get(srcs[0]);
        dd.InsertOrModify(dsts[0], Node(ByteCode(bc), [node], GetUintMax(types[dsts[0]]), false));
      case SkipK =>
      }
    case Load(_, dst, con) =>
      dd.InsertOrModify(dst, Node(Const(con), [], GetUintConstant(con), true));
    case _ =>
  }

  /** `data_dependency` (the call of a Move function analysed with the
    * call's own operands): the parameters' nodes, then every instruction in
    * order. `argCount` is the function handle's parameter count. */
  method DataDependencyOf(f: FunctionInfo, argCount: nat) returns (dd: DataDepent)
    requires argCount <= |f.localTypes|
    requires Runs(Params(f.localTypes, argCount), f.localTypes, f.code)
    ensures fresh(dd)
    ensures dd.data == Deps(Params(f.localTypes, argCount), f.localTypes, f.code)
  {
    dd := new DataDepent();
    for i := 0 to argCount
      invariant dd.data == Params(f.localTypes, i)
    {
      dd.InsertOrModify(i, ParamNode(f.localTypes[i]));
    }
    for k := 0 to |f.code|
      invariant Runs(dd.data, f.localTypes, f.code[k..])
      invariant Deps(dd.data, f.localTypes, f.code[k..]) == Deps(Params(f.localTypes, argCount), f.localTypes, f.code)
    {
      assert f.code[k..][0] == f.code[k] && f.code[k..][1..] == f.code[k + 1..];
      Analyse(dd, f.localTypes, f.code[k]);
    }
  }

  // ---------------------------------------------------------------------
  // Properties of the analysis
  // ---------------------------------------------------------------------

  lemma {:induction false} InsertAllFrame(data: map<nat, Node>, dsts: seq<nat>, nodes: seq<Node>)
    requires |dsts| == |nodes|
    ensures InsertAll(data, dsts, nodes).Keys == data.Keys + set i | 0 <= i < |dsts| :: dsts[i]
    ensures forall k :: k !in dsts && k in data ==> InsertAll(data, dsts, nodes)[k] == data[k]
    ensures (forall k :: k in data ==> Sane(data[k])) && (forall i :: 0 <= i < |nodes| ==> Sane(nodes[i]))
      ==> forall k :: k in InsertAll(data, dsts, nodes) ==> Sane(InsertAll(data, dsts, nodes)[k])
    decreases |dsts|
  {
    if dsts != [] {
      InsertAllFrame(data[dsts[0] := nodes[0]], dsts[1..], nodes[1..]);
      var rest := set i | 0 <= i < |dsts[1..]| :: dsts[1..][i];
      assert (set i | 0 <= i < |dsts| :: dsts[i]) == {dsts[0]} + rest by {
        forall k | k in rest ensures k in set i | 0 <= i < |dsts| :: dsts[i] {
          var i :| 0 <= i < |dsts[1..]| && dsts[1..][i] == k;
          assert dsts[i + 1] == k;
        }
      }
    }
  }

  /** One instruction adds exactly the temporaries it writes and leaves every
    * other entry as it was. */
  lemma StepFrame(data: map<nat, Node>, types: seq<Type>, bc: Bytecode)
    requires StepOk(data, types, bc)
    ensures Step(data, types, bc).Keys == data.Keys + Written(bc)
    ensures forall k :: k !in Written(bc) && k in data ==> Step(data, types, bc)[k] == data[k]
  {
    if bc.Call? && KindOf(bc.op) == CallK {
      InsertAllFrame(data, bc.dsts, CallNodes(bc, Args(data, bc.srcs), bc.dsts, types));
    } else if bc.Call? && KindOf(bc.op) == UnpackK {
      InsertAllFrame(data, bc.dsts, UnpackNodes(bc, data[bc.srcs[0]], bc.dsts, types));
    }
  }

  /** After the analysis a temporary has a node exactly when it had one
    * before or some instruction writes it; a temporary nothing writes keeps
    * its node. */
  lemma {:induction false} DepsFrame(data: map<nat, Node>, types: seq<Type>, code: seq<Bytecode>)
    requires Runs(data, types, code)
    ensures Deps(data, types, code).Keys == data.Keys + WrittenBy(code)
    ensures forall k :: k !in WrittenBy(code) && k in data ==> Deps(data, types, code)[k] == data[k]
    decreases |code|
  {
    if code != [] {
      StepFrame(data, types, code[0]);
      DepsFrame(Step(data, types, code[0]), types, code[1..]);
    }
  }

  /** A parameter no instruction writes keeps its parameter node, and the
    * temporaries with a node are the parameters and those written. */
  lemma ParamsKept(f: FunctionInfo, argCount: nat, k: nat)
    requires argCount <= |f.localTypes|
    requires Runs(Params(f.localTypes, argCount), f.localTypes, f.code)
    ensures k in Deps(Params(f.localTypes, argCount), f.localTypes, f.code) <==> k < argCount || k in WrittenBy(f.code)
    ensures k < argCount && k !in WrittenBy(f.code) ==>
      Deps(Params(f.localTypes, argCount), f.localTypes, f.code)[k] == ParamNode(f.localTypes[k])
  {
    DepsFrame(Params(f.localTypes, argCount), f.localTypes, f.code);
  }

  predicate AllSane(data: map<nat, Node>)
  {
    forall k :: k in data ==> Sane(data[k])
  }

  lemma StepSane(data: map<nat, Node>, types: seq<Type>, bc: Bytecode)
    requires StepOk(data, types, bc) && AllSane(data)
    ensures AllSane(Step(data, types, bc))
  {
    if bc.Call? && KindOf(bc.op) == CallK {
      var args := Args(data, bc.srcs);
      var nodes := CallNodes(bc, args, bc.dsts, types);
      assert forall i :: 0 <= i < |args| ==> Sane(args[i]);
      assert forall i :: 0 <= i < |nodes| ==> Sane(nodes[i]);
      InsertAllFrame(data, bc.dsts, nodes);
    } else if bc.Call? && KindOf(bc.op) == UnpackK {
      var nodes := UnpackNodes(bc, data[bc.srcs[0]], bc.dsts, types);
      assert forall i :: 0 <= i < |nodes| ==> Sane(nodes[i]);
      InsertAllFrame(data, bc.dsts, nodes);
    } else if bc.Call? && KindOf(bc.op) == PackK {
      var args := Args(data, bc.srcs);
      assert forall i :: 0 <= i < |args| ==> Sane(args[i]);
    }
  }

  /** Every node the analysis records is well shaped, so `is_const` and
    * `loop_condition_from_copy` can be asked of any of them. */
  lemma {:induction false} DepsSane(data: map<nat, Node>, types: seq<Type>, code: seq<Bytecode>)
    requires Runs(data, types, code) && AllSane(data)
    ensures AllSane(Deps(data, types, code))
    ensures forall k :: k in Deps(data, types, code) ==>
      ConstDefined(Deps(data, types, code)[k]) && CondDefined(Deps(data, types, code)[k])
    decreases |code|
  {
    if code != [] {
      StepSane(data, types, code[0]);
      DepsSane(Step(data, types, code[0]), types, code[1..]);
    } else {
      forall k | k in data ensures ConstDefined(data[k]) && CondDefined(data[k]) {
        SaneDefined(data[k]);
      }
    }
  }

  /** The parameters' nodes are well shaped, and none of them is constant. */
  lemma ParamsSane(types: seq<Type>, n: nat)
    requires n <= |types|
    ensures AllSane(Params(types, n))
    ensures forall k :: k in Params(types, n) ==> ConstDefined(Params(types, n)[k]) && !IsConst(Params(types, n)[k])
  {
  }
}
