/** The textual rendering of stackless bytecode: temporaries, labels, local
  * lists, operations and whole instructions, as the generator's `Display`
  * implementations print them. */
module BytecodeDisplay {
  import opened Stackless
  import opened Text
  import Wrappers

  /** One entry of a struct's field data: the field's name and offset. */
  datatype FieldEntry = FieldEntry(name: string, offset: nat)

  /** What the renderer reads from the generator and from the libraries this
    * model does not contain: the name of the module under analysis, the
    * model library's type display, the bytecode library's constant display,
    * and each struct's field data in the order its map yields them. */
  datatype Context = Context(
    moduleName: string,
    typeText: Type -> string,
    constText: Constant -> string,
    structFields: map<string, seq<FieldEntry>>)

  // ---------------------------------------------------------------------
  // Temporaries, labels and lists of temporaries
  // ---------------------------------------------------------------------

  predicate AllDigits(s: string)
  {
    forall i :: 0 <= i < |s| ==> '0' <= s[i] <= '9'
  }

  /** `lstr`: a temporary prints as `$t` and its index. */
  function LStr(idx: nat): string
  {
    "$t" + NatToString(idx)
  }

  /** A temporary's text is `$t` followed by digits from which its index
    * can be read back. */
  lemma LStrSpec(idx: nat)
    ensures |LStr(idx)| >= 3 && LStr(idx)[..2] == "$t" && AllDigits(LStr(idx)[2..])
    ensures DecimalValue(LStr(idx)[2..]) == idx
    ensures ' ' !in LStr(idx)
  {
    var n := NatToString(idx);
    NatToStringRoundTrip(idx);
    assert LStr(idx)[2..] == n;
  }

  lemma LStrInjective(a: nat, b: nat)
    requires LStr(a) == LStr(b)
    ensures a == b
  {
    LStrSpec(a);
    LStrSpec(b);
  }

  /** `label_str`: a label prints as its code offset when that is known and
    * as `L` and its number otherwise; either way the number can be read back. */
  function LabelStr(labelOffsets: map<nat, nat>, lbl: nat): (r: string)
    ensures |r| >= 1
    ensures r[0] == 'L' <==> lbl !in labelOffsets
    ensures lbl in labelOffsets ==> AllDigits(r) && DecimalValue(r) == labelOffsets[lbl]
    ensures lbl !in labelOffsets ==> AllDigits(r[1..]) && DecimalValue(r[1..]) == lbl
  {
    if lbl in labelOffsets then
      NatToStringRoundTrip(labelOffsets[lbl]);
      NatToString(labelOffsets[lbl])
    else
      NatToStringRoundTrip(lbl);
      assert ("L" + NatToString(lbl))[1..] == NatToString(lbl);
      "L" + NatToString(lbl)
  }

  function TempTexts(locals: seq<nat>): (r: seq<string>)
    ensures |r| == |locals|
  {
    seq(|locals|, i requires 0 <= i < |locals| => LStr(locals[i]))
  }

  /** `fmt_locals`: one temporary prints bare unless braces are forced; any
    * other number prints as a parenthesised, comma-separated list. */
  function FmtLocals(locals: seq<nat>, alwaysBrace: bool): string
  {
    if !alwaysBrace && |locals| == 1 then LStr(locals[0])
    else "(" + Join(TempTexts(locals), ", ") + ")"
  }

  /** The loop of `fmt_locals` writing the list. */
  method WriteLocals(locals: seq<nat>, alwaysBrace: bool) returns (f: string)
    ensures f == FmtLocals(locals, alwaysBrace)
  {
    if !alwaysBrace && |locals| == 1 {
      f := LStr(locals[0]);
    } else {
      f := "(";
      for i := 0 to |locals|
        invariant f == "(" + Join(TempTexts(locals)[..i], ", ")
      {
        if i > 0 {
          f := f + ", ";
        }
        f := f + LStr(locals[i]);
        assert TempTexts(locals)[..i + 1][..i] == TempTexts(locals)[..i];
      }
      assert TempTexts(locals)[..|locals|] == TempTexts(locals);
      f := f + ")";
    }
  }

  /** Items a comma-separated list can be split back into: non-empty and
    * without blanks. */
  predicate Separable(items: seq<string>)
  {
    forall i :: 0 <= i < |items| ==> |items[i]| > 0 && ' ' !in items[i]
  }

  lemma TempTextsSeparable(locals: seq<nat>)
    ensures Separable(TempTexts(locals))
  {
    forall i | 0 <= i < |locals| ensures |TempTexts(locals)[i]| > 0 && ' ' !in TempTexts(locals)[i] {
      LStrSpec(locals[i]);
    }
  }

  /** Joined separable items are empty exactly when there are none, and hold
    * a blank exactly when there are several. */
  lemma {:induction false} JoinShape(items: seq<string>)
    requires Separable(items)
    ensures |Join(items, ", ")| == 0 <==> |items| == 0
    ensures ' ' in Join(items, ", ") <==> |items| >= 2
    decreases |items|
  {
    if |items| >= 2 {
      var pre := items[..|items| - 1];
      JoinShape(pre);
      var last := items[|items| - 1];
      var s := Join(pre, ", ") + ", " + last;
      assert s[|Join(pre, ", ")| + 1] == ' ';
    }
  }

  /** Cutting a joined list at its last separator: the last items agree. */
  lemma TailSplit(x: string, u: string, y: string, v: string)
    requires x + ", " + u == y + ", " + v
    requires ' ' !in u && ' ' !in v
    ensures x == y && u == v
  {
    var s := x + ", " + u;
    assert s == y + ", " + v;
    assert s[|x| + 1] == ' ' && s[|y| + 1] == ' ';
    assert forall j :: |x| + 2 <= j < |s| ==> s[j] == u[j - |x| - 2];
    assert forall j :: |y| + 2 <= j < |s| ==> s[j] == v[j - |y| - 2];
    assert |u| == |v|;
    assert x == s[..|x|];
    assert y == (y + ", " + v)[..|y|];
    assert u == s[|x| + 2..];
    assert v == (y + ", " + v)[|y| + 2..];
  }

  /** A comma-separated list of separable items determines the items. */
  lemma {:induction false} JoinInjective(a: seq<string>, b: seq<string>)
    requires Separable(a) && Separable(b)
    requires Join(a, ", ") == Join(b, ", ")
    ensures a == b
    decreases |a|
  {
    JoinShape(a);
    JoinShape(b);
    if |a| >= 2 && |b| >= 2 {
      var a0, b0 := a[..|a| - 1], b[..|b| - 1];
      TailSplit(Join(a0, ", "), a[|a| - 1], Join(b0, ", "), b[|b| - 1]);
      JoinInjective(a0, b0);
      assert a == a0 + [a[|a| - 1]] && b == b0 + [b[|b| - 1]];
    }
  }

  lemma TempTextsInjective(a: seq<nat>, b: seq<nat>)
    requires TempTexts(a) == TempTexts(b)
    ensures a == b
  {
    forall i | 0 <= i < |a| ensures a[i] == b[i] {
      assert TempTexts(a)[i] == TempTexts(b)[i];
      LStrInjective(a[i], b[i]);
    }
  }

  /** The rendering of a list of temporaries determines the list. */
  lemma FmtLocalsInjective(a: seq<nat>, braceA: bool, b: seq<nat>, braceB: bool)
    requires FmtLocals(a, braceA) == FmtLocals(b, braceB)
    ensures a == b
  {
    TempTextsSeparable(a);
    TempTextsSeparable(b);
    var s := FmtLocals(a, braceA);
    var bareA, bareB := !braceA && |a| == 1, !braceB && |b| == 1;
    assert bareA ==> s[0] == '$';
    assert bareB ==> s[0] == '$';
    if bareA && bareB {
      LStrInjective(a[0], b[0]);
    } else if !bareA && !bareB {
      var ja, jb := Join(TempTexts(a), ", "), Join(TempTexts(b), ", ");
      assert ja == s[1..|s| - 1] == jb;
      JoinInjective(TempTexts(a), TempTexts(b));
      TempTextsInjective(a, b);
    }
  }

  /** A list prints parenthesised unless it is one temporary and braces are
    * not forced, and prints as `()` exactly when it is empty. */
  lemma FmtLocalsShape(locals: seq<nat>, alwaysBrace: bool)
    ensures FmtLocals(locals, alwaysBrace)[0] == '(' <==> alwaysBrace || |locals| != 1
    ensures FmtLocals(locals, alwaysBrace) == "()" <==> locals == []
  {
    TempTextsSeparable(locals);
    JoinShape(TempTexts(locals));
    var s := FmtLocals(locals, alwaysBrace);
    if !alwaysBrace && |locals| == 1 {
      assert s[0] == '$';
    } else {
      assert |s| == |Join(TempTexts(locals), ", ")| + 2;
    }
  }

  // ---------------------------------------------------------------------
  // Operations
  // ---------------------------------------------------------------------

  /** `fmt_type_args`: a non-empty type-argument list prints as `<T1, T2>`
    * followed by the literal text `fmt_type_args`. */
  function TypeArgsText(ctx: Context, targs: seq<Type>): (r: string)
    ensures r == "" <==> targs == []
    ensures targs != [] ==> r[0] == '<' && |r| > 14 && r[|r| - 14..] == ">fmt_type_args"
  {
    if targs == [] then ""
    else
      var r := "<" + Join(TypeTexts(ctx, targs), ", ") + ">fmt_type_args";
      assert r[|r| - 14..] == ">fmt_type_args";
      r
  }

  function TypeTexts(ctx: Context, targs: seq<Type>): (r: seq<string>)
    ensures |r| == |targs|
  {
    seq(|targs|, i requires 0 <= i < |targs| => ctx.typeText(targs[i]))
  }

  /** The loop of `fmt_type_args`. */
  method WriteTypeArgs(ctx: Context, targs: seq<Type>) returns (f: string)
    ensures f == TypeArgsText(ctx, targs)
  {
    f := "";
    if targs != [] {
      f := "<";
      for i := 0 to |targs|
        invariant f == "<" + Join(TypeTexts(ctx, targs)[..i], ", ")
      {
        if i > 0 {
          f := f + ", ";
        }
        f := f + ctx.typeText(targs[i]);
        assert TypeTexts(ctx, targs)[..i + 1][..i] == TypeTexts(ctx, targs)[..i];
      }
      assert TypeTexts(ctx, targs)[..|targs|] == TypeTexts(ctx, targs);
      f := f + ">";
      f := f + "fmt_type_args";
    }
  }

  /** `struct_str`: the struct type's display. */
  function StructStr(ctx: Context, mid: nat, sid: string, targs: seq<Type>): string
  {
    ctx.typeText(Struct(mid, sid, targs))
  }

  /** The field suffix of `borrow_field` and `get_field`: `.` and the name of
    * the first field entry with the offset, nothing when there is none. */
  function FieldSuffix(fields: seq<FieldEntry>, offset: nat): string
    decreases |fields|
  {
    if fields == [] then ""
    else if fields[0].offset == offset then "." + fields[0].name
    else FieldSuffix(fields[1..], offset)
  }

  lemma {:induction false} FieldSuffixSpec(fields: seq<FieldEntry>, offset: nat)
    ensures FieldSuffix(fields, offset) == "" <==> forall i :: 0 <= i < |fields| ==> fields[i].offset != offset
    ensures forall i :: (0 <= i < |fields| && fields[i].offset == offset
      && forall j :: 0 <= j < i ==> fields[j].offset != offset) ==>
      FieldSuffix(fields, offset) == "." + fields[i].name
    decreases |fields|
  {
    if fields != [] {
      FieldSuffixSpec(fields[1..], offset);
      assert forall i :: 1 <= i < |fields| ==> fields[i] == fields[1..][i - 1];
    }
  }

  /** The loop over the field data that writes the suffix and stops. */
  method WriteFieldSuffix(fields: seq<FieldEntry>, offset: nat) returns (f: string)
    ensures f == FieldSuffix(fields, offset)
  {
    f := "";
    var i := 0;
    while i < |fields|
      invariant 0 <= i <= |fields|
      invariant FieldSuffix(fields, offset) == FieldSuffix(fields[i..], offset)
    {
      if fields[i].offset == offset {
        f := "." + fields[i].name;
        return;
      }
      assert fields[i..][1..] == fields[i + 1..];
      i := i + 1;
    }
  }

  /** The struct operations whose rendering looks up the struct's field data,
    * which must be there. */
  predicate Renderable(ctx: Context, op: Operation)
  {
    (op.BorrowField? ==> op.bsid in ctx.structFields)
    && (op.GetField? ==> op.fsid in ctx.structFields)
  }

  function HavocText(kind: HavocKind): string
  {
    match kind
    case HavocValue => "val"
    case MutationValue => "mut"
    case MutationAll => "mut_all"
  }

  /** `OperationDisplay::fmt`. Every call is shown with the name of the module
    * under analysis, whatever module the callee is in; the operations whose
    * rendering the source leaves unwritten print nothing. */
  function OperationText(ctx: Context, op: Operation): string
    requires Renderable(ctx, op)
  {
    if IsOperator(op) then OperatorText(op)
    else match op
    case Function(_, fid, targs) => ctx.moduleName + "::" + fid + TypeArgsText(ctx, targs)
    case OpaqueCallBegin(_, fid, targs) => "opaque begin: " + ctx.moduleName + "::" + fid + TypeArgsText(ctx, targs)
    case OpaqueCallEnd(_, fid, targs) => "opaque end: " + ctx.moduleName + "::" + fid + TypeArgsText(ctx, targs)
    case Pack(mid, sid, targs) => "pack " + StructStr(ctx, mid, sid, targs)
    case Unpack(mid, sid, targs) => "unpack " + StructStr(ctx, mid, sid, targs)
    case BorrowLoc => "borrow_local"
    case BorrowField(mid, sid, targs, offset) =>
      "borrow_field<" + StructStr(ctx, mid, sid, targs) + ">" + FieldSuffix(ctx.structFields[sid], offset)
    case BorrowGlobal(mid, sid, targs) => "borrow_global<" + StructStr(ctx, mid, sid, targs) + ">"
    case GetField(mid, sid, targs, offset) =>
      "get_field<" + StructStr(ctx, mid, sid, targs) + ">" + FieldSuffix(ctx.structFields[sid], offset)
    case GetGlobal(mid, sid, targs) => "get_global<" + StructStr(ctx, mid, sid, targs) + ">"
    case MoveTo(mid, sid, targs) => "move_to<" + StructStr(ctx, mid, sid, targs) + ">"
    case MoveFrom(mid, sid, targs) => "move_from<" + StructStr(ctx, mid, sid, targs) + ">"
    case Exists(mid, sid, targs) => "exists<" + StructStr(ctx, mid, sid, targs) + ">"
    case Uninit => "uninit"
    case Destroy => "destroy"
    case ReadRef => "read_ref"
    case WriteRef => "write_ref"
    case FreezeRef => "freeze_ref"
    case UnpackRef => "unpack_ref"
    case PackRef => "pack_ref"
    case PackRefDeep => "pack_ref_deep"
    case UnpackRefDeep => "unpack_ref_deep"
    case WriteBack(_, _) => ""
    case IsParent(_, _) => ""
    case Havoc(kind) => "havoc[" + HavocText(kind) + "]"
    case Stop => "stop"
    case TraceLocal(_) => ""
    case TraceReturn(r) => "trace_return[" + NatToString(r) + "]"
    case TraceAbort => "trace_abort"
    case TraceExp(_) => ""
    case EmitEvent => "emit_event"
    case EventStoreDiverge => "event_store_diverge"
    case TraceGlobalMem(_) => "trace_global_mem"
    case _ => ""
  }

  /** The casts, `!` and the binary operators. */
  predicate IsOperator(op: Operation)
  {
    op.CastU8? || op.CastU16? || op.CastU32? || op.CastU64? || op.CastU128? || op.CastU256? || op.Not?
    || op.Add? || op.Sub? || op.Mul? || op.Div? || op.Mod? || op.BitOr? || op.BitAnd? || op.Xor?
    || op.Shl? || op.Shr? || op.Lt? || op.Gt? || op.Le? || op.Ge? || op.Or? || op.And? || op.Eq? || op.Neq?
  }

  function OperatorText(op: Operation): string
  {
    match op
    case CastU8 => "(u8)"
    case CastU16 => "(u16)"
    case CastU32 => "(u32)"
    case CastU64 => "(u64)"
    case CastU128 => "(u128)"
    case CastU256 => "(u256)"
    case Not => "!"
    case Add => "+"
    case Sub => "-"
    case Mul => "*"
    case Div => "/"
    case Mod => "%"
    case BitOr => "|"
    case BitAnd => "&"
    case Xor => "^"
    case Shl => "<<"
    case Shr => ">>"
    case Lt => "<"
    case Gt => ">"
    case Le => "<="
    case Ge => ">="
    case Or => "||"
    case And => "&&"
    case Eq => "=="
    case Neq => "!="
    case _ => ""
  }

  /** Reading an operator symbol back, character by character: the inverse
    * of the operator rendering. */
  function ParseOperator(s: string): (r: Wrappers.Option<Operation>)
  {
    if |s| == 1 then ParseSymbol1(s[0])
    else if |s| == 2 then ParseSymbol2(s[0], s[1])
    else if |s| >= 4 && s[0] == '(' && s[1] == 'u' && s[|s| - 1] == ')' then ParseCast(s[2..|s| - 1])
    else Wrappers.None
  }

  function ParseSymbol1(c: char): Wrappers.Option<Operation>
  {
    match c
    case '!' => Wrappers.Some(Not)
    case '+' => Wrappers.Some(Add)
    case '-' => Wrappers.Some(Sub)
    case '*' => Wrappers.Some(Mul)
    case '/' => Wrappers.Some(Div)
    case '%' => Wrappers.Some(Mod)
    case '|' => Wrappers.Some(BitOr)
    case '&' => Wrappers.Some(BitAnd)
    case '^' => Wrappers.Some(Xor)
    case '<' => Wrappers.Some(Lt)
    case '>' => Wrappers.Some(Gt)
    case _ => Wrappers.None
  }

  function ParseSymbol2(c: char, d: char): Wrappers.Option<Operation>
  {
    if c == '<' && d == '<' then Wrappers.Some(Shl)
    else if c == '>' && d == '>' then Wrappers.Some(Shr)
    else if c == '<' && d == '=' then Wrappers.Some(Le)
    else if c == '>' && d == '=' then Wrappers.Some(Ge)
    else if c == '|' && d == '|' then Wrappers.Some(Or)
    else if c == '&' && d == '&' then Wrappers.Some(And)
    else if c == '=' && d == '=' then Wrappers.Some(Eq)
    else if c == '!' && d == '=' then Wrappers.Some(Neq)
    else Wrappers.None
  }

  function ParseCast(w: string): Wrappers.Option<Operation>
  {
    if w == "8" then Wrappers.Some(CastU8)
    else if w == "16" then Wrappers.Some(CastU16)
    else if w == "32" then Wrappers.Some(CastU32)
    else if w == "64" then Wrappers.Some(CastU64)
    else if w == "128" then Wrappers.Some(CastU128)
    else if w == "256" then Wrappers.Some(CastU256)
    else Wrappers.None
  }

  predicate IsCast(op: Operation)
  {
    op.CastU8? || op.CastU16? || op.CastU32? || op.CastU64? || op.CastU128? || op.CastU256?
  }

  /** Every cast prints as a symbol of its own. */
  lemma CastRoundTrip(ctx: Context, op: Operation)
    requires IsCast(op)
    ensures Renderable(ctx, op)
    ensures ParseOperator(OperationText(ctx, op)) == Wrappers.Some(op)
  {
    var t := OperationText(ctx, op);
    match op
    case CastU8 => assert t[2..|t| - 1] == "8";
    case CastU16 => assert t[2..|t| - 1] == "16";
    case CastU32 => assert t[2..|t| - 1] == "32";
    case CastU64 => assert t[2..|t| - 1] == "64";
    case CastU128 => assert t[2..|t| - 1] == "128";
    case CastU256 => assert t[2..|t| - 1] == "256";
  }

  /** Every other operator prints as a symbol of its own. */
  lemma OperatorRoundTrip(ctx: Context, op: Operation)
    requires IsOperator(op) && !IsCast(op)
    ensures Renderable(ctx, op)
    ensures ParseOperator(OperationText(ctx, op)) == Wrappers.Some(op)
  {
    assert OperationText(ctx, op) == OperatorText(op);
    if op.Not? || op.Add? || op.Sub? || op.Mul? || op.Div? || op.Mod? || op.BitOr? || op.BitAnd? || op.Xor? || op.Lt? || op.Gt? {
      OneCharRoundTrip(op);
    } else {
      TwoCharRoundTrip(op);
    }
  }

  /** The operators printed as one character. */
  lemma OneCharRoundTrip(op: Operation)
    requires op.Not? || op.Add? || op.Sub? || op.Mul? || op.Div? || op.Mod? || op.BitOr? || op.BitAnd? || op.Xor? || op.Lt? || op.Gt?
    ensures ParseOperator(OperatorText(op)) == Wrappers.Some(op)
  {
    match op
    case Not => assert OperatorText(op) == ['!'];
    case Add => assert OperatorText(op) == ['+'];
    case Sub => assert OperatorText(op) == ['-'];
    case Mul => assert OperatorText(op) == ['*'];
    case Div => assert OperatorText(op) == ['/'];
    case Mod => assert OperatorText(op) == ['%'];
    case BitOr => assert OperatorText(op) == ['|'];
    case BitAnd => assert OperatorText(op) == ['&'];
    case Xor => assert OperatorText(op) == ['^'];
    case Lt => assert OperatorText(op) == ['<'];
    case Gt => assert OperatorText(op) == ['>'];
  }

  /** The operators printed as two characters. */
  lemma TwoCharRoundTrip(op: Operation)
    requires op.Shl? || op.Shr? || op.Le? || op.Ge? || op.Or? || op.And? || op.Eq? || op.Neq?
    ensures ParseOperator(OperatorText(op)) == Wrappers.Some(op)
  {
    match op
    case Shl => assert OperatorText(op) == ['<', '<'];
    case Shr => assert OperatorText(op) == ['>', '>'];
    case Le => assert OperatorText(op) == ['<', '='];
    case Ge => assert OperatorText(op) == ['>', '='];
    case Or => assert OperatorText(op) == ['|', '|'];
    case And => assert OperatorText(op) == ['&', '&'];
    case Eq => assert OperatorText(op) == ['=', '='];
    case Neq => assert OperatorText(op) == ['!', '='];
  }

  // ---------------------------------------------------------------------
  // Instructions
  // ---------------------------------------------------------------------

  function AbortText(labelOffsets: map<nat, nat>, aa: AbortActionOpt): string
  {
    match aa
    case NoAbort => ""
    case OnAbort(AbortAction(lbl, code)) =>
      " on_abort goto " + LabelStr(labelOffsets, lbl) + " with " + LStr(code)
  }

  /** The destinations of a call and the assignment sign, or nothing when it
    * has none. */
  function DstsText(dsts: seq<nat>): string
  {
    if dsts == [] then "" else FmtLocals(dsts, false) + " := "
  }

  /** An assignment: `d := copy(s)`, `d := move(s)` or `d := s` by kind. */
  function AssignText(dst: nat, src: nat, kind: AssignKind): string
  {
    LStr(dst) + " := " + AssignRest(src, kind)
  }

  function AssignRest(src: nat, kind: AssignKind): string
  {
    match kind
    case Copy => "copy(" + LStr(src) + ")"
    case Move => "move(" + LStr(src) + ")"
    case Store => LStr(src)
  }

  /** A call: its destinations unless it has none, the operation, its
    * arguments, always parenthesised, and its abort action if any. */
  function CallText(ctx: Context, labelOffsets: map<nat, nat>, dsts: seq<nat>, op: Operation,
                    srcs: seq<nat>, aa: AbortActionOpt): string
    requires Renderable(ctx, op)
  {
    DstsText(dsts) + CallTail(ctx, labelOffsets, op, srcs, aa)
  }

  function CallTail(ctx: Context, labelOffsets: map<nat, nat>, op: Operation, srcs: seq<nat>, aa: AbortActionOpt): string
    requires Renderable(ctx, op)
  {
    OperationText(ctx, op) + FmtLocals(srcs, true) + AbortText(labelOffsets, aa)
  }

  /** `BytecodeDisplay::fmt`; the instructions whose rendering the source
    * leaves unwritten print nothing. */
  function BytecodeText(ctx: Context, labelOffsets: map<nat, nat>, bc: Bytecode): string
    requires bc.Call? ==> Renderable(ctx, bc.op)
  {
    match bc
    case Assign(_, dst, src, kind) => AssignText(dst, src, kind)
    case Call(_, dsts, op, srcs, aa) => CallText(ctx, labelOffsets, dsts, op, srcs, aa)
    case Ret(_, rets) => "return " + FmtLocals(rets, false)
    case Load(_, dst, cons) => LStr(dst) + " := " + ctx.constText(cons)
    case Branch(_, thenLabel, elseLabel, cond) =>
      "if (" + LStr(cond) + ") goto " + LabelStr(labelOffsets, thenLabel) + " else goto " + LabelStr(labelOffsets, elseLabel)
    case Jump(_, target) => "goto " + LabelStr(labelOffsets, target)
    case Label(_, lab) => "label L" + NatToString(lab)
    case Abort(_, code) => "abort(" + LStr(code) + ")"
    case Nop(_) => "nop"
    case SaveMem(_, _, _) => ""
    case SaveSpecVar(_, _, _) => ""
    case Prop(_, _, _) => ""
  }

  /** A label instruction's text names its label: two label instructions
    * print alike exactly when they carry the same label. */
  lemma LabelTextInjective(ctx: Context, labelOffsets: map<nat, nat>, a1: nat, l1: nat, a2: nat, l2: nat)
    ensures BytecodeText(ctx, labelOffsets, Label(a1, l1)) == BytecodeText(ctx, labelOffsets, Label(a2, l2)) <==> l1 == l2
  {
    var p := "label L";
    if p + NatToString(l1) == p + NatToString(l2) {
      assert NatToString(l1) == (p + NatToString(l1))[|p|..];
      assert NatToString(l2) == (p + NatToString(l2))[|p|..];
      NatToStringInjective(l1, l2);
    }
  }

  /** A jump prints `goto` and its target; a label never prints like a jump
    * or a branch. */
  lemma ControlTextsDistinct(ctx: Context, labelOffsets: map<nat, nat>, b: Bytecode, j: Bytecode)
    requires b.Label? && (j.Jump? || j.Branch?)
    ensures BytecodeText(ctx, labelOffsets, b) != BytecodeText(ctx, labelOffsets, j)
    ensures j.Jump? ==> BytecodeText(ctx, labelOffsets, j) == "goto " + LabelStr(labelOffsets, j.target)
  {
    var t := BytecodeText(ctx, labelOffsets, b);
    var u := BytecodeText(ctx, labelOffsets, j);
    assert t[0] == 'l';
    if j.Jump? {
      assert u[0] == 'g';
    } else {
      assert u[0] == 'i';
    }
  }

  /** Cutting a text at its first blank: the parts before it agree. */
  lemma HeadSplit(x: string, u: string, y: string, v: string)
    requires x + " " + u == y + " " + v
    requires ' ' !in x && ' ' !in y
    ensures x == y && u == v
  {
    var s := x + " " + u;
    assert s == y + " " + v;
    assert s[|x|] == ' ' && s[|y|] == ' ';
    assert forall j :: 0 <= j < |x| ==> s[j] == x[j];
    assert forall j :: 0 <= j < |y| ==> s[j] == y[j];
    assert |x| == |y|;
    assert x == s[..|x|] && y == (y + " " + v)[..|y|];
    assert u == s[|x| + 1..] && v == (y + " " + v)[|y| + 1..];
  }

  /** The rendering of an assignment determines its destination, its source
    * and its kind. */
  lemma AssignTextInjective(d1: nat, s1: nat, k1: AssignKind, d2: nat, s2: nat, k2: AssignKind)
    requires AssignText(d1, s1, k1) == AssignText(d2, s2, k2)
    ensures d1 == d2 && s1 == s2 && k1 == k2
  {
    var r1, r2 := AssignRest(s1, k1), AssignRest(s2, k2);
    AssignTextHead(d1, s1, k1);
    AssignTextHead(d2, s2, k2);
    HeadSplit(LStr(d1), ":= " + r1, LStr(d2), ":= " + r2);
    LStrInjective(d1, d2);
    assert r1 == (":= " + r1)[3..] == (":= " + r2)[3..] == r2;
    AssignRestInjective(s1, k1, s2, k2);
  }

  /** An assignment's text is its destination, a blank, and the rest. */
  lemma AssignTextHead(d: nat, src: nat, kind: AssignKind)
    ensures AssignText(d, src, kind) == LStr(d) + " " + (":= " + AssignRest(src, kind))
    ensures ' ' !in LStr(d)
  {
    LStrSpec(d);
  }

  lemma AssignRestInjective(s1: nat, k1: AssignKind, s2: nat, k2: AssignKind)
    requires AssignRest(s1, k1) == AssignRest(s2, k2)
    ensures s1 == s2 && k1 == k2
  {
    var r := AssignRest(s1, k1);
    assert r[0] == (match k1 case Copy => 'c' case Move => 'm' case Store => '$');
    assert r[0] == (match k2 case Copy => 'c' case Move => 'm' case Store => '$');
    if k1 != Store {
      assert LStr(s1) == r[5..|r| - 1] == LStr(s2);
    }
    LStrInjective(s1, s2);
  }

  /** The destinations part of a call's text can be cut off whatever
    * follows it, and determines the destinations. */
  lemma DstsTextInjective(dsts1: seq<nat>, dsts2: seq<nat>, rest: string)
    requires DstsText(dsts1) + rest == DstsText(dsts2) + rest
    ensures dsts1 == dsts2
  {
    var p1, p2 := DstsText(dsts1), DstsText(dsts2);
    assert |p1| == |p2|;
    assert p1 == (p1 + rest)[..|p1|] == (p2 + rest)[..|p2|] == p2;
    if dsts1 != [] && dsts2 != [] {
      var f1, f2 := FmtLocals(dsts1, false), FmtLocals(dsts2, false);
      assert f1 == p1[..|p1| - 4] == p2[..|p2| - 4] == f2;
      FmtLocalsInjective(dsts1, false, dsts2, false);
    }
  }

  /** Two calls that differ at most in their destinations print differently
    * unless the destinations agree: in particular a call prints no `:= `
    * part exactly when it has no destinations. */
  lemma CallDstsDetermined(ctx: Context, labelOffsets: map<nat, nat>, dsts1: seq<nat>, dsts2: seq<nat>,
                           op: Operation, srcs: seq<nat>, aa: AbortActionOpt)
    requires Renderable(ctx, op)
    requires CallText(ctx, labelOffsets, dsts1, op, srcs, aa) == CallText(ctx, labelOffsets, dsts2, op, srcs, aa)
    ensures dsts1 == dsts2
  {
    DstsTextInjective(dsts1, dsts2, CallTail(ctx, labelOffsets, op, srcs, aa));
  }
}
