/** Helpers of the stackless bytecode generator (`src/move_ir/utils.rs`):
  * globalising signature tokens into model types, translating constant
  * values, naming and typing locals, struct field tables, the location
  * table, and the reaching-definition lookup the detectors use. */
module MoveUtils {
  import opened Stackless
  import opened Text
  import opened Wrappers
  import BytecodeDisplay

  // ---------------------------------------------------------------------
  // Signature tokens and their globalisation

  /** A signature token of the compiled module: struct tokens name a struct
    * handle by its index in the module's handle table. */
  datatype Token =
    | BoolT | U8T | U16T | U32T | U64T | U128T | U256T | AddressT | SignerT
    | VectorT(elem: Token)
    | StructT(handle: nat)
    | StructInstT(ihandle: nat, args: seq<Token>)
    | ReferenceT(to: Token)
    | MutableReferenceT(mto: Token)
    | TypeParamT(index: nat)

  /** A struct handle: the module-handle index declaring it and its name. */
  datatype StructHandle = StructHandle(moduleIdx: nat, name: string)

  /** Every struct handle the token mentions is in the table. */
  predicate TokenValid(handles: seq<StructHandle>, t: Token)
  {
    match t
    case VectorT(e) => TokenValid(handles, e)
    case StructT(h) => h < |handles|
    case StructInstT(h, args) => h < |handles| && forall i :: 0 <= i < |args| ==> TokenValid(handles, args[i])
    case ReferenceT(e) => TokenValid(handles, e)
    case MutableReferenceT(e) => TokenValid(handles, e)
    case _ => true
  }

  /** `globalize_signature`: a token as a model type. */
  function GlobalizeSignature(handles: seq<StructHandle>, t: Token): (r: Type)
    requires TokenValid(handles, t)
    ensures IsReference(r) <==> t.ReferenceT? || t.MutableReferenceT?
    ensures IsMutableReference(r) <==> t.MutableReferenceT?
  {
    match t
    case BoolT => Primitive(Bool)
    case U8T => Primitive(U8)
    case U16T => Primitive(U16)
    case U32T => Primitive(U32)
    case U64T => Primitive(U64)
    case U128T => Primitive(U128)
    case U256T => Primitive(U256)
    case AddressT => Primitive(Address)
    case SignerT => Primitive(Signer)
    case ReferenceT(e) => Reference(false, GlobalizeSignature(handles, e))
    case MutableReferenceT(e) => Reference(true, GlobalizeSignature(handles, e))
    case TypeParamT(i) => TypeParameter(i)
    case VectorT(e) => Vector(GlobalizeSignature(handles, e))
    case StructT(h) => Struct(handles[h].moduleIdx, handles[h].name, [])
    case StructInstT(h, args) =>
      Struct(handles[h].moduleIdx, handles[h].name, GlobalizeSignatures(handles, args))
  }

  /** `globalize_signatures`: element-wise, in order. */
  function GlobalizeSignatures(handles: seq<StructHandle>, ts: seq<Token>): (r: seq<Type>)
    requires forall i :: 0 <= i < |ts| ==> TokenValid(handles, ts[i])
    ensures |r| == |ts|
  {
    seq(|ts|, i requires 0 <= i < |ts| => GlobalizeSignature(handles, ts[i]))
  }

  /** The token with every plain struct token written as an instantiation
    * with no arguments: the two spellings globalise to the same type. */
  function Normal(t: Token): Token
  {
    match t
    case VectorT(e) => VectorT(Normal(e))
    case StructT(h) => StructInstT(h, [])
    case StructInstT(h, args) => StructInstT(h, seq(|args|, i requires 0 <= i < |args| => Normal(args[i])))
    case ReferenceT(e) => ReferenceT(Normal(e))
    case MutableReferenceT(e) => MutableReferenceT(Normal(e))
    case _ => t
  }

  predicate HandlesDistinct(handles: seq<StructHandle>)
  {
    forall i, j :: 0 <= i < j < |handles| ==> handles[i] != handles[j]
  }

  /** With distinct struct handles, globalisation loses nothing but the
    * difference between a plain struct token and an empty instantiation. */
  lemma {:induction false} GlobalizeInjective(handles: seq<StructHandle>, a: Token, b: Token)
    requires HandlesDistinct(handles)
    requires TokenValid(handles, a) && TokenValid(handles, b)
    ensures GlobalizeSignature(handles, a) == GlobalizeSignature(handles, b) <==> Normal(a) == Normal(b)
    decreases a
  {
    var ga, gb := GlobalizeSignature(handles, a), GlobalizeSignature(handles, b);
    match a
    case VectorT(e) =>
      if b.VectorT? { GlobalizeInjective(handles, e, b.elem); }
    case ReferenceT(e) =>
      if b.ReferenceT? { GlobalizeInjective(handles, e, b.to); }
    case MutableReferenceT(e) =>
      if b.MutableReferenceT? { GlobalizeInjective(handles, e, b.mto); }
    case StructT(h) =>
      if ga == gb {
        var hb := if b.StructT? then b.handle else b.ihandle;
        assert handles[h] == handles[hb];
      }
    case StructInstT(h, args) =>
      if b.StructT? || b.StructInstT? {
        var hb := if b.StructT? then b.handle else b.ihandle;
        var bargs := if b.StructT? then [] else b.args;
        var gas, gbs := GlobalizeSignatures(handles, args), GlobalizeSignatures(handles, bargs);
        var nas := seq(|args|, i requires 0 <= i < |args| => Normal(args[i]));
        var nbs := seq(|bargs|, i requires 0 <= i < |bargs| => Normal(bargs[i]));
        assert ga == Struct(handles[h].moduleIdx, handles[h].name, gas);
        assert gb == Struct(handles[hb].moduleIdx, handles[hb].name, gbs);
        assert Normal(a) == StructInstT(h, nas);
        assert Normal(b) == StructInstT(hb, nbs);
        forall k | 0 <= k < |args| && k < |bargs|
          ensures gas[k] == gbs[k] <==> nas[k] == nbs[k]
        {
          GlobalizeInjective(handles, args[k], bargs[k]);
        }
        assert gas == gbs <==> nas == nbs by {
          if |args| == |bargs| {
            assert gas == gbs <==> forall k :: 0 <= k < |args| ==> gas[k] == gbs[k];
            assert nas == nbs <==> forall k :: 0 <= k < |args| ==> nas[k] == nbs[k];
          }
        }
        assert handles[h] == handles[hb] <==> h == hb;
      }
    case _ =>
  }

  // ---------------------------------------------------------------------
  // Constant values

  /** A deserialised Move value as the constant pool holds it. */
  datatype MoveValue =
    | BoolV(b: bool)
    | U8V(v8: u8) | U16V(v16: u16) | U32V(v32: u32) | U64V(v64: u64) | U128V(v128: u128) | U256V(v256: u256)
    | AddressV(addr: nat)
    | SignerV(signer: nat)
    | VectorV(elems: seq<MoveValue>)
    | StructV(fields: seq<MoveValue>)

  /** An independent statement of which (type, value) pairs are constants:
    * a primitive of its own type, or a vector of well-typed elements. */
  predicate HasType(ty: Type, v: MoveValue)
  {
    match (ty, v)
    case (Vector(inner), VectorV(vs)) => forall i :: 0 <= i < |vs| ==> HasType(inner, vs[i])
    case (Primitive(Bool), BoolV(_)) => true
    case (Primitive(U8), U8V(_)) => true
    case (Primitive(U16), U16V(_)) => true
    case (Primitive(U32), U32V(_)) => true
    case (Primitive(U64), U64V(_)) => true
    case (Primitive(U128), U128V(_)) => true
    case (Primitive(U256), U256V(_)) => true
    case (Primitive(Address), AddressV(_)) => true
    case _ => false
  }

  /** The bytes of a list of translated `u8` constants, if they all are. */
  function AsBytes(cs: seq<Constant>): (r: Option<seq<u8>>)
    ensures r.Some? <==> forall i :: 0 <= i < |cs| ==> cs[i].U8C?
  {
    if forall i :: 0 <= i < |cs| ==> cs[i].U8C? then Some(seq(|cs|, i requires 0 <= i < |cs| && cs[i].U8C? => cs[i].v8))
    else None
  }

  /** The addresses of a list of translated address constants, if they all are. */
  function AsAddresses(cs: seq<Constant>): (r: Option<seq<nat>>)
    ensures r.Some? <==> forall i :: 0 <= i < |cs| ==> cs[i].AddressC?
  {
    if forall i :: 0 <= i < |cs| ==> cs[i].AddressC? then Some(seq(|cs|, i requires 0 <= i < |cs| && cs[i].AddressC? => cs[i].addr))
    else None
  }

  /** `translate_value`: the constant for a value of the given type; a failure
    * where the source panics (a mismatched pair). */
  function TranslateValue(ty: Type, v: MoveValue): Result<Constant>
    decreases v, 1, 0
  {
    match (ty, v)
    case (Vector(inner), VectorV(vs)) =>
      (match TranslateElems(inner, v, 0)
       case Failure(e) => Failure(e)
       case Success(cs) =>
         if inner == Primitive(U8) then
           (match AsBytes(cs)
            case Some(bs) => Success(ByteArray(bs))
            case None => Failure("Expected u8"))
         else if inner == Primitive(Address) then
           (match AsAddresses(cs)
            case Some(as_) => Success(AddressArray(as_))
            case None => Failure("Expected address"))
         else Success(VectorC(cs)))
    case (Primitive(Bool), BoolV(b)) => Success(BoolC(b))
    case (Primitive(U8), U8V(b)) => Success(U8C(b))
    case (Primitive(U16), U16V(b)) => Success(U16C(b))
    case (Primitive(U32), U32V(b)) => Success(U32C(b))
    case (Primitive(U64), U64V(b)) => Success(U64C(b))
    case (Primitive(U128), U128V(b)) => Success(U128C(b))
    case (Primitive(U256), U256V(b)) => Success(U256C(b))
    case (Primitive(Address), AddressV(a)) => Success(AddressC(a))
    case _ => Failure("Unexpected (and possibly invalid) constant type")
  }

  /** The elements of vector value `v` from index `i` on, translated in order. */
  function TranslateElems(inner: Type, v: MoveValue, i: nat): (r: Result<seq<Constant>>)
    requires v.VectorV? && i <= |v.elems|
    ensures r.Success? ==> |r.value| == |v.elems| - i
    decreases v, 0, |v.elems| - i
  {
    if i == |v.elems| then Success([])
    else
      match TranslateValue(inner, v.elems[i])
      case Failure(e) => Failure(e)
      case Success(c) =>
        (match TranslateElems(inner, v, i + 1)
         case Failure(e) => Failure(e)
         case Success(cs) => Success([c] + cs))
  }

  /** The value a constant stands for: the inverse of the translation. */
  function ConstantValue(c: Constant): MoveValue
  {
    match c
    case BoolC(b) => BoolV(b)
    case U8C(b) => U8V(b)
    case U16C(b) => U16V(b)
    case U32C(b) => U32V(b)
    case U64C(b) => U64V(b)
    case U128C(b) => U128V(b)
    case U256C(b) => U256V(b)
    case AddressC(a) => AddressV(a)
    case ByteArray(bs) => VectorV(seq(|bs|, i requires 0 <= i < |bs| => U8V(bs[i])))
    case AddressArray(as_) => VectorV(seq(|as_|, i requires 0 <= i < |as_| => AddressV(as_[i])))
    case VectorC(cs) => VectorV(seq(|cs|, i requires 0 <= i < |cs| => ConstantValue(cs[i])))
  }

  /** The constant form chosen for a type: `vector<u8>` is a byte array,
    * `vector<address>` an address array, any other vector a vector of
    * constants of the element type. */
  predicate ConstantFits(ty: Type, c: Constant)
  {
    match ty
    case Vector(inner) =>
      if inner == Primitive(U8) then c.ByteArray?
      else if inner == Primitive(Address) then c.AddressArray?
      else c.VectorC? && forall i :: 0 <= i < |c.elems| ==> ConstantFits(inner, c.elems[i])
    case _ => !c.ByteArray? && !c.AddressArray? && !c.VectorC?
  }

  /** The translation succeeds exactly on well-typed pairs; its constant has
    * the form the type calls for and stands for the value it came from. */
  lemma {:induction false} TranslateValueSpec(ty: Type, v: MoveValue)
    ensures TranslateValue(ty, v).Success? <==> HasType(ty, v)
    ensures TranslateValue(ty, v).Success? ==>
              ConstantFits(ty, TranslateValue(ty, v).value) && ConstantValue(TranslateValue(ty, v).value) == v
    decreases v, 2
  {
    if ty.Vector? && v.VectorV? {
      TranslateVectorSpec(ty, v);
    } else if ty.Primitive? {
      TranslateScalarSpec(ty, v);
    } else {
      TranslateMismatch(ty, v);
    }
  }

  /** A pair that is neither a vector of a vector type nor a primitive
    * type's value fails, and is not well typed. */
  lemma TranslateMismatch(ty: Type, v: MoveValue)
    requires !(ty.Vector? && v.VectorV?) && !ty.Primitive?
    ensures TranslateValue(ty, v).Failure? && !HasType(ty, v)
  {
    if ty.Vector? {
      assert !v.VectorV?;
    }
  }

  /** The scalar case of `TranslateValueSpec`. */
  lemma TranslateScalarSpec(ty: Type, v: MoveValue)
    requires ty.Primitive?
    ensures TranslateValue(ty, v).Success? <==> HasType(ty, v)
    ensures TranslateValue(ty, v).Success? ==>
              ConstantFits(ty, TranslateValue(ty, v).value) && ConstantValue(TranslateValue(ty, v).value) == v
  {
    ScalarSucceeds(ty, v);
    if TranslateValue(ty, v).Success? {
      ScalarValue(ty, v);
    }
  }

  /** A scalar translation succeeds exactly on a value of the type. */
  lemma ScalarSucceeds(ty: Type, v: MoveValue)
    requires ty.Primitive?
    ensures TranslateValue(ty, v).Success? <==> HasType(ty, v)
  {
    match ty.prim {
      case Bool =>
      case U8 =>
      case U16 =>
      case U32 =>
      case U64 =>
      case U128 =>
      case U256 =>
      case Address =>
      case _ =>
    }
  }

  /** A successful scalar translation is a scalar constant standing for the
    * value. */
  lemma ScalarValue(ty: Type, v: MoveValue)
    requires ty.Primitive? && TranslateValue(ty, v).Success?
    ensures ConstantFits(ty, TranslateValue(ty, v).value) && ConstantValue(TranslateValue(ty, v).value) == v
  {
    match ty.prim {
      case Bool =>
      case U8 =>
      case U16 =>
      case U32 =>
      case U64 =>
      case U128 =>
      case U256 =>
      case Address =>
    }
  }

  /** The vector case of `TranslateValueSpec`. */
  lemma {:induction false} TranslateVectorSpec(ty: Type, v: MoveValue)
    requires ty.Vector? && v.VectorV?
    ensures TranslateValue(ty, v).Success? <==> HasType(ty, v)
    ensures TranslateValue(ty, v).Success? ==>
              ConstantFits(ty, TranslateValue(ty, v).value) && ConstantValue(TranslateValue(ty, v).value) == v
    decreases v, 1
  {
    TranslateElemsSpec(ty.elem, v, 0);
    var vs := v.elems;
    var r := TranslateElems(ty.elem, v, 0);
    if r.Success? {
      var cs := r.value;
      forall k | 0 <= k < |vs|
        ensures ConstantValue(cs[k]) == vs[k] && ConstantFits(ty.elem, cs[k])
      {
        TranslateValueSpec(ty.elem, vs[k]);
      }
      if ty.elem == Primitive(U8) {
        ByteArrayValue(cs, vs);
      } else if ty.elem == Primitive(Address) {
        AddressArrayValue(cs, vs);
      } else {
        assert ConstantValue(VectorC(cs)).elems == vs;
      }
    }
  }

  lemma ByteArrayValue(cs: seq<Constant>, vs: seq<MoveValue>)
    requires |cs| == |vs|
    requires forall k :: 0 <= k < |vs| ==> ConstantValue(cs[k]) == vs[k] && HasType(Primitive(U8), vs[k])
    ensures AsBytes(cs).Some? && ConstantValue(ByteArray(AsBytes(cs).value)) == VectorV(vs)
  {
    forall k | 0 <= k < |cs| ensures cs[k].U8C? { assert ConstantValue(cs[k]).U8V?; }
    var bs := AsBytes(cs).value;
    assert ConstantValue(ByteArray(bs)).elems == vs by {
      forall k | 0 <= k < |vs| ensures ConstantValue(ByteArray(bs)).elems[k] == vs[k] {
        assert ConstantValue(cs[k]) == vs[k];
      }
    }
  }

  lemma AddressArrayValue(cs: seq<Constant>, vs: seq<MoveValue>)
    requires |cs| == |vs|
    requires forall k :: 0 <= k < |vs| ==> ConstantValue(cs[k]) == vs[k] && HasType(Primitive(Address), vs[k])
    ensures AsAddresses(cs).Some? && ConstantValue(AddressArray(AsAddresses(cs).value)) == VectorV(vs)
  {
    forall k | 0 <= k < |cs| ensures cs[k].AddressC? { assert ConstantValue(cs[k]).AddressV?; }
    var as_ := AsAddresses(cs).value;
    assert ConstantValue(AddressArray(as_)).elems == vs by {
      forall k | 0 <= k < |vs| ensures ConstantValue(AddressArray(as_)).elems[k] == vs[k] {
        assert ConstantValue(cs[k]) == vs[k];
      }
    }
  }

  /** Element-wise: the tail translation succeeds exactly when every
    * remaining element is well typed, and yields their translations. */
  lemma {:induction false} TranslateElemsSpec(inner: Type, v: MoveValue, i: nat)
    requires v.VectorV? && i <= |v.elems|
    ensures TranslateElems(inner, v, i).Success? <==> forall k :: i <= k < |v.elems| ==> HasType(inner, v.elems[k])
    ensures TranslateElems(inner, v, i).Success? ==>
              forall k :: i <= k < |v.elems| ==> TranslateValue(inner, v.elems[k]) == Success(TranslateElems(inner, v, i).value[k - i])
    decreases v, 0, |v.elems| - i
  {
    if i < |v.elems| {
      TranslateValueSpec(inner, v.elems[i]);
      TranslateElemsSpec(inner, v, i + 1);
    }
  }

  // ---------------------------------------------------------------------
  // Locals

  /** `get_local_type`: a parameter index reads the parameter's token; any
    * other index reads the locals signature at the index cast to 8 bits. */
  function GetLocalType(handles: seq<StructHandle>, params: seq<Token>, locals: Option<seq<Token>>, idx: nat): (r: Type)
    requires idx < |params| ==> TokenValid(handles, params[idx])
    requires idx >= |params| ==> locals.Some? && idx % 256 < |locals.value| && TokenValid(handles, locals.value[idx % 256])
    ensures idx < |params| ==> r == GlobalizeSignature(handles, params[idx])
    ensures idx >= |params| ==> r == GlobalizeSignature(handles, locals.value[idx % 256])
  {
    if idx < |params| then GlobalizeSignature(handles, params[idx])
    else GlobalizeSignature(handles, locals.value[idx % 256])
  }

  /** When the locals signature lists the parameters first and has at most 256
    * entries, both reading paths agree: every local's type is its own entry. */
  lemma LocalTypeIsDeclared(handles: seq<StructHandle>, params: seq<Token>, locals: seq<Token>, idx: nat)
    requires |locals| <= 256 && |params| <= |locals| && locals[..|params|] == params
    requires forall i :: 0 <= i < |locals| ==> TokenValid(handles, locals[i])
    requires idx < |locals|
    ensures GetLocalType(handles, params, Some(locals), idx) == GlobalizeSignature(handles, locals[idx])
  {
    if idx < |params| {
      assert params[idx] == locals[..|params|][idx];
    }
  }

  predicate Contains(s: string, pat: string)
  {
    exists j | 0 <= j <= |s| - |pat| :: OccursAt(s, pat, j)
  }

  /** `get_local_name`: the declared argument name, else the source-map name
    * with compiler temporaries (`%#`) renamed deterministically, else `$t`+idx. */
  function GetLocalName(argNames: seq<string>, sourceMapName: Option<string>, idx: nat): (r: string)
    ensures idx < |argNames| ==> r == argNames[idx]
    ensures idx >= |argNames| && sourceMapName.None? ==> r == "$t" + NatToString(idx)
    ensures idx >= |argNames| && sourceMapName.Some? && !Contains(sourceMapName.value, "%#") ==> r == sourceMapName.value
  {
    if idx < |argNames| then argNames[idx]
    else match sourceMapName
      case Some(ident) => if Contains(ident, "%#") then "tmp#$" + NatToString(idx) else ident
      case None => "$t" + NatToString(idx)
  }

  /** A name that does not come from the declared arguments never holds the
    * non-deterministic `%#` marker. */
  lemma GetLocalNameClean(argNames: seq<string>, sourceMapName: Option<string>, idx: nat)
    requires idx >= |argNames|
    ensures !Contains(GetLocalName(argNames, sourceMapName, idx), "%#")
  {
    var r := GetLocalName(argNames, sourceMapName, idx);
    if sourceMapName.None? || Contains(sourceMapName.value, "%#") {
      var p := if sourceMapName.None? then "$t" else "tmp#$";
      var d := NatToString(idx);
      assert r == p + d;
      assert forall i :: 0 <= i < |r| ==> r[i] != '%' by {
        forall i | 0 <= i < |r| ensures r[i] != '%' {
          if i < |p| { assert r[i] == p[i]; } else { assert r[i] == d[i - |p|]; }
        }
      }
      forall j | 0 <= j && j + 2 <= |r| ensures !OccursAt(r, "%#", j) {
        assert r[j..j + 2][0] == r[j];
      }
    }
  }

  // ---------------------------------------------------------------------
  // Names

  /** `get_fname_by_qid`: the module's name, `::`, the function's name. */
  function GetFnameByQid(moduleNames: seq<string>, mid: nat, fname: string): (r: string)
    requires mid < |moduleNames|
    ensures |r| == |moduleNames[mid]| + 2 + |fname|
  {
    moduleNames[mid] + "::" + fname
  }

  /** A qualified function name splits back at its first `::` into the module
    * name and the function name (module names hold no `:`). */
  lemma GetFnameByQidSplits(moduleNames: seq<string>, mid: nat, fname: string)
    requires mid < |moduleNames| && ':' !in moduleNames[mid]
    ensures var r := GetFnameByQid(moduleNames, mid, fname);
            FindFrom(r, "::", 0) == |moduleNames[mid]|
            && r[..|moduleNames[mid]|] == moduleNames[mid]
            && r[|moduleNames[mid]| + 2..] == fname
  {
    var m := moduleNames[mid];
    var r := GetFnameByQid(moduleNames, mid, fname);
    assert OccursAt(r, "::", |m|) by { assert r[|m|..|m| + 2] == "::"; }
    var f := FindFrom(r, "::", 0);
    assert f != -1;
    assert f <= |m|;
    forall j | 0 <= j < |m| ensures !OccursAt(r, "::", j) {
      assert r[j] == m[j];
      assert j + 2 <= |r| ==> r[j..j + 2][0] == r[j];
    }
    assert r[..|m|] == m;
    assert r[|m| + 2..] == fname;
  }

  /** The return-type part of a function signature: nothing without returns,
    * `: T` for one, `: (T1, T2, ...)` for several. */
  function ReturnsText(rets: seq<string>): (r: string)
    ensures |rets| == 0 <==> r == ""
    ensures |rets| == 1 ==> r == ": " + rets[0]
    ensures |rets| > 1 ==> r == ": (" + Join(rets, ", ") + ")"
  {
    if |rets| == 0 then ""
    else if |rets| == 1 then ": " + rets[0]
    else ": (" + Join(rets, ", ") + ")"
  }

  /** One type printed bare never reads as several parenthesised ones when
    * the type texts hold no blank. */
  lemma OneReturnIsNotSeveral(t: string, rets: seq<string>)
    requires BytecodeDisplay.Separable(rets) && |rets| > 1
    ensures ": " + t == ": (" + Join(rets, ", ") + ")" ==> ' ' in t
  {
    BytecodeDisplay.JoinShape(rets);
    if ": " + t == ": (" + Join(rets, ", ") + ")" {
      SpaceCarriesOver(t, Join(rets, ", "));
    }
  }

  lemma SpaceCarriesOver(t: string, j: string)
    requires ": " + t == ": (" + j + ")" && ' ' in j
    ensures ' ' in t
  {
    var p :| 0 <= p < |j| && j[p] == ' ';
    var u := "(" + j + ")";
    assert ": (" + j + ")" == ": " + u;
    assert t == (": " + t)[2..] == (": " + u)[2..] == u;
    assert u[p + 1] == j[p];
  }

  /** The return-type text determines the return types, when no type text
    * holds a blank: a caller can read the printed signature back. */
  lemma ReturnsTextInjective(a: seq<string>, b: seq<string>)
    requires BytecodeDisplay.Separable(a) && BytecodeDisplay.Separable(b)
    requires ReturnsText(a) == ReturnsText(b)
    ensures a == b
  {
    var r := ReturnsText(a);
    if |a| == 1 && |b| > 1 {
      OneReturnIsNotSeveral(a[0], b);
    } else if |b| == 1 && |a| > 1 {
      OneReturnIsNotSeveral(b[0], a);
    } else if |a| == 1 && |b| == 1 {
      assert a[0] == r[2..] && b[0] == r[2..];
    } else if |a| > 1 && |b| > 1 {
      assert Join(a, ", ") == r[3..|r| - 1] && Join(b, ", ") == r[3..|r| - 1];
      BytecodeDisplay.JoinInjective(a, b);
    }
  }

  /** One more item joined with `, `. */
  lemma JoinStep(rets: seq<string>, i: nat)
    requires i < |rets|
    ensures Join(rets[..i + 1], ", ") == if i == 0 then rets[0] else Join(rets[..i], ", ") + ", " + rets[i]
  {
    assert rets[..i + 1][..i] == rets[..i];
  }

  /** The loop of `display` appending the return types to the signature text. */
  method WriteReturns(rets: seq<string>) returns (f: string)
    ensures f == ReturnsText(rets)
  {
    f := "";
    if |rets| > 0 {
      f := f + ": ";
      if |rets| > 1 {
        f := f + "(";
      }
      var i := 0;
      while i < |rets|
        invariant 0 <= i <= |rets|
        invariant f == (if |rets| > 1 then ": (" else ": ") + Join(rets[..i], ", ")
      {
        JoinStep(rets, i);
        if i > 0 {
          f := f + ", ";
        }
        f := f + rets[i];
        i := i + 1;
      }
      assert rets[..i] == rets;
      if |rets| > 1 {
        f := f + ")";
      }
    }
  }

  // ---------------------------------------------------------------------
  // Struct fields

  datatype FieldDecl = FieldDecl(name: string, token: Token)

  /** A struct definition's field information: declared fields, or native. */
  datatype FieldInformation = Native | Declared(fields: seq<FieldDecl>)

  datatype FieldData = FieldData(name: string, offset: nat, token: Token)

  predicate FieldNamesDistinct(fields: seq<FieldDecl>)
  {
    forall i, j :: 0 <= i < j < |fields| ==> fields[i].name != fields[j].name
  }

  /** The field table after inserting the first `n` declared fields, each
    * under its name with its position as offset (a later insert under the
    * same name replaces an earlier one, as the map insert does). */
  function FieldTable(fields: seq<FieldDecl>, n: nat): map<string, FieldData>
    requires n <= |fields|
  {
    if n == 0 then map[]
    else FieldTable(fields, n - 1)[fields[n - 1].name := FieldData(fields[n - 1].name, n - 1, fields[n - 1].token)]
  }

  /** The field table of a struct definition: native structs have none. */
  function StructFields(info: FieldInformation): map<string, FieldData>
  {
    match info
    case Native => map[]
    case Declared(fields) => FieldTable(fields, |fields|)
  }

  /** The field-table part of `create_move_struct_data`. */
  method CreateStructFields(info: FieldInformation) returns (m: map<string, FieldData>)
    ensures m == StructFields(info)
  {
    m := map[];
    if info.Declared? {
      var fields := info.fields;
      for offset := 0 to |fields|
        invariant m == FieldTable(fields, offset)
      {
        m := m[fields[offset].name := FieldData(fields[offset].name, offset, fields[offset].token)];
      }
    }
  }

  /** With distinct names, the first `n` fields get the offsets 0..n-1 in
    * declaration order: the table holds exactly their names, and the entry
    * under the i-th name is the i-th field with offset i. */
  lemma {:induction false} FieldTableOffsets(fields: seq<FieldDecl>, n: nat)
    requires n <= |fields| && FieldNamesDistinct(fields)
    ensures var r := FieldTable(fields, n);
            && (forall k :: k in r <==> exists i :: 0 <= i < n && fields[i].name == k)
            && (forall i :: 0 <= i < n ==> r[fields[i].name] == FieldData(fields[i].name, i, fields[i].token))
  {
    if n > 0 {
      FieldTableOffsets(fields, n - 1);
      var r := FieldTable(fields, n);
      forall k | k in r ensures exists i :: 0 <= i < n && fields[i].name == k {
        if k != fields[n - 1].name {
          var i :| 0 <= i < n - 1 && fields[i].name == k;
        }
      }
    }
  }

  /** Declared fields get offsets 0..n-1 by declaration order, and every
    * offset names back its own field; a native struct has no fields. */
  lemma StructFieldsOffsets(info: FieldInformation)
    requires info.Declared? ==> FieldNamesDistinct(info.fields)
    ensures info.Native? ==> StructFields(info) == map[]
    ensures info.Declared? ==>
              (forall i :: 0 <= i < |info.fields| ==>
                 info.fields[i].name in StructFields(info)
                 && StructFields(info)[info.fields[i].name].offset == i)
              && (forall k :: k in StructFields(info) ==>
                    StructFields(info)[k].offset < |info.fields| && info.fields[StructFields(info)[k].offset].name == k)
  {
    if info.Declared? {
      var fields := info.fields;
      FieldTableOffsets(fields, |fields|);
      var r := StructFields(info);
      forall k | k in r
        ensures r[k].offset < |fields| && fields[r[k].offset].name == k
      {
        var i :| 0 <= i < |fields| && fields[i].name == k;
        assert r[fields[i].name].offset == i;
      }
    }
  }

  // ---------------------------------------------------------------------
  // Reaching definitions

  /** The greatest definition offset strictly below `codeOffset`, if any. */
  function ClosestBelow(defs: seq<nat>, codeOffset: nat): (r: Option<nat>)
    decreases |defs|
  {
    if |defs| == 0 then None
    else
      var rest := ClosestBelow(defs[1..], codeOffset);
      if defs[0] < codeOffset && (rest.None? || rest.value <= defs[0]) then Some(defs[0]) else rest
  }

  /** `ClosestBelow` is the nearest preceding definition, and there is none
    * exactly when no definition precedes the offset. */
  lemma {:induction false} ClosestBelowSpec(defs: seq<nat>, codeOffset: nat)
    ensures ClosestBelow(defs, codeOffset).None? <==> forall i :: 0 <= i < |defs| ==> defs[i] >= codeOffset
    ensures ClosestBelow(defs, codeOffset).Some? ==>
              var c := ClosestBelow(defs, codeOffset).value;
              c in defs && c < codeOffset && forall i :: 0 <= i < |defs| && defs[i] < codeOffset ==> defs[i] <= c
    decreases |defs|
  {
    if |defs| > 0 {
      ClosestBelowSpec(defs[1..], codeOffset);
      assert forall i :: 1 <= i < |defs| ==> defs[i] == defs[1..][i - 1];
    }
  }

  /** `get_def_bytecode`: with a single definition of the temporary, that
    * instruction; otherwise the nearest definition before `codeOffset`, or
    * the first definition when none precedes it. */
  function GetDefBytecode(code: seq<Bytecode>, defAttrid: seq<seq<nat>>, sid: nat, codeOffset: nat): (r: Bytecode)
    requires sid < |defAttrid| && |defAttrid[sid]| > 0
    requires forall i :: 0 <= i < |defAttrid[sid]| ==> defAttrid[sid][i] < |code|
  {
    var tid := defAttrid[sid];
    if |tid| == 1 then code[tid[0]]
    else
      match ClosestBelow(tid, codeOffset)
      case Some(id) => ClosestBelowSpec(tid, codeOffset); code[id]
      case None => code[tid[0]]
  }

  /** The instruction returned is a definition of the temporary: the nearest
    * one before the offset when there are several and one precedes it. */
  lemma GetDefBytecodeSpec(code: seq<Bytecode>, defAttrid: seq<seq<nat>>, sid: nat, codeOffset: nat)
    requires sid < |defAttrid| && |defAttrid[sid]| > 0
    requires forall i :: 0 <= i < |defAttrid[sid]| ==> defAttrid[sid][i] < |code|
    ensures var tid := defAttrid[sid];
            exists k :: 0 <= k < |tid| && GetDefBytecode(code, defAttrid, sid, codeOffset) == code[tid[k]]
              && (|tid| == 1 ==> k == 0)
              && (|tid| > 1 && (exists i :: 0 <= i < |tid| && tid[i] < codeOffset) ==>
                    tid[k] < codeOffset && forall i :: 0 <= i < |tid| && tid[i] < codeOffset ==> tid[i] <= tid[k])
              && (|tid| > 1 && (forall i :: 0 <= i < |tid| ==> tid[i] >= codeOffset) ==> k == 0)
  {
    var tid := defAttrid[sid];
    ClosestBelowSpec(tid, codeOffset);
    if |tid| == 1 {
      assert GetDefBytecode(code, defAttrid, sid, codeOffset) == code[tid[0]];
    } else {
      match ClosestBelow(tid, codeOffset)
      case Some(c) =>
        var k :| 0 <= k < |tid| && tid[k] == c;
        assert GetDefBytecode(code, defAttrid, sid, codeOffset) == code[tid[k]];
      case None =>
        assert GetDefBytecode(code, defAttrid, sid, codeOffset) == code[tid[0]];
    }
  }

  // ---------------------------------------------------------------------
  // Location table

  /** The location table of a function: attribute ids 0..n-1, each mapped to
    * the location recorded when it was created. */
  ghost predicate DenseTable<L>(t: map<nat, L>)
  {
    forall k :: k in t <==> k < |t|
  }

  /** `new_loc_attr`: the next attribute id is the table's size, and the
    * table gains exactly that entry. */
  function NewLocAttr<L>(t: map<nat, L>, loc: L): (r: (map<nat, L>, nat))
    ensures r.1 == |t|
    ensures r.0 == t[r.1 := loc]
  {
    (t[|t| := loc], |t|)
  }

  /** Creating an attribute keeps the table dense and grows it by one, so
    * successive ids are 0, 1, 2, ... and never reused. */
  lemma NewLocAttrGrows<L>(t: map<nat, L>, loc: L)
    requires DenseTable(t)
    ensures var (t', a) := NewLocAttr(t, loc);
            |t'| == |t| + 1 && DenseTable(t') && t'.Keys == t.Keys + {a}
  {
    var a := |t|;
    var t' := t[a := loc];
    assert a !in t;
    assert |t'| == |t| + 1;
    forall k: nat ensures k in t' <==> k < |t'| {
      if k != a {
        assert k in t' <==> k in t;
      }
    }
    assert t'.Keys == t.Keys + {a};
  }
}
