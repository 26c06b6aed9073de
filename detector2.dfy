/** `Detector2`: left shifts whose operand bounds let the result leave its
  * type. The bounds are those the dependency analysis records. */
module Detector2 {
  import opened Wrappers
  import opened Stackless
  import Packages
  import BytecodeGen
  import opened Detection
  import opened DataDependency

  const U32_MODULUS: nat := 0x1_0000_0000

  /** The number of significant bits of a value: 256 minus the
    * `leading_zeros` of a 256-bit unsigned integer. */
  function BitLength(n: nat): (k: nat)
    ensures n < Pow2(k)
    ensures n > 0 ==> k > 0 && Pow2(k - 1) <= n
  {
    if n == 0 then 0 else 1 + BitLength(n / 2)
  }

  lemma {:induction false} BitLengthBelow(n: nat, m: nat)
    requires n < Pow2(m)
    ensures BitLength(n) <= m
  {
    if n > 0 {
      BitLengthBelow(n / 2, m - 1);
    }
  }

  lemma Pow2Monotone(a: nat, b: nat)
    requires a <= b
    ensures Pow2(a) <= Pow2(b)
  {
    Pow2Add(a, b - a);
    MulMonotone(Pow2(a), 1, Pow2(a), Pow2(b - a));
  }

  /** The width `detect_overflow` computes for a shift: the significant bits
    * of the value's bound plus the shift bound truncated to 32 bits, a
    * 32-bit addition that wraps. */
  function ShiftedWidth(numMax: u256, shlMax: u256): (w: nat)
    ensures w < U32_MODULUS
    ensures shlMax < U32_MODULUS - 256 ==> w == BitLength(numMax) + shlMax
  {
    BitLengthU256(numMax);
    WidthNoWrap(BitLength(numMax), shlMax);
    (BitLength(numMax) + shlMax % U32_MODULUS) % U32_MODULUS
  }

  lemma BitLengthU256(n: u256)
    ensures BitLength(n) <= 256
  {
    Pow2Widths();
    BitLengthBelow(n, 256);
  }

  /** A small shift bound passes the 32-bit truncation and addition intact. */
  lemma WidthNoWrap(b: nat, s: nat)
    requires b <= 256
    ensures s < U32_MODULUS - 256 ==> (b + s % U32_MODULUS) % U32_MODULUS == b + s
  {
    if s < U32_MODULUS - 256 {
      assert s % U32_MODULUS == s;
      assert (b + s) % U32_MODULUS == b + s;
    }
  }

  /** The bounds of both operands of a shift are recorded. */
  predicate BoundsKnown(dd: map<nat, Node>, b: Bytecode)
  {
    b.Call? && b.op == Shl && |b.srcs| >= 2 ==>
      b.srcs[0] in dd && b.srcs[1] in dd && dd[b.srcs[0]].max.Some? && dd[b.srcs[1]].max.Some?
  }

  /** A shift whose computed width exceeds the width of its result type. */
  predicate OverflowingShl(dd: map<nat, Node>, b: Bytecode, types: seq<Type>)
    requires CallShaped(b) && InstrTyped(b, |types|) && BoundsKnown(dd, b)
  {
    b.Call? && b.op == Shl &&
    ShiftedWidth(dd[b.srcs[0]].max.value, dd[b.srcs[1]].max.value) > UBits(types[b.dsts[0]])
  }

  /** The inputs `detect_overflow` reads exist for the definition at `idx`. */
  predicate Analysable(entry: Packages.ModuleEntry, idx: nat)
  {
    idx < |entry.functions| && idx < |entry.dataDependency| && idx < |entry.defs| &&
    WellFormed(entry.functions[idx]) &&
    forall o :: 0 <= o < |entry.functions[idx].code| ==>
      BoundsKnown(entry.dataDependency[idx], entry.functions[idx].code[o])
  }

  /** `detect_overflow`: the function's name when some left shift may
    * overflow by the recorded bounds. Every shift is examined. */
  method DetectOverflow(entry: Packages.ModuleEntry, idx: nat) returns (r: Option<string>)
    requires Analysable(entry, idx)
    ensures var f := entry.functions[idx];
            r.Some? <==>
              exists o :: 0 <= o < |f.code| && OverflowingShl(entry.dataDependency[idx], f.code[o], f.localTypes)
    ensures r.Some? ==> r.value == FunctionName(entry, idx)
  {
    var f := entry.functions[idx];
    var dd := entry.dataDependency[idx];
    var found := false;
    for o := 0 to |f.code|
      invariant found <==> exists p :: 0 <= p < o && OverflowingShl(dd, f.code[p], f.localTypes)
    {
      if OverflowingShl(dd, f.code[o], f.localTypes) {
        found := true;
      }
    }
    r := if found then Some(FunctionName(entry, idx)) else None;
  }

  /** A value needing k bits, shifted by s, needs exactly k + s bits. */
  lemma ShiftBits(n: nat, k: nat, s: nat)
    requires 0 < k && Pow2(k - 1) <= n < Pow2(k)
    ensures Pow2(k - 1 + s) <= n * Pow2(s) < Pow2(k + s)
  {
    var p := Pow2(s);
    Pow2Add(k, s);
    Pow2Add(k - 1, s);
    MulMonotone(Pow2(k - 1), p, n, p);
    MulMonotone(n, p, Pow2(k) - 1, p);
    assert (Pow2(k) - 1) * p == Pow2(k) * p - p;
  }

  /** Past the width, the largest value shifted by the largest amount
    * reaches 2^w. */
  lemma WideShiftOverflows(n: nat, s: nat, w: nat)
    requires 0 < n && BitLength(n) + s > w
    ensures n * Pow2(s) >= Pow2(w)
  {
    Widened(n, BitLength(n), s, w);
  }

  lemma Widened(n: nat, k: nat, s: nat, w: nat)
    requires 0 < k && Pow2(k - 1) <= n < Pow2(k) && k + s > w
    ensures n * Pow2(s) >= Pow2(w)
  {
    Pow2Monotone(w, k - 1 + s);
    ShiftBits(n, k, s);
  }

  /** Within the width, every shift stays below 2^w. */
  lemma NarrowShiftFits(n: nat, s: nat, w: nat)
    requires 0 < n && BitLength(n) + s <= w
    ensures n * Pow2(s) < Pow2(w)
  {
    Narrowed(n, BitLength(n), s, w);
  }

  lemma Narrowed(n: nat, k: nat, s: nat, w: nat)
    requires 0 < k && Pow2(k - 1) <= n < Pow2(k) && k + s <= w
    ensures n * Pow2(s) < Pow2(w)
  {
    Pow2Monotone(k + s, w);
    ShiftBits(n, k, s);
  }

  /** What the width test means: for a positive value bound and a shift bound
    * small enough not to wrap, a shift is flagged exactly when shifting the
    * largest value by the largest amount leaves a type of width `w`. */
  lemma FlagMeansOverflow(numMax: u256, shlMax: u256, w: nat)
    requires 0 < numMax && shlMax < U32_MODULUS - 256
    ensures ShiftedWidth(numMax, shlMax) > w <==> numMax * Pow2(shlMax) >= Pow2(w)
  {
    if BitLength(numMax) + shlMax > w {
      WideShiftOverflows(numMax, shlMax, w);
    } else {
      NarrowShiftFits(numMax, shlMax, w);
    }
  }

  /** An unflagged shift stays within its type for every value and amount
    * within the bounds. */
  lemma UnflaggedShiftFits(numMax: u256, shlMax: u256, w: nat, x: nat, s: nat)
    requires shlMax < U32_MODULUS - 256 && ShiftedWidth(numMax, shlMax) <= w
    requires x <= numMax && s <= shlMax
    ensures x * Pow2(s) < Pow2(w)
  {
    if x > 0 {
      FlagMeansOverflow(numMax, shlMax, w);
      Pow2Monotone(s, shlMax);
      MulMonotone(x, Pow2(s), numMax, Pow2(shlMax));
    }
  }
}
