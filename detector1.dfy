/** `detect_unchecked_return` of the scanner: calls whose results are
  * destroyed right away. */
module Detector1 {
  import opened Stackless
  import BytecodeGen

  function Min(a: nat, b: nat): nat
  {
    if a <= b then a else b
  }

  /** The offsets after a call at `o` that `detect_unchecked_return` looks
    * at: one per result of the call, clipped to the end of the code. */
  function WindowEnd(code: seq<Bytecode>, o: nat): (e: nat)
    requires o < |code| && code[o].Call?
    ensures o + 1 <= e <= |code|
  {
    Min(|code|, o + |code[o].dsts| + 1)
  }

  /** The number of destroys among `code[lo..hi]`. */
  function DestroyCount(code: seq<Bytecode>, lo: nat, hi: nat): nat
    requires lo <= hi <= |code|
    decreases hi - lo
  {
    if lo == hi then 0 else (if IsDestroy(code[hi - 1]) then 1 else 0) + DestroyCount(code, lo, hi - 1)
  }

  /** The callee names a call at `o` contributes: its callee once per
    * destroy in its window, nothing for a call with no results. */
  function DroppedAt(code: seq<Bytecode>, o: nat): seq<string>
    requires o < |code|
  {
    var b := code[o];
    if b.Call? && b.op.Function? && |b.dsts| > 0 then
      seq(DestroyCount(code, o + 1, WindowEnd(code, o)), _ => b.op.fid)
    else []
  }

  /** The names contributed by the calls in `code[..n]`, in order. */
  function DroppedUpTo(code: seq<Bytecode>, n: nat): seq<string>
    requires n <= |code|
  {
    if n == 0 then [] else DroppedUpTo(code, n - 1) + DroppedAt(code, n - 1)
  }

  /** `detect_unchecked_return`: for each call of a Move function with
    * results, the callee's name once for every destroy among the next
    * instructions, as many as the call has results. */
  method DetectUncheckedReturn(f: BytecodeGen.FunctionInfo) returns (ret: seq<string>)
    ensures ret == DroppedUpTo(f.code, |f.code|)
  {
    var code := f.code;
    ret := [];
    for o := 0 to |code|
      invariant ret == DroppedUpTo(code, o)
    {
      var b := code[o];
      if b.Call? && b.op.Function? {
        if |b.dsts| == 0 {
          continue;
        }
        var names := WindowDrops(code, o);
        ret := ret + names;
      }
    }
  }

  /** The names the call at `o` contributes, one per destroy in its window. */
  method WindowDrops(code: seq<Bytecode>, o: nat) returns (names: seq<string>)
    requires o < |code| && code[o].Call? && code[o].op.Function? && |code[o].dsts| > 0
    ensures names == DroppedAt(code, o)
  {
    var fid := code[o].op.fid;
    var e := WindowEnd(code, o);
    names := [];
    for j := o + 1 to e
      invariant names == seq(DestroyCount(code, o + 1, j), _ => fid)
    {
      if IsDestroy(code[j]) {
        names := names + [fid];
        assert names == seq(DestroyCount(code, o + 1, j + 1), _ => fid);
      }
    }
  }

  /** A destroy in the window of a call is what makes a name appear. */
  predicate DroppedResult(code: seq<Bytecode>, o: nat, j: nat)
  {
    o < |code| && code[o].Call? && code[o].op.Function? && |code[o].dsts| > 0 &&
    o < j < WindowEnd(code, o) && IsDestroy(code[j])
  }

  lemma {:induction false} DestroyCountPositive(code: seq<Bytecode>, lo: nat, hi: nat)
    requires lo <= hi <= |code|
    ensures DestroyCount(code, lo, hi) > 0 <==> exists j :: lo <= j < hi && IsDestroy(code[j])
    decreases hi - lo
  {
    if lo < hi {
      DestroyCountPositive(code, lo, hi - 1);
    }
  }

  /** A name is reported exactly when some call of it has one of its results
    * destroyed within its window. */
  lemma {:induction false} DroppedSpec(code: seq<Bytecode>, n: nat, name: string)
    requires n <= |code|
    ensures name in DroppedUpTo(code, n) <==>
      exists o: nat, j: nat :: o < n && DroppedResult(code, o, j) && code[o].op.fid == name
  {
    if n > 0 {
      DroppedSpec(code, n - 1, name);
      var o := n - 1;
      var b := code[o];
      assert DroppedUpTo(code, n) == DroppedUpTo(code, o) + DroppedAt(code, o);
      if b.Call? && b.op.Function? && |b.dsts| > 0 {
        var c := DestroyCount(code, o + 1, WindowEnd(code, o));
        DestroyCountPositive(code, o + 1, WindowEnd(code, o));
        assert name in DroppedAt(code, o) <==> c > 0 && name == b.op.fid by {
          if c > 0 {
            assert DroppedAt(code, o)[0] == b.op.fid;
          }
        }
        if c > 0 && name == b.op.fid {
          var j :| o + 1 <= j < WindowEnd(code, o) && IsDestroy(code[j]);
          assert DroppedResult(code, o, j);
        }
      }
    }
  }

  /** A call without results contributes nothing. */
  lemma NoResultsNoReport(code: seq<Bytecode>, o: nat)
    requires o < |code| && code[o].Call? && |code[o].dsts| == 0
    ensures DroppedAt(code, o) == []
  {
  }

  /** The result count is the number of destroys in the windows: at most one
    * name per result of each call. */
  lemma {:induction false} DroppedBound(code: seq<Bytecode>, o: nat)
    requires o < |code|
    ensures |DroppedAt(code, o)| <= (if code[o].Call? then |code[o].dsts| else 0)
  {
    var b := code[o];
    if b.Call? && b.op.Function? && |b.dsts| > 0 {
      DestroyCountAtMost(code, o + 1, WindowEnd(code, o));
    }
  }

  lemma {:induction false} DestroyCountAtMost(code: seq<Bytecode>, lo: nat, hi: nat)
    requires lo <= hi <= |code|
    ensures DestroyCount(code, lo, hi) <= hi - lo
    decreases hi - lo
  {
    if lo < hi {
      DestroyCountAtMost(code, lo, hi - 1);
    }
  }
}
