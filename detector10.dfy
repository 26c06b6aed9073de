/** `Detector10`: the same function called twice on one path of the control
  * flow graph with the same module, type arguments and aliased arguments.
  * The search is a depth-first walk with an explicit stack; `path` records
  * the blocks pushed, so a successor already on it (a back edge) is not
  * pushed again. Basic blocks record their Move calls and grow the sets of
  * temporaries known to hold the same value; an exit (Dummy) block compares
  * the calls recorded along the current path and then unwinds the path to
  * the next block on the stack. */
module Detector10 {
  import opened Wrappers
  import opened Stackless
  import opened Packages
  import opened FatLoops
  import BytecodeGen
  import Detection

  /** A call recorded for a block: the callee's module and id, the
    * arguments and the type arguments. */
  datatype CallSite = CallSite(mid: nat, fid: string, args: seq<nat>, targs: seq<Type>)

  /** The field a `borrow_field` takes: struct module, struct id, type
    * arguments and field offset. */
  datatype FieldKey = FieldKey(mid: nat, sid: string, targs: seq<Type>, offset: nat)

  /** No element occurs twice. */
  predicate NoDup<T(==)>(s: seq<T>)
  {
    forall i, j :: 0 <= i < j < |s| ==> s[i] != s[j]
  }

  // ---------------------------------------------------------------------
  // Pushing successors

  /** The successors pushed onto the stack and the path: in order, each one
    * that is neither on the path nor pushed already. */
  function Pushed(succs: seq<nat>, path: seq<nat>): (r: seq<nat>)
    ensures forall j :: 0 <= j < |r| ==> r[j] in succs && r[j] !in path
    ensures forall j :: 0 <= j < |succs| ==> succs[j] in path || succs[j] in r
    ensures NoDup(r)
    decreases |succs|
  {
    if succs == [] then []
    else
      var p := Pushed(succs[..|succs| - 1], path);
      var s := succs[|succs| - 1];
      assert forall j :: 0 <= j < |succs| - 1 ==> succs[..|succs| - 1][j] == succs[j];
      if s in path || s in p then p else p + [s]
  }

  /** Pushing keeps the path free of repetitions. */
  lemma PushedKeepsPathDistinct(succs: seq<nat>, path: seq<nat>)
    requires NoDup(path)
    ensures NoDup(path + Pushed(succs, path))
  {
    var p := Pushed(succs, path);
    var q := path + p;
    forall i, j | 0 <= i < j < |q| ensures q[i] != q[j] {
      if j >= |path| && i < |path| {
        assert q[j] == p[j - |path|] && q[j] !in path;
      } else if i >= |path| {
        assert q[i] == p[i - |path|] && q[j] == p[j - |path|];
      }
    }
  }

  /** The successor loop: each successor not already on the path goes onto
    * the stack and the path. */
  method PushSuccessors(succs: seq<nat>, stack: seq<nat>, path: seq<nat>) returns (stack': seq<nat>, path': seq<nat>)
    ensures stack' == stack + Pushed(succs, path)
    ensures path' == path + Pushed(succs, path)
  {
    stack', path' := stack, path;
    for i := 0 to |succs|
      invariant stack' == stack + Pushed(succs[..i], path)
      invariant path' == path + Pushed(succs[..i], path)
    {
      var s := succs[i];
      assert succs[..i + 1][..i] == succs[..i];
      assert succs[..i + 1][i] == s;
      if s !in path' {
        stack' := stack' + [s];
        path' := path' + [s];
      }
    }
    assert succs[..|succs|] == succs;
  }

  // ---------------------------------------------------------------------
  // Sets of equal temporaries

  /** `x` and `y` are in a common set: they are known to hold the same value. */
  predicate Equivalent(vs: seq<set<nat>>, x: nat, y: nat)
  {
    exists k :: 0 <= k < |vs| && x in vs[k] && y in vs[k]
  }

  /** Every set is kept, and may have grown; new sets may follow. */
  predicate Grows(vs: seq<set<nat>>, vs': seq<set<nat>>)
  {
    |vs| <= |vs'| && forall k :: 0 <= k < |vs| ==> vs[k] <= vs'[k]
  }

  /** Growing sets keep every equivalence. */
  lemma GrowsKeeps(vs: seq<set<nat>>, vs': seq<set<nat>>, x: nat, y: nat)
    requires Grows(vs, vs') && Equivalent(vs, x, y)
    ensures Equivalent(vs', x, y)
  {
    var k :| 0 <= k < |vs| && x in vs[k] && y in vs[k];
    assert x in vs'[k] && y in vs'[k];
  }

  /** `dst` added to every set holding `src`. */
  function Grown(vs: seq<set<nat>>, dst: nat, src: nat): (r: seq<set<nat>>)
    ensures |r| == |vs|
  {
    seq(|vs|, k requires 0 <= k < |vs| => if src in vs[k] then vs[k] + {dst} else vs[k])
  }

  /** Some set holds `x`. */
  predicate Tracked(vs: seq<set<nat>>, x: nat)
  {
    exists k :: 0 <= k < |vs| && x in vs[k]
  }

  /** The join-or-create rule: `dst` joins every set holding `src`; when no
    * set holds `src`, the new set {dst, src} is added. */
  function Joined(vs: seq<set<nat>>, dst: nat, src: nat): seq<set<nat>>
  {
    if Tracked(vs, src) then Grown(vs, dst, src) else vs + [{dst, src}]
  }

  /** After the join, `dst` and `src` are known to be equal, and every
    * earlier set is kept. */
  lemma JoinedLinks(vs: seq<set<nat>>, dst: nat, src: nat)
    ensures Equivalent(Joined(vs, dst, src), dst, src)
    ensures Grows(vs, Joined(vs, dst, src))
  {
    var r := Joined(vs, dst, src);
    if Tracked(vs, src) {
      var k :| 0 <= k < |vs| && src in vs[k];
      assert dst in r[k] && src in r[k];
    } else {
      assert dst in r[|vs|] && src in r[|vs|];
    }
  }

  /** The join relates no other pair: two temporaries other than `dst` are
    * equal afterwards exactly when they were before (or both are `src`,
    * newly tracked). */
  lemma JoinedOnlyLinksDst(vs: seq<set<nat>>, dst: nat, src: nat, x: nat, y: nat)
    requires x != dst && y != dst
    ensures Equivalent(Joined(vs, dst, src), x, y) <==> Equivalent(vs, x, y) || (x == src && y == src)
  {
    var r := Joined(vs, dst, src);
    JoinedLinks(vs, dst, src);
    if Equivalent(r, x, y) {
      var k :| 0 <= k < |r| && x in r[k] && y in r[k];
      if k < |vs| {
        assert x in vs[k] && y in vs[k];
      }
    }
    if Equivalent(vs, x, y) {
      GrowsKeeps(vs, r, x, y);
    }
    if x == src && y == src {
      if Tracked(vs, src) {
        var k :| 0 <= k < |vs| && src in vs[k];
        assert src in r[k];
      } else {
        assert src in r[|vs|];
      }
    }
  }

  /** The loop over the sets: `dst` is inserted into each set holding `src`;
    * `found` tells whether there was one. */
  method InsertWhere(vs: seq<set<nat>>, dst: nat, src: nat) returns (r: seq<set<nat>>, found: bool)
    ensures r == Grown(vs, dst, src)
    ensures found <==> Tracked(vs, src)
  {
    r := vs;
    found := false;
    for k := 0 to |vs|
      invariant |r| == |vs|
      invariant forall j :: 0 <= j < k ==> r[j] == (if src in vs[j] then vs[j] + {dst} else vs[j])
      invariant forall j :: k <= j < |vs| ==> r[j] == vs[j]
      invariant found <==> exists j :: 0 <= j < k && src in vs[j]
    {
      if src in r[k] {
        r := r[k := r[k] + {dst}];
        found := true;
      }
    }
  }

  /** The join-or-create update of an assignment or a reference. */
  method JoinOrCreate(vs: seq<set<nat>>, dst: nat, src: nat) returns (r: seq<set<nat>>)
    ensures r == Joined(vs, dst, src)
  {
    var found;
    r, found := InsertWhere(vs, dst, src);
    if !found {
      r := r + [{dst, src}];
    }
  }

  // ---------------------------------------------------------------------
  // Borrowed fields

  /** The temporaries borrowed from a struct, per struct temporary and
    * field. */
  type FieldMap = map<nat, map<FieldKey, set<nat>>>

  /** Every recorded field has at least one borrow, as the source's
    * `iter().next().unwrap()` needs. */
  predicate FieldsRecorded(fm: FieldMap)
  {
    forall v, key :: v in fm && key in fm[v] ==> fm[v][key] != {}
  }

  /** `dst` is recorded as a borrow of field `key` of struct temporary `v`. */
  predicate FieldAlias(fm: FieldMap, key: FieldKey, dst: nat, v: nat)
  {
    v in fm && key in fm[v] && dst in fm[v][key]
  }

  /** One step of the search among the elements of a set holding the struct:
    * each element with the field recorded records `dst` too, and offers one
    * of its recorded borrows. */
  method FieldRecords(fm: FieldMap, key: FieldKey, dst: nat, elems: set<nat>, same0: nat, flag0: bool, ghost w0: nat, ghost vs: seq<set<nat>>, ghost arg: nat)
    returns (fm': FieldMap, same: nat, flag: bool, ghost w: nat)
    requires FieldsRecorded(fm)
    requires flag0 ==> FieldAlias(fm, key, dst, w0) && (w0 == arg || Equivalent(vs, arg, w0))
    requires forall v :: v in elems ==> Equivalent(vs, arg, v)
    ensures FieldsRecorded(fm')
    ensures flag ==> FieldAlias(fm', key, dst, w) && (w == arg || Equivalent(vs, arg, w))
    ensures flag0 ==> flag
  {
    fm', same, flag, w := fm, same0, flag0, w0;
    var rest := elems;
    while rest != {}
      invariant rest <= elems
      invariant FieldsRecorded(fm')
      invariant flag ==> FieldAlias(fm', key, dst, w) && (w == arg || Equivalent(vs, arg, w))
      invariant flag0 ==> flag
      decreases rest
    {
      var v :| v in rest;
      if v in fm' && key in fm'[v] {
        var internal := fm'[v][key];
        same :| same in internal;
        var old' := fm';
        fm' := fm'[v := fm'[v][key := internal + {dst}]];
        assert flag ==> FieldAlias(fm', key, dst, w) by {
          if flag && w != v {
            assert fm'[w] == old'[w];
          }
        }
        flag := true;
        w := v;
      }
      rest := rest - {v};
    }
  }

  /** `borrow_field`: when the struct temporary is known to equal one that
    * borrowed the same field (`tryJoin`, that is, one operand and one
    * result), `dst` is recorded with that field and joins the sets of an
    * earlier borrow of it; otherwise the struct's field table is replaced by
    * this one field and `dst` starts a set of its own. Either way `dst` ends
    * up recorded as a borrow of the field of the struct or of a temporary
    * known to equal it. */
  method BorrowFieldStep(vs: seq<set<nat>>, fm: FieldMap, arg: nat, dst: nat, key: FieldKey, tryJoin: bool)
    returns (vs': seq<set<nat>>, fm': FieldMap)
    requires FieldsRecorded(fm)
    ensures Grows(vs, vs') && FieldsRecorded(fm')
    ensures exists v :: FieldAlias(fm', key, dst, v) && (v == arg || Equivalent(vs, arg, v))
  {
    var flag := false;
    var same := 0;
    ghost var w := 0;
    fm' := fm;
    if tryJoin {
      for k := 0 to |vs|
        invariant FieldsRecorded(fm')
        invariant flag ==> FieldAlias(fm', key, dst, w) && (w == arg || Equivalent(vs, arg, w))
      {
        if arg in vs[k] {
          assert forall v :: v in vs[k] ==> Equivalent(vs, arg, v);
          fm', same, flag, w := FieldRecords(fm', key, dst, vs[k], same, flag, w, vs, arg);
        }
      }
      if flag {
        var found;
        vs', found := InsertWhere(vs, dst, same);
        assert Grows(vs, vs');
        return;
      }
    }
    fm' := fm'[arg := map[key := {dst}]];
    vs' := vs + [{dst}];
    assert FieldAlias(fm', key, dst, arg);
  }

  // ---------------------------------------------------------------------
  // Basic blocks

  /** The Move call an instruction records, if it is one. */
  function CallAt(b: Bytecode): seq<CallSite>
  {
    if b.Call? && b.op.Function? then [CallSite(b.op.mid, b.op.fid, b.srcs, b.op.targs)] else []
  }

  /** The Move calls of `code[lo..hi]`, in order. */
  function BlockCalls(code: seq<Bytecode>, lo: nat, hi: nat): seq<CallSite>
    requires lo <= hi <= |code|
    decreases hi - lo
  {
    if hi == lo then [] else BlockCalls(code, lo, hi - 1) + CallAt(code[hi - 1])
  }

  /** The instruction is the Move call `c`. */
  predicate IsCallSite(b: Bytecode, c: CallSite)
  {
    b.Call? && b.op == Function(c.mid, c.fid, c.targs) && b.srcs == c.args
  }

  /** Every recorded call is a Move call of the range, and the calls appear
    * in code order. */
  lemma {:induction false} BlockCallsSpec(code: seq<Bytecode>, lo: nat, hi: nat, i: nat)
    requires lo <= hi <= |code| && i < |BlockCalls(code, lo, hi)|
    ensures exists o :: lo <= o < hi && IsCallSite(code[o], BlockCalls(code, lo, hi)[i])
    decreases hi - lo
  {
    var p := BlockCalls(code, lo, hi - 1);
    if i < |p| {
      BlockCallsSpec(code, lo, hi - 1, i);
      var o :| lo <= o < hi - 1 && IsCallSite(code[o], p[i]);
      assert BlockCalls(code, lo, hi)[i] == p[i];
    } else {
      assert IsCallSite(code[hi - 1], BlockCalls(code, lo, hi)[i]);
    }
  }

  /** What an instruction records about equal temporaries: an assignment,
    * and a borrow, freeze or read of one reference into one result, make
    * their result equal to their operand. */
  predicate Links(b: Bytecode, vs: seq<set<nat>>)
  {
    match b
    case Assign(_, dst, src, _) => Equivalent(vs, dst, src)
    case Call(_, dsts, op, srcs, _) =>
      (op == BorrowLoc || op.BorrowGlobal? || op == FreezeRef || op == ReadRef) && |srcs| == 1 && |dsts| == 1 ==>
        Equivalent(vs, dsts[0], srcs[0])
    case _ => true
  }

  /** Every instruction of `code[lo..hi]` has its equalities recorded. */
  predicate Linked(code: seq<Bytecode>, lo: nat, hi: nat, vs: seq<set<nat>>)
    requires lo <= hi <= |code|
  {
    forall o :: lo <= o < hi ==> Links(code[o], vs)
  }

  /** Growing sets keep the recorded equalities. */
  lemma LinkedGrows(code: seq<Bytecode>, lo: nat, hi: nat, vs: seq<set<nat>>, vs': seq<set<nat>>)
    requires lo <= hi <= |code| && Linked(code, lo, hi, vs) && Grows(vs, vs')
    ensures Linked(code, lo, hi, vs')
  {
    forall o | lo <= o < hi ensures Links(code[o], vs') {
      match code[o]
      case Assign(_, dst, src, _) => GrowsKeeps(vs, vs', dst, src);
      case Call(_, dsts, op, srcs, _) =>
        if (op == BorrowLoc || op.BorrowGlobal? || op == FreezeRef || op == ReadRef) && |srcs| == 1 && |dsts| == 1 {
          GrowsKeeps(vs, vs', dsts[0], srcs[0]);
        }
      case _ =>
    }
  }

  /** The first set growing into the second, growing into the third. */
  lemma GrowsTrans(a: seq<set<nat>>, b: seq<set<nat>>, c: seq<set<nat>>)
    requires Grows(a, b) && Grows(b, c)
    ensures Grows(a, c)
  {
  }

  /** One instruction of a Basic block. */
  method ScanInstr(f: BytecodeGen.FunctionInfo, o: nat, vs: seq<set<nat>>, fm: FieldMap)
    returns (vs': seq<set<nat>>, fm': FieldMap)
    requires Detection.WellFormed(f) && o < |f.code|
    requires FieldsRecorded(fm)
    ensures Grows(vs, vs') && FieldsRecorded(fm')
    ensures Links(f.code[o], vs')
  {
    vs', fm' := vs, fm;
    assert Detection.CallShaped(f.code[o]);
    match f.code[o]
    case Call(_, dsts, op, srcs, _) =>
      if op == BorrowLoc || op.BorrowGlobal? || op == FreezeRef || op == ReadRef {
        if |srcs| == 1 && |dsts| == 1 {
          vs' := JoinOrCreate(vs, dsts[0], srcs[0]);
          JoinedLinks(vs, dsts[0], srcs[0]);
        }
      } else if op.BorrowField? {
        vs', fm' := BorrowFieldStep(vs, fm, srcs[0], dsts[0], FieldKey(op.bmid, op.bsid, op.btargs, op.offset), |srcs| == 1 && |dsts| == 1);
      }
    case Assign(_, dst, src, _) =>
      vs' := JoinOrCreate(vs, dst, src);
      JoinedLinks(vs, dst, src);
    case _ =>
  }

  /** A Basic block: its Move calls are collected in order, and the sets of
    * equal temporaries grow with its assignments and references. */
  method ScanBlock(f: BytecodeGen.FunctionInfo, lower: nat, upper: nat, vs: seq<set<nat>>, fm: FieldMap)
    returns (funcs: seq<CallSite>, vs': seq<set<nat>>, fm': FieldMap)
    requires Detection.WellFormed(f) && lower <= upper + 1 && upper < |f.code|
    requires FieldsRecorded(fm)
    ensures funcs == BlockCalls(f.code, lower, upper + 1)
    ensures Grows(vs, vs') && FieldsRecorded(fm')
    ensures Linked(f.code, lower, upper + 1, vs')
  {
    funcs, vs', fm' := [], vs, fm;
    for o := lower to upper + 1
      invariant funcs == BlockCalls(f.code, lower, o)
      invariant Grows(vs, vs') && FieldsRecorded(fm')
      invariant Linked(f.code, lower, o, vs')
    {
      var before := vs';
      funcs := funcs + CallAt(f.code[o]);
      vs', fm' := ScanInstr(f, o, vs', fm');
      LinkedGrows(f.code, lower, o, before, vs');
      GrowsTrans(vs, before, vs');
    }
  }

  // ---------------------------------------------------------------------
  // Comparing two calls

  /** Some positionally paired arguments are told apart: a set holds one
    * and not the other. */
  predicate ArgsDiffer(vs: seq<set<nat>>, a: seq<nat>, b: seq<nat>)
  {
    exists i, k :: 0 <= i < |a| && i < |b| && 0 <= k < |vs| && (a[i] in vs[k]) != (b[i] in vs[k])
  }

  /** `find_diff`: the calls differ in module, in type arguments or in some
    * paired argument. */
  predicate Differ(vs: seq<set<nat>>, c1: CallSite, c2: CallSite)
  {
    c1.mid != c2.mid || c1.targs != c2.targs || ArgsDiffer(vs, c1.args, c2.args)
  }

  /** Calls that do not differ pass, position by position, arguments known
    * to be equal, whenever the first one is tracked at all. */
  lemma SameCallEqualArgs(vs: seq<set<nat>>, c1: CallSite, c2: CallSite, i: nat)
    requires !Differ(vs, c1, c2) && i < |c1.args| && i < |c2.args| && Tracked(vs, c1.args[i])
    ensures Equivalent(vs, c1.args[i], c2.args[i])
  {
    var k :| 0 <= k < |vs| && c1.args[i] in vs[k];
    if c2.args[i] !in vs[k] {
      assert ArgsDiffer(vs, c1.args, c2.args);
    }
  }

  /** As written, arguments that no set tracks are never told apart: two
    * calls `f(x)` and `f(y)` of untracked temporaries count as the same. */
  lemma UntrackedArgsAgree(x: nat, y: nat, fid: string)
    requires x != y
    ensures !Differ([], CallSite(0, fid, [x], []), CallSite(0, fid, [y], []))
  {
  }

  /** The comparison loop: the paired arguments are scanned until a set
    * tells one pair apart. */
  method FindDiff(vs: seq<set<nat>>, c1: CallSite, c2: CallSite) returns (diff: bool)
    ensures diff == Differ(vs, c1, c2)
  {
    diff := c1.mid != c2.mid || c1.targs != c2.targs;
    var i := 0;
    while i < |c1.args| && i < |c2.args| && !diff
      invariant i <= |c1.args| && i <= |c2.args|
      invariant diff ==> Differ(vs, c1, c2)
      invariant !diff ==> c1.mid == c2.mid && c1.targs == c2.targs
      invariant !diff ==> forall i', k :: 0 <= i' < i && 0 <= k < |vs| ==> (c1.args[i'] in vs[k]) == (c2.args[i'] in vs[k])
    {
      var k := 0;
      while k < |vs| && !diff
        invariant k <= |vs|
        invariant diff ==> Differ(vs, c1, c2)
        invariant !diff ==> forall k' :: 0 <= k' < k ==> (c1.args[i] in vs[k']) == (c2.args[i] in vs[k'])
      {
        if (c1.args[i] in vs[k]) != (c2.args[i] in vs[k]) {
          assert ArgsDiffer(vs, c1.args, c2.args);
          diff := true;
        }
        k := k + 1;
      }
      i := i + 1;
    }
  }

  // ---------------------------------------------------------------------
  // Exit blocks: comparing the calls of the current path

  /** Two distinct recorded calls of `g` that do not differ. */
  predicate MapPair(fm: map<nat, seq<CallSite>>, vs: seq<set<nat>>, g: string, b1: nat, i1: nat, b2: nat, i2: nat)
  {
    (b1 != b2 || i1 != i2) && b1 in fm && i1 < |fm[b1]| && b2 in fm && i2 < |fm[b2]| &&
    fm[b1][i1].fid == g && fm[b2][i2].fid == g && !Differ(vs, fm[b1][i1], fm[b2][i2])
  }

  /** `g` is called twice, the same way, among the recorded calls. */
  ghost predicate RepeatedIn(fm: map<nat, seq<CallSite>>, vs: seq<set<nat>>, g: string)
  {
    exists b1, i1, b2, i2 :: MapPair(fm, vs, g, b1, i1, b2, i2)
  }

  /** The first occurrence of each callee seen so far is a recorded call
    * at a position already visited: in a block no longer pending, or
    * earlier in block `b`. */
  ghost predicate SeenOk(fm: map<nat, seq<CallSite>>, seen: map<string, CallSite>, seenAt: map<string, (nat, nat)>,
                         rest: set<nat>, b: nat, i: nat)
  {
    forall g :: g in seen ==>
      g in seenAt && seenAt[g].0 in fm && seenAt[g].1 < |fm[seenAt[g].0]| &&
      fm[seenAt[g].0][seenAt[g].1] == seen[g] && seen[g].fid == g &&
      (seenAt[g].0 !in rest || (seenAt[g].0 == b && seenAt[g].1 < i))
  }

  /** The calls of one recorded block, compared against the first
    * occurrences seen. */
  method CheckBlock(fm: map<nat, seq<CallSite>>, vs: seq<set<nat>>, b: nat, ghost rest: set<nat>, ghost repeated: seq<string>,
                    r0: seq<string>, seen0: map<string, CallSite>, ghost seenAt0: map<string, (nat, nat)>)
    returns (r: seq<string>, seen: map<string, CallSite>, ghost seenAt: map<string, (nat, nat)>)
    requires b in rest && rest <= fm.Keys
    requires NoDup(r0) && |repeated| <= |r0| && r0[..|repeated|] == repeated
    requires forall g :: g in r0 && g !in repeated ==> RepeatedIn(fm, vs, g)
    requires SeenOk(fm, seen0, seenAt0, rest, b, 0)
    ensures NoDup(r) && |repeated| <= |r| && r[..|repeated|] == repeated
    ensures forall g :: g in r && g !in repeated ==> RepeatedIn(fm, vs, g)
    ensures SeenOk(fm, seen, seenAt, rest - {b}, b, 0)
  {
    r, seen, seenAt := r0, seen0, seenAt0;
    var calls := fm[b];
    for i := 0 to |calls|
      invariant NoDup(r) && |repeated| <= |r| && r[..|repeated|] == repeated
      invariant forall g :: g in r && g !in repeated ==> RepeatedIn(fm, vs, g)
      invariant SeenOk(fm, seen, seenAt, rest, b, i)
    {
      var c := calls[i];
      if c.fid in r {
      } else if c.fid !in seen {
        seen := seen[c.fid := c];
        seenAt := seenAt[c.fid := (b, i)];
      } else {
        var diff := FindDiff(vs, seen[c.fid], c);
        if !diff {
          var pos := seenAt[c.fid];
          assert MapPair(fm, vs, c.fid, pos.0, pos.1, b, i);
          assert (r + [c.fid])[..|repeated|] == r[..|repeated|];
          r := r + [c.fid];
        }
      }
    }
  }

  /** An exit block: every recorded call is compared with the first
    * occurrence of its callee; a callee not yet reported whose later call
    * does not differ is reported. The report only grows, never repeats a
    * callee, and each callee it adds is called twice the same way along the
    * path. */
  method CheckRepeats(fm: map<nat, seq<CallSite>>, vs: seq<set<nat>>, repeated: seq<string>) returns (r: seq<string>)
    requires NoDup(repeated)
    ensures NoDup(r) && |repeated| <= |r| && r[..|repeated|] == repeated
    ensures forall g :: g in r && g !in repeated ==> RepeatedIn(fm, vs, g)
  {
    r := repeated;
    var seen: map<string, CallSite> := map[];
    ghost var seenAt: map<string, (nat, nat)> := map[];
    var rest := fm.Keys;
    while rest != {}
      invariant rest <= fm.Keys
      invariant NoDup(r) && |repeated| <= |r| && r[..|repeated|] == repeated
      invariant forall g :: g in r && g !in repeated ==> RepeatedIn(fm, vs, g)
      invariant SeenOk(fm, seen, seenAt, rest, 0, 0)
      decreases rest
    {
      var b :| b in rest;
      r, seen, seenAt := CheckBlock(fm, vs, b, rest, repeated, r, seen, seenAt);
      rest := rest - {b};
    }
  }

  // ---------------------------------------------------------------------
  // Unwinding the path

  /** After an exit block, the path is popped, and the popped blocks' calls
    * forgotten, until its top is the block on top of the stack. */
  method Unwind(stack: seq<nat>, path: seq<nat>, fm: map<nat, seq<CallSite>>) returns (path': seq<nat>, fm': map<nat, seq<CallSite>>)
    ensures stack == [] ==> path' == path && fm' == fm
    ensures stack != [] ==> |path'| <= |path| && path' == path[..|path'|]
    ensures stack != [] && path' != [] ==> path'[|path'| - 1] == stack[|stack| - 1]
    ensures stack != [] ==> forall j :: |path'| <= j < |path| ==> path[j] != stack[|stack| - 1]
    ensures stack != [] ==> fm' == fm - (set j | |path'| <= j < |path| :: path[j])
  {
    path', fm' := path, fm;
    if stack != [] {
      var top := stack[|stack| - 1];
      while path' != [] && path'[|path'| - 1] != top
        invariant |path'| <= |path| && path' == path[..|path'|]
        invariant forall j :: |path'| <= j < |path| ==> path[j] != top
        invariant fm' == fm - (set j | |path'| <= j < |path| :: path[j])
        decreases |path'|
      {
        var n := |path'| - 1;
        var popped := path'[n];
        assert popped == path[n];
        assert (set j | n <= j < |path| :: path[j]) == (set j | |path'| <= j < |path| :: path[j]) + {popped};
        fm' := fm' - {popped};
        path' := path'[..n];
        assert path' == path[..n];
      }
    }
  }

  // ---------------------------------------------------------------------
  // The search

  /** The control-flow graph shape the search reads: the entry and every
    * successor are blocks with content and successors, and every Basic
    * block lies within the code. */
  predicate Searchable(f: BytecodeGen.FunctionInfo, cfg: Cfg)
  {
    Detection.WellFormed(f) &&
    cfg.entry in cfg.content && cfg.entry in cfg.successors &&
    (forall b :: b in cfg.successors ==> forall j :: 0 <= j < |cfg.successors[b]| ==>
       cfg.successors[b][j] in cfg.content && cfg.successors[b][j] in cfg.successors) &&
    (forall b :: b in cfg.content && cfg.content[b].Basic? ==>
       cfg.content[b].lower <= cfg.content[b].upper + 1 && cfg.content[b].upper < |f.code|)
  }

  /** The `i`-th Move call of Basic block `b`. */
  predicate Site(code: seq<Bytecode>, cfg: Cfg, b: nat, i: nat)
  {
    b in cfg.content && cfg.content[b].Basic? &&
    cfg.content[b].lower <= cfg.content[b].upper + 1 && cfg.content[b].upper < |code| &&
    i < |BlockCalls(code, cfg.content[b].lower, cfg.content[b].upper + 1)|
  }

  /** The call at a site. */
  function SiteCall(code: seq<Bytecode>, cfg: Cfg, b: nat, i: nat): CallSite
    requires Site(code, cfg, b, i)
  {
    BlockCalls(code, cfg.content[b].lower, cfg.content[b].upper + 1)[i]
  }

  /** Two distinct sites calling `g` in the same module with the same type
    * arguments. */
  predicate SitePair(code: seq<Bytecode>, cfg: Cfg, g: string, b1: nat, i1: nat, b2: nat, i2: nat)
  {
    (b1 != b2 || i1 != i2) && Site(code, cfg, b1, i1) && Site(code, cfg, b2, i2) &&
    SiteCall(code, cfg, b1, i1).fid == g && SiteCall(code, cfg, b2, i2).fid == g &&
    SiteCall(code, cfg, b1, i1).mid == SiteCall(code, cfg, b2, i2).mid &&
    SiteCall(code, cfg, b1, i1).targs == SiteCall(code, cfg, b2, i2).targs
  }

  /** `g` is called at two sites of the function's blocks the same way,
    * as far as module and type arguments go. */
  ghost predicate TwoCalls(code: seq<Bytecode>, cfg: Cfg, g: string)
  {
    exists b1, i1, b2, i2 :: SitePair(code, cfg, g, b1, i1, b2, i2)
  }

  /** The recorded calls of each block are that Basic block's Move calls. */
  predicate Recorded(fm: map<nat, seq<CallSite>>, code: seq<Bytecode>, cfg: Cfg)
  {
    forall b :: b in fm ==>
      b in cfg.content && cfg.content[b].Basic? &&
      cfg.content[b].lower <= cfg.content[b].upper + 1 && cfg.content[b].upper < |code| &&
      fm[b] == BlockCalls(code, cfg.content[b].lower, cfg.content[b].upper + 1)
  }

  /** A callee repeated among the recorded calls is called at two sites. */
  lemma RepeatedTwoCalls(fm: map<nat, seq<CallSite>>, vs: seq<set<nat>>, code: seq<Bytecode>, cfg: Cfg, g: string)
    requires Recorded(fm, code, cfg) && RepeatedIn(fm, vs, g)
    ensures TwoCalls(code, cfg, g)
  {
    var b1, i1, b2, i2 :| MapPair(fm, vs, g, b1, i1, b2, i2);
    assert SitePair(code, cfg, g, b1, i1, b2, i2);
  }

  /** A site is a Move call of the function's code. */
  lemma SiteIsCall(code: seq<Bytecode>, cfg: Cfg, b: nat, i: nat)
    requires Site(code, cfg, b, i)
    ensures exists o :: 0 <= o < |code| && IsCallSite(code[o], SiteCall(code, cfg, b, i))
  {
    BlockCallsSpec(code, cfg.content[b].lower, cfg.content[b].upper + 1, i);
  }

  /** Forgetting blocks keeps the recorded calls of the rest. */
  lemma RecordedMinus(fm: map<nat, seq<CallSite>>, code: seq<Bytecode>, cfg: Cfg, s: set<nat>)
    requires Recorded(fm, code, cfg)
    ensures Recorded(fm - s, code, cfg)
  {
  }

  /** One visited block: its successors are pushed, then a Basic block
    * records its calls and an exit block compares the calls of the path and
    * unwinds it. */
  method Visit(f: BytecodeGen.FunctionInfo, cfg: Cfg, b: nat,
               stack: seq<nat>, path: seq<nat>, fm: map<nat, seq<CallSite>>, vs: seq<set<nat>>, fields: FieldMap, repeated: seq<string>)
    returns (stack': seq<nat>, path': seq<nat>, fm': map<nat, seq<CallSite>>, vs': seq<set<nat>>, fields': FieldMap, repeated': seq<string>)
    requires Searchable(f, cfg) && b in cfg.content && b in cfg.successors
    requires forall j :: 0 <= j < |stack| ==> stack[j] in cfg.content && stack[j] in cfg.successors
    requires NoDup(path) && NoDup(repeated) && Recorded(fm, f.code, cfg) && FieldsRecorded(fields)
    requires forall g :: g in repeated ==> TwoCalls(f.code, cfg, g)
    ensures forall j :: 0 <= j < |stack'| ==> stack'[j] in cfg.content && stack'[j] in cfg.successors
    ensures NoDup(path') && NoDup(repeated') && Recorded(fm', f.code, cfg) && FieldsRecorded(fields')
    ensures forall g :: g in repeated' ==> TwoCalls(f.code, cfg, g)
    ensures |repeated| <= |repeated'| && repeated'[..|repeated|] == repeated
  {
    var succs := cfg.successors[b];
    stack', path' := PushSuccessors(succs, stack, path);
    PushedKeepsPathDistinct(succs, path);
    assert forall j :: 0 <= j < |Pushed(succs, path)| ==> Pushed(succs, path)[j] in succs;
    assert forall j :: |stack| <= j < |stack'| ==> stack'[j] == Pushed(succs, path)[j - |stack|];
    fm', vs', fields', repeated' := fm, vs, fields, repeated;
    match cfg.content[b]
    case Basic(lower, upper) =>
      var funcs;
      funcs, vs', fields' := ScanBlock(f, lower, upper, vs, fields);
      fm' := fm[b := funcs];
    case Dummy =>
      repeated' := CheckRepeats(fm, vs, repeated);
      forall g | g in repeated' ensures TwoCalls(f.code, cfg, g) {
        if g !in repeated {
          RepeatedTwoCalls(fm, vs, f.code, cfg, g);
        }
      }
      var p := path';
      path', fm' := Unwind(stack', p, fm);
      RecordedMinus(fm, f.code, cfg, set j | |path'| <= j < |p| :: p[j]);
      assert forall i, j :: 0 <= i < j < |path'| ==> path'[i] == p[i] && path'[j] == p[j];
  }

  /** `detect_repeated_function_call`, at most `fuel` blocks deep into the
    * search: None when no callee is repeated; otherwise the repeated
    * callees, each reported once and each called at two sites of the
    * function with the same module and type arguments. */
  method DetectRepeatedFunctionCall(f: BytecodeGen.FunctionInfo, cfg: Cfg, fuel: nat) returns (r: Option<seq<string>>)
    requires Searchable(f, cfg)
    ensures r.Some? ==> r.value != [] && NoDup(r.value)
    ensures r.Some? ==> forall g :: g in r.value ==> TwoCalls(f.code, cfg, g)
  {
    var stack := [cfg.entry];
    var path := [cfg.entry];
    var fm: map<nat, seq<CallSite>> := map[];
    var vs: seq<set<nat>> := [];
    var fields: FieldMap := map[];
    var repeated: seq<string> := [];
    var steps := 0;
    while stack != [] && steps < fuel
      invariant forall j :: 0 <= j < |stack| ==> stack[j] in cfg.content && stack[j] in cfg.successors
      invariant NoDup(path) && NoDup(repeated) && Recorded(fm, f.code, cfg) && FieldsRecorded(fields)
      invariant forall g :: g in repeated ==> TwoCalls(f.code, cfg, g)
      decreases fuel - steps
    {
      var b := stack[|stack| - 1];
      stack := stack[..|stack| - 1];
      stack, path, fm, vs, fields, repeated := Visit(f, cfg, b, stack, path, fm, vs, fields, repeated);
      steps := steps + 1;
    }
    r := if repeated == [] then None else Some(repeated);
  }
}
