/** Loop annotations (`src/move_ir/fatloop.rs`): which temporaries each
  * instruction modifies, and, for every loop header, the "fat loop" that
  * joins all natural loops sharing that header with the temporaries their
  * bodies modify and their back edges. The control-flow graph (block
  * contents) and the natural loops are inputs. */
module FatLoops {
  import opened Stackless

  // ---------------------------------------------------------------------
  // What one instruction modifies
  // ---------------------------------------------------------------------

  /** Temporary `t` has a mutable reference type. The callers below only ask
    * about temporaries with a type, so the bound only keeps the predicate
    * total. */
  predicate MutRef(types: seq<Type>, t: nat)
  {
    t < |types| && IsMutableReference(types[t])
  }

  predicate AllBelow(ts: seq<nat>, n: nat)
  {
    forall i :: 0 <= i < |ts| ==> ts[i] < n
  }

  /** The temporaries among `ts` that are not mutable references. */
  function ValueTemps(ts: seq<nat>, types: seq<Type>): (r: seq<nat>)
    requires AllBelow(ts, |types|)
    ensures forall x :: x in r <==> x in ts && !MutRef(types, x)
  {
    if ts == [] then []
    else (if MutRef(types, ts[0]) then [] else [ts[0]]) + ValueTemps(ts[1..], types)
  }

  /** The mutable references among `ts`, each tagged with `full`. */
  function MutTemps(ts: seq<nat>, types: seq<Type>, full: bool): (r: seq<(nat, bool)>)
    requires AllBelow(ts, |types|)
    ensures forall x, h :: (x, h) in r <==> x in ts && MutRef(types, x) && h == full
  {
    if ts == [] then []
    else (if MutRef(types, ts[0]) then [(ts[0], full)] else []) + MutTemps(ts[1..], types, full)
  }

  /** `add_abort`: an abort action also writes the abort code's temporary. */
  function AddAbort(res: seq<nat>, aa: AbortActionOpt): seq<nat>
  {
    if aa.OnAbort? then res + [aa.action.abortCode] else res
  }

  predicate AbortsInto(aa: AbortActionOpt, x: nat)
  {
    aa.OnAbort? && aa.action.abortCode == x
  }

  /** The instruction can be classified without a panic: every temporary
    * whose type `modifies` looks up has one, and `write_ref` has a first
    * source. */
  predicate ModifiesDefined(bc: Bytecode, types: seq<Type>)
  {
    match bc
    case Assign(_, dest, _, _) => dest < |types|
    case Call(_, dests, op, srcs, _) =>
      if op.WriteBack? && (op.node.LocalRoot? || op.node.ReferenceNode?) then true
      else if op.WriteRef? then |srcs| > 0
      else if op.Function? then AllBelow(srcs, |types|) && AllBelow(dests, |types|)
      else AllBelow(dests, |types|)
    case _ => true
  }

  /** `modifies`: the value targets (values and immutable references the
    * instruction writes) and the mutable-reference targets, tagged true when
    * the reference itself is replaced and false when only the value behind
    * it changes. */
  function Modifies(bc: Bytecode, types: seq<Type>): (seq<nat>, seq<(nat, bool)>)
    requires ModifiesDefined(bc, types)
  {
    match bc
    case Assign(_, dest, _, _) =>
      if MutRef(types, dest) then ([], [(dest, true)]) else ([dest], [])
    case Load(_, dest, _) => ([dest], [])
    case Call(_, dests, op, srcs, aa) =>
      if op.WriteBack? && op.node.LocalRoot? then (AddAbort([op.node.localIdx], aa), [])
      else if op.WriteBack? && op.node.ReferenceNode? then (AddAbort([], aa), [(op.node.refIdx, false)])
      else if op.WriteRef? then (AddAbort([], aa), [(srcs[0], false)])
      else if op.Function? then
        (AddAbort(ValueTemps(dests, types), aa), MutTemps(srcs, types, false) + MutTemps(dests, types, true))
      else (AddAbort(ValueTemps(dests, types), aa), MutTemps(dests, types, true))
    case _ => ([], [])
  }

  /** The classification, case by case: an assignment replaces a mutable
    * reference or writes a value; a load writes a value; `write_ref` only
    * changes what its reference points to; a call of a Move function may
    * change what its mutable-reference arguments point to, replaces its
    * mutable-reference results and writes its other results; an abort
    * action always writes its code's temporary; nothing else modifies
    * anything. */
  lemma ModifiesSpec(bc: Bytecode, types: seq<Type>, x: nat, h: bool)
    requires ModifiesDefined(bc, types)
    ensures bc.Assign? ==>
      (x in Modifies(bc, types).0 <==> x == bc.dst && !MutRef(types, x))
      && ((x, h) in Modifies(bc, types).1 <==> x == bc.dst && MutRef(types, x) && h)
    ensures bc.Load? ==> Modifies(bc, types).0 == [bc.ldst] && Modifies(bc, types).1 == []
    ensures bc.Call? && bc.op.WriteRef? ==>
      (x in Modifies(bc, types).0 <==> AbortsInto(bc.onAbort, x))
      && ((x, h) in Modifies(bc, types).1 <==> x == bc.srcs[0] && !h)
    ensures bc.Call? && bc.op.Function? ==>
      (x in Modifies(bc, types).0 <==> (x in bc.dsts && !MutRef(types, x)) || AbortsInto(bc.onAbort, x))
      && ((x, h) in Modifies(bc, types).1 <==>
            (x in bc.dsts && MutRef(types, x) && h) || (x in bc.srcs && MutRef(types, x) && !h))
    ensures bc.Call? && AbortsInto(bc.onAbort, x) ==> x in Modifies(bc, types).0
    ensures !bc.Assign? && !bc.Load? && !bc.Call? ==> Modifies(bc, types) == ([], [])
  {
    if bc.Call? {
      var op, dests, srcs, aa := bc.op, bc.dsts, bc.srcs, bc.onAbort;
      var r := Modifies(bc, types);
      if aa.OnAbort? {
        assert aa.action.abortCode in r.0;
      }
      if op.Function? {
        assert (x, h) in r.1 <==> (x, h) in MutTemps(srcs, types, false) || (x, h) in MutTemps(dests, types, true);
      }
    }
  }

  // ---------------------------------------------------------------------
  // Control-flow graph inputs
  // ---------------------------------------------------------------------

  /** The content of a block of the stackless control-flow graph: a basic
    * block holds the instructions `lower..=upper`. */
  datatype BlockContent = Dummy | Basic(lower: nat, upper: nat)

  /** A natural loop over block ids. */
  datatype NaturalLoop = NaturalLoop(header: nat, latch: nat, body: set<nat>)

  /** A fat loop: all natural loops that share one header. */
  datatype FatLoop = FatLoop(
    invariants: map<nat, nat>,
    valTargets: set<nat>,
    mutTargets: map<nat, bool>,
    backEdges: set<nat>,
    subLoops: seq<NaturalLoop>)

  predicate IsBasic(content: map<nat, BlockContent>, b: nat, codeLen: nat)
  {
    b in content && content[b].Basic? && content[b].upper < codeLen
  }

  /** `b` is a basic block whose every instruction `modifies` can classify. */
  predicate BlockTyped(code: seq<Bytecode>, types: seq<Type>, content: map<nat, BlockContent>, b: nat)
  {
    IsBasic(content, b, |code|)
    && forall o :: content[b].lower <= o <= content[b].upper ==> ModifiesDefined(code[o], types)
  }

  /** The blocks of all sub-loop bodies. */
  function BodyBlocks(subLoops: seq<NaturalLoop>): set<nat>
  {
    set i, b | 0 <= i < |subLoops| && b in subLoops[i].body :: b
  }

  /** The offsets `lo..hi`. */
  function Interval(lo: nat, hi: nat): (r: set<nat>)
    ensures forall o :: o in r <==> lo <= o < hi
    decreases hi - lo
  {
    if lo >= hi then {} else {lo} + Interval(lo + 1, hi)
  }

  /** The instructions of a block. */
  function Instrs(content: map<nat, BlockContent>, b: nat): (r: set<nat>)
    requires b in content && content[b].Basic?
    ensures forall o :: o in r <==> content[b].lower <= o <= content[b].upper
  {
    Interval(content[b].lower, content[b].upper + 1)
  }

  /** The code offsets of the given basic blocks. */
  function Offsets(blocks: set<nat>, content: map<nat, BlockContent>, codeLen: nat): (r: set<nat>)
    ensures forall o :: o in r ==> o < codeLen
  {
    set b: nat, o: nat | b in blocks && IsBasic(content, b, codeLen) && o in Instrs(content, b) :: o
  }

  // ---------------------------------------------------------------------
  // Loop targets
  // ---------------------------------------------------------------------

  type Mods = seq<(seq<nat>, seq<(nat, bool)>)>

  /** What each instruction modifies, by offset. An instruction that
    * `modifies` cannot classify gets an empty entry; the loops below only
    * read the entries of instructions it can. */
  function ModTable(code: seq<Bytecode>, types: seq<Type>): (t: Mods)
    ensures |t| == |code|
    decreases |code|
  {
    if code == [] then []
    else
      var last := code[|code| - 1];
      ModTable(code[..|code| - 1], types) + [if ModifiesDefined(last, types) then Modifies(last, types) else ([], [])]
  }

  /** The table holds what each instruction modifies. */
  lemma {:induction false} TableAt(code: seq<Bytecode>, types: seq<Type>, o: nat)
    requires o < |code| && ModifiesDefined(code[o], types)
    ensures ModTable(code, types)[o] == Modifies(code[o], types)
    decreases |code|
  {
    if o < |code| - 1 {
      TableAt(code[..|code| - 1], types, o);
    }
  }

  /** Some instruction at the given offsets writes `x` as a value. */
  predicate IsValTarget(mods: Mods, offs: set<nat>, x: nat)
  {
    exists o :: o in offs && o < |mods| && x in mods[o].0
  }

  /** Some instruction at the given offsets changes the mutable reference
    * `x` or what it points to. */
  predicate IsMutTarget(mods: Mods, offs: set<nat>, x: nat)
  {
    exists o, h :: o in offs && o < |mods| && (x, h) in mods[o].1
  }

  /** Some instruction at the given offsets replaces reference `x` itself. */
  predicate FullyHavocked(mods: Mods, offs: set<nat>, x: nat)
  {
    exists o :: o in offs && o < |mods| && (x, true) in mods[o].1
  }

  /** `vals` and `muts` are the targets of the instructions at `offs`:
    * every value target, and every mutable-reference target mapped to
    * whether some instruction replaces the reference itself. */
  ghost predicate TargetsOf(mods: Mods, offs: set<nat>, vals: set<nat>, muts: map<nat, bool>)
  {
    (forall x :: x in vals <==> IsValTarget(mods, offs, x))
    && (forall x :: x in muts <==> IsMutTarget(mods, offs, x))
    && (forall x :: x in muts ==> (muts[x] <==> FullyHavocked(mods, offs, x)))
  }

  /** The entry update of `collect_loop_targets`: a target is fully havocked
    * once any instruction havocs it fully. */
  function MergeAll(m: map<nat, bool>, ms: seq<(nat, bool)>): map<nat, bool>
    decreases |ms|
  {
    if ms == [] then m
    else MergeAll(m[ms[0].0 := if ms[0].0 in m then m[ms[0].0] || ms[0].1 else ms[0].1], ms[1..])
  }

  lemma {:induction false} MergeAllSpec(m: map<nat, bool>, ms: seq<(nat, bool)>)
    ensures forall x :: x in MergeAll(m, ms) <==> x in m || exists h :: (x, h) in ms
    ensures forall x :: x in MergeAll(m, ms) ==>
      (MergeAll(m, ms)[x] <==> (x in m && m[x]) || (x, true) in ms)
    decreases |ms|
  {
    if ms != [] {
      var m' := m[ms[0].0 := if ms[0].0 in m then m[ms[0].0] || ms[0].1 else ms[0].1];
      MergeAllSpec(m', ms[1..]);
      assert forall p :: p in ms <==> p == ms[0] || p in ms[1..];
    }
  }

  /** Nothing handled yet: no targets. */
  lemma NoTargets(mods: Mods)
    ensures TargetsOf(mods, {}, {}, map[])
  {
  }

  lemma AbsorbVals(mods: Mods, offs: set<nat>, o: nat, vals: set<nat>, x: nat)
    requires o < |mods| && forall y :: y in vals <==> IsValTarget(mods, offs, y)
    ensures x in vals + (set y | y in mods[o].0) <==> IsValTarget(mods, offs + {o}, x)
  {
    if IsValTarget(mods, offs + {o}, x) {
      var o' :| o' in offs + {o} && o' < |mods| && x in mods[o'].0;
      if o' != o {
        assert IsValTarget(mods, offs, x);
      }
    }
  }

  lemma AbsorbKeys(mods: Mods, offs: set<nat>, o: nat, muts: map<nat, bool>, x: nat)
    requires o < |mods| && forall y :: y in muts <==> IsMutTarget(mods, offs, y)
    ensures x in MergeAll(muts, mods[o].1) <==> IsMutTarget(mods, offs + {o}, x)
  {
    MergeAllSpec(muts, mods[o].1);
    if IsMutTarget(mods, offs + {o}, x) {
      var o', h :| o' in offs + {o} && o' < |mods| && (x, h) in mods[o'].1;
      if o' != o {
        assert IsMutTarget(mods, offs, x);
      }
    }
    if x in muts {
      var o', h :| o' in offs && o' < |mods| && (x, h) in mods[o'].1;
      assert o' in offs + {o};
    }
    if h :| (x, h) in mods[o].1 {
      assert o in offs + {o};
    }
  }

  lemma AbsorbHavoc(mods: Mods, offs: set<nat>, o: nat, muts: map<nat, bool>, x: nat)
    requires o < |mods| && forall y :: y in muts <==> IsMutTarget(mods, offs, y)
    requires forall y :: y in muts ==> (muts[y] <==> FullyHavocked(mods, offs, y))
    requires x in MergeAll(muts, mods[o].1)
    ensures MergeAll(muts, mods[o].1)[x] <==> FullyHavocked(mods, offs + {o}, x)
  {
    MergeAllSpec(muts, mods[o].1);
    if FullyHavocked(mods, offs + {o}, x) {
      var o' :| o' in offs + {o} && o' < |mods| && (x, true) in mods[o'].1;
      if o' != o {
        assert IsMutTarget(mods, offs, x);
        assert FullyHavocked(mods, offs, x);
      }
    }
    if x in muts && muts[x] {
      var o' :| o' in offs && o' < |mods| && (x, true) in mods[o'].1;
      assert o' in offs + {o};
    }
    if (x, true) in mods[o].1 {
      assert o in offs + {o};
    }
  }

  /** Adding one instruction's targets to those already collected: its value
    * targets join the set, its mutable-reference targets are merged into the
    * map. */
  lemma Absorb(mods: Mods, offs: set<nat>, o: nat, vals: set<nat>, muts: map<nat, bool>)
    requires o < |mods| && TargetsOf(mods, offs, vals, muts)
    ensures TargetsOf(mods, offs + {o}, vals + (set x | x in mods[o].0), MergeAll(muts, mods[o].1))
  {
    forall x ensures x in vals + (set y | y in mods[o].0) <==> IsValTarget(mods, offs + {o}, x) {
      AbsorbVals(mods, offs, o, vals, x);
    }
    forall x ensures x in MergeAll(muts, mods[o].1) <==> IsMutTarget(mods, offs + {o}, x) {
      AbsorbKeys(mods, offs, o, muts, x);
    }
    forall x | x in MergeAll(muts, mods[o].1)
      ensures MergeAll(muts, mods[o].1)[x] <==> FullyHavocked(mods, offs + {o}, x)
    {
      AbsorbHavoc(mods, offs, o, muts, x);
    }
  }

  /** Merges the mutable-reference targets of one instruction. */
  method MergeTargets(m0: map<nat, bool>, ms: seq<(nat, bool)>) returns (m: map<nat, bool>)
    ensures m == MergeAll(m0, ms)
  {
    m := m0;
    for j := 0 to |ms|
      invariant MergeAll(m, ms[j..]) == MergeAll(m0, ms)
    {
      assert ms[j..][0] == ms[j] && ms[j..][1..] == ms[j + 1..];
      var (idx, isFullHavoc) := ms[j];
      m := m[idx := if idx in m then m[idx] || isFullHavoc else isFullHavoc];
    }
  }

  lemma OffsetsAdd(blocks: set<nat>, b: nat, content: map<nat, BlockContent>, codeLen: nat)
    requires IsBasic(content, b, codeLen)
    ensures Offsets(blocks + {b}, content, codeLen) == Offsets(blocks, content, codeLen) + Instrs(content, b)
  {
  }

  /** One step of the inner loop of `collect_loop_targets`: the targets of
    * instruction `o` join those of the offsets `seen`. */
  method CollectInstrTargets(code: seq<Bytecode>, types: seq<Type>, o: nat, ghost seen: set<nat>,
                             vals0: set<nat>, muts0: map<nat, bool>)
    returns (valTargets: set<nat>, mutTargets: map<nat, bool>)
    requires o < |code| && ModifiesDefined(code[o], types)
    requires TargetsOf(ModTable(code, types), seen, vals0, muts0)
    ensures TargetsOf(ModTable(code, types), seen + {o}, valTargets, mutTargets)
  {
    var (vals, muts) := Modifies(code[o], types);
    TableAt(code, types, o);
    Absorb(ModTable(code, types), seen, o, vals0, muts0);
    valTargets := vals0 + set x | x in vals;
    mutTargets := MergeTargets(muts0, muts);
  }

  /** The inner loop of `collect_loop_targets`: the targets of the
    * instructions `lo..hi`, added to those of the offsets `seen`. */
  method CollectBlockTargets(code: seq<Bytecode>, types: seq<Type>, lo: nat, hi: nat, ghost seen: set<nat>, ghost all: set<nat>,
                             vals0: set<nat>, muts0: map<nat, bool>)
    returns (valTargets: set<nat>, mutTargets: map<nat, bool>)
    requires hi <= |code| && all == seen + Interval(lo, hi)
    requires forall o :: lo <= o < hi ==> ModifiesDefined(code[o], types)
    requires TargetsOf(ModTable(code, types), seen, vals0, muts0)
    ensures TargetsOf(ModTable(code, types), all, valTargets, mutTargets)
  {
    ghost var mods := ModTable(code, types);
    ghost var done := seen;
    valTargets, mutTargets := vals0, muts0;
    var o := lo;
    while o < hi
      invariant lo <= o <= hi || (o == lo && lo >= hi)
      invariant done == seen + Interval(lo, o)
      invariant TargetsOf(mods, done, valTargets, mutTargets)
    {
      valTargets, mutTargets := CollectInstrTargets(code, types, o, done, valTargets, mutTargets);
      done := done + {o};
      o := o + 1;
    }
    assert Interval(lo, o) == Interval(lo, hi);
  }

  /** Handling the next body block: its instructions exist and join the
    * offsets handled so far. */
  lemma NextBlock(content: map<nat, BlockContent>, codeLen: nat, body: set<nat>, done: set<nat>, b: nat)
    requires forall c :: c in body ==> IsBasic(content, c, codeLen)
    requires b in body && done <= body
    ensures IsBasic(content, b, codeLen)
    ensures Offsets(done + {b}, content, codeLen)
      == Offsets(done, content, codeLen) + Interval(content[b].lower, content[b].upper + 1)
  {
    OffsetsAdd(done, b, content, codeLen);
  }

  /** One step of the outer loop of `collect_loop_targets`: the targets of
    * body block `b`, added to those of the blocks `done`. */
  method CollectBlock(code: seq<Bytecode>, types: seq<Type>, content: map<nat, BlockContent>, body: set<nat>, ghost done: set<nat>, b: nat,
                      vals0: set<nat>, muts0: map<nat, bool>)
    returns (valTargets: set<nat>, mutTargets: map<nat, bool>)
    requires forall c :: c in body ==> BlockTyped(code, types, content, c)
    requires b in body && done <= body
    requires TargetsOf(ModTable(code, types), Offsets(done, content, |code|), vals0, muts0)
    ensures TargetsOf(ModTable(code, types), Offsets(done + {b}, content, |code|), valTargets, mutTargets)
  {
    NextBlock(content, |code|, body, done, b);
    valTargets, mutTargets := CollectBlockTargets(code, types, content[b].lower, content[b].upper + 1,
                                                  Offsets(done, content, |code|), Offsets(done + {b}, content, |code|), vals0, muts0);
  }

  /** `collect_loop_targets`: everything the instructions of the sub-loops'
    * bodies modify, over the union of those bodies. */
  method CollectLoopTargets(code: seq<Bytecode>, types: seq<Type>, content: map<nat, BlockContent>, subLoops: seq<NaturalLoop>)
    returns (valTargets: set<nat>, mutTargets: map<nat, bool>)
    requires forall b :: b in BodyBlocks(subLoops) ==> BlockTyped(code, types, content, b)
    ensures TargetsOf(ModTable(code, types), Offsets(BodyBlocks(subLoops), content, |code|), valTargets, mutTargets)
  {
    var body := BodyBlocks(subLoops);
    NoTargets(ModTable(code, types));
    assert Offsets({}, content, |code|) == {};
    valTargets, mutTargets := {}, map[];
    var rest := body;
    while rest != {}
      invariant rest <= body
      invariant TargetsOf(ModTable(code, types), Offsets(body - rest, content, |code|), valTargets, mutTargets)
      decreases rest
    {
      var b :| b in rest;
      valTargets, mutTargets := CollectBlock(code, types, content, body, body - rest, b, valTargets, mutTargets);
      assert (body - rest) + {b} == body - (rest - {b});
      rest := rest - {b};
    }
    assert body - rest == body;
  }

  // ---------------------------------------------------------------------
  // Invariants, back edges and the grouping by header
  // ---------------------------------------------------------------------

  /** An assertion the loop treats as an invariant. */
  predicate InvariantProp(bc: Bytecode, asInvariants: set<nat>)
  {
    bc.Prop? && bc.propKind == PropAssert && bc.prAttr in asInvariants
  }

  /** `collect_loop_invariants`: the assertions listed as invariants that
    * directly follow the header's label, by offset. `asInvariants` is the
    * set of such assertions' attribute ids. */
  method CollectLoopInvariants(code: seq<Bytecode>, lower: nat, upper: nat, asInvariants: set<nat>)
    returns (invariants: map<nat, nat>)
    requires lower <= upper < |code| && code[lower].Label?
    ensures forall o :: o in invariants <==>
      lower < o <= upper && forall p :: lower < p <= o ==> InvariantProp(code[p], asInvariants)
    ensures forall o :: o in invariants ==>
      o < |code| && InvariantProp(code[o], asInvariants) && invariants[o] == code[o].prAttr
    ensures asInvariants == {} ==> invariants == map[]
  {
    invariants := map[];
    var o := lower + 1;
    while o <= upper
      invariant lower + 1 <= o <= upper + 1
      invariant forall p :: lower < p < o ==> InvariantProp(code[p], asInvariants)
      invariant forall p :: p in invariants <==> lower < p < o
      invariant forall p :: p in invariants ==>
        p < |code| && InvariantProp(code[p], asInvariants) && invariants[p] == code[p].prAttr
    {
      if !InvariantProp(code[o], asInvariants) {
        break;
      }
      invariants := invariants[o := code[o].prAttr];
      o := o + 1;
    }
  }

  /** The instruction jumps or branches to the label. */
  predicate BranchesTo(bc: Bytecode, headerLabel: nat)
  {
    (bc.Jump? && bc.target == headerLabel) || (bc.Branch? && (bc.thenLabel == headerLabel || bc.elseLabel == headerLabel))
  }

  /** What `collect_loop_back_edges` checks: each latch is a basic block whose
    * last instruction jumps or branches back to the header's label. */
  predicate LatchesBranchBack(code: seq<Bytecode>, content: map<nat, BlockContent>, headerLabel: nat, subLoops: seq<NaturalLoop>)
  {
    forall i :: 0 <= i < |subLoops| ==>
      IsBasic(content, subLoops[i].latch, |code|) && BranchesTo(code[content[subLoops[i].latch].upper], headerLabel)
  }

  /** `o` is the last offset of the latch block of `l`. */
  predicate IsLatchEnd(content: map<nat, BlockContent>, l: NaturalLoop, o: nat)
  {
    l.latch in content && content[l.latch].Basic? && content[l.latch].upper == o
  }

  /** `collect_loop_back_edges`: the last offset of every latch block, each of
    * which jumps or branches back to the header. */
  function BackEdges(code: seq<Bytecode>, content: map<nat, BlockContent>, headerLabel: nat, subLoops: seq<NaturalLoop>): (r: set<nat>)
    requires LatchesBranchBack(code, content, headerLabel, subLoops)
    ensures forall o :: o in r ==> o < |code| && BranchesTo(code[o], headerLabel)
    ensures forall o: nat :: o in r <==> exists i :: 0 <= i < |subLoops| && IsLatchEnd(content, subLoops[i], o)
  {
    set i | 0 <= i < |subLoops| :: content[subLoops[i].latch].upper
  }

  function Headers(loops: seq<NaturalLoop>): set<nat>
  {
    set i | 0 <= i < |loops| :: loops[i].header
  }

  /** The loops with the given header, in their original order. */
  function WithHeader(loops: seq<NaturalLoop>, h: nat): seq<NaturalLoop>
  {
    if loops == [] then []
    else WithHeader(loops[..|loops| - 1], h) + (if loops[|loops| - 1].header == h then [loops[|loops| - 1]] else [])
  }

  lemma {:induction false} WithHeaderSpec(loops: seq<NaturalLoop>, h: nat)
    ensures forall l :: l in WithHeader(loops, h) <==> l in loops && l.header == h
  {
    if loops != [] {
      WithHeaderSpec(loops[..|loops| - 1], h);
      assert loops == loops[..|loops| - 1] + [loops[|loops| - 1]];
    }
  }

  lemma {:induction false} WithHeaderNone(loops: seq<NaturalLoop>, h: nat)
    requires forall i :: 0 <= i < |loops| ==> loops[i].header != h
    ensures WithHeader(loops, h) == []
  {
    if loops != [] {
      WithHeaderNone(loops[..|loops| - 1], h);
    }
  }

  /** The grouping by header of `get_loops`. */
  function Grouped(loops: seq<NaturalLoop>): map<nat, seq<NaturalLoop>>
  {
    map h | h in Headers(loops) :: WithHeader(loops, h)
  }

  /** Every natural loop is in its header's group and every group holds only
    * loops of its own header, so all sub-loops of a fat loop share it. */
  lemma GroupedSpec(loops: seq<NaturalLoop>)
    ensures Grouped(loops).Keys == Headers(loops)
    ensures forall i :: 0 <= i < |loops| ==> loops[i] in Grouped(loops)[loops[i].header]
    ensures forall h, l :: h in Grouped(loops) && l in Grouped(loops)[h] ==> l in loops && l.header == h
  {
    forall h | h in Headers(loops) {
      WithHeaderSpec(loops, h);
    }
    forall i | 0 <= i < |loops| ensures loops[i] in Grouped(loops)[loops[i].header] {
      WithHeaderSpec(loops, loops[i].header);
    }
  }

  /** Groups the natural loops by header, keeping their order. */
  method GroupByHeader(loops: seq<NaturalLoop>) returns (fatHeaders: map<nat, seq<NaturalLoop>>)
    ensures fatHeaders == Grouped(loops)
  {
    fatHeaders := map[];
    for i := 0 to |loops|
      invariant fatHeaders == Grouped(loops[..i])
    {
      GroupedSnoc(loops, i);
      var l := loops[i];
      var group := if l.header in fatHeaders then fatHeaders[l.header] else [];
      fatHeaders := fatHeaders[l.header := group + [l]];
    }
    assert loops[..|loops|] == loops;
  }

  lemma GroupedSnoc(loops: seq<NaturalLoop>, i: nat)
    requires i < |loops|
    ensures Grouped(loops[..i + 1]) == Grouped(loops[..i])[loops[i].header :=
      (if loops[i].header in Grouped(loops[..i]) then Grouped(loops[..i])[loops[i].header] else []) + [loops[i]]]
  {
    var pre, l := loops[..i], loops[i];
    assert loops[..i + 1] == pre + [l];
    assert loops[..i + 1][..i] == pre;
    assert Headers(pre + [l]) == Headers(pre) + {l.header};
    forall h | h in Headers(pre) && h != l.header
      ensures WithHeader(pre + [l], h) == WithHeader(pre, h)
    {
    }
    if l.header !in Headers(pre) {
      WithHeaderNone(pre, l.header);
    }
  }

  // ---------------------------------------------------------------------
  // get_loops
  // ---------------------------------------------------------------------

  /** The label a header block starts with. */
  function HeaderLabel(code: seq<Bytecode>, content: map<nat, BlockContent>, h: nat): nat
    requires IsBasic(content, h, |code|) && content[h].lower <= content[h].upper
    requires code[content[h].lower].Label?
  {
    code[content[h].lower].lab
  }

  /** What `get_loops` checks of one natural loop: its header is a basic
    * block starting with a label, its latch branches back to that label,
    * and its body's instructions have typed targets. */
  predicate LoopOk(code: seq<Bytecode>, types: seq<Type>, content: map<nat, BlockContent>, l: NaturalLoop)
  {
    IsBasic(content, l.header, |code|) && content[l.header].lower <= content[l.header].upper
    && code[content[l.header].lower].Label?
    && IsBasic(content, l.latch, |code|)
    && BranchesTo(code[content[l.latch].upper], HeaderLabel(code, content, l.header))
    && (forall b :: b in l.body ==> BlockTyped(code, types, content, b))
  }

  /** A group's sub-loops all pass those checks. */
  predicate GroupOk(code: seq<Bytecode>, types: seq<Type>, content: map<nat, BlockContent>, h: nat, subs: seq<NaturalLoop>)
  {
    IsBasic(content, h, |code|) && content[h].lower <= content[h].upper && code[content[h].lower].Label?
    && forall i :: 0 <= i < |subs| ==> subs[i].header == h && LoopOk(code, types, content, subs[i])
  }

  lemma GroupBodies(code: seq<Bytecode>, types: seq<Type>, content: map<nat, BlockContent>, h: nat, subs: seq<NaturalLoop>)
    requires GroupOk(code, types, content, h, subs)
    ensures forall b :: b in BodyBlocks(subs) ==> BlockTyped(code, types, content, b)
    ensures LatchesBranchBack(code, content, HeaderLabel(code, content, h), subs)
  {
  }

  /** `f` is the fat loop over the sub-loops `subs`: no invariants, the
    * targets of the sub-loops' bodies, the last offsets of their latches and
    * the sub-loops themselves. */
  ghost predicate IsFatLoopOf(code: seq<Bytecode>, types: seq<Type>, content: map<nat, BlockContent>, subs: seq<NaturalLoop>, f: FatLoop)
  {
    f.invariants == map[]
    && TargetsOf(ModTable(code, types), Offsets(BodyBlocks(subs), content, |code|), f.valTargets, f.mutTargets)
    && (forall o: nat :: o in f.backEdges <==> exists i :: 0 <= i < |subs| && IsLatchEnd(content, subs[i], o))
    && f.subLoops == subs
  }

  lemma GroupsOk(code: seq<Bytecode>, types: seq<Type>, content: map<nat, BlockContent>, loops: seq<NaturalLoop>, h: nat)
    requires forall i :: 0 <= i < |loops| ==> LoopOk(code, types, content, loops[i])
    requires h in Grouped(loops)
    ensures GroupOk(code, types, content, h, Grouped(loops)[h])
  {
    GroupedSpec(loops);
    var subs := Grouped(loops)[h];
    var i :| 0 <= i < |loops| && loops[i].header == h;
    forall j | 0 <= j < |subs| ensures subs[j].header == h && LoopOk(code, types, content, subs[j]) {
      assert subs[j] in subs;
      var k :| 0 <= k < |loops| && loops[k] == subs[j];
    }
  }

  /** The body of the loop of `get_loops` over the headers: the label the
    * header block starts with, the loop invariants, targets and back edges. */
  method BuildFatLoop(code: seq<Bytecode>, types: seq<Type>, content: map<nat, BlockContent>, fatRoot: nat, subLoops: seq<NaturalLoop>)
    returns (fatLoop: FatLoop)
    requires GroupOk(code, types, content, fatRoot, subLoops)
    ensures IsFatLoopOf(code, types, content, subLoops, fatLoop)
  {
    GroupBodies(code, types, content, fatRoot, subLoops);
    var headerLabel := code[content[fatRoot].lower].lab;
    var invariants := CollectLoopInvariants(code, content[fatRoot].lower, content[fatRoot].upper, {});
    var valTargets, mutTargets := CollectLoopTargets(code, types, content, subLoops);
    var backEdges := BackEdges(code, content, headerLabel, subLoops);
    fatLoop := FatLoop(invariants, valTargets, mutTargets, backEdges, subLoops);
  }

  /** `get_loops`: one fat loop per loop header, over the natural loops with
    * that header. The loop invariants are the assertions in the (always empty)
    * invariant set, so every fat loop has none. */
  method GetLoops(code: seq<Bytecode>, types: seq<Type>, content: map<nat, BlockContent>, naturalLoops: seq<NaturalLoop>)
    returns (loops: seq<NaturalLoop>, fatLoops: map<nat, FatLoop>)
    requires forall i :: 0 <= i < |naturalLoops| ==> LoopOk(code, types, content, naturalLoops[i])
    ensures loops == naturalLoops
    ensures fatLoops.Keys == Headers(naturalLoops)
    ensures forall h :: h in fatLoops ==> GroupOk(code, types, content, h, Grouped(naturalLoops)[h])
    ensures forall h :: h in fatLoops ==> IsFatLoopOf(code, types, content, Grouped(naturalLoops)[h], fatLoops[h])
  {
    var fatHeaders := GroupByHeader(naturalLoops);
    GroupedSpec(naturalLoops);
    forall h | h in fatHeaders ensures GroupOk(code, types, content, h, fatHeaders[h]) {
      GroupsOk(code, types, content, naturalLoops, h);
    }
    fatLoops := BuildFatLoops(code, types, content, fatHeaders);
    loops := naturalLoops;
  }

  /** The loop of `get_loops` over the groups: one fat loop per header. */
  method BuildFatLoops(code: seq<Bytecode>, types: seq<Type>, content: map<nat, BlockContent>, fatHeaders: map<nat, seq<NaturalLoop>>)
    returns (fatLoops: map<nat, FatLoop>)
    requires forall h :: h in fatHeaders ==> GroupOk(code, types, content, h, fatHeaders[h])
    ensures fatLoops.Keys == fatHeaders.Keys
    ensures forall h :: h in fatLoops ==> IsFatLoopOf(code, types, content, fatHeaders[h], fatLoops[h])
  {
    fatLoops := map[];
    var rest := fatHeaders.Keys;
    while rest != {}
      invariant rest <= fatHeaders.Keys
      invariant fatLoops.Keys == fatHeaders.Keys - rest
      invariant forall h :: h in fatLoops ==> IsFatLoopOf(code, types, content, fatHeaders[h], fatLoops[h])
      decreases rest
    {
      var fatRoot :| fatRoot in rest;
      var fatLoop := BuildFatLoop(code, types, content, fatRoot, fatHeaders[fatRoot]);
      fatLoops := fatLoops[fatRoot := fatLoop];
      rest := rest - {fatRoot};
    }
  }

  /** Instruction `o` writes temporary `x` as a value. */
  predicate WritesValue(code: seq<Bytecode>, types: seq<Type>, o: nat, x: nat)
  {
    o < |code| && ModifiesDefined(code[o], types) && x in Modifies(code[o], types).0
  }

  /** Instruction `o` replaces the mutable reference `x` itself. */
  predicate ReplacesRef(code: seq<Bytecode>, types: seq<Type>, o: nat, x: nat)
  {
    o < |code| && ModifiesDefined(code[o], types) && (x, true) in Modifies(code[o], types).1
  }

  /** Instruction `o` lies in a body block of one of the sub-loops. */
  predicate InBody(content: map<nat, BlockContent>, subs: seq<NaturalLoop>, o: nat)
  {
    exists i, b :: 0 <= i < |subs| && b in subs[i].body && b in content && content[b].Basic?
      && content[b].lower <= o <= content[b].upper
  }

  /** Instruction `o` changes the mutable reference `x` or what it points to. */
  predicate ModifiesRef(code: seq<Bytecode>, types: seq<Type>, o: nat, x: nat)
  {
    o < |code| && ModifiesDefined(code[o], types) && exists h :: (x, h) in Modifies(code[o], types).1
  }

  /** The offsets of a group's body blocks are the offsets inside some
    * sub-loop's body block. */
  lemma BodyOffsets(code: seq<Bytecode>, types: seq<Type>, content: map<nat, BlockContent>, h: nat, subs: seq<NaturalLoop>, o: nat)
    requires GroupOk(code, types, content, h, subs)
    ensures forall b :: b in BodyBlocks(subs) ==> IsBasic(content, b, |code|)
    ensures o in Offsets(BodyBlocks(subs), content, |code|) <==> InBody(content, subs, o)
  {
    GroupBodies(code, types, content, h, subs);
    if o in Offsets(BodyBlocks(subs), content, |code|) {
      var b :| b in BodyBlocks(subs) && IsBasic(content, b, |code|) && o in Instrs(content, b);
      var i :| 0 <= i < |subs| && b in subs[i].body;
    }
    if InBody(content, subs, o) {
      var i, b :| 0 <= i < |subs| && b in subs[i].body && b in content && content[b].Basic?
        && content[b].lower <= o <= content[b].upper;
      assert b in BodyBlocks(subs);
      assert o in Instrs(content, b);
    }
  }

  /** Targets collected over offsets are exactly what the instructions at
    * those offsets modify. */
  lemma TargetsSpec(code: seq<Bytecode>, types: seq<Type>, offs: set<nat>, vals: set<nat>, muts: map<nat, bool>, x: nat)
    requires forall o :: o in offs ==> o < |code| && ModifiesDefined(code[o], types)
    requires TargetsOf(ModTable(code, types), offs, vals, muts)
    ensures x in vals <==> exists o :: o in offs && WritesValue(code, types, o, x)
    ensures x in muts <==> exists o :: o in offs && ModifiesRef(code, types, o, x)
    ensures x in muts ==> (muts[x] <==> exists o :: o in offs && ReplacesRef(code, types, o, x))
  {
    var mods := ModTable(code, types);
    if x in vals {
      var o :| o in offs && o < |mods| && x in mods[o].0;
      TableAt(code, types, o);
      assert WritesValue(code, types, o, x);
    }
    if o :| o in offs && WritesValue(code, types, o, x) {
      TableAt(code, types, o);
      assert IsValTarget(mods, offs, x);
    }
    if x in muts {
      var o, hv :| o in offs && o < |mods| && (x, hv) in mods[o].1;
      TableAt(code, types, o);
      assert ModifiesRef(code, types, o, x);
    }
    if o :| o in offs && ModifiesRef(code, types, o, x) {
      TableAt(code, types, o);
      var hv :| (x, hv) in mods[o].1;
      assert IsMutTarget(mods, offs, x);
    }
    if x in muts && muts[x] {
      var o :| o in offs && o < |mods| && (x, true) in mods[o].1;
      TableAt(code, types, o);
      assert ReplacesRef(code, types, o, x);
    }
    if x in muts {
      if o :| o in offs && ReplacesRef(code, types, o, x) {
        TableAt(code, types, o);
        assert FullyHavocked(mods, offs, x);
      }
    }
  }

  /** The targets of a fat loop are exactly what the instructions of its
    * sub-loops' bodies modify: a value target is written as a value by some
    * body instruction, a mutable target is changed by some body instruction,
    * and it maps to true exactly when some body instruction replaces the
    * reference itself. */
  lemma FatLoopTargetsSpec(code: seq<Bytecode>, types: seq<Type>, content: map<nat, BlockContent>, h: nat, subs: seq<NaturalLoop>, f: FatLoop, x: nat)
    requires GroupOk(code, types, content, h, subs) && IsFatLoopOf(code, types, content, subs, f)
    ensures x in f.valTargets <==> exists o :: InBody(content, subs, o) && WritesValue(code, types, o, x)
    ensures x in f.mutTargets <==> exists o :: InBody(content, subs, o) && ModifiesRef(code, types, o, x)
    ensures x in f.mutTargets ==>
      (f.mutTargets[x] <==> exists o :: InBody(content, subs, o) && ReplacesRef(code, types, o, x))
  {
    GroupBodies(code, types, content, h, subs);
    var offs := Offsets(BodyBlocks(subs), content, |code|);
    TargetsSpec(code, types, offs, f.valTargets, f.mutTargets, x);
    forall o ensures o in offs <==> InBody(content, subs, o) {
      BodyOffsets(code, types, content, h, subs, o);
    }
  }

  /** Every back edge of a fat loop jumps or branches to the label its header
    * block starts with. */
  lemma FatLoopBackEdges(code: seq<Bytecode>, types: seq<Type>, content: map<nat, BlockContent>, h: nat, subs: seq<NaturalLoop>, f: FatLoop)
    requires GroupOk(code, types, content, h, subs) && IsFatLoopOf(code, types, content, subs, f)
    ensures forall o :: o in f.backEdges ==> o < |code| && BranchesTo(code[o], HeaderLabel(code, content, h))
  {
    forall o | o in f.backEdges ensures o < |code| && BranchesTo(code[o], HeaderLabel(code, content, h)) {
      var i :| 0 <= i < |subs| && IsLatchEnd(content, subs[i], o);
      assert LoopOk(code, types, content, subs[i]);
    }
  }
}
