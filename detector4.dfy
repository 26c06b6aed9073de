/** `Detector4`: loops none of whose exit conditions can change. A function is
  * reported when it has loops and, for every fat loop, no instruction of any
  * sub-loop block writes a temporary an exit branch reads its condition
  * from, directly, through a reference to it or by handing it to a call. */
module Detector4 {
  import opened Wrappers
  import opened Stackless
  import opened Packages
  import BytecodeGen
  import opened FatLoops
  import opened DataDependency
  import opened Detection

  // ---------------------------------------------------------------------
  // borrow_reference and changed_loop_condition

  /** `borrow_reference`: the (source, reference, through a field) triple of
    * an instruction that makes a mutable reference: a copy or store of a
    * mutable reference, or a borrow of a local, a global or a field. */
  function BorrowReference(b: Bytecode, types: seq<Type>): (r: Option<(nat, nat, bool)>)
    requires CallShaped(b) && InstrTyped(b, |types|)
    ensures b.Assign? ==> (r.Some? <==> b.kind != Move && IsMutableReference(types[b.src]))
    ensures b.Assign? && r.Some? ==> r.value == (b.src, b.dst, false)
    ensures b.Call? ==> (r.Some? <==> b.op == BorrowLoc || b.op.BorrowGlobal? || b.op.BorrowField?)
    ensures b.Call? && r.Some? ==> r.value == (b.srcs[0], b.dsts[0], b.op.BorrowField?)
    ensures !b.Assign? && !b.Call? ==> r.None?
  {
    match b
    case Assign(_, dst, src, kind) =>
      if kind == Move then None
      else if IsMutableReference(types[src]) then Some((src, dst, false))
      else None
    case Call(_, dsts, op, srcs, _) =>
      if op == BorrowLoc || op.BorrowGlobal? then Some((srcs[0], dsts[0], false))
      else if op.BorrowField? then Some((srcs[0], dsts[0], true))
      else None
    case _ => None
  }

  /** The bounds `changed_loop_condition` reads from a block's content; a
    * dummy block reads as (0, 0). */
  function Bounds(c: BlockContent): (nat, nat)
  {
    match c
    case Basic(lower, upper) => (lower, upper)
    case Dummy => (0, 0)
  }

  /** No instruction among offsets `i..u` changes `cond`: the loop of
    * `changed_loop_condition` from offset `i`. */
  predicate Keeps(f: BytecodeGen.FunctionInfo, u: nat, cond: nat, i: nat)
    requires WellFormed(f) && u <= |f.code|
    decreases u - i, 1
  {
    i >= u || (InstrKeeps(f, u, cond, i) && Keeps(f, u, cond, i + 1))
  }

  /** The instruction at `i` does not change `cond`: it does not assign it,
    * does not pass it to a Move function, and a mutable reference it makes
    * of `cond` is not changed by the rest of the block. */
  predicate InstrKeeps(f: BytecodeGen.FunctionInfo, u: nat, cond: nat, i: nat)
    requires WellFormed(f) && i < u <= |f.code|
    decreases u - i, 0
  {
    var b := f.code[i];
    var r := BorrowReference(b, f.localTypes);
    match b
    case Assign(_, dst, src, _) =>
      if dst == cond then false
      else if src == cond then (r.Some? ==> Keeps(f, u, r.value.1, i + 1))
      else true
    case Call(_, _, op, srcs, _) =>
      (r.Some? && r.value.0 == cond ==> Keeps(f, u, r.value.1, i + 1)) &&
      !(op.Function? && cond in srcs)
    case _ => true
  }

  /** `changed_loop_condition`: whether the block, from `offset` past its
    * lower bound up to (not including) its upper bound, leaves `condition`
    * unchanged. A reference to the condition made at `i` is followed from
    * `i + 1`. */
  method ChangedLoopCondition(f: BytecodeGen.FunctionInfo, content: BlockContent, condition: nat, offset: nat)
    returns (flag: bool)
    requires WellFormed(f) && Bounds(content).1 <= |f.code|
    ensures flag == Keeps(f, Bounds(content).1, condition, Bounds(content).0 + offset)
    decreases Bounds(content).1 - (Bounds(content).0 + offset)
  {
    var (l, u) := Bounds(content);
    flag := true;
    var i := l + offset;
    while i < u
      invariant l + offset <= i
      invariant Keeps(f, u, condition, l + offset) == (flag && Keeps(f, u, condition, i))
    {
      var b := f.code[i];
      var refer := BorrowReference(b, f.localTypes);
      match b {
        case Assign(_, dst, src, _) =>
          if dst == condition {
            flag := false;
          } else if src == condition {
            if refer.Some? {
              var sub := ChangedLoopCondition(f, content, refer.value.1, i - l + 1);
              flag := flag && sub;
            }
          }
        case Call(_, _, op, srcs, _) =>
          if refer.Some? && refer.value.0 == condition {
            var sub := ChangedLoopCondition(f, content, refer.value.1, i - l + 1);
            flag := flag && sub;
          }
          if op.Function? && condition in srcs {
            flag := false;
          }
        case _ =>
      }
      i := i + 1;
    }
  }

  /** A kept condition is neither assigned nor handed to a Move function by
    * any instruction of the range. */
  lemma {:induction false} KeptNotWritten(f: BytecodeGen.FunctionInfo, u: nat, cond: nat, i: nat)
    requires WellFormed(f) && u <= |f.code| && Keeps(f, u, cond, i)
    ensures forall o :: i <= o < u ==> !(f.code[o].Assign? && f.code[o].dst == cond)
    ensures forall o :: i <= o < u ==> !(f.code[o].Call? && f.code[o].op.Function? && cond in f.code[o].srcs)
    decreases u - i
  {
    if i < u {
      KeptNotWritten(f, u, cond, i + 1);
    }
  }

  /** A range in which no instruction assigns, borrows, copies a reference
    * of or hands to a call the condition keeps it. */
  lemma {:induction false} UntouchedKept(f: BytecodeGen.FunctionInfo, u: nat, cond: nat, i: nat)
    requires WellFormed(f) && u <= |f.code|
    requires forall o :: i <= o < u && f.code[o].Assign? ==> f.code[o].dst != cond && f.code[o].src != cond
    requires forall o :: i <= o < u && f.code[o].Call? ==> cond !in f.code[o].srcs
    ensures Keeps(f, u, cond, i)
    decreases u - i
  {
    if i < u {
      UntouchedKept(f, u, cond, i + 1);
      var b := f.code[i];
      if b.Call? {
        var r := BorrowReference(b, f.localTypes);
        if r.Some? {
          assert b.srcs[0] in b.srcs;
        }
      }
    }
  }

  // ---------------------------------------------------------------------
  // The loop conditions of a fat loop

  /** The shapes `detect_infinite_loop` reads of a function. */
  predicate Analysable(entry: ModuleEntry, idx: nat)
  {
    idx < |entry.functions| && idx < |entry.cfgs| && idx < |entry.naturalLoops| &&
    idx < |entry.dataDependency| && idx < |entry.defs| &&
    var f := entry.functions[idx];
    var cfg := entry.cfgs[idx];
    var dd := entry.dataDependency[idx];
    var loops := entry.naturalLoops[idx];
    WellFormed(f) &&
    (forall i :: 0 <= i < |loops| ==> LoopOk(f.code, f.localTypes, cfg.content, loops[i])) &&
    BodiesOk(f, cfg, loops) &&
    (forall o :: 0 <= o < |f.code| && f.code[o].Branch? ==> f.code[o].cond in dd && CondDefined(dd[f.code[o].cond]))
  }

  /** The blocks of the sub-loops are basic blocks of the code with
    * successors. */
  predicate BodiesOk(f: BytecodeGen.FunctionInfo, cfg: Cfg, subs: seq<NaturalLoop>)
  {
    forall j, b :: 0 <= j < |subs| && b in subs[j].body ==>
      IsBasic(cfg.content, b, |f.code|) && b in cfg.successors
  }

  /** A block of a sub-loop has content within the code. */
  lemma BodyBlock(f: BytecodeGen.FunctionInfo, cfg: Cfg, subs: seq<NaturalLoop>, j: nat, b: nat)
    requires BodiesOk(f, cfg, subs) && j < |subs| && b in subs[j].body
    ensures b in cfg.content && Bounds(cfg.content[b]).1 < |f.code| && b in cfg.successors
  {
    assert IsBasic(cfg.content, b, |f.code|);
  }

  /** Sub-loops drawn from well-formed loops are well formed. */
  lemma BodiesOkSub(f: BytecodeGen.FunctionInfo, cfg: Cfg, loops: seq<NaturalLoop>, subs: seq<NaturalLoop>)
    requires BodiesOk(f, cfg, loops) && forall j :: 0 <= j < |subs| ==> subs[j] in loops
    ensures BodiesOk(f, cfg, subs)
  {
    forall j, b | 0 <= j < |subs| && b in subs[j].body
      ensures IsBasic(cfg.content, b, |f.code|) && b in cfg.successors
    {
      var i :| 0 <= i < |loops| && loops[i] == subs[j];
      assert b in loops[i].body;
    }
  }

  /** The branch conditions read their temporaries from recorded nodes. */
  predicate BranchesOk(f: BytecodeGen.FunctionInfo, dd: map<nat, Node>)
  {
    forall o :: 0 <= o < |f.code| && f.code[o].Branch? ==> f.code[o].cond in dd && CondDefined(dd[f.code[o].cond])
  }

  /** `x` is collected from the branch closing block `b`: the block ends in a
    * conditional branch whose condition's node names `x`. */
  predicate BranchCondition(f: BytecodeGen.FunctionInfo, cfg: Cfg, dd: map<nat, Node>, b: nat, x: nat)
  {
    b in cfg.content && Bounds(cfg.content[b]).1 < |f.code| &&
    var u := Bounds(cfg.content[b]).1;
    f.code[u].Branch? && f.code[u].cond in dd && CondDefined(dd[f.code[u].cond]) &&
    x in LoopConditions(dd[f.code[u].cond])
  }

  /** `x` is a loop condition of the fat loop: collected from an exit block
    * of one of its sub-loops. */
  predicate LoopCondition(f: BytecodeGen.FunctionInfo, cfg: Cfg, dd: map<nat, Node>, subs: seq<NaturalLoop>, x: nat)
    requires BodiesOk(f, cfg, subs) && BranchesOk(f, dd)
  {
    BodySuccessors(f, cfg, subs);
    exists j, b :: 0 <= j < |subs| && b in subs[j].body &&
      b in ExitBlocks(cfg.successors, BodyBlocks(subs)) && BranchCondition(f, cfg, dd, b, x)
  }

  lemma BodySuccessors(f: BytecodeGen.FunctionInfo, cfg: Cfg, subs: seq<NaturalLoop>)
    requires BodiesOk(f, cfg, subs)
    ensures forall b :: b in BodyBlocks(subs) ==> b in cfg.successors
  {
  }

  /** Block `b` leaves `x` unchanged. */
  predicate BlockKeeps(f: BytecodeGen.FunctionInfo, cfg: Cfg, b: nat, x: nat)
    requires WellFormed(f)
  {
    b in cfg.content && Bounds(cfg.content[b]).1 <= |f.code| &&
    Keeps(f, Bounds(cfg.content[b]).1, x, Bounds(cfg.content[b]).0)
  }

  /** No block of the fat loop changes any of its loop conditions. */
  ghost predicate GroupKeeps(f: BytecodeGen.FunctionInfo, cfg: Cfg, dd: map<nat, Node>, subs: seq<NaturalLoop>)
    requires WellFormed(f) && BodiesOk(f, cfg, subs) && BranchesOk(f, dd)
  {
    forall j, b, x :: 0 <= j < |subs| && b in subs[j].body && LoopCondition(f, cfg, dd, subs, x) ==>
      BlockKeeps(f, cfg, b, x)
  }

  // ---------------------------------------------------------------------
  // The steps of detect_infinite_loop

  /** The union of the sub-loops' bodies. */
  method Unions(subs: seq<NaturalLoop>) returns (unions: set<nat>)
    ensures unions == BodyBlocks(subs)
  {
    unions := {};
    for j := 0 to |subs|
      invariant unions == BodyBlocks(subs[..j])
    {
      BodyBlocksSnoc(subs, j);
      unions := unions + subs[j].body;
    }
    assert subs[..|subs|] == subs;
  }

  lemma BodyBlocksSnoc(subs: seq<NaturalLoop>, j: nat)
    requires j < |subs|
    ensures BodyBlocks(subs[..j + 1]) == BodyBlocks(subs[..j]) + subs[j].body
  {
    var p := subs[..j + 1];
    forall b | b in BodyBlocks(p) ensures b in BodyBlocks(subs[..j]) + subs[j].body {
      var i :| 0 <= i < |p| && b in p[i].body;
      if i < j {
        assert subs[..j][i] == p[i];
      }
    }
    forall b | b in BodyBlocks(subs[..j]) + subs[j].body ensures b in BodyBlocks(p) {
      if b in subs[j].body {
        assert p[j] == subs[j];
      } else {
        var i :| 0 <= i < j && b in subs[..j][i].body;
        assert p[i] == subs[..j][i];
      }
    }
  }

  /** The blocks of `unions` with a successor outside it. */
  method Branchs(successors: map<nat, seq<nat>>, unions: set<nat>) returns (branchs: set<nat>)
    requires forall b :: b in unions ==> b in successors
    ensures branchs == ExitBlocks(successors, unions)
  {
    branchs := {};
    var rest := unions;
    while rest != {}
      invariant rest <= unions
      invariant branchs == ExitBlocks(successors, unions) * (unions - rest)
      decreases rest
    {
      var b :| b in rest;
      var children := successors[b];
      var leaves := false;
      for k := 0 to |children|
        invariant leaves <==> exists c :: c in children[..k] && c !in unions
      {
        assert children[..k + 1] == children[..k] + [children[k]];
        if children[k] !in unions {
          leaves := true;
        }
      }
      assert children[..|children|] == children;
      if leaves {
        branchs := branchs + {b};
      }
      rest := rest - {b};
    }
  }

  /** The conditions collected from the exit blocks of the sub-loops, in
    * the order of the sub-loops and of their blocks. */
  method CollectConditions(f: BytecodeGen.FunctionInfo, cfg: Cfg, dd: map<nat, Node>, subs: seq<NaturalLoop>, branchs: set<nat>)
    returns (conditions: seq<nat>)
    requires BodiesOk(f, cfg, subs) && BranchesOk(f, dd)
    ensures forall x :: x in conditions <==>
      exists j, b :: 0 <= j < |subs| && b in subs[j].body && b in branchs && BranchCondition(f, cfg, dd, b, x)
  {
    conditions := [];
    for j := 0 to |subs|
      invariant forall x :: x in conditions <==>
        exists j', b :: 0 <= j' < j && b in subs[j'].body && b in branchs && BranchCondition(f, cfg, dd, b, x)
    {
      var rest := subs[j].body;
      while rest != {}
        invariant rest <= subs[j].body
        invariant forall x :: x in conditions <==>
          (exists j', b :: 0 <= j' < j && b in subs[j'].body && b in branchs && BranchCondition(f, cfg, dd, b, x)) ||
          (exists b :: b in subs[j].body - rest && b in branchs && BranchCondition(f, cfg, dd, b, x))
        decreases rest
      {
        var bid :| bid in rest;
        BodyBlock(f, cfg, subs, j, bid);
        if bid in branchs {
          var u := Bounds(cfg.content[bid]).1;
          if f.code[u].Branch? {
            conditions := conditions + LoopConditions(dd[f.code[u].cond]);
          }
        }
        rest := rest - {bid};
      }
    }
  }

  /** Block `b` keeps every condition: the innermost loop of the final
    * step. */
  method BlockKeepsAll(f: BytecodeGen.FunctionInfo, cfg: Cfg, b: nat, conditions: seq<nat>) returns (ok: bool)
    requires WellFormed(f) && b in cfg.content && Bounds(cfg.content[b]).1 <= |f.code|
    ensures ok <==> forall x :: x in conditions ==> BlockKeeps(f, cfg, b, x)
  {
    ok := true;
    for k := 0 to |conditions|
      invariant ok <==> forall x :: x in conditions[..k] ==> BlockKeeps(f, cfg, b, x)
    {
      assert conditions[..k + 1] == conditions[..k] + [conditions[k]];
      var kept := ChangedLoopCondition(f, cfg.content[b], conditions[k], 0);
      assert kept == BlockKeeps(f, cfg, b, conditions[k]);
      ok := ok && kept;
    }
    assert conditions[..|conditions|] == conditions;
  }

  /** Every block of every sub-loop keeps every condition. */
  method AllKeep(f: BytecodeGen.FunctionInfo, cfg: Cfg, subs: seq<NaturalLoop>, conditions: seq<nat>)
    returns (ok: bool)
    requires WellFormed(f) && BodiesOk(f, cfg, subs)
    ensures ok <==> forall j, b, x :: 0 <= j < |subs| && b in subs[j].body && x in conditions ==> BlockKeeps(f, cfg, b, x)
  {
    ok := true;
    for j := 0 to |subs|
      invariant ok <==> forall j', b, x :: 0 <= j' < j && b in subs[j'].body && x in conditions ==> BlockKeeps(f, cfg, b, x)
    {
      var rest := subs[j].body;
      while rest != {}
        invariant rest <= subs[j].body
        invariant ok <==>
          (forall j', b, x :: 0 <= j' < j && b in subs[j'].body && x in conditions ==> BlockKeeps(f, cfg, b, x)) &&
          (forall b, x :: b in subs[j].body - rest && x in conditions ==> BlockKeeps(f, cfg, b, x))
        decreases rest
      {
        var bid :| bid in rest;
        BodyBlock(f, cfg, subs, j, bid);
        var kept := BlockKeepsAll(f, cfg, bid, conditions);
        ok := ok && kept;
        rest := rest - {bid};
      }
    }
  }

  /** The steps for one fat loop: its blocks, its exit blocks, its
    * conditions, and whether every block keeps every condition. */
  method FatLoopKept(entry: ModuleEntry, idx: nat, h: nat, subs: seq<NaturalLoop>) returns (ok: bool)
    requires Analysable(entry, idx) && h in Grouped(entry.naturalLoops[idx])
    requires subs == Grouped(entry.naturalLoops[idx])[h]
    ensures ok == FatLoopKeeps(entry, idx, h)
  {
    var f := entry.functions[idx];
    var cfg := entry.cfgs[idx];
    var dd := entry.dataDependency[idx];
    GroupsOk(entry, idx, h);
    var unions := Unions(subs);
    BodySuccessors(f, cfg, subs);
    var branchs := Branchs(cfg.successors, unions);
    var conditions := CollectConditions(f, cfg, dd, subs, branchs);
    ok := AllKeep(f, cfg, subs, conditions);
    assert forall x :: x in conditions <==> LoopCondition(f, cfg, dd, subs, x);
  }

  /** The fat loops' sub-loops satisfy what the steps need. */
  lemma GroupsOk(entry: ModuleEntry, idx: nat, h: nat)
    requires Analysable(entry, idx) && h in Grouped(entry.naturalLoops[idx])
    ensures BodiesOk(entry.functions[idx], entry.cfgs[idx], Grouped(entry.naturalLoops[idx])[h])
    ensures BranchesOk(entry.functions[idx], entry.dataDependency[idx])
  {
    var loops := entry.naturalLoops[idx];
    var subs := Grouped(loops)[h];
    GroupedSpec(loops);
    forall j | 0 <= j < |subs| ensures subs[j] in loops {
      assert subs[j] in subs;
    }
    BodiesOkSub(entry.functions[idx], entry.cfgs[idx], loops, subs);
  }

  /** The fat loops of `get_loops`, as far as the detector reads them: one
    * per header, holding that header's natural loops. */
  method FatLoopsOf(entry: ModuleEntry, idx: nat) returns (fatLoops: map<nat, FatLoop>)
    requires Analysable(entry, idx)
    ensures fatLoops.Keys == Grouped(entry.naturalLoops[idx]).Keys
    ensures forall h :: h in fatLoops ==> fatLoops[h].subLoops == Grouped(entry.naturalLoops[idx])[h]
  {
    var f := entry.functions[idx];
    var loops := entry.naturalLoops[idx];
    var natural;
    natural, fatLoops := GetLoops(f.code, f.localTypes, entry.cfgs[idx].content, loops);
    GroupedSpec(loops);
  }

  /** What `detect_infinite_loop` reports: the function has loops, and no
    * fat loop's block changes one of that fat loop's conditions. */
  ghost predicate Flagged(entry: ModuleEntry, idx: nat)
    requires Analysable(entry, idx)
  {
    var loops := entry.naturalLoops[idx];
    Grouped(loops) != map[] && forall h :: h in Grouped(loops) ==> FatLoopKeeps(entry, idx, h)
  }

  /** The fat loop with header `h` keeps its loop conditions. */
  ghost predicate FatLoopKeeps(entry: ModuleEntry, idx: nat, h: nat)
    requires Analysable(entry, idx) && h in Grouped(entry.naturalLoops[idx])
  {
    GroupsOk(entry, idx, h);
    GroupKeeps(entry.functions[idx], entry.cfgs[idx], entry.dataDependency[idx], Grouped(entry.naturalLoops[idx])[h])
  }

  /** `detect_infinite_loop`: the name of the definition when the function
    * has loops whose exit conditions none of their blocks changes. */
  method DetectInfiniteLoop(entry: ModuleEntry, idx: nat) returns (r: Option<string>)
    requires Analysable(entry, idx)
    ensures r.Some? <==> Flagged(entry, idx)
    ensures r.Some? ==> r.value == FunctionName(entry, idx)
  {
    var fatLoops := FatLoopsOf(entry, idx);
    var retFlag := fatLoops != map[];
    var rest := fatLoops.Keys;
    while rest != {}
      invariant rest <= fatLoops.Keys
      invariant retFlag <==> fatLoops != map[] && forall h :: h in fatLoops.Keys - rest ==> FatLoopKeeps(entry, idx, h)
      decreases rest
    {
      var h :| h in rest;
      var ok := FatLoopKept(entry, idx, h, fatLoops[h].subLoops);
      retFlag := retFlag && ok;
      rest := rest - {h};
    }
    r := if retFlag then Some(FunctionName(entry, idx)) else None;
  }

  /** A function without loops is never reported. */
  lemma NoLoopsNotFlagged(entry: ModuleEntry, idx: nat)
    requires Analysable(entry, idx) && entry.naturalLoops[idx] == []
    ensures !Flagged(entry, idx)
  {
    GroupedSpec(entry.naturalLoops[idx]);
  }
}
