/** The translation of a whole function (`generate_function` and
  * `build_call_graph` in `src/move_ir/generate_bytecode.rs`): the label
  * map, the translation of the instructions in order, the elimination of
  * fall-through into labels, the def/use tables and the call graph. */
module FunctionGen {
  import opened Stackless
  import opened Wrappers
  import MoveUtils
  import opened BytecodeGen

  // ---------------------------------------------------------------------
  // Labels

  /** The label map and the labels created for fall-through offsets. */
  datatype Labelling = Labelling(labels: map<nat, nat>, fallthrough: set<nat>)

  /** The offset a branch instruction targets. */
  function BranchTarget(instr: MoveInstr): Option<nat>
  {
    match instr
    case BranchI(t) => Some(t)
    case Ctrl(c) => if c.BrTrueI? || c.BrFalseI? then Some(c.target) else None
    case _ => None
  }

  predicate Conditional(instr: MoveInstr)
  {
    instr.Ctrl? && (instr.ctrl.BrTrueI? || instr.ctrl.BrFalseI?)
  }

  /** The map with a label for `o`: the existing one, or the next number. */
  function WithLabel(m: map<nat, nat>, o: nat): map<nat, nat>
  {
    if o in m then m else m[o := |m|]
  }

  /** What the labelling reads of an instruction: its branch target and
    * whether it is a conditional branch. */
  datatype Site = Site(target: Option<nat>, conditional: bool)

  function SiteOf(instr: MoveInstr): (r: Site)
    ensures r.conditional ==> r.target.Some?
  {
    Site(BranchTarget(instr), Conditional(instr))
  }

  function Sites(code: seq<MoveInstr>): (r: seq<Site>)
    ensures |r| == |code| && forall i :: 0 <= i < |code| ==> r[i] == SiteOf(code[i])
  {
    seq(|code|, i requires 0 <= i < |code| => SiteOf(code[i]))
  }

  /** The labels after the instruction at `pos`: its target first, then
    * the offset after a conditional branch, recorded as fall-through when
    * its label is created there. */
  function LabelStep(l: Labelling, pos: nat, s: Site): Labelling
  {
    var m := if s.target.Some? then WithLabel(l.labels, s.target.value) else l.labels;
    if s.conditional && pos + 1 !in m then Labelling(m[pos + 1 := |m|], l.fallthrough + {|m|})
    else Labelling(m, l.fallthrough)
  }

  /** The labels after the first `k` instructions. */
  function LabelsUpTo(sites: seq<Site>, k: nat): Labelling
    requires k <= |sites|
  {
    if k == 0 then Labelling(map[], {}) else LabelStep(LabelsUpTo(sites, k - 1), k - 1, sites[k - 1])
  }

  /** The offsets in the order their labels were created. */
  function OrderStep(l: Labelling, order: seq<nat>, pos: nat, s: Site): seq<nat>
  {
    var m := if s.target.Some? then WithLabel(l.labels, s.target.value) else l.labels;
    var order' := if s.target.Some? && s.target.value !in l.labels then order + [s.target.value] else order;
    if s.conditional && pos + 1 !in m then order' + [pos + 1] else order'
  }

  ghost function OrderUpTo(sites: seq<Site>, k: nat): seq<nat>
    requires k <= |sites|
  {
    if k == 0 then [] else OrderStep(LabelsUpTo(sites, k - 1), OrderUpTo(sites, k - 1), k - 1, sites[k - 1])
  }

  /** `m` numbers the offsets of `order` by their position in it. */
  ghost predicate NumberedBy(m: map<nat, nat>, order: seq<nat>)
  {
    && |order| == |m|
    && (forall i :: 0 <= i < |order| ==> order[i] in m && m[order[i]] == i)
    && (forall o :: o in m ==> m[o] < |order| && order[m[o]] == o)
  }

  /** Labels are 0, 1, 2, ... in order of creation; fall-through labels are
    * among them. */
  ghost predicate Numbered(l: Labelling, order: seq<nat>)
  {
    NumberedBy(l.labels, order) && forall x :: x in l.fallthrough ==> x < |l.labels|
  }

  lemma WithLabelNumbered(m: map<nat, nat>, order: seq<nat>, o: nat)
    requires NumberedBy(m, order) && o !in m
    ensures NumberedBy(m[o := |m|], order + [o])
  {
    var m' := m[o := |m|];
    var order' := order + [o];
    assert m'.Keys == m.Keys + {o};
    assert |m'| == |m| + 1;
    forall i | 0 <= i < |order'|
      ensures order'[i] in m' && m'[order'[i]] == i
    {
      if i < |order| {
        assert order'[i] == order[i];
      }
    }
  }

  lemma LabelStepNumbered(l: Labelling, order: seq<nat>, pos: nat, s: Site)
    requires Numbered(l, order)
    ensures Numbered(LabelStep(l, pos, s), OrderStep(l, order, pos, s))
  {
    var m := if s.target.Some? then WithLabel(l.labels, s.target.value) else l.labels;
    var order' := if s.target.Some? && s.target.value !in l.labels then order + [s.target.value] else order;
    if s.target.Some? && s.target.value !in l.labels {
      WithLabelNumbered(l.labels, order, s.target.value);
    }
    assert NumberedBy(m, order');
    assert |m| >= |l.labels|;
    if s.conditional && pos + 1 !in m {
      WithLabelNumbered(m, order', pos + 1);
      assert LabelStep(l, pos, s) == Labelling(m[pos + 1 := |m|], l.fallthrough + {|m|});
      assert OrderStep(l, order, pos, s) == order' + [pos + 1];
    } else {
      assert LabelStep(l, pos, s) == Labelling(m, l.fallthrough);
      assert OrderStep(l, order, pos, s) == order';
    }
  }

  lemma LabelsUpToNumbered(sites: seq<Site>, k: nat)
    requires 0 < k <= |sites| && Numbered(LabelsUpTo(sites, k - 1), OrderUpTo(sites, k - 1))
    ensures Numbered(LabelsUpTo(sites, k), OrderUpTo(sites, k))
  {
    LabelStepNumbered(LabelsUpTo(sites, k - 1), OrderUpTo(sites, k - 1), k - 1, sites[k - 1]);
  }

  /** The labels are the positions of the offsets in creation order. */
  lemma {:induction false} LabelsNumbered(sites: seq<Site>, k: nat)
    requires k <= |sites|
    ensures Numbered(LabelsUpTo(sites, k), OrderUpTo(sites, k))
  {
    if k > 0 {
      LabelsNumbered(sites, k - 1);
      LabelsUpToNumbered(sites, k);
    }
  }

  /** One label per distinct offset, each below the number of labels. */
  lemma LabelsDistinct(sites: seq<Site>, k: nat)
    requires k <= |sites|
    ensures forall o :: o in LabelsUpTo(sites, k).labels ==> LabelsUpTo(sites, k).labels[o] < |LabelsUpTo(sites, k).labels|
    ensures forall o, o' :: o in LabelsUpTo(sites, k).labels && o' in LabelsUpTo(sites, k).labels && o != o' ==>
      LabelsUpTo(sites, k).labels[o] != LabelsUpTo(sites, k).labels[o']
    ensures forall x :: x in LabelsUpTo(sites, k).fallthrough ==> x < |LabelsUpTo(sites, k).labels|
  {
    LabelsNumbered(sites, k);
    var m := LabelsUpTo(sites, k).labels;
    var order := OrderUpTo(sites, k);
    forall o, o' | o in m && o' in m && o != o'
      ensures m[o] != m[o']
    {
      assert order[m[o]] == o && order[m[o']] == o';
    }
  }

  /** The offsets a site needs labelled: its target and, after a
    * conditional branch, the next offset. */
  predicate LabelledBy(s: Site, pos: nat, o: nat)
  {
    s.target == Some(o) || (s.conditional && o == pos + 1)
  }

  function SiteOffsets(s: Site, pos: nat): set<nat>
  {
    (if s.target.Some? then {s.target.value} else {}) + (if s.conditional then {pos + 1} else {})
  }

  lemma LabelStepKeys(l: Labelling, pos: nat, s: Site)
    ensures LabelStep(l, pos, s).labels.Keys == l.labels.Keys + SiteOffsets(s, pos)
  {
  }

  /** The offsets needing a label among the first `k` instructions. */
  ghost function Needed(sites: seq<Site>, k: nat): set<nat>
    requires k <= |sites|
  {
    if k == 0 then {} else Needed(sites, k - 1) + SiteOffsets(sites[k - 1], k - 1)
  }

  lemma {:induction false} LabelsKeys(sites: seq<Site>, k: nat)
    requires k <= |sites|
    ensures LabelsUpTo(sites, k).labels.Keys == Needed(sites, k)
  {
    if k > 0 {
      LabelsKeys(sites, k - 1);
      LabelStepKeys(LabelsUpTo(sites, k - 1), k - 1, sites[k - 1]);
    }
  }

  lemma {:induction false} NeededSpec(sites: seq<Site>, k: nat)
    requires k <= |sites|
    ensures forall o :: o in Needed(sites, k) <==> exists pos :: 0 <= pos < k && LabelledBy(sites[pos], pos, o)
  {
    if k > 0 {
      NeededSpec(sites, k - 1);
      forall o | o in Needed(sites, k) && o !in Needed(sites, k - 1)
        ensures LabelledBy(sites[k - 1], k - 1, o)
      {
      }
    }
  }

  /** An offset has a label exactly when one of the first `k` instructions
    * needs it: a branch target, or the offset after a conditional branch. */
  lemma LabelsCover(sites: seq<Site>, k: nat)
    requires k <= |sites|
    ensures forall o :: o in LabelsUpTo(sites, k).labels <==> exists pos :: 0 <= pos < k && LabelledBy(sites[pos], pos, o)
  {
    LabelsKeys(sites, k);
    NeededSpec(sites, k);
  }

  /** A label, once given, never changes. */
  lemma {:induction false} LabelsStable(sites: seq<Site>, j: nat, k: nat)
    requires j <= k <= |sites|
    ensures forall o :: o in LabelsUpTo(sites, j).labels ==>
      o in LabelsUpTo(sites, k).labels && LabelsUpTo(sites, k).labels[o] == LabelsUpTo(sites, j).labels[o]
    ensures LabelsUpTo(sites, j).fallthrough <= LabelsUpTo(sites, k).fallthrough
  {
    if j < k {
      LabelsStable(sites, j, k - 1);
    }
  }

  /** The conditional branch at `p` creates the label of `p + 1`: that
    * offset is not its own target and no earlier instruction needs it
    * labelled. */
  predicate CreatesFallthrough(sites: seq<Site>, p: nat)
    requires p < |sites|
  {
    sites[p].conditional && sites[p].target != Some(p + 1)
    && forall q :: 0 <= q < p ==> !LabelledBy(sites[q], q, p + 1)
  }

  /** `l` labels exactly the offsets the first `k` instructions need. */
  ghost predicate CoversUpTo(sites: seq<Site>, k: nat, l: Labelling)
    requires k <= |sites|
  {
    forall o :: o in l.labels <==> exists q :: 0 <= q < k && LabelledBy(sites[q], q, o)
  }

  /** The fall-through labels of `l` are those created by the first `k`
    * instructions. */
  ghost predicate FallthroughUpTo(sites: seq<Site>, k: nat, l: Labelling)
    requires k <= |sites|
  {
    forall x :: x in l.fallthrough <==>
      exists p :: 0 <= p < k && CreatesFallthrough(sites, p) && p + 1 in l.labels && l.labels[p + 1] == x
  }

  /** One step keeps the old labels and records the offset after the
    * branch as fall-through exactly when it creates that label. */
  lemma LabelStepFallthrough(l: Labelling, pos: nat, s: Site)
    ensures forall o :: o in l.labels ==> (o in LabelStep(l, pos, s).labels && LabelStep(l, pos, s).labels[o] == l.labels[o])
    ensures var created := s.conditional && s.target != Some(pos + 1) && pos + 1 !in l.labels;
      && (created ==> pos + 1 in LabelStep(l, pos, s).labels)
      && LabelStep(l, pos, s).fallthrough == l.fallthrough + (if created then {LabelStep(l, pos, s).labels[pos + 1]} else {})
  {
  }

  lemma CreatesFallthroughLocal(sites: seq<Site>, k: nat, l0: Labelling)
    requires 0 < k <= |sites| && CoversUpTo(sites, k - 1, l0)
    ensures CreatesFallthrough(sites, k - 1) == (sites[k - 1].conditional && sites[k - 1].target != Some(k) && k !in l0.labels)
  {
    if k !in l0.labels {
      forall q | 0 <= q < k - 1
        ensures !LabelledBy(sites[q], q, k)
      {
      }
    }
  }

  lemma LabelStepFacts(sites: seq<Site>, k: nat, l0: Labelling)
    requires 0 < k <= |sites| && CoversUpTo(sites, k - 1, l0)
    ensures forall o :: o in l0.labels ==> (o in LabelStep(l0, k - 1, sites[k - 1]).labels &&
      LabelStep(l0, k - 1, sites[k - 1]).labels[o] == l0.labels[o])
    ensures LabelStep(l0, k - 1, sites[k - 1]).fallthrough == l0.fallthrough +
      (if CreatesFallthrough(sites, k - 1) then {LabelStep(l0, k - 1, sites[k - 1]).labels[k]} else {})
    ensures CreatesFallthrough(sites, k - 1) ==> k in LabelStep(l0, k - 1, sites[k - 1]).labels && k !in l0.labels
  {
    LabelStepFallthrough(l0, k - 1, sites[k - 1]);
    CreatesFallthroughLocal(sites, k, l0);
  }

  lemma FallthroughStepAt(sites: seq<Site>, k: nat, l0: Labelling, x: nat)
    requires 0 < k <= |sites|
    requires CoversUpTo(sites, k - 1, l0) && FallthroughUpTo(sites, k - 1, l0)
    ensures x in LabelStep(l0, k - 1, sites[k - 1]).fallthrough <==>
      exists p :: 0 <= p < k && CreatesFallthrough(sites, p) &&
        p + 1 in LabelStep(l0, k - 1, sites[k - 1]).labels && LabelStep(l0, k - 1, sites[k - 1]).labels[p + 1] == x
  {
    var l := LabelStep(l0, k - 1, sites[k - 1]);
    LabelStepFacts(sites, k, l0);
    if x in l0.fallthrough {
      var p :| 0 <= p < k - 1 && CreatesFallthrough(sites, p) && p + 1 in l0.labels && l0.labels[p + 1] == x;
      assert 0 <= p < k && CreatesFallthrough(sites, p) && p + 1 in l.labels && l.labels[p + 1] == x;
    } else if x in l.fallthrough {
      assert CreatesFallthrough(sites, k - 1) && k in l.labels && l.labels[k] == x;
    }
    if exists p :: 0 <= p < k && CreatesFallthrough(sites, p) && p + 1 in l.labels && l.labels[p + 1] == x {
      var p :| 0 <= p < k && CreatesFallthrough(sites, p) && p + 1 in l.labels && l.labels[p + 1] == x;
      if p < k - 1 {
        assert LabelledBy(sites[p], p, p + 1);
        assert p + 1 in l0.labels && l0.labels[p + 1] == x;
      }
    }
  }

  lemma FallthroughStep(sites: seq<Site>, k: nat, l0: Labelling)
    requires 0 < k <= |sites|
    requires CoversUpTo(sites, k - 1, l0) && FallthroughUpTo(sites, k - 1, l0)
    ensures FallthroughUpTo(sites, k, LabelStep(l0, k - 1, sites[k - 1]))
  {
    var l := LabelStep(l0, k - 1, sites[k - 1]);
    forall x
      ensures x in l.fallthrough <==> exists p :: 0 <= p < k && CreatesFallthrough(sites, p) && p + 1 in l.labels && l.labels[p + 1] == x
    {
      FallthroughStepAt(sites, k, l0, x);
    }
  }

  lemma {:induction false} FallthroughsUpTo(sites: seq<Site>, k: nat)
    requires k <= |sites|
    ensures FallthroughUpTo(sites, k, LabelsUpTo(sites, k))
  {
    if k > 0 {
      FallthroughsUpTo(sites, k - 1);
      LabelsCover(sites, k - 1);
      FallthroughStep(sites, k, LabelsUpTo(sites, k - 1));
    }
  }

  /** Only labels first created for the offset after a conditional branch
    * are fall-through labels, and every such label is one. */
  lemma FallthroughCreated(sites: seq<Site>, k: nat)
    requires k <= |sites|
    ensures forall x :: x in LabelsUpTo(sites, k).fallthrough <==>
      exists p :: 0 <= p < k && CreatesFallthrough(sites, p) && p + 1 in LabelsUpTo(sites, k).labels && LabelsUpTo(sites, k).labels[p + 1] == x
  {
    FallthroughsUpTo(sites, k);
  }

  /** The label loop of `generate_function`. */
  method BuildLabels(code: seq<MoveInstr>) returns (labels: map<nat, nat>, fallthrough: set<nat>)
    ensures Labelling(labels, fallthrough) == LabelsUpTo(Sites(code), |code|)
  {
    labels, fallthrough := map[], {};
    var pos := 0;
    while pos < |code|
      invariant pos <= |code|
      invariant Labelling(labels, fallthrough) == LabelsUpTo(Sites(code), pos)
    {
      var instr := code[pos];
      var target := BranchTarget(instr);
      if target.Some? && target.value !in labels {
        labels := labels[target.value := |labels|];
      }
      if Conditional(instr) && pos + 1 !in labels {
        fallthrough := fallthrough + {|labels|};
        labels := labels[pos + 1 := |labels|];
      }
      pos := pos + 1;
    }
  }

  /** The label map and fall-through labels of a function's code. */
  function Labels(code: seq<MoveInstr>): Labelling
  {
    LabelsUpTo(Sites(code), |code|)
  }

  // ---------------------------------------------------------------------
  // Translating the instructions in order

  /** Every instruction from offset `k` on can be translated in turn (the
    * source panics on a missing operand or label otherwise). */
  ghost predicate Translatable(ctx: Context, g: GenState, code: seq<MoveInstr>, labels: map<nat, nat>, k: nat)
    decreases |code| - k
  {
    k <= |code|
    && (k < |code| ==>
          CanStep(ctx, g, code[k], k, labels)
          && Translatable(ctx, Step(ctx, g, code[k], k, labels), code, labels, k + 1))
  }

  /** The state after translating the instructions from offset `k` on. */
  ghost function Run(ctx: Context, g: GenState, code: seq<MoveInstr>, labels: map<nat, nat>, k: nat): GenState
    requires Translatable(ctx, g, code, labels, k)
    decreases |code| - k
  {
    if k == |code| then g else Run(ctx, Step(ctx, g, code[k], k, labels), code, labels, k + 1)
  }

  /** Translation keeps every temporary on the stack allocated. */
  lemma {:induction false} RunKeepsStackAllocated(ctx: Context, g: GenState, code: seq<MoveInstr>, labels: map<nat, nat>, k: nat)
    requires Translatable(ctx, g, code, labels, k) && StackAllocated(g)
    ensures StackAllocated(Run(ctx, g, code, labels, k))
    decreases |code| - k
  {
    if k < |code| {
      StepKeepsStackAllocated(ctx, g, code[k], k, labels);
      RunKeepsStackAllocated(ctx, Step(ctx, g, code[k], k, labels), code, labels, k + 1);
    }
  }

  /** No instruction reads through a temporary not typed as a reference. */
  ghost predicate ReadsTyped(ctx: Context, g: GenState, code: seq<MoveInstr>, labels: map<nat, nat>, k: nat)
    requires Translatable(ctx, g, code, labels, k)
    decreases |code| - k
  {
    k < |code| ==>
      !ReadRefUntyped(ctx, g, code[k]) && ReadsTyped(ctx, Step(ctx, g, code[k], k, labels), code, labels, k + 1)
  }

  /** When every read is typed, the local types cover exactly the
    * allocated temporaries after translation. */
  lemma {:induction false} RunKeepsTyped(ctx: Context, g: GenState, code: seq<MoveInstr>, labels: map<nat, nat>, k: nat)
    requires Translatable(ctx, g, code, labels, k) && Typed(g) && ReadsTyped(ctx, g, code, labels, k)
    ensures Typed(Run(ctx, g, code, labels, k))
    decreases |code| - k
  {
    if k < |code| {
      StepKeepsTyped(ctx, g, code[k], k, labels);
      RunKeepsTyped(ctx, Step(ctx, g, code[k], k, labels), code, labels, k + 1);
    }
  }

  /** Translation never changes the recorded fall-through labels. */
  lemma {:induction false} RunKeepsFallthrough(ctx: Context, g: GenState, code: seq<MoveInstr>, labels: map<nat, nat>, k: nat)
    requires Translatable(ctx, g, code, labels, k)
    ensures Run(ctx, g, code, labels, k).fn.fallthroughLabels == g.fn.fallthroughLabels
    ensures Run(ctx, g, code, labels, k).fn.argsCount == g.fn.argsCount
    ensures Run(ctx, g, code, labels, k).fn.idx == g.fn.idx && Run(ctx, g, code, labels, k).fn.name == g.fn.name
    decreases |code| - k
  {
    if k < |code| {
      var g' := Step(ctx, g, code[k], k, labels);
      if !code[k].BranchI? {
        StepSpec(ctx, g, code[k], k, labels);
      }
      assert g'.fn.fallthroughLabels == g.fn.fallthroughLabels && g'.fn.argsCount == g.fn.argsCount;
      assert g'.fn.idx == g.fn.idx && g'.fn.name == g.fn.name;
      RunKeepsFallthrough(ctx, g', code, labels, k + 1);
    }
  }

  // ---------------------------------------------------------------------
  // Fall-through elimination

  /** A label not at the start, after an instruction that does not branch,
    * gets an explicit jump to itself. */
  predicate NeedsJump(code: seq<Bytecode>, i: nat)
    requires i < |code|
  {
    0 < i && code[i].Label? && !IsBranch(code[i - 1])
  }

  /** What the elimination emits for the instruction at `i`. */
  function Piece(code: seq<Bytecode>, i: nat): seq<Bytecode>
    requires i < |code|
  {
    if NeedsJump(code, i) then [Jump(code[i].labAttr, code[i].lab), code[i]] else [code[i]]
  }

  /** The code after eliminating fall-through into labels among the first
    * `k` instructions. */
  function Eliminated(code: seq<Bytecode>, k: nat): seq<Bytecode>
    requires k <= |code|
  {
    if k == 0 then [] else Eliminated(code, k - 1) + Piece(code, k - 1)
  }

  /** The number of jumps inserted before the `k`-th instruction. */
  function Jumps(code: seq<Bytecode>, k: nat): nat
    requires k <= |code|
  {
    if k == 0 then 0 else Jumps(code, k - 1) + (if NeedsJump(code, k - 1) then 1 else 0)
  }

  /** Where the instruction at `i` ends up. */
  function Position(code: seq<Bytecode>, i: nat): nat
    requires i < |code|
  {
    i + Jumps(code, i + 1)
  }

  /** The original instructions stay in order, every inserted jump sits
    * right before the label it jumps to, and nothing else is added. */
  lemma {:induction false} EliminatedLayout(code: seq<Bytecode>, k: nat)
    requires k <= |code|
    ensures var out := Eliminated(code, k);
      && |out| == k + Jumps(code, k)
      && (forall i :: 0 <= i < k ==> Position(code, i) < |out| && out[Position(code, i)] == code[i])
      && (forall i :: 0 <= i < k && NeedsJump(code, i) ==>
            0 < Position(code, i) && out[Position(code, i) - 1] == Jump(code[i].labAttr, code[i].lab))
      && (forall i :: 0 <= i < k - 1 ==>
            Position(code, i + 1) == Position(code, i) + 1 + (if NeedsJump(code, i + 1) then 1 else 0))
  {
    if k > 0 {
      EliminatedLayout(code, k - 1);
      var prev := Eliminated(code, k - 1);
      var out := Eliminated(code, k);
      assert out == prev + Piece(code, k - 1);
      assert Position(code, k - 1) == |prev| + (if NeedsJump(code, k - 1) then 1 else 0);
      assert out[Position(code, k - 1)] == code[k - 1];
      if k >= 2 {
        PositionStep(code, k - 2);
      }
      forall i | 0 <= i < k - 1
        ensures out[Position(code, i)] == code[i]
        ensures NeedsJump(code, i) ==> out[Position(code, i) - 1] == Jump(code[i].labAttr, code[i].lab)
      {
        assert out[Position(code, i)] == prev[Position(code, i)];
        if NeedsJump(code, i) {
          assert out[Position(code, i) - 1] == prev[Position(code, i) - 1];
        }
      }
    }
  }

  lemma PositionStep(code: seq<Bytecode>, i: nat)
    requires i + 1 < |code|
    ensures Position(code, i + 1) == Position(code, i) + 1 + (if NeedsJump(code, i + 1) then 1 else 0)
  {
  }

  /** After the elimination, every label but a leading one follows an
    * instruction that branches. */
  lemma {:induction false} EliminatedLabelsFollowBranches(code: seq<Bytecode>, k: nat)
    requires k <= |code|
    ensures var out := Eliminated(code, k);
      && (k > 0 ==> |out| > 0 && out[|out| - 1] == code[k - 1])
      && (forall j :: 0 < j < |out| && out[j].Label? ==> IsBranch(out[j - 1]))
  {
    if k > 0 {
      EliminatedLabelsFollowBranches(code, k - 1);
      var prev := Eliminated(code, k - 1);
      var out := Eliminated(code, k);
      assert out == prev + Piece(code, k - 1);
      forall j | 0 < j < |out| && out[j].Label?
        ensures IsBranch(out[j - 1])
      {
        if j < |prev| {
          assert out[j] == prev[j] && out[j - 1] == prev[j - 1];
        } else if NeedsJump(code, k - 1) {
          assert out[|prev|] == Jump(code[k - 1].labAttr, code[k - 1].lab);
          assert out[j - 1] == Jump(code[k - 1].labAttr, code[k - 1].lab);
        } else {
          assert j == |prev| && out[j] == code[k - 1] && out[j - 1] == prev[|prev| - 1];
        }
      }
    }
  }

  // ---------------------------------------------------------------------
  // Definition and use tables

  /** The temporaries the def table (`defs`) or the use table records for
    * an instruction. */
  function Recorded(b: Bytecode, defs: bool): seq<nat>
  {
    if defs then Defs(b) else Uses(b)
  }

  /** The table after recording offset `off` once for each occurrence of a
    * temporary in `ts`. */
  function RecordAll(table: seq<seq<nat>>, ts: seq<nat>, off: nat): (r: seq<seq<nat>>)
    ensures |r| == |table|
  {
    seq(|table|, t requires 0 <= t < |table| => table[t] + seq(multiset(ts)[t], _ => off))
  }

  ghost predicate InTable(code: seq<Bytecode>, n: nat, defs: bool)
  {
    forall i, t :: 0 <= i < |code| && t in Recorded(code[i], defs) ==> t < n
  }

  /** The table after the first `k` instructions. */
  function Table(code: seq<Bytecode>, n: nat, defs: bool, k: nat): (r: seq<seq<nat>>)
    requires k <= |code|
    ensures |r| == n
  {
    if k == 0 then seq(n, _ => []) else RecordAll(Table(code, n, defs, k - 1), Recorded(code[k - 1], defs), k - 1)
  }

  /** The row of temporary `t` in the table after `k` instructions. */
  function Row(code: seq<Bytecode>, n: nat, defs: bool, k: nat, t: nat): seq<nat>
    requires k <= |code| && t < n
  {
    Table(code, n, defs, k)[t]
  }

  lemma RowStep(code: seq<Bytecode>, n: nat, defs: bool, k: nat, t: nat)
    requires 0 < k <= |code| && t < n
    ensures Row(code, n, defs, k, t) == Row(code, n, defs, k - 1, t) + seq(multiset(Recorded(code[k - 1], defs))[t], _ => k - 1)
  {
  }

  /** The row of `t` lists offsets below `k` in ascending order. */
  lemma {:induction false} TableRowsSorted(code: seq<Bytecode>, n: nat, defs: bool, k: nat, t: nat)
    requires k <= |code| && t < n
    ensures forall j :: 0 <= j < |Row(code, n, defs, k, t)| ==> Row(code, n, defs, k, t)[j] < k
    ensures forall j, j' :: 0 <= j < j' < |Row(code, n, defs, k, t)| ==> Row(code, n, defs, k, t)[j] <= Row(code, n, defs, k, t)[j']
  {
    if k > 0 {
      TableRowsSorted(code, n, defs, k - 1, t);
      RowStep(code, n, defs, k, t);
      var prev := Row(code, n, defs, k - 1, t);
      var row := Row(code, n, defs, k, t);
      forall j | 0 <= j < |row|
        ensures row[j] < k
      {
        if j < |prev| {
          assert row[j] == prev[j];
        }
      }
      forall j, j' | 0 <= j < j' < |row|
        ensures row[j] <= row[j']
      {
        if j' < |prev| {
          assert row[j] == prev[j] && row[j'] == prev[j'];
        } else if j < |prev| {
          assert row[j] == prev[j];
        }
      }
    }
  }

  lemma RowMemberStep(code: seq<Bytecode>, n: nat, defs: bool, k: nat, t: nat)
    requires 0 < k <= |code| && t < n
    ensures forall i: nat :: i in Row(code, n, defs, k, t) <==>
      i in Row(code, n, defs, k - 1, t) || (i == k - 1 && t in Recorded(code[k - 1], defs))
  {
    var added := seq(multiset(Recorded(code[k - 1], defs))[t], _ => k - 1);
    RowStep(code, n, defs, k, t);
    assert |added| > 0 <==> t in Recorded(code[k - 1], defs);
    if |added| > 0 {
      assert added[0] == k - 1;
    }
  }

  /** The row of `t` holds an offset exactly when its instruction records
    * `t`. */
  lemma {:induction false} TableRowMembers(code: seq<Bytecode>, n: nat, defs: bool, k: nat, t: nat)
    requires k <= |code| && t < n
    ensures forall i: nat :: i in Row(code, n, defs, k, t) <==> i < k && t in Recorded(code[i], defs)
  {
    if k > 0 {
      TableRowMembers(code, n, defs, k - 1, t);
      RowMemberStep(code, n, defs, k, t);
    }
  }

  // ---------------------------------------------------------------------
  // Fall-through labels that a branch also targets

  /** The labels of the offsets some branch of `code` targets. */
  function TargetLabels(code: seq<MoveInstr>, labels: map<nat, nat>): set<nat>
  {
    set i | 0 <= i < |code| && BranchTarget(code[i]).Some? && BranchTarget(code[i]).value in labels
      :: labels[BranchTarget(code[i]).value]
  }

  /** The fall-through labels that the rewrite of `if c goto L1 else L2;
    * L2: goto L3` may delete: those no branch targets. The label loop
    * records every label it creates after a conditional branch, even when
    * a later branch then targets the same offset and reuses the label. */
  function CorrectedFallthrough(code: seq<MoveInstr>): set<nat>
  {
    Labels(code).fallthrough - TargetLabels(code, Labels(code).labels)
  }

  /** The instruction at `p` is the only one whose translation names label
    * `x`: it is the conditional branch falling through to the offset `x`
    * labels, and no branch targets that offset. */
  predicate OnlyReferencedAt(code: seq<MoveInstr>, labels: map<nat, nat>, x: nat, p: nat)
  {
    p < |code| && Conditional(code[p]) && p + 1 in labels && labels[p + 1] == x
    && (forall i :: 0 <= i < |code| && Conditional(code[i]) && i + 1 in labels && labels[i + 1] == x ==> i == p)
    && (forall i :: 0 <= i < |code| && BranchTarget(code[i]).Some? && BranchTarget(code[i]).value in labels ==>
          labels[BranchTarget(code[i]).value] != x)
  }

  /** Every corrected fall-through label is named by its own conditional
    * branch and by no other instruction, so deleting its `Label` leaves
    * no jump without a target. */
  lemma CorrectedFallthroughUnreferenced(code: seq<MoveInstr>, x: nat)
    requires x in CorrectedFallthrough(code)
    ensures exists p :: OnlyReferencedAt(code, Labels(code).labels, x, p)
  {
    var sites := Sites(code);
    var l := Labels(code);
    FallthroughCreated(sites, |code|);
    LabelsDistinct(sites, |code|);
    var p :| 0 <= p < |code| && CreatesFallthrough(sites, p) && p + 1 in l.labels && l.labels[p + 1] == x;
    assert sites[p] == SiteOf(code[p]);
    forall i | 0 <= i < |code| && Conditional(code[i]) && i + 1 in l.labels && l.labels[i + 1] == x
      ensures i == p
    {
    }
    forall i | 0 <= i < |code| && BranchTarget(code[i]).Some? && BranchTarget(code[i]).value in l.labels
      ensures l.labels[BranchTarget(code[i]).value] != x
    {
      assert l.labels[BranchTarget(code[i]).value] in TargetLabels(code, l.labels);
    }
    assert OnlyReferencedAt(code, l.labels, x, p);
  }

  /** `if true goto 3; 2: goto 4; 3: goto 2; 4: return`: offset 2 gets
    * its label as the fall-through of offset 1, and offset 3 branches to
    * it. */
  function ReuseExample(): seq<MoveInstr>
  {
    [Ld(LdTrueI), Ctrl(BrTrueI(3)), BranchI(4), BranchI(2), Ctrl(RetI)]
  }

  function ReuseContext(): Context
  {
    Context([], [], Some([]), 0, Loc(0, 0, 0), 0)
  }

  lemma ReuseExampleLabels()
    ensures Labels(ReuseExample()) == Labelling(map[3 := 0, 2 := 1, 4 := 2], {1})
    ensures 1 in TargetLabels(ReuseExample(), Labels(ReuseExample()).labels)
  {
    var code := ReuseExample();
    var sites := Sites(code);
    assert sites == [Site(None, false), Site(Some(3), true), Site(Some(4), false), Site(Some(2), false), Site(None, false)];
    var l2 := Labelling(map[3 := 0, 2 := 1], {1});
    var l3 := Labelling(map[3 := 0, 2 := 1, 4 := 2], {1});
    assert LabelsUpTo(sites, 1) == Labelling(map[], {});
    assert LabelStep(Labelling(map[], {}), 1, sites[1]) == l2;
    assert LabelsUpTo(sites, 2) == l2;
    assert LabelStep(l2, 2, sites[2]) == l3;
    assert LabelsUpTo(sites, 3) == l3;
    assert LabelsUpTo(sites, 5) == l3;
    assert BranchTarget(code[3]) == Some(2);
  }

  /** The location table after `n` attribute ids. */
  function ReuseTable(n: nat): map<nat, Loc>
    requires n <= 8
  {
    if n == 0 then map[] else ReuseTable(n - 1)[n - 1 := Loc(0, 0, 0)]
  }

  lemma {:induction false} ReuseTableSize(n: nat)
    requires n <= 8
    ensures forall i: nat :: i in ReuseTable(n) <==> i < n
    ensures |ReuseTable(n)| == n
  {
    if n > 0 {
      ReuseTableSize(n - 1);
      assert ReuseTable(n) == ReuseTable(n - 1)[n - 1 := Loc(0, 0, 0)];
      assert n - 1 !in ReuseTable(n - 1);
    }
  }

  /** The state before offset `k` of `ReuseExample`, as written. */
  function ReuseState(k: nat): GenState
    requires k <= 5
  {
    var fn := FunctionInfo(0, "f", 0, [], [], map[], {1}, [], []);
    var load := Load(0, 0, BoolC(true));
    var types := [Primitive(Bool)];
    match k
    case 0 => GenState(0, [], fn)
    case 1 => GenState(1, [0], fn.(code := [load], localTypes := types, locationTable := ReuseTable(1)))
    case 2 => GenState(1, [], fn.(code := [load, Branch(1, 0, 1, 0)], localTypes := types, locationTable := ReuseTable(2)))
    case 3 => GenState(1, [], fn.(code := [load, Branch(1, 0, 2, 0)], localTypes := types, locationTable := ReuseTable(4)))
    case 4 => GenState(1, [], fn.(code := [load, Branch(1, 0, 2, 0), Label(4, 0), Jump(5, 1)], localTypes := types,
                                  locationTable := ReuseTable(6)))
    case 5 => GenState(1, [], fn.(code := [load, Branch(1, 0, 2, 0), Label(4, 0), Jump(5, 1), Label(6, 2), Ret(7, [])],
                                  localTypes := types, locationTable := ReuseTable(8)))
  }

  lemma ReuseStep0()
    ensures CanStep(ReuseContext(), ReuseState(0), ReuseExample()[0], 0, map[3 := 0, 2 := 1, 4 := 2])
    ensures Step(ReuseContext(), ReuseState(0), ReuseExample()[0], 0, map[3 := 0, 2 := 1, 4 := 2]) == ReuseState(1)
  {
    var ctx, g := ReuseContext(), ReuseState(0);
    var labels := map[3 := 0, 2 := 1, 4 := 2];
    assert Prelude(ctx, g, 0, labels) == (g.(fn := g.fn.(locationTable := ReuseTable(1))), 0);
    assert LoadEffect(ctx, g, 0, LdTrueI) == Effect(0, 1, 0, [Primitive(Bool)], [Load(0, 0, BoolC(true))]);
    ReuseTableSize(0);
    ReuseTableSize(1);
  }

  lemma ReuseStep1()
    ensures CanStep(ReuseContext(), ReuseState(1), ReuseExample()[1], 1, map[3 := 0, 2 := 1, 4 := 2])
    ensures Step(ReuseContext(), ReuseState(1), ReuseExample()[1], 1, map[3 := 0, 2 := 1, 4 := 2]) == ReuseState(2)
  {
    var ctx, g := ReuseContext(), ReuseState(1);
    var labels := map[3 := 0, 2 := 1, 4 := 2];
    assert Prelude(ctx, g, 1, labels) == (g.(fn := g.fn.(locationTable := ReuseTable(2))), 1);
    assert ControlEffect(ctx, g, 1, BrTrueI(3), 1, labels) == SinkE(Branch(1, 0, 1, 0));
    ReuseTableSize(1);
    ReuseTableSize(2);
  }

  lemma ReuseStep2()
    ensures CanStep(ReuseContext(), ReuseState(2), ReuseExample()[2], 2, map[3 := 0, 2 := 1, 4 := 2])
    ensures Step(ReuseContext(), ReuseState(2), ReuseExample()[2], 2, map[3 := 0, 2 := 1, 4 := 2]) == ReuseState(3)
  {
    ReuseTableSize(2);
    ReuseTableSize(3);
    ReuseTableSize(4);
  }

  lemma ReuseStep3()
    ensures CanStep(ReuseContext(), ReuseState(3), ReuseExample()[3], 3, map[3 := 0, 2 := 1, 4 := 2])
    ensures Step(ReuseContext(), ReuseState(3), ReuseExample()[3], 3, map[3 := 0, 2 := 1, 4 := 2]) == ReuseState(4)
  {
    ReuseTableSize(4);
    ReuseTableSize(5);
    ReuseTableSize(6);
  }

  lemma ReuseStep4()
    ensures CanStep(ReuseContext(), ReuseState(4), ReuseExample()[4], 4, map[3 := 0, 2 := 1, 4 := 2])
    ensures Step(ReuseContext(), ReuseState(4), ReuseExample()[4], 4, map[3 := 0, 2 := 1, 4 := 2]) == ReuseState(5)
  {
    ReuseTableSize(6);
    ReuseTableSize(7);
    ReuseTableSize(8);
  }

  lemma ReuseStep(k: nat)
    requires k < 5
    ensures CanStep(ReuseContext(), ReuseState(k), ReuseExample()[k], k, map[3 := 0, 2 := 1, 4 := 2])
    ensures Step(ReuseContext(), ReuseState(k), ReuseExample()[k], k, map[3 := 0, 2 := 1, 4 := 2]) == ReuseState(k + 1)
  {
    if k == 0 {
      ReuseStep0();
    } else if k == 1 {
      ReuseStep1();
    } else if k == 2 {
      ReuseStep2();
    } else if k == 3 {
      ReuseStep3();
    } else {
      ReuseStep4();
    }
  }

  /** As written, label 1 is recorded as fall-through although offset 3
    * branches to it; the rewrite at offset 2 then deletes `Label 1` while
    * the jump translated from offset 3 still names it. */
  lemma {:induction false} FallthroughReuseAsWritten(k: nat)
    requires k <= 5
    ensures Labels(ReuseExample()) == Labelling(map[3 := 0, 2 := 1, 4 := 2], {1})
    ensures 1 in TargetLabels(ReuseExample(), Labels(ReuseExample()).labels)
    ensures Translatable(ReuseContext(), ReuseState(k), ReuseExample(), Labels(ReuseExample()).labels, k)
    ensures Run(ReuseContext(), ReuseState(k), ReuseExample(), Labels(ReuseExample()).labels, k).fn.code
         == [Load(0, 0, BoolC(true)), Branch(1, 0, 2, 0), Label(4, 0), Jump(5, 1), Label(6, 2), Ret(7, [])]
    decreases 5 - k
  {
    ReuseExampleLabels();
    if k < 5 {
      ReuseStep(k);
      FallthroughReuseAsWritten(k + 1);
    }
  }

  /** The as-written start state of `ReuseExample` is `ReuseState(0)`. */
  lemma ReuseStart()
    ensures LocalsTyped(ReuseContext())
    ensures InitialStateWith(FunctionDef(ReuseContext(), "f", ReuseExample()), 0, [], Labels(ReuseExample()).fallthrough) == ReuseState(0)
  {
    ReuseExampleLabels();
  }

  // ---------------------------------------------------------------------
  // The translation of one function

  /** A function definition as `generate_function` reads it: what its
    * translation reads of the module, its name and its code (empty for a
    * native function). */
  datatype FunctionDef = FunctionDef(ctx: Context, name: string, code: seq<MoveInstr>)

  /** The number of locals: the locals signature's length, or the number
    * of parameters when there is no locals signature. */
  function LocalCount(ctx: Context): nat
  {
    if ctx.locals.Some? then |ctx.locals.value| else |ctx.params|
  }

  ghost predicate LocalsTyped(ctx: Context)
  {
    forall i :: 0 <= i < LocalCount(ctx) ==> LocalTyped(ctx, i)
  }

  function LocalTypes(ctx: Context): (r: seq<Type>)
    requires LocalsTyped(ctx)
    ensures |r| == LocalCount(ctx) && forall i :: 0 <= i < |r| ==> r[i] == LocalType(ctx, i)
  {
    seq(LocalCount(ctx), i requires 0 <= i < LocalCount(ctx) => LocalType(ctx, i))
  }

  /** The state before the first instruction: one temporary per local,
    * the stack as the previous function left it, and the fall-through
    * labels recorded. */
  function InitialStateWith(def: FunctionDef, idx: nat, stack: seq<nat>, fallthrough: set<nat>): GenState
    requires LocalsTyped(def.ctx)
  {
    var types := LocalTypes(def.ctx);
    var fn := NewFunctionInfo(idx, def.name);
    GenState(|types|, stack, fn.(argsCount := |types|, localTypes := types, fallthroughLabels := fallthrough))
  }

  /** The initial state, with the fall-through labels no branch targets
    * (see `CorrectedFallthrough`). */
  function InitialState(def: FunctionDef, idx: nat, stack: seq<nat>): GenState
    requires LocalsTyped(def.ctx)
  {
    InitialStateWith(def, idx, stack, CorrectedFallthrough(def.code))
  }

  ghost predicate Generates(def: FunctionDef, idx: nat, stack: seq<nat>)
  {
    LocalsTyped(def.ctx) && Translatable(def.ctx, InitialState(def, idx, stack), def.code, Labels(def.code).labels, 0)
  }

  /** The state after translating every instruction of the function. */
  ghost function Generated(def: FunctionDef, idx: nat, stack: seq<nat>): GenState
    requires Generates(def, idx, stack)
  {
    Run(def.ctx, InitialState(def, idx, stack), def.code, Labels(def.code).labels, 0)
  }

  /** The translated code after fall-through elimination. */
  ghost function FinalCode(def: FunctionDef, idx: nat, stack: seq<nat>): seq<Bytecode>
    requires Generates(def, idx, stack)
  {
    var code := Generated(def, idx, stack).fn.code;
    Eliminated(code, |code|)
  }

  /** Every temporary the final code defines or uses has a local type (the
    * tables are indexed by it; the source panics otherwise). */
  ghost predicate Translates(def: FunctionDef, idx: nat, stack: seq<nat>)
  {
    Generates(def, idx, stack)
    && InTable(FinalCode(def, idx, stack), |Generated(def, idx, stack).fn.localTypes|, true)
    && InTable(FinalCode(def, idx, stack), |Generated(def, idx, stack).fn.localTypes|, false)
  }

  /** The `FunctionInfo` `generate_function` records for the function. */
  ghost function Translation(def: FunctionDef, idx: nat, stack: seq<nat>): FunctionInfo
    requires Translates(def, idx, stack)
  {
    var fn := Generated(def, idx, stack).fn;
    var code := FinalCode(def, idx, stack);
    var n := |fn.localTypes|;
    fn.(code := code, defAttrid := Table(code, n, true, |code|), useAttrid := Table(code, n, false, |code|))
  }

  /** What translating one function leaves: the recorded function and the
    * generator's temporary count and stack. */
  datatype Outcome = Outcome(info: FunctionInfo, count: nat, stack: seq<nat>)

  ghost function Translated(def: FunctionDef, idx: nat, stack: seq<nat>): Outcome
    requires Translates(def, idx, stack)
  {
    Outcome(Translation(def, idx, stack), Generated(def, idx, stack).tempCount, Generated(def, idx, stack).tempStack)
  }

  /** The recorded function keeps its index, name and argument count,
    * records the corrected fall-through labels, has a def and a use row
    * per local type, and after elimination every label but a leading one
    * follows an instruction that branches. */
  lemma TranslationShape(def: FunctionDef, idx: nat, stack: seq<nat>)
    requires Translates(def, idx, stack)
    ensures Translation(def, idx, stack).idx == idx && Translation(def, idx, stack).name == def.name
    ensures Translation(def, idx, stack).argsCount == LocalCount(def.ctx)
    ensures Translation(def, idx, stack).fallthroughLabels == CorrectedFallthrough(def.code)
    ensures |Translation(def, idx, stack).defAttrid| == |Translation(def, idx, stack).localTypes|
    ensures |Translation(def, idx, stack).useAttrid| == |Translation(def, idx, stack).localTypes|
    ensures forall j :: 0 < j < |Translation(def, idx, stack).code| && Translation(def, idx, stack).code[j].Label? ==>
      IsBranch(Translation(def, idx, stack).code[j - 1])
  {
    var g0 := InitialState(def, idx, stack);
    RunKeepsFallthrough(def.ctx, g0, def.code, Labels(def.code).labels, 0);
    var code := Generated(def, idx, stack).fn.code;
    EliminatedLabelsFollowBranches(code, |code|);
  }

  /** The def (use) row of each local holds exactly the offsets of the
    * recorded code whose instruction defines (uses) it. */
  lemma TranslationTables(def: FunctionDef, idx: nat, stack: seq<nat>, t: nat, i: nat)
    requires Translates(def, idx, stack) && t < |Translation(def, idx, stack).localTypes|
    ensures i in Translation(def, idx, stack).defAttrid[t] <==>
      i < |Translation(def, idx, stack).code| && t in Defs(Translation(def, idx, stack).code[i])
    ensures i in Translation(def, idx, stack).useAttrid[t] <==>
      i < |Translation(def, idx, stack).code| && t in Uses(Translation(def, idx, stack).code[i])
  {
    var code := FinalCode(def, idx, stack);
    var n := |Generated(def, idx, stack).fn.localTypes|;
    TableRowMembers(code, n, true, |code|, t);
    TableRowMembers(code, n, false, |code|, t);
    assert Translation(def, idx, stack).defAttrid[t] == Row(code, n, true, |code|, t);
    assert Translation(def, idx, stack).useAttrid[t] == Row(code, n, false, |code|, t);
  }

  /** The stack the `i`-th function starts from: the stack is never reset,
    * so it is the one the function before it left. */
  function StackBefore(stack: seq<nat>, outs: seq<Outcome>, i: nat): seq<nat>
    requires i <= |outs|
  {
    if i == 0 then stack else outs[i - 1].stack
  }

  /** The recorded functions of the first `k` outcomes. */
  function Infos(outs: seq<Outcome>, k: nat): (r: seq<FunctionInfo>)
    requires k <= |outs|
    ensures |r| == k && forall j :: 0 <= j < k ==> r[j] == outs[j].info
  {
    seq(k, j requires 0 <= j < k => outs[j].info)
  }

  lemma InfosSnoc(prefix: seq<FunctionInfo>, outs: seq<Outcome>, i: nat)
    requires i < |outs|
    ensures prefix + Infos(outs, i + 1) == (prefix + Infos(outs, i)) + [outs[i].info]
  {
    assert Infos(outs, i + 1) == Infos(outs, i) + [outs[i].info];
  }

  /** `outs[i]` is what translating the `i`-th function leaves, each
    * function starting from what the one before it left. */
  ghost predicate Chained(defs: seq<FunctionDef>, stack: seq<nat>, outs: seq<Outcome>)
  {
    |outs| == |defs|
    && forall i :: 0 <= i < |defs| ==>
         Translates(defs[i], i, StackBefore(stack, outs, i)) && outs[i] == Translated(defs[i], i, StackBefore(stack, outs, i))
  }

  /** The fall-through elimination loop of `generate_function`. */
  method EliminateFallthrough(code: seq<Bytecode>) returns (out: seq<Bytecode>)
    ensures out == Eliminated(code, |code|)
  {
    out := [];
    for i := 0 to |code|
      invariant out == Eliminated(code, i)
      invariant i > 0 ==> |out| > 0 && out[|out| - 1] == code[i - 1]
    {
      if code[i].Label? && |out| > 0 && !IsBranch(out[|out| - 1]) {
        out := out + [Jump(code[i].labAttr, code[i].lab)];
      }
      out := out + [code[i]];
    }
  }

  /** Records `off` in the row of each temporary of `ts`, once per
    * occurrence. */
  method Record(table: seq<seq<nat>>, ts: seq<nat>, off: nat) returns (r: seq<seq<nat>>)
    requires forall j :: 0 <= j < |ts| ==> ts[j] < |table|
    ensures r == RecordAll(table, ts, off)
  {
    r := table;
    RecordNone(table, ts[..0], off);
    for j := 0 to |ts|
      invariant r == RecordAll(table, ts[..j], off)
    {
      assert ts[..j + 1] == ts[..j] + [ts[j]];
      RecordSnoc(table, ts[..j], ts[j], off);
      r := r[ts[j] := r[ts[j]] + [off]];
    }
    assert ts[..|ts|] == ts;
  }

  lemma RecordNone(table: seq<seq<nat>>, ts: seq<nat>, off: nat)
    requires ts == []
    ensures RecordAll(table, ts, off) == table
  {
    var r := RecordAll(table, ts, off);
    forall t | 0 <= t < |table|
      ensures r[t] == table[t]
    {
      assert seq(multiset(ts)[t], _ => off) == [];
    }
  }

  /** Recording one more occurrence appends one offset to one row. */
  lemma RecordSnoc(table: seq<seq<nat>>, ts: seq<nat>, x: nat, off: nat)
    requires x < |table|
    ensures RecordAll(table, ts + [x], off) == RecordAll(table, ts, off)[x := RecordAll(table, ts, off)[x] + [off]]
  {
    var a, b := RecordAll(table, ts + [x], off), RecordAll(table, ts, off);
    assert multiset(ts + [x]) == multiset(ts) + multiset{x};
    forall t | 0 <= t < |table|
      ensures a[t] == b[x := b[x] + [off]][t]
    {
      if t == x {
        assert a[t] == table[t] + seq(multiset(ts)[t] + 1, _ => off);
      }
    }
  }

  lemma InTableAt(code: seq<Bytecode>, n: nat, defs: bool, i: nat)
    requires InTable(code, n, defs) && i < |code|
    ensures forall j :: 0 <= j < |Recorded(code[i], defs)| ==> Recorded(code[i], defs)[j] < n
  {
    var ts := Recorded(code[i], defs);
    forall j | 0 <= j < |ts|
      ensures ts[j] < n
    {
      assert ts[j] in ts;
    }
  }

  /** The def/use loop of `generate_function`. */
  method BuildTables(code: seq<Bytecode>, n: nat) returns (defTable: seq<seq<nat>>, useTable: seq<seq<nat>>)
    requires InTable(code, n, true) && InTable(code, n, false)
    ensures defTable == Table(code, n, true, |code|) && useTable == Table(code, n, false, |code|)
  {
    defTable, useTable := seq(n, _ => []), seq(n, _ => []);
    for offset := 0 to |code|
      invariant defTable == Table(code, n, true, offset) && useTable == Table(code, n, false, offset)
    {
      InTableAt(code, n, true, offset);
      InTableAt(code, n, false, offset);
      defTable := Record(defTable, Recorded(code[offset], true), offset);
      useTable := Record(useTable, Recorded(code[offset], false), offset);
    }
  }

  // ---------------------------------------------------------------------
  // The call graph

  /** The functions `code` calls, as qualified ids. */
  function Callees(code: seq<Bytecode>): set<Qid>
  {
    set i | 0 <= i < |code| && code[i].Call? && code[i].op.Function? :: Qid(code[i].op.mid, code[i].op.fid)
  }

  /** The node of each qualified id after adding the first `k` handles; a
    * later handle with the same id takes the entry over. */
  function NodeMap(handles: seq<Qid>, k: nat): map<Qid, nat>
    requires k <= |handles|
  {
    if k == 0 then map[] else NodeMap(handles, k - 1)[handles[k - 1] := k - 1]
  }

  /** Every handle's id has a node, that node carries the id, and no other
    * id has one. */
  lemma {:induction false} NodeMapSpec(handles: seq<Qid>, k: nat)
    requires k <= |handles|
    ensures forall q :: q in NodeMap(handles, k) <==> q in handles[..k]
    ensures forall q :: q in NodeMap(handles, k) ==> NodeMap(handles, k)[q] < k && handles[NodeMap(handles, k)[q]] == q
  {
    if k > 0 {
      NodeMapSpec(handles, k - 1);
      assert handles[..k] == handles[..k - 1] + [handles[k - 1]];
    }
  }

  /** The edges from node `src` to the nodes of the callees that have one. */
  function EdgesFrom(nodes: map<Qid, nat>, src: nat, callees: set<Qid>): set<(nat, nat)>
  {
    set c | c in callees && c in nodes :: (src, nodes[c])
  }

  /** The edges from the functions whose definition indexes are in `done`. */
  function CallEdges(nodes: map<Qid, nat>, selfModule: nat, ids: map<nat, string>, functions: seq<FunctionInfo>, done: set<nat>): set<(nat, nat)>
    requires forall idx :: idx in ids ==> idx < |functions| && Qid(selfModule, ids[idx]) in nodes
  {
    set idx, c | idx in done && idx in ids && c in Callees(functions[idx].code) && c in nodes
      :: (nodes[Qid(selfModule, ids[idx])], nodes[c])
  }

  /** An edge joins the nodes of a defined function and of a function its
    * code calls, in both directions of the equivalence. */
  lemma CallEdgesSpec(nodes: map<Qid, nat>, selfModule: nat, ids: map<nat, string>, functions: seq<FunctionInfo>, a: nat, b: nat)
    requires forall idx :: idx in ids ==> idx < |functions| && Qid(selfModule, ids[idx]) in nodes
    ensures (a, b) in CallEdges(nodes, selfModule, ids, functions, ids.Keys) <==>
      exists idx, c :: idx in ids && c in Callees(functions[idx].code) && c in nodes
                       && nodes[Qid(selfModule, ids[idx])] == a && nodes[c] == b
  {
  }

  lemma CallEdgesStep(nodes: map<Qid, nat>, selfModule: nat, ids: map<nat, string>, functions: seq<FunctionInfo>, done: set<nat>, idx: nat)
    requires forall i :: i in ids ==> i < |functions| && Qid(selfModule, ids[i]) in nodes
    requires idx in ids
    ensures CallEdges(nodes, selfModule, ids, functions, done + {idx})
         == CallEdges(nodes, selfModule, ids, functions, done) + EdgesFrom(nodes, nodes[Qid(selfModule, ids[idx])], Callees(functions[idx].code))
  {
  }

  /** The call collection of `build_call_graph` (the `filter_map`). */
  method CollectCallees(code: seq<Bytecode>) returns (called: set<Qid>)
    ensures called == Callees(code)
  {
    called := {};
    for i := 0 to |code|
      invariant called == set j | 0 <= j < i && code[j].Call? && code[j].op.Function? :: Qid(code[j].op.mid, code[j].op.fid)
    {
      if code[i].Call? && code[i].op.Function? {
        called := called + {Qid(code[i].op.mid, code[i].op.fid)};
      }
    }
  }

  /** The generation loop of `generate_function`: each instruction in
    * turn, from offset 0. */
  method GenerateCode(ctx: Context, g0: GenState, code: seq<MoveInstr>, labels: map<nat, nat>) returns (g: GenState)
    requires Translatable(ctx, g0, code, labels, 0)
    ensures g == Run(ctx, g0, code, labels, 0)
  {
    g := g0;
    for offset := 0 to |code|
      invariant Translatable(ctx, g, code, labels, offset)
      invariant Run(ctx, g, code, labels, offset) == Run(ctx, g0, code, labels, 0)
    {
      RunStep(ctx, g, code, labels, offset);
      g := Step(ctx, g, code[offset], offset, labels);
    }
  }

  /** One instruction of the generation loop. */
  lemma RunStep(ctx: Context, g: GenState, code: seq<MoveInstr>, labels: map<nat, nat>, k: nat)
    requires Translatable(ctx, g, code, labels, k) && k < |code|
    ensures CanStep(ctx, g, code[k], k, labels)
    ensures Translatable(ctx, Step(ctx, g, code[k], k, labels), code, labels, k + 1)
    ensures Run(ctx, g, code, labels, k) == Run(ctx, Step(ctx, g, code[k], k, labels), code, labels, k + 1)
  {
  }

  // ---------------------------------------------------------------------
  // The generator

  /** `StacklessBytecodeGenerator`: the temporaries, the translated
    * functions and the call graph (its nodes in insertion order, the node
    * of each qualified id, and its edges). */
  class Generator {
    var tempCount: nat
    var tempStack: seq<nat>
    var functions: seq<FunctionInfo>
    var graphNodes: seq<Qid>
    var funcToNode: map<Qid, nat>
    var edges: set<(nat, nat)>

    constructor ()
      ensures tempCount == 0 && tempStack == [] && functions == []
      ensures graphNodes == [] && funcToNode == map[] && edges == {}
    {
      tempCount, tempStack, functions := 0, [], [];
      graphNodes, funcToNode, edges := [], map[], {};
    }

    /** One round of the loop of `generate_function`: translates `def`,
      * the `idx`-th function definition, and records it. */
    method GenerateFunction(def: FunctionDef, idx: nat)
      requires Translates(def, idx, tempStack)
      modifies this
      ensures functions == old(functions) + [Translated(def, idx, old(tempStack)).info]
      ensures tempCount == Translated(def, idx, old(tempStack)).count
      ensures tempStack == Translated(def, idx, old(tempStack)).stack
      ensures graphNodes == old(graphNodes) && funcToNode == old(funcToNode) && edges == old(edges)
    {
      var types := LocalTypes(def.ctx);
      var fn := NewFunctionInfo(idx, def.name);
      tempCount := |types|;
      fn := fn.(argsCount := |types|, localTypes := types);
      var labels, fallthrough := BuildLabels(def.code);
      fn := fn.(fallthroughLabels := fallthrough - TargetLabels(def.code, labels));
      var g := GenerateCode(def.ctx, GenState(tempCount, tempStack, fn), def.code, labels);
      RunKeepsFallthrough(def.ctx, InitialState(def, idx, old(tempStack)), def.code, labels, 0);
      var code := EliminateFallthrough(g.fn.code);
      var defTable, useTable := BuildTables(code, |g.fn.localTypes|);
      functions := functions + [g.fn.(code := code, defAttrid := defTable, useAttrid := useTable)];
      tempCount, tempStack := g.tempCount, g.tempStack;
    }

    /** `generate_function`: translates every function definition in
      * order and records them; `outs` are what each translation leaves. */
    method GenerateFunctions(defs: seq<FunctionDef>, ghost outs: seq<Outcome>)
      requires Chained(defs, tempStack, outs)
      modifies this
      ensures functions == old(functions) + Infos(outs, |defs|)
      ensures tempStack == StackBefore(old(tempStack), outs, |defs|)
      ensures tempCount == if defs == [] then old(tempCount) else outs[|defs| - 1].count
      ensures graphNodes == old(graphNodes) && funcToNode == old(funcToNode) && edges == old(edges)
    {
      for i := 0 to |defs|
        invariant functions == old(functions) + Infos(outs, i)
        invariant tempStack == StackBefore(old(tempStack), outs, i)
        invariant tempCount == if i == 0 then old(tempCount) else outs[i - 1].count
        invariant graphNodes == old(graphNodes) && funcToNode == old(funcToNode) && edges == old(edges)
      {
        assert outs[i] == Translated(defs[i], i, tempStack);
        InfosSnoc(old(functions), outs, i);
        GenerateFunction(defs[i], i);
      }
    }

    /** `build_call_graph`: a node per function handle, then an edge from
      * each defined function to each distinct callee that has a node.
      * `ids` maps definition indexes to function names. */
    method BuildCallGraph(handles: seq<Qid>, selfModule: nat, ids: map<nat, string>)
      requires forall idx :: idx in ids ==> idx < |functions| && Qid(selfModule, ids[idx]) in handles
      modifies this
      ensures tempCount == old(tempCount) && tempStack == old(tempStack) && functions == old(functions)
      ensures graphNodes == handles && funcToNode == NodeMap(handles, |handles|)
      ensures forall idx :: idx in ids ==> Qid(selfModule, ids[idx]) in funcToNode
      ensures edges == CallEdges(funcToNode, selfModule, ids, functions, ids.Keys)
    {
      var nodes, m := AddNodes(handles);
      NodeMapSpec(handles, |handles|);
      assert handles[..|handles|] == handles;
      var es: set<(nat, nat)> := {};
      ghost var done: set<nat> := {};
      var rest := ids.Keys;
      while rest != {}
        invariant rest !! done && rest + done == ids.Keys
        invariant tempCount == old(tempCount) && tempStack == old(tempStack) && functions == old(functions)
        invariant es == CallEdges(m, selfModule, ids, functions, done)
        decreases rest
      {
        var idx :| idx in rest;
        var called := CollectCallees(functions[idx].code);
        var out := AddEdges(m, m[Qid(selfModule, ids[idx])], called);
        CallEdgesStep(m, selfModule, ids, functions, done, idx);
        es := es + out;
        done := done + {idx};
        rest := rest - {idx};
      }
      graphNodes, funcToNode, edges := nodes, m, es;
    }
  }

  /** The node loop of `build_call_graph`. */
  method AddNodes(handles: seq<Qid>) returns (nodes: seq<Qid>, m: map<Qid, nat>)
    ensures nodes == handles && m == NodeMap(handles, |handles|)
  {
    nodes, m := [], map[];
    for i := 0 to |handles|
      invariant nodes == handles[..i] && m == NodeMap(handles, i)
    {
      nodes := nodes + [handles[i]];
      m := m[handles[i] := i];
    }
  }

  /** The edge loop of `build_call_graph` for one caller. */
  method AddEdges(nodes: map<Qid, nat>, src: nat, called: set<Qid>) returns (es: set<(nat, nat)>)
    ensures es == EdgesFrom(nodes, src, called)
  {
    es := {};
    var pending := called;
    while pending != {}
      invariant pending <= called
      invariant es == EdgesFrom(nodes, src, called - pending)
      decreases pending
    {
      var c :| c in pending;
      if c in nodes {
        es := es + {(src, nodes[c])};
      }
      assert called - (pending - {c}) == (called - pending) + {c};
      pending := pending - {c};
    }
    assert called - {} == called;
  }
}
