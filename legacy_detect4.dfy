/** The infinite-loop detector of the first analyser
  * (`src/detect/detect4.rs`): a function with loops every one of whose exit
  * branches tests a condition computed from literals only. */
module LegacyDetect4 {
  import opened Stackless
  import opened Packages
  import opened FatLoops
  import opened DataDependency
  import Detection
  import Detector4

  /** The shapes the detector reads of a function: its natural loops pass the
    * checks of `get_loops`, their blocks have successors, and every branch
    * condition has a dependency node `is_const` can visit. */
  predicate Analysable(entry: ModuleEntry, idx: nat)
  {
    idx < |entry.functions| && idx < |entry.cfgs| && idx < |entry.naturalLoops| && idx < |entry.dataDependency| &&
    var f := entry.functions[idx];
    var cfg := entry.cfgs[idx];
    var dd := entry.dataDependency[idx];
    var loops := entry.naturalLoops[idx];
    (forall i :: 0 <= i < |loops| ==> LoopOk(f.code, f.localTypes, cfg.content, loops[i])) &&
    (forall i, b :: 0 <= i < |loops| && b in loops[i].body ==> b in cfg.successors) &&
    (forall o :: 0 <= o < |f.code| && f.code[o].Branch? ==> f.code[o].cond in dd && ConstDefined(dd[f.code[o].cond]))
  }

  /** The union of the bodies of the natural loops with header `h`. */
  function HeaderBody(loops: seq<NaturalLoop>, h: nat): (r: set<nat>)
    ensures forall b :: b in r <==> exists i :: 0 <= i < |loops| && loops[i].header == h && b in loops[i].body
  {
    set i, b | 0 <= i < |loops| && loops[i].header == h && b in loops[i].body :: b
  }

  /** A block that ends in a conditional branch tests a constant condition. */
  predicate ExitIsConst(code: seq<Bytecode>, content: map<nat, BlockContent>, dd: map<nat, Node>, b: nat)
  {
    b in content && content[b].Basic? && content[b].upper < |code| && code[content[b].upper].Branch? ==>
      var c := code[content[b].upper].cond;
      c in dd && ConstDefined(dd[c]) && IsConst(dd[c])
  }

  /** Every exit block of the loops with header `h` tests a constant
    * condition. */
  predicate HeaderConst(code: seq<Bytecode>, cfg: Cfg, dd: map<nat, Node>, loops: seq<NaturalLoop>, h: nat)
  {
    forall b :: b in HeaderBody(loops, h) && b in cfg.successors && Leaves(cfg.successors[b], HeaderBody(loops, h)) ==>
      ExitIsConst(code, cfg.content, dd, b)
  }

  /** Some successor lies outside `body`. */
  predicate Leaves(succs: seq<nat>, body: set<nat>)
  {
    exists s :: s in succs && s !in body
  }

  /** What the detector reports: the function has loops, and every exit
    * branch of every fat loop tests a constant condition. */
  predicate ConstLoops(entry: ModuleEntry, idx: nat)
    requires Analysable(entry, idx)
  {
    var f := entry.functions[idx];
    var loops := entry.naturalLoops[idx];
    Grouped(loops) != map[] &&
    forall h :: h in Grouped(loops) ==> HeaderConst(f.code, entry.cfgs[idx], entry.dataDependency[idx], loops, h)
  }

  /** The union of the bodies sharing header `h`, built by the loop over the
    * natural loops. */
  method Unions(loops: seq<NaturalLoop>, h: nat) returns (unions: set<nat>)
    ensures unions == HeaderBody(loops, h)
  {
    unions := {};
    for j := 0 to |loops|
      invariant unions == HeaderBody(loops[..j], h)
    {
      assert forall i :: 0 <= i < j ==> loops[..j + 1][i] == loops[..j][i];
      if loops[j].header == h {
        assert loops[..j + 1][j] == loops[j];
        unions := unions + loops[j].body;
      }
    }
    assert loops[..|loops|] == loops;
  }

  /** The check of one exit block of the loops with header `h`: a block
    * ending in a branch passes when the branch condition is constant. */
  method ExitPasses(entry: ModuleEntry, idx: nat, h: nat, b: nat) returns (passes: bool)
    requires Analysable(entry, idx)
    requires b in HeaderBody(entry.naturalLoops[idx], h)
    ensures passes == ExitIsConst(entry.functions[idx].code, entry.cfgs[idx].content, entry.dataDependency[idx], b)
  {
    var code := entry.functions[idx].code;
    var cfg := entry.cfgs[idx];
    var dd := entry.dataDependency[idx];
    var loops := entry.naturalLoops[idx];
    var i :| 0 <= i < |loops| && loops[i].header == h && b in loops[i].body;
    assert LoopOk(code, entry.functions[idx].localTypes, cfg.content, loops[i]);
    assert IsBasic(cfg.content, b, |code|);
    var u := cfg.content[b].upper;
    assert code[u].Branch? ==> code[u].cond in dd && ConstDefined(dd[code[u].cond]);
    passes := true;
    match cfg.content[b] {
      case Basic(lower, upper) =>
        match code[upper] {
          case Branch(_, _, _, src) =>
            passes := IsConst(dd[src]);
          case _ =>
        }
      case Dummy =>
    }
  }

  /** The check of one fat loop: each exit block ending in a branch must
    * test a constant condition. */
  method HeaderExitsConst(entry: ModuleEntry, idx: nat, h: nat) returns (ok: bool)
    requires Analysable(entry, idx)
    ensures ok == HeaderConst(entry.functions[idx].code, entry.cfgs[idx], entry.dataDependency[idx], entry.naturalLoops[idx], h)
  {
    var code := entry.functions[idx].code;
    var cfg := entry.cfgs[idx];
    var dd := entry.dataDependency[idx];
    var loops := entry.naturalLoops[idx];
    var unions := Unions(loops, h);
    var branchs := Detector4.Branchs(cfg.successors, unions);
    ok := true;
    var rest := branchs;
    while rest != {}
      invariant rest <= branchs
      invariant ok <==> forall b :: b in branchs - rest ==> ExitIsConst(code, cfg.content, dd, b)
      decreases rest
    {
      var b :| b in rest;
      assert b in Detection.ExitBlocks(cfg.successors, unions);
      var passes := ExitPasses(entry, idx, h, b);
      assert branchs - (rest - {b}) == (branchs - rest) + {b};
      ok := ok && passes;
      rest := rest - {b};
    }
  }

  /** The headers of the fat loops `get_loops` builds. */
  method FatLoopHeaders(entry: ModuleEntry, idx: nat) returns (headers: set<nat>)
    requires Analysable(entry, idx)
    ensures headers == Grouped(entry.naturalLoops[idx]).Keys
    ensures headers == {} <==> Grouped(entry.naturalLoops[idx]) == map[]
  {
    var f := entry.functions[idx];
    var natural, fatLoops := GetLoops(f.code, f.localTypes, entry.cfgs[idx].content, entry.naturalLoops[idx]);
    GroupedSpec(natural);
    headers := fatLoops.Keys;
    if headers == {} {
      assert Grouped(natural).Keys == {};
    }
  }

  /** `detect_infinite_loop`: true when the function has loops and every
    * exit branch of its fat loops tests a constant condition. */
  method DetectInfiniteLoop(entry: ModuleEntry, idx: nat) returns (r: bool)
    requires Analysable(entry, idx)
    ensures r == ConstLoops(entry, idx)
  {
    var f := entry.functions[idx];
    var loops := entry.naturalLoops[idx];
    var headers := FatLoopHeaders(entry, idx);
    r := headers != {};
    var rest := headers;
    while rest != {}
      invariant rest <= headers
      invariant r <==> (headers != {} &&
        forall h :: h in headers - rest ==> HeaderConst(f.code, entry.cfgs[idx], entry.dataDependency[idx], loops, h))
      decreases rest
    {
      var h :| h in rest;
      var ok := HeaderExitsConst(entry, idx, h);
      r := r && ok;
      rest := rest - {h};
    }
  }

  /** A function without loops is not reported. */
  lemma NoLoopsNotReported(entry: ModuleEntry, idx: nat)
    requires Analysable(entry, idx) && entry.naturalLoops[idx] == []
    ensures !ConstLoops(entry, idx)
  {
    GroupedSpec(entry.naturalLoops[idx]);
  }

  /** A constant exit condition is one no parameter flows into: an exit
    * block passes exactly when, if it ends in a branch, the branch's
    * condition reaches no parameter. */
  lemma ExitConstNoParam(entry: ModuleEntry, idx: nat, b: nat)
    requires Analysable(entry, idx)
    requires b in entry.cfgs[idx].content && entry.cfgs[idx].content[b].Basic?
    requires entry.cfgs[idx].content[b].upper < |entry.functions[idx].code|
    requires entry.functions[idx].code[entry.cfgs[idx].content[b].upper].Branch?
    ensures var c := entry.functions[idx].code[entry.cfgs[idx].content[b].upper].cond;
            ExitIsConst(entry.functions[idx].code, entry.cfgs[idx].content, entry.dataDependency[idx], b) <==>
              !ReachesParam(entry.dataDependency[idx][c])
  {
    var u := entry.cfgs[idx].content[b].upper;
    var c := entry.functions[idx].code[u].cond;
    IsConstSpec(entry.dataDependency[idx][c]);
  }
}
