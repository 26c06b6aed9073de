/** `Detector5`: constants of a module's pool that no function loads. */
module Detector5 {
  import opened Packages

  /** Some instruction of `code[..n]` loads pool constant `c`. */
  predicate LoadsIn(code: seq<StackInstr>, n: nat, c: nat)
    requires n <= |code|
  {
    exists j :: 0 <= j < n && code[j] == LdConst(c)
  }

  /** Some definition among `defs[..d]` with a body loads constant `c`. */
  predicate UsedBy(defs: seq<FunctionDef>, d: nat, c: nat)
    requires d <= |defs|
  {
    exists e :: 0 <= e < d && defs[e].code.Some? && LoadsIn(defs[e].code.value, |defs[e].code.value|, c)
  }

  /** Every constant a definition loads is in a pool of `len` constants. */
  predicate LoadsWithin(defs: seq<FunctionDef>, len: nat)
  {
    forall e, j :: 0 <= e < |defs| && defs[e].code.Some? && 0 <= j < |defs[e].code.value| && defs[e].code.value[j].LdConst? ==>
      defs[e].code.value[j].constIdx < len
  }

  /** The visited flags of `detect_unused_constants`: one per pool constant,
    * set for every constant some definition's body loads. */
  method VisitConstants(defs: seq<FunctionDef>, len: nat) returns (visited: array<bool>)
    requires LoadsWithin(defs, len)
    ensures fresh(visited) && visited.Length == len
    ensures forall c :: 0 <= c < len ==> (visited[c] <==> UsedBy(defs, |defs|, c))
  {
    visited := new bool[len](_ => false);
    for d := 0 to |defs|
      invariant forall c :: 0 <= c < len ==> (visited[c] <==> UsedBy(defs, d, c))
    {
      if defs[d].code.Some? {
        var code := defs[d].code.value;
        for j := 0 to |code|
          invariant forall c :: 0 <= c < len ==> (visited[c] <==> UsedBy(defs, d, c) || LoadsIn(code, j, c))
        {
          if code[j].LdConst? {
            visited[code[j].constIdx] := true;
          }
        }
      }
      UsedByNext(defs, d);
    }
  }

  lemma UsedByNext(defs: seq<FunctionDef>, d: nat)
    requires d < |defs|
    ensures forall c :: UsedBy(defs, d + 1, c) <==>
      UsedBy(defs, d, c) || (defs[d].code.Some? && LoadsIn(defs[d].code.value, |defs[d].code.value|, c))
  {
  }

  /** The renderings of the constants among the first `n` of the pool that no
    * definition loads, in pool order. */
  function UnusedUpTo(entry: ModuleEntry, n: nat): seq<string>
    requires n <= |entry.constants|
  {
    if n == 0 then []
    else UnusedUpTo(entry, n - 1) + (if UsedBy(entry.defs, |entry.defs|, n - 1) then [] else [entry.constants[n - 1]])
  }

  /** `detect_unused_constants`: the rendering of every constant no
    * definition loads, in pool order. */
  method DetectUnusedConstants(entry: ModuleEntry) returns (r: seq<string>)
    requires LoadsWithin(entry.defs, |entry.constants|)
    ensures r == UnusedUpTo(entry, |entry.constants|)
  {
    var visited := VisitConstants(entry.defs, |entry.constants|);
    r := [];
    for id := 0 to visited.Length
      invariant r == UnusedUpTo(entry, id)
    {
      if !visited[id] {
        r := r + [entry.constants[id]];
      }
    }
  }

  /** A rendering is reported exactly when some constant with that rendering
    * is never loaded. */
  lemma {:induction false} UnusedSpec(entry: ModuleEntry, n: nat, x: string)
    requires n <= |entry.constants|
    ensures x in UnusedUpTo(entry, n) <==>
      exists c :: 0 <= c < n && !UsedBy(entry.defs, |entry.defs|, c) && entry.constants[c] == x
  {
    if n > 0 {
      UnusedSpec(entry, n - 1, x);
    }
  }

  /** A pool of which every constant is loaded reports nothing. */
  lemma {:induction false} AllUsedReportsNothing(entry: ModuleEntry, n: nat)
    requires n <= |entry.constants|
    requires forall c :: 0 <= c < n ==> UsedBy(entry.defs, |entry.defs|, c)
    ensures UnusedUpTo(entry, n) == []
  {
    if n > 0 {
      AllUsedReportsNothing(entry, n - 1);
    }
  }

  /** Definitions without a body (natives) load nothing. */
  lemma NativesLoadNothing(defs: seq<FunctionDef>, c: nat)
    requires forall e :: 0 <= e < |defs| ==> defs[e].code.None?
    ensures !UsedBy(defs, |defs|, c)
  {
  }
}
