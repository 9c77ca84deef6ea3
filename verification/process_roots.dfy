/** The list `process` returns: one root node per distinct root key, in the
    order in which the keys first appear among the stacks. */
module ProcessRoots {
  import opened Results
  import opened Dicts
  import LoudLog
  import opened Process
  import opened ProcessProps

  // ---------------------------------------------------------------------
  // Distinct keys in order of first appearance
  // ---------------------------------------------------------------------

  /** The position of the first `x` in `xs`. */
  function FirstIndex(xs: seq<string>, x: string): (i: nat)
    requires x in xs
    ensures i < |xs| && xs[i] == x
    ensures forall j :: 0 <= j < i ==> xs[j] != x
    decreases |xs|
  {
    if xs[0] == x then 0 else 1 + FirstIndex(xs[1..], x)
  }

  /** The keys of `xs` without repeats, each where it first appears. */
  function Dedup(xs: seq<string>): seq<string>
    decreases |xs|
  {
    if xs == [] then []
    else
      var d := Dedup(xs[..|xs| - 1]);
      if xs[|xs| - 1] in d then d else d + [xs[|xs| - 1]]
  }

  /** `Dedup` keeps every key, repeats none, and orders them by first
      appearance. */
  lemma {:induction false} DedupSpec(xs: seq<string>)
    ensures forall x :: x in Dedup(xs) <==> x in xs
    ensures forall i, j :: 0 <= i < j < |Dedup(xs)| ==> Dedup(xs)[i] != Dedup(xs)[j]
    ensures forall i, j :: 0 <= i < j < |Dedup(xs)| ==>
      FirstIndex(xs, Dedup(xs)[i]) < FirstIndex(xs, Dedup(xs)[j])
    decreases |xs|
  {
    if xs != [] {
      var pre := xs[..|xs| - 1];
      var y := xs[|xs| - 1];
      assert xs == pre + [y];
      DedupSpec(pre);
      var d := Dedup(pre);
      forall x | x in pre ensures FirstIndex(xs, x) == FirstIndex(pre, x) {
        var i := FirstIndex(pre, x);
        assert xs[i] == x;
        assert forall j :: 0 <= j < i ==> xs[j] == pre[j];
      }
      if y !in pre {
        assert FirstIndex(xs, y) == |pre|;
      }
    }
  }

  // ---------------------------------------------------------------------
  // The roots of the forest
  // ---------------------------------------------------------------------

  /** The root key `funcs[0].identifier(False)` of each stack, in order. */
  function RootKeys(stacks: seq<LoudLog.CallStack>): (keys: seq<string>)
    requires AllHaveFrames(stacks)
    ensures |keys| == |stacks|
    ensures forall j :: 0 <= j < |stacks| ==> keys[j] == CalleeKey(stacks[j], 0)
    decreases |stacks|
  {
    if stacks == [] then []
    else RootKeys(stacks[..|stacks| - 1]) + [CalleeKey(stacks[|stacks| - 1], 0)]
  }

  /** Frames after the first never touch the roots. */
  lemma {:induction false} WalkFromKeepsRoots(f: Forest, at: Option<nat>, s: LoudLog.CallStack, index: nat)
    requires WellFormed(f) && WalkArgs(f, at, s, index) && |s.funcs| >= 1 && index > 0
    ensures WalkFrom(f, at, s, index).0.roots == f.roots
    decreases |s.funcs| - index
  {
    if index < |s.funcs| {
      AddStepWellFormed(f, at, s, index);
      var (g, n) := AddStep(f, at, s, index);
      assert g.roots == f.roots;
      WalkFromKeepsRoots(g, Some(n), s, index + 1);
    }
  }

  /** Folding a stack in appends its root key to the roots' keys, unless
      the key is there already. */
  lemma AddStackRoots(f: Forest, s: LoudLog.CallStack)
    requires WellFormed(f) && |s.funcs| >= 1
    ensures var key := CalleeKey(s, 0);
      Keys(AddStack(f, s).roots) == if key in Keys(f.roots) then Keys(f.roots) else Keys(f.roots) + [key]
  {
    var key := CalleeKey(s, 0);
    AddStepWellFormed(f, None, s, 0);
    var (g, n) := AddStep(f, None, s, 0);
    if key in Keys(f.roots) {
      assert g.roots == f.roots;
    } else {
      assert g.roots == f.roots + [(key, n)];
      assert Keys(g.roots) == Keys(f.roots) + [key];
    }
    assert AddStack(f, s) == WalkFrom(g, Some(n), s, 1).0;
    WalkFromKeepsRoots(g, Some(n), s, 1);
  }

  /** The roots' keys are the stacks' distinct root keys in order of first
      appearance. */
  lemma {:induction false} RootKeysOfProcess(stacks: seq<LoudLog.CallStack>)
    requires AllHaveFrames(stacks)
    ensures Keys(ProcessAll(stacks).roots) == Dedup(RootKeys(stacks))
    decreases |stacks|
  {
    if stacks != [] {
      var pre := stacks[..|stacks| - 1];
      AllHaveFramesPrefix(stacks, |stacks| - 1);
      RootKeysOfProcess(pre);
      AddStackRoots(ProcessAll(pre), stacks[|stacks| - 1]);
      var keys := RootKeys(stacks);
      assert keys[..|keys| - 1] == RootKeys(pre);
    }
  }

  /** `list(functions.values())`: one node per distinct root key, each
      carrying its key, listed in order of the keys' first appearance, no
      node twice. */
  lemma RootsReturned(stacks: seq<LoudLog.CallStack>)
    requires AllHaveFrames(stacks)
    ensures var f := ProcessAll(stacks); var roots := Values(f.roots); var keys := Dedup(RootKeys(stacks));
      && |roots| == |keys|
      && (forall i :: 0 <= i < |roots| ==> roots[i] < |f.nodes| && Identifier(f.nodes[roots[i]]) == keys[i])
      && (forall i, j :: 0 <= i < j < |roots| ==> roots[i] != roots[j])
      && (forall x :: x in keys <==> x in RootKeys(stacks))
      && (forall i, j :: 0 <= i < j < |keys| ==>
            FirstIndex(RootKeys(stacks), keys[i]) < FirstIndex(RootKeys(stacks), keys[j]))
  {
    var f := ProcessAll(stacks);
    RootKeysOfProcess(stacks);
    DedupSpec(RootKeys(stacks));
    assert BucketOk(f.nodes, -1, f.roots);
  }
}
