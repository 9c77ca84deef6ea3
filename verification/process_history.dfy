/** What the forest built from a whole list of stacks says about the
    stacks: whose duration each total is, and which frame each node was
    created for. The history of the fold is kept as two sequences of
    positions: the node each stack ended at, and the size of the arena
    before each stack. */
module ProcessHistory {
  import opened Results
  import LoudLog
  import opened Process
  import opened ProcessProps
  import opened ProcessFrame

  /** The node each stack's last frame reached when it was folded in. */
  function EndNodes(stacks: seq<LoudLog.CallStack>): (ends: seq<nat>)
    requires AllHaveFrames(stacks)
    ensures |ends| == |stacks|
    decreases |stacks|
  {
    if stacks == [] then []
    else
      var pre := stacks[..|stacks| - 1];
      AllHaveFramesPrefix(stacks, |stacks| - 1);
      EndNodes(pre) + [Terminal(ProcessAll(pre), stacks[|stacks| - 1])]
  }

  /** The size of the arena before each stack, and after the last. */
  function NodeCounts(stacks: seq<LoudLog.CallStack>): (counts: seq<nat>)
    requires AllHaveFrames(stacks)
    ensures |counts| == |stacks| + 1
    decreases |stacks|
  {
    if stacks == [] then [0]
    else
      AllHaveFramesPrefix(stacks, |stacks| - 1);
      NodeCounts(stacks[..|stacks| - 1]) + [|ProcessAll(stacks).nodes|]
  }

  /** Stack `j` ends at node `n`: its last frame reached `n` when it was
      folded in. */
  ghost predicate Ends(stacks: seq<LoudLog.CallStack>, j: nat, n: nat) {
    j < |stacks| && AllHaveFrames(stacks) && Terminal(ProcessAll(stacks[..j]), stacks[j]) == n
  }

  lemma {:induction false} EndNodesAt(stacks: seq<LoudLog.CallStack>, j: nat)
    requires AllHaveFrames(stacks) && j < |stacks|
    ensures AllHaveFrames(stacks[..j])
    ensures EndNodes(stacks)[j] == Terminal(ProcessAll(stacks[..j]), stacks[j])
    decreases |stacks|
  {
    var pre := stacks[..|stacks| - 1];
    AllHaveFramesPrefix(stacks, |stacks| - 1);
    var ends := EndNodes(pre);
    var last := Terminal(ProcessAll(pre), stacks[|stacks| - 1]);
    assert EndNodes(stacks) == ends + [last];
    if j < |pre| {
      EndNodesAt(pre, j);
      assert pre[..j] == stacks[..j];
      assert (ends + [last])[j] == ends[j];
    } else {
      assert stacks[..j] == pre;
    }
  }

  lemma {:induction false} NodeCountsAt(stacks: seq<LoudLog.CallStack>, j: nat)
    requires AllHaveFrames(stacks) && j <= |stacks|
    ensures AllHaveFrames(stacks[..j])
    ensures NodeCounts(stacks)[j] == |ProcessAll(stacks[..j]).nodes|
    decreases |stacks|
  {
    AllHaveFramesPrefix(stacks, j);
    if j == |stacks| {
      assert stacks[..j] == stacks;
    } else {
      var pre := stacks[..|stacks| - 1];
      AllHaveFramesPrefix(stacks, |stacks| - 1);
      NodeCountsAt(pre, j);
      assert pre[..j] == stacks[..j];
    }
  }

  /** The position of the last `n` in `xs`, if any. */
  function LastIndexOf(xs: seq<nat>, n: nat): (r: Option<nat>)
    ensures r.Some? ==> r.value < |xs| && xs[r.value] == n
    ensures r.Some? ==> forall j :: r.value < j < |xs| ==> xs[j] != n
    ensures r.None? <==> n !in xs
    decreases |xs|
  {
    if xs == [] then None
    else if xs[|xs| - 1] == n then Some(|xs| - 1)
    else
      var r := LastIndexOf(xs[..|xs| - 1], n);
      assert forall j :: 0 <= j < |xs| - 1 ==> xs[..|xs| - 1][j] == xs[j];
      assert xs == xs[..|xs| - 1] + [xs[|xs| - 1]];
      r
  }

  /** The last stack that ended at node `n`, if any. */
  function LastEnding(stacks: seq<LoudLog.CallStack>, n: nat): Option<nat>
    requires AllHaveFrames(stacks)
  {
    LastIndexOf(EndNodes(stacks), n)
  }

  /** `LastEnding` names a stack that ended at `n` with none after it, and
      names none only when no stack ended at `n`. */
  lemma LastEndingSpec(stacks: seq<LoudLog.CallStack>, n: nat)
    requires AllHaveFrames(stacks)
    ensures LastEnding(stacks, n).Some? ==> Ends(stacks, LastEnding(stacks, n).value, n)
    ensures LastEnding(stacks, n).Some? ==>
      forall j :: LastEnding(stacks, n).value < j < |stacks| ==> !Ends(stacks, j, n)
    ensures LastEnding(stacks, n).None? ==> forall j :: 0 <= j < |stacks| ==> !Ends(stacks, j, n)
  {
    var ends := EndNodes(stacks);
    forall j | 0 <= j < |stacks| ensures Ends(stacks, j, n) <==> ends[j] == n {
      EndNodesAt(stacks, j);
    }
  }

  /** Every stack ends at a node of the final arena. */
  lemma {:induction false} EndNodesInArena(stacks: seq<LoudLog.CallStack>)
    requires AllHaveFrames(stacks)
    ensures forall j :: 0 <= j < |stacks| ==> EndNodes(stacks)[j] < |ProcessAll(stacks).nodes|
    decreases |stacks|
  {
    if stacks != [] {
      var pre := stacks[..|stacks| - 1];
      AllHaveFramesPrefix(stacks, |stacks| - 1);
      EndNodesInArena(pre);
      AddStackFollows(ProcessAll(pre), stacks[|stacks| - 1]);
    }
  }

  /** Overwrite on revisit: a node's total is the duration of the last stack
      that ended at it, not a sum; a node no stack ended at keeps 0.0. */
  lemma {:induction false} TotalIsLastWriter(stacks: seq<LoudLog.CallStack>, n: nat)
    requires AllHaveFrames(stacks) && n < |ProcessAll(stacks).nodes|
    ensures ProcessAll(stacks).nodes[n].totalDuration ==
      match LastEnding(stacks, n)
      case None => 0.0
      case Some(j) => stacks[j].totalDuration
    decreases |stacks|
  {
    var i := |stacks| - 1;
    var pre := stacks[..i];
    AllHaveFramesPrefix(stacks, i);
    var before := ProcessAll(pre);
    var t := Terminal(before, stacks[i]);
    AddStackFrame(before, stacks[i]);
    var ends := EndNodes(pre);
    assert EndNodes(stacks) == ends + [t];
    assert (ends + [t])[..|ends|] == ends;
    if t != n {
      assert LastEnding(stacks, n) == LastEnding(pre, n);
      if n < |before.nodes| {
        TotalIsLastWriter(pre, n);
      } else {
        EndNodesInArena(pre);
      }
    }
  }

  /** A node that no stack ended at has total 0.0. */
  lemma NeverEndedIsZero(stacks: seq<LoudLog.CallStack>, n: nat)
    requires AllHaveFrames(stacks) && n < |ProcessAll(stacks).nodes|
    requires forall j :: 0 <= j < |stacks| ==> !Ends(stacks, j, n)
    ensures ProcessAll(stacks).nodes[n].totalDuration == 0.0
  {
    LastEndingSpec(stacks, n);
    TotalIsLastWriter(stacks, n);
  }

  /** Node `m` was created for frame `k - 1` of stack `j`. */
  ghost predicate CreatedBy(stacks: seq<LoudLog.CallStack>, m: nat, j: nat, k: nat)
    requires AllHaveFrames(stacks)
  {
    && j < |stacks| && NodeCounts(stacks)[j] <= m < NodeCounts(stacks)[j + 1]
    && 1 <= k <= |stacks[j].funcs| && Follow(ProcessAll(stacks), stacks[j], k) == Some(m)
    && m < |ProcessAll(stacks).nodes|
    && SameName(ProcessAll(stacks).nodes[m], Created(stacks[j].funcs[k - 1]))
  }

  /** A node's origin among the earlier stacks stays its origin. */
  lemma OriginKept(stacks: seq<LoudLog.CallStack>, m: nat, j: nat, k: nat)
    requires AllHaveFrames(stacks) && stacks != []
    requires AllHaveFrames(stacks[..|stacks| - 1]) && CreatedBy(stacks[..|stacks| - 1], m, j, k)
    ensures CreatedBy(stacks, m, j, k)
  {
    var i := |stacks| - 1;
    var pre := stacks[..i];
    var before := ProcessAll(pre);
    var after := ProcessAll(stacks);
    assert NodeCounts(stacks) == NodeCounts(pre) + [|after.nodes|];
    AddStackFollows(before, stacks[i]);
    assert stacks[j] == pre[j];
    FollowExtends(before, after, stacks[j], k);
    assert SameName(before.nodes[m], after.nodes[m]);
  }

  /** A node the last stack added was created by it. */
  lemma OriginNew(stacks: seq<LoudLog.CallStack>, m: nat) returns (k: nat)
    requires AllHaveFrames(stacks) && stacks != []
    requires AllHaveFrames(stacks[..|stacks| - 1])
    requires |ProcessAll(stacks[..|stacks| - 1]).nodes| <= m < |ProcessAll(stacks).nodes|
    ensures CreatedBy(stacks, m, |stacks| - 1, k)
  {
    var i := |stacks| - 1;
    var pre := stacks[..i];
    var before := ProcessAll(pre);
    var after := ProcessAll(stacks);
    assert NodeCounts(stacks) == NodeCounts(pre) + [|after.nodes|];
    NodeCountsAt(pre, |pre|);
    assert pre[..|pre|] == pre;
    AddStackFrame(before, stacks[i]);
    assert NamedOnPath(after, stacks[i], m);
    k :| ReachedAt(after, stacks[i], k, m) && SameName(after.nodes[m], Created(stacks[i].funcs[k - 1]));
  }

  /** Every node was created while some stack `j` was folded in, for some
      frame `k - 1` of it: the arena had at most `m` nodes before stack `j`
      and more after it, stack `j`'s first `k` frames lead to the node, and
      it carries that frame's source, line and name, which no later stack
      changes. */
  lemma {:induction false} NodeOrigin(stacks: seq<LoudLog.CallStack>, m: nat) returns (j: nat, k: nat)
    requires AllHaveFrames(stacks) && m < |ProcessAll(stacks).nodes|
    ensures CreatedBy(stacks, m, j, k)
    decreases |stacks|
  {
    var i := |stacks| - 1;
    AllHaveFramesPrefix(stacks, i);
    if m < |ProcessAll(stacks[..i]).nodes| {
      j, k := NodeOrigin(stacks[..i], m);
      OriginKept(stacks, m, j, k);
    } else {
      j := i;
      k := OriginNew(stacks, m);
    }
  }
}
