/** What folding one stack changes, and what the totals end up holding:
    only the nodes on the stack's path change, new nodes carry the names of
    the frames that created them, and a node's total is that of the last
    stack ending at it. */
module ProcessFrame {
  import opened Results
  import opened Dicts
  import LoudLog
  import opened Process
  import opened ProcessProps

  // ---------------------------------------------------------------------
  // One `_add`
  // ---------------------------------------------------------------------

  /** Writing the designated dict back touches only the parent's children. */
  lemma StoreNodes(f: Forest, at: Option<nat>, s: LoudLog.CallStack, index: nat, b: Dict<nat>)
    requires AddArgs(f, at, s, index)
    ensures var g := Store(f, at, s, index, b);
      && |g.nodes| == |f.nodes|
      && (index == 0 ==> g.nodes == f.nodes)
      && forall m :: 0 <= m < |f.nodes| && (index == 0 || m != at.value) ==> g.nodes[m] == f.nodes[m]
    ensures index > 0 ==> var p := at.value; var g := Store(f, at, s, index, b);
      g.nodes[p].(children := f.nodes[p].children) == f.nodes[p]
  {
  }

  /** `_add` reuses the node filed under the frame's callee key, leaving the
      forest as it was; otherwise it creates one new node at the end of the
      arena. */
  lemma LocateCases(f: Forest, at: Option<nat>, s: LoudLog.CallStack, index: nat)
    requires WellFormed(f) && AddArgs(f, at, s, index)
    ensures var found := Get(Designated(f, at, s, index), CalleeKey(s, index));
      found.Some? ==> Locate(f, at, s, index) == (f, found.value)
    ensures var found := Get(Designated(f, at, s, index), CalleeKey(s, index));
      var (g, n) := Locate(f, at, s, index);
      found.None? ==> (
        && n == |f.nodes| && |g.nodes| == |f.nodes| + 1
        && SameName(g.nodes[n], Created(s.funcs[index])) && g.nodes[n].totalDuration == 0.0
        && forall m :: 0 <= m < |f.nodes| && (index == 0 || m != at.value) ==> g.nodes[m] == f.nodes[m])
    ensures var (g, n) := Locate(f, at, s, index);
      index > 0 && at.value < |g.nodes| ==> (
        g.nodes[at.value].(children := f.nodes[at.value].children) == f.nodes[at.value])
  {
    var found := Get(Designated(f, at, s, index), CalleeKey(s, index));
    if found.None? {
      var grown := f.(nodes := f.nodes + [Created(s.funcs[index])]);
      StoreNodes(grown, at, s, index, Put(Designated(f, at, s, index), CalleeKey(s, index), |f.nodes|));
      assert grown.nodes[|f.nodes|] == Created(s.funcs[index]);
      assert forall m :: 0 <= m < |f.nodes| ==> grown.nodes[m] == f.nodes[m];
    }
  }

  /** One `_add` changes an old node only if it is the parent whose children
      it files into, or the node whose total it overwrites; a new node is
      the one it created, named after the frame. */
  lemma AddStepFrame(f: Forest, at: Option<nat>, s: LoudLog.CallStack, index: nat)
    requires WellFormed(f) && AddArgs(f, at, s, index)
    ensures var (g, n) := AddStep(f, at, s, index);
      && |f.nodes| <= |g.nodes| <= |f.nodes| + 1
      && (forall m :: 0 <= m < |f.nodes| && g.nodes[m] != f.nodes[m] ==> (index > 0 && m == at.value) || m == n)
      && (forall m :: |f.nodes| <= m < |g.nodes| ==> m == n && SameName(g.nodes[m], Created(s.funcs[index])))
    ensures var (g, n) := AddStep(f, at, s, index);
      forall m :: 0 <= m < |g.nodes| ==>
        g.nodes[m].totalDuration == (if index == |s.funcs| - 1 && m == n then s.totalDuration
         else if m < |f.nodes| then f.nodes[m].totalDuration
         else 0.0)
  {
    LocateCases(f, at, s, index);
    var (g, n) := Locate(f, at, s, index);
    if index == |s.funcs| - 1 {
      var h := SetTotal(g.nodes, n, s.totalDuration);
      assert forall m :: 0 <= m < |g.nodes| && m != n ==> h[m] == g.nodes[m];
      assert SameName(h[n], g.nodes[n]);
    }
  }

  // ---------------------------------------------------------------------
  // One stack
  // ---------------------------------------------------------------------

  /** Node `m` is the one the first `k` frames of the stack lead to. */
  ghost predicate ReachedAt(g: Forest, s: LoudLog.CallStack, k: nat, m: nat) {
    1 <= k <= |s.funcs| && Follow(g, s, k) == Some(m)
  }

  /** Node `m` lies on the stack's path. */
  ghost predicate OnStackPath(g: Forest, s: LoudLog.CallStack, m: nat) {
    exists k :: ReachedAt(g, s, k, m)
  }

  /** Node `m` lies on the stack's path at a frame whose names it carries. */
  ghost predicate NamedOnPath(g: Forest, s: LoudLog.CallStack, m: nat) {
    m < |g.nodes| && exists k :: ReachedAt(g, s, k, m) && SameName(g.nodes[m], Created(s.funcs[k - 1]))
  }

  /** The rest of a walk overwrites one total, that of the node it ends at,
      and only when some frame is left to add; new nodes start at 0.0. */
  lemma {:induction false} WalkFromTotals(f: Forest, at: Option<nat>, s: LoudLog.CallStack, index: nat)
    requires WellFormed(f) && WalkArgs(f, at, s, index) && |s.funcs| >= 1
    ensures var (g, n) := WalkFrom(f, at, s, index);
      && |f.nodes| <= |g.nodes|
      && forall m :: 0 <= m < |g.nodes| ==>
        g.nodes[m].totalDuration == (if index < |s.funcs| && m == n then s.totalDuration
         else if m < |f.nodes| then f.nodes[m].totalDuration
         else 0.0)
    decreases |s.funcs| - index
  {
    if index < |s.funcs| {
      WalkFromStep(f, at, s, index);
      AddStepFrame(f, at, s, index);
      var (g, n) := AddStep(f, at, s, index);
      WalkFromTotals(g, Some(n), s, index + 1);
    }
  }

  /** One `_add` in terms of paths: an old node it changed is reached by
      the frames before `index` or by those up to `index`, and a node it
      created is reached by the frames up to `index` and named after frame
      `index`. */
  lemma AddStepPaths(f: Forest, at: Option<nat>, s: LoudLog.CallStack, index: nat)
    requires WellFormed(f) && AddArgs(f, at, s, index) && OnPath(f, at, s, index)
    ensures Follow(AddStep(f, at, s, index).0, s, index + 1) == Some(AddStep(f, at, s, index).1)
    ensures var g := AddStep(f, at, s, index).0;
      && |f.nodes| <= |g.nodes|
      && (forall m: nat :: m < |f.nodes| && g.nodes[m] != f.nodes[m] ==> OnStackPath(g, s, m))
      && (forall m: nat :: |f.nodes| <= m < |g.nodes| ==> NamedOnPath(g, s, m))
  {
    AddStepFrame(f, at, s, index);
    AddStepFiles(f, at, s, index);
    var (g, n) := AddStep(f, at, s, index);
    if index > 0 {
      AddStepExtends(f, at, s, index);
      FollowExtends(f, g, s, index);
      assert ReachedAt(g, s, index, at.value);
    }
    assert Follow(g, s, index + 1) == Some(n);
    assert ReachedAt(g, s, index + 1, n);
    forall m: nat | |f.nodes| <= m < |g.nodes| ensures NamedOnPath(g, s, m) {
      assert m == n && SameName(g.nodes[m], Created(s.funcs[index]));
    }
  }

  /** Lying on a stack's path survives any extension of the forest. */
  lemma OnStackPathExtends(g: Forest, w: Forest, s: LoudLog.CallStack, m: nat)
    requires Extends(g, w)
    ensures OnStackPath(g, s, m) ==> OnStackPath(w, s, m)
    ensures NamedOnPath(g, s, m) ==> NamedOnPath(w, s, m)
  {
    if OnStackPath(g, s, m) {
      var k :| ReachedAt(g, s, k, m);
      FollowExtends(g, w, s, k);
      assert ReachedAt(w, s, k, m);
    }
    if NamedOnPath(g, s, m) {
      var k :| ReachedAt(g, s, k, m) && SameName(g.nodes[m], Created(s.funcs[k - 1]));
      FollowExtends(g, w, s, k);
      assert SameName(g.nodes[m], w.nodes[m]);
      assert ReachedAt(w, s, k, m) && SameName(w.nodes[m], Created(s.funcs[k - 1]));
    }
  }

  /** The rest of a walk changes an old node only where it lies on the
      stack's path, and every node it creates lies on the path at a frame
      whose names it carries. */
  lemma {:induction false} WalkFromFrame(f: Forest, at: Option<nat>, s: LoudLog.CallStack, index: nat)
    requires WellFormed(f) && WalkArgs(f, at, s, index) && |s.funcs| >= 1 && OnPath(f, at, s, index)
    ensures var g := WalkFrom(f, at, s, index).0;
      && |f.nodes| <= |g.nodes|
      && (forall m: nat :: m < |f.nodes| && g.nodes[m] != f.nodes[m] ==> OnStackPath(g, s, m))
      && (forall m: nat :: |f.nodes| <= m < |g.nodes| ==> NamedOnPath(g, s, m))
    decreases |s.funcs| - index
  {
    if index < |s.funcs| {
      WalkFromStep(f, at, s, index);
      AddStepPaths(f, at, s, index);
      var (g, n) := AddStep(f, at, s, index);
      WalkFromFrame(g, Some(n), s, index + 1);
      WalkFromFollows(g, Some(n), s, index + 1);
      var w := WalkFrom(g, Some(n), s, index + 1).0;
      forall m: nat | m < |w.nodes| && (m >= |f.nodes| || w.nodes[m] != f.nodes[m])
        ensures m < |f.nodes| ==> OnStackPath(w, s, m)
        ensures m >= |f.nodes| ==> NamedOnPath(w, s, m)
      {
        OnStackPathExtends(g, w, s, m);
      }
    }
  }

  /** Folding one stack in: an old node that changed lies on the stack's
      path, a new node lies on it at a frame whose names it carries, and the
      only total that changes is the terminal node's, which becomes the
      stack's. */
  lemma AddStackFrame(f: Forest, s: LoudLog.CallStack)
    requires WellFormed(f) && |s.funcs| >= 1
    ensures var g := AddStack(f, s);
      && |f.nodes| <= |g.nodes|
      && (forall m: nat :: m < |f.nodes| && g.nodes[m] != f.nodes[m] ==> OnStackPath(g, s, m))
      && (forall m: nat :: |f.nodes| <= m < |g.nodes| ==> NamedOnPath(g, s, m))
    ensures var g := AddStack(f, s);
      forall m :: 0 <= m < |g.nodes| ==>
        g.nodes[m].totalDuration == (if m == Terminal(f, s) then s.totalDuration
         else if m < |f.nodes| then f.nodes[m].totalDuration
         else 0.0)
  {
    WalkFromFrame(f, None, s, 0);
    WalkFromTotals(f, None, s, 0);
  }
}
