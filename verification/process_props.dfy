/** What folding the call stacks guarantees about the forest: every stack's
    path can be followed in it, nothing found is ever replaced, equal keys
    lead to the same node, totals are those of the last stack ending at a
    node, names are those of the frame that created it, and the roots are
    the distinct root keys in order of first appearance. */
module ProcessProps {
  import opened Results
  import opened PyStr
  import opened Dicts
  import LoudLog
  import opened Process

  // ---------------------------------------------------------------------
  // Following a stack's keys through the forest
  // ---------------------------------------------------------------------

  /** The child of node `n` filed under call site `ck` and callee key `key`. */
  function Child(nodes: seq<Function>, n: nat, ck: string, key: string): Option<nat> {
    if n < |nodes| then
      match Get(nodes[n].children, ck)
      case None => None
      case Some(b) => Get(b, key)
    else None
  }

  /** The node reached by the first `k` frames of the stack: the root under
      `funcs[0].identifier(False)`, then for each later frame `i` the bucket
      `funcs[i-1].identifier(True)` and in it the key
      `funcs[i].identifier(False)`. */
  function Follow(f: Forest, s: LoudLog.CallStack, k: nat): Option<nat>
    requires 1 <= k <= |s.funcs|
    decreases k
  {
    if k == 1 then Get(f.roots, CalleeKey(s, 0))
    else
      match Follow(f, s, k - 1)
      case None => None
      case Some(p) => Child(f.nodes, p, CallSiteKey(s, k - 1), CalleeKey(s, k - 1))
  }

  /** Forest `g` keeps what `f` holds: every node under its name, every root
      and every child where it was found. */
  ghost predicate Extends(f: Forest, g: Forest) {
    && KeepsNames(f.nodes, g.nodes)
    && (forall key {:trigger Get(f.roots, key)} :: Get(f.roots, key).Some? ==> Get(g.roots, key) == Get(f.roots, key))
    && (forall n: nat, ck, key {:trigger Child(f.nodes, n, ck, key)} :: Child(f.nodes, n, ck, key).Some? ==> Child(g.nodes, n, ck, key) == Child(f.nodes, n, ck, key))
  }

  lemma ExtendsReflexive(f: Forest)
    ensures Extends(f, f)
  {
  }

  lemma ExtendsTransitive(f: Forest, g: Forest, h: Forest)
    requires Extends(f, g) && Extends(g, h)
    ensures Extends(f, h)
  {
    forall i | 0 <= i < |f.nodes| ensures SameName(f.nodes[i], h.nodes[i]) {
      assert SameName(f.nodes[i], g.nodes[i]) && SameName(g.nodes[i], h.nodes[i]);
    }
  }

  /** A path found in `f` is found, to the same node, in any extension. */
  lemma {:induction false} FollowExtends(f: Forest, g: Forest, s: LoudLog.CallStack, k: nat)
    requires Extends(f, g) && 1 <= k <= |s.funcs| && Follow(f, s, k).Some?
    ensures Follow(g, s, k) == Follow(f, s, k)
    decreases k
  {
    if k > 1 {
      FollowExtends(f, g, s, k - 1);
    }
  }

  // ---------------------------------------------------------------------
  // One `_add`
  // ---------------------------------------------------------------------

  /** The node `_add` gives back is filed where `_add` looked for it. */
  lemma LocateFiles(f: Forest, at: Option<nat>, s: LoudLog.CallStack, index: nat)
    requires WellFormed(f) && AddArgs(f, at, s, index)
    ensures var (g, n) := Locate(f, at, s, index);
      if index == 0 then Get(g.roots, CalleeKey(s, 0)) == Some(n)
      else Child(g.nodes, at.value, CallSiteKey(s, index), CalleeKey(s, index)) == Some(n)
  {
  }

  /** Appending a node keeps everything already there. */
  lemma AppendExtends(f: Forest, node: Function)
    ensures Extends(f, f.(nodes := f.nodes + [node]))
  {
    var g := f.(nodes := f.nodes + [node]);
    forall m: nat, ck, k' | Child(f.nodes, m, ck, k').Some?
      ensures Child(g.nodes, m, ck, k') == Child(f.nodes, m, ck, k')
    {
      assert g.nodes[m] == f.nodes[m];
    }
    forall i | 0 <= i < |f.nodes| ensures SameName(f.nodes[i], g.nodes[i]) {
      assert g.nodes[i] == f.nodes[i];
    }
  }

  /** Filing a new key in the designated dict keeps every root and every
      child already filed. */
  lemma StoreExtends(f: Forest, at: Option<nat>, s: LoudLog.CallStack, index: nat, b: Dict<nat>, key: string, n: nat)
    requires AddArgs(f, at, s, index)
    requires b == Designated(f, at, s, index) && Get(b, key).None?
    ensures Extends(f, Store(f, at, s, index, Put(b, key, n)))
  {
    var g := Store(f, at, s, index, Put(b, key, n));
    if index > 0 {
      var p := at.value;
      var site := CallSiteKey(s, index);
      forall m: nat, ck, k' | Child(f.nodes, m, ck, k').Some?
        ensures Child(g.nodes, m, ck, k') == Child(f.nodes, m, ck, k')
      {
        if m != p {
          assert g.nodes[m] == f.nodes[m];
        } else if ck != site {
          assert Get(g.nodes[p].children, ck) == Get(f.nodes[p].children, ck);
        } else {
          assert Get(f.nodes[p].children, site) == Some(b);
          assert Get(g.nodes[p].children, site) == Some(Put(b, key, n));
        }
      }
      assert KeepsNames(f.nodes, g.nodes);
    }
  }

  /** `_add` only adds: a node appended, a key filed in a dict, a bucket
      filed under a call site. */
  lemma LocateExtends(f: Forest, at: Option<nat>, s: LoudLog.CallStack, index: nat)
    requires WellFormed(f) && AddArgs(f, at, s, index)
    ensures Extends(f, Locate(f, at, s, index).0)
  {
    var key := CalleeKey(s, index);
    var b := Designated(f, at, s, index);
    if Get(b, key).None? {
      var n := |f.nodes|;
      var grown := f.(nodes := f.nodes + [Created(s.funcs[index])]);
      AppendExtends(f, Created(s.funcs[index]));
      assert index > 0 ==> grown.nodes[at.value] == f.nodes[at.value];
      assert Designated(grown, at, s, index) == b;
      StoreExtends(grown, at, s, index, b, key, n);
      ExtendsTransitive(f, grown, Store(grown, at, s, index, Put(b, key, n)));
    } else {
      ExtendsReflexive(f);
    }
  }

  /** What `_add` does beside locating the node: at the last frame, overwrite
      the node's total. */
  lemma SetTotalExtends(f: Forest, n: nat, d: real)
    requires n < |f.nodes|
    ensures Extends(f, f.(nodes := SetTotal(f.nodes, n, d)))
  {
    var g := f.(nodes := SetTotal(f.nodes, n, d));
    forall m: nat, ck, k' | Child(f.nodes, m, ck, k').Some?
      ensures Child(g.nodes, m, ck, k') == Child(f.nodes, m, ck, k')
    {
      assert g.nodes[m].children == f.nodes[m].children;
    }
  }

  lemma AddStepExtends(f: Forest, at: Option<nat>, s: LoudLog.CallStack, index: nat)
    requires WellFormed(f) && AddArgs(f, at, s, index)
    ensures Extends(f, AddStep(f, at, s, index).0)
  {
    LocateExtends(f, at, s, index);
    var (g, n) := Locate(f, at, s, index);
    if index == |s.funcs| - 1 {
      SetTotalExtends(g, n, s.totalDuration);
      ExtendsTransitive(f, g, g.(nodes := SetTotal(g.nodes, n, s.totalDuration)));
    }
  }

  lemma AddStepFiles(f: Forest, at: Option<nat>, s: LoudLog.CallStack, index: nat)
    requires WellFormed(f) && AddArgs(f, at, s, index)
    ensures var (g, n) := AddStep(f, at, s, index);
      if index == 0 then Get(g.roots, CalleeKey(s, 0)) == Some(n)
      else Child(g.nodes, at.value, CallSiteKey(s, index), CalleeKey(s, index)) == Some(n)
  {
    LocateFiles(f, at, s, index);
    var (g, n) := Locate(f, at, s, index);
    if index == |s.funcs| - 1 && index > 0 {
      var h := g.(nodes := SetTotal(g.nodes, n, s.totalDuration));
      assert h.nodes[at.value].children == g.nodes[at.value].children;
    }
  }

  // ---------------------------------------------------------------------
  // One stack
  // ---------------------------------------------------------------------

  /** While a stack is walked, the frames before `index` lead to the current
      node. */
  ghost predicate OnPath(f: Forest, at: Option<nat>, s: LoudLog.CallStack, index: nat)
    requires WalkArgs(f, at, s, index)
  {
    index > 0 ==> Follow(f, s, index) == at
  }

  /** The rest of a walk only extends the forest, and its last node is the
      one the stack's keys lead to. */
  lemma {:induction false} WalkFromFollows(f: Forest, at: Option<nat>, s: LoudLog.CallStack, index: nat)
    requires WellFormed(f) && WalkArgs(f, at, s, index) && |s.funcs| >= 1 && OnPath(f, at, s, index)
    ensures Extends(f, WalkFrom(f, at, s, index).0)
    ensures Follow(WalkFrom(f, at, s, index).0, s, |s.funcs|) == Some(WalkFrom(f, at, s, index).1)
    decreases |s.funcs| - index
  {
    if index == |s.funcs| {
      ExtendsReflexive(f);
    } else {
      var g := AddStep(f, at, s, index);
      AddStepWellFormed(f, at, s, index);
      AddStepExtends(f, at, s, index);
      AddStepFiles(f, at, s, index);
      if index > 0 {
        FollowExtends(f, g.0, s, index);
      }
      assert Follow(g.0, s, index + 1) == Some(g.1);
      WalkFromFollows(g.0, Some(g.1), s, index + 1);
      ExtendsTransitive(f, g.0, WalkFrom(g.0, Some(g.1), s, index + 1).0);
    }
  }

  /** Adding a stack keeps all the forest held, and its keys lead to the
      node its last frame reached. */
  lemma AddStackFollows(f: Forest, s: LoudLog.CallStack)
    requires WellFormed(f) && |s.funcs| >= 1
    ensures Extends(f, AddStack(f, s))
    ensures Follow(AddStack(f, s), s, |s.funcs|) == Some(Terminal(f, s))
  {
    WalkFromFollows(f, None, s, 0);
  }

  /** A path that can be followed can be followed through each prefix. */
  lemma {:induction false} FollowPrefix(f: Forest, s: LoudLog.CallStack, i: nat, k: nat)
    requires 1 <= i <= k <= |s.funcs| && Follow(f, s, k).Some?
    ensures Follow(f, s, i).Some?
    decreases k
  {
    if i < k {
      FollowPrefix(f, s, i, k - 1);
    }
  }

  /** The node a path leads to is in the arena and carries the callee key of
      the path's last frame. */
  lemma {:induction false} FollowIdentifier(f: Forest, s: LoudLog.CallStack, k: nat)
    requires WellFormed(f) && 1 <= k <= |s.funcs| && Follow(f, s, k).Some?
    ensures Follow(f, s, k).value < |f.nodes|
    ensures Identifier(f.nodes[Follow(f, s, k).value]) == CalleeKey(s, k - 1)
    decreases k
  {
    if k == 1 {
      BucketGet(f.nodes, -1, f.roots, CalleeKey(s, 0));
    } else {
      FollowIdentifier(f, s, k - 1);
      var p := Follow(f, s, k - 1).value;
      assert ChildrenOk(f.nodes, p);
      var ch := f.nodes[p].children;
      var c := GetFound(ch, CallSiteKey(s, k - 1));
      BucketGet(f.nodes, p, ch[c].1, CalleeKey(s, k - 1));
    }
  }

  /** The first `k` frames of two stacks have the same callee keys and the
      same call-site keys. */
  ghost predicate SameKeys(s: LoudLog.CallStack, t: LoudLog.CallStack, k: nat)
    requires k <= |s.funcs| && k <= |t.funcs|
  {
    && (forall i :: 0 <= i < k ==> CalleeKey(s, i) == CalleeKey(t, i))
    && (forall i :: 0 < i < k ==> CallSiteKey(s, i) == CallSiteKey(t, i))
  }

  /** Following depends on the keys alone: two stacks whose first `k` frames
      have the same callee keys and call-site keys reach the same node. */
  lemma {:induction false} FollowSameKeys(f: Forest, s: LoudLog.CallStack, t: LoudLog.CallStack, k: nat)
    requires 1 <= k <= |s.funcs| && k <= |t.funcs| && SameKeys(s, t, k)
    ensures Follow(f, s, k) == Follow(f, t, k)
    decreases k
  {
    if k == 1 {
      assert CalleeKey(s, 0) == CalleeKey(t, 0);
    } else {
      assert SameKeys(s, t, k - 1);
      FollowSameKeys(f, s, t, k - 1);
      assert CalleeKey(s, k - 1) == CalleeKey(t, k - 1);
      assert CallSiteKey(s, k - 1) == CallSiteKey(t, k - 1);
    }
  }

  /** Where the callee keys of two paths differ, so do the nodes. */
  lemma FollowDiverges(f: Forest, s: LoudLog.CallStack, t: LoudLog.CallStack, k: nat)
    requires WellFormed(f) && 1 <= k <= |s.funcs| && k <= |t.funcs|
    requires Follow(f, s, k).Some? && Follow(f, t, k).Some?
    requires CalleeKey(s, k - 1) != CalleeKey(t, k - 1)
    ensures Follow(f, s, k) != Follow(f, t, k)
  {
    FollowIdentifier(f, s, k);
    FollowIdentifier(f, t, k);
  }

  // ---------------------------------------------------------------------
  // All stacks
  // ---------------------------------------------------------------------

  lemma AllHaveFramesPrefix(stacks: seq<LoudLog.CallStack>, i: nat)
    requires AllHaveFrames(stacks) && i <= |stacks|
    ensures AllHaveFrames(stacks[..i])
  {
  }

  /** The forest after the first `i` stacks is kept by the rest of `process`. */
  lemma {:induction false} ProcessAllExtends(stacks: seq<LoudLog.CallStack>, i: nat)
    requires AllHaveFrames(stacks) && i <= |stacks|
    ensures AllHaveFrames(stacks[..i])
    ensures Extends(ProcessAll(stacks[..i]), ProcessAll(stacks))
    decreases |stacks|
  {
    if i == |stacks| {
      assert stacks[..i] == stacks;
      ExtendsReflexive(ProcessAll(stacks));
    } else {
      var pre := stacks[..|stacks| - 1];
      AllHaveFramesPrefix(stacks, |stacks| - 1);
      ProcessAllExtends(pre, i);
      assert pre[..i] == stacks[..i];
      AddStackFollows(ProcessAll(pre), stacks[|stacks| - 1]);
      ExtendsTransitive(ProcessAll(stacks[..i]), ProcessAll(pre), ProcessAll(stacks));
    }
  }

  /** Stack `j` is folded into the forest of the stacks before it. */
  lemma ProcessAllStep(stacks: seq<LoudLog.CallStack>, j: nat)
    requires AllHaveFrames(stacks) && j < |stacks|
    ensures AllHaveFrames(stacks[..j]) && AllHaveFrames(stacks[..j + 1])
    ensures ProcessAll(stacks[..j + 1]) == AddStack(ProcessAll(stacks[..j]), stacks[j])
  {
    AllHaveFramesPrefix(stacks, j);
    AllHaveFramesPrefix(stacks, j + 1);
    assert stacks[..j + 1][..j] == stacks[..j];
  }

  /** After `process`, every stack's path can be followed through each of
      its frames, and the whole path leads to the node the stack's last
      frame reached when the stack was folded in. */
  lemma PathsFollowed(stacks: seq<LoudLog.CallStack>, j: nat, k: nat)
    requires AllHaveFrames(stacks) && j < |stacks| && 1 <= k <= |stacks[j].funcs|
    ensures AllHaveFrames(stacks[..j])
    ensures Follow(ProcessAll(stacks), stacks[j], |stacks[j].funcs|) == Some(Terminal(ProcessAll(stacks[..j]), stacks[j]))
    ensures Follow(ProcessAll(stacks), stacks[j], k).Some?
  {
    var s := stacks[j];
    ProcessAllStep(stacks, j);
    var before := ProcessAll(stacks[..j]);
    AddStackFollows(before, s);
    ProcessAllExtends(stacks, j + 1);
    FollowExtends(AddStack(before, s), ProcessAll(stacks), s, |s.funcs|);
    FollowPrefix(ProcessAll(stacks), s, k, |s.funcs|);
  }
}
