/** Each node of the forest is filed in exactly one place: under one root
    key, or under one parent, call site and callee key. So a node determines
    the path that leads to it, and two paths lead to the same node only when
    their keys agree. */
module ProcessSlots {
  import opened Results
  import opened Dicts
  import LoudLog
  import opened Process
  import opened ProcessProps

  /** A place a node can be filed in. */
  datatype Slot = Root(key: string) | Under(parent: nat, site: string, key: string)

  /** The node filed in slot `x`, if any. */
  function Lookup(f: Forest, x: Slot): Option<nat> {
    match x
    case Root(key) => Get(f.roots, key)
    case Under(p, site, key) => Child(f.nodes, p, site, key)
  }

  /** No node is filed in two slots. */
  ghost predicate SlotsUnique(f: Forest) {
    forall x: Slot, y: Slot {:trigger Lookup(f, x), Lookup(f, y)} ::
      Lookup(f, x).Some? && Lookup(f, x) == Lookup(f, y) ==> x == y
  }

  /** The slot `_add` files frame `index` in. */
  function FiledAt(f: Forest, at: Option<nat>, s: LoudLog.CallStack, index: nat): Slot
    requires AddArgs(f, at, s, index)
  {
    if index == 0 then Root(CalleeKey(s, 0)) else Under(at.value, CallSiteKey(s, index), CalleeKey(s, index))
  }

  /** Whatever a slot of a well-formed forest holds is in the arena. */
  lemma LookupInArena(f: Forest, x: Slot)
    requires WellFormed(f)
    ensures Lookup(f, x).Some? ==> Lookup(f, x).value < |f.nodes|
  {
    match x
    case Root(key) =>
      BucketGet(f.nodes, -1, f.roots, key);
    case Under(p, site, key) =>
      if Lookup(f, x).Some? {
        assert ChildrenOk(f.nodes, p);
        var c := GetFound(f.nodes[p].children, site);
        BucketGet(f.nodes, p, f.nodes[p].children[c].1, key);
      }
  }

  /** What the designated dict holds under the callee key is what the slot
      `_add` files in holds. */
  lemma DesignatedLookup(f: Forest, at: Option<nat>, s: LoudLog.CallStack, index: nat)
    requires AddArgs(f, at, s, index)
    ensures Get(Designated(f, at, s, index), CalleeKey(s, index)) == Lookup(f, FiledAt(f, at, s, index))
  {
  }

  /** A node appended without children holds no slot and empties none. */
  lemma GrownChild(nodes: seq<Function>, newNode: Function, p: nat, site: string, key: string)
    requires newNode.children == []
    ensures Child(nodes + [newNode], p, site, key) == Child(nodes, p, site, key)
  {
    if p < |nodes| {
      assert (nodes + [newNode])[p] == nodes[p];
    } else if p == |nodes| {
      assert (nodes + [newNode])[p] == newNode;
    }
  }

  /** Writing bucket `b` back under the call site of node `at` changes only
      the lookups under that node and call site, which now go to `b`. */
  lemma StoredChild(f: Forest, at: Option<nat>, s: LoudLog.CallStack, index: nat, b: Dict<nat>, p: nat, site: string, key: string)
    requires AddArgs(f, at, s, index) && index > 0
    ensures Child(Store(f, at, s, index, b).nodes, p, site, key) ==
      if p == at.value && site == CallSiteKey(s, index) then Get(b, key) else Child(f.nodes, p, site, key)
  {
    var g := Store(f, at, s, index, b);
    if p != at.value {
      if p < |f.nodes| {
        assert g.nodes[p] == f.nodes[p];
      }
    } else {
      var ch := f.nodes[p].children;
      assert g.nodes[p].children == Put(ch, CallSiteKey(s, index), b);
    }
  }

  /** The forest `Locate` builds when the slot is empty: a new node is
      appended and filed under the callee key in the designated dict. */
  function Grown(f: Forest, at: Option<nat>, s: LoudLog.CallStack, index: nat): Forest
    requires AddArgs(f, at, s, index)
  {
    var grown := f.(nodes := f.nodes + [Created(s.funcs[index])]);
    Store(grown, at, s, index, Put(Designated(f, at, s, index), CalleeKey(s, index), |f.nodes|))
  }

  lemma LocateCreates(f: Forest, at: Option<nat>, s: LoudLog.CallStack, index: nat)
    requires WellFormed(f) && AddArgs(f, at, s, index)
    requires Lookup(f, FiledAt(f, at, s, index)).None?
    ensures Locate(f, at, s, index) == (Grown(f, at, s, index), |f.nodes|)
  {
    DesignatedLookup(f, at, s, index);
  }

  /** `Locate` writes a node number as an `int`; on a dict of node numbers
      that is the same update. */
  lemma {:induction false} IndexOfAsInt(d: Dict<nat>, k: string)
    ensures IndexOf<int>(d, k) == IndexOf<nat>(d, k)
    decreases |d|
  {
    if d != [] && d[0].0 != k {
      IndexOfAsInt(d[1..], k);
    }
  }

  lemma PutAsInt(d: Dict<nat>, key: string, v: nat)
    ensures Put<int>(d, key, v) == Put<nat>(d, key, v)
  {
    IndexOfAsInt(d, key);
  }

  lemma GrownRoot(f: Forest, at: Option<nat>, s: LoudLog.CallStack, index: nat, k: string)
    requires AddArgs(f, at, s, index)
    ensures Lookup(Grown(f, at, s, index), Root(k)) ==
      if Root(k) == FiledAt(f, at, s, index) then Some(|f.nodes|) else Lookup(f, Root(k))
  {
    var g := Grown(f, at, s, index);
    if index == 0 {
      var key := CalleeKey(s, 0);
      PutAsInt(f.roots, key, |f.nodes|);
      assert g.roots == Put<nat>(f.roots, key, |f.nodes|);
    } else {
      assert g.roots == f.roots;
      assert FiledAt(f, at, s, index).Under?;
    }
  }

  lemma GrownUnderRoots(f: Forest, at: Option<nat>, s: LoudLog.CallStack, p: nat, site: string, k: string)
    requires AddArgs(f, at, s, 0)
    ensures Lookup(Grown(f, at, s, 0), Under(p, site, k)) == Lookup(f, Under(p, site, k))
  {
    assert Grown(f, at, s, 0).nodes == f.nodes + [Created(s.funcs[0])];
    GrownChild(f.nodes, Created(s.funcs[0]), p, site, k);
  }

  lemma GrownUnderNode(f: Forest, at: Option<nat>, s: LoudLog.CallStack, index: nat, p: nat, site: string, k: string)
    requires AddArgs(f, at, s, index) && index > 0
    requires Lookup(f, FiledAt(f, at, s, index)).None?
    ensures Lookup(Grown(f, at, s, index), Under(p, site, k)) ==
      if Under(p, site, k) == FiledAt(f, at, s, index) then Some(|f.nodes|) else Lookup(f, Under(p, site, k))
  {
    DesignatedLookup(f, at, s, index);
    var newNode := Created(s.funcs[index]);
    var grown := f.(nodes := f.nodes + [newNode]);
    var b := Put<nat>(Designated(f, at, s, index), CalleeKey(s, index), |f.nodes|);
    PutAsInt(Designated(f, at, s, index), CalleeKey(s, index), |f.nodes|);
    StoredChild(grown, at, s, index, b, p, site, k);
    GrownChild(f.nodes, newNode, p, site, k);
    if p == at.value && site == CallSiteKey(s, index) {
      GrownChild(f.nodes, newNode, p, site, CalleeKey(s, index));
    }
  }

  /** One slot after `Locate` creates a node: the slot it is filed in holds
      the new node, any other slot holds what it held. */
  lemma LocateLookup(f: Forest, at: Option<nat>, s: LoudLog.CallStack, index: nat, x: Slot)
    requires WellFormed(f) && AddArgs(f, at, s, index)
    requires Lookup(f, FiledAt(f, at, s, index)).None?
    ensures Lookup(Locate(f, at, s, index).0, x) ==
      if x == FiledAt(f, at, s, index) then Some(|f.nodes|) else Lookup(f, x)
  {
    LocateCreates(f, at, s, index);
    match x
    case Root(k) => GrownRoot(f, at, s, index, k);
    case Under(p, site, k) =>
      if index == 0 {
        GrownUnderRoots(f, at, s, p, site, k);
      } else {
        GrownUnderNode(f, at, s, index, p, site, k);
      }
  }

  /** A node `_add` creates fills exactly the slot it is filed in; every
      other slot keeps what it held. */
  lemma LocateLookups(f: Forest, at: Option<nat>, s: LoudLog.CallStack, index: nat)
    requires WellFormed(f) && AddArgs(f, at, s, index)
    requires Lookup(f, FiledAt(f, at, s, index)).None?
    ensures var (g, n) := Locate(f, at, s, index);
      && n == |f.nodes|
      && forall x :: Lookup(g, x) == if x == FiledAt(f, at, s, index) then Some(n) else Lookup(f, x)
  {
    DesignatedLookup(f, at, s, index);
    forall x ensures Lookup(Locate(f, at, s, index).0, x) ==
      if x == FiledAt(f, at, s, index) then Some(|f.nodes|) else Lookup(f, x)
    {
      LocateLookup(f, at, s, index, x);
    }
  }

  /** `_add` either reuses the node in its slot, changing no slot, or fills
      the empty slot with a node that was in no slot before; slots stay
      unique. */
  lemma AddStepSlotsUnique(f: Forest, at: Option<nat>, s: LoudLog.CallStack, index: nat)
    requires WellFormed(f) && AddArgs(f, at, s, index) && SlotsUnique(f)
    ensures SlotsUnique(AddStep(f, at, s, index).0)
  {
    var (g, n) := Locate(f, at, s, index);
    var filed := FiledAt(f, at, s, index);
    DesignatedLookup(f, at, s, index);
    if Lookup(f, filed).None? {
      LocateLookups(f, at, s, index);
      forall x: Slot, y: Slot | Lookup(g, x).Some? && Lookup(g, x) == Lookup(g, y) ensures x == y {
        LookupInArena(f, x);
        LookupInArena(f, y);
      }
    }
    var h := AddStep(f, at, s, index).0;
    forall x: Slot ensures Lookup(h, x) == Lookup(g, x) {
      if index == |s.funcs| - 1 {
        match x
        case Root(_) =>
        case Under(p, _, _) =>
          if p < |g.nodes| {
            assert h.nodes[p].children == g.nodes[p].children;
          }
      }
    }
  }

  /** The rest of a walk keeps every node in at most one slot. */
  lemma {:induction false} WalkFromSlotsUnique(f: Forest, at: Option<nat>, s: LoudLog.CallStack, index: nat)
    requires WellFormed(f) && WalkArgs(f, at, s, index) && |s.funcs| >= 1 && SlotsUnique(f)
    ensures SlotsUnique(WalkFrom(f, at, s, index).0)
    decreases |s.funcs| - index
  {
    if index < |s.funcs| {
      WalkFromStep(f, at, s, index);
      AddStepSlotsUnique(f, at, s, index);
      var g := AddStep(f, at, s, index);
      WalkFromSlotsUnique(g.0, Some(g.1), s, index + 1);
    }
  }

  /** `process` files every node in exactly one slot. */
  lemma {:induction false} ProcessAllSlotsUnique(stacks: seq<LoudLog.CallStack>)
    requires AllHaveFrames(stacks)
    ensures SlotsUnique(ProcessAll(stacks))
    decreases |stacks|
  {
    if stacks != [] {
      var pre := stacks[..|stacks| - 1];
      AllHaveFramesPrefix(stacks, |stacks| - 1);
      ProcessAllSlotsUnique(pre);
      WalkFromSlotsUnique(ProcessAll(pre), None, stacks[|stacks| - 1], 0);
    }
  }

  lemma RootSlotUnique(f: Forest, key: string, key': string)
    requires SlotsUnique(f)
    ensures Get(f.roots, key).Some? && Get(f.roots, key) == Get(f.roots, key') ==> key == key'
  {
    assert Lookup(f, Root(key)) == Get(f.roots, key);
    assert Lookup(f, Root(key')) == Get(f.roots, key');
  }

  lemma RootNotChild(f: Forest, key: string, p: nat, site: string, key': string)
    requires SlotsUnique(f)
    ensures Get(f.roots, key).Some? ==> Get(f.roots, key) != Child(f.nodes, p, site, key')
  {
    assert Lookup(f, Root(key)) == Get(f.roots, key);
    assert Lookup(f, Under(p, site, key')) == Child(f.nodes, p, site, key');
  }

  lemma ChildSlotUnique(f: Forest, p: nat, site: string, key: string, p': nat, site': string, key': string)
    requires SlotsUnique(f)
    ensures Child(f.nodes, p, site, key).Some? && Child(f.nodes, p, site, key) == Child(f.nodes, p', site', key') ==>
      p == p' && site == site' && key == key'
  {
    assert Lookup(f, Under(p, site, key)) == Child(f.nodes, p, site, key);
    assert Lookup(f, Under(p', site', key')) == Child(f.nodes, p', site', key');
  }

  /** The node reached from the root filed under `root` by the buckets and
      keys of `steps`, one (call site, callee key) pair per level. */
  function FollowPath(f: Forest, root: string, steps: seq<(string, string)>): Option<nat>
    decreases |steps|
  {
    if steps == [] then Get(f.roots, root)
    else
      match FollowPath(f, root, steps[..|steps| - 1])
      case None => None
      case Some(p) => Child(f.nodes, p, steps[|steps| - 1].0, steps[|steps| - 1].1)
  }

  /** The keys the first `k` frames of a stack are followed by, past the
      root: for each frame `i` from 1, its call-site key and callee key. */
  function Steps(s: LoudLog.CallStack, k: nat): (r: seq<(string, string)>)
    requires 1 <= k <= |s.funcs|
    ensures |r| == k - 1
    ensures forall i :: 0 <= i < k - 1 ==> r[i] == (CallSiteKey(s, i + 1), CalleeKey(s, i + 1))
  {
    seq(k - 1, i requires 0 <= i < k - 1 => (CallSiteKey(s, i + 1), CalleeKey(s, i + 1)))
  }

  lemma {:induction false} FollowAsPath(f: Forest, s: LoudLog.CallStack, k: nat)
    requires 1 <= k <= |s.funcs|
    ensures Follow(f, s, k) == FollowPath(f, CalleeKey(s, 0), Steps(s, k))
    decreases k
  {
    if k > 1 {
      FollowAsPath(f, s, k - 1);
      assert Steps(s, k)[..k - 2] == Steps(s, k - 1);
    }
  }

  /** When the slots are unique, the node an explicit path reaches
      determines the path. */
  lemma {:induction false} FollowPathInjective(f: Forest, r: string, p: seq<(string, string)>, r': string, p': seq<(string, string)>)
    requires SlotsUnique(f)
    requires FollowPath(f, r, p).Some? && FollowPath(f, r, p) == FollowPath(f, r', p')
    ensures r == r' && p == p'
    decreases |p|
  {
    if p == [] && p' == [] {
      RootSlotUnique(f, r, r');
    } else if p == [] {
      var q' := FollowPath(f, r', p'[..|p'| - 1]).value;
      RootNotChild(f, r, q', p'[|p'| - 1].0, p'[|p'| - 1].1);
    } else if p' == [] {
      var q := FollowPath(f, r, p[..|p| - 1]).value;
      RootNotChild(f, r', q, p[|p| - 1].0, p[|p| - 1].1);
    } else {
      var q := FollowPath(f, r, p[..|p| - 1]).value;
      var q' := FollowPath(f, r', p'[..|p'| - 1]).value;
      ChildSlotUnique(f, q, p[|p| - 1].0, p[|p| - 1].1, q', p'[|p'| - 1].0, p'[|p'| - 1].1);
      FollowPathInjective(f, r, p[..|p| - 1], r', p'[..|p'| - 1]);
      assert p == p[..|p| - 1] + [p[|p| - 1]];
      assert p' == p'[..|p'| - 1] + [p'[|p'| - 1]];
    }
  }

  /** Equal roots and equal steps are equal keys. */
  lemma StepsSameKeys(s: LoudLog.CallStack, t: LoudLog.CallStack, k: nat)
    requires 1 <= k <= |s.funcs| && k <= |t.funcs|
    requires CalleeKey(s, 0) == CalleeKey(t, 0) && Steps(s, k) == Steps(t, k)
    ensures SameKeys(s, t, k)
  {
    forall i | 0 < i < k ensures CalleeKey(s, i) == CalleeKey(t, i) && CallSiteKey(s, i) == CallSiteKey(t, i) {
      assert Steps(s, k)[i - 1] == Steps(t, k)[i - 1];
    }
  }

  /** When the slots are unique, a node determines the path to it: two
      paths that reach the same node have the same length and the same
      callee and call-site keys. */
  lemma FollowInjective(f: Forest, s: LoudLog.CallStack, t: LoudLog.CallStack, k: nat, j: nat)
    requires SlotsUnique(f)
    requires 1 <= k <= |s.funcs| && 1 <= j <= |t.funcs|
    requires Follow(f, s, k).Some? && Follow(f, s, k) == Follow(f, t, j)
    ensures k == j && SameKeys(s, t, k)
  {
    FollowAsPath(f, s, k);
    FollowAsPath(f, t, j);
    FollowPathInjective(f, CalleeKey(s, 0), Steps(s, k), CalleeKey(t, 0), Steps(t, j));
    StepsSameKeys(s, t, k);
  }

  /** After `process`, the prefixes of two stacks lead to the same node
      exactly when they have the same length and the same callee and
      call-site keys: paths merge where their keys agree and stay apart
      from the first key on which they differ. */
  lemma SameNodeIffSameKeys(stacks: seq<LoudLog.CallStack>, a: nat, b: nat, k: nat, j: nat)
    requires AllHaveFrames(stacks) && a < |stacks| && b < |stacks|
    requires 1 <= k <= |stacks[a].funcs| && 1 <= j <= |stacks[b].funcs|
    ensures Follow(ProcessAll(stacks), stacks[a], k).Some?
    ensures Follow(ProcessAll(stacks), stacks[a], k) == Follow(ProcessAll(stacks), stacks[b], j)
      <==> k == j && SameKeys(stacks[a], stacks[b], k)
  {
    var f := ProcessAll(stacks);
    PathsFollowed(stacks, a, k);
    PathsFollowed(stacks, b, j);
    ProcessAllSlotsUnique(stacks);
    if Follow(f, stacks[a], k) == Follow(f, stacks[b], j) {
      FollowInjective(f, stacks[a], stacks[b], k, j);
    }
    if k == j && SameKeys(stacks[a], stacks[b], k) {
      FollowSameKeys(f, stacks[a], stacks[b], k);
    }
  }
}
