/** The tree aggregator: call stacks are folded into one forest whose nodes
    hold, per call site of the parent (`identifier(True)` of the parent's
    frame), a dict from callee key (`identifier(False)`) to child node.

    Python's nodes are objects linked by references. Here they live in an
    arena: a node is named by its position in `nodes`, and a dict holds
    positions. The arena only ever grows, so a position, once handed out,
    keeps naming the same node. */
module Process {
  import opened Results
  import opened PyStr
  import opened Dicts
  import LoudLog

  /** `Function`: what a node of the call tree is called, the duration of
      the last stack that ended at it, and its children, grouped by the
      call site in this node from which they were called. */
  datatype Function = Function(source: string, lineno: int, name: string,
                               totalDuration: real, children: Dict<Dict<nat>>)

  /** `Function.identifier()`: the node's callee key. */
  function Identifier(f: Function): string {
    if f.source == LoudLog.NativeSource then f.name
    else f.source + ":" + IntToStr(f.lineno) + (if f.name != "" then "(" + f.name + ")" else "")
  }

  /** The node `_add` creates for a frame: its name, no duration, no children. */
  function Created(func: LoudLog.Func): (r: Function)
    ensures r.totalDuration == 0.0 && r.children == []
  {
    Function(func.source, func.lineno, func.name, 0.0, [])
  }

  /** A node is keyed by its creating frame's callee key. */
  lemma IdentifierOfCreated(func: LoudLog.Func)
    ensures Identifier(Created(func)) == LoudLog.Identifier(func, false)
  {
  }

  /** The roots of the forest (the `functions` dict of `process`) and the
      arena holding every node. */
  datatype Forest = Forest(nodes: seq<Function>, roots: Dict<nat>)

  const Empty: Forest := Forest([], [])

  // ---------------------------------------------------------------------
  // The shape the aggregator maintains
  // ---------------------------------------------------------------------

  /** A dict of nodes: each key at most once, naming a node after `lo` in
      the arena whose own identifier is the key. */
  ghost predicate BucketOk(nodes: seq<Function>, lo: int, b: Dict<nat>) {
    && UniqueKeys(b)
    && forall j :: 0 <= j < |b| ==> lo < b[j].1 < |nodes| && Identifier(nodes[b[j].1]) == b[j].0
  }

  /** The children of node `n`: each call site at most once, each bucket
      non-empty and holding nodes created after `n`. */
  ghost predicate ChildrenOk(nodes: seq<Function>, n: nat)
    requires n < |nodes|
  {
    var ch := nodes[n].children;
    && UniqueKeys(ch)
    && forall c :: 0 <= c < |ch| ==> ch[c].1 != [] && BucketOk(nodes, n, ch[c].1)
  }

  ghost predicate WellFormed(f: Forest) {
    && BucketOk(f.nodes, -1, f.roots)
    && forall n :: 0 <= n < |f.nodes| ==> ChildrenOk(f.nodes, n)
  }

  /** Node `m` has the name of node `n`. */
  ghost predicate SameName(n: Function, m: Function) {
    n.source == m.source && n.lineno == m.lineno && n.name == m.name
  }

  /** The arena `later` keeps every node of `earlier` under its name. */
  ghost predicate KeepsNames(earlier: seq<Function>, later: seq<Function>) {
    |earlier| <= |later| && forall i :: 0 <= i < |earlier| ==> SameName(earlier[i], later[i])
  }

  lemma BucketOkKept(nodes: seq<Function>, later: seq<Function>, lo: int, b: Dict<nat>)
    requires BucketOk(nodes, lo, b) && KeepsNames(nodes, later)
    ensures BucketOk(later, lo, b)
  {
    forall j | 0 <= j < |b| ensures Identifier(later[b[j].1]) == b[j].0 {
      assert SameName(nodes[b[j].1], later[b[j].1]);
    }
  }

  // ---------------------------------------------------------------------
  // One call of `_add`
  // ---------------------------------------------------------------------

  /** The key `func.identifier(False)` of frame `index`. */
  function CalleeKey(s: LoudLog.CallStack, index: nat): string
    requires index < |s.funcs|
  {
    LoudLog.Identifier(s.funcs[index], false)
  }

  /** The key `call_stack.funcs[index - 1].identifier(True)`. */
  function CallSiteKey(s: LoudLog.CallStack, index: nat): string
    requires 0 < index < |s.funcs|
  {
    LoudLog.Identifier(s.funcs[index - 1], true)
  }

  /** What `_add` may be called with: frame 0 goes into the roots, a later
      frame into the children of an existing node. */
  ghost predicate AddArgs(f: Forest, at: Option<nat>, s: LoudLog.CallStack, index: nat) {
    && index < |s.funcs|
    && (at.None? <==> index == 0)
    && (at.Some? ==> at.value < |f.nodes|)
  }

  /** The dict `_add` files the frame in, as it reads before the call: the
      roots for frame 0, otherwise the parent's bucket for the call site. A
      missing bucket reads as the new empty dict `_add` puts in its place;
      an empty one, which `_add` also replaces by a new empty dict, reads the
      same. */
  function Designated(f: Forest, at: Option<nat>, s: LoudLog.CallStack, index: nat): Dict<nat>
    requires AddArgs(f, at, s, index)
  {
    if index == 0 then f.roots
    else
      match Get(f.nodes[at.value].children, CallSiteKey(s, index))
      case None => []
      case Some(b) => b
  }

  /** Writes the designated dict back where `_add` found it. */
  function Store(f: Forest, at: Option<nat>, s: LoudLog.CallStack, index: nat, b: Dict<nat>): Forest
    requires AddArgs(f, at, s, index)
  {
    if index == 0 then f.(roots := b)
    else
      var p := at.value;
      f.(nodes := f.nodes[p := f.nodes[p].(children := Put(f.nodes[p].children, CallSiteKey(s, index), b))])
  }

  /** `function.total_duration = …` */
  function SetTotal(nodes: seq<Function>, n: nat, d: real): (r: seq<Function>)
    requires n < |nodes|
    ensures |r| == |nodes|
  {
    nodes[n := nodes[n].(totalDuration := d)]
  }

  /** The first part of `_add`: the node for frame `index` is looked up by
      callee key in the designated dict, and created and filed there when
      absent. Gives the new forest and the node. */
  function Locate(f: Forest, at: Option<nat>, s: LoudLog.CallStack, index: nat): (r: (Forest, nat))
    requires WellFormed(f) && AddArgs(f, at, s, index)
    ensures r.1 < |r.0.nodes|
  {
    var key := CalleeKey(s, index);
    var b := Designated(f, at, s, index);
    match Get(b, key)
    case Some(n) =>
      DesignatedOk(f, at, s, index);
      BucketGet(f.nodes, if index == 0 then -1 else at.value, b, key);
      (f, n)
    case None =>
      var n := |f.nodes|;
      (Store(f.(nodes := f.nodes + [Created(s.funcs[index])]), at, s, index, Put(b, key, n)), n)
  }

  /** `_add(children, call_stack, index)`: the node is located, and when
      `index` is the last frame its total duration is overwritten by the
      stack's. */
  function AddStep(f: Forest, at: Option<nat>, s: LoudLog.CallStack, index: nat): (r: (Forest, nat))
    requires WellFormed(f) && AddArgs(f, at, s, index)
    ensures r.1 < |r.0.nodes|
  {
    var (g, n) := Locate(f, at, s, index);
    if index == |s.funcs| - 1 then (g.(nodes := SetTotal(g.nodes, n, s.totalDuration)), n) else (g, n)
  }

  /** What a lookup in a dict of nodes finds is a node after `lo` keyed as asked. */
  lemma BucketGet(nodes: seq<Function>, lo: int, b: Dict<nat>, key: string)
    requires BucketOk(nodes, lo, b)
    ensures Get(b, key).Some? ==> lo < Get(b, key).value < |nodes| && Identifier(nodes[Get(b, key).value]) == key
  {
    if Get(b, key).Some? {
      var j := GetFound(b, key);
    }
  }

  /** The designated dict of a well-formed forest is one of its dicts of nodes. */
  lemma DesignatedOk(f: Forest, at: Option<nat>, s: LoudLog.CallStack, index: nat)
    requires WellFormed(f) && AddArgs(f, at, s, index)
    ensures BucketOk(f.nodes, if index == 0 then -1 else at.value, Designated(f, at, s, index))
  {
    if index > 0 {
      var p := at.value;
      var ch := f.nodes[p].children;
      assert ChildrenOk(f.nodes, p);
      match Get(ch, CallSiteKey(s, index))
      case None =>
      case Some(b) =>
        var c := GetFound(ch, CallSiteKey(s, index));
    }
  }

  // ---------------------------------------------------------------------
  // Folding whole stacks: `process`
  // ---------------------------------------------------------------------

  /** Where the walk over one stack may stand: before frame 0, with no
      current node; or before frame `index`, with the node frame `index - 1`
      reached; or past the last frame. */
  ghost predicate WalkArgs(f: Forest, at: Option<nat>, s: LoudLog.CallStack, index: nat) {
    && index <= |s.funcs|
    && (at.None? <==> index == 0)
    && (at.Some? ==> at.value < |f.nodes|)
  }

  /** The rest of `process`'s iterations for one stack, from frame `index`
      on: `_add` files each frame under the node of the frame before it.
      Gives the forest and the node the last frame reached. */
  function WalkFrom(f: Forest, at: Option<nat>, s: LoudLog.CallStack, index: nat): (r: (Forest, nat))
    requires WellFormed(f) && WalkArgs(f, at, s, index) && |s.funcs| >= 1
    ensures WellFormed(r.0) && r.1 < |r.0.nodes|
    decreases |s.funcs| - index
  {
    if index == |s.funcs| then (f, at.value)
    else
      AddStepWellFormed(f, at, s, index);
      var g := AddStep(f, at, s, index);
      WalkFrom(g.0, Some(g.1), s, index + 1)
  }

  /** One stack folded in, frame 0 to the last. */
  function AddStack(f: Forest, s: LoudLog.CallStack): (r: Forest)
    requires WellFormed(f) && |s.funcs| >= 1
    ensures WellFormed(r)
  {
    WalkFrom(f, None, s, 0).0
  }

  /** The node that the last frame of the stack reached. */
  function Terminal(f: Forest, s: LoudLog.CallStack): (n: nat)
    requires WellFormed(f) && |s.funcs| >= 1
    ensures n < |AddStack(f, s).nodes|
  {
    WalkFrom(f, None, s, 0).1
  }

  /** `process` indexes `funcs[0]` unconditionally: every stack it is given
      has a frame, as every parsed stack does. */
  ghost predicate AllHaveFrames(stacks: seq<LoudLog.CallStack>) {
    forall k :: 0 <= k < |stacks| ==> |stacks[k].funcs| >= 1
  }

  /** The forest `process` builds from the stacks, in order. */
  function ProcessAll(stacks: seq<LoudLog.CallStack>): (r: Forest)
    requires AllHaveFrames(stacks)
    ensures WellFormed(r)
    decreases |stacks|
  {
    if stacks == [] then Empty
    else AddStack(ProcessAll(stacks[..|stacks| - 1]), stacks[|stacks| - 1])
  }

  // ---------------------------------------------------------------------
  // `_add` keeps the forest well formed
  // ---------------------------------------------------------------------

  /** A new childless node that nothing points to yet. */
  lemma AppendKeepsWellFormed(f: Forest, node: Function)
    requires WellFormed(f) && node.children == []
    ensures WellFormed(f.(nodes := f.nodes + [node]))
  {
    var later := f.nodes + [node];
    assert KeepsNames(f.nodes, later) by {
      forall i | 0 <= i < |f.nodes| ensures SameName(f.nodes[i], later[i]) {
        assert later[i] == f.nodes[i];
      }
    }
    BucketOkKept(f.nodes, later, -1, f.roots);
    forall n | 0 <= n < |later| ensures ChildrenOk(later, n) {
      if n < |f.nodes| {
        assert later[n] == f.nodes[n];
        assert ChildrenOk(f.nodes, n);
        var ch := later[n].children;
        forall c | 0 <= c < |ch| ensures BucketOk(later, n, ch[c].1) {
          BucketOkKept(f.nodes, later, n, ch[c].1);
        }
      }
    }
  }

  /** Overwriting a total changes no name and no child. */
  lemma SetTotalKeepsWellFormed(f: Forest, n: nat, d: real)
    requires WellFormed(f) && n < |f.nodes|
    ensures WellFormed(f.(nodes := SetTotal(f.nodes, n, d)))
  {
    var later := SetTotal(f.nodes, n, d);
    assert KeepsNames(f.nodes, later);
    BucketOkKept(f.nodes, later, -1, f.roots);
    forall m | 0 <= m < |later| ensures ChildrenOk(later, m) {
      assert ChildrenOk(f.nodes, m);
      assert later[m].children == f.nodes[m].children;
      var ch := later[m].children;
      forall c | 0 <= c < |ch| ensures BucketOk(later, m, ch[c].1) {
        BucketOkKept(f.nodes, later, m, ch[c].1);
      }
    }
  }

  /** Filing node `n` under `key` in a dict of nodes after `lo`. */
  lemma PutKeepsBucketOk(nodes: seq<Function>, lo: int, b: Dict<nat>, key: string, n: nat)
    requires BucketOk(nodes, lo, b) && lo < n < |nodes| && Identifier(nodes[n]) == key
    ensures BucketOk(nodes, lo, Put(b, key, n))
  {
    var r := Put(b, key, n);
    var i := IndexOf(b, key);
    if i == -1 {
      assert r == b + [(key, n)];
    } else {
      assert r == b[i := (key, n)];
    }
  }

  /** Writing a designated dict back after filing node `n` in it. */
  lemma StoreKeepsWellFormed(f: Forest, at: Option<nat>, s: LoudLog.CallStack, index: nat, b: Dict<nat>)
    requires WellFormed(f) && AddArgs(f, at, s, index)
    requires BucketOk(f.nodes, if index == 0 then -1 else at.value, b) && b != []
    ensures WellFormed(Store(f, at, s, index, b))
  {
    if index > 0 {
      var p := at.value;
      var g := Store(f, at, s, index, b);
      var ck := CallSiteKey(s, index);
      var ch := Put(f.nodes[p].children, ck, b);
      assert g.nodes == f.nodes[p := f.nodes[p].(children := ch)];
      assert KeepsNames(f.nodes, g.nodes);
      BucketOkKept(f.nodes, g.nodes, -1, f.roots);
      forall m | 0 <= m < |g.nodes| ensures ChildrenOk(g.nodes, m) {
        assert ChildrenOk(f.nodes, m);
        if m == p {
          assert ChildrenOk(f.nodes, p);
          var old_ch := f.nodes[p].children;
          forall c | 0 <= c < |ch| ensures ch[c].1 != [] && BucketOk(g.nodes, p, ch[c].1) {
            var i := IndexOf(old_ch, ck);
            if ch[c].0 == ck {
              if i == -1 {
                assert ch == old_ch + [(ck, b)];
                assert c == |old_ch|;
              } else {
                assert ch == old_ch[i := (ck, b)];
                assert c == i;
              }
              BucketOkKept(f.nodes, g.nodes, p, b);
            } else {
              if i == -1 {
                assert ch == old_ch + [(ck, b)];
              } else {
                assert ch == old_ch[i := (ck, b)];
              }
              assert ch[c] == old_ch[c];
              BucketOkKept(f.nodes, g.nodes, p, old_ch[c].1);
            }
          }
        } else {
          var mch := g.nodes[m].children;
          assert mch == f.nodes[m].children;
          forall c | 0 <= c < |mch| ensures BucketOk(g.nodes, m, mch[c].1) {
            BucketOkKept(f.nodes, g.nodes, m, mch[c].1);
          }
        }
      }
    }
  }

  /** Locating a node keeps the forest well formed. */
  lemma LocateWellFormed(f: Forest, at: Option<nat>, s: LoudLog.CallStack, index: nat)
    requires WellFormed(f) && AddArgs(f, at, s, index)
    ensures WellFormed(Locate(f, at, s, index).0)
  {
    var key := CalleeKey(s, index);
    var b := Designated(f, at, s, index);
    var lo := if index == 0 then -1 else at.value;
    if Get(b, key).None? {
      DesignatedOk(f, at, s, index);
      var n := |f.nodes|;
      var node := Created(s.funcs[index]);
      var grown := f.(nodes := f.nodes + [node]);
      AppendKeepsWellFormed(f, node);
      IdentifierOfCreated(s.funcs[index]);
      assert grown.nodes[n] == node;
      assert KeepsNames(f.nodes, grown.nodes) by {
        forall i | 0 <= i < |f.nodes| ensures SameName(f.nodes[i], grown.nodes[i]) {
          assert grown.nodes[i] == f.nodes[i];
        }
      }
      BucketOkKept(f.nodes, grown.nodes, lo, b);
      PutKeepsBucketOk(grown.nodes, lo, b, key, n);
      StoreKeepsWellFormed(grown, at, s, index, Put(b, key, n));
    }
  }

  /** `_add` keeps the forest well formed. */
  lemma AddStepWellFormed(f: Forest, at: Option<nat>, s: LoudLog.CallStack, index: nat)
    requires WellFormed(f) && AddArgs(f, at, s, index)
    ensures WellFormed(AddStep(f, at, s, index).0)
  {
    LocateWellFormed(f, at, s, index);
    var (g, n) := Locate(f, at, s, index);
    if index == |s.funcs| - 1 {
      SetTotalKeepsWellFormed(g, n, s.totalDuration);
    }
  }

  /** The walk from frame `index` is that frame's `_add` followed by the
      walk from the next frame, under the node it gave. */
  lemma WalkFromStep(f: Forest, at: Option<nat>, s: LoudLog.CallStack, index: nat)
    requires WellFormed(f) && WalkArgs(f, at, s, index) && index < |s.funcs|
    ensures WellFormed(AddStep(f, at, s, index).0)
    ensures WalkFrom(f, at, s, index) ==
      WalkFrom(AddStep(f, at, s, index).0, Some(AddStep(f, at, s, index).1), s, index + 1)
  {
    AddStepWellFormed(f, at, s, index);
  }

  // ---------------------------------------------------------------------
  // `Function.self_duration`
  // ---------------------------------------------------------------------

  /** Every node a dict names is in the arena. */
  predicate InArena(nodes: seq<Function>, b: Dict<nat>) {
    forall j :: 0 <= j < |b| ==> b[j].1 < |nodes|
  }

  /** Every node of every bucket is in the arena. */
  predicate AllInArena(nodes: seq<Function>, ch: Dict<Dict<nat>>) {
    forall c :: 0 <= c < |ch| ==> InArena(nodes, ch[c].1)
  }

  /** The total durations of the nodes of one bucket, summed in order. */
  function BucketTotal(nodes: seq<Function>, b: Dict<nat>): real
    requires InArena(nodes, b)
    decreases |b|
  {
    if b == [] then 0.0
    else BucketTotal(nodes, b[..|b| - 1]) + nodes[b[|b| - 1].1].totalDuration
  }

  /** The total durations of the nodes of all buckets, bucket by bucket. */
  function ChildrenTotal(nodes: seq<Function>, ch: Dict<Dict<nat>>): real
    requires AllInArena(nodes, ch)
    decreases |ch|
  {
    if ch == [] then 0.0
    else ChildrenTotal(nodes, ch[..|ch| - 1]) + BucketTotal(nodes, ch[|ch| - 1].1)
  }

  /** The children of a node of a well-formed forest are in the arena. */
  lemma ChildrenInArena(f: Forest, n: nat)
    requires WellFormed(f) && n < |f.nodes|
    ensures AllInArena(f.nodes, f.nodes[n].children)
  {
    assert ChildrenOk(f.nodes, n);
  }

  // ---------------------------------------------------------------------
  // The aggregator's state, updated in place
  // ---------------------------------------------------------------------

  /** The nodes Python links by reference, and the `functions` dict of
      `process`. */
  class Arena {
    var nodes: seq<Function>
    var roots: Dict<nat>

    function View(): Forest
      reads this
    {
      Forest(nodes, roots)
    }

    ghost predicate Valid()
      reads this
    {
      WellFormed(View())
    }

    /** `functions = {}` */
    constructor ()
      ensures Valid() && View() == Empty
    {
      nodes := [];
      roots := [];
    }

    /** The start of `_add`: the dict the frame is to be filed in. */
    method FindDesignated(at: Option<nat>, s: LoudLog.CallStack, index: nat) returns (designated: Dict<nat>)
      requires Valid() && AddArgs(View(), at, s, index)
      ensures designated == Designated(View(), at, s, index)
    {
      if index == 0 {
        designated := roots;
      } else {
        var returnlineKey := LoudLog.Identifier(s.funcs[index - 1], true);
        var found := Get(nodes[at.value].children, returnlineKey);
        if found.None? || found.value == [] {
          designated := [];
        } else {
          designated := found.value;
        }
      }
    }

    /** `_add(children, call_stack, index)`, where `children` is the roots
        when `at` is `None` and the children of node `at` otherwise. */
    method Add(at: Option<nat>, s: LoudLog.CallStack, index: nat) returns (n: nat)
      requires Valid() && AddArgs(View(), at, s, index)
      modifies this
      ensures Valid() && (View(), n) == AddStep(old(View()), at, s, index)
    {
      DesignatedOk(View(), at, s, index);
      var func := s.funcs[index];
      var designated := FindDesignated(at, s, index);
      var key := LoudLog.Identifier(func, false);
      BucketGet(nodes, if index == 0 then -1 else at.value, designated, key);
      var existing := Get(designated, key);
      if existing.None? {
        n := |nodes|;
        nodes := nodes + [Function(func.source, func.lineno, func.name, 0.0, [])];
        designated := Put(designated, key, n);
        if index == 0 {
          roots := designated;
        } else {
          var parent := nodes[at.value];
          var returnlineKey := LoudLog.Identifier(s.funcs[index - 1], true);
          nodes := nodes[at.value := parent.(children := Put(parent.children, returnlineKey, designated))];
        }
      } else {
        n := existing.value;
      }
      assert (View(), n) == Locate(old(View()), at, s, index);
      if index == |s.funcs| - 1 {
        nodes := nodes[n := nodes[n].(totalDuration := s.totalDuration)];
      }
      AddStepWellFormed(old(View()), at, s, index);
    }

    /** `Function.self_duration()` of node `n`: its total duration less the
        total durations of all its children in all call-site buckets. */
    method SelfDuration(n: nat) returns (r: real)
      requires Valid() && n < |nodes|
      ensures AllInArena(nodes, nodes[n].children)
      ensures r == nodes[n].totalDuration - ChildrenTotal(nodes, nodes[n].children)
      ensures nodes[n].children == [] ==> r == nodes[n].totalDuration
    {
      ChildrenInArena(View(), n);
      var children := nodes[n].children;
      var totalChildDuration := 0.0;
      for c := 0 to |children|
        invariant AllInArena(nodes, children[..c])
        invariant totalChildDuration == ChildrenTotal(nodes, children[..c])
      {
        var childDict := children[c].1;
        assert children[..c + 1][..c] == children[..c];
        for j := 0 to |childDict|
          invariant InArena(nodes, childDict[..j])
          invariant totalChildDuration == ChildrenTotal(nodes, children[..c]) + BucketTotal(nodes, childDict[..j])
        {
          assert childDict[..j + 1][..j] == childDict[..j];
          totalChildDuration := totalChildDuration + nodes[childDict[j].1].totalDuration;
        }
        assert childDict[..|childDict|] == childDict;
      }
      assert children[..|children|] == children;
      r := nodes[n].totalDuration - totalChildDuration;
    }

    /** One iteration of `process`'s outer loop: frame 0 is filed among the
        roots, each later frame under the node the frame before it reached. */
    method AddCallStack(callStack: LoudLog.CallStack) returns (node: nat)
      requires Valid() && |callStack.funcs| >= 1
      modifies this
      ensures Valid() && (View(), node) == WalkFrom(old(View()), None, callStack, 0)
    {
      node := Add(None, callStack, 0);
      assert WalkFrom(old(View()), None, callStack, 0) == WalkFrom(View(), Some(node), callStack, 1);
      for index := 1 to |callStack.funcs|
        invariant Valid() && node < |nodes|
        invariant WalkFrom(View(), Some(node), callStack, index) == WalkFrom(old(View()), None, callStack, 0)
      {
        node := Add(Some(node), callStack, index);
      }
    }
  }

  /** `process(call_stacks)`: every stack is folded in, in order. Gives the
      arena and the root nodes, `list(functions.values())`. */
  method Process(stacks: seq<LoudLog.CallStack>) returns (arena: Arena, functions: seq<nat>)
    requires AllHaveFrames(stacks)
    ensures fresh(arena) && arena.Valid() && arena.View() == ProcessAll(stacks)
    ensures functions == Values(arena.roots)
  {
    arena := new Arena();
    for i := 0 to |stacks|
      invariant arena.Valid() && arena.View() == ProcessAll(stacks[..i])
    {
      var node := arena.AddCallStack(stacks[i]);
      assert stacks[..i + 1][..i] == stacks[..i];
    }
    assert stacks[..|stacks|] == stacks;
    functions := Values(arena.roots);
  }
}
