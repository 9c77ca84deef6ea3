/** `Function.self_duration`: what the per-bucket sums add up to, and that
    nothing keeps the result from going below zero. */
module SelfDurations {
  import opened Results
  import opened Dicts
  import LoudLog
  import opened Process

  /** All children of a node, bucket after bucket, each bucket in order. */
  function ChildNodes(ch: Dict<Dict<nat>>): (ns: seq<nat>)
    decreases |ch|
  {
    if ch == [] then [] else ChildNodes(ch[..|ch| - 1]) + Values(ch[|ch| - 1].1)
  }

  /** The total durations of a list of nodes, summed in order. */
  function SumTotals(nodes: seq<Function>, ns: seq<nat>): real
    requires forall i :: 0 <= i < |ns| ==> ns[i] < |nodes|
    decreases |ns|
  {
    if ns == [] then 0.0 else SumTotals(nodes, ns[..|ns| - 1]) + nodes[ns[|ns| - 1]].totalDuration
  }

  lemma {:induction false} SumTotalsAppend(nodes: seq<Function>, xs: seq<nat>, ys: seq<nat>)
    requires forall i :: 0 <= i < |xs| ==> xs[i] < |nodes|
    requires forall i :: 0 <= i < |ys| ==> ys[i] < |nodes|
    ensures forall i :: 0 <= i < |xs + ys| ==> (xs + ys)[i] < |nodes|
    ensures SumTotals(nodes, xs + ys) == SumTotals(nodes, xs) + SumTotals(nodes, ys)
    decreases |ys|
  {
    if ys != [] {
      var ys' := ys[..|ys| - 1];
      assert (xs + ys)[..|xs + ys| - 1] == xs + ys';
      SumTotalsAppend(nodes, xs, ys');
    } else {
      assert xs + ys == xs;
    }
  }

  lemma {:induction false} BucketTotalIsSum(nodes: seq<Function>, b: Dict<nat>)
    requires InArena(nodes, b)
    ensures forall i :: 0 <= i < |Values(b)| ==> Values(b)[i] < |nodes|
    ensures BucketTotal(nodes, b) == SumTotals(nodes, Values(b))
    decreases |b|
  {
    if b != [] {
      var b' := b[..|b| - 1];
      BucketTotalIsSum(nodes, b');
      assert Values(b)[..|b| - 1] == Values(b');
    }
  }

  /** The sum `self_duration` subtracts is the sum of the totals of all the
      node's children in all call-site buckets. */
  lemma {:induction false} ChildrenTotalIsSum(nodes: seq<Function>, ch: Dict<Dict<nat>>)
    requires AllInArena(nodes, ch)
    ensures forall i :: 0 <= i < |ChildNodes(ch)| ==> ChildNodes(ch)[i] < |nodes|
    ensures ChildrenTotal(nodes, ch) == SumTotals(nodes, ChildNodes(ch))
    decreases |ch|
  {
    if ch != [] {
      var ch' := ch[..|ch| - 1];
      assert AllInArena(nodes, ch');
      ChildrenTotalIsSum(nodes, ch');
      BucketTotalIsSum(nodes, ch[|ch| - 1].1);
      SumTotalsAppend(nodes, ChildNodes(ch'), Values(ch[|ch| - 1].1));
    }
  }

  /** A native frame named `name`. */
  function Native(name: string): LoudLog.Func {
    LoudLog.Func(LoudLog.NativeSource, 0, name, 0)
  }

  // `a` calling `b` for 2.0, then `a` alone for 1.0.

  const First: LoudLog.CallStack := LoudLog.CallStack([Native("a"), Native("b")], 1, 2.0)
  const Second: LoudLog.CallStack := LoudLog.CallStack([Native("a")], 1, 1.0)
  const NodeA: Function := Function(LoudLog.NativeSource, 0, "a", 0.0, [])
  const NodeB: Function := Function(LoudLog.NativeSource, 0, "b", 0.0, [])
  const CallsB: Dict<Dict<nat>> := [("a", [("b", 1)])]
  const RootOnly: Forest := Forest([NodeA], [("a", 0)])
  const AfterFirst: Forest := Forest([NodeA.(children := CallsB), NodeB.(totalDuration := 2.0)], [("a", 0)])
  const AfterSecond: Forest := Forest([NodeA.(children := CallsB, totalDuration := 1.0), NodeB.(totalDuration := 2.0)], [("a", 0)])

  lemma RootOnlyWellFormed()
    ensures WellFormed(RootOnly)
  {
    assert Identifier(NodeA) == "a";
    assert BucketOk(RootOnly.nodes, -1, RootOnly.roots);
    assert ChildrenOk(RootOnly.nodes, 0);
  }

  lemma AfterFirstWellFormed()
    ensures WellFormed(AfterFirst)
  {
    var nodes := AfterFirst.nodes;
    assert Identifier(nodes[0]) == "a" && Identifier(nodes[1]) == "b";
    assert BucketOk(nodes, -1, AfterFirst.roots);
    assert BucketOk(nodes, 0, [("b", 1)]);
    assert ChildrenOk(nodes, 0);
    assert ChildrenOk(nodes, 1);
  }

  lemma FirstRoot()
    ensures AddStep(Empty, None, First, 0) == (RootOnly, 0)
  {
    assert CalleeKey(First, 0) == "a";
    assert Put([], "a", 0) == [("a", 0)];
    assert Created(First.funcs[0]) == NodeA;
    assert Empty.nodes + [NodeA] == [NodeA];
  }

  lemma FirstChildStore()
    ensures AddArgs(Forest([NodeA, NodeB], [("a", 0)]), Some(0), First, 1)
    ensures Store(Forest([NodeA, NodeB], [("a", 0)]), Some(0), First, 1, [("b", 1)])
      == Forest([NodeA.(children := CallsB), NodeB], [("a", 0)])
  {
    assert CallSiteKey(First, 1) == "a";
    assert Put([], "a", [("b", 1)]) == CallsB;
    assert [NodeA, NodeB][0 := NodeA.(children := CallsB)] == [NodeA.(children := CallsB), NodeB];
  }

  lemma FirstChildLookup()
    ensures AddArgs(RootOnly, Some(0), First, 1)
    ensures CalleeKey(First, 1) == "b" && Designated(RootOnly, Some(0), First, 1) == []
    ensures Put([], "b", 1) == [("b", 1)]
    ensures RootOnly.(nodes := RootOnly.nodes + [Created(First.funcs[1])]) == Forest([NodeA, NodeB], [("a", 0)])
  {
    assert CallSiteKey(First, 1) == "a";
    assert Created(First.funcs[1]) == NodeB;
    assert [NodeA] + [NodeB] == [NodeA, NodeB];
  }

  lemma FirstChildLocate()
    ensures WellFormed(RootOnly)
    ensures Locate(RootOnly, Some(0), First, 1) == (Forest([NodeA.(children := CallsB), NodeB], [("a", 0)]), 1)
  {
    RootOnlyWellFormed();
    FirstChildStore();
    FirstChildLookup();
  }

  lemma FirstChild()
    ensures WellFormed(RootOnly)
    ensures AddStep(RootOnly, Some(0), First, 1) == (AfterFirst, 1)
  {
    FirstChildLocate();
    assert SetTotal([NodeA.(children := CallsB), NodeB], 1, 2.0) == AfterFirst.nodes;
  }

  lemma FirstStack()
    ensures AddStack(Empty, First) == AfterFirst
  {
    FirstRoot();
    FirstChild();
    AfterFirstWellFormed();
    assert AddStack(Empty, First) == WalkFrom(RootOnly, Some(0), First, 1).0;
    assert WalkFrom(RootOnly, Some(0), First, 1) == WalkFrom(AfterFirst, Some(1), First, 2);
  }

  lemma SecondRoot()
    ensures WellFormed(AfterFirst)
    ensures AddStep(AfterFirst, None, Second, 0) == (AfterSecond, 0)
  {
    AfterFirstWellFormed();
    assert CalleeKey(Second, 0) == "a";
    assert Get(AfterFirst.roots, "a") == Some(0);
    assert Locate(AfterFirst, None, Second, 0) == (AfterFirst, 0);
    assert SetTotal(AfterFirst.nodes, 0, 1.0) == AfterSecond.nodes;
  }

  lemma SecondStack()
    ensures WellFormed(AfterFirst) && AddStack(AfterFirst, Second) == AfterSecond
  {
    SecondRoot();
    AddStepWellFormed(AfterFirst, None, Second, 0);
    assert AddStack(AfterFirst, Second) == WalkFrom(AfterSecond, Some(0), Second, 1).0;
  }

  lemma ProcessBoth()
    ensures AllHaveFrames([First, Second]) && ProcessAll([First, Second]) == AfterSecond
  {
    assert |First.funcs| == 2 && |Second.funcs| == 1;
    assert [First, Second][..1] == [First];
    assert [First][..0] == [];
    FirstStack();
    assert ProcessAll([First]) == AfterFirst;
    SecondStack();
  }

  /** `a` calling `b` for 2.0, then `a` alone for 1.0: `a`'s total is
      overwritten with 1.0 while its child `b` keeps 2.0, so `a`'s self
      duration is -1.0. */
  lemma NegativeSelfDuration()
    ensures AllHaveFrames([First, Second])
    ensures var f := ProcessAll([First, Second]);
      && |f.nodes| == 2
      && AllInArena(f.nodes, f.nodes[0].children)
      && f.nodes[0].totalDuration - ChildrenTotal(f.nodes, f.nodes[0].children) == -1.0
  {
    ProcessBoth();
    assert ChildrenTotal(AfterSecond.nodes, CallsB) == 2.0 by {
      assert CallsB[..0] == [];
      assert [("b", 1)][..0] == [];
    }
  }
}
