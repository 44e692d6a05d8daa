/** Every step of every goroutine keeps the invariant of BmtTree; when the
    result arrives nothing is left running and every toggle is even. */
module BmtSteps {
  import opened BmtReference
  import opened BmtTree

  // ------------------------------------------------------------- the hash

  lemma {:induction false} HashStepKeeps(sh: Shape, ck: Chunk, net: Net, arrived: set<Pos>, c: Pos)
    requires Inv(sh, ck, net, arrived)
    requires Enabled(net, c) && net.tasks[c].phase.Hashing?
    ensures Inv(sh, ck, HashStep(sh.H, net, c), arrived)
  {
    var net' := HashStep(sh.H, net, c);
    assert TaskOk(sh, ck, net, arrived, c);
    LiveLeaf(sh, ck, c);
    RootFlag(sh, ck, net.nodes, c);
    SingleSegmentRoot(sh, ck, c);
    forall q | q in net'.tasks
      ensures TaskOk(sh, ck, net', arrived, q)
    {
      assert TaskOk(sh, ck, net, arrived, q);
    }
    SameOut(sh, ck, net, net', arrived, c);
  }

  /** The root flag of a live node is set exactly at the chunk's root; while
      data may come, a live node is not unbalanced. */
  lemma {:induction false} RootFlag(sh: Shape, ck: Chunk, nodes: map<Pos, Node>, p: Pos)
    requires WellFormed(sh, ck) && FlagsOk(sh, ck, nodes)
    requires p in nodes && Live(ck, p)
    ensures nodes[p].root <==> IsRoot(ck, p)
    ensures !ck.Final() ==> !nodes[p].unbalanced
  {
    assert FlagAt(sh, ck, nodes, p);
    FirstMonotone(p.h, p.i, p.i + 1);
  }

  lemma {:induction false} SingleSegmentRoot(sh: Shape, ck: Chunk, p: Pos)
    requires WellFormed(sh, ck) && Live(ck, p)
    ensures ck.Final() && |ck.segs| == 1 ==> IsRoot(ck, p)
  {
    if ck.Final() && |ck.segs| == 1 {
      if ck.rootH > 1 {
        TallNodesCoverAll(1, ck.rootH - 1);
      }
    }
  }

  /** Replacing a goroutine by one at the same position, or by the result at
      the root, changes nothing about which positions are taken up. */
  lemma {:induction false} SameOut(sh: Shape, ck: Chunk, net: Net, net': Net, arrived: set<Pos>, c: Pos)
    requires OutOk(sh, ck, net, arrived)
    requires c in net.tasks
    requires if c in net'.tasks then net'.tasks.Keys == net.tasks.Keys && net'.result == net.result
             else IsRoot(ck, c) && net'.result.Some? && net'.tasks.Keys == net.tasks.Keys - {c}
    ensures OutOk(sh, ck, net', arrived)
  {
    forall p
      ensures Out(ck, net', arrived, p) <==> Out(ck, net, arrived, p) || (IsRoot(ck, p) && p == c)
    {
    }
    assert Out(ck, net, arrived, c);
  }

  // ------------------------------------------------------------ the store

  lemma {:induction false} StoreStepKeeps(sh: Shape, ck: Chunk, net: Net, arrived: set<Pos>, c: Pos)
    requires Inv(sh, ck, net, arrived)
    requires Enabled(net, c) && net.tasks[c].phase.Storing?
    ensures Inv(sh, ck, StoreStep(net, c), arrived)
  {
    var net' := StoreStep(net, c);
    assert TaskOk(sh, ck, net, arrived, c);
    forall q | q in net'.tasks
      ensures TaskOk(sh, ck, net', arrived, q)
    {
      assert TaskOk(sh, ck, net, arrived, q);
      SlotsDiffer(c, q);
    }
    forall q | q in arrived
      ensures ArrivalOk(sh, ck, net'.nodes, q)
    {
      assert ArrivalOk(sh, ck, net.nodes, q);
      SlotsDiffer(c, q);
    }
    SameOut(sh, ck, net, net', arrived, c);
    StoreNodes(sh, ck, net, arrived, c);
  }

  lemma {:induction false} StoreNodes(sh: Shape, ck: Chunk, net: Net, arrived: set<Pos>, c: Pos)
    requires WellFormed(sh, ck) && ParityOk(net.nodes, arrived) && FlagsOk(sh, ck, net.nodes)
    requires Enabled(net, c) && TaskOk(sh, ck, net, arrived, c) && net.tasks[c].phase.Storing?
    ensures ParityOk(StoreStep(net, c).nodes, arrived)
    ensures FlagsOk(sh, ck, StoreStep(net, c).nodes)
  {
    var nodes' := StoreStep(net, c).nodes;
    OnlyLeftIntoUnbalanced(sh, ck, net.nodes, c);
    forall p | p in nodes'
      ensures ParityAt(nodes', arrived, p)
      ensures FlagAt(sh, ck, nodes', p)
    {
      assert ParityAt(net.nodes, arrived, p);
      assert FlagAt(sh, ck, net.nodes, p);
    }
  }

  lemma {:induction false} SlotsDiffer(c: Pos, q: Pos)
    ensures c != q && c.Parent() == q.Parent() ==> c.IsLeft() != q.IsLeft()
  {
  }

  /** Only a left value ever reaches an unbalanced node. */
  lemma {:induction false} OnlyLeftIntoUnbalanced(sh: Shape, ck: Chunk, nodes: map<Pos, Node>, c: Pos)
    requires WellFormed(sh, ck) && FlagsOk(sh, ck, nodes)
    requires Source(sh, ck, c) && !IsRoot(ck, c) && c.Parent() in nodes
    ensures nodes[c.Parent()].unbalanced ==> ck.Final() && c.IsLeft()
    ensures ck.Final() ==> Live(ck, c.Parent())
  {
    var p := c.Parent();
    assert FlagAt(sh, ck, nodes, p);
    assert c == if c.IsLeft() then p.Left() else p.Right();
    if ck.Final() {
      ParentLive(sh, ck, c);
    } else {
      FirstLe(c.h, 2 * p.i + 1, c.i + 1);
    }
  }

  // ----------------------------------------------------------- the toggle

  lemma {:induction false} ToggleStepKeeps(sh: Shape, ck: Chunk, net: Net, arrived: set<Pos>, c: Pos)
    requires Inv(sh, ck, net, arrived)
    requires Enabled(net, c) && net.tasks[c].phase.Toggling?
    ensures Inv(sh, ck, ToggleStep(net, c), arrived + {c})
  {
    assert TaskOk(sh, ck, net, arrived, c);
    ToggleFacts(sh, ck, net, arrived, c);
    ToggleTasks(sh, ck, net, arrived, c);
    ToggleNodes(sh, ck, net, arrived, c);
    ToggleOut(sh, ck, net, arrived, c);
  }

  lemma {:induction false} ToggleTasks(sh: Shape, ck: Chunk, net: Net, arrived: set<Pos>, c: Pos)
    requires Inv(sh, ck, net, arrived)
    requires Enabled(net, c) && net.tasks[c].phase.Toggling?
    ensures TasksOk(sh, ck, ToggleStep(net, c), arrived + {c})
  {
    var net' := ToggleStep(net, c);
    ToggleFacts(sh, ck, net, arrived, c);
    assert TaskOk(sh, ck, net, arrived, c);
    forall q | q in net'.tasks
      ensures TaskOk(sh, ck, net', arrived + {c}, q)
    {
      if q in net.tasks {
        assert Out(ck, net, arrived, q);
        assert net'.tasks[q] == net.tasks[q];
        SameTaskOk(sh, ck, net, net', arrived, c, q);
      } else {
        assert q == c.Parent();
      }
    }
  }

  lemma {:induction false} SameTaskOk(sh: Shape, ck: Chunk, net: Net, net': Net, arrived: set<Pos>, c: Pos, q: Pos)
    requires WellFormed(sh, ck) && q != c
    requires q in net.tasks && TaskOk(sh, ck, net, arrived, q)
    requires q in net'.tasks && net'.tasks[q] == net.tasks[q]
    requires net'.nodes.Keys == net.nodes.Keys
    requires forall p :: p in net.nodes ==>
      net'.nodes[p].left == net.nodes[p].left && net'.nodes[p].right == net.nodes[p].right &&
      net'.nodes[p].unbalanced == net.nodes[p].unbalanced
    ensures TaskOk(sh, ck, net', arrived + {c}, q)
  {
  }

  lemma {:induction false} ToggleNodes(sh: Shape, ck: Chunk, net: Net, arrived: set<Pos>, c: Pos)
    requires Inv(sh, ck, net, arrived)
    requires Enabled(net, c) && net.tasks[c].phase.Toggling?
    ensures ArrivedOk(sh, ck, ToggleStep(net, c).nodes, arrived + {c})
    ensures ParityOk(ToggleStep(net, c).nodes, arrived + {c})
    ensures FlagsOk(sh, ck, ToggleStep(net, c).nodes)
  {
    var nodes' := ToggleStep(net, c).nodes;
    assert TaskOk(sh, ck, net, arrived, c);
    OnlyLeftIntoUnbalanced(sh, ck, net.nodes, c);
    forall q | q in arrived + {c}
      ensures ArrivalOk(sh, ck, nodes', q)
    {
      assert q != c ==> ArrivalOk(sh, ck, net.nodes, q);
    }
    forall q | q in nodes'
      ensures ParityAt(nodes', arrived + {c}, q)
      ensures FlagAt(sh, ck, nodes', q)
    {
      assert ParityAt(net.nodes, arrived, q);
      assert FlagAt(sh, ck, net.nodes, q);
      OnlyChildren(c, q);
    }
  }

  lemma {:induction false} OnlyChildren(c: Pos, q: Pos)
    requires q.h >= 1
    ensures q == c.Parent() ==> c == if c.IsLeft() then q.Left() else q.Right()
    ensures q != c.Parent() ==> q.Left() != c && q.Right() != c
    ensures q.Left() != q.Right()
  {
  }

  /** The goroutine goes on exactly when its arrival completes the parent, and
      then the parent is live and was not taken up before. */
  lemma {:induction false} ToggleFacts(sh: Shape, ck: Chunk, net: Net, arrived: set<Pos>, c: Pos)
    requires Inv(sh, ck, net, arrived)
    requires Enabled(net, c) && net.tasks[c].phase.Toggling?
    ensures var p := c.Parent(); var n := net.nodes[p];
      && (n.unbalanced || n.odd <==> Live(ck, p) && Ready(sh, ck, arrived + {c}, p))
      && (n.unbalanced || n.odd ==> !Out(ck, net, arrived, p))
      && (n.unbalanced ==> c.IsLeft())
      && (p.h == 1 ==> IsSegment(sh, ck, p.Left()))
  {
    var p := c.Parent();
    assert TaskOk(sh, ck, net, arrived, c);
    OnlyLeftIntoUnbalanced(sh, ck, net.nodes, c);
    assert ParityAt(net.nodes, arrived, p);
    assert FlagAt(sh, ck, net.nodes, p);
    assert p.Left() in arrived ==> ArrivalOk(sh, ck, net.nodes, p.Left());
    assert p.Right() in arrived ==> ArrivalOk(sh, ck, net.nodes, p.Right());
    CompletesIff(sh, ck, net.nodes, arrived, c);
    assert Live(ck, p) ==> (Out(ck, net, arrived, p) <==> Ready(sh, ck, arrived, p));
  }

  /** The same about the parent's node alone. */
  lemma {:induction false} CompletesIff(sh: Shape, ck: Chunk, nodes: map<Pos, Node>, arrived: set<Pos>, c: Pos)
    requires WellFormed(sh, ck) && Source(sh, ck, c) && c !in arrived && c.Parent() in nodes
    requires ParityAt(nodes, arrived, c.Parent()) && FlagAt(sh, ck, nodes, c.Parent())
    requires nodes[c.Parent()].unbalanced ==> ck.Final() && c.IsLeft()
    requires ck.Final() ==> Live(ck, c.Parent())
    requires c.Parent().Left() in arrived ==> Source(sh, ck, c.Parent().Left())
    requires c.Parent().Right() in arrived ==> Source(sh, ck, c.Parent().Right())
    ensures var p := c.Parent(); var n := nodes[p];
      && (n.unbalanced || n.odd <==> Live(ck, p) && Ready(sh, ck, arrived + {c}, p))
      && (n.unbalanced || n.odd ==> !Ready(sh, ck, arrived, p))
      && (p.h == 1 ==> IsSegment(sh, ck, p.Left()))
  {
    var p := c.Parent();
    OnlyChildren(c, p);
    if p.h == 1 {
      SegmentCompletes(sh, ck, nodes[p], arrived, c);
    } else {
      LiveParts(sh, ck, p);
      if c.IsLeft() {
        LeftCompletes(sh, ck, nodes[p], arrived, p);
      } else {
        RightCompletes(sh, ck, nodes[p], arrived, p);
      }
    }
  }

  lemma {:induction false} SegmentCompletes(sh: Shape, ck: Chunk, n: Node, arrived: set<Pos>, c: Pos)
    requires c.h == 0 && IsSegment(sh, ck, c) && c !in arrived && Live(ck, c.Parent())
    requires IsSegment(sh, ck, c.Parent().Left()) ==> n.unbalanced
    ensures n.unbalanced && c == c.Parent().Left()
    ensures Ready(sh, ck, arrived + {c}, c.Parent()) && !Ready(sh, ck, arrived, c.Parent())
  {
    var k := |ck.segs| - 1;
    assert c.i == 2 * k && c.i / 2 == k;
  }

  lemma {:induction false} LiveParts(sh: Shape, ck: Chunk, p: Pos)
    requires WellFormed(sh, ck) && p.h >= 2
    ensures Live(ck, p) ==> Live(ck, p.Left())
    ensures !ck.Final() ==> (Live(ck, p) <==> Live(ck, p.Left()) && Live(ck, p.Right()))
  {
    LiveChildren(sh, ck, p);
  }

  lemma {:induction false} LeftCompletes(sh: Shape, ck: Chunk, n: Node, arrived: set<Pos>, p: Pos)
    requires p.h >= 2 && p.Left() !in arrived && Live(ck, p.Left())
    requires p.Right() in arrived ==> Live(ck, p.Right())
    requires n.odd <==> !n.unbalanced && p.Right() in arrived
    requires if ck.Final() then Live(ck, p) && (n.unbalanced <==> !Live(ck, p.Right()))
             else !n.unbalanced && (Live(ck, p) <==> Live(ck, p.Right()))
    ensures n.unbalanced || n.odd <==> Live(ck, p) && Ready(sh, ck, arrived + {p.Left()}, p)
    ensures !Ready(sh, ck, arrived, p)
  {
    assert p.Left() != p.Right();
  }

  lemma {:induction false} RightCompletes(sh: Shape, ck: Chunk, n: Node, arrived: set<Pos>, p: Pos)
    requires p.h >= 2 && p.Right() !in arrived && Live(ck, p.Right()) && !n.unbalanced
    requires p.Left() in arrived ==> Live(ck, p.Left())
    requires n.odd <==> p.Left() in arrived
    requires ck.Final() ==> Live(ck, p)
    requires !ck.Final() ==> (Live(ck, p) <==> Live(ck, p.Left()))
    ensures n.odd <==> Live(ck, p) && Ready(sh, ck, arrived + {p.Right()}, p)
    ensures n.odd ==> !Ready(sh, ck, arrived, p)
  {
    assert p.Left() != p.Right();
  }

  lemma {:induction false} ToggleOut(sh: Shape, ck: Chunk, net: Net, arrived: set<Pos>, c: Pos)
    requires Inv(sh, ck, net, arrived)
    requires Enabled(net, c) && net.tasks[c].phase.Toggling?
    ensures OutOk(sh, ck, ToggleStep(net, c), arrived + {c})
  {
    var net' := ToggleStep(net, c);
    ToggleFacts(sh, ck, net, arrived, c);
    forall q | Live(ck, q)
      ensures Out(ck, net', arrived + {c}, q) <==> Ready(sh, ck, arrived + {c}, q)
    {
      OnlyChildren(c, q);
      assert Out(ck, net, arrived, q) <==> Ready(sh, ck, arrived, q);
    }
    forall q | IsSegment(sh, ck, q)
      ensures Out(ck, net', arrived + {c}, q)
    {
      assert Out(ck, net, arrived, q);
    }
  }

  // ---------------------------------------------------------- the combine

  lemma {:induction false} CombineStepKeeps(sh: Shape, ck: Chunk, net: Net, arrived: set<Pos>, p: Pos)
    requires Inv(sh, ck, net, arrived)
    requires Enabled(net, p) && net.tasks[p].phase.Combining?
    ensures Inv(sh, ck, CombineStep(sh.H, net, p), arrived)
  {
    var net' := CombineStep(sh.H, net, p);
    assert TaskOk(sh, ck, net, arrived, p);
    RootFlag(sh, ck, net.nodes, p);
    CombinedValue(sh, ck, net, arrived, p);
    SingleSegmentRoot(sh, ck, p);
    forall q | q in net'.tasks
      ensures TaskOk(sh, ck, net', arrived, q)
    {
      assert TaskOk(sh, ck, net, arrived, q);
    }
    SameOut(sh, ck, net, net', arrived, p);
  }

  lemma {:induction false} CombinedValue(sh: Shape, ck: Chunk, net: Net, arrived: set<Pos>, p: Pos)
    requires Inv(sh, ck, net, arrived)
    requires Enabled(net, p) && net.tasks[p].phase.Combining?
    ensures Source(sh, ck, p)
    ensures var t := net.tasks[p]; var n := net.nodes[p];
      Val(sh, ck, p) ==
        if !n.unbalanced || !t.phase.fromLeft || (t.i == 0 && t.d == 0)
        then sh.H(n.left + n.right) else n.left + n.right
  {
    assert TaskOk(sh, ck, net, arrived, p);
    assert Out(ck, net, arrived, p) && Ready(sh, ck, arrived, p);
    assert FlagAt(sh, ck, net.nodes, p);
    SingleSegmentRoot(sh, ck, p);
    RootFlag(sh, ck, net.nodes, p);
    if p.h >= 2 {
      InnerSlots(sh, ck, net.nodes, arrived, p);
    } else {
      LeafSlots(sh, ck, net.nodes, arrived, p);
    }
  }

  lemma {:induction false} InnerSlots(sh: Shape, ck: Chunk, nodes: map<Pos, Node>, arrived: set<Pos>, p: Pos)
    requires WellFormed(sh, ck) && ArrivedOk(sh, ck, nodes, arrived)
    requires Live(ck, p) && p.h >= 2 && p in nodes && Ready(sh, ck, arrived, p)
    requires Live(ck, p.Right()) || nodes[p].right == []
    ensures var n := nodes[p];
      Val(sh, ck, p) == if Live(ck, p.Right()) then sh.H(n.left + n.right) else n.left + n.right
  {
    LiveChildren(sh, ck, p);
    assert ArrivalOk(sh, ck, nodes, p.Left());
    if Live(ck, p.Right()) {
      assert ArrivalOk(sh, ck, nodes, p.Right());
    } else {
      assert nodes[p].left + nodes[p].right == nodes[p].left;
    }
  }

  lemma {:induction false} LeafSlots(sh: Shape, ck: Chunk, nodes: map<Pos, Node>, arrived: set<Pos>, p: Pos)
    requires WellFormed(sh, ck) && ArrivedOk(sh, ck, nodes, arrived)
    requires Live(ck, p) && p.h == 1 && p in nodes && Ready(sh, ck, arrived, p)
    requires IsSegment(sh, ck, p.Left()) && nodes[p].right == []
    ensures var n := nodes[p];
      Val(sh, ck, p) == if |ck.segs| == 1 then sh.H(n.left + n.right) else n.left + n.right
  {
    assert ArrivalOk(sh, ck, nodes, p.Left());
    var s := ck.segs[|ck.segs| - 1];
    assert p.i == |ck.segs| - 1 && nodes[p].left == s;
    assert nodes[p].left + nodes[p].right == s;
    if |ck.segs| > 1 {
      SmallTree(sh, ck);
      assert |s| <= sh.z;
    }
  }

  /** A tree of a single data node has no second double segment. */
  lemma {:induction false} SmallTree(sh: Shape, ck: Chunk)
    requires WellFormed(sh, ck) && ck.Final() && |ck.segs| > 1
    ensures sh.top > 1
  {
  }

  /** Every step of every goroutine keeps the invariant. */
  lemma {:induction false} StepKeeps(sh: Shape, ck: Chunk, net: Net, arrived: set<Pos>, c: Pos)
    requires Inv(sh, ck, net, arrived) && c in net.tasks
    ensures Enabled(net, c)
    ensures Inv(sh, ck, Step(sh.H, net, c), Arrived(net, arrived, c))
  {
    TaskEnabled(sh, ck, net, arrived, c);
    match net.tasks[c].phase {
      case Hashing => HashStepKeeps(sh, ck, net, arrived, c);
      case Storing => StoreStepKeeps(sh, ck, net, arrived, c);
      case Toggling => ToggleStepKeeps(sh, ck, net, arrived, c);
      case Combining(_) => CombineStepKeeps(sh, ck, net, arrived, c);
    }
  }
}
