/** What Write, Sum and releaseTree do to the tree between the steps of the
    goroutines: spawning a goroutine, marking the path of the last segment,
    waiting for the result, and giving the tree back clean. */
module BmtChunk {
  import opened Options
  import opened BmtReference
  import opened BmtTree
  import opened BmtSteps

  /** No marks: the state of the flags in which a tree is handed out. */
  ghost predicate Unmarked(sh: Shape, nodes: map<Pos, Node>) {
    forall p :: p in nodes ==> !nodes[p].unbalanced && (nodes[p].root <==> p == Pos(sh.top, 0))
  }

  /** A tree in the pool: unmarked and with every toggle even.  Old contents
      may still be in the slots. */
  ghost predicate Clean(sh: Shape, nodes: map<Pos, Node>) {
    && Unmarked(sh, nodes)
    && Outline(sh, nodes)
    && (forall p :: p in nodes ==> !nodes[p].odd)
  }

  lemma {:induction false} FreshChunk(sh: Shape, nodes: map<Pos, Node>)
    requires sh.z > 0 && sh.top >= 1 && Clean(sh, nodes)
    ensures Inv(sh, Chunk([], 0), Net(nodes, map[], None), {})
  {
    FirstZero(sh.top);
    FirstMonotone(sh.top, 0, 1);
    var ck := Chunk([], 0);
    forall p | Live(ck, p)
      ensures false
    {
      FirstMonotone(p.h, p.i, p.i + 1);
    }
  }

  // ------------------------------------------------------------ spawning

  /** `ck'` is the open chunk `ck` with one more double segment. */
  ghost predicate Extends(ck: Chunk, ck': Chunk) {
    !ck.Final() && |ck'.segs| == |ck.segs| + 1 && ck'.segs[..|ck.segs|] == ck.segs
  }

  lemma {:induction false} LiveExtends(sh: Shape, ck: Chunk, ck': Chunk, p: Pos)
    requires WellFormed(sh, ck) && WellFormed(sh, ck') && Extends(ck, ck')
    requires Live(ck, p)
    ensures Live(ck', p) && !IsRoot(ck', p)
  {
    FirstMonotone(p.h, p.i, p.i + 1);
    if ck'.Final() && p.h >= ck'.rootH {
      TallNodesCoverAll(ck'.rootH, p.h);
      FirstLe(p.h, 1, p.i + 1);
    }
  }

  lemma {:induction false} ValExtends(sh: Shape, ck: Chunk, ck': Chunk, p: Pos)
    requires WellFormed(sh, ck) && WellFormed(sh, ck') && Extends(ck, ck')
    requires Live(ck, p)
    ensures Live(ck', p) && Val(sh, ck', p) == Val(sh, ck, p)
    decreases p.h
  {
    LiveExtends(sh, ck, ck', p);
    LiveLeaf(sh, ck, p);
    if p.h == 1 {
      assert ck'.segs[p.i] == ck.segs[p.i];
    } else {
      LiveChildren(sh, ck, p);
      ValExtends(sh, ck, ck', p.Left());
      ValExtends(sh, ck, ck', p.Right());
    }
  }

  /** A position that becomes live with the new segment still waits for it. */
  lemma {:induction false} NewlyLive(sh: Shape, ck: Chunk, ck': Chunk, p: Pos)
    requires WellFormed(sh, ck) && WellFormed(sh, ck') && Extends(ck, ck')
    requires Live(ck', p) && !Live(ck, p)
    ensures p.h == 1 ==> p.i == |ck.segs|
    ensures p.h >= 2 ==> !Live(ck, p.Left()) || (Live(ck', p.Right()) && !Live(ck, p.Right()))
  {
    FirstMonotone(p.h, p.i, p.i + 1);
    if p.h >= 2 {
      LiveChildren(sh, ck, p);
      LiveChildren(sh, ck', p);
    }
  }

  /** The goroutine that writeSegment starts for the new double segment. */
  ghost predicate SpawnedFor(sh: Shape, ck': Chunk, c: Pos, t: Task)
    requires |ck'.segs| > 0
  {
    var m := |ck'.segs| - 1;
    && t.s == ck'.segs[m]
    && (t.i == 0 && t.d == 0 <==> ck'.Final() && |ck'.segs| == 1)
    && (if |t.s| > sh.z && sh.top > 1
        then c == Pos(1, m) && t.phase == Hashing && t.i == m
        else c == Pos(0, 2 * m) && t.phase == Storing && ck'.Final())
  }

  lemma {:induction false} SpawnKeeps(sh: Shape, ck: Chunk, ck': Chunk, net: Net, arrived: set<Pos>, c: Pos, t: Task)
    requires Inv(sh, ck, net, arrived) && WellFormed(sh, ck') && Extends(ck, ck')
    requires SpawnedFor(sh, ck', c, t)
    requires FlagsOk(sh, ck', net.nodes)
    ensures c !in net.tasks
    ensures Inv(sh, ck', net.(tasks := net.tasks[c := t]), arrived)
  {
    var net' := net.(tasks := net.tasks[c := t]);
    SpawnIsNew(sh, ck, ck', net, arrived, c, t);
    forall q | q in net'.tasks
      ensures TaskOk(sh, ck', net', arrived, q)
    {
      SpawnTaskOk(sh, ck, ck', net, arrived, c, t, q);
    }
    forall q | q in arrived
      ensures ArrivalOk(sh, ck', net'.nodes, q)
    {
      assert ArrivalOk(sh, ck, net.nodes, q);
      LiveExtends(sh, ck, ck', q);
      ValExtends(sh, ck, ck', q);
    }
    SpawnOut(sh, ck, ck', net, arrived, c, t);
  }

  lemma {:induction false} SpawnIsNew(sh: Shape, ck: Chunk, ck': Chunk, net: Net, arrived: set<Pos>, c: Pos, t: Task)
    requires Inv(sh, ck, net, arrived) && WellFormed(sh, ck') && Extends(ck, ck')
    requires SpawnedFor(sh, ck', c, t)
    ensures !Source(sh, ck, c) && c !in net.tasks && c !in arrived
    ensures Source(sh, ck', c)
  {
    assert c in net.tasks ==> TaskOk(sh, ck, net, arrived, c);
    assert c in arrived ==> ArrivalOk(sh, ck, net.nodes, c);
  }

  lemma {:induction false} SpawnTaskOk(sh: Shape, ck: Chunk, ck': Chunk, net: Net, arrived: set<Pos>, c: Pos, t: Task,
                                       q: Pos)
    requires Inv(sh, ck, net, arrived) && WellFormed(sh, ck') && Extends(ck, ck')
    requires SpawnedFor(sh, ck', c, t)
    requires q in net.tasks[c := t]
    ensures TaskOk(sh, ck', net.(tasks := net.tasks[c := t]), arrived, q)
  {
    SpawnIsNew(sh, ck, ck', net, arrived, c, t);
    if q != c {
      assert TaskOk(sh, ck, net, arrived, q);
      LiveExtends(sh, ck, ck', q);
      LiveLeaf(sh, ck, q);
      ValExtends(sh, ck, ck', q);
      assert ck'.segs[..|ck.segs|] == ck.segs;
    }
  }

  lemma {:induction false} SpawnOut(sh: Shape, ck: Chunk, ck': Chunk, net: Net, arrived: set<Pos>, c: Pos, t: Task)
    requires Inv(sh, ck, net, arrived) && WellFormed(sh, ck') && Extends(ck, ck')
    requires SpawnedFor(sh, ck', c, t)
    ensures OutOk(sh, ck', net.(tasks := net.tasks[c := t]), arrived)
  {
    var net' := net.(tasks := net.tasks[c := t]);
    SpawnIsNew(sh, ck, ck', net, arrived, c, t);
    forall p | Live(ck', p)
      ensures Out(ck', net', arrived, p) <==> Ready(sh, ck', arrived, p)
    {
      assert p in net.tasks ==> TaskOk(sh, ck, net, arrived, p);
      assert p in arrived ==> ArrivalOk(sh, ck, net.nodes, p);
      if p.h >= 2 {
        assert p.Left() in arrived ==> ArrivalOk(sh, ck, net.nodes, p.Left());
        assert p.Right() in arrived ==> ArrivalOk(sh, ck, net.nodes, p.Right());
      } else {
        assert p.Left() in arrived ==> ArrivalOk(sh, ck, net.nodes, p.Left());
      }
      if Live(ck, p) {
        assert Out(ck, net, arrived, p) <==> Ready(sh, ck, arrived, p);
        if p.h >= 2 {
          LiveChildren(sh, ck, p);
          LiveExtends(sh, ck, ck', p.Right());
        }
      } else {
        NewlyLive(sh, ck, ck', p);
      }
    }
  }

  // ------------------------------------------------------------- marking

  /** The effect of one round of finalise on a node of the path. */
  function Mark(n: Node, unbalanced: bool, root: bool): Node {
    n.(unbalanced := unbalanced, right := [], root := n.root || root)
  }

  /** Marking a node on the path of the next data node disturbs no goroutine:
      nothing has reached its right side, and no goroutine is at it. */
  lemma {:induction false} MarkKeeps(sh: Shape, ck: Chunk, net: Net, arrived: set<Pos>, p: Pos, root: bool)
    requires Inv(sh, ck, net, arrived) && !ck.Final()
    requires p in net.nodes && p.h >= 1 && OnPath(p, |ck.segs|) && !net.nodes[p].unbalanced
    ensures Inv(sh, ck,
      net.(nodes := net.nodes[p := Mark(net.nodes[p], LeftTurn(p, |ck.segs|), root)]), arrived)
  {
    var net' := net.(nodes := net.nodes[p := Mark(net.nodes[p], LeftTurn(p, |ck.segs|), root)]);
    MarkedNotReached(sh, ck, net, arrived, p);
    forall q | q in net'.tasks
      ensures TaskOk(sh, ck, net', arrived, q)
    {
      assert TaskOk(sh, ck, net, arrived, q);
      OnlyChildren(q, p);
    }
    forall q | q in arrived
      ensures ArrivalOk(sh, ck, net'.nodes, q)
    {
      assert ArrivalOk(sh, ck, net.nodes, q);
      OnlyChildren(q, p);
    }
    forall q | q in net'.nodes
      ensures ParityAt(net'.nodes, arrived, q)
      ensures FlagAt(sh, ck, net'.nodes, q)
    {
      assert ParityAt(net.nodes, arrived, q);
      assert FlagAt(sh, ck, net.nodes, q);
    }
    forall q | Source(sh, ck, q)
      ensures Out(ck, net', arrived, q) <==> Out(ck, net, arrived, q)
    {
    }
  }

  lemma {:induction false} MarkedNotReached(sh: Shape, ck: Chunk, net: Net, arrived: set<Pos>, p: Pos)
    requires Inv(sh, ck, net, arrived) && !ck.Final()
    requires p.h >= 1 && OnPath(p, |ck.segs|)
    ensures p !in net.tasks
    ensures p.Right() !in net.tasks && p.Right() !in arrived
    ensures LeftTurn(p, |ck.segs|) ==> p.Left() !in arrived
  {
    assert p in net.tasks ==> TaskOk(sh, ck, net, arrived, p);
    assert p.Right() in net.tasks ==> TaskOk(sh, ck, net, arrived, p.Right());
    assert p.Right() in arrived ==> ArrivalOk(sh, ck, net.nodes, p.Right());
    assert p.Left() in arrived ==> ArrivalOk(sh, ck, net.nodes, p.Left());
    if p.h >= 2 {
      LiveChildren(sh, ck, p);
    }
  }

  /** Marks on the path of `leaf` at the heights lo, ..., hi - 1, and the root
      flag at `rootH` (0 for none yet) besides the top. */
  ghost predicate MarkedAt(sh: Shape, n: Node, leaf: nat, lo: nat, hi: nat, rootH: nat, p: Pos) {
    && p.h >= 1
    && (n.unbalanced <==> lo <= p.h < hi && LeftTurn(p, leaf))
    && (n.root <==> p == Pos(sh.top, 0) || p == Pos(rootH, 0))
  }

  ghost predicate Marked(sh: Shape, nodes: map<Pos, Node>, leaf: nat, lo: nat, hi: nat, rootH: nat) {
    forall p {:trigger MarkedAt(sh, nodes[p], leaf, lo, hi, rootH, p)} ::
      p in nodes ==> MarkedAt(sh, nodes[p], leaf, lo, hi, rootH, p)
  }

  ghost predicate SameFlags(a: map<Pos, Node>, b: map<Pos, Node>) {
    && b.Keys == a.Keys
    && (forall p :: p in a ==> b[p].unbalanced == a[p].unbalanced && b[p].root == a[p].root)
  }

  lemma {:induction false} MarkedSame(sh: Shape, a: map<Pos, Node>, b: map<Pos, Node>, leaf: nat, lo: nat, hi: nat,
                                      rootH: nat)
    requires SameFlags(a, b) && Marked(sh, a, leaf, lo, hi, rootH)
    ensures Marked(sh, b, leaf, lo, hi, rootH)
  {
    forall p | p in b
      ensures MarkedAt(sh, b[p], leaf, lo, hi, rootH, p)
    {
      assert MarkedAt(sh, a[p], leaf, lo, hi, rootH, p);
    }
  }

  lemma {:induction false} UnmarkedIsMarked(sh: Shape, nodes: map<Pos, Node>, leaf: nat, lo: nat)
    requires Unmarked(sh, nodes) && forall p :: p in nodes ==> p.h >= 1
    ensures Marked(sh, nodes, leaf, lo, lo, 0)
  {
  }

  /** Two nodes of one path at the same height are the same. */
  lemma {:induction false} PathUnique(p: Pos, q: Pos, leaf: nat)
    requires p.h >= 1 && p.h == q.h && OnPath(p, leaf) && OnPath(q, leaf)
    ensures p == q
  {
    FirstLe(p.h, p.i + 1, q.i);
    FirstLe(p.h, q.i + 1, p.i);
  }

  lemma {:induction false} MarkExtends(sh: Shape, nodes: map<Pos, Node>, leaf: nat, lo: nat, n: Pos)
    requires n in nodes && 1 <= n.h && lo <= n.h && OnPath(n, leaf)
    requires Marked(sh, nodes, leaf, lo, n.h, 0)
    ensures Marked(sh, nodes[n := Mark(nodes[n], LeftTurn(n, leaf), n.i == 0)], leaf, lo, n.h + 1,
                   if n.i == 0 then n.h else 0)
  {
    var nodes' := nodes[n := Mark(nodes[n], LeftTurn(n, leaf), n.i == 0)];
    forall p | p in nodes'
      ensures MarkedAt(sh, nodes'[p], leaf, lo, n.h + 1, if n.i == 0 then n.h else 0, p)
    {
      assert MarkedAt(sh, nodes[p], leaf, lo, n.h, 0, p);
      if p.h == n.h && OnPath(p, leaf) {
        PathUnique(p, n, leaf);
      }
    }
  }

  /** The whole path is marked: the flags are those of the final chunk. */
  lemma {:induction false} MarkedIsClosed(sh: Shape, ck: Chunk, nodes: map<Pos, Node>, lo: nat)
    requires WellFormed(sh, ck) && ck.Final()
    requires Marked(sh, nodes, |ck.segs| - 1, lo, ck.rootH + 1, ck.rootH)
    requires FlagsOk(sh, Chunk(ck.segs[..|ck.segs| - 1], 0), nodes) && WellFormed(sh,
      Chunk(ck.segs[..|ck.segs| - 1], 0))
    requires lo <= 2 && (IsSegment(sh, ck, Pos(0, 2 * (|ck.segs| - 1))) ==> lo <= 1)
    ensures FlagsOk(sh, ck, nodes)
  {
    var m := |ck.segs| - 1;
    forall p | p in nodes
      ensures FlagAt(sh, ck, nodes, p)
    {
      assert FlagAt(sh, Chunk(ck.segs[..m], 0), nodes, p);
      assert MarkedAt(sh, nodes[p], m, lo, ck.rootH + 1, ck.rootH, p);
      FirstZero(ck.rootH);
      FirstMonotone(p.h, p.i, p.i + 1);
      if Live(ck, p) {
        if p.h >= 2 {
          LiveChildren(sh, ck, p);
        }
        LiveTopIsRoot(sh, ck, p);
      }
    }
  }

  lemma {:induction false} LiveTopIsRoot(sh: Shape, ck: Chunk, p: Pos)
    requires WellFormed(sh, ck) && ck.Final() && Live(ck, p)
    ensures p == Pos(sh.top, 0) ==> p == Pos(ck.rootH, 0)
  {
  }

  /** The first node with index 0 on a path covers the whole chunk, and no
      lower node does. */
  lemma {:induction false} RootCovers(h: nat, m: nat, below: nat)
    requires h >= 1 && OnPath(Pos(h, 0), m)
    requires h > 1 ==> below > 0 && OnPath(Pos(h - 1, below), m)
    ensures m + 1 <= First(h, 1)
    ensures h > 1 ==> First(h - 1, 1) < m + 1
  {
    if h > 1 {
      FirstLe(h - 1, 1, below);
    }
  }

  lemma {:induction false} PathParent(p: Pos, m: nat)
    requires p.h >= 1 && OnPath(p, m)
    ensures OnPath(p.Parent(), m)
    ensures LeftTurn(p.Parent(), m) <==> p.IsLeft()
  {
    var q := p.Parent();
    assert First(q.h, q.i) == First(p.h, 2 * q.i);
    assert First(q.h, q.i + 1) == First(p.h, 2 * q.i + 2);
    FirstLe(p.h, 2 * q.i, p.i);
    FirstLe(p.h, p.i + 1, 2 * q.i + 2);
    FirstLe(p.h, p.i + 1, 2 * q.i + 1);
    FirstLe(p.h, 2 * q.i + 1, p.i);
  }

  // ------------------------------------------------- waiting for the result

  /** While the result is outstanding some goroutine can move. */
  lemma {:induction false} NeverStuck(sh: Shape, ck: Chunk, net: Net, arrived: set<Pos>)
    requires Inv(sh, ck, net, arrived) && ck.Final() && net.result.None?
    ensures net.tasks.Keys != {}
  {
    var root := Pos(ck.rootH, 0);
    RootLive(sh, ck);
    assert root in arrived ==> ArrivalOk(sh, ck, net.nodes, root);
    if net.tasks.Keys == {} {
      EverythingOut(sh, ck, net, arrived, root);
    }
  }

  lemma {:induction false} EverythingOut(sh: Shape, ck: Chunk, net: Net, arrived: set<Pos>, p: Pos)
    requires Inv(sh, ck, net, arrived) && net.result.None? && net.tasks.Keys == {}
    requires Live(ck, p)
    ensures p in arrived
    decreases p.h
  {
    assert Out(ck, net, arrived, p) <==> Ready(sh, ck, arrived, p);
    if p.h >= 2 {
      LiveChildren(sh, ck, p);
      EverythingOut(sh, ck, net, arrived, p.Left());
      if Live(ck, p.Right()) {
        EverythingOut(sh, ck, net, arrived, p.Right());
      }
    } else if IsSegment(sh, ck, p.Left()) {
      assert Out(ck, net, arrived, p.Left());
    }
  }

  /** Once the result is there, every other value has been taken up. */
  lemma {:induction false} EverythingArrived(sh: Shape, ck: Chunk, net: Net, arrived: set<Pos>, p: Pos)
    requires Inv(sh, ck, net, arrived) && net.result.Some?
    requires Source(sh, ck, p) && !IsRoot(ck, p)
    ensures p in arrived
    decreases ck.rootH - p.h
  {
    ParentLive(sh, ck, p);
    var q := p.Parent();
    if !IsRoot(ck, q) {
      EverythingArrived(sh, ck, net, arrived, q);
    }
    assert Out(ck, net, arrived, q);
    ChildArrived(sh, ck, arrived, p);
  }

  lemma {:induction false} ChildArrived(sh: Shape, ck: Chunk, arrived: set<Pos>, p: Pos)
    requires Source(sh, ck, p) && Live(ck, p.Parent()) && Ready(sh, ck, arrived, p.Parent())
    ensures p in arrived
  {
    OnlyChildren(p, p.Parent());
    if p.h == 0 {
      var k := |ck.segs| - 1;
      assert p.i == 2 * k && p.i / 2 == k;
    }
  }

  /** When the result has been delivered no goroutine is left and every toggle
      has been used an even number of times. */
  lemma {:induction false} ResultMeansQuiet(sh: Shape, ck: Chunk, net: Net, arrived: set<Pos>)
    requires Inv(sh, ck, net, arrived) && net.result.Some?
    ensures net.tasks.Keys == {}
    ensures forall p :: p in net.nodes ==> !net.nodes[p].odd
  {
    forall c | c in net.tasks
      ensures false
    {
      assert TaskOk(sh, ck, net, arrived, c);
      if !IsRoot(ck, c) {
        EverythingArrived(sh, ck, net, arrived, c);
      }
    }
    forall p | p in net.nodes
      ensures !net.nodes[p].odd
    {
      assert ParityAt(net.nodes, arrived, p) && FlagAt(sh, ck, net.nodes, p);
      if !net.nodes[p].unbalanced {
        EvenAtEnd(sh, ck, net, arrived, p);
      }
    }
  }

  lemma {:induction false} EvenAtEnd(sh: Shape, ck: Chunk, net: Net, arrived: set<Pos>, p: Pos)
    requires Inv(sh, ck, net, arrived) && net.result.Some?
    requires p in net.nodes && p.h >= 1 && FlagAt(sh, ck, net.nodes, p) && !net.nodes[p].unbalanced
    ensures p.Left() in arrived <==> p.Right() in arrived
  {
    OnlyChildren(p.Left(), p);
    OnlyChildren(p.Right(), p);
    if p.Left() in arrived || p.Right() in arrived {
      var c := if p.Left() in arrived then p.Left() else p.Right();
      assert ArrivalOk(sh, ck, net.nodes, c);
      ParentLive(sh, ck, c);
      if p.h >= 2 {
        LiveChildren(sh, ck, p);
        assert !IsRoot(ck, p.Left()) && !IsRoot(ck, p.Right());
        EverythingArrived(sh, ck, net, arrived, p.Left());
        EverythingArrived(sh, ck, net, arrived, p.Right());
      }
    }
  }

  /** The goroutines that have stored, and those that have computed. */
  ghost function Stored(net: Net, arrived: set<Pos>): set<Pos> {
    arrived + (set c | c in net.tasks && net.tasks[c].phase.Toggling?)
  }

  ghost function Computed(net: Net, arrived: set<Pos>): set<Pos> {
    Stored(net, arrived) + (set c | c in net.tasks && net.tasks[c].phase.Storing?)
  }

  ghost function Universe(net: Net, leaf: nat): set<Pos> {
    net.nodes.Keys + {Pos(0, 2 * leaf)}
  }

  /** Each step that is not the delivery makes progress, in the order: arrivals
      first, then stores, then hashes; so the result comes after finitely many
      steps, whatever the scheduler does. */
  lemma {:induction false} StepProgress(sh: Shape, ck: Chunk, net: Net, arrived: set<Pos>, c: Pos)
    requires Inv(sh, ck, net, arrived) && ck.Final() && c in net.tasks && net.result.None?
    ensures Enabled(net, c)
    ensures var net' := Step(sh.H, net, c);
      var arrived' := Arrived(net, arrived, c);
      var u := Universe(net, |ck.segs| - 1);
      && net'.nodes.Keys == net.nodes.Keys
      && (net'.result.None? ==>
            || u - arrived' < u - arrived
            || (arrived' == arrived && u - Stored(net', arrived') < u - Stored(net, arrived))
            || (arrived' == arrived && Stored(net', arrived') == Stored(net, arrived) &&
                u - Computed(net', arrived') < u - Computed(net, arrived)))
  {
    TaskEnabled(sh, ck, net, arrived, c);
    assert TaskOk(sh, ck, net, arrived, c);
    if Live(ck, c) {
      LiveLeaf(sh, ck, c);
    }
    var u := Universe(net, |ck.segs| - 1);
    assert c in u && c !in arrived;
    var net' := Step(sh.H, net, c);
    match net.tasks[c].phase {
      case Toggling =>
        assert c in u - arrived;
      case Storing =>
        assert Stored(net', arrived) == Stored(net, arrived) + {c};
        assert c in u - Stored(net, arrived);
      case _ =>
        if net'.result.None? {
          assert Stored(net', arrived) == Stored(net, arrived);
          assert Computed(net', arrived) == Computed(net, arrived) + {c};
          assert c in u - Computed(net, arrived);
        }
    }
  }

  /** Steps change no flag and no part of the tree's outline. */
  lemma {:induction false} StepKeepsFlags(H: BaseHash, net: Net, c: Pos)
    requires Enabled(net, c)
    ensures SameFlags(net.nodes, Step(H, net, c).nodes)
  {
  }
}
