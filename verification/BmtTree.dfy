/** The node tree of bmt/bmt.go with the goroutines that climb it, as a state
    machine: one step is one store, one toggle or one hash of one goroutine.
    The invariant below is kept by every step in any order. */
module BmtTree {
  import opened Options
  import opened BmtReference

  /** Height 1 is the level of the data nodes; height 0 names a raw segment
      that is handed to a data node. */
  datatype Pos = Pos(h: nat, i: nat) {
    function Parent(): Pos { Pos(h + 1, i / 2) }
    function Left(): Pos requires h > 0 { Pos(h - 1, 2 * i) }
    function Right(): Pos requires h > 0 { Pos(h - 1, 2 * i + 1) }
    predicate IsLeft() { i % 2 == 0 }
  }

  datatype Node = Node(left: Bytes, right: Bytes, odd: bool, unbalanced: bool, root: bool)

  /** Where a goroutine is: in the closure of writeSegment, or in the loop of
      run before the store, before the toggle, or before the hash. */
  datatype Phase = Hashing | Storing | Toggling | Combining(fromLeft: bool)
  datatype Task = Task(phase: Phase, s: Bytes, i: nat, d: nat)

  /** Nodes, goroutines keyed by the position whose value they carry, and the
      result channel. */
  datatype Net = Net(nodes: map<Pos, Node>, tasks: map<Pos, Task>, result: Option<Bytes>)

  datatype Shape = Shape(H: BaseHash, z: nat, top: nat)

  /** The double segments pushed so far; `rootH` is 0 while data may still
      come, and the height of the chunk's root once Sum has pushed the last. */
  datatype Chunk = Chunk(segs: seq<Bytes>, rootH: nat) {
    predicate Final() { rootH > 0 }
  }

  // ---------------------------------------------------------------- shape

  /** Index of the first data node below the node `i` of height `h`. */
  function First(h: nat, i: nat): nat
    requires h >= 1
  {
    if h == 1 then i else First(h - 1, 2 * i)
  }

  lemma {:induction false} FirstMonotone(h: nat, i: nat, j: nat)
    requires h >= 1 && i < j
    ensures First(h, i) < First(h, j)
    decreases h
  {
    if h > 1 {
      FirstMonotone(h - 1, 2 * i, 2 * j);
    }
  }

  lemma {:induction false} FirstLe(h: nat, i: nat, j: nat)
    requires h >= 1
    ensures i <= j ==> First(h, i) <= First(h, j)
    ensures First(h, i) < First(h, j) <==> i < j
  {
    if i < j {
      FirstMonotone(h, i, j);
    } else if j < i {
      FirstMonotone(h, j, i);
    }
  }

  predicate InTree(sh: Shape, p: Pos) {
    1 <= p.h <= sh.top && First(p.h, p.i) < First(sh.top, 1)
  }

  /** The map holds exactly the nodes of the tree. */
  ghost predicate Outline(sh: Shape, nodes: map<Pos, Node>) {
    forall p :: p in nodes <==> InTree(sh, p)
  }

  predicate OnPath(p: Pos, leaf: nat)
    requires p.h >= 1
  {
    First(p.h, p.i) <= leaf < First(p.h, p.i + 1)
  }

  /** The path of `leaf` goes through `p` and on through its left side. */
  predicate LeftTurn(p: Pos, leaf: nat)
    requires p.h >= 1
  {
    OnPath(p, leaf) && (p.h >= 2 ==> leaf < First(p.h - 1, 2 * p.i + 1))
  }

  // ------------------------------------------------------------ the steps

  function SetSlot(n: Node, left: bool, s: Bytes): Node {
    if left then n.(left := s) else n.(right := s)
  }

  function Slot(n: Node, left: bool): Bytes {
    if left then n.left else n.right
  }

  /** The goroutine at `c` can take a step: the node it works on exists. */
  predicate Enabled(net: Net, c: Pos) {
    && c in net.tasks
    && (net.tasks[c].phase.Hashing? || net.tasks[c].phase.Combining? ==> c in net.nodes)
    && (net.tasks[c].phase.Storing? || net.tasks[c].phase.Toggling? ==> c.Parent() in net.nodes)
  }

  /** Hash of the whole double segment, then either the result or the climb. */
  function HashStep(H: BaseHash, net: Net, c: Pos): Net
    requires Enabled(net, c) && net.tasks[c].phase.Hashing?
  {
    var t := net.tasks[c];
    var s := H(t.s);
    if net.nodes[c].root then net.(tasks := net.tasks - {c}, result := Some(s))
    else net.(tasks := net.tasks[c := Task(Storing, s, c.i, t.d)])
  }

  /** n.left = s or n.right = s. */
  function StoreStep(net: Net, c: Pos): Net
    requires Enabled(net, c) && net.tasks[c].phase.Storing?
  {
    var t := net.tasks[c];
    var p := c.Parent();
    net.(nodes := net.nodes[p := SetSlot(net.nodes[p], c.IsLeft(), t.s)],
         tasks := net.tasks[c := t.(phase := Toggling)])
  }

  /** The toggle: the first of two arrivals ends, the second goes on; at an
      unbalanced node the only arrival goes on without a toggle. */
  function ToggleStep(net: Net, c: Pos): Net
    requires Enabled(net, c) && net.tasks[c].phase.Toggling?
  {
    var t := net.tasks[c];
    var p := c.Parent();
    var n := net.nodes[p];
    var goesOn := (net.tasks - {c})[p := Task(Combining(c.IsLeft()), t.s, t.i, t.d)];
    if n.unbalanced then net.(tasks := goesOn)
    else
      net.(nodes := net.nodes[p := n.(odd := !n.odd)],
           tasks := if n.odd then goesOn else net.tasks - {c})
  }

  /** The value computed at a node, then either the result or the climb. */
  function CombineStep(H: BaseHash, net: Net, p: Pos): Net
    requires Enabled(net, p) && net.tasks[p].phase.Combining?
  {
    var t := net.tasks[p];
    var n := net.nodes[p];
    var s := if !n.unbalanced || !t.phase.fromLeft || (t.i == 0 && t.d == 0)
             then H(n.left + n.right) else n.left + n.right;
    if n.root then net.(tasks := net.tasks - {p}, result := Some(s))
    else net.(tasks := net.tasks[p := Task(Storing, s, t.i + 1, t.d)])
  }

  function Step(H: BaseHash, net: Net, c: Pos): Net
    requires Enabled(net, c)
  {
    match net.tasks[c].phase
    case Hashing => HashStep(H, net, c)
    case Storing => StoreStep(net, c)
    case Toggling => ToggleStep(net, c)
    case Combining(_) => CombineStep(H, net, c)
  }

  /** Positions whose value has been taken up by the parent. */
  ghost function Arrived(net: Net, arrived: set<Pos>, c: Pos): set<Pos>
    requires c in net.tasks
  {
    if net.tasks[c].phase.Toggling? then arrived + {c} else arrived
  }

  // ------------------------------------------------------- expected values

  predicate WellFormed(sh: Shape, ck: Chunk) {
    && sh.z > 0 && sh.top >= 1
    && (forall j :: 0 <= j < |ck.segs| - (if ck.Final() then 1 else 0) ==> |ck.segs[j]| > sh.z)
    && (if ck.Final() then
          && ck.rootH <= sh.top
          && 1 <= |ck.segs| <= First(ck.rootH, 1) <= First(sh.top, 1)
          && (ck.rootH > 1 ==> First(ck.rootH - 1, 1) < |ck.segs|)
        else |ck.segs| < First(sh.top, 1))
  }

  /** Positions that carry a value of this chunk. */
  predicate Live(ck: Chunk, p: Pos) {
    && p.h >= 1
    && (if ck.Final() then p.h <= ck.rootH && First(p.h, p.i) < |ck.segs|
        else First(p.h, p.i + 1) <= |ck.segs|)
  }

  /** The raw last segment that goes to its data node unhashed. */
  predicate IsSegment(sh: Shape, ck: Chunk, p: Pos) {
    && ck.Final() && |ck.segs| > 0
    && p == Pos(0, 2 * (|ck.segs| - 1))
    && (|ck.segs[|ck.segs| - 1]| <= sh.z || sh.top == 1)
  }

  predicate Source(sh: Shape, ck: Chunk, p: Pos) {
    Live(ck, p) || IsSegment(sh, ck, p)
  }

  predicate IsRoot(ck: Chunk, p: Pos) {
    ck.Final() && p == Pos(ck.rootH, 0)
  }

  lemma {:induction false} LiveChildren(sh: Shape, ck: Chunk, p: Pos)
    requires WellFormed(sh, ck) && p.h >= 2
    ensures First(p.h - 1, 2 * p.i) == First(p.h, p.i)
    ensures First(p.h - 1, 2 * p.i + 2) == First(p.h, p.i + 1)
    ensures First(p.h, p.i) < First(p.h - 1, 2 * p.i + 1) < First(p.h, p.i + 1)
    ensures Live(ck, p) ==> Live(ck, p.Left())
    ensures !ck.Final() ==> (Live(ck, p) <==> Live(ck, p.Left()) && Live(ck, p.Right()))
    ensures ck.Final() && Live(ck, p.Right()) && p.h <= ck.rootH ==> Live(ck, p)
    ensures ck.Final() && Live(ck, p.Left()) && p.h <= ck.rootH ==> Live(ck, p)
  {
    assert First(p.h, p.i + 1) == First(p.h - 1, 2 * (p.i + 1));
    FirstMonotone(p.h - 1, 2 * p.i, 2 * p.i + 1);
    FirstMonotone(p.h - 1, 2 * p.i + 1, 2 * p.i + 2);
  }

  lemma {:induction false} LiveLeaf(sh: Shape, ck: Chunk, p: Pos)
    requires WellFormed(sh, ck) && Live(ck, p)
    ensures p.h >= 1 && First(p.h, p.i) < |ck.segs|
    ensures InTree(sh, p)
  {
    FirstMonotone(p.h, p.i, p.i + 1);
    if !ck.Final() && p.h > sh.top {
      TallNodesCoverAll(sh.top, p.h);
      FirstLe(p.h, 1, p.i + 1);
    }
  }

  lemma {:induction false} TallNodesCoverAll(h: nat, k: nat)
    requires 1 <= h <= k
    ensures First(h, 1) <= First(k, 1)
    decreases k
  {
    if h < k {
      TallNodesCoverAll(h, k - 1);
      FirstMonotone(k - 1, 1, 2);
    }
  }

  /** Value of a position: a full data node is hashed, a lone last segment is
      passed on, an inner node without a right part is transparent. */
  ghost function Val(sh: Shape, ck: Chunk, p: Pos): Bytes
    requires WellFormed(sh, ck) && Source(sh, ck, p)
    decreases p.h
  {
    if p.h == 0 then ck.segs[|ck.segs| - 1]
    else if p.h == 1 then
      LiveLeaf(sh, ck, p);
      var s := ck.segs[p.i];
      if |s| > sh.z || |ck.segs| == 1 then sh.H(s) else s
    else
      LiveChildren(sh, ck, p);
      if Live(ck, p.Right()) then sh.H(Val(sh, ck, p.Left()) + Val(sh, ck, p.Right()))
      else Val(sh, ck, p.Left())
  }

  // -------------------------------------------------------- the invariant

  /** All children that carry a value have arrived. */
  ghost predicate Ready(sh: Shape, ck: Chunk, arrived: set<Pos>, p: Pos)
    requires p.h >= 1
  {
    if p.h == 1 then IsSegment(sh, ck, p.Left()) ==> p.Left() in arrived
    else p.Left() in arrived && (Live(ck, p.Right()) ==> p.Right() in arrived)
  }

  /** The value of the position has been taken up by a goroutine. */
  ghost predicate Out(ck: Chunk, net: Net, arrived: set<Pos>, p: Pos) {
    p in net.tasks || p in arrived || (IsRoot(ck, p) && net.result.Some?)
  }

  /** The goroutine at `c` carries the value of `c` and has not arrived. */
  ghost predicate TaskOk(sh: Shape, ck: Chunk, net: Net, arrived: set<Pos>, c: Pos)
    requires WellFormed(sh, ck) && c in net.tasks
  {
    var t := net.tasks[c];
    && Source(sh, ck, c) && c !in arrived
    && (t.i == 0 && t.d == 0 <==> ck.Final() && |ck.segs| == 1)
    && match t.phase
       case Hashing => c.h == 1 && sh.top > 1 && t.i == c.i && c.i < |ck.segs| && t.s == ck.segs[c.i] && |t.s| > sh.z
       case Storing => !IsRoot(ck, c) && t.s == Val(sh, ck, c)
       case Toggling => !IsRoot(ck, c) && t.s == Val(sh, ck, c) &&
                        c.Parent() in net.nodes && Slot(net.nodes[c.Parent()], c.IsLeft()) == t.s
       case Combining(fromLeft) =>
         c.h >= 1 && c in net.nodes && (net.nodes[c].unbalanced ==> fromLeft) &&
         (c.h == 1 ==> IsSegment(sh, ck, c.Left()))
  }

  ghost predicate TasksOk(sh: Shape, ck: Chunk, net: Net, arrived: set<Pos>)
    requires WellFormed(sh, ck)
  {
    forall c {:trigger TaskOk(sh, ck, net, arrived, c)} ::
      c in net.tasks ==> TaskOk(sh, ck, net, arrived, c)
  }

  /** The parent holds the value of an arrived position. */
  ghost predicate ArrivalOk(sh: Shape, ck: Chunk, nodes: map<Pos, Node>, c: Pos)
    requires WellFormed(sh, ck)
  {
    && Source(sh, ck, c) && !IsRoot(ck, c)
    && c.Parent() in nodes
    && Slot(nodes[c.Parent()], c.IsLeft()) == Val(sh, ck, c)
  }

  ghost predicate ArrivedOk(sh: Shape, ck: Chunk, nodes: map<Pos, Node>, arrived: set<Pos>)
    requires WellFormed(sh, ck)
  {
    forall c {:trigger ArrivalOk(sh, ck, nodes, c)} :: c in arrived ==> ArrivalOk(sh, ck, nodes, c)
  }

  /** A toggle is odd while exactly one child has arrived. */
  ghost predicate ParityAt(nodes: map<Pos, Node>, arrived: set<Pos>, p: Pos)
    requires p in nodes
  {
    && p.h >= 1
    && (nodes[p].odd <==>
        !nodes[p].unbalanced && (p.Left() in arrived) != (p.Right() in arrived))
  }

  ghost predicate ParityOk(nodes: map<Pos, Node>, arrived: set<Pos>) {
    forall p {:trigger ParityAt(nodes, arrived, p)} :: p in nodes ==> ParityAt(nodes, arrived, p)
  }

  /** A position has been taken up exactly when its children have arrived. */
  ghost predicate OutOk(sh: Shape, ck: Chunk, net: Net, arrived: set<Pos>) {
    && (forall p {:trigger Out(ck, net, arrived, p)} ::
          Live(ck, p) ==> (Out(ck, net, arrived, p) <==> Ready(sh, ck, arrived, p)))
    && (forall p {:trigger Out(ck, net, arrived, p)} ::
          IsSegment(sh, ck, p) ==> Out(ck, net, arrived, p))
  }

  /** Flags while data may still come: only nodes on the path of the next data
      node may have been marked by finalise. */
  ghost predicate OpenFlagAt(sh: Shape, n: Node, leaf: nat, p: Pos) {
    && p.h >= 1
    && (n.unbalanced ==> LeftTurn(p, leaf) && n.right == [])
    && (n.root ==> p == Pos(sh.top, 0) || OnPath(p, leaf))
    && (p == Pos(sh.top, 0) ==> n.root)
  }

  ghost predicate ClosedFlagAt(sh: Shape, ck: Chunk, n: Node, p: Pos)
    requires |ck.segs| > 0
  {
    && p.h >= 1
    && (n.unbalanced ==> OnPath(p, |ck.segs| - 1))
    && (n.root ==> p == Pos(sh.top, 0) || OnPath(p, |ck.segs| - 1))
    && (p == Pos(sh.top, 0) ==> n.root)
    && (Live(ck, p) ==>
          && (n.root <==> IsRoot(ck, p))
          && (n.unbalanced ==> n.right == [])
          && (if p.h == 1 then IsSegment(sh, ck, p.Left()) ==> n.unbalanced
              else n.unbalanced <==> !Live(ck, p.Right())))
  }

  ghost predicate FlagAt(sh: Shape, ck: Chunk, nodes: map<Pos, Node>, p: Pos)
    requires WellFormed(sh, ck) && p in nodes
  {
    if ck.Final() then ClosedFlagAt(sh, ck, nodes[p], p)
    else OpenFlagAt(sh, nodes[p], |ck.segs|, p)
  }

  ghost predicate FlagsOk(sh: Shape, ck: Chunk, nodes: map<Pos, Node>)
    requires WellFormed(sh, ck)
  {
    forall p {:trigger FlagAt(sh, ck, nodes, p)} :: p in nodes ==> FlagAt(sh, ck, nodes, p)
  }

  ghost predicate ResultOk(sh: Shape, ck: Chunk, net: Net)
    requires WellFormed(sh, ck)
  {
    net.result.Some? ==>
      && ck.Final() && Pos(ck.rootH, 0) !in net.tasks
      && Live(ck, Pos(ck.rootH, 0)) && net.result.value == Val(sh, ck, Pos(ck.rootH, 0))
  }

  ghost predicate Inv(sh: Shape, ck: Chunk, net: Net, arrived: set<Pos>) {
    && WellFormed(sh, ck)
    && Outline(sh, net.nodes)
    && TasksOk(sh, ck, net, arrived)
    && ArrivedOk(sh, ck, net.nodes, arrived)
    && ParityOk(net.nodes, arrived)
    && OutOk(sh, ck, net, arrived)
    && FlagsOk(sh, ck, net.nodes)
    && ResultOk(sh, ck, net)
  }

  // ------------------------------------------------- facts used by the steps

  lemma {:induction false} ParentInTree(sh: Shape, ck: Chunk, c: Pos)
    requires WellFormed(sh, ck) && Source(sh, ck, c) && !IsRoot(ck, c)
    ensures InTree(sh, c.Parent())
  {
    if c.h == 0 {
    } else {
      LiveLeaf(sh, ck, c);
      var p := c.Parent();
      if c.h == sh.top {
        FirstLe(c.h, c.i, 1);
        if ck.Final() {
          TallNodesCoverAll(ck.rootH, sh.top);
        }
      } else {
        FirstLe(c.h, 2 * p.i, c.i);
      }
    }
  }

  /** In a final chunk every source but the root has a live parent. */
  lemma {:induction false} ParentLive(sh: Shape, ck: Chunk, c: Pos)
    requires WellFormed(sh, ck) && ck.Final() && Source(sh, ck, c) && !IsRoot(ck, c)
    ensures Live(ck, c.Parent())
  {
    var p := c.Parent();
    if c.h > 0 {
      FirstLe(c.h, 2 * p.i, c.i);
      if c.h == ck.rootH {
        FirstLe(c.h, c.i, 1);
      }
    } else {
      assert First(1, p.i) == p.i == |ck.segs| - 1;
    }
  }

  lemma {:induction false} RootLive(sh: Shape, ck: Chunk)
    requires WellFormed(sh, ck) && ck.Final()
    ensures Live(ck, Pos(ck.rootH, 0))
    ensures InTree(sh, Pos(ck.rootH, 0))
  {
    FirstZero(ck.rootH);
    LiveLeaf(sh, ck, Pos(ck.rootH, 0));
  }

  lemma {:induction false} FirstZero(h: nat)
    requires h >= 1
    ensures First(h, 0) == 0
    decreases h
  {
    if h > 1 {
      FirstZero(h - 1);
    }
  }

  /** A goroutine can always take its next step. */
  lemma {:induction false} TaskEnabled(sh: Shape, ck: Chunk, net: Net, arrived: set<Pos>, c: Pos)
    requires Inv(sh, ck, net, arrived) && c in net.tasks
    ensures Enabled(net, c)
  {
    assert TaskOk(sh, ck, net, arrived, c);
    match net.tasks[c].phase {
      case Hashing => LiveLeaf(sh, ck, c);
      case Combining(_) =>
      case _ => ParentInTree(sh, ck, c);
    }
  }
}
