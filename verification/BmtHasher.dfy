/** The concurrent hasher of bmt/bmt.go.  Between any two actions of the
    calling thread the goroutines take arbitrarily many steps in an arbitrary
    order, and Sum waits by letting an arbitrary goroutine move. */
module BmtHasher {
  import opened Options
  import opened BmtReference
  import opened BmtTree
  import opened BmtSteps
  import opened BmtChunk
  import opened BmtValue

  function Halvings(l: nat): nat {
    if l == 0 then 0 else 1 + Halvings(l / 2)
  }

  /** depth: the index of the level of the data nodes. */
  method Depth(n: nat) returns (d: nat)
    requires n > 0
    ensures (n + 1) / 2 <= First(d + 1, 1)
  {
    d := 0;
    var l: nat := (n - 1) / 2;
    while l > 0
      invariant d + Halvings(l) == Halvings((n - 1) / 2)
    {
      l := l / 2;
      d := d + 1;
    }
    HalvingsCover((n - 1) / 2);
  }

  lemma {:induction false} HalvingsCover(l: nat)
    ensures l < First(Halvings(l) + 1, 1)
  {
    if l > 0 {
      HalvingsCover(l / 2);
      FirstDouble(Halvings(l), 1);
    }
  }

  lemma {:induction false} FirstDouble(h: nat, i: nat)
    requires h >= 1
    ensures First(h, 2 * i) == 2 * First(h, i)
    decreases h
  {
    if h > 1 {
      FirstDouble(h - 1, 2 * i);
    }
  }

  /** NewTree: a clean tree with one node at the top and twice as many nodes
      on every further level down to the data nodes. */
  method NewTree(sh: Shape) returns (nodes: map<Pos, Node>)
    requires sh.top >= 1
    ensures Clean(sh, nodes)
  {
    var level := sh.top;
    var width: nat := 1;
    nodes := map[Pos(sh.top, 0) := Node([], [], false, false, true)];
    FirstZero(sh.top);
    FirstMonotone(sh.top, 0, 1);
    OneAtTop(sh);
    while level > 1
      invariant 1 <= level <= sh.top
      invariant First(level, width) == First(sh.top, 1)
      invariant forall p :: p in nodes <==> InTree(sh, p) && p.h >= level
      invariant Unmarked(sh, nodes)
      invariant forall p :: p in nodes ==> !nodes[p].odd
    {
      level := level - 1;
      width := 2 * width;
      nodes := nodes + map i: nat | 0 <= i < width :: Pos(level, i) := Node([], [], false, false, false);
      forall p: Pos | p.h == level
        ensures InTree(sh, p) <==> p.i < width
      {
        FirstLe(level, p.i, width);
      }
    }
  }

  lemma {:induction false} OneAtTop(sh: Shape)
    requires sh.top >= 1
    ensures forall p :: InTree(sh, p) && p.h >= sh.top <==> p == Pos(sh.top, 0)
  {
    forall p: Pos | p.h == sh.top
      ensures InTree(sh, p) <==> p.i == 0
    {
      FirstLe(sh.top, p.i, 1);
    }
  }

  class Hasher {
    const H: BaseHash
    const size: nat
    const count: nat
    const depth: nat
    var net: Net                     // the tree, the goroutines, the result channel
    var cur: nat                     // index of the rightmost open double segment
    var segment: Bytes               // its content so far
    var blockLength: Option<Bytes>
    var reserved: bool               // a tree has been taken from the pool
    ghost var segs: seq<Bytes>       // double segments pushed so far
    ghost var arrived: set<Pos>

    ghost function Sh(): Shape { Shape(H, size, depth + 1) }

    /** The bytes written since the tree was reserved. */
    ghost function Data(): Bytes
      reads this
    {
      Flatten(segs) + segment
    }

    ghost predicate Sized() {
      size > 0 && count > 0 && (count + 1) / 2 <= First(depth + 1, 1)
    }

    ghost predicate Valid()
      reads this
    {
      && Sized()
      && (if reserved then Open() else Idle())
    }

    ghost predicate Idle()
      reads this
    {
      && Clean(Sh(), net.nodes) && net.tasks == map[] && net.result.None?
      && cur == 0 && segment == [] && segs == [] && arrived == {}
    }

    ghost predicate Open()
      reads this
    {
      && Pushed() && |segs| == cur
      && |segment| <= 2 * size
      && (cur > 0 ==> |segment| > 0)
      && |Data()| <= count * size
    }

    /** New with a tree from NewTree. */
    constructor (H: BaseHash, size: nat, count: nat)
      requires size > 0 && count > 0
      ensures Valid() && !reserved
      ensures this.H == H && this.size == size && this.count == count
    {
      var d := Depth(count);
      var nodes := NewTree(Shape(H, size, d + 1));
      this.H := H;
      this.size := size;
      this.count := count;
      this.depth := d;
      this.net := Net(nodes, map[], None);
      this.cur := 0;
      this.segment := [];
      this.blockLength := None;
      this.reserved := false;
      this.segs := [];
      this.arrived := {};
    }

    /** Reset, and ResetWithLength when a length is given. */
    method Reset(length: Option<Bytes>)
      requires Valid()
      modifies this`blockLength, this`reserved
      ensures Valid() && reserved && blockLength == length
    {
      if !reserved {
        FreshChunk(Sh(), net.nodes);
        reserved := true;
      }
      blockLength := length;
    }

    /** The goroutines run: any number of steps, in any order. */
    method Interfere(ghost ck: Chunk)
      requires Inv(Sh(), ck, net, arrived)
      modifies this`net, this`arrived
      ensures Inv(Sh(), ck, net, arrived)
      ensures SameFlags(old(net).nodes, net.nodes)
    {
      var n :| n >= 0;
      for k := 0 to n
        invariant Inv(Sh(), ck, net, arrived)
        invariant SameFlags(old(net).nodes, net.nodes)
      {
        if net.tasks.Keys != {} {
          var c :| c in net.tasks.Keys;
          StepOne(ck, c);
        }
      }
    }

    method StepOne(ghost ck: Chunk, c: Pos)
      requires Inv(Sh(), ck, net, arrived) && c in net.tasks
      modifies this`net, this`arrived
      ensures Inv(Sh(), ck, net, arrived)
      ensures SameFlags(old(net).nodes, net.nodes)
      ensures Enabled(old(net), c)
      ensures net == Step(H, old(net), c) && arrived == Arrived(old(net), old(arrived), c)
    {
      StepKeeps(Sh(), ck, net, arrived, c);
      StepKeepsFlags(H, net, c);
      arrived := Arrived(net, arrived, c);
      net := Step(H, net, c);
    }

    /** writeSegment: starts the goroutine of a double segment. */
    method WriteSegment(i: nat, s: Bytes, d: nat, ghost ck: Chunk)
      requires Inv(Sh(), Chunk(segs, 0), net, arrived) && |segs| == i
      requires WellFormed(Sh(), ck) && ck.segs == segs + [s] && FlagsOk(Sh(), ck, net.nodes)
      requires ck.Final() || (|s| > size && depth > 0 && d > 0)
      requires ck.Final() && i == 0 ==> d == 0
      modifies this`net, this`segs
      ensures Inv(Sh(), ck, net, arrived) && segs == ck.segs
      ensures net.nodes == old(net.nodes)
    {
      var c, t;
      if |s| > size && depth > 0 {
        c, t := Pos(1, i), Task(Hashing, s, i, d);
      } else {
        c, t := Pos(0, 2 * i), Task(Storing, s, 2 * i, d);
      }
      assert ck.segs[..|segs|] == segs;
      SpawnKeeps(Sh(), Chunk(segs, 0), ck, net, arrived, c, t);
      net := net.(tasks := net.tasks[c := t]);
      segs := ck.segs;
    }

    /** Write: appends to the chunk and pushes every double segment that is
        followed by more data. */
    method Write(b: Bytes)
      requires Valid() && reserved
      requires |Data()| + |b| <= count * size
      modifies this`net, this`cur, this`segment, this`segs, this`arrived
      ensures Valid()
      ensures Data() == old(Data()) + b
    {
      var l := |b|;
      if l <= 0 {
        assert old(Data()) + b == old(Data());
        return;
      }
      var i, cnt := cur, (count + 1) / 2;
      var rest, need, sz := Room(l);
      var s := segment + b[..rest];
      ghost var data := old(Data()) + b;
      FirstPiece(Flatten(segs), segment, b, rest);
      while need > 0 && i < cnt - 1
        invariant |segs| == i && 0 <= rest <= l && 0 < |s| <= 2 * size
        invariant Pushed()
        invariant need > 0 ==> need == l - rest && sz == 2 * size && |s| == 2 * size
        invariant need <= 0 ==> rest == l
        invariant Flatten(segs) + s + b[rest..] == data
      {
        PushFits(need);
        Push(i, s);
        need := need - sz;
        if need < 0 {
          sz := sz + need;
        }
        NextPiece(Flatten(segs), b, rest, sz);
        s := b[rest..rest + sz];
        rest := rest + sz;
        i := i + 1;
      }
      if need > 0 {
        PushFits(need);
      }
      segment := s;
      cur := i;
    }

    /** How much of the new data completes the open double segment, how much
        is then left, and the size of the next piece. */
    method Room(l: nat) returns (rest: nat, need: int, sz: nat)
      requires Valid() && reserved && l > 0 && |Data()| + l <= count * size
      ensures rest <= l && 0 < |segment| + rest <= 2 * size
      ensures need > 0 ==> need == l - rest && sz == 2 * size && |segment| + rest == 2 * size
      ensures need <= 0 ==> rest == l
    {
      need := count * size - cur * 2 * size;
      Offset();
      sz := size;
      if need > sz {
        sz := sz * 2;
      }
      if l < need {
        need := l;
      }
      rest := sz - |segment|;
      if need < rest {
        rest := need;
      }
      need := need - rest;
    }

    static lemma {:induction false} FirstPiece(done: Bytes, s: Bytes, b: Bytes, rest: nat)
      requires rest <= |b|
      ensures done + (s + b[..rest]) + b[rest..] == done + s + b
    {
      assert b[..rest] + b[rest..] == b;
    }

    static lemma {:induction false} NextPiece(done: Bytes, b: Bytes, rest: nat, sz: nat)
      requires rest + sz <= |b|
      ensures done + b[rest..] == done + b[rest..rest + sz] + b[rest + sz..]
    {
    }

    /** The tree holds full double segments only and is not marked. */
    ghost predicate Pushed()
      reads this
    {
      && Sized()
      && Inv(Sh(), Chunk(segs, 0), net, arrived) && Unmarked(Sh(), net.nodes)
      && (forall j :: 0 <= j < |segs| ==> |segs[j]| == 2 * size)
    }

    lemma {:induction false} Offset()
      requires Valid() && reserved
      ensures cur * 2 * size == |Flatten(segs)|
    {
      FlattenLength(segs, 2 * size);
      assert cur * 2 * size == cur * (2 * size);
    }

    /** With data left after a full double segment, another one follows. */
    lemma {:induction false} PushFits(need: nat)
      requires Pushed() && need > 0 && |Flatten(segs)| + 2 * size + need <= count * size
      ensures |segs| < (count + 1) / 2 - 1
      ensures |segs| + 1 < First(depth + 1, 1) && depth > 0
    {
      FlattenLength(segs, 2 * size);
      var i := |segs|;
      assert i * (2 * size) + 2 * size == (2 * (i + 1)) * size;
      if 2 * (i + 1) >= count {
        Scale(count, 2 * (i + 1), size);
      }
    }

    /** One full double segment goes to the tree, and the goroutines run. */
    method Push(i: nat, s: Bytes)
      requires Pushed() && |segs| == i && i + 1 < First(depth + 1, 1) && depth > 0
      requires |s| == 2 * size
      modifies this`net, this`segs, this`arrived
      ensures Pushed() && segs == old(segs) + [s]
      ensures Flatten(segs) == old(Flatten(segs)) + s
    {
      FlattenConcat(segs, [s]);
      FlattenOne(s);
      ghost var ck := Chunk(segs + [s], 0);
      UnmarkedIsOpen(Sh(), ck, net.nodes);
      WriteSegment(i, s, depth, ck);
      Interfere(ck);
    }

    lemma {:induction false} UnmarkedIsOpen(sh: Shape, ck: Chunk, nodes: map<Pos, Node>)
      requires WellFormed(sh, ck) && !ck.Final() && Unmarked(sh, nodes)
      requires forall p :: p in nodes ==> p.h >= 1
      ensures FlagsOk(sh, ck, nodes)
    {
    }

    /** finalise: marks the path of the last segment up to the first node with
        index 0, which becomes the root of the chunk. */
    method Finalise(n0: Pos, i: nat) returns (d: nat, ghost rootH: nat)
      requires Inv(Sh(), Chunk(segs, 0), net, arrived) && Unmarked(Sh(), net.nodes)
      requires n0 in net.nodes && 1 <= n0.h <= 2 && OnPath(n0, |segs|)
      requires n0.h == 2 ==> |segs| > 0
      requires i % 2 == 0 <==> LeftTurn(n0, |segs|)
      modifies this`net, this`arrived
      ensures Inv(Sh(), Chunk(segs, 0), net, arrived)
      ensures Marked(Sh(), net.nodes, |segs|, n0.h, rootH + 1, rootH)
      ensures n0.h <= rootH <= depth + 1 && d == rootH - n0.h
      ensures |segs| + 1 <= First(rootH, 1)
      ensures rootH > 1 ==> First(rootH - 1, 1) < |segs| + 1
    {
      ghost var m := |segs|;
      var n := n0;
      ghost var below: nat := m;
      d := 0;
      UnmarkedIsMarked(Sh(), net.nodes, m, n0.h);
      MarkNode(n, i % 2 == 0, n0.h);
      while n.i != 0
        invariant Inv(Sh(), Chunk(segs, 0), net, arrived)
        invariant n in net.nodes && n.h == n0.h + d && OnPath(n, m)
        invariant Marked(Sh(), net.nodes, m, n0.h, n.h + 1, if n.i == 0 then n.h else 0)
        invariant n.h > 1 ==> below > 0 && OnPath(Pos(n.h - 1, below), m)
        decreases depth + 1 - n.h
      {
        below := n.i;
        n := MarkParent(n, n0.h);
        d := d + 1;
      }
      rootH := n.h;
      RootCovers(n.h, m, below);
    }

    /** The goroutines run, then finalise marks the next node of the path. */
    method MarkParent(n: Pos, ghost lo: nat) returns (p: Pos)
      requires Inv(Sh(), Chunk(segs, 0), net, arrived) && n in net.nodes && n.h >= 1 && OnPath(n, |segs|)
      requires n.i > 0 && lo <= n.h && Marked(Sh(), net.nodes, |segs|, lo, n.h + 1, 0)
      modifies this`net, this`arrived
      ensures p == n.Parent() && n.h < depth + 1
      ensures Inv(Sh(), Chunk(segs, 0), net, arrived) && p in net.nodes && OnPath(p, |segs|)
      ensures Marked(Sh(), net.nodes, |segs|, lo, p.h + 1, if p.i == 0 then p.h else 0)
    {
      PathParent(n, |segs|);
      ParentOnTree(n);
      ghost var before := net.nodes;
      Interfere(Chunk(segs, 0));
      MarkedSame(Sh(), before, net.nodes, |segs|, lo, n.h + 1, 0);
      p := n.Parent();
      MarkNode(p, n.IsLeft(), lo);
    }

    lemma {:induction false} ParentOnTree(n: Pos)
      requires InTree(Sh(), n) && n.i > 0
      ensures InTree(Sh(), n.Parent()) && n.h < depth + 1
    {
      FirstLe(n.h, n.i, 1);
      FirstLe(n.h, 2 * (n.i / 2), n.i);
    }

    /** One round of finalise. */
    method MarkNode(n: Pos, isLeft: bool, ghost lo: nat)
      requires Inv(Sh(), Chunk(segs, 0), net, arrived) && n in net.nodes && n.h >= 1 && OnPath(n, |segs|)
      requires isLeft <==> LeftTurn(n, |segs|)
      requires lo <= n.h && Marked(Sh(), net.nodes, |segs|, lo, n.h, 0)
      modifies this`net
      ensures Inv(Sh(), Chunk(segs, 0), net, arrived)
      ensures net.nodes.Keys == old(net.nodes).Keys
      ensures Marked(Sh(), net.nodes, |segs|, lo, n.h + 1, if n.i == 0 then n.h else 0)
    {
      assert MarkedAt(Sh(), net.nodes[n], |segs|, lo, n.h, 0, n);
      MarkKeeps(Sh(), Chunk(segs, 0), net, arrived, n, n.i == 0);
      MarkExtends(Sh(), net.nodes, |segs|, lo, n);
      net := net.(nodes := net.nodes[n := Mark(net.nodes[n], isLeft, n.i == 0)]);
    }

    /** Sum: finishes the chunk, waits for the result and gives the tree back
        clean.  Whatever the goroutines do in the meantime, the result is the
        digest of the bytes written. */
    method Sum() returns (r: Bytes)
      requires Valid() && reserved
      modifies this`net, this`cur, this`segment, this`reserved, this`segs, this`arrived
      ensures Valid() && !reserved
      ensures r == var h := Digest(H, size, old(Data()));
                   if blockLength.None? then h else H(blockLength.value + h)
    {
      ghost var data := Data();
      ghost var ck := FinishChunk();
      r := Await(ck);
      assert r == Digest(H, size, data) by { RootValue(Sh(), ck); }
      ReleaseTree(ck);
      if blockLength.Some? {
        r := H(blockLength.value + r);
      }
    }

    /** The part of Sum before it waits. */
    method FinishChunk() returns (ghost ck: Chunk)
      requires Valid() && reserved
      modifies this`net, this`segs, this`arrived
      ensures Sized() && Inv(Sh(), ck, net, arrived) && ck.Final() && segs == ck.segs
      ensures Chopped(size, ck.segs) && Flatten(ck.segs) == old(Data())
      ensures |ck.segs| == cur + 1
    {
      var n, i := PathStart();
      var d;
      ghost var rootH;
      d, rootH := Finalise(n, i);
      ck := Chunk(segs + [segment], rootH);
      if rootH > 1 {
        TallNodesCoverAll(1, rootH - 1);
      }
      CloseChunk(ck, n.h);
      WriteSegment(cur, segment, d, ck);
    }

    /** Where Sum lets finalise begin: at the parent of the data node if the
        last double segment is hashed as a whole, else at the data node. */
    method PathStart() returns (n: Pos, i: nat)
      requires Valid() && reserved
      ensures n in net.nodes && OnPath(n, cur) && (i % 2 == 0 <==> LeftTurn(n, cur))
      ensures if |segment| > size && cur > 0 && depth > 0 then n.h == 2 else n.h == 1
    {
      i := cur;
      n := Pos(1, i);
      LastLeaf();
      if |segment| > size && i > 0 && depth > 0 {
        PathParent(n, cur);
        ParentOnTree(n);
        n := n.Parent();
      } else {
        i := 2 * i;
      }
    }

    lemma {:induction false} CloseChunk(ck: Chunk, lo: nat)
      requires Sized() && Inv(Sh(), Chunk(segs, 0), net, arrived)
      requires forall j :: 0 <= j < |segs| ==> |segs[j]| == 2 * size
      requires |segment| <= 2 * size && (|segs| > 0 ==> |segment| > 0)
      requires ck.segs == segs + [segment] && 1 <= ck.rootH <= depth + 1
      requires |segs| + 1 <= First(ck.rootH, 1)
      requires ck.rootH > 1 ==> First(ck.rootH - 1, 1) < |segs| + 1
      requires Marked(Sh(), net.nodes, |segs|, lo, ck.rootH + 1, ck.rootH)
      requires if |segment| > size && |segs| > 0 && depth > 0 then lo == 2 else lo == 1
      ensures WellFormed(Sh(), ck) && FlagsOk(Sh(), ck, net.nodes)
      ensures Chopped(size, ck.segs) && Flatten(ck.segs) == Flatten(segs) + segment
    {
      TallNodesCoverAll(ck.rootH, depth + 1);
      assert ck.segs[..|ck.segs| - 1] == segs;
      MarkedIsClosed(Sh(), ck, net.nodes, lo);
      FlattenConcat(segs, [segment]);
      FlattenOne(segment);
    }

    /** The open double segment has a data node. */
    lemma {:induction false} LastLeaf()
      requires Valid() && reserved
      ensures InTree(Sh(), Pos(1, cur)) && OnPath(Pos(1, cur), cur)
      ensures depth == 0 ==> cur == 0
    {
    }

    /** The receive on the result channel. */
    method Await(ghost ck: Chunk) returns (r: Bytes)
      requires Inv(Sh(), ck, net, arrived) && ck.Final()
      modifies this`net, this`arrived
      ensures Inv(Sh(), ck, net, arrived) && net.result == Some(r)
      ensures SameFlags(old(net).nodes, net.nodes)
    {
      while net.result.None?
        invariant Inv(Sh(), ck, net, arrived)
        invariant SameFlags(old(net).nodes, net.nodes)
        decreases net.result.None?,
                  Universe(net, |ck.segs| - 1) - arrived,
                  Universe(net, |ck.segs| - 1) - Stored(net, arrived),
                  Universe(net, |ck.segs| - 1) - Computed(net, arrived)
      {
        NeverStuck(Sh(), ck, net, arrived);
        var c :| c in net.tasks.Keys;
        StepProgress(Sh(), ck, net, arrived, c);
        StepOne(ck, c);
      }
      r := net.result.value;
    }

    /** releaseTree: clears the marks on the path of the last data node. */
    method ReleaseTree(ghost ck: Chunk)
      requires Sized() && Inv(Sh(), ck, net, arrived) && net.result.Some? && |ck.segs| == cur + 1
      modifies this`net, this`cur, this`segment, this`reserved, this`segs, this`arrived
      ensures Valid() && !reserved
    {
      ResultMeansQuiet(Sh(), ck, net, arrived);
      LastOnTree(ck);
      var n := Pos(1, cur);
      var nodes := net.nodes[n := Cleared(net.nodes[n], n.h < depth + 1)];
      ClearedUpToLeaf(ck);
      while n.h < depth + 1
        invariant n in net.nodes && n.h >= 1 && OnPath(n, cur)
        invariant ClearedUpTo(net.nodes, nodes, n.h)
        modifies {}
        decreases depth + 1 - n.h
      {
        ClearedNext(nodes, n);
        n := n.Parent();
        nodes := nodes[n := Cleared(nodes[n], n.h < depth + 1)];
      }
      ClearedIsClean(ck, nodes);
      net := Net(nodes, map[], None);
      reserved := false;
      cur := 0;
      segment := [];
      segs := [];
      arrived := {};
    }

    static function Cleared(n: Node, hasParent: bool): Node {
      n.(unbalanced := false, root := n.root && !hasParent)
    }

    /** The path of the last data node has been cleared up to height `h`. */
    ghost predicate ClearedUpTo(was: map<Pos, Node>, nodes: map<Pos, Node>, h: nat)
      reads this`cur
    {
      && nodes.Keys == was.Keys
      && (forall p {:trigger nodes[p]} {:trigger was[p]} :: p in was ==>
            && p.h >= 1
            && nodes[p] == if p.h <= h && OnPath(p, cur) then Cleared(was[p], p.h < depth + 1) else was[p])
    }

    lemma {:induction false} ClearedUpToLeaf(ck: Chunk)
      requires Inv(Sh(), ck, net, arrived) && Pos(1, cur) in net.nodes
      ensures var n := Pos(1, cur);
        ClearedUpTo(net.nodes, net.nodes[n := Cleared(net.nodes[n], n.h < depth + 1)], 1)
    {
    }

    lemma {:induction false} ClearedNext(nodes: map<Pos, Node>, n: Pos)
      requires Outline(Sh(), net.nodes)
      requires n in net.nodes && 1 <= n.h < depth + 1 && OnPath(n, cur)
      requires ClearedUpTo(net.nodes, nodes, n.h)
      ensures var q := n.Parent();
        q in net.nodes && OnPath(q, cur) &&
        ClearedUpTo(net.nodes, nodes[q := Cleared(nodes[q], q.h < depth + 1)], q.h)
    {
      var q := n.Parent();
      PathParent(n, cur);
      FirstLe(n.h, 2 * q.i, n.i);
      assert InTree(Sh(), q);
      var nodes' := nodes[q := Cleared(nodes[q], q.h < depth + 1)];
      forall p | p in net.nodes
        ensures p.h >= 1 && nodes'[p] ==
          if p.h <= q.h && OnPath(p, cur) then Cleared(net.nodes[p], p.h < depth + 1) else net.nodes[p]
      {
        if p.h == q.h && OnPath(p, cur) {
          PathUnique(p, q, cur);
        }
      }
    }

    lemma {:induction false} ClearedIsClean(ck: Chunk, nodes: map<Pos, Node>)
      requires Inv(Sh(), ck, net, arrived) && ck.Final() && |ck.segs| == cur + 1
      requires forall p :: p in net.nodes ==> !net.nodes[p].odd
      requires ClearedUpTo(net.nodes, nodes, depth + 1)
      ensures Clean(Sh(), nodes)
    {
      forall p | p in nodes
        ensures !nodes[p].odd && !nodes[p].unbalanced && (nodes[p].root <==> p == Pos(depth + 1, 0))
      {
        assert FlagAt(Sh(), ck, net.nodes, p);
        FirstLe(p.h, p.i, 1);
      }
    }

    lemma {:induction false} LastOnTree(ck: Chunk)
      requires Inv(Sh(), ck, net, arrived) && ck.Final() && |ck.segs| == cur + 1
      ensures Pos(1, cur) in net.nodes && OnPath(Pos(1, cur), cur)
    {
    }
  }

  /** For every segment size and count, every chunk within the capacity and
      every split of it into writes, the concurrent hasher agrees with the
      reference, and can be used for the next chunk. */
  method MatchesReference(fast: Hasher, ref: RefHasher, pieces: seq<Bytes>) returns (x: Bytes, y: Bytes)
    requires fast.Valid() && !fast.reserved && ref.Valid()
    requires fast.H == ref.H && fast.size == ref.hashsize && ref.cap == fast.count * fast.size
    requires |Flatten(pieces)| <= ref.cap
    modifies fast
    ensures x == y == Digest(ref.H, ref.hashsize, Flatten(pieces))
    ensures fast.Valid() && !fast.reserved
  {
    fast.Reset(None);
    for k := 0 to |pieces|
      invariant fast.Valid() && fast.reserved && fast.blockLength == None
      invariant fast.Data() == Flatten(pieces[..k])
    {
      FlattenSplit(pieces, 0, k, k + 1);
      FlattenSplit(pieces, 0, k + 1, |pieces|);
      assert pieces[k..k + 1] == [pieces[k]];
      FlattenOne(pieces[k]);
      assert pieces[0..|pieces|] == pieces;
      assert pieces[0..k + 1] == pieces[..k + 1] && pieces[0..k] == pieces[..k];
      fast.Write(pieces[k]);
    }
    assert pieces[..|pieces|] == pieces;
    x := fast.Sum();
    y := ref.Hash(Flatten(pieces));
  }
}
