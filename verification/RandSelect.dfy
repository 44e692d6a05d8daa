/** Weighted random selection of les/randselect.go over the sum tree. */
module RandSelect {
  import opened SelectTree

  function Slotted(item: nat, weight: nat): Slot {
    if weight == 0 then Empty else Full(item, weight)
  }

  // ------------------------------------------------------------- indices

  /** Which branch and which slot of it an index means. */
  lemma {:induction false} Locate(n: Node, idx: nat)
    requires Valid(n) && idx < |Flat(n)|
    ensures Unit(n) > 0 && idx / Unit(n) < BRANCHES
    ensures var b := idx / Unit(n);
      && |Branch(n, b)| == Unit(n) && 0 <= idx - b * Unit(n) < Unit(n)
      && |FlatUpTo(n, b)| + (idx - b * Unit(n)) == idx
      && Branch(n, b)[idx - b * Unit(n)] == Flat(n)[idx]
  {
    UnitIs(n);
    FlatLength(n);
    var b := DivideIndex(idx, Unit(n));
    LengthUpTo(n, b);
    ChildIs(n, b);
    BranchSlots(n, b, idx - b * Unit(n));
  }

  lemma {:induction false} DivideIndex(idx: nat, unit: nat) returns (b: nat)
    requires unit > 0 && idx < 8 * unit
    ensures b == idx / unit && b < 8 && 0 <= idx - b * unit < unit
  {
    b := idx / unit;
    assert idx == b * unit + idx % unit;
    assert b >= 8 ==> b * unit >= 8 * unit;
  }

  lemma {:induction false} LeafLevel(n: Node, b: nat)
    requires Valid(n) && n.level == 0 && b < BRANCHES
    ensures Unit(n) == 1 && |FlatUpTo(n, b)| == b && |Branch(n, b)| == 1
    ensures n.items[b].NoChild? ==> Branch(n, b)[0] == Empty
    ensures n.items[b].Leaf? ==> Branch(n, b)[0] == Full(n.items[b].item, n.weights[b])
    ensures !n.items[b].Sub?
  {
    UnitIs(n);
    LengthUpTo(n, b);
    ChildIs(n, b);
  }

  lemma {:induction false} FullCounts(s: seq<Slot>, k: nat)
    requires k < |s| && s[k].Full?
    ensures CountFull(s) > 0 && SumWeights(s) >= s[k].weight
  {
    TotalsUpdate(s, k, Empty);
  }

  /** An occupied slot has weight. */
  lemma {:induction false} FullPositive(n: Node, k: nat)
    requires Valid(n) && k < |Flat(n)| && Flat(n)[k].Full?
    ensures Flat(n)[k].weight > 0
    decreases n.level
  {
    Locate(n, k);
    var b := k / Unit(n);
    assert ChildOk(n, b);
    if n.items[b].Sub? {
      FullPositive(n.items[b].node, k - b * Unit(n));
    }
  }

  // --------------------------------------------------------------- insert

  /** A branch that the search passes over: it has no room. */
  predicate Occupied(n: Node, b: nat)
    requires |n.items| == BRANCHES && b < BRANCHES
  {
    n.items[b] != NoChild && (n.level == 0 || !n.items[b].Sub? || n.items[b].node.itemCnt == n.items[b].node.maxItems)
  }

  lemma {:induction false} OccupiedIsFull(n: Node, b: nat)
    requires Valid(n) && b < BRANCHES && Occupied(n, b)
    ensures CountFull(Branch(n, b)) == |Branch(n, b)|
  {
    ChildIs(n, b);
    match n.items[b]
    case Leaf(x) => TotalsOne(Full(x, n.weights[b]));
    case Sub(m) => FlatLength(m);
  }

  lemma {:induction false} PassOver(n: Node, b: nat)
    requires Valid(n) && b < BRANCHES && Occupied(n, b)
    requires CountFull(FlatUpTo(n, b)) == |FlatUpTo(n, b)|
    ensures CountFull(FlatUpTo(n, b + 1)) == |FlatUpTo(n, b + 1)|
  {
    OccupiedIsFull(n, b);
    var c := b + 1;
    assert FlatUpTo(n, c) == FlatUpTo(n, b) + Branch(n, b);
    TotalsConcat(FlatUpTo(n, b), Branch(n, b));
  }

  /** The search of insert for a branch with room never runs off the end of a
      node that is not full. */
  method FindRoom(n: Node) returns (branch: nat)
    requires Valid(n) && n.itemCnt < n.maxItems
    ensures branch < BRANCHES && !Occupied(n, branch)
    ensures CountFull(FlatUpTo(n, branch)) == |FlatUpTo(n, branch)|
  {
    branch := 0;
    while Occupied(n, branch)
      invariant branch < BRANCHES && CountFull(FlatUpTo(n, branch)) == |FlatUpTo(n, branch)|
      decreases BRANCHES - branch
    {
      PassOver(n, branch);
      branch := branch + 1;
      assert branch < BRANCHES by {
        FlatLength(n);
      }
    }
  }

  /** insert: the item goes into the lowest free slot, whose index is returned. */
  method Insert(n: Node, item: nat, weight: nat) returns (r: Node, idx: nat)
    requires Valid(n) && n.itemCnt < n.maxItems && weight > 0
    ensures Valid(r) && r.level == n.level
    ensures idx < |Flat(n)| && Flat(n)[idx] == Empty && CountFull(Flat(n)[..idx]) == idx
    ensures Flat(r) == Flat(n)[idx := Full(item, weight)]
    decreases n.level
  {
    var b := FindRoom(n);
    if n.level == 0 {
      r, idx := Placed(n, b, Leaf(item), weight), b;
      LeafInserted(n, b, item, weight);
    } else {
      SubNode(n, b);
      var subNode := if n.items[b].NoChild? then NewNode(n.level - 1) else n.items[b].node;
      var sub, subIdx := Insert(subNode, item, weight);
      var first: nat := BranchStart(n, b, sub);
      r, idx := Placed(n, b, Sub(sub), weight), first + subIdx;
      SubInserted(n, b, subNode, sub, subIdx, item, weight);
    }
  }

  /** The node with one more item, of the given weight, in branch `b`. */
  function Placed(n: Node, b: nat, child: Child, weight: nat): Node
    requires |n.items| == BRANCHES == |n.weights| && b < BRANCHES
  {
    n.(itemCnt := n.itemCnt + 1, sumWeight := n.sumWeight + weight,
       weights := n.weights[b := n.weights[b] + weight], items := n.items[b := child])
  }

  lemma {:induction false} LeafInserted(n: Node, b: nat, item: nat, weight: nat)
    requires Valid(n) && n.level == 0 && b < BRANCHES && !Occupied(n, b) && weight > 0
    requires CountFull(FlatUpTo(n, b)) == |FlatUpTo(n, b)|
    ensures Valid(Placed(n, b, Leaf(item), weight))
    ensures b < |Flat(n)| && Flat(n)[b] == Empty && CountFull(Flat(n)[..b]) == b
    ensures Flat(Placed(n, b, Leaf(item), weight)) == Flat(n)[b := Full(item, weight)]
  {
    LeafLevel(n, b);
    assert ChildOk(n, b);
    InsertedAt(n, Placed(n, b, Leaf(item), weight), b, 0, item, weight);
  }

  lemma {:induction false} SubInserted(n: Node, b: nat, subNode: Node, sub: Node, j: nat, item: nat, weight: nat)
    requires Valid(n) && n.level > 0 && b < BRANCHES && weight > 0
    requires CountFull(FlatUpTo(n, b)) == |FlatUpTo(n, b)|
    requires Valid(subNode) && subNode.sumWeight == n.weights[b] && Flat(subNode) == Branch(n, b)
    requires Valid(sub) && sub.level == n.level - 1
    requires j < |Flat(subNode)| && Flat(subNode)[j] == Empty && CountFull(Flat(subNode)[..j]) == j
    requires Flat(sub) == Flat(subNode)[j := Full(item, weight)]
    ensures Valid(Placed(n, b, Sub(sub), weight))
    ensures var idx := |FlatUpTo(n, b)| + j;
      && idx < |Flat(n)| && Flat(n)[idx] == Empty && CountFull(Flat(n)[..idx]) == idx
      && Flat(Placed(n, b, Sub(sub), weight)) == Flat(n)[idx := Full(item, weight)]
  {
    TotalsUpdate(Flat(subNode), j, Full(item, weight));
    InsertedAt(n, Placed(n, b, Sub(sub), weight), b, j, item, weight);
  }

  /** The index of a branch's first slot. */
  method BranchStart(n: Node, b: nat, sub: Node) returns (first: nat)
    requires Valid(n) && n.level > 0 && b < BRANCHES && Valid(sub) && sub.level == n.level - 1
    ensures first == |FlatUpTo(n, b)|
  {
    first := sub.maxItems * b;
    LengthUpTo(n, b);
    UnitIs(n);
  }

  lemma {:induction false} SubNode(n: Node, b: nat)
    requires Valid(n) && n.level > 0 && b < BRANCHES && !Occupied(n, b)
    ensures var m := if n.items[b].NoChild? then NewNode(n.level - 1)
                     else if n.items[b].Sub? then n.items[b].node else n;
      Valid(m) && m.level == n.level - 1 && m.itemCnt < m.maxItems && m.sumWeight == n.weights[b]
      && Flat(m) == Branch(n, b) && m.maxItems == Unit(n)
  {
    assert ChildOk(n, b);
    ChildIs(n, b);
    UnitIs(n);
    match n.items[b]
    case NoChild =>
      var m := NewNode(n.level - 1);
      NewNodeValid(n.level - 1);
      FlatLength(m);
      AllEmptyIs(Flat(m));
      assert Flat(m) == Branch(n, b);
    case Leaf(_) =>
    case Sub(m) =>
      FlatLength(m);
      CountBound(Flat(m));
  }

  lemma {:induction false} InsertedAt(n: Node, r: Node, b: nat, j: nat, item: nat, weight: nat)
    requires Valid(n) && weight > 0
    requires Replaces(n, r, b) && j < |Branch(n, b)| && Branch(n, b)[j] == Empty
    requires Branch(r, b) == Branch(n, b)[j := Full(item, weight)] && ChildOk(r, b)
    requires r.sumWeight == n.sumWeight + weight && r.itemCnt == n.itemCnt + 1
    requires CountFull(FlatUpTo(n, b)) == |FlatUpTo(n, b)| && CountFull(Branch(n, b)[..j]) == j
    ensures Valid(r) && |FlatUpTo(n, b)| + j < |Flat(n)|
    ensures Flat(n)[|FlatUpTo(n, b)| + j] == Empty
    ensures Flat(r) == Flat(n)[|FlatUpTo(n, b)| + j := Full(item, weight)]
    ensures CountFull(Flat(n)[..|FlatUpTo(n, b)| + j]) == |FlatUpTo(n, b)| + j
  {
    var v := Full(item, weight);
    assert Differs(n, r, b, j, v);
    ReplaceFlat(n, r, b, j, v);
    ReplaceKeeps(n, r, b, j, v);
    FullBefore(n, b, j);
  }

  /** Everything before slot `j` of a branch is full if the earlier branches and the
      earlier slots are. */
  lemma {:induction false} FullBefore(n: Node, b: nat, j: nat)
    requires Valid(n) && b < BRANCHES && j < |Branch(n, b)|
    requires CountFull(FlatUpTo(n, b)) == |FlatUpTo(n, b)| && CountFull(Branch(n, b)[..j]) == j
    ensures |FlatUpTo(n, b)| + j < |Flat(n)| && Flat(n)[|FlatUpTo(n, b)| + j] == Branch(n, b)[j]
    ensures CountFull(Flat(n)[..|FlatUpTo(n, b)| + j]) == |FlatUpTo(n, b)| + j
  {
    var c := b + 1;
    UpToIsPrefix(n, c, BRANCHES);
    PrefixFull(Flat(n), FlatUpTo(n, b), Branch(n, b), j);
  }

  lemma {:induction false} PrefixFull(all: seq<Slot>, before: seq<Slot>, branch: seq<Slot>, j: nat)
    requires before + branch <= all && j < |branch|
    requires CountFull(before) == |before| && CountFull(branch[..j]) == j
    ensures |before| + j < |all| && all[|before| + j] == branch[j]
    ensures CountFull(all[..|before| + j]) == |before| + j
  {
    assert all[..|before| + j] == before + branch[..j];
    assert all[|before| + j] == (before + branch)[|before| + j];
    TotalsConcat(before, branch[..j]);
  }

  // ------------------------------------------------------------ setWeight

  /** setWeight of a node: the slot's weight is changed, and emptied at zero. */
  method SetNodeWeight(n: Node, idx: nat, weight: nat) returns (r: Node, diff: int)
    requires Valid(n) && idx < |Flat(n)| && Flat(n)[idx].Full?
    ensures Valid(r) && r.level == n.level
    ensures Flat(r) == Flat(n)[idx := Slotted(Flat(n)[idx].item, weight)]
    ensures diff == weight - Flat(n)[idx].weight
    decreases n.level
  {
    if n.level == 0 {
      r, diff := SetLeafWeight(n, idx, weight);
      return;
    }
    ghost var item := Flat(n)[idx].item;
    Locate(n, idx);
    FullCounts(Flat(n), idx);
    var branchItems := n.maxItems / BRANCHES;
    var branch := idx / branchItems;
    assert ChildOk(n, branch);
    var subIdx: nat := idx - branch * branchItems;
    var sub;
    sub, diff := SetNodeWeight(n.items[branch].node, subIdx, weight);
    SubChanged(n, branch, subIdx, sub, weight);
    r := n.(items := n.items[branch := Sub(sub)], weights := n.weights[branch := n.weights[branch] + diff],
            sumWeight := n.sumWeight + diff);
    if weight == 0 {
      r := r.(itemCnt := n.itemCnt - 1);
    }
    ChangedAt(n, r, branch, subIdx, item, weight);
  }

  lemma {:induction false} SubChanged(n: Node, b: nat, j: nat, sub: Node, weight: nat)
    requires Valid(n) && b < BRANCHES && n.items[b].Sub? && j < |Branch(n, b)| && Branch(n, b)[j].Full?
    requires Valid(sub) && Flat(sub) == Branch(n, b)[j := Slotted(Branch(n, b)[j].item, weight)]
    ensures sub.sumWeight == n.weights[b] + weight - Branch(n, b)[j].weight
  {
    ChildIs(n, b);
    TotalsUpdate(Branch(n, b), j, Slotted(Branch(n, b)[j].item, weight));
  }

  method SetLeafWeight(n: Node, idx: nat, weight: nat) returns (r: Node, diff: int)
    requires Valid(n) && n.level == 0 && idx < |Flat(n)| && Flat(n)[idx].Full?
    ensures Valid(r) && r.level == n.level
    ensures Flat(r) == Flat(n)[idx := Slotted(Flat(n)[idx].item, weight)]
    ensures diff == weight - Flat(n)[idx].weight
  {
    Locate(n, idx);
    FullCounts(Flat(n), idx);
    UnitIs(n);
    LeafLevel(n, idx);
    var oldWeight := n.weights[idx];
    diff := weight - oldWeight;
    r := n.(weights := n.weights[idx := weight], sumWeight := n.sumWeight + diff);
    if weight == 0 {
      r := r.(items := n.items[idx := NoChild], itemCnt := n.itemCnt - 1);
    }
    ChangedAt(n, r, idx, 0, Flat(n)[idx].item, weight);
  }

  lemma {:induction false} ChangedAt(n: Node, r: Node, b: nat, j: nat, item: nat, weight: nat)
    requires Valid(n) && Replaces(n, r, b) && j < |Branch(n, b)| && ChildOk(r, b)
    requires Branch(n, b)[j].Full? && Branch(r, b) == Branch(n, b)[j := Slotted(item, weight)]
    requires r.sumWeight == n.sumWeight + weight - Branch(n, b)[j].weight
    requires r.itemCnt == if weight == 0 then n.itemCnt - 1 else n.itemCnt
    ensures Valid(r) && |FlatUpTo(n, b)| + j < |Flat(n)|
    ensures Flat(r) == Flat(n)[|FlatUpTo(n, b)| + j := Slotted(item, weight)]
  {
    var v := Slotted(item, weight);
    assert Differs(n, r, b, j, v);
    ReplaceFlat(n, r, b, j, v);
    ReplaceKeeps(n, r, b, j, v);
  }

  // --------------------------------------------------------------- choose

  /** The draw `val` falls on slot `k`: the slots before it weigh at most `val`
      and with it they weigh more. */
  ghost predicate Drawn(s: seq<Slot>, k: nat, val: nat) {
    k < |s| && SumWeights(s[..k]) <= val < SumWeights(s[..k]) + WeightOf(s[k])
  }

  lemma {:induction false} DrawnInside(a: seq<Slot>, b: seq<Slot>, s: seq<Slot>, k: nat, val: nat)
    requires a + b <= s && Drawn(b, k, val)
    ensures Drawn(s, |a| + k, SumWeights(a) + val)
  {
    assert s[..|a| + k] == a + b[..k];
    TotalsConcat(a, b[..k]);
  }

  lemma {:induction false} UpToNext(n: Node, i: nat)
    requires Valid(n) && i < BRANCHES
    ensures FlatUpTo(n, i) + Branch(n, i) <= Flat(n)
    ensures SumWeights(FlatUpTo(n, i + 1)) == SumWeights(FlatUpTo(n, i)) + n.weights[i]
    ensures SumWeights(Branch(n, i)) == n.weights[i]
  {
    var c := i + 1;
    UpToIsPrefix(n, c, BRANCHES);
    assert FlatUpTo(n, c) == FlatUpTo(n, i) + Branch(n, i);
    TotalsConcat(FlatUpTo(n, i), Branch(n, i));
    ChildIs(n, i);
  }

  lemma {:induction false} DrawnAt(n: Node, i: nat, j: nat, v: nat) returns (k: nat)
    requires Valid(n) && i < BRANCHES && j < |Branch(n, i)|
    requires SumWeights(Branch(n, i)[..j]) <= v < SumWeights(Branch(n, i)[..j]) + WeightOf(Branch(n, i)[j])
    ensures Drawn(Flat(n), k, SumWeights(FlatUpTo(n, i)) + v) && Flat(n)[k] == Branch(n, i)[j]
  {
    k := |FlatUpTo(n, i)| + j;
    UpToNext(n, i);
    BranchSlots(n, i, j);
    DrawnInside(FlatUpTo(n, i), Branch(n, i), Flat(n), j, v);
  }

  /** The loop of choose over the branch weights never runs off the end. */
  method FindBranch(n: Node, val: nat) returns (i: nat, v: nat)
    requires Valid(n) && val < n.sumWeight
    ensures i < BRANCHES && v < n.weights[i] && v + SumWeights(FlatUpTo(n, i)) == val
  {
    v := val;
    i := 0;
    while v >= n.weights[i]
      invariant i < BRANCHES && v + SumWeights(FlatUpTo(n, i)) == val
      decreases BRANCHES - i
    {
      UpToNext(n, i);
      v := v - n.weights[i];
      i := i + 1;
      assert i < BRANCHES;
    }
  }

  /** choose of a node: the item of the slot that the draw falls on. */
  method ChooseIn(n: Node, val: nat) returns (item: nat, weight: nat)
    requires Valid(n) && val < n.sumWeight
    ensures exists k: nat {:trigger Drawn(Flat(n), k, val)} ::
      Drawn(Flat(n), k, val) && Flat(n)[k] == Full(item, weight)
    decreases n.level
  {
    var i, v := FindBranch(n, val);
    assert ChildOk(n, i);
    if n.level == 0 {
      item, weight := n.items[i].item, n.weights[i];
      LeafLevel(n, i);
      ghost var k := DrawnAt(n, i, 0, v);
    } else {
      item, weight := ChooseIn(n.items[i].node, v);
      ghost var j: nat :| Drawn(Flat(n.items[i].node), j, v) && Flat(n.items[i].node)[j] == Full(item, weight);
      ghost var k := DrawnAt(n, i, j, v);
    }
  }

  // ------------------------------------------------------- counting draws

  lemma {:induction false} PrefixesGrow(s: seq<Slot>, i: nat, j: nat)
    requires i < j <= |s|
    ensures SumWeights(s[..i]) + WeightOf(s[i]) <= SumWeights(s[..j]) <= SumWeights(s)
  {
    var m := i + 1;
    assert s[..m][..i] == s[..i];
    assert s[..j] == s[..m] + s[m..j];
    TotalsConcat(s[..m], s[m..j]);
    assert s == s[..j] + s[j..];
    TotalsConcat(s[..j], s[j..]);
  }

  /** A draw falls on one slot only. */
  lemma {:induction false} DrawnOnce(s: seq<Slot>, j: nat, k: nat, val: nat)
    requires Drawn(s, j, val) && Drawn(s, k, val)
    ensures j == k
  {
    if j < k {
      PrefixesGrow(s, j, k);
    } else if k < j {
      PrefixesGrow(s, k, j);
    }
  }

  ghost function Draws(s: seq<Slot>, k: nat): set<nat> {
    set val: nat | val < SumWeights(s) && Drawn(s, k, val)
  }

  predicate Within(x: nat, from: nat, size: nat) { from <= x < from + size }

  ghost function Interval(from: nat, size: nat): set<nat> {
    set x: nat {:trigger Within(x, from, size)} | x < from + size && Within(x, from, size)
  }

  lemma {:induction false} IntervalSize(from: nat, size: nat)
    ensures |Interval(from, size)| == size
    decreases size
  {
    if size > 0 {
      var less := size - 1;
      IntervalSize(from, less);
      assert forall x: nat :: Within(x, from, size) <==> Within(x, from, less) || x == from + less;
      assert Interval(from, size) == Interval(from, less) + {from + less};
    } else {
      assert Interval(from, size) == {};
    }
  }

  /** Out of the draws in [0, sum) exactly as many fall on a slot as it weighs. */
  lemma {:induction false} ExactlyWeightDraws(s: seq<Slot>, k: nat)
    requires k < |s|
    ensures |Draws(s, k)| == WeightOf(s[k])
  {
    PrefixesGrow(s, k, |s|);
    assert s[..|s|] == s;
    assert forall val: nat :: Drawn(s, k, val) <==> Within(val, SumWeights(s[..k]), WeightOf(s[k]));
    assert Draws(s, k) == Interval(SumWeights(s[..k]), WeightOf(s[k]));
    IntervalSize(SumWeights(s[..k]), WeightOf(s[k]));
  }

  // ------------------------------------------------------------ the selector

  datatype Choice = Nothing | Chosen(item: nat)

  /** The index names exactly the full slots. */
  ghost predicate Indexes(idx: map<nat, nat>, s: seq<Slot>) {
    && (forall x {:trigger idx[x]} :: x in idx ==> idx[x] < |s| && s[idx[x]].Full? && s[idx[x]].item == x)
    && (forall k {:trigger s[k]} :: 0 <= k < |s| && s[k].Full? ==> s[k].item in idx && idx[s[k].item] == k)
  }

  /** The weight of item `x` after some items were drawn and reported theirs: the
      last one it reported, or the one it had. */
  function WeightAfter(w: nat, drawn: seq<nat>, reported: (nat, nat) -> nat, x: nat): nat {
    if drawn == [] then w
    else if drawn[|drawn| - 1] == x then reported(|drawn| - 1, x)
    else WeightAfter(w, drawn[..|drawn| - 1], reported, x)
  }

  class WeightedRandomSelect {
    var root: Node
    var idx: map<nat, nat>

    ghost predicate Valid()
      reads this
    {
      SelectTree.Valid(root) && Indexes(idx, Flat(root))
    }

    /** The weight stored for an item, zero when it is not in the set. */
    ghost function Stored(x: nat): nat
      reads this
      requires Valid()
    {
      if x in idx then Flat(root)[idx[x]].weight else 0
    }

    constructor ()
      ensures Valid() && idx == map[]
    {
      root, idx := NewNode(0), map[];
      NewNodeValid(0);
    }

    /** setWeight: an item is added, changed, or removed at weight zero; every
        other item keeps its weight and its index. */
    method SetWeight(item: nat, weight: nat)
      requires Valid()
      modifies this
      ensures Valid()
      ensures forall x: nat :: Stored(x) == if x == item then weight else old(Stored(x))
      ensures idx.Keys == if weight == 0 then old(idx.Keys) - {item} else old(idx.Keys) + {item}
      ensures forall x {:trigger idx[x]} :: x in old(idx) && x in idx ==> idx[x] == old(idx)[x]
      ensures root.sumWeight + old(Stored(item)) == old(root.sumWeight) + weight
    {
      if item in idx {
        Change(item, weight);
      } else if weight != 0 {
        Grow();
        Add(item, weight);
      }
    }

    method Change(item: nat, weight: nat)
      requires Valid() && item in idx
      modifies this
      ensures Valid()
      ensures forall x: nat :: Stored(x) == if x == item then weight else old(Stored(x))
      ensures idx == if weight == 0 then old(idx) - {item} else old(idx)
      ensures root.sumWeight + old(Stored(item)) == old(root.sumWeight) + weight
    {
      var r, _ := SetNodeWeight(root, idx[item], weight);
      TotalsUpdate(Flat(root), idx[item], Slotted(item, weight));
      root := r;
      if weight == 0 {
        idx := idx - {item};
      }
    }

    method Add(item: nat, weight: nat)
      requires Valid() && item !in idx && weight > 0 && root.itemCnt < root.maxItems
      modifies this
      ensures Valid()
      ensures forall x: nat :: Stored(x) == if x == item then weight else old(Stored(x))
      ensures item in idx && idx == old(idx)[item := idx[item]]
      ensures root.sumWeight == old(root.sumWeight) + weight
    {
      var r, i := Insert(root, item, weight);
      TotalsUpdate(Flat(root), i, Full(item, weight));
      root, idx := r, idx[item := i];
    }

    /** A full tree gets a new level. */
    method Grow()
      requires Valid()
      modifies this`root
      ensures Valid() && root.itemCnt < root.maxItems && root.sumWeight == old(root.sumWeight)
      ensures forall x: nat :: Stored(x) == old(Stored(x))
    {
      FlatLength(root);
      CountBound(Flat(root));
      if root.itemCnt == root.maxItems {
        AddLevelKeeps(root);
        AddLevelFlat(root);
        UnitIs(root);
        Extends(idx, Flat(root), Flat(AddLevel(root)));
        root := AddLevel(root);
      }
    }

    static lemma {:induction false} Extends(idx: map<nat, nat>, s: seq<Slot>, t: seq<Slot>)
      requires Indexes(idx, s) && s <= t && AllEmpty(t[|s|..])
      ensures Indexes(idx, t)
    {
      assert forall k {:trigger t[k]} :: |s| <= k < |t| ==> t[k] == t[|s|..][k - |s|];
      assert forall k {:trigger t[k]} :: 0 <= k < |s| ==> t[k] == s[k];
    }

    /** choose: draws until one is accepted.  A drawn item reports its current
        weight, which is stored; a draw is rejected only when that weight is
        lower than the stored one, so every retry lowers the sum.  `reported` is
        what an item reports in each round, `drawn` are the items drawn. */
    method Choose(reported: (nat, nat) -> nat) returns (r: Choice, ghost drawn: seq<nat>)
      requires Valid()
      modifies this
      ensures Valid()
      ensures r.Nothing? ==> root.sumWeight == 0 && idx.Keys == {}
      ensures r.Chosen? ==> r.item in old(idx) && r.item in idx
      ensures idx.Keys <= old(idx.Keys)
      ensures forall x: nat :: Stored(x) <= old(Stored(x)) || r == Chosen(x)
      ensures forall x: nat :: Stored(x) == WeightAfter(old(Stored(x)), drawn, reported, x)
      ensures r.Chosen? ==> drawn != [] && drawn[|drawn| - 1] == r.item && Stored(r.item) > 0
      ensures forall i {:trigger drawn[i]} :: 0 <= i < |drawn| && (i < |drawn| - 1 || r.Nothing?) ==>
        reported(i, drawn[i]) < WeightAfter(old(Stored(drawn[i])), drawn[..i], reported, drawn[i])
    {
      drawn := [];
      var round: nat := 0;
      while root.sumWeight != 0
        invariant round == |drawn|
        invariant Valid() && idx.Keys <= old(idx.Keys)
        invariant forall x: nat :: Stored(x) <= old(Stored(x))
        invariant forall x: nat :: Stored(x) == WeightAfter(old(Stored(x)), drawn, reported, x)
        invariant forall i {:trigger drawn[i]} :: 0 <= i < |drawn| ==>
          reported(i, drawn[i]) < WeightAfter(old(Stored(drawn[i])), drawn[..i], reported, drawn[i])
        decreases root.sumWeight
      {
        var item, lastWeight, weight := Draw(reported, round);
        DrawnNext(drawn, item);
        drawn := drawn + [item];
        if weight >= lastWeight {
          return Chosen(item), drawn;
        }
        var again: nat :| again < lastWeight;
        if again < weight {
          return Chosen(item), drawn;
        }
        round := round + 1;
      }
      forall x | x in idx
        ensures false
      {
        FullCounts(Flat(root), idx[x]);
        FullPositive(root, idx[x]);
      }
      r := Nothing;
    }

    /** One round of choose: an item is drawn, and the weight it reports is stored. */
    method Draw(reported: (nat, nat) -> nat, round: nat) returns (item: nat, lastWeight: nat, weight: nat)
      requires Valid() && root.sumWeight > 0
      modifies this
      ensures Valid() && item in old(idx) && idx.Keys <= old(idx.Keys) && (weight > 0 ==> item in idx)
      ensures lastWeight == old(Stored(item)) > 0 && weight == reported(round, item)
      ensures forall x: nat :: Stored(x) == if x == item then weight else old(Stored(x))
      ensures root.sumWeight + lastWeight == old(root.sumWeight) + weight
    {
      var val: nat :| val < root.sumWeight;
      item, lastWeight := ChooseIn(root, val);
      ghost var k: nat :| Drawn(Flat(root), k, val) && Flat(root)[k] == Full(item, lastWeight);
      assert Flat(root)[k].Full? && idx[item] == k;
      FullPositive(root, k);
      weight := reported(round, item);
      if weight != lastWeight {
        SetWeight(item, weight);
      }
    }

    static lemma {:induction false} DrawnNext(drawn: seq<nat>, item: nat)
      ensures (drawn + [item])[..|drawn|] == drawn
      ensures forall i {:trigger (drawn + [item])[..i]} :: 0 <= i <= |drawn| ==> (drawn + [item])[..i] == drawn[..i]
    {
    }

    /** Out of the draws in [0, sum) exactly as many select an item as it
        weighs. */
    lemma {:induction false} ExactlyStoredDraws(x: nat)
      requires Valid() && x in idx
      ensures |Draws(Flat(root), idx[x])| == Stored(x)
      ensures Flat(root)[idx[x]].item == x
      ensures forall k {:trigger Flat(root)[k]} :: 0 <= k < |Flat(root)| && k != idx[x] && Flat(root)[k].Full? ==>
        Flat(root)[k].item != x
    {
      ExactlyWeightDraws(Flat(root), idx[x]);
    }
  }
}
