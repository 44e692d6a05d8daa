/** The sum tree behind weighted random selection, les/randselect.go.  A node of
    level l has eight branches and room for 8^(l+1) items; read from left to
    right a tree is a sequence of slots, and an item's index is its slot. */
module SelectTree {

  const BRANCHES := 8

  datatype Slot = Empty | Full(item: nat, weight: nat)

  datatype Child = NoChild | Leaf(item: nat) | Sub(node: Node)

  datatype Node = Node(items: seq<Child>, weights: seq<nat>, sumWeight: nat, level: nat, itemCnt: nat, maxItems: nat)

  // ------------------------------------------------------ slot sequences

  function WeightOf(s: Slot): nat { if s.Empty? then 0 else s.weight }

  function CountOf(s: Slot): nat { if s.Empty? then 0 else 1 }

  function SumWeights(s: seq<Slot>): nat {
    if s == [] then 0 else SumWeights(s[..|s| - 1]) + WeightOf(s[|s| - 1])
  }

  function CountFull(s: seq<Slot>): nat {
    if s == [] then 0 else CountFull(s[..|s| - 1]) + CountOf(s[|s| - 1])
  }

  function Empties(n: nat): seq<Slot> { seq(n, _ => Empty) }

  lemma {:induction false} TotalsConcat(a: seq<Slot>, b: seq<Slot>)
    ensures SumWeights(a + b) == SumWeights(a) + SumWeights(b)
    ensures CountFull(a + b) == CountFull(a) + CountFull(b)
    decreases |b|
  {
    if b == [] {
      assert a + b == a;
    } else {
      assert (a + b)[..|a + b| - 1] == a + b[..|b| - 1];
      TotalsConcat(a, b[..|b| - 1]);
    }
  }

  lemma {:induction false} TotalsOne(s: Slot)
    ensures SumWeights([s]) == WeightOf(s) && CountFull([s]) == CountOf(s)
  {
    assert [s][..0] == [];
  }

  lemma {:induction false} TotalsUpdate(s: seq<Slot>, k: nat, v: Slot)
    requires k < |s|
    ensures SumWeights(s[k := v]) + WeightOf(s[k]) == SumWeights(s) + WeightOf(v)
    ensures CountFull(s[k := v]) + CountOf(s[k]) == CountFull(s) + CountOf(v)
  {
    var a, b := s[..k], s[k + 1..];
    assert s == (a + [s[k]]) + b;
    assert s[k := v] == (a + [v]) + b;
    TotalsConcat(a + [s[k]], b);
    TotalsConcat(a + [v], b);
    TotalsConcat(a, [s[k]]);
    TotalsConcat(a, [v]);
    TotalsOne(s[k]);
    TotalsOne(v);
  }

  lemma {:induction false} TotalsEmpty(n: nat)
    ensures SumWeights(Empties(n)) == 0 && CountFull(Empties(n)) == 0
    decreases n
  {
    if n > 0 {
      var m := n - 1;
      assert Empties(n)[..m] == Empties(m);
      TotalsEmpty(m);
    }
  }

  lemma {:induction false} CountBound(s: seq<Slot>)
    ensures CountFull(s) <= |s|
    decreases |s|
  {
    if s != [] {
      CountBound(s[..|s| - 1]);
    }
  }

  // ------------------------------------------------------- reading a tree

  function Pow8(n: nat): nat {
    if n == 0 then 1 else 8 * Pow8(n - 1)
  }

  function Unit(n: Node): nat { n.maxItems / BRANCHES }

  ghost predicate Shape(n: Node) {
    |n.items| == BRANCHES && |n.weights| == BRANCHES
  }

  ghost function ChildFlat(c: Child, w: nat, unit: nat): seq<Slot>
    decreases c, 0
  {
    match c
    case NoChild => Empties(unit)
    case Leaf(x) => [Full(x, w)]
    case Sub(n) => Flat(n)
  }

  ghost function FlatUpTo(n: Node, i: nat): seq<Slot>
    requires Shape(n) && i <= BRANCHES
    decreases n, i
  {
    if i == 0 then [] else FlatUpTo(n, i - 1) + ChildFlat(n.items[i - 1], n.weights[i - 1], Unit(n))
  }

  /** The slots of the tree, left to right. */
  ghost function Flat(n: Node): seq<Slot>
    decreases n, 100
  {
    if Shape(n) then FlatUpTo(n, BRANCHES) else []
  }

  ghost function Branch(n: Node, i: nat): seq<Slot>
    requires Shape(n) && i < BRANCHES
  {
    ChildFlat(n.items[i], n.weights[i], Unit(n))
  }

  ghost predicate ChildOk(n: Node, i: nat)
    requires Shape(n) && i < BRANCHES
    decreases n, 0
  {
    match n.items[i]
    case NoChild => n.weights[i] == 0
    case Leaf(_) => n.level == 0 && n.weights[i] > 0
    case Sub(m) => n.level > 0 && m.level == n.level - 1 && Valid(m) && n.weights[i] == m.sumWeight
  }

  /** At every node the weight and the item count are the totals of the slots
      below it, and so is every branch weight. */
  ghost predicate Valid(n: Node)
    decreases n, 1
  {
    && Shape(n) && n.maxItems == Pow8(n.level + 1)
    && (forall i {:trigger ChildOk(n, i)} :: 0 <= i < BRANCHES ==> ChildOk(n, i))
    && n.sumWeight == SumWeights(Flat(n)) && n.itemCnt == CountFull(Flat(n))
  }

  lemma {:induction false} UnitIs(n: Node)
    requires Valid(n)
    ensures Unit(n) == Pow8(n.level) > 0 && n.maxItems == 8 * Unit(n)
    ensures n.level > 0 ==> Unit(n) == Pow8(n.level - 1 + 1)
  {
    PowPositive(n.level);
  }

  lemma {:induction false} PowPositive(n: nat)
    ensures Pow8(n) > 0
    decreases n
  {
    if n > 0 {
      PowPositive(n - 1);
    }
  }

  /** A branch covers `Unit(n)` slots, whose total is the branch weight. */
  lemma {:induction false} ChildIs(n: Node, i: nat)
    requires Valid(n) && i < BRANCHES
    ensures ChildOk(n, i)
    ensures |Branch(n, i)| == Unit(n) && SumWeights(Branch(n, i)) == n.weights[i]
    decreases n, 0
  {
    assert ChildOk(n, i);
    UnitIs(n);
    match n.items[i]
    case NoChild => TotalsEmpty(Unit(n));
    case Leaf(x) => TotalsOne(Full(x, n.weights[i]));
    case Sub(m) => FlatLength(m);
  }

  lemma {:induction false} LengthUpTo(n: Node, i: nat)
    requires Valid(n) && i <= BRANCHES
    ensures |FlatUpTo(n, i)| == i * Unit(n)
    decreases n, 1, i
  {
    if i > 0 {
      var k := i - 1;
      LengthUpTo(n, k);
      ChildIs(n, k);
      assert FlatUpTo(n, i) == FlatUpTo(n, k) + Branch(n, k);
    }
  }

  lemma {:induction false} FlatLength(n: Node)
    requires Valid(n)
    ensures |Flat(n)| == n.maxItems
    decreases n, 2
  {
    LengthUpTo(n, BRANCHES);
    UnitIs(n);
  }

  lemma {:induction false} UpToIsPrefix(n: Node, i: nat, k: nat)
    requires Shape(n) && i <= k <= BRANCHES
    ensures FlatUpTo(n, i) <= FlatUpTo(n, k)
    decreases k
  {
    if i < k {
      UpToIsPrefix(n, i, k - 1);
    }
  }

  // -------------------------------------------------------- changing a tree

  /** `r` is `n` with branch `b` replaced. */
  ghost predicate Replaces(n: Node, r: Node, b: nat) {
    && Shape(n) && Shape(r) && b < BRANCHES
    && r.level == n.level && r.maxItems == n.maxItems
    && forall i {:trigger r.items[i]} :: 0 <= i < BRANCHES && i != b ==>
      r.items[i] == n.items[i] && r.weights[i] == n.weights[i]
  }

  /** Branch `b` of `r` differs from that of `n` in slot `j` only. */
  ghost predicate Differs(n: Node, r: Node, b: nat, j: nat, v: Slot) {
    Replaces(n, r, b) && j < |Branch(n, b)| && Branch(r, b) == Branch(n, b)[j := v]
  }

  /** A branch's slots lie together in the whole. */
  lemma {:induction false} BranchSlots(n: Node, b: nat, j: nat)
    requires Shape(n) && b < BRANCHES && j < |Branch(n, b)|
    ensures |FlatUpTo(n, b)| + j < |Flat(n)| && Flat(n)[|FlatUpTo(n, b)| + j] == Branch(n, b)[j]
  {
    var c := b + 1;
    UpToIsPrefix(n, c, BRANCHES);
    assert FlatUpTo(n, c) == FlatUpTo(n, b) + Branch(n, b);
    assert FlatUpTo(n, c)[|FlatUpTo(n, b)| + j] == Branch(n, b)[j];
  }

  lemma {:induction false} ReplaceBelow(n: Node, r: Node, b: nat, i: nat)
    requires Replaces(n, r, b) && i <= b
    ensures FlatUpTo(r, i) == FlatUpTo(n, i)
    decreases i
  {
    if i > 0 {
      var k := i - 1;
      ReplaceBelow(n, r, b, k);
      assert r.items[k] == n.items[k];
    }
  }

  lemma {:induction false} UpdateLeft(s: seq<Slot>, k: nat, v: Slot, t: seq<Slot>)
    requires k < |s|
    ensures s[k := v] + t == (s + t)[k := v]
  {
  }

  lemma {:induction false} UpdateRight(s: seq<Slot>, t: seq<Slot>, j: nat, v: Slot)
    requires j < |t|
    ensures s + t[j := v] == (s + t)[|s| + j := v]
  {
  }

  /** When the replaced branch differs in one slot, so does the whole. */
  lemma {:induction false} ReplaceUpTo(n: Node, r: Node, b: nat, j: nat, v: Slot, i: nat)
    requires Differs(n, r, b, j, v) && b < i <= BRANCHES
    ensures |FlatUpTo(n, b)| + j < |FlatUpTo(n, i)|
    ensures FlatUpTo(r, i) == FlatUpTo(n, i)[|FlatUpTo(n, b)| + j := v]
    decreases i
  {
    var k := i - 1;
    if k == b {
      ReplaceBelow(n, r, b, b);
      UpdateRight(FlatUpTo(n, b), Branch(n, b), j, v);
    } else {
      ReplaceUpTo(n, r, b, j, v, k);
      assert r.items[k] == n.items[k];
      UpdateLeft(FlatUpTo(n, k), |FlatUpTo(n, b)| + j, v, Branch(n, k));
    }
  }

  lemma {:induction false} ReplacedChildren(n: Node, r: Node, b: nat)
    requires Valid(n) && Replaces(n, r, b) && ChildOk(r, b)
    ensures forall i {:trigger ChildOk(r, i)} :: 0 <= i < BRANCHES ==> ChildOk(r, i)
  {
    forall i | 0 <= i < BRANCHES && i != b
      ensures ChildOk(r, i)
    {
      assert ChildOk(n, i);
      assert r.items[i] == n.items[i];
    }
  }

  lemma {:induction false} ReplaceFlat(n: Node, r: Node, b: nat, j: nat, v: Slot)
    requires Differs(n, r, b, j, v)
    ensures |FlatUpTo(n, b)| + j < |Flat(n)| && Flat(n)[|FlatUpTo(n, b)| + j] == Branch(n, b)[j]
    ensures Flat(r) == Flat(n)[|FlatUpTo(n, b)| + j := v]
  {
    BranchSlots(n, b, j);
    ReplaceUpTo(n, r, b, j, v, BRANCHES);
  }

  /** A branch is changed in one slot and the totals are adjusted by the same
      amount: the node stays correct. */
  lemma {:induction false} ReplaceKeeps(n: Node, r: Node, b: nat, j: nat, v: Slot)
    requires Valid(n) && Differs(n, r, b, j, v) && ChildOk(r, b)
    requires r.sumWeight + WeightOf(Branch(n, b)[j]) == n.sumWeight + WeightOf(v)
    requires r.itemCnt + CountOf(Branch(n, b)[j]) == n.itemCnt + CountOf(v)
    ensures Valid(r)
  {
    ReplaceFlat(n, r, b, j, v);
    TotalsUpdate(Flat(n), |FlatUpTo(n, b)| + j, v);
    ReplacedChildren(n, r, b);
  }

  // ------------------------------------------------------------- new nodes

  function NewNode(level: nat): Node {
    Node(seq(BRANCHES, _ => NoChild), seq(BRANCHES, _ => 0), 0, level, 0, Pow8(level + 1))
  }

  ghost predicate AllEmpty(s: seq<Slot>) {
    forall k {:trigger s[k]} :: 0 <= k < |s| ==> s[k] == Empty
  }

  lemma {:induction false} AllEmptyIs(s: seq<Slot>)
    requires AllEmpty(s)
    ensures s == Empties(|s|) && SumWeights(s) == 0 && CountFull(s) == 0
  {
    assert s == Empties(|s|);
    TotalsEmpty(|s|);
  }

  /** Unused branches at the end are empty slots. */
  lemma {:induction false} EmptyUpTo(n: Node, i: nat, first: nat)
    requires Shape(n) && first <= i <= BRANCHES
    requires forall k {:trigger n.items[k]} :: first <= k < BRANCHES ==> n.items[k] == NoChild
    ensures FlatUpTo(n, first) <= FlatUpTo(n, i) && AllEmpty(FlatUpTo(n, i)[|FlatUpTo(n, first)|..])
    decreases i
  {
    if first < i {
      var k := i - 1;
      EmptyUpTo(n, k, first);
      assert n.items[k] == NoChild;
      assert FlatUpTo(n, i) == FlatUpTo(n, k) + Empties(Unit(n));
      var p := |FlatUpTo(n, first)|;
      assert FlatUpTo(n, i)[p..] == FlatUpTo(n, k)[p..] + Empties(Unit(n));
    }
  }

  lemma {:induction false} NewNodeValid(level: nat)
    ensures Valid(NewNode(level)) && AllEmpty(Flat(NewNode(level)))
  {
    var n := NewNode(level);
    EmptyUpTo(n, BRANCHES, 0);
    assert FlatUpTo(n, 0) == [] && Flat(n)[0..] == Flat(n);
    AllEmptyIs(Flat(n));
    forall i | 0 <= i < BRANCHES
      ensures ChildOk(n, i)
    {
      assert n.items[i] == NoChild;
    }
  }

  /** A new level on top: the old tree becomes the first branch, so every slot
      keeps its index. */
  function AddLevel(n: Node): Node {
    Node([Sub(n)] + seq(BRANCHES - 1, _ => NoChild), [n.sumWeight] + seq(BRANCHES - 1, _ => 0),
         n.sumWeight, n.level + 1, n.itemCnt, n.maxItems * BRANCHES)
  }

  lemma {:induction false} AddLevelFlat(n: Node)
    requires Shape(n)
    ensures Flat(n) <= Flat(AddLevel(n)) && AllEmpty(Flat(AddLevel(n))[|Flat(n)|..])
  {
    var r := AddLevel(n);
    assert FlatUpTo(r, 0) == [];
    assert FlatUpTo(r, 1) == Flat(n);
    EmptyUpTo(r, BRANCHES, 1);
  }

  lemma {:induction false} EmptyTail(s: seq<Slot>, t: seq<Slot>)
    requires s <= t && AllEmpty(t[|s|..])
    ensures SumWeights(t) == SumWeights(s) && CountFull(t) == CountFull(s)
  {
    assert t == s + t[|s|..];
    TotalsConcat(s, t[|s|..]);
    AllEmptyIs(t[|s|..]);
  }

  lemma {:induction false} AddLevelKeeps(n: Node)
    requires Valid(n)
    ensures Valid(AddLevel(n))
  {
    var r := AddLevel(n);
    AddLevelFlat(n);
    EmptyTail(Flat(n), Flat(r));
    forall i | 0 <= i < BRANCHES
      ensures ChildOk(r, i)
    {
      assert i > 0 ==> r.items[i] == NoChild;
    }
  }
}
