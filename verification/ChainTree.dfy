/** Blocks and their ancestry.  A hash identifies a block together with all its
    ancestors, so a block is modelled with its parent inside it; a store keyed
    by hash is then a set of blocks. */
module ChainTree {
  import opened Options

  /** A transaction in a block; chief updates are the transactions that
      TxDifference leaves out. */
  datatype ChainTx = ChainTx(id: nat, chiefUpdate: bool)

  datatype Block = Genesis | Block(parent: Block, difficulty: int, txs: seq<ChainTx>, salt: int)

  function Number(b: Block): nat {
    if b.Genesis? then 0 else 1 + Number(b.parent)
  }

  /** The ancestor at height `n`, the block itself included. */
  function At(b: Block, n: nat): Block
    requires n <= Number(b)
  {
    if n == Number(b) then b else At(b.parent, n)
  }

  ghost predicate AncestorOf(c: Block, b: Block) {
    Number(c) <= Number(b) && At(b, Number(c)) == c
  }

  /** Total difficulty, counted from the genesis block's. */
  function TotalDifficulty(b: Block): int {
    if b.Genesis? then 0 else TotalDifficulty(b.parent) + b.difficulty
  }

  /** The stored total difficulties are those of the stored blocks. */
  ghost predicate TdsOk(blocks: set<Block>, tds: map<Block, int>) {
    tds.Keys == blocks && forall b {:trigger tds[b]} :: b in blocks ==> tds[b] == TotalDifficulty(b)
  }

  /** No stored block is heavier than the head. */
  ghost predicate Heaviest(blocks: set<Block>, head: Block) {
    forall b {:trigger b in blocks} :: b in blocks ==> TotalDifficulty(b) <= TotalDifficulty(head)
  }

  datatype WriteStatus = UnknownAncestor | CanonStat | SideStat

  /** Every stored block's parent is stored. */
  ghost predicate Closed(blocks: set<Block>) {
    && Genesis in blocks
    && (forall b {:trigger b in blocks} :: b in blocks && !b.Genesis? ==> b.parent in blocks)
  }

  // ------------------------------------------------------------- ancestry

  lemma {:induction false} AtNumber(b: Block, n: nat)
    requires n <= Number(b)
    ensures Number(At(b, n)) == n
    decreases b
  {
    if n < Number(b) {
      AtNumber(b.parent, n);
    }
  }

  lemma {:induction false} AtAt(b: Block, m: nat, n: nat)
    requires n <= m <= Number(b)
    ensures Number(At(b, m)) == m && At(At(b, m), n) == At(b, n)
    decreases b
  {
    AtNumber(b, m);
    if m < Number(b) {
      AtAt(b.parent, m, n);
    }
  }

  /** Two chains that agree at a height agree below it. */
  lemma {:induction false} AgreeBelow(a: Block, b: Block, m: nat, n: nat)
    requires n <= m <= Number(a) && m <= Number(b) && At(a, m) == At(b, m)
    ensures At(a, n) == At(b, n)
  {
    AtAt(a, m, n);
    AtAt(b, m, n);
  }

  lemma {:induction false} AtZero(b: Block)
    ensures At(b, 0) == Genesis
    decreases b
  {
    if !b.Genesis? {
      AtZero(b.parent);
    }
  }

  /** One step down the chain. */
  lemma {:induction false} AtParent(b: Block, n: nat)
    requires 0 < n <= Number(b)
    ensures !At(b, n).Genesis? && At(b, n).parent == At(b, n - 1)
    decreases b
  {
    if n < Number(b) {
      AtParent(b.parent, n);
    }
  }

  lemma {:induction false} ClosedAt(blocks: set<Block>, b: Block, n: nat)
    requires Closed(blocks) && b in blocks && n <= Number(b)
    ensures At(b, n) in blocks
    decreases b
  {
    if n < Number(b) {
      ClosedAt(blocks, b.parent, n);
    }
  }

  // ------------------------------------------------------ common ancestors

  function MinOf(a: nat, b: nat): nat { if a < b then a else b }

  /** Greatest height up to `n` at which the two chains agree. */
  function AgreeUpTo(a: Block, b: Block, n: nat): (f: nat)
    requires n <= Number(a) && n <= Number(b)
    ensures f <= n
  {
    if n == 0 || At(a, n) == At(b, n) then n else AgreeUpTo(a, b, n - 1)
  }

  /** Height of the last common ancestor. */
  function ForkHeight(a: Block, b: Block): nat {
    AgreeUpTo(a, b, MinOf(Number(a), Number(b)))
  }

  lemma {:induction false} AgreeUpToIs(a: Block, b: Block, n: nat)
    requires n <= Number(a) && n <= Number(b)
    ensures var f := AgreeUpTo(a, b, n);
      At(a, f) == At(b, f) && forall k: nat :: f < k <= n ==> At(a, k) != At(b, k)
    decreases n
  {
    if n == 0 {
      AtZero(a);
      AtZero(b);
    } else if At(a, n) != At(b, n) {
      AgreeUpToIs(a, b, n - 1);
    }
  }

  /** The chains agree exactly up to the fork height. */
  lemma {:induction false} ForkIs(a: Block, b: Block)
    ensures ForkHeight(a, b) <= Number(a) && ForkHeight(a, b) <= Number(b)
    ensures forall k: nat :: k <= Number(a) && k <= Number(b) ==> (At(a, k) == At(b, k) <==> k <= ForkHeight(a, b))
  {
    var m := MinOf(Number(a), Number(b));
    AgreeUpToIs(a, b, m);
    forall k: nat | k <= Number(a) && k <= Number(b)
      ensures At(a, k) == At(b, k) <==> k <= ForkHeight(a, b)
    {
      if k <= ForkHeight(a, b) {
        AgreeBelow(a, b, ForkHeight(a, b), k);
      }
    }
  }

  /** The last common ancestor is an ancestor of both, and so is every other
      common ancestor of it. */
  lemma {:induction false} ForkIsHighest(a: Block, b: Block, c: Block)
    requires AncestorOf(c, a) && AncestorOf(c, b)
    ensures ForkHeight(a, b) <= Number(a) && AncestorOf(c, At(a, ForkHeight(a, b)))
  {
    ForkIs(a, b);
    AtAt(a, ForkHeight(a, b), Number(c));
  }

  // ---------------------------------------------------------------- weight

  /** The difficulties of the blocks of `b`'s chain above height `lo` and up to
      `hi`, added up. */
  function WeightBetween(b: Block, lo: nat, hi: nat): int
    requires lo <= hi <= Number(b)
  {
    if lo == hi then 0 else AtParent(b, hi); WeightBetween(b, lo, hi - 1) + At(b, hi).difficulty
  }

  /** The weight of `b`'s branch above height `f`. */
  function WeightAbove(b: Block, f: nat): int
    requires f <= Number(b)
  {
    WeightBetween(b, f, Number(b))
  }

  lemma {:induction false} TotalIsSum(b: Block, lo: nat, hi: nat)
    requires lo <= hi <= Number(b)
    ensures TotalDifficulty(At(b, hi)) == TotalDifficulty(At(b, lo)) + WeightBetween(b, lo, hi)
    decreases hi
  {
    if lo < hi {
      AtParent(b, hi);
      TotalIsSum(b, lo, hi - 1);
    }
  }

  /** Total difficulties differ exactly as the weights of the two branches do. */
  lemma {:induction false} WeightDifference(a: Block, b: Block)
    ensures ForkHeight(a, b) <= Number(a) && ForkHeight(a, b) <= Number(b)
    ensures TotalDifficulty(b) - TotalDifficulty(a)
         == WeightAbove(b, ForkHeight(a, b)) - WeightAbove(a, ForkHeight(a, b))
  {
    ForkIs(a, b);
    TotalIsSum(a, ForkHeight(a, b), Number(a));
    TotalIsSum(b, ForkHeight(a, b), Number(b));
  }

  /** Siblings differ by their own difficulties. */
  lemma {:induction false} SiblingWeights(a: Block, b: Block)
    requires a.Block? && b.Block? && a.parent == b.parent
    ensures TotalDifficulty(b) - TotalDifficulty(a) == b.difficulty - a.difficulty
  {
    WeightDifference(a, b);
    ForkIs(a, b);
    var n := Number(a.parent);
    assert At(a, n) == At(a.parent, n) && At(b, n) == At(b.parent, n);
    if a != b {
      assert At(a, n + 1) != At(b, n + 1);
      assert WeightAbove(a, n) == WeightBetween(a, n, n) + a.difficulty;
      assert WeightAbove(b, n) == WeightBetween(b, n, n) + b.difficulty;
    }
  }

  /** Of any stored block's branch and the head's branch beside it, the head's is
      at least as heavy. */
  ghost predicate HeaviestBranch(blocks: set<Block>, head: Block) {
    forall b {:trigger b in blocks} :: b in blocks ==>
      WeightAbove(b, ForkHeight(head, b)) <= WeightAbove(head, ForkHeight(head, b))
  }

  lemma {:induction false} HeaviestByBranch(blocks: set<Block>, head: Block)
    ensures Heaviest(blocks, head) <==> HeaviestBranch(blocks, head)
  {
    forall b | b in blocks
      ensures TotalDifficulty(b) <= TotalDifficulty(head) <==>
        WeightAbove(b, ForkHeight(head, b)) <= WeightAbove(head, ForkHeight(head, b))
    {
      WeightDifference(head, b);
    }
  }

  // ----------------------------------------------------- FindCommonAncestor

  /** Every ancestor of `b` strictly below it and not below height `f` is
      stored. */
  ghost predicate StoredDownTo(headers: set<Block>, b: Block, f: nat) {
    forall k: nat {:trigger At(b, k)} :: f <= k < Number(b) ==> At(b, k) in headers
  }

  /** GetHeader. */
  function Lookup(headers: set<Block>, b: Block): Option<Block> {
    if b in headers then Some(b) else None
  }

  /** FindCommonAncestor of core/database_util.go: the last common ancestor,
      or nothing exactly when a header on the way to it is missing. */
  method FindCommonAncestor(headers: set<Block>, a0: Block, b0: Block) returns (r: Option<Block>)
    ensures r == if StoredDownTo(headers, a0, ForkHeight(a0, b0)) && StoredDownTo(headers, b0, ForkHeight(a0, b0))
                 then Some(At(a0, ForkHeight(a0, b0))) else None
  {
    ghost var f := ForkHeight(a0, b0);
    ForkIs(a0, b0);
    var a, b := a0, b0;
    while Number(a) > Number(b)
      invariant Reached(headers, a0, a) && f <= Number(a)
      invariant a == a0 || Number(b) <= Number(a)
      decreases Number(a)
    {
      StepDown(headers, a0, a);
      var next := Lookup(headers, a.parent);
      if next.None? {
        return None;
      }
      a := next.value;
    }
    while Number(a) < Number(b)
      invariant Reached(headers, a0, a) && Reached(headers, b0, b)
      invariant f <= Number(a) && Number(a) <= Number(b)
      decreases Number(b)
    {
      StepDown(headers, b0, b);
      var next := Lookup(headers, b.parent);
      if next.None? {
        return None;
      }
      b := next.value;
    }
    while a != b
      invariant Reached(headers, a0, a) && Reached(headers, b0, b)
      invariant f <= Number(a) == Number(b)
      decreases Number(a)
    {
      StepDown(headers, a0, a);
      StepDown(headers, b0, b);
      var next := Lookup(headers, a.parent);
      if next.None? {
        return None;
      }
      a := next.value;
      next := Lookup(headers, b.parent);
      if next.None? {
        return None;
      }
      b := next.value;
    }
    r := Some(a);
  }

  /** `a` is an ancestor of `a0`, and everything between is stored. */
  ghost predicate Reached(headers: set<Block>, a0: Block, a: Block) {
    AncestorOf(a, a0) && StoredDownTo(headers, a0, Number(a))
  }

  lemma {:induction false} StepDown(headers: set<Block>, a0: Block, a: Block)
    requires Reached(headers, a0, a) && Number(a) > 0
    ensures !a.Genesis? && At(a0, Number(a) - 1) == a.parent
    ensures a.parent in headers ==> Reached(headers, a0, a.parent)
  {
    AtParent(a0, Number(a));
  }
}
