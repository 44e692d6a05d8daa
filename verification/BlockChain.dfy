/** Fork choice and reorganisation of core/blockchain.go in block mode. */
module BlockChain {
  import opened ChainTree
  import opened Reorg
  import opened TxLookup

  /** At every height up to `b` the index holds `b`'s ancestor.  Nothing is
      said about entries above `b`, which may be stale. */
  ghost predicate CanonicalUpTo(canon: map<nat, Block>, b: Block) {
    forall n: nat {:trigger n in canon} :: n <= Number(b) ==> n in canon && canon[n] == At(b, n)
  }

  ghost predicate AllOnce(blocks: set<Block>) {
    forall b {:trigger Once(b)} :: b in blocks ==> Once(b)
  }

  /** Fork choice: more total difficulty wins, a tie goes to the lower block and
      between equal heights to the coin. */
  predicate Prefers(b: Block, current: Block, coin: bool) {
    TotalDifficulty(b) > TotalDifficulty(current) ||
    (TotalDifficulty(b) == TotalDifficulty(current) &&
     (Number(b) < Number(current) || (Number(b) == Number(current) && coin)))
  }

  /** The same said of the two branches: the heavier one wins, a tie goes to the
      shorter one and between equal lengths to the coin. */
  ghost predicate BranchWins(current: Block, b: Block, coin: bool) {
    var f := ForkHeight(current, b);
    var mine, theirs := WeightAbove(b, f), WeightAbove(current, f);
    && mine >= theirs
    && (mine == theirs ==> Number(b) - f <= Number(current) - f)
    && (mine == theirs && Number(b) - f == Number(current) - f ==> coin)
  }

  lemma {:induction false} PrefersByBranch(b: Block, current: Block, coin: bool)
    ensures Prefers(b, current, coin) <==> BranchWins(current, b, coin)
  {
    WeightDifference(current, b);
  }

  /** Unless weights and heights are both equal, fork choice does not depend on the
      coin or on which block came first. */
  lemma {:induction false} ChoiceIsSettled(a: Block, b: Block, coin: bool, coin': bool)
    requires TotalDifficulty(a) != TotalDifficulty(b) || Number(a) != Number(b)
    ensures Prefers(a, b, coin) <==> !Prefers(b, a, coin')
  {
  }

  /** The blocks stored and the heads so far, first the genesis block. */
  datatype History = History(blocks: set<Block>, heads: seq<Block>)

  /** What fork choice makes of a sequence of writes. */
  function HistoryOf(writes: seq<(Block, bool)>): (h: History)
    ensures |h.heads| > 0
  {
    if writes == [] then History({Genesis}, [Genesis])
    else
      After(HistoryOf(writes[..|writes| - 1]), writes[|writes| - 1].0, writes[|writes| - 1].1)
  }

  /** One more write. */
  function After(h: History, b: Block, coin: bool): History
    requires |h.heads| > 0
  {
    if b.Genesis? || b.parent !in h.blocks then h
    else History(h.blocks + {b}, if Prefers(b, h.heads[|h.heads| - 1], coin) then h.heads + [b] else h.heads)
  }

  lemma {:induction false} HistoryNext(writes: seq<(Block, bool)>, i: nat)
    requires i < |writes|
    ensures HistoryOf(writes[..i + 1]) == After(HistoryOf(writes[..i]), writes[i].0, writes[i].1)
  {
    var w := writes[..i + 1];
    assert w != [] && w[..|w| - 1] == writes[..i] && w[|w| - 1] == writes[i];
  }

  /** Along the heads weight never falls, and while it stays equal the height never
      rises. */
  lemma {:induction false} HeadsOrder(writes: seq<(Block, bool)>, i: nat, j: nat)
    requires i <= j < |HistoryOf(writes).heads|
    ensures var hs := HistoryOf(writes).heads;
      && TotalDifficulty(hs[i]) <= TotalDifficulty(hs[j])
      && (TotalDifficulty(hs[i]) == TotalDifficulty(hs[j]) ==> Number(hs[j]) <= Number(hs[i]))
    decreases |writes|
  {
    if writes != [] {
      var init := writes[..|writes| - 1];
      var before := HistoryOf(init).heads;
      if j < |before| {
        HeadsOrder(init, i, j);
      } else if i < j {
        HeadsOrder(init, i, j - 1);
      }
    }
  }

  // ------------------------------------------------------- proof steps

  /** After the top `i` blocks of the new branch are inserted. */
  ghost predicate Inserted(before: map<nat, Block>, canon: map<nat, Block>, b: Block, i: nat) {
    forall n: nat {:trigger n in canon} ::
      if n <= Number(b) && n + i > Number(b) then n in canon && canon[n] == At(b, n)
      else (n in canon <==> n in before) && (n in canon ==> canon[n] == before[n])
  }

  lemma {:induction false} InsertOne(before: map<nat, Block>, canon: map<nat, Block>, b: Block, i: nat)
    requires Inserted(before, canon, b, i) && i < Number(b)
    ensures Inserted(before, canon[Number(b) - i := At(b, Number(b) - i)], b, i + 1)
  {
    var c := canon[Number(b) - i := At(b, Number(b) - i)];
    forall n: nat
      ensures if n <= Number(b) && n + (i + 1) > Number(b) then n in c && c[n] == At(b, n)
              else (n in c <==> n in before) && (n in c ==> c[n] == before[n])
    {
      assert n in canon || n !in canon;
    }
  }

  lemma {:induction false} InsertedAll(before: map<nat, Block>, canon: map<nat, Block>, a: Block, b: Block)
    requires CanonicalUpTo(before, a)
    requires ForkHeight(a, b) <= Number(b) && Inserted(before, canon, b, Number(b) - ForkHeight(a, b))
    ensures CanonicalUpTo(canon, b)
  {
    ForkIs(a, b);
    forall n: nat | n <= Number(b)
      ensures n in canon && canon[n] == At(b, n)
    {
      assert n in canon || n !in canon;
      assert n in before || n !in before;
    }
  }

  /** The index of a direct extension. */
  lemma {:induction false} ExtendMoves(before: Index, b: Block)
    requires !b.Genesis? && Once(b)
    ensures ForkHeight(b.parent, b) == Number(b.parent) && Moved(before, before, b.parent, b.parent)
    ensures forall t :: OnPath(b, Number(b.parent), t) <==> t in b.txs
    ensures Dropped(b.parent, b) == []
  {
    ExtensionDropsNothing(b);
    ForkIs(b.parent, b);
    ForkIs(b.parent, b.parent);
    assert At(b, Number(b.parent)) == At(b.parent, Number(b.parent));
    forall t
      ensures t !in Dropped(b.parent, b.parent)
    {
      DroppedIs(b.parent, b.parent, t);
    }
  }

  /** The entries written for a block: WriteTxLookupEntries' effect. */
  ghost predicate EntriesWritten(mid: Index, index: Index, b: Block) {
    && (forall t {:trigger t in index} :: t in index <==> t in mid || t in Txs(b))
    && (forall t {:trigger index[t]} :: t in index ==>
         index[t] == if t in Txs(b) then Entry(b, Number(b), IndexOf(Txs(b), t)) else mid[t])
  }

  lemma {:induction false} Extended(before: Index, index: Index, b: Block)
    requires !b.Genesis? && Once(b) && EntriesWritten(before, index, b)
    ensures Moved(before, index, b.parent, b)
  {
    ExtendMoves(before, b);
    forall t | t in Txs(b)
      ensures OnPath(b, 0, t) && Place(b, t) == Entry(b, Number(b), IndexOf(b.txs, t))
    {
      PlaceIn(b, b, t);
    }
  }

  /** After the branches' entries are written and the dropped ones deleted. */
  lemma {:induction false} BranchMoved(before: Index, mid: Index, index: Index, a: Block, b: Block)
    requires ForkHeight(a, b) <= Number(b)
    requires Written(before, mid, b, TxsOf(PathAbove(b, ForkHeight(a, b))))
    requires forall t {:trigger t in index} :: t in index <==> t in mid && t !in Dropped(a, b)
    requires forall t {:trigger index[t]} :: t in index ==> index[t] == mid[t]
    ensures Moved(before, index, a, b)
  {
    var f := ForkHeight(a, b);
    var txs := TxsOf(PathAbove(b, f));
    forall t
      ensures t in txs <==> OnPath(b, f, t)
    {
      PathTxs(b, f, t);
    }
    forall t | t in index
      ensures if OnPath(b, f, t) then OnPath(b, 0, t) && index[t] == Place(b, t)
              else t in before && index[t] == before[t]
    {
      assert t in mid && index[t] == mid[t];
    }
  }

  /** Writing the head block's entries once more changes nothing. */
  lemma {:induction false} HeadRewritten(before: Index, mid: Index, index: Index, a: Block, b: Block)
    requires Moved(before, mid, a, b) && Covers(before, a) && Once(a) && Once(b)
    requires EntriesWritten(mid, index, b)
    ensures Moved(before, index, a, b)
  {
    MovedCovers(before, mid, a, b);
    forall t | t in Txs(b)
      ensures t in mid && mid[t] == Entry(b, Number(b), IndexOf(Txs(b), t))
    {
      PlaceIn(b, b, t);
    }
    assert forall t :: t in index <==> t in mid;
    assert forall t :: t in index ==> index[t] == mid[t];
    TxSame(mid, index);
  }

  lemma {:induction false} TxSame(a: Index, b: Index)
    requires forall t :: t in a <==> t in b
    requires forall t :: t in a ==> a[t] == b[t]
    ensures a == b
  {
  }

  lemma {:induction false} ClosedComplete(blocks: set<Block>, a: Block, b: Block)
    requires Closed(blocks) && a in blocks && !b.Genesis? && b.parent in blocks
    ensures Complete(blocks, a, b)
  {
    ForkIs(a, b);
    forall k: nat | ForkHeight(a, b) <= k < Number(a)
      ensures At(a, k) in blocks
    {
      ClosedAt(blocks, a, k);
    }
    forall k: nat | ForkHeight(a, b) <= k < Number(b)
      ensures At(b, k) in blocks
    {
      ClosedAt(blocks, b.parent, k);
    }
  }

  // ------------------------------------------------------------- the chain

  class BlockChain {
    var blocks: set<Block>
    var tds: map<Block, int>
    var canon: map<nat, Block>
    var current: Block
    var headHeader: Block
    var fastHead: Block
    var index: Index
    ghost var heads: seq<Block>

    ghost predicate Stored()
      reads this
    {
      Closed(blocks) && TdsOk(blocks, tds) && current in blocks
    }

    ghost predicate Valid()
      reads this
    {
      && Stored() && CanonicalUpTo(canon, current) && Heaviest(blocks, current)
      && |heads| > 0 && heads[|heads| - 1] == current
      && (AllOnce(blocks) ==> Covers(index, current) && KeysAre(index, heads, current))
    }

    constructor ()
      ensures Valid() && blocks == {Genesis} && current == Genesis && heads == [Genesis] && Exact(index, current)
    {
      blocks, tds, canon := {Genesis}, map[Genesis := 0], map[0 := Genesis];
      current, headHeader, fastHead := Genesis, Genesis, Genesis;
      index, heads := map[], [Genesis];
    }

    /** insert: the block becomes canonical at its height and the head block. */
    method Insert(b: Block)
      modifies this`canon, this`current, this`headHeader, this`fastHead
      ensures canon == old(canon)[Number(b) := b] && current == b
      ensures (headHeader, fastHead) == if Number(b) in old(canon) && old(canon)[Number(b)] == b
                                        then old((headHeader, fastHead)) else (b, b)
    {
      var updateHeads := Number(b) !in canon || canon[Number(b)] != b;
      canon := canon[Number(b) := b];
      current := b;
      if updateHeads {
        headHeader, fastHead := b, b;
      }
    }

    /** The insertion loop of reorg: the new branch, highest block first. */
    method InsertBranch(newBlock: Block, f: nat, newChain: seq<Block>) returns (addedTxs: seq<ChainTx>)
      requires f <= Number(newBlock) && newChain == PathAbove(newBlock, f)
      modifies this`canon, this`current, this`headHeader, this`fastHead, this`index
      ensures addedTxs == TxsOf(newChain)
      ensures Inserted(old(canon), canon, newBlock, Number(newBlock) - f)
      ensures Once(newBlock) ==> Written(old(index), index, newBlock, addedTxs)
    {
      PathIs(newBlock, f);
      addedTxs := [];
      for i := 0 to |newChain|
        invariant addedTxs == TxsOf(newChain[..i])
        invariant Inserted(old(canon), canon, newBlock, i)
        invariant Once(newBlock) ==> Written(old(index), index, newBlock, addedTxs)
      {
        InsertNext(newBlock, i, newChain[i], old(canon), old(index), addedTxs);
        TxsAppend(newChain[..i], newChain[i]);
        assert newChain[..i + 1] == newChain[..i] + [newChain[i]];
        addedTxs := addedTxs + Txs(newChain[i]);
      }
      assert newChain[..|newChain|] == newChain;
    }

    /** One turn of that loop: the block is inserted and its entries are written. */
    method InsertNext(ghost newBlock: Block, ghost i: nat, block: Block,
                      ghost canon0: map<nat, Block>, ghost index0: Index, ghost txs: seq<ChainTx>)
      requires i < Number(newBlock) && block == At(newBlock, Number(newBlock) - i)
      requires Inserted(canon0, canon, newBlock, i)
      requires Once(newBlock) ==> Written(index0, index, newBlock, txs)
      modifies this`canon, this`current, this`headHeader, this`fastHead, this`index
      ensures Inserted(canon0, canon, newBlock, i + 1)
      ensures Once(newBlock) ==> Written(index0, index, newBlock, txs + Txs(block))
    {
      AtNumber(newBlock, Number(newBlock) - i);
      InsertOne(canon0, canon, newBlock, i);
      Insert(block);
      ghost var mid := index;
      index := WriteTxLookupEntries(index, block);
      if Once(newBlock) {
        WrittenOne(index0, mid, index, newBlock, txs, block);
      }
    }

    /** reorg. */
    method Reorganise(oldBlock: Block, newBlock: Block) returns (ok: bool)
      requires CanonicalUpTo(canon, oldBlock)
      modifies this`canon, this`current, this`headHeader, this`fastHead, this`index
      ensures ok <==> Complete(blocks, oldBlock, newBlock)
      ensures ok ==> CanonicalUpTo(canon, newBlock)
      ensures ok && Once(newBlock) ==> Moved(old(index), index, oldBlock, newBlock)
    {
      var branches, deletedTxs := Walk(blocks, oldBlock, newBlock);
      if branches.None? {
        return false;
      }
      ghost var f := ForkHeight(oldBlock, newBlock);
      ForkIs(oldBlock, newBlock);
      AtNumber(newBlock, f);
      var addedTxs := InsertBranch(newBlock, Number(branches.value.common), branches.value.newChain);
      var diff := TxDifference(deletedTxs, addedTxs);
      ghost var mid := index;
      index := DeleteAll(index, diff);
      InsertedAll(old(canon), canon, oldBlock, newBlock);
      if Once(newBlock) {
        BranchMoved(old(index), mid, index, oldBlock, newBlock);
      }
      ok := true;
    }

    /** The head moves onto a block with a stored parent. */
    method Adopt(b: Block) returns (ok: bool)
      requires Closed(blocks) && current in blocks && CanonicalUpTo(canon, current)
      requires !b.Genesis? && b.parent in blocks
      modifies this`canon, this`current, this`headHeader, this`fastHead, this`index
      ensures ok && current == b && CanonicalUpTo(canon, b)
      ensures Once(b) && Once(old(current)) && old(Covers(index, current)) ==> Moved(old(index), index, old(current), b)
    {
      ghost var a := current;
      if b.parent != current {
        ClosedComplete(blocks, current, b);
        ok := Reorganise(current, b);
        if !ok {
          return;
        }
        ghost var mid := index;
        index := WriteTxLookupEntries(index, b);
        if Once(b) && Once(a) && old(Covers(index, current)) {
          HeadRewritten(old(index), mid, index, a, b);
        }
        Reinserted(canon, b);
      } else {
        index := WriteTxLookupEntries(index, b);
        if Once(b) {
          Extended(old(index), index, b);
        }
        InsertedOnTop(canon, b);
      }
      Insert(b);
      ok := true;
    }

    static lemma {:induction false} Reinserted(canon: map<nat, Block>, b: Block)
      requires CanonicalUpTo(canon, b)
      ensures CanonicalUpTo(canon[Number(b) := b], b)
    {
      assert forall n: nat :: n in canon[Number(b) := b] <==> n in canon || n == Number(b);
    }

    static lemma {:induction false} InsertedOnTop(canon: map<nat, Block>, b: Block)
      requires !b.Genesis? && CanonicalUpTo(canon, b.parent)
      ensures CanonicalUpTo(canon[Number(b) := b], b)
    {
      var c := canon[Number(b) := b];
      forall n: nat | n <= Number(b)
        ensures n in c && c[n] == At(b, n)
      {
        assert n in canon || n !in canon;
      }
    }

    /** The block has a parent in the store. */
    ghost predicate Known(b: Block)
      reads this
    {
      !b.Genesis? && b.parent in blocks
    }

    /** WriteBlockAndState.  What is said of the lookup index holds as long as no
        transaction occurs twice along a written chain. */
    method WriteBlockAndState(b: Block, coin: bool) returns (status: WriteStatus)
      requires Valid()
      modifies this
      ensures Valid()
      ensures status.UnknownAncestor? <==> !old(Known(b))
      ensures status.CanonStat? <==> old(Known(b)) && Prefers(b, old(current), coin)
      ensures status.CanonStat? <==> old(Known(b)) && BranchWins(old(current), b, coin)
      ensures blocks == if status.UnknownAncestor? then old(blocks) else old(blocks) + {b}
      ensures current == if status.CanonStat? then b else old(current)
      ensures heads == if status.CanonStat? then old(heads) + [b] else old(heads)
      ensures TotalDifficulty(current) >= TotalDifficulty(old(current))
      ensures status.CanonStat? && AllOnce(blocks) ==> Moved(old(index), index, old(current), b)
      ensures !status.CanonStat? ==> canon == old(canon) && index == old(index)
      ensures AllOnce(blocks) && old(Exact(index, current)) ==>
        (Exact(index, current) <==> (status.CanonStat? ==> forall t :: !LeftBehind(old(current), b, t)))
    {
      if b.Genesis? || b.parent !in tds {
        return UnknownAncestor;
      }
      PrefersByBranch(b, current, coin);
      var localTd, externTd := tds[current], b.difficulty + tds[b.parent];
      tds := tds[b := externTd];
      var reorg := externTd > localTd;
      if !reorg && externTd == localTd {
        reorg := Number(b) < Number(current) || (Number(b) == Number(current) && coin);
      }
      if reorg {
        var ok := AdoptAndStore(b);
        status := CanonStat;
      } else {
        blocks := blocks + {b};
        FewerOnce(old(blocks), blocks);
        status := SideStat;
      }
    }

    static lemma {:induction false} FewerOnce(small: set<Block>, big: set<Block>)
      requires small <= big
      ensures AllOnce(big) ==> AllOnce(small)
    {
      assert forall b {:trigger Once(b)} :: b in small ==> b in big;
    }

    /** The canonical half of WriteBlockAndState, total difficulty written. */
    method AdoptAndStore(b: Block) returns (ok: bool)
      requires Closed(blocks) && current in blocks
      requires CanonicalUpTo(canon, current) && Heaviest(blocks, current)
      requires |heads| > 0 && heads[|heads| - 1] == current
      requires AllOnce(blocks) ==> Covers(index, current) && KeysAre(index, heads, current)
      requires !b.Genesis? && b.parent in blocks && TotalDifficulty(b) >= TotalDifficulty(current)
      requires TdsOk(blocks + {b}, tds)
      modifies this`blocks, this`canon, this`current, this`headHeader, this`fastHead, this`index, this`heads
      ensures Valid() && blocks == old(blocks) + {b} && current == b && heads == old(heads) + [b]
      ensures AllOnce(blocks) ==> Moved(old(index), index, old(current), b)
      ensures AllOnce(blocks) && old(Exact(index, current)) ==>
        (Exact(index, b) <==> forall t :: !LeftBehind(old(current), b, t))
    {
      ghost var a := current;
      ok := Adopt(b);
      blocks, heads := blocks + {b}, heads + [b];
      if AllOnce(blocks) {
        FewerOnce(old(blocks), blocks);
        assert Once(a) && Once(b);
        MovedCovers(old(index), index, a, b);
        MovedKeys(old(index), index, old(heads), a, b);
        if old(Exact(index, current)) {
          MovedExactIff(old(index), index, a, b);
        }
      }
    }

    /** Over every sequence of block writes the index up to the head is the
        head's ancestry, no block outweighs the head, and, if no transaction
        repeats along a chain, every transaction of the chain is looked up at its
        place, besides only chief updates of earlier heads are, and the lookup
        index is exact if and only if all of these are on the current chain. */
    static method Run(writes: seq<(Block, bool)>) returns (c: BlockChain)
      ensures fresh(c) && c.Valid() && HeaviestBranch(c.blocks, c.current)
      ensures c.blocks == HistoryOf(writes).blocks && c.heads == HistoryOf(writes).heads
      ensures AllOnce(c.blocks) ==>
        (Exact(c.index, c.current) <==> forall t :: Remembered(HistoryOf(writes).heads, t) ==> OnPath(c.current, 0, t))
    {
      c := new BlockChain();
      for i := 0 to |writes|
        invariant fresh(c) && c.Valid()
        invariant c.blocks == HistoryOf(writes[..i]).blocks && c.heads == HistoryOf(writes[..i]).heads
      {
        HistoryNext(writes, i);
        c.WriteNext(writes[i].0, writes[i].1);
      }
      assert writes[..|writes|] == writes;
      HeaviestByBranch(c.blocks, c.current);
      if AllOnce(c.blocks) {
        ExactIff(c.index, c.heads, c.current);
      }
    }

    /** A write, as a step of the history. */
    method WriteNext(b: Block, coin: bool)
      requires Valid()
      modifies this
      ensures Valid() && History(blocks, heads) == After(old(History(blocks, heads)), b, coin)
    {
      var status := WriteBlockAndState(b, coin);
    }

    /** A run in which a heavy block stays the head beside a longer, lighter branch. */
    static method HeavyRun(heavy: int, light: int, more: int) returns (c: BlockChain)
      requires heavy > 0 && heavy > light && heavy > light + more
      ensures fresh(c) && c.Valid() && c.current == Block(Genesis, heavy, [], 0)
      ensures exists b :: b in c.blocks && Number(b) > Number(c.current)
    {
      var a1, b1 := Block(Genesis, heavy, [], 0), Block(Genesis, light, [], 1);
      var b2 := Block(b1, more, [], 0);
      c := new BlockChain();
      var status := c.WriteBlockAndState(a1, false);
      SiblingWeights(a1, b1);
      status := c.WriteBlockAndState(b1, false);
      status := c.WriteBlockAndState(b2, false);
      assert b2 in c.blocks && Number(b2) > Number(a1);
    }

    /** A run whose lookup index is not exact: the branch that is left holds a
        chief update, and its entry stays. */
    static method StaleEntryRun() returns (c: BlockChain, t: ChainTx)
      ensures fresh(c) && c.Valid()
      ensures t in c.index && !OnPath(c.current, 0, t) && !Exact(c.index, c.current)
    {
      t := ChainTx(0, true);
      var left := Block(Genesis, 1, [t], 0);
      var side := Block(Genesis, 1, [], 1);
      var head := Block(side, 1, [], 0);
      c := new BlockChain();
      var status := c.WriteBlockAndState(left, false);
      status := c.WriteBlockAndState(side, false);
      ChiefNotReinjected(t, left, side, head);
      OnceInRun(t, left, side, head, c.blocks);
      ghost var before := c.index;
      status := c.WriteBlockAndState(head, false);
      OnceInRun(t, left, side, head, c.blocks);
      LeftBehindStays(before, c.index, left, head, t);
    }

    static lemma {:induction false} OnceInRun(t: ChainTx, left: Block, side: Block, head: Block, blocks: set<Block>)
      requires left == Block(Genesis, 1, [t], 0)
      requires side == Block(Genesis, 1, [], 1) && head == Block(side, 1, [], 0)
      requires blocks <= {Genesis, left, side, head}
      ensures AllOnce(blocks) && Once(left) && Once(head)
    {
      assert Once(Genesis) && Once(left) && Once(side);
      assert Once(head);
    }
  }
}
