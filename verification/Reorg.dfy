/** The two branches of a reorganisation: the walk of BlockChain.reorg
    (core/blockchain.go), the walk of TxPool.reset (core/tx_pool.go) and
    TxDifference (core/types/transaction.go). */
module Reorg {
  import opened Options
  import opened ChainTree

  function Txs(b: Block): seq<ChainTx> {
    if b.Genesis? then [] else b.txs
  }

  /** The blocks of `b`'s chain strictly above height `f`, highest first. */
  function PathAbove(b: Block, f: nat): seq<Block> {
    if Number(b) <= f then [] else [b] + PathAbove(b.parent, f)
  }

  function TxsOf(blocks: seq<Block>): seq<ChainTx> {
    if blocks == [] then [] else TxsOf(blocks[..|blocks| - 1]) + Txs(blocks[|blocks| - 1])
  }

  /** `t` is in a block of `b`'s chain above height `f`. */
  predicate OnPath(b: Block, f: nat, t: ChainTx) {
    Number(b) > f && (t in b.txs || OnPath(b.parent, f, t))
  }

  lemma {:induction false} TxsAppend(blocks: seq<Block>, b: Block)
    ensures TxsOf(blocks + [b]) == TxsOf(blocks) + Txs(b)
  {
    assert (blocks + [b])[..|blocks|] == blocks;
  }

  lemma {:induction false} Associate(a: seq<ChainTx>, b: seq<ChainTx>, c: seq<ChainTx>)
    ensures (a + b) + c == a + (b + c)
  {
  }

  lemma {:induction false} TxsPrepend(b: Block, blocks: seq<Block>)
    ensures TxsOf([b] + blocks) == Txs(b) + TxsOf(blocks)
    decreases |blocks|
  {
    if blocks == [] {
      TxsAppend([], b);
      assert [b] + blocks == [] + [b];
    } else {
      var init, last := blocks[..|blocks| - 1], blocks[|blocks| - 1];
      TxsPrepend(b, init);
      assert TxsOf([b] + blocks) == TxsOf([b] + init) + Txs(last) by {
        assert [b] + blocks == ([b] + init) + [last];
        TxsAppend([b] + init, last);
      }
      Associate(Txs(b), TxsOf(init), Txs(last));
    }
  }

  lemma {:induction false} PathTxs(b: Block, f: nat, t: ChainTx)
    ensures t in TxsOf(PathAbove(b, f)) <==> OnPath(b, f, t)
    decreases b
  {
    if Number(b) > f {
      TxsPrepend(b, PathAbove(b.parent, f));
      PathTxs(b.parent, f, t);
    }
  }

  /** The path is the chain's own ancestors, one for each height above `f`. */
  lemma {:induction false} PathIs(b: Block, f: nat)
    requires f <= Number(b)
    ensures |PathAbove(b, f)| == Number(b) - f
    ensures forall i {:trigger PathAbove(b, f)[i]} :: 0 <= i < |PathAbove(b, f)| ==>
      PathAbove(b, f)[i] == At(b, Number(b) - i)
    decreases b
  {
    if Number(b) > f {
      PathIs(b.parent, f);
      var rest := PathAbove(b.parent, f);
      forall i | 0 <= i < |PathAbove(b, f)|
        ensures PathAbove(b, f)[i] == At(b, Number(b) - i)
      {
        if i > 0 {
          assert PathAbove(b, f)[i] == rest[i - 1];
        }
      }
    }
  }

  // ------------------------------------------------------ TxDifference

  /** What TxDifference keeps. */
  predicate Kept(t: ChainTx, included: seq<ChainTx>) {
    t !in included && !t.chiefUpdate
  }

  function Difference(discarded: seq<ChainTx>, included: seq<ChainTx>): seq<ChainTx> {
    if discarded == [] then []
    else
      var rest := Difference(discarded[..|discarded| - 1], included);
      var t := discarded[|discarded| - 1];
      if Kept(t, included) then rest + [t] else rest
  }

  lemma {:induction false} InDifference(discarded: seq<ChainTx>, included: seq<ChainTx>, t: ChainTx)
    ensures t in Difference(discarded, included) <==> t in discarded && t !in included && !t.chiefUpdate
    decreases |discarded|
  {
    if discarded != [] {
      var init, last := discarded[..|discarded| - 1], discarded[|discarded| - 1];
      assert discarded == init + [last];
      InDifference(init, included, t);
    }
  }

  /** `part` is what stands at the positions `at` of the list, one after the other. */
  ghost predicate StandsAt(part: seq<ChainTx>, list: seq<ChainTx>, at: seq<nat>) {
    && |at| == |part|
    && (forall i, j :: 0 <= i < j < |at| ==> at[i] < at[j])
    && (forall i {:trigger at[i]} :: 0 <= i < |at| ==> at[i] < |list| && part[i] == list[at[i]])
  }

  /** These are the positions of exactly the transactions that are not included and
      no chief updates. */
  ghost predicate KeptPositions(at: seq<nat>, list: seq<ChainTx>, included: seq<ChainTx>) {
    forall k: nat {:trigger k in at} :: k in at <==> k < |list| && list[k] !in included && !list[k].chiefUpdate
  }

  /** The difference keeps order and number. */
  lemma {:induction false} DifferenceIs(discarded: seq<ChainTx>, included: seq<ChainTx>) returns (at: seq<nat>)
    ensures StandsAt(Difference(discarded, included), discarded, at) && KeptPositions(at, discarded, included)
    decreases |discarded|
  {
    at := [];
    if discarded != [] {
      var n := |discarded| - 1;
      var init := DifferenceIs(discarded[..n], included);
      at := if Kept(discarded[n], included) then init + [n] else init;
      StandsNext(Difference(discarded[..n], included), discarded, init);
      KeptNext(init, discarded, included);
    }
  }

  lemma {:induction false} StandsNext(part: seq<ChainTx>, list: seq<ChainTx>, at: seq<nat>)
    requires list != [] && StandsAt(part, list[..|list| - 1], at)
    ensures StandsAt(part, list, at) && StandsAt(part + [list[|list| - 1]], list, at + [|list| - 1])
  {
    var n := |list| - 1;
    assert forall i {:trigger at[i]} :: 0 <= i < |at| ==> at[i] < n && list[..n][at[i]] == list[at[i]];
  }

  lemma {:induction false} KeptNext(at: seq<nat>, list: seq<ChainTx>, included: seq<ChainTx>)
    requires list != [] && KeptPositions(at, list[..|list| - 1], included)
    ensures KeptPositions(if Kept(list[|list| - 1], included) then at + [|list| - 1] else at, list, included)
  {
    var n := |list| - 1;
    var all := if Kept(list[n], included) then at + [n] else at;
    forall k: nat
      ensures k in all <==> k < |list| && list[k] !in included && !list[k].chiefUpdate
    {
      assert k in all <==> k in at || (Kept(list[n], included) && k == n);
      assert k < n ==> list[..n][k] == list[k];
    }
  }

  /** TxDifference: the transactions of `a` that are neither in `b` nor chief
      updates, in order. */
  method TxDifference(a: seq<ChainTx>, b: seq<ChainTx>) returns (keep: seq<ChainTx>)
    ensures keep == Difference(a, b)
  {
    keep := [];
    var remove: set<ChainTx> := {};
    for i := 0 to |b|
      invariant forall t {:trigger t in remove} :: t in remove <==> t in b[..i]
    {
      assert b[..i + 1] == b[..i] + [b[i]];
      remove := remove + {b[i]};
    }
    assert b[..|b|] == b;
    for i := 0 to |a|
      invariant keep == Difference(a[..i], b)
    {
      assert a[..i + 1][..i] == a[..i];
      if a[i] !in remove && !a[i].chiefUpdate {
        keep := keep + [a[i]];
      }
    }
    assert a[..|a|] == a;
  }

  // --------------------------------------------------------- the two walks

  /** `done` followed by the rest of the path is the whole path. */
  ghost predicate Walked(done: seq<Block>, b0: Block, b: Block, f: nat) {
    f <= Number(b) && done + PathAbove(b, f) == PathAbove(b0, f)
  }

  lemma {:induction false} WalkOn(headers: set<Block>, done: seq<Block>, b0: Block, b: Block, f: nat)
    requires Reached(headers, b0, b) && Walked(done, b0, b, f) && f < Number(b)
    ensures !b.Genesis? && At(b0, Number(b) - 1) == b.parent
    ensures b.parent in headers ==> Reached(headers, b0, b.parent)
    ensures Walked(done + [b], b0, b.parent, f)
  {
    StepDown(headers, b0, b);
    assert done + [b] + PathAbove(b.parent, f) == done + PathAbove(b, f);
  }

  datatype Branches = Branches(common: Block, oldChain: seq<Block>, newChain: seq<Block>)

  /** Both branches can be walked down to the fork. */
  ghost predicate Complete(headers: set<Block>, a: Block, b: Block) {
    StoredDownTo(headers, a, ForkHeight(a, b)) && StoredDownTo(headers, b, ForkHeight(a, b))
  }

  /** The walk of reorg: the blocks strictly above the last common ancestor,
      or nothing exactly when a block on the way is missing. */
  method Walk(blocks: set<Block>, oldBlock: Block, newBlock: Block)
    returns (r: Option<Branches>, deletedTxs: seq<ChainTx>)
    ensures r.Some? <==> Complete(blocks, oldBlock, newBlock)
    ensures r.Some? ==>
      && r.value.common == At(oldBlock, ForkHeight(oldBlock, newBlock)) == At(newBlock, ForkHeight(oldBlock, newBlock))
      && r.value.oldChain == PathAbove(oldBlock, ForkHeight(oldBlock, newBlock))
      && r.value.newChain == PathAbove(newBlock, ForkHeight(oldBlock, newBlock))
      && deletedTxs == TxsOf(r.value.oldChain)
  {
    ghost var f := ForkHeight(oldBlock, newBlock);
    ForkIs(oldBlock, newBlock);
    if Number(oldBlock) > Number(newBlock) {
      var a, oldChain, txs := Lower(blocks, oldBlock, Number(newBlock), f);
      deletedTxs := txs;
      if a.None? {
        return None, deletedTxs;
      }
      r, deletedTxs := WalkTogether(blocks, oldBlock, newBlock, a.value, newBlock, oldChain, [], deletedTxs);
    } else {
      var b, newChain, _ := Lower(blocks, newBlock, Number(oldBlock), f);
      deletedTxs := [];
      if b.None? {
        return None, deletedTxs;
      }
      r, deletedTxs := WalkTogether(blocks, oldBlock, newBlock, oldBlock, b.value, [], newChain, deletedTxs);
    }
  }

  /** One branch is walked down to height `n`, gathering its transactions. */
  method Lower(blocks: set<Block>, b0: Block, n: nat, ghost f: nat)
    returns (r: Option<Block>, done: seq<Block>, txs: seq<ChainTx>)
    requires f <= n <= Number(b0)
    ensures r.Some? <==> StoredDownTo(blocks, b0, n)
    ensures r.Some? ==> r.value == At(b0, n) && Number(r.value) == n
    ensures r.Some? ==> Reached(blocks, b0, r.value) && Walked(done, b0, r.value, f)
    ensures txs == TxsOf(done)
  {
    var b := b0;
    done, txs := [], [];
    while Number(b) != n
      invariant Reached(blocks, b0, b) && Walked(done, b0, b, f) && n <= Number(b)
      invariant txs == TxsOf(done)
      decreases Number(b)
    {
      WalkOn(blocks, done, b0, b, f);
      TxsAppend(done, b);
      done, txs := done + [b], txs + Txs(b);
      var next := Lookup(blocks, b.parent);
      if next.None? {
        return None, done, txs;
      }
      b := next.value;
    }
    r := Some(b);
  }

  /** The rest of the walk, from equal heights. */
  method WalkTogether(blocks: set<Block>, oldBlock: Block, newBlock: Block, a0: Block, b0: Block,
                      oldDone: seq<Block>, newDone: seq<Block>, deleted: seq<ChainTx>)
    returns (r: Option<Branches>, deletedTxs: seq<ChainTx>)
    requires Reached(blocks, oldBlock, a0) && Walked(oldDone, oldBlock, a0, ForkHeight(oldBlock, newBlock))
    requires Reached(blocks, newBlock, b0) && Walked(newDone, newBlock, b0, ForkHeight(oldBlock, newBlock))
    requires Number(a0) == Number(b0) && deleted == TxsOf(oldDone)
    ensures r.Some? <==> Complete(blocks, oldBlock, newBlock)
    ensures r.Some? ==>
      && r.value.common == At(oldBlock, ForkHeight(oldBlock, newBlock)) == At(newBlock, ForkHeight(oldBlock, newBlock))
      && r.value.oldChain == PathAbove(oldBlock, ForkHeight(oldBlock, newBlock))
      && r.value.newChain == PathAbove(newBlock, ForkHeight(oldBlock, newBlock))
      && deletedTxs == TxsOf(r.value.oldChain)
  {
    ghost var f := ForkHeight(oldBlock, newBlock);
    ForkIs(oldBlock, newBlock);
    var a, b, oldChain, newChain := a0, b0, oldDone, newDone;
    deletedTxs := deleted;
    while a != b
      invariant Reached(blocks, oldBlock, a) && Walked(oldChain, oldBlock, a, f)
      invariant Reached(blocks, newBlock, b) && Walked(newChain, newBlock, b, f)
      invariant Number(a) == Number(b) && deletedTxs == TxsOf(oldChain)
      decreases Number(a)
    {
      WalkOn(blocks, oldChain, oldBlock, a, f);
      WalkOn(blocks, newChain, newBlock, b, f);
      TxsAppend(oldChain, a);
      oldChain, newChain, deletedTxs := oldChain + [a], newChain + [b], deletedTxs + Txs(a);
      var nextOld, nextNew := Lookup(blocks, a.parent), Lookup(blocks, b.parent);
      if nextOld.None? || nextNew.None? {
        return None, deletedTxs;
      }
      a, b := nextOld.value, nextNew.value;
    }
    assert PathAbove(a, f) == [] && PathAbove(b, f) == [];
    r := Some(Branches(a, oldChain, newChain));
  }

  const MAX_REINJECT_DEPTH := 64

  function Apart(a: nat, b: nat): nat { if a < b then b - a else a - b }

  /** The transactions a pool reset should put back. */
  function Dropped(oldHead: Block, newHead: Block): seq<ChainTx> {
    var f := ForkHeight(oldHead, newHead);
    Difference(TxsOf(PathAbove(oldHead, f)), TxsOf(PathAbove(newHead, f)))
  }

  /** How the first half of TxPool.reset ends: it dereferences a block that is not
      stored, gives the reset up, or finds the transactions to reinject. */
  datatype Reinjection = Crashed | Abandoned | Reinjects(txs: seq<ChainTx>)

  /** The two branches are not looked at. */
  predicate SkipsBranches(oldHead: Block, newHead: Block) {
    || (newHead.Block? && oldHead == newHead.parent)
    || Number(oldHead) > Number(newHead) + 64 || Number(newHead) > Number(oldHead) + 64
  }

  /** The first half of TxPool.reset. */
  method Reinject(blocks: set<Block>, oldHead: Option<Block>, newHead: Block) returns (r: Reinjection)
    ensures oldHead.None? ==> r == Reinjects([])
    ensures oldHead.Some? && SkipsBranches(oldHead.value, newHead) ==> r == Reinjects([])
    ensures oldHead.Some? && newHead.Block? && oldHead.value == newHead.parent ==> Dropped(oldHead.value, newHead) == []
    ensures r.Crashed? <==>
      && oldHead.Some? && !SkipsBranches(oldHead.value, newHead)
      && (oldHead.value !in blocks || newHead !in blocks)
    ensures oldHead.Some? && !SkipsBranches(oldHead.value, newHead) && !r.Crashed? ==>
      r == if Complete(blocks, oldHead.value, newHead) then Reinjects(Dropped(oldHead.value, newHead)) else Abandoned
  {
    if oldHead.None? {
      return Reinjects([]);
    }
    if newHead.Block? && oldHead.value == newHead.parent {
      ExtensionDropsNothing(newHead);
      return Reinjects([]);
    }
    if Apart(Number(oldHead.value), Number(newHead)) > MAX_REINJECT_DEPTH {
      return Reinjects([]);
    }
    var rem, add := Lookup(blocks, oldHead.value), Lookup(blocks, newHead);
    if rem.None? || add.None? {
      return Crashed;
    }
    var found := Discard(blocks, rem.value, add.value);
    r := if found.Some? then Reinjects(found.value) else Abandoned;
  }

  lemma {:induction false} ExtensionDropsNothing(b: Block)
    requires b.Block?
    ensures Dropped(b.parent, b) == []
  {
    ForkIs(b.parent, b);
    assert At(b, Number(b.parent)) == At(b.parent, Number(b.parent));
    assert PathAbove(b.parent, Number(b.parent)) == [];
  }

  /** The walk of TxPool.reset: first the higher branch comes down, then both. */
  method Discard(blocks: set<Block>, oldHead: Block, newHead: Block) returns (r: Option<seq<ChainTx>>)
    ensures r == if Complete(blocks, oldHead, newHead) then Some(Dropped(oldHead, newHead)) else None
  {
    ghost var f := ForkHeight(oldHead, newHead);
    ForkIs(oldHead, newHead);
    var low := MinOf(Number(oldHead), Number(newHead));
    var rem, gone, discarded := Lower(blocks, oldHead, low, f);
    if rem.None? {
      return None;
    }
    var add, come, included := Lower(blocks, newHead, low, f);
    if add.None? {
      return None;
    }
    r := DiscardTogether(blocks, oldHead, newHead, rem.value, add.value, gone, come, discarded, included);
  }

  method DiscardTogether(blocks: set<Block>, oldHead: Block, newHead: Block, rem0: Block, add0: Block,
                         ghost gone0: seq<Block>, ghost come0: seq<Block>, out: seq<ChainTx>, back: seq<ChainTx>)
    returns (r: Option<seq<ChainTx>>)
    requires Reached(blocks, oldHead, rem0) && Walked(gone0, oldHead, rem0, ForkHeight(oldHead, newHead))
    requires Reached(blocks, newHead, add0) && Walked(come0, newHead, add0, ForkHeight(oldHead, newHead))
    requires Number(rem0) == Number(add0) && out == TxsOf(gone0) && back == TxsOf(come0)
    ensures r == if Complete(blocks, oldHead, newHead) then Some(Dropped(oldHead, newHead)) else None
  {
    ghost var f := ForkHeight(oldHead, newHead);
    ForkIs(oldHead, newHead);
    var rem, add, discarded, included := rem0, add0, out, back;
    ghost var gone, come := gone0, come0;
    while rem != add
      invariant Reached(blocks, oldHead, rem) && Walked(gone, oldHead, rem, f) && discarded == TxsOf(gone)
      invariant Reached(blocks, newHead, add) && Walked(come, newHead, add, f) && included == TxsOf(come)
      invariant Number(rem) == Number(add)
      decreases Number(rem)
    {
      WalkOn(blocks, gone, oldHead, rem, f);
      WalkOn(blocks, come, newHead, add, f);
      TxsAppend(gone, rem);
      TxsAppend(come, add);
      gone, discarded := gone + [rem], discarded + Txs(rem);
      var next := Lookup(blocks, rem.parent);
      if next.None? {
        return None;
      }
      rem := next.value;
      come, included := come + [add], included + Txs(add);
      next := Lookup(blocks, add.parent);
      if next.None? {
        return None;
      }
      add := next.value;
    }
    assert gone + [] == gone && come + [] == come;
    var keep := TxDifference(discarded, included);
    r := Some(keep);
  }

  /** Reinjection puts back exactly the transactions of the old branch that are
      missing from the new one, except chief updates. */
  lemma {:induction false} DroppedIs(oldHead: Block, newHead: Block, t: ChainTx)
    ensures var f := ForkHeight(oldHead, newHead);
      t in Dropped(oldHead, newHead) <==> OnPath(oldHead, f, t) && !OnPath(newHead, f, t) && !t.chiefUpdate
  {
    var f := ForkHeight(oldHead, newHead);
    PathTxs(oldHead, f, t);
    PathTxs(newHead, f, t);
    InDifference(TxsOf(PathAbove(oldHead, f)), TxsOf(PathAbove(newHead, f)), t);
  }

  /** "Exactly the old branch's transactions absent from the new branch" holds
      if and only if none of those is a chief update. */
  lemma {:induction false} ReinjectsAllIff(oldHead: Block, newHead: Block)
    ensures
      (forall t :: t in Dropped(oldHead, newHead) <==>
        OnPath(oldHead, ForkHeight(oldHead, newHead), t) && !OnPath(newHead, ForkHeight(oldHead, newHead), t))
      <==>
      (forall t :: OnPath(oldHead, ForkHeight(oldHead, newHead), t) && t.chiefUpdate
        ==> OnPath(newHead, ForkHeight(oldHead, newHead), t))
  {
    var f := ForkHeight(oldHead, newHead);
    forall t
      ensures t in Dropped(oldHead, newHead) <==> OnPath(oldHead, f, t) && !OnPath(newHead, f, t) && !t.chiefUpdate
    {
      DroppedIs(oldHead, newHead, t);
    }
  }

  /** A chief update that only the old branch has is not reinjected. */
  lemma {:induction false} ChiefNotReinjected(t: ChainTx, old_: Block, side: Block, head: Block)
    requires t.chiefUpdate && old_ == Block(Genesis, 1, [t], 0)
    requires side == Block(Genesis, 1, [], 1) && head == Block(side, 1, [], 0)
    ensures var f := ForkHeight(old_, head);
      OnPath(old_, f, t) && !OnPath(head, f, t) && t !in Dropped(old_, head)
  {
    ForkIs(old_, head);
    assert At(head, 1) == side && At(old_, 1) == old_;
    assert OnPath(old_, 0, t) && !OnPath(side, 0, t);
    DroppedIs(old_, head, t);
  }
}
