/** The transaction lookup index of core/database_util.go: for each transaction
    its block and position. */
module TxLookup {
  import opened ChainTree
  import opened Reorg

  datatype Entry = Entry(block: Block, number: nat, index: nat)

  type Index = map<ChainTx, Entry>

  function IndexOf(txs: seq<ChainTx>, t: ChainTx): (i: nat)
    requires t in txs
    ensures i < |txs| && txs[i] == t
  {
    if txs[|txs| - 1] == t then |txs| - 1 else IndexOf(txs[..|txs| - 1], t)
  }

  /** Where a transaction of `b`'s chain is. */
  function Place(b: Block, t: ChainTx): Entry
    requires OnPath(b, 0, t)
  {
    if t in b.txs then Entry(b, Number(b), IndexOf(b.txs, t)) else Place(b.parent, t)
  }

  /** No transaction occurs twice along the chain. */
  ghost predicate Once(b: Block) {
    b.Genesis? ||
    ((forall i, j {:trigger b.txs[i], b.txs[j]} :: 0 <= i < j < |b.txs| ==> b.txs[i] != b.txs[j]) &&
     (forall t {:trigger OnPath(b.parent, 0, t)} :: t in b.txs ==> !OnPath(b.parent, 0, t)) &&
     Once(b.parent))
  }

  lemma {:induction false} OnceAt(b: Block, n: nat)
    requires Once(b) && n <= Number(b)
    ensures Once(At(b, n))
    decreases b
  {
    if n < Number(b) {
      OnceAt(b.parent, n);
    }
  }

  /** A chain's transactions are those above a height and those up to it. */
  lemma {:induction false} PathSplit(b: Block, f: nat, t: ChainTx)
    requires f <= Number(b)
    ensures OnPath(b, 0, t) <==> OnPath(b, f, t) || OnPath(At(b, f), 0, t)
    decreases b
  {
    if f < Number(b) {
      PathSplit(b.parent, f, t);
    }
  }

  /** A transaction at or below a height is not above it, and is found in the
      same place from either end. */
  lemma {:induction false} PlaceBelow(b: Block, f: nat, t: ChainTx)
    requires f <= Number(b) && Once(b) && OnPath(At(b, f), 0, t)
    ensures OnPath(b, 0, t) && !OnPath(b, f, t) && Place(b, t) == Place(At(b, f), t)
    decreases b
  {
    if f < Number(b) {
      PathSplit(b.parent, f, t);
      PlaceBelow(b.parent, f, t);
      assert t !in b.txs;
    }
  }

  /** A transaction of an ancestor is placed in that ancestor. */
  lemma {:induction false} PlaceIn(b: Block, c: Block, t: ChainTx)
    requires Once(b) && AncestorOf(c, b) && t in Txs(c)
    ensures OnPath(b, 0, t) && Place(b, t) == Entry(c, Number(c), IndexOf(c.txs, t))
  {
    assert Number(c) > 0;
    assert OnPath(c, 0, t);
    PlaceBelow(b, Number(c), t);
  }

  /** The place of a transaction is one occurrence of it along the chain, and
      there is no other. */
  lemma {:induction false} PlaceIsTheOccurrence(b: Block, t: ChainTx, c: Block, i: nat)
    requires Once(b) && AncestorOf(c, b) && i < |Txs(c)| && Txs(c)[i] == t
    ensures OnPath(b, 0, t) && Place(b, t) == Entry(c, Number(c), i)
  {
    PlaceIn(b, c, t);
    OnceAt(b, Number(c));
    var j := IndexOf(c.txs, t);
    assert c.txs[j] == c.txs[i];
  }

  lemma {:induction false} PlaceIsOccurrence(b: Block, t: ChainTx)
    requires OnPath(b, 0, t)
    ensures var e := Place(b, t);
      AncestorOf(e.block, b) && e.number == Number(e.block) && e.index < |Txs(e.block)| && Txs(e.block)[e.index] == t
    decreases b
  {
    if t !in b.txs {
      PlaceIsOccurrence(b.parent, t);
    }
  }

  // ------------------------------------------------------------ the index

  /** The transactions of the chain up to `b` are mapped to their places. */
  ghost predicate Covers(index: Index, b: Block) {
    forall t {:trigger OnPath(b, 0, t)} :: OnPath(b, 0, t) ==> t in index && index[t] == Place(b, t)
  }

  /** The index maps exactly the transactions of the chain up to `b`. */
  ghost predicate Exact(index: Index, b: Block) {
    Covers(index, b) && forall t {:trigger t in index} :: t in index ==> OnPath(b, 0, t)
  }

  /** A chief update that was on the chain of one of these heads. */
  ghost predicate Remembered(heads: seq<Block>, t: ChainTx) {
    t.chiefUpdate && exists i {:trigger heads[i]} :: 0 <= i < |heads| && OnPath(heads[i], 0, t)
  }

  /** The index maps the transactions of the chain up to `b` and, besides, the
      chief updates that were on the chain of some head. */
  ghost predicate KeysAre(index: Index, heads: seq<Block>, b: Block) {
    forall t {:trigger t in index} :: t in index <==> OnPath(b, 0, t) || Remembered(heads, t)
  }

  /** WriteTxLookupEntries. */
  method WriteTxLookupEntries(index: Index, b: Block) returns (r: Index)
    ensures forall t {:trigger t in r} :: t in r <==> t in index || t in Txs(b)
    ensures forall t {:trigger r[t]} :: t in r ==>
      r[t] == if t in Txs(b) then Entry(b, Number(b), IndexOf(Txs(b), t)) else index[t]
  {
    r := index;
    var txs := Txs(b);
    for i := 0 to |txs|
      invariant forall t {:trigger t in r} :: t in r <==> t in index || t in txs[..i]
      invariant forall t {:trigger r[t]} :: t in r ==>
        r[t] == if t in txs[..i] then Entry(b, Number(b), IndexOf(txs[..i], t)) else index[t]
    {
      assert txs[..i + 1][..i] == txs[..i];
      r := r[txs[i] := Entry(b, Number(b), i)];
    }
    assert txs[..|txs|] == txs;
  }

  /** After the entries of some blocks of `b`'s chain are written, those
      transactions are in place and the others are as before. */
  ghost predicate Written(before: Index, index: Index, b: Block, txs: seq<ChainTx>) {
    && (forall t {:trigger t in index} :: t in index <==> t in before || t in txs)
    && (forall t {:trigger index[t]} :: t in index ==>
         if t in txs then OnPath(b, 0, t) && index[t] == Place(b, t) else index[t] == before[t])
  }

  lemma {:induction false} WrittenOne(before: Index, mid: Index, index: Index, b: Block, txs: seq<ChainTx>, c: Block)
    requires Written(before, mid, b, txs) && Once(b) && AncestorOf(c, b)
    requires forall t {:trigger t in index} :: t in index <==> t in mid || t in Txs(c)
    requires forall t {:trigger index[t]} :: t in index ==>
      index[t] == if t in Txs(c) then Entry(c, Number(c), IndexOf(Txs(c), t)) else mid[t]
    ensures Written(before, index, b, txs + Txs(c))
  {
    forall t | t in index
      ensures if t in txs + Txs(c) then OnPath(b, 0, t) && index[t] == Place(b, t) else index[t] == before[t]
    {
      if t in Txs(c) {
        PlaceIn(b, c, t);
      } else {
        assert t in mid;
      }
    }
  }

  /** Entries are deleted one by one. */
  method DeleteAll(index: Index, txs: seq<ChainTx>) returns (r: Index)
    ensures forall t {:trigger t in r} :: t in r <==> t in index && t !in txs
    ensures forall t {:trigger r[t]} :: t in r ==> r[t] == index[t]
  {
    r := index;
    for i := 0 to |txs|
      invariant forall t {:trigger t in r} :: t in r <==> t in index && t !in txs[..i]
      invariant forall t {:trigger r[t]} :: t in r ==> r[t] == index[t]
    {
      assert txs[..i + 1] == txs[..i] + [txs[i]];
      r := r - {txs[i]};
    }
    assert txs[..|txs|] == txs;
  }

  // -------------------------------------------------- reorganising the index

  /** The index after a reorganisation from `a` to `b`. */
  ghost predicate Moved(before: Index, index: Index, a: Block, b: Block) {
    var f := ForkHeight(a, b);
    && (forall t {:trigger t in index} :: t in index <==> (t in before || OnPath(b, f, t)) && t !in Dropped(a, b))
    && (forall t {:trigger index[t]} :: t in index ==>
         if OnPath(b, f, t) then OnPath(b, 0, t) && index[t] == Place(b, t) else t in before && index[t] == before[t])
  }

  lemma {:induction false} MovedCovers(before: Index, index: Index, a: Block, b: Block)
    requires Moved(before, index, a, b) && Covers(before, a) && Once(a) && Once(b)
    ensures Covers(index, b)
  {
    var f := ForkHeight(a, b);
    ForkIs(a, b);
    forall t | OnPath(b, 0, t)
      ensures t in index && index[t] == Place(b, t)
    {
      PathSplit(b, f, t);
      DroppedIs(a, b, t);
      if !OnPath(b, f, t) {
        assert OnPath(At(a, f), 0, t);
        PlaceBelow(a, f, t);
        PlaceBelow(b, f, t);
        assert t in before;
      }
      assert t in index;
    }
  }

  /** A transaction that stays in the index without being on the new chain. */
  ghost predicate LeftBehind(a: Block, b: Block, t: ChainTx) {
    t.chiefUpdate && OnPath(a, ForkHeight(a, b), t) && !OnPath(b, ForkHeight(a, b), t)
  }

  lemma {:induction false} MovedEntry(before: Index, index: Index, a: Block, b: Block, t: ChainTx)
    requires Moved(before, index, a, b) && Once(a) && Once(b)
    ensures t.chiefUpdate ==> (t in index <==> t in before || OnPath(b, ForkHeight(a, b), t))
    ensures !t.chiefUpdate && (t in before <==> OnPath(a, 0, t)) ==> (t in index <==> OnPath(b, 0, t))
    ensures (t in before ==> OnPath(a, 0, t)) && t in index && !OnPath(b, 0, t) ==> LeftBehind(a, b, t)
  {
    var f := ForkHeight(a, b);
    ForkIs(a, b);
    PathSplit(a, f, t);
    PathSplit(b, f, t);
    DroppedIs(a, b, t);
    if OnPath(At(a, f), 0, t) {
      PlaceBelow(a, f, t);
    }
  }

  lemma {:induction false} RememberedNext(heads: seq<Block>, b: Block, t: ChainTx)
    ensures Remembered(heads + [b], t) <==> Remembered(heads, t) || (t.chiefUpdate && OnPath(b, 0, t))
  {
    var more := heads + [b];
    assert more[|heads|] == b;
    if Remembered(heads, t) {
      var i :| 0 <= i < |heads| && OnPath(heads[i], 0, t);
      assert more[i] == heads[i];
    }
  }

  /** A move of the head to `b` adds the chain of `b` and forgets, of what is no
      longer on the chain, everything but chief updates. */
  lemma {:induction false} MovedKeys(before: Index, index: Index, heads: seq<Block>, a: Block, b: Block)
    requires Moved(before, index, a, b) && Once(a) && Once(b)
    requires |heads| > 0 && heads[|heads| - 1] == a && KeysAre(before, heads, a)
    ensures KeysAre(index, heads + [b], b)
  {
    forall t
      ensures t in index <==> OnPath(b, 0, t) || Remembered(heads + [b], t)
    {
      assert t in before <==> OnPath(a, 0, t) || Remembered(heads, t);
      MovedEntry(before, index, a, b, t);
      RememberedNext(heads, b, t);
      ForkIs(a, b);
      PathSplit(a, ForkHeight(a, b), t);
      PathSplit(b, ForkHeight(a, b), t);
      assert t.chiefUpdate && OnPath(heads[|heads| - 1], 0, t) ==> Remembered(heads, t);
    }
  }

  /** Over a whole history of heads: the index is exact if and only if every chief
      update that was ever on a head's chain is on the current one. */
  lemma {:induction false} ExactIff(index: Index, heads: seq<Block>, b: Block)
    requires Covers(index, b) && KeysAre(index, heads, b)
    ensures Exact(index, b) <==> forall t :: Remembered(heads, t) ==> OnPath(b, 0, t)
  {
    if Exact(index, b) {
      forall t | Remembered(heads, t)
        ensures OnPath(b, 0, t)
      {
        assert t in index;
      }
    }
  }

  lemma {:induction false} LeftBehindStays(before: Index, index: Index, a: Block, b: Block, t: ChainTx)
    requires Moved(before, index, a, b) && Covers(before, a) && Once(a) && Once(b) && LeftBehind(a, b, t)
    ensures t in index && !OnPath(b, 0, t)
  {
    var f := ForkHeight(a, b);
    ForkIs(a, b);
    PathSplit(a, f, t);
    PathSplit(b, f, t);
    DroppedIs(a, b, t);
    assert t in before;
    if OnPath(At(a, f), 0, t) {
      PlaceBelow(a, f, t);
    }
  }

  /** A reorganisation keeps the index exact if and only if the branch it leaves
      has no chief update that the new branch lacks. */
  lemma {:induction false} MovedExactIff(before: Index, index: Index, a: Block, b: Block)
    requires Moved(before, index, a, b) && Exact(before, a) && Once(a) && Once(b)
    ensures Exact(index, b) <==> forall t :: !LeftBehind(a, b, t)
  {
    MovedCovers(before, index, a, b);
    forall t | LeftBehind(a, b, t)
      ensures t in index && !OnPath(b, 0, t)
    {
      LeftBehindStays(before, index, a, b, t);
    }
    forall t | t in index && !OnPath(b, 0, t)
      ensures LeftBehind(a, b, t)
    {
      assert t in before ==> OnPath(a, 0, t);
      MovedEntry(before, index, a, b, t);
    }
  }
}
