/** txPricedList of core/tx_list.go: a price heap over all known transactions
    that is cleaned lazily, so that it may hold stale and repeated entries. */
module PriceHeap {
  import opened TxSpec
  import opened PoolState
  import Heap

  lemma {:induction false} Popped(h: seq<Tx>, rest: seq<Tx>, x: Tx)
    requires multiset(h) == multiset(rest) + multiset{x}
    ensures x in h && (forall y :: y in h <==> y == x || y in rest)
    ensures |rest| == |h| - 1
  {
    assert |multiset(h)| == |h| && |multiset(rest)| == |rest|;
    forall y
      ensures y in h <==> y == x || y in rest
    {
      assert y in h <==> y in multiset(h);
      assert y in rest <==> y in multiset(rest);
    }
  }

  method Put(prices: seq<Tx>, tx: Tx, ghost all: set<Tx>, ghost loose: set<Tx>) returns (r: seq<Tx>)
    requires Covers(prices, all, loose)
    ensures Covers(r, all + {tx}, loose - {tx}) && multiset(r) == multiset(prices) + multiset{tx}
  {
    r := Heap.Push(prices, PriceOf, tx);
    Popped(r, prices, tx);
  }

  /** Removed: counts one more stale entry, and rebuilds the heap from the
      known transactions once more than a quarter may be stale. */
  method Removed(all: set<Tx>, prices: seq<Tx>, stales: int, ghost loose: set<Tx>)
    returns (r: seq<Tx>, s: int)
    requires Covers(prices, all, loose)
    ensures Covers(r, all, loose)
    ensures if stales + 1 <= |prices| / 4 then r == prices && s == stales + 1
            else multiset(r) == multiset(all) && s == 0
  {
    s := stales + 1;
    if s <= |prices| / 4 {
      return prices, s;
    }
    s := 0;
    r := [];
    var todo := all;
    while todo != {}
      invariant multiset(r) + multiset(todo) == multiset(all)
    {
      var tx :| tx in todo;
      todo := todo - {tx};
      r := r + [tx];
    }
    assert multiset(todo) == multiset{};
    r := Heap.Init(r, PriceOf);
    forall tx | tx in all
      ensures tx in r
    {
      assert tx in multiset(all);
      assert tx in multiset(r);
    }
  }

  /** The same price or a higher one. */
  ghost predicate NoneBelow(h: seq<Tx>, price: int) {
    forall x :: x in h ==> price <= x.price
  }

  lemma {:induction false} HeadIsLeast(h: seq<Tx>)
    requires Heap.Ordered(h, PriceOf) && |h| > 0
    ensures NoneBelow(h, h[0].price)
  {
    Heap.LeastOfAll(h, PriceOf);
    forall x | x in h
      ensures h[0].price <= x.price
    {
      assert PriceOf(h[0]) <= PriceOf(x);
    }
  }

  /** Underpriced: whether every known transaction costs at least as much.  Stale
      entries at the head are dropped on the way. */
  method Underpriced(all: set<Tx>, prices: seq<Tx>, stales: int, tx: Tx, locals: set<Address>)
    returns (answer: bool, r: seq<Tx>, s: int)
    requires Covers(prices, all, {})
    ensures Covers(r, all, {})
    ensures stales - s == |prices| - |r|
    ensures answer <==> tx.sender !in locals && all != {} && forall t :: t in all ==> tx.price <= t.price
  {
    r, s := prices, stales;
    if tx.sender in locals {
      return false, r, s;
    }
    while |r| > 0 && r[0] !in all
      invariant Covers(r, all, {}) && stales - s == |prices| - |r|
      decreases |r|
    {
      s := s - 1;
      var head, rest := Heap.Pop(r, PriceOf);
      Popped(r, rest, head);
      r := rest;
    }
    if |r| == 0 {
      assert all == {};
      return false, r, s;
    }
    HeadIsLeast(r);
    answer := r[0].price >= tx.price;
  }

  /** What has been popped: it was cheaper than everything left in the heap. */
  ghost predicate Drained(all: set<Tx>, h: seq<Tx>, drop: seq<Tx>, save: seq<Tx>, locals: set<Address>) {
    && Heap.Ordered(h, PriceOf)
    && (forall t :: t in all ==> t in h || t in drop || t in save)
    && (forall t :: t in drop ==> t in all && t.sender !in locals && NoneBelow(h, t.price))
  }

  lemma {:induction false} DrainOne(all: set<Tx>, h: seq<Tx>, drop: seq<Tx>, save: seq<Tx>, locals: set<Address>,
                                    x: Tx, rest: seq<Tx>)
    requires Drained(all, h, drop, save, locals) && |h| > 0 && x == h[0]
    requires multiset(h) == multiset(rest) + multiset{x} && Heap.Ordered(rest, PriceOf)
    ensures |rest| == |h| - 1 && NoneBelow(rest, x.price)
    ensures x !in all ==> Drained(all, rest, drop, save, locals)
    ensures Drained(all, rest, drop, save + [x], locals)
    ensures x in all && x.sender !in locals ==> Drained(all, rest, drop + [x], save, locals)
  {
    Popped(h, rest, x);
    HeadIsLeast(h);
  }

  /** The saved entries go back. */
  method PutBack(h: seq<Tx>, save: seq<Tx>) returns (r: seq<Tx>)
    requires Heap.Ordered(h, PriceOf)
    ensures Heap.Ordered(r, PriceOf) && |r| == |h| + |save|
    ensures forall x :: x in r <==> x in h || x in save
  {
    r := h;
    for k := 0 to |save|
      invariant Heap.Ordered(r, PriceOf) && |r| == |h| + k
      invariant forall x :: x in r <==> x in h || x in save[..k]
    {
      ghost var was := r;
      r := Heap.Push(r, PriceOf, save[k]);
      Popped(r, was, save[k]);
      assert save[..k + 1] == save[..k] + [save[k]];
    }
    assert save[..|save|] == save;
  }

  /** Cap: takes out exactly the known remote transactions below the price. */
  method Cap(all: set<Tx>, prices: seq<Tx>, stales: int, threshold: int, locals: set<Address>)
    returns (drop: seq<Tx>, r: seq<Tx>, s: int)
    requires Covers(prices, all, {})
    ensures Covers(r, all, set t | t in drop)
    ensures forall t :: t in drop <==> t in all && t.sender !in locals && t.price < threshold
    ensures stales - s == |prices| - |r| - |drop|
  {
    drop, r, s := [], prices, stales;
    var save: seq<Tx> := [];
    var reached := false;
    while |r| > 0 && !reached
      invariant Drained(all, r, drop, save, locals)
      invariant stales - s == |prices| - |r| - |drop| - |save|
      invariant forall t :: t in drop ==> t.price < threshold
      invariant forall t :: t in save && t.sender !in locals ==> t.price >= threshold
      invariant reached ==> NoneBelow(r, threshold)
      decreases |r|
    {
      var tx, rest := Heap.Pop(r, PriceOf);
      DrainOne(all, r, drop, save, locals, tx, rest);
      r := rest;
      if tx !in all {
        s := s - 1;
      } else if tx.price >= threshold {
        save := save + [tx];
        reached := true;
      } else if tx.sender in locals {
        save := save + [tx];
      } else {
        drop := drop + [tx];
      }
    }
    r := PutBack(r, save);
  }

  /** Discard: takes out the cheapest known remote transactions, `count` entries
      of them unless there are no more. */
  method Discard(all: set<Tx>, prices: seq<Tx>, stales: int, count: int, locals: set<Address>)
    returns (drop: seq<Tx>, r: seq<Tx>, s: int)
    requires Covers(prices, all, {})
    ensures Covers(r, all, set t | t in drop)
    ensures forall t :: t in drop ==> t in all && t.sender !in locals
    ensures forall d, t :: d in drop && t in all && t !in drop && t.sender !in locals ==> d.price <= t.price
    ensures |drop| <= count || drop == []
    ensures |drop| < count ==> forall t :: t in all && t.sender !in locals ==> t in drop
    ensures stales - s == |prices| - |r| - |drop|
  {
    drop, r, s := [], prices, stales;
    var save: seq<Tx> := [];
    var left := count;
    while |r| > 0 && left > 0
      invariant Drained(all, r, drop, save, locals)
      invariant stales - s == |prices| - |r| - |drop| - |save|
      invariant forall t :: t in save ==> t.sender in locals
      invariant left == count - |drop| && (left >= 0 || drop == [])
      decreases |r|
    {
      var tx, rest := Heap.Pop(r, PriceOf);
      DrainOne(all, r, drop, save, locals, tx, rest);
      r := rest;
      if tx !in all {
        s := s - 1;
      } else if tx.sender in locals {
        save := save + [tx];
      } else {
        drop := drop + [tx];
        left := left - 1;
      }
    }
    ghost var h := r;
    forall d, t | d in drop && t in all && t !in drop && t.sender !in locals
      ensures d.price <= t.price
    {
      assert t in h;
    }
    r := PutBack(r, save);
  }
}
