/** The moves of single transactions in core/tx_pool.go: into the queue, from
    the queue to the pending list, and out of the pool. */
module PoolMoves {
  import opened TxSpec
  import opened PoolState
  import PriceHeap

  /** q is p up to the price heap. */
  ghost predicate SameButPrices(p: Pool, q: Pool) {
    q == p.(prices := q.prices, stales := q.stales)
  }

  function ListOr(lists: map<Address, TxList>, a: Address, strict: bool): TxList {
    if a in lists then lists[a] else NewList(strict)
  }

  /** delete(pool.all, hash) with priced.Removed(). */
  method Forget(p: Pool, tx: Tx, ghost loose: set<Tx>) returns (q: Pool)
    requires Covers(p.prices, p.all, loose)
    ensures SameButPrices(p.(all := p.all - {tx}), q) && Covers(q.prices, q.all, loose)
  {
    var r, s := PriceHeap.Removed(p.all - {tx}, p.prices, p.stales, loose);
    q := p.(all := p.all - {tx}, prices := r, stales := s);
  }

  /** The same for each of some transactions, in any order. */
  method ForgetAll(p: Pool, gone: set<Tx>, ghost loose: set<Tx>) returns (q: Pool)
    requires Covers(p.prices, p.all, loose)
    ensures SameButPrices(p.(all := p.all - gone), q) && Covers(q.prices, q.all, loose)
  {
    q := p;
    var todo := gone;
    while todo != {}
      invariant todo <= gone
      invariant SameButPrices(p.(all := p.all - (gone - todo)), q) && Covers(q.prices, q.all, loose)
    {
      var tx :| tx in todo;
      q := Forget(q, tx, loose);
      todo := todo - {tx};
      assert p.all - (gone - todo) == p.all - (gone - (todo + {tx})) - {tx};
    }
    assert gone - todo == gone;
  }

  ghost function ReplacedIn(m: Items, tx: Tx): set<Tx> {
    if tx.nonce in m then {m[tx.nonce]} else {}
  }

  /** The transaction was put into the list `was` of its sender. */
  ghost predicate PutIn(p: Pool, q: Pool, was: TxList, tx: Tx) {
    q.all == p.all - ReplacedIn(was.items, tx) + {tx}
  }

  /** enqueueTx: puts a transaction into the future queue unless the queue has
      a better one with this nonce. */
  method EnqueueTx(p: Pool, tx: Tx, ghost loose: set<Tx>) returns (q: Pool, replaced: bool, ok: bool)
    requires Inv(p, loose) && tx.nonce !in ItemsOf(p.pending, tx.sender)
    ensures Inv(q, loose) && OnlyAccount(p, q, tx.sender)
    ensures q.pending == p.pending && q.virtual == p.virtual
    ensures ok <==> Accepts(ListOr(p.queue, tx.sender, false), tx, p.cfg.priceBump)
    ensures !ok ==> q == p
    ensures replaced <==> ok && tx.nonce in ItemsOf(p.queue, tx.sender)
    ensures ok ==>
      && q.queue == p.queue[tx.sender := Added(ListOr(p.queue, tx.sender, false), tx)]
      && PutIn(p, q, ListOr(p.queue, tx.sender, false), tx)
  {
    var from := tx.sender;
    var list := ListOr(p.queue, from, false);
    assert list.items == ItemsOf(p.queue, from);
    if !Accepts(list, tx, p.cfg.priceBump) {
      return p, false, false;
    }
    var old_ := Replaced(list, tx);
    q := p.(queue := p.queue[from := Added(list, tx)]);
    if old_.Some? {
      q := Forget(q, old_.value, loose);
    }
    var prices := PriceHeap.Put(q.prices, tx, q.all, loose);
    q := q.(all := q.all + {tx}, prices := prices);
    replaced, ok := old_.Some?, true;
    assert AccountOk(p, from);
    EnqueuedOk(p, q, tx);
  }

  lemma {:induction false} EnqueuedOk(p: Pool, q: Pool, tx: Tx)
    requires ListsOk(p) && tx.nonce !in ItemsOf(p.pending, tx.sender)
    requires q == p.(queue := p.queue[tx.sender := Added(ListOr(p.queue, tx.sender, false), tx)],
                     all := q.all, prices := q.prices, stales := q.stales)
    requires PutIn(p, q, ListOr(p.queue, tx.sender, false), tx)
    ensures ListsOk(q) && OnlyAccount(p, q, tx.sender)
  {
    var a := tx.sender;
    var list := ListOr(p.queue, a, false);
    assert AccountOk(p, a);
    Only(p.queue, a, Added(list, tx));
    forall t: Tx | t.sender != a
      ensures t in q.all <==> t in p.all
    {
      assert tx.nonce in list.items ==> list.items[tx.nonce].sender == a;
    }
    OwnedAdded(list.items, a, p.all, tx);
    OwnedOthers(ItemsOf(p.pending, a), list.items, a, p.all, tx);
    assert AccountOk(q, a);
    ListsByAccount(p, q, a);
  }

  lemma {:induction false} Only<V>(m: map<Address, V>, a: Address, v: V)
    ensures m[a := v] - {a} == m - {a}
  {
  }

  lemma {:induction false} OwnedAdded(m: Items, a: Address, all: set<Tx>, tx: Tx)
    requires Owned(m, a, all) && tx.sender == a
    ensures Owned(m[tx.nonce := tx], a, all - ReplacedIn(m, tx) + {tx})
  {
    var w := m[tx.nonce := tx];
    forall n | n in w
      ensures w[n].nonce == n && w[n].sender == a && w[n] in all - ReplacedIn(m, tx) + {tx}
    {
      if n != tx.nonce {
        assert m[n].nonce == n;
        assert tx.nonce in m ==> m[tx.nonce].nonce == tx.nonce;
      }
    }
  }

  lemma {:induction false} OwnedOthers(m: Items, w: Items, a: Address, all: set<Tx>, tx: Tx)
    requires Owned(m, a, all) && Owned(w, a, all) && m.Keys !! w.Keys
    ensures Owned(m, a, all - ReplacedIn(w, tx) + {tx})
  {
    forall n | n in m
      ensures m[n].nonce == n && m[n].sender == a && m[n] in all - ReplacedIn(w, tx) + {tx}
    {
      if tx.nonce in w {
        assert w[tx.nonce].nonce == tx.nonce;
        assert m[n].nonce == n && n != tx.nonce;
      }
    }
  }

  /** promoteTx: puts a transaction into the pending list unless that list has
      a better one with this nonce, which then makes the pool forget it. */
  method PromoteTx(p: Pool, tx: Tx, ghost loose: set<Tx>) returns (q: Pool)
    requires Inv(p, loose) && tx in p.all && Unlisted(p, tx) && tx.nonce !in ItemsOf(p.queue, tx.sender)
    ensures Inv(q, loose) && OnlyAccount(p, q, tx.sender) && q.queue == p.queue
    ensures var list := ListOr(p.pending, tx.sender, true);
      if Accepts(list, tx, p.cfg.priceBump) then
        && q.pending == p.pending[tx.sender := Added(list, tx)] && q.virtual == p.virtual[tx.sender := tx.nonce + 1]
        && PutIn(p, q, list, tx)
      else q.pending == p.pending && q.virtual == p.virtual && q.all == p.all - {tx}
  {
    var a := tx.sender;
    var list := ListOr(p.pending, a, true);
    assert AccountOk(p, a) && list.items == ItemsOf(p.pending, a);
    if !Accepts(list, tx, p.cfg.priceBump) {
      q := Forget(p, tx, loose);
      ForgetUnlisted(p, q, {tx});
      return;
    }
    var old_ := Replaced(list, tx);
    q := p.(pending := p.pending[a := Added(list, tx)]);
    if old_.Some? {
      q := Forget(q, old_.value, loose);
    }
    if tx !in q.all {
      var prices := PriceHeap.Put(q.prices, tx, q.all, loose);
      q := q.(all := q.all + {tx}, prices := prices);
    }
    q := q.(virtual := q.virtual[a := tx.nonce + 1]);
    PromotedOk(p, q, tx);
  }

  lemma {:induction false} PromotedOk(p: Pool, q: Pool, tx: Tx)
    requires ListsOk(p) && tx in p.all && tx.nonce !in ItemsOf(p.queue, tx.sender)
    requires q == p.(pending := p.pending[tx.sender := Added(ListOr(p.pending, tx.sender, true), tx)],
                     virtual := p.virtual[tx.sender := tx.nonce + 1],
                     all := q.all, prices := q.prices, stales := q.stales)
    requires PutIn(p, q, ListOr(p.pending, tx.sender, true), tx)
    ensures ListsOk(q) && OnlyAccount(p, q, tx.sender)
  {
    var a := tx.sender;
    var list := ListOr(p.pending, a, true);
    assert AccountOk(p, a);
    Only(p.pending, a, Added(list, tx));
    Only(p.virtual, a, tx.nonce + 1);
    forall t: Tx | t.sender != a
      ensures t in q.all <==> t in p.all
    {
      assert tx.nonce in list.items ==> list.items[tx.nonce].sender == a;
    }
    OwnedAdded(list.items, a, p.all, tx);
    OwnedOthers(ItemsOf(p.queue, a), list.items, a, p.all, tx);
    assert AccountOk(q, a);
    ListsByAccount(p, q, a);
  }

  // --------------------------------------------------------- out of the pool

  /** Transactions of `a` that are known but in neither list, and whose nonces
      are free in both. */
  ghost predicate Loose(p: Pool, a: Address, m: Items) {
    && Owned(m, a, p.all)
    && m.Keys !! ItemsOf(p.pending, a).Keys && m.Keys !! ItemsOf(p.queue, a).Keys
  }

  /** All of `m` but `todo` has been enqueued. */
  ghost predicate EnqueuedSoFar(p: Pool, q: Pool, a: Address, m: Items, todo: Items) {
    && Loose(q, a, todo) && Part(todo, m) && OnlyAccount(p, q, a)
    && q.pending == p.pending && q.virtual == p.virtual && q.all == p.all
    && ItemsOf(q.queue, a) == ItemsOf(p.queue, a) + (m - todo.Keys)
  }

  lemma {:induction false} MergeOne(v: Items, m: Items, todo: Items, n: nat)
    requires Part(todo, m) && n in todo
    ensures v + (m - (todo - {n}).Keys) == (v + (m - todo.Keys))[n := todo[n]]
  {
    assert m - (todo - {n}).Keys == (m - todo.Keys)[n := todo[n]];
  }

  /** Enqueues each of some transactions, in any order; none of them meets
      another one with its nonce. */
  method EnqueueAll(p: Pool, a: Address, m: Items, ghost loose: set<Tx>) returns (q: Pool)
    requires Inv(p, loose) && Loose(p, a, m)
    ensures Inv(q, loose) && EnqueuedSoFar(p, q, a, m, map[])
  {
    q := p;
    var todo := m;
    assert ItemsOf(p.queue, a) + (m - todo.Keys) == ItemsOf(p.queue, a);
    while todo != map[]
      invariant Inv(q, loose) && EnqueuedSoFar(p, q, a, m, todo)
      decreases |todo|
    {
      assert todo.Keys != {};
      ghost var w := Pick(todo.Keys);
      var n: nat :| n in todo.Keys;
      q := EnqueueNext(p, q, a, m, todo, n, loose);
      KeysWithout(todo, n);
      todo := todo - {n};
    }
  }

  method EnqueueNext(ghost p: Pool, r: Pool, a: Address, ghost m: Items, todo: Items, n: nat, ghost loose: set<Tx>)
    returns (q: Pool)
    requires n in todo && Inv(r, loose) && EnqueuedSoFar(p, r, a, m, todo)
    ensures Inv(q, loose) && EnqueuedSoFar(p, q, a, m, todo - {n})
  {
    assert todo[n].nonce == n && todo[n].sender == a;
    var replaced, ok;
    q, replaced, ok := EnqueueTx(r, todo[n], loose);
    EnqueueOne(p, r, q, a, m, todo, n);
  }

  lemma {:induction false} EnqueueOne(p: Pool, r: Pool, q: Pool, a: Address, m: Items, todo: Items, n: nat)
    requires n in todo && EnqueuedSoFar(p, r, a, m, todo) && OnlyAccount(r, q, a)
    requires q.pending == r.pending && q.virtual == r.virtual
    requires q.queue == r.queue[a := Added(ListOr(r.queue, a, false), todo[n])]
    requires PutIn(r, q, ListOr(r.queue, a, false), todo[n])
    ensures EnqueuedSoFar(p, q, a, m, todo - {n})
  {
    var tx := todo[n];
    assert tx.nonce == n && tx in r.all;
    assert n !in ItemsOf(r.queue, a);
    assert q.all == r.all;
    OnlyAccountTransitive(p, r, q, a);
    MergeOne(ItemsOf(p.queue, a), m, todo, n);
    assert ItemsOf(q.queue, a) == ItemsOf(r.queue, a)[n := tx];
    assert ItemsOf(q.queue, a).Keys == ItemsOf(r.queue, a).Keys + {n};
    assert (todo - {n}).Keys == todo.Keys - {n};
    OwnedCut(todo, todo - {n}, a, q.all + {tx}, tx);
  }

  /** The lists after `list` has replaced that of `a`, or has gone if empty. */
  function Store(lists: map<Address, TxList>, a: Address, list: TxList): map<Address, TxList> {
    if list.items == map[] then lists - {a} else lists[a := list]
  }

  lemma {:induction false} StoreOnly(lists: map<Address, TxList>, a: Address, list: TxList)
    ensures Store(lists, a, list) - {a} == lists - {a}
    ensures ItemsOf(Store(lists, a, list), a) == list.items
    ensures a in Store(lists, a, list) ==> Store(lists, a, list)[a] == list
  {
  }

  /** The pending list of `a` is cut at `nonce`: what was above returns to the
      queue, unless nothing stays pending, and the next nonce goes back. */
  ghost predicate CutPending(p: Pool, q: Pool, a: Address, nonce: nat) {
    var m := ItemsOf(p.pending, a);
    && ItemsOf(q.pending, a) == Below(m, nonce)
    && ItemsOf(q.queue, a) == ItemsOf(p.queue, a) + (if Below(m, nonce) == map[] then map[] else From(m, nonce + 1))
    && NextNonce(q, a) == if NextNonce(p, a) > nonce then nonce else NextNonce(p, a)
  }

  /** What removeTx does. */
  ghost predicate RemovedOne(p: Pool, tx: Tx, q: Pool) {
    var a := tx.sender;
    if tx !in p.all then q == p
    else
      && OnlyAccount(p, q, a) && q.all == p.all - {tx}
      && if tx.nonce in ItemsOf(p.pending, a) then CutPending(p, q, a, tx.nonce)
         else
           && q.pending == p.pending && q.virtual == p.virtual
           && q.queue == if a !in p.queue then p.queue else Store(p.queue, a, Removed(p.queue[a], tx.nonce))
  }

  /** removeTx: the pool forgets a transaction.  If its nonce is pending, that
      entry goes and the later ones return to the queue, unless nothing stays
      pending; the account's next nonce goes back to it.  Otherwise the entry
      with its nonce leaves the queue. */
  method RemoveTx(p: Pool, tx: Tx, ghost loose: set<Tx>) returns (q: Pool)
    requires Inv(p, loose)
    ensures Inv(q, loose) && OnlyAccount(p, q, tx.sender) && q.all == p.all - {tx}
    ensures NoncesOk(p) ==> NoncesOk(q)
    ensures RemovedOne(p, tx, q)
  {
    if tx !in p.all {
      return p;
    }
    var a, nonce := tx.sender, tx.nonce;
    q := Forget(p, tx, loose);
    if a in q.pending && nonce in q.pending[a].items {
      q := RemovePending(p, q, tx, loose);
    } else if a in q.queue {
      q := q.(queue := Store(q.queue, a, Removed(q.queue[a], nonce)));
      RemovedFromQueue(p, q, tx);
    } else {
      RemovedUnlisted(p, q, tx);
    }
  }

  /** The part of removeTx for a pending nonce. */
  method RemovePending(ghost p: Pool, r: Pool, tx: Tx, ghost loose: set<Tx>) returns (q: Pool)
    requires Inv(p, loose) && SameButPrices(p.(all := p.all - {tx}), r) && Covers(r.prices, r.all, loose)
    requires tx.sender in r.pending && tx.nonce in r.pending[tx.sender].items
    ensures Inv(q, loose) && OnlyAccount(p, q, tx.sender) && q.all == p.all - {tx}
    ensures NoncesOk(p) ==> NoncesOk(q)
    ensures CutPending(p, q, tx.sender, tx.nonce)
  {
    var a, nonce := tx.sender, tx.nonce;
    var list := r.pending[a];
    var invalids := RemoveInvalids(list, nonce);
    var rest := Removed(list, nonce);
    q := r.(pending := Store(r.pending, a, rest));
    RemovedFromPending(p, q, tx);
    StoreOnly(r.pending, a, rest);
    assert AccountOk(p, a);
    CutIs(list, nonce);
    ghost var mid := q;
    if rest.items != map[] {
      q := EnqueueAll(q, a, invalids, loose);
      OnlyAccountTransitive(p, mid, q, a);
      NoneLeft(invalids);
    }
    ghost var before := q;
    if NextNonce(q, a) > nonce {
      Only(q.virtual, a, nonce);
      q := q.(virtual := q.virtual[a := nonce]);
      assert AccountOk(before, a);
      ListsByAccount(before, q, a);
      OnlyAccountTransitive(p, before, q, a);
    }
    if NoncesOk(p) {
      NoncesCut(p, q, a, nonce);
    }
  }

  lemma {:induction false} NoneLeft(m: Items)
    ensures var none: Items := map[]; m - none.Keys == m
  {
  }

  lemma {:induction false} CutIs(l: TxList, nonce: nat)
    requires l.strict && nonce in l.items
    ensures Removed(l, nonce).items == Below(l.items, nonce)
    ensures RemoveInvalids(l, nonce) == From(l.items, nonce + 1)
  {
  }

  /** Cutting the pending nonces at `nonce` together with the next nonce. */
  lemma {:induction false} NoncesCut(p: Pool, q: Pool, a: Address, nonce: nat)
    requires NoncesOk(p) && OnlyAccount(p, q, a) && nonce in ItemsOf(p.pending, a)
    requires forall n: nat :: n in ItemsOf(q.pending, a) <==> n in ItemsOf(p.pending, a) && n < nonce
    requires NextNonce(q, a) == if NextNonce(p, a) > nonce then nonce else NextNonce(p, a)
    ensures NoncesOk(q)
  {
    assert NoncesAt(p, a);
    assert NoncesAt(q, a);
    NoncesByAccount(p, q, a);
  }

  lemma {:induction false} RemovedFromPending(p: Pool, q: Pool, tx: Tx)
    requires ListsOk(p) && tx.sender in p.pending && tx.nonce in p.pending[tx.sender].items
    requires SameButPrices(p.(all := p.all - {tx},
      pending := Store(p.pending, tx.sender, Removed(p.pending[tx.sender], tx.nonce))), q)
    ensures ListsOk(q) && OnlyAccount(p, q, tx.sender)
    ensures Loose(q, tx.sender, RemoveInvalids(p.pending[tx.sender], tx.nonce))
    ensures forall n: nat :: n in ItemsOf(q.pending, tx.sender) <==> n in ItemsOf(p.pending, tx.sender) && n < tx.nonce
  {
    var a := tx.sender;
    var list := p.pending[a];
    var rest := Removed(list, tx.nonce);
    assert AccountOk(p, a);
    StoreOnly(p.pending, a, rest);
    OwnedCut(list.items, rest.items, a, p.all, tx);
    OwnedCut(list.items, RemoveInvalids(list, tx.nonce), a, p.all, tx);
    OwnedCut(ItemsOf(p.queue, a), ItemsOf(p.queue, a), a, p.all, tx);
    assert AccountOk(q, a);
    ListsByAccount(p, q, a);
  }

  lemma {:induction false} OwnedCut(m: Items, part: Items, a: Address, all: set<Tx>, tx: Tx)
    requires Owned(m, a, all) && Part(part, m) && tx.nonce !in part
    ensures Owned(part, a, all - {tx})
  {
    forall n | n in part
      ensures part[n].nonce == n && part[n].sender == a && part[n] in all - {tx}
    {
      assert part[n] == m[n];
    }
  }

  lemma {:induction false} RemovedFromQueue(p: Pool, q: Pool, tx: Tx)
    requires ListsOk(p) && tx.sender in p.queue && tx.nonce !in ItemsOf(p.pending, tx.sender)
    requires SameButPrices(p.(all := p.all - {tx},
      queue := Store(p.queue, tx.sender, Removed(p.queue[tx.sender], tx.nonce))), q)
    ensures ListsOk(q) && OnlyAccount(p, q, tx.sender)
    ensures NoncesOk(p) ==> NoncesOk(q)
  {
    var a := tx.sender;
    var rest := Removed(p.queue[a], tx.nonce);
    assert AccountOk(p, a);
    StoreOnly(p.queue, a, rest);
    OwnedCut(p.queue[a].items, rest.items, a, p.all, tx);
    OwnedCut(ItemsOf(p.pending, a), ItemsOf(p.pending, a), a, p.all, tx);
    assert AccountOk(q, a);
    ListsByAccount(p, q, a);
    if NoncesOk(p) {
      assert NoncesAt(p, a);
      NoncesByAccount(p, q, a);
    }
  }

  lemma {:induction false} RemovedUnlisted(p: Pool, q: Pool, tx: Tx)
    requires ListsOk(p) && tx.sender !in p.queue && tx.nonce !in ItemsOf(p.pending, tx.sender)
    requires SameButPrices(p.(all := p.all - {tx}), q)
    ensures ListsOk(q) && OnlyAccount(p, q, tx.sender)
    ensures NoncesOk(p) ==> NoncesOk(q)
  {
    ForgetUnlisted(p, q, {tx});
    if NoncesOk(p) {
      assert NoncesAt(p, tx.sender);
      NoncesByAccount(p, q, tx.sender);
    }
  }

  // ------------------------------------------- known but in no list

  /** Every known transaction is in a list of its sender. */
  ghost predicate AllListed(p: Pool) {
    forall tx {:trigger Unlisted(p, tx)} :: tx in p.all ==> !Unlisted(p, tx)
  }

  /** The nonce is the lowest pending one of its sender, but not the only one. */
  predicate Strands(p: Pool, tx: Tx) {
    var m := ItemsOf(p.pending, tx.sender);
    tx in p.all && tx.nonce in m && Below(m, tx.nonce) == map[] && From(m, tx.nonce + 1) != map[]
  }

  /** After a removal exactly the transactions that were pending above the lowest
      one are known and in no list, if it was the lowest one. */
  lemma {:induction false} StrandedAre(p: Pool, tx: Tx, q: Pool, t: Tx)
    requires ListsOk(p) && AllListed(p) && tx in p.all && RemovedOne(p, tx, q) && t in q.all
    ensures Unlisted(q, t) <==> Strands(p, tx) && Holds(From(ItemsOf(p.pending, tx.sender), tx.nonce + 1), t)
  {
    var a := tx.sender;
    assert t in p.all && !Unlisted(p, t) && !Unlisted(p, tx);
    assert AccountOk(p, a);
    if t.sender != a {
      OtherAccount(p, q, a, t.sender);
      assert AccountOk(p, t.sender);
      assert !Holds(ItemsOf(p.pending, a), t);
    } else if tx.nonce in ItemsOf(p.pending, a) {
      StrandedFromPending(p, tx, q, t);
    } else {
      assert a in p.queue;
      StoreOnly(p.queue, a, Removed(p.queue[a], tx.nonce));
    }
  }

  lemma {:induction false} StrandedFromPending(p: Pool, tx: Tx, q: Pool, t: Tx)
    requires AccountOk(p, tx.sender) && !Unlisted(p, tx) && tx in p.all && tx.nonce in ItemsOf(p.pending, tx.sender)
    requires CutPending(p, q, tx.sender, tx.nonce) && t.sender == tx.sender && t != tx && !Unlisted(p, t)
    ensures Unlisted(q, t) <==> Strands(p, tx) && Holds(From(ItemsOf(p.pending, tx.sender), tx.nonce + 1), t)
  {
    var m := ItemsOf(p.pending, tx.sender);
    assert Holds(m, tx);
    if Holds(m, t) {
      assert t.nonce !in ItemsOf(p.queue, tx.sender);
      assert t.nonce < tx.nonce ==> t.nonce in Below(m, tx.nonce);
      assert t.nonce > tx.nonce ==> t.nonce in From(m, tx.nonce + 1);
    } else {
      assert t.nonce !in m;
    }
  }

  /** Removal keeps every known transaction listed if and only if the nonce is not
      the lowest of several pending ones. */
  lemma {:induction false} KeepsListedIff(p: Pool, tx: Tx, q: Pool)
    requires ListsOk(p) && AllListed(p) && RemovedOne(p, tx, q)
    ensures AllListed(q) <==> !Strands(p, tx)
  {
    if tx in p.all {
      forall t | t in q.all
        ensures Unlisted(q, t) <==> Strands(p, tx) && Holds(From(ItemsOf(p.pending, tx.sender), tx.nonce + 1), t)
      {
        StrandedAre(p, tx, q, t);
      }
      if Strands(p, tx) {
        var m := From(ItemsOf(p.pending, tx.sender), tx.nonce + 1);
        assert m.Keys != {};
        var n: nat :| n in m.Keys;
        assert AccountOk(p, tx.sender);
        assert Holds(m, m[n]) && m[n] in q.all;
      }
    }
  }
}
