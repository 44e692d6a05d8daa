/** The state of the transaction pool of core/tx_pool.go and its invariants. */
module PoolState {
  import opened TxSpec
  import Heap

  datatype Config = Config(priceBump: nat, accountSlots: nat, globalSlots: nat, accountQueue: nat, globalQueue: nat)

  /** What the pool reads from the chain: account nonces and balances at the
      current head, and the block gas limit. */
  datatype Chain = Chain(nonce: Address -> nat, balance: Address -> int, maxGas: int)

  /** `all` is the map from hashes to transactions; `prices` and `stales` are
      the price heap; `virtual` holds the nonces set in the pending state. */
  datatype Pool = Pool(
    cfg: Config, chain: Chain,
    pending: map<Address, TxList>, queue: map<Address, TxList>,
    all: set<Tx>, prices: seq<Tx>, stales: int,
    virtual: map<Address, nat>, locals: set<Address>, gasPrice: int)

  function ItemsOf(lists: map<Address, TxList>, a: Address): Items {
    if a in lists then lists[a].items else map[]
  }

  /** GetNonce of the pending state. */
  function NextNonce(p: Pool, a: Address): nat {
    if a in p.virtual then p.virtual[a] else p.chain.nonce(a)
  }

  function PriceOf(tx: Tx): int { tx.price }

  // ------------------------------------------------------- the invariants

  /** Every transaction sits under its nonce in the list of its sender and is
      known by hash. */
  ghost predicate Owned(m: Items, a: Address, all: set<Tx>) {
    forall n {:trigger m[n]} :: n in m ==> m[n].nonce == n && m[n].sender == a && m[n] in all
  }

  /** An account's pending and queued transactions are in place, never share a
      nonce, and are bounded by their lists' caps. */
  ghost predicate AccountOk(p: Pool, a: Address) {
    && Owned(ItemsOf(p.pending, a), a, p.all)
    && Owned(ItemsOf(p.queue, a), a, p.all)
    && ItemsOf(p.pending, a).Keys !! ItemsOf(p.queue, a).Keys
    && (a in p.pending ==> p.pending[a].strict && CapsBound(p.pending[a]))
    && (a in p.queue ==> !p.queue[a].strict && CapsBound(p.queue[a]))
  }

  ghost predicate ListsOk(p: Pool) {
    forall a {:trigger AccountOk(p, a)} :: AccountOk(p, a)
  }

  /** The price heap has an entry for every known transaction, except that
      those in `loose` may have been taken out. */
  ghost predicate Covers(prices: seq<Tx>, all: set<Tx>, loose: set<Tx>) {
    && Heap.Ordered(prices, PriceOf)
    && (forall tx :: tx in all && tx !in loose ==> tx in prices)
  }

  ghost predicate Inv(p: Pool, loose: set<Tx>) {
    ListsOk(p) && Covers(p.prices, p.all, loose)
  }

  /** An account's pending nonces are those from its nonce on the chain up to
      its nonce in the pending state. */
  ghost predicate NoncesAt(p: Pool, a: Address) {
    && p.chain.nonce(a) <= NextNonce(p, a)
    && (forall n: nat :: n in ItemsOf(p.pending, a) <==> p.chain.nonce(a) <= n < NextNonce(p, a))
  }

  ghost predicate NoncesOk(p: Pool) {
    forall a {:trigger NoncesAt(p, a)} :: NoncesAt(p, a)
  }

  // ----------------------------------------- changes to a single account

  /** Nothing but account `a` and the price heap differs. */
  ghost predicate OnlyAccount(p: Pool, q: Pool, a: Address) {
    && q.cfg == p.cfg && q.chain == p.chain && q.locals == p.locals && q.gasPrice == p.gasPrice
    && q.pending - {a} == p.pending - {a}
    && q.queue - {a} == p.queue - {a}
    && q.virtual - {a} == p.virtual - {a}
    && (forall tx: Tx :: tx.sender != a ==> (tx in q.all <==> tx in p.all))
  }

  lemma {:induction false} OnlyAccountTransitive(p: Pool, q: Pool, r: Pool, a: Address)
    requires OnlyAccount(p, q, a) && OnlyAccount(q, r, a)
    ensures OnlyAccount(p, r, a)
  {
  }

  lemma {:induction false} OtherAccount(p: Pool, q: Pool, a: Address, b: Address)
    requires OnlyAccount(p, q, a) && b != a
    ensures ItemsOf(q.pending, b) == ItemsOf(p.pending, b) && ItemsOf(q.queue, b) == ItemsOf(p.queue, b)
    ensures NextNonce(q, b) == NextNonce(p, b)
    ensures b in q.pending <==> b in p.pending
    ensures b in p.pending ==> q.pending[b] == p.pending[b]
    ensures b in q.queue <==> b in p.queue
    ensures b in p.queue ==> q.queue[b] == p.queue[b]
  {
    Elsewhere(p.pending, q.pending, a, b);
    Elsewhere(p.queue, q.queue, a, b);
    Elsewhere(p.virtual, q.virtual, a, b);
  }

  lemma {:induction false} Elsewhere<V>(m: map<Address, V>, w: map<Address, V>, a: Address, b: Address)
    requires w - {a} == m - {a} && b != a
    ensures b in w <==> b in m
    ensures b in m ==> w[b] == m[b]
  {
    assert b in m - {a} <==> b in m;
    assert b in w - {a} <==> b in w;
    if b in m {
      assert (m - {a})[b] == m[b];
      assert (w - {a})[b] == w[b];
    }
  }

  /** The account's transactions and next nonce are the same. */
  ghost predicate SameAccount(p: Pool, q: Pool, a: Address) {
    && ItemsOf(q.pending, a) == ItemsOf(p.pending, a) && ItemsOf(q.queue, a) == ItemsOf(p.queue, a)
    && NextNonce(q, a) == NextNonce(p, a)
  }

  /** A change to one account keeps the lists in order if that account is. */
  lemma {:induction false} ListsByAccount(p: Pool, q: Pool, a: Address)
    requires ListsOk(p) && OnlyAccount(p, q, a) && AccountOk(q, a)
    ensures ListsOk(q)
  {
    forall b
      ensures AccountOk(q, b)
    {
      if b != a {
        assert AccountOk(p, b);
        OtherAccount(p, q, a, b);
      }
    }
  }

  lemma {:induction false} NoncesByAccount(p: Pool, q: Pool, a: Address)
    requires NoncesOk(p) && OnlyAccount(p, q, a) && NoncesAt(q, a)
    ensures NoncesOk(q)
  {
    forall b
      ensures NoncesAt(q, b)
    {
      if b != a {
        assert NoncesAt(p, b);
        OtherAccount(p, q, a, b);
      }
    }
  }

  /** The transaction is in neither list of its sender. */
  ghost predicate Unlisted(p: Pool, tx: Tx) {
    !Holds(ItemsOf(p.pending, tx.sender), tx) && !Holds(ItemsOf(p.queue, tx.sender), tx)
  }

  /** Nothing new is listed, and a known transaction is forgotten exactly if it has
      left the lists. */
  ghost predicate TidyAt(p: Pool, q: Pool, tx: Tx) {
    && (Unlisted(p, tx) ==> Unlisted(q, tx))
    && (tx in q.all <==> tx in p.all && (Unlisted(q, tx) ==> Unlisted(p, tx)))
  }

  ghost predicate Tidy(p: Pool, q: Pool) {
    q.all <= p.all && forall tx {:trigger TidyAt(p, q, tx)} :: TidyAt(p, q, tx)
  }

  lemma {:induction false} TidySelf(p: Pool)
    ensures Tidy(p, p)
  {
    forall tx: Tx
      ensures TidyAt(p, p, tx)
    {
    }
  }

  lemma {:induction false} TidyTwice(p: Pool, r: Pool, q: Pool)
    requires Tidy(p, r) && Tidy(r, q)
    ensures Tidy(p, q)
  {
    forall tx
      ensures TidyAt(p, q, tx)
    {
      assert TidyAt(p, r, tx) && TidyAt(r, q, tx);
    }
  }

  lemma {:induction false} TidyByAccount(p: Pool, q: Pool, a: Address)
    requires OnlyAccount(p, q, a) && q.all <= p.all
    requires forall tx: Tx {:trigger TidyAt(p, q, tx)} :: tx.sender == a ==> TidyAt(p, q, tx)
    ensures Tidy(p, q)
  {
    forall tx: Tx
      ensures TidyAt(p, q, tx)
    {
      if tx.sender != a {
        OtherAccount(p, q, a, tx.sender);
      }
    }
  }

  /** The same transactions of the account are listed, and all are still known. */
  lemma {:induction false} TidyMove(p: Pool, q: Pool, a: Address)
    requires OnlyAccount(p, q, a) && q.all == p.all
    requires forall tx: Tx {:trigger Unlisted(q, tx)} :: tx.sender == a ==> (Unlisted(q, tx) <==> Unlisted(p, tx))
    ensures Tidy(p, q)
  {
    forall tx: Tx | tx.sender == a
      ensures TidyAt(p, q, tx)
    {
      assert Unlisted(q, tx) <==> Unlisted(p, tx);
    }
    TidyByAccount(p, q, a);
  }

  /** The lists have lost the transactions `gone`, which the pool forgets. */
  lemma {:induction false} TidyDrop(p: Pool, q: Pool, a: Address, gone: Items)
    requires ListsOk(p) && OnlyAccount(p, q, a) && q.all == p.all - gone.Values && Owned(gone, a, p.all)
    requires forall n: nat :: n in gone ==>
      n !in ItemsOf(q.pending, a) && n !in ItemsOf(q.queue, a)
      && (Holds(ItemsOf(p.pending, a), gone[n]) || Holds(ItemsOf(p.queue, a), gone[n]))
    requires forall tx: Tx {:trigger Unlisted(q, tx)} :: tx.sender == a && !Holds(gone, tx) ==>
      (Unlisted(q, tx) <==> Unlisted(p, tx))
    ensures Tidy(p, q)
  {
    forall tx: Tx | tx.sender == a
      ensures TidyAt(p, q, tx)
    {
      assert tx in gone.Values <==> Holds(gone, tx) by {
        if tx in gone.Values {
          var n: nat :| n in gone && gone[n] == tx;
          assert gone[n].nonce == n;
        }
      }
      assert !Holds(gone, tx) ==> (Unlisted(q, tx) <==> Unlisted(p, tx));
    }
    TidyByAccount(p, q, a);
  }

  /** After a tidy change every known transaction is in a list if it was before. */
  lemma {:induction false} TidyKeepsListed(p: Pool, q: Pool, tx: Tx)
    requires Tidy(p, q) && tx in q.all && Unlisted(q, tx)
    ensures tx in p.all && Unlisted(p, tx)
  {
    assert TidyAt(p, q, tx);
  }

  /** Forgetting transactions that are in no list keeps the lists in order. */
  lemma {:induction false} ForgetUnlisted(p: Pool, q: Pool, gone: set<Tx>)
    requires ListsOk(p)
    requires q.pending == p.pending && q.queue == p.queue && q.all == p.all - gone
    requires forall tx :: tx in gone ==> Unlisted(p, tx)
    ensures ListsOk(q)
  {
    forall a
      ensures AccountOk(q, a)
    {
      assert AccountOk(p, a);
      OwnedKept(ItemsOf(p.pending, a), a, p, gone);
      OwnedKept(ItemsOf(p.queue, a), a, p, gone);
    }
  }

  lemma {:induction false} OwnedKept(m: Items, a: Address, p: Pool, gone: set<Tx>)
    requires Owned(m, a, p.all) && (m == ItemsOf(p.pending, a) || m == ItemsOf(p.queue, a))
    requires forall tx :: tx in gone ==> Unlisted(p, tx)
    ensures Owned(m, a, p.all - gone)
  {
    forall n | n in m
      ensures m[n].nonce == n && m[n].sender == a && m[n] in p.all - gone
    {
      if m[n] in gone {
        assert Unlisted(p, m[n]);
        assert Holds(m, m[n]);
      }
    }
  }
}
