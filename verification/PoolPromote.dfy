/** promoteExecutables of core/tx_pool.go for one account. */
module PoolPromote {
  import opened TxSpec
  import opened PoolState
  import opened PoolMoves

  // ---------------------------------------------------- dropping from a list

  /** An account's queue shrinks to `rest`; the pool forgets what is dropped. */
  method ShrinkQueue(p: Pool, a: Address, rest: TxList, ghost loose: set<Tx>) returns (q: Pool)
    requires Inv(p, loose) && a in p.queue && Part(rest.items, p.queue[a].items) && !rest.strict && CapsBound(rest)
    ensures Inv(q, loose) && OnlyAccount(p, q, a)
    ensures q.queue == p.queue[a := rest] && q.pending == p.pending && q.virtual == p.virtual
    ensures q.all == p.all - (p.queue[a].items - rest.items.Keys).Values && Tidy(p, q)
    ensures NoncesOk(p) ==> NoncesOk(q)
  {
    var gone := (p.queue[a].items - rest.items.Keys).Values;
    q := ForgetAll(p.(queue := p.queue[a := rest]), gone, loose);
    ShrunkQueue(p, q, a, rest);
  }

  lemma {:induction false} ShrunkQueue(p: Pool, q: Pool, a: Address, rest: TxList)
    requires ListsOk(p) && a in p.queue && Part(rest.items, p.queue[a].items) && !rest.strict && CapsBound(rest)
    requires SameButPrices(p.(queue := p.queue[a := rest],
      all := p.all - (p.queue[a].items - rest.items.Keys).Values), q)
    ensures ListsOk(q) && OnlyAccount(p, q, a) && Tidy(p, q)
    ensures NoncesOk(p) ==> NoncesOk(q)
  {
    var m := p.queue[a].items;
    assert AccountOk(p, a);
    Only(p.queue, a, rest);
    Dropped(m, rest.items, a, p.all);
    DroppedElsewhere(m, rest.items, ItemsOf(p.pending, a), a, p.all);
    assert AccountOk(q, a);
    ListsByAccount(p, q, a);
    OwnedPart(m, m - rest.items.Keys, a, p.all);
    TidyDrop(p, q, a, m - rest.items.Keys);
    if NoncesOk(p) {
      assert NoncesAt(p, a);
      NoncesByAccount(p, q, a);
    }
  }

  /** Dropping the rest of a list leaves its kept part known. */
  lemma {:induction false} Dropped(m: Items, kept: Items, a: Address, all: set<Tx>)
    requires Owned(m, a, all) && Part(kept, m)
    ensures Owned(kept, a, all - (m - kept.Keys).Values)
    ensures forall tx :: tx in (m - kept.Keys).Values ==> tx.sender == a
  {
    var gone := m - kept.Keys;
    forall tx | tx in gone.Values
      ensures tx.sender == a && tx.nonce !in kept
    {
      var k: nat :| k in gone && gone[k] == tx;
      assert m[k] == tx;
    }
    forall n | n in kept
      ensures kept[n].nonce == n && kept[n].sender == a && kept[n] in all - gone.Values
    {
      assert kept[n] == m[n];
    }
  }

  lemma {:induction false} DroppedElsewhere(m: Items, kept: Items, w: Items, a: Address, all: set<Tx>)
    requires Owned(m, a, all) && Part(kept, m) && Owned(w, a, all) && m.Keys !! w.Keys
    ensures Owned(w, a, all - (m - kept.Keys).Values)
  {
    var gone := m - kept.Keys;
    assert forall k :: k in gone ==> gone[k] == m[k] && m[k].nonce == k;
    forall n | n in w
      ensures w[n].nonce == n && w[n].sender == a && w[n] in all - gone.Values
    {
    }
  }

  // ------------------------------------------------------------- promotion

  /** Of the transactions `ready` taken from the queue, those below `n` have
      been promoted. */
  ghost predicate PromotedSoFar(p: Pool, q: Pool, a: Address, ready: Items, n: nat) {
    && Loose(q, a, From(ready, n)) && OnlyAccount(p, q, a)
    && q.queue == p.queue && q.all == p.all
    && Grown(ItemsOf(p.pending, a), ItemsOf(q.pending, a), ready, n)
  }

  /** `w` is `m` with the transactions of `ready` below `n` put in. */
  ghost predicate GrownAt(m: Items, w: Items, ready: Items, n: nat, k: nat) {
    if k in ready && k < n then k in w && w[k] == ready[k]
    else (k in w <==> k in m) && (k in m ==> w[k] == m[k])
  }

  ghost predicate Grown(m: Items, w: Items, ready: Items, n: nat) {
    forall k: nat {:trigger GrownAt(m, w, ready, n, k)} :: GrownAt(m, w, ready, n, k)
  }

  /** The loop that promotes what Ready handed out. */
  method PromoteReady(p: Pool, a: Address, ready: Items, lo: nat, hi: nat, ghost loose: set<Tx>) returns (q: Pool)
    requires Inv(p, loose) && Loose(p, a, ready) && lo <= hi && Spans(ready, lo, hi)
    ensures Inv(q, loose) && PromotedSoFar(p, q, a, ready, hi)
    ensures lo < hi ==> NextNonce(q, a) == hi
    ensures NoncesOk(p) && lo == NextNonce(p, a) ==> NoncesOk(q)
  {
    q := p;
    var n: nat := lo;
    PromoteStart(p, a, ready, lo, hi);
    ghost var inOrder := NoncesOk(p) && lo == NextNonce(p, a);
    while n < hi
      invariant lo <= n <= hi && Inv(q, loose) && PromotedSoFar(p, q, a, ready, n)
      invariant inOrder ==> NoncesOk(q) && NextNonce(q, a) == n
      invariant lo < n ==> NextNonce(q, a) == n
    {
      SpansHas(ready, lo, hi, n);
      q := PromoteNext(p, q, a, ready, n, loose);
      n := n + 1;
    }
  }

  /** The map holds exactly the nonces lo, ..., hi - 1. */
  ghost predicate Spans(m: Items, lo: nat, hi: nat) {
    forall n: nat {:trigger n in m} :: n in m <==> lo <= n < hi
  }

  lemma {:induction false} SpansHas(m: Items, lo: nat, hi: nat, n: nat)
    requires Spans(m, lo, hi) && lo <= n < hi
    ensures n in m
  {
  }

  lemma {:induction false} PromoteStart(p: Pool, a: Address, ready: Items, lo: nat, hi: nat)
    requires Loose(p, a, ready) && Spans(ready, lo, hi)
    ensures PromotedSoFar(p, p, a, ready, lo)
  {
    assert From(ready, lo) == ready;
  }

  method PromoteNext(ghost p: Pool, r: Pool, a: Address, ready: Items, n: nat, ghost loose: set<Tx>) returns (q: Pool)
    requires n in ready && Inv(r, loose) && PromotedSoFar(p, r, a, ready, n)
    ensures Inv(q, loose) && PromotedSoFar(p, q, a, ready, n + 1)
    ensures NoncesOk(r) && NextNonce(r, a) == n ==> NoncesOk(q)
    ensures NextNonce(q, a) == n + 1
  {
    assert n in From(ready, n) && From(ready, n)[n] == ready[n];
    assert ready[n].nonce == n && ready[n].sender == a && ready[n] in r.all;
    q := PromoteTx(r, ready[n], loose);
    assert ItemsOf(q.pending, a) == ItemsOf(r.pending, a)[n := ready[n]];
    PromoteOne(p, r, q, a, ready, n);
    if NoncesOk(r) && NextNonce(r, a) == n {
      NoncesGrow(r, q, a, ready[n]);
    }
  }

  lemma {:induction false} PromoteOne(p: Pool, r: Pool, q: Pool, a: Address, ready: Items, n: nat)
    requires n in ready && PromotedSoFar(p, r, a, ready, n) && OnlyAccount(r, q, a)
    requires q.queue == r.queue && q.all == r.all
    requires ItemsOf(q.pending, a) == ItemsOf(r.pending, a)[n := ready[n]]
    ensures PromotedSoFar(p, q, a, ready, n + 1)
  {
    OnlyAccountTransitive(p, r, q, a);
    FromNext(ready, n);
    var m, v, w := ItemsOf(p.pending, a), ItemsOf(r.pending, a), ItemsOf(q.pending, a);
    var next := n + 1;
    forall k: nat
      ensures GrownAt(m, w, ready, next, k)
    {
      assert GrownAt(m, v, ready, n, k);
    }
    assert ItemsOf(q.pending, a).Keys == ItemsOf(r.pending, a).Keys + {n};
    OwnedPart(From(ready, n), From(ready, n + 1), a, r.all);
  }

  lemma {:induction false} FromNext(ready: Items, n: nat)
    ensures From(ready, n + 1).Keys == From(ready, n).Keys - {n}
    ensures Part(From(ready, n + 1), From(ready, n))
  {
  }

  lemma {:induction false} NoncesGrow(r: Pool, q: Pool, a: Address, tx: Tx)
    requires NoncesOk(r) && OnlyAccount(r, q, a) && NextNonce(r, a) == tx.nonce
    requires ItemsOf(q.pending, a) == ItemsOf(r.pending, a)[tx.nonce := tx]
    requires NextNonce(q, a) == tx.nonce + 1
    ensures NoncesOk(q)
  {
    assert NoncesAt(r, a);
    assert NoncesAt(q, a);
    NoncesByAccount(r, q, a);
  }

  /** Of an account's transactions those that are neither below its nonce on the
      chain nor beyond its balance or the block gas limit. */
  ghost function Affordable(p: Pool, a: Address, m: Items): Items {
    map n | n in m && p.chain.nonce(a) <= n && !TooCostly(m[n], p.chain.balance(a), p.chain.maxGas) :: m[n]
  }

  /** What promotion does to an account: the run of affordable queued
      transactions from the next nonce moves behind the pending ones, and the
      queue keeps the rest of the affordable ones, a remote account's lowest. */
  ghost predicate Promotion(p: Pool, q: Pool, a: Address) {
    PromotionVia(p, q, a, Affordable(p, a, ItemsOf(p.queue, a)))
  }

  /** promoteExecutables for one account: drops what is too old or too costly,
      promotes the run that has become executable, and cuts the queue of a
      remote account to its limit. */
  method PromoteAccount(p: Pool, a: Address, ghost loose: set<Tx>) returns (q: Pool)
    requires Inv(p, loose)
    ensures Inv(q, loose) && OnlyAccount(p, q, a) && Tidy(p, q)
    ensures NoncesOk(p) ==> NoncesOk(q)
    ensures Promotion(p, q, a)
  {
    if a !in p.queue {
      NothingPromoted(p, a);
      TidySelf(p);
      return p;
    }
    var kept := DropUnexecutable(p, a, loose);
    var run := PromoteRun(kept, a, loose);
    q := CutQueue(run, a, loose);
    OnlyAccountTransitive(p, kept, run, a);
    OnlyAccountTransitive(p, run, q, a);
    TidyTwice(p, kept, run);
    TidyTwice(p, run, q);
    PromotedVia(p, kept, run, q, a);
  }

  lemma {:induction false} PromotedVia(p: Pool, kept: Pool, run: Pool, q: Pool, a: Address)
    requires a in kept.queue && a in run.queue && run.locals == p.locals && run.cfg == p.cfg
    requires kept.pending == p.pending && NextNonce(kept, a) == NextNonce(p, a)
    requires kept.queue[a].items == Affordable(p, a, ItemsOf(p.queue, a))
    requires Ran(kept, run, a) && q.pending == run.pending && q.virtual == run.virtual && q.chain == run.chain
    requires ItemsOf(q.queue, a) == if a in run.locals then run.queue[a].items else Lower(run.queue[a].items,
      run.cfg.accountQueue)
    ensures Promotion(p, q, a)
  {
    assert PromotionVia(p, q, a, kept.queue[a].items);
  }

  /** The effect of PromoteRun. */
  ghost predicate Ran(p: Pool, q: Pool, a: Address)
    requires a in p.queue && a in q.queue
  {
    var ready := ReadyItems(p.queue[a].items, NextNonce(p, a));
    && q.queue[a].items == p.queue[a].items - ready.Keys
    && ItemsOf(q.pending, a) == ItemsOf(p.pending, a) + ready
    && NextNonce(q, a) == if ready == map[] then NextNonce(p, a) else RunEnd(p.queue[a].items, Lowest(p.queue[a].items))
  }

  /** Promotion, given what is affordable. */
  ghost predicate PromotionVia(p: Pool, q: Pool, a: Address, left: Items) {
    var ready := ReadyItems(left, NextNonce(p, a));
    var rest := left - ready.Keys;
    && ItemsOf(q.queue, a) == (if a in p.locals then rest else Lower(rest, p.cfg.accountQueue))
    && ItemsOf(q.pending, a) == ItemsOf(p.pending, a) + ready
    && NextNonce(q, a) == if ready == map[] then NextNonce(p, a) else RunEnd(left, Lowest(left))
  }

  /** The limit on a remote account's queue; an empty queue goes. */
  method CutQueue(p: Pool, a: Address, ghost loose: set<Tx>) returns (q: Pool)
    requires Inv(p, loose) && a in p.queue
    ensures Inv(q, loose) && OnlyAccount(p, q, a) && Tidy(p, q)
    ensures q.pending == p.pending && q.virtual == p.virtual
    ensures NoncesOk(p) ==> NoncesOk(q)
    ensures ItemsOf(q.queue, a) == if a in p.locals then p.queue[a].items else Lower(p.queue[a].items,
      p.cfg.accountQueue)
  {
    q := p;
    TidySelf(p);
    assert AccountOk(p, a);
    if a !in q.locals {
      LowerKeeps(q.queue[a].items, q.cfg.accountQueue);
      q := ShrinkQueue(q, a, Capped(q.queue[a], q.cfg.accountQueue), loose);
    }
    if q.queue[a].items == map[] {
      ghost var r := q;
      q := q.(queue := q.queue - {a});
      DropEmpty(r, q, a);
      OnlyAccountTransitive(p, r, q, a);
      TidyTwice(p, r, q);
    }
  }

  lemma {:induction false} NothingPromoted(p: Pool, a: Address)
    requires a !in p.queue
    ensures Promotion(p, p, a)
  {
    var left := Affordable(p, a, ItemsOf(p.queue, a));
    assert left == map[];
    var none: Items := map[];
    assert ItemsOf(p.pending, a) + none == ItemsOf(p.pending, a);
  }

  lemma {:induction false} DropEmpty(p: Pool, q: Pool, a: Address)
    requires ListsOk(p) && a in p.queue && p.queue[a].items == map[] && q == p.(queue := p.queue - {a})
    ensures ListsOk(q) && OnlyAccount(p, q, a) && Tidy(p, q)
    ensures NoncesOk(p) ==> NoncesOk(q)
  {
    assert q.queue - {a} == p.queue - {a};
    assert AccountOk(p, a);
    assert AccountOk(q, a);
    ListsByAccount(p, q, a);
    TidyMove(p, q, a);
    if NoncesOk(p) {
      assert NoncesAt(p, a);
      NoncesByAccount(p, q, a);
    }
  }

  /** Forward and Filter on the queue: what is affordable is left. */
  method DropUnexecutable(p: Pool, a: Address, ghost loose: set<Tx>) returns (q: Pool)
    requires Inv(p, loose) && a in p.queue
    ensures Inv(q, loose) && OnlyAccount(p, q, a) && Tidy(p, q)
    ensures a in q.queue && q.pending == p.pending && q.virtual == p.virtual
    ensures NoncesOk(p) ==> NoncesOk(q)
    ensures q.queue[a].items == Affordable(p, a, p.queue[a].items)
    ensures forall n :: n in q.queue[a].items ==> n >= p.chain.nonce(a)
  {
    assert AccountOk(p, a);
    q := ShrinkQueue(p, a, Forwarded(p.queue[a], p.chain.nonce(a)), loose);
    ghost var r := q;
    FilteredPart(q.queue[a], q.chain.balance(a), q.chain.maxGas);
    q := ShrinkQueue(q, a, Filtered(q.queue[a], q.chain.balance(a), q.chain.maxGas), loose);
    OnlyAccountTransitive(p, r, q, a);
    TidyTwice(p, r, q);
    AffordableIs(p, a);
  }

  lemma {:induction false} AffordableIs(p: Pool, a: Address)
    requires a in p.queue && CapsBound(p.queue[a]) && !p.queue[a].strict
    ensures Filtered(Forwarded(p.queue[a], p.chain.nonce(a)), p.chain.balance(a), p.chain.maxGas).items
         == Affordable(p, a, p.queue[a].items)
  {
    var l := Forwarded(p.queue[a], p.chain.nonce(a));
    FilterShortCircuit(l, p.chain.balance(a), p.chain.maxGas);
  }

  lemma {:induction false} FilteredPart(l: TxList, costLimit: int, gasLimit: int)
    requires CapsBound(l)
    ensures CapsBound(Filtered(l, costLimit, gasLimit))
    ensures Part(Filtered(l, costLimit, gasLimit).items, l.items)
    ensures Filtered(l, costLimit, gasLimit).strict == l.strict
  {
    FilterShortCircuit(l, costLimit, gasLimit);
  }

  /** Ready on the queue, and the promotion of what it hands out. */
  method PromoteRun(p: Pool, a: Address, ghost loose: set<Tx>) returns (q: Pool)
    requires Inv(p, loose) && a in p.queue
    requires forall n :: n in p.queue[a].items ==> n >= p.chain.nonce(a)
    ensures Inv(q, loose) && OnlyAccount(p, q, a) && q.all == p.all && a in q.queue && Tidy(p, q)
    ensures NoncesOk(p) ==> NoncesOk(q)
    ensures Ran(p, q, a)
  {
    var items := p.queue[a].items;
    var start := NextNonce(p, a);
    var ready := ReadyItems(items, start);
    ReadyIsRun(items, start);
    if ready == map[] {
      NothingMerged(ItemsOf(p.pending, a));
      NothingMerged(items);
      TidySelf(p);
      return p;
    }
    var lo, hi := Lowest(items), RunEnd(items, Lowest(items));
    assert Spans(ready, lo, hi);
    if NoncesOk(p) {
      RunStartsAtNext(p, a);
    }
    q := p.(queue := p.queue[a := Readied(p.queue[a], start)]);
    TakenFromQueue(p, q, a, ready);
    ghost var r := q;
    q := PromoteReady(q, a, ready, lo, hi, loose);
    OnlyAccountTransitive(p, r, q, a);
    GrownIs(ItemsOf(p.pending, a), ItemsOf(q.pending, a), ready, lo, hi);
    RanTidy(p, q, a);
  }

  lemma {:induction false} RanTidy(p: Pool, q: Pool, a: Address)
    requires AccountOk(p, a) && OnlyAccount(p, q, a) && q.all == p.all && a in p.queue && a in q.queue && Ran(p, q, a)
    ensures Tidy(p, q)
  {
    var m, w := ItemsOf(p.pending, a), p.queue[a].items;
    var ready := ReadyItems(w, NextNonce(p, a));
    ReadyIsRun(w, NextNonce(p, a));
    forall tx: Tx | tx.sender == a
      ensures Unlisted(q, tx) <==> Unlisted(p, tx)
    {
      MovedHolds(m, w, ready, tx);
    }
    TidyMove(p, q, a);
  }

  lemma {:induction false} MovedHolds(m: Items, w: Items, ready: Items, tx: Tx)
    requires m.Keys !! w.Keys && Part(ready, w)
    ensures Holds(m + ready, tx) || Holds(w - ready.Keys, tx) <==> Holds(m, tx) || Holds(w, tx)
  {
  }

  lemma {:induction false} NothingMerged(m: Items)
    ensures var none: Items := map[]; m + none == m && m - none.Keys == m
  {
  }

  lemma {:induction false} GrownIs(m: Items, w: Items, ready: Items, lo: nat, hi: nat)
    requires Grown(m, w, ready, hi) && Spans(ready, lo, hi)
    ensures w == m + ready
  {
    forall k: nat
      ensures k in w <==> k in m || k in ready
      ensures k in w ==> w[k] == (m + ready)[k]
    {
      assert GrownAt(m, w, ready, hi, k);
    }
    SameMap(w, m + ready);
  }

  /** With the pending nonces in order, what becomes executable continues them. */
  lemma {:induction false} RunStartsAtNext(p: Pool, a: Address)
    requires ListsOk(p) && NoncesOk(p) && a in p.queue && p.queue[a].items != map[]
    requires forall n :: n in p.queue[a].items ==> n >= p.chain.nonce(a)
    requires Lowest(p.queue[a].items) <= NextNonce(p, a)
    ensures Lowest(p.queue[a].items) == NextNonce(p, a)
  {
    var lo := Lowest(p.queue[a].items);
    assert AccountOk(p, a) && NoncesAt(p, a);
    assert lo in ItemsOf(p.queue, a);
    assert lo !in ItemsOf(p.pending, a);
  }

  lemma {:induction false} TakenFromQueue(p: Pool, q: Pool, a: Address, m: Items)
    requires ListsOk(p) && a in p.queue && Part(m, p.queue[a].items)
    requires q == p.(queue := p.queue[a := p.queue[a].(items := p.queue[a].items - m.Keys)])
    ensures ListsOk(q) && OnlyAccount(p, q, a) && Loose(q, a, m)
    ensures NoncesOk(p) ==> NoncesOk(q)
  {
    assert AccountOk(p, a);
    Only(p.queue, a, q.queue[a]);
    OwnedPart(p.queue[a].items, q.queue[a].items, a, p.all);
    OwnedPart(p.queue[a].items, m, a, p.all);
    assert AccountOk(q, a);
    ListsByAccount(p, q, a);
    if NoncesOk(p) {
      assert NoncesAt(p, a);
      NoncesByAccount(p, q, a);
    }
  }

  lemma {:induction false} OwnedPart(m: Items, part: Items, a: Address, all: set<Tx>)
    requires Owned(m, a, all) && Part(part, m)
    ensures Owned(part, a, all)
  {
    forall n | n in part
      ensures part[n].nonce == n && part[n].sender == a && part[n] in all
    {
      assert part[n] == m[n];
    }
  }
}
