/** demoteUnexecutables of core/tx_pool.go and the rebuilding of the pending
    nonces in reset. */
module PoolDemote {
  import opened TxSpec
  import opened PoolState
  import opened PoolMoves
  import opened PoolPromote

  /** An account's pending list shrinks to `rest`; what is in `back` returns to
      the queue, the pool forgets the others. */
  method ShrinkPending(p: Pool, a: Address, rest: TxList, back: Items, ghost loose: set<Tx>) returns (q: Pool)
    requires Inv(p, loose) && a in p.pending && rest.strict && CapsBound(rest)
    requires Part(rest.items, p.pending[a].items) && Part(back, p.pending[a].items) && rest.items.Keys !! back.Keys
    ensures Inv(q, loose) && OnlyAccount(p, q, a) && Tidy(p, q)
    ensures q.pending == p.pending[a := rest] && q.virtual == p.virtual
    ensures ItemsOf(q.queue, a) == ItemsOf(p.queue, a) + back
  {
    var m := p.pending[a].items;
    var gone := (m - rest.items.Keys - back.Keys).Values;
    q := ForgetAll(p.(pending := p.pending[a := rest]), gone, loose);
    ShrunkPending(p, q, a, rest, back);
    ghost var r := q;
    q := EnqueueAll(q, a, back, loose);
    OnlyAccountTransitive(p, r, q, a);
    NothingMerged(back);
    ShrunkTidy(p, q, a, m, rest.items, back);
  }

  lemma {:induction false} ShrunkTidy(p: Pool, q: Pool, a: Address, m: Items, rest: Items, back: Items)
    requires ListsOk(p) && OnlyAccount(p, q, a)
    requires m == ItemsOf(p.pending, a) && Part(rest, m) && Part(back, m) && rest.Keys !! back.Keys
    requires ItemsOf(q.pending, a) == rest && ItemsOf(q.queue, a) == ItemsOf(p.queue, a) + back
    requires q.all == p.all - (m - rest.Keys - back.Keys).Values
    ensures Tidy(p, q)
  {
    var w := ItemsOf(p.queue, a);
    var gone := m - rest.Keys - back.Keys;
    assert AccountOk(p, a);
    OwnedPart(m, gone, a, p.all);
    forall tx: Tx | tx.sender == a && !Holds(gone, tx)
      ensures Unlisted(q, tx) <==> Unlisted(p, tx)
    {
      assert Holds(m, tx) ==> Holds(rest, tx) || Holds(back, tx);
      assert Holds(w + back, tx) <==> Holds(w, tx) || Holds(back, tx);
    }
    forall n: nat | n in gone
      ensures n !in rest && n !in w + back && Holds(m, gone[n])
    {
      assert gone[n] == m[n] && m[n].nonce == n;
    }
    TidyDrop(p, q, a, gone);
  }

  lemma {:induction false} ShrunkPending(p: Pool, q: Pool, a: Address, rest: TxList, back: Items)
    requires ListsOk(p) && a in p.pending && rest.strict && CapsBound(rest)
    requires Part(rest.items, p.pending[a].items) && Part(back, p.pending[a].items) && rest.items.Keys !! back.Keys
    requires SameButPrices(p.(pending := p.pending[a := rest],
      all := p.all - (p.pending[a].items - rest.items.Keys - back.Keys).Values), q)
    ensures ListsOk(q) && OnlyAccount(p, q, a) && Loose(q, a, back)
  {
    var m := p.pending[a].items;
    var kept := rest.items + back;
    assert m - rest.items.Keys - back.Keys == m - kept.Keys;
    assert AccountOk(p, a);
    Only(p.pending, a, rest);
    Dropped(m, kept, a, p.all);
    OwnedPart(kept, rest.items, a, q.all);
    OwnedPart(kept, back, a, q.all);
    DroppedElsewhere(m, kept, ItemsOf(p.queue, a), a, p.all);
    assert AccountOk(q, a);
    ListsByAccount(p, q, a);
  }

  /** The pending nonces are without a gap and begin at `n`. */
  ghost predicate StartsAt(m: Items, n: nat) {
    Contiguous(m) && (m != map[] ==> Lowest(m) == n)
  }

  /** Nothing up to nonce `n` is too costly for the account. */
  ghost predicate AffordableUpTo(p: Pool, a: Address, m: Items, n: nat) {
    forall k {:trigger m[k]} :: k in m && k <= n ==> !TooCostly(m[k], p.chain.balance(a), p.chain.maxGas)
  }

  /** What stays executable: the transactions before the first one that is too
      costly. */
  ghost function Sound(p: Pool, a: Address, m: Items): Items {
    map n | n in m && AffordableUpTo(p, a, m, n) :: m[n]
  }

  /** What returns to the queue: affordable transactions behind one that is not. */
  ghost function Stranded(p: Pool, a: Address, m: Items): Items {
    map n | n in m && !AffordableUpTo(p, a, m, n) && !TooCostly(m[n], p.chain.balance(a), p.chain.maxGas) :: m[n]
  }

  /** What demotion does to an account: included transactions and those too
      costly go, and of the others the executable ones stay pending, provided
      that they begin at the account's nonce. */
  ghost predicate Demotion(p: Pool, q: Pool, a: Address) {
    DemotionVia(p, q, a, From(ItemsOf(p.pending, a), p.chain.nonce(a)))
  }

  ghost predicate DemotionVia(p: Pool, q: Pool, a: Address, m: Items) {
    var sound := Sound(p, a, m);
    var back := ItemsOf(p.queue, a) + Stranded(p, a, m);
    && ItemsOf(q.pending, a) == (if Gapped(p, a, sound) then map[] else sound)
    && ItemsOf(q.queue, a) == (if Gapped(p, a, sound) then back + sound else back)
    && NextNonce(q, a) == NextNonce(p, a)
  }

  /** The account's next transaction on the chain is missing in front. */
  predicate Gapped(p: Pool, a: Address, m: Items) {
    m != map[] && p.chain.nonce(a) !in m
  }

  /** After demotion every pending transaction is due and affordable. */
  lemma {:induction false} DemotedIsExecutable(p: Pool, q: Pool, a: Address, n: nat)
    requires Demotion(p, q, a) && n in ItemsOf(q.pending, a)
    ensures n >= p.chain.nonce(a) && p.chain.nonce(a) in ItemsOf(q.pending, a)
    ensures !TooCostly(ItemsOf(q.pending, a)[n], p.chain.balance(a), p.chain.maxGas)
  {
    var m := From(ItemsOf(p.pending, a), p.chain.nonce(a));
    assert AffordableUpTo(p, a, m, n) && m[n] == ItemsOf(q.pending, a)[n];
  }

  /** A transaction stays pending exactly if the account's nonce on the chain is
      pending and everything from there up to it is affordable. */
  lemma {:induction false} StaysPendingIff(p: Pool, q: Pool, a: Address, n: nat)
    requires Demotion(p, q, a)
    ensures var m, next := ItemsOf(p.pending, a), p.chain.nonce(a);
      n in ItemsOf(q.pending, a) <==>
        && next <= n && n in m && next in m
        && forall k :: k in m && next <= k <= n ==>
             m[k].cost <= p.chain.balance(a) && m[k].gas <= p.chain.maxGas
  {
    var m, next := ItemsOf(p.pending, a), p.chain.nonce(a);
    var later := From(m, next);
    assert forall k: nat :: k in later <==> k in m && next <= k;
    assert DemotionVia(p, q, a, later);
    assert AffordableUpTo(p, a, later, n) <==> forall k :: k in m && next <= k <= n ==>
      !TooCostly(m[k], p.chain.balance(a), p.chain.maxGas);
    assert next <= n && AffordableUpTo(p, a, later, n) ==> AffordableUpTo(p, a, later, next);
  }

  /** demoteUnexecutables for one account: drops what is included or too costly
      and returns what these drops invalidate to the queue; if then a gap is in
      front, everything returns to the queue. */
  method DemoteAccount(p: Pool, a: Address, ghost loose: set<Tx>) returns (q: Pool)
    requires Inv(p, loose) && a in p.pending
    ensures Inv(q, loose) && OnlyAccount(p, q, a) && Tidy(p, q) && q.virtual == p.virtual
    ensures Contiguous(p.pending[a].items) ==> StartsAt(ItemsOf(q.pending, a), p.chain.nonce(a))
    ensures a in q.pending ==> q.pending[a].items != map[]
    ensures Demotion(p, q, a)
  {
    var nonce := p.chain.nonce(a);
    assert AccountOk(p, a);
    var later := ShrinkPending(p, a, Forwarded(p.pending[a], nonce), map[], loose);
    if Contiguous(p.pending[a].items) {
      ForwardContiguous(p.pending[a], nonce);
    }
    var kept := FilterPending(later, a, loose);
    OnlyAccountTransitive(p, later, kept, a);
    TidyTwice(p, later, kept);
    q := PostponeGapped(kept, a, loose);
    OnlyAccountTransitive(p, kept, q, a);
    TidyTwice(p, kept, q);
    DemotedVia(p, later, kept, q, a);
    if Contiguous(p.pending[a].items) {
      StartsWithoutGap(p, a, kept.pending[a].items);
    }
  }

  lemma {:induction false} StartsWithoutGap(p: Pool, a: Address, m: Items)
    requires Contiguous(m) && forall n :: n in m ==> p.chain.nonce(a) <= n
    ensures StartsAt(if Gapped(p, a, m) then map[] else m, p.chain.nonce(a))
  {
    if m != map[] {
      assert Lowest(m) in m;
    }
  }

  lemma {:induction false} DemotedVia(p: Pool, later: Pool, kept: Pool, q: Pool, a: Address)
    requires a in p.pending && a in later.pending && a in kept.pending
    requires later.chain == kept.chain == p.chain
    requires later.pending[a].items == From(p.pending[a].items, p.chain.nonce(a))
    requires ItemsOf(later.queue, a) == ItemsOf(p.queue, a) + map[]
    requires kept.pending[a].items == Sound(later, a, later.pending[a].items)
    requires ItemsOf(kept.queue, a) == ItemsOf(later.queue, a) + Stranded(later, a, later.pending[a].items)
    requires ItemsOf(q.pending, a) == if Gapped(kept, a, kept.pending[a].items) then map[] else kept.pending[a].items
    requires ItemsOf(q.queue, a) == if Gapped(kept, a, kept.pending[a].items)
                                    then ItemsOf(kept.queue, a) + kept.pending[a].items else ItemsOf(kept.queue, a)
    requires NextNonce(q, a) == NextNonce(p, a)
    ensures Demotion(p, q, a)
  {
    var m := later.pending[a].items;
    SameChain(p, later, a, m);
    NothingMerged(ItemsOf(p.queue, a));
    assert DemotionVia(p, q, a, m);
  }

  lemma {:induction false} SameChain(p: Pool, q: Pool, a: Address, m: Items)
    requires q.chain == p.chain
    ensures Sound(q, a, m) == Sound(p, a, m) && Stranded(q, a, m) == Stranded(p, a, m)
  {
    assert forall n :: AffordableUpTo(p, a, m, n) <==> AffordableUpTo(q, a, m, n);
  }

  /** A list with a gap in front returns to the queue; an empty list goes. */
  method PostponeGapped(p: Pool, a: Address, ghost loose: set<Tx>) returns (q: Pool)
    requires Inv(p, loose) && a in p.pending
    ensures Inv(q, loose) && OnlyAccount(p, q, a) && Tidy(p, q) && q.virtual == p.virtual
    ensures a in q.pending ==> q.pending[a].items != map[]
    ensures ItemsOf(q.pending, a) == if Gapped(p, a, p.pending[a].items) then map[] else p.pending[a].items
    ensures ItemsOf(q.queue, a) == if Gapped(p, a, p.pending[a].items)
                                   then ItemsOf(p.queue, a) + p.pending[a].items else ItemsOf(p.queue, a)
  {
    if |p.pending[a].items| > 0 && p.chain.nonce(a) !in p.pending[a].items {
      q := PostponeAll(p, a, loose);
    } else {
      q := DropIfEmpty(p, a, loose);
    }
  }

  /** Everything pending returns to the queue. */
  method PostponeAll(p: Pool, a: Address, ghost loose: set<Tx>) returns (q: Pool)
    requires Inv(p, loose) && a in p.pending
    ensures Inv(q, loose) && OnlyAccount(p, q, a) && Tidy(p, q) && q.virtual == p.virtual
    ensures a !in q.pending && ItemsOf(q.queue, a) == ItemsOf(p.queue, a) + p.pending[a].items
  {
    assert AccountOk(p, a);
    var r := ShrinkPending(p, a, p.pending[a].(items := map[]), p.pending[a].items, loose);
    q := DropIfEmpty(r, a, loose);
    OnlyAccountTransitive(p, r, q, a);
    TidyTwice(p, r, q);
  }

  method DropIfEmpty(p: Pool, a: Address, ghost loose: set<Tx>) returns (q: Pool)
    requires Inv(p, loose) && a in p.pending
    ensures Inv(q, loose) && OnlyAccount(p, q, a) && Tidy(p, q) && q.virtual == p.virtual && q.queue == p.queue
    ensures ItemsOf(q.pending, a) == p.pending[a].items && (a in q.pending ==> p.pending[a].items != map[])
  {
    q := p;
    TidySelf(p);
    if q.pending[a].items == map[] {
      q := q.(pending := q.pending - {a});
      DropEmptyPending(p, q, a);
    }
  }

  /** Filter on the pending list. */
  method FilterPending(p: Pool, a: Address, ghost loose: set<Tx>) returns (q: Pool)
    requires Inv(p, loose) && a in p.pending
    ensures Inv(q, loose) && OnlyAccount(p, q, a) && Tidy(p, q) && q.virtual == p.virtual
    ensures a in q.pending && q.pending[a].items == Sound(p, a, p.pending[a].items)
    ensures ItemsOf(q.queue, a) == ItemsOf(p.queue, a) + Stranded(p, a, p.pending[a].items)
    ensures Contiguous(p.pending[a].items) ==> Contiguous(q.pending[a].items)
  {
    var list, limit, gas := p.pending[a], p.chain.balance(a), p.chain.maxGas;
    assert AccountOk(p, a);
    FilteredParts(list, limit, gas);
    SoundIs(p, a);
    q := ShrinkPending(p, a, Filtered(list, limit, gas), FilterInvalids(list, limit, gas), loose);
    if Contiguous(list.items) {
      StaysContiguous(list, OpFilter(limit, gas));
    }
  }

  /** Up to `n` everything is affordable exactly below the first costly nonce. */
  lemma {:induction false} AffordableIff(p: Pool, a: Address, m: Items, n: nat)
    requires n in m
    ensures var costly := Costly(m, p.chain.balance(a), p.chain.maxGas);
      AffordableUpTo(p, a, m, n) <==> costly == map[] || n < Lowest(costly)
  {
    var costly := Costly(m, p.chain.balance(a), p.chain.maxGas);
    assert forall k :: k in m && TooCostly(m[k], p.chain.balance(a), p.chain.maxGas) ==>
      k in costly && Lowest(costly) <= k;
    assert costly != map[] ==> Lowest(costly) in m && costly[Lowest(costly)] == m[Lowest(costly)];
  }

  lemma {:induction false} SoundAt(p: Pool, a: Address, l: TxList, n: nat)
    requires l.strict && CapsBound(l)
    ensures n in Filtered(l, p.chain.balance(a), p.chain.maxGas).items <==>
      n in l.items && AffordableUpTo(p, a, l.items, n)
    ensures n in FilterInvalids(l, p.chain.balance(a), p.chain.maxGas) <==>
      n in l.items && !AffordableUpTo(p, a, l.items, n) && !TooCostly(l.items[n], p.chain.balance(a), p.chain.maxGas)
  {
    var costly := Costly(l.items, p.chain.balance(a), p.chain.maxGas);
    FilterShortCircuit(l, p.chain.balance(a), p.chain.maxGas);
    if n in l.items {
      AffordableIff(p, a, l.items, n);
      assert n in costly ==> Lowest(costly) <= n;
      assert n in costly <==> TooCostly(l.items[n], p.chain.balance(a), p.chain.maxGas);
      assert costly != map[] && n == Lowest(costly) ==> n in costly;
    }
  }

  lemma {:induction false} SameParts(x: Items, y: Items, m: Items)
    requires Part(x, m) && Part(y, m) && forall n: nat :: n in x <==> n in y
    ensures x == y
  {
    SameMap(x, y);
  }

  lemma {:induction false} SoundIs(p: Pool, a: Address)
    requires a in p.pending && p.pending[a].strict && CapsBound(p.pending[a])
    ensures Filtered(p.pending[a], p.chain.balance(a), p.chain.maxGas).items == Sound(p, a, p.pending[a].items)
    ensures FilterInvalids(p.pending[a], p.chain.balance(a), p.chain.maxGas) == Stranded(p, a, p.pending[a].items)
  {
    var l, limit, gas := p.pending[a], p.chain.balance(a), p.chain.maxGas;
    var kept, invalids := Filtered(l, limit, gas).items, FilterInvalids(l, limit, gas);
    FilteredParts(l, limit, gas);
    var sound, stranded := Sound(p, a, l.items), Stranded(p, a, l.items);
    forall n: nat
      ensures (n in kept <==> n in sound) && (n in invalids <==> n in stranded)
    {
      SoundAt(p, a, l, n);
    }
    SameParts(kept, sound, l.items);
    SameParts(invalids, stranded, l.items);
  }

  lemma {:induction false} FilteredParts(l: TxList, costLimit: int, gasLimit: int)
    requires CapsBound(l)
    ensures CapsBound(Filtered(l, costLimit, gasLimit))
    ensures Part(Filtered(l, costLimit, gasLimit).items, l.items)
    ensures Part(FilterInvalids(l, costLimit, gasLimit), l.items)
    ensures Filtered(l, costLimit, gasLimit).items.Keys !! FilterInvalids(l, costLimit, gasLimit).Keys
    ensures Filtered(l, costLimit, gasLimit).strict == l.strict
  {
    FilterShortCircuit(l, costLimit, gasLimit);
  }

  lemma {:induction false} ForwardContiguous(l: TxList, n: nat)
    requires Contiguous(l.items)
    ensures Contiguous(Forwarded(l, n).items)
    ensures forall k :: k in Forwarded(l, n).items ==> n <= k
  {
  }

  lemma {:induction false} DropEmptyPending(p: Pool, q: Pool, a: Address)
    requires ListsOk(p) && a in p.pending && p.pending[a].items == map[] && q == p.(pending := p.pending - {a})
    ensures ListsOk(q) && OnlyAccount(p, q, a) && Tidy(p, q)
  {
    assert q.pending - {a} == p.pending - {a};
    assert AccountOk(p, a);
    assert AccountOk(q, a);
    ListsByAccount(p, q, a);
    TidyMove(p, q, a);
  }

  /** Whether the pending list of `a` has been demoted against the chain. */
  ghost predicate DemotedAt(p: Pool, a: Address) {
    StartsAt(ItemsOf(p.pending, a), p.chain.nonce(a))
  }

  ghost predicate ContiguousAt(p: Pool, a: Address) {
    Contiguous(ItemsOf(p.pending, a))
  }

  /** Accounts still in `todo` are as before, the others are demoted. */
  ghost predicate DemotedSoFarAt(p: Pool, q: Pool, todo: set<Address>, a: Address) {
    && (if a in todo then SameAccount(p, q, a) && a in q.pending else Demotion(p, q, a))
    && (a !in todo && ContiguousAt(p, a) ==> DemotedAt(q, a))
  }

  ghost predicate DemotedSoFar(p: Pool, q: Pool, todo: set<Address>) {
    Tidy(p, q) && forall a {:trigger DemotedSoFarAt(p, q, todo, a)} :: DemotedSoFarAt(p, q, todo, a)
  }

  /** demoteUnexecutables, over the accounts in any order. */
  method DemoteUnexecutables(p: Pool, ghost loose: set<Tx>) returns (q: Pool)
    requires Inv(p, loose)
    ensures Inv(q, loose) && q.virtual == p.virtual && q == p.(pending := q.pending,
      queue := q.queue, all := q.all, prices := q.prices, stales := q.stales)
    ensures DemotedSoFar(p, q, {})
  {
    q := p;
    var todo := p.pending.Keys;
    DemoteStarts(p);
    while todo != {}
      invariant Inv(q, loose) && q.virtual == p.virtual
      invariant q == p.(pending := q.pending, queue := q.queue, all := q.all, prices := q.prices, stales := q.stales)
      invariant DemotedSoFar(p, q, todo)
    {
      ghost var w := Pick(todo);
      var a: Address :| a in todo;
      ghost var r := q;
      assert DemotedSoFarAt(p, q, todo, a);
      q := DemoteAccount(q, a, loose);
      DemoteNext(p, r, q, a, todo);
      todo := todo - {a};
    }
  }

  lemma {:induction false} DemoteStarts(p: Pool)
    ensures DemotedSoFar(p, p, p.pending.Keys)
  {
    TidySelf(p);
    forall a
      ensures DemotedSoFarAt(p, p, p.pending.Keys, a)
    {
      if a !in p.pending {
        var m := From(ItemsOf(p.pending, a), p.chain.nonce(a));
        assert m == map[] && Sound(p, a, m) == map[] && Stranded(p, a, m) == map[];
        NothingMerged(ItemsOf(p.queue, a));
      }
    }
  }

  lemma {:induction false} DemoteNext(p: Pool, r: Pool, q: Pool, a: Address, todo: set<Address>)
    requires DemotedSoFar(p, r, todo) && OnlyAccount(r, q, a) && a in todo && r.chain == p.chain
    requires Demotion(r, q, a) && (ContiguousAt(r, a) ==> DemotedAt(q, a)) && Tidy(r, q)
    ensures DemotedSoFar(p, q, todo - {a})
  {
    TidyTwice(p, r, q);
    forall b
      ensures DemotedSoFarAt(p, q, todo - {a}, b)
    {
      assert DemotedSoFarAt(p, r, todo, b);
      if b != a {
        OtherAccount(r, q, a, b);
      } else {
        SameChain(p, r, a, From(ItemsOf(p.pending, a), p.chain.nonce(a)));
      }
    }
  }

  /** What the pending state answers once its nonces are rebuilt. */
  ghost predicate RebuiltNonce(p: Pool, q: Pool, a: Address) {
    NextNonce(q, a) == if ItemsOf(p.pending, a) == map[] then NextNonce(p, a) else Highest(ItemsOf(p.pending, a)) + 1
  }

  /** The loop of reset that sets every account's next nonce after its last
      pending transaction. */
  method RebuildNonces(p: Pool) returns (q: Pool)
    ensures q == p.(virtual := q.virtual)
    ensures forall a {:trigger RebuiltNonce(p, q, a)} :: RebuiltNonce(p, q, a)
    ensures p.virtual == map[] && (forall a {:trigger DemotedAt(p, a)} :: DemotedAt(p, a)) ==> NoncesOk(q)
  {
    q := p;
    var todo := p.pending.Keys;
    while todo != {}
      invariant todo <= p.pending.Keys && q == p.(virtual := q.virtual)
      invariant forall a: Address {:trigger a in q.virtual} ::
        if a in p.pending && a !in todo && p.pending[a].items != map[]
        then a in q.virtual && q.virtual[a] == Highest(p.pending[a].items) + 1
        else (a in q.virtual <==> a in p.virtual) && (a in p.virtual ==> q.virtual[a] == p.virtual[a])
    {
      ghost var w := Pick(todo);
      var a: Address :| a in todo;
      todo := todo - {a};
      var items := p.pending[a].items;
      if |items| > 0 {
        q := q.(virtual := q.virtual[a := Highest(items) + 1]);
      }
    }
    forall a
      ensures RebuiltNonce(p, q, a)
    {
      assert a in q.virtual || a !in q.virtual;
    }
    if p.virtual == map[] && forall a {:trigger DemotedAt(p, a)} :: DemotedAt(p, a) {
      forall a
        ensures NoncesAt(q, a)
      {
        assert DemotedAt(p, a);
        RebuiltAt(p, q, a);
      }
    }
  }

  lemma {:induction false} RebuiltAt(p: Pool, q: Pool, a: Address)
    requires q == p.(virtual := q.virtual) && DemotedAt(p, a)
    requires if ItemsOf(p.pending, a) != map[] then a in q.virtual && q.virtual[a] == Highest(ItemsOf(p.pending, a)) + 1
             else a !in q.virtual
    ensures NoncesAt(q, a)
  {
    var m := ItemsOf(p.pending, a);
    if m != map[] {
      forall n: nat
        ensures n in m <==> p.chain.nonce(a) <= n < NextNonce(q, a)
      {
        assert Lowest(m) in m && Highest(m) in m;
      }
    }
  }
}
