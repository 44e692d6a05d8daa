/** The public operations of core/tx_pool.go, and what holds over every run of
    them. */
module TxPool {
  import opened Options
  import opened TxSpec
  import opened PoolState
  import opened PoolMoves
  import opened PoolPromote
  import opened PoolLimits
  import opened PoolDemote
  import PriceHeap

  datatype Error =
    | Unprotected | ChiefUpdate | Known | Oversized | NegativeValue | GasLimit | Underpriced
    | NonceTooLow | InsufficientFunds | IntrinsicGas | ReplaceUnderpriced

  const MAX_TX_BYTES := 32 * 1024

  /** validateTx. */
  function Validate(p: Pool, tx: Tx, local: bool): Option<Error> {
    if tx.bytes > MAX_TX_BYTES then Some(Oversized)
    else if tx.value < 0 then Some(NegativeValue)
    else if p.chain.maxGas < tx.gas then Some(GasLimit)
    else if !(local || tx.sender in p.locals) && p.gasPrice > tx.price then Some(Underpriced)
    else if p.chain.nonce(tx.sender) > tx.nonce then Some(NonceTooLow)
    else if p.chain.balance(tx.sender) < tx.cost then Some(InsufficientFunds)
    else if tx.gas < tx.intrinsic then Some(IntrinsicGas)
    else None
  }

  /** The checks of add that need no look at the lists. */
  function Precheck(p: Pool, tx: Tx, local: bool): Option<Error> {
    if !tx.protected then Some(Unprotected)
    else if tx.chiefUpdate then Some(ChiefUpdate)
    else if tx in p.all then Some(Known)
    else Validate(p, tx, local)
  }

  /** What a transaction must be like, whatever the pool. */
  predicate Admissible(tx: Tx) {
    tx.protected && !tx.chiefUpdate && tx.bytes <= 32768 && 0 <= tx.value && tx.intrinsic <= tx.gas
  }

  /** It is due or later, affordable and fits into a block at the pool's head. */
  ghost predicate Executable(p: Pool, tx: Tx) {
    tx.nonce >= p.chain.nonce(tx.sender) && tx.cost <= p.chain.balance(tx.sender) && tx.gas <= p.chain.maxGas
  }

  /** It pays the pool's price, or its sender is local. */
  ghost predicate PaidFor(p: Pool, tx: Tx) {
    tx.sender in p.locals || tx.price >= p.gasPrice
  }

  /** A new transaction passes the checks exactly if it is admissible, executable
      and paid for. */
  lemma {:induction false} PrecheckIff(p: Pool, tx: Tx, local: bool)
    ensures Precheck(p, tx, local).None? <==>
      tx !in p.all && Admissible(tx) && Executable(p, tx) && (local || PaidFor(p, tx))
  {
  }

  /** The defect that an answer names. */
  ghost predicate Defect(p: Pool, tx: Tx, local: bool, e: Error) {
    match e
    case Unprotected => !tx.protected
    case ChiefUpdate => tx.chiefUpdate
    case Known => tx in p.all
    case Oversized => tx.bytes > 32768
    case NegativeValue => tx.value < 0
    case GasLimit => tx.gas > p.chain.maxGas
    case Underpriced => !local && tx.sender !in p.locals && tx.price < p.gasPrice
    case NonceTooLow => tx.nonce < p.chain.nonce(tx.sender)
    case InsufficientFunds => tx.cost > p.chain.balance(tx.sender)
    case IntrinsicGas => tx.gas < tx.intrinsic
    case ReplaceUnderpriced => false
  }

  lemma {:induction false} RefusedForDefect(p: Pool, tx: Tx, local: bool)
    requires Precheck(p, tx, local).Some?
    ensures Defect(p, tx, local, Precheck(p, tx, local).value)
  {
  }

  /** Every known transaction is admissible and paid for. */
  ghost predicate KnownOk(p: Pool) {
    forall tx {:trigger tx in p.all} :: tx in p.all ==> Admissible(tx) && PaidFor(p, tx)
  }

  lemma {:induction false} KnownBelow(p: Pool, q: Pool)
    requires KnownOk(p) && q.all <= p.all && p.locals <= q.locals && q.gasPrice == p.gasPrice
    ensures KnownOk(q)
  {
    forall tx | tx in q.all
      ensures Admissible(tx) && PaidFor(q, tx)
    {
      assert tx in p.all;
    }
  }

  // ---------------------------------------------------------- bulk removal

  /** The pools that a sequence of removals goes through. */
  ghost predicate RemovalRun(states: seq<Pool>, drop: seq<Tx>) {
    && |states| == |drop| + 1
    && forall i {:trigger RemovedAt(states, drop, i)} :: 0 <= i < |drop| ==> RemovedAt(states, drop, i)
  }

  ghost predicate RemovedAt(states: seq<Pool>, drop: seq<Tx>, i: nat)
    requires |states| == |drop| + 1 && i < |drop|
  {
    RemovedOne(states[i], drop[i], states[i + 1])
  }

  /** What removing some transactions does, one after the other. */
  ghost predicate RemovedEach(p: Pool, drop: seq<Tx>, q: Pool) {
    exists states {:trigger RemovalRun(states, drop)} ::
      RemovalRun(states, drop) && SameButPrices(p, states[0]) && states[|drop|] == q
  }

  lemma {:induction false} RemovalNext(states: seq<Pool>, drop: seq<Tx>, tx: Tx, q: Pool)
    requires RemovalRun(states, drop) && RemovedOne(states[|drop|], tx, q)
    ensures RemovalRun(states + [q], drop + [tx])
  {
    var s, d := states + [q], drop + [tx];
    forall i | 0 <= i < |d|
      ensures RemovedAt(s, d, i)
    {
      if i < |drop| {
        assert RemovedAt(states, drop, i);
      }
    }
  }

  /** removeTx for each of the dropped transactions: afterwards the price heap
      covers the pool again. */
  method RemoveAll(p: Pool, drop: seq<Tx>) returns (q: Pool)
    requires Inv(p, set t | t in drop)
    ensures Inv(q, {}) && SameSetting(p, q) && q.all == p.all - (set t | t in drop)
    ensures RemovedEach(p, drop, q)
    ensures NoncesOk(p) ==> NoncesOk(q)
  {
    q := p;
    ghost var loose := set t | t in drop;
    ghost var states := [p];
    for k := 0 to |drop|
      invariant Inv(q, loose) && SameSetting(p, q)
      invariant q.all == p.all - (set t | t in drop[..k])
      invariant RemovalRun(states, drop[..k]) && states[0] == p && states[k] == q
      invariant NoncesOk(p) ==> NoncesOk(q)
    {
      q := RemoveTx(q, drop[k], loose);
      assert drop[..k + 1] == drop[..k] + [drop[k]];
      RemovalNext(states, drop[..k], drop[k], q);
      states := states + [q];
    }
    assert drop[..|drop|] == drop;
  }

  /** Accounts that lose no transaction are as before. */
  lemma {:induction false} OthersKept(p: Pool, drop: seq<Tx>, q: Pool, a: Address)
    requires RemovedEach(p, drop, q) && forall t :: t in drop ==> t.sender != a
    ensures SameAccount(p, q, a)
  {
    var states: seq<Pool> :| RemovalRun(states, drop) && SameButPrices(p, states[0]) && states[|drop|] == q;
    var i := 0;
    while i < |drop|
      invariant 0 <= i <= |drop| && SameAccount(p, states[i], a)
    {
      assert RemovedAt(states, drop, i) && drop[i] in drop;
      if drop[i] in states[i].all {
        OtherAccount(states[i], states[i + 1], drop[i].sender, a);
      }
      i := i + 1;
    }
  }

  // ------------------------------------------------------------- capacity

  function Capacity(p: Pool): nat { p.cfg.globalSlots + p.cfg.globalQueue }

  predicate Full(p: Pool) { |p.all| >= p.cfg.globalSlots + p.cfg.globalQueue }

  /** A full pool has nothing cheaper than this remote transaction. */
  ghost predicate Outpriced(p: Pool, tx: Tx) {
    Full(p) && tx.sender !in p.locals && p.all != {} && forall t :: t in p.all ==> tx.price <= t.price
  }

  /** As many of the cheapest remote transactions as are too many with one more,
      or all remote ones. */
  ghost predicate CheapestRemote(p: Pool, drop: seq<Tx>) {
    && |drop| <= |p.all| - Capacity(p) + 1
    && (forall t :: t in drop ==> t in p.all && t.sender !in p.locals)
    && (forall d, t :: d in drop && t in p.all && t !in drop && t.sender !in p.locals ==> d.price <= t.price)
    && (|drop| < |p.all| - Capacity(p) + 1 ==> forall t :: t in p.all && t.sender !in p.locals ==> t in drop)
  }

  /** `q` is `p` with room for one more: a full pool has lost its cheapest remote
      transactions. */
  ghost predicate RoomMade(p: Pool, q: Pool) {
    if !Full(p) then q == p
    else exists drop {:trigger CheapestRemote(p, drop)} ::
      && CheapestRemote(p, drop) && RemovedEach(p, drop, q)
      && SameSetting(p, q) && q.all == p.all - (set t | t in drop)
  }

  /** Something goes unless everything known is local, and a pool that is just
      full has room afterwards. */
  lemma {:induction false} RoomIsMade(p: Pool, q: Pool)
    requires RoomMade(p, q) && Full(p) && exists t :: t in p.all && t.sender !in p.locals
    ensures |q.all| < |p.all| && (|p.all| == Capacity(p) ==> |q.all| < Capacity(p))
  {
    var drop :| CheapestRemote(p, drop) && RemovedEach(p, drop, q) && SameSetting(p, q)
      && q.all == p.all - (set t | t in drop);
    var t :| t in p.all && t.sender !in p.locals;
    assert drop != [] by {
      assert t in drop || |drop| > 0;
    }
    assert drop[0] in p.all && drop[0] !in q.all;
    Smaller(q.all, p.all, drop[0]);
  }

  lemma {:induction false} Smaller<T>(small: set<T>, big: set<T>, x: T)
    requires small <= big && x in big && x !in small
    ensures |small| < |big|
  {
    NoLarger(small, big - {x});
  }

  lemma {:induction false} NoLarger<T>(small: set<T>, big: set<T>)
    requires small <= big
    ensures |small| <= |big|
  {
    assert big == small + (big - small);
  }

  /** A pool without local accounts that holds no more than its capacity. */
  ghost predicate Bounded(p: Pool) {
    p.locals == {} && 0 < Capacity(p) && |p.all| <= p.cfg.globalSlots + p.cfg.globalQueue
  }

  lemma {:induction false} BoundedBelow(p: Pool, q: Pool)
    requires Bounded(p) && q.all <= p.all && q.cfg == p.cfg && q.locals == p.locals
    ensures Bounded(q)
  {
    NoLarger(q.all, p.all);
  }

  /** When the pool is full, the cheapest remote transactions make room, or the
      new one is refused as underpriced. */
  method MakeRoom(p: Pool, tx: Tx) returns (q: Pool, err: Option<Error>)
    requires Inv(p, {}) && tx !in p.all
    ensures Inv(q, {}) && SameSetting(p, q) && q.all <= p.all
    ensures NoncesOk(p) ==> NoncesOk(q)
    ensures err == if Outpriced(p, tx) then Some(Underpriced) else None
    ensures if err.Some? then SameButPrices(p, q) else RoomMade(p, q)
  {
    q, err := p, None;
    if |p.all| >= p.cfg.globalSlots + p.cfg.globalQueue {
      var under, prices, stales := PriceHeap.Underpriced(p.all, p.prices, p.stales, tx, p.locals);
      q := p.(prices := prices, stales := stales);
      SameLists(p, q);
      if under {
        err := Some(Underpriced);
        return;
      }
      q := DiscardCheapest(p, q);
    }
  }

  /** The part of add that makes room in a full pool. */
  method DiscardCheapest(ghost p: Pool, r: Pool) returns (q: Pool)
    requires Inv(r, {}) && SameButPrices(p, r) && Full(p)
    ensures Inv(q, {}) && SameSetting(p, q) && q.all <= p.all
    ensures NoncesOk(r) ==> NoncesOk(q)
    ensures RoomMade(p, q)
  {
    var drop, prices, stales := PriceHeap.Discard(r.all, r.prices, r.stales,
      |r.all| - (r.cfg.globalSlots + r.cfg.globalQueue - 1), r.locals);
    var s := r.(prices := prices, stales := stales);
    SameLists(r, s);
    q := RemoveAll(s, drop);
    RemovedFrom(p, s, drop, q);
    assert CheapestRemote(p, drop);
  }

  lemma {:induction false} RemovedFrom(p: Pool, r: Pool, drop: seq<Tx>, q: Pool)
    requires SameButPrices(p, r) && RemovedEach(r, drop, q)
    ensures RemovedEach(p, drop, q)
  {
    var states: seq<Pool> :| RemovalRun(states, drop) && SameButPrices(r, states[0]) && states[|drop|] == q;
    assert SameButPrices(p, states[0]);
  }

  lemma {:induction false} SameLists(p: Pool, q: Pool)
    requires ListsOk(p) && SameButPrices(p, q)
    ensures ListsOk(q) && (NoncesOk(p) ==> NoncesOk(q))
  {
    forall a
      ensures AccountOk(q, a) && (NoncesOk(p) ==> NoncesAt(q, a))
    {
      assert AccountOk(p, a);
      if NoncesOk(p) {
        assert NoncesAt(p, a);
      }
    }
  }

  // ------------------------------------------------------------------- add

  /** The branch of add for a nonce that is pending already. */
  method ReplacePending(p: Pool, tx: Tx) returns (q: Pool, ok: bool)
    requires Inv(p, {}) && tx !in p.all && tx.sender in p.pending && tx.nonce in p.pending[tx.sender].items
    ensures Inv(q, {}) && SameSetting(p, q) && (NoncesOk(p) ==> NoncesOk(q))
    ensures ok <==> Accepts(p.pending[tx.sender], tx, p.cfg.priceBump)
    ensures !ok ==> q == p
    ensures ok ==>
      && q.pending == p.pending[tx.sender := Added(p.pending[tx.sender], tx)] && q.queue == p.queue
      && q.virtual == p.virtual
      && q.all == p.all - {p.pending[tx.sender].items[tx.nonce]} + {tx}
  {
    var a := tx.sender;
    var list := p.pending[a];
    if !Accepts(list, tx, p.cfg.priceBump) {
      return p, false;
    }
    q := Forget(p.(pending := p.pending[a := Added(list, tx)]), list.items[tx.nonce], {});
    var prices := PriceHeap.Put(q.prices, tx, q.all, {});
    q := q.(all := q.all + {tx}, prices := prices);
    ok := true;
    ReplacedOk(p, q, tx);
  }

  lemma {:induction false} ReplacedOk(p: Pool, q: Pool, tx: Tx)
    requires ListsOk(p) && tx.sender in p.pending && tx.nonce in p.pending[tx.sender].items
    requires q == p.(pending := p.pending[tx.sender := Added(p.pending[tx.sender], tx)],
                     all := q.all, prices := q.prices, stales := q.stales)
    requires PutIn(p, q, p.pending[tx.sender], tx)
    ensures ListsOk(q) && (NoncesOk(p) ==> NoncesOk(q))
  {
    var a := tx.sender;
    var list := p.pending[a];
    assert AccountOk(p, a);
    Only(p.pending, a, Added(list, tx));
    assert list.items[tx.nonce].sender == a;
    OwnedAdded(list.items, a, p.all, tx);
    OwnedOthers(ItemsOf(p.queue, a), list.items, a, p.all, tx);
    assert ItemsOf(q.pending, a).Keys == list.items.Keys;
    assert AccountOk(q, a);
    ListsByAccount(p, q, a);
    if NoncesOk(p) {
      assert NoncesAt(p, a);
      assert NoncesAt(q, a);
      NoncesByAccount(p, q, a);
    }
  }

  /** What add does with a transaction once there is room: it replaces a pending
      one with its nonce or goes to the queue, if the list there accepts it. */
  ghost predicate PlacedTx(r: Pool, tx: Tx, local: bool, q: Pool, replace: bool, err: Option<Error>) {
    var a := tx.sender;
    if tx.nonce in ItemsOf(r.pending, a) then
      if Accepts(r.pending[a], tx, r.cfg.priceBump) then
        && err == None && replace && q.locals == r.locals && q.queue == r.queue && q.virtual == r.virtual
        && q.pending == r.pending[a := Added(r.pending[a], tx)]
        && q.all == r.all - {r.pending[a].items[tx.nonce]} + {tx}
      else err == Some(ReplaceUnderpriced) && !replace && q == r
    else
      var list := ListOr(r.queue, a, false);
      if Accepts(list, tx, r.cfg.priceBump) then
        && err == None && (replace <==> tx.nonce in list.items)
        && q.locals == (if local then r.locals + {a} else r.locals) && q.pending == r.pending && q.virtual == r.virtual
        && q.queue == r.queue[a := Added(list, tx)] && PutIn(r, q, list, tx)
      else err == Some(ReplaceUnderpriced) && !replace && q == r
  }

  /** What add does. */
  ghost predicate AddedOne(p: Pool, tx: Tx, local: bool, q: Pool, replace: bool, err: Option<Error>) {
    if Precheck(p, tx, local).Some? then q == p && !replace && err == Precheck(p, tx, local)
    else if Outpriced(p, tx) then SameButPrices(p, q) && !replace && err == Some(Underpriced)
    else exists r {:trigger RoomMade(p, r)} :: RoomMade(p, r) && PlacedTx(r, tx, local, q, replace, err)
  }

  /** add: a checked transaction replaces a pending one with its nonce or goes
      to the queue. */
  method Add(p: Pool, tx: Tx, local: bool) returns (q: Pool, replace: bool, err: Option<Error>)
    requires Inv(p, {})
    ensures Inv(q, {}) && q.cfg == p.cfg && q.chain == p.chain && q.gasPrice == p.gasPrice && p.locals <= q.locals
    ensures NoncesOk(p) ==> NoncesOk(q)
    ensures AddedOne(p, tx, local, q, replace, err)
    ensures err.None? ==> tx !in p.all && Admissible(tx) && Executable(p, tx) && (local || PaidFor(p, tx))
    ensures Bounded(p) && !local ==> Bounded(q)
    ensures KnownOk(p) ==> KnownOk(q)
  {
    replace := false;
    err := Precheck(p, tx, local);
    if err.Some? {
      return p, false, err;
    }
    PrecheckIff(p, tx, local);
    var r;
    r, err := MakeRoom(p, tx);
    if err.Some? {
      return r, false, err;
    }
    q, replace, err := Place(r, tx, local);
    if Bounded(p) && !local {
      AddBounded(p, tx, r, q, replace, err);
    }
    if KnownOk(p) {
      KnownBelow(p, r);
      PlacedKnownOk(r, tx, local, q, replace, err);
    }
  }

  /** The new transaction is paid for: a local one makes its sender local, unless it
      replaces a pending one, which it then outbids. */
  lemma {:induction false} PlacedKnownOk(r: Pool, tx: Tx, local: bool, q: Pool, replace: bool, err: Option<Error>)
    requires ListsOk(r) && KnownOk(r) && PlacedTx(r, tx, local, q, replace, err)
    requires Admissible(tx) && (local || PaidFor(r, tx)) && q.gasPrice == r.gasPrice
    ensures KnownOk(q)
  {
    var a := tx.sender;
    assert AccountOk(r, a);
    if tx.nonce in ItemsOf(r.pending, a) {
      var before := r.pending[a].items[tx.nonce];
      assert before in r.all && before.sender == a;
    }
    forall t | t in q.all
      ensures Admissible(t) && PaidFor(q, t)
    {
      assert t in r.all || t == tx;
    }
  }

  /** With room made, one more transaction keeps a pool of remote transactions
      within its capacity. */
  lemma {:induction false} AddBounded(p: Pool, tx: Tx, r: Pool, q: Pool, replace: bool, err: Option<Error>)
    requires Bounded(p) && RoomMade(p, r) && PlacedTx(r, tx, false, q, replace, err) && q.cfg == r.cfg
    ensures Bounded(q)
  {
    assert r.locals == {} && r.cfg == p.cfg && |r.all| < Capacity(p) by {
      if Full(p) {
        assert p.all != {};
        var t :| t in p.all;
        RoomIsMade(p, r);
      }
    }
    assert q.all <= r.all + {tx};
    NoLarger(q.all, r.all + {tx});
  }

  /** The part of add after room is made. */
  method Place(r: Pool, tx: Tx, local: bool) returns (q: Pool, replace: bool, err: Option<Error>)
    requires Inv(r, {}) && tx !in r.all
    ensures Inv(q, {}) && q.cfg == r.cfg && q.chain == r.chain && q.gasPrice == r.gasPrice && r.locals <= q.locals
    ensures NoncesOk(r) ==> NoncesOk(q)
    ensures PlacedTx(r, tx, local, q, replace, err)
  {
    var a := tx.sender;
    var ok;
    if a in r.pending && tx.nonce in r.pending[a].items {
      q, ok := ReplacePending(r, tx);
      replace := ok;
      err := if ok then None else Some(ReplaceUnderpriced);
      return;
    }
    q, replace, ok := EnqueueTx(r, tx, {});
    if NoncesOk(r) {
      assert NoncesAt(r, a);
      NoncesByAccount(r, q, a);
    }
    if !ok {
      return q, false, Some(ReplaceUnderpriced);
    }
    err := None;
    if local {
      ghost var before := q;
      q := q.(locals := q.locals + {a});
      LocalsOk(before, q);
    }
  }

  /** An accepted transaction is known and listed at its nonce. */
  lemma {:induction false} AddedIsListed(p: Pool, tx: Tx, local: bool, q: Pool, replace: bool)
    requires AddedOne(p, tx, local, q, replace, None)
    ensures tx in q.all
    ensures Holds(ItemsOf(q.pending, tx.sender), tx) || Holds(ItemsOf(q.queue, tx.sender), tx)
  {
    var r :| RoomMade(p, r) && PlacedTx(r, tx, local, q, replace, None);
  }

  /** The pool knows the first two transactions of one account, both pending. */
  ghost predicate TwoPending(p: Pool, first: Tx, second: Tx) {
    var a := first.sender;
    && second.sender == a && first.nonce == p.chain.nonce(a) && second.nonce == first.nonce + 1
    && p.all == {first, second} && p.prices == [first, second] && first.price <= second.price
    && p.queue == map[] && p.pending.Keys == {a} && p.virtual == map[a := second.nonce + 1]
    && p.pending[a].strict && CapsBound(p.pending[a])
    && p.pending[a].items == map[first.nonce := first, second.nonce := second]
  }

  lemma {:induction false} TwoPendingOk(p: Pool, first: Tx, second: Tx)
    requires TwoPending(p, first, second)
    ensures Inv(p, {}) && NoncesOk(p) && AllListed(p)
  {
    forall a
      ensures AccountOk(p, a) && NoncesAt(p, a)
    {
    }
    assert p.prices[0] == first && p.prices[1] == second;
    assert Holds(p.pending[first.sender].items, first) && Holds(p.pending[first.sender].items, second);
  }

  /** If the first is removed, the second stays known, is in no list and cannot be
      added again. */
  lemma {:induction false} StrandedInput(p: Pool, first: Tx, second: Tx, q: Pool, local: bool, q': Pool, replace: bool,
                                         err: Option<Error>)
    requires TwoPending(p, first, second)
    requires RemovedOne(p, first, q) && AddedOne(q, second, local, q', replace, err)
    ensures Inv(p, {}) && NoncesOk(p) && AllListed(p)
    ensures second in q.all && Unlisted(q, second) && q' == q && err.Some?
  {
    TwoPendingOk(p, first, second);
    var m := p.pending[first.sender].items;
    assert Holds(From(m, first.nonce + 1), second);
    StrandedAre(p, first, q, second);
  }

  lemma {:induction false} LocalsOk(p: Pool, q: Pool)
    requires ListsOk(p) && q == p.(locals := q.locals, gasPrice := q.gasPrice)
    ensures ListsOk(q) && (NoncesOk(p) ==> NoncesOk(q))
  {
    forall a
      ensures AccountOk(q, a) && (NoncesOk(p) ==> NoncesAt(q, a))
    {
      assert AccountOk(p, a);
      if NoncesOk(p) {
        assert NoncesAt(p, a);
      }
    }
  }

  // -------------------------------------------------------- pool operations

  /** What follows a successful addition: promotion for the sender. */
  ghost predicate AddedTx(p: Pool, tx: Tx, local: bool, q: Pool, err: Option<Error>) {
    exists r, replace {:trigger AddedOne(p, tx, local, r, replace, err)} ::
      && AddedOne(p, tx, local, r, replace, err)
      && if err.None? && !replace then Executed(r, q, {tx.sender}) else q == r
  }

  /** addTx: add, then promotion for the sender. */
  method AddTx(p: Pool, tx: Tx, local: bool) returns (q: Pool, err: Option<Error>)
    requires Inv(p, {})
    ensures Inv(q, {}) && q.cfg == p.cfg && q.chain == p.chain
    ensures NoncesOk(p) ==> NoncesOk(q)
    ensures AddedTx(p, tx, local, q, err)
    ensures Bounded(p) && !local ==> Bounded(q)
    ensures KnownOk(p) ==> KnownOk(q)
  {
    var r, replace;
    r, replace, err := Add(p, tx, local);
    q := r;
    if err.None? && !replace {
      var beats: Address -> int := *;
      q := PromoteExecutables(r, {tx.sender}, beats, {});
      if Bounded(r) {
        BoundedBelow(r, q);
      }
      if KnownOk(r) {
        KnownBelow(r, q);
      }
    }
  }

  /** The senders of the transactions that were added without replacing one. */
  ghost function Touched(txs: seq<Tx>, replaced: seq<bool>, errs: seq<Option<Error>>): set<Address>
    requires |txs| == |replaced| == |errs|
  {
    set i | 0 <= i < |txs| && errs[i].None? && !replaced[i] :: txs[i].sender
  }

  /** The pools that a batch goes through, one addition after the other. */
  ghost predicate BatchRun(states: seq<Pool>, txs: seq<Tx>, local: bool, replaced: seq<bool>,
                           errs: seq<Option<Error>>) {
    && |states| == |txs| + 1 && |replaced| == |errs| == |txs|
    && forall i {:trigger AddedAt(states, txs, local, replaced, errs, i)} ::
         0 <= i < |txs| ==> AddedAt(states, txs, local, replaced, errs, i)
  }

  ghost predicate AddedAt(states: seq<Pool>, txs: seq<Tx>, local: bool, replaced: seq<bool>, errs: seq<Option<Error>>,
                          i: nat)
    requires |states| == |txs| + 1 && |replaced| == |errs| == |txs| && i < |txs|
  {
    AddedOne(states[i], txs[i], local, states[i + 1], replaced[i], errs[i])
  }

  /** What adding a batch does: each transaction in turn, then one promotion for
      the touched senders. */
  ghost predicate AddedBatch(p: Pool, txs: seq<Tx>, local: bool, q: Pool, errs: seq<Option<Error>>) {
    exists states, replaced {:trigger BatchRun(states, txs, local, replaced, errs)} ::
      && BatchRun(states, txs, local, replaced, errs) && states[0] == p
      && var touched := Touched(txs, replaced, errs);
         if touched == {} then q == states[|txs|] else Executed(states[|txs|], q, touched)
  }

  lemma {:induction false} BatchNext(states: seq<Pool>, txs: seq<Tx>, local: bool, replaced: seq<bool>,
                                     errs: seq<Option<Error>>,
                                    tx: Tx, q: Pool, replace: bool, err: Option<Error>)
    requires BatchRun(states, txs, local, replaced, errs) && AddedOne(states[|txs|], tx, local, q, replace, err)
    ensures BatchRun(states + [q], txs + [tx], local, replaced + [replace], errs + [err])
    ensures Touched(txs + [tx], replaced + [replace], errs + [err])
         == Touched(txs, replaced, errs) + (if err.None? && !replace then {tx.sender} else {})
  {
    var s, ts, rs, es := states + [q], txs + [tx], replaced + [replace], errs + [err];
    forall i | 0 <= i < |ts|
      ensures AddedAt(s, ts, local, rs, es, i)
    {
      if i < |txs| {
        assert AddedAt(states, txs, local, replaced, errs, i);
      }
    }
    TouchedNext(txs, replaced, errs, tx, replace, err);
  }

  lemma {:induction false} TouchedNext(txs: seq<Tx>, replaced: seq<bool>, errs: seq<Option<Error>>, tx: Tx,
                                       replace: bool, err: Option<Error>)
    requires |txs| == |replaced| == |errs|
    ensures Touched(txs + [tx], replaced + [replace], errs + [err])
         == Touched(txs, replaced, errs) + (if err.None? && !replace then {tx.sender} else {})
  {
    var n := |txs|;
    var ts, rs, es := txs + [tx], replaced + [replace], errs + [err];
    assert ts[n] == tx && rs[n] == replace && es[n] == err;
    assert forall i :: 0 <= i < n ==> ts[i] == txs[i] && rs[i] == replaced[i] && es[i] == errs[i];
    forall a
      ensures a in Touched(ts, rs, es) <==>
        a in Touched(txs, replaced, errs) || (err.None? && !replace && a == tx.sender)
    {
      if a in Touched(txs, replaced, errs) {
        var i :| 0 <= i < n && errs[i].None? && !replaced[i] && txs[i].sender == a;
        assert es[i].None? && !rs[i] && ts[i].sender == a;
      }
    }
  }

  /** addTxsLocked: adds a batch, then one promotion for the touched senders. */
  method AddTxs(p: Pool, txs: seq<Tx>, local: bool) returns (q: Pool, errs: seq<Option<Error>>)
    requires Inv(p, {})
    ensures Inv(q, {}) && q.cfg == p.cfg && q.chain == p.chain && |errs| == |txs|
    ensures NoncesOk(p) ==> NoncesOk(q)
    ensures AddedBatch(p, txs, local, q, errs)
    ensures Bounded(p) && !local ==> Bounded(q)
    ensures KnownOk(p) ==> KnownOk(q)
  {
    var r, dirty;
    ghost var states, replaced;
    r, errs, dirty, states, replaced := AddEach(p, txs, local);
    q := r;
    if dirty != {} {
      var beats: Address -> int := *;
      q := PromoteExecutables(r, dirty, beats, {});
      if Bounded(r) {
        BoundedBelow(r, q);
      }
      if KnownOk(r) {
        KnownBelow(r, q);
      }
    }
    BatchDone(p, txs, local, q, errs, states, replaced);
  }

  lemma {:induction false} BatchDone(p: Pool, txs: seq<Tx>, local: bool, q: Pool, errs: seq<Option<Error>>,
                                     states: seq<Pool>, replaced: seq<bool>)
    requires BatchRun(states, txs, local, replaced, errs) && states[0] == p
    requires if Touched(txs, replaced, errs) == {} then q == states[|txs|]
             else Executed(states[|txs|], q, Touched(txs, replaced, errs))
    ensures AddedBatch(p, txs, local, q, errs)
  {
  }

  /** The loop of addTxsLocked. */
  method AddEach(p: Pool, txs: seq<Tx>, local: bool)
    returns (q: Pool, errs: seq<Option<Error>>, dirty: set<Address>, ghost states: seq<Pool>, ghost replaced: seq<bool>)
    requires Inv(p, {})
    ensures Inv(q, {}) && q.cfg == p.cfg && q.chain == p.chain && |errs| == |txs|
    ensures NoncesOk(p) ==> NoncesOk(q)
    ensures BatchRun(states, txs, local, replaced, errs) && states[0] == p && states[|txs|] == q
    ensures dirty == Touched(txs, replaced, errs)
    ensures Bounded(p) && !local ==> Bounded(q)
    ensures KnownOk(p) ==> KnownOk(q)
  {
    q, errs, dirty, states, replaced := p, [], {}, [p], [];
    assert BatchSoFar(p, q, txs[..0], local, states, replaced, errs, dirty);
    for i := 0 to |txs|
      invariant Inv(q, {}) && q.cfg == p.cfg && q.chain == p.chain
      invariant NoncesOk(p) ==> NoncesOk(q)
      invariant BatchSoFar(p, q, txs[..i], local, states, replaced, errs, dirty)
      invariant Bounded(p) && !local ==> Bounded(q)
      invariant KnownOk(p) ==> KnownOk(q)
    {
      var r, replace, err := Add(q, txs[i], local);
      var touched := if err.None? && !replace then dirty + {txs[i].sender} else dirty;
      BatchSoFarNext(p, q, txs, i, local, states, replaced, errs, dirty, r, replace, err, touched);
      q, dirty, states, replaced, errs := r, touched, states + [r], replaced + [replace], errs + [err];
    }
    assert txs[..|txs|] == txs;
  }

  /** The batch up to here, its pools and the touched senders. */
  ghost predicate BatchSoFar(p: Pool, q: Pool, txs: seq<Tx>, local: bool, states: seq<Pool>, replaced: seq<bool>,
                             errs: seq<Option<Error>>, dirty: set<Address>) {
    && BatchRun(states, txs, local, replaced, errs) && states[0] == p && states[|txs|] == q
    && dirty == Touched(txs, replaced, errs)
  }

  lemma {:induction false} BatchSoFarNext(p: Pool, q: Pool, txs: seq<Tx>, i: nat, local: bool, states: seq<Pool>,
                                          replaced: seq<bool>, errs: seq<Option<Error>>, dirty: set<Address>,
                                          r: Pool, replace: bool, err: Option<Error>, touched: set<Address>)
    requires i < |txs| && BatchSoFar(p, q, txs[..i], local, states, replaced, errs, dirty)
    requires AddedOne(q, txs[i], local, r, replace, err)
    requires touched == if err.None? && !replace then dirty + {txs[i].sender} else dirty
    ensures BatchSoFar(p, r, txs[..i + 1], local, states + [r], replaced + [replace], errs + [err], touched)
  {
    BatchNext(states, txs[..i], local, replaced, errs, txs[i], r, replace, err);
    assert txs[..i + 1] == txs[..i] + [txs[i]];
  }

  lemma {:induction false} EmptyBatch(p: Pool, q: Pool, errs: seq<Option<Error>>)
    requires AddedBatch(p, [], false, q, errs)
    ensures q == p
  {
    var none: seq<Tx> := [];
    var states, replaced :| BatchRun(states, none, false, replaced, errs) && states[0] == p
      && (Touched(none, replaced, errs) == {} ==> q == states[0]);
    assert Touched(none, replaced, errs) == {};
  }

  lemma {:induction false} NoncesContiguous(p: Pool, a: Address)
    requires NoncesOk(p)
    ensures ContiguousAt(p, a)
  {
    assert NoncesAt(p, a);
  }

  /** What a reset does: the reinjected transactions are added on the new head,
      every account is demoted, the pending nonces are rebuilt, and everything
      queued is promoted. */
  ghost predicate ResetTo(p: Pool, chain: Chain, reinject: seq<Tx>, q: Pool) {
    exists added: Pool, errs: seq<Option<Error>>, demoted: Pool, rebuilt: Pool
      {:trigger AddedBatch(p.(chain := chain, virtual := map[]), reinject, false, added, errs),
                DemotedSoFar(added, demoted, {}), Executed(rebuilt, q, rebuilt.queue.Keys)} ::
      && AddedBatch(p.(chain := chain, virtual := map[]), reinject, false, added, errs)
      && DemotedSoFar(added, demoted, {})
      && rebuilt == demoted.(virtual := rebuilt.virtual)
      && (forall a {:trigger RebuiltNonce(demoted, rebuilt, a)} :: RebuiltNonce(demoted, rebuilt, a))
      && Executed(rebuilt, q, rebuilt.queue.Keys)
  }

  /** reset: moves the pool to a new head, with the transactions of abandoned
      blocks reinjected.  If nothing is reinjected, every account's pending
      nonces are in order again, whatever its new nonce and balance. */
  method Reset(p: Pool, chain: Chain, reinject: seq<Tx>) returns (q: Pool)
    requires Inv(p, {})
    ensures Inv(q, {}) && q.cfg == p.cfg && q.chain == chain
    ensures PendingBounded(q) && QueueBounded(q)
    ensures reinject == [] && NoncesOk(p) ==> NoncesOk(q)
    ensures ResetTo(p, chain, reinject, q)
    ensures Bounded(p) ==> Bounded(q)
    ensures KnownOk(p) ==> KnownOk(q)
    ensures reinject == [] && AllListed(p) ==> AllListed(q)
  {
    var moved := p.(chain := chain, virtual := map[]);
    NewHead(p, moved);
    var added, errs := AddTxs(moved, reinject, false);
    var demoted := DemoteUnexecutables(added, {});
    var rebuilt := RebuildNonces(demoted);
    NewHead(demoted, rebuilt);
    if reinject == [] && NoncesOk(p) {
      EmptyBatch(moved, added, errs);
      AllDemoted(added, demoted);
    }
    var beats: Address -> int := *;
    q := PromoteExecutables(rebuilt, rebuilt.queue.Keys, beats, {});
    if Bounded(p) {
      BoundedBelow(added, q);
    }
    if KnownOk(p) {
      assert KnownOk(moved);
      KnownBelow(added, q);
    }
    if reinject == [] && AllListed(p) {
      EmptyBatch(moved, added, errs);
      ResetListed(p, added, demoted, rebuilt, q);
    }
  }

  lemma {:induction false} ResetListed(p: Pool, added: Pool, demoted: Pool, rebuilt: Pool, q: Pool)
    requires AllListed(p) && added.pending == p.pending && added.queue == p.queue && added.all == p.all
    requires Tidy(added, demoted) && rebuilt == demoted.(virtual := rebuilt.virtual) && Tidy(rebuilt, q)
    ensures AllListed(q)
  {
    forall tx | tx in q.all
      ensures !Unlisted(q, tx)
    {
      if Unlisted(q, tx) {
        TidyKeepsListed(rebuilt, q, tx);
        assert Unlisted(demoted, tx);
        TidyKeepsListed(added, demoted, tx);
        assert Unlisted(p, tx);
      }
    }
  }

  lemma {:induction false} AllDemoted(p: Pool, q: Pool)
    requires DemotedSoFar(p, q, {}) && forall a {:trigger ContiguousAt(p, a)} :: ContiguousAt(p, a)
    ensures forall a {:trigger DemotedAt(q, a)} :: DemotedAt(q, a)
  {
    forall a
      ensures DemotedAt(q, a)
    {
      assert DemotedSoFarAt(p, q, {}, a) && ContiguousAt(p, a);
    }
  }

  lemma {:induction false} NewHead(p: Pool, q: Pool)
    requires ListsOk(p) && q == p.(chain := q.chain, virtual := q.virtual)
    ensures ListsOk(q)
    ensures NoncesOk(p) ==> forall a {:trigger ContiguousAt(q, a)} :: ContiguousAt(q, a)
  {
    forall a
      ensures AccountOk(q, a) && (NoncesOk(p) ==> ContiguousAt(q, a))
    {
      assert AccountOk(p, a);
      if NoncesOk(p) {
        NoncesContiguous(p, a);
      }
    }
  }

  /** SetGasPrice: no remote transaction below the new price stays known. */
  method SetGasPrice(p: Pool, price: int) returns (q: Pool)
    requires Inv(p, {})
    ensures Inv(q, {}) && q.cfg == p.cfg && q.chain == p.chain && q.locals == p.locals && q.gasPrice == price
    ensures Repriced(p, price, q)
    ensures NoncesOk(p) ==> NoncesOk(q)
    ensures KnownOk(p) ==> KnownOk(q)
  {
    var moved := p.(gasPrice := price);
    LocalsOk(p, moved);
    var drop, prices, stales := PriceHeap.Cap(moved.all, moved.prices, moved.stales, price, moved.locals);
    var r := moved.(prices := prices, stales := stales);
    SameLists(moved, r);
    q := RemoveAll(r, drop);
    RemovedFrom(moved, r, drop, q);
    assert Underpaid(p, price, drop);
  }

  /** The known remote transactions below the price. */
  ghost predicate Underpaid(p: Pool, price: int, drop: seq<Tx>) {
    forall t :: t in drop <==> t in p.all && t.sender !in p.locals && t.price < price
  }

  /** What a new price does: exactly the remote transactions below it are removed,
      one after the other. */
  ghost predicate Repriced(p: Pool, price: int, q: Pool) {
    && q.all == (set t | t in p.all && (t.sender in p.locals || t.price >= price))
    && exists drop {:trigger Underpaid(p, price, drop)} ::
         Underpaid(p, price, drop) && RemovedEach(p.(gasPrice := price), drop, q)
  }

  /** The eviction tick: remote accounts that have been idle too long lose their
      queues. */
  method Evict(p: Pool, idle: set<Address>) returns (q: Pool)
    requires Inv(p, {})
    ensures Inv(q, {}) && SameSetting(p, q) && q.pending == p.pending && q.virtual == p.virtual && Tidy(p, q)
    ensures NoncesOk(p) ==> NoncesOk(q)
    ensures Evicted(p, q, idle)
  {
    q := p;
    TidySelf(p);
    var todo := idle;
    assert forall a :: EvictedAt(p, p, {}, a);
    while todo != {}
      invariant Inv(q, {}) && SameSetting(p, q) && q.pending == p.pending && q.virtual == p.virtual && Tidy(p, q)
      invariant todo <= idle && Evicted(p, q, idle - todo)
      invariant NoncesOk(p) ==> NoncesOk(q)
    {
      ghost var w := Pick(todo);
      var a: Address :| a in todo;
      ghost var r, before := q, idle - todo;
      if a in q.queue && a !in q.locals {
        q := DropHighestQueued(q, a, |q.queue[a].items|, {});
        assert ItemsOf(q.queue, a).Keys == {};
        TidyTwice(p, r, q);
      }
      EvictedNext(p, r, q, before, a);
      todo := todo - {a};
      assert idle - todo == before + {a};
    }
    assert idle - todo == idle;
  }

  /** An idle remote account has an empty queue, any other the one it had. */
  ghost predicate EvictedAt(p: Pool, q: Pool, idle: set<Address>, a: Address) {
    ItemsOf(q.queue, a) == if a in idle && a !in p.locals then map[] else ItemsOf(p.queue, a)
  }

  ghost predicate Evicted(p: Pool, q: Pool, idle: set<Address>) {
    forall a {:trigger EvictedAt(p, q, idle, a)} :: EvictedAt(p, q, idle, a)
  }

  lemma {:induction false} EvictedNext(p: Pool, r: Pool, q: Pool, idle: set<Address>, a: Address)
    requires Evicted(p, r, idle) && r.locals == p.locals && (q == r || OnlyAccount(r, q, a))
    requires if a in r.queue && a !in r.locals then ItemsOf(q.queue, a) == map[] else q == r
    ensures Evicted(p, q, idle + {a})
  {
    forall b
      ensures EvictedAt(p, q, idle + {a}, b)
    {
      assert EvictedAt(p, r, idle, b);
      if b != a && q != r {
        OtherAccount(r, q, a, b);
      }
    }
  }

  // ------------------------------------------------------------------ runs

  datatype PoolStep =
    | StepAdd(tx: Tx, local: bool)
    | StepAddBatch(txs: seq<Tx>, local: bool)
    | StepReset(chain: Chain, reinject: seq<Tx>)
    | StepGasPrice(price: int)
    | StepEvict(idle: set<Address>)

  /** The step makes its senders local. */
  predicate Local(step: PoolStep) {
    (step.StepAdd? && step.local) || (step.StepAddBatch? && step.local)
  }

  /** What a step does. */
  ghost predicate Stepped(p: Pool, step: PoolStep, q: Pool) {
    match step
    case StepAdd(tx, local) => exists err :: AddedTx(p, tx, local, q, err)
    case StepAddBatch(txs, local) => exists errs :: AddedBatch(p, txs, local, q, errs)
    case StepReset(chain, reinject) => ResetTo(p, chain, reinject, q)
    case StepGasPrice(price) => q.gasPrice == price && Repriced(p, price, q)
    case StepEvict(idle) => q.pending == p.pending && q.virtual == p.virtual && Evicted(p, q, idle) && Tidy(p, q)
  }

  /** The pools that a sequence of steps goes through. */
  ghost predicate StepRun(states: seq<Pool>, steps: seq<PoolStep>) {
    && |states| == |steps| + 1
    && forall i {:trigger SteppedAt(states, steps, i)} :: 0 <= i < |steps| ==> SteppedAt(states, steps, i)
  }

  ghost predicate SteppedAt(states: seq<Pool>, steps: seq<PoolStep>, i: nat)
    requires |states| == |steps| + 1 && i < |steps|
  {
    Stepped(states[i], steps[i], states[i + 1])
  }

  lemma {:induction false} StepRunNext(states: seq<Pool>, steps: seq<PoolStep>, step: PoolStep, q: Pool)
    requires StepRun(states, steps) && Stepped(states[|steps|], step, q)
    ensures StepRun(states + [q], steps + [step])
  {
    var ss, ts := states + [q], steps + [step];
    forall i | 0 <= i < |ts|
      ensures SteppedAt(ss, ts, i)
    {
      if i < |steps| {
        assert SteppedAt(states, steps, i);
      }
    }
  }

  /** newTxPool before its first reset. */
  function NewPool(cfg: Config, chain: Chain, gasPrice: int): Pool {
    Pool(cfg, chain, map[], map[], {}, [], 0, map[], {}, gasPrice)
  }

  /** TxPool: the pool as an object. */
  class Pooled {
    var st: Pool

    ghost predicate Valid()
      reads this
    {
      Inv(st, {})
    }

    constructor (cfg: Config, chain: Chain, gasPrice: int)
      ensures Valid() && NoncesOk(st) && KnownOk(st) && (cfg.globalSlots + cfg.globalQueue > 0 ==> Bounded(st))
      ensures st == NewPool(cfg, chain, gasPrice)
    {
      st := NewPool(cfg, chain, gasPrice);
    }

    /** Every step keeps the invariant; every step but a reset that reinjects
        transactions keeps the pending nonces in order. */
    method Step(step: PoolStep)
      requires Valid()
      modifies this
      ensures Valid()
      ensures old(NoncesOk(st)) && !(step.StepReset? && step.reinject != []) ==> NoncesOk(st)
      ensures step.StepReset? ==> PendingBounded(st) && QueueBounded(st)
      ensures Stepped(old(st), step, st)
      ensures old(Bounded(st)) && !Local(step) ==> Bounded(st)
      ensures old(KnownOk(st)) ==> KnownOk(st)
    {
      ghost var before := st;
      match step {
        case StepAdd(tx, local) =>
          var q, err := AddTx(st, tx, local);
          st := q;
        case StepAddBatch(txs, local) =>
          var q, errs := AddTxs(st, txs, local);
          st := q;
        case StepReset(chain, reinject) =>
          var q := Reset(st, chain, reinject);
          st := q;
        case StepGasPrice(price) =>
          var q := SetGasPrice(st, price);
          st := q;
          if Bounded(before) {
            BoundedBelow(before, st);
          }
        case StepEvict(idle) =>
          var q := Evict(st, idle);
          st := q;
          if KnownOk(before) {
            KnownBelow(before, st);
          }
          if Bounded(before) {
            BoundedBelow(before, st);
          }
      }
    }

    /** Over every run of steps the invariant holds; a pool that never sees a local
        transaction never exceeds its capacity; and if no reset reinjects
        anything, every account's pending nonces run from its nonce on the chain
        to its nonce in the pending state.  From a new pool on, every known
        transaction is admissible and, unless its sender is local, pays the pool's
        price. */
    method Run(steps: seq<PoolStep>) returns (ghost states: seq<Pool>)
      requires Valid() && NoncesOk(st)
      modifies this
      ensures Valid() && StepRun(states, steps) && states[0] == old(st) && states[|steps|] == st
      ensures old(KnownOk(st)) ==> KnownOk(st)
      ensures (forall s :: s in steps && s.StepReset? ==> s.reinject == []) ==> NoncesOk(st)
      ensures old(Bounded(st)) && (forall s :: s in steps ==> !Local(s)) ==> Bounded(st)
    {
      states := [st];
      for i := 0 to |steps|
        invariant Valid() && (old(KnownOk(st)) ==> KnownOk(st))
        invariant StepRun(states, steps[..i]) && states[0] == old(st) && states[i] == st
        invariant old(Bounded(st)) && (forall s :: s in steps ==> !Local(s)) ==> Bounded(st)
        invariant (forall s :: s in steps && s.StepReset? ==> s.reinject == []) ==> NoncesOk(st)
      {
        Step(steps[i]);
        assert steps[..i + 1] == steps[..i] + [steps[i]];
        StepRunNext(states, steps[..i], steps[i], st);
        states := states + [st];
      }
      assert steps[..|steps|] == steps;
    }
  }

  /** No transaction is listed at two places of the pool. */
  lemma {:induction false} NeverTwice(p: Pool, a: Address, n: nat, b: Address, m: nat)
    requires Inv(p, {})
    requires n in ItemsOf(p.pending, a) || n in ItemsOf(p.queue, a)
    ensures m in ItemsOf(p.pending, b) && n in ItemsOf(p.pending, a) && (a, n) != (b, m) ==>
      ItemsOf(p.pending, a)[n] != ItemsOf(p.pending, b)[m]
    ensures m in ItemsOf(p.queue, b) && n in ItemsOf(p.queue, a) && (a, n) != (b, m) ==>
      ItemsOf(p.queue, a)[n] != ItemsOf(p.queue, b)[m]
    ensures m in ItemsOf(p.queue, b) && n in ItemsOf(p.pending, a) ==>
      ItemsOf(p.pending, a)[n] != ItemsOf(p.queue, b)[m]
  {
    assert AccountOk(p, a) && AccountOk(p, b);
  }
}
