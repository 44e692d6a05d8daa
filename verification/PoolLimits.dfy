/** The limits of promoteExecutables in core/tx_pool.go: the equalising passes
    over the pending lists and the cut of the queues. */
module PoolLimits {
  import opened TxSpec
  import opened PoolState
  import opened PoolMoves
  import opened PoolPromote

  // -------------------------------------------------------------- counting

  ghost function Entries(m: map<Address, TxList>): set<(Address, nat)> {
    set a, n | a in m && n in m[a].items :: (a, n)
  }

  /** Number of transactions in all lists together. */
  ghost function Total(m: map<Address, TxList>): nat { |Entries(m)| }

  lemma {:induction false} SmallerWithout(m: map<Address, TxList>, a: Address)
    requires a in m
    ensures |m - {a}| < |m|
  {
    assert (m - {a}).Keys == m.Keys - {a};
    assert |(m - {a}).Keys| == |m - {a}|;
  }

  ghost function Row(a: Address, keys: set<nat>): set<(Address, nat)> {
    set n | n in keys :: (a, n)
  }

  lemma {:induction false} RowSize(a: Address, keys: set<nat>)
    ensures |Row(a, keys)| == |keys|
    decreases |keys|
  {
    if keys != {} {
      var n := Pick(keys);
      RowSize(a, keys - {n});
      assert Row(a, keys) == Row(a, keys - {n}) + {(a, n)};
    }
  }

  lemma {:induction false} TotalAt(m: map<Address, TxList>, a: Address)
    ensures Total(m) == |ItemsOf(m, a)| + Total(m - {a})
  {
    RowSize(a, ItemsOf(m, a).Keys);
    EntriesSplit(m, a);
    assert |ItemsOf(m, a).Keys| == |ItemsOf(m, a)|;
  }

  lemma {:induction false} EntriesSplit(m: map<Address, TxList>, a: Address)
    ensures Entries(m) == Entries(m - {a}) + Row(a, ItemsOf(m, a).Keys)
    ensures Entries(m - {a}) !! Row(a, ItemsOf(m, a).Keys)
  {
    forall e
      ensures e in Entries(m) <==> e in Entries(m - {a}) || e in Row(a, ItemsOf(m, a).Keys)
      ensures e in Entries(m - {a}) ==> e.0 != a
    {
      assert e == (e.0, e.1);
      assert e.0 in m && e.0 != a ==> (m - {a})[e.0] == m[e.0];
    }
  }

  /** The loop that counts the transactions in all lists. */
  method Count(m: map<Address, TxList>) returns (n: nat)
    ensures n == Total(m)
  {
    n := 0;
    var left := m;
    while left != map[]
      invariant n + Total(left) == Total(m)
      decreases |left|
    {
      assert left.Keys != {};
      ghost var w := Pick(left.Keys);
      var a: Address :| a in left.Keys;
      TotalAt(left, a);
      SmallerWithout(left, a);
      n := n + |left[a].items|;
      left := left - {a};
    }
  }

  // ------------------------------------------------- one transaction dropped

  lemma {:induction false} LowerByOne(m: Items)
    requires m != map[]
    ensures |m| > 0 && Lower(m, |m| - 1) == m - {Highest(m)} && |m - {Highest(m)}| == |m| - 1
  {
    assert m.Keys != {};
    KeysWithout(m, Highest(m));
  }

  /** list.Cap(list.Len() - 1) on a pending list: the pool forgets its last
      transaction and the account's next nonce goes back to it. */
  method CapOne(p: Pool, a: Address, ghost loose: set<Tx>) returns (q: Pool)
    requires Inv(p, loose) && a in p.pending && p.pending[a].items != map[]
    ensures Inv(q, loose) && OnlyAccount(p, q, a) && q.queue == p.queue && Tidy(p, q)
    ensures a in q.pending && |q.pending[a].items| == |p.pending[a].items| - 1
    ensures LowestOf(p, q, a)
    ensures NoncesOk(p) ==> NoncesOk(q)
  {
    var list := p.pending[a];
    LowerByOne(list.items);
    var rest := Capped(list, |list.items| - 1);
    var nonce := Highest(list.items);
    var tx := list.items[nonce];
    q := Forget(p.(pending := p.pending[a := rest]), tx, loose);
    CappedOk(p, q, a, nonce);
    if NextNonce(q, a) > nonce {
      ghost var r := q;
      Only(q.virtual, a, nonce);
      q := q.(virtual := q.virtual[a := nonce]);
      assert AccountOk(r, a);
      ListsByAccount(r, q, a);
      OnlyAccountTransitive(p, r, q, a);
      SameListsTidy(p, r, q);
    }
    assert NextNonce(q, a) == if NextNonce(p, a) > nonce then nonce else NextNonce(p, a);
    OneCut(p, q, a, nonce);
    if NoncesOk(p) {
      NoncesCut(p, q, a, nonce);
    }
  }

  lemma {:induction false} SameListsTidy(p: Pool, r: Pool, q: Pool)
    requires Tidy(p, r) && q.pending == r.pending && q.queue == r.queue && q.all == r.all
    ensures Tidy(p, q)
  {
    forall tx: Tx
      ensures TidyAt(p, q, tx)
    {
      assert TidyAt(p, r, tx);
    }
  }

  lemma {:induction false} OneCut(p: Pool, q: Pool, a: Address, nonce: nat)
    requires nonce in ItemsOf(p.pending, a) && ItemsOf(q.pending, a) == ItemsOf(p.pending, a) - {nonce}
    requires NextNonce(q, a) == if NextNonce(p, a) > nonce then nonce else NextNonce(p, a)
    ensures SetBack(p, q, a)
  {
    assert CutFrom(p, q, a, nonce);
  }

  lemma {:induction false} CappedOk(p: Pool, q: Pool, a: Address, nonce: nat)
    requires ListsOk(p) && a in p.pending && p.pending[a].items != map[] && nonce == Highest(p.pending[a].items)
    requires SameButPrices(p.(pending := p.pending[a := p.pending[a].(items := p.pending[a].items - {nonce})],
      all := p.all - {p.pending[a].items[nonce]}), q)
    ensures ListsOk(q) && OnlyAccount(p, q, a) && Tidy(p, q)
    ensures forall n: nat :: n in ItemsOf(q.pending, a) <==> n in ItemsOf(p.pending, a) && n < nonce
  {
    var m := p.pending[a].items;
    var tx := m[nonce];
    assert AccountOk(p, a);
    assert tx.nonce == nonce && tx.sender == a;
    Only(p.pending, a, q.pending[a]);
    OwnedCut(m, m - {nonce}, a, p.all, tx);
    OwnedCut(ItemsOf(p.queue, a), ItemsOf(p.queue, a), a, p.all, tx);
    assert AccountOk(q, a);
    ListsByAccount(p, q, a);
    OneForgotten(p, q, a, tx);
  }

  /** One listed transaction of an account has left its lists and is forgotten. */
  lemma {:induction false} OneForgotten(p: Pool, q: Pool, a: Address, tx: Tx)
    requires ListsOk(p) && OnlyAccount(p, q, a) && q.all == p.all - {tx} && tx in p.all && tx.sender == a
    requires
      || (Holds(ItemsOf(p.pending, a), tx) && ItemsOf(q.queue, a) == ItemsOf(p.queue, a)
          && ItemsOf(q.pending, a) == ItemsOf(p.pending, a) - {tx.nonce})
      || (Holds(ItemsOf(p.queue, a), tx) && ItemsOf(q.pending, a) == ItemsOf(p.pending, a)
          && ItemsOf(q.queue, a) == ItemsOf(p.queue, a) - {tx.nonce})
    ensures Tidy(p, q)
  {
    var gone: Items := map[tx.nonce := tx];
    assert tx.nonce in gone && gone[tx.nonce] == tx;
    assert gone.Values == {tx};
    assert AccountOk(p, a);
    TidyDrop(p, q, a, gone);
  }

  // --------------------------------------------------- the equalising passes

  ghost function Len(p: Pool, a: Address): nat { |ItemsOf(p.pending, a)| }

  /** An account is untouched, or it is a remote account that held more than
      the guaranteed slots and still holds the lowest ones, at least as many as
      are guaranteed. */
  ghost predicate FairAt(p: Pool, q: Pool, a: Address) {
    || SameAt(p, q, a)
    || (a !in p.locals && Len(p, a) > p.cfg.accountSlots && Len(q, a) >= p.cfg.accountSlots && LowestOf(p, q, a))
  }

  /** The pending list and the next nonce of `a` are as before. */
  ghost predicate SameAt(p: Pool, q: Pool, a: Address) {
    && ItemsOf(q.pending, a) == ItemsOf(p.pending, a) && (a in q.pending <==> a in p.pending)
    && NextNonce(q, a) == NextNonce(p, a)
  }

  /** Of its pending transactions the account keeps the lowest ones. */
  ghost predicate LowestOf(p: Pool, q: Pool, a: Address) {
    ItemsOf(q.pending, a) == Lower(ItemsOf(p.pending, a), Len(q, a)) && SetBack(p, q, a)
  }

  ghost predicate CutFrom(p: Pool, q: Pool, a: Address, n: nat) {
    n in ItemsOf(p.pending, a) && n !in ItemsOf(q.pending, a)
  }

  /** The account's next nonce is as before, or the first nonce cut if that is
      lower. */
  ghost predicate SetBack(p: Pool, q: Pool, a: Address) {
    && NextNonce(q, a) <= NextNonce(p, a)
    && (forall n: nat {:trigger CutFrom(p, q, a, n)} :: CutFrom(p, q, a, n) ==> NextNonce(q, a) <= n)
    && (NextNonce(q, a) == NextNonce(p, a) || CutFrom(p, q, a, NextNonce(q, a)))
  }

  lemma {:induction false} LowestOfLowest(p: Pool, r: Pool, q: Pool, a: Address)
    requires LowestOf(p, r, a) && LowestOf(r, q, a)
    ensures LowestOf(p, q, a)
  {
    LowerLower(ItemsOf(p.pending, a), Len(r, a), Len(q, a));
    LowerKeeps(ItemsOf(p.pending, a), Len(r, a));
    LowerKeeps(ItemsOf(r.pending, a), Len(q, a));
    SetBackTwice(p, r, q, a);
  }

  lemma {:induction false} SetBackTwice(p: Pool, r: Pool, q: Pool, a: Address)
    requires SetBack(p, r, a) && SetBack(r, q, a)
    requires ItemsOf(q.pending, a).Keys <= ItemsOf(r.pending, a).Keys <= ItemsOf(p.pending, a).Keys
    ensures SetBack(p, q, a)
  {
    forall n: nat | CutFrom(p, q, a, n)
      ensures NextNonce(q, a) <= n
    {
      assert CutFrom(p, r, a, n) || CutFrom(r, q, a, n);
    }
    var n := NextNonce(q, a);
    assert CutFrom(r, q, a, n) || CutFrom(p, r, a, n) ==> CutFrom(p, q, a, n);
  }

  /** The lists and next nonces count, not the pool around them. */
  lemma {:induction false} LowestOfSame(p: Pool, r: Pool, q: Pool, a: Address)
    requires LowestOf(p, r, a) && ItemsOf(q.pending, a) == ItemsOf(r.pending, a) && NextNonce(q, a) == NextNonce(r, a)
    ensures LowestOf(p, q, a)
  {
    forall n: nat
      ensures CutFrom(p, q, a, n) <==> CutFrom(p, r, a, n)
    {
    }
  }

  lemma {:induction false} LowestOfFrom(p: Pool, r: Pool, q: Pool, a: Address)
    requires SameAt(p, r, a) && LowestOf(r, q, a)
    ensures LowestOf(p, q, a)
  {
    forall n: nat
      ensures CutFrom(p, q, a, n) <==> CutFrom(r, q, a, n)
    {
    }
  }

  ghost predicate Fair(p: Pool, q: Pool) {
    forall a {:trigger FairAt(p, q, a)} :: FairAt(p, q, a)
  }

  ghost predicate SameSetting(p: Pool, q: Pool) {
    q.cfg == p.cfg && q.chain == p.chain && q.locals == p.locals && q.gasPrice == p.gasPrice
  }

  ghost predicate Distinct(s: seq<Address>) {
    forall i, j :: 0 <= i < j < |s| ==> s[i] != s[j]
  }

  /** All of these accounts have `level` pending transactions. */
  ghost predicate AllAt(p: Pool, s: seq<Address>, level: nat) {
    forall a {:trigger a in s} :: a in s ==> a in p.pending && Len(p, a) == level
  }

  /** One round over the offenders: each loses its last transaction. */
  method CapRound(p: Pool, offenders: seq<Address>, ghost level: nat, ghost loose: set<Tx>) returns (q: Pool)
    requires Inv(p, loose) && Distinct(offenders) && level > 0 && AllAt(p, offenders, level)
    ensures Inv(q, loose) && SameSetting(p, q) && q.queue == p.queue && Tidy(p, q)
    ensures RoundAt(p, q, offenders, level - 1) && AllAt(q, offenders, level - 1)
    ensures Total(q.pending) == Total(p.pending) - |offenders|
    ensures NoncesOk(p) ==> NoncesOk(q)
  {
    q := p;
    var k := 0;
    TidySelf(p);
    assert offenders[..0] == [];
    while k < |offenders|
      invariant 0 <= k <= |offenders| && Inv(q, loose) && SameSetting(p, q) && q.queue == p.queue && Tidy(p, q)
      invariant RoundAt(p, q, offenders[..k], level - 1)
      invariant Total(q.pending) == Total(p.pending) - k
      invariant NoncesOk(p) ==> NoncesOk(q)
    {
      ghost var before := q;
      q := CapNext(p, q, offenders, k, level, loose);
      TidyTwice(p, before, q);
      k := k + 1;
    }
    assert offenders[..k] == offenders;
    RoundDone(p, q, offenders, level - 1);
  }

  method CapNext(ghost p: Pool, r: Pool, offenders: seq<Address>, k: nat, ghost level: nat, ghost loose: set<Tx>)
    returns (q: Pool)
    requires k < |offenders| && Distinct(offenders) && level > 0 && AllAt(p, offenders, level)
    requires Inv(r, loose) && RoundAt(p, r, offenders[..k], level - 1)
    ensures Inv(q, loose) && SameSetting(r, q) && q.queue == r.queue && Tidy(r, q)
    ensures RoundAt(p, q, offenders[..k + 1], level - 1)
    ensures Total(q.pending) == Total(r.pending) - 1
    ensures NoncesOk(r) ==> NoncesOk(q)
  {
    var a := offenders[k];
    RoundNext(p, r, offenders, k, level);
    q := CapOne(r, a, loose);
    RoundStep(p, r, q, offenders[..k], a, level - 1);
    TotalStep(r, q, a);
    assert offenders[..k + 1] == offenders[..k] + [a];
  }

  /** `a` has been cut if it is one of `cut`, else it is as before. */
  ghost predicate CutAt(p: Pool, q: Pool, cut: seq<Address>, level: int, a: Address) {
    if a in cut then a in q.pending && Len(q, a) == level && LowestOf(p, q, a) else SameAt(p, q, a)
  }

  ghost predicate RoundAt(p: Pool, q: Pool, cut: seq<Address>, level: int) {
    forall a {:trigger CutAt(p, q, cut, level, a)} :: CutAt(p, q, cut, level, a)
  }

  lemma {:induction false} RoundNext(p: Pool, q: Pool, offenders: seq<Address>, k: nat, level: nat)
    requires k < |offenders| && Distinct(offenders) && AllAt(p, offenders, level) && level > 0
    requires RoundAt(p, q, offenders[..k], level - 1)
    ensures var a := offenders[k];
      a in q.pending && q.pending[a].items != map[] && Len(q, a) == level && a !in offenders[..k]
  {
    var a := offenders[k];
    assert a in offenders && a !in offenders[..k];
    assert CutAt(p, q, offenders[..k], level - 1, a);
  }

  lemma {:induction false} RoundStep(p: Pool, r: Pool, q: Pool, cut: seq<Address>, a: Address, level: int)
    requires RoundAt(p, r, cut, level)
    requires OnlyAccount(r, q, a) && a in q.pending && Len(q, a) == level && LowestOf(r, q, a) && a !in cut
    ensures RoundAt(p, q, cut + [a], level)
  {
    forall b
      ensures CutAt(p, q, cut + [a], level, b)
    {
      assert CutAt(p, r, cut, level, b);
      if b == a {
        LowestOfFrom(p, r, q, a);
      } else {
        OtherAccount(r, q, a, b);
        if b in cut {
          LowestOfSame(p, r, q, b);
        }
      }
    }
  }

  lemma {:induction false} TotalStep(r: Pool, q: Pool, a: Address)
    requires OnlyAccount(r, q, a)
    ensures Total(q.pending) - Len(q, a) == Total(r.pending) - Len(r, a)
    ensures Total(q.queue) - |ItemsOf(q.queue, a)| == Total(r.queue) - |ItemsOf(r.queue, a)|
  {
    TotalAt(r.pending, a);
    TotalAt(q.pending, a);
    TotalAt(r.queue, a);
    TotalAt(q.queue, a);
  }

  lemma {:induction false} RoundDone(p: Pool, q: Pool, offenders: seq<Address>, level: nat)
    requires RoundAt(p, q, offenders, level)
    ensures AllAt(q, offenders, level)
  {
    forall a | a in offenders
      ensures a in q.pending && Len(q, a) == level
    {
      assert CutAt(p, q, offenders, level, a);
    }
  }

  /** The state of the equalising passes: what `p` became, the accounts not yet
      looked at, and those being cut. */
  ghost predicate WaitingAt(p: Pool, q: Pool, offenders: seq<Address>, a: Address) {
    a in q.pending && SameAt(p, q, a) && a !in p.locals && Len(p, a) > p.cfg.accountSlots && a !in offenders
  }

  ghost predicate Waiting(p: Pool, q: Pool, spammers: set<Address>, offenders: seq<Address>) {
    forall a {:trigger a in spammers} :: a in spammers ==> WaitingAt(p, q, offenders, a)
  }

  /** An account over the guaranteed slots is remote only if it is waiting or
      being cut. */
  ghost predicate LargeAt(q: Pool, spammers: set<Address>, offenders: seq<Address>, a: Address) {
    a !in q.locals && Len(q, a) > q.cfg.accountSlots ==> a in spammers || a in offenders
  }

  ghost predicate Large(q: Pool, spammers: set<Address>, offenders: seq<Address>) {
    forall a {:trigger LargeAt(q, spammers, offenders, a)} :: LargeAt(q, spammers, offenders, a)
  }

  /** The offenders are distinct remote accounts that held too many. */
  ghost predicate Offending(p: Pool, offenders: seq<Address>) {
    && Distinct(offenders)
    && (forall a {:trigger a in offenders} :: a in offenders ==> a !in p.locals && Len(p, a) > p.cfg.accountSlots)
  }

  ghost predicate Passes(p: Pool, q: Pool, spammers: set<Address>, offenders: seq<Address>, loose: set<Tx>) {
    && Inv(q, loose) && SameSetting(p, q) && q.queue == p.queue && Tidy(p, q)
    && Fair(p, q) && Offending(p, offenders)
    && Waiting(p, q, spammers, offenders) && Large(q, spammers, offenders)
    && (NoncesOk(p) ==> NoncesOk(q))
  }

  /** A round over offenders that stay at or above the guaranteed slots. */
  lemma {:induction false} PassesRound(p: Pool, r: Pool, q: Pool, spammers: set<Address>, cut: seq<Address>,
                                       offenders: seq<Address>, level: nat, loose: set<Tx>)
    requires Passes(p, r, spammers, offenders, loose) && RoundAt(r, q, cut, level)
    requires forall a :: a in cut ==> a in offenders
    requires level >= p.cfg.accountSlots
    requires forall a :: a in offenders && a !in cut ==> a in r.pending
    requires Inv(q, loose) && SameSetting(r, q) && q.queue == r.queue && Tidy(r, q) && (NoncesOk(r) ==> NoncesOk(q))
    ensures Passes(p, q, spammers, offenders, loose)
  {
    TidyTwice(p, r, q);
    forall a
      ensures FairAt(p, q, a) && LargeAt(q, spammers, offenders, a)
    {
      assert CutAt(r, q, cut, level, a) && FairAt(p, r, a) && LargeAt(r, spammers, offenders, a);
      if a in cut {
        if SameAt(p, r, a) {
          LowestOfFrom(p, r, q, a);
        } else {
          LowestOfLowest(p, r, q, a);
        }
      } else if !SameAt(p, r, a) {
        LowestOfSame(p, r, q, a);
      }
    }
    forall a | a in spammers
      ensures WaitingAt(p, q, offenders, a)
    {
      assert WaitingAt(p, r, offenders, a) && CutAt(r, q, cut, level, a);
    }
  }

  /** The largest waiting account. */
  method PopLargest(q: Pool, spammers: set<Address>) returns (a: Address)
    requires spammers != {} && forall b :: b in spammers ==> b in q.pending
    ensures a in spammers && forall b :: b in spammers ==> Len(q, b) <= Len(q, a)
  {
    ghost var w := Pick(spammers);
    a :| a in spammers;
    var todo := spammers - {a};
    while todo != {}
      invariant a in spammers && todo <= spammers
      invariant forall b :: b in spammers && b !in todo ==> Len(q, b) <= Len(q, a)
    {
      ghost var v := Pick(todo);
      var b: Address :| b in todo;
      todo := todo - {b};
      if |q.pending[b].items| > |q.pending[a].items| {
        a := b;
      }
    }
  }

  /** The remote accounts with more than the guaranteed slots. */
  function Spammers(p: Pool): set<Address> {
    set a | a in p.pending && a !in p.locals && |p.pending[a].items| > p.cfg.accountSlots
  }

  /** While the limit is exceeded all offenders have the same length, which no
      waiting account exceeds. */
  ghost predicate Levelled(q: Pool, spammers: set<Address>, offenders: seq<Address>, level: nat) {
    && AllAt(q, offenders, level) && level > q.cfg.accountSlots
    && (forall a {:trigger a in spammers} :: a in spammers ==> Len(q, a) <= level)
  }

  /** First pass: the largest accounts are brought down to the next largest one
      until the limit is met or none is left. */
  method Equalise(p: Pool, ghost loose: set<Tx>)
    returns (q: Pool, offenders: seq<Address>, pending: nat, ghost level: nat)
    requires Inv(p, loose)
    ensures Passes(p, q, {}, offenders, loose) || pending <= p.cfg.globalSlots
    ensures Inv(q, loose) && SameSetting(p, q) && q.queue == p.queue && Tidy(p, q) && Fair(p, q)
    ensures NoncesOk(p) ==> NoncesOk(q)
    ensures pending == Total(q.pending) && |offenders| <= |Spammers(p)|
    ensures Total(p.pending) <= p.cfg.globalSlots ==> q == p
    ensures Total(p.pending) > p.cfg.globalSlots ==> pending + |Spammers(p)| > p.cfg.globalSlots
    ensures pending > p.cfg.globalSlots && offenders != [] ==> Levelled(q, {}, offenders, level)
  {
    q, offenders := p, [];
    pending := Count(p.pending);
    var spammers := Spammers(p);
    level := 0;
    PassesStart(p, loose);
    while pending > p.cfg.globalSlots && spammers != {}
      invariant Passes(p, q, spammers, offenders, loose) && pending == Total(q.pending)
      invariant |spammers| + |offenders| == |Spammers(p)|
      invariant Total(p.pending) <= p.cfg.globalSlots ==> q == p
      invariant Total(p.pending) > p.cfg.globalSlots ==> pending + |Spammers(p)| > p.cfg.globalSlots
      invariant pending > p.cfg.globalSlots && offenders != [] ==> Levelled(q, spammers, offenders, level)
      decreases spammers
    {
      q, offenders, pending, spammers, level := NextOffender(p, q, offenders, pending, spammers, level, loose);
    }
    if spammers == {} {
      assert Passes(p, q, {}, offenders, loose);
    }
  }

  lemma {:induction false} PassesStart(p: Pool, loose: set<Tx>)
    requires Inv(p, loose)
    ensures Passes(p, p, Spammers(p), [], loose)
  {
    TidySelf(p);
    forall a
      ensures FairAt(p, p, a) && LargeAt(p, Spammers(p), [], a)
    {
    }
  }

  /** One turn of the first pass: the next offender joins, and the others come
      down to it. */
  method NextOffender(ghost p: Pool, r: Pool, offenders: seq<Address>, count: nat, spammers: set<Address>,
                      ghost level: nat, ghost loose: set<Tx>)
    returns (q: Pool, offenders': seq<Address>, pending: nat, spammers': set<Address>, ghost level': nat)
    requires Passes(p, r, spammers, offenders, loose) && count == Total(r.pending)
    requires count > p.cfg.globalSlots && spammers != {}
    requires offenders != [] ==> Levelled(r, spammers, offenders, level)
    ensures Passes(p, q, spammers', offenders', loose) && pending == Total(q.pending)
    ensures spammers' < spammers && |spammers'| + |offenders'| == |spammers| + |offenders| && offenders' != []
    ensures pending + |offenders| > p.cfg.globalSlots
    ensures pending > p.cfg.globalSlots ==> Levelled(q, spammers', offenders', level')
  {
    var a := PopLargest(r, spammers);
    assert WaitingAt(p, r, offenders, a);
    spammers' := spammers - {a};
    offenders' := offenders + [a];
    PassesJoin(p, r, spammers, offenders, a, loose);
    level' := |r.pending[a].items|;
    ghost var l: nat := if offenders == [] then level' else level;
    q, pending, l := BringDown(p, r, offenders, a, count, spammers', l, loose);
    if pending > r.cfg.globalSlots {
      JoinLevel(q, offenders, a, l, level');
    }
  }

  /** The inner loop: rounds over the earlier offenders until they are down at the
      newest one or the limit is met. */
  method BringDown(ghost p: Pool, r: Pool, offenders: seq<Address>, a: Address, count: nat,
                   ghost spammers: set<Address>, ghost level: nat, ghost loose: set<Tx>)
    returns (q: Pool, pending: nat, ghost l: nat)
    requires Passes(p, r, spammers, offenders + [a], loose) && count == Total(r.pending) > p.cfg.globalSlots
    requires Distinct(offenders) && AllAt(r, offenders, level) && a in r.pending && level >= Len(r,
      a) > r.cfg.accountSlots
    requires offenders == [] ==> level == Len(r, a)
    requires forall b :: b in spammers ==> Len(r, b) <= Len(r, a)
    ensures Passes(p, q, spammers, offenders + [a], loose) && pending == Total(q.pending)
    ensures AllAt(q, offenders, l) && a in q.pending && Len(q, a) == Len(r, a)
    ensures pending + |offenders| > p.cfg.globalSlots
    ensures pending > p.cfg.globalSlots ==> l == Len(r, a)
    ensures forall b :: b in spammers ==> Len(q, b) <= Len(r, a)
  {
    q, pending, l := r, count, level;
    var threshold := |r.pending[a].items|;
    assert |offenders| > 0 ==> offenders[|offenders| - 1] in offenders;
    while pending > r.cfg.globalSlots && |offenders| > 0 && |q.pending[offenders[|offenders| - 1]].items| > threshold
      invariant Passes(p, q, spammers, offenders + [a], loose) && pending == Total(q.pending)
      invariant |offenders| > 0 ==> offenders[|offenders| - 1] in q.pending && Len(q, offenders[|offenders| - 1]) == l
      invariant AllAt(q, offenders, l) && l >= threshold && Len(q, a) == threshold && a in q.pending
      invariant |offenders| == 0 ==> l == threshold
      invariant threshold > q.cfg.accountSlots && q.cfg == r.cfg
      invariant pending + |offenders| > p.cfg.globalSlots
      invariant forall b :: b in spammers ==> Len(q, b) <= threshold
      decreases l
    {
      ghost var before := q;
      assert offenders[|offenders| - 1] in offenders;
      q := CapRound(q, offenders, l, loose);
      RoundKeeps(p, before, q, spammers, offenders, offenders + [a], a, l - 1, loose);
      pending := pending - |offenders|;
      l := l - 1;
    }
  }

  lemma {:induction false} PassesJoin(p: Pool, r: Pool, spammers: set<Address>, offenders: seq<Address>, a: Address,
                                      loose: set<Tx>)
    requires Passes(p, r, spammers, offenders, loose) && a in spammers
    ensures Passes(p, r, spammers - {a}, offenders + [a], loose)
  {
    var spammers', offenders' := spammers - {a}, offenders + [a];
    assert WaitingAt(p, r, offenders, a);
    forall b | b in spammers'
      ensures WaitingAt(p, r, offenders', b)
    {
      assert WaitingAt(p, r, offenders, b);
    }
    forall b
      ensures LargeAt(r, spammers', offenders', b)
    {
      assert LargeAt(r, spammers, offenders, b);
    }
    assert forall b :: b in offenders' ==> b in offenders || b == a;
  }

  /** A round over the earlier offenders leaves the newest one and the waiting
      ones alone. */
  lemma {:induction false} RoundKeeps(p: Pool, r: Pool, q: Pool, spammers: set<Address>, cut: seq<Address>,
                                      offenders: seq<Address>, a: Address, level: nat, loose: set<Tx>)
    requires Passes(p, r, spammers, offenders, loose) && offenders == cut + [a] && RoundAt(r, q, cut, level)
    requires level >= p.cfg.accountSlots && a in r.pending
    requires Inv(q, loose) && SameSetting(r, q) && q.queue == r.queue && Tidy(r, q) && (NoncesOk(r) ==> NoncesOk(q))
    ensures Passes(p, q, spammers, offenders, loose)
    ensures a in q.pending && Len(q, a) == Len(r, a)
    ensures forall b :: b in spammers ==> Len(q, b) == Len(r, b)
  {
    assert forall i :: 0 <= i < |cut| ==> cut[i] == offenders[i] && offenders[i] != offenders[|cut|];
    assert CutAt(r, q, cut, level, a);
    forall b | b in spammers
      ensures Len(q, b) == Len(r, b)
    {
      assert WaitingAt(p, r, offenders, b);
      assert b !in cut;
      assert CutAt(r, q, cut, level, b);
    }
    PassesRound(p, r, q, spammers, cut, offenders, level, loose);
  }

  lemma {:induction false} JoinLevel(q: Pool, offenders: seq<Address>, a: Address, level: nat, threshold: nat)
    requires AllAt(q, offenders, level) && a in q.pending && Len(q, a) == threshold
    requires offenders != [] ==> level == threshold
    ensures AllAt(q, offenders + [a], threshold)
  {
  }

  /** Within the pending limit, or every remote account within its slots. */
  ghost predicate PendingBounded(q: Pool) {
    Total(q.pending) <= q.cfg.globalSlots ||
    forall a {:trigger Len(q, a)} :: a !in q.locals ==> Len(q, a) <= q.cfg.accountSlots
  }

  /** The pending limit: the first pass, then all offenders together down to
      the limit or to the guaranteed slots.  Nothing is cut below the limit but
      for the round that crosses it. */
  method CapPending(p: Pool, ghost loose: set<Tx>) returns (q: Pool)
    requires Inv(p, loose)
    ensures Inv(q, loose) && SameSetting(p, q) && q.queue == p.queue && Tidy(p, q)
    ensures NoncesOk(p) ==> NoncesOk(q)
    ensures Fair(p, q) && PendingBounded(q)
    ensures Total(p.pending) <= p.cfg.globalSlots ==> q == p
    ensures Total(p.pending) > p.cfg.globalSlots ==> Total(q.pending) + |Spammers(p)| > p.cfg.globalSlots
  {
    var offenders, pending;
    ghost var level;
    q, offenders, pending, level := Equalise(p, loose);
    if pending > p.cfg.globalSlots {
      if |offenders| > 0 {
        q, pending, level := LowerTogether(p, q, offenders, pending, level, loose);
      }
      if pending > p.cfg.globalSlots {
        NoneLarge(q, offenders, level);
      }
    }
  }

  /** Second pass. */
  method LowerTogether(ghost p: Pool, r: Pool, offenders: seq<Address>, count: nat, ghost l: nat, ghost loose: set<Tx>)
    returns (q: Pool, pending: nat, ghost level: nat)
    requires Passes(p, r, {}, offenders, loose) && offenders != [] && count == Total(r.pending)
    requires Levelled(r, {}, offenders, l)
    ensures Passes(p, q, {}, offenders, loose) && pending == Total(q.pending)
    ensures AllAt(q, offenders, level)
    ensures pending > q.cfg.globalSlots ==> level <= q.cfg.accountSlots
    ensures count > q.cfg.globalSlots ==> pending + |offenders| > q.cfg.globalSlots
  {
    q, pending, level := r, count, l;
    var last := offenders[|offenders| - 1];
    assert last in offenders;
    while pending > r.cfg.globalSlots && |q.pending[last].items| > r.cfg.accountSlots
      invariant Passes(p, q, {}, offenders, loose) && pending == Total(q.pending) && q.cfg == r.cfg
      invariant AllAt(q, offenders, level) && last in q.pending && Len(q, last) == level
      invariant level >= r.cfg.accountSlots
      invariant count > r.cfg.globalSlots ==> pending + |offenders| > r.cfg.globalSlots
      decreases level
    {
      ghost var before := q;
      q := CapRound(q, offenders, level, loose);
      PassesRound(p, before, q, {}, offenders, offenders, level - 1, loose);
      pending := pending - |offenders|;
      level := level - 1;
    }
  }

  lemma {:induction false} NoneLarge(q: Pool, offenders: seq<Address>, level: nat)
    requires Large(q, {}, offenders)
    requires offenders != [] ==> AllAt(q, offenders, level) && level <= q.cfg.accountSlots
    ensures forall a {:trigger Len(q, a)} :: a !in q.locals ==> Len(q, a) <= q.cfg.accountSlots
  {
    forall a | a !in q.locals
      ensures Len(q, a) <= q.cfg.accountSlots
    {
      assert LargeAt(q, {}, offenders, a);
    }
  }

  // ----------------------------------------------------- the queue's limit

  /** removeTx on a queued transaction. */
  method DropQueued(p: Pool, a: Address, n: nat, ghost loose: set<Tx>) returns (q: Pool)
    requires Inv(p, loose) && a in p.queue && n in p.queue[a].items
    ensures Inv(q, loose) && OnlyAccount(p, q, a) && q.pending == p.pending && q.virtual == p.virtual && Tidy(p, q)
    ensures ItemsOf(q.queue, a) == p.queue[a].items - {n}
    ensures Total(q.queue) == Total(p.queue) - 1
    ensures NoncesOk(p) ==> NoncesOk(q)
  {
    assert AccountOk(p, a);
    var tx := p.queue[a].items[n];
    assert tx.nonce == n && tx.sender == a && tx in p.all;
    assert n !in ItemsOf(p.pending, a);
    q := RemoveTx(p, tx, loose);
    QueuedDropped(p, q, a, n);
    OneForgotten(p, q, a, tx);
  }

  lemma {:induction false} QueuedDropped(p: Pool, q: Pool, a: Address, n: nat)
    requires OnlyAccount(p, q, a) && a in p.queue && n in p.queue[a].items && !p.queue[a].strict
    requires q.queue == Store(p.queue, a, Removed(p.queue[a], n))
    ensures ItemsOf(q.queue, a) == p.queue[a].items - {n}
    ensures Total(q.queue) == Total(p.queue) - 1
  {
    var rest := Removed(p.queue[a], n);
    StoreOnly(p.queue, a, rest);
    assert rest.items == p.queue[a].items - {n};
    KeysWithout(p.queue[a].items, n);
    TotalStep(p, q, a);
  }

  /** Of its queued transactions the account keeps the lowest ones. */
  ghost predicate LowestQueued(p: Pool, q: Pool, a: Address) {
    ItemsOf(q.queue, a) == Lower(ItemsOf(p.queue, a), |ItemsOf(q.queue, a)|)
  }

  /** Drops the `k` highest queued transactions of an account. */
  method DropHighestQueued(p: Pool, a: Address, k: nat, ghost loose: set<Tx>) returns (q: Pool)
    requires Inv(p, loose) && a in p.queue && k <= |p.queue[a].items|
    ensures Inv(q, loose) && OnlyAccount(p, q, a) && q.pending == p.pending && q.virtual == p.virtual && Tidy(p, q)
    ensures Total(q.queue) == Total(p.queue) - k && |ItemsOf(q.queue, a)| == |p.queue[a].items| - k
    ensures LowestQueued(p, q, a)
    ensures NoncesOk(p) ==> NoncesOk(q)
  {
    q := p;
    TidySelf(p);
    var left: nat := k;
    while left > 0
      invariant Inv(q, loose) && OnlyAccount(p, q, a) && q.pending == p.pending && q.virtual == p.virtual &&
        Tidy(p, q)
      invariant left <= |ItemsOf(q.queue, a)| && |ItemsOf(q.queue, a)| == |p.queue[a].items| - k + left
      invariant Total(q.queue) == Total(p.queue) - k + left && LowestQueued(p, q, a)
      invariant NoncesOk(p) ==> NoncesOk(q)
      decreases left
    {
      ghost var r := q;
      var items := ItemsOf(q.queue, a);
      assert items != map[];
      LowerByOne(items);
      q := DropQueued(q, a, Highest(items), loose);
      OnlyAccountTransitive(p, r, q, a);
      TidyTwice(p, r, q);
      LowerLower(ItemsOf(p.queue, a), |items|, |items| - 1);
      left := left - 1;
    }
  }

  /** Within the queue limit, or nothing but local transactions queued. */
  ghost predicate QueueBounded(q: Pool) {
    Total(q.queue) <= q.cfg.globalQueue ||
    forall a {:trigger ItemsOf(q.queue, a)} :: a !in q.locals ==> ItemsOf(q.queue, a) == map[]
  }

  /** Accounts that are not to be dropped from are local, empty or not needed. */
  ghost predicate QueueLeftAt(q: Pool, addresses: set<Address>, drop: nat, a: Address) {
    a !in q.locals && a !in addresses && drop > 0 ==> ItemsOf(q.queue, a) == map[]
  }

  /** A local account keeps its queue, a remote one the lowest part of it. */
  ghost predicate QueueFairAt(p: Pool, q: Pool, a: Address) {
    LowestQueued(p, q, a) && (a in p.locals ==> ItemsOf(q.queue, a) == ItemsOf(p.queue, a))
  }

  ghost predicate QueueFair(p: Pool, q: Pool) {
    forall a {:trigger QueueFairAt(p, q, a)} :: QueueFairAt(p, q, a)
  }

  /** If `b` lost queued transactions, a remote account with a later heartbeat
      has none left. */
  ghost predicate LatestFirstAt(p: Pool, q: Pool, beats: Address -> int, a: Address, b: Address) {
    a !in p.locals && beats(a) > beats(b) && ItemsOf(q.queue, b) != ItemsOf(p.queue, b) ==> ItemsOf(q.queue, a) == map[]
  }

  ghost predicate LatestFirst(p: Pool, q: Pool, beats: Address -> int) {
    forall a, b {:trigger LatestFirstAt(p, q, beats, a, b)} :: LatestFirstAt(p, q, beats, a, b)
  }

  /** The remote accounts with a queue. */
  function RemoteQueues(p: Pool): set<Address> {
    set a | a in p.queue && a !in p.locals
  }

  /** In the middle of dropping: `drop` are still to go, from `addresses`. */
  ghost predicate Dropping(p: Pool, q: Pool, beats: Address -> int, addresses: set<Address>, drop: nat) {
    && SameSetting(p, q) && q.pending == p.pending && q.virtual == p.virtual && Tidy(p, q)
    && Total(q.queue) == p.cfg.globalQueue + drop && QueueFair(p, q) && LatestFirst(p, q, beats)
    && (forall a {:trigger a in addresses} ::
         a in addresses ==> a in q.queue && a in p.queue && q.queue[a] == p.queue[a] && a !in p.locals)
    && (forall a {:trigger QueueLeftAt(q, addresses, drop, a)} :: QueueLeftAt(q, addresses, drop, a))
    && (NoncesOk(p) ==> NoncesOk(q))
  }

  /** The queue limit: remote accounts lose their queued transactions, the account
      with the latest heartbeat first and of its transactions the last ones, until
      the limit is met and no further. */
  method CapQueue(p: Pool, beats: Address -> int, ghost loose: set<Tx>) returns (q: Pool)
    requires Inv(p, loose)
    ensures Inv(q, loose) && SameSetting(p, q) && q.pending == p.pending && q.virtual == p.virtual && Tidy(p, q)
    ensures NoncesOk(p) ==> NoncesOk(q)
    ensures QueueBounded(q) && QueueFair(p, q) && LatestFirst(p, q, beats)
    ensures Total(p.queue) <= p.cfg.globalQueue ==> q == p
    ensures Total(p.queue) > p.cfg.globalQueue ==> Total(q.queue) >= p.cfg.globalQueue
  {
    q := p;
    var queued := Count(p.queue);
    DroppingStarts(p, beats);
    if queued <= p.cfg.globalQueue {
      return;
    }
    var addresses := RemoteQueues(p);
    var drop: nat := queued - p.cfg.globalQueue;
    while drop > 0 && addresses != {}
      invariant Inv(q, loose) && Dropping(p, q, beats, addresses, drop)
      decreases addresses
    {
      var a := PopLatest(addresses, beats);
      q, drop := DropFrom(p, q, beats, addresses, drop, a, loose);
      addresses := addresses - {a};
    }
    if drop > 0 {
      forall a | a !in q.locals
        ensures ItemsOf(q.queue, a) == map[]
      {
        assert QueueLeftAt(q, addresses, drop, a);
      }
    }
  }

  lemma {:induction false} DroppingStarts(p: Pool, beats: Address -> int)
    ensures QueueFair(p, p) && LatestFirst(p, p, beats) && Tidy(p, p)
    ensures Total(p.queue) > p.cfg.globalQueue ==>
      Dropping(p, p, beats, RemoteQueues(p), Total(p.queue) - p.cfg.globalQueue)
  {
    TidySelf(p);
    forall a, drop: nat
      ensures QueueFairAt(p, p, a) && QueueLeftAt(p, RemoteQueues(p), drop, a)
    {
    }
  }

  /** The account with the latest heartbeat. */
  method PopLatest(addresses: set<Address>, beats: Address -> int) returns (a: Address)
    requires addresses != {}
    ensures a in addresses && forall b :: b in addresses ==> beats(b) <= beats(a)
  {
    ghost var w := Pick(addresses);
    a :| a in addresses;
    var todo := addresses - {a};
    while todo != {}
      invariant a in addresses && todo <= addresses
      invariant forall b :: b in addresses && b !in todo ==> beats(b) <= beats(a)
    {
      ghost var v := Pick(todo);
      var b: Address :| b in todo;
      todo := todo - {b};
      if beats(b) > beats(a) {
        a := b;
      }
    }
  }

  /** One turn of that loop: all of an account's queue goes, or as much of it as is
      still too many. */
  method DropFrom(ghost p: Pool, r: Pool, ghost beats: Address -> int, ghost addresses: set<Address>, drop0: nat,
                  a: Address, ghost loose: set<Tx>)
    returns (q: Pool, drop: nat)
    requires Inv(r, loose) && Dropping(p, r, beats, addresses, drop0) && drop0 > 0
    requires a in addresses && forall b :: b in addresses ==> beats(b) <= beats(a)
    ensures Inv(q, loose) && Dropping(p, q, beats, addresses - {a}, drop)
  {
    assert a in addresses;
    var size := |r.queue[a].items|;
    if size <= drop0 {
      q := DropHighestQueued(r, a, size, loose);
      drop := drop0 - size;
    } else {
      q := DropHighestQueued(r, a, drop0, loose);
      drop := 0;
    }
    TidyTwice(p, r, q);
    QueueLeft(r, q, a, addresses, drop0, drop);
    QueueCut(p, r, q, a, addresses);
    LatestNext(p, r, q, beats, a, addresses, drop0);
  }

  lemma {:induction false} LatestNext(p: Pool, r: Pool, q: Pool, beats: Address -> int, x: Address,
                                      addresses: set<Address>, drop: nat)
    requires LatestFirst(p, r, beats) && OnlyAccount(r, q, x) && LowestQueued(r, q, x) && r.locals == p.locals
    requires forall b :: b in addresses ==> beats(b) <= beats(x)
    requires drop > 0 && forall b {:trigger QueueLeftAt(r, addresses, drop, b)} :: QueueLeftAt(r, addresses, drop, b)
    ensures LatestFirst(p, q, beats)
  {
    forall a, b
      ensures LatestFirstAt(p, q, beats, a, b)
    {
      assert LatestFirstAt(p, r, beats, a, b) && QueueLeftAt(r, addresses, drop, a);
      if a != x {
        OtherAccount(r, q, x, a);
      }
      if b != x {
        OtherAccount(r, q, x, b);
      }
    }
  }

  lemma {:induction false} QueueLeft(r: Pool, q: Pool, a: Address, addresses: set<Address>, wasDrop: nat, drop: nat)
    requires OnlyAccount(r, q, a) && a in addresses && drop <= wasDrop
    requires forall b {:trigger b in addresses} :: b in addresses ==> b in r.queue
    requires forall b {:trigger QueueLeftAt(r, addresses, wasDrop, b)} :: QueueLeftAt(r, addresses, wasDrop, b)
    requires drop > 0 ==> |ItemsOf(q.queue, a)| == 0
    ensures forall b {:trigger b in addresses - {a}} :: b in addresses - {a} ==> b in q.queue
    ensures forall b {:trigger QueueLeftAt(q, addresses - {a}, drop, b)} :: QueueLeftAt(q, addresses - {a}, drop, b)
  {
    var rest := addresses - {a};
    forall b | b in rest
      ensures b in q.queue
    {
      assert b in addresses;
      OtherAccount(r, q, a, b);
    }
    forall b
      ensures QueueLeftAt(q, rest, drop, b)
    {
      assert QueueLeftAt(r, addresses, wasDrop, b);
      if b != a {
        OtherAccount(r, q, a, b);
      } else {
        assert |ItemsOf(q.queue, a)| == 0 ==> ItemsOf(q.queue, a).Keys == {};
      }
    }
  }

  lemma {:induction false} QueueCut(p: Pool, r: Pool, q: Pool, a: Address, addresses: set<Address>)
    requires QueueFair(p, r) && OnlyAccount(r, q, a) && LowestQueued(r, q, a) && a in addresses
    requires forall b {:trigger b in addresses} ::
      b in addresses ==> b in r.queue && b in p.queue && r.queue[b] == p.queue[b] && b !in p.locals
    ensures QueueFair(p, q)
    ensures forall b {:trigger b in addresses - {a}} :: b in addresses - {a} ==>
      b in q.queue && q.queue[b] == p.queue[b]
  {
    forall b
      ensures QueueFairAt(p, q, b)
    {
      assert QueueFairAt(p, r, b);
      if b != a {
        OtherAccount(r, q, a, b);
      }
    }
    forall b | b in addresses - {a}
      ensures b in q.queue && q.queue[b] == p.queue[b]
    {
      assert b in addresses;
      OtherAccount(r, q, a, b);
    }
  }

  // ------------------------------------------------------ promoteExecutables

  /** Of `accounts`, those not in `todo` are promoted; all others are as before. */
  ghost predicate PromotedAt(p: Pool, q: Pool, accounts: set<Address>, todo: set<Address>, a: Address) {
    if a in accounts && a !in todo then Promotion(p, q, a) else SameAccount(p, q, a)
  }

  ghost predicate PromotedAll(p: Pool, q: Pool, accounts: set<Address>, todo: set<Address>) {
    forall a {:trigger PromotedAt(p, q, accounts, todo, a)} :: PromotedAt(p, q, accounts, todo, a)
  }

  lemma {:induction false} PromotedNext(p: Pool, r: Pool, q: Pool, accounts: set<Address>, todo: set<Address>,
                                        a: Address)
    requires PromotedAll(p, r, accounts, todo) && SameSetting(p, r) && OnlyAccount(r, q, a) && a in todo &&
      todo <= accounts
    requires Promotion(r, q, a)
    ensures PromotedAll(p, q, accounts, todo - {a})
  {
    forall b
      ensures PromotedAt(p, q, accounts, todo - {a}, b)
    {
      assert PromotedAt(p, r, accounts, todo, b);
      if b != a {
        PromotedElsewhere(p, r, q, accounts, todo, a, b);
      } else {
        PromotionFrom(p, r, q, a);
      }
    }
  }

  lemma {:induction false} PromotedElsewhere(p: Pool, r: Pool, q: Pool, accounts: set<Address>, todo: set<Address>,
                                             a: Address, b: Address)
    requires PromotedAt(p, r, accounts, todo, b) && OnlyAccount(r, q, a) && b != a
    ensures PromotedAt(p, q, accounts, todo - {a}, b)
  {
    OtherAccount(r, q, a, b);
    assert SameAccount(r, q, b);
    if b in accounts && b !in todo {
      PromotionStays(p, r, q, b);
    }
  }

  lemma {:induction false} PromotionStays(p: Pool, r: Pool, q: Pool, a: Address)
    requires Promotion(p, r, a) && SameAccount(r, q, a)
    ensures Promotion(p, q, a)
  {
  }

  lemma {:induction false} PromotionFrom(p: Pool, r: Pool, q: Pool, a: Address)
    requires SameAccount(p, r, a) && SameSetting(p, r) && Promotion(r, q, a)
    ensures Promotion(p, q, a)
  {
    var left := Affordable(p, a, ItemsOf(p.queue, a));
    assert Affordable(r, a, ItemsOf(r.queue, a)) == left;
    assert PromotionVia(r, q, a, left);
  }

  /** `q` is `r` brought within the two limits, by no more than is needed. */
  ghost predicate CappedFrom(r: Pool, q: Pool) {
    && SameSetting(r, q) && Fair(r, q) && QueueFair(r, q) && PendingBounded(q) && QueueBounded(q)
    && (if Total(r.pending) <= r.cfg.globalSlots then q.pending == r.pending
        else Total(q.pending) + |Spammers(r)| > r.cfg.globalSlots)
    && (if Total(r.queue) <= r.cfg.globalQueue then q.queue == r.queue else Total(q.queue) >= r.cfg.globalQueue)
  }

  /** What promoteExecutables does: the accounts are promoted and the whole is
      brought within the limits. */
  ghost predicate Executed(p: Pool, q: Pool, accounts: set<Address>) {
    && SameSetting(p, q) && Tidy(p, q)
    && exists r {:trigger CappedFrom(r, q)} :: SameSetting(p, r) && PromotedAll(p, r, accounts, {}) && CappedFrom(r, q)
  }

  /** promoteExecutables: promotion for the given accounts in any order, then the
      two limits. */
  method PromoteExecutables(p: Pool, accounts: set<Address>, beats: Address -> int, ghost loose: set<Tx>)
    returns (q: Pool)
    requires Inv(p, loose)
    ensures Inv(q, loose) && SameSetting(p, q) && Tidy(p, q)
    ensures NoncesOk(p) ==> NoncesOk(q)
    ensures PendingBounded(q) && QueueBounded(q)
    ensures Executed(p, q, accounts)
    ensures exists r {:trigger LatestFirst(r, q, beats)} ::
      PromotedAll(p, r, accounts, {}) && CappedFrom(r, q) && LatestFirst(r, q, beats)
  {
    q := p;
    TidySelf(p);
    var todo := accounts;
    assert forall a :: PromotedAt(p, p, accounts, accounts, a);
    while todo != {}
      invariant Inv(q, loose) && SameSetting(p, q) && Tidy(p, q)
      invariant NoncesOk(p) ==> NoncesOk(q)
      invariant PromotedAll(p, q, accounts, todo) && todo <= accounts
    {
      ghost var w := Pick(todo);
      var a: Address :| a in todo;
      ghost var before := q;
      q := PromoteAccount(q, a, loose);
      PromotedNext(p, before, q, accounts, todo, a);
      TidyTwice(p, before, q);
      todo := todo - {a};
    }
    ghost var promoted := q;
    q := CapPending(q, loose);
    ghost var mid := q;
    q := CapQueue(q, beats, loose);
    TidyTwice(p, promoted, mid);
    TidyTwice(p, mid, q);
    BothLimits(promoted, mid, q, beats);
  }

  lemma {:induction false} BothLimits(r: Pool, s: Pool, q: Pool, beats: Address -> int)
    requires SameSetting(r, s) && s.queue == r.queue && Fair(r, s) && PendingBounded(s)
    requires Total(r.pending) <= r.cfg.globalSlots ==> s == r
    requires Total(r.pending) > r.cfg.globalSlots ==> Total(s.pending) + |Spammers(r)| > r.cfg.globalSlots
    requires SameSetting(s, q) && q.pending == s.pending && q.virtual == s.virtual && QueueBounded(q) && QueueFair(s, q)
    requires Total(s.queue) <= s.cfg.globalQueue ==> q == s
    requires Total(s.queue) > s.cfg.globalQueue ==> Total(q.queue) >= s.cfg.globalQueue
    requires LatestFirst(s, q, beats)
    ensures CappedFrom(r, q) && LatestFirst(r, q, beats)
  {
    forall a, b
      ensures LatestFirstAt(r, q, beats, a, b)
    {
      assert LatestFirstAt(s, q, beats, a, b);
    }
    assert forall a {:trigger Len(q, a)} :: Len(q, a) == Len(s, a);
    forall a
      ensures FairAt(r, q, a) && QueueFairAt(r, q, a)
    {
      assert FairAt(r, s, a) && QueueFairAt(s, q, a);
      if !SameAt(r, s, a) {
        LowestOfSame(r, s, q, a);
      }
    }
  }
}
