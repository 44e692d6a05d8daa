/** Transactions and the nonce-indexed lists of core/tx_list.go as values: what
    each list operation means on a plain map from nonces to transactions. */
module TxSpec {
  import opened Options

  /** A transaction with its derived sender.  A hash identifies a transaction,
      so a map keyed by hash is a set of transactions. */
  datatype Tx = Tx(sender: Address, nonce: nat, price: int, gas: int, cost: int, value: int,
                   bytes: int, intrinsic: int, protected: bool, chiefUpdate: bool, salt: int)

  type Address = nat

  type Items = map<nat, Tx>

  datatype TxList = TxList(strict: bool, items: Items, costcap: int, gascap: int)

  function NewList(strict: bool): TxList { TxList(strict, map[], 0, 0) }

  ghost predicate Placed(m: Items) {
    forall n :: n in m ==> m[n].nonce == n
  }

  // ------------------------------------------------------- parts of a map

  function Below(m: Items, n: nat): Items { map k | k in m && k < n :: m[k] }

  function From(m: Items, n: nat): Items { map k | k in m && k >= n :: m[k] }

  ghost predicate Part(a: Items, m: Items) {
    a.Keys <= m.Keys && forall n :: n in a ==> a[n] == m[n]
  }

  /** The transactions of a list, each once, in any order. */
  ghost predicate Listing(s: seq<Tx>, m: Items) {
    forall tx {:trigger multiset(s)[tx]} :: multiset(s)[tx] == if Holds(m, tx) then 1 else 0
  }

  predicate Holds(m: Items, tx: Tx) { tx.nonce in m && m[tx.nonce] == tx }

  ghost predicate Increasing(s: seq<Tx>) {
    forall i, j :: 0 <= i < j < |s| ==> s[i].nonce < s[j].nonce
  }

  ghost predicate Sorted(s: seq<Tx>, m: Items) { Listing(s, m) && Increasing(s) }

  lemma {:induction false} Listed(s: seq<Tx>, m: Items, tx: Tx)
    requires Listing(s, m)
    ensures tx in s <==> Holds(m, tx)
  {
    assert tx in s <==> multiset(s)[tx] > 0;
  }

  lemma {:induction false} ListingAppend(s: seq<Tx>, m: Items, tx: Tx)
    requires Listing(s, m) && tx.nonce !in m
    ensures Listing(s + [tx], m[tx.nonce := tx])
  {
    forall x
      ensures multiset(s + [tx])[x] == if Holds(m[tx.nonce := tx], x) then 1 else 0
    {
      assert multiset(s + [tx])[x] == multiset(s)[x] + if x == tx then 1 else 0;
    }
  }

  lemma {:induction false} ListingEmpty(s: seq<Tx>)
    requires Listing(s, map[])
    ensures s == []
  {
    if s != [] {
      Listed(s, map[], s[0]);
    }
  }

  lemma {:induction false} SameSize<T>(a: set<T>, b: set<T>)
    requires a <= b && |a| == |b|
    ensures a == b
  {
    assert b == a + (b - a);
    assert |b| == |a| + |b - a|;
  }

  lemma {:induction false} SamePart(a: Items, m: Items)
    requires Part(a, m) && m.Keys <= a.Keys
    ensures a == m
  {
    forall k: nat
      ensures k in a <==> k in m
    {
    }
    SameMap(a, m);
  }

  lemma {:induction false} Cancel<T>(a: multiset<T>, b: multiset<T>, x: T)
    requires a + multiset{x} == b + multiset{x}
    ensures a == b
  {
    forall y
      ensures a[y] == b[y]
    {
      assert (a + multiset{x})[y] == a[y] + multiset{x}[y];
      assert (b + multiset{x})[y] == b[y] + multiset{x}[y];
    }
  }

  lemma {:induction false} SameMap<K, V>(a: map<K, V>, b: map<K, V>)
    requires forall k :: k in a <==> k in b
    requires forall k :: k in a ==> a[k] == b[k]
    ensures a == b
  {
  }

  lemma {:induction false} Pick<T>(s: set<T>) returns (x: T)
    requires s != {}
    ensures x in s
  {
    x :| x in s;
  }

  lemma {:induction false} KeysWithout(m: Items, n: nat)
    requires n in m
    ensures (m - {n}).Keys == m.Keys - {n} && |m - {n}| == |m| - 1
  {
    assert (m - {n}).Keys == m.Keys - {n};
    assert |(m - {n}).Keys| == |m - {n}|;
  }

  lemma {:induction false} FirstIsLowest(s: seq<Tx>, m: Items)
    requires Sorted(s, m) && Placed(m) && m != map[]
    ensures s != [] && s[0] == m[Lowest(m)]
  {
    var lo := Lowest(m);
    Listed(s, m, m[lo]);
    Listed(s, m, s[0]);
    assert exists i :: 0 <= i < |s| && s[i] == m[lo];
  }

  lemma {:induction false} LastIsHighest(s: seq<Tx>, m: Items)
    requires Sorted(s, m) && Placed(m) && m != map[]
    ensures s != [] && s[|s| - 1] == m[Highest(m)]
  {
    var hi := Highest(m);
    Listed(s, m, m[hi]);
    Listed(s, m, s[|s| - 1]);
    assert exists i :: 0 <= i < |s| && s[i] == m[hi];
  }

  lemma {:induction false} ListingWithout(s: seq<Tx>, r: seq<Tx>, m: Items, tx: Tx)
    requires Listing(s, m) && Holds(m, tx) && multiset(s) == multiset(r) + multiset{tx}
    ensures Listing(r, m - {tx.nonce})
  {
    forall x
      ensures multiset(r)[x] == if Holds(m - {tx.nonce}, x) then 1 else 0
    {
      assert multiset(s)[x] == multiset(r)[x] + if x == tx then 1 else 0;
    }
  }

  lemma {:induction false} SortedTail(s: seq<Tx>, m: Items)
    requires Sorted(s, m) && Placed(m) && m != map[]
    ensures s != [] && Sorted(s[1..], m - {Lowest(m)})
  {
    FirstIsLowest(s, m);
    assert s == [s[0]] + s[1..];
    ListingWithout(s, s[1..], m, s[0]);
  }

  lemma {:induction false} SortedFront(s: seq<Tx>, m: Items)
    requires Sorted(s, m) && Placed(m) && m != map[]
    ensures s != [] && Sorted(s[..|s| - 1], m - {Highest(m)})
  {
    LastIsHighest(s, m);
    assert s == s[..|s| - 1] + [s[|s| - 1]];
    ListingWithout(s, s[..|s| - 1], m, s[|s| - 1]);
  }

  /** The sorted contents are unique, so a cached sort is as good as a new one. */
  lemma {:induction false} SortedUnique(s: seq<Tx>, t: seq<Tx>, m: Items)
    requires Sorted(s, m) && Sorted(t, m) && Placed(m)
    ensures s == t
    decreases |m|
  {
    if m == map[] {
      ListingEmpty(s);
      ListingEmpty(t);
    } else {
      FirstIsLowest(s, m);
      FirstIsLowest(t, m);
      SortedTail(s, m);
      SortedTail(t, m);
      KeysWithout(m, Lowest(m));
      SortedUnique(s[1..], t[1..], m - {Lowest(m)});
      assert s == [s[0]] + s[1..] && t == [t[0]] + t[1..];
    }
  }

  // ------------------------------------------------- lowest, highest, runs

  function Lowest(m: Items): (n: nat)
    requires m != map[]
    ensures n in m && forall k :: k in m ==> n <= k
  {
    LeastExists(m.Keys);
    var n :| n in m && forall k :: k in m ==> n <= k;
    n
  }

  lemma {:induction false} Least(s: set<nat>) returns (n: nat)
    requires s != {}
    ensures n in s && forall k :: k in s ==> n <= k
    decreases |s|
  {
    var x := Pick(s);
    var rest := s - {x};
    assert forall k :: k in s ==> k == x || k in rest;
    n := x;
    if rest != {} {
      var y := Least(rest);
      n := if x < y then x else y;
    }
  }

  lemma {:induction false} LeastExists(s: set<nat>)
    requires s != {}
    ensures exists n :: n in s && forall k :: k in s ==> n <= k
  {
    var n := Least(s);
  }

  function Highest(m: Items): (n: nat)
    requires m != map[]
    ensures n in m && forall k :: k in m ==> k <= n
  {
    GreatestExists(m.Keys);
    var n :| n in m && forall k :: k in m ==> k <= n;
    n
  }

  lemma {:induction false} Greatest(s: set<nat>) returns (n: nat)
    requires s != {}
    ensures n in s && forall k :: k in s ==> k <= n
    decreases |s|
  {
    var x := Pick(s);
    var rest := s - {x};
    assert forall k :: k in s ==> k == x || k in rest;
    n := x;
    if rest != {} {
      var y := Greatest(rest);
      n := if x < y then y else x;
    }
  }

  lemma {:induction false} GreatestExists(s: set<nat>)
    requires s != {}
    ensures exists n :: n in s && forall k :: k in s ==> k <= n
  {
    var n := Greatest(s);
  }

  /** First nonce from `n` on that is not in the map. */
  function RunEnd(m: Items, n: nat): (e: nat)
    ensures e >= n && e !in m && forall k :: n <= k < e ==> k in m
    decreases |From(m, n)|
  {
    if n !in m then n
    else
      assert From(m, n + 1) == From(m, n) - {n};
      KeysWithout(From(m, n), n);
      RunEnd(m, n + 1)
  }

  // ------------------------------------------------- the list operations

  predicate Accepts(l: TxList, tx: Tx, priceBump: nat) {
    tx.nonce !in l.items ||
    (l.items[tx.nonce].price < tx.price &&
     l.items[tx.nonce].price * (100 + priceBump) / 100 <= tx.price)
  }

  /** A transaction is replaced exactly by a dearer one that reaches the old price
      and the bump, in whole units of price: a dearer one that misses it by a unit
      or more is refused. */
  lemma {:induction false} ReplacesIff(l: TxList, tx: Tx, priceBump: nat)
    requires tx.nonce in l.items
    ensures Accepts(l, tx, priceBump) <==>
      && tx.price > l.items[tx.nonce].price
      && 100 * tx.price + 100 > (100 + priceBump) * l.items[tx.nonce].price
  {
    var x := l.items[tx.nonce].price * (100 + priceBump);
    assert x == (100 + priceBump) * l.items[tx.nonce].price;
    assert x == 100 * (x / 100) + x % 100;
  }

  function Max(a: int, b: int): int { if a < b then b else a }

  /** The list after an accepted Add. */
  function Added(l: TxList, tx: Tx): TxList {
    l.(items := l.items[tx.nonce := tx], costcap := Max(l.costcap, tx.cost), gascap := Max(l.gascap, tx.gas))
  }

  function Replaced(l: TxList, tx: Tx): Option<Tx> {
    if tx.nonce in l.items then Some(l.items[tx.nonce]) else None
  }

  function Forwarded(l: TxList, n: nat): TxList { l.(items := From(l.items, n)) }

  predicate TooCostly(tx: Tx, costLimit: int, gasLimit: int) {
    tx.cost > costLimit || tx.gas > gasLimit
  }

  function Costly(m: Items, costLimit: int, gasLimit: int): Items {
    map n | n in m && TooCostly(m[n], costLimit, gasLimit) :: m[n]
  }

  /** What Filter drops because of cost or gas. */
  function FilterDrops(l: TxList, costLimit: int, gasLimit: int): Items {
    if l.costcap <= costLimit && l.gascap <= gasLimit then map[]
    else Costly(l.items, costLimit, gasLimit)
  }

  /** What a strict list gives up besides: everything above a dropped nonce. */
  function FilterInvalids(l: TxList, costLimit: int, gasLimit: int): Items {
    var drops := FilterDrops(l, costLimit, gasLimit);
    if l.strict && drops != map[] then
      map n | n in l.items && n !in drops && n > Lowest(drops) :: l.items[n]
    else map[]
  }

  function Filtered(l: TxList, costLimit: int, gasLimit: int): TxList {
    if l.costcap <= costLimit && l.gascap <= gasLimit then l
    else l.(items := l.items - FilterDrops(l, costLimit, gasLimit).Keys
                             - FilterInvalids(l, costLimit, gasLimit).Keys,
            costcap := costLimit, gascap := gasLimit)
  }

  /** The lowest `n` transactions. */
  function Lower(m: Items, n: nat): Items
    decreases |m|
  {
    if |m| <= n then m
    else
      KeysWithout(m, Highest(m));
      Lower(m - {Highest(m)}, n)
  }

  function Capped(l: TxList, n: nat): TxList { l.(items := Lower(l.items, n)) }

  /** Remove takes out the transaction with this nonce; a strict list also
      gives up everything above it. */
  function RemoveInvalids(l: TxList, nonce: nat): Items {
    if l.strict && nonce in l.items then From(l.items, nonce + 1) else map[]
  }

  function Removed(l: TxList, nonce: nat): TxList {
    if nonce !in l.items then l
    else l.(items := l.items - {nonce} - RemoveInvalids(l, nonce).Keys)
  }

  /** What Ready hands out: the run from the lowest nonce, if that nonce is not
      above `start`. */
  function ReadyItems(m: Items, start: nat): Items {
    if m == map[] || Lowest(m) > start then map[]
    else Below(m, RunEnd(m, Lowest(m)))
  }

  function Readied(l: TxList, start: nat): TxList {
    l.(items := l.items - ReadyItems(l.items, start).Keys)
  }

  // ------------------------------------------------------ what they keep

  lemma {:induction false} LowerKeeps(m: Items, n: nat)
    ensures Lower(m, n).Keys <= m.Keys
    ensures forall k :: k in Lower(m, n) ==> Lower(m, n)[k] == m[k]
    ensures |Lower(m, n)| == if |m| <= n then |m| else n
    ensures forall k, d :: k in Lower(m, n) && d in m && d !in Lower(m, n) ==> k < d
    decreases |m|
  {
    if |m| > n {
      var h := Highest(m);
      KeysWithout(m, h);
      LowerKeeps(m - {h}, n);
    }
  }

  /** A part of the right size with everything else above it is the lower part. */
  lemma {:induction false} LowerIs(m: Items, part: Items, n: nat)
    requires Part(part, m) && |part| == n <= |m|
    requires forall k, d :: k in part && d in m && d !in part ==> k < d
    ensures part == Lower(m, n)
  {
    LowerKeeps(m, n);
    var low := Lower(m, n);
    assert |part.Keys| == |low.Keys|;
    if part.Keys <= low.Keys {
      SameSize(part.Keys, low.Keys);
    } else {
      var x := Pick(part.Keys - low.Keys);
      forall y | y in low
        ensures y in part
      {
        assert x in m && y in m;
      }
      SameSize(low.Keys, part.Keys);
    }
    SameMap(part, low);
  }

  lemma {:induction false} LowerLower(m: Items, n: nat, k: nat)
    requires k <= |Lower(m, n)|
    ensures Lower(Lower(m, n), k) == Lower(m, k)
  {
    var low := Lower(m, n);
    LowerKeeps(m, n);
    LowerKeeps(low, k);
    LowerIs(m, Lower(low, k), k);
  }

  /** What Ready hands out is consecutive from the lowest nonce, and cannot be
      extended. */
  lemma {:induction false} ReadyIsRun(m: Items, start: nat)
    ensures ReadyItems(m, start) != map[] ==>
      && Lowest(m) <= start
      && (forall k :: k in ReadyItems(m, start) <==> Lowest(m) <= k < RunEnd(m, Lowest(m)))
      && RunEnd(m, Lowest(m)) !in m
    ensures ReadyItems(m, start) == map[] <==> m == map[] || Lowest(m) > start
  {
    if m != map[] && Lowest(m) <= start {
      var lo := Lowest(m);
      var r := ReadyItems(m, start);
      assert lo in r;
      assert forall k :: k in r <==> lo <= k < RunEnd(m, lo);
    }
  }

  /** The caps bound every transaction held. */
  ghost predicate CapsBound(l: TxList) {
    forall n :: n in l.items ==> l.items[n].cost <= l.costcap && l.items[n].gas <= l.gascap
  }

  /** Filter's short circuit answers as the full scan would. */
  lemma {:induction false} FilterShortCircuit(l: TxList, costLimit: int, gasLimit: int)
    requires CapsBound(l)
    ensures FilterDrops(l, costLimit, gasLimit) == Costly(l.items, costLimit, gasLimit)
  {
    if l.costcap <= costLimit && l.gascap <= gasLimit {
      forall n | n in l.items
        ensures !TooCostly(l.items[n], costLimit, gasLimit)
      {
      }
      assert Costly(l.items, costLimit, gasLimit) == map[];
    }
  }

  datatype ListOp =
    | OpAdd(tx: Tx, priceBump: nat)
    | OpForward(n: nat)
    | OpFilter(costLimit: int, gasLimit: int)
    | OpCap(size: nat)
    | OpRemove(n: nat)
    | OpReady(n: nat)

  ghost function Apply(l: TxList, op: ListOp): TxList {
    match op
    case OpAdd(tx, bump) => if Accepts(l, tx, bump) then Added(l, tx) else l
    case OpForward(n) => Forwarded(l, n)
    case OpFilter(c, g) => Filtered(l, c, g)
    case OpCap(n) => Capped(l, n)
    case OpRemove(n) => Removed(l, n)
    case OpReady(n) => Readied(l, n)
  }

  ghost function Run(l: TxList, ops: seq<ListOp>): TxList {
    if ops == [] then l else Apply(Run(l, ops[..|ops| - 1]), ops[|ops| - 1])
  }

  /** Over every sequence of operations the caps bound the held transactions
      and every transaction sits under its nonce, so Filter always returns what
      the full scan returns. */
  lemma {:induction false} CapsBoundAlways(strict: bool, ops: seq<ListOp>, costLimit: int, gasLimit: int)
    ensures var l := Run(NewList(strict), ops);
      && CapsBound(l) && Placed(l.items)
      && FilterDrops(l, costLimit, gasLimit) == Costly(l.items, costLimit, gasLimit)
    decreases |ops|
  {
    if ops != [] {
      CapsBoundAlways(strict, ops[..|ops| - 1], costLimit, gasLimit);
      ApplyKeeps(Run(NewList(strict), ops[..|ops| - 1]), ops[|ops| - 1]);
    }
    FilterShortCircuit(Run(NewList(strict), ops), costLimit, gasLimit);
  }

  lemma {:induction false} ApplyKeeps(l: TxList, op: ListOp)
    requires CapsBound(l) && Placed(l.items)
    ensures CapsBound(Apply(l, op)) && Placed(Apply(l, op).items)
  {
    match op {
      case OpCap(n) => LowerKeeps(l.items, n);
      case OpFilter(c, g) => FilterShortCircuit(l, c, g);
      case _ =>
    }
  }

  /** The nonces of a strict list have no gap. */
  ghost predicate Contiguous(m: Items) {
    forall a, b, c: nat :: a in m && c in m && a <= b <= c ==> b in m
  }

  /** Every way a strict list shrinks leaves it without a gap. */
  lemma {:induction false} StaysContiguous(l: TxList, op: ListOp)
    requires l.strict && Contiguous(l.items) && !op.OpAdd?
    ensures Contiguous(Apply(l, op).items)
  {
    match op {
      case OpCap(n) => LowerKeeps(l.items, n);
      case OpReady(n) => ReadyIsRun(l.items, n);
      case _ =>
    }
  }

  /** Adding stays without a gap exactly when the nonce is held already, the
      list is empty, or the nonce continues it at either end. */
  lemma {:induction false} AddContiguous(l: TxList, tx: Tx)
    requires Contiguous(l.items)
    ensures Contiguous(Added(l, tx).items) <==>
      || tx.nonce in l.items || l.items == map[]
      || tx.nonce == Highest(l.items) + 1 || tx.nonce + 1 == Lowest(l.items)
  {
    var m := Added(l, tx).items;
    var n := tx.nonce;
    if n !in l.items && l.items != map[] {
      var lo, hi := Lowest(l.items), Highest(l.items);
      if n > hi + 1 {
        assert hi in m && n in m && hi + 1 !in m;
      } else if n + 1 < lo {
        assert lo in m && n in m && n + 1 !in m;
      }
    }
  }
}
