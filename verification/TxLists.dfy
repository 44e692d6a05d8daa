/** txSortedMap and txList of core/tx_list.go: a hash map with a nonce heap and
    a cached sort, proved to behave as the plain map of TxSpec. */
module TxLists {
  import opened Options
  import opened TxSpec
  import Heap

  function Id(n: nat): int { n }

  function NonceOf(tx: Tx): int { tx.nonce }

  /** The heap holds exactly the keys, each once. */
  ghost predicate Indexes(index: seq<nat>, items: Items) {
    Heap.Ordered(index, Id) && multiset(index) == multiset(items.Keys)
  }

  lemma {:induction false} IndexLength(index: seq<nat>, items: Items)
    requires multiset(index) == multiset(items.Keys)
    ensures |index| == |items|
    ensures items == map[] <==> index == []
  {
    assert |multiset(index)| == |index|;
    assert |multiset(items.Keys)| == |items.Keys|;
    assert items.Keys == {} ==> items == map[];
  }

  lemma {:induction false} IndexHolds(index: seq<nat>, items: Items, n: nat)
    requires multiset(index) == multiset(items.Keys)
    ensures n in items <==> n in index
  {
    assert n in index <==> n in multiset(index);
  }

  lemma {:induction false} IndexLeast(index: seq<nat>, items: Items)
    requires Indexes(index, items)
    ensures |index| == |items|
    ensures items == map[] <==> index == []
    ensures items != map[] ==> index[0] == Lowest(items)
  {
    IndexLength(index, items);
    if items != map[] {
      var lo := Lowest(items);
      IndexHolds(index, items, lo);
      IndexHolds(index, items, index[0]);
      Heap.LeastOfAll<nat>(index, Id);
      assert Id(index[0]) <= Id(lo);
    }
  }

  lemma {:induction false} IndexWithout(index: seq<nat>, rest: seq<nat>, items: Items, n: nat)
    requires multiset(index) == multiset(items.Keys) && multiset(index) == multiset(rest) + multiset{n}
    ensures n in items && multiset(rest) == multiset((items - {n}).Keys)
  {
    assert n in multiset(items.Keys);
    KeysWithout(items, n);
    assert multiset(items.Keys) == multiset((items - {n}).Keys) + multiset{n};
    Cancel(multiset(rest), multiset((items - {n}).Keys), n);
  }

  // ------------------------------------------- a map taken apart piecewise

  /** `taken` lists what has been taken from `m`, and `left` is left. */
  ghost predicate Taken(m: Items, left: Items, taken: seq<Tx>) {
    Placed(m) && Placed(left) && Part(left, m) && Listing(taken, m - left.Keys)
  }

  lemma {:induction false} TakeOne(m: Items, left: Items, taken: seq<Tx>, n: nat)
    requires Taken(m, left, taken) && n in left
    ensures Taken(m, left - {n}, taken + [left[n]])
  {
    var gone := m - left.Keys;
    ListingAppend(taken, gone, left[n]);
    assert m - (left - {n}).Keys == gone[n := left[n]];
  }

  /** Taken from the low end, in order. */
  ghost predicate TakenLow(m: Items, left: Items, taken: seq<Tx>) {
    && Taken(m, left, taken) && Increasing(taken)
    && (left != map[] ==> forall tx :: tx in taken ==> tx.nonce < Lowest(left))
  }

  lemma {:induction false} TakeLowest(m: Items, left: Items, taken: seq<Tx>)
    requires TakenLow(m, left, taken) && left != map[]
    ensures TakenLow(m, left - {Lowest(left)}, taken + [left[Lowest(left)]])
  {
    var n := Lowest(left);
    TakeOne(m, left, taken, n);
    KeysWithout(left, n);
    if left - {n} != map[] {
      assert n < Lowest(left - {n});
    }
  }

  /** Taken from the high end, highest first. */
  ghost predicate TakenHigh(m: Items, left: Items, taken: seq<Tx>) {
    && Taken(m, left, taken) && Decreasing(taken)
    && (left != map[] ==> forall tx :: tx in taken ==> tx.nonce > Highest(left))
  }

  ghost predicate Decreasing(s: seq<Tx>) {
    forall i, j :: 0 <= i < j < |s| ==> s[i].nonce > s[j].nonce
  }

  lemma {:induction false} TakeHighest(m: Items, left: Items, taken: seq<Tx>)
    requires TakenHigh(m, left, taken) && left != map[]
    ensures TakenHigh(m, left - {Highest(left)}, taken + [left[Highest(left)]])
  {
    var n := Highest(left);
    TakeOne(m, left, taken, n);
    KeysWithout(left, n);
    if left - {n} != map[] {
      assert Highest(left - {n}) < n;
    }
  }

  lemma {:induction false} TakenNone(m: Items)
    requires Placed(m)
    ensures TakenLow(m, m, []) && TakenHigh(m, m, [])
  {
    assert m - m.Keys == map[];
  }

  /** A cached sort follows the map when the first `k` are cut off. */
  lemma {:induction false} CutFront(c: seq<Tx>, k: nat, m: Items)
    requires k <= |c| && Sorted(c[k..], m) && Placed(m) && m != map[]
    ensures k < |c| && Sorted(c[k + 1..], m - {Lowest(m)})
  {
    SortedTail(c[k..], m);
    assert c[k..][1..] == c[k + 1..];
  }

  lemma {:induction false} CutBack(c: seq<Tx>, k: nat, m: Items)
    requires k <= |c| && Sorted(c[..k], m) && Placed(m) && m != map[]
    ensures k > 0 && Sorted(c[..k - 1], m - {Highest(m)})
  {
    SortedFront(c[..k], m);
    assert c[..k][..k - 1] == c[..k - 1];
  }

  ghost predicate CacheFrom(cache: Option<seq<Tx>>, k: nat, m: Items) {
    cache.Some? ==> k <= |cache.value| && Sorted(cache.value[k..], m)
  }

  ghost predicate CacheUpTo(cache: Option<seq<Tx>>, k: nat, m: Items) {
    cache.Some? ==> k <= |cache.value| && Sorted(cache.value[..|cache.value| - k], m)
  }

  lemma {:induction false} CacheWhole(cache: Option<seq<Tx>>, m: Items)
    requires cache.Some? ==> Sorted(cache.value, m)
    ensures CacheFrom(cache, 0, m) && CacheUpTo(cache, 0, m)
  {
    if cache.Some? {
      assert cache.value[0..] == cache.value;
      assert cache.value[..|cache.value| - 0] == cache.value;
    }
  }

  lemma {:induction false} CacheLowest(cache: Option<seq<Tx>>, k: nat, m: Items)
    requires CacheFrom(cache, k, m) && Placed(m) && m != map[]
    ensures CacheFrom(cache, k + 1, m - {Lowest(m)})
  {
    if cache.Some? {
      CutFront(cache.value, k, m);
    }
  }

  lemma {:induction false} CacheHighest(cache: Option<seq<Tx>>, k: nat, m: Items)
    requires CacheUpTo(cache, k, m) && Placed(m) && m != map[]
    ensures CacheUpTo(cache, k + 1, m - {Highest(m)})
  {
    if cache.Some? {
      CutBack(cache.value, |cache.value| - k, m);
    }
  }

  class SortedMap {
    var items: Items
    var index: seq<nat>
    var cache: Option<seq<Tx>>

    ghost predicate Valid()
      reads this
    {
      && Placed(items)
      && Indexes(index, items)
      && (cache.Some? ==> Sorted(cache.value, items))
    }

    constructor ()
      ensures Valid() && items == map[]
    {
      items, index, cache := map[], [], None;
    }

    method Put(tx: Tx)
      requires Valid()
      modifies this
      ensures Valid() && items == old(items)[tx.nonce := tx]
    {
      if tx.nonce !in items {
        index := Heap.Push<nat>(index, Id, tx.nonce);
      }
      PutKeys(old(items), tx);
      items := items[tx.nonce := tx];
      cache := None;
    }

    static lemma {:induction false} PutKeys(m: Items, tx: Tx)
      ensures var k := m[tx.nonce := tx].Keys;
        multiset(k) == if tx.nonce in m then multiset(m.Keys) else multiset(m.Keys) + multiset{tx.nonce}
    {
      assert m[tx.nonce := tx].Keys == m.Keys + {tx.nonce};
    }

    /** Forward: drops and returns, in order, everything below the threshold;
        a cached sort is cut at the front. */
    method Forward(threshold: nat) returns (removed: seq<Tx>)
      requires Valid()
      modifies this
      ensures Valid()
      ensures items == From(old(items), threshold)
      ensures Sorted(removed, Below(old(items), threshold))
    {
      removed := [];
      var left: Items := items;
      var heap: seq<nat> := index;
      TakenNone(items);
      CacheWhole(cache, items);
      while |heap| > 0 && heap[0] < threshold
        invariant Indexes(heap, left) && TakenLow(items, left, removed)
        invariant CacheFrom(cache, |removed|, left)
        invariant forall n :: n in items && n !in left ==> n < threshold
        modifies {}
        decreases |left|
      {
        var n, rest := PopLowest(heap, left);
        TakeLowest(items, left, removed);
        CacheLowest(cache, |removed|, left);
        removed := removed + [left[n]];
        left := left - {n};
        heap := rest;
      }
      IndexLeast(heap, left);
      ForwardDone(items, left, threshold);
      items, index := left, heap;
      if cache.Some? {
        cache := Some(cache.value[|removed|..]);
      }
    }

    static lemma {:induction false} ForwardDone(m: Items, left: Items, threshold: nat)
      requires Part(left, m) && forall n :: n in m && n !in left ==> n < threshold
      requires left != map[] ==> Lowest(left) >= threshold
      ensures left == From(m, threshold) && m - left.Keys == Below(m, threshold)
    {
      forall n | n in left
        ensures n >= threshold
      {
      }
    }

    /** Filter: drops and returns, in any order, what the test holds for. */
    method Filter(test: Tx -> bool) returns (removed: seq<Tx>)
      requires Valid()
      modifies this
      ensures Valid()
      ensures items == Failing(old(items), test)
      ensures Listing(removed, Passing(old(items), test))
    {
      removed := [];
      var left: Items := items;
      var todo: set<nat> := items.Keys;
      TakenNone(items);
      while todo != {}
        invariant todo <= left.Keys && Taken(items, left, removed)
        invariant forall n :: n in items && n !in left ==> test(items[n])
        invariant forall n :: n in left && n !in todo ==> !test(left[n])
        modifies {}
      {
        ghost var w := Pick(todo);
        var n :| n in todo;
        todo := todo - {n};
        if test(left[n]) {
          TakeOne(items, left, removed, n);
          removed := removed + [left[n]];
          left := left - {n};
        }
      }
      FilterDone(items, left, removed, test);
      if |removed| > 0 {
        var keys := KeySequence(left);
        index := Heap.Init<nat>(keys, Id);
        cache := None;
      }
      items := left;
    }

    static lemma {:induction false} FilterDone(m: Items, left: Items, removed: seq<Tx>, test: Tx -> bool)
      requires Taken(m, left, removed)
      requires forall n :: n in m && n !in left ==> test(m[n])
      requires forall n :: n in left ==> !test(left[n])
      ensures left == Failing(m, test) && m - left.Keys == Passing(m, test)
      ensures removed == [] ==> left == m
    {
      forall k: nat
        ensures k in left <==> k in Failing(m, test)
        ensures k in m - left.Keys <==> k in Passing(m, test)
      {
        assert k in left ==> left[k] == m[k];
      }
      SameMap(left, Failing(m, test));
      SameMap(m - left.Keys, Passing(m, test));
      if removed == [] {
        forall n | n in m
          ensures n in left
        {
          if n !in left {
            Listed(removed, m - left.Keys, m[n]);
          }
        }
        SamePart(left, m);
      }
    }

    /** The keys of a map, in any order. */
    static method KeySequence(m: Items) returns (s: seq<nat>)
      ensures multiset(s) == multiset(m.Keys)
    {
      s := [];
      var todo: set<nat> := m.Keys;
      while todo != {}
        invariant multiset(s) + multiset(todo) == multiset(m.Keys)
      {
        ghost var w := Pick(todo);
        var n :| n in todo;
        todo := todo - {n};
        s := s + [n];
      }
    }

    /** Cap: keeps the lowest nonces; returns the others, highest first. */
    method Cap(threshold: nat) returns (drops: seq<Tx>)
      requires Valid()
      modifies this
      ensures Valid()
      ensures items == Lower(old(items), threshold)
      ensures Listing(drops, old(items) - items.Keys) && Decreasing(drops)
    {
      drops := [];
      TakenNone(items);
      if |items| <= threshold {
        return;
      }
      var heap := Heap.Sort<nat>(index, Id);
      CacheWhole(cache, items);
      var left;
      left, drops := DropHighest(items, heap, threshold, cache);
      index := Heap.Init<nat>(heap[..threshold], Id);
      items := left;
      if cache.Some? {
        cache := Some(cache.value[..|cache.value| - |drops|]);
      }
    }

    /** The loop of Cap: takes the highest nonces off a sorted index. */
    static method DropHighest(m: Items, heap: seq<nat>, threshold: nat, ghost cache: Option<seq<Tx>>)
      returns (left: Items, drops: seq<Tx>)
      requires Placed(m) && Heap.Ascending(heap, Id) && multiset(heap) == multiset(m.Keys)
      requires threshold < |m| && CacheUpTo(cache, 0, m)
      ensures threshold <= |heap| && multiset(heap[..threshold]) == multiset(left.Keys)
      ensures left == Lower(m, threshold) && Placed(left)
      ensures Listing(drops, m - left.Keys) && Decreasing(drops)
      ensures CacheUpTo(cache, |drops|, left)
    {
      drops := [];
      TakenNone(m);
      IndexLength(heap, m);
      left := m;
      var size := |m|;
      assert heap[..size] == heap;
      while size > threshold
        invariant threshold <= size == |left| <= |heap|
        invariant multiset(heap[..size]) == multiset(left.Keys)
        invariant TakenHigh(m, left, drops) && CacheUpTo(cache, |drops|, left)
        decreases size
      {
        CapStep(heap, size, left);
        TakeHighest(m, left, drops);
        CacheHighest(cache, |drops|, left);
        var n := heap[size - 1];
        drops := drops + [left[n]];
        left := left - {n};
        size := size - 1;
      }
      CapDone(m, left, drops);
    }

    static lemma {:induction false} CapDone(m: Items, left: Items, drops: seq<Tx>)
      requires TakenHigh(m, left, drops) && |left| <= |m|
      ensures left == Lower(m, |left|)
    {
      forall k, d | k in left && d in m && d !in left
        ensures k < d
      {
        Listed(drops, m - left.Keys, m[d]);
        assert k <= Highest(left);
      }
      LowerIs(m, left, |left|);
    }

    /** In a sorted index the last key is the highest. */
    static lemma {:induction false} CapStep(index: seq<nat>, size: nat, items: Items)
      requires 0 < size == |items| <= |index|
      requires Heap.Ascending(index, Id) && multiset(index[..size]) == multiset(items.Keys)
      ensures items != map[] && index[size - 1] == Highest(items)
      ensures |items - {index[size - 1]}| == size - 1
      ensures multiset(index[..size - 1]) == multiset((items - {index[size - 1]}).Keys)
    {
      var n := index[size - 1];
      assert index[..size] == index[..size - 1] + [n];
      IndexWithout(index[..size], index[..size - 1], items, n);
      KeysWithout(items, n);
      var h := Highest(items);
      IndexHolds(index[..size], items, h);
      var i :| 0 <= i < size && index[i] == h;
      assert i < size - 1 ==> Id(index[i]) <= Id(index[size - 1]);
    }

    method Remove(nonce: nat) returns (found: bool)
      requires Valid()
      modifies this
      ensures Valid()
      ensures found == (nonce in old(items)) && items == old(items) - {nonce}
    {
      if nonce !in items {
        assert items - {nonce} == items;
        return false;
      }
      IndexHolds(index, items, nonce);
      var i := 0;
      while index[i] != nonce
        invariant 0 <= i < |index| && nonce in index[i..]
        modifies {}
        decreases |index| - i
      {
        assert index[i..] == [index[i]] + index[i + 1..];
        i := i + 1;
      }
      var rest := Heap.RemoveAt<nat>(index, Id, i);
      IndexWithout(index, rest, items, nonce);
      index := rest;
      items := items - {nonce};
      cache := None;
      found := true;
    }

    /** Ready: hands out, in order, the run from the lowest nonce, unless that
        nonce is above `start`. */
    method Ready(start: nat) returns (ready: seq<Tx>)
      requires Valid()
      modifies this
      ensures Valid()
      ensures items == old(items) - ReadyItems(old(items), start).Keys
      ensures Sorted(ready, ReadyItems(old(items), start))
    {
      ready := [];
      IndexLeast(index, items);
      TakenNone(items);
      if |index| == 0 || index[0] > start {
        return;
      }
      var left, heap;
      left, heap, ready := TakeRun(items, index, start);
      items, index, cache := left, heap, None;
    }

    /** The loop of Ready. */
    static method TakeRun(m: Items, index: seq<nat>, ghost start: nat)
      returns (left: Items, heap: seq<nat>, ready: seq<Tx>)
      requires Placed(m) && Indexes(index, m) && m != map[] && Lowest(m) <= start
      ensures left == m - ReadyItems(m, start).Keys && Placed(left) && Indexes(heap, left)
      ensures Sorted(ready, ReadyItems(m, start))
    {
      IndexLeast(index, m);
      TakenNone(m);
      var next: nat := index[0];
      ghost var lo: nat := next;
      left, heap, ready := m, index, [];
      while |heap| > 0 && heap[0] == next
        invariant Indexes(heap, left) && TakenLow(m, left, ready)
        invariant RunTaken(m, left, lo, next)
        decreases |left|
      {
        var n, rest := PopLowest(heap, left);
        TakeLowest(m, left, ready);
        RunNext(m, left, lo, next);
        ready := ready + [left[n]];
        left := left - {n};
        heap := rest;
        next := next + 1;
      }
      IndexLeast(heap, left);
      ReadyDone(m, left, start, lo, next);
    }

    /** heap.Pop on the index gives the lowest nonce. */
    static method PopLowest(heap: seq<nat>, left: Items) returns (n: nat, rest: seq<nat>)
      requires Indexes(heap, left) && |heap| > 0
      ensures left != map[] && n == heap[0] == Lowest(left)
      ensures Indexes(rest, left - {n}) && |left - {n}| < |left|
    {
      IndexLeast(heap, left);
      n, rest := Heap.Pop<nat>(heap, Id);
      IndexWithout(heap, rest, left, n);
      KeysWithout(left, n);
    }

    /** Exactly the nonces lo, ..., next - 1 have been taken. */
    static ghost predicate RunTaken(m: Items, left: Items, lo: nat, next: nat) {
      && Part(left, m) && lo <= next && m != map[] && lo == Lowest(m)
      && (forall n {:trigger n in m} {:trigger n in left} ::
            if lo <= n < next then n in m && n !in left else n in m <==> n in left)
    }

    static lemma {:induction false} RunNext(m: Items, left: Items, lo: nat, next: nat)
      requires RunTaken(m, left, lo, next) && next in left
      ensures RunTaken(m, left - {next}, lo, next + 1)
    {
    }

    static lemma {:induction false} ReadyDone(m: Items, left: Items, start: nat, lo: nat, next: nat)
      requires RunTaken(m, left, lo, next) && lo <= start
      requires left != map[] ==> Lowest(left) != next
      ensures m - left.Keys == ReadyItems(m, start) && left == m - ReadyItems(m, start).Keys
    {
      forall n | n in left
        ensures n >= next
      {
      }
      if left != map[] {
        assert Lowest(left) > next;
      }
      RunEndIs(m, lo, next);
      SameMap(m - left.Keys, Below(m, next));
      SameMap(left, m - ReadyItems(m, start).Keys);
    }

    static lemma {:induction false} RunEndIs(m: Items, lo: nat, next: nat)
      requires lo <= next && next !in m && forall n {:trigger n in m} :: lo <= n < next ==> n in m
      ensures RunEnd(m, lo) == next
    {
    }

    method Len() returns (n: nat)
      requires Valid()
      ensures n == |items|
    {
      n := |items|;
    }

    /** Flatten: the contents in nonce order, from the cache if there is one. */
    method Flatten() returns (txs: seq<Tx>)
      requires Valid()
      modifies this`cache
      ensures Valid() && Sorted(txs, items)
    {
      if cache.None? {
        var all := Values(items);
        var sorted := Heap.Sort(all, NonceOf);
        SortedValues(all, sorted, items);
        cache := Some(sorted);
      }
      txs := cache.value;
    }

    static method Values(m: Items) returns (s: seq<Tx>)
      requires Placed(m)
      ensures Listing(s, m)
    {
      s := [];
      var left: Items := m;
      TakenNone(m);
      while left != map[]
        invariant Taken(m, left, s)
        decreases |left|
      {
        assert left.Keys != {};
        ghost var w := Pick(left.Keys);
        var n :| n in left.Keys;
        TakeOne(m, left, s, n);
        KeysWithout(left, n);
        s := s + [left[n]];
        left := left - {n};
      }
      assert m - left.Keys == m;
    }

    static lemma {:induction false} SortedValues(s: seq<Tx>, t: seq<Tx>, m: Items)
      requires Listing(s, m) && Placed(m) && multiset(t) == multiset(s) && Heap.Ascending(t, NonceOf)
      ensures Sorted(t, m)
    {
      forall tx
        ensures multiset(t)[tx] == if Holds(m, tx) then 1 else 0
      {
        assert multiset(s)[tx] == multiset(t)[tx];
      }
      forall i, j | 0 <= i < j < |t|
        ensures t[i].nonce < t[j].nonce
      {
        assert NonceOf(t[i]) <= NonceOf(t[j]);
        Listed(t, m, t[i]);
        Listed(t, m, t[j]);
        var x := t[i];
        assert multiset(t)[x] == multiset(s)[x] <= 1;
        assert t == t[..i] + [x] + t[i + 1..j] + [t[j]] + t[j + 1..];
        assert multiset(t)[x] >= if t[j] == x then 2 else 1;
      }
    }

    static ghost function Passing(m: Items, test: Tx -> bool): Items {
      map n | n in m && test(m[n]) :: m[n]
    }

    static ghost function Failing(m: Items, test: Tx -> bool): Items {
      map n | n in m && !test(m[n]) :: m[n]
    }
  }

  function CostTest(costLimit: int, gasLimit: int): Tx -> bool {
    (tx: Tx) => TooCostly(tx, costLimit, gasLimit)
  }

  function AboveTest(nonce: nat): Tx -> bool {
    (tx: Tx) => tx.nonce > nonce
  }

  /** txList: an account's transactions with the cost and gas caps that let
      Filter return early. */
  class AccountList {
    const strict: bool
    const txs: SortedMap
    var costcap: int
    var gascap: int

    ghost function View(): TxList
      reads this, txs
    {
      TxList(strict, txs.items, costcap, gascap)
    }

    ghost predicate Valid()
      reads this, txs
    {
      txs.Valid() && CapsBound(View())
    }

    constructor (strict: bool)
      ensures Valid() && View() == NewList(strict) && fresh(txs)
    {
      this.strict := strict;
      this.txs := new SortedMap();
      this.costcap, this.gascap := 0, 0;
    }

    method Overlaps(tx: Tx) returns (b: bool)
      requires Valid()
      ensures b <==> tx.nonce in View().items
    {
      b := tx.nonce in txs.items;
    }

    /** Add: a transaction with a known nonce must pay the price bump. */
    method Add(tx: Tx, priceBump: nat) returns (inserted: bool, replaced: Option<Tx>)
      requires Valid()
      modifies this, txs
      ensures Valid()
      ensures inserted == Accepts(old(View()), tx, priceBump)
      ensures inserted ==> View() == Added(old(View()), tx) && replaced == Replaced(old(View()), tx)
      ensures !inserted ==> View() == old(View()) && replaced == None
    {
      replaced := None;
      if tx.nonce in txs.items {
        var was := txs.items[tx.nonce];
        var threshold := was.price * (100 + priceBump) / 100;
        if was.price >= tx.price || threshold > tx.price {
          return false, None;
        }
        replaced := Some(was);
      }
      txs.Put(tx);
      if costcap < tx.cost {
        costcap := tx.cost;
      }
      if gascap < tx.gas {
        gascap := tx.gas;
      }
      inserted := true;
    }

    method Forward(threshold: nat) returns (removed: seq<Tx>)
      requires Valid()
      modifies txs
      ensures Valid()
      ensures View() == Forwarded(old(View()), threshold)
      ensures Sorted(removed, Below(old(View()).items, threshold))
    {
      removed := txs.Forward(threshold);
    }

    /** Filter: drops what is too costly; a strict list also returns what is
        above the lowest dropped nonce. */
    method Filter(costLimit: int, gasLimit: int) returns (removed: seq<Tx>, invalids: seq<Tx>)
      requires Valid()
      modifies this, txs
      ensures Valid()
      ensures View() == Filtered(old(View()), costLimit, gasLimit)
      ensures Listing(removed, FilterDrops(old(View()), costLimit, gasLimit))
      ensures Listing(invalids, FilterInvalids(old(View()), costLimit, gasLimit))
    {
      removed, invalids := [], [];
      if costcap <= costLimit && gascap <= gasLimit {
        return;
      }
      ghost var l := View();
      removed := DropCostly(costLimit, gasLimit);
      if strict && |removed| > 0 {
        var lowest := LowestNonce(removed, FilterDrops(l, costLimit, gasLimit));
        ghost var mid := txs.items;
        invalids := DropAbove(lowest);
        StrictParts(l, mid, txs.items, costLimit, gasLimit, lowest);
      } else {
        NoInvalids(l, removed, costLimit, gasLimit);
        assert txs.items - FilterInvalids(l, costLimit, gasLimit).Keys == txs.items;
      }
    }

    /** The caps come down to the limits and everything above them goes. */
    method DropCostly(costLimit: int, gasLimit: int) returns (removed: seq<Tx>)
      requires Valid() && !(costcap <= costLimit && gascap <= gasLimit)
      modifies this, txs
      ensures Valid() && costcap == costLimit && gascap == gasLimit
      ensures txs.items == old(txs.items) - FilterDrops(old(View()), costLimit, gasLimit).Keys
      ensures Listing(removed, FilterDrops(old(View()), costLimit, gasLimit))
    {
      ghost var l := View();
      costcap, gascap := costLimit, gasLimit;
      removed := txs.Filter(CostTest(costLimit, gasLimit));
      CostlyParts(l, txs.items, costLimit, gasLimit);
    }

    method DropAbove(nonce: nat) returns (invalids: seq<Tx>)
      requires Valid()
      modifies txs
      ensures Valid()
      ensures txs.items == SortedMap.Failing(old(txs.items), AboveTest(nonce))
      ensures Listing(invalids, SortedMap.Passing(old(txs.items), AboveTest(nonce)))
    {
      invalids := txs.Filter(AboveTest(nonce));
    }

    static lemma {:induction false} CostlyParts(l: TxList, rest: Items, costLimit: int, gasLimit: int)
      requires !(l.costcap <= costLimit && l.gascap <= gasLimit)
      requires rest == SortedMap.Failing(l.items, CostTest(costLimit, gasLimit))
      ensures SortedMap.Passing(l.items, CostTest(costLimit, gasLimit)) == FilterDrops(l, costLimit, gasLimit)
      ensures rest == l.items - FilterDrops(l, costLimit, gasLimit).Keys
    {
      SameMap(rest, l.items - FilterDrops(l, costLimit, gasLimit).Keys);
    }

    static lemma {:induction false} NoInvalids(l: TxList, removed: seq<Tx>, costLimit: int, gasLimit: int)
      requires Listing(removed, FilterDrops(l, costLimit, gasLimit)) && Placed(l.items)
      requires !(l.strict && |removed| > 0)
      ensures FilterInvalids(l, costLimit, gasLimit) == map[]
    {
      var drops := FilterDrops(l, costLimit, gasLimit);
      if drops != map[] {
        Listed(removed, drops, drops[Lowest(drops)]);
      }
    }

    static lemma {:induction false} StrictParts(l: TxList, mid: Items, rest: Items, costLimit: int, gasLimit: int,
                                                lowest: nat)
      requires l.strict && Placed(l.items) && !(l.costcap <= costLimit && l.gascap <= gasLimit)
      requires var drops := FilterDrops(l, costLimit, gasLimit);
        drops != map[] && lowest == Lowest(drops) && mid == l.items - drops.Keys
      requires rest == SortedMap.Failing(mid, AboveTest(lowest))
      ensures SortedMap.Passing(mid, AboveTest(lowest)) == FilterInvalids(l, costLimit, gasLimit)
      ensures rest == l.items - FilterDrops(l, costLimit, gasLimit).Keys - FilterInvalids(l, costLimit, gasLimit).Keys
    {
      SameMap(SortedMap.Passing(mid, AboveTest(lowest)), FilterInvalids(l, costLimit, gasLimit));
      SameMap(rest, l.items - FilterDrops(l, costLimit, gasLimit).Keys - FilterInvalids(l, costLimit, gasLimit).Keys);
    }

    static method LowestNonce(s: seq<Tx>, ghost m: Items) returns (n: nat)
      requires Listing(s, m) && Placed(m) && |s| > 0
      ensures m != map[] && n == Lowest(m)
    {
      n := s[0].nonce;
      var k := 1;
      while k < |s|
        invariant 1 <= k <= |s|
        invariant exists i :: 0 <= i < k && s[i].nonce == n
        invariant forall i :: 0 <= i < k ==> n <= s[i].nonce
      {
        if s[k].nonce < n {
          n := s[k].nonce;
        }
        k := k + 1;
      }
      ghost var i :| 0 <= i < |s| && s[i].nonce == n;
      Listed(s, m, s[i]);
      ghost var lo := Lowest(m);
      Listed(s, m, m[lo]);
    }

    method Cap(threshold: nat) returns (drops: seq<Tx>)
      requires Valid()
      modifies txs
      ensures Valid()
      ensures View() == Capped(old(View()), threshold)
      ensures Listing(drops, old(View()).items - View().items.Keys) && Decreasing(drops)
    {
      LowerKeeps(txs.items, threshold);
      drops := txs.Cap(threshold);
    }

    /** Remove: by nonce; a strict list also returns everything above. */
    method Remove(tx: Tx) returns (found: bool, invalids: seq<Tx>)
      requires Valid()
      modifies txs
      ensures Valid()
      ensures found == (tx.nonce in old(View()).items)
      ensures View() == Removed(old(View()), tx.nonce)
      ensures Listing(invalids, RemoveInvalids(old(View()), tx.nonce))
    {
      invalids := [];
      ghost var l := View();
      found := DropNonce(tx.nonce);
      ghost var mid := txs.items;
      if found && strict {
        invalids := DropAbove(tx.nonce);
        RemoveParts(l, mid, txs.items, tx.nonce);
      } else {
        RemoveOne(l, mid, tx.nonce);
      }
    }

    method DropNonce(nonce: nat) returns (found: bool)
      requires Valid()
      modifies txs
      ensures Valid()
      ensures found == (nonce in old(txs.items)) && txs.items == old(txs.items) - {nonce}
    {
      found := txs.Remove(nonce);
    }

    static lemma {:induction false} RemoveOne(l: TxList, mid: Items, nonce: nat)
      requires mid == l.items - {nonce} && !(l.strict && nonce in l.items)
      ensures RemoveInvalids(l, nonce) == map[]
      ensures l.(items := mid) == Removed(l, nonce)
    {
      assert nonce !in l.items ==> mid == l.items;
      assert mid - RemoveInvalids(l, nonce).Keys == mid;
    }

    static lemma {:induction false} RemoveParts(l: TxList, mid: Items, rest: Items, nonce: nat)
      requires l.strict && Placed(l.items) && nonce in l.items && mid == l.items - {nonce}
      requires rest == SortedMap.Failing(mid, AboveTest(nonce))
      ensures SortedMap.Passing(mid, AboveTest(nonce)) == RemoveInvalids(l, nonce)
      ensures rest == l.items - {nonce} - RemoveInvalids(l, nonce).Keys
    {
      SameMap(SortedMap.Passing(mid, AboveTest(nonce)), RemoveInvalids(l, nonce));
      SameMap(rest, l.items - {nonce} - RemoveInvalids(l, nonce).Keys);
    }

    method Ready(start: nat) returns (ready: seq<Tx>)
      requires Valid()
      modifies txs
      ensures Valid()
      ensures View() == Readied(old(View()), start)
      ensures Sorted(ready, ReadyItems(old(View()).items, start))
    {
      ready := txs.Ready(start);
    }

    method Empty() returns (b: bool)
      requires Valid()
      ensures b <==> View().items == map[]
    {
      var n := txs.Len();
      assert |txs.items| == |txs.items.Keys|;
      b := n == 0;
    }

    method Flatten() returns (s: seq<Tx>)
      requires Valid()
      modifies txs
      ensures Valid() && View() == old(View()) && Sorted(s, View().items)
    {
      s := txs.Flatten();
    }
  }
}
