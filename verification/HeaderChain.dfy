/** The header chain of core/headerchain.go: a store of headers and total
    difficulties, the number-to-hash index of the canonical chain, and three
    caches that may forget entries at any time. */
module HeaderChain {
  import opened Options
  import opened ChainTree

  /** The index holds the head's ancestor at every height up to the head and
      nothing above. */
  ghost predicate Canonical(canon: map<nat, Block>, head: Block) {
    forall n: nat {:trigger n in canon} ::
      (n in canon <==> n <= Number(head)) && (n <= Number(head) ==> canon[n] == At(head, n))
  }

  ghost predicate Agrees<V>(cache: map<Block, V>, store: map<Block, V>) {
    forall b {:trigger b in cache} :: b in cache ==> b in store && store[b] == cache[b]
  }

  ghost predicate NumbersOk(headers: set<Block>, numbers: map<Block, nat>) {
    numbers.Keys == headers && forall b {:trigger numbers[b]} :: b in headers ==> numbers[b] == Number(b)
  }

  /** Every ancestor of `b` is stored, `b` included. */
  ghost predicate Rooted(headers: set<Block>, b: Block) {
    forall n: nat {:trigger At(b, n)} :: n <= Number(b) ==> At(b, n) in headers
  }

  lemma {:induction false} ClosedIsRooted(headers: set<Block>, b: Block)
    requires Closed(headers) && b in headers
    ensures Rooted(headers, b)
  {
    forall n: nat | n <= Number(b)
      ensures At(b, n) in headers
    {
      ClosedAt(headers, b, n);
    }
  }

  /** What the rewriting loop has done once it is down at height `n`: entries
      above `n` follow `h`, entries up to `n` still follow the old head. */
  ghost predicate Rerouted(canon: map<nat, Block>, old_: Block, h: Block, n: nat) {
    forall k: nat {:trigger k in canon} ::
      if n < k < Number(h) then k in canon && canon[k] == At(h, k)
      else (k in canon <==> k <= Number(old_) && k <= Number(h)) && (k in canon ==> canon[k] == At(old_, k))
  }

  lemma {:induction false} RerouteDone(canon: map<nat, Block>, old_: Block, h: Block, n: nat)
    requires !h.Genesis? && n < Number(h) && Rerouted(canon, old_, h, n)
    requires n in canon && canon[n] == At(h, n)
    ensures Canonical(canon[Number(h) := h], h)
  {
    var c := canon[Number(h) := h];
    forall k: nat
      ensures k in c <==> k <= Number(h)
      ensures k <= Number(h) ==> c[k] == At(h, k)
    {
      assert k in canon || k !in canon;
      if k <= n {
        AgreeBelow(old_, h, n, k);
      }
    }
  }

  lemma {:induction false} RerouteStarts(canon: map<nat, Block>, old_: Block, h: Block, n: nat)
    requires !h.Genesis? && n + 1 == Number(h)
    requires forall k: nat {:trigger k in canon} ::
      (k in canon <==> k <= Number(old_) && k <= Number(h)) && (k in canon ==> canon[k] == At(old_, k))
    ensures Rerouted(canon, old_, h, n)
  {
    forall k: nat
      ensures if n < k < Number(h) then k in canon && canon[k] == At(h, k)
              else (k in canon <==> k <= Number(old_) && k <= Number(h)) && (k in canon ==> canon[k] == At(old_, k))
    {
      assert k in canon || k !in canon;
    }
  }

  /** WriteHeader returns a status, or fails on a missing header. */
  datatype WriteResult = Crashed | Done(status: WriteStatus)

  /** Fork choice: more total difficulty wins, and a tie goes to the coin. */
  predicate Wins(h: Block, head: Block, coin: bool) {
    TotalDifficulty(h) > TotalDifficulty(head) || (TotalDifficulty(h) == TotalDifficulty(head) && coin)
  }

  /** The same said of the two branches. */
  ghost predicate BranchWins(head: Block, h: Block, coin: bool) {
    var f := ForkHeight(head, h);
    WeightAbove(h, f) >= WeightAbove(head, f) && (WeightAbove(h, f) == WeightAbove(head, f) ==> coin)
  }

  lemma {:induction false} WinsByBranch(h: Block, head: Block, coin: bool)
    ensures Wins(h, head, coin) <==> BranchWins(head, h, coin)
  {
    WeightDifference(head, h);
  }

  /** The headers stored and the head. */
  datatype Heads = Heads(headers: set<Block>, head: Block)

  /** What fork choice makes of a sequence of writes. */
  function HeadsOf(writes: seq<(Block, bool)>): Heads {
    if writes == [] then Heads({Genesis}, Genesis)
    else Written(HeadsOf(writes[..|writes| - 1]), writes[|writes| - 1].0, writes[|writes| - 1].1)
  }

  function Written(s: Heads, h: Block, coin: bool): Heads {
    if h.Genesis? || h.parent !in s.headers then s
    else Heads(s.headers + {h}, if Wins(h, s.head, coin) then h else s.head)
  }

  class HeaderChain {
    var headers: set<Block>
    var numbers: map<Block, nat>
    var tds: map<Block, int>
    var canon: map<nat, Block>
    var head: Block
    var headerCache: set<Block>
    var numberCache: map<Block, nat>
    var tdCache: map<Block, int>

    ghost predicate Valid()
      reads this
    {
      && NumbersOk(headers, numbers) && TdsOk(headers, tds)
      && Rooted(headers, head) && Canonical(canon, head)
      && headerCache <= headers && Agrees(numberCache, numbers) && Agrees(tdCache, tds)
    }

    constructor ()
      ensures Valid() && Closed(headers) && Heaviest(headers, head)
      ensures headers == {Genesis} && head == Genesis
    {
      headers, numbers, tds := {Genesis}, map[Genesis := 0], map[Genesis := 0];
      canon, head := map[0 := Genesis], Genesis;
      headerCache, numberCache, tdCache := {}, map[], map[];
    }

    /** An entry is added to a cache, and any entries may be evicted. */
    static method CacheAdd<V>(cache: map<Block, V>, b: Block, v: V) returns (r: map<Block, V>)
      ensures forall k {:trigger k in r} :: k in r ==> k in cache[b := v] && r[k] == cache[b := v][k]
    {
      var added := cache[b := v];
      var kept: set<Block> := *;
      r := map k | k in added && k in kept :: added[k];
    }

    /** GetBlockNumber. */
    method GetBlockNumber(b: Block) returns (n: Option<nat>)
      requires Valid()
      modifies this`numberCache
      ensures Valid()
      ensures n == if b in headers then Some(Number(b)) else None
    {
      if b in numberCache {
        return Some(numberCache[b]);
      }
      if b !in numbers {
        return None;
      }
      n := Some(numbers[b]);
      numberCache := CacheAdd(numberCache, b, numbers[b]);
    }

    /** GetTd. */
    method GetTd(b: Block) returns (td: Option<int>)
      requires Valid()
      modifies this`tdCache
      ensures Valid()
      ensures td == if b in headers then Some(TotalDifficulty(b)) else None
    {
      if b in tdCache {
        return Some(tdCache[b]);
      }
      if b !in tds {
        return None;
      }
      td := Some(tds[b]);
      tdCache := CacheAdd(tdCache, b, tds[b]);
    }

    /** GetHeader. */
    method GetHeader(b: Block) returns (r: Option<Block>)
      requires b in headerCache ==> b in headers
      modifies this`headerCache
      ensures headerCache <= old(headerCache) + ({b} * headers)
      ensures r == if b in headers then Some(b) else None
    {
      if b in headerCache {
        return Some(b);
      }
      if b !in headers {
        return None;
      }
      var kept: set<Block> := *;
      headerCache := (headerCache + {b}) * kept;
      r := Some(b);
    }

    /** The first loop of WriteHeader: canonical numbers above the new head are
        deleted. */
    method DropAbove(h: Block)
      requires Canonical(canon, head)
      modifies this`canon
      ensures forall k: nat {:trigger k in canon} ::
        (k in canon <==> k <= Number(head) && k <= Number(h)) && (k in canon ==> canon[k] == At(head, k))
    {
      var i: nat := Number(h) + 1;
      while i in canon
        invariant i > Number(h)
        invariant forall k: nat {:trigger k in canon} ::
          (k in canon <==> k <= Number(head) && !(Number(h) < k < i)) && (k in canon ==> canon[k] == At(head, k))
        decreases Number(head) + 1 - i
      {
        canon := canon - {i};
        i := i + 1;
      }
      forall k: nat
        ensures k in canon ==> k <= Number(h)
      {
        assert i !in canon;
      }
    }

    /** The second loop of WriteHeader: stale numbers are overwritten downwards
        until the index and the new branch meet.  It fails exactly if an ancestor
        of the new header is missing. */
    method Reroute(h: Block) returns (ok: bool)
      requires !h.Genesis? && headerCache <= headers && Rooted(headers, head)
      requires forall k: nat {:trigger k in canon} ::
        (k in canon <==> k <= Number(head) && k <= Number(h)) && (k in canon ==> canon[k] == At(head, k))
      modifies this`canon, this`headerCache
      ensures headerCache <= headers
      ensures ok <==> Rooted(headers, h.parent)
      ensures ok ==> Canonical(canon[Number(h) := h], h)
    {
      var headHash := h.parent;
      var headNumber: nat := Number(h) - 1;
      RerouteStarts(canon, head, h, headNumber);
      var headHeader := GetHeader(headHash);
      while headNumber !in canon || canon[headNumber] != headHash
        invariant headNumber < Number(h) && headHash == At(h, headNumber)
        invariant headHeader == Lookup(headers, headHash) && headerCache <= headers
        invariant Rerouted(canon, head, h, headNumber)
        invariant forall n: nat {:trigger At(h, n)} :: headNumber < n < Number(h) ==> At(h, n) in headers
        decreases headNumber
      {
        assert headNumber > 0 by {
          AtZero(h);
          AtZero(head);
          assert 0 in canon || 0 !in canon;
        }
        AtParent(h, headNumber);
        canon := canon[headNumber := headHash];
        if headHeader.None? {
          assert At(h.parent, headNumber) !in headers;
          return false;
        }
        headHash := headHeader.value.parent;
        headNumber := headNumber - 1;
        headHeader := GetHeader(headHash);
      }
      RerouteDone(canon, head, h, headNumber);
      MeetIsRooted(headers, head, h, headNumber);
      ok := true;
    }

    /** Stored down to a block of the head's chain, the header is rooted. */
    static lemma {:induction false} MeetIsRooted(headers: set<Block>, head: Block, h: Block, m: nat)
      requires !h.Genesis? && m < Number(h) && m <= Number(head) && At(head, m) == At(h, m)
      requires Rooted(headers, head)
      requires forall n: nat {:trigger At(h, n)} :: m < n < Number(h) ==> At(h, n) in headers
      ensures Rooted(headers, h.parent)
    {
      forall n: nat | n <= Number(h.parent)
        ensures At(h.parent, n) in headers
      {
        assert At(h, n) == At(h.parent, n);
        if n <= m {
          AgreeBelow(head, h, m, n);
          assert At(head, n) in headers;
        }
      }
    }

    /** The header has a parent in the store. */
    ghost predicate Known(h: Block)
      reads this
    {
      !h.Genesis? && h.parent in headers
    }

    /** WriteHeader.  The coin decides between branches of equal weight.  It fails
        exactly if the header is to become the head and an ancestor of its known
        parent is missing; otherwise all invariants are kept. */
    method WriteHeader(h: Block, coin: bool) returns (r: WriteResult)
      requires Valid()
      modifies this
      ensures r.Crashed? <==> old(Known(h) && Wins(h, head, coin) && !Rooted(headers, h.parent))
      ensures r.Done? ==> Valid()
      ensures r == Done(UnknownAncestor) <==> !old(Known(h))
      ensures r == Done(UnknownAncestor) ==> headers == old(headers)
      ensures r != Done(UnknownAncestor) ==> headers == old(headers) + {h}
      ensures r == Done(CanonStat) <==> old(Known(h) && Wins(h, head, coin) && Rooted(headers, h.parent))
      ensures r == Done(CanonStat) <==> old(Known(h) && BranchWins(head, h, coin) && Rooted(headers, h.parent))
      ensures head == if r == Done(CanonStat) then h else old(head)
      ensures old(Closed(headers)) ==> Closed(headers) && r.Done?
      ensures old(Heaviest(headers, head)) && r.Done? ==> Heaviest(headers, head)
    {
      if h.Genesis? {
        return Done(UnknownAncestor);
      }
      var ptd := GetTd(h.parent);
      if ptd.None? {
        return Done(UnknownAncestor);
      }
      WinsByBranch(h, head, coin);
      r := WriteKnown(h, coin, h.difficulty + ptd.value);
      if old(Closed(headers)) {
        ClosedIsRooted(old(headers), h.parent);
      }
    }

    /** WriteHeader for a header whose parent is in the store. */
    method WriteKnown(h: Block, coin: bool, externTd: int) returns (r: WriteResult)
      requires Valid() && Known(h) && externTd == TotalDifficulty(h)
      modifies this
      ensures headers == old(headers) + {h} && r != Done(UnknownAncestor)
      ensures r.Crashed? <==> old(Wins(h, head, coin) && !Rooted(headers, h.parent))
      ensures r == Done(CanonStat) <==> old(Wins(h, head, coin) && Rooted(headers, h.parent))
      ensures head == if r == Done(CanonStat) then h else old(head)
      ensures r.Done? ==> Valid()
    {
      assert At(head, Number(head)) in headers;
      var localTd := GetTd(head);
      Store(h, externTd);
      SameRoots(old(headers), h);
      if externTd > localTd.value || (externTd == localTd.value && coin) {
        var ok := Adopt(h);
        if !ok {
          return Crashed;
        }
        r := Done(CanonStat);
      } else {
        r := Done(SideStat);
      }
      Remember(h);
    }

    /** Storing a header adds no ancestor of its parent. */
    static lemma {:induction false} SameRoots(headers: set<Block>, h: Block)
      requires !h.Genesis?
      ensures Rooted(headers + {h}, h.parent) <==> Rooted(headers, h.parent)
    {
      forall n: nat | n <= Number(h.parent)
        ensures At(h.parent, n) in headers + {h} <==> At(h.parent, n) in headers
      {
        AtNumber(h.parent, n);
      }
    }

    /** The index is routed onto a stored header, which becomes the head. */
    method Adopt(h: Block) returns (ok: bool)
      requires Valid() && !h.Genesis? && h in headers
      modifies this`canon, this`head, this`headerCache
      ensures ok <==> Rooted(headers, h.parent)
      ensures ok ==> Valid() && head == h
      ensures !ok ==> head == old(head)
    {
      DropAbove(h);
      ok := Reroute(h);
      if ok {
        canon := canon[Number(h) := h];
        RootedChild(headers, h);
        head := h;
      }
    }

    /** The caches learn a stored header. */
    method Remember(h: Block)
      requires Valid() && h in headers
      modifies this`headerCache, this`numberCache
      ensures Valid()
    {
      var kept: set<Block> := *;
      headerCache := (headerCache + {h}) * kept;
      numberCache := CacheAdd(numberCache, h, Number(h));
    }

    /** The header and its total difficulty are written. */
    method Store(h: Block, td: int)
      requires Valid() && !h.Genesis? && td == TotalDifficulty(h)
      modifies this`headers, this`numbers, this`tds, this`tdCache
      ensures Valid() && headers == old(headers) + {h}
    {
      tds := tds[h := td];
      tdCache := CacheAdd(tdCache, h, td);
      headers, numbers := headers + {h}, numbers[h := Number(h)];
      RootedGrows(old(headers), headers, head);
    }

    static lemma {:induction false} RootedGrows(small: set<Block>, big: set<Block>, b: Block)
      requires small <= big && Rooted(small, b)
      ensures Rooted(big, b)
    {
    }

    static lemma {:induction false} RootedChild(headers: set<Block>, h: Block)
      requires !h.Genesis? && h in headers && Rooted(headers, h.parent)
      ensures Rooted(headers, h)
    {
      forall n: nat | n <= Number(h)
        ensures At(h, n) in headers
      {
        if n < Number(h) {
          assert At(h.parent, n) in headers;
        }
      }
    }

    /** SetHead: the chain is rewound to height `n`. */
    method SetHead(n: nat)
      requires Valid()
      modifies this
      ensures Valid()
      ensures head == At(old(head), MinOf(n, Number(old(head))))
      ensures CutAt(old(headers), headers, old(head), Number(head))
      ensures forall k: nat {:trigger k in canon} ::
        (k in canon <==> k in old(canon) && k <= n) && (k in canon ==> canon[k] == old(canon)[k])
      ensures headerCache == {} && numberCache == map[] && tdCache == map[]
    {
      var height := Number(head);
      Rewind(n);
      var i: nat := height;
      while i > n
        invariant i <= height && head == At(old(head), MinOf(n, height))
        invariant forall k: nat {:trigger k in canon} ::
          (k in canon <==> k <= height && !(k > i && k > n)) && (k in canon ==> canon[k] == old(canon)[k])
        modifies this`canon
      {
        canon := canon - {i};
        i := i - 1;
      }
      headerCache, numberCache, tdCache := {}, map[], map[];
      RewoundCanon(old(canon), canon, old(head), n);
    }

    static lemma {:induction false} RewoundCanon(before: map<nat, Block>, canon: map<nat, Block>, h: Block, n: nat)
      requires Canonical(before, h)
      requires forall k: nat {:trigger k in canon} ::
        (k in canon <==> k <= Number(h) && k <= n) && (k in canon ==> canon[k] == before[k])
      ensures Canonical(canon, At(h, MinOf(n, Number(h))))
    {
      var m := MinOf(n, Number(h));
      AtNumber(h, m);
      forall k: nat
        ensures (k in canon <==> k <= m) && (k <= m ==> canon[k] == At(At(h, m), k))
      {
        assert k in canon || k !in canon;
        assert k in before || k !in before;
        if k <= m {
          AtAt(h, m, k);
        }
      }
    }

    /** The first loop of SetHead: headers and total difficulties of the head
        and its ancestors above `n` are deleted. */
    method Rewind(n: nat)
      requires Valid()
      modifies this`headers, this`numbers, this`tds, this`head, this`headerCache
      ensures NumbersOk(headers, numbers) && TdsOk(headers, tds)
      ensures head == At(old(head), MinOf(n, Number(old(head)))) && Rooted(headers, head)
      ensures CutAt(old(headers), headers, old(head), Number(head))
    {
      while Number(head) > n
        invariant Number(head) >= MinOf(n, Number(old(head))) && AncestorOf(head, old(head))
        invariant NumbersOk(headers, numbers) && TdsOk(headers, tds) && Rooted(headers, head)
        invariant CutAt(old(headers), headers, old(head), Number(head))
        decreases Number(head)
      {
        CutStep(old(headers), headers, old(head), head);
        RootedWithout(headers, head);
        headers, numbers, tds := headers - {head}, numbers - {head}, tds - {head};
        var parent := GetHeader(head.parent);
        head := parent.value;
      }
    }

    /** Of `before`, the ancestors of `h` above height `m` are gone. */
    static ghost predicate CutAt(before: set<Block>, headers: set<Block>, h: Block, m: nat) {
      forall b {:trigger b in headers} :: b in headers <==> b in before && !(m < Number(b) && AncestorOf(b, h))
    }

    static lemma {:induction false} CutStep(before: set<Block>, headers: set<Block>, h: Block, b: Block)
      requires CutAt(before, headers, h, Number(b)) && AncestorOf(b, h) && Number(b) > 0
      ensures !b.Genesis? && AncestorOf(b.parent, h) && Number(b.parent) + 1 == Number(b)
      ensures CutAt(before, headers - {b}, h, Number(b.parent))
    {
      AtParent(h, Number(b));
    }

    static lemma {:induction false} RootedWithout(headers: set<Block>, h: Block)
      requires !h.Genesis? && Rooted(headers, h)
      ensures h.parent in headers - {h} && Rooted(headers - {h}, h.parent)
    {
      forall n: nat | n < Number(h)
        ensures At(h.parent, n) in headers - {h}
      {
        assert At(h, n) in headers;
        AtNumber(h.parent, n);
      }
      assert At(h.parent, Number(h.parent)) in headers - {h};
    }

    /** GetBlockHashesFromHash: the ancestors below a stored header, nearest
        first, until enough are collected, the genesis block is reached or a
        parent is missing. */
    method GetBlockHashesFromHash(b: Block, max: nat) returns (chain: seq<Block>)
      requires Valid()
      modifies this`numberCache, this`headerCache
      ensures Valid()
      ensures b !in headers ==> chain == []
      ensures |chain| <= max && |chain| <= Number(b)
      ensures forall i {:trigger chain[i]} :: 0 <= i < |chain| ==>
        chain[i] == At(b, Number(b) - 1 - i) && chain[i] in headers
      ensures b in headers && |chain| < max && |chain| < Number(b) ==> At(b, Number(b) - 1 - |chain|) !in headers
    {
      chain := [];
      var number := GetBlockNumber(b);
      var found := GetHeader(b);
      if found.None? {
        return;
      }
      var header := found.value;
      if header.Genesis? {
        return;
      }
      while |chain| < max
        invariant Valid() && |chain| <= max && |chain| < Number(b)
        invariant header == At(b, Number(b) - |chain|)
        invariant forall i {:trigger chain[i]} :: 0 <= i < |chain| ==>
          chain[i] == At(b, Number(b) - 1 - i) && chain[i] in headers
        decreases max - |chain|
      {
        var next := AncestorBelow(b, header, Number(b) - |chain|);
        found := GetHeader(next);
        if found.None? {
          return;
        }
        header := found.value;
        chain := chain + [next];
        if header.Genesis? {
          return;
        }
      }
    }

    static method AncestorBelow(b: Block, header: Block, n: nat) returns (next: Block)
      requires 0 < n <= Number(b) && header == At(b, n)
      ensures next == At(b, n - 1) && Number(next) == n - 1
    {
      AtParent(b, n);
      AtNumber(b, n - 1);
      next := header.parent;
    }

    /** Over every sequence of header writes the index is exactly the head's
        ancestry, no header outweighs the head, and no write fails. */
    static method Run(writes: seq<(Block, bool)>) returns (c: HeaderChain, results: seq<WriteResult>)
      ensures fresh(c) && c.Valid() && Closed(c.headers)
      ensures Heaviest(c.headers, c.head) && HeaviestBranch(c.headers, c.head)
      ensures |results| == |writes| && forall i :: 0 <= i < |results| ==> results[i].Done?
      ensures Heads(c.headers, c.head) == HeadsOf(writes)
    {
      c := new HeaderChain();
      results := [];
      for i := 0 to |writes|
        invariant fresh(c) && c.Valid() && Closed(c.headers) && Heaviest(c.headers, c.head)
        invariant |results| == i && forall k :: 0 <= k < |results| ==> results[k].Done?
        invariant Heads(c.headers, c.head) == HeadsOf(writes[..i])
      {
        assert writes[..i + 1][..i] == writes[..i];
        var result := c.WriteHeader(writes[i].0, writes[i].1);
        results := results + [result];
      }
      assert writes[..|writes|] == writes;
      HeaviestByBranch(c.headers, c.head);
    }

    /** A run in which a heavy header stays the head beside a longer, lighter
        branch. */
    static method HeavyRun(heavy: int, light: int, more: int) returns (c: HeaderChain)
      requires heavy > 0 && heavy > light && heavy > light + more
      ensures fresh(c) && c.Valid() && c.head == Block(Genesis, heavy, [], 0)
      ensures exists b :: b in c.headers && Number(b) > Number(c.head)
    {
      var a1, b1 := Block(Genesis, heavy, [], 0), Block(Genesis, light, [], 1);
      var b2 := Block(b1, more, [], 0);
      c := new HeaderChain();
      var r := c.WriteHeader(a1, false);
      SiblingWeights(a1, b1);
      r := c.WriteHeader(b1, false);
      r := c.WriteHeader(b2, false);
      assert b2 in c.headers && Number(b2) > Number(a1);
    }

    /** A chain of two headers, and a side header beside the second. */
    static method SideRun(parent: Block, child: Block, side: Block) returns (c: HeaderChain)
      requires parent == Block(Genesis, 1, [], 0) && child == Block(parent, 1, [], 0) && side == Block(parent, 1, [], 1)
      ensures fresh(c) && c.Valid() && c.head == child && c.headers == {Genesis, parent, child, side}
    {
      c := new HeaderChain();
      var r := c.WriteHeader(parent, false);
      r := c.WriteHeader(child, false);
      assert TotalDifficulty(child) == TotalDifficulty(side) == 2;
      r := c.WriteHeader(side, false);
    }

    /** A run that fails: a side header keeps its place in the store when SetHead
        deletes its parent, and a header on top of it becomes the heaviest. */
    static method OrphanRun() returns (c: HeaderChain, r: WriteResult)
      ensures fresh(c) && r == Crashed
    {
      var parent := Block(Genesis, 1, [], 0);
      var child, side := Block(parent, 1, [], 0), Block(parent, 1, [], 1);
      c := SideRun(parent, child, side);
      c.SetHead(0);
      AtZero(child);
      Orphaned(parent, child, side, c.headers);
      r := c.WriteHeader(Block(side, 1, [], 0), false);
    }

    static lemma {:induction false} Orphaned(parent: Block, child: Block, side: Block, headers: set<Block>)
      requires parent == Block(Genesis, 1, [], 0) && child == Block(parent, 1, [], 0) && side == Block(parent, 1, [], 1)
      requires CutAt({Genesis, parent, child, side}, headers, child, 0)
      ensures side in headers && !Rooted(headers, side)
    {
      assert Number(child) == Number(side) == 2 && Number(parent) == 1;
      assert At(child, 2) == child && At(child, 1) == parent && At(side, 1) == parent;
      assert parent !in headers;
    }
  }
}
