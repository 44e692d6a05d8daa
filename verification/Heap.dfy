/** Binary heaps on sequences, as Go's container/heap keeps them in a slice:
    every operation permutes the contents and leaves a least element first. */
module Heap {

  predicate OrderedAt<T>(s: seq<T>, key: T -> int, k: nat)
    requires k < |s|
  {
    k > 0 ==> key(s[(k - 1) / 2]) <= key(s[k])
  }

  ghost predicate Ordered<T>(s: seq<T>, key: T -> int) {
    forall k: nat {:trigger OrderedAt(s, key, k)} :: k < |s| ==> OrderedAt(s, key, k)
  }

  /** The first element of a heap is a least one. */
  lemma {:induction false} LeastFirst<T>(s: seq<T>, key: T -> int, k: nat)
    requires Ordered(s, key) && k < |s|
    ensures key(s[0]) <= key(s[k])
    decreases k
  {
    if k > 0 {
      assert OrderedAt(s, key, k);
      LeastFirst(s, key, (k - 1) / 2);
    }
  }

  lemma {:induction false} LeastOfAll<T>(s: seq<T>, key: T -> int)
    requires Ordered(s, key) && |s| > 0
    ensures forall x :: x in s ==> key(s[0]) <= key(x)
  {
    forall x | x in s
      ensures key(s[0]) <= key(x)
    {
      var k :| 0 <= k < |s| && s[k] == x;
      LeastFirst(s, key, k);
    }
  }

  function Swap<T>(s: seq<T>, i: nat, j: nat): (r: seq<T>)
    requires i < |s| && j < |s|
    ensures |r| == |s| && r[i] == s[j] && r[j] == s[i]
    ensures forall k: nat :: k < |s| && k != i && k != j ==> r[k] == s[k]
  {
    s[i := s[j]][j := s[i]]
  }

  lemma {:induction false} SwapPermutes<T>(s: seq<T>, i: nat, j: nat)
    requires i < |s| && j < |s|
    ensures multiset(Swap(s, i, j)) == multiset(s)
  {
  }

  /** In order except where `j` may be smaller than its parent. */
  ghost predicate OrderedButUp<T>(s: seq<T>, key: T -> int, j: nat)
    requires j < |s|
  {
    && (forall k: nat {:trigger OrderedAt(s, key, k)} :: k < |s| && k != j ==> OrderedAt(s, key, k))
    && (forall k: nat {:trigger OrderedAt(s, key, k)} ::
          0 < k < |s| && j > 0 && (k - 1) / 2 == j ==> key(s[(j - 1) / 2]) <= key(s[k]))
  }

  method Up<T>(s0: seq<T>, key: T -> int, j0: nat) returns (s: seq<T>)
    requires j0 < |s0| && OrderedButUp(s0, key, j0)
    ensures Ordered(s, key) && multiset(s) == multiset(s0)
  {
    s := s0;
    var j: nat := j0;
    while j > 0 && key(s[j]) < key(s[(j - 1) / 2])
      invariant |s| == |s0| && j < |s| && multiset(s) == multiset(s0)
      invariant OrderedButUp(s, key, j)
    {
      UpStep(s, key, j);
      SwapPermutes(s, (j - 1) / 2, j);
      s := Swap(s, (j - 1) / 2, j);
      j := (j - 1) / 2;
    }
    forall k: nat | k < |s|
      ensures OrderedAt(s, key, k)
    {
    }
  }

  lemma {:induction false} UpStep<T>(s: seq<T>, key: T -> int, j: nat)
    requires 0 < j < |s| && OrderedButUp(s, key, j) && key(s[j]) < key(s[(j - 1) / 2])
    ensures OrderedButUp(Swap(s, (j - 1) / 2, j), key, (j - 1) / 2)
  {
    var i := (j - 1) / 2;
    var r := Swap(s, i, j);
    assert i != j ==> OrderedAt(s, key, i);
    forall k: nat | k < |r| && k != i
      ensures OrderedAt(r, key, k)
    {
      assert k != j ==> OrderedAt(s, key, k);
      if k > 0 && (k - 1) / 2 == j {
        assert OrderedAt(s, key, k);
      }
    }
    forall k: nat | 0 < k < |r| && i > 0 && (k - 1) / 2 == i
      ensures key(r[(i - 1) / 2]) <= key(r[k])
    {
      assert k != j ==> OrderedAt(s, key, k);
    }
  }

  /** Among the parents from `lo` on, in order except where the parent `i` may
      be larger than a child. */
  ghost predicate OrderedButDown<T>(s: seq<T>, key: T -> int, lo: nat, i: nat)
    requires i < |s|
  {
    && (forall k: nat {:trigger OrderedAt(s, key, k)} ::
          0 < k < |s| && (k - 1) / 2 >= lo && (k - 1) / 2 != i ==> OrderedAt(s, key, k))
    && (forall k: nat {:trigger OrderedAt(s, key, k)} ::
          0 < k < |s| && i > 0 && (i - 1) / 2 >= lo && (k - 1) / 2 == i ==> key(s[(i - 1) / 2]) <= key(s[k]))
  }

  ghost predicate OrderedFrom<T>(s: seq<T>, key: T -> int, lo: nat) {
    forall k: nat {:trigger OrderedAt(s, key, k)} ::
      0 < k < |s| && (k - 1) / 2 >= lo ==> OrderedAt(s, key, k)
  }

  method Down<T>(s0: seq<T>, key: T -> int, lo: nat, i0: nat) returns (s: seq<T>)
    requires lo <= i0 < |s0| && OrderedButDown(s0, key, lo, i0)
    ensures OrderedFrom(s, key, lo) && multiset(s) == multiset(s0)
  {
    s := s0;
    var i := i0;
    var done := false;
    while !done
      invariant |s| == |s0| && lo <= i < |s| && multiset(s) == multiset(s0)
      invariant OrderedButDown(s, key, lo, i)
      invariant done ==> OrderedFrom(s, key, lo)
      decreases !done, |s| - i
    {
      if 2 * i + 1 >= |s| {
        forall k: nat | 0 < k < |s| && (k - 1) / 2 >= lo
          ensures OrderedAt(s, key, k)
        {
          assert (k - 1) / 2 != i;
        }
        done := true;
      } else {
        var j := 2 * i + 1;
        if j + 1 < |s| && key(s[j + 1]) < key(s[j]) {
          j := j + 1;
        }
        if key(s[j]) < key(s[i]) {
          DownStep(s, key, lo, i, j);
          SwapPermutes(s, i, j);
          s := Swap(s, i, j);
          i := j;
        } else {
          DownDone(s, key, lo, i, j);
          done := true;
        }
      }
    }
  }

  lemma {:induction false} DownDone<T>(s: seq<T>, key: T -> int, lo: nat, i: nat, j: nat)
    requires i < |s| && OrderedButDown(s, key, lo, i)
    requires (j == 2 * i + 1 || j == 2 * i + 2) && j < |s|
    requires forall k: nat :: k < |s| && (k == 2 * i + 1 || k == 2 * i + 2) ==> key(s[j]) <= key(s[k])
    requires key(s[i]) <= key(s[j])
    ensures OrderedFrom(s, key, lo)
  {
    forall k: nat | 0 < k < |s| && (k - 1) / 2 >= lo
      ensures OrderedAt(s, key, k)
    {
      if (k - 1) / 2 == i {
        assert k == 2 * i + 1 || k == 2 * i + 2;
      }
    }
  }

  lemma {:induction false} DownStep<T>(s: seq<T>, key: T -> int, lo: nat, i: nat, j: nat)
    requires lo <= i < |s| && OrderedButDown(s, key, lo, i)
    requires (j == 2 * i + 1 || j == 2 * i + 2) && j < |s|
    requires forall k: nat :: k < |s| && (k == 2 * i + 1 || k == 2 * i + 2) ==> key(s[j]) <= key(s[k])
    requires key(s[j]) < key(s[i])
    ensures OrderedButDown(Swap(s, i, j), key, lo, j)
  {
    var r := Swap(s, i, j);
    forall k: nat | 0 < k < |r| && (k - 1) / 2 >= lo && (k - 1) / 2 != j
      ensures OrderedAt(r, key, k)
    {
      if (k - 1) / 2 == i {
        assert k == 2 * i + 1 || k == 2 * i + 2;
      } else {
        assert OrderedAt(s, key, k);
        if k == i {
          assert (j - 1) / 2 == i;
          assert OrderedAt(s, key, j) || !OrderedAt(s, key, j);
        }
      }
    }
    forall k: nat | 0 < k < |r| && j > 0 && (j - 1) / 2 >= lo && (k - 1) / 2 == j
      ensures key(r[(j - 1) / 2]) <= key(r[k])
    {
      assert OrderedAt(s, key, k);
    }
  }

  lemma {:induction false} OrderedFromZero<T>(s: seq<T>, key: T -> int)
    ensures OrderedFrom(s, key, 0) <==> Ordered(s, key)
  {
    if OrderedFrom(s, key, 0) {
      forall k: nat | k < |s|
        ensures OrderedAt(s, key, k)
      {
      }
    }
  }

  // ------------------------------------------------------ the operations

  method Push<T>(s: seq<T>, key: T -> int, x: T) returns (r: seq<T>)
    requires Ordered(s, key)
    ensures Ordered(r, key) && multiset(r) == multiset(s) + multiset{x}
  {
    var t := s + [x];
    forall k: nat | k < |t| && k != |s|
      ensures OrderedAt(t, key, k)
    {
      assert OrderedAt(s, key, k);
    }
    r := Up(t, key, |s|);
  }

  /** Pop removes the first element, which is a least one. */
  method Pop<T>(s: seq<T>, key: T -> int) returns (x: T, r: seq<T>)
    requires Ordered(s, key) && |s| > 0
    ensures x == s[0]
    ensures Ordered(r, key) && multiset(s) == multiset(r) + multiset{x}
  {
    r := RemoveAt(s, key, 0);
    x := s[0];
  }

  /** Remove takes out the element at position `i`. */
  method RemoveAt<T>(s: seq<T>, key: T -> int, i: nat) returns (r: seq<T>)
    requires Ordered(s, key) && i < |s|
    ensures Ordered(r, key) && multiset(s) == multiset(r) + multiset{s[i]}
  {
    var n := |s| - 1;
    SwapPermutes(s, i, n);
    var t := Swap(s, i, n);
    assert t == t[..n] + [t[n]];
    r := t[..n];
    assert multiset(t) == multiset(r) + multiset{s[i]};
    if i < n {
      RemovedOrder(s, key, i);
      if i > 0 && key(r[i]) < key(r[(i - 1) / 2]) {
        RemovedUp(s, key, i);
        r := Up(r, key, i);
      } else {
        r := Down(r, key, 0, i);
        OrderedFromZero(r, key);
      }
    } else {
      forall k: nat | k < |r|
        ensures OrderedAt(r, key, k)
      {
        assert OrderedAt(s, key, k);
      }
    }
  }

  /** The last element in place of the one at `i`: in order but for `i`. */
  lemma {:induction false} RemovedOrder<T>(s: seq<T>, key: T -> int, i: nat)
    requires Ordered(s, key) && i < |s| - 1
    ensures var r := Swap(s, i, |s| - 1)[..|s| - 1];
      i > 0 ==> key(r[(i - 1) / 2]) <= key(r[i]) ==> OrderedButDown(r, key, 0, i)
    ensures var r := Swap(s, i, |s| - 1)[..|s| - 1];
      i == 0 ==> OrderedButDown(r, key, 0, i)
  {
    var r := Swap(s, i, |s| - 1)[..|s| - 1];
    assert OrderedAt(s, key, i);
    if i == 0 || key(r[(i - 1) / 2]) <= key(r[i]) {
      forall k: nat | 0 < k < |r| && (k - 1) / 2 != i
        ensures OrderedAt(r, key, k)
      {
        assert OrderedAt(s, key, k);
      }
      forall k: nat | 0 < k < |r| && i > 0 && (k - 1) / 2 == i
        ensures key(r[(i - 1) / 2]) <= key(r[k])
      {
        assert OrderedAt(s, key, k);
      }
    }
  }

  lemma {:induction false} RemovedUp<T>(s: seq<T>, key: T -> int, i: nat)
    requires Ordered(s, key) && 0 < i < |s| - 1
    requires var r := Swap(s, i, |s| - 1)[..|s| - 1]; key(r[i]) < key(r[(i - 1) / 2])
    ensures OrderedButUp(Swap(s, i, |s| - 1)[..|s| - 1], key, i)
  {
    var r := Swap(s, i, |s| - 1)[..|s| - 1];
    assert OrderedAt(s, key, i);
    forall k: nat | k < |r| && k != i
      ensures OrderedAt(r, key, k)
    {
      assert OrderedAt(s, key, k);
    }
    forall k: nat | 0 < k < |r| && (k - 1) / 2 == i
      ensures key(r[(i - 1) / 2]) <= key(r[k])
    {
      assert OrderedAt(s, key, k);
    }
  }

  /** Init: heap order from any order. */
  method Init<T>(s: seq<T>, key: T -> int) returns (r: seq<T>)
    ensures Ordered(r, key) && multiset(r) == multiset(s)
  {
    r := s;
    var i := |s| / 2;
    while i > 0
      invariant 0 <= i <= |s| / 2
      invariant OrderedFrom(r, key, i) && |r| == |s| && multiset(r) == multiset(s)
    {
      i := i - 1;
      ghost var before := r;
      assert OrderedButDown(r, key, i, i) by {
        forall k: nat | 0 < k < |r| && (k - 1) / 2 >= i && (k - 1) / 2 != i
          ensures OrderedAt(r, key, k)
        {
        }
      }
      r := Down(r, key, i, i);
      assert |r| == |multiset(r)|;
      assert |before| == |multiset(before)|;
    }
    OrderedFromZero(r, key);
  }

  ghost predicate Ascending<T>(s: seq<T>, key: T -> int) {
    forall i, j :: 0 <= i < j < |s| ==> key(s[i]) <= key(s[j])
  }

  /** Sorting, as Go's sort package does it: some ascending permutation. */
  method Sort<T>(s: seq<T>, key: T -> int) returns (r: seq<T>)
    ensures Ascending(r, key) && multiset(r) == multiset(s)
  {
    var h := Init(s, key);
    r := [];
    while |h| > 0
      invariant Ordered(h, key) && multiset(r) + multiset(h) == multiset(s)
      invariant Ascending(r, key)
      invariant forall i, x :: 0 <= i < |r| && x in h ==> key(r[i]) <= key(x)
      decreases |multiset(h)|
    {
      LeastOfAll(h, key);
      ghost var was := h;
      var x;
      x, h := Pop(h, key);
      forall y | y in h
        ensures y in was
      {
        assert y in multiset(h);
        assert y in multiset(was);
      }
      r := r + [x];
    }
  }
}
