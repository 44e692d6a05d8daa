/** The binary Merkle tree hash over a chunk, as a value, and the reference
    hasher of bmt/bmt_r.go proved to compute it.  The base hash is an
    arbitrary function on byte strings. */
module BmtReference {

  newtype Byte = b: int | 0 <= b < 256
  type Bytes = seq<Byte>
  type BaseHash = Bytes -> Bytes

  /** Bytes covered by a subtree of height `h`: one segment at height 0,
      twice as much at every further level. */
  function Span(z: nat, h: nat): nat {
    if h == 0 then z else 2 * Span(z, h - 1)
  }

  /** Least height whose subtree covers `l` bytes. */
  function Height(z: nat, l: nat): nat
    requires z > 0
  {
    if l <= z then 0 else 1 + Height(z, (l + 1) / 2)
  }

  /** Value of a subtree of height `h` over `d`: a subtree that needs only its
      left half is transparent, and a lone segment is passed on unhashed. */
  function Subtree(H: BaseHash, z: nat, h: nat, d: Bytes): Bytes
    requires |d| <= Span(z, h)
  {
    if h == 0 then d
    else if |d| <= Span(z, h - 1) then Subtree(H, z, h - 1, d)
    else H(Subtree(H, z, h - 1, d[..Span(z, h - 1)]) + Subtree(H, z, h - 1, d[Span(z, h - 1)..]))
  }

  /** The BMT hash of a chunk: the value of the smallest subtree that covers
      it, except that a chunk of at most one segment is still hashed once. */
  function Digest(H: BaseHash, z: nat, d: Bytes): Bytes
    requires z > 0
  {
    HeightCovers(z, |d|);
    if |d| <= z then H(d) else Subtree(H, z, Height(z, |d|), d)
  }

  lemma {:induction false} HeightCovers(z: nat, l: nat)
    requires z > 0
    ensures l <= Span(z, Height(z, l))
    ensures forall h: nat :: h < Height(z, l) ==> Span(z, h) < l
    decreases l
  {
    if l > z {
      HeightCovers(z, (l + 1) / 2);
      forall h: nat | h < Height(z, l)
        ensures Span(z, h) < l
      {
        if h > 0 {
          assert Span(z, h - 1) < (l + 1) / 2;
        }
      }
    }
  }

  lemma {:induction false} SpanGrows(z: nat, h: nat, k: nat)
    requires h <= k
    ensures z <= Span(z, h) <= Span(z, k)
    decreases k
  {
    if h < k {
      SpanGrows(z, h, k - 1);
    } else if h > 0 {
      SpanGrows(z, h - 1, k - 1);
    }
  }

  /** Empty levels on top of a subtree do not change its value. */
  lemma {:induction false} SubtreeLift(H: BaseHash, z: nat, h: nat, k: nat, d: Bytes)
    requires h <= k && |d| <= Span(z, h)
    ensures |d| <= Span(z, k)
    ensures Subtree(H, z, k, d) == Subtree(H, z, h, d)
    decreases k
  {
    SpanGrows(z, h, k);
    if h < k {
      SpanGrows(z, h, k - 1);
      SubtreeLift(H, z, h, k - 1, d);
    }
  }

  /** Any tree tall enough gives the digest of a chunk longer than a segment. */
  lemma {:induction false} DigestIsSubtree(H: BaseHash, z: nat, h: nat, d: Bytes)
    requires z > 0 && z < |d| <= Span(z, h)
    ensures Digest(H, z, d) == Subtree(H, z, h, d)
  {
    HeightCovers(z, |d|);
    var k := Height(z, |d|);
    assert k <= h;
    SubtreeLift(H, z, k, h, d);
  }

  /** A chunk of at most two segments is hashed as it is. */
  lemma {:induction false} DigestSmall(H: BaseHash, z: nat, d: Bytes)
    requires z > 0 && |d| <= 2 * z
    ensures Digest(H, z, d) == H(d)
  {
    if |d| > z {
      assert Span(z, 1) == 2 * z && Span(z, 0) == z;
      DigestIsSubtree(H, z, 1, d);
      assert d[..z] + d[z..] == d;
    }
  }

  /** A chunk longer than two segments is split at the largest span below its
      length; the part to the right is hashed only if it is longer than a
      segment. */
  lemma {:induction false} DigestSplit(H: BaseHash, z: nat, h: nat, d: Bytes)
    requires z > 0 && h >= 1 && Span(z, h) < |d| <= 2 * Span(z, h)
    ensures z < Span(z, h)
    ensures var s := Span(z, h);
            Digest(H, z, d) ==
              H(Digest(H, z, d[..s]) + (if |d| - s <= z then d[s..] else Digest(H, z, d[s..])))
  {
    var s := Span(z, h);
    SpanGrows(z, 1, h);
    DigestIsSubtree(H, z, h + 1, d);
    DigestIsSubtree(H, z, h, d[..s]);
    if |d| - s <= z {
      SubtreeLift(H, z, 0, h, d[s..]);
    } else {
      DigestIsSubtree(H, z, h, d[s..]);
    }
  }

  function Pow2(k: nat): nat {
    if k == 0 then 1 else 2 * Pow2(k - 1)
  }

  lemma {:induction false} SpanPow2(z: nat, k: nat)
    ensures Span(z, k) == Pow2(k) * z
  {
    if k > 0 {
      SpanPow2(z, k - 1);
      assert 2 * (Pow2(k - 1) * z) == (2 * Pow2(k - 1)) * z;
    }
  }

  lemma {:induction false} CapacityBound(z: nat, count: nat, k: nat)
    requires count <= Pow2(k)
    ensures z * count <= Span(z, k)
  {
    SpanPow2(z, k);
    Scale(count, Pow2(k), z);
  }

  lemma {:induction false} Scale(a: nat, b: nat, c: nat)
    requires a <= b
    ensures a * c <= b * c
  {
  }

  /** RefHasher: the non-optimised implementation. */
  class RefHasher {
    const H: BaseHash
    const hashsize: nat
    const span: nat
    const section: nat
    const cap: nat
    ghost const level: nat

    ghost predicate Valid() {
      && hashsize > 0
      && level >= 1
      && section == 2 * hashsize
      && span == Span(hashsize, level)
      && cap <= 2 * span
    }

    constructor (H: BaseHash, hashsize: nat, count: nat)
      requires hashsize > 0
      ensures Valid()
      ensures this.H == H && this.hashsize == hashsize && this.cap == hashsize * count
    {
      var c := 2;
      ghost var k := 1;
      while c < count
        invariant k >= 1 && c == Pow2(k)
        decreases count - c
      {
        c := c * 2;
        k := k + 1;
      }
      CapacityBound(hashsize, count, k);
      if c > 2 {
        c := c / 2;
        k := k - 1;
      }
      SpanPow2(hashsize, k);
      this.H := H;
      this.hashsize := hashsize;
      this.section := 2 * hashsize;
      this.span := c * hashsize;
      this.cap := hashsize * count;
      this.level := k;
    }

    /** Hash: the digest of the chunk, cut to the capacity. */
    method Hash(d: Bytes) returns (r: Bytes)
      requires Valid()
      ensures r == Digest(H, hashsize, if |d| > cap then d[..cap] else d)
    {
      var chunk := d;
      if |chunk| > cap {
        chunk := chunk[..cap];
      }
      r := HashSpan(chunk, span, level);
    }

    /** hash: the recursion, with the loop that halves the span `s`. */
    method HashSpan(d: Bytes, s0: nat, ghost level0: nat) returns (r: Bytes)
      requires Valid()
      requires level0 >= 1 && s0 == Span(hashsize, level0) && |d| <= 2 * s0
      ensures r == Digest(H, hashsize, d)
      decreases |d|
    {
      var l := |d|;
      var left, right := d, [];
      if l > section {
        var s := s0;
        ghost var k := level0;
        while s >= l
          invariant k >= 1 && s == Span(hashsize, k) && l <= 2 * s
          decreases s
        {
          SpanGrows(hashsize, 1, k);
          assert k > 1;
          s := s / 2;
          k := k - 1;
        }
        DigestSplit(H, hashsize, k, d);
        left := HashSpan(d[..s], s, k);
        right := d[s..];
        if l - s > section / 2 {
          right := HashSpan(right, s, k);
        }
      } else {
        assert d + [] == d;
        if l > hashsize {
          DigestIsSubtree(H, hashsize, 1, d);
          assert d[..hashsize] + d[hashsize..] == d;
        }
      }
      r := H(left + right);
    }
  }
}
