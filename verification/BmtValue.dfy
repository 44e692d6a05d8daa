/** The value that the tree of BmtTree computes at the root of a chunk is the
    digest of the chunk's bytes. */
module BmtValue {
  import opened BmtReference
  import opened BmtTree

  function Flatten(segs: seq<Bytes>): Bytes {
    if segs == [] then [] else segs[0] + Flatten(segs[1..])
  }

  lemma {:induction false} FlattenConcat(a: seq<Bytes>, b: seq<Bytes>)
    ensures Flatten(a + b) == Flatten(a) + Flatten(b)
  {
    if a == [] {
      assert a + b == b;
    } else {
      assert (a + b)[1..] == a[1..] + b;
      FlattenConcat(a[1..], b);
    }
  }

  lemma {:induction false} FlattenOne(s: Bytes)
    ensures Flatten([s]) == s
  {
  }

  lemma {:induction false} FlattenLength(segs: seq<Bytes>, n: nat)
    requires forall j :: 0 <= j < |segs| ==> |segs[j]| == n
    ensures |Flatten(segs)| == |segs| * n
  {
    if segs != [] {
      FlattenLength(segs[1..], n);
      assert |segs| * n == n + (|segs| - 1) * n;
    }
  }

  lemma {:induction false} FlattenSplit(segs: seq<Bytes>, lo: nat, mid: nat, hi: nat)
    requires lo <= mid <= hi <= |segs|
    ensures Flatten(segs[lo..hi]) == Flatten(segs[lo..mid]) + Flatten(segs[mid..hi])
  {
    assert segs[lo..hi] == segs[lo..mid] + segs[mid..hi];
    FlattenConcat(segs[lo..mid], segs[mid..hi]);
  }

  /** Only the last double segment may be short, and it is not empty unless it
      is the only one. */
  predicate Chopped(z: nat, segs: seq<Bytes>) {
    && |segs| > 0
    && (forall j :: 0 <= j < |segs| - 1 ==> |segs[j]| == 2 * z)
    && |segs[|segs| - 1]| <= 2 * z
    && (|segs| > 1 ==> |segs[|segs| - 1]| > 0)
  }

  function Min(a: nat, b: nat): nat { if a < b then a else b }

  /** The stretch of the chunk below a position. */
  ghost predicate Stretch(ck: Chunk, p: Pos, d: Bytes)
    requires p.h >= 1
  {
    First(p.h, p.i) < First(p.h, p.i + 1) && First(p.h, p.i) < |ck.segs| &&
    d == Flatten(ck.segs[First(p.h, p.i)..Min(|ck.segs|, First(p.h, p.i + 1))])
  }

  /** A position stands for a stretch of the chunk: at most its span, and
      exactly its span if the chunk goes on to the right; and its value is the
      value of the subtree over that stretch. */
  ghost predicate StandsFor(sh: Shape, ck: Chunk, p: Pos, d: Bytes)
    requires WellFormed(sh, ck) && Live(ck, p)
  {
    && 0 < |d| <= Span(sh.z, p.h)
    && (First(p.h, p.i + 1) < |ck.segs| ==> |d| == Span(sh.z, p.h))
    && Stretch(ck, p, d)
    && Val(sh, ck, p) == Subtree(sh.H, sh.z, p.h, d)
  }

  lemma {:induction false} ValIsSubtree(sh: Shape, ck: Chunk, p: Pos) returns (d: Bytes)
    requires WellFormed(sh, ck) && ck.Final() && Chopped(sh.z, ck.segs) && |ck.segs| > 1
    requires Live(ck, p)
    ensures StandsFor(sh, ck, p, d)
    decreases p.h
  {
    if p.h == 1 {
      d := ck.segs[p.i];
      LeafStretch(sh, ck, p);
    } else {
      LiveChildren(sh, ck, p);
      d := ValIsSubtree(sh, ck, p.Left());
      if Live(ck, p.Right()) {
        var e := ValIsSubtree(sh, ck, p.Right());
        Join(sh, ck, p, d, e);
        d := d + e;
      } else {
        Pass(sh, ck, p, d);
      }
    }
  }

  lemma {:induction false} Join(sh: Shape, ck: Chunk, p: Pos, a: Bytes, b: Bytes)
    requires WellFormed(sh, ck) && ck.Final() && Live(ck, p) && p.h >= 2
    requires Live(ck, p.Left()) && Live(ck, p.Right())
    requires StandsFor(sh, ck, p.Left(), a) && StandsFor(sh, ck, p.Right(), b)
    ensures StandsFor(sh, ck, p, a + b)
  {
    LiveChildren(sh, ck, p);
    JoinStretch(sh, ck, p, a, b);
    JoinValue(sh, ck, p, a, b);
  }

  lemma {:induction false} Pass(sh: Shape, ck: Chunk, p: Pos, a: Bytes)
    requires WellFormed(sh, ck) && ck.Final() && Live(ck, p) && p.h >= 2
    requires Live(ck, p.Left()) && !Live(ck, p.Right())
    requires StandsFor(sh, ck, p.Left(), a)
    ensures StandsFor(sh, ck, p, a)
  {
    LiveChildren(sh, ck, p);
    PassValue(sh, ck, p, a);
  }

  lemma {:induction false} LeafStretch(sh: Shape, ck: Chunk, p: Pos)
    requires WellFormed(sh, ck) && ck.Final() && Chopped(sh.z, ck.segs) && |ck.segs| > 1
    requires Live(ck, p) && p.h == 1
    ensures StandsFor(sh, ck, p, ck.segs[p.i])
  {
    var s := ck.segs[p.i];
    assert ck.segs[p.i..p.i + 1] == [s];
    FlattenOne(s);
    OneLevel(sh.H, sh.z, s);
    assert Span(sh.z, 1) == 2 * Span(sh.z, 0);
  }

  lemma {:induction false} JoinStretch(sh: Shape, ck: Chunk, p: Pos, a: Bytes, b: Bytes)
    requires WellFormed(sh, ck) && p.h >= 2 && Live(ck, p.Right())
    requires Stretch(ck, p.Left(), a) && Stretch(ck, p.Right(), b)
    ensures Stretch(ck, p, a + b)
  {
    LiveChildren(sh, ck, p);
    FlattenSplit(ck.segs, First(p.h, p.i), First(p.h - 1, 2 * p.i + 1), Min(|ck.segs|, First(p.h, p.i + 1)));
  }

  lemma {:induction false} JoinValue(sh: Shape, ck: Chunk, p: Pos, a: Bytes, b: Bytes)
    requires WellFormed(sh, ck) && Live(ck, p) && p.h >= 2
    requires Live(ck, p.Left()) && Live(ck, p.Right())
    requires |a| == Span(sh.z, p.h - 1) && 0 < |b| <= Span(sh.z, p.h - 1)
    requires Val(sh, ck, p.Left()) == Subtree(sh.H, sh.z, p.h - 1, a)
    requires Val(sh, ck, p.Right()) == Subtree(sh.H, sh.z, p.h - 1, b)
    ensures |a + b| <= Span(sh.z, p.h)
    ensures Val(sh, ck, p) == Subtree(sh.H, sh.z, p.h, a + b)
  {
    assert (a + b)[..|a|] == a && (a + b)[|a|..] == b;
  }

  lemma {:induction false} PassValue(sh: Shape, ck: Chunk, p: Pos, a: Bytes)
    requires WellFormed(sh, ck) && Live(ck, p) && p.h >= 2
    requires Live(ck, p.Left()) && !Live(ck, p.Right())
    requires |a| <= Span(sh.z, p.h - 1) && Val(sh, ck, p.Left()) == Subtree(sh.H, sh.z, p.h - 1, a)
    ensures |a| <= Span(sh.z, p.h)
    ensures Val(sh, ck, p) == Subtree(sh.H, sh.z, p.h, a)
  {
    SubtreeLift(sh.H, sh.z, p.h - 1, p.h, a);
  }

  lemma {:induction false} OneLevel(H: BaseHash, z: nat, s: Bytes)
    requires |s| <= 2 * z
    ensures |s| <= Span(z, 1)
    ensures Subtree(H, z, 1, s) == if |s| > z then H(s) else s
  {
    assert Span(z, 1) == 2 * Span(z, 0);
    if |s| > z {
      assert s[..z] + s[z..] == s;
      assert Subtree(H, z, 0, s[..z]) == s[..z];
      assert Subtree(H, z, 0, s[z..]) == s[z..];
    } else {
      assert Subtree(H, z, 0, s) == s;
    }
  }

  lemma {:induction false} LongChunk(z: nat, segs: seq<Bytes>)
    requires z > 0 && Chopped(z, segs) && |segs| > 1
    ensures |Flatten(segs)| > z
  {
    assert Flatten(segs) == segs[0] + Flatten(segs[1..]);
  }

  /** The value at the chunk's root is the digest of the whole chunk. */
  lemma {:induction false} RootValue(sh: Shape, ck: Chunk)
    requires WellFormed(sh, ck) && ck.Final() && Chopped(sh.z, ck.segs)
    ensures Live(ck, Pos(ck.rootH, 0))
    ensures Val(sh, ck, Pos(ck.rootH, 0)) == Digest(sh.H, sh.z, Flatten(ck.segs))
  {
    RootLive(sh, ck);
    if |ck.segs| == 1 {
      SingleValue(sh, ck);
    } else {
      FirstZero(ck.rootH);
      var d := ValIsSubtree(sh, ck, Pos(ck.rootH, 0));
      assert ck.segs[0..|ck.segs|] == ck.segs;
      LongChunk(sh.z, ck.segs);
      DigestIsSubtree(sh.H, sh.z, ck.rootH, d);
    }
  }

  lemma {:induction false} SingleValue(sh: Shape, ck: Chunk)
    requires WellFormed(sh, ck) && ck.Final() && Chopped(sh.z, ck.segs) && |ck.segs| == 1
    ensures Live(ck, Pos(ck.rootH, 0))
    ensures Val(sh, ck, Pos(ck.rootH, 0)) == Digest(sh.H, sh.z, Flatten(ck.segs))
  {
    RootLive(sh, ck);
    if ck.rootH > 1 {
      TallNodesCoverAll(1, ck.rootH - 1);
    }
    var s := ck.segs[0];
    assert ck.segs == [s];
    FlattenOne(s);
    OneLevel(sh.H, sh.z, s);
    if |s| > sh.z {
      DigestIsSubtree(sh.H, sh.z, 1, s);
    }
  }
}
