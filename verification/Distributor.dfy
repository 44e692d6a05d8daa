/** The request distributor of les/distributor.go: a queue kept in creation
    order, from which each peer is offered the first request it can serve. */
module Distributor {

  type Peer = nat
  type Request = nat

  /** What peers answer during one scheduling pass: whether a peer can queue and
      may be sent a request, and how long it must wait before. */
  datatype World = World(serves: (Request, Peer) -> bool, wait: (Request, Peer) -> nat)

  datatype Offer = NoOffer | Offer(peer: Peer, req: Request, wait: nat)

  // -------------------------------------------------------- specification

  /** The creation order of a request, zero before it is first queued. */
  function Order(orders: map<Request, nat>, r: Request): nat {
    if r in orders then orders[r] else 0
  }

  ghost predicate Sorted(queue: seq<Request>, orders: map<Request, nat>) {
    && (forall i {:trigger queue[i]} :: 0 <= i < |queue| ==> queue[i] in orders)
    && (forall i, j {:trigger queue[i], queue[j]} :: 0 <= i < j < |queue| ==>
      Order(orders, queue[i]) < Order(orders, queue[j]))
  }

  /** Creation orders are positive, distinct and already handed out. */
  ghost predicate OrdersOk(orders: map<Request, nat>, last: nat) {
    && (forall r {:trigger orders[r]} :: r in orders ==> 0 < orders[r] <= last)
    && (forall r, s {:trigger orders[r], orders[s]} :: r in orders && s in orders && orders[r] == orders[s] ==> r == s)
  }

  ghost predicate Servable(w: World, peers: set<Peer>, r: Request) {
    exists p {:trigger w.serves(r, p)} :: p in peers && w.serves(r, p)
  }

  /** `r` is the first request of the queue that `p` can serve. */
  ghost predicate FirstFor(w: World, queue: seq<Request>, p: Peer, r: Request) {
    exists i {:trigger queue[i]} :: 0 <= i < |queue| && queue[i] == r && FirstAt(w, queue, p, i)
  }

  ghost predicate FirstAt(w: World, queue: seq<Request>, p: Peer, i: nat)
    requires i < |queue|
  {
    w.serves(queue[i], p) && NoneBefore(w, queue, p, i)
  }

  ghost predicate NoneBefore(w: World, queue: seq<Request>, p: Peer, i: nat)
    requires i <= |queue|
  {
    forall j {:trigger queue[j]} :: 0 <= j < i ==> !w.serves(queue[j], p)
  }

  /** No request created earlier and still queued can be served by a peer that
      is offered its first. */
  lemma {:induction false} NoneEarlier(w: World, queue: seq<Request>, orders: map<Request, nat>, p: Peer, r: Request,
                                       earlier: Request)
    requires Sorted(queue, orders) && FirstFor(w, queue, p, r)
    requires earlier in queue && Order(orders, earlier) < Order(orders, r)
    ensures !w.serves(earlier, p)
  {
    var i :| 0 <= i < |queue| && queue[i] == r && FirstAt(w, queue, p, i);
    var j :| 0 <= j < |queue| && queue[j] == earlier;
    assert j < i;
  }

  // ----------------------------------------------------- the inner loop

  /** The pass so far: peers tried, offers that need no wait, the best offer
      that needs one. */
  datatype Pass = Pass(checked: set<Peer>, ready: set<(Peer, Request)>, best: Offer)

  /** Exactly the peers that serve one of the first `i` requests are checked,
      each with the first such request. */
  ghost predicate PassOk(w: World, peers: set<Peer>, queue: seq<Request>, i: nat, s: Pass) {
    && i <= |queue|
    && (forall p {:trigger p in s.checked} :: p in s.checked <==> p in peers && !NoneBefore(w, queue, p, i))
    && (forall o {:trigger o in s.ready} :: o in s.ready ==>
      o.0 in s.checked && FirstFor(w, queue, o.0, o.1) && w.wait(o.1, o.0) == 0)
    && BestOk(w, queue, s, i)
    && (forall p {:trigger p in s.checked} :: p in s.checked ==> Considered(w, queue, s, p))
  }

  ghost predicate BestOk(w: World, queue: seq<Request>, s: Pass, n: nat) {
    s.best.Offer? ==>
      && s.best.peer in s.checked && FirstFor(w, queue, s.best.peer, s.best.req) && FirstUpTo(w, queue, s.best, n)
      && s.best.wait == w.wait(s.best.req, s.best.peer) > 0
  }

  /** The offer is for one of the requests up to number `n`. */
  ghost predicate FirstUpTo(w: World, queue: seq<Request>, o: Offer, n: nat)
    requires o.Offer?
  {
    exists b {:trigger queue[b]} :: 0 <= b <= n && b < |queue| && queue[b] == o.req && FirstAt(w, queue, o.peer, b)
  }

  /** A checked peer's first request is ready, or the best offer waits no longer and
      is for no later request if it waits as long. */
  ghost predicate Considered(w: World, queue: seq<Request>, s: Pass, p: Peer) {
    exists i {:trigger queue[i]} :: 0 <= i < |queue| && FirstAt(w, queue, p, i) && ConsideredAt(w, queue, s, p, i)
  }

  ghost predicate ConsideredAt(w: World, queue: seq<Request>, s: Pass, p: Peer, i: nat)
    requires i < |queue|
  {
    if w.wait(queue[i], p) == 0 then (p, queue[i]) in s.ready
    else
      && s.best.Offer? && s.best.wait <= w.wait(queue[i], p)
      && (s.best.wait == w.wait(queue[i], p) ==> FirstUpTo(w, queue, s.best, i))
  }

  /** One more offer is taken into account. */
  function Consider(w: World, s: Pass, p: Peer, r: Request): Pass {
    if w.wait(r, p) == 0 then s.(ready := s.ready + {(p, r)}, checked := s.checked + {p})
    else if s.best.NoOffer? || w.wait(r, p) < s.best.wait then s.(best := Offer(p, r, w.wait(r, p)),
      checked := s.checked + {p})
    else s.(checked := s.checked + {p})
  }

  /** During the pass over request `i`: of the peers left in `todo` none has
      been tried with it. */
  ghost predicate MidPass(w: World, peers: set<Peer>, queue: seq<Request>, i: nat, todo: set<Peer>, s: Pass) {
    && i < |queue| && todo <= peers
    && (forall p {:trigger p in s.checked} ::
         p in s.checked <==> p in peers && (!NoneBefore(w, queue, p, i) || (p !in todo && w.serves(queue[i], p))))
    && (forall o {:trigger o in s.ready} :: o in s.ready ==>
      o.0 in s.checked && FirstFor(w, queue, o.0, o.1) && w.wait(o.1, o.0) == 0)
    && BestOk(w, queue, s, i)
    && (forall p {:trigger p in s.checked} :: p in s.checked ==> Considered(w, queue, s, p))
  }

  lemma {:induction false} ConsiderKeeps(w: World, peers: set<Peer>, queue: seq<Request>, i: nat, todo: set<Peer>,
                                         s: Pass, p: Peer)
    requires MidPass(w, peers, queue, i, todo, s) && p in todo && p !in s.checked && w.serves(queue[i], p)
    ensures MidPass(w, peers, queue, i, todo - {p}, Consider(w, s, p, queue[i]))
  {
    var t := Consider(w, s, p, queue[i]);
    assert NoneBefore(w, queue, p, i) && FirstAt(w, queue, p, i) && FirstFor(w, queue, p, queue[i]);
    assert s.best.Offer? ==> t.best.Offer? && (t.best == s.best || t.best.wait < s.best.wait);
    assert t.best.Offer? && t.best != s.best ==> queue[i] == t.best.req && FirstUpTo(w, queue, t.best, i);
    forall q | q in t.checked
      ensures Considered(w, queue, t, q)
    {
      if q == p {
        assert ConsideredAt(w, queue, t, p, i);
      } else {
        assert q in s.checked;
        var k :| 0 <= k < |queue| && FirstAt(w, queue, q, k) && ConsideredAt(w, queue, s, q, k);
        assert ConsideredAt(w, queue, t, q, k);
      }
    }
  }

  lemma {:induction false} SkipKeeps(w: World, peers: set<Peer>, queue: seq<Request>, i: nat, todo: set<Peer>,
                                     s: Pass, p: Peer)
    requires MidPass(w, peers, queue, i, todo, s) && p in todo && (p in s.checked || !w.serves(queue[i], p))
    ensures MidPass(w, peers, queue, i, todo - {p}, s)
  {
  }

  lemma {:induction false} PassStarts(w: World, peers: set<Peer>, queue: seq<Request>, i: nat, s: Pass)
    requires PassOk(w, peers, queue, i, s) && i < |queue|
    ensures MidPass(w, peers, queue, i, peers, s)
  {
  }

  lemma {:induction false} PassEnds(w: World, peers: set<Peer>, queue: seq<Request>, i: nat, s: Pass)
    requires MidPass(w, peers, queue, i, {}, s)
    ensures PassOk(w, peers, queue, i + 1, s)
  {
    var k := i + 1;
    forall p
      ensures NoneBefore(w, queue, p, k) <==> NoneBefore(w, queue, p, i) && !w.serves(queue[i], p)
    {
      if NoneBefore(w, queue, p, k) {
        assert !w.serves(queue[i], p);
      }
    }
  }

  /** The loop over the peers for request `i`, in any order. */
  method TryPeers(w: World, peers: set<Peer>, queue: seq<Request>, i: nat, s0: Pass) returns (s: Pass, canSend: bool)
    requires i < |queue| && PassOk(w, peers, queue, i, s0)
    ensures PassOk(w, peers, queue, i + 1, s)
    ensures canSend <==> exists p {:trigger w.serves(queue[i], p)} ::
      p in peers && p !in s0.checked && w.serves(queue[i], p)
    ensures !canSend ==> s == s0
    ensures canSend ==> s.checked != {}
  {
    s, canSend := s0, false;
    var todo := peers;
    PassStarts(w, peers, queue, i, s);
    while todo != {}
      invariant MidPass(w, peers, queue, i, todo, s)
      invariant s0.checked <= s.checked
      invariant canSend <==> exists p {:trigger w.serves(queue[i], p)} ::
        p in peers && p !in todo && p !in s0.checked && w.serves(queue[i], p)
      invariant !canSend ==> s == s0
      invariant canSend ==> s.checked != {}
      invariant forall p {:trigger p in s.checked} :: p in s.checked && p !in s0.checked ==> p !in todo
      decreases |todo|
    {
      var p: nat :| p in todo;
      if p !in s.checked && w.serves(queue[i], p) {
        ConsiderKeeps(w, peers, queue, i, todo, s, p);
        canSend := true;
        s := Consider(w, s, p, queue[i]);
        assert p in s.checked;
      } else {
        SkipKeeps(w, peers, queue, i, todo, s, p);
      }
      todo := todo - {p};
    }
    PassEnds(w, peers, queue, i, s);
  }

  // -------------------------------------------------------- dropping

  lemma {:induction false} EmptyPass(w: World, peers: set<Peer>, queue: seq<Request>)
    ensures PassOk(w, peers, queue, 0, Pass({}, {}, NoOffer))
  {
    assert forall p: Peer :: NoneBefore(w, queue, p, 0);
  }

  /** The result of a whole pass over a queue whose front is servable. */
  ghost predicate Scheduled(w: World, peers: set<Peer>, queue: seq<Request>, o: Offer) {
    if o.NoOffer? then queue == []
    else
      && o.peer in peers && FirstFor(w, queue, o.peer, o.req) && o.wait == w.wait(o.req, o.peer)
      && (forall p, i {:trigger FirstAt(w, queue, p, i)} ::
        p in peers && 0 <= i < |queue| && FirstAt(w, queue, p, i) ==>
          && o.wait <= w.wait(queue[i], p)
          && (0 < o.wait == w.wait(queue[i], p) ==> FirstUpTo(w, queue, o, i)))
  }

  lemma {:induction false} ReadyIsScheduled(w: World, peers: set<Peer>, queue: seq<Request>, s: Pass, c: (Peer,
                                            Request))
    requires PassOk(w, peers, queue, |queue|, s) && c in s.ready
    ensures Scheduled(w, peers, queue, Offer(c.0, c.1, 0))
  {
    assert c.0 in s.checked;
  }

  lemma {:induction false} BestIsScheduled(w: World, peers: set<Peer>, queue: seq<Request>, s: Pass)
    requires PassOk(w, peers, queue, |queue|, s) && s.ready == {}
    requires s.checked == {} ==> queue == []
    ensures Scheduled(w, peers, queue, s.best)
  {
    forall p | p in s.checked
      ensures s.best.Offer?
    {
      assert Considered(w, queue, s, p);
      var k :| 0 <= k < |queue| && FirstAt(w, queue, p, k) && ConsideredAt(w, queue, s, p, k);
      assert (p, queue[k]) !in s.ready;
    }
    if s.best.Offer? {
      assert s.best.peer in s.checked;
      forall p, i | p in peers && 0 <= i < |queue| && FirstAt(w, queue, p, i)
        ensures s.best.wait <= w.wait(queue[i], p)
        ensures s.best.wait == w.wait(queue[i], p) ==> FirstUpTo(w, queue, s.best, i)
      {
        assert w.serves(queue[i], p) && !NoneBefore(w, queue, p, |queue|);
        assert p in s.checked && Considered(w, queue, s, p);
        var k :| 0 <= k < |queue| && FirstAt(w, queue, p, k) && ConsideredAt(w, queue, s, p, k);
        FirstIsOne(w, queue, p, i, k);
      }
    }
  }

  lemma {:induction false} FirstIsOne(w: World, queue: seq<Request>, p: Peer, i: nat, k: nat)
    requires i < |queue| && k < |queue| && FirstAt(w, queue, p, i) && FirstAt(w, queue, p, k)
    ensures i == k
  {
    assert NoneBefore(w, queue, p, k) && NoneBefore(w, queue, p, i);
  }

  // ------------------------------------------------------ the distributor

  class RequestDistributor {
    var queue: seq<Request>
    var lastReqOrder: nat
    var orders: map<Request, nat>
    var peers: set<Peer>

    /** The queue is strictly sorted by creation order. */
    ghost predicate Valid()
      reads this
    {
      Sorted(queue, orders) && OrdersOk(orders, lastReqOrder)
    }

    constructor ()
      ensures Valid() && queue == [] && peers == {}
    {
      queue, lastReqOrder, orders, peers := [], 0, map[], {};
    }

    /** queue: a new request goes to the back; one that is sent again keeps its
        creation order and its place in it. */
    method Enqueue(r: Request)
      requires Valid() && r !in queue
      modifies this`queue, this`lastReqOrder, this`orders
      ensures Valid()
      ensures r in orders && orders == old(orders)[r := orders[r]]
      ensures r in old(orders) ==> orders == old(orders) && lastReqOrder == old(lastReqOrder)
      ensures r !in old(orders) ==> queue == old(queue) + [r]
      ensures exists k {:trigger old(queue)[..k]} ::
        0 <= k <= |old(queue)| && queue == old(queue)[..k] + [r] + old(queue)[k..]
    {
      if r !in orders {
        lastReqOrder := lastReqOrder + 1;
        orders := orders[r := lastReqOrder];
      }
      var k := InsertionPoint(r);
      InsertSorted(queue, orders, r, k);
      ghost var before := queue;
      queue := queue[..k] + [r] + queue[k..];
      assert queue == before[..k] + [r] + before[k..];
    }

    /** At the back when the request is the newest, else before the first one
        that is not older. */
    method InsertionPoint(r: Request) returns (k: nat)
      requires Valid() && r in orders && r !in queue
      ensures k <= |queue|
      ensures forall i {:trigger queue[i]} :: 0 <= i < k ==> Order(orders, queue[i]) < Order(orders, r)
      ensures forall i {:trigger queue[i]} :: k <= i < |queue| ==> Order(orders, r) < Order(orders, queue[i])
      ensures (forall x {:trigger orders[x]} :: x in orders && x != r ==> orders[x] < orders[r]) ==> k == |queue|
    {
      if queue == [] || Order(orders, r) > Order(orders, queue[|queue| - 1]) {
        return |queue|;
      }
      k := 0;
      while Order(orders, queue[k]) < Order(orders, r)
        invariant 0 <= k < |queue|
        invariant forall i {:trigger queue[i]} :: 0 <= i < k ==> Order(orders, queue[i]) < Order(orders, r)
      {
        k := k + 1;
      }
      assert queue[k] in orders && queue[k] != r && orders[queue[k]] != orders[r];
      forall i | k <= i < |queue|
        ensures Order(orders, r) < Order(orders, queue[i])
      {
        assert i > k ==> Order(orders, queue[k]) < Order(orders, queue[i]);
      }
    }

    static lemma {:induction false} InsertSorted(queue: seq<Request>, orders: map<Request, nat>, r: Request, k: nat)
      requires Sorted(queue, orders) && r in orders && k <= |queue|
      requires forall i {:trigger queue[i]} :: 0 <= i < k ==> Order(orders, queue[i]) < Order(orders, r)
      requires forall i {:trigger queue[i]} :: k <= i < |queue| ==> Order(orders, r) < Order(orders, queue[i])
      ensures Sorted(queue[..k] + [r] + queue[k..], orders)
    {
      var q := queue[..k] + [r] + queue[k..];
      assert forall i {:trigger q[i]} :: 0 <= i < |q| ==>
        q[i] == if i < k then queue[i] else if i == k then r else queue[i - 1];
    }

    /** remove. */
    method Remove(r: Request)
      requires Valid()
      modifies this`queue
      ensures Valid() && r !in queue
      ensures r !in old(queue) ==> queue == old(queue)
      ensures forall k {:trigger old(queue)[k]} :: 0 <= k < |old(queue)| && old(queue)[k] == r ==>
        queue == old(queue)[..k] + old(queue)[k + 1..]
    {
      var k := 0;
      while k < |queue| && queue[k] != r
        invariant 0 <= k <= |queue| && r !in queue[..k]
        modifies {}
      {
        k := k + 1;
      }
      if k < |queue| {
        Unique(queue, orders, k);
        queue := queue[..k] + queue[k + 1..];
      }
    }

    static lemma {:induction false} Unique(queue: seq<Request>, orders: map<Request, nat>, k: nat)
      requires Sorted(queue, orders) && k < |queue|
      ensures queue[k] !in queue[..k] + queue[k + 1..] && Sorted(queue[..k] + queue[k + 1..], orders)
      ensures forall i {:trigger queue[i]} :: 0 <= i < |queue| && queue[i] == queue[k] ==> i == k
    {
      var q := queue[..k] + queue[k + 1..];
      assert forall i {:trigger q[i]} :: 0 <= i < |q| ==> q[i] == if i < k then queue[i] else queue[i + 1];
      assert queue[k] in queue;
    }

    /** cancel: whether the request was still waiting. */
    method Cancel(r: Request) returns (ok: bool)
      requires Valid()
      modifies this`queue
      ensures Valid() && r !in queue
      ensures ok <==> r in old(queue)
      ensures !ok ==> queue == old(queue)
    {
      if r !in queue {
        return false;
      }
      Remove(r);
      ok := true;
    }

    /** nextRequest.  Requests are dropped only from the front, and only those no
        peer can serve; the offer pairs a peer with the first request it can
        serve, and no such pair has a shorter wait. */
    method NextRequest(w: World) returns (o: Offer)
      requires Valid()
      modifies this`queue
      ensures Valid()
      ensures DroppedFrom(w, peers, old(queue), queue)
      ensures queue != [] ==> Servable(w, peers, queue[0])
      ensures Scheduled(w, peers, queue, o)
    {
      var s := Pass({}, {}, NoOffer);
      var i: nat := 0;
      EmptyPass(w, peers, queue);
      while (peers != {} || i == 0) && i < |queue|
        invariant OrdersOk(orders, lastReqOrder) && Visiting(w, peers, old(queue), queue, orders, i, s)
        decreases |queue| - i
      {
        queue, i, s := Visit(w, peers, old(queue), queue, orders, i, s);
      }
      CheckedArePeers(w, peers, queue, i, s);
      o := Choose(w, peers, queue, s);
    }

    /** In the middle of nextRequest, `i` requests having been looked at. */
    static ghost predicate Visiting(w: World, peers: set<Peer>, before: seq<Request>, queue: seq<Request>,
                                    orders: map<Request, nat>, i: nat, s: Pass) {
      && Sorted(queue, orders) && PassOk(w, peers, queue, i, s) && DroppedFrom(w, peers, before, queue)
      && (i == 0 ==> s == Pass({}, {}, NoOffer))
      && (i > 0 ==> s.checked != {} && Servable(w, peers, queue[0]))
    }

    /** One turn of nextRequest's loop: the request is offered to the peers not
        yet checked, and dropped if it is at the front and none takes it. */
    static method Visit(w: World, peers: set<Peer>, ghost before: seq<Request>, queue0: seq<Request>,
                        ghost orders: map<Request, nat>, i0: nat, s0: Pass)
      returns (queue: seq<Request>, i: nat, s: Pass)
      requires i0 < |queue0| && Visiting(w, peers, before, queue0, orders, i0, s0)
      ensures Visiting(w, peers, before, queue, orders, i, s) && i <= |queue| && |queue| - i < |queue0| - i0
    {
      var canSend;
      s, canSend := TryPeers(w, peers, queue0, i0, s0);
      if !canSend && i0 == 0 {
        DropFront(w, peers, before, queue0, orders);
        queue, i := queue0[1..], 0;
        EmptyPass(w, peers, queue);
      } else {
        queue, i := queue0, i0 + 1;
      }
    }

    /** One of the offers that need no wait, else the best one. */
    static method Choose(w: World, peers: set<Peer>, queue: seq<Request>, s: Pass) returns (o: Offer)
      requires PassOk(w, peers, queue, |queue|, s)
      requires s.checked == {} ==> queue == []
      ensures Scheduled(w, peers, queue, o)
    {
      if s.ready != {} {
        var c :| c in s.ready;
        ReadyIsScheduled(w, peers, queue, s, c);
        return Offer(c.0, c.1, 0);
      }
      BestIsScheduled(w, peers, queue, s);
      o := s.best;
    }

    /** One turn of the event loop: an offer without a wait is sent, and its
        request leaves the queue. */
    method SendNext(w: World) returns (o: Offer)
      requires Valid()
      modifies this`queue
      ensures Valid()
      ensures o.Offer? && o.wait == 0 ==> o.req in old(queue) && o.req !in queue
      ensures o.NoOffer? ==> queue == []
      ensures forall r :: r in queue ==> r in old(queue)
      ensures forall r :: r in old(queue) && Servable(w, peers, r) && !(o.Offer? && o.wait == 0 && o.req == r) ==>
        r in queue
    {
      o := NextRequest(w);
      ghost var kept := queue;
      DroppedOnly(w, peers, old(queue), kept);
      if o.Offer? && o.wait == 0 {
        assert o.req in kept;
        Remove(o.req);
        RemovedOnly(kept, queue, o.req);
      }
    }

    static lemma {:induction false} DroppedOnly(w: World, peers: set<Peer>, before: seq<Request>, queue: seq<Request>)
      requires DroppedFrom(w, peers, before, queue)
      ensures forall r :: r in queue ==> r in before
      ensures forall r :: r in before && Servable(w, peers, r) ==> r in queue
    {
      var k := |before| - |queue|;
      forall r | r in before && Servable(w, peers, r)
        ensures r in queue
      {
        var i :| 0 <= i < |before| && before[i] == r;
        assert i >= k && queue[i - k] == r;
      }
    }

    static lemma {:induction false} RemovedOnly(before: seq<Request>, queue: seq<Request>, r: Request)
      requires r in before
      requires forall k {:trigger before[k]} :: 0 <= k < |before| && before[k] == r ==>
        queue == before[..k] + before[k + 1..]
      ensures forall x :: x in queue ==> x in before
      ensures forall x :: x in before && x != r ==> x in queue
    {
      var k :| 0 <= k < |before| && before[k] == r;
      forall x | x in before && x != r
        ensures x in queue
      {
        var i :| 0 <= i < |before| && before[i] == x;
        assert queue[if i < k then i else i - 1] == x;
      }
    }

    /** `queue` is `before` without some requests at its front that no peer
        serves. */
    static ghost predicate DroppedFrom(w: World, peers: set<Peer>, before: seq<Request>, queue: seq<Request>) {
      && |queue| <= |before| && queue == before[|before| - |queue|..]
      && forall j {:trigger before[j]} :: 0 <= j < |before| - |queue| ==> !Servable(w, peers, before[j])
    }

    static lemma {:induction false} DropFront(w: World, peers: set<Peer>, before: seq<Request>,
                                              queue: seq<Request>, orders: map<Request, nat>)
      requires DroppedFrom(w, peers, before, queue) && queue != [] && !Servable(w, peers, queue[0])
      requires Sorted(queue, orders)
      ensures DroppedFrom(w, peers, before, queue[1..]) && Sorted(queue[1..], orders)
    {
      var k := |before| - |queue|;
      assert before[k] == queue[0];
      assert before[k + 1..] == queue[1..];
    }

    static lemma {:induction false} CheckedArePeers(w: World, peers: set<Peer>, queue: seq<Request>, i: nat, s: Pass)
      requires PassOk(w, peers, queue, i, s)
      ensures s.checked != {} ==> peers != {}
    {
      assert forall p :: p in s.checked ==> p in peers;
    }
  }
}
