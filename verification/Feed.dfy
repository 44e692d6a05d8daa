/** The event feed of event/feed.go.  The select cases live in one array: slot 0
    is the case that receives removals, the slots up to `n` are the subscribed
    channels, and during a send the slots up to a smaller bound are the channels
    still to be served. */
module Feed {
  import opened Options

  /** A select case: its channel and the value it would send. */
  datatype Case = Case(chan: nat, value: Option<int>)

  // -------------------------------------------------------- specification

  datatype Event = Sent(chan: nat, value: int) | Gone(chan: nat)

  datatype State = State(waiting: set<nat>, served: set<nat>)

  /** What a send may do, one event at a time: serve a waiting channel, or lose a
      channel that is waiting or served. */
  function Step(s: State, e: Event, value: int): Option<State> {
    match e
    case Sent(c, v) =>
      if c in s.waiting && v == value then Some(State(s.waiting - {c}, s.served + {c})) else None
    case Gone(c) =>
      if c in s.waiting + s.served then Some(State(s.waiting - {c}, s.served - {c})) else None
  }

  function Replay(channels: set<nat>, value: int, events: seq<Event>): Option<State> {
    if events == [] then Some(State(channels, {}))
    else
      var s := Replay(channels, value, events[..|events| - 1]);
      if s.None? then None else Step(s.value, events[|events| - 1], value)
  }

  function SentCount(events: seq<Event>): nat {
    if events == [] then 0
    else SentCount(events[..|events| - 1]) + (if events[|events| - 1].Sent? then 1 else 0)
  }

  lemma {:induction false} ReplayAppend(channels: set<nat>, value: int, events: seq<Event>, e: Event)
    requires Replay(channels, value, events).Some?
    ensures Replay(channels, value, events + [e]) == Step(Replay(channels, value, events).value, e, value)
    ensures SentCount(events + [e]) == SentCount(events) + (if e.Sent? then 1 else 0)
  {
    assert (events + [e])[..|events|] == events;
  }

  /** Where a channel is, read off the events. */
  ghost predicate Reads(channels: set<nat>, value: int, events: seq<Event>, s: State, c: nat) {
    && (c in s.waiting <==> c in channels && Sent(c, value) !in events && Gone(c) !in events)
    && (c in s.served <==> Sent(c, value) in events && Gone(c) !in events)
    && (Sent(c, value) in events || Gone(c) in events ==> c in channels)
    && (forall v :: Sent(c, v) in events ==> v == value)
  }

  lemma {:induction false} ReplayReads(channels: set<nat>, value: int, events: seq<Event>, c: nat)
    requires Replay(channels, value, events).Some?
    ensures Reads(channels, value, events, Replay(channels, value, events).value, c)
    decreases |events|
  {
    if events != [] {
      var init, e := events[..|events| - 1], events[|events| - 1];
      assert events == init + [e];
      ReplayReads(channels, value, init, c);
      ReplayReads(channels, value, init, e.chan);
    }
  }

  /** A channel is sent to at most once and never after it is removed. */
  lemma {:induction false} AtMostOnce(channels: set<nat>, value: int, events: seq<Event>, c: nat, i: nat, j: nat)
    requires Replay(channels, value, events).Some? && i < j < |events| && events[j] == Sent(c, value)
    ensures events[i] != Sent(c, value) && events[i] != Gone(c)
    decreases |events|
  {
    var last := |events| - 1;
    if j < last {
      AtMostOnce(channels, value, events[..last], c, i, j);
    } else {
      ReplayReads(channels, value, events[..last], c);
      assert events[i] in events[..last];
    }
  }

  /** The channels that were sent to are as many as the sends. */
  ghost function Receivers(value: int, events: seq<Event>): set<nat> {
    set e | e in events && e.Sent? :: e.chan
  }

  lemma {:induction false} CountsReceivers(channels: set<nat>, value: int, events: seq<Event>)
    requires Replay(channels, value, events).Some?
    ensures SentCount(events) == |Receivers(value, events)|
    decreases |events|
  {
    if events == [] {
      assert Receivers(value, events) == {};
    } else {
      var init, e := events[..|events| - 1], events[|events| - 1];
      assert events == init + [e];
      CountsReceivers(channels, value, init);
      if e.Sent? {
        ReplayReads(channels, value, init, e.chan);
        assert Receivers(value, events) == Receivers(value, init) + {e.chan};
        assert e.chan !in Receivers(value, init);
      } else {
        assert Receivers(value, events) == Receivers(value, init);
      }
    }
  }

  /** A finished send served every channel exactly once unless it was removed
      first, and the channels left are those not removed. */
  lemma {:induction false} Delivered(channels: set<nat>, value: int, events: seq<Event>, left: set<nat>, c: nat)
    requires Replay(channels, value, events) == Some(State({}, left)) && c in channels
    ensures Gone(c) !in events ==> Sent(c, value) in events
    ensures c in left <==> Gone(c) !in events
  {
    ReplayReads(channels, value, events, c);
  }

  // ------------------------------------------------------- case sequences

  /** No channel has two cases. */
  ghost predicate OneCaseEach(s: seq<Case>) {
    forall i, j {:trigger s[i], s[j]} :: 0 <= i < j < |s| ==> s[i].chan != s[j].chan
  }

  /** The channels in slots `a` up to `b`. */
  ghost function Chans(s: seq<Case>, a: nat, b: nat): set<nat>
    requires a <= b <= |s|
  {
    set k | a <= k < b :: s[k].chan
  }

  lemma {:induction false} Swapped(s: seq<Case>, t: seq<Case>, i: nat, m: nat)
    requires OneCaseEach(s) && 1 <= i < m <= |s| == |t|
    requires t == s[i := s[m - 1]][m - 1 := s[i]]
    ensures OneCaseEach(t)
    ensures Chans(t, 1, m - 1) == Chans(s, 1, m) - {s[i].chan}
    ensures Chans(t, m - 1, |t|) == Chans(s, m, |s|) + {s[i].chan}
  {
    var l := m - 1;
    assert forall k {:trigger t[k]} :: 0 <= k < |t| ==> t[k] == s[if k == l then i else if k == i then l else k];
    forall c
      ensures c in Chans(t, 1, l) <==> c in Chans(s, 1, m) && c != s[i].chan
    {
      if c in Chans(s, 1, m) && c != s[i].chan {
        var k :| 1 <= k < m && s[k].chan == c;
        assert t[if k == l then i else k].chan == c;
      }
    }
    forall c
      ensures c in Chans(t, l, |t|) <==> c in Chans(s, m, |s|) || c == s[i].chan
    {
      assert t[l].chan == s[i].chan;
      if c in Chans(s, m, |s|) {
        var k :| m <= k < |s| && s[k].chan == c;
        assert t[k].chan == c;
      }
    }
  }

  lemma {:induction false} SameChans(s: seq<Case>, t: seq<Case>)
    requires |s| == |t| >= 1 && OneCaseEach(s)
    requires forall k {:trigger t[k]} :: 0 <= k < |t| ==> t[k].chan == s[k].chan
    ensures OneCaseEach(t) && Chans(t, 1, |t|) == Chans(s, 1, |s|)
  {
    forall c
      ensures c in Chans(t, 1, |t|) <==> c in Chans(s, 1, |s|)
    {
      if c in Chans(s, 1, |s|) {
        var k :| 1 <= k < |s| && s[k].chan == c;
        assert t[k].chan == c;
      }
    }
  }

  /** The cases without the one at `i`. */
  function Without(s: seq<Case>, i: nat): seq<Case>
    requires i < |s|
  {
    s[..i] + s[i + 1..]
  }

  /** Deleting a case takes its channel out of the part it was in; when it was in
      front of `m`, that part is one shorter. */
  lemma {:induction false} Deleted(s: seq<Case>, i: nat, m: nat)
    requires OneCaseEach(s) && 1 <= i < |s| && 1 <= m <= |s|
    ensures OneCaseEach(Without(s, i))
    ensures i < m ==> Chans(Without(s, i), 1, m - 1) == Chans(s, 1, m) - {s[i].chan}
                      && Chans(Without(s, i), m - 1, |s| - 1) == Chans(s, m, |s|) - {s[i].chan}
    ensures i >= m ==> Chans(Without(s, i), 1, m) == Chans(s, 1, m) - {s[i].chan}
                       && Chans(Without(s, i), m, |s| - 1) == Chans(s, m, |s|) - {s[i].chan}
  {
    var t := Without(s, i);
    assert forall k {:trigger t[k]} :: 0 <= k < |t| ==> t[k] == s[if k < i then k else k + 1];
    if i < m {
      DeletedPart(s, t, i, 1, m, 1, m - 1);
      DeletedPart(s, t, i, m, |s|, m - 1, |t|);
    } else {
      DeletedPart(s, t, i, 1, m, 1, m);
      DeletedPart(s, t, i, m, |s|, m, |t|);
    }
  }

  lemma {:induction false} DeletedPart(s: seq<Case>, t: seq<Case>, i: nat, a: nat, b: nat, c: nat, d: nat)
    requires OneCaseEach(s) && i < |s| && |t| == |s| - 1 && a <= b <= |s| && c <= d <= |t|
    requires forall k {:trigger t[k]} :: 0 <= k < |t| ==> t[k] == s[if k < i then k else k + 1]
    requires c == (if i < a then a - 1 else a) && d == (if i < b then b - 1 else b)
    ensures Chans(t, c, d) == Chans(s, a, b) - {s[i].chan}
  {
    forall x
      ensures x in Chans(t, c, d) <==> x in Chans(s, a, b) && x != s[i].chan
    {
      if x in Chans(s, a, b) && x != s[i].chan {
        var k :| a <= k < b && s[k].chan == x;
        var l := if k < i then k else k - 1;
        assert t[l].chan == x;
      }
    }
  }

  // ------------------------------------------------------------ the send

  /** In the middle of a send: the slots below `m` wait, the others are served. */
  ghost predicate Sending(s: seq<Case>, m: nat, channels: set<nat>, value: int, events: seq<Event>) {
    && 1 <= m <= |s| && OneCaseEach(s) && s[0].chan == 0
    && (forall k {:trigger s[k]} :: 1 <= k < |s| ==> s[k].value == Some(value))
    && Replay(channels, value, events) == Some(State(Chans(s, 1, m), Chans(s, m, |s|)))
  }

  lemma {:induction false} ServeStep(s: seq<Case>, i: nat, m: nat, channels: set<nat>, value: int, events: seq<Event>)
    requires Sending(s, m, channels, value, events) && 1 <= i < m
    ensures Sending(s[i := s[m - 1]][m - 1 := s[i]], m - 1, channels, value, events + [Sent(s[i].chan, value)])
    ensures SentCount(events + [Sent(s[i].chan, value)]) == SentCount(events) + 1
  {
    var t := s[i := s[m - 1]][m - 1 := s[i]];
    Swapped(s, t, i, m);
    assert s[i].chan in Chans(s, 1, m);
    ReplayAppend(channels, value, events, Sent(s[i].chan, value));
  }

  lemma {:induction false} RemoveStep(s: seq<Case>, i: nat, m: nat, channels: set<nat>, value: int, events: seq<Event>)
    requires Sending(s, m, channels, value, events) && 1 <= i < |s|
    ensures Sending(Without(s, i), if i < m then m - 1 else m, channels, value, events + [Gone(s[i].chan)])
    ensures SentCount(events + [Gone(s[i].chan)]) == SentCount(events)
  {
    Deleted(s, i, m);
    assert s[i].chan in Chans(s, 1, m) + Chans(s, m, |s|) by {
      assert i < m ==> s[i].chan in Chans(s, 1, m);
      assert i >= m ==> s[i].chan in Chans(s, m, |s|);
    }
    ReplayAppend(channels, value, events, Gone(s[i].chan));
  }

  /** find: the index of a channel's case, or -1. */
  method Find(buf: array<Case>, n: nat, chan: nat) returns (index: int)
    requires n <= buf.Length
    ensures -1 <= index < n
    ensures index >= 0 ==> buf[index].chan == chan
    ensures index == -1 ==> chan !in Chans(buf[..n], 0, n)
  {
    for i := 0 to n
      invariant forall k {:trigger buf[k]} :: 0 <= k < i ==> buf[k].chan != chan
    {
      if buf[i].chan == chan {
        return i;
      }
    }
    index := -1;
  }

  /** delete: the later cases move down by one, in place. */
  method Delete(buf: array<Case>, n: nat, index: nat)
    requires index < n <= buf.Length
    modifies buf
    ensures buf[..n - 1] == Without(old(buf[..n]), index)
  {
    var i := index;
    while i + 1 < n
      invariant index <= i < n
      invariant forall k {:trigger buf[k]} :: 0 <= k < index || i <= k < buf.Length ==> buf[k] == old(buf[k])
      invariant forall k {:trigger buf[k]} :: index <= k < i ==> buf[k] == old(buf[k + 1])
    {
      buf[i] := buf[i + 1];
      i := i + 1;
    }
  }

  /** deactivate: the case is swapped to the end of the first `m`. */
  method Deactivate(buf: array<Case>, n: nat, i: nat, m: nat)
    requires i < m <= n <= buf.Length
    modifies buf
    ensures buf[..n] == old(buf[..n])[i := old(buf[m - 1])][m - 1 := old(buf[i])]
  {
    buf[i], buf[m - 1] := buf[m - 1], buf[i];
  }

  class Feed {
    var buf: array<Case>
    var n: nat
    var inbox: seq<nat>

    ghost predicate Valid()
      reads this, buf
    {
      && 1 <= n <= buf.Length && OneCaseEach(buf[..n]) && buf[0].chan == 0
      && (forall i {:trigger inbox[i]} :: 0 <= i < |inbox| ==> inbox[i] !in Chans(buf[..n], 0, n))
      && (forall i, j {:trigger inbox[i], inbox[j]} :: 0 <= i < j < |inbox| ==> inbox[i] != inbox[j])
    }

    /** The subscribed channels. */
    ghost function Channels(): set<nat>
      reads this, buf
      requires Valid()
    {
      Chans(buf[..n], 1, n) + (set c | c in inbox)
    }

    constructor ()
      ensures Valid() && fresh(buf) && Channels() == {}
    {
      buf := new Case[1](_ => Case(0, None));
      n, inbox := 1, [];
    }

    /** Subscribe. */
    method Subscribe(c: nat)
      requires Valid() && c != 0 && c !in Channels()
      modifies this`inbox
      ensures Valid() && Channels() == old(Channels()) + {c}
    {
      assert c !in Chans(buf[..n], 0, n);
      inbox := inbox + [c];
    }

    /** remove, when no send is in progress. */
    method Remove(c: nat)
      requires Valid() && c in Channels()
      modifies this, buf
      ensures Valid() && buf == old(buf) && Channels() == old(Channels()) - {c}
    {
      var i := 0;
      while i < |inbox| && inbox[i] != c
        invariant 0 <= i <= |inbox| && c !in inbox[..i]
        modifies {}
      {
        i := i + 1;
      }
      if i < |inbox| {
        RemoveFromInbox(i);
        return;
      }
      assert inbox[..|inbox|] == inbox;
      var index := Find(buf, n, c);
      assert index > 0;
      ghost var s := buf[..n];
      Deleted(s, index, n);
      Delete(buf, n, index);
      n := n - 1;
      assert Chans(s, n + 1, n + 1) == {};
      InboxStays(s, index);
    }

    lemma {:induction false} InboxStays(s: seq<Case>, index: nat)
      requires index < |s| && n <= buf.Length && buf[..n] == Without(s, index)
      requires forall i {:trigger inbox[i]} :: 0 <= i < |inbox| ==> inbox[i] !in Chans(s, 0, |s|)
      ensures forall i {:trigger inbox[i]} :: 0 <= i < |inbox| ==> inbox[i] !in Chans(buf[..n], 0, n)
    {
      var t := buf[..n];
      assert forall k {:trigger t[k]} :: 0 <= k < |t| ==> t[k] == s[if k < index then k else k + 1];
      assert forall c :: c in Chans(t, 0, |t|) ==> c in Chans(s, 0, |s|);
    }

    method RemoveFromInbox(i: nat)
      requires Valid() && i < |inbox|
      modifies this`inbox
      ensures Valid() && Channels() == old(Channels()) - {old(inbox)[i]}
    {
      ghost var before := inbox;
      inbox := inbox[..i] + inbox[i + 1..];
      assert forall k {:trigger inbox[k]} :: 0 <= k < |inbox| ==> inbox[k] == before[if k < i then k else k + 1];
      forall c
        ensures c in inbox <==> c in before && c != before[i]
      {
        if c in before && c != before[i] {
          var k :| 0 <= k < |before| && before[k] == c;
          assert inbox[if k < i then k else k - 1] == c;
        }
      }
      assert forall c :: c in inbox ==> c !in Chans(buf[..n], 0, n);
    }

    /** The channels of the inbox join the cases, and every case is given the
        value. */
    method Prepare(value: int)
      requires Valid()
      modifies this
      ensures Valid() && fresh(buf) && inbox == [] && Channels() == old(Channels())
      ensures Sending(buf[..n], n, Channels(), value, [])
    {
      var all := new Case[n + |inbox|](_ => Case(0, None));
      for i := 0 to n
        modifies all
        invariant forall k {:trigger all[k]} :: 0 <= k < i ==>
          all[k] == if k == 0 then buf[0] else Case(buf[k].chan, Some(value))
      {
        all[i] := if i == 0 then buf[0] else Case(buf[i].chan, Some(value));
      }
      for i := 0 to |inbox|
        modifies all
        invariant forall k {:trigger all[k]} :: 0 <= k < n ==>
          all[k] == if k == 0 then buf[0] else Case(buf[k].chan, Some(value))
        invariant forall k {:trigger all[k]} :: n <= k < n + i ==> all[k] == Case(inbox[k - n], Some(value))
      {
        all[n + i] := Case(inbox[i], Some(value));
      }
      Joined(all[..], value);
      buf, n, inbox := all, n + |inbox|, [];
      assert buf[..n] == all[..];
      assert Chans(buf[..n], n, n) == {};
    }

    lemma {:induction false} Joined(all: seq<Case>, value: int)
      requires Valid() && |all| == n + |inbox|
      requires forall k {:trigger all[k]} :: 0 <= k < n ==>
        all[k] == if k == 0 then buf[0] else Case(buf[k].chan, Some(value))
      requires forall k {:trigger all[k]} :: n <= k < |all| ==> all[k] == Case(inbox[k - n], Some(value))
      ensures OneCaseEach(all) && Chans(all, 1, |all|) == Channels()
    {
      forall i, j | 0 <= i < j < |all|
        ensures all[i].chan != all[j].chan
      {
        if j < n {
          assert buf[..n][i].chan != buf[..n][j].chan;
        } else if i < n {
          assert inbox[j - n] !in Chans(buf[..n], 0, n);
          assert buf[..n][i].chan in Chans(buf[..n], 0, n);
        }
      }
      forall c
        ensures c in Chans(all, 1, |all|) <==> c in Channels()
      {
        if c in Chans(buf[..n], 1, n) {
          var k :| 1 <= k < n && buf[..n][k].chan == c;
          assert all[k].chan == c;
        }
        if c in inbox {
          var k :| 0 <= k < |inbox| && inbox[k] == c;
          assert all[n + k].chan == c;
        }
        if c in Chans(all, 1, |all|) {
          var k :| 1 <= k < |all| && all[k].chan == c;
          assert k < n ==> buf[..n][k].chan == c;
        }
      }
    }

    /** The fast path: each waiting channel is tried once without blocking. */
    method TrySendAll(m0: nat, ghost channels: set<nat>, value: int, ghost events0: seq<Event>)
      returns (m: nat, sent: nat, ghost events: seq<Event>)
      requires n <= buf.Length && Sending(buf[..n], m0, channels, value, events0)
      modifies buf
      ensures m <= m0 && Sending(buf[..n], m, channels, value, events)
      ensures SentCount(events) == SentCount(events0) + sent
    {
      m, sent, events := m0, 0, events0;
      var i := 1;
      while i < m
        invariant 1 <= i && m <= m0 && Sending(buf[..n], m, channels, value, events)
        invariant SentCount(events) == SentCount(events0) + sent
        decreases m - i
      {
        var accepted: bool := *;
        if accepted {
          ServeStep(buf[..n], i, m, channels, value, events);
          events := events + [Sent(buf[i].chan, value)];
          sent := sent + 1;
          Deactivate(buf, n, i, m);
          m := m - 1;
        } else {
          i := i + 1;
        }
      }
    }

    /** The slow path: either some waiting channel takes the value, or a
        subscribed channel is removed. */
    method Select(m0: nat, ghost channels: set<nat>, value: int, ghost events0: seq<Event>)
      returns (m: nat, sent: nat, ghost events: seq<Event>)
      requires n <= buf.Length && 1 < m0 && Sending(buf[..n], m0, channels, value, events0)
      modifies this`n, buf
      ensures n <= buf.Length && n + m < old(n) + m0 && Sending(buf[..n], m, channels, value, events)
      ensures SentCount(events) == SentCount(events0) + sent
    {
      ghost var s := buf[..n];
      var chosen: nat :| chosen < m0;
      if chosen == 0 {
        var subscribed: nat :| 1 <= subscribed < n;
        var recv := buf[subscribed].chan;
        assert s[subscribed].chan in Chans(s, 0, n);
        var index := Find(buf, n, recv);
        assert index > 0;
        RemoveStep(s, index, m0, channels, value, events0);
        events, sent := events0 + [Gone(recv)], 0;
        Delete(buf, n, index);
        n := n - 1;
        m := if index < m0 then m0 - 1 else m0;
      } else {
        ServeStep(s, chosen, m0, channels, value, events0);
        var taken := buf[chosen].value;
        events, sent := events0 + [Sent(buf[chosen].chan, taken.value)], 1;
        Deactivate(buf, n, chosen, m0);
        m := m0 - 1;
      }
    }

    /** Send: the events are a run of the specification that ends with no
        channel waiting and the cases holding exactly the channels left. */
    method Send(value: int) returns (nsent: nat, ghost events: seq<Event>)
      requires Valid()
      modifies this, buf
      ensures Valid() && fresh(buf) && inbox == []
      ensures Replay(old(Channels()), value, events) == Some(State({}, Channels()))
      ensures nsent == SentCount(events)
      ensures forall k {:trigger buf[k]} :: 1 <= k < n ==> buf[k].value == None
    {
      Prepare(value);
      ghost var channels := Channels();
      var m, sent := n, 0;
      nsent, events := 0, [];
      while true
        invariant 1 <= n <= buf.Length && fresh(buf) && inbox == [] && Sending(buf[..n], m, channels, value, events)
        invariant nsent == SentCount(events)
        decreases n + m
      {
        m, sent, events := TrySendAll(m, channels, value, events);
        nsent := nsent + sent;
        if m == 1 {
          break;
        }
        m, sent, events := Select(m, channels, value, events);
        nsent := nsent + sent;
      }
      ghost var s := buf[..n];
      Forget();
      SameChans(s, buf[..n]);
      assert Chans(s, 1, 1) == {} && Channels() == Chans(s, 1, n);
    }

    /** The value is taken out of the cases again. */
    method Forget()
      requires 1 <= n <= buf.Length
      modifies buf
      ensures forall k {:trigger buf[k]} :: 0 <= k < n ==> buf[k].chan == old(buf[k].chan)
      ensures forall k {:trigger buf[k]} :: 1 <= k < n ==> buf[k].value == None
    {
      for i := 1 to n
        invariant forall k {:trigger buf[k]} :: 0 <= k < n ==> buf[k].chan == old(buf[k].chan)
        invariant forall k {:trigger buf[k]} :: 1 <= k < i ==> buf[k].value == None
      {
        buf[i] := Case(buf[i].chan, None);
      }
    }
  }
}
