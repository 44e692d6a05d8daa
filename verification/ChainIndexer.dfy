/** The chain indexer of core/chain_indexer.go.  A section is processed without
    the lock, so head and reorganisation notices may arrive between any two of
    its block reads. */
module ChainIndexer {
  import opened Options
  import opened ChainTree

  /** The number of the last block of a section. */
  function EndOf(size: nat, section: nat): int {
    section * size + size - 1
  }

  function ParentOf(b: Block): Option<Block> {
    if b.Genesis? then None else Some(b.parent)
  }

  ghost predicate HeadOk(heads: map<nat, Block>, size: nat, s: nat)
    requires s in heads
  {
    && Number(heads[s]) == EndOf(size, s)
    && (s > 0 ==> s - 1 in heads && Joined(heads[s - 1], heads[s], size))
  }

  /** `b` is reached from `a` by exactly `size` parent links. */
  ghost predicate Joined(a: Block, b: Block, size: nat) {
    Number(b) == Number(a) + size && At(b, Number(a)) == a
  }

  /** Section heads are stored for exactly the sections below the count, and
      consecutive ones are a section apart on one chain. */
  ghost predicate HeadsOk(heads: map<nat, Block>, size: nat, count: nat) {
    && (forall s: nat {:trigger s in heads} :: s in heads <==> s < count)
    && (forall s: nat {:trigger heads[s]} :: s in heads ==> HeadOk(heads, size, s))
  }

  /** Any two stored heads are on one chain, a whole number of sections apart. */
  lemma {:induction false} HeadsAreLinked(heads: map<nat, Block>, size: nat, count: nat, i: nat, j: nat)
    requires HeadsOk(heads, size, count) && i <= j < count
    ensures AncestorOf(heads[i], heads[j]) && Number(heads[j]) - Number(heads[i]) == (j - i) * size
    decreases j
  {
    assert heads[j] == heads[j] && HeadOk(heads, size, j) && HeadOk(heads, size, i);
    if i < j {
      var k := j - 1;
      HeadsAreLinked(heads, size, count, i, k);
      AtAt(heads[j], Number(heads[k]), Number(heads[i]));
      assert (j - i) * size == (k - i) * size + size;
    }
  }

  /** The blocks read so far continue the previous section's head. */
  ghost predicate Continues(oldHead: Option<Block>, first: nat, number: nat, last: Option<Block>) {
    if number == first then last == oldHead
    else
      && last.Some? && Number(last.value) + 1 == number
      && (oldHead.Some? ==> Number(oldHead.value) + 1 == first && AncestorOf(oldHead.value, last.value))
  }

  /** The block found for number `n` has that number and continues the one
      before. */
  ghost predicate FoundAt(blockAt: nat -> Option<Block>, oldHead: Option<Block>, first: nat, n: nat) {
    && blockAt(n).Some? && Number(blockAt(n).value) == n
    && ParentOf(blockAt(n).value) == if n <= first then oldHead else blockAt(n - 1)
  }

  /** The blocks found for a section are one chain on top of the last section. */
  ghost predicate Found(blockAt: nat -> Option<Block>, oldHead: Option<Block>, first: nat, size: nat) {
    forall n: nat {:trigger FoundAt(blockAt, oldHead, first, n)} :: first <= n < first + size ==>
      FoundAt(blockAt, oldHead, first, n)
  }

  /** What is found for the last number of a section. */
  function LastOf(blockAt: nat -> Option<Block>, size: nat, section: nat): Option<Block> {
    if size == 0 then None else blockAt(section * size + (size - 1))
  }

  /** The reads of a section that are made, the first failing one included. */
  ghost function ReadsFrom(blockAt: nat -> Option<Block>, oldHead: Option<Block>, first: nat, size: nat,
                           k: nat): (n: nat)
    requires k <= size
    ensures n <= size
    decreases size - k
  {
    if k == size then size
    else if FoundAt(blockAt, oldHead, first, first + k) then ReadsFrom(blockAt, oldHead, first, size, k + 1)
    else k + 1
  }

  lemma {:induction false} AllRead(blockAt: nat -> Option<Block>, oldHead: Option<Block>, first: nat, size: nat, k: nat)
    requires Found(blockAt, oldHead, first, size) && k <= size
    ensures ReadsFrom(blockAt, oldHead, first, size, k) == size
    decreases size - k
  {
    if k < size {
      assert FoundAt(blockAt, oldHead, first, first + k);
      AllRead(blockAt, oldHead, first, size, k + 1);
    }
  }

  // -------------------------------------------- notices during a section

  /** A notice of newHead. */
  datatype Note = Note(head: nat, reorg: bool)

  /** What notices change: the sections stored and known, and the head that was
      passed on to child indexers. */
  datatype Counts = Counts(stored: nat, known: nat, cascaded: int)

  /** The counts after one notice. */
  function Heard(c: Counts, note: Note, size: nat, confirm: nat): Counts
    requires size > 0
  {
    if note.reorg then
      var changed := note.head / size;
      Counts(MinOf(c.stored, changed), MinOf(c.known, changed),
             if changed * size < c.cascaded then changed * size else c.cascaded)
    else if note.head >= confirm && c.known < (note.head + 1 - confirm) / size then
      c.(known := (note.head + 1 - confirm) / size)
    else c
  }

  /** A head notice confirms the first `k` sections. */
  predicate Ripe(note: Note, size: nat, confirm: nat, k: nat) {
    !note.reorg && k * size + confirm <= note.head + 1
  }

  /** A head notice makes known exactly the sections whose last block has its
      confirmations, and a reorganisation notice keeps exactly the sections that
      end before its block. */
  lemma {:induction false} HeardIs(c: Counts, note: Note, size: nat, confirm: nat, k: nat)
    requires size > 0 && k > 0
    ensures !note.reorg ==> (k <= Heard(c, note, size, confirm).known <==> k <= c.known || Ripe(note, size, confirm, k))
    ensures note.reorg ==> (k <= Heard(c, note, size, confirm).known <==> k <= c.known && k * size <= note.head)
    ensures k <= Heard(c, note, size, confirm).stored <==> k <= c.stored && (note.reorg ==> k * size <= note.head)
    ensures Heard(c, note, size, confirm).cascaded <= c.cascaded
  {
    DivIs(note.head, size, k);
    if note.head >= confirm {
      DivIs(note.head + 1 - confirm, size, k);
    } else {
      assert k * size >= size by {
        Times(k, size);
      }
    }
  }

  lemma {:induction false} HeardRipe(c: Counts, note: Note, size: nat, confirm: nat)
    requires size > 0 && !note.reorg
    ensures forall k: nat {:trigger Ripe(note, size, confirm, k)} :: k > 0 ==>
      (k <= Heard(c, note, size, confirm).known <==> k <= c.known || Ripe(note, size, confirm, k))
  {
    forall k: nat | k > 0
      ensures k <= Heard(c, note, size, confirm).known <==> k <= c.known || Ripe(note, size, confirm, k)
    {
      HeardIs(c, note, size, confirm, k);
    }
  }

  lemma {:induction false} Times(k: nat, size: nat)
    requires k > 0
    ensures k * size >= size
  {
    var j := k - 1;
    assert k * size == j * size + size;
  }

  lemma {:induction false} DivIs(x: nat, size: nat, k: nat)
    requires size > 0
    ensures k <= x / size <==> k * size <= x
  {
    var q, r := x / size, x % size;
    assert x == q * size + r && 0 <= r < size;
    if k <= q {
      assert (q - k) * size >= 0;
      assert q * size == k * size + (q - k) * size;
    } else {
      Times(k - q, size);
      assert k * size == q * size + (k - q) * size;
    }
  }

  /** The counts after some notices. */
  function AfterNotes(c: Counts, notes: seq<Note>, size: nat, confirm: nat): (r: Counts)
    requires size > 0
    ensures r.stored <= c.stored
  {
    if notes == [] then c
    else Heard(AfterNotes(c, notes[..|notes| - 1], size, confirm), notes[|notes| - 1], size, confirm)
  }

  /** The same after the first `k` of the occasions on which the lock is free. */
  function AfterNews(c: Counts, news: nat -> seq<Note>, size: nat, confirm: nat, k: nat): (r: Counts)
    requires size > 0
    ensures r.stored <= c.stored
  {
    if k == 0 then c else AfterNotes(AfterNews(c, news, size, confirm, k - 1), news(k - 1), size, confirm)
  }

  ghost predicate Spares(notes: seq<Note>, size: nat, section: nat) {
    forall i :: 0 <= i < |notes| && notes[i].reorg ==> section * size <= notes[i].head
  }

  /** No notice that comes while a section is processed reverts one before it. */
  ghost predicate Undisturbed(news: nat -> seq<Note>, size: nat, section: nat) {
    forall k: nat :: k < size + 2 ==> Spares(news(k), size, section)
  }

  lemma {:induction false} NotesKeepIff(c: Counts, notes: seq<Note>, size: nat, confirm: nat, section: nat)
    requires size > 0
    ensures section <= AfterNotes(c, notes, size, confirm).stored <==>
      section <= c.stored && Spares(notes, size, section)
    decreases |notes|
  {
    if section > 0 && notes != [] {
      var init, last := notes[..|notes| - 1], notes[|notes| - 1];
      NotesKeepIff(c, init, size, confirm, section);
      HeardIs(AfterNotes(c, init, size, confirm), last, size, confirm, section);
      assert Spares(notes, size, section) <==>
        Spares(init, size, section) && (last.reorg ==> section * size <= last.head);
    }
  }

  lemma {:induction false} NewsKeepIff(c: Counts, news: nat -> seq<Note>, size: nat, confirm: nat, k: nat)
    requires size > 0
    ensures AfterNews(c, news, size, confirm, k).stored == c.stored <==>
      forall j: nat :: j < k ==> Spares(news(j), size, c.stored)
    decreases k
  {
    if k > 0 {
      NewsKeepIff(c, news, size, confirm, k - 1);
      NotesKeepIff(AfterNews(c, news, size, confirm, k - 1), news(k - 1), size, confirm, c.stored);
    }
  }

  /** The counts when the worker takes the lock again: a failing reset drops
      everything, and a failing read is the last. */
  ghost function Left(c: Counts, news: nat -> seq<Note>, size: nat, confirm: nat, resetOk: bool, made: nat): Counts
    requires size > 0
  {
    var before := if resetOk then AfterNews(c, news, size, confirm, 1 + made)
                  else AfterNews(c, news, size, confirm, 1).(stored := 0);
    AfterNotes(before, news(size + 1), size, confirm)
  }

  // ---------------------------------------------------------- confirmations

  /** Some head notice has confirmed the first `k` sections. */
  ghost predicate Confirmed(heard: iset<Note>, size: nat, confirm: nat, k: nat) {
    k == 0 || exists note {:trigger Ripe(note, size, confirm, k)} :: note in heard && Ripe(note, size, confirm, k)
  }

  lemma {:induction false} FewerConfirmed(heard: iset<Note>, size: nat, confirm: nat, k: nat, j: nat)
    requires Confirmed(heard, size, confirm, k) && j <= k
    ensures Confirmed(heard, size, confirm, j)
  {
    if 0 < j {
      var note :| note in heard && Ripe(note, size, confirm, k);
      assert k * size == j * size + (k - j) * size && (k - j) * size >= 0;
      assert Ripe(note, size, confirm, j);
    }
  }

  /** Everything stored and everything known has been confirmed. */
  ghost predicate AllConfirmed(c: Counts, heard: iset<Note>, size: nat, confirm: nat) {
    Confirmed(heard, size, confirm, c.stored) && Confirmed(heard, size, confirm, c.known)
  }

  lemma {:induction false} HeardConfirms(c: Counts, note: Note, heard: iset<Note>, size: nat, confirm: nat)
    requires size > 0 && AllConfirmed(c, heard, size, confirm) && note in heard
    ensures AllConfirmed(Heard(c, note, size, confirm), heard, size, confirm)
  {
    var r := Heard(c, note, size, confirm);
    FewerConfirmed(heard, size, confirm, c.stored, r.stored);
    if r.known > c.known {
      HeardIs(c, note, size, confirm, r.known);
    } else {
      FewerConfirmed(heard, size, confirm, c.known, r.known);
    }
  }

  lemma {:induction false} NotesConfirm(c: Counts, notes: seq<Note>, heard: iset<Note>, size: nat, confirm: nat)
    requires size > 0 && AllConfirmed(c, heard, size, confirm) && forall note :: note in notes ==> note in heard
    ensures AllConfirmed(AfterNotes(c, notes, size, confirm), heard, size, confirm)
    decreases |notes|
  {
    if notes != [] {
      NotesConfirm(c, notes[..|notes| - 1], heard, size, confirm);
      HeardConfirms(AfterNotes(c, notes[..|notes| - 1], size, confirm), notes[|notes| - 1], heard, size, confirm);
    }
  }

  ghost predicate AllHeard(news: nat -> seq<Note>, heard: iset<Note>, size: nat) {
    forall k: nat {:trigger news(k)} :: k < size + 2 ==> forall note :: note in news(k) ==> note in heard
  }

  lemma {:induction false} NewsConfirm(c: Counts, news: nat -> seq<Note>, heard: iset<Note>, size: nat, confirm: nat,
                                       k: nat)
    requires size > 0 && AllConfirmed(c, heard, size, confirm) && AllHeard(news, heard, size) && k <= size + 2
    ensures AllConfirmed(AfterNews(c, news, size, confirm, k), heard, size, confirm)
    decreases k
  {
    if k > 0 {
      NewsConfirm(c, news, heard, size, confirm, k - 1);
      NotesConfirm(AfterNews(c, news, size, confirm, k - 1), news(k - 1), heard, size, confirm);
    }
  }

  lemma {:induction false} LeftConfirmed(c: Counts, news: nat -> seq<Note>, heard: iset<Note>, size: nat, confirm: nat,
                                         resetOk: bool, made: nat)
    requires size > 0 && AllConfirmed(c, heard, size, confirm) && AllHeard(news, heard, size) && made <= size
    ensures AllConfirmed(Left(c, news, size, confirm, resetOk, made), heard, size, confirm)
  {
    var k := if resetOk then 1 + made else 1;
    NewsConfirm(c, news, heard, size, confirm, k);
    var before := AfterNews(c, news, size, confirm, k);
    NotesConfirm(if resetOk then before else before.(stored := 0), news(size + 1), heard, size, confirm);
  }

  // ------------------------------------------------------ reading a section

  lemma {:induction false} ReadOne(oldHead: Option<Block>, first: nat, number: nat, last: Option<Block>, b: Block)
    requires Continues(oldHead, first, number, last) && first <= number
    requires oldHead.Some? ==> Number(oldHead.value) + 1 == first
    requires Number(b) == number && ParentOf(b) == last
    ensures Continues(oldHead, first, number + 1, Some(b))
  {
    if oldHead.Some? {
      assert At(b, Number(oldHead.value)) == At(b.parent, Number(oldHead.value));
    }
  }

  /** The first `k` reads of a section went well. */
  ghost predicate ReadSoFar(blockAt: nat -> Option<Block>, oldHead: Option<Block>, first: nat, size: nat, k: nat,
                            last: Option<Block>)
  {
    && k <= size
    && (oldHead.Some? ==> Number(oldHead.value) + 1 == first)
    && Continues(oldHead, first, first + k, last)
    && last == (if k == 0 then oldHead else blockAt(first + k - 1))
    && Found(blockAt, oldHead, first, k)
    && ReadsFrom(blockAt, oldHead, first, size, 0) == ReadsFrom(blockAt, oldHead, first, size, k)
  }

  /** The `k`-th read of a section failed. */
  ghost predicate ReadStopped(blockAt: nat -> Option<Block>, oldHead: Option<Block>, first: nat, size: nat, k: nat) {
    && 0 < k <= size && !FoundAt(blockAt, oldHead, first, first + k - 1)
    && ReadsFrom(blockAt, oldHead, first, size, 0) == k
  }

  lemma {:induction false} ReadNext(blockAt: nat -> Option<Block>, oldHead: Option<Block>, first: nat, size: nat,
                                    k: nat, last: Option<Block>)
    requires ReadSoFar(blockAt, oldHead, first, size, k, last) && k < size
    ensures var read := blockAt(first + k);
      if read.Some? && Number(read.value) == first + k && ParentOf(read.value) == last
      then ReadSoFar(blockAt, oldHead, first, size, k + 1, read)
      else ReadStopped(blockAt, oldHead, first, size, k + 1)
  {
    var read := blockAt(first + k);
    if FoundAt(blockAt, oldHead, first, first + k) {
      ReadOne(oldHead, first, first + k, last, read.value);
      forall n: nat | first <= n < first + (k + 1)
        ensures FoundAt(blockAt, oldHead, first, n)
      {
        assert n < first + k ==> FoundAt(blockAt, oldHead, first, n);
      }
    }
  }

  lemma {:induction false} ReadEnd(blockAt: nat -> Option<Block>, oldHead: Option<Block>, first: nat, size: nat,
                                   k: nat, last: Option<Block>)
    requires ReadStopped(blockAt, oldHead, first, size, k) ||
             (ReadSoFar(blockAt, oldHead, first, size, k, last) && k == size)
    ensures ReadsFrom(blockAt, oldHead, first, size, 0) == k
    ensures Found(blockAt, oldHead, first, size) <==> !ReadStopped(blockAt, oldHead, first, size, k)
  {
    if ReadStopped(blockAt, oldHead, first, size, k) {
      var n: nat := first + k - 1;
      assert !FoundAt(blockAt, oldHead, first, n) && first <= n < first + size;
    }
  }

  lemma {:induction false} SectionStarts(size: nat, s: nat)
    requires s > 0
    ensures EndOf(size, s - 1) + 1 == s * size && EndOf(size, s) == EndOf(size, s - 1) + size
  {
    var p := s - 1;
    assert s * size == p * size + size;
  }

  lemma {:induction false} CommitKeeps(heads: map<nat, Block>, size: nat, s: nat, oldHead: Option<Block>,
                                       newHead: Block)
    requires HeadsOk(heads, size, s) && size > 0
    requires oldHead == if s == 0 then None else Some(heads[s - 1])
    requires Continues(oldHead, s * size, s * size + size, Some(newHead))
    ensures HeadsOk(heads[s := newHead], size, s + 1)
  {
    var h := heads[s := newHead];
    if s > 0 {
      SectionStarts(size, s);
      assert HeadOk(heads, size, s - 1);
    }
    forall t: nat | t in h
      ensures HeadOk(h, size, t)
    {
      if t < s {
        assert t in heads && HeadOk(heads, size, t);
      }
    }
  }

  /** What can happen to an indexer: a notice, or a round of updateLoop. */
  datatype Action = Notice(note: Note)
                  | Round(resetOk: bool, commitOk: bool, blockAt: nat -> Option<Block>, news: nat -> seq<Note>)

  ghost predicate HeardAt(a: Action, size: nat, note: Note) {
    match a
    case Notice(n) => n == note
    case Round(_, _, _, news) => exists k: nat {:trigger news(k)} :: k < size + 2 && note in news(k)
  }

  ghost predicate HeardBy(actions: seq<Action>, size: nat, note: Note) {
    exists i :: 0 <= i < |actions| && HeardAt(actions[i], size, note)
  }

  /** The notices of a run. */
  ghost function HeardIn(actions: seq<Action>, size: nat): iset<Note> {
    iset note: Note | HeardBy(actions, size, note)
  }

  lemma {:induction false} HeardAction(actions: seq<Action>, size: nat, i: nat)
    requires i < |actions|
    ensures match actions[i]
            case Notice(note) => note in HeardIn(actions, size)
            case Round(_, _, _, news) => AllHeard(news, HeardIn(actions, size), size)
  {
    var a := actions[i];
    if a.Notice? {
      assert HeardBy(actions, size, a.note);
    } else {
      forall k: nat | k < size + 2
        ensures forall note :: note in a.news(k) ==> note in HeardIn(actions, size)
      {
        forall note | note in a.news(k)
          ensures note in HeardIn(actions, size)
        {
          assert HeardAt(actions[i], size, note) && HeardBy(actions, size, note);
        }
      }
    }
  }

  /** The counts and the stored heads. */
  datatype State = State(counts: Counts, heads: map<nat, Block>)

  ghost function HeadOf(s: State): Option<Block> {
    if s.counts.stored > 0 && s.counts.stored - 1 in s.heads then Some(s.heads[s.counts.stored - 1]) else None
  }

  /** A round commits its section. */
  ghost predicate Commits(s: State, a: Action, size: nat)
    requires a.Round? && size > 0
  {
    && s.counts.known > s.counts.stored && a.resetOk && a.commitOk
    && Found(a.blockAt, HeadOf(s), s.counts.stored * size, size) && Undisturbed(a.news, size, s.counts.stored)
    && LastOf(a.blockAt, size, s.counts.stored).Some?
  }

  /** The state after an action: heads of sections that are no longer stored go, and
      a committed section adds its own. */
  ghost function Acted(s: State, a: Action, size: nat, confirm: nat): State
    requires size > 0
  {
    match a
    case Notice(note) =>
      var counts := Heard(s.counts, note, size, confirm);
      State(counts, HeadsUpTo(s.heads, counts.stored))
    case Round(resetOk, _, blockAt, news) =>
      if s.counts.known <= s.counts.stored then s
      else
        var n := s.counts.stored;
        var left := Left(s.counts, news, size, confirm, resetOk, ReadsFrom(blockAt, HeadOf(s), n * size, size, 0));
        if Commits(s, a, size)
        then State(Counts(n + 1, left.known, EndOf(size, n)), s.heads[n := LastOf(blockAt, size, n).value])
        else State(left.(known := left.stored), HeadsUpTo(s.heads, left.stored))
  }

  ghost function StateOf(actions: seq<Action>, size: nat, confirm: nat): State
    requires size > 0
  {
    if actions == [] then State(Counts(0, 0, 0), map[])
    else Acted(StateOf(actions[..|actions| - 1], size, confirm), actions[|actions| - 1], size, confirm)
  }

  function HeadsUpTo(heads: map<nat, Block>, n: nat): map<nat, Block> {
    map s | s in heads && s < n :: heads[s]
  }

  lemma {:induction false} HeadsBelow(before: map<nat, Block>, heads: map<nat, Block>, size: nat, n: nat)
    requires KeptHeads(before, heads) && HeadsOk(heads, size, n)
    ensures heads == HeadsUpTo(before, n)
  {
    forall s: nat
      ensures s in heads <==> s in before && s < n
      ensures s in heads ==> heads[s] == before[s]
    {
      assert s in heads <==> s < n;
    }
  }

  /** No stored head has changed, and none is new. */
  ghost predicate KeptHeads(before: map<nat, Block>, heads: map<nat, Block>) {
    forall s: nat {:trigger heads[s]} {:trigger s in heads} :: s in heads ==> s in before && heads[s] == before[s]
  }

  class ChainIndexer {
    const sectionSize: nat
    const confirmsReq: nat
    var storedSections: nat
    var knownSections: nat
    var cascadedHead: int
    var count: nat
    var heads: map<nat, Block>

    ghost predicate Valid()
      reads this
    {
      sectionSize > 0 && storedSections == count && HeadsOk(heads, sectionSize, storedSections)
    }

    constructor (section: nat, confirm: nat)
      requires section > 0
      ensures Valid() && Now() == Counts(0, 0, 0) && sectionSize == section && confirmsReq == confirm
    {
      sectionSize, confirmsReq := section, confirm;
      storedSections, knownSections, cascadedHead, count, heads := 0, 0, 0, 0, map[];
    }

    function Now(): Counts
      reads this
    {
      Counts(storedSections, knownSections, cascadedHead)
    }

    /** SectionHead. */
    function SectionHead(s: nat): Option<Block>
      reads this
    {
      if s in heads then Some(heads[s]) else None
    }

    /** setValidSections: the count is written and the heads of reverted
        sections are removed. */
    method SetValidSections(sections: nat)
      requires forall s: nat {:trigger s in heads} :: s in heads <==> s < storedSections || s < sections
      modifies this`storedSections, this`count, this`heads
      ensures storedSections == count == sections
      ensures forall s: nat {:trigger s in heads} :: s in heads <==> s < sections
      ensures KeptHeads(old(heads), heads)
    {
      count := sections;
      while storedSections > sections
        invariant count == sections
        invariant forall s: nat {:trigger s in heads} :: s in heads <==> s < storedSections || s < sections
        invariant KeptHeads(old(heads), heads)
        decreases storedSections
      {
        storedSections := storedSections - 1;
        heads := heads - {storedSections};
      }
      storedSections := sections;
    }

    /** Sections are reverted to an earlier count. */
    method Revert(sections: nat)
      requires Valid() && sections <= storedSections
      modifies this`storedSections, this`count, this`heads
      ensures Valid() && storedSections == sections
      ensures KeptHeads(old(heads), heads)
    {
      SetValidSections(sections);
      forall s: nat | s in heads
        ensures HeadOk(heads, sectionSize, s)
      {
        assert s in old(heads) && HeadOk(old(heads), sectionSize, s);
      }
    }

    /** newHead. */
    method NewHead(head: nat, reorg: bool)
      requires Valid()
      modifies this
      ensures Valid() && Now() == Heard(old(Now()), Note(head, reorg), sectionSize, confirmsReq)
      ensures reorg ==> storedSections == MinOf(old(storedSections), head / sectionSize)
      ensures reorg ==> knownSections == MinOf(old(knownSections), head / sectionSize)
      ensures !reorg ==> storedSections == old(storedSections) && cascadedHead == old(cascadedHead)
      ensures !reorg ==> forall k: nat {:trigger Ripe(Note(head, false), sectionSize, confirmsReq, k)} :: k > 0 ==>
        (k <= knownSections <==> k <= old(knownSections) || Ripe(Note(head, false), sectionSize, confirmsReq, k))
      ensures KeptHeads(old(heads), heads)
    {
      if reorg {
        var changed := head / sectionSize;
        if changed < knownSections {
          knownSections := changed;
        }
        if changed < storedSections {
          Revert(changed);
        }
        var end := changed * sectionSize;
        if end < cascadedHead {
          cascadedHead := end;
        }
        return;
      }
      if head >= confirmsReq {
        var sections := (head + 1 - confirmsReq) / sectionSize;
        if sections > knownSections {
          knownSections := sections;
        }
      }
      HeardRipe(old(Now()), Note(head, false), sectionSize, confirmsReq);
    }

    /** A section is being processed: its predecessor's head is the one the
        worker started from, unless it was reverted. */
    ghost predicate Working(section: nat, oldHead: Option<Block>)
      reads this
    {
      && Valid() && storedSections <= section
      && (section == 0 ==> oldHead == None)
      && (section > 0 ==> oldHead.Some? && Number(oldHead.value) == EndOf(sectionSize, section - 1))
      && (section > 0 && storedSections == section ==> heads[section - 1] == oldHead.value)
    }

    /** Notices that come while the lock is free. */
    method Notices(notes: seq<Note>, ghost section: nat, ghost oldHead: Option<Block>)
      requires Working(section, oldHead)
      modifies this
      ensures Working(section, oldHead)
      ensures Now() == AfterNotes(old(Now()), notes, sectionSize, confirmsReq) && KeptHeads(old(heads), heads)
    {
      for i := 0 to |notes|
        invariant Working(section, oldHead)
        invariant Now() == AfterNotes(old(Now()), notes[..i], sectionSize, confirmsReq) && KeptHeads(old(heads), heads)
      {
        ghost var before := heads;
        NewHead(notes[i].head, notes[i].reorg);
        assert section > 0 && storedSections == section ==>
          section - 1 in heads && heads[section - 1] == before[section - 1];
        assert notes[..i + 1][..i] == notes[..i];
      }
      assert notes[..|notes|] == notes;
    }

    /** processSection.  The chain may change between reads; `blockAt` is what is
        found for each number when it is read.  Notices come before the reset
        (`news(0)`), before each read, and before the worker takes the lock again
        (`news(sectionSize + 1)`).  When the backend's reset fails, all sections
        are dropped. */
    method ProcessSection(section: nat, oldHead: Option<Block>, resetOk: bool, commitOk: bool,
                          blockAt: nat -> Option<Block>, news: nat -> seq<Note>)
      returns (r: Option<Block>)
      requires Working(section, oldHead)
      modifies this
      ensures Working(section, oldHead) && KeptHeads(old(heads), heads)
      ensures r.Some? <==> resetOk && commitOk && Found(blockAt, oldHead, section * sectionSize, sectionSize)
      ensures r.Some? ==> r == LastOf(blockAt, sectionSize, section)
      ensures r.Some? ==> Continues(oldHead, section * sectionSize, section * sectionSize + sectionSize, r)
      ensures var made := ReadsFrom(blockAt, oldHead, section * sectionSize, sectionSize, 0);
        Now() == Left(old(Now()), news, sectionSize, confirmsReq, resetOk, made)
    {
      Notices(news(0), section, oldHead);
      ghost var start := old(Now());
      assert AfterNews(start, news, sectionSize, confirmsReq, 0) == start;
      assert Now() == AfterNews(start, news, sectionSize, confirmsReq, 1);
      if !resetOk {
        Revert(0);
        Notices(news(sectionSize + 1), section, oldHead);
        return None;
      }
      if section > 0 {
        SectionStarts(sectionSize, section);
      }
      var all, last := ReadBlocks(section, section * sectionSize, oldHead, blockAt, news, old(Now()));
      Notices(news(sectionSize + 1), section, oldHead);
      r := if all && commitOk then last else None;
    }

    /** The loop of processSection over the blocks from `first` on: `all` says that
        no read failed. */
    method ReadBlocks(ghost section: nat, first: nat, oldHead: Option<Block>, blockAt: nat -> Option<Block>,
                      news: nat -> seq<Note>, ghost start: Counts)
      returns (all: bool, last: Option<Block>)
      requires Working(section, oldHead) && Now() == AfterNews(start, news, sectionSize, confirmsReq, 1)
      requires oldHead.Some? ==> Number(oldHead.value) + 1 == first
      modifies this
      ensures Working(section, oldHead) && KeptHeads(old(heads), heads)
      ensures all <==> Found(blockAt, oldHead, first, sectionSize)
      ensures all ==> last.Some? && last == blockAt(first + sectionSize - 1)
      ensures all ==> Continues(oldHead, first, first + sectionSize, last)
      ensures Now() == AfterNews(start, news, sectionSize, confirmsReq,
                                 1 + ReadsFrom(blockAt, oldHead, first, sectionSize, 0))
    {
      var k := 0;
      last := oldHead;
      all := true;
      while k < sectionSize && all
        invariant Working(section, oldHead) && k <= sectionSize && KeptHeads(old(heads), heads)
        invariant all ==> ReadSoFar(blockAt, oldHead, first, sectionSize, k, last)
        invariant !all ==> ReadStopped(blockAt, oldHead, first, sectionSize, k)
        invariant Now() == AfterNews(start, news, sectionSize, confirmsReq, 1 + k)
        decreases sectionSize - k
      {
        Notices(news(1 + k), section, oldHead);
        var read := blockAt(first + k);
        all := read.Some? && Number(read.value) == first + k && ParentOf(read.value) == last;
        ReadNext(blockAt, oldHead, first, sectionSize, k, last);
        last := if all then read else last;
        k := k + 1;
      }
      ReadEnd(blockAt, oldHead, first, sectionSize, k, last);
    }

    /** One round of updateLoop: a section is processed and marked complete exactly
        if every backend call and read went well and no notice reverted a section
        before it meanwhile. */
    method Update(resetOk: bool, commitOk: bool, blockAt: nat -> Option<Block>, news: nat -> seq<Note>)
      returns (committed: bool)
      requires Valid()
      modifies this
      ensures Valid()
      ensures committed <==>
        && old(knownSections) > old(storedSections) && resetOk && commitOk
        && Found(blockAt, old(LastHead()), old(storedSections) * sectionSize, sectionSize)
        && Undisturbed(news, sectionSize, old(storedSections))
      ensures committed ==>
        var made := ReadsFrom(blockAt, old(LastHead()), old(storedSections) * sectionSize, sectionSize, 0);
        && storedSections == old(storedSections) + 1 && cascadedHead == EndOf(sectionSize, old(storedSections))
        && knownSections == Left(old(Now()), news, sectionSize, confirmsReq, resetOk, made).known
        && LastOf(blockAt, sectionSize, old(storedSections)).Some?
        && heads == old(heads)[old(storedSections) := LastOf(blockAt, sectionSize, old(storedSections)).value]
      ensures old(knownSections) <= old(storedSections) ==> Now() == old(Now()) && heads == old(heads)
      ensures old(knownSections) > old(storedSections) && !committed ==>
        var made := ReadsFrom(blockAt, old(LastHead()), old(storedSections) * sectionSize, sectionSize, 0);
        var left := Left(old(Now()), news, sectionSize, confirmsReq, resetOk, made);
        Now() == left.(known := left.stored)
      ensures !committed ==> KeptHeads(old(heads), heads)
    {
      committed := false;
      if knownSections > storedSections {
        var section, oldHead := storedSections, LastHead();
        var newHead := ProcessSection(section, oldHead, resetOk, commitOk, blockAt, news);
        SeenAll(blockAt, oldHead, news, old(Now()));
        ghost var before := heads;
        committed := Complete(section, oldHead, newHead);
        if committed {
          SameHeads(old(heads), before, sectionSize, section);
        }
      }
    }

    static lemma {:induction false} SameHeads(before: map<nat, Block>, heads: map<nat, Block>, size: nat, count: nat)
      requires HeadsOk(before, size, count) && HeadsOk(heads, size, count) && KeptHeads(before, heads)
      ensures heads == before
    {
    }

    /** The end of a round, under the lock again. */
    method Complete(section: nat, oldHead: Option<Block>, newHead: Option<Block>) returns (committed: bool)
      requires Working(section, oldHead)
      requires newHead.Some? ==>
        Continues(oldHead, section * sectionSize, section * sectionSize + sectionSize, newHead)
      modifies this
      ensures Valid()
      ensures committed <==> newHead.Some? && old(storedSections) == section
      ensures committed ==>
        && Now() == Counts(section + 1, old(knownSections), EndOf(sectionSize, section))
        && heads == old(heads)[section := newHead.value]
      ensures !committed ==> Now() == old(Now()).(known := old(storedSections)) && heads == old(heads)
    {
      var same := StillOn(section, oldHead);
      committed := newHead.Some? && same;
      if committed {
        Commit(section, oldHead, newHead.value);
        SectionStarts(sectionSize, section + 1);
        cascadedHead := storedSections * sectionSize - 1;
      } else {
        knownSections := storedSections;
      }
    }

    /** If all reads go well, nothing is lost exactly if no notice reverts a section
        before the one in work. */
    lemma {:induction false} SeenAll(blockAt: nat -> Option<Block>, oldHead: Option<Block>, news: nat -> seq<Note>,
                                     c: Counts)
      requires sectionSize > 0
      ensures Found(blockAt, oldHead, c.stored * sectionSize, sectionSize) ==>
        var made := ReadsFrom(blockAt, oldHead, c.stored * sectionSize, sectionSize, 0);
        Left(c, news, sectionSize, confirmsReq, true, made).stored == c.stored <==>
        Undisturbed(news, sectionSize, c.stored)
    {
      if Found(blockAt, oldHead, c.stored * sectionSize, sectionSize) {
        AllRead(blockAt, oldHead, c.stored * sectionSize, sectionSize, 0);
        NewsKeepIff(c, news, sectionSize, confirmsReq, sectionSize + 2);
      }
    }

    /** The head of the last stored section. */
    function LastHead(): Option<Block>
      reads this
    {
      if storedSections == 0 then None else SectionHead(storedSections - 1)
    }

    /** Whether the section before is still the one the worker built on. */
    method StillOn(section: nat, oldHead: Option<Block>) returns (same: bool)
      requires Working(section, oldHead)
      ensures same <==> storedSections == section
      ensures same ==> oldHead == (if section == 0 then None else SectionHead(section - 1))
    {
      same := oldHead == if section == 0 then None else SectionHead(section - 1);
    }

    method Commit(section: nat, oldHead: Option<Block>, newHead: Block)
      requires Valid() && storedSections <= section
      requires oldHead == if section == 0 then None else SectionHead(section - 1)
      requires section > 0 ==> oldHead.Some?
      requires Continues(oldHead, section * sectionSize, section * sectionSize + sectionSize, Some(newHead))
      modifies this`storedSections, this`count, this`heads
      ensures Valid() && storedSections == section + 1 && heads == old(heads)[section := newHead]
    {
      assert section > 0 ==> section - 1 in heads;
      assert storedSections == section;
      CommitKeeps(heads, sectionSize, section, oldHead, newHead);
      heads := heads[section := newHead];
      ghost var committed := heads;
      SetValidSections(section + 1);
      assert heads == committed;
    }

    /** Every run of updates and notices, interleaved in any way, keeps the stored
        heads exact and linked, and no section is stored or known before a head
        notice has confirmed its last block. */
    static method Run(section: nat, confirm: nat, actions: seq<Action>) returns (c: ChainIndexer)
      requires section > 0
      ensures fresh(c) && c.Valid() && c.sectionSize == section && c.confirmsReq == confirm
      ensures State(c.Now(), c.heads) == StateOf(actions, section, confirm)
      ensures AllConfirmed(c.Now(), HeardIn(actions, section), section, confirm)
    {
      c := new ChainIndexer(section, confirm);
      ghost var heard := HeardIn(actions, section);
      for i := 0 to |actions|
        invariant fresh(c) && c.Valid() && c.sectionSize == section && c.confirmsReq == confirm
        invariant AllConfirmed(c.Now(), heard, section, confirm)
        invariant State(c.Now(), c.heads) == StateOf(actions[..i], section, confirm)
      {
        HeardAction(actions, section, i);
        assert actions[..i + 1][..i] == actions[..i];
        c.Act(actions[i], heard);
      }
      assert actions[..|actions|] == actions;
    }

    method Act(a: Action, ghost heard: iset<Note>)
      requires Valid() && AllConfirmed(Now(), heard, sectionSize, confirmsReq)
      requires a.Notice? ==> a.note in heard
      requires a.Round? ==> AllHeard(a.news, heard, sectionSize)
      modifies this
      ensures Valid() && AllConfirmed(Now(), heard, sectionSize, confirmsReq)
      ensures State(Now(), heads) == Acted(old(State(Now(), heads)), a, sectionSize, confirmsReq)
    {
      match a {
        case Notice(note) =>
          HeardConfirms(Now(), note, heard, sectionSize, confirmsReq);
          NewHead(note.head, note.reorg);
          HeadsBelow(old(heads), heads, sectionSize, storedSections);
        case Round(resetOk, commitOk, blockAt, news) =>
          ghost var made := ReadsFrom(blockAt, LastHead(), storedSections * sectionSize, sectionSize, 0);
          LeftConfirmed(Now(), news, heard, sectionSize, confirmsReq, resetOk, made);
          if knownSections > storedSections {
            FewerConfirmed(heard, sectionSize, confirmsReq, knownSections, storedSections + 1);
          }
          var committed := Update(resetOk, commitOk, blockAt, news);
          if !committed {
            HeadsBelow(old(heads), heads, sectionSize, storedSections);
          }
      }
    }
  }
}
