/** When the backend's reset fails, processSection of core/chain_indexer.go drops
    all sections without holding the lock.  Here that call of setValidSections
    runs statement by statement, loop tests included, against the ones that any
    number of reorganisation notices make under the lock. */
module IndexerRace {
  import opened Numbers

  datatype Thread = Worker | Notice

  /** The next statement of a call: write the count to the database, test the
      loop condition, lower the field, delete the head the field then names, set
      the field. */
  datatype Phase = Writing | Testing | Lowering | Deleting | Setting | Finished

  /** The shared state and how far each call is.  The worker's call reverts to no
      section, the notice's to `target`. */
  datatype Race = Race(stored: nat, count: nat, heads: set<nat>, target: nat, worker: Phase, notice: Phase)

  function Target(r: Race, t: Thread): nat { if t.Worker? then 0 else r.target }

  function PhaseOf(r: Race, t: Thread): Phase { if t.Worker? then r.worker else r.notice }

  function To(r: Race, t: Thread, p: Phase): Race {
    if t.Worker? then r.(worker := p) else r.(notice := p)
  }

  /** The field is an unsigned 64-bit number. */
  function Decrement(n: nat): nat { if n == 0 then UINT64_LIMIT - 1 else n - 1 }

  function Step(r: Race, t: Thread): Race {
    match PhaseOf(r, t)
    case Writing => To(r.(count := Target(r, t)), t, Testing)
    case Testing => To(r, t, if r.stored > Target(r, t) then Lowering else Setting)
    case Lowering => To(r.(stored := Decrement(r.stored)), t, Deleting)
    case Deleting => To(r.(heads := r.heads - {r.stored}), t, Testing)
    case Setting => To(r.(stored := Target(r, t)), t, Finished)
    case Finished => r
  }

  function Run(r: Race, schedule: seq<Thread>): Race {
    if schedule == [] then r else Step(Run(r, schedule[..|schedule| - 1]), schedule[|schedule| - 1])
  }

  function Below(n: nat): (r: set<nat>)
    ensures forall s: nat {:trigger s in r} :: s in r <==> s < n
  {
    if n == 0 then {} else Below(n - 1) + {n - 1}
  }

  /** A notice is about to revert `stored` sections to `target` while the worker's
      reset has failed. */
  function Start(stored: nat, target: nat): Race {
    Race(stored, stored, Below(stored), target, Writing, Writing)
  }

  predicate Over(r: Race) { r.worker.Finished? && r.notice.Finished? }

  /** The count in the database is the field, and heads are stored for exactly
      the sections below it. */
  ghost predicate Consistent(r: Race) {
    r.stored == r.count && forall s: nat {:trigger s in r.heads} :: s in r.heads <==> s < r.stored
  }

  // ------------------------------------------------ where the calls have been

  /** The notice has written the count and the worker has not. */
  predicate NoticeWroteFirst(r: Race) { r.notice != Writing && r.worker == Writing }

  /** The notice is finished and the worker is not. */
  predicate NoticeEndedFirst(r: Race) { r.notice.Finished? && !r.worker.Finished? }

  /** Both calls have lowered the field and not yet deleted a head. */
  predicate BothDeleting(r: Race) { r.worker.Deleting? && r.notice.Deleting? }

  /** Some state of the run meets the test. */
  predicate Ever(r: Race, schedule: seq<Thread>, test: Race -> bool) {
    test(Run(r, schedule)) || (schedule != [] && Ever(r, schedule[..|schedule| - 1], test))
  }

  // ----------------------------------------------------- every schedule

  /** The head of section 0: whoever lowered the field to zero will delete it, and
      the worker is done only after that. */
  ghost predicate ZeroInv(r: Race) {
    0 in r.heads ==>
      && (r.stored == 0 ==> r.worker.Deleting? || r.notice.Deleting?)
      && (r.worker.Setting? || r.worker.Finished? ==> r.notice.Deleting? && r.stored == 0)
      && (r.target == 0 && r.notice.Setting? ==> r.worker.Deleting? && r.stored == 0)
  }

  lemma {:induction false} ZeroStep(r: Race, t: Thread)
    requires ZeroInv(r)
    ensures ZeroInv(Step(r, t)) && Step(r, t).target == r.target
  {
  }

  lemma {:induction false} ZeroRun(stored: nat, target: nat, schedule: seq<Thread>)
    requires target < stored
    ensures ZeroInv(Run(Start(stored, target), schedule)) && Run(Start(stored, target), schedule).target == target
    decreases |schedule|
  {
    if schedule != [] {
      ZeroRun(stored, target, schedule[..|schedule| - 1]);
      ZeroStep(Run(Start(stored, target), schedule[..|schedule| - 1]), schedule[|schedule| - 1]);
    }
  }

  /** What the last writers leave behind. */
  ghost predicate WriterInv(r: Race, wroteFirst: bool, endedFirst: bool) {
    && (r.worker.Writing? && r.notice.Writing? ==> !wroteFirst)
    && (!r.worker.Writing? && r.notice.Writing? ==> !wroteFirst && r.count == 0)
    && (r.worker.Writing? && !r.notice.Writing? ==> wroteFirst)
    && (!r.worker.Writing? && !r.notice.Writing? ==> r.count == if wroteFirst then 0 else r.target)
    && (!r.notice.Finished? ==> !endedFirst)
    && (NoticeEndedFirst(r) ==> endedFirst)
    && (Over(r) ==> r.stored == if endedFirst then 0 else r.target)
  }

  lemma {:induction false} WriterStep(r: Race, t: Thread, wroteFirst: bool, endedFirst: bool)
    requires WriterInv(r, wroteFirst, endedFirst)
    ensures var q := Step(r, t);
      WriterInv(q, wroteFirst || NoticeWroteFirst(q), endedFirst || NoticeEndedFirst(q))
  {
  }

  lemma {:induction false} WriterRun(stored: nat, target: nat, schedule: seq<Thread>)
    ensures var r := Start(stored, target);
      WriterInv(Run(r, schedule), Ever(r, schedule, NoticeWroteFirst), Ever(r, schedule, NoticeEndedFirst))
    decreases |schedule|
  {
    if schedule != [] {
      var r, init, t := Start(stored, target), schedule[..|schedule| - 1], schedule[|schedule| - 1];
      WriterRun(stored, target, init);
      WriterStep(Run(r, init), t, Ever(r, init, NoticeWroteFirst), Ever(r, init, NoticeEndedFirst));
    }
  }

  /** The worker wrote the count and the field after the notice, or it makes no
      difference. */
  predicate WorkerLast(stored: nat, target: nat, schedule: seq<Thread>) {
    var r := Start(stored, target);
    target == 0 || (Ever(r, schedule, NoticeWroteFirst) && Ever(r, schedule, NoticeEndedFirst))
  }

  /** Whatever the schedule, only the worker's result can be consistent: the head
      of section 0 is always deleted. */
  lemma {:induction false} ConsistentNeedsWorkerLast(stored: nat, target: nat, schedule: seq<Thread>)
    requires target < stored
    requires Over(Run(Start(stored, target), schedule)) && Consistent(Run(Start(stored, target), schedule))
    ensures WorkerLast(stored, target, schedule)
  {
    ZeroRun(stored, target, schedule);
    WriterRun(stored, target, schedule);
    assert 0 !in Run(Start(stored, target), schedule).heads;
  }

  // ----------------------------------- calls that are never both deleting

  ghost predicate AllBelow(heads: set<nat>, n: nat) {
    forall s {:trigger s in heads} :: s in heads ==> s < n
  }

  ghost predicate ApartInv(r: Race) {
    && AllBelow(r.heads, if r.worker.Deleting? || r.notice.Deleting? then r.stored + 1 else r.stored)
    && (r.worker.Setting? || r.worker.Finished? ==>
         AllBelow(r.heads, 0) || (AllBelow(r.heads, 1) && r.notice.Deleting? && r.stored == 0))
    && (r.notice.Setting? ==>
         || AllBelow(r.heads, r.target)
         || (AllBelow(r.heads, r.target + 1) && r.worker.Deleting? && r.stored == r.target))
  }

  lemma {:induction false} ApartStep(r: Race, t: Thread)
    requires ApartInv(r) && !BothDeleting(r) && !BothDeleting(Step(r, t))
    ensures ApartInv(Step(r, t))
  {
  }

  lemma {:induction false} ApartRun(stored: nat, target: nat, schedule: seq<Thread>)
    requires !Ever(Start(stored, target), schedule, BothDeleting)
    ensures ApartInv(Run(Start(stored, target), schedule))
    decreases |schedule|
  {
    if schedule != [] {
      ApartRun(stored, target, schedule[..|schedule| - 1]);
      ApartStep(Run(Start(stored, target), schedule[..|schedule| - 1]), schedule[|schedule| - 1]);
    }
  }

  /** If the calls are never both between lowering and deleting, the outcome is
      consistent if and only if the worker wrote last. */
  lemma {:induction false} ConsistentIfApart(stored: nat, target: nat, schedule: seq<Thread>)
    requires target < stored
    requires Over(Run(Start(stored, target), schedule)) && !Ever(Start(stored, target), schedule, BothDeleting)
    ensures Consistent(Run(Start(stored, target), schedule)) <==> WorkerLast(stored, target, schedule)
  {
    ApartRun(stored, target, schedule);
    ZeroRun(stored, target, schedule);
    WriterRun(stored, target, schedule);
    var r := Run(Start(stored, target), schedule);
    assert r.heads == {};
    if Consistent(r) {
      ConsistentNeedsWorkerLast(stored, target, schedule);
    }
  }

  // ---------------------------------------------------- harmful schedules

  lemma {:induction false} RunConcat(r: Race, a: seq<Thread>, b: seq<Thread>)
    ensures Run(r, a + b) == Run(Run(r, a), b)
    decreases |b|
  {
    if b == [] {
      assert a + b == a;
    } else {
      assert (a + b)[..|a + b| - 1] == a + b[..|b| - 1];
      RunConcat(r, a, b[..|b| - 1]);
    }
  }

  function Repeat(t: Thread, n: nat): seq<Thread> { seq(n, _ => t) }

  /** One turn: `t` steps first, then the rest of the schedule. */
  lemma {:induction false} RunFirst(r: Race, t: Thread, rest: seq<Thread>)
    ensures Run(r, [t] + rest) == Run(Step(r, t), rest)
  {
    RunConcat(r, [t], rest);
    assert [t][..0] == [];
  }

  /** A call that drops all sections, alone from its loop test, empties everything
      below the field. */
  lemma {:induction false} Alone(r: Race, t: Thread)
    requires PhaseOf(r, t).Testing? && Target(r, t) == 0
    ensures Run(r, Repeat(t, 3 * r.stored + 2)) == To(r.(stored := 0, heads := r.heads - Below(r.stored)), t, Finished)
    decreases r.stored
  {
    if r.stored == 0 {
      assert Repeat(t, 2) == [t] + ([t] + []);
      RunFirst(r, t, [t] + []);
      RunFirst(Step(r, t), t, []);
      assert r.heads - Below(0) == r.heads;
    } else {
      var q := Step(Step(Step(r, t), t), t);
      var rest := Repeat(t, 3 * q.stored + 2);
      assert Repeat(t, 3 * r.stored + 2) == [t] + ([t] + ([t] + rest));
      RunFirst(r, t, [t] + ([t] + rest));
      RunFirst(Step(r, t), t, [t] + rest);
      RunFirst(Step(Step(r, t), t), t, rest);
      Alone(q, t);
      assert r.heads - {q.stored} - Below(q.stored) == r.heads - Below(r.stored);
    }
  }

  /** The same from its first statement. */
  lemma {:induction false} Whole(r: Race, t: Thread) returns (s: seq<Thread>)
    requires PhaseOf(r, t).Writing? && Target(r, t) == 0
    ensures Run(r, s) == To(r.(stored := 0, count := 0, heads := r.heads - Below(r.stored)), t, Finished)
  {
    var alone := Repeat(t, 3 * r.stored + 2);
    s := [t] + alone;
    RunFirst(r, t, alone);
    Alone(Step(r, t), t);
  }

  /** The worker runs between two statements of the notice: the notice's field
      and the worker's count stay. */
  lemma {:induction false} TornSchedule(r: Race) returns (s: seq<Thread>)
    requires r.worker.Writing? && r.notice.Writing? && 0 < r.target < r.stored
    ensures Run(r, s) == r.(stored := r.target, count := 0, heads := r.heads - Below(r.stored),
                            worker := Finished, notice := Finished)
  {
    var before, alone, after := [Notice, Worker], Repeat(Worker, 3 * r.stored + 2), [Notice, Notice];
    s := RunThree(r, before, alone, after);
    TwoSteps(r, Notice, Worker);
    var q := Step(Step(r, Notice), Worker);
    Alone(q, Worker);
    var p := q.(stored := 0, heads := q.heads - Below(q.stored), worker := Finished);
    TwoSteps(p, Notice, Notice);
  }

  lemma {:induction false} RunThree(r: Race, a: seq<Thread>, b: seq<Thread>, c: seq<Thread>) returns (s: seq<Thread>)
    ensures Run(r, s) == Run(Run(Run(r, a), b), c)
  {
    s := (a + b) + c;
    RunConcat(r, a + b, c);
    RunConcat(r, a, b);
  }

  lemma {:induction false} TwoSteps(r: Race, a: Thread, b: Thread)
    ensures Run(r, [a, b]) == Step(Step(r, a), b)
  {
    assert [a, b] == [a] + ([b] + []);
    RunFirst(r, a, [b] + []);
    RunFirst(Step(r, a), b, []);
  }

  /** Both calls lower the field before either deletes a head: the head of the
      last section is never deleted. */
  lemma {:induction false} StaleHeadSchedule(stored: nat) returns (s: seq<Thread>)
    requires stored >= 2
    ensures Over(Run(Start(stored, 0), s))
    ensures stored - 1 in Run(Start(stored, 0), s).heads && Run(Start(stored, 0), s).stored == 0
  {
    var r := Start(stored, 0);
    var q := BothLower(r);
    var alone := Repeat(Worker, 3 * q.stored + 2);
    s := (CROSSING + alone) + [Notice, Notice];
    RunConcat(r, CROSSING + alone, [Notice, Notice]);
    RunConcat(r, CROSSING, alone);
    Alone(q, Worker);
    TwoSteps(Run(r, CROSSING + alone), Notice, Notice);
  }

  const CROSSING: seq<Thread> := ([Worker, Notice] + [Worker, Worker]) + ([Notice, Notice] + [Worker, Notice])

  lemma {:induction false} BothLower(r: Race) returns (q: Race)
    requires r.worker.Writing? && r.notice.Writing? && r.target == 0 && r.stored >= 2
    ensures q == Run(r, CROSSING)
    ensures q == r.(stored := r.stored - 2, count := 0, heads := r.heads - {r.stored - 2}, worker := Testing,
      notice := Testing)
  {
    var r1 := Step(Step(r, Worker), Notice);
    var r2 := Step(Step(r1, Worker), Worker);
    var r3 := Step(Step(r2, Notice), Notice);
    q := Step(Step(r3, Worker), Notice);
    RunConcat(r, [Worker, Notice] + [Worker, Worker], [Notice, Notice] + [Worker, Notice]);
    RunConcat(r, [Worker, Notice], [Worker, Worker]);
    RunConcat(r2, [Notice, Notice], [Worker, Notice]);
    TwoSteps(r, Worker, Notice);
    TwoSteps(r1, Worker, Worker);
    TwoSteps(r2, Notice, Notice);
    TwoSteps(r3, Worker, Notice);
  }

  /** Both calls deleting at once need not do harm: here the notice's field makes
      the worker come back for the head it missed. */
  lemma {:induction false} CrossedYetConsistent() returns (s: seq<Thread>)
    ensures Ever(Start(2, 1), s, BothDeleting) && Over(Run(Start(2, 1), s)) && Consistent(Run(Start(2, 1), s))
  {
    var r := Start(2, 1);
    var start := [Notice, Worker] + [Notice, Notice] + [Worker, Worker];
    var q := Crossed(r);
    var rest := [Notice, Notice] + [Notice, Worker] + Repeat(Worker, 5);
    Uncrossed(q);
    s := start + rest;
    RunConcat(r, start, rest);
    EverExtends(r, start, rest);
  }

  lemma {:induction false} Crossed(r: Race) returns (q: Race)
    requires r.worker.Writing? && r.notice.Writing? && r.target == 1 && r.stored == 2
    ensures q == Run(r, [Notice, Worker] + [Notice, Notice] + [Worker, Worker])
    ensures q == r.(stored := 0, count := 0, worker := Deleting, notice := Deleting)
  {
    var r1 := Step(Step(r, Notice), Worker);
    var r2 := Step(Step(r1, Notice), Notice);
    q := Step(Step(r2, Worker), Worker);
    RunConcat(r, [Notice, Worker] + [Notice, Notice], [Worker, Worker]);
    RunConcat(r, [Notice, Worker], [Notice, Notice]);
    TwoSteps(r, Notice, Worker);
    TwoSteps(r1, Notice, Notice);
    TwoSteps(r2, Worker, Worker);
  }

  lemma {:induction false} Uncrossed(r: Race)
    requires BothDeleting(r) && r.target == 1 && r.stored == r.count == 0 && AllBelow(r.heads, 2)
    ensures var s := [Notice, Notice] + [Notice, Worker] + Repeat(Worker, 5);
      Over(Run(r, s)) && Consistent(Run(r, s))
  {
    var r1 := Step(Step(r, Notice), Notice);
    var r2 := Step(Step(r1, Notice), Worker);
    RunConcat(r, [Notice, Notice], [Notice, Worker]);
    TwoSteps(r, Notice, Notice);
    TwoSteps(r1, Notice, Worker);
    assert r2.worker.Testing? && r2.stored == 1;
    Alone(r2, Worker);
    RunConcat(r, [Notice, Notice] + [Notice, Worker], Repeat(Worker, 5));
  }

  lemma {:induction false} EverExtends(r: Race, a: seq<Thread>, b: seq<Thread>)
    requires Ever(r, a, BothDeleting)
    ensures Ever(r, a + b, BothDeleting)
    decreases |b|
  {
    if b == [] {
      assert a + b == a;
    } else {
      assert (a + b)[..|a + b| - 1] == a + b[..|b| - 1];
      EverExtends(r, a, b[..|b| - 1]);
    }
  }

  // ------------------------------------------------- one notice, run to its end

  /** Every outcome of the worker's call and one notice that has passed its guard
      is consistent. */
  ghost predicate HarmlessOnce(stored: nat, target: nat) {
    forall s {:trigger Run(Start(stored, target), s)} ::
      Over(Run(Start(stored, target), s)) ==> Consistent(Run(Start(stored, target), s))
  }

  lemma {:induction false} OneSection(s: seq<Thread>)
    requires Over(Run(Start(1, 0), s))
    ensures Consistent(Run(Start(1, 0), s))
  {
    ZeroRun(1, 0, s);
    WriterRun(1, 0, s);
    HeadsShrink(Start(1, 0), s);
    assert Run(Start(1, 0), s).heads <= Below(1);
  }

  lemma {:induction false} HeadsShrink(r: Race, s: seq<Thread>)
    ensures Run(r, s).heads <= r.heads
    decreases |s|
  {
    if s != [] {
      HeadsShrink(r, s[..|s| - 1]);
    }
  }

  /** With one notice only, and judged only when both calls have finished, a single
      stored section comes to no harm.  What this leaves out does harm: until then
      the field may have wrapped (`Wraps`), and a second notice may read it
      (`SecondNotice`). */
  lemma {:induction false} HarmlessOnceIff(stored: nat, target: nat)
    requires target < stored
    ensures HarmlessOnce(stored, target) <==> stored == 1
  {
    if stored == 1 {
      forall s | Over(Run(Start(stored, target), s))
        ensures Consistent(Run(Start(stored, target), s))
      {
        OneSection(s);
      }
    } else if target > 0 {
      var s := TornSchedule(Start(stored, target));
      assert !Consistent(Run(Start(stored, target), s));
    } else {
      var s := StaleHeadSchedule(stored);
      assert !Consistent(Run(Start(stored, target), s));
    }
  }

  /** Whatever the notice reverts to, some schedule lowers the field below zero:
      the worker finishes between the notice's loop test and its decrement. */
  lemma {:induction false} Wraps(stored: nat, target: nat) returns (s: seq<Thread>)
    requires target < stored
    ensures Run(Start(stored, target), s).stored == UINT64_LIMIT - 1
    ensures Run(Start(stored, target), s).count == 0 && Run(Start(stored, target), s).heads == {}
  {
    var r := Start(stored, target);
    TwoSteps(r, Notice, Notice);
    var q := Step(Step(r, Notice), Notice);
    var whole := Whole(q, Worker);
    s := RunThree(r, [Notice, Notice], whole, [Notice]);
    var p := Run(q, whole);
    RunFirst(p, Notice, []);
    assert [Notice] + [] == [Notice];
    assert p.heads == {};
  }

  // ------------------------------------------------- any number of notices

  /** One of the two calls takes its next statement, or a reorganisation notice
      for section `changed` comes. */
  datatype Event = Turn(thread: Thread) | Arrive(changed: nat)

  /** newHead: a notice waits for the lock, so it begins only after the one before
      has finished, and calls setValidSections only if the field is then above
      its section. */
  function Begin(r: Race, changed: nat): Race {
    if r.notice.Finished? && changed < r.stored then r.(target := changed, notice := Writing) else r
  }

  function Occur(r: Race, e: Event): Race {
    match e
    case Turn(t) => Step(r, t)
    case Arrive(changed) => Begin(r, changed)
  }

  function Play(r: Race, events: seq<Event>): Race {
    if events == [] then r else Occur(Play(r, events[..|events| - 1]), events[|events| - 1])
  }

  /** The worker's reset has failed with `stored` sections, and the lock is free. */
  function Quiet(stored: nat): Race {
    Race(stored, stored, Below(stored), 0, Writing, Finished)
  }

  lemma {:induction false} PlayConcat(r: Race, a: seq<Event>, b: seq<Event>)
    ensures Play(r, a + b) == Play(Play(r, a), b)
    decreases |b|
  {
    if b == [] {
      assert a + b == a;
    } else {
      assert (a + b)[..|a + b| - 1] == a + b[..|b| - 1];
      PlayConcat(r, a, b[..|b| - 1]);
    }
  }

  function Turns(schedule: seq<Thread>): (events: seq<Event>)
    ensures |events| == |schedule|
  {
    seq(|schedule|, i requires 0 <= i < |schedule| => Turn(schedule[i]))
  }

  lemma {:induction false} PlayTurns(r: Race, schedule: seq<Thread>)
    ensures Play(r, Turns(schedule)) == Run(r, schedule)
    decreases |schedule|
  {
    if schedule != [] {
      var init := schedule[..|schedule| - 1];
      PlayTurns(r, init);
      assert Turns(schedule)[..|schedule| - 1] == Turns(init);
    }
  }

  /** A notice comes, and the two calls then follow the schedule. */
  lemma {:induction false} NoticeThen(r: Race, changed: nat, schedule: seq<Thread>)
    ensures Play(r, [Arrive(changed)] + Turns(schedule)) == Run(Begin(r, changed), schedule)
  {
    PlayConcat(r, [Arrive(changed)], Turns(schedule));
    assert [Arrive(changed)][..0] == [];
    PlayTurns(Begin(r, changed), schedule);
  }

  // --------------------------------------------------- what no schedule saves

  lemma {:induction false} ZeroPlay(stored: nat, events: seq<Event>)
    ensures ZeroInv(Play(Quiet(stored), events))
    decreases |events|
  {
    if events != [] {
      var init, e := events[..|events| - 1], events[|events| - 1];
      ZeroPlay(stored, init);
      if e.Turn? {
        ZeroStep(Play(Quiet(stored), init), e.thread);
      }
    }
  }

  /** However many notices come, the head of section 0 is gone when the calls have
      finished, so the outcome is consistent if and only if nothing is left. */
  lemma {:induction false} ConsistentIffEmpty(stored: nat, events: seq<Event>)
    requires Over(Play(Quiet(stored), events))
    ensures var r := Play(Quiet(stored), events);
      Consistent(r) <==> r.stored == 0 && r.count == 0 && r.heads == {}
  {
    ZeroPlay(stored, events);
    var r := Play(Quiet(stored), events);
    if Consistent(r) {
      assert 0 !in r.heads && r.stored == 0;
      assert forall s: nat {:trigger s in r.heads} :: s !in r.heads;
    }
  }

  // ----------------------------------------------- what the lock would give

  predicate Midway(p: Phase) { p.Testing? || p.Lowering? || p.Deleting? || p.Setting? }

  /** Both calls are under way.  The notice's is from its guard on. */
  predicate Overlap(r: Race) { Midway(r.worker) && !r.notice.Finished? }

  predicate EverOverlaps(r: Race, events: seq<Event>) {
    Overlap(Play(r, events)) || (events != [] && EverOverlaps(r, events[..|events| - 1]))
  }

  /** A call that reverts to `target` has got as far as `p`, and nothing else
      happens. */
  ghost predicate CallOk(r: Race, p: Phase, target: nat) {
    && (p.Testing? || p.Setting? ==> r.heads == Below(r.stored))
    && (p.Lowering? ==> r.heads == Below(r.stored) && target < r.stored)
    && (p.Deleting? ==> r.heads == Below(r.stored + 1))
    && (Midway(p) ==> r.count == target <= r.stored)
    && (p.Setting? ==> r.stored == target)
  }

  ghost predicate SerialInv(r: Race) {
    && CallOk(r, r.worker, 0) && CallOk(r, r.notice, r.target)
    && (!Midway(r.worker) && !Midway(r.notice) ==> r.count == r.stored && r.heads == Below(r.stored))
    && (r.notice.Writing? ==> r.target < r.stored)
    && (r.worker.Finished? ==> r.stored == 0 && r.notice.Finished?)
  }

  lemma {:induction false} BelowNext(r: Race)
    ensures r.stored > 0 ==> Below(r.stored) == Below(Decrement(r.stored) + 1)
    ensures Below(r.stored + 1) - {r.stored} == Below(r.stored)
  {
  }

  lemma {:induction false} SerialStep(r: Race, t: Thread)
    requires SerialInv(r) && !Overlap(r) && !Overlap(Step(r, t))
    ensures SerialInv(Step(r, t)) && Step(r, t).stored <= r.stored
  {
    BelowNext(r);
  }

  lemma {:induction false} SerialPlay(stored: nat, events: seq<Event>)
    requires !EverOverlaps(Quiet(stored), events)
    ensures SerialInv(Play(Quiet(stored), events)) && Play(Quiet(stored), events).stored <= stored
    decreases |events|
  {
    if events != [] {
      var init, e := events[..|events| - 1], events[|events| - 1];
      SerialPlay(stored, init);
      if e.Turn? {
        SerialStep(Play(Quiet(stored), init), e.thread);
      }
    }
  }

  /** If the worker's call overlaps none of the notices', as it would under the
      lock, every finished run is consistent and the field never grows. */
  lemma {:induction false} ConsistentIfSerial(stored: nat, events: seq<Event>)
    requires !EverOverlaps(Quiet(stored), events)
    ensures Play(Quiet(stored), events).stored <= stored
    ensures Over(Play(Quiet(stored), events)) ==> Consistent(Play(Quiet(stored), events))
  {
    SerialPlay(stored, events);
  }

  // --------------------------------------------------- the wrapped field is read

  /** A notice drops everything between the worker's loop test and its decrement,
      and releases the lock. */
  lemma {:induction false} DropsUnder(stored: nat) returns (events: seq<Event>)
    requires stored > 0
    ensures Play(Quiet(stored), events) == Race(0, 0, {}, 0, Lowering, Finished)
  {
    var r := Quiet(stored);
    var begin := [Worker, Worker];
    PlayTurns(r, begin);
    TwoSteps(r, Worker, Worker);
    var q := Step(Step(r, Worker), Worker);
    var whole := Whole(Begin(q, 0), Notice);
    NoticeThen(q, 0, whole);
    events := Turns(begin) + ([Arrive(0)] + Turns(whole));
    PlayConcat(r, Turns(begin), [Arrive(0)] + Turns(whole));
    assert Below(stored) - Below(stored) == {};
  }

  /** The worker then lowers the field below zero: whoever takes the lock next
      reads 2^64 - 1 sections. */
  lemma {:induction false} WrapsUnlocked(stored: nat) returns (events: seq<Event>)
    requires stored > 0
    ensures events != [] && Play(Quiet(stored), events[..|events| - 1]).stored == 0
    ensures Play(Quiet(stored), events) == Race(UINT64_LIMIT - 1, 0, {}, 0, Deleting, Finished)
  {
    var drop := DropsUnder(stored);
    events := drop + [Turn(Worker)];
    assert events[..|events| - 1] == drop;
  }

  /** A second notice then passes its guard for any section at all.  When the worker
      has counted the field down, both calls end, with sections in the field and
      the database none of which has a head. */
  lemma {:induction false} SecondNotice(stored: nat, target: nat) returns (events: seq<Event>)
    requires stored > 0 && target < UINT64_LIMIT - 1
    ensures Play(Quiet(stored), events) == Race(target, target, {}, target, Finished, Finished)
  {
    var wrap := WrapsUnlocked(stored);
    var r := Play(Quiet(stored), wrap);
    var rest := FinishWithin(Begin(r, target));
    NoticeThen(r, target, rest);
    events := wrap + ([Arrive(target)] + Turns(rest));
    PlayConcat(Quiet(stored), wrap, [Arrive(target)] + Turns(rest));
  }

  /** The worker finishes between the notice's first two statements. */
  lemma {:induction false} FinishWithin(r: Race) returns (s: seq<Thread>)
    requires r.worker.Deleting? && r.notice.Writing? && r.heads == {}
    ensures Run(r, s) == Race(r.target, r.target, {}, r.target, Finished, Finished)
  {
    var before, alone, after := [Notice, Worker], Repeat(Worker, 3 * r.stored + 2), [Notice, Notice];
    s := RunThree(r, before, alone, after);
    TwoSteps(r, Notice, Worker);
    var q := Step(Step(r, Notice), Worker);
    Alone(q, Worker);
    TwoSteps(Run(q, alone), Notice, Notice);
  }

  // -------------------------------------------------------- the condition

  /** Every finished run is consistent, however many notices come. */
  ghost predicate Harmless(stored: nat) {
    forall events {:trigger Play(Quiet(stored), events)} ::
      Over(Play(Quiet(stored), events)) ==> Consistent(Play(Quiet(stored), events))
  }

  /** No event raises the field. */
  ghost predicate OnlyFalls(stored: nat) {
    forall events {:trigger Play(Quiet(stored), events)} :: events != [] ==>
      Play(Quiet(stored), events).stored <= Play(Quiet(stored), events[..|events| - 1]).stored
  }

  lemma {:induction false} NothingStored(events: seq<Event>)
    ensures var r := Play(Quiet(0), events);
      r.stored == 0 && r.count == 0 && r.heads == {} && r.notice.Finished? && !r.worker.Lowering? && !r.worker.Deleting?
    decreases |events|
  {
    if events != [] {
      NothingStored(events[..|events| - 1]);
    }
  }

  /** A failing reset without the lock is harmless, in every schedule and with any
      number of notices, if and only if nothing is stored; and exactly then the
      field only falls. */
  lemma {:induction false} HarmlessIff(stored: nat)
    ensures Harmless(stored) <==> stored == 0
    ensures OnlyFalls(stored) <==> stored == 0
  {
    if stored == 0 {
      forall events
        ensures Play(Quiet(stored), events).stored == 0 && Consistent(Play(Quiet(stored), events))
      {
        NothingStored(events);
      }
    } else {
      var wrap := WrapsUnlocked(stored);
      var harm := SecondNotice(stored, 1);
      assert Play(Quiet(stored), wrap).stored > Play(Quiet(stored), wrap[..|wrap| - 1]).stored;
      assert !Consistent(Play(Quiet(stored), harm)) by {
        assert 0 !in Play(Quiet(stored), harm).heads;
      }
    }
  }
}
