/** What the older program, which edits the queue without the file lock, does to the order of the lanes. */
module LeaseMixed {
  import opened Common
  import opened QueueFile
  import opened Lease
  import opened LeaseHolder
  import opened LeaseOrder

  // ---- What keeps the order ----

  /** What a writer must have read so that its write leaves a before b. */
  predicate ReadInOrder(seen: seq<Lane>, p: Lane, join: bool, a: Lane, b: Lane) {
    if p == a then join && (Before(seen, a, b) || (a !in seen && b !in seen))
    else if p == b && !join then a in seen
    else Before(seen, a, b)
  }

  /** A write of the queue, under the file lock or by an older program, that is a's own leave or comes from a reading
      without a before b. */
  predicate Overwrites(s: State, step: Step, a: Lane, b: Lane)
    requires Enabled(s, step)
  {
    var p := step.lane;
    match s.pcs[p]
    case Editing(join, seen, _) => !ReadInOrder(seen, p, join, a, b)
    case OldWrite(seen) => !ReadInOrder(seen, p, false, a, b)
    case _ => false
  }

  /** Among mixed programs a step leaves a queued before b exactly when it is no such write. */
  lemma OrderIsKept(s: State, step: Step, a: Lane, b: Lane)
    requires Enabled(s, step) && a != b && Before(s.queue, a, b)
    ensures Before(After(s, step).queue, a, b) <==> !Overwrites(s, step, a, b)
  {
    var p := step.lane;
    match s.pcs[p]
    case Editing(join, seen, _) =>
      BeforeAppended(seen, a, b, p);
      BeforeRemoved(seen, a, b, p);
      if a in seen && b !in seen {
        QueuedIsBefore(seen, a, b);
      }
      if Before(seen, a, b) {
        BeforeIsQueued(seen, a, b);
      }
    case OldWrite(seen) => BeforeRemoved(seen, a, b, p);
    case OldAppend(_) => BeforeAppended(s.queue, a, b, p);
    case _ =>
  }

  predicate EverOverwrites(s: State, steps: seq<Step>, a: Lane, b: Lane)
    requires Possible(s, steps)
    decreases |steps|
  {
    steps != [] && (Overwrites(s, steps[0], a, b) || EverOverwrites(After(s, steps[0]), steps[1..], a, b))
  }

  /** a is queued before b in every state of the run. */
  predicate AlwaysBefore(s: State, steps: seq<Step>, a: Lane, b: Lane)
    requires Possible(s, steps)
    decreases |steps|
  {
    Before(s.queue, a, b) && (steps == [] || AlwaysBefore(After(s, steps[0]), steps[1..], a, b))
  }

  /** Over runs of mixed programs, whatever the readers see: the order of two lanes stays exactly as long as the first
      does not leave and nobody writes the queue from a reading without the order. */
  lemma {:induction false} OrderIsKeptExactly(s: State, steps: seq<Step>, a: Lane, b: Lane)
    requires Possible(s, steps) && a != b && Before(s.queue, a, b)
    ensures AlwaysBefore(s, steps, a, b) <==> !EverOverwrites(s, steps, a, b)
    decreases |steps|
  {
    if steps != [] {
      OrderIsKept(s, steps[0], a, b);
      if !Overwrites(s, steps[0], a, b) {
        OrderIsKeptExactly(After(s, steps[0]), steps[1..], a, b);
      } else {
        NotBeforeAtOnce(After(s, steps[0]), steps[1..], a, b);
      }
    }
  }

  lemma NotBeforeAtOnce(s: State, steps: seq<Step>, a: Lane, b: Lane)
    requires Possible(s, steps) && !Before(s.queue, a, b)
    ensures !AlwaysBefore(s, steps, a, b)
  {
  }

  // ---- Who gets the lock ----

  /** What a reader sees among mixed programs: the queue, perhaps with leftovers after it, or nothing while an older
      program, which empties the file first, rewrites it. */
  ghost predicate Sees(s: State, step: Step) {
    step.choice.See? ==>
      || s.queue <= step.choice.view
      || (step.choice.view == [] && exists q :: 0 <= q < |s.pcs| && s.pcs[q].OldWrite?)
  }

  ghost predicate MixedRun(s: State, steps: seq<Step>)
    decreases |steps|
  {
    steps == [] || (Enabled(s, steps[0]) && Sees(s, steps[0]) && MixedRun(After(s, steps[0]), steps[1..]))
  }

  /** A process of either program that has not seen itself first. */
  predicate Behind(pc: Pc) {
    Shaped(pc) && !pc.Look? && !pc.Try? && !pc.OldTry?
  }

  /** An older program that finds the file empty when it asks who is first; it goes on to the lock. */
  predicate FindsNobody(s: State, step: Step, b: Lane)
    requires Enabled(s, step)
  {
    step.lane == b && s.pcs[b].OldHead? && step.choice.view == []
  }

  predicate EverFindsNobody(s: State, steps: seq<Step>, b: Lane)
    requires Possible(s, steps)
    decreases |steps|
  {
    steps != [] && (FindsNobody(s, steps[0], b) || EverFindsNobody(After(s, steps[0]), steps[1..], b))
  }

  /** Among mixed programs a lane, old or new, gets the lock before a lane that is queued before it only after that one
      left or lost its place to a write from such a reading, or because it is old and found the file empty. */
  lemma {:induction false} OnlyTwoWaysToOvertake(s: State, steps: seq<Step>, a: Lane, b: Lane)
    requires MixedRun(s, steps) && a != b && Before(s.queue, a, b) && b < |s.pcs| && Behind(s.pcs[b])
    ensures Possible(s, steps)
    ensures EverAcquires(s, steps, b) ==> EverOverwrites(s, steps, a, b) || EverFindsNobody(s, steps, b)
    decreases |steps|
  {
    if steps != [] {
      var t := After(s, steps[0]);
      MixedRunIsPossible(t, steps[1..]);
      OrderIsKept(s, steps[0], a, b);
      if !Overwrites(s, steps[0], a, b) && !FindsNobody(s, steps[0], b) {
        StaysBehind(s, steps[0], a, b);
        OnlyTwoWaysToOvertake(t, steps[1..], a, b);
      }
    }
  }

  lemma StaysBehind(s: State, step: Step, a: Lane, b: Lane)
    requires Enabled(s, step) && Sees(s, step) && a != b && Before(s.queue, a, b) && b < |s.pcs| && Behind(s.pcs[b])
    requires !FindsNobody(s, step, b)
    ensures Behind(After(s, step).pcs[b]) && !Acquires(s, step, b)
  {
  }

  lemma {:induction false} MixedRunIsPossible(s: State, steps: seq<Step>)
    requires MixedRun(s, steps)
    ensures Possible(s, steps)
    decreases |steps|
  {
    if steps != [] {
      MixedRunIsPossible(After(s, steps[0]), steps[1..]);
    }
  }

  // ---- Both ways happen ----

  /** A run of mixed programs to a state. */
  ghost predicate Reaches(s: State, steps: seq<Step>, end: State) {
    MixedRun(s, steps) && Possible(s, steps) && RunAll(s, steps) == end
  }

  /** One step more. */
  lemma {:induction false} Extended(s: State, steps: seq<Step>, t: State, step: Step, end: State)
    requires Reaches(s, steps, t) && Enabled(t, step) && Sees(t, step) && After(t, step) == end
    ensures Reaches(s, steps + [step], end)
    decreases |steps|
  {
    if steps == [] {
      assert steps + [step] == [step] && [step][1..] == steps;
    } else {
      assert (steps + [step])[0] == steps[0] && (steps + [step])[1..] == steps[1..] + [step];
      Extended(After(s, steps[0]), steps[1..], t, step, end);
    }
  }

  lemma Extend(s: State, steps: seq<Step>, t: State, step: Step, end: State) returns (more: seq<Step>)
    requires Reaches(s, steps, t) && Enabled(t, step) && Sees(t, step) && After(t, step) == end
    ensures Reaches(s, more, end)
  {
    more := steps + [step];
    Extended(s, steps, t, step, end);
  }

  /** In this run b gets the lock although a stays. */
  ghost predicate Overtakes(s: State, steps: seq<Step>, a: Lane, b: Lane) {
    MixedRun(s, steps) && Possible(s, steps) && !EverLeaves(s, steps, a) && EverAcquires(s, steps, b)
  }

  /** A step in front of such a run. */
  lemma ThenOvertakes(s: State, step: Step, t: State, rest: seq<Step>, a: Lane, b: Lane) returns (steps: seq<Step>)
    requires Enabled(s, step) && Sees(s, step) && After(s, step) == t && !Leaves(s, step, a)
    requires MixedRun(t, rest) && Possible(t, rest) && !EverLeaves(t, rest, a)
    requires EverAcquires(t, rest, b) || Acquires(s, step, b)
    ensures Overtakes(s, steps, a, b)
    ensures Before(s.queue, a, b) && AlwaysBefore(t, rest, a, b) ==> AlwaysBefore(s, steps, a, b)
  {
    steps := [step] + rest;
    assert steps[1..] == rest;
    First(s, step, rest);
    FirstLeaves(s, step, rest, a);
    FirstAcquires(s, step, rest, b);
  }

  function Three(queue: seq<Lane>, editor: Option<Lane>, lock: Option<Lane>, a: Pc, b: Pc, c: Pc): State {
    State(queue, editor, lock, [a, b, c])
  }

  lemma StartOfThree()
    ensures Start(3) == Three([], None, None, Idle, Idle, Idle)
  {
  }

  // A lost entry: lane 0, an older program, leaves with what it read before lane 1 joined; then lane 2 joins.

  lemma ZeroQueues() returns (steps: seq<Step>)
    ensures Reaches(Start(3), steps, Three([0], None, None, OldWait, Idle, Idle))
  {
    var s0 := Three([], None, None, Idle, Idle, Idle);
    var s1 := Three([], None, None, OldCheck(true), Idle, Idle);
    var s2 := Three([], None, None, OldAppend(true), Idle, Idle);
    StartOfThree();
    steps := Extend(s0, [], s0, Step(0, Old), s1);
    steps := Extend(s0, steps, s1, Step(0, See([])), s2);
    steps := Extend(s0, steps, s2, Step(0, Go), Three([0], None, None, OldWait, Idle, Idle));
  }

  lemma ZeroHolds() returns (steps: seq<Step>)
    ensures Reaches(Start(3), steps, Three([0], None, Some(0), OldRun, Idle, Idle))
  {
    var s3 := Three([0], None, None, OldWait, Idle, Idle);
    var s4 := Three([0], None, None, OldCheck(false), Idle, Idle);
    var s5 := Three([0], None, None, OldHead, Idle, Idle);
    var s6 := Three([0], None, None, OldTry, Idle, Idle);
    steps := ZeroQueues();
    steps := Extend(Start(3), steps, s3, Step(0, Go), s4);
    steps := Extend(Start(3), steps, s4, Step(0, See([0])), s5);
    steps := Extend(Start(3), steps, s5, Step(0, See([0])), s6);
    steps := Extend(Start(3), steps, s6, Step(0, Go), Three([0], None, Some(0), OldRun, Idle, Idle));
  }

  /** Lane 0 has read the queue to leave it, and lane 1 has joined since. */
  const JOINED: State := Three([0, 1], None, Some(0), OldWrite([0]), Wait, Idle)

  lemma OneJoins() returns (steps: seq<Step>)
    ensures Reaches(Start(3), steps, JOINED)
  {
    var s1 := Three([0], None, Some(0), OldRun, Idle, Idle);
    var s2 := Three([0], None, Some(0), OldWrite([0]), Idle, Idle);
    var s3 := Three([0], None, Some(0), OldWrite([0]), Check(true), Idle);
    steps := ZeroHolds();
    steps := Extend(Start(3), steps, s1, Step(0, See([0])), s2);
    steps := Extend(Start(3), steps, s2, Step(1, Go), s3);
    steps := OneEdits(steps);
  }

  lemma OneEdits(before: seq<Step>) returns (steps: seq<Step>)
    requires Reaches(Start(3), before, Three([0], None, Some(0), OldWrite([0]), Check(true), Idle))
    ensures Reaches(Start(3), steps, JOINED)
  {
    var s3 := Three([0], None, Some(0), OldWrite([0]), Check(true), Idle);
    var s4 := Three([0], None, Some(0), OldWrite([0]), Edit(true, Wait), Idle);
    var s5 := Three([0], Some(1), Some(0), OldWrite([0]), Editing(true, [0], Wait), Idle);
    steps := Extend(Start(3), before, s3, Step(1, See([0])), s4);
    steps := Extend(Start(3), steps, s4, Step(1, See([0])), s5);
    steps := Extend(Start(3), steps, s5, Step(1, Go), JOINED);
  }

  lemma TwoTakes() returns (steps: seq<Step>)
    ensures Overtakes(Three([2], None, None, Idle, Wait, Head), steps, 1, 2)
  {
    var s3 := Three([2], None, None, Idle, Wait, Head);
    var s4 := Three([2], None, None, Idle, Wait, Look);
    var s5 := Three([2], None, None, Idle, Wait, Try);
    var s6 := Three([2], None, Some(2), Idle, Wait, Run);
    steps := [];
    steps := ThenOvertakes(s5, Step(2, Go), s6, steps, 1, 2);
    steps := ThenOvertakes(s4, Step(2, Go), s5, steps, 1, 2);
    steps := ThenOvertakes(s3, Step(2, See([2])), s4, steps, 1, 2);
  }

  /** Lane 0 drops the lock, and lane 2 finds itself alone in the queue. */
  lemma TwoLooks() returns (steps: seq<Step>)
    ensures Overtakes(Three([2], None, Some(0), Free, Wait, Wait), steps, 1, 2)
  {
    var s0 := Three([2], None, Some(0), Free, Wait, Wait);
    var s1 := Three([2], None, None, Idle, Wait, Wait);
    var s2 := Three([2], None, None, Idle, Wait, Check(false));
    var s3 := Three([2], None, None, Idle, Wait, Head);
    steps := TwoTakes();
    steps := ThenOvertakes(s2, Step(2, See([2])), s3, steps, 1, 2);
    steps := ThenOvertakes(s1, Step(2, Go), s2, steps, 1, 2);
    steps := ThenOvertakes(s0, Step(0, Go), s1, steps, 1, 2);
  }

  lemma TwoJoins() returns (steps: seq<Step>)
    ensures Overtakes(Three([], None, Some(0), Free, Wait, Check(true)), steps, 1, 2)
  {
    var s2 := Three([], None, Some(0), Free, Wait, Check(true));
    var s3 := Three([], None, Some(0), Free, Wait, Edit(true, Wait));
    var s4 := Three([], Some(2), Some(0), Free, Wait, Editing(true, [], Wait));
    var s5 := Three([2], None, Some(0), Free, Wait, Wait);
    steps := TwoLooks();
    steps := ThenOvertakes(s4, Step(2, Go), s5, steps, 1, 2);
    steps := ThenOvertakes(s3, Step(2, See([])), s4, steps, 1, 2);
    steps := ThenOvertakes(s2, Step(2, See([])), s3, steps, 1, 2);
  }

  /** The first way, by a lost entry: lane 1 is queued before lane 2, never leaves, and lane 2 gets the lock. Every
      reader in this run sees the queue as it is. */
  lemma OldProgramBreaksTheOrder() returns (first: seq<Step>, rest: seq<Step>)
    ensures Reaches(Start(3), first, JOINED)
    ensures Before(JOINED.queue, 1, 2) && Overtakes(JOINED, rest, 1, 2)
  {
    var s1 := Three([], None, Some(0), Free, Wait, Idle);
    var s2 := Three([], None, Some(0), Free, Wait, Check(true));
    first := OneJoins();
    rest := TwoJoins();
    rest := ThenOvertakes(s1, Step(2, Go), s2, rest, 1, 2);
    assert Without([0], 0) == [] && [0, 1][1..] == [1];
    rest := ThenOvertakes(JOINED, Step(0, Go), s1, rest, 1, 2);
  }

  // An empty file: lane 2, an older program, rewrites the queue while lane 1, another, asks who is first.

  lemma TwoQueues() returns (steps: seq<Step>)
    ensures Reaches(Start(3), steps, Three([2], None, None, Idle, Idle, OldWait))
  {
    var s0 := Three([], None, None, Idle, Idle, Idle);
    var s1 := Three([], None, None, Idle, Idle, OldCheck(true));
    var s2 := Three([], None, None, Idle, Idle, OldAppend(true));
    StartOfThree();
    steps := Extend(s0, [], s0, Step(2, Old), s1);
    steps := Extend(s0, steps, s1, Step(2, See([])), s2);
    steps := Extend(s0, steps, s2, Step(2, Go), Three([2], None, None, Idle, Idle, OldWait));
  }

  lemma TwoHolds() returns (steps: seq<Step>)
    ensures Reaches(Start(3), steps, Three([2], None, Some(2), Idle, Idle, OldRun))
  {
    var s3 := Three([2], None, None, Idle, Idle, OldWait);
    var s4 := Three([2], None, None, Idle, Idle, OldCheck(false));
    var s5 := Three([2], None, None, Idle, Idle, OldHead);
    var s6 := Three([2], None, None, Idle, Idle, OldTry);
    steps := TwoQueues();
    steps := Extend(Start(3), steps, s3, Step(2, Go), s4);
    steps := Extend(Start(3), steps, s4, Step(2, See([2])), s5);
    steps := Extend(Start(3), steps, s5, Step(2, See([2])), s6);
    steps := Extend(Start(3), steps, s6, Step(2, Go), Three([2], None, Some(2), Idle, Idle, OldRun));
  }

  lemma ZeroJoins() returns (steps: seq<Step>)
    ensures Reaches(Start(3), steps, Three([2, 0], None, Some(2), Wait, Idle, OldRun))
  {
    var s0 := Three([2], None, Some(2), Idle, Idle, OldRun);
    var s1 := Three([2], None, Some(2), Check(true), Idle, OldRun);
    var s2 := Three([2], None, Some(2), Edit(true, Wait), Idle, OldRun);
    var s3 := Three([2], Some(0), Some(2), Editing(true, [2], Wait), Idle, OldRun);
    steps := TwoHolds();
    steps := Extend(Start(3), steps, s0, Step(0, Go), s1);
    steps := Extend(Start(3), steps, s1, Step(0, See([2])), s2);
    steps := Extend(Start(3), steps, s2, Step(0, See([2])), s3);
    steps := Extend(Start(3), steps, s3, Step(0, Go), Three([2, 0], None, Some(2), Wait, Idle, OldRun));
  }

  lemma OneQueues() returns (steps: seq<Step>)
    ensures Reaches(Start(3), steps, Three([2, 0, 1], None, Some(2), Wait, OldWait, OldRun))
  {
    var s0 := Three([2, 0], None, Some(2), Wait, Idle, OldRun);
    var s1 := Three([2, 0], None, Some(2), Wait, OldCheck(true), OldRun);
    var s2 := Three([2, 0], None, Some(2), Wait, OldAppend(true), OldRun);
    steps := ZeroJoins();
    steps := Extend(Start(3), steps, s0, Step(1, Old), s1);
    steps := Extend(Start(3), steps, s1, Step(1, See([2, 0])), s2);
    steps := Extend(Start(3), steps, s2, Step(1, Go), Three([2, 0, 1], None, Some(2), Wait, OldWait, OldRun));
  }

  /** Lane 1 is about to ask who is first, and lane 2 to rewrite the queue without itself. */
  const REWRITING: State := Three([2, 0, 1], None, Some(2), Wait, OldHead, OldWrite([2, 0, 1]))

  lemma TwoRewrites() returns (steps: seq<Step>)
    ensures Reaches(Start(3), steps, REWRITING)
  {
    var s0 := Three([2, 0, 1], None, Some(2), Wait, OldWait, OldRun);
    var s1 := Three([2, 0, 1], None, Some(2), Wait, OldCheck(false), OldRun);
    var s2 := Three([2, 0, 1], None, Some(2), Wait, OldHead, OldRun);
    steps := OneQueues();
    steps := Extend(Start(3), steps, s0, Step(1, Go), s1);
    steps := Extend(Start(3), steps, s1, Step(1, See([2, 0, 1])), s2);
    steps := Extend(Start(3), steps, s2, Step(2, See([2, 0, 1])), REWRITING);
  }

  lemma InOrder()
    ensures Before([0, 1], 0, 1) && Before([2, 0, 1], 0, 1)
  {
    assert [2, 0, 1][1..] == [0, 1];
  }

  lemma OneTakes() returns (steps: seq<Step>)
    ensures Overtakes(Three([0, 1], None, Some(2), Wait, OldTry, Free), steps, 0, 1)
    ensures AlwaysBefore(Three([0, 1], None, Some(2), Wait, OldTry, Free), steps, 0, 1)
  {
    var s2 := Three([0, 1], None, Some(2), Wait, OldTry, Free);
    var s3 := Three([0, 1], None, None, Wait, OldTry, Idle);
    var s4 := Three([0, 1], None, Some(1), Wait, OldRun, Idle);
    steps := [];
    InOrder();
    steps := ThenOvertakes(s3, Step(1, Go), s4, steps, 0, 1);
    steps := ThenOvertakes(s2, Step(2, Go), s3, steps, 0, 1);
  }

  /** The second way, by an empty file: lane 0 is queued before lane 1 in every state, never leaves, and lane 1 gets the
      lock. */
  lemma EmptyFileBreaksTheOrder() returns (first: seq<Step>, rest: seq<Step>)
    ensures Reaches(Start(3), first, REWRITING)
    ensures Overtakes(REWRITING, rest, 0, 1) && AlwaysBefore(REWRITING, rest, 0, 1)
  {
    first := TwoRewrites();
    rest := OneFindsNobody();
  }

  lemma OneFindsNobody() returns (steps: seq<Step>)
    ensures Overtakes(REWRITING, steps, 0, 1) && AlwaysBefore(REWRITING, steps, 0, 1)
  {
    var s1 := Three([2, 0, 1], None, Some(2), Wait, OldTry, OldWrite([2, 0, 1]));
    var s2 := Three([0, 1], None, Some(2), Wait, OldTry, Free);
    steps := OneTakes();
    InOrder();
    WithoutTwo();
    steps := ThenOvertakes(s1, Step(2, Go), s2, steps, 0, 1);
    assert REWRITING.pcs[2].OldWrite?;
    steps := ThenOvertakes(REWRITING, Step(1, See([])), s1, steps, 0, 1);
  }

  lemma WithoutTwo()
    ensures Without([2, 0, 1], 2) == [0, 1]
  {
    var none: seq<Lane> := [];
    assert [1][1..] == none && [0, 1][1..] == [1] && [2, 0, 1][1..] == [0, 1];
    assert Without([1], 2) == [1] && Without([0, 1], 2) == [0, 1];
  }

  // The lease program's own edit drops what an older program appends beside it.

  /** Lane 0 has read the empty queue under the file lock, and lane 1, an older program, has appended itself since. */
  const APPENDED: State := Three([1], Some(0), None, Editing(true, [], Wait), OldWait, Idle)

  lemma LockedEditDropsAppend() returns (first: seq<Step>)
    ensures Reaches(Start(3), first, APPENDED)
    ensures Before(APPENDED.queue, 1, 0) && Overwrites(APPENDED, Step(0, Go), 1, 0)
    ensures After(APPENDED, Step(0, Go)) == Three([0], None, None, Wait, OldWait, Idle)
  {
    var s0 := Three([], None, None, Idle, Idle, Idle);
    var s1 := Three([], None, None, Check(true), Idle, Idle);
    var s2 := Three([], None, None, Edit(true, Wait), Idle, Idle);
    var s3 := Three([], Some(0), None, Editing(true, [], Wait), Idle, Idle);
    StartOfThree();
    first := Extend(s0, [], s0, Step(0, Go), s1);
    first := Extend(s0, first, s1, Step(0, See([])), s2);
    first := Extend(s0, first, s2, Step(0, See([])), s3);
    first := OneAppends(first);
  }

  lemma OneAppends(before: seq<Step>) returns (steps: seq<Step>)
    requires Reaches(Start(3), before, Three([], Some(0), None, Editing(true, [], Wait), Idle, Idle))
    ensures Reaches(Start(3), steps, APPENDED)
  {
    var s3 := Three([], Some(0), None, Editing(true, [], Wait), Idle, Idle);
    var s4 := Three([], Some(0), None, Editing(true, [], Wait), OldCheck(true), Idle);
    var s5 := Three([], Some(0), None, Editing(true, [], Wait), OldAppend(true), Idle);
    steps := Extend(Start(3), before, s3, Step(1, Old), s4);
    steps := Extend(Start(3), steps, s4, Step(1, See([])), s5);
    steps := Extend(Start(3), steps, s5, Step(1, Go), APPENDED);
  }
}
