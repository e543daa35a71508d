/** What the lease program's own steps do to the queue and the lock when it is alone for a moment: joining, giving up,
    giving way, failing and handing on. */
module LeaseTurns {
  import opened Common
  import opened QueueFile
  import opened Lease
  import opened LeaseHolder
  import opened LeaseOrder

  /** These steps of one process lead there, each reader seeing the queue as it is. */
  ghost predicate Does(s: State, p: Lane, steps: seq<Step>, end: State) {
    && (forall step :: step in steps ==> step.lane == p)
    && FairRun(s, steps) && Possible(s, steps) && RunAll(s, steps) == end
  }

  lemma Nothing(s: State, p: Lane)
    ensures Does(s, p, [], s)
  {
  }

  /** One step in front. */
  lemma Next(s: State, p: Lane, choice: Choice, rest: seq<Step>, end: State) returns (steps: seq<Step>)
    requires FairStep(s, Step(p, choice)) && Does(After(s, Step(p, choice)), p, rest, end)
    ensures steps == [Step(p, choice)] + rest && Does(s, p, steps, end)
  {
    steps := [Step(p, choice)] + rest;
    First(s, Step(p, choice), rest);
  }

  /** An edit of the queue under the file lock, from asking for the lock to its end. */
  lemma EditDoes(s: State, p: Lane, join: bool, next: Pc) returns (steps: seq<Step>)
    requires p < |s.pcs| && s.pcs[p] == Edit(join, next) && s.editor.None?
    ensures |steps| == 2 && Does(s, p, steps, s.(queue := Edited(s.queue, p, join), pcs := Put(s.pcs, p, next)))
  {
    var s1 := After(s, Step(p, See(s.queue)));
    var s2 := After(s1, Step(p, Go));
    assert s2 == s.(queue := Edited(s.queue, p, join), pcs := Put(s.pcs, p, next));
    Nothing(s2, p);
    steps := Next(s1, p, Go, [], s2);
    steps := Next(s, p, See(s.queue), steps, s2);
  }

  /** A process that starts joins the end of the queue and waits. */
  lemma JoinDoes(s: State, p: Lane) returns (steps: seq<Step>)
    requires p < |s.pcs| && s.pcs[p].Idle? && s.editor.None? && p !in s.queue
    ensures |steps| == 4 && Does(s, p, steps, s.(queue := s.queue + [p], pcs := Put(s.pcs, p, Wait)))
  {
    var s1 := After(s, Step(p, Go));
    var s2 := After(s1, Step(p, See(s.queue)));
    var end := s.(queue := s.queue + [p], pcs := Put(s.pcs, p, Wait));
    steps := EditDoes(s2, p, true, Wait);
    assert Put(s2.pcs, p, Wait) == Put(s.pcs, p, Wait);
    steps := Next(s1, p, See(s.queue), steps, end);
    steps := Next(s, p, Go, steps, end);
  }

  /** A waiting process that is not queued, as after giving way, joins again before it asks who is first. */
  lemma RejoinDoes(s: State, p: Lane) returns (steps: seq<Step>)
    requires p < |s.pcs| && s.pcs[p].Wait? && s.editor.None? && p !in s.queue
    ensures |steps| == 4 && Does(s, p, steps, s.(queue := s.queue + [p], pcs := Put(s.pcs, p, Head)))
  {
    var s1 := After(s, Step(p, Go));
    var s2 := After(s1, Step(p, See(s.queue)));
    var end := s.(queue := s.queue + [p], pcs := Put(s.pcs, p, Head));
    steps := EditDoes(s2, p, true, Head);
    assert Put(s2.pcs, p, Head) == Put(s.pcs, p, Head);
    steps := Next(s1, p, See(s.queue), steps, end);
    steps := Next(s, p, Go, steps, end);
  }

  /** A waiting process that times out leaves the queue and ends; one that gives way to a measurement leaves it and
      waits. The lock stays as it is. */
  lemma LeaveDoes(s: State, p: Lane, quiet: bool) returns (steps: seq<Step>)
    requires p < |s.pcs| && s.pcs[p].Wait? && s.editor.None?
    ensures |steps| == 3
    ensures Does(s, p, steps, s.(queue := Without(s.queue, p), pcs := Put(s.pcs, p, if quiet then Wait else Idle)))
  {
    var choice, next := if quiet then Quiet else GiveUp, if quiet then Wait else Idle;
    var s1 := After(s, Step(p, choice));
    steps := EditDoes(s1, p, false, next);
    assert Put(s1.pcs, p, next) == Put(s.pcs, p, next);
    steps := Next(s, p, choice, steps, s.(queue := Without(s.queue, p), pcs := Put(s.pcs, p, next)));
  }

  /** A process that cannot make the lock leaves the queue and ends. */
  lemma FailDoes(s: State, p: Lane) returns (steps: seq<Step>)
    requires p < |s.pcs| && s.pcs[p].Try? && s.editor.None?
    ensures |steps| == 3 && Does(s, p, steps, s.(queue := Without(s.queue, p), pcs := Put(s.pcs, p, Idle)))
  {
    var s1 := After(s, Step(p, Fail));
    steps := EditDoes(s1, p, false, Idle);
    assert Put(s1.pcs, p, Idle) == Put(s.pcs, p, Idle);
    steps := Next(s, p, Fail, steps, s.(queue := Without(s.queue, p), pcs := Put(s.pcs, p, Idle)));
  }

  /** The state after the holder has handed on. */
  function HandedOn(s: State, p: Lane): State {
    s.(queue := Without(s.queue, p), lock := None, pcs := Put(s.pcs, p, Idle))
  }

  /** The holder leaves the queue and then drops the lock. */
  lemma HandOnDoes(s: State, p: Lane) returns (steps: seq<Step>)
    requires p < |s.pcs| && s.pcs[p].Run? && s.editor.None?
    ensures |steps| == 4 && Does(s, p, steps, HandedOn(s, p))
  {
    var s1 := After(s, Step(p, Go));
    var s2 := After(s1, Step(p, See(s.queue)));
    var s3 := After(s2, Step(p, Go));
    var s4 := After(s3, Step(p, Go));
    assert s4 == HandedOn(s, p);
    Nothing(s4, p);
    steps := Next(s3, p, Go, [], s4);
    steps := Next(s2, p, Go, steps, s4);
    steps := Next(s1, p, See(s.queue), steps, s4);
    steps := Next(s, p, Go, steps, s4);
  }

  /** So the lock goes to the next lane in the queue: four steps of the holder and five of that lane's. */
  lemma NextGetsTheLock(s: State, p: Lane, q: Lane) returns (leave: seq<Step>, take: seq<Step>)
    requires p < |s.pcs| && q < |s.pcs| && s.pcs[p].Run? && s.pcs[q].Wait? && s.editor.None?
    requires Without(s.queue, p) != [] && Without(s.queue, p)[0] == q
    ensures |leave| == 4 && Does(s, p, leave, HandedOn(s, p))
    ensures var t := HandedOn(s, p);
            |take| == 5 && Does(t, q, take, t.(lock := Some(q), pcs := Put(t.pcs, q, Run)))
  {
    leave := HandOnDoes(s, p);
    take := FirstCanAcquire(HandedOn(s, p), q);
  }

  /** After any run from the start, whoever runs is first in the queue, and who is behind it gets the lock next. */
  lemma NextIsBehindHolder(lanes: nat, before: seq<Step>, p: Lane)
    requires FairRun(Start(lanes), before)
    ensures Possible(Start(lanes), before)
    ensures var s := RunAll(Start(lanes), before);
            p < |s.pcs| && s.pcs[p].Run? ==>
              s.lock == Some(p) && s.queue != [] && s.queue[0] == p && HandedOn(s, p).queue == s.queue[1..]
  {
    HolderIsFirstFromStart(lanes, before);
    var s := RunAll(Start(lanes), before);
    if p < |s.pcs| && s.pcs[p].Run? {
      assert Leads(s.pcs[p]) && Holding(s.pcs[p]);
      KeepsAll(s.queue[1..], p);
    }
  }

  lemma {:induction false} KeepsAll(queue: seq<Lane>, p: Lane)
    requires p !in queue
    ensures Without(queue, p) == queue
  {
    if queue != [] {
      assert queue[0] in queue && forall x :: x in queue[1..] ==> x in queue;
      KeepsAll(queue[1..], p);
      assert [queue[0]] + queue[1..] == queue;
    }
  }
}
