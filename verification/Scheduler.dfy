/** The measurement suite: a list of jobs, run in batches under the UI lease, that grows by its own retries. */
module Scheduler {
  import opened Common

  const TRIES: nat := 3
  const BATCH: nat := 4

  datatype Job = Job(second: bool, scene: string)

  /** One finished run: what ran, and whether the last recorded row was usable for it. */
  datatype Run = Run(job: Job, ok: bool)

  /** The key of the attempts table: the scene and the repeat number. */
  function Key(job: Job): string {
    job.scene + (if job.second then "-2" else "-1")
  }

  lemma KeyIsInjective(a: Job, b: Job)
    requires Key(a) == Key(b)
    ensures a == b
  {
    var n := |Key(a)|;
    assert Key(a)[n - 1] == Key(b)[n - 1];
    assert a.scene == Key(a)[..n - 2] == Key(b)[..n - 2] == b.scene;
  }

  /** Both repeats of every scene, less the jobs that already have a usable row. */
  function InitialJobs(scenes: seq<string>, completed: set<Job>): seq<Job> {
    Wanted(false, scenes, completed) + Wanted(true, scenes, completed)
  }

  function Wanted(second: bool, scenes: seq<string>, completed: set<Job>): seq<Job> {
    if scenes == [] then []
    else
      var job := Job(second, scenes[0]);
      (if job in completed then [] else [job]) + Wanted(second, scenes[1..], completed)
  }

  /** The outcomes of one job, in the order of its runs. */
  ghost function Outcomes(log: seq<Run>, job: Job): seq<bool> {
    if log == [] then []
    else
      var before, last := Outcomes(log[..|log| - 1], job), log[|log| - 1];
      if last.job == job then before + [last.ok] else before
  }

  ghost predicate AllFailed(outcomes: seq<bool>) {
    forall i :: 0 <= i < |outcomes| ==> !outcomes[i]
  }

  /** Still to be run: no usable run yet, and an attempt left. */
  ghost predicate Open(outcomes: seq<bool>) {
    AllFailed(outcomes) && |outcomes| < TRIES
  }

  /** Finished: a usable run after failed ones only, or exactly three failed ones. */
  ghost predicate Settled(outcomes: seq<bool>) {
    || (AllFailed(outcomes) && |outcomes| == TRIES)
    || (0 < |outcomes| <= TRIES && outcomes[|outcomes| - 1] && AllFailed(outcomes[..|outcomes| - 1]))
  }

  ghost function Sum(s: seq<nat>): nat {
    if s == [] then 0 else Sum(s[..|s| - 1]) + s[|s| - 1]
  }

  function Tries(attempts: map<string, nat>, job: Job): nat {
    if Key(job) in attempts then attempts[Key(job)] else 0
  }

  /** How many runs one queued job can still cause. */
  ghost function Cost(attempts: map<string, nat>, job: Job): nat {
    var tries := Tries(attempts, job);
    if tries < TRIES then TRIES - tries else 1
  }

  /** How many runs the queued jobs can still cause. */
  ghost function Budget(queue: seq<Job>, attempts: map<string, nat>): nat {
    if queue == [] then 0 else Cost(attempts, queue[0]) + Budget(queue[1..], attempts)
  }

  lemma {:induction false} BudgetOfAppend(queue: seq<Job>, job: Job, attempts: map<string, nat>)
    ensures Budget(queue + [job], attempts) == Budget(queue, attempts) + Cost(attempts, job)
  {
    if queue == [] {
      assert queue + [job] == [job];
    } else {
      assert (queue + [job])[1..] == queue[1..] + [job];
      BudgetOfAppend(queue[1..], job, attempts);
    }
  }

  lemma {:induction false} BudgetShrinks(queue: seq<Job>, attempts: map<string, nat>, key: string, tries: nat)
    requires (if key in attempts then attempts[key] else 0) <= tries
    ensures Budget(queue, attempts[key := tries]) <= Budget(queue, attempts)
  {
    if queue != [] {
      BudgetShrinks(queue[1..], attempts, key, tries);
    }
  }

  lemma {:induction false} BudgetOfNew(queue: seq<Job>)
    ensures Budget(queue, map[]) == TRIES * |queue|
  {
    if queue != [] {
      BudgetOfNew(queue[1..]);
    }
  }

  /** The failed runs of a job; the attempts table holds this number. */
  ghost function Failures(outcomes: seq<bool>): nat {
    if outcomes == [] then 0
    else Failures(outcomes[..|outcomes| - 1]) + (if outcomes[|outcomes| - 1] then 0 else 1)
  }

  lemma {:induction false} FailuresOfAllFailed(outcomes: seq<bool>)
    requires AllFailed(outcomes)
    ensures Failures(outcomes) == |outcomes|
  {
    if outcomes != [] {
      FailuresOfAllFailed(outcomes[..|outcomes| - 1]);
    }
  }

  /** How often a job is in a queue. */
  ghost function Copies(queue: seq<Job>, job: Job): nat {
    multiset(queue)[job]
  }

  ghost predicate Counted(attempts: map<string, nat>, log: seq<Run>, job: Job) {
    Tries(attempts, job) == Failures(Outcomes(log, job))
  }

  /** What holds before and after every run. The queue is the part of the job list not yet run: only wanted jobs are in
      it, the attempts table is right, and the runs made plus those still possible stay within three per wanted job. */
  ghost predicate Bounded(wanted: seq<Job>, queue: seq<Job>, attempts: map<string, nat>, log: seq<Run>) {
    && (forall job {:trigger job in queue} :: job in queue ==> job in wanted)
    && (forall job {:trigger Counted(attempts, log, job)} :: Counted(attempts, log, job))
    && |log| + Budget(queue, attempts) <= TRIES * |wanted|
  }

  /** A job is queued exactly once while it is open, and otherwise it is settled. */
  ghost predicate QueuedOrSettled(queue: seq<Job>, log: seq<Run>, job: Job) {
    if Open(Outcomes(log, job)) then Copies(queue, job) == 1
    else Copies(queue, job) == 0 && Settled(Outcomes(log, job))
  }

  /** What holds for every job that is wanted once. */
  ghost predicate OnTrack(wanted: seq<Job>, queue: seq<Job>, log: seq<Run>) {
    forall job {:trigger QueuedOrSettled(queue, log, job)} ::
      Copies(wanted, job) == 1 ==> QueuedOrSettled(queue, log, job)
  }

  /** Each of the first two failures of a job queues one more copy of it. */
  ghost function Retries(outcomes: seq<bool>): nat {
    if Failures(outcomes) < TRIES then Failures(outcomes) else TRIES - 1
  }

  ghost predicate Requeued(wanted: seq<Job>, queue: seq<Job>, log: seq<Run>, job: Job) {
    Copies(queue, job) + |Outcomes(log, job)| == Copies(wanted, job) + Retries(Outcomes(log, job))
  }

  /** What holds for every job, however often it is wanted. */
  ghost predicate AllRequeued(wanted: seq<Job>, queue: seq<Job>, log: seq<Run>) {
    forall job {:trigger Requeued(wanted, queue, log, job)} :: Requeued(wanted, queue, log, job)
  }

  /** The retry a run adds to the end of the list. */
  function Retry(attempts: map<string, nat>, run: Run): seq<Job> {
    if !run.ok && Tries(attempts, run.job) + 1 < TRIES then [run.job] else []
  }

  /** The attempts table after a run. */
  function Attempts(attempts: map<string, nat>, run: Run): map<string, nat> {
    if run.ok then attempts else attempts[Key(run.job) := Tries(attempts, run.job) + 1]
  }

  lemma OutcomesOfRun(log: seq<Run>, run: Run, job: Job)
    ensures Outcomes(log + [run], job) == Outcomes(log, job) + (if job == run.job then [run.ok] else [])
  {
    assert (log + [run])[..|log|] == log;
  }

  /** An open job that runs once more is settled by a usable run or a third failure, and stays open otherwise. */
  lemma OutcomeAfterRun(before: seq<bool>, ok: bool)
    ensures Failures(before + [ok]) == Failures(before) + (if ok then 0 else 1)
    ensures Open(before) ==> Failures(before) == |before|
    ensures Open(before) ==>
      if ok || |before| + 1 == TRIES then Settled(before + [ok]) && !Open(before + [ok]) else Open(before + [ok])
  {
    assert (before + [ok])[..|before|] == before;
    assert (before + [ok])[|before|] == ok;
    if AllFailed(before) {
      FailuresOfAllFailed(before);
    }
  }

  lemma CountedAfterRun(attempts: map<string, nat>, log: seq<Run>, run: Run, job: Job)
    requires Counted(attempts, log, job)
    ensures Counted(Attempts(attempts, run), log + [run], job)
  {
    OutcomesOfRun(log, run, job);
    OutcomeAfterRun(Outcomes(log, job), run.ok);
    if Key(job) == Key(run.job) {
      KeyIsInjective(job, run.job);
    }
  }

  lemma BudgetAfterRun(queue: seq<Job>, attempts: map<string, nat>, run: Run)
    requires queue != [] && run.job == queue[0]
    ensures Budget(queue[1..] + Retry(attempts, run), Attempts(attempts, run)) < Budget(queue, attempts)
  {
    var rest, attempts' := queue[1..], Attempts(attempts, run);
    if !run.ok {
      BudgetShrinks(rest, attempts, Key(run.job), Tries(attempts, run.job) + 1);
    }
    assert Budget(rest, attempts') <= Budget(rest, attempts);
    if Retry(attempts, run) == [] {
      assert rest + Retry(attempts, run) == rest;
    } else {
      BudgetOfAppend(rest, run.job, attempts');
    }
  }

  lemma CopiesAfterRun(queue: seq<Job>, attempts: map<string, nat>, run: Run, job: Job)
    requires queue != [] && run.job == queue[0]
    ensures Copies(queue[1..] + Retry(attempts, run), job)
         == Copies(queue, job) - (if job == run.job then 1 else 0)
              + |if job == run.job then Retry(attempts, run) else []|
  {
    assert queue == [run.job] + queue[1..];
  }

  lemma TrackedAfterRun(queue: seq<Job>, attempts: map<string, nat>, log: seq<Run>, run: Run, job: Job)
    requires queue != [] && run.job == queue[0] && Counted(attempts, log, job) && QueuedOrSettled(queue, log, job)
    ensures QueuedOrSettled(queue[1..] + Retry(attempts, run), log + [run], job)
  {
    OutcomesOfRun(log, run, job);
    CopiesAfterRun(queue, attempts, run, job);
    if job == run.job {
      assert queue[0] in multiset(queue);
      OutcomeAfterRun(Outcomes(log, job), run.ok);
    }
  }

  lemma RetriesAfterRun(before: seq<bool>, ok: bool)
    ensures Retries(before + [ok]) == Retries(before) + (if !ok && Failures(before) + 1 < TRIES then 1 else 0)
  {
    OutcomeAfterRun(before, ok);
  }

  lemma RequeuedAfterRun(wanted: seq<Job>, queue: seq<Job>, attempts: map<string, nat>, log: seq<Run>, run: Run,
                         job: Job)
    requires queue != [] && run.job == queue[0] && Counted(attempts, log, job)
    requires Requeued(wanted, queue, log, job)
    ensures Requeued(wanted, queue[1..] + Retry(attempts, run), log + [run], job)
  {
    OutcomesOfRun(log, run, job);
    CopiesAfterRun(queue, attempts, run, job);
    if job == run.job {
      RetriesAfterRun(Outcomes(log, job), run.ok);
    }
  }

  /** The three facts together. */
  ghost predicate Progress(wanted: seq<Job>, queue: seq<Job>, attempts: map<string, nat>, log: seq<Run>) {
    Bounded(wanted, queue, attempts, log) && OnTrack(wanted, queue, log) && AllRequeued(wanted, queue, log)
  }

  lemma ProgressAtStart(wanted: seq<Job>)
    ensures Progress(wanted, wanted, map[], [])
  {
    BudgetOfNew(wanted);
    var none: map<string, nat> := map[];
    assert forall job: Job {:trigger Counted(none, [], job)} :: Counted(none, [], job);
  }

  lemma RunKeepsProgress(wanted: seq<Job>, queue: seq<Job>, attempts: map<string, nat>, log: seq<Run>, ok: bool)
    requires Progress(wanted, queue, attempts, log) && queue != []
    ensures |log| < TRIES * |wanted|
    ensures var run := Run(queue[0], ok);
            Progress(wanted, queue[1..] + Retry(attempts, run), Attempts(attempts, run), log + [run])
  {
    var run := Run(queue[0], ok);
    var queue', attempts', log' := queue[1..] + Retry(attempts, run), Attempts(attempts, run), log + [run];
    BudgetAfterRun(queue, attempts, run);
    assert forall job {:trigger job in queue'} :: job in queue' ==> job in queue;
    forall job: Job {:trigger Counted(attempts', log', job)}
      ensures Counted(attempts', log', job)
    {
      assert Counted(attempts, log, job);
      CountedAfterRun(attempts, log, run, job);
    }
    forall job: Job | Copies(wanted, job) == 1
      ensures QueuedOrSettled(queue', log', job)
    {
      assert QueuedOrSettled(queue, log, job) && Counted(attempts, log, job);
      TrackedAfterRun(queue, attempts, log, run, job);
    }
    forall job: Job {:trigger Requeued(wanted, queue', log', job)}
      ensures Requeued(wanted, queue', log', job)
    {
      assert Requeued(wanted, queue, log, job) && Counted(attempts, log, job);
      RequeuedAfterRun(wanted, queue, attempts, log, run, job);
    }
  }

  /** A job wanted k times shares one count of attempts. Wanted once it settles; otherwise it runs once for each time
      it is wanted and once more for each of its first two failures, so k + 2 times when every run of it fails. */
  ghost predicate Finished(k: nat, outcomes: seq<bool>) {
    && (k == 1 ==> Settled(outcomes))
    && |outcomes| == k + Retries(outcomes)
    && (0 < k && AllFailed(outcomes) ==> |outcomes| == k + TRIES - 1)
  }

  /** What the suite promises of its log, for every job, wanted or not. */
  ghost predicate Complete(wanted: seq<Job>, log: seq<Run>) {
    && |log| <= TRIES * |wanted|
    && forall job {:trigger Outcomes(log, job)} :: Finished(Copies(wanted, job), Outcomes(log, job))
  }

  lemma ProgressAtEnd(wanted: seq<Job>, attempts: map<string, nat>, log: seq<Run>)
    requires Progress(wanted, [], attempts, log)
    ensures Complete(wanted, log)
  {
    forall job {:trigger Outcomes(log, job)}
      ensures Finished(Copies(wanted, job), Outcomes(log, job))
    {
      assert Requeued(wanted, [], log, job);
      assert Copies(wanted, job) == 1 ==> QueuedOrSettled([], log, job);
      if AllFailed(Outcomes(log, job)) {
        FailuresOfAllFailed(Outcomes(log, job));
      }
    }
  }

  /** The runs made so far are the head of the job list, which still starts with the wanted jobs, with the given
      outcomes. */
  ghost predicate Prefix(wanted: seq<Job>, ok: nat -> bool, jobs: seq<Job>, log: seq<Run>) {
    && |log| <= |jobs| && wanted <= jobs
    && (forall i :: 0 <= i < |log| ==> log[i] == Run(jobs[i], ok(i)))
  }

  /** One run and its result: a discarded run counts as an attempt, and the first two of a job put it at the end of the
      list again. */
  method RunNext(ghost wanted: seq<Job>, jobs: seq<Job>, attempts: map<string, nat>, log: seq<Run>, ok: nat -> bool)
    returns (jobs': seq<Job>, attempts': map<string, nat>, log': seq<Run>)
    requires Prefix(wanted, ok, jobs, log) && |log| < |jobs|
    requires Progress(wanted, jobs[|log|..], attempts, log)
    ensures log' == log + [Run(jobs[|log|], ok(|log|))]
    ensures jobs' == jobs + Retry(attempts, log'[|log|]) && attempts' == Attempts(attempts, log'[|log|])
    ensures Prefix(wanted, ok, jobs', log') && Progress(wanted, jobs'[|log'|..], attempts', log')
  {
    var run := Run(jobs[|log|], ok(|log|));
    jobs', attempts', log' := jobs, attempts, log + [run];
    if !run.ok {
      var tries := Tries(attempts, run.job) + 1;
      attempts' := attempts[Key(run.job) := tries];
      if tries < TRIES {
        jobs' := jobs + [run.job];
      }
    }
    RunKeepsProgress(wanted, jobs[|log|..], attempts, log, ok(|log|));
    assert jobs'[|log'|..] == jobs[|log|..][1..] + Retry(attempts, run);
  }

  /** The runs of one lease: at least one and at most four, then on to the next lease. */
  method RunLease(ghost wanted: seq<Job>, jobs: seq<Job>, attempts: map<string, nat>, log: seq<Run>,
                  ok: nat -> bool, quick: nat -> bool)
    returns (jobs': seq<Job>, attempts': map<string, nat>, log': seq<Run>, count: nat)
    requires Prefix(wanted, ok, jobs, log) && |log| < |jobs|
    requires Progress(wanted, jobs[|log|..], attempts, log)
    ensures Prefix(wanted, ok, jobs', log') && Progress(wanted, jobs'[|log'|..], attempts', log')
    ensures |log'| == |log| + count && 1 <= count <= BATCH
    ensures count < BATCH && |log'| < |jobs'| ==> !quick(|log'|)
  {
    jobs', attempts', log', count := jobs, attempts, log, 0;
    var more := true;
    while more
      invariant Prefix(wanted, ok, jobs', log') && Progress(wanted, jobs'[|log'|..], attempts', log')
      invariant |log'| == |log| + count
      invariant if more then |log'| < |jobs'| && count < BATCH
                else 1 <= count <= BATCH && (count < BATCH && |log'| < |jobs'| ==> !quick(|log'|))
      decreases BATCH - count, more
    {
      jobs', attempts', log' := RunNext(wanted, jobs', attempts', log', ok);
      count := count + 1;
      more := |log'| < |jobs'| && count < BATCH && quick(|log'|);
    }
  }

  /** The suite. `ok(n)` is the outcome of the n-th run, `quick(n)` whether the lease is still young after n runs. The
      list of jobs grows while it is walked; what shrinks is the number of runs still possible. First every wanted job
      runs once, in order, then the retries. */
  method Suite(wanted: seq<Job>, ok: nat -> bool, quick: nat -> bool) returns (log: seq<Run>, leases: seq<nat>)
    ensures Complete(wanted, log)
    ensures |wanted| <= |log| && forall i :: 0 <= i < |log| ==> log[i].ok == ok(i)
    ensures forall i :: 0 <= i < |wanted| ==> log[i].job == wanted[i]
    ensures Sum(leases) == |log| && forall k :: 0 <= k < |leases| ==> 1 <= leases[k] <= BATCH
  {
    var jobs, attempts: map<string, nat> := wanted, map[];
    log, leases := [], [];
    ProgressAtStart(wanted);
    assert jobs[0..] == wanted;
    while |log| < |jobs|
      invariant Prefix(wanted, ok, jobs, log) && Progress(wanted, jobs[|log|..], attempts, log)
      invariant Sum(leases) == |log| && forall k :: 0 <= k < |leases| ==> 1 <= leases[k] <= BATCH
      decreases TRIES * |wanted| - |log|
    {
      RunKeepsProgress(wanted, jobs[|log|..], attempts, log, ok(|log|));
      var count;
      jobs, attempts, log, count := RunLease(wanted, jobs, attempts, log, ok, quick);
      SumOfAppend(leases, count);
      leases := leases + [count];
    }
    assert jobs[|log|..] == [];
    ProgressAtEnd(wanted, attempts, log);
  }

  lemma SumOfAppend(s: seq<nat>, x: nat)
    ensures Sum(s + [x]) == Sum(s) + x
  {
    assert (s + [x])[..|s|] == s;
  }

  lemma {:induction false} CopiesOfWanted(second: bool, scenes: seq<string>, completed: set<Job>, job: Job)
    ensures Copies(Wanted(second, scenes, completed), job)
         == if job in completed || job.second != second then 0 else multiset(scenes)[job.scene]
  {
    if scenes != [] {
      var head := Job(second, scenes[0]);
      var rest := Wanted(second, scenes[1..], completed);
      CopiesOfWanted(second, scenes[1..], completed, job);
      assert scenes == [scenes[0]] + scenes[1..];
      assert Wanted(second, scenes, completed) == (if head in completed then [] else [head]) + rest;
    }
  }

  /** Every scene's first run, and then every scene's second. */
  function BothRounds(scenes: seq<string>): seq<Job> {
    seq(|scenes|, i requires 0 <= i < |scenes| => Job(false, scenes[i]))
    + seq(|scenes|, i requires 0 <= i < |scenes| => Job(true, scenes[i]))
  }

  lemma {:induction false} WantedInOrder(second: bool, scenes: seq<string>, completed: set<Job>)
    ensures Subsequence(Wanted(second, scenes, completed),
                        seq(|scenes|, i requires 0 <= i < |scenes| => Job(second, scenes[i])))
  {
    if scenes != [] {
      var job, rest := Job(second, scenes[0]), scenes[1..];
      var all := seq(|rest|, i requires 0 <= i < |rest| => Job(second, rest[i]));
      var head := if job in completed then [] else [job];
      WantedInOrder(second, rest, completed);
      OneOrNone(head, job);
      BothJoined(head, [job], Wanted(second, rest, completed), all);
      assert [job] + all == seq(|scenes|, i requires 0 <= i < |scenes| => Job(second, scenes[i]));
    }
  }

  lemma OneOrNone<T>(a: seq<T>, x: T)
    requires a == [] || a == [x]
    ensures Subsequence(a, [x])
  {
    assert [x][..0] == [];
  }

  /** The wanted jobs are the first runs of the scenes in their order, and then the second ones. */
  lemma InitialIsInOrder(scenes: seq<string>, completed: set<Job>)
    ensures Subsequence(InitialJobs(scenes, completed), BothRounds(scenes))
  {
    WantedInOrder(false, scenes, completed);
    WantedInOrder(true, scenes, completed);
    BothJoined(Wanted(false, scenes, completed), seq(|scenes|, i requires 0 <= i < |scenes| => Job(false, scenes[i])),
               Wanted(true, scenes, completed), seq(|scenes|, i requires 0 <= i < |scenes| => Job(true, scenes[i])));
  }

  /** A job is wanted as often as its scene is listed, unless it already has a usable row. */
  lemma CopiesOfInitial(scenes: seq<string>, completed: set<Job>, job: Job)
    ensures Copies(InitialJobs(scenes, completed), job) == if job in completed then 0 else multiset(scenes)[job.scene]
  {
    CopiesOfWanted(false, scenes, completed, job);
    CopiesOfWanted(true, scenes, completed, job);
  }

  /** The suite for a list of scenes: both repeats of a scene that is listed once and had no usable row get one, or fail
      exactly three times; a scene listed twice can be run four times. */
  method Measure(scenes: seq<string>, completed: set<Job>, ok: nat -> bool, quick: nat -> bool)
    returns (log: seq<Run>, leases: seq<nat>)
    ensures |log| <= TRIES * |InitialJobs(scenes, completed)| && forall i :: 0 <= i < |log| ==> log[i].ok == ok(i)
    ensures forall job {:trigger Outcomes(log, job)} ::
              Finished(if job in completed then 0 else multiset(scenes)[job.scene], Outcomes(log, job))
    ensures Sum(leases) == |log| && forall k :: 0 <= k < |leases| ==> 1 <= leases[k] <= BATCH
  {
    var wanted := InitialJobs(scenes, completed);
    log, leases := Suite(wanted, ok, quick);
    forall job {:trigger Outcomes(log, job)}
      ensures Finished(if job in completed then 0 else multiset(scenes)[job.scene], Outcomes(log, job))
    {
      CopiesOfInitial(scenes, completed, job);
    }
  }
}
