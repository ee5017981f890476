/** Whole runs of the dispatcher: it never deadlocks, always terminates, delivers
    every job exactly once, and reacts to an interrupt within one launch per worker. */
module DispatchRuns {
  import opened TestJobs
  import opened DispatchProtocol
  import opened DispatchInvariant

  // ---------- safety in every reachable state ----------

  ghost predicate Reachable(c: Config, s: State) {
    exists actions :: Run(c, Init(c), actions, s)
  }

  lemma ReachableInv(c: Config, s: State)
    requires Reachable(c, s)
    ensures Inv(c, s)
  {
    var actions :| Run(c, Init(c), actions, s);
    InitInv(c);
    RunInv(c, Init(c), actions, s);
  }

  /** Each dispatched job is in exactly one place, and nothing else is anywhere. */
  lemma ExactlyOnePlace(c: Config, s: State, i: nat)
    requires Reachable(c, s)
    ensures Copies(s.input, All, i) + PoolCopies(s.workers, All, i) + Copies(s.output, All, i)
            + Copies(s.collected, All, i)
         == if i < JobsPut(c, s.main) then 1 else 0
  {
    ReachableInv(c, s);
    assert Places(s, All, i) == if i < JobsPut(c, s.main) then 1 else 0;
  }

  /** The command of a job is executed at most once, never for a job marked to be skipped. */
  lemma LaunchedAtMostOnce(c: Config, s: State, i: nat)
    requires Reachable(c, s)
    ensures s.launched[i] <= 1
    ensures i in s.launched ==> i < |c.specs| && !c.specs[i].isSkip
  {
    ReachableInv(c, s);
    assert s.launched[i] + Places(s, Unlaunched, i) == if i < JobsPut(c, s.main) then 1 else 0;
    if i < |c.specs| && c.specs[i].isSkip {
      SkippedQueue(s.output, i);
      SkippedQueue(s.collected, i);
      SkippedPool(c, s.threadExit, s.workers, i);
      assert Places(s, All, i) == if i < JobsPut(c, s.main) then 1 else 0;
    }
  }

  /** Copies marked to be skipped are never launched. */
  lemma {:induction false} SkippedQueue(q: seq<Job>, i: nat)
    requires forall k :: 0 <= k < |q| && q[k].origin == Dispatched(i) ==> q[k].isSkip
    ensures Copies(q, Unlaunched, i) == Copies(q, All, i)
  {
    if q != [] {
      assert q[0].origin == Dispatched(i) ==> q[0].isSkip;
      assert forall k :: 0 <= k < |q| - 1 ==> q[1..][k] == q[k+1];
      SkippedQueue(q[1..], i);
    }
  }

  lemma {:induction false} SkippedPool(c: Config, exit: bool, ws: seq<Worker>, i: nat)
    requires i < |c.specs| && c.specs[i].isSkip
    requires forall w :: 0 <= w < |ws| ==> WorkerOk(c, exit, ws[w])
    ensures PoolCopies(ws, Unlaunched, i) == PoolCopies(ws, All, i)
  {
    if ws != [] {
      assert WorkerOk(c, exit, ws[0]);
      SkippedPool(c, exit, ws[1..], i);
    }
  }

  /** Sentinels are conserved: those in the input queue and those taken by a worker
      (which has exited or is about to) are all the ones the main thread sent. */
  lemma SentinelsConserved(c: Config, s: State)
    requires Reachable(c, s)
    ensures BreaksIn(s.input) + Sentinels(s.workers) == BreaksPut(c, s.main)
  {
    ReachableInv(c, s);
    QueuedBreaks(c, s);
  }

  lemma QueuedBreaks(c: Config, s: State)
    requires MainInv(c, s) && FifoInv(c, s)
    ensures BreaksIn(s.input) == if s.taken < JobsPut(c, s.main) then BreaksPut(c, s.main) else |s.input|
  {
    var d := JobsPut(c, s.main);
    if s.taken < d {
      assert s.input == s.input[..d - s.taken] + s.input[d - s.taken..];
      BreaksAppend(s.input[..d - s.taken], s.input[d - s.taken..]);
      NoBreaks(s.input[..d - s.taken]);
      OnlyBreaks(s.input[d - s.taken..]);
    } else {
      OnlyBreaks(s.input);
    }
  }

  function BreaksIn(q: seq<Job>): nat {
    if q == [] then 0 else (if q[0] == BREAK_JOB then 1 else 0) + BreaksIn(q[1..])
  }

  lemma {:induction false} BreaksAppend(p: seq<Job>, q: seq<Job>)
    ensures BreaksIn(p + q) == BreaksIn(p) + BreaksIn(q)
  {
    if p == [] {
      assert p + q == q;
    } else {
      BreaksAppend(p[1..], q);
      assert (p + q)[0] == p[0] && (p + q)[1..] == p[1..] + q;
    }
  }

  lemma {:induction false} NoBreaks(q: seq<Job>)
    requires forall k :: 0 <= k < |q| ==> q[k] != BREAK_JOB
    ensures BreaksIn(q) == 0
  {
    if q != [] {
      assert q[0] != BREAK_JOB;
      NoBreaks(q[1..]);
    }
  }

  lemma {:induction false} OnlyBreaks(q: seq<Job>)
    requires forall k :: 0 <= k < |q| ==> q[k] == BREAK_JOB
    ensures BreaksIn(q) == |q|
  {
    if q != [] {
      assert q[0] == BREAK_JOB;
      OnlyBreaks(q[1..]);
    }
  }

  /** No worker exits while a real job is still in the input queue. */
  lemma {:induction false} NoExitBeforeDrained(c: Config, s: State, w: nat)
    requires Reachable(c, s)
    requires w < |s.workers| && s.workers[w].Exited?
    ensures forall k :: 0 <= k < |s.input| ==> s.input[k] == BREAK_JOB
  {
    ReachableInv(c, s);
    if s.taken <= |c.specs| {
      SentinelAt(s.workers, w);
      assert false;
    }
  }

  lemma {:induction false} SentinelAt(ws: seq<Worker>, w: nat)
    requires w < |ws| && SentinelOf(ws[w]) == 1
    ensures Sentinels(ws) >= 1
  {
    if w > 0 {
      SentinelAt(ws[1..], w - 1);
    }
  }

  /** No sentinel ever enters the output queue: a job the collector sees with its
      break flag set is a real job, handed back because of an interrupt. */
  lemma OutputHoldsRealJobs(c: Config, s: State, job: Job)
    requires Reachable(c, s)
    requires job in s.output || job in s.collected
    ensures job.origin.Dispatched? && job.origin.index < |c.specs|
    ensures job.isBreak ==> s.threadExit && job == Interrupted(c, job.origin.index)
    ensures !job.isBreak ==> job == ResultOf(c, job.origin.index)
  {
    ReachableInv(c, s);
    assert IsReturned(c, s.threadExit, job);
  }

  // ---------- termination ----------

  function WorkerRank(w: Worker): nat {
    match w
    case AtGet => 0
    case Holding(_) => 5
    case PastCheck(_) => 4
    case Running(_) => 3
    case Returning(_) => 2
    case Exited => 0
  }

  function PoolRank(ws: seq<Worker>): nat {
    if ws == [] then 0 else WorkerRank(ws[0]) + PoolRank(ws[1..])
  }

  function MainRank(c: Config, m: Main): int {
    match m
    case Dispatching(k) => 7 * (|c.specs| - k) + 8 * c.workers + 4
    case Sending(k) => 7 * (c.workers - k) + c.workers + 3
    case Collecting(_) => c.workers + 2
    case Joining(k) => c.workers - k + 1
    case Done => 0
  }

  /** An upper bound on the number of steps still to come. */
  function Measure(c: Config, s: State): int {
    MainRank(c, s.main) + 6 * |s.input| + PoolRank(s.workers) + |s.output| + (if s.threadExit then 0 else 1)
  }

  lemma MeasureBounds(c: Config, s: State)
    requires MainInv(c, s)
    ensures Measure(c, s) >= 0
  {
  }

  lemma {:induction false} RankUpdate(ws: seq<Worker>, w: nat, x: Worker)
    requires w < |ws|
    ensures PoolRank(ws[w := x]) + WorkerRank(ws[w]) == PoolRank(ws) + WorkerRank(x)
  {
    if w == 0 {
      assert ws[w := x][1..] == ws[1..];
    } else {
      assert ws[w := x][1..] == ws[1..][w-1 := x];
      RankUpdate(ws[1..], w - 1, x);
    }
  }

  /** Every step, the interrupt included, makes the measure smaller. */
  lemma StepDecreases(c: Config, s: State, a: Action)
    requires MainInv(c, s) && Enabled(c, s, a)
    ensures Measure(c, Next(c, s, a)) < Measure(c, s)
  {
    StepPool(c, s, a);
    if IsWorkerAction(a) {
      RankUpdate(s.workers, a.w, Next(c, s, a).workers[a.w]);
    }
  }

  lemma {:induction false} RunDecreases(c: Config, s: State, actions: seq<Action>, t: State)
    requires MainInv(c, s) && Run(c, s, actions, t)
    ensures |actions| + Measure(c, t) <= Measure(c, s)
    decreases |actions|
  {
    if actions != [] {
      StepMain(c, s, actions[0]);
      StepDecreases(c, s, actions[0]);
      RunDecreases(c, Next(c, s, actions[0]), actions[1..], t);
    }
  }

  /** No schedule runs forever: the length of a run is bounded by the number of
      jobs and workers. */
  lemma RunsAreBounded(c: Config, actions: seq<Action>, t: State)
    requires Run(c, Init(c), actions, t)
    ensures |actions| <= 7 * |c.specs| + 8 * c.workers + 5
  {
    InitInv(c);
    RunInv(c, Init(c), actions, t);
    RunDecreases(c, Init(c), actions, t);
    MeasureBounds(c, t);
    IdleRank(Init(c).workers);
  }

  lemma {:induction false} IdleRank(ws: seq<Worker>)
    requires forall w :: 0 <= w < |ws| ==> ws[w].AtGet?
    ensures PoolRank(ws) == 0
  {
    if ws != [] {
      assert ws[0].AtGet?;
      IdleRank(ws[1..]);
    }
  }

  // ---------- absence of deadlock ----------

  /** The step of a worker that is neither waiting for a job nor finished. */
  function OwnStep(s: State, w: nat): Action
    requires w < |s.workers|
  {
    match s.workers[w]
    case Holding(job) => if job.isBreak then SeeBreak(w) else if s.threadExit then SeeExit(w) else PassCheck(w)
    case PastCheck(job) => if job.isSkip then Skip(w) else Launch(w)
    case Running(_) => Finish(w)
    case _ => PutResult(w)
  }

  predicate AtRest(w: Worker) {
    w.AtGet? || w.Exited?
  }

  /** While a job is still missing, the input queue is not empty unless some worker or
      the output queue has it. */
  lemma MissingJobIsQueued(c: Config, s: State)
    requires Inv(c, s) && s.main.Collecting? && s.main.got < |c.specs|
    requires s.output == [] && forall w :: 0 <= w < |s.workers| ==> AtRest(s.workers[w])
    ensures s.input != []
  {
    if s.input == [] {
      forall i: nat
        ensures Copies(s.collected, All, i) == if i < |c.specs| then 1 else 0
      {
        PoolAtRest(s.workers, All, i);
        assert Places(s, All, i) == if i < |c.specs| then 1 else 0;
      }
      assert forall k :: 0 <= k < |s.collected| ==> IsReturned(c, s.threadExit, s.collected[k]);
      OneCopyEachLength(s.collected, |c.specs|);
    }
  }

  /** When every sentinel was sent, the input queue is empty only if each worker has one. */
  lemma EmptyMeansAllStopped(c: Config, s: State)
    requires Inv(c, s) && BreaksPut(c, s.main) == c.workers && JobsPut(c, s.main) == |c.specs|
    ensures s.input == [] <==> Sentinels(s.workers) == c.workers && s.taken >= |c.specs|
  {
  }

  /** Deadlock freedom: with at least one worker (or no job at all) some thread can
      always take a step, without waiting for an interrupt, until the run is done. */
  lemma Progress(c: Config, s: State) returns (a: Action)
    requires Inv(c, s) && !s.main.Done?
    requires c.workers >= 1 || |c.specs| == 0
    ensures Enabled(c, s, a) && !a.Sigint?
  {
    match s.main
    case Dispatching(k) => a := if k < |c.specs| then Dispatch else EndDispatch;
    case Sending(k) => a := if k < c.workers then SendBreak else EndSending;
    case Collecting(g) =>
      if g == |c.specs| {
        a := EndCollect;
      } else {
        a := CollectorProgress(c, s);
      }
    case Joining(k) =>
      if k == c.workers {
        a := EndJoin;
      } else if s.workers[k].Exited? {
        a := Join;
      } else if s.workers[k].AtGet? {
        EmptyMeansAllStopped(c, s);
        if s.input == [] {
          FullOfSentinels(s.workers, k);
        }
        a := Get(k);
      } else {
        a := OwnStep(s, k);
      }
  }

  lemma CollectorProgress(c: Config, s: State) returns (a: Action)
    requires Inv(c, s) && s.main.Collecting? && s.main.got < |c.specs| && c.workers >= 1
    ensures Enabled(c, s, a) && !a.Sigint?
  {
    if s.output != [] {
      a := Collect;
    } else if w :| 0 <= w < |s.workers| && !AtRest(s.workers[w]) {
      a := OwnStep(s, w);
    } else {
      MissingJobIsQueued(c, s);
      if w :| 0 <= w < |s.workers| && s.workers[w].AtGet? {
        a := Get(w);
      } else {
        forall w | 0 <= w < |s.workers|
          ensures SentinelOf(s.workers[w]) == 1
        {
          assert AtRest(s.workers[w]);
        }
        AllSentinels(s.workers);
        EmptyMeansAllStopped(c, s);
        assert false;
      }
    }
  }

  /** From every reachable state the threads can finish without another interrupt. */
  lemma {:induction false} CanFinish(c: Config, s: State) returns (actions: seq<Action>, t: State)
    requires Inv(c, s)
    requires c.workers >= 1 || |c.specs| == 0
    ensures Run(c, s, actions, t) && t.main.Done?
    ensures forall k :: 0 <= k < |actions| ==> !actions[k].Sigint?
    decreases Measure(c, s)
  {
    MeasureBounds(c, s);
    if s.main.Done? {
      actions, t := [], s;
    } else {
      var a := Progress(c, s);
      StepInv(c, s, a);
      StepDecreases(c, s, a);
      var rest;
      rest, t := CanFinish(c, Next(c, s, a));
      actions := [a] + rest;
    }
  }

  /** A state in which no thread can take a step is the final one. */
  lemma StuckMeansDone(c: Config, s: State)
    requires Reachable(c, s)
    requires c.workers >= 1 || |c.specs| == 0
    requires forall a :: Enabled(c, s, a) ==> a.Sigint?
    ensures s.main.Done?
  {
    ReachableInv(c, s);
    if !s.main.Done? {
      var a := Progress(c, s);
    }
  }

  lemma {:induction false} NothingCollected(c: Config, s: State, actions: seq<Action>, t: State)
    requires Run(c, s, actions, t)
    requires s.workers == [] && s.output == [] && s.collected == []
    ensures t.collected == []
    decreases |actions|
  {
    if actions != [] {
      StepPool(c, s, actions[0]);
      NothingCollected(c, Next(c, s, actions[0]), actions[1..], t);
    }
  }

  /** The run can complete exactly when there is a worker or nothing to do. */
  lemma CompletesIff(c: Config)
    ensures (exists t :: Reachable(c, t) && t.main.Done?) <==> c.workers >= 1 || |c.specs| == 0
  {
    InitInv(c);
    if c.workers >= 1 || |c.specs| == 0 {
      var actions, t := CanFinish(c, Init(c));
      assert Reachable(c, t);
    } else {
      forall t | Reachable(c, t)
        ensures !t.main.Done?
      {
        ReachableInv(c, t);
        var actions :| Run(c, Init(c), actions, t);
        NothingCollected(c, Init(c), actions, t);
      }
    }
  }

  // ---------- the final state ----------

  /** When the main thread is done, both queues are empty, every worker has exited and
      each job was collected exactly once. */
  lemma FinalState(c: Config, t: State)
    requires Inv(c, t) && t.main.Done?
    requires c.workers >= 1 || |c.specs| == 0
    ensures t.input == [] && t.output == []
    ensures forall w :: 0 <= w < |t.workers| ==> t.workers[w].Exited?
    ensures OneCopyEach(t.collected, |c.specs|)
  {
    AllSentinels(t.workers);
    var all := t.output + t.collected;
    forall k | 0 <= k < |all|
      ensures all[k].origin.Dispatched?
    {
      var job := if k < |t.output| then t.output[k] else t.collected[k - |t.output|];
      assert IsReturned(c, t.threadExit, job);
    }
    forall i: nat
      ensures Copies(all, All, i) == if i < |c.specs| then 1 else 0
    {
      PoolAtRest(t.workers, All, i);
      CopiesAppend(t.output, t.collected, All, i);
      assert Places(t, All, i) == if i < |c.specs| then 1 else 0;
    }
    OneCopyEachLength(all, |c.specs|);
    assert all == t.collected;
  }

  /** In a finished run job `i` was launched exactly when it comes back neither
      skipped nor interrupted. */
  lemma FinalLaunches(c: Config, t: State, k: nat)
    requires Inv(c, t) && t.main.Done?
    requires c.workers >= 1 || |c.specs| == 0
    requires k < |t.collected|
    ensures t.collected[k].origin.Dispatched?
    ensures t.launched[t.collected[k].origin.index]
         == if t.collected[k].isBreak || t.collected[k].isSkip then 0 else 1
  {
    FinalState(c, t);
    var i := t.collected[k].origin.index;
    PoolAtRest(t.workers, Unlaunched, i);
    CopiesRemove(t.collected, k, All, i);
    CopiesRemove(t.collected, k, Unlaunched, i);
    var rest := t.collected[..k] + t.collected[k+1..];
    assert Copies(t.collected, All, i) == if i < |c.specs| then 1 else 0;
    UnlaunchedAtMostAll(rest, i);
    assert t.launched[i] + Places(t, Unlaunched, i) == if i < |c.specs| then 1 else 0;
  }

  lemma {:induction false} UnlaunchedAtMostAll(q: seq<Job>, i: nat)
    ensures Copies(q, Unlaunched, i) <= Copies(q, All, i)
  {
    if q != [] {
      UnlaunchedAtMostAll(q[1..], i);
    }
  }

  /** Without an interrupt, every schedule collects the results of the sequential
      run, in some order. */
  lemma UninterruptedIsSequential(c: Config, t: State)
    requires Inv(c, t) && t.main.Done? && !t.threadExit
    requires c.workers >= 1 || |c.specs| == 0
    ensures multiset(t.collected) == multiset(SequentialResults(c))
  {
    FinalState(c, t);
    forall k | 0 <= k < |t.collected|
      ensures IsResult(c, t.collected[k])
    {
      assert IsReturned(c, t.threadExit, t.collected[k]);
    }
    PermutationOfResults(c, |c.specs|, t.collected);
    assert SequentialResults(c)[..|c.specs|] == SequentialResults(c);
  }

  // ---------- interrupts ----------

  /** The number of commands worker `w` launches in a run. */
  function LaunchesBy(actions: seq<Action>, w: nat): nat {
    if actions == [] then 0 else (if actions[0] == Launch(w) then 1 else 0) + LaunchesBy(actions[1..], w)
  }

  /** Once the exit flag is set it stays set, and a worker launches at most one more
      command: the one for which it had already passed the check. */
  lemma {:induction false} LaunchesAfterExit(c: Config, s: State, actions: seq<Action>, t: State, w: nat)
    requires Run(c, s, actions, t) && s.threadExit
    ensures t.threadExit
    ensures LaunchesBy(actions, w) <= if w < |s.workers| && s.workers[w].PastCheck? then 1 else 0
    decreases |actions|
  {
    if actions != [] {
      StepPool(c, s, actions[0]);
      LaunchesAfterExit(c, Next(c, s, actions[0]), actions[1..], t, w);
    }
  }

  /** Copies of job `i` in a queue that no interrupt has marked. */
  function Unmarked(q: seq<Job>, i: nat): nat {
    if q == [] then 0 else UnmarkedJob(q[0], i) + Unmarked(q[1..], i)
  }

  function UnmarkedJob(job: Job, i: nat): nat {
    if job.origin == Dispatched(i) && !job.isBreak then 1 else 0
  }

  /** Workers that are past the check of the exit flag with job `i`. */
  function PastCheckWith(ws: seq<Worker>, i: nat): nat {
    if ws == [] then 0 else WorkerPast(ws[0], i) + PastCheckWith(ws[1..], i)
  }

  function WorkerPast(w: Worker, i: nat): nat {
    match w
    case PastCheck(job) => UnmarkedJob(job, i)
    case Running(job) => UnmarkedJob(job, i)
    case Returning(job) => UnmarkedJob(job, i)
    case _ => 0
  }

  /** Whether job `i` got past the check, once: in a worker's hands or on its way back. */
  function Passed(s: State, i: nat): nat {
    PastCheckWith(s.workers, i) + Unmarked(s.output, i) + Unmarked(s.collected, i)
  }

  lemma {:induction false} UnmarkedSnoc(q: seq<Job>, job: Job, i: nat)
    ensures Unmarked(q + [job], i) == Unmarked(q, i) + UnmarkedJob(job, i)
  {
    if q == [] {
      assert q + [job] == [job] && [job][1..] == [];
    } else {
      assert (q + [job])[0] == q[0] && (q + [job])[1..] == q[1..] + [job];
      UnmarkedSnoc(q[1..], job, i);
    }
  }

  lemma {:induction false} PastUpdate(ws: seq<Worker>, w: nat, x: Worker, i: nat)
    requires w < |ws|
    ensures PastCheckWith(ws[w := x], i) + WorkerPast(ws[w], i) == PastCheckWith(ws, i) + WorkerPast(x, i)
  {
    if w == 0 {
      assert ws[w := x][1..] == ws[1..];
    } else {
      assert ws[w := x][1..] == ws[1..][w-1 := x];
      PastUpdate(ws[1..], w - 1, x, i);
    }
  }

  /** After an interrupt no further job gets past the check, and none that did is marked. */
  lemma StepKeepsPassed(c: Config, s: State, a: Action, i: nat)
    requires Inv(c, s) && s.threadExit && Enabled(c, s, a)
    ensures Passed(Next(c, s, a), i) == Passed(s, i)
  {
    var t := Next(c, s, a);
    if IsWorkerAction(a) {
      WorkerKeepsPassed(c, s, a, i);
    } else if a.Collect? {
      UnmarkedSnoc(s.collected, s.output[0], i);
    }
  }

  lemma WorkerKeepsPassed(c: Config, s: State, a: Action, i: nat)
    requires Inv(c, s) && s.threadExit && Enabled(c, s, a) && IsWorkerAction(a)
    ensures Passed(Next(c, s, a), i) == Passed(s, i)
  {
    hide FifoInv, ConservationInv, LaunchInv, SentinelInv, PastCheckWith, Unmarked, IsResult;
    var t := Next(c, s, a);
    StepPool(c, s, a);
    PastUpdate(s.workers, a.w, t.workers[a.w], i);
    assert WorkerOk(c, s.threadExit, s.workers[a.w]);
    if a.PutResult? {
      UnmarkedSnoc(s.output, s.workers[a.w].job, i);
    }
  }

  lemma {:induction false} RunKeepsPassed(c: Config, s: State, actions: seq<Action>, t: State, i: nat)
    requires Inv(c, s) && s.threadExit && Run(c, s, actions, t)
    ensures Passed(t, i) == Passed(s, i)
    decreases |actions|
  {
    hide Inv, Passed, Enabled, Next;
    if actions != [] {
      StepKeepsPassed(c, s, actions[0], i);
      StepInv(c, s, actions[0]);
      ExitStays(c, s, actions[0]);
      RunKeepsPassed(c, Next(c, s, actions[0]), actions[1..], t, i);
    }
  }

  lemma ExitStays(c: Config, s: State, a: Action)
    requires Enabled(c, s, a) && s.threadExit
    ensures Next(c, s, a).threadExit
  {
  }

  lemma {:induction false} UnmarkedAt(q: seq<Job>, k: nat, i: nat)
    requires k < |q| && Copies(q, All, i) <= 1 && q[k].origin == Dispatched(i)
    ensures Unmarked(q, i) == if q[k].isBreak then 0 else 1
  {
    if k > 0 {
      UnmarkedAt(q[1..], k - 1, i);
      CopiesPositive(q[1..], k - 1, i);
    } else {
      NoneUnmarked(q[1..], i);
    }
  }

  lemma {:induction false} CopiesPositive(q: seq<Job>, k: nat, i: nat)
    requires k < |q| && q[k].origin == Dispatched(i)
    ensures Copies(q, All, i) >= 1
  {
    if k > 0 {
      CopiesPositive(q[1..], k - 1, i);
    }
  }

  lemma {:induction false} NoneUnmarked(q: seq<Job>, i: nat)
    requires Copies(q, All, i) == 0
    ensures Unmarked(q, i) == 0
  {
    if q != [] {
      NoneUnmarked(q[1..], i);
    }
  }

  lemma {:induction false} NonePast(ws: seq<Worker>, i: nat)
    requires forall w :: 0 <= w < |ws| ==> ws[w].Exited?
    ensures PastCheckWith(ws, i) == 0
  {
    if ws != [] {
      assert ws[0].Exited?;
      NonePast(ws[1..], i);
    }
  }

  /** In a run that ends after an interrupt, a job comes back undisturbed exactly if it had got
      past the check before; every other one, to be skipped or not, comes back marked. */
  lemma InterruptDecides(c: Config, s: State, actions: seq<Action>, t: State, k: nat)
    requires Reachable(c, s) && s.threadExit && Run(c, s, actions, t) && t.main.Done?
    requires c.workers >= 1 || |c.specs| == 0
    requires k < |t.collected|
    ensures t.collected[k].origin.Dispatched?
    ensures Passed(s, t.collected[k].origin.index) == if t.collected[k].isBreak then 0 else 1
  {
    ReachableInv(c, s);
    RunInv(c, s, actions, t);
    FinalState(c, t);
    hide Inv;
    var i := t.collected[k].origin.index;
    RunKeepsPassed(c, s, actions, t, i);
    NonePast(t.workers, i);
    assert Copies(t.collected, All, i) == if i < |c.specs| then 1 else 0;
    UnmarkedAt(t.collected, k, i);
  }

  /** The dispatcher as a whole: every complete schedule, interrupted or not, is short,
      delivers each job exactly once, and leaves nothing behind. */
  lemma CompleteRun(c: Config, actions: seq<Action>, t: State)
    requires Run(c, Init(c), actions, t) && t.main.Done?
    ensures |actions| <= 7 * |c.specs| + 8 * c.workers + 5
    ensures t.input == [] && t.output == []
    ensures forall w :: 0 <= w < |t.workers| ==> t.workers[w].Exited?
    ensures OneCopyEach(t.collected, |c.specs|)
    ensures !t.threadExit ==> multiset(t.collected) == multiset(SequentialResults(c))
  {
    assert Reachable(c, t);
    ReachableInv(c, t);
    CompletesIff(c);
    RunsAreBounded(c, actions, t);
    FinalState(c, t);
    if !t.threadExit {
      UninterruptedIsSequential(c, t);
    }
  }
}
