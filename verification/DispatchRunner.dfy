/** The threads as they update the shared queues in place, and `run_tests` under an
    arbitrary scheduler. */
module DispatchRunner {
  import opened TestJobs
  import opened DispatchProtocol
  import opened DispatchInvariant
  import opened DispatchRuns
  import opened TestSummary

  /** What the scheduler picks: a thread to advance, or the delivery of an interrupt. */
  datatype Choice = MainThread | WorkerThread(w: nat) | Signal

  /** The next step of a chosen thread, whether or not it can be taken now. */
  function StepOf(c: Config, s: State, ch: Choice): Action {
    match ch
    case MainThread => MainStepOf(c, s)
    case WorkerThread(w) => if w < |s.workers| && !s.workers[w].AtGet? then OwnStep(s, w) else Get(w)
    case Signal => Sigint
  }

  function MainStepOf(c: Config, s: State): Action {
    match s.main
    case Dispatching(k) => if k < |c.specs| then Dispatch else EndDispatch
    case Sending(k) => if k < c.workers then SendBreak else EndSending
    case Collecting(k) => if k < |c.specs| then Collect else EndCollect
    case Joining(k) => if k < |s.workers| then Join else EndJoin
    case Done => EndJoin
  }

  predicate Ready(c: Config, s: State, ch: Choice) {
    Enabled(c, s, StepOf(c, s, ch))
  }

  /** Each thread is sequential: an enabled action is the next step of its thread. */
  lemma ActionsAreThreadSteps(c: Config, s: State, a: Action)
    requires Enabled(c, s, a)
    ensures exists ch :: Ready(c, s, ch) && StepOf(c, s, ch) == a
  {
    var ch := if IsWorkerAction(a) then WorkerThread(a.w) else if a.Sigint? then Signal else MainThread;
    assert StepOf(c, s, ch) == a;
  }

  class TestRun {
    const config: Config
    const tally: Tally
    var main: Main
    var input: seq<Job>
    var output: seq<Job>
    var workers: seq<Worker>
    var threadExit: bool
    ghost var taken: nat
    ghost var launched: multiset<nat>

    ghost function Now(): State
      reads this, tally
    {
      State(main, input, output, workers, threadExit, taken, tally.seen, launched)
    }

    /** The counters and name lists agree with the jobs collected so far. */
    ghost predicate Valid()
      reads this, tally
    {
      tally.Valid()
    }

    constructor (c: Config)
      ensures Valid() && config == c && Now() == Init(c)
      ensures fresh(tally)
    {
      config := c;
      tally := new Tally();
      main := Dispatching(0);
      input, output := [], [];
      workers := seq(c.workers, _ => AtGet);
      threadExit := false;
      taken, launched := 0, multiset{};
    }

    /** Whether a thread can advance; this does not depend on the histories. */
    predicate CanStep(ch: Choice): (r: bool)
      reads this, tally
      ensures r == Ready(config, Now(), ch)
    {
      Ready(config, State(main, input, output, workers, threadExit, 0, [], multiset{}), ch)
    }

    /** The main thread: dispatch, send one sentinel per worker, collect, join. */
    method MainStep()
      requires Valid() && Ready(config, Now(), MainThread)
      modifies this, tally
      ensures Valid()
      ensures Now() == Next(config, old(Now()), StepOf(config, old(Now()), MainThread))
    {
      match main
      case Dispatching(k) =>
        if k < |config.specs| {
          input := input + [FreshJob(config, k)];
          main := Dispatching(k + 1);
        } else {
          main := Sending(0);
        }
      case Sending(k) =>
        if k < config.workers {
          input := input + [BREAK_JOB];
          main := Sending(k + 1);
        } else {
          main := Collecting(0);
        }
      case Collecting(k) =>
        if k < |config.specs| {
          var job := output[0];
          output := output[1..];
          var printed := tally.Record(job);
          main := Collecting(k + 1);
        } else {
          main := Joining(0);
        }
      case Joining(k) =>
        main := if k < |workers| then Joining(k + 1) else Done;
      case Done =>
    }

    /** One step of the loop of worker `w`. */
    method WorkerStep(w: nat)
      requires Valid() && Ready(config, Now(), WorkerThread(w))
      modifies this
      ensures Valid()
      ensures Now() == Next(config, old(Now()), StepOf(config, old(Now()), WorkerThread(w)))
    {
      match workers[w]
      case AtGet =>
        workers := workers[w := Holding(input[0])];
        input := input[1..];
        taken := taken + 1;
      case Holding(job) =>
        if job.isBreak {
          workers := workers[w := Exited];
        } else if threadExit {
          workers := workers[w := Returning(job.(isBreak := true))];
        } else {
          workers := workers[w := PastCheck(job)];
        }
      case PastCheck(job) =>
        if job.isSkip {
          workers := workers[w := Returning(job)];
        } else {
          workers := workers[w := Running(job)];
          launched := launched + Number(job);
        }
      case Running(job) =>
        workers := workers[w := Returning(job.(returncode := ReturnCode(config, job)))];
      case Returning(job) =>
        output := output + [job];
        workers := workers[w := AtGet];
      case Exited =>
    }

    /** The signal handler. */
    method Interrupt()
      requires Valid()
      modifies this`threadExit
      ensures Valid() && threadExit
      ensures !old(threadExit) ==> Now() == Next(config, old(Now()), Sigint)
    {
      threadExit := true;
    }
  }

  /** What the exit code says once every job is collected, interrupted or not: all collected
      jobs passed or were skipped exactly when all tests are good and none was handed back. */
  lemma CodeMeaning(c: Config, t: State)
    requires Inv(c, t) && t.main.Done? && c.workers >= 1
    ensures (forall k :: 0 <= k < |t.collected| ==> StatusOf(t.collected[k]) in {Pass, Skipped})
       <==> AllGood(c) && forall k :: 0 <= k < |t.collected| ==> !t.collected[k].isBreak
  {
    if forall k :: 0 <= k < |t.collected| ==> StatusOf(t.collected[k]) in {Pass, Skipped} {
      GoodVerdicts(c, t);
      forall k | 0 <= k < |t.collected|
        ensures !t.collected[k].isBreak
      {
        assert StatusOf(t.collected[k]) in {Pass, Skipped};
      }
    }
    if AllGood(c) && forall k :: 0 <= k < |t.collected| ==> !t.collected[k].isBreak {
      forall k | 0 <= k < |t.collected|
        ensures StatusOf(t.collected[k]) in {Pass, Skipped}
      {
        assert IsReturned(c, t.threadExit, t.collected[k]) && !t.collected[k].isBreak;
      }
    }
  }

  lemma GoodVerdicts(c: Config, t: State)
    requires Inv(c, t) && t.main.Done? && c.workers >= 1
    requires forall k :: 0 <= k < |t.collected| ==> StatusOf(t.collected[k]) in {Pass, Skipped}
    ensures AllGood(c)
  {
    FinalState(c, t);
    forall i | 0 <= i < |c.specs|
      ensures c.specs[i].isSkip || c.specs[i].outcome == 0
    {
      assert Copies(t.collected, All, i) == 1;
      var k := CopiesPosition(t.collected, All, i);
      assert IsReturned(c, t.threadExit, t.collected[k]);
      assert StatusOf(t.collected[k]) in {Pass, Skipped};
    }
  }

  /** Every test is to be skipped or its process succeeds. */
  ghost predicate AllGood(c: Config) {
    forall i :: 0 <= i < |c.specs| ==> c.specs[i].isSkip || c.specs[i].outcome == 0
  }

  /** Two collections give the same counts and, up to order, the same name lists. */
  ghost predicate SameSummary(a: seq<Job>, b: seq<Job>) {
    forall st :: Count(a, st) == Count(b, st) && multiset(Labels(a, st)) == multiset(Labels(b, st))
  }

  lemma SummaryWithoutInterrupt(c: Config, t: State)
    requires Inv(c, t) && t.main.Done? && c.workers >= 1 && !t.threadExit
    ensures SameSummary(t.collected, SequentialResults(c))
  {
    UninterruptedIsSequential(c, t);
    forall st
      ensures Count(t.collected, st) == Count(SequentialResults(c), st)
      ensures multiset(Labels(t.collected, st)) == multiset(Labels(SequentialResults(c), st))
    {
      OrderIrrelevant(t.collected, SequentialResults(c), st);
    }
  }

  // ---------- the summary, read off the tests ----------

  /** The tests below number `n` that get a verdict, and those listed under it with a text. */
  ghost function Given(c: Config, n: nat, st: Status): set<nat>
    requires n <= |c.specs|
  {
    set i: nat | i < n && StatusOf(ResultOf(c, i)) == st
  }

  ghost function GivenText(c: Config, n: nat, st: Status, text: string): set<nat>
    requires n <= |c.specs|
  {
    set i: nat | i < n && StatusOf(ResultOf(c, i)) == st && Label(ResultOf(c, i)) == text
  }

  lemma AddNumber(a: set<nat>, b: set<nat>, x: nat, hit: bool)
    requires x !in a && forall i: nat :: i in b <==> i in a || (hit && i == x)
    ensures |b| == |a| + if hit then 1 else 0
  {
    assert b == if hit then a + {x} else a;
  }

  lemma OneMoreGiven(c: Config, n: nat, st: Status, text: string)
    requires n < |c.specs|
    ensures |Given(c, n + 1, st)| == |Given(c, n, st)| + if StatusOf(ResultOf(c, n)) == st then 1 else 0
    ensures |GivenText(c, n + 1, st, text)|
         == |GivenText(c, n, st, text)|
            + if StatusOf(ResultOf(c, n)) == st && Label(ResultOf(c, n)) == text then 1 else 0
  {
    hide StatusOf, Label, ResultOf;
    var hit := StatusOf(ResultOf(c, n)) == st;
    AddNumber(Given(c, n, st), Given(c, n + 1, st), n, hit);
    AddNumber(GivenText(c, n, st, text), GivenText(c, n + 1, st, text), n, hit && Label(ResultOf(c, n)) == text);
  }

  lemma {:induction false} CountGiven(c: Config, n: nat, st: Status, text: string)
    requires n <= |c.specs|
    ensures Count(SequentialResults(c)[..n], st) == |Given(c, n, st)|
    ensures Listed(SequentialResults(c)[..n], st, text) == |GivenText(c, n, st, text)|
  {
    hide StatusOf, Label, ResultOf, Labels, Given, GivenText, SequentialResults;
    var r := SequentialResults(c);
    if n == 0 {
      NothingGiven(c, st, text);
      NothingListed(st, text);
      assert r[..0] == [];
    } else {
      CountGiven(c, n - 1, st, text);
      OneMoreGiven(c, n - 1, st, text);
      assert r[..n] == r[..n-1] + [r[n-1]];
      LabelsSnoc(r[..n-1], r[n-1], st);
    }
  }

  lemma NothingListed(st: Status, text: string)
    ensures Count([], st) == 0 && Listed([], st, text) == 0
  {
  }

  lemma NothingGiven(c: Config, st: Status, text: string)
    ensures |Given(c, 0, st)| == 0 && |GivenText(c, 0, st, text)| == 0
  {
    hide StatusOf, Label, ResultOf;
    assert Given(c, 0, st) == {} && GivenText(c, 0, st, text) == {};
  }

  /** A summary that agrees with the sequential run counts the tests with the verdict. */
  lemma SeenCount(c: Config, seen: seq<Job>, st: Status, given: set<nat>)
    requires SameSummary(seen, SequentialResults(c))
    requires forall i: nat :: i in given <==> i < |c.specs| && StatusOf(ResultOf(c, i)) == st
    ensures Count(seen, st) == |given|
  {
    hide Count, StatusOf, ResultOf;
    CountGiven(c, |c.specs|, st, "");
    assert SequentialResults(c)[..|c.specs|] == SequentialResults(c);
    assert given == Given(c, |c.specs|, st);
  }

  lemma SeenNames(c: Config, seen: seq<Job>, st: Status, text: string, given: set<nat>)
    requires SameSummary(seen, SequentialResults(c))
    requires forall i: nat ::
      i in given <==> i < |c.specs| && StatusOf(ResultOf(c, i)) == st && Label(ResultOf(c, i)) == text
    ensures multiset(Labels(seen, st))[text] == |given|
  {
    hide Labels, StatusOf, ResultOf, Label;
    CountGiven(c, |c.specs|, st, text);
    assert SequentialResults(c)[..|c.specs|] == SequentialResults(c);
    assert given == GivenText(c, |c.specs|, st, text);
    assert multiset(Labels(seen, st)) == multiset(Labels(SequentialResults(c), st));
  }

  /** The verdict on a test run undisturbed, and its text. */
  lemma ResultVerdict(c: Config, i: nat)
    requires i < |c.specs|
    ensures
      var s, r := c.specs[i], ResultOf(c, i);
      && (StatusOf(r) == Skipped <==> s.isSkip)
      && (StatusOf(r) == Pass <==> !s.isSkip && s.outcome == 0)
      && (StatusOf(r) == Fail <==> !s.isSkip && s.outcome == 1)
      && (StatusOf(r) == Valgrind <==> !s.isSkip && s.outcome == 2)
      && (StatusOf(r) == Crash <==> !s.isSkip && s.outcome !in {0, 1, 2})
      && Label(r) == if s.isSkip then s.name + " (" + s.skipReason + ")" else s.name
  {
  }

  /** The counts of a summary that agrees with the sequential run. */
  lemma ReportedCounts(c: Config, seen: seq<Job>)
    requires SameSummary(seen, SequentialResults(c))
    ensures Count(seen, Pass) == |set i: nat | i < |c.specs| && !c.specs[i].isSkip && c.specs[i].outcome == 0|
    ensures Count(seen, Fail) == |set i: nat | i < |c.specs| && !c.specs[i].isSkip && c.specs[i].outcome == 1|
    ensures Count(seen, Valgrind) == |set i: nat | i < |c.specs| && !c.specs[i].isSkip && c.specs[i].outcome == 2|
    ensures Count(seen, Crash)
         == |set i: nat | i < |c.specs| && !c.specs[i].isSkip && c.specs[i].outcome !in {0, 1, 2}|
    ensures Count(seen, Skipped) == |set i: nat | i < |c.specs| && c.specs[i].isSkip|
  {
    hide SameSummary, Count, StatusOf, ResultOf;
    forall i: nat | i < |c.specs| {
      ResultVerdict(c, i);
    }
    var n := |c.specs|;
    SeenCount(c, seen, Pass, set i: nat | i < n && !c.specs[i].isSkip && c.specs[i].outcome == 0);
    SeenCount(c, seen, Fail, set i: nat | i < n && !c.specs[i].isSkip && c.specs[i].outcome == 1);
    SeenCount(c, seen, Valgrind, set i: nat | i < n && !c.specs[i].isSkip && c.specs[i].outcome == 2);
    SeenCount(c, seen, Crash, set i: nat | i < n && !c.specs[i].isSkip && c.specs[i].outcome !in {0, 1, 2});
    SeenCount(c, seen, Skipped, set i: nat | i < n && c.specs[i].isSkip);
  }

  /** How often a text is listed in such a summary. */
  lemma ReportedNames(c: Config, seen: seq<Job>, text: string)
    requires SameSummary(seen, SequentialResults(c))
    ensures multiset(Labels(seen, Fail))[text]
         == |set i: nat | i < |c.specs| && !c.specs[i].isSkip && c.specs[i].outcome == 1 && c.specs[i].name == text|
    ensures multiset(Labels(seen, Valgrind))[text]
         == |set i: nat | i < |c.specs| && !c.specs[i].isSkip && c.specs[i].outcome == 2 && c.specs[i].name == text|
    ensures multiset(Labels(seen, Crash))[text]
         == |set i: nat | i < |c.specs| && !c.specs[i].isSkip && c.specs[i].outcome !in {0, 1, 2}
                          && c.specs[i].name == text|
    ensures multiset(Labels(seen, Skipped))[text]
         == |set i: nat | i < |c.specs| && c.specs[i].isSkip
                          && c.specs[i].name + " (" + c.specs[i].skipReason + ")" == text|
  {
    hide SameSummary, Labels, StatusOf, ResultOf, Label;
    forall i: nat | i < |c.specs| {
      ResultVerdict(c, i);
    }
    var n := |c.specs|;
    SeenNames(c, seen, Fail, text,
              set i: nat | i < n && !c.specs[i].isSkip && c.specs[i].outcome == 1 && c.specs[i].name == text);
    SeenNames(c, seen, Valgrind, text,
              set i: nat | i < n && !c.specs[i].isSkip && c.specs[i].outcome == 2 && c.specs[i].name == text);
    SeenNames(c, seen, Crash, text,
              set i: nat | i < n && !c.specs[i].isSkip && c.specs[i].outcome !in {0, 1, 2} && c.specs[i].name == text);
    SeenNames(c, seen, Skipped, text,
              set i: nat | i < n && c.specs[i].isSkip && c.specs[i].name + " (" + c.specs[i].skipReason + ")" == text);
  }

  /** What a collected job has of its test. */
  lemma ReturnedFields(c: Config, interrupted: bool, job: Job)
    requires IsReturned(c, interrupted, job)
    ensures job.origin.Dispatched? && job.origin.index < |c.specs|
    ensures
      var s := c.specs[job.origin.index];
      && job.name == s.name && job.kind == s.kind && job.isSkip == s.isSkip && job.skipReason == s.skipReason
      && job.returncode == if job.isBreak || s.isSkip then 0 else s.outcome
    ensures job.isBreak ==> interrupted
  {
  }

  /** A state that is not final has a thread to choose. */
  lemma SomeoneReady(c: Config, s: State)
    requires Inv(c, s) && !s.main.Done? && c.workers >= 1
    ensures exists ch :: Ready(c, s, ch)
  {
    var a := Progress(c, s);
    ActionsAreThreadSteps(c, s, a);
  }

  lemma ChoiceStep(c: Config, s: State, ch: Choice)
    requires Inv(c, s) && Ready(c, s, ch)
    ensures Inv(c, Next(c, s, StepOf(c, s, ch)))
    ensures 0 <= Measure(c, Next(c, s, StepOf(c, s, ch))) < Measure(c, s)
  {
    StepInv(c, s, StepOf(c, s, ch));
    StepDecreases(c, s, StepOf(c, s, ch));
    MeasureBounds(c, Next(c, s, StepOf(c, s, ch)));
  }

  /** The scheduler: any thread that can advance may be next, or an interrupt. */
  method ScheduleOne(run: TestRun) returns (ghost chosen: Choice)
    requires run.Valid() && Inv(run.config, run.Now()) && !run.main.Done? && run.config.workers >= 1
    modifies run, run.tally
    ensures run.Valid()
    ensures Ready(run.config, old(run.Now()), chosen)
    ensures run.Now() == Next(run.config, old(run.Now()), StepOf(run.config, old(run.Now()), chosen))
  {
    hide Inv, Next, OwnStep, MainStepOf;
    SomeoneReady(run.config, run.Now());
    ghost var ready :| Ready(run.config, run.Now(), ready);
    assert run.CanStep(ready);
    var ch: Choice :| run.CanStep(ch);
    assert run.CanStep(ch);
    chosen := ch;
    match ch
    case MainThread => run.MainStep();
    case WorkerThread(w) => run.WorkerStep(w);
    case Signal => run.Interrupt();
  }

  /** The whole of `run_tests` under an arbitrary scheduler that may deliver an interrupt
      at any moment. It terminates; every job is collected exactly once, with the result of
      its test or, after an interrupt, marked as handed back; the exit code is 0 exactly when
      every test is good and none was handed back. Without an interrupt the counters and the
      lists of names are those of the tests by their return codes, in some order. */
  method RunTests(c: Config) returns (code: int, interrupted: bool, tally: Tally)
    requires c.workers >= 1
    ensures fresh(tally) && tally.Valid() && OneCopyEach(tally.seen, |c.specs|)
    ensures forall k :: 0 <= k < |tally.seen| ==> IsReturned(c, interrupted, tally.seen[k])
    ensures forall k :: 0 <= k < |tally.seen| ==>
      && tally.seen[k].origin.Dispatched? && tally.seen[k].origin.index < |c.specs|
      && var (job, s) := (tally.seen[k], c.specs[tally.seen[k].origin.index]);
         && job.name == s.name && job.kind == s.kind && job.isSkip == s.isSkip && job.skipReason == s.skipReason
         && job.returncode == (if job.isBreak || s.isSkip then 0 else s.outcome) && (job.isBreak ==> interrupted)
    ensures code in {0, 1}
    ensures code == 0 <==> AllGood(c) && forall k :: 0 <= k < |tally.seen| ==> !tally.seen[k].isBreak
    ensures !interrupted ==> SameSummary(tally.seen, SequentialResults(c))
    ensures !interrupted ==>
      && tally.passed == |set i: nat | i < |c.specs| && !c.specs[i].isSkip && c.specs[i].outcome == 0|
      && tally.failed == |set i: nat | i < |c.specs| && !c.specs[i].isSkip && c.specs[i].outcome == 1|
      && tally.valgrind == |set i: nat | i < |c.specs| && !c.specs[i].isSkip && c.specs[i].outcome == 2|
      && tally.crashed == |set i: nat | i < |c.specs| && !c.specs[i].isSkip && c.specs[i].outcome !in {0, 1, 2}|
      && tally.skipped == |set i: nat | i < |c.specs| && c.specs[i].isSkip|
    ensures !interrupted ==> forall text ::
      && multiset(tally.failedNames)[text]
         == |set i: nat | i < |c.specs| && !c.specs[i].isSkip && c.specs[i].outcome == 1 && c.specs[i].name == text|
      && multiset(tally.valgrindNames)[text]
         == |set i: nat | i < |c.specs| && !c.specs[i].isSkip && c.specs[i].outcome == 2 && c.specs[i].name == text|
      && multiset(tally.crashedNames)[text]
         == |set i: nat | i < |c.specs| && !c.specs[i].isSkip && c.specs[i].outcome !in {0, 1, 2}
                          && c.specs[i].name == text|
      && multiset(tally.skippedNames)[text]
         == |set i: nat | i < |c.specs| && c.specs[i].isSkip
                          && c.specs[i].name + " (" + c.specs[i].skipReason + ")" == text|
  {
    var run := new TestRun(c);
    InitInv(c);
    while !run.main.Done?
      invariant run.Valid() && run.config == c && fresh(run) && fresh(run.tally)
      invariant Inv(c, run.Now())
      decreases Measure(c, run.Now())
    {
      label L:
      ghost var ch := ScheduleOne(run);
      ChoiceStep(c, old@L(run.Now()), ch);
    }
    tally := run.tally;
    interrupted := run.threadExit;
    ghost var last := run.Now();
    FinalState(c, last);
    OneCopyEachLength(tally.seen, |c.specs|);
    code := tally.ExitCode(|c.specs|);
    CodeMeaning(c, last);
    forall k | 0 <= k < |tally.seen|
      ensures IsReturned(c, interrupted, tally.seen[k])
    {
      ReturnedFields(c, interrupted, tally.seen[k]);
    }
    if !interrupted {
      SummaryWithoutInterrupt(c, last);
      ReportedCounts(c, tally.seen);
      forall text {
        ReportedNames(c, tally.seen, text);
      }
    }
  }
}
