/** What every step of the dispatcher keeps: FIFO order of the input queue,
    conservation of jobs and of sentinels, and the shape of every job in flight. */
module DispatchInvariant {
  import opened TestJobs
  import opened DispatchProtocol

  // ---------- how far the main thread is ----------

  /** The number of jobs the main thread has put into the input queue. */
  function JobsPut(c: Config, m: Main): nat {
    if m.Dispatching? then m.next else |c.specs|
  }

  /** The number of sentinels the main thread has put into the input queue. */
  function BreaksPut(c: Config, m: Main): nat {
    match m
    case Dispatching(_) => 0
    case Sending(k) => k
    case _ => c.workers
  }

  /** The number of jobs the main thread has collected. */
  function Got(c: Config, m: Main): nat {
    match m
    case Dispatching(_) => 0
    case Sending(_) => 0
    case Collecting(g) => g
    case _ => |c.specs|
  }

  /** Everything ever put into the input queue, in order: the jobs, then the sentinels. */
  function PutHistory(c: Config, jobs: nat, breaks: nat): (h: seq<Job>)
    requires jobs <= |c.specs|
    ensures |h| == jobs + breaks
    ensures forall i {:trigger h[i]} :: 0 <= i < |h| ==> h[i] == if i < jobs then FreshJob(c, i) else BREAK_JOB
  {
    seq(jobs + breaks, i requires 0 <= i < jobs + breaks => if i < jobs then FreshJob(c, i) else BREAK_JOB)
  }

  // ---------- what the workers hold ----------

  function WorkerCopy(w: Worker, v: View, i: nat): nat {
    match w
    case AtGet => 0
    case Holding(job) => Copy(job, All, i)
    case PastCheck(job) => Copy(job, All, i)
    case Running(job) => if v.All? then Copy(job, All, i) else 0
    case Returning(job) => Copy(job, v, i)
    case Exited => 0
  }

  function PoolCopies(ws: seq<Worker>, v: View, i: nat): nat {
    if ws == [] then 0 else WorkerCopy(ws[0], v, i) + PoolCopies(ws[1..], v, i)
  }

  /** 1 for a worker that has taken a sentinel, whether or not it has looked at it yet. */
  function SentinelOf(w: Worker): nat {
    if w.Exited? || (w.Holding? && w.job.origin.Sentinel?) then 1 else 0
  }

  function Sentinels(ws: seq<Worker>): (r: nat)
    ensures r <= |ws|
  {
    if ws == [] then 0 else SentinelOf(ws[0]) + Sentinels(ws[1..])
  }

  lemma {:induction false} PoolUpdate(ws: seq<Worker>, w: nat, x: Worker, v: View, i: nat)
    requires w < |ws|
    ensures PoolCopies(ws[w := x], v, i) + WorkerCopy(ws[w], v, i) == PoolCopies(ws, v, i) + WorkerCopy(x, v, i)
  {
    if w == 0 {
      assert ws[w := x][1..] == ws[1..];
    } else {
      assert ws[w := x][1..] == ws[1..][w-1 := x];
      PoolUpdate(ws[1..], w - 1, x, v, i);
    }
  }

  lemma {:induction false} SentinelUpdate(ws: seq<Worker>, w: nat, x: Worker)
    requires w < |ws|
    ensures Sentinels(ws[w := x]) + SentinelOf(ws[w]) == Sentinels(ws) + SentinelOf(x)
  {
    if w == 0 {
      assert ws[w := x][1..] == ws[1..];
    } else {
      assert ws[w := x][1..] == ws[1..][w-1 := x];
      SentinelUpdate(ws[1..], w - 1, x);
    }
  }

  lemma {:induction false} PoolAtRest(ws: seq<Worker>, v: View, i: nat)
    requires forall w :: 0 <= w < |ws| ==> ws[w].AtGet? || ws[w].Exited?
    ensures PoolCopies(ws, v, i) == 0
  {
    if ws != [] {
      assert ws[0].AtGet? || ws[0].Exited?;
      PoolAtRest(ws[1..], v, i);
    }
  }

  lemma {:induction false} AllSentinels(ws: seq<Worker>)
    requires forall w :: 0 <= w < |ws| ==> SentinelOf(ws[w]) == 1
    ensures Sentinels(ws) == |ws|
  {
    if ws != [] {
      assert SentinelOf(ws[0]) == 1;
      AllSentinels(ws[1..]);
    }
  }

  lemma {:induction false} FullOfSentinels(ws: seq<Worker>, w: nat)
    requires w < |ws| && Sentinels(ws) == |ws|
    ensures SentinelOf(ws[w]) == 1
  {
    if w > 0 {
      FullOfSentinels(ws[1..], w - 1);
    }
  }

  // ---------- the invariant ----------

  ghost predicate MainInv(c: Config, s: State) {
    && |s.workers| == c.workers
    && JobsPut(c, s.main) <= |c.specs|
    && BreaksPut(c, s.main) <= c.workers
    && Got(c, s.main) <= |c.specs|
    && |s.collected| == Got(c, s.main)
    && (s.main.Joining? ==> s.main.joined <= c.workers)
    && (s.main.Joining? ==> forall w :: 0 <= w < s.main.joined ==> s.workers[w].Exited?)
    && (s.main.Done? ==> forall w :: 0 <= w < c.workers ==> s.workers[w].Exited?)
  }

  /** The input queue is what is left of the put history: first in, first out. */
  ghost predicate FifoInv(c: Config, s: State)
    requires MainInv(c, s)
  {
    var history := PutHistory(c, JobsPut(c, s.main), BreaksPut(c, s.main));
    s.taken <= |history| && s.input == history[s.taken..]
  }

  ghost predicate IsFresh(c: Config, job: Job) {
    job.origin.Dispatched? && job.origin.index < |c.specs| && job == FreshJob(c, job.origin.index)
  }

  /** A job on its way back: processed undisturbed, or marked by an interrupt. */
  ghost predicate IsReturned(c: Config, exit: bool, job: Job) {
    || IsResult(c, job)
    || (exit && job.origin.Dispatched? && job.origin.index < |c.specs| && job == Interrupted(c, job.origin.index))
  }

  ghost predicate WorkerOk(c: Config, exit: bool, w: Worker) {
    match w
    case AtGet => true
    case Holding(job) => IsFresh(c, job) || job == BREAK_JOB
    case PastCheck(job) => IsFresh(c, job)
    case Running(job) => IsFresh(c, job) && !job.isSkip
    case Returning(job) => IsReturned(c, exit, job)
    case Exited => true
  }

  ghost predicate ShapeInv(c: Config, s: State) {
    && (forall w :: 0 <= w < |s.workers| ==> WorkerOk(c, s.threadExit, s.workers[w]))
    && (forall k :: 0 <= k < |s.output| ==> IsReturned(c, s.threadExit, s.output[k]))
    && (forall k :: 0 <= k < |s.collected| ==> IsReturned(c, s.threadExit, s.collected[k]))
  }

  /** The number of copies of job `i` in the queues, in the workers' hands and collected. */
  function Places(s: State, v: View, i: nat): nat {
    Copies(s.input, All, i) + PoolCopies(s.workers, v, i) + Copies(s.output, v, i) + Copies(s.collected, v, i)
  }

  /** Each dispatched job is in exactly one place. */
  ghost predicate ConservationInv(c: Config, s: State) {
    forall i: nat :: Places(s, All, i) == if i < JobsPut(c, s.main) then 1 else 0
  }

  /** Each dispatched job has been launched once, or is somewhere as not launched. */
  ghost predicate LaunchInv(c: Config, s: State) {
    forall i: nat :: s.launched[i] + Places(s, Unlaunched, i) == if i < JobsPut(c, s.main) then 1 else 0
  }

  /** Sentinels leave the input queue only after every job, and each stops one worker. */
  ghost predicate SentinelInv(c: Config, s: State) {
    Sentinels(s.workers) == if s.taken <= |c.specs| then 0 else s.taken - |c.specs|
  }

  ghost predicate Inv(c: Config, s: State) {
    && MainInv(c, s) && FifoInv(c, s) && ShapeInv(c, s)
    && ConservationInv(c, s) && LaunchInv(c, s) && SentinelInv(c, s)
  }

  lemma InitInv(c: Config)
    ensures Inv(c, Init(c))
  {
    var s := Init(c);
    forall i: nat, v: View
      ensures PoolCopies(s.workers, v, i) == 0
    {
      PoolAtRest(s.workers, v, i);
    }
    NoSentinels(s.workers);
    assert PutHistory(c, 0, 0) == [];
  }

  lemma {:induction false} NoSentinels(ws: seq<Worker>)
    requires forall w :: 0 <= w < |ws| ==> SentinelOf(ws[w]) == 0
    ensures Sentinels(ws) == 0
  {
    if ws != [] {
      assert SentinelOf(ws[0]) == 0;
      NoSentinels(ws[1..]);
    }
  }

  // ---------- preservation ----------

  predicate IsWorkerAction(a: Action) {
    a.Get? || a.SeeBreak? || a.SeeExit? || a.PassCheck? || a.Skip? || a.Launch? || a.Finish? || a.PutResult?
  }

  /** A worker's step changes that worker only, and no step wakes up a worker that has exited. */
  lemma StepPool(c: Config, s: State, a: Action)
    requires Enabled(c, s, a)
    ensures |Next(c, s, a).workers| == |s.workers|
    ensures IsWorkerAction(a) ==> a.w < |s.workers| && !s.workers[a.w].Exited?
    ensures IsWorkerAction(a) ==> Next(c, s, a).workers == s.workers[a.w := Next(c, s, a).workers[a.w]]
    ensures IsWorkerAction(a) ==> Next(c, s, a).main == s.main && Next(c, s, a).collected == s.collected
    ensures !IsWorkerAction(a) ==> Next(c, s, a).workers == s.workers
  {
  }

  lemma StepMain(c: Config, s: State, a: Action)
    requires MainInv(c, s) && Enabled(c, s, a)
    ensures MainInv(c, Next(c, s, a))
  {
    StepPool(c, s, a);
  }

  lemma StepFifo(c: Config, s: State, a: Action)
    requires MainInv(c, s) && FifoInv(c, s) && Enabled(c, s, a) && MainInv(c, Next(c, s, a))
    ensures FifoInv(c, Next(c, s, a))
  {
    var t := Next(c, s, a);
    var before := PutHistory(c, JobsPut(c, s.main), BreaksPut(c, s.main));
    var after := PutHistory(c, JobsPut(c, t.main), BreaksPut(c, t.main));
    if a.Dispatch? {
      assert after == before + [FreshJob(c, s.main.next)];
    } else if a.SendBreak? {
      assert after == before + [BREAK_JOB];
    } else {
      assert after == before;
    }
  }

  /** The job at the head of the input queue is the next one of the put history. */
  lemma HeadOfInput(c: Config, s: State)
    requires MainInv(c, s) && FifoInv(c, s) && s.input != []
    ensures s.input[0] == if s.taken < JobsPut(c, s.main) then FreshJob(c, s.taken) else BREAK_JOB
    ensures s.taken >= JobsPut(c, s.main) ==> JobsPut(c, s.main) == |c.specs|
  {
  }

  /** A worker's step keeps what it holds well-formed. */
  lemma StepWorkerOk(c: Config, s: State, a: Action)
    requires Enabled(c, s, a) && IsWorkerAction(a) && WorkerOk(c, s.threadExit, s.workers[a.w])
    requires a.Get? ==> IsFresh(c, s.input[0]) || s.input[0] == BREAK_JOB
    ensures WorkerOk(c, s.threadExit, Next(c, s, a).workers[a.w])
    ensures SentinelOf(Next(c, s, a).workers[a.w])
         == if a.Get? then (if s.input[0] == BREAK_JOB then 1 else 0) else SentinelOf(s.workers[a.w])
  {
  }

  lemma StepWorkerShape(c: Config, s: State, a: Action)
    requires MainInv(c, s) && FifoInv(c, s) && ShapeInv(c, s) && Enabled(c, s, a) && IsWorkerAction(a)
    ensures ShapeInv(c, Next(c, s, a))
  {
    StepPool(c, s, a);
    assert WorkerOk(c, s.threadExit, s.workers[a.w]);
    if a.Get? {
      HeadOfInput(c, s);
    }
    StepWorkerOk(c, s, a);
  }

  lemma StepShape(c: Config, s: State, a: Action)
    requires MainInv(c, s) && FifoInv(c, s) && ShapeInv(c, s) && Enabled(c, s, a)
    ensures ShapeInv(c, Next(c, s, a))
  {
    if IsWorkerAction(a) {
      StepWorkerShape(c, s, a);
    } else {
      StepPool(c, s, a);
    }
  }

  lemma StepSentinels(c: Config, s: State, a: Action)
    requires MainInv(c, s) && FifoInv(c, s) && SentinelInv(c, s) && Enabled(c, s, a)
    requires IsWorkerAction(a) ==> WorkerOk(c, s.threadExit, s.workers[a.w])
    ensures SentinelInv(c, Next(c, s, a))
  {
    StepPool(c, s, a);
    if IsWorkerAction(a) {
      SentinelUpdate(s.workers, a.w, Next(c, s, a).workers[a.w]);
      if a.Get? {
        HeadOfInput(c, s);
      }
      StepWorkerOk(c, s, a);
    }
  }

  /** The launches that count beside the places under view `v`. */
  function LaunchesIn(s: State, v: View, i: nat): nat {
    if v.Unlaunched? then s.launched[i] else 0
  }

  /** What the worker itself gains or loses in its step. */
  lemma StepWorkerCopy(c: Config, s: State, a: Action, v: View, i: nat)
    requires Enabled(c, s, a) && IsWorkerAction(a) && WorkerOk(c, s.threadExit, s.workers[a.w])
    ensures WorkerCopy(Next(c, s, a).workers[a.w], v, i) + LaunchesIn(Next(c, s, a), v, i)
            + (if a.PutResult? then Copy(s.workers[a.w].job, v, i) else 0)
         == WorkerCopy(s.workers[a.w], v, i) + LaunchesIn(s, v, i)
            + (if a.Get? then Copy(s.input[0], All, i) else 0)
  {
  }

  /** A worker's step moves one copy; a launch moves it into the history. */
  lemma StepWorkerPlaces(c: Config, s: State, a: Action, v: View, i: nat)
    requires Enabled(c, s, a) && IsWorkerAction(a) && WorkerOk(c, s.threadExit, s.workers[a.w])
    ensures Places(Next(c, s, a), v, i) + LaunchesIn(Next(c, s, a), v, i) == Places(s, v, i) + LaunchesIn(s, v, i)
  {
    StepPool(c, s, a);
    PoolUpdate(s.workers, a.w, Next(c, s, a).workers[a.w], v, i);
    StepWorkerCopy(c, s, a, v, i);
    if a.PutResult? {
      CopiesSnoc(s.output, s.workers[a.w].job, v, i);
    }
  }

  /** A step of the main thread adds a copy of the job it dispatches and loses none. */
  lemma StepMainPlaces(c: Config, s: State, a: Action, v: View, i: nat)
    requires Enabled(c, s, a) && !IsWorkerAction(a)
    ensures Places(Next(c, s, a), v, i) == Places(s, v, i) + (if a == Dispatch && i == s.main.next then 1 else 0)
    ensures Next(c, s, a).launched == s.launched
  {
    match a
    case Dispatch => CopiesSnoc(s.input, FreshJob(c, s.main.next), All, i);
    case SendBreak => CopiesSnoc(s.input, BREAK_JOB, All, i);
    case Collect => CopiesSnoc(s.collected, s.output[0], v, i);
    case _ =>
  }

  lemma StepConservation(c: Config, s: State, a: Action)
    requires Inv(c, s) && Enabled(c, s, a)
    ensures ConservationInv(c, Next(c, s, a))
    ensures LaunchInv(c, Next(c, s, a))
  {
    forall i: nat
      ensures Places(Next(c, s, a), All, i) == if i < JobsPut(c, Next(c, s, a).main) then 1 else 0
      ensures Next(c, s, a).launched[i] + Places(Next(c, s, a), Unlaunched, i)
           == if i < JobsPut(c, Next(c, s, a).main) then 1 else 0
    {
      assert Places(s, All, i) == if i < JobsPut(c, s.main) then 1 else 0;
      if IsWorkerAction(a) {
        StepPool(c, s, a);
        StepWorkerPlaces(c, s, a, All, i);
        StepWorkerPlaces(c, s, a, Unlaunched, i);
      } else {
        StepMainPlaces(c, s, a, All, i);
        StepMainPlaces(c, s, a, Unlaunched, i);
      }
    }
  }

  /** Every step keeps the invariant. */
  lemma StepInv(c: Config, s: State, a: Action)
    requires Inv(c, s) && Enabled(c, s, a)
    ensures Inv(c, Next(c, s, a))
  {
    hide Next, ConservationInv, LaunchInv;
    StepMain(c, s, a);
    StepFifo(c, s, a);
    StepShape(c, s, a);
    StepConservation(c, s, a);
    StepSentinels(c, s, a);
  }

  lemma {:induction false} RunInv(c: Config, s: State, actions: seq<Action>, t: State)
    requires Inv(c, s) && Run(c, s, actions, t)
    ensures Inv(c, t)
    decreases |actions|
  {
    if actions != [] {
      StepInv(c, s, actions[0]);
      RunInv(c, Next(c, s, actions[0]), actions[1..], t);
    }
  }
}
