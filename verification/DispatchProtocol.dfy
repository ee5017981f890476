/** The parallel dispatcher as a transition system: one main thread, a pool of
    workers, two unbounded FIFO queues and an asynchronously set exit flag. */
module DispatchProtocol {
  import opened TestJobs

  /** Where a worker stands in its loop. */
  datatype Worker =
    | AtGet                 // about to take a job from the input queue
    | Holding(job: Job)     // took a job, has looked at nothing yet
    | PastCheck(job: Job)   // saw no break and no interrupt
    | Running(job: Job)     // launched the command
    | Returning(job: Job)   // about to put the job into the output queue
    | Exited

  /** Where the main thread stands; the numbers are its loop counters. */
  datatype Main =
    | Dispatching(next: nat)
    | Sending(sent: nat)
    | Collecting(got: nat)
    | Joining(joined: nat)
    | Done

  /** The shared state. `taken`, `collected` and `launched` are histories: how many
      jobs left the input queue, what the main thread collected in order, and
      the indices of the jobs whose command was executed. */
  datatype State = State(main: Main, input: seq<Job>, output: seq<Job>, workers: seq<Worker>,
                         threadExit: bool, taken: nat, collected: seq<Job>, launched: multiset<nat>)

  datatype Action =
    | Dispatch | EndDispatch | SendBreak | EndSending | Collect | EndCollect | Join | EndJoin
    | Get(w: nat) | SeeBreak(w: nat) | SeeExit(w: nat) | PassCheck(w: nat)
    | Skip(w: nat) | Launch(w: nat) | Finish(w: nat) | PutResult(w: nat)
    | Sigint

  /** The number of a dispatched job, as a multiset to add to the history. */
  function Number(job: Job): multiset<nat> {
    if job.origin.Dispatched? then multiset{job.origin.index} else multiset{}
  }

  function Init(c: Config): State {
    State(Dispatching(0), [], [], seq(c.workers, _ => AtGet), false, 0, [], multiset{})
  }

  predicate Enabled(c: Config, s: State, a: Action) {
    match a
    case Dispatch => s.main.Dispatching? && s.main.next < |c.specs|
    case EndDispatch => s.main.Dispatching? && s.main.next >= |c.specs|
    case SendBreak => s.main.Sending? && s.main.sent < c.workers
    case EndSending => s.main.Sending? && s.main.sent >= c.workers
    case Collect => s.main.Collecting? && s.main.got < |c.specs| && s.output != []
    case EndCollect => s.main.Collecting? && s.main.got >= |c.specs|
    case Join => s.main.Joining? && s.main.joined < |s.workers| && s.workers[s.main.joined].Exited?
    case EndJoin => s.main.Joining? && s.main.joined >= |s.workers|
    case Get(w) => w < |s.workers| && s.workers[w].AtGet? && s.input != []
    case SeeBreak(w) => w < |s.workers| && s.workers[w].Holding? && s.workers[w].job.isBreak
    case SeeExit(w) => w < |s.workers| && s.workers[w].Holding? && !s.workers[w].job.isBreak && s.threadExit
    case PassCheck(w) => w < |s.workers| && s.workers[w].Holding? && !s.workers[w].job.isBreak && !s.threadExit
    case Skip(w) => w < |s.workers| && s.workers[w].PastCheck? && s.workers[w].job.isSkip
    case Launch(w) => w < |s.workers| && s.workers[w].PastCheck? && !s.workers[w].job.isSkip
    case Finish(w) => w < |s.workers| && s.workers[w].Running?
    case PutResult(w) => w < |s.workers| && s.workers[w].Returning?
    case Sigint => !s.threadExit
  }

  function Next(c: Config, s: State, a: Action): State
    requires Enabled(c, s, a)
  {
    match a
    case Dispatch => s.(main := Dispatching(s.main.next + 1), input := s.input + [FreshJob(c, s.main.next)])
    case EndDispatch => s.(main := Sending(0))
    case SendBreak => s.(main := Sending(s.main.sent + 1), input := s.input + [BREAK_JOB])
    case EndSending => s.(main := Collecting(0))
    case Collect =>
      s.(main := Collecting(s.main.got + 1), output := s.output[1..], collected := s.collected + [s.output[0]])
    case EndCollect => s.(main := Joining(0))
    case Join => s.(main := Joining(s.main.joined + 1))
    case EndJoin => s.(main := Done)
    case Get(w) =>
      s.(input := s.input[1..], taken := s.taken + 1, workers := s.workers[w := Holding(s.input[0])])
    case SeeBreak(w) => s.(workers := s.workers[w := Exited])
    case SeeExit(w) => s.(workers := s.workers[w := Returning(s.workers[w].job.(isBreak := true))])
    case PassCheck(w) => s.(workers := s.workers[w := PastCheck(s.workers[w].job)])
    case Skip(w) => s.(workers := s.workers[w := Returning(s.workers[w].job)])
    case Launch(w) =>
      s.(workers := s.workers[w := Running(s.workers[w].job)],
         launched := s.launched + Number(s.workers[w].job))
    case Finish(w) =>
      var job := s.workers[w].job;
      s.(workers := s.workers[w := Returning(job.(returncode := ReturnCode(c, job)))])
    case PutResult(w) => s.(workers := s.workers[w := AtGet], output := s.output + [s.workers[w].job])
    case Sigint => s.(threadExit := true)
  }

  /** `actions` leads from `s` to `t`. */
  ghost predicate Run(c: Config, s: State, actions: seq<Action>, t: State)
    decreases |actions|
  {
    if actions == [] then s == t
    else Enabled(c, s, actions[0]) && Run(c, Next(c, s, actions[0]), actions[1..], t)
  }

  lemma {:induction false} RunConcat(c: Config, s: State, a: seq<Action>, t: State, b: seq<Action>, u: State)
    requires Run(c, s, a, t) && Run(c, t, b, u)
    ensures Run(c, s, a + b, u)
    decreases |a|
  {
    if a == [] {
      assert a + b == b;
    } else {
      RunConcat(c, Next(c, s, a[0]), a[1..], t, b, u);
      assert (a + b)[0] == a[0] && (a + b)[1..] == a[1..] + b;
    }
  }
}
