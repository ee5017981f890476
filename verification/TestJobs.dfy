/** The unit of work of the test runner, and the counting of jobs in queues. */
module TestJobs {

  datatype Kind = TestSuite | Example | PyExample

  /** What `run_tests` knows about a test before it is dispatched, together with
      the return code its process would give. Quantifying over `outcome` lets
      every job return an arbitrary code. */
  datatype Spec = Spec(name: string, kind: Kind, isSkip: bool, skipReason: string, outcome: int)

  /** The tests to dispatch, in order, and the number of worker threads. */
  datatype Config = Config(specs: seq<Spec>, workers: nat)

  /** Where a job object comes from. The program has no such field: no branch of
      the model looks at it, it only lets the theorems name a job. */
  datatype Origin = Dispatched(index: nat) | Sentinel

  datatype Job = Job(origin: Origin, name: string, kind: Kind, isBreak: bool,
                     isSkip: bool, skipReason: string, returncode: int)

  /** A job as the main thread puts it into the input queue. */
  function FreshJob(c: Config, i: nat): Job
    requires i < |c.specs|
  {
    var s := c.specs[i];
    Job(Dispatched(i), s.name, s.kind, false, s.isSkip, s.skipReason, 0)
  }

  /** The special job that tells one worker to exit. */
  const BREAK_JOB := Job(Sentinel, "", TestSuite, true, false, "", 0)

  /** The return code of a job's process. */
  function ReturnCode(c: Config, job: Job): int {
    if job.origin.Dispatched? && job.origin.index < |c.specs| then c.specs[job.origin.index].outcome else 0
  }

  /** What job `i` looks like after a worker has processed it undisturbed. */
  function ResultOf(c: Config, i: nat): Job
    requires i < |c.specs|
  {
    if c.specs[i].isSkip then FreshJob(c, i) else FreshJob(c, i).(returncode := c.specs[i].outcome)
  }

  /** What job `i` looks like after a worker has handed it back because of an interrupt. */
  function Interrupted(c: Config, i: nat): Job
    requires i < |c.specs|
  {
    FreshJob(c, i).(isBreak := true)
  }

  /** The results of running every test one after the other in a single thread. */
  function SequentialResults(c: Config): (r: seq<Job>)
    ensures |r| == |c.specs|
    ensures forall i :: 0 <= i < |r| ==> r[i] == ResultOf(c, i)
  {
    seq(|c.specs|, i requires 0 <= i < |c.specs| => ResultOf(c, i))
  }

  // ---------- counting copies of a job ----------

  /** `All` counts every copy of a job; `Unlaunched` leaves out the copies whose
      command was executed (those that come back neither skipped nor interrupted). */
  datatype View = All | Unlaunched

  function Copy(job: Job, v: View, i: nat): nat {
    if job.origin == Dispatched(i) && (v.All? || job.isBreak || job.isSkip) then 1 else 0
  }

  /** The number of copies of the job dispatched as number `i` in a queue. */
  function Copies(q: seq<Job>, v: View, i: nat): nat {
    if q == [] then 0 else Copy(q[0], v, i) + Copies(q[1..], v, i)
  }

  lemma {:induction false} CopiesAppend(p: seq<Job>, q: seq<Job>, v: View, i: nat)
    ensures Copies(p + q, v, i) == Copies(p, v, i) + Copies(q, v, i)
  {
    if p == [] {
      assert p + q == q;
    } else {
      CopiesAppend(p[1..], q, v, i);
      assert (p + q)[0] == p[0] && (p + q)[1..] == p[1..] + q;
    }
  }

  lemma CopiesSnoc(q: seq<Job>, job: Job, v: View, i: nat)
    ensures Copies(q + [job], v, i) == Copies(q, v, i) + Copy(job, v, i)
  {
    CopiesAppend(q, [job], v, i);
    assert [job][1..] == [];
  }

  lemma {:induction false} CopiesPosition(q: seq<Job>, v: View, i: nat) returns (k: nat)
    requires Copies(q, v, i) > 0
    ensures k < |q| && Copy(q[k], v, i) == 1
  {
    if Copy(q[0], v, i) == 1 {
      k := 0;
    } else {
      k := CopiesPosition(q[1..], v, i);
      k := k + 1;
    }
  }

  /** Removing the job at position `k` removes just that copy. */
  lemma CopiesRemove(q: seq<Job>, k: nat, v: View, i: nat)
    requires k < |q|
    ensures Copies(q, v, i) == Copies(q[..k] + q[k+1..], v, i) + Copy(q[k], v, i)
  {
    assert q == q[..k] + [q[k]] + q[k+1..];
    CopiesAppend(q[..k] + [q[k]], q[k+1..], v, i);
    CopiesSnoc(q[..k], q[k], v, i);
    CopiesAppend(q[..k], q[k+1..], v, i);
  }

  /** A dispatched job that a worker has processed undisturbed. */
  ghost predicate IsResult(c: Config, job: Job) {
    && job.origin.Dispatched?
    && job.origin.index < |c.specs|
    && job == ResultOf(c, job.origin.index)
  }

  /** The queue holds each job with a number below `n` exactly once, and nothing else. */
  ghost predicate OneCopyEach(q: seq<Job>, n: nat) {
    && (forall k :: 0 <= k < |q| ==> q[k].origin.Dispatched?)
    && (forall i: nat :: Copies(q, All, i) == if i < n then 1 else 0)
  }

  /** Taking out the job with the highest number leaves one copy of each lower one. */
  lemma RemoveHighest(q: seq<Job>, n: nat) returns (k: nat)
    requires n > 0 && OneCopyEach(q, n)
    ensures k < |q| && q[k].origin == Dispatched(n - 1)
    ensures OneCopyEach(q[..k] + q[k+1..], n - 1)
    ensures multiset(q) == multiset(q[..k] + q[k+1..]) + multiset{q[k]}
  {
    k := CopiesPosition(q, All, n - 1);
    var rest := q[..k] + q[k+1..];
    forall i: nat
      ensures Copies(rest, All, i) == if i < n - 1 then 1 else 0
    {
      CopiesRemove(q, k, All, i);
    }
    assert q == q[..k] + [q[k]] + q[k+1..];
  }

  lemma {:induction false} OneCopyEachLength(q: seq<Job>, n: nat)
    requires OneCopyEach(q, n)
    ensures |q| == n
  {
    if n == 0 {
      assert q != [] ==> Copies(q, All, q[0].origin.index) > 0;
    } else {
      var k := RemoveHighest(q, n);
      OneCopyEachLength(q[..k] + q[k+1..], n - 1);
    }
  }

  /** A queue that holds the undisturbed result of each job once is a permutation
      of the sequential results. */
  lemma {:induction false} PermutationOfResults(c: Config, n: nat, q: seq<Job>)
    requires n <= |c.specs| && OneCopyEach(q, n)
    requires forall k :: 0 <= k < |q| ==> IsResult(c, q[k])
    ensures multiset(q) == multiset(SequentialResults(c)[..n])
  {
    var r := SequentialResults(c);
    if n == 0 {
      OneCopyEachLength(q, 0);
      assert r[..0] == q;
    } else {
      var k := RemoveHighest(q, n);
      assert IsResult(c, q[k]);
      PermutationOfResults(c, n - 1, q[..k] + q[k+1..]);
      assert r[..n] == r[..n-1] + [r[n-1]];
    }
  }
}
