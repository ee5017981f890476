/** How the main thread classifies and counts the jobs it collects. */
module TestSummary {
  import opened TestJobs

  datatype Status = Pass | Fail | Valgrind | Crash | Skipped | Broken

  /** The verdict on a collected job; `Broken` is a job handed back by an interrupt. */
  function StatusOf(job: Job): Status {
    if job.isBreak then Broken
    else if job.isSkip then Skipped
    else if job.returncode == 0 then Pass
    else if job.returncode == 1 then Fail
    else if job.returncode == 2 then Valgrind
    else Crash
  }

  /** The text under which a job is listed. */
  function Label(job: Job): string {
    if job.isSkip then job.name + " (" + job.skipReason + ")" else job.name
  }

  /** The labels of the jobs with a given verdict, in the order of collection. */
  function Labels(jobs: seq<Job>, st: Status): (r: seq<string>)
    ensures |r| <= |jobs|
  {
    if jobs == [] then []
    else
      var last := jobs[|jobs|-1];
      Labels(jobs[..|jobs|-1], st) + (if StatusOf(last) == st then [Label(last)] else [])
  }

  lemma LabelsSnoc(jobs: seq<Job>, job: Job, st: Status)
    ensures Labels(jobs + [job], st)
         == if StatusOf(job) == st then Labels(jobs, st) + [Label(job)] else Labels(jobs, st)
  {
    assert (jobs + [job])[..|jobs|] == jobs;
  }

  function Count(jobs: seq<Job>, st: Status): nat {
    |Labels(jobs, st)|
  }

  /** The numerator of the progress line; it leaves valgrind errors out, as the program does. */
  function ProgressShown(jobs: seq<Job>): nat {
    Count(jobs, Pass) + Count(jobs, Fail) + Count(jobs, Skipped) + Count(jobs, Crash)
  }

  /** A counter and its list take in a text if they are meant, and stay the same otherwise. */
  predicate Grown(meant: bool, text: string, n: nat, names: seq<string>, n': nat, names': seq<string>) {
    if meant then n' == n + 1 && names' == names + [text] else n' == n && names' == names
  }

  /** The counters and name lists of the main thread. `seen` records the collected jobs. */
  class Tally {
    var passed: nat
    var failed: nat
    var skipped: nat
    var crashed: nat
    var valgrind: nat
    var failedNames: seq<string>
    var skippedNames: seq<string>
    var crashedNames: seq<string>
    var valgrindNames: seq<string>
    ghost var seen: seq<Job>

    ghost predicate Valid()
      reads this
    {
      && passed == Count(seen, Pass)
      && failed == |failedNames| && failedNames == Labels(seen, Fail)
      && skipped == |skippedNames| && skippedNames == Labels(seen, Skipped)
      && crashed == |crashedNames| && crashedNames == Labels(seen, Crash)
      && valgrind == |valgrindNames| && valgrindNames == Labels(seen, Valgrind)
    }

    constructor ()
      ensures Valid() && seen == []
    {
      passed, failed, skipped, crashed, valgrind := 0, 0, 0, 0, 0;
      failedNames, skippedNames, crashedNames, valgrindNames := [], [], [], [];
      seen := [];
    }

    /** The counter and the list of the verdict on a collected job: skipped whatever the
        return code, else passed for 0, failed for 1, a valgrind error for 2, else crashed. */
    method Classify(job: Job)
      requires !job.isBreak
      modifies this
      ensures seen == old(seen)
      ensures passed == old(passed) + if !job.isSkip && job.returncode == 0 then 1 else 0
      ensures Grown(!job.isSkip && job.returncode == 1, job.name, old(failed), old(failedNames), failed, failedNames)
      ensures Grown(!job.isSkip && job.returncode == 2, job.name,
                    old(valgrind), old(valgrindNames), valgrind, valgrindNames)
      ensures Grown(!job.isSkip && job.returncode !in {0, 1, 2}, job.name,
                    old(crashed), old(crashedNames), crashed, crashedNames)
      ensures Grown(job.isSkip, job.name + " (" + job.skipReason + ")",
                    old(skipped), old(skippedNames), skipped, skippedNames)
    {
      if job.isSkip {
        skipped := skipped + 1;
        skippedNames := skippedNames + [Label(job)];
      } else if job.returncode == 0 {
        passed := passed + 1;
      } else if job.returncode == 1 {
        failed := failed + 1;
        failedNames := failedNames + [Label(job)];
      } else if job.returncode == 2 {
        valgrind := valgrind + 1;
        valgrindNames := valgrindNames + [Label(job)];
      } else {
        crashed := crashed + 1;
        crashedNames := crashedNames + [Label(job)];
      }
    }

    /** One round of the collection loop. `printed` is the progress shown, if any:
        nothing is printed for an interrupted job. */
    method Record(job: Job) returns (printed: seq<nat>)
      requires Valid()
      modifies this
      ensures Valid() && seen == old(seen) + [job]
      ensures printed == if job.isBreak then [] else [ProgressShown(seen)]
    {
      hide Labels;
      LabelsSnoc(seen, job, Pass);
      LabelsSnoc(seen, job, Fail);
      LabelsSnoc(seen, job, Valgrind);
      LabelsSnoc(seen, job, Crash);
      LabelsSnoc(seen, job, Skipped);
      if job.isBreak {
        printed := [];
      } else {
        Classify(job);
        printed := [passed + failed + skipped + crashed];
      }
      seen := seen + [job];
    }

    /** The value `run_tests` returns. */
    method ExitCode(total: nat) returns (code: int)
      requires Valid() && |seen| == total
      ensures code == if forall k :: 0 <= k < |seen| ==> StatusOf(seen[k]) in {Pass, Skipped} then 0 else 1
    {
      ExitCodeMeaning(seen);
      code := if passed + skipped == total then 0 else 1;
    }
  }

  /** Every collected job is counted exactly once; interrupted ones are the rest. */
  lemma {:induction false} CountsAddUp(jobs: seq<Job>)
    ensures Count(jobs, Pass) + Count(jobs, Fail) + Count(jobs, Valgrind) + Count(jobs, Crash)
            + Count(jobs, Skipped) + Count(jobs, Broken) == |jobs|
  {
    if jobs != [] {
      CountsAddUp(jobs[..|jobs|-1]);
    }
  }

  /** The progress shown never exceeds the number of tests, and falls short of it by the
      valgrind errors and interrupted jobs. */
  lemma ProgressBound(jobs: seq<Job>, total: nat)
    requires |jobs| <= total
    ensures ProgressShown(jobs) <= total
    ensures ProgressShown(jobs) == |jobs| - Count(jobs, Valgrind) - Count(jobs, Broken)
  {
    CountsAddUp(jobs);
  }

  /** Passed and skipped tests make up the total exactly when every test passed or was
      skipped, and none was interrupted. */
  lemma {:induction false} ExitCodeMeaning(jobs: seq<Job>)
    ensures Count(jobs, Pass) + Count(jobs, Skipped) == |jobs|
       <==> forall k :: 0 <= k < |jobs| ==> StatusOf(jobs[k]) in {Pass, Skipped}
  {
    if jobs != [] {
      var front, last := jobs[..|jobs|-1], jobs[|jobs|-1];
      ExitCodeMeaning(front);
      CountsAddUp(front);
      assert jobs == front + [last];
      assert forall k :: 0 <= k < |front| ==> jobs[k] == front[k];
    }
  }

  lemma {:induction false} LabelsAppend(p: seq<Job>, q: seq<Job>, st: Status)
    ensures Labels(p + q, st) == Labels(p, st) + Labels(q, st)
  {
    if q == [] {
      assert p + q == p;
    } else {
      var m := |q| - 1;
      assert (p + q)[..|p + q| - 1] == p + q[..m];
      LabelsAppend(p, q[..m], st);
    }
  }

  /** How often `text` is listed under a verdict. */
  function Listed(jobs: seq<Job>, st: Status, text: string): nat {
    multiset(Labels(jobs, st))[text]
  }

  lemma ListedAppend(p: seq<Job>, q: seq<Job>, st: Status, text: string)
    ensures Listed(p + q, st, text) == Listed(p, st, text) + Listed(q, st, text)
  {
    LabelsAppend(p, q, st);
  }

  /** Taking out one job takes out one entry of its list. */
  lemma ListedRemove(b: seq<Job>, k: nat, st: Status, text: string)
    requires k < |b|
    ensures Listed(b, st, text) == Listed(b[..k] + b[k+1..], st, text) + Listed([b[k]], st, text)
  {
    assert b == b[..k] + ([b[k]] + b[k+1..]);
    ListedAppend(b[..k], [b[k]] + b[k+1..], st, text);
    ListedAppend([b[k]], b[k+1..], st, text);
    ListedAppend(b[..k], b[k+1..], st, text);
  }

  /** A permutation of a nonempty sequence has its first job somewhere. */
  lemma FindFirst(a: seq<Job>, b: seq<Job>) returns (k: nat)
    requires multiset(a) == multiset(b) && a != []
    ensures k < |b| && b[k] == a[0]
    ensures multiset(a[1..]) == multiset(b[..k] + b[k+1..])
  {
    assert a == [a[0]] + a[1..];
    assert a[0] in multiset(b);
    k :| 0 <= k < |b| && b[k] == a[0];
    var rest := b[..k] + b[k+1..];
    assert multiset(b) == multiset(rest) + multiset{a[0]} by {
      assert b == b[..k] + [b[k]] + b[k+1..];
    }
    Cancel(multiset(a[1..]), multiset(rest), a[0]);
  }

  lemma Cancel(a: multiset<Job>, b: multiset<Job>, x: Job)
    requires a + multiset{x} == b + multiset{x}
    ensures a == b
  {
    assert a == (a + multiset{x}) - multiset{x};
    assert b == (b + multiset{x}) - multiset{x};
  }

  lemma {:induction false} ListedOrder(a: seq<Job>, b: seq<Job>, st: Status, text: string)
    requires multiset(a) == multiset(b)
    ensures Listed(a, st, text) == Listed(b, st, text)
    decreases |a|
  {
    if a == [] {
      assert |multiset(b)| == |b|;
    } else {
      var k := FindFirst(a, b);
      ListedOrder(a[1..], b[..k] + b[k+1..], st, text);
      ListedRemove(b, k, st, text);
      assert a == [a[0]] + a[1..];
      ListedAppend([a[0]], a[1..], st, text);
    }
  }

  /** The counts and the listed names do not depend on the order of collection. */
  lemma OrderIrrelevant(a: seq<Job>, b: seq<Job>, st: Status)
    requires multiset(a) == multiset(b)
    ensures multiset(Labels(a, st)) == multiset(Labels(b, st))
    ensures Count(a, st) == Count(b, st)
  {
    forall text
      ensures multiset(Labels(a, st))[text] == multiset(Labels(b, st))[text]
    {
      ListedOrder(a, b, st, text);
    }
    assert multiset(Labels(a, st)) == multiset(Labels(b, st));
    assert |Labels(a, st)| == |multiset(Labels(a, st))| == |multiset(Labels(b, st))|;
  }
}
