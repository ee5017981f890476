/** The scheduler benchmark: a fixed population of events, each of which schedules its
    successor, until the configured number of events was executed. */
module EventBench {

  ghost predicate Sorted(q: seq<nat>) {
    forall i, j :: 0 <= i < j < |q| ==> q[i] <= q[j]
  }

  ghost predicate Earliest(q: multiset<nat>, t: nat) {
    t in q && forall x :: x in q ==> t <= x
  }

  /** A nonempty event list has an earliest event. */
  lemma {:induction false} EarliestExists(q: multiset<nat>) returns (t: nat)
    requires |q| > 0
    ensures Earliest(q, t)
    decreases |q|
  {
    var first :| first in q;
    var rest := q - multiset{first};
    t := first;
    if |rest| > 0 {
      var u := EarliestExists(rest);
      t := if u < first then u else first;
    }
    forall x | x in q
      ensures t <= x
    {
      assert x == first || x in rest;
    }
  }

  /** An event list with one more event, and with one less. */
  function Added(q: multiset<nat>, t: nat): multiset<nat> {
    q + multiset{t}
  }

  function Removed(q: multiset<nat>, t: nat): multiset<nat> {
    q - multiset{t}
  }

  function One(t: nat, x: nat): nat {
    if t == x then 1 else 0
  }

  lemma AddedCounts(q: multiset<nat>, t: nat)
    ensures |Added(q, t)| == |q| + 1
    ensures forall x :: Added(q, t)[x] == q[x] + One(t, x)
  {
  }

  lemma RemovedCounts(q: multiset<nat>, t: nat)
    requires t in q
    ensures |Removed(q, t)| + 1 == |q|
    ensures forall x :: Removed(q, t)[x] + One(t, x) == q[x]
  {
  }

  // ---------- what a run fires ----------

  /** How many of the first `k` events, at the delays of the stream from `d` on, are due at `x`. */
  function Initial(delay: nat -> nat, d: nat, k: nat, x: nat): nat {
    if k == 0 then 0 else Initial(delay, d, k - 1, x) + One(delay(d + k - 1), x)
  }

  /** How many successors of the first `n` firings, each its delay later, are due at `x`. */
  function Successors(delay: nat -> nat, d: nat, times: seq<nat>, n: nat, x: nat): nat
    requires n <= |times|
  {
    if n == 0 then 0 else Successors(delay, d, times, n - 1, x) + One(times[n-1] + delay(d + n - 1), x)
  }

  /** How many of the first `n` firings were at `x`. */
  function Fired(times: seq<nat>, n: nat, x: nat): nat
    requires n <= |times|
  {
    if n == 0 then 0 else Fired(times, n - 1, x) + One(times[n-1], x)
  }

  /** How many events are due at `x` when firing `n` comes: the population scheduled first and
      the successors of the firings so far, without those that fired. */
  function Due(delay: nat -> nat, d: nat, population: nat, times: seq<nat>, n: nat, x: nat): int
    requires n <= |times|
  {
    Initial(delay, d, population, x) + Successors(delay, d + population, times, n, x) - Fired(times, n, x)
  }

  /** Firing `n` is that of the earliest event due. */
  ghost predicate EarliestDue(delay: nat -> nat, d: nat, population: nat, times: seq<nat>, n: nat)
    requires n < |times|
  {
    && Due(delay, d, population, times, n, times[n]) > 0
    && forall x: nat :: Due(delay, d, population, times, n, x) > 0 ==> times[n] <= x
  }

  ghost predicate FiresInOrder(delay: nat -> nat, d: nat, population: nat, times: seq<nat>) {
    forall n :: 0 <= n < |times| ==> EarliestDue(delay, d, population, times, n)
  }

  lemma {:induction false} DueAgree(delay: nat -> nat, d: nat, a: seq<nat>, b: seq<nat>, n: nat, x: nat)
    requires n <= |a| && n <= |b| && forall i :: 0 <= i < n ==> a[i] == b[i]
    ensures Successors(delay, d, a, n, x) == Successors(delay, d, b, n, x)
    ensures Fired(a, n, x) == Fired(b, n, x)
  {
    if n > 0 {
      DueAgree(delay, d, a, b, n - 1, x);
    }
  }

  /** The delays of the stream determine every firing time. */
  lemma {:induction false} TimesDetermined(delay: nat -> nat, d: nat, population: nat, a: seq<nat>, b: seq<nat>,
                                           n: nat)
    requires FiresInOrder(delay, d, population, a) && FiresInOrder(delay, d, population, b)
    requires n <= |a| && n <= |b|
    ensures forall i :: 0 <= i < n ==> a[i] == b[i]
  {
    hide Due;
    if n > 0 {
      TimesDetermined(delay, d, population, a, b, n - 1);
      assert EarliestDue(delay, d, population, a, n - 1) && EarliestDue(delay, d, population, b, n - 1);
      SameDue(delay, d, population, a, b, n - 1, a[n-1]);
      SameDue(delay, d, population, a, b, n - 1, b[n-1]);
    }
  }

  lemma SameDue(delay: nat -> nat, d: nat, population: nat, a: seq<nat>, b: seq<nat>, n: nat, x: nat)
    requires n <= |a| && n <= |b| && forall i :: 0 <= i < n ==> a[i] == b[i]
    ensures Due(delay, d, population, a, n, x) == Due(delay, d, population, b, n, x)
  {
    DueAgree(delay, d + population, a, b, n, x);
  }

  /** What fired and what is pending are the events that were scheduled: the first ones and
      `n` successors. */
  ghost predicate Ledger(delay: nat -> nat, d: nat, population: nat, times: seq<nat>, n: nat, pending: multiset<nat>)
    requires n <= |times|
  {
    forall x: nat :: Fired(times, |times|, x) + pending[x]
      == Initial(delay, d, population, x) + Successors(delay, d + population, times, n, x)
  }

  /** The earliest pending event is the earliest one due. */
  lemma FireOne(delay: nat -> nat, d: nat, population: nat, times: seq<nat>, pending: multiset<nat>, t: nat)
    requires FiresInOrder(delay, d, population, times)
    requires Ledger(delay, d, population, times, |times|, pending) && Earliest(pending, t)
    ensures FiresInOrder(delay, d, population, times + [t])
    ensures Ledger(delay, d, population, times + [t], |times|, Removed(pending, t))
  {
    hide Due, Removed, Initial, One;
    var next, n := times + [t], |times|;
    forall x: nat
      ensures Due(delay, d, population, next, n, x) == pending[x]
      ensures Fired(next, n + 1, x) == Fired(times, n, x) + One(t, x)
      ensures Successors(delay, d + population, next, n, x) == Successors(delay, d + population, times, n, x)
    {
      SameDue(delay, d, population, times, next, n, x);
      DueAgree(delay, d + population, times, next, n, x);
      DueNow(delay, d, population, times, pending, x);
    }
    RemovedCounts(pending, t);
    assert EarliestDue(delay, d, population, next, n);
    forall i | 0 <= i < n
      ensures EarliestDue(delay, d, population, next, i)
    {
      StillEarliest(delay, d, population, times, next, i);
    }
  }

  lemma DueNow(delay: nat -> nat, d: nat, population: nat, times: seq<nat>, pending: multiset<nat>, x: nat)
    requires Ledger(delay, d, population, times, |times|, pending)
    ensures Due(delay, d, population, times, |times|, x) == pending[x]
  {
  }

  lemma StillEarliest(delay: nat -> nat, d: nat, population: nat, times: seq<nat>, next: seq<nat>, i: nat)
    requires |next| == |times| + 1 && next[..|times|] == times
    requires i < |times| && EarliestDue(delay, d, population, times, i)
    ensures EarliestDue(delay, d, population, next, i)
  {
    hide Due;
    assert forall k :: 0 <= k < |times| ==> next[k] == next[..|times|][k];
    forall x: nat
      ensures Due(delay, d, population, times, i, x) == Due(delay, d, population, next, i, x)
    {
      SameDue(delay, d, population, times, next, i, x);
    }
  }

  /** The pending events are the first `k` ones. */
  ghost predicate Starts(delay: nat -> nat, d: nat, k: nat, pending: multiset<nat>) {
    forall x: nat :: pending[x] == Initial(delay, d, k, x)
  }

  lemma OneStarts(delay: nat -> nat, d: nat, k: nat, pending: multiset<nat>)
    requires Starts(delay, d, k, pending)
    ensures Starts(delay, d, k + 1, Added(pending, delay(d + k)))
  {
    hide Added, One;
    AddedCounts(pending, delay(d + k));
  }

  /** One more successor is scheduled. */
  lemma ScheduleOne(delay: nat -> nat, d: nat, population: nat, times: seq<nat>, n: nat, pending: multiset<nat>)
    requires n < |times| && Ledger(delay, d, population, times, n, pending)
    ensures Ledger(delay, d, population, times, n + 1, Added(pending, times[n] + delay(d + population + n)))
  {
    hide Added, Initial, Fired, One;
    AddedCounts(pending, times[n] + delay(d + population + n));
  }

  datatype Result = Result(pop: nat, events: nat)

  class Bench {
    const population: nat
    const total: nat
    /** The delays the random stream yields, and how many were drawn. */
    const delay: nat -> nat
    var drawn: nat
    var count: nat
    // the simulator
    var now: nat
    var pending: multiset<nat>
    var stopped: bool
    /** The firing times so far. */
    ghost var fired: seq<nat>

    constructor (population: nat, total: nat, delay: nat -> nat)
      ensures this.population == population && this.total == total && this.delay == delay
      ensures pending == multiset{} && now == 0 && count == 0
    {
      this.population, this.total, this.delay := population, total, delay;
      drawn, count, now, pending, stopped := 0, 0, 0, multiset{}, false;
      fired := [];
    }

    /** Time never goes back: what fired did so in order, and what is pending is not
        earlier. */
    ghost predicate Valid()
      reads this
    {
      && Sorted(fired)
      && (forall i :: 0 <= i < |fired| ==> fired[i] <= now)
      && (forall x :: x in pending ==> now <= x)
    }

    /** Schedule an event after the next delay of the stream. */
    method Schedule()
      requires Valid()
      modifies this`pending, this`drawn
      ensures Valid()
      ensures drawn == old(drawn) + 1
      ensures pending == Added(old(pending), now + delay(old(drawn)))
      ensures |pending| == |old(pending)| + 1
    {
      var at := now + delay(drawn);
      AddedCounts(pending, at);
      hide Added, Sorted;
      pending := Added(pending, at);
      drawn := drawn + 1;
    }

    /** The event function: the executing event plus the pending ones are the population,
        and remain so unless the benchmark stops. */
    method Cb()
      requires Valid() && !stopped && count <= total
      requires |pending| + 1 == population
      modifies this`pending, this`drawn, this`count, this`stopped
      ensures Valid()
      ensures stopped <==> old(count) == total
      ensures stopped ==> count == old(count) && pending == old(pending) && drawn == old(drawn)
      ensures !stopped ==> count == old(count) + 1 <= total && |pending| == population && drawn == old(drawn) + 1
      ensures !stopped ==> pending == Added(old(pending), now + delay(old(drawn)))
    {
      hide Added, Sorted;
      if count >= total {
        stopped := true;
        return;
      }
      Schedule();
      count := count + 1;
    }

    /** One benchmark run on an empty simulator. For a positive population it takes exactly
        one callback more than the total; without events nothing happens. The first events are
        due at the first delays of the stream, each callback but the last schedules one a
        further delay later, and always the earliest one fires. */
    method Run() returns (r: Result, ghost times: seq<nat>, ghost leftover: multiset<nat>)
      requires pending == multiset{} && now == 0
      modifies this
      ensures pending == multiset{} && now == 0
      ensures r == Result(population, if population > 0 then total else 0)
      ensures |times| == if population > 0 then total + 1 else 0
      ensures Sorted(times) && forall i, x :: 0 <= i < |times| && x in leftover ==> times[i] <= x
      ensures |leftover| == if population > 0 then population - 1 else 0
      ensures drawn == old(drawn) + if population > 0 then population + total else 0
      ensures FiresInOrder(delay, old(drawn), population, times)
      ensures Ledger(delay, old(drawn), population, times, if population > 0 then total else 0, leftover)
    {
      hide FiresInOrder, Ledger, Sorted;
      Populate();
      Execute(old(drawn));
      r := Result(population, count);
      times, leftover := fired, pending;
      now, pending := 0, multiset{};
    }

    method Populate()
      requires pending == multiset{} && now == 0
      modifies this
      ensures Valid() && now == 0 && count == 0 && !stopped && fired == []
      ensures |pending| == population && drawn == old(drawn) + population
      ensures Starts(delay, old(drawn), population, pending)
    {
      hide Added, Sorted, Starts;
      count, stopped := 0, false;
      fired := [];
      NothingFired(delay, drawn, population, pending);
      for i := 0 to population
        invariant Valid() && now == 0 && count == 0 && !stopped && fired == []
        invariant |pending| == i && drawn == old(drawn) + i
        invariant Starts(delay, old(drawn), i, pending)
      {
        OneStarts(delay, old(drawn), i, pending);
        Schedule();
      }
    }

    /** The main loop of the simulator, after `d` delays and those of the population were drawn. */
    method Execute(ghost d: nat)
      requires Valid() && count == 0 && !stopped && fired == [] && |pending| == population
      requires drawn == d + population
      requires Starts(delay, d, population, pending)
      modifies this
      ensures Valid()
      ensures if population == 0 then fired == [] && |pending| == 0 && count == 0
              else |fired| == total + 1 && |pending| == population - 1 && count == total
      ensures drawn == old(drawn) + count
      ensures FiresInOrder(delay, d, population, fired)
      ensures count <= |fired| && Ledger(delay, d, population, fired, count, pending)
    {
      hide FiresInOrder, Ledger, Sorted, Starts;
      NothingFired(delay, d, population, pending);
      while |pending| != 0 && !stopped
        invariant population == 0 ==> count == 0 && !stopped
        invariant Valid() && Underway(d)
        decreases !stopped, total - count
      {
        ExecuteOne(d);
      }
    }

    /** Where the run stands after `count` refills, `d` delays having been drawn before it. */
    ghost predicate Underway(d: nat)
      reads this
    {
      && count <= total
      && (!stopped ==> |pending| == population && |fired| == count)
      && (stopped ==> count == total && |pending| == population - 1 && |fired| == total + 1 && population > 0)
      && drawn == d + population + count
      && FiresInOrder(delay, d, population, fired)
      && Ledger(delay, d, population, fired, count, pending)
    }

    method ExecuteOne(ghost d: nat)
      requires Valid() && Underway(d) && !stopped && population > 0
      modifies this`pending, this`drawn, this`count, this`stopped, this`now, this`fired
      ensures Valid() && Underway(d)
      ensures stopped || count == old(count) + 1
    {
      hide FiresInOrder, Ledger, Sorted, Starts, Initial, Earliest, Added, Removed;
      ghost var q := pending;
      ExecuteNext();
      FireOne(delay, d, population, old(fired), q, now);
      if !stopped {
        ScheduleOne(delay, d, population, fired, count - 1, Removed(q, now));
      }
    }

    /** Take the earliest event off the list, advance the clock and call the event function. */
    method ExecuteNext()
      requires Valid() && !stopped && count <= total && |pending| == population > 0
      modifies this`pending, this`drawn, this`count, this`stopped, this`now, this`fired
      ensures Valid()
      ensures Earliest(old(pending), now) && fired == old(fired) + [now]
      ensures stopped <==> old(count) == total
      ensures stopped ==> count == old(count) && |pending| == population - 1 && drawn == old(drawn)
      ensures stopped ==> pending == Removed(old(pending), now)
      ensures !stopped ==> count == old(count) + 1 <= total && |pending| == population && drawn == old(drawn) + 1
      ensures !stopped ==> pending == Added(Removed(old(pending), now), now + delay(old(drawn)))
    {
      hide Added, Removed, Earliest, Sorted;
      PopEarliest();
      Cb();
    }

    method PopEarliest()
      requires Valid() && |pending| > 0
      modifies this`pending, this`now, this`fired
      ensures Valid()
      ensures Earliest(old(pending), now) && pending == Removed(old(pending), now)
      ensures |pending| + 1 == |old(pending)|
      ensures fired == old(fired) + [now]
    {
      hide Removed;
      ghost var e := EarliestExists(pending);
      var t: nat :| t in pending && forall x :: x in pending ==> t <= x;
      RemovedCounts(pending, t);
      now := t;
      pending := Removed(pending, t);
      fired := fired + [now];
    }
  }

  lemma NothingFired(delay: nat -> nat, d: nat, population: nat, pending: multiset<nat>)
    ensures Sorted([]) && FiresInOrder(delay, d, population, [])
    ensures Starts(delay, d, population, pending) ==> Ledger(delay, d, population, [], 0, pending)
    ensures Starts(delay, d, 0, multiset{})
  {
  }
}
