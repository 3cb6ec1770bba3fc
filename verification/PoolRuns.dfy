/** Runs of ThreadPool that are built step by step: what a NULL from a client does to the drain, and
    that every task can be run. */
module PoolRuns {
  import opened Options
  import opened ThreadPool
  import opened PoolEvents

  /** Clients push only entries of this set. */
  ghost predicate PushesFrom(es: seq<Event>, items: iset<Entry>) {
    forall i :: 0 <= i < |es| && es[i].Push? ==> es[i].x in items
  }

  ghost predicate Drains(n: nat, items: iset<Entry>, es: seq<Event>, s: Pool) {
    Runs(Init(n), es, s) && PushesFrom(es, items) && AllGone(s) ==> Drained(n, Entered(es), s)
  }

  /** The hypothesis on clients is exact: whatever they may push, every shutdown drains if and only
      if NULL is not among it. */
  lemma DrainIff(n: nat, items: iset<Entry>)
    requires n > 0
    ensures (forall es, s :: Drains(n, items, es, s)) <==> Null !in items
  {
    if Null in items {
      var es, s := ClientNullLeavesSentinel(n);
      assert Null in s.queue;
      assert !Drains(n, items, es, s);
    } else {
      forall es, s ensures Drains(n, items, es, s) {
        if Runs(Init(n), es, s) && PushesFrom(es, items) && AllGone(s) {
          assert Clean(es);
          Drain(n, es, s);
        }
      }
    }
  }

  function Sentinels(k: nat): seq<Entry> { seq(k, _ => Null) }

  ghost predicate AllReady(n: nat, s: Pool) {
    |s.workers| == n && forall j :: 0 <= j < n ==> s.workers[j] == Ready
  }

  /** A NULL pushed while the pool runs is taken after `running` is cleared: its taker exits on it,
      each worker takes one entry, and a sentinel stays in the queue. */
  lemma ClientNullLeavesSentinel(n: nat) returns (es: seq<Event>, s: Pool)
    ensures Runs(Init(n), es, s) && PushesFrom(es, iset{Null})
    ensures AllGone(s) && s.queue == [Null]
  {
    hide Runs;
    es, s := [], Init(n);
    assert Runs(Init(n), es, s) by { NoEvents(s); }
    es, s := Then(n, es, s, Push(Null));
    es, s := Then(n, es, s, Enqueue(Null, None));
    assert s.queue == Sentinels(1);
    es, s := Shutdown(n, es, s, 1, iset{Null});
  }

  /** With nobody busy and nothing but NULLs in the queue, shutdown sends its sentinels, the workers
      take one entry each, and destroy joins them. */
  lemma Shutdown(n: nat, es: seq<Event>, s: Pool, k: nat, items: iset<Entry>) returns (es': seq<Event>, s': Pool)
    requires Runs(Init(n), es, s) && PushesFrom(es, items) && AllReady(n, s) && s.destroyer.NotCalled?
    requires s.queue == Sentinels(k)
    ensures Runs(Init(n), es', s') && PushesFrom(es', items) && AllGone(s') && Completed(s')
    ensures s'.queue == Sentinels(k) && s'.finished == s.finished && s'.accepted == s.accepted
    ensures s.enqueued <= s'.enqueued
  {
    hide Runs;
    es', s' := Then(n, es, s, Stop);
    es', s' := SendSentinels(n, es', s', k, items);
    es', s' := WorkersExit(n, es', s', k + n, items);
    es', s' := JoinAll(n, es', s', items);
  }

  lemma SendSentinels(n: nat, es: seq<Event>, s: Pool, k: nat, items: iset<Entry>) returns (es': seq<Event>, s': Pool)
    requires Runs(Init(n), es, s) && PushesFrom(es, items) && AllReady(n, s) && !s.running
    requires s.destroyer == Stopping(n, 0) && s.queue == Sentinels(k)
    ensures Runs(Init(n), es', s') && PushesFrom(es', items) && AllReady(n, s') && !s'.running
    ensures s'.destroyer == Stopping(0, 0) && s'.queue == Sentinels(k + n)
    ensures s'.finished == s.finished && s'.accepted == s.accepted && s.enqueued <= s'.enqueued
  {
    hide Runs;
    es', s' := es, s;
    var i := 0;
    while i < n
      invariant i <= n && Runs(Init(n), es', s') && PushesFrom(es', items) && AllReady(n, s') && !s'.running
      invariant s'.destroyer == Stopping(n - i, 0) && s'.queue == Sentinels(k + i)
      invariant s'.finished == s.finished && s'.accepted == s.accepted && s.enqueued <= s'.enqueued
    {
      assert Sentinels(k + i) + [Null] == Sentinels(k + i + 1);
      es', s' := Then(n, es', s', Sentinel(None));
      i := i + 1;
    }
  }

  lemma WorkersExit(n: nat, es: seq<Event>, s: Pool, k: nat, items: iset<Entry>) returns (es': seq<Event>, s': Pool)
    requires Runs(Init(n), es, s) && PushesFrom(es, items) && AllReady(n, s) && !s.running
    requires s.queue == Sentinels(k) && k >= n
    ensures Runs(Init(n), es', s') && PushesFrom(es', items) && AllGone(s') && |s'.workers| == n && !s'.running
    ensures s'.queue == Sentinels(k - n) && s'.destroyer == s.destroyer
    ensures s'.finished == s.finished && s'.accepted == s.accepted && s'.enqueued == s.enqueued
  {
    hide Runs;
    es', s' := es, s;
    var i := 0;
    while i < n
      invariant i <= n == |s'.workers| && Runs(Init(n), es', s') && PushesFrom(es', items) && !s'.running
      invariant forall j :: 0 <= j < n ==> s'.workers[j] == if j < i then Exited else Ready
      invariant s'.queue == Sentinels(k - i) && s'.destroyer == s.destroyer
      invariant s'.finished == s.finished && s'.accepted == s.accepted && s'.enqueued == s.enqueued
    {
      assert Sentinels(k - i)[1..] == Sentinels(k - i - 1);
      es', s' := Then(n, es', s', Acquire(i));
      es', s' := Then(n, es', s', Test(i));
      i := i + 1;
    }
  }

  lemma JoinAll(n: nat, es: seq<Event>, s: Pool, items: iset<Entry>) returns (es': seq<Event>, s': Pool)
    requires Runs(Init(n), es, s) && PushesFrom(es, items) && AllGone(s) && |s.workers| == n
    requires s.destroyer == Stopping(0, 0)
    ensures Runs(Init(n), es', s') && PushesFrom(es', items) && Completed(s')
    ensures s' == s.(destroyer := Stopping(0, n))
  {
    hide Runs;
    es', s' := es, s;
    var i := 0;
    while i < n
      invariant i <= n && Runs(Init(n), es', s') && PushesFrom(es', items)
      invariant s' == s.(destroyer := Stopping(0, i))
    {
      es', s' := Then(n, es', s', Join);
      i := i + 1;
    }
  }

  lemma NoEvents(s: Pool)
    ensures Runs(s, [], s)
  {
  }

  lemma Then(n: nat, es: seq<Event>, s: Pool, e: Event) returns (es': seq<Event>, s': Pool)
    requires Runs(Init(n), es, s) && Enabled(s, e)
    ensures Runs(Init(n), es', s') && s' == Apply(s, e) && es' == es + [e]
  {
    es', s' := es + [e], Apply(s, e);
    assert [e][1..] == [];
    assert Runs(s', [e][1..], s');
    RunsAppend(Init(n), es, s, [e], s');
  }

  // ---------- Every task can run ----------

  /** Any tasks, pushed one after the other, are all run in that order, and the pool shuts down: no step
      on the way is impossible. */
  lemma TasksCanRun(n: nat, tasks: seq<nat>) returns (es: seq<Event>, s: Pool)
    requires n > 0
    ensures Runs(Init(n), es, s) && Completed(s)
    ensures Pushed(es) == multiset(AsTasks(tasks)) && AsTasks(tasks) <= Entered(es)
    ensures s.finished == AsTasks(tasks)
  {
    hide Runs;
    es, s := RunTasks(n, tasks);
    es, s := Shutdown(n, es, s, 0, iset i | 0 <= i < |es| && es[i].Push? :: es[i].x);
    RunTells(n, es, s);
  }

  lemma {:induction false} RunTasks(n: nat, tasks: seq<nat>) returns (es: seq<Event>, s: Pool)
    requires n > 0
    ensures Runs(Init(n), es, s) && AllReady(n, s) && s.destroyer.NotCalled? && s.running && s.queue == Sentinels(0)
    ensures s.enqueued == AsTasks(tasks) == s.finished && s.accepted == multiset(AsTasks(tasks))
  {
    hide Runs;
    if tasks == [] {
      es, s := [], Init(n);
      assert Runs(Init(n), es, s) by { NoEvents(s); }
    } else {
      var last := |tasks| - 1;
      es, s := RunTasks(n, tasks[..last]);
      assert AsTasks(tasks) == AsTasks(tasks[..last]) + [Task(tasks[last])];
      es, s := RunTask(n, es, s, Task(tasks[last]));
    }
  }

  /** A push that has passed the `running` test can always be finished, also after the pool is stopped. */
  lemma PushCompletes(s: Pool, x: Entry) returns (wake: Option<nat>)
    requires x in s.inflight
    ensures Enabled(s, Enqueue(x, wake)) && Apply(s, Enqueue(x, wake)).queue == s.queue + [x]
  {
    wake := SomeSignal(s.workers);
  }

  /** A sleeping worker may wake unasked at any time, and then looks at the queue again. */
  lemma WakesUnasked(s: Pool, i: nat)
    requires i < |s.workers| && s.workers[i] == Asleep
    ensures Enabled(s, Spurious(i)) && Enabled(Apply(s, Spurious(i)), Acquire(i))
    ensures Apply(s, Spurious(i)).workers[i] != Asleep
  {
  }

  lemma RunTask(n: nat, es: seq<Event>, s: Pool, x: Entry) returns (es': seq<Event>, s': Pool)
    requires n > 0 && Runs(Init(n), es, s) && AllReady(n, s) && s.destroyer.NotCalled? && s.running && s.queue == []
    ensures Runs(Init(n), es', s') && AllReady(n, s') && s'.destroyer.NotCalled? && s'.running && s'.queue == []
    ensures s'.enqueued == s.enqueued + [x] && s'.finished == s.finished + [x] && s'.accepted == s.accepted + multiset{x}
  {
    hide Runs;
    es', s' := Then(n, es, s, Push(x));
    es', s' := Then(n, es', s', Enqueue(x, None));
    es', s' := ServeOne(n, es', s', x);
  }

  lemma ServeOne(n: nat, es: seq<Event>, s: Pool, x: Entry) returns (es': seq<Event>, s': Pool)
    requires n > 0 && Runs(Init(n), es, s) && AllReady(n, s) && s.running && s.queue == [x]
    ensures Runs(Init(n), es', s') && AllReady(n, s') && s'.running && s'.queue == [] && s'.destroyer == s.destroyer
    ensures s'.enqueued == s.enqueued && s'.finished == s.finished + [x] && s'.accepted == s.accepted
  {
    hide Runs;
    es', s' := Then(n, es, s, Acquire(0));
    es', s' := Then(n, es', s', Test(0));
    es', s' := Then(n, es', s', Return(0));
  }

  function AsTasks(ids: seq<nat>): (r: seq<Entry>)
    ensures |r| == |ids|
  {
    seq(|ids|, i requires 0 <= i < |ids| => Task(ids[i]))
  }
}
