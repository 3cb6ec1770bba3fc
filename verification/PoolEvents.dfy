/** ThreadPool stated over the events of a run alone: nothing is lost, and what a shutdown drains. */
module PoolEvents {
  import opened Options
  import opened ThreadPool

  // ---------- What the events alone say ----------

  /** Every entry that a client pushed. */
  function Pushed(es: seq<Event>): multiset<Entry> {
    if es == [] then multiset{} else PushedBy(es[0]) + Pushed(es[1..])
  }

  function PushedBy(e: Event): multiset<Entry> { if e.Push? then multiset{e.x} else multiset{} }

  /** Every entry that was put in the queue, in order; a sentinel is a NULL. */
  function Entered(es: seq<Event>): seq<Entry> {
    if es == [] then [] else EnteredBy(es[0]) + Entered(es[1..])
  }

  function EnteredBy(e: Event): seq<Entry> {
    match e
    case Enqueue(x, _) => [x]
    case Sentinel(_) => [Null]
    case _ => []
  }

  function SentinelCount(es: seq<Event>): nat {
    if es == [] then 0 else (if es[0].Sentinel? then 1 else 0) + SentinelCount(es[1..])
  }

  lemma StepTells(s: Pool, e: Event)
    requires Enabled(s, e)
    ensures Apply(s, e).accepted == s.accepted + PushedBy(e)
    ensures Apply(s, e).enqueued == s.enqueued + EnteredBy(e)
  {
    assert s.accepted + multiset{} == s.accepted && s.enqueued + [] == s.enqueued;
  }

  lemma {:induction false} EventsTell(s: Pool, es: seq<Event>, end: Pool)
    requires Runs(s, es, end)
    ensures end.accepted == s.accepted + Pushed(es)
    ensures end.enqueued == s.enqueued + Entered(es)
    decreases |es|
  {
    hide Apply, Enabled, PushedBy, EnteredBy;
    if es == [] {
      assert s.accepted + multiset{} == s.accepted && s.enqueued + [] == s.enqueued;
    } else {
      var s' := Apply(s, es[0]);
      StepTells(s, es[0]);
      EventsTell(s', es[1..], end);
      assert s.accepted + PushedBy(es[0]) + Pushed(es[1..]) == s.accepted + (PushedBy(es[0]) + Pushed(es[1..]));
      assert s.enqueued + EnteredBy(es[0]) + Entered(es[1..]) == s.enqueued + (EnteredBy(es[0]) + Entered(es[1..]));
    }
  }

  lemma RunTells(n: nat, es: seq<Event>, s: Pool)
    requires Runs(Init(n), es, s)
    ensures s.accepted == Pushed(es) && s.enqueued == Entered(es)
  {
    EventsTell(Init(n), es, s);
    assert Init(n).accepted + Pushed(es) == Pushed(es) && Init(n).enqueued + Entered(es) == Entered(es);
  }

  /** No wake-up is lost and nothing is lost, duplicated or reordered, in any run of any pool: what was
      put in the queue is what was taken from it and what is in it, and what was pushed, with one NULL
      for each sentinel, is in flight, in the queue, with a worker, or done. */
  lemma EveryRun(n: nat, es: seq<Event>, s: Pool)
    requires Runs(Init(n), es, s)
    ensures WakeUp(s)
    ensures Entered(es) == s.dequeued + s.queue
    ensures Pushed(es) + multiset{}[Null := SentinelCount(es)]
            == s.inflight + multiset(s.queue) + HeldAll(s.workers) + multiset(s.finished)
  {
    hide Inv, Runs, Apply, Enabled, HeldAll, WakeUp, Pushed, Entered, SentinelCount;
    InitInv(n);
    RunInv(Init(n), es, s);
    RunTells(n, es, s);
    SentinelsTell(Init(n), es, s);
    Accounts(s);
  }

  lemma Accounts(s: Pool)
    requires Inv(s)
    ensures WakeUp(s) && s.enqueued == s.dequeued + s.queue
    ensures s.accepted + multiset{}[Null := SentinelsSent(s)]
            == s.inflight + multiset(s.queue) + HeldAll(s.workers) + multiset(s.finished)
  {
    hide WakeUp, Supplied, HeldAll;
    assert multiset(s.enqueued) == multiset(s.dequeued) + multiset(s.queue);
  }

  /** The destroyer's own count of the sentinels it has sent. */
  lemma OneSentinel(s: Pool, e: Event)
    requires Enabled(s, e) && (s.destroyer.Stopping? ==> s.destroyer.left <= |s.workers|)
    ensures SentinelsSent(Apply(s, e)) == SentinelsSent(s) + if e.Sentinel? then 1 else 0
    ensures var s' := Apply(s, e); s'.destroyer.Stopping? ==> s'.destroyer.left <= |s'.workers|
  {
    WorkersKept(s, e);
    hide Signal, SignalChoice;
  }

  lemma WorkersKept(s: Pool, e: Event)
    requires Enabled(s, e)
    ensures |Apply(s, e).workers| == |s.workers|
  {
    match e
    case Enqueue(_, wake) => assert |Signal(s.workers, wake)| == |s.workers|;
    case Sentinel(wake) => assert |Signal(s.workers, wake)| == |s.workers|;
    case _ => hide Signal;
  }

  lemma {:induction false} SentinelsTell(s: Pool, es: seq<Event>, end: Pool)
    requires Runs(s, es, end) && (s.destroyer.Stopping? ==> s.destroyer.left <= |s.workers|)
    ensures SentinelsSent(end) == SentinelsSent(s) + SentinelCount(es)
    decreases |es|
  {
    hide Apply, Enabled, SentinelsSent;
    if es != [] {
      OneSentinel(s, es[0]);
      SentinelsTell(Apply(s, es[0]), es[1..], end);
    }
  }

  // ---------- Drain ----------

  ghost predicate AllGone(s: Pool) {
    forall i :: 0 <= i < |s.workers| ==> s.workers[i] == Exited
  }

  /** The dequeued entries are exactly those enqueued up to and including the last of the n
      sentinels; every task among them ran exactly once; every worker took exactly one sentinel; what
      is left are the tasks enqueued after that sentinel. */
  ghost predicate Drained(n: nat, entered: seq<Entry>, s: Pool) {
    var p := |s.dequeued|;
    && 0 < p <= |entered| && entered[p - 1] == Null && Nulls(entered[..p]) == n
    && s.dequeued == entered[..p] && s.queue == entered[p..]
    && Null !in s.queue
    && multiset(s.finished) == multiset(entered[..p])[Null := 0]
    && (forall i: nat :: i < n ==> s.takes[(i, Null)] == 1)
    && s.destroyer.Stopping? && s.destroyer.left == 0
  }

  /** Drain: with no NULL from clients this holds whenever the last worker has exited. */
  lemma Drain(n: nat, es: seq<Event>, s: Pool)
    requires Runs(Init(n), es, s) && Clean(es) && n > 0 && AllGone(s)
    ensures Drained(n, Entered(es), s)
  {
    InitMatched(n);
    RunMatched(Init(n), es, s);
    RunTells(n, es, s);
    hide *;
    DrainedWhenGone(s);
  }

  lemma DrainedWhenGone(s: Pool)
    requires Inv(s) && Matched(s) && |s.workers| > 0 && AllGone(s)
    ensures Drained(|s.workers|, s.enqueued, s)
  {
    hide Inv, Matched, Accounted, Sum, HeldAll, Nulls, AllGone;
    Stopped(s);
    SentinelsTaken(s);
    TakenOnce(s);
    FinishedExactly(s);
    var p := |s.dequeued|;
    assert s.enqueued[..p] == s.dequeued && s.enqueued[p..] == s.queue;
  }

  /** The workers have taken every sentinel, the last of them last of all. */
  lemma SentinelsTaken(s: Pool)
    requires Inv(s) && Matched(s) && |s.workers| > 0 && AllGone(s)
    ensures Nulls(s.dequeued) == |s.workers| && Null !in s.queue && s.destroyer.left == 0
    ensures s.dequeued != [] && s.dequeued[|s.dequeued| - 1] == Null
  {
    Stopped(s);
    MatchedCounts(s);
    SumOfEqual(s.workers, Exited, Live);
    hide Inv, Sum, HeldAll;
  }

  lemma Stopped(s: Pool)
    requires Inv(s) && |s.workers| > 0 && AllGone(s)
    ensures Ordered(s.enqueued, s.dequeued, s.queue) && Accounted(s.dequeued, s.workers, s.finished)
    ensures !s.running && s.destroyer.Stopping? && s.destroyer.left <= |s.workers|
  {
    assert s.workers[0] == Exited;
  }

  /** All that was dequeued, but for the sentinels, is finished. */
  lemma FinishedExactly(s: Pool)
    requires Accounted(s.dequeued, s.workers, s.finished) && AllGone(s) && Matched(s)
    ensures multiset(s.finished) == multiset(s.dequeued)[Null := 0]
  {
    HeldByExited(s.workers);
    assert Null !in multiset(s.finished);
  }

  lemma TakenOnce(s: Pool)
    requires Matched(s) && AllGone(s)
    ensures forall i: nat :: i < |s.workers| ==> s.takes[(i, Null)] == 1
  {
    hide Sum, Nulls;
  }
}
