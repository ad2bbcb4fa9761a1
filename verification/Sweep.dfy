/** `tasks/sweep.py`: a batch put into the queue at its staggered times, less what waits already. */
module Sweep {
  import opened RunLog
  import opened Spacing
  import Jobs

  /** `hosts or [""] * len(keys)`. */
  function Visiting(hosts: seq<string>, keys: nat): (r: seq<string>)
    requires hosts == [] || |hosts| == keys
    ensures |r| == keys
  {
    if hosts == [] then seq(keys, i => "") else hosts
  }

  /** When each job of a batch may run. */
  function ReadyAt(hosts: seq<string>, minimum: real, crawlDelays: map<string, real>, now: Time): (r: seq<Time>)
    ensures |r| == |hosts|
  {
    seq(|hosts|, k requires 0 <= k < |hosts| => now + HeldBack(hosts, minimum, crawlDelays, k))
  }

  lemma GrownByOne<K>(jobs: map<K, Time>, key: K, readyAt: Time)
    requires key !in jobs
    ensures |jobs[key := readyAt]| == |jobs| + 1
  {
    assert jobs[key := readyAt].Keys == jobs.Keys + {key};
  }

  /** The jobs waiting under a queueing lock, by subject. */
  class Waiting<K(==)> {
    var jobs: map<K, Time>

    constructor ()
      ensures jobs == map[]
    {
      jobs := map[];
    }

    method DeferUnlessQueued(key: K, readyAt: Time) returns (deferred: bool)
      modifies this
      ensures deferred <==> key !in old(jobs)
      ensures jobs == if deferred then old(jobs)[key := readyAt] else old(jobs)
    {
      deferred := key !in jobs;
      if deferred {
        jobs := jobs[key := readyAt];
      }
    }

    /** What goes out is what was not waiting, counted; a job already waiting keeps its time. */
    method DeferEach(keys: seq<K>, hosts: seq<string>, minimum: real, crawlDelays: map<string, real>, now: Time)
      returns (deferred: nat)
      requires hosts == [] || |hosts| == |keys|
      modifies this
      ensures jobs == Jobs.DeferAll(old(jobs), keys, ReadyAt(Visiting(hosts, |keys|), minimum, crawlDelays, now))
      ensures deferred == |jobs| - |old(jobs)|
    {
      var visiting := Visiting(hosts, |keys|);
      var delays := Stagger(visiting, minimum, crawlDelays);
      ghost var was, ready := jobs, ReadyAt(visiting, minimum, crawlDelays, now);
      deferred := 0;
      for n := 0 to |keys|
        invariant jobs == Jobs.DeferAll(was, keys[..n], ready[..n])
        invariant deferred == |jobs| - |was|
      {
        assert keys[..n + 1][..n] == keys[..n] && ready[..n + 1][..n] == ready[..n];
        ghost var before := jobs;
        var out := DeferUnlessQueued(keys[n], now + delays[n]);
        if out {
          deferred := deferred + 1;
          GrownByOne(before, keys[n], now + delays[n]);
        }
      }
      assert keys[..|keys|] == keys && ready[..|keys|] == ready;
    }
  }

  /** Two jobs one sweep put in the queue for one host are at least one gap apart, even when
      subjects between them were already waiting and were skipped. */
  lemma QueuedApart<K>(was: map<K, Time>, keys: seq<K>, hosts: seq<string>, minimum: real,
                       crawlDelays: map<string, real>, now: Time, i: nat, j: nat)
    requires |hosts| == |keys| && i < j < |keys| && hosts[i] == hosts[j]
    requires GapFor(hosts[i], minimum, crawlDelays) >= 0.0
    requires Jobs.NoRepeats(keys) && keys[i] !in was && keys[j] !in was
    ensures var jobs := Jobs.DeferAll(was, keys, ReadyAt(hosts, minimum, crawlDelays, now));
      && keys[i] in jobs && keys[j] in jobs
      && jobs[keys[j]] >= jobs[keys[i]] + GapFor(hosts[i], minimum, crawlDelays)
  {
    var ready := ReadyAt(hosts, minimum, crawlDelays, now);
    QueuedWhenReady(was, keys, ready, i);
    QueuedWhenReady(was, keys, ready, j);
    OneGapApart(hosts, minimum, crawlDelays, i, j);
  }

  lemma {:induction false} QueuedWhenReady<K>(was: map<K, Time>, keys: seq<K>, ready: seq<Time>, i: nat)
    requires |ready| == |keys| && i < |keys| && Jobs.NoRepeats(keys) && keys[i] !in was
    ensures keys[i] in Jobs.DeferAll(was, keys, ready) && Jobs.DeferAll(was, keys, ready)[keys[i]] == ready[i]
  {
    var n := |keys| - 1;
    Jobs.DeferAllKeys(was, keys[..n], ready[..n]);
    if i < n {
      QueuedWhenReady(was, keys[..n], ready[..n], i);
    } else {
      assert keys[n] !in keys[..n];
    }
  }
}
