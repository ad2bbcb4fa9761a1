/** The job queue as the sweeps see it: at most one waiting job per subject, at most one running
    job per host, and any number of sweeps between choosing their batch and queueing it. */
module Jobs {
  import opened RunLog

  type Host = string

  /** `claims` is each sweep in flight: what it chose and has not queued yet. */
  datatype Queue<V(==)> = Queue(claims: map<nat, seq<V>>, waiting: map<V, Time>, running: map<Host, V>)

  function Idle<V>(): Queue<V> {
    Queue(map[], map[], map[])
  }

  function Select<V>(q: Queue<V>, id: nat, batch: seq<V>): Queue<V> {
    q.(claims := q.claims[id := batch])
  }

  /** `defer_unless_queued` for the next subject of a sweep: dropped if one already waits. */
  function Defer<V>(q: Queue<V>, id: nat, readyAt: Time): Queue<V>
    requires id in q.claims && q.claims[id] != []
  {
    var v, rest := q.claims[id][0], q.claims[id][1..];
    Queue(if rest == [] then q.claims - {id} else q.claims[id := rest],
          if v in q.waiting then q.waiting else q.waiting[v := readyAt], q.running)
  }

  /** `defer_each`, subject by subject. */
  function DeferAll<V>(waiting: map<V, Time>, batch: seq<V>, readyAt: seq<Time>): map<V, Time>
    requires |readyAt| == |batch|
  {
    if batch == [] then waiting
    else
      var n := |batch| - 1;
      var before := DeferAll(waiting, batch[..n], readyAt[..n]);
      if batch[n] in before then before else before[batch[n] := readyAt[n]]
  }

  function Start<V>(q: Queue<V>, v: V, host: Host): Queue<V>
    requires v in q.waiting
  {
    q.(waiting := q.waiting - {v}, running := q.running[host := v])
  }

  function Finish<V>(q: Queue<V>, host: Host): Queue<V> {
    q.(running := q.running - {host})
  }

  // -------------------------------------------------------------------------------------
  // How many jobs for one subject are still to finish.

  ghost function Claiming<V>(q: Queue<V>, v: V): set<nat> {
    set id | id in q.claims && v in q.claims[id]
  }

  ghost function Pending<V>(q: Queue<V>, hostOf: V -> Host, v: V): nat {
    |Claiming(q, v)| + (if v in q.waiting then 1 else 0)
    + (if hostOf(v) in q.running && q.running[hostOf(v)] == v then 1 else 0)
  }

  ghost predicate NoRepeats<V>(batch: seq<V>) {
    forall i, j :: 0 <= i < j < |batch| ==> batch[i] != batch[j]
  }

  /** What the queueing locks and the host locks keep, with at most `sweeps` sweeps in flight. */
  ghost predicate Locked<V(!new)>(q: Queue<V>, hostOf: V -> Host, sweeps: nat) {
    && |q.claims| <= sweeps
    && (forall id :: id in q.claims ==> q.claims[id] != [] && NoRepeats(q.claims[id]))
    && (forall host :: host in q.running ==> hostOf(q.running[host]) == host)
  }

  lemma {:induction false} ClaimingFits<V>(q: Queue<V>, v: V)
    ensures |Claiming(q, v)| <= |q.claims|
  {
    SubsetFits(Claiming(q, v), q.claims.Keys);
  }

  lemma {:induction false} SubsetFits<T>(a: set<T>, b: set<T>)
    requires a <= b
    ensures |a| <= |b|
  {
    if a != {} {
      var x :| x in a;
      SubsetFits(a - {x}, b - {x});
    }
  }

  lemma ClaimingSelected<V>(q: Queue<V>, id: nat, batch: seq<V>, v: V)
    requires id !in q.claims
    ensures |Claiming(Select(q, id, batch), v)| == |Claiming(q, v)| + (if v in batch then 1 else 0)
  {
    var before, after := Claiming(q, v), Claiming(Select(q, id, batch), v);
    assert id !in before;
    if v in batch {
      assert after == before + {id};
    } else {
      assert after == before;
    }
  }

  lemma SelectStep<V>(q: Queue<V>, hostOf: V -> Host, id: nat, batch: seq<V>, v: V)
    requires id !in q.claims
    ensures |Select(q, id, batch).claims| == |q.claims| + 1
    ensures Pending(Select(q, id, batch), hostOf, v) == Pending(q, hostOf, v) + (if v in batch then 1 else 0)
  {
    assert Select(q, id, batch).claims.Keys == q.claims.Keys + {id};
    ClaimingSelected(q, id, batch, v);
  }

  /** Queueing a claim never adds to what is pending: it moves a job on, or drops it. */
  lemma DeferStep<V>(q: Queue<V>, hostOf: V -> Host, id: nat, readyAt: Time, v: V)
    requires id in q.claims && q.claims[id] != [] && NoRepeats(q.claims[id])
    ensures Pending(Defer(q, id, readyAt), hostOf, v) <= Pending(q, hostOf, v)
    ensures |Defer(q, id, readyAt).claims| <= |q.claims|
  {
    var r := Defer(q, id, readyAt);
    var batch := q.claims[id];
    SubsetFits(r.claims.Keys, q.claims.Keys);
    assert forall u :: u in batch <==> u == batch[0] || u in batch[1..];
    if v == batch[0] {
      assert v !in batch[1..];
      assert Claiming(r, v) == Claiming(q, v) - {id} && id in Claiming(q, v);
    } else {
      assert Claiming(r, v) == Claiming(q, v);
    }
  }

  lemma {:induction false} DeferAllKeys<V>(waiting: map<V, Time>, batch: seq<V>, readyAt: seq<Time>)
    requires |readyAt| == |batch|
    ensures forall v :: v in DeferAll(waiting, batch, readyAt) <==> v in waiting || v in batch
    ensures forall v :: v in waiting ==> DeferAll(waiting, batch, readyAt)[v] == waiting[v]
  {
    if batch != [] {
      var n := |batch| - 1;
      DeferAllKeys(waiting, batch[..n], readyAt[..n]);
      assert batch == batch[..n] + [batch[n]];
    }
  }

  lemma StartStep<V>(q: Queue<V>, hostOf: V -> Host, started: V, v: V)
    requires started in q.waiting && hostOf(started) !in q.running
    ensures Pending(Start(q, started, hostOf(started)), hostOf, v) == Pending(q, hostOf, v)
  {
    assert Claiming(Start(q, started, hostOf(started)), v) == Claiming(q, v);
  }

  lemma FinishStep<V>(q: Queue<V>, hostOf: V -> Host, host: Host, v: V)
    requires host in q.running && hostOf(q.running[host]) == host
    ensures Pending(Finish(q, host), hostOf, v) == Pending(q, hostOf, v) - (if q.running[host] == v then 1 else 0)
  {
    assert Claiming(Finish(q, host), v) == Claiming(q, v);
  }

  /** The invariant behind every retry bound. A subject whose tries are below the cap may be
      chosen; once they are not, its tries and its jobs still to finish cannot outgrow the cap by
      more than one and a sweep's worth each. */
  ghost predicate Bounded(tries: nat, pending: nat, cap: nat, sweeps: nat) {
    tries < cap || tries + pending <= cap + 1 + sweeps
  }
}
