/** `politeness/spacing.py` and the loop of `tasks/sweep.py` that uses it: how far apart one
    batch's jobs are held, and which of them are queued at all. */
module Spacing {

  /** `gap_for`: the larger of two delays, a host that named none having named zero. */
  function GapFor(host: string, minimum: real, crawlDelays: map<string, real>): real {
    var asked := if host in crawlDelays then crawlDelays[host] else 0.0;
    if minimum < asked then asked else minimum
  }

  function Occurrences(hosts: seq<string>, host: string): nat {
    if hosts == [] then 0
    else Occurrences(hosts[..|hosts| - 1], host) + if hosts[|hosts| - 1] == host then 1 else 0
  }

  function Times(gaps: nat, gap: real): real {
    gaps as real * gap
  }

  /** Job `k` waits out one gap for each job of its own host before it. */
  function HeldBack(hosts: seq<string>, minimum: real, crawlDelays: map<string, real>, k: nat): real
    requires k < |hosts|
  {
    Times(Occurrences(hosts[..k], hosts[k]), GapFor(hosts[k], minimum, crawlDelays))
  }

  method Stagger(hosts: seq<string>, minimum: real, crawlDelays: map<string, real>) returns (held: seq<real>)
    ensures |held| == |hosts|
    ensures forall k :: 0 <= k < |hosts| ==> held[k] == HeldBack(hosts, minimum, crawlDelays, k)
  {
    var position: map<string, nat> := map[];
    held := [];
    for n := 0 to |hosts|
      invariant |held| == n
      invariant forall k :: 0 <= k < n ==> held[k] == HeldBack(hosts, minimum, crawlDelays, k)
      invariant forall host :: (if host in position then position[host] else 0) == Occurrences(hosts[..n], host)
    {
      var host := hosts[n];
      var at := if host in position then position[host] else 0;
      held := held + [Times(at, GapFor(host, minimum, crawlDelays))];
      position := position[host := at + 1];
      assert hosts[..n + 1][..n] == hosts[..n];
    }
  }

  lemma {:induction false} OccurrencesGrow(hosts: seq<string>, host: string, i: nat, j: nat)
    requires i <= j <= |hosts|
    ensures Occurrences(hosts[..i], host) <= Occurrences(hosts[..j], host)
    ensures i < j && hosts[i] == host ==> Occurrences(hosts[..i], host) < Occurrences(hosts[..j], host)
  {
    if i < j {
      assert hosts[..j][..j - 1] == hosts[..j - 1];
      OccurrencesGrow(hosts, host, i, j - 1);
    }
  }

  lemma MultipliedGap(few: nat, more: nat, gap: real)
    requires few < more && gap >= 0.0
    ensures Times(more, gap) >= Times(few, gap) + gap
  {
    assert (more - few - 1) as real * gap >= 0.0;
  }

  /** Any two jobs of one host in one batch are at least one gap apart, however the batch
      interleaves its hosts. */
  lemma OneGapApart(hosts: seq<string>, minimum: real, crawlDelays: map<string, real>, i: nat, j: nat)
    requires i < j < |hosts| && hosts[i] == hosts[j] && GapFor(hosts[i], minimum, crawlDelays) >= 0.0
    ensures HeldBack(hosts, minimum, crawlDelays, j)
         >= HeldBack(hosts, minimum, crawlDelays, i) + GapFor(hosts[i], minimum, crawlDelays)
  {
    OccurrencesGrow(hosts, hosts[i], i, j);
    var few, more := Occurrences(hosts[..i], hosts[i]), Occurrences(hosts[..j], hosts[j]);
    var gap := GapFor(hosts[i], minimum, crawlDelays);
    MultipliedGap(few, more, gap);
    assert HeldBack(hosts, minimum, crawlDelays, i) == Times(few, gap);
  }

  /** The delays of one host's jobs, in batch order. */
  function OwnDelays(hosts: seq<string>, minimum: real, crawlDelays: map<string, real>, host: string, n: nat): seq<real>
    requires n <= |hosts|
  {
    if n == 0 then []
    else
      var before := OwnDelays(hosts, minimum, crawlDelays, host, n - 1);
      if hosts[n - 1] == host then before + [HeldBack(hosts, minimum, crawlDelays, n - 1)] else before
  }

  /** No host delays another's: one host's jobs wait nothing, one gap, two gaps and so on,
      whatever else the batch holds. */
  lemma {:induction false} NoHostDelaysAnother(hosts: seq<string>, minimum: real, crawlDelays: map<string, real>,
                                               host: string, n: nat)
    requires n <= |hosts|
    ensures OwnDelays(hosts, minimum, crawlDelays, host, n)
         == Multiples(GapFor(host, minimum, crawlDelays), Occurrences(hosts[..n], host))
  {
    if n > 0 {
      NoHostDelaysAnother(hosts, minimum, crawlDelays, host, n - 1);
      assert hosts[..n][..n - 1] == hosts[..n - 1];
      if hosts[n - 1] == host {
        var before := Occurrences(hosts[..n - 1], host);
        assert Occurrences(hosts[..n], host) == before + 1;
        assert HeldBack(hosts, minimum, crawlDelays, n - 1) == Times(before, GapFor(host, minimum, crawlDelays));
      }
    }
  }

  /** Nothing, one gap, two gaps, and so on. */
  function Multiples(gap: real, count: nat): seq<real> {
    if count == 0 then [] else Multiples(gap, count - 1) + [Times(count - 1, gap)]
  }

  /** And the gap is the longer of the two delays: a job is held back from the one before it on its
      host by our own, by the host's if it asked for one, and by no more than one of them. */
  lemma LongerDelayWins(hosts: seq<string>, minimum: real, crawlDelays: map<string, real>, i: nat, j: nat)
    requires i < j < |hosts| && hosts[i] == hosts[j] && (forall k :: i < k < j ==> hosts[k] != hosts[i])
    ensures var wait := HeldBack(hosts, minimum, crawlDelays, j) - HeldBack(hosts, minimum, crawlDelays, i);
      var asked := if hosts[i] in crawlDelays then crawlDelays[hosts[i]] else 0.0;
      wait >= minimum && wait >= asked && (wait == minimum || wait == asked)
  {
    NoneBetween(hosts, i, j);
    OneMoreGap(Occurrences(hosts[..i], hosts[i]), GapFor(hosts[i], minimum, crawlDelays));
  }

  lemma {:induction false} NoneBetween(hosts: seq<string>, i: nat, j: nat)
    requires i < j <= |hosts| && (forall k :: i < k < j ==> hosts[k] != hosts[i])
    ensures Occurrences(hosts[..j], hosts[i]) == Occurrences(hosts[..i], hosts[i]) + 1
  {
    assert hosts[..j][..j - 1] == hosts[..j - 1];
    if j > i + 1 { NoneBetween(hosts, i, j - 1); }
  }

  lemma OneMoreGap(count: nat, gap: real)
    ensures Times(count + 1, gap) == Times(count, gap) + gap
  {
  }
}
