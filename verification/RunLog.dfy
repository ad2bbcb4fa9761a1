/** `run_of` of `db/base.py`: a count and a stamp computed from a log whenever they are wanted, and
    when they are those a writer would have kept. */
module RunLog {
  import opened Wrappers

  type Time = real

  /** The four questions `run_of` is handed: a row's clock, whose log it belongs to, and
      whether it lengthens a run or ends one. */
  datatype Reading<!R> = Reading(at: R -> Time, scope: R -> bool, counts: R -> bool, resets: R -> bool)

  datatype Run = Run(length: nat, latest: Option<Time>)

  function Max(a: Time, b: Time): Time {
    if a < b then b else a
  }

  /** `max(at)` over the rows of one scope that reset, None when there are none. */
  function ResetAt<R>(log: seq<R>, q: Reading<R>): Option<Time> {
    if log == [] then None
    else
      var row, earlier := log[|log| - 1], ResetAt(log[..|log| - 1], q);
      if q.scope(row) && q.resets(row)
      then Some(if earlier.Some? then Max(earlier.value, q.at(row)) else q.at(row))
      else earlier
  }

  predicate Counted<R>(row: R, q: Reading<R>, reset: Option<Time>) {
    q.scope(row) && q.counts(row) && (reset.None? || q.at(row) > reset.value)
  }

  /** The rows `tail` selects once the reset is known. */
  function Tail<R>(log: seq<R>, q: Reading<R>, reset: Option<Time>): seq<R> {
    if log == [] then []
    else
      var row, earlier := log[|log| - 1], Tail(log[..|log| - 1], q, reset);
      if Counted(row, q, reset) then earlier + [row] else earlier
  }

  function Latest<R>(rows: seq<R>, q: Reading<R>): Option<Time> {
    if rows == [] then None
    else
      var earlier := Latest(rows[..|rows| - 1], q);
      var at := q.at(rows[|rows| - 1]);
      Some(if earlier.Some? then Max(earlier.value, at) else at)
  }

  function RunOf<R>(log: seq<R>, q: Reading<R>): Run {
    var rows := Tail(log, q, ResetAt(log, q));
    Run(|rows|, Latest(rows, q))
  }

  /** The counter a writer would have kept beside the log instead. */
  function Stored<R>(log: seq<R>, q: Reading<R>): Run {
    if log == [] then Run(0, None)
    else
      var row, before := log[|log| - 1], Stored(log[..|log| - 1], q);
      if !q.scope(row) then before
      else if q.resets(row) then Run(0, None)
      else if q.counts(row) then Run(before.length + 1, Some(q.at(row)))
      else before
  }

  /** What an append has to satisfy for the derived length to follow the counter: a counting
      row is later than every reset, a reset no earlier than the run it ends. */
  predicate AppendInOrder<R>(log: seq<R>, q: Reading<R>, row: R) {
    q.scope(row) ==>
      if q.resets(row) then
        RunOf(log, q).latest.Some? ==> RunOf(log, q).latest.value <= q.at(row)
      else
        q.counts(row) && ResetAt(log, q).Some? ==> ResetAt(log, q).value < q.at(row)
  }

  /** Every row of one scope is later than the ones before it. */
  ghost predicate Chronological<R>(log: seq<R>, q: Reading<R>) {
    forall i, j :: 0 <= i < j < |log| && q.scope(log[i]) && q.scope(log[j]) ==> q.at(log[i]) < q.at(log[j])
  }

  // -------------------------------------------------------------------------------------
  // The two aggregates are what their SQL says.

  lemma {:induction false} ResetAtIsLatestReset<R>(log: seq<R>, q: Reading<R>)
    ensures ResetAt(log, q).Some? <==> exists i :: 0 <= i < |log| && q.scope(log[i]) && q.resets(log[i])
    ensures ResetAt(log, q).Some? ==>
      exists i :: 0 <= i < |log| && q.scope(log[i]) && q.resets(log[i]) && q.at(log[i]) == ResetAt(log, q).value
    ensures forall i :: 0 <= i < |log| && q.scope(log[i]) && q.resets(log[i]) ==> q.at(log[i]) <= ResetAt(log, q).value
  {
    if log != [] {
      var n := |log| - 1;
      ResetAtIsLatestReset(log[..n], q);
      assert forall i :: 0 <= i < n ==> log[..n][i] == log[i];
      if q.scope(log[n]) && q.resets(log[n]) {
      } else if ResetAt(log, q).Some? {
        var i :| 0 <= i < n && q.scope(log[..n][i]) && q.resets(log[..n][i]) && q.at(log[..n][i]) == ResetAt(log, q).value;
        assert q.at(log[i]) == ResetAt(log, q).value;
      }
    }
  }

  lemma {:induction false} LatestBounds<R>(rows: seq<R>, q: Reading<R>)
    ensures Latest(rows, q).Some? <==> rows != []
    ensures forall row :: row in rows ==> q.at(row) <= Latest(rows, q).value
    ensures rows != [] ==> exists row :: row in rows && q.at(row) == Latest(rows, q).value
  {
    if rows != [] {
      var n := |rows| - 1;
      LatestBounds(rows[..n], q);
      assert rows == rows[..n] + [rows[n]];
    }
  }

  lemma {:induction false} TailMembers<R>(log: seq<R>, q: Reading<R>, reset: Option<Time>)
    ensures forall row :: row in Tail(log, q, reset) <==> row in log && Counted(row, q, reset)
  {
    if log != [] {
      var n := |log| - 1;
      TailMembers(log[..n], q, reset);
      assert log == log[..n] + [log[n]];
    }
  }

  // -------------------------------------------------------------------------------------
  // The run, by the places of its rows.

  /** Where the rows that count towards a run are: in scope, counting, and later than everything
      that ends one. */
  ghost function Standing<R>(log: seq<R>, q: Reading<R>): set<nat> {
    set i: nat | i < |log| && Stands(log, q, i)
  }

  ghost predicate Stands<R>(log: seq<R>, q: Reading<R>, i: nat)
    requires i < |log|
  {
    && q.scope(log[i]) && q.counts(log[i])
    && forall j :: 0 <= j < |log| && q.scope(log[j]) && q.resets(log[j]) ==> q.at(log[j]) < q.at(log[i])
  }

  ghost function Places<R>(log: seq<R>, q: Reading<R>, reset: Option<Time>): set<nat> {
    set i: nat | i < |log| && Counted(log[i], q, reset)
  }

  lemma {:induction false} TailPlaces<R>(log: seq<R>, q: Reading<R>, reset: Option<Time>)
    ensures |Places(log, q, reset)| == |Tail(log, q, reset)|
  {
    if log != [] {
      var n := |log| - 1;
      TailPlaces(log[..n], q, reset);
      if Counted(log[n], q, reset) {
        assert Places(log, q, reset) == Places(log[..n], q, reset) + {n};
      } else {
        assert Places(log, q, reset) == Places(log[..n], q, reset);
      }
    }
  }

  lemma StandingIsPlaces<R>(log: seq<R>, q: Reading<R>)
    ensures Standing(log, q) == Places(log, q, ResetAt(log, q))
  {
    ResetAtIsLatestReset(log, q);
  }

  /** The run is as long as there are such rows, and its stamp is the latest of theirs. */
  lemma RunIsStanding<R>(log: seq<R>, q: Reading<R>)
    ensures RunOf(log, q).length == |Standing(log, q)|
    ensures RunOf(log, q).latest.Some? <==> Standing(log, q) != {}
    ensures forall i :: i in Standing(log, q) ==> q.at(log[i]) <= RunOf(log, q).latest.value
    ensures Standing(log, q) != {} ==> exists i :: i in Standing(log, q) && q.at(log[i]) == RunOf(log, q).latest.value
  {
    StandingIsPlaces(log, q);
    PlacesBound(log, q, ResetAt(log, q));
  }

  lemma PlacesBound<R>(log: seq<R>, q: Reading<R>, reset: Option<Time>)
    ensures var rows, places := Tail(log, q, reset), Places(log, q, reset);
      && |rows| == |places| && (Latest(rows, q).Some? <==> places != {})
      && (forall i :: i in places ==> q.at(log[i]) <= Latest(rows, q).value)
      && (places != {} ==> exists i :: i in places && q.at(log[i]) == Latest(rows, q).value)
  {
    var rows, places := Tail(log, q, reset), Places(log, q, reset);
    TailPlaces(log, q, reset);
    TailMembers(log, q, reset);
    LatestBounds(rows, q);
    forall i | i in places ensures q.at(log[i]) <= Latest(rows, q).value {
      assert log[i] in rows;
    }
    if places != {} {
      var row :| row in rows && q.at(row) == Latest(rows, q).value;
      var i :| 0 <= i < |log| && log[i] == row;
      assert i in places;
    }
  }

  // -------------------------------------------------------------------------------------
  // One append at a time.

  /** Raising the reset leaves only rows later than it, so it empties the tail exactly when
      nothing in the tail is later. */
  lemma {:induction false} RaisedReset<R>(log: seq<R>, q: Reading<R>, reset: Option<Time>, to: Time)
    requires reset.Some? ==> reset.value <= to
    ensures |Tail(log, q, Some(to))| <= |Tail(log, q, reset)|
    ensures Tail(log, q, Some(to)) == [] <==> forall row :: row in Tail(log, q, reset) ==> q.at(row) <= to
  {
    if log != [] {
      var n := |log| - 1;
      RaisedReset(log[..n], q, reset, to);
      var before := Tail(log[..n], q, reset);
      if Counted(log[n], q, reset) {
        assert Tail(log, q, reset) == before + [log[n]];
        assert log[n] in Tail(log, q, reset);
      }
    }
  }

  lemma AppendStep<R>(log: seq<R>, q: Reading<R>, row: R)
    ensures !q.scope(row) || (!q.counts(row) && !q.resets(row)) ==> RunOf(log + [row], q) == RunOf(log, q)
    ensures q.scope(row) && q.resets(row) ==>
      (RunOf(log + [row], q).length == 0 <==> AppendInOrder(log, q, row))
    ensures q.scope(row) && q.counts(row) && !q.resets(row) ==>
      RunOf(log + [row], q).length == RunOf(log, q).length + (if AppendInOrder(log, q, row) then 1 else 0)
  {
    assert (log + [row])[..|log|] == log;
    if q.scope(row) && q.resets(row) {
      RaisedStep(log, q, row);
    } else {
      TailStep(log, q, row);
    }
  }

  lemma RaisedStep<R>(log: seq<R>, q: Reading<R>, row: R)
    requires q.scope(row) && q.resets(row)
    ensures RunOf(log + [row], q).length == 0 <==> AppendInOrder(log, q, row)
  {
    assert (log + [row])[..|log|] == log;
    var reset, raised := ResetAt(log, q), ResetAt(log + [row], q).value;
    RaisedReset(log, q, reset, raised);
    TailMembers(log, q, reset);
    LatestBounds(Tail(log, q, reset), q);
  }

  lemma TailStep<R>(log: seq<R>, q: Reading<R>, row: R)
    requires !q.scope(row) || !q.resets(row)
    ensures ResetAt(log + [row], q) == ResetAt(log, q)
    ensures Tail(log + [row], q, ResetAt(log, q))
         == Tail(log, q, ResetAt(log, q)) + if Counted(row, q, ResetAt(log, q)) then [row] else []
  {
    assert (log + [row])[..|log|] == log;
  }

  /** Every append the log was built by came in order. */
  ghost predicate InOrder<R>(log: seq<R>, q: Reading<R>) {
    log != [] ==> InOrder(log[..|log| - 1], q) && AppendInOrder(log[..|log| - 1], q, log[|log| - 1])
  }

  /** The derived length equalled the stored counter when the log was empty and after every
      append since. */
  ghost predicate AlwaysStored<R>(log: seq<R>, q: Reading<R>) {
    RunOf(log, q).length == Stored(log, q).length && (log != [] ==> AlwaysStored(log[..|log| - 1], q))
  }

  /** The count read off the log is the count one would store, at every point of the log's
      life, exactly when every append came in order. */
  lemma {:induction false} DerivedIsStored<R>(log: seq<R>, q: Reading<R>)
    ensures AlwaysStored(log, q) <==> InOrder(log, q)
  {
    if log != [] {
      var init, row := log[..|log| - 1], log[|log| - 1];
      assert log == init + [row];
      DerivedIsStored(init, q);
      AppendStep(init, q, row);
    }
  }

  /** With a clock that moves between two rows of one scope, the derived run is the stored one
      in both facts, its length and its latest stamp. */
  lemma {:induction false} ChronologicalRun<R>(log: seq<R>, q: Reading<R>)
    requires Chronological(log, q)
    ensures RunOf(log, q) == Stored(log, q)
    ensures InOrder(log, q)
  {
    if log != [] {
      var init, row := log[..|log| - 1], log[|log| - 1];
      assert log == init + [row];
      ChronologicalRun(init, q);
      LaterThanAll(log, q);
      ChronologicalAppend(init, q, row);
    }
  }

  /** What a row later than everything before it does to the derived run. */
  lemma ChronologicalAppend<R>(log: seq<R>, q: Reading<R>, row: R)
    requires q.scope(row) ==> AppendInOrder(log, q, row)
    requires q.scope(row) && RunOf(log, q).latest.Some? ==> RunOf(log, q).latest.value < q.at(row)
    ensures RunOf(log + [row], q) ==
      if !q.scope(row) then RunOf(log, q)
      else if q.resets(row) then Run(0, None)
      else if q.counts(row) then Run(RunOf(log, q).length + 1, Some(q.at(row)))
      else RunOf(log, q)
  {
    AppendStep(log, q, row);
    var longer := log + [row];
    assert longer[..|longer| - 1] == log;
    var rows := Tail(log, q, ResetAt(log, q));
    if q.scope(row) && q.resets(row) {
      assert Tail(longer, q, ResetAt(longer, q)) == [];
    } else if q.scope(row) && q.counts(row) {
      assert Tail(longer, q, ResetAt(longer, q)) == rows + [row];
      assert (rows + [row])[..|rows|] == rows;
    }
  }

  /** The newest row of a chronological log is later than its last reset and its whole run. */
  lemma LaterThanAll<R>(log: seq<R>, q: Reading<R>)
    requires Chronological(log, q) && log != []
    ensures var init, row := log[..|log| - 1], log[|log| - 1];
      q.scope(row) ==>
        && AppendInOrder(init, q, row)
        && (ResetAt(init, q).Some? ==> ResetAt(init, q).value < q.at(row))
        && (RunOf(init, q).latest.Some? ==> RunOf(init, q).latest.value < q.at(row))
  {
    var n := |log| - 1;
    var init, row := log[..n], log[n];
    var rows := Tail(init, q, ResetAt(init, q));
    ResetAtIsLatestReset(init, q);
    TailMembers(init, q, ResetAt(init, q));
    LatestBounds(rows, q);
    if q.scope(row) {
      forall earlier | earlier in init && q.scope(earlier) ensures q.at(earlier) < q.at(row) {
        var i :| 0 <= i < n && init[i] == earlier;
        assert log[i] == earlier;
      }
      if rows != [] {
        var newest :| newest in rows && q.at(newest) == Latest(rows, q).value;
        assert newest in init && q.scope(newest);
      }
    }
  }

  /** A row of another scope, or one that neither counts nor resets, is stepped over: it moves
      neither fact, whatever its clock says. */
  lemma SteppedOver<R>(log: seq<R>, q: Reading<R>, row: R)
    requires !q.scope(row) || (!q.counts(row) && !q.resets(row))
    ensures RunOf(log + [row], q) == RunOf(log, q)
  {
    AppendStep(log, q, row);
  }

  /** A tie is enough to disagree: a failure stamped with the instant of the success before it
      is counted by a stored counter and not by the query. */
  lemma TieIsLost<R>(q: Reading<R>, ok: R, failed: R)
    requires q.scope(ok) && q.resets(ok)
    requires q.scope(failed) && q.counts(failed) && !q.resets(failed)
    requires q.at(ok) == q.at(failed)
    ensures RunOf([ok, failed], q).length == 0 && Stored([ok, failed], q).length == 1
  {
    AppendStep([], q, ok);
    assert [] + [ok] == [ok];
    AppendStep([ok], q, failed);
    assert [ok] + [failed] == [ok, failed];
    assert [ok, failed][..1] == [ok] && [ok][..0] == [];
    assert ResetAt([ok], q) == Some(q.at(ok));
  }
}
