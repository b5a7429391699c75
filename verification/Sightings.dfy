/** What a cycle leaves in the incident table for each key it detected. */
module Sightings {
  import opened Wrappers
  import opened Incidents
  import opened Correlation

  /** What may happen between a cycle's start and its end: detections dated at or after the
      start, sweeps, and operators. */
  ghost predicate InCycle(hs: seq<Happening>, n: nat, start: int) {
    && ValidHistory(hs) && n <= |hs|
    && Replay(hs[..n]).cycle == Some(start) && Replay(hs[..n]).seen == {}
    && forall i :: n <= i < |hs| ==>
         hs[i].Operator? || hs[i].Swept? || (hs[i].Detected? && hs[i].at >= start)
  }

  /** Row `k` is an incident of the key seen in this cycle, and opened in it if it was not
      among the `had` rows before. */
  ghost predicate Sighted(rows: seq<Incident>, had: nat, key: Key, start: int, k: nat) {
    && k < |rows| && rows[k].fingerprint == Fingerprint(key.0, key.1, key.2)
    && rows[k].lastSeenAt >= start && (had <= k ==> rows[k].firstSeenAt >= start)
  }

  /** An operator resolved the incident since `n`. */
  ghost predicate ResolvedByOperator(hs: seq<Happening>, n: nat, id: nat) {
    exists i :: n <= i < |hs| && hs[i].Operator? && hs[i].op == Resolve(id)
  }

  /** Every sweep since `n` cuts off no later than the start. */
  predicate NoLateSweep(hs: seq<Happening>, n: nat, start: int) {
    forall i :: n <= i < |hs| && hs[i].Swept? ==> hs[i].olderThan <= start
  }

  /** Nothing but an operator or a late sweep ends a row seen in this cycle. */
  lemma StepKeepsSighted(s: Sys, h: Happening, key: Key, had: nat, start: int, k: nat)
    requires Consistent(s.rows) && Enabled(s, h) && (h.Operator? || h.Swept? || h.Detected?)
    requires Sighted(s.rows, had, key, start, k)
    ensures var rows := Next(s, h).rows;
      && Sighted(rows, had, key, start, k) && rows[k].id == s.rows[k].id
      && (s.rows[k].status.Active() && !(h.Operator? && h.op == Resolve(s.rows[k].id)) && !(h.Swept? && h.olderThan > start)
          ==> rows[k].status.Active())
  {
    StepAdvances(s, h);
    assert RowAdvanced(s.rows[k], Next(s, h).rows[k]);
  }

  /** A detection leaves a row of its key, seen now and active. */
  lemma DetectionSights(s: Sys, h: Happening, had: nat, start: int) returns (k: nat)
    requires Consistent(s.rows) && Enabled(s, h) && h.Detected? && h.at >= start && had <= |s.rows|
    requires forall j :: had <= j < |s.rows| ==> s.rows[j].firstSeenAt >= start
    ensures Sighted(Next(s, h).rows, had, h.d.Key(), start, k) && Next(s, h).rows[k].status.Active()
  {
    k := Target(s.rows, h.d.Fingerprint(), h.id).value;
  }

  lemma OpenedInCycle(s: Sys, h: Happening, had: nat, start: int)
    requires Consistent(s.rows) && Enabled(s, h) && (h.Operator? || h.Swept? || (h.Detected? && h.at >= start))
    requires had <= |s.rows| && forall j :: had <= j < |s.rows| ==> s.rows[j].firstSeenAt >= start
    ensures had <= |Next(s, h).rows| && forall j :: had <= j < |Next(s, h).rows| ==> Next(s, h).rows[j].firstSeenAt >= start
  {
    StepAdvances(s, h);
    forall j | had <= j < |Next(s, h).rows| ensures Next(s, h).rows[j].firstSeenAt >= start {
      if j < |s.rows| { assert RowAdvanced(s.rows[j], Next(s, h).rows[j]); }
    }
  }

  lemma {:induction false} NewRowsAreRecent(hs: seq<Happening>, n: nat, start: int)
    requires InCycle(hs, n, start)
    ensures var had := |Replay(hs[..n]).rows|;
      && had <= |Replay(hs).rows|
      && forall j :: had <= j < |Replay(hs).rows| ==> Replay(hs).rows[j].firstSeenAt >= start
    decreases |hs|
  {
    if n < |hs| {
      FrontInCycle(hs, n, start);
      NewRowsAreRecent(Front(hs), n, start);
      ReplayConsistent(Front(hs));
      assert Last(hs) == hs[|hs| - 1];
      OpenedInCycle(Replay(Front(hs)), Last(hs), |Replay(hs[..n]).rows|, start);
    } else {
      assert hs[..n] == hs;
    }
  }

  lemma FrontInCycle(hs: seq<Happening>, n: nat, start: int)
    requires InCycle(hs, n, start) && n < |hs|
    ensures InCycle(Front(hs), n, start) && Front(hs)[..n] == hs[..n]
  {
    assert Front(hs)[..n] == hs[..n];
  }

  /** Row `k` answers for the key: seen in this cycle, and active unless an operator resolved
      it or a sweep cut off later than the start. */
  ghost predicate Answers(hs: seq<Happening>, n: nat, key: Key, start: int, k: nat)
    requires n <= |hs|
  {
    var rows := Replay(hs).rows;
    && Sighted(rows, |Replay(hs[..n]).rows|, key, start, k)
    && (NoLateSweep(hs, n, start) ==> rows[k].status.Active() || ResolvedByOperator(hs, n, rows[k].id))
  }

  lemma AnswersOn(hs: seq<Happening>, n: nat, key: Key, start: int, k: nat)
    requires InCycle(hs, n, start) && n < |hs| && Answers(Front(hs), n, key, start, k)
    ensures Answers(hs, n, key, start, k)
  {
    var s, h := Replay(Front(hs)), Last(hs);
    FrontInCycle(hs, n, start);
    ReplayConsistent(Front(hs));
    assert h == hs[|hs| - 1];
    StepKeepsSighted(s, h, key, |Replay(hs[..n]).rows|, start, k);
    if NoLateSweep(hs, n, start) {
      assert NoLateSweep(Front(hs), n, start);
      if ResolvedByOperator(Front(hs), n, s.rows[k].id) {
        var i :| n <= i < |Front(hs)| && Front(hs)[i].Operator? && Front(hs)[i].op == Resolve(s.rows[k].id);
        assert hs[i] == Front(hs)[i];
      }
    }
  }

  /** Every key detected in the cycle has a row that answers for it. */
  lemma {:induction false} SeenKeysAnswered(hs: seq<Happening>, n: nat, start: int, key: Key) returns (k: nat)
    requires InCycle(hs, n, start) && key in Replay(hs).seen
    ensures Answers(hs, n, key, start, k)
    decreases |hs|
  {
    assert hs[..|hs|] == hs;
    assert n < |hs|;
    var s, h := Replay(Front(hs)), Last(hs);
    FrontInCycle(hs, n, start);
    assert h == hs[|hs| - 1];
    if key in s.seen {
      k := SeenKeysAnswered(Front(hs), n, start, key);
      AnswersOn(hs, n, key, start, k);
    } else {
      NewRowsAreRecent(Front(hs), n, start);
      ReplayConsistent(Front(hs));
      k := DetectionSights(s, h, |Replay(hs[..n]).rows|, start);
    }
  }

  /** Nothing is dated later than the clock. */
  predicate Past(h: Happening, clock: int) {
    match h
    case Begin(start) => start <= clock
    case Detected(_, _, at) => at <= clock
    case Swept(_, at) => at <= clock
    case Operator(_, at) => at <= clock
    case _ => true
  }

  ghost predicate NotAhead(hs: seq<Happening>, clock: int) { forall i :: 0 <= i < |hs| ==> Past(hs[i], clock) }

  ghost predicate RowsPast(rows: seq<Incident>, clock: int) {
    forall k :: 0 <= k < |rows| ==> rows[k].firstSeenAt <= clock && rows[k].lastSeenAt <= clock
  }

  lemma StepKeepsRowsPast(s: Sys, h: Happening, clock: int)
    requires Enabled(s, h) && Past(h, clock) && RowsPast(s.rows, clock)
    ensures RowsPast(Next(s, h).rows, clock)
  {
    forall k | 0 <= k < |Next(s, h).rows|
      ensures Next(s, h).rows[k].firstSeenAt <= clock && Next(s, h).rows[k].lastSeenAt <= clock
    {
      if k < |s.rows| { assert s.rows[k].firstSeenAt <= clock && s.rows[k].lastSeenAt <= clock; }
    }
  }

  /** So no incident was seen later than the clock. */
  lemma {:induction false} RowsNotAhead(hs: seq<Happening>, clock: int)
    requires ValidHistory(hs) && NotAhead(hs, clock)
    ensures RowsPast(Replay(hs).rows, clock)
  {
    if hs != [] {
      assert NotAhead(Front(hs), clock) && Past(Last(hs), clock);
      RowsNotAhead(Front(hs), clock);
      StepKeepsRowsPast(Replay(Front(hs)), Last(hs), clock);
    }
  }
}
