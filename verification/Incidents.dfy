/** The incident table: what each SQL statement of the incident store does to it,
    and what every interleaving of those statements keeps. */
module Incidents {
  import opened Wrappers

  datatype Status = Open | Acknowledged | Resolved {
    predicate Active() { this == Open || this == Acknowledged }

    predicate CanTransitionTo(next: Status) {
      match this
      case Open => next == Acknowledged || next == Resolved
      case Acknowledged => next == Resolved
      case Resolved => false
    }
  }

  /** One row. Timestamps are integers; a null column is `None`. */
  datatype Incident = Incident(
    id: nat,
    fingerprint: string,
    status: Status,
    eventCount: nat,
    firstSeenAt: int,
    lastSeenAt: int,
    acknowledgedAt: Option<int>,
    resolvedAt: Option<int>,
    alertedAt: Option<int>,
    remediatedAt: Option<int>)

  /** One statement against the table, from any replica. */
  datatype Op =
    | Upsert(id: nat, fingerprint: string, eventCount: nat, increment: nat, seenAt: int)
    | Acknowledge(id: nat)
    | Resolve(id: nat)
    | AutoResolve(olderThan: int)
    | MarkAlerted(id: nat)
    | MarkRemediated(id: nat)

  const SEPARATOR: char := '\U{1f}'

  function Fingerprint(rule: string, tenant: string, service: string): string {
    rule + [SEPARATOR] + tenant + [SEPARATOR] + service
  }

  function Max(a: int, b: int): int { if a < b then b else a }

  // ---- Statements ---------------------------------------------------------

  /** The entry of the partial unique index for a fingerprint: the lowest
      position of an active row carrying it. */
  function FindActive(rows: seq<Incident>, fingerprint: string): (r: Option<nat>)
    ensures r.Some? ==> r.value < |rows| && rows[r.value].status.Active()
                        && rows[r.value].fingerprint == fingerprint
    ensures r.None? ==> forall i :: 0 <= i < |rows| && rows[i].status.Active() ==> rows[i].fingerprint != fingerprint
  {
    if rows == [] then None
    else if rows[0].status.Active() && rows[0].fingerprint == fingerprint then Some(0)
    else
      match FindActive(rows[1..], fingerprint)
      case None => None
      case Some(i) =>
        assert rows[1..][i] == rows[i + 1];
        Some(i + 1)
  }

  predicate HasId(rows: seq<Incident>, id: nat) {
    exists i :: 0 <= i < |rows| && rows[i].id == id
  }

  /** The update a single-row or sweeping statement makes to one row. */
  function Touch(row: Incident, op: Op, now: int): Incident {
    match op
    case Upsert(_, _, _, _, _) => row
    case Acknowledge(id) =>
      if row.id == id && row.status == Open
      then row.(status := Acknowledged, acknowledgedAt := Some(now)) else row
    case Resolve(id) =>
      if row.id == id && row.status != Resolved
      then row.(status := Resolved, resolvedAt := Some(now)) else row
    case AutoResolve(olderThan) =>
      if row.status != Resolved && row.lastSeenAt < olderThan
      then row.(status := Resolved, resolvedAt := Some(now)) else row
    case MarkAlerted(id) =>
      if row.id == id && row.alertedAt.None? then row.(alertedAt := Some(now)) else row
    case MarkRemediated(id) =>
      if row.id == id && row.remediatedAt.None? then row.(remediatedAt := Some(now)) else row
  }

  /** The table after one atomic statement. An upsert that collides with an active
      row of its fingerprint folds into it; otherwise it inserts, unless the
      primary key is taken, which fails the statement. */
  function Apply(rows: seq<Incident>, op: Op, now: int): seq<Incident> {
    if op.Upsert? then
      match FindActive(rows, op.fingerprint)
      case Some(i) =>
        rows[i := rows[i].(lastSeenAt := Max(rows[i].lastSeenAt, op.seenAt),
                           eventCount := rows[i].eventCount + op.increment)]
      case None =>
        if HasId(rows, op.id) then rows
        else rows + [Incident(op.id, op.fingerprint, Open, op.eventCount, op.seenAt, op.seenAt, None, None, None, None)]
    else seq(|rows|, i requires 0 <= i < |rows| => Touch(rows[i], op, now))
  }

  /** A run: statements from every replica in the order the database made them. */
  function Exec(rows: seq<Incident>, ops: seq<(Op, int)>): seq<Incident>
    decreases |ops|
  {
    if ops == [] then rows else Exec(Apply(rows, ops[0].0, ops[0].1), ops[1..])
  }

  // ---- What every run keeps ----------------------------------------------

  ghost predicate UniqueIds(rows: seq<Incident>) {
    forall i, j :: 0 <= i < j < |rows| ==> rows[i].id != rows[j].id
  }

  ghost predicate OneActivePerFingerprint(rows: seq<Incident>) {
    forall i, j :: 0 <= i < j < |rows| && rows[i].status.Active() && rows[j].status.Active()
      ==> rows[i].fingerprint != rows[j].fingerprint
  }

  /** `resolved_at` is set exactly on resolved rows, and an acknowledgement is
      stamped on no open row and on every acknowledged one. */
  predicate Stamped(row: Incident) {
    && (row.status == Resolved <==> row.resolvedAt.Some?)
    && (row.status == Open ==> row.acknowledgedAt.None?)
    && (row.status == Acknowledged ==> row.acknowledgedAt.Some?)
  }

  ghost predicate StampsInStep(rows: seq<Incident>) { forall i :: 0 <= i < |rows| ==> Stamped(rows[i]) }

  ghost predicate Consistent(rows: seq<Incident>) {
    UniqueIds(rows) && OneActivePerFingerprint(rows) && StampsInStep(rows)
  }

  predicate Reaches(s: Status, t: Status) { s == t || s.CanTransitionTo(t) }

  /** What may have happened to one row between two points of a run. */
  ghost predicate RowAdvanced(before: Incident, after: Incident) {
    && after.id == before.id
    && after.fingerprint == before.fingerprint
    && after.firstSeenAt == before.firstSeenAt
    && Reaches(before.status, after.status)
    && before.eventCount <= after.eventCount
    && before.lastSeenAt <= after.lastSeenAt
    && (before.acknowledgedAt.Some? ==> after.acknowledgedAt == before.acknowledgedAt)
    && (before.alertedAt.Some? ==> after.alertedAt == before.alertedAt)
    && (before.remediatedAt.Some? ==> after.remediatedAt == before.remediatedAt)
    && (before.status == Resolved ==>
          && after.eventCount == before.eventCount
          && after.lastSeenAt == before.lastSeenAt
          && after.acknowledgedAt == before.acknowledgedAt
          && after.resolvedAt == before.resolvedAt)
  }

  ghost predicate Advanced(before: seq<Incident>, after: seq<Incident>) {
    |before| <= |after| && forall i :: 0 <= i < |before| ==> RowAdvanced(before[i], after[i])
  }

  /** A row rewritten in place: still the same incident, and not made active again. */
  predicate Rewritten(before: Incident, after: Incident) {
    && after.id == before.id && after.fingerprint == before.fingerprint
    && (after.status.Active() ==> before.status.Active()) && Stamped(after)
  }

  lemma RewritingKeepsConsistent(rows: seq<Incident>, after: seq<Incident>)
    requires Consistent(rows) && |after| == |rows| && forall i :: 0 <= i < |rows| ==> Rewritten(rows[i], after[i])
    ensures Consistent(after)
  {
    forall i, j | 0 <= i < j < |after|
      ensures after[i].id != after[j].id
      ensures after[i].status.Active() && after[j].status.Active() ==> after[i].fingerprint != after[j].fingerprint
    {
      assert Rewritten(rows[i], after[i]) && Rewritten(rows[j], after[j]);
    }
  }

  lemma TouchRewrites(row: Incident, op: Op, now: int)
    requires Stamped(row)
    ensures Rewritten(row, Touch(row, op, now))
  {}

  lemma InsertKeepsConsistent(rows: seq<Incident>, row: Incident)
    requires Consistent(rows) && Stamped(row) && !HasId(rows, row.id) && FindActive(rows, row.fingerprint).None?
    ensures Consistent(rows + [row])
  {
    var after := rows + [row];
    forall i, j | 0 <= i < j < |after|
      ensures after[i].id != after[j].id
      ensures after[i].status.Active() && after[j].status.Active() ==> after[i].fingerprint != after[j].fingerprint
    {
      assert after[i] == rows[i];
      if j < |rows| { assert after[j] == rows[j]; }
    }
  }

  lemma ApplyKeepsConsistent(rows: seq<Incident>, op: Op, now: int)
    requires Consistent(rows)
    ensures Consistent(Apply(rows, op, now))
  {
    var after := Apply(rows, op, now);
    if op.Upsert? && FindActive(rows, op.fingerprint).None? {
      if !HasId(rows, op.id) { InsertKeepsConsistent(rows, after[|rows|]); }
    } else {
      forall i | 0 <= i < |rows| ensures Rewritten(rows[i], after[i]) {
        TouchRewrites(rows[i], op, now);
      }
      RewritingKeepsConsistent(rows, after);
    }
  }

  lemma ApplyAdvances(rows: seq<Incident>, op: Op, now: int)
    requires Consistent(rows)
    ensures Advanced(rows, Apply(rows, op, now))
  {
    forall i | 0 <= i < |rows|
      ensures RowAdvanced(rows[i], Apply(rows, op, now)[i])
    {
    }
  }

  lemma AdvancedTransitive(a: seq<Incident>, b: seq<Incident>, c: seq<Incident>)
    requires Advanced(a, b) && Advanced(b, c)
    ensures Advanced(a, c)
  {
    forall i | 0 <= i < |a| ensures RowAdvanced(a[i], c[i]) {
      assert RowAdvanced(a[i], b[i]) && RowAdvanced(b[i], c[i]);
    }
  }

  /** Every interleaving of upserts, operator transitions, sweeps and markers, from
      any number of replicas, keeps the table consistent and only moves rows
      forward. */
  lemma {:induction false} RunKeepsConsistentAndAdvances(rows: seq<Incident>, ops: seq<(Op, int)>)
    requires Consistent(rows)
    ensures Consistent(Exec(rows, ops))
    ensures Advanced(rows, Exec(rows, ops))
    decreases |ops|
  {
    if ops != [] {
      var next := Apply(rows, ops[0].0, ops[0].1);
      ApplyKeepsConsistent(rows, ops[0].0, ops[0].1);
      ApplyAdvances(rows, ops[0].0, ops[0].1);
      RunKeepsConsistentAndAdvances(next, ops[1..]);
      AdvancedTransitive(rows, next, Exec(rows, ops));
    }
  }

  // ---- Fingerprints -------------------------------------------------------

  predicate Free(s: string) { SEPARATOR !in s }

  lemma {:induction false} CutAtSeparator(a: string, b: string, c: string, d: string)
    requires Free(a) && Free(c)
    requires a + [SEPARATOR] + b == c + [SEPARATOR] + d
    ensures a == c && b == d
  {
    var s, t := a + [SEPARATOR] + b, c + [SEPARATOR] + d;
    assert s[|a|] == SEPARATOR && t[|c|] == SEPARATOR;
    assert forall i :: 0 <= i < |a| ==> s[i] == a[i];
    assert forall i :: 0 <= i < |c| ==> t[i] == c[i];
    assert s[..|a|] == a && t[..|a|] == c;
    assert s[|a| + 1..] == b && t[|a| + 1..] == d;
  }

  /** Two detections whose rule and tenant carry no separator share a fingerprint
      only if they are the same rule, tenant and service. */
  lemma FingerprintInjective(r: string, t: string, s: string, r': string, t': string, s': string)
    requires Free(r) && Free(t) && Free(r') && Free(t')
    requires Fingerprint(r, t, s) == Fingerprint(r', t', s')
    ensures r == r' && t == t' && s == s'
  {
    var sep := [SEPARATOR];
    assert Fingerprint(r, t, s) == r + sep + (t + sep + s);
    assert Fingerprint(r', t', s') == r' + sep + (t' + sep + s');
    CutAtSeparator(r, t + sep + s, r', t' + sep + s');
    CutAtSeparator(t, s, t', s');
  }

  /** No other detection can share this one's fingerprint. */
  ghost predicate Unambiguous(r: string, t: string, s: string) {
    forall r', t', s' :: Fingerprint(r', t', s') == Fingerprint(r, t, s) ==> r' == r && t' == t && s' == s
  }

  lemma SplitAtSeparator(s: string) returns (a: string, b: string)
    requires !Free(s)
    ensures s == a + [SEPARATOR] + b
  {
    var i :| 0 <= i < |s| && s[i] == SEPARATOR;
    a, b := s[..i], s[i + 1..];
  }

  lemma {:induction false} SeparatorCount(a: string, b: string)
    ensures multiset(a + b)[SEPARATOR] == multiset(a)[SEPARATOR] + multiset(b)[SEPARATOR]
  {
    assert multiset(a + b) == multiset(a) + multiset(b);
  }

  lemma FreeIsUnambiguous(r: string, t: string, s: string)
    requires Free(r) && Free(t) && Free(s)
    ensures Unambiguous(r, t, s)
  {
    forall r', t', s' | Fingerprint(r', t', s') == Fingerprint(r, t, s) ensures r' == r && t' == t && s' == s {
      SeparatorsInFingerprint(r, t, s);
      SeparatorsInFingerprint(r', t', s');
      FingerprintInjective(r', t', s', r, t, s);
    }
  }

  /** The other triple a fingerprint with an inner separator also belongs to. */
  lemma Collides(r: string, t: string, s: string) returns (r': string, t': string, s': string)
    requires !(Free(r) && Free(t) && Free(s))
    ensures Fingerprint(r', t', s') == Fingerprint(r, t, s) && (|r'| < |r| || (r' == r && |t'| != |t|))
  {
    var sep := [SEPARATOR];
    var f := Fingerprint(r, t, s);
    if !Free(r) {
      var a, b := SplitAtSeparator(r);
      r', t', s' := a, b, t + sep + s;
      assert Fingerprint(r', t', s') == f;
    } else if !Free(t) {
      var a, b := SplitAtSeparator(t);
      r', t', s' := r, a, b + sep + s;
      assert Fingerprint(r', t', s') == f;
    } else {
      var a, b := SplitAtSeparator(s);
      r', t', s' := r, t + sep + a, b;
      assert Fingerprint(r', t', s') == f;
    }
  }

  /** Fingerprints are collision-free exactly on fields free of the separator; a
      field that contains one always shares its fingerprint with another triple. */
  lemma UnambiguousExactlyWhenFree(r: string, t: string, s: string)
    ensures Unambiguous(r, t, s) <==> Free(r) && Free(t) && Free(s)
  {
    if Free(r) && Free(t) && Free(s) {
      FreeIsUnambiguous(r, t, s);
    } else {
      var r', t', s' := Collides(r, t, s);
    }
  }

  lemma SeparatorsInFingerprint(r: string, t: string, s: string)
    ensures multiset(Fingerprint(r, t, s))[SEPARATOR]
         == multiset(r)[SEPARATOR] + multiset(t)[SEPARATOR] + multiset(s)[SEPARATOR] + 2
  {
    var sep := [SEPARATOR];
    SeparatorCount(r, sep);
    SeparatorCount(r + sep, t);
    SeparatorCount(r + sep + t, sep);
    SeparatorCount(r + sep + t + sep, s);
  }

  // ---- The store ----------------------------------------------------------

  /** `Unavailable` is any transport error: whether the statement applied is not known. */
  datatype StoreError = Invalid | DuplicateKey | NotFound | InvalidTransition(from: Status) | Unavailable

  /** What the evaluator hands the store. `blank` stands for the outcome of the
      required-field and vocabulary checks on the remaining text fields. */
  datatype Draft = Draft(id: nat, fingerprint: string, blank: bool, eventCount: nat, seenAt: int)

  function StatusOf(rows: seq<Incident>, id: nat): Option<Status> {
    if rows == [] then None
    else if rows[0].id == id then Some(rows[0].status)
    else StatusOf(rows[1..], id)
  }

  lemma {:induction false} StatusOfFinds(rows: seq<Incident>, id: nat)
    ensures StatusOf(rows, id).Some? <==> HasId(rows, id)
    ensures forall i :: UniqueIds(rows) && 0 <= i < |rows| && rows[i].id == id ==> StatusOf(rows, id) == Some(rows[i].status)
  {
    if rows != [] {
      StatusOfFinds(rows[1..], id);
      assert forall i :: 0 < i < |rows| ==> rows[i] == rows[1..][i - 1];
      assert forall i :: 0 <= i < |rows| - 1 ==> rows[1..][i] == rows[i + 1];
    }
  }

  function DraftUpsert(draft: Draft, increment: nat): Op {
    Upsert(draft.id, draft.fingerprint, draft.eventCount, increment, draft.seenAt)
  }

  /** A row would have to be inserted under an id that is taken. */
  predicate Conflicts(rows: seq<Incident>, draft: Draft) {
    FindActive(rows, draft.fingerprint).None? && HasId(rows, draft.id)
  }

  /** What one statement on the row of an id leaves: that row rewritten, all others as they were. */
  ghost predicate OnlyRow(before: seq<Incident>, after: seq<Incident>, id: nat) {
    |after| == |before| && forall i :: 0 <= i < |before| && before[i].id != id ==> after[i] == before[i]
  }

  /** The row of an incident that is acknowledged from open. */
  ghost predicate AcknowledgedAt(before: Incident, after: Incident, now: int) {
    && before.status == Open && after.status == Acknowledged
    && after.acknowledgedAt == Some(now) && after.resolvedAt == None
    && after == before.(status := after.status, acknowledgedAt := after.acknowledgedAt)
  }

  /** The row of a live incident that is resolved. */
  ghost predicate ResolvedAt(before: Incident, after: Incident, now: int) {
    && before.status in {Open, Acknowledged} && after.status == Resolved && after.resolvedAt == Some(now)
    && after == before.(status := after.status, resolvedAt := after.resolvedAt)
  }

  /** The statement's guard lets the change through, and the incident's one row has it. */
  ghost predicate Changed(before: seq<Incident>, after: seq<Incident>, op: Op, now: int)
    requires op.Acknowledge? || op.Resolve?
  {
    && OnlyRow(before, after, op.id)
    && exists i :: 0 <= i < |before| && before[i].id == op.id
         && if op.Acknowledge? then AcknowledgedAt(before[i], after[i], now) else ResolvedAt(before[i], after[i], now)
  }

  /** Which lifecycle steps there are: open to acknowledged, and either to resolved. */
  lemma LifecycleSteps(s: Status)
    ensures s.CanTransitionTo(Acknowledged) <==> s == Open
    ensures s.CanTransitionTo(Resolved) <==> s in {Open, Acknowledged}
    ensures !s.CanTransitionTo(Open)
  {}

  /** An operator's statement the guard lets through makes exactly that change; any other
      leaves the table as it was. */
  lemma {:induction false} OperatorChanges(rows: seq<Incident>, op: Op, now: int)
    requires Consistent(rows) && (op.Acknowledge? || op.Resolve?)
    ensures Permits(rows, op) ==> Changed(rows, Apply(rows, op, now), op, now)
    ensures !Permits(rows, op) ==> Apply(rows, op, now) == rows
  {
    var after := Apply(rows, op, now);
    if Permits(rows, op) {
      var i :| 0 <= i < |rows| && rows[i].id == op.id && rows[i].status.CanTransitionTo(Goal(op));
      assert if op.Acknowledge? then AcknowledgedAt(rows[i], after[i], now) else ResolvedAt(rows[i], after[i], now);
    } else {
      forall i | 0 <= i < |rows| ensures after[i] == rows[i] {
        assert rows[i].id == op.id ==> !rows[i].status.CanTransitionTo(Goal(op));
      }
    }
  }

  /** A marker stamps its own column of its own row, and only when that is empty. */
  lemma MarkersStampOnce(rows: seq<Incident>, op: Op, now: int)
    requires op.MarkAlerted? || op.MarkRemediated?
    ensures var after := Apply(rows, op, now);
      && OnlyRow(rows, after, op.id)
      && forall i :: 0 <= i < |rows| && rows[i].id == op.id ==>
           if op.MarkAlerted?
           then (rows[i].alertedAt.Some? ==> after[i] == rows[i])
                && (rows[i].alertedAt.None? ==> after[i] == rows[i].(alertedAt := Some(now)))
           else (rows[i].remediatedAt.Some? ==> after[i] == rows[i])
                && (rows[i].remediatedAt.None? ==> after[i] == rows[i].(remediatedAt := Some(now)))
  {}

  function Goal(op: Op): Status { if op.Acknowledge? then Acknowledged else Resolved }

  /** The lifecycle lets the operator's change through. */
  predicate Permits(rows: seq<Incident>, op: Op)
    requires op.Acknowledge? || op.Resolve?
  {
    exists i :: 0 <= i < |rows| && rows[i].id == op.id && rows[i].status.CanTransitionTo(Goal(op))
  }

  /** The active rows last seen before a cutoff, by position. */
  function Stale(rows: seq<Incident>, olderThan: int): set<nat> {
    set i: nat | i < |rows| && rows[i].status.Active() && rows[i].lastSeenAt < olderThan
  }

  class IncidentStore {
    var rows: seq<Incident>

    /** How many statements have met a transport error. */
    ghost var faults: nat

    ghost predicate Valid() reads this { Consistent(rows) }

    constructor ()
      ensures Valid() && rows == []
    {
      rows, faults := [], 0;
    }

    /** Opens an incident or folds the detection into the active one: true means a
        new row, false means grouped. A transport error leaves open whether the
        statement applied; every other error leaves the table alone. */
    method UpsertOpen(draft: Draft, increment: nat, now: int) returns (r: Result<bool, StoreError>)
      requires Valid()
      modifies this
      ensures Valid() && Advanced(old(rows), rows)
      ensures r == Err(Invalid) <==> draft.blank
      ensures r == Err(Unavailable) <==> faults > old(faults)
      ensures r == Err(DuplicateKey) ==>
        && (exists i :: 0 <= i < |old(rows)| && old(rows)[i].id == draft.id)
        && forall i :: 0 <= i < |old(rows)| && old(rows)[i].status.Active() ==> old(rows)[i].fingerprint != draft.fingerprint
      ensures r == Err(Unavailable) ==> rows == old(rows) || rows == Apply(old(rows), DraftUpsert(draft, increment), now)
      ensures r.Err? && r.error != Unavailable ==> r.error in {Invalid, DuplicateKey} && rows == old(rows)
      ensures r.Ok? ==> rows == Apply(old(rows), DraftUpsert(draft, increment), now) && !Conflicts(old(rows), draft)
      ensures r == Ok(true) ==>
        |rows| == |old(rows)| + 1 && rows[..|old(rows)|] == old(rows)
        && rows[|old(rows)|] == Incident(draft.id, draft.fingerprint, Open, draft.eventCount, draft.seenAt, draft.seenAt,
                                         None, None, None, None)
        && (forall i :: 0 <= i < |old(rows)| && old(rows)[i].status.Active() ==> old(rows)[i].fingerprint != draft.fingerprint)
      ensures r == Ok(false) ==>
        |rows| == |old(rows)|
        && (exists i :: 0 <= i < |rows|
              && old(rows)[i].status.Active() && old(rows)[i].fingerprint == draft.fingerprint
              && rows[i].eventCount == old(rows)[i].eventCount + increment
              && rows[i].lastSeenAt >= draft.seenAt && rows[i].lastSeenAt >= old(rows)[i].lastSeenAt
              && rows[i].lastSeenAt in {draft.seenAt, old(rows)[i].lastSeenAt}
              && rows == old(rows)[i := old(rows)[i].(eventCount := rows[i].eventCount, lastSeenAt := rows[i].lastSeenAt)])
    {
      if draft.blank {
        return Err(Invalid);
      }
      var op := DraftUpsert(draft, increment);
      ApplyKeepsConsistent(rows, op, now);
      ApplyAdvances(rows, op, now);
      var target := FindActive(rows, draft.fingerprint);
      var lost: bool, applied: bool := *, *;
      if lost {
        if applied { rows := Apply(rows, op, now); }
        faults := faults + 1;
        return Err(Unavailable);
      }
      if Conflicts(rows, draft) {
        return Err(DuplicateKey);
      }
      rows := Apply(rows, op, now);
      r := Ok(target.None?);
    }

    /** A guarded lifecycle update. The guard decides; when it matches no row, a
        second statement, after whatever other replicas did in `between`, tells a
        missing incident from an illegal transition. Either may be lost on the way. */
    method Transition(op: Op, now: int, between: seq<(Op, int)>) returns (r: Result<Status, StoreError>)
      requires Valid() && (op.Acknowledge? || op.Resolve?)
      modifies this
      ensures Valid() && Advanced(old(rows), rows)
      ensures r == Err(Unavailable) <==> faults > old(faults)
      ensures r.Ok? ==> r.value == (if op.Acknowledge? then Acknowledged else Resolved)
      ensures r.Ok? ==> Changed(old(rows), rows, op, now) && rows == Apply(old(rows), op, now)
      ensures r.Err? && r.error != Unavailable ==> forall i :: 0 <= i < |old(rows)| && old(rows)[i].id == op.id ==>
        old(rows)[i].status != Open && (op.Resolve? ==> old(rows)[i].status == Resolved)
      ensures r.Err? && r.error != Unavailable ==> !Permits(old(rows), op) && rows == Exec(old(rows), between)
      ensures r.Err? && r.error != Unavailable ==> (r.error == NotFound <==> !HasId(rows, op.id))
      ensures r.Err? && r.error !in {Unavailable, NotFound} ==>
        r.error.InvalidTransition? && StatusOf(rows, op.id) == Some(r.error.from)
      ensures r == Err(Unavailable) ==>
        rows == old(rows) || Changed(old(rows), rows, op, now) || (!Permits(old(rows), op) && rows == Exec(old(rows), between))
    {
      OperatorChanges(rows, op, now);
      StatusOfFinds(rows, op.id);
      ApplyKeepsConsistent(rows, op, now);
      ApplyAdvances(rows, op, now);
      var before := StatusOf(rows, op.id);
      var lost: bool, applied: bool := *, *;
      if lost {
        if applied { rows := Apply(rows, op, now); }
        faults := faults + 1;
        return Err(Unavailable);
      }
      if before.Some? && before.value.CanTransitionTo(Goal(op)) {
        rows := Apply(rows, op, now);
        return Ok(Goal(op));
      }
      assert !Permits(rows, op);
      RunKeepsConsistentAndAdvances(rows, between);
      rows := Exec(rows, between);
      if * {
        faults := faults + 1;
        return Err(Unavailable);
      }
      StatusOfFinds(rows, op.id);
      var status := StatusOf(rows, op.id);
      if status.None? {
        return Err(NotFound);
      }
      r := Err(InvalidTransition(status.value));
    }

    /** Any statement but an upsert or a sweep, as another client issues it. */
    method Operate(op: Op, now: int)
      requires Valid() && !op.Upsert? && !op.AutoResolve?
      modifies this
      ensures Valid() && Advanced(old(rows), rows)
      ensures rows == Apply(old(rows), op, now) && faults == old(faults)
    {
      ApplyKeepsConsistent(rows, op, now);
      ApplyAdvances(rows, op, now);
      rows := Apply(rows, op, now);
    }

    /** Closes exactly the active incidents quiet since `olderThan`. */
    method AutoResolveStale(olderThan: int, now: int) returns (r: Result<nat, StoreError>)
      requires Valid()
      modifies this
      ensures Valid() && Advanced(old(rows), rows) && |rows| == |old(rows)|
      ensures r.Ok? ==>
        r.value == |set i: nat | i < |old(rows)| && old(rows)[i].status in {Open, Acknowledged} && old(rows)[i].lastSeenAt < olderThan|
      ensures r.Ok? ==> rows == Apply(old(rows), AutoResolve(olderThan), now)
      ensures r.Ok? ==> forall i :: 0 <= i < |rows| ==>
        rows[i] == if old(rows)[i].status in {Open, Acknowledged} && old(rows)[i].lastSeenAt < olderThan
                   then old(rows)[i].(status := Resolved, resolvedAt := Some(now)) else old(rows)[i]
      ensures r.Err? ==> r.error == Unavailable
      ensures r.Err? <==> faults > old(faults)
      ensures r.Err? ==> rows == old(rows) || rows == Apply(old(rows), AutoResolve(olderThan), now)
    {
      ApplyKeepsConsistent(rows, AutoResolve(olderThan), now);
      ApplyAdvances(rows, AutoResolve(olderThan), now);
      var lost: bool, applied: bool := *, *;
      if lost { faults := faults + 1; }
      if lost && !applied { return Err(Unavailable); }
      var resolved := |Stale(rows, olderThan)|;
      assert Stale(rows, olderThan)
          == set i: nat | i < |rows| && rows[i].status in {Open, Acknowledged} && rows[i].lastSeenAt < olderThan;
      rows := Apply(rows, AutoResolve(olderThan), now);
      r := if lost then Err(Unavailable) else Ok(resolved);
    }
  }
}
