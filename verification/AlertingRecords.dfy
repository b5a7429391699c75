/** What the audit table says of each page: whether it has a row, and whether the row says the
    page was delivered, from the environment's script. */
module AlertingRecords {
  import opened Wrappers
  import opened Incidents
  import opened Alerting
  import opened AlertingSafety
  import opened AlertingSchedule

  // ---- The row of a page ----------------------------------------------------

  /** Whether the first row of a page says delivered, if the page has a row. */
  function RowOf(notes: seq<Notification>, level: nat, reason: Reason): Option<bool> {
    if notes == [] then None
    else if notes[0].level == level && notes[0].reason == reason then Some(notes[0].delivered)
    else RowOf(notes[1..], level, reason)
  }

  lemma {:induction false} RowOfMeans(notes: seq<Notification>, level: nat, reason: Reason)
    ensures RowOf(notes, level, reason).Some? <==> HasNote(notes, level, reason)
    ensures RowOf(notes, level, reason).Some? ==>
      Notification(level, reason, RowOf(notes, level, reason).value) in notes
  {
    if notes != [] {
      RowOfMeans(notes[1..], level, reason);
      if i :| 0 < i < |notes| && notes[i].level == level && notes[i].reason == reason {
        assert notes[1..][i - 1] == notes[i];
      }
      if i :| 0 <= i < |notes[1..]| && notes[1..][i].level == level && notes[1..][i].reason == reason {
        assert notes[i + 1] == notes[1..][i];
      }
    }
  }

  lemma {:induction false} RowOfAppended(notes: seq<Notification>, note: Notification, level: nat, reason: Reason)
    ensures RowOf(notes + [note], level, reason) == OrElse(RowOf(notes, level, reason),
              if note.level == level && note.reason == reason then Some(note.delivered) else None)
  {
    if notes != [] {
      assert (notes + [note])[1..] == notes[1..] + [note];
      RowOfAppended(notes[1..], note, level, reason);
    }
  }

  function OrElse(a: Option<bool>, b: Option<bool>): Option<bool> { if a.Some? then a else b }

  /** An attempt writes the row; an acknowledged one always has. The table refuses levels below one. */
  predicate Writes(attempt: Attempt, level: nat) { (attempt.written || attempt.acked) && level >= 1 }

  /** What the first attempt that writes the row came to. */
  function FirstRecord(attempts: seq<Attempt>, level: nat): Option<bool> {
    if attempts == [] then None
    else if Writes(attempts[0], level) then Some(attempts[0].delivered)
    else FirstRecord(attempts[1..], level)
  }

  /** Attempt `j` is the first that writes the row; none before it was heard of either. */
  predicate FirstWrites(attempts: seq<Attempt>, level: nat, j: nat) {
    && j < |attempts| && Writes(attempts[j], level)
    && forall i :: 0 <= i < j ==> !Writes(attempts[i], level) && (level >= 1 ==> !attempts[i].acked)
  }

  lemma {:induction false} FirstRecordMeans(attempts: seq<Attempt>, level: nat, delivered: bool)
    ensures FirstRecord(attempts, level) == Some(delivered) <==>
            exists j: nat :: FirstWrites(attempts, level, j) && attempts[j].delivered == delivered
    ensures FirstRecord(attempts, level) == None <==> forall j :: 0 <= j < |attempts| ==> !Writes(attempts[j], level)
  {
    if attempts != [] {
      FirstRecordMeans(attempts[1..], level, delivered);
      if Writes(attempts[0], level) {
        assert FirstWrites(attempts, level, 0);
      } else {
        forall j: nat | j < |attempts[1..]| ensures FirstWrites(attempts, level, j + 1) <==> FirstWrites(attempts[1..], level, j) {
          FirstWritesLater(attempts, level, j);
        }
        if j: nat :| FirstWrites(attempts, level, j) && attempts[j].delivered == delivered {
          assert attempts[1..][j - 1] == attempts[j] && FirstWrites(attempts[1..], level, j - 1);
        }
        if j: nat :| FirstWrites(attempts[1..], level, j) && attempts[1..][j].delivered == delivered {
          assert attempts[j + 1] == attempts[1..][j] && FirstWrites(attempts, level, j + 1);
        }
        assert forall j :: 0 < j < |attempts| ==> attempts[j] == attempts[1..][j - 1];
        assert forall j :: 0 <= j < |attempts[1..]| ==> attempts[1..][j] == attempts[j + 1];
      }
    }
  }

  lemma FirstWritesLater(attempts: seq<Attempt>, level: nat, j: nat)
    requires attempts != [] && !Writes(attempts[0], level)
    ensures FirstWrites(attempts, level, j + 1) <==> FirstWrites(attempts[1..], level, j)
  {
    if FirstWrites(attempts, level, j + 1) {
      forall i | 0 <= i < j ensures !Writes(attempts[1..][i], level) && (level >= 1 ==> !attempts[1..][i].acked) {
        assert attempts[1..][i] == attempts[i + 1];
      }
    }
    if FirstWrites(attempts[1..], level, j) {
      forall i | 0 <= i < j + 1 ensures !Writes(attempts[i], level) && (level >= 1 ==> !attempts[i].acked) {
        if i > 0 { assert attempts[i] == attempts[1..][i - 1]; }
      }
    }
  }

  // ---- What a run records ---------------------------------------------------

  /** In between, the page's row became `row` unless it had one. */
  ghost predicate Recorded(a: St, b: St, level: nat, reason: Reason, row: Option<bool>) {
    RowOf(b.notes, level, reason) == OrElse(RowOf(a.notes, level, reason), row)
  }

  lemma {:induction false} DeliverRecords(st: St, signals: seq<Signal>)
    ensures Deliver(st, signals).notes == st.notes
    decreases |signals|
  {
    if signals != [] { DeliverRecords(Receive(st, signals[0]), signals[1..]); }
  }

  lemma AttemptRecords(st: St, l: nat, r: Reason, attempt: Attempt, level: nat, reason: Reason)
    ensures Recorded(st, Attempted(st, l, r, attempt), level, reason,
                     if (l, r) == (level, reason) && Writes(attempt, l) then Some(attempt.delivered) else None)
  {
    RowOfMeans(st.notes, l, r);
    RowOfAppended(st.notes, Notification(l, r, attempt.delivered), level, reason);
  }

  lemma {:induction false} SendAttemptsRecord(st: St, l: nat, r: Reason, attempts: seq<Attempt>, level: nat, reason: Reason)
    ensures Recorded(st, SendAttempts(st, l, r, attempts).0, level, reason,
                     if (l, r) == (level, reason) then FirstRecord(attempts, l) else None)
    decreases |attempts|
  {
    if attempts != [] {
      AttemptRecords(st, l, r, attempts[0], level, reason);
      SendAttemptsRecord(Attempted(st, l, r, attempts[0]), l, r, attempts[1..], level, reason);
    }
  }

  function RowIn(turn: Turn, l: nat, r: Reason, level: nat, reason: Reason): Option<bool> {
    if (l, r) == (level, reason) then FirstRecord(Allowed(turn.attempts), l) else None
  }

  lemma SendRecords(st: St, l: nat, r: Reason, level: nat, reason: Reason)
    requires st.script != []
    ensures Recorded(st, Send(st, l, r).0, level, reason, RowIn(st.script[0], l, r, level, reason))
  {
    var turn := st.script[0];
    var st1 := Log(st, Paged(l, r, turn.db));
    DeliverRecords(st1, turn.signals);
    SendAttemptsRecord(Wait(st1), l, r, Allowed(turn.attempts), level, reason);
  }

  lemma PageLevelRecords(st: St, l: nat, level: nat, reason: Reason)
    ensures Recorded(st, PageLevel(st, l).st, level, reason,
                     if st.script == [] then None else RowIn(st.script[0], l, Escalation, level, reason))
  {
    if st.script != [] {
      SendRecords(st, l, Escalation, level, reason);
      var st1 := Send(st, l, Escalation).0;
      if st1.script != [] { DeliverRecords(st1, st1.script[0].signals); }
    }
  }

  lemma OneLevelRecords(st: St, l: nat, level: nat, reason: Reason)
    requires !st.Owned()
    ensures Recorded(st, OneLevel(st, l).st, level, reason,
                     if LevelPages(st.script) then RowIn(st.script[1], l, Escalation, level, reason) else None)
  {
    if st.script != [] {
      DeliverRecords(st, st.script[0].signals);
      WaitCounts(st, level, reason);
      var st1 := See(Wait(st), st.script[0].db);
      PageLevelRecords(st1, l, level, reason);
    }
  }

  lemma CloseRecords(st: St, levels: nat, level: nat, reason: Reason)
    ensures Recorded(st, Close(st, levels).0, level, reason,
                     if st.Owned() || st.script == [] then None else RowIn(st.script[0], levels, Exhausted, level, reason))
  {
    if !st.Owned() && st.script != [] { SendRecords(Log(st, Closed(false)), levels, Exhausted, level, reason); }
  }

  // ---- Whole runs -----------------------------------------------------------

  /** What the turn of a page records of it, if the run sends it. */
  ghost function RowBy(script: seq<Turn>, k: nat, level: nat, reason: Reason): Option<bool> {
    if Pages(script, k) then RowIn(script[3 * k + 1], k + 1, Escalation, level, reason) else None
  }

  ghost function RowAtEnd(script: seq<Turn>, levels: nat, level: nat, reason: Reason): Option<bool> {
    if Exhausts(script, levels) then RowIn(script[3 * levels], levels, Exhausted, level, reason) else None
  }

  ghost function RowFrom(script: seq<Turn>, levels: nat, k: nat, level: nat, reason: Reason): Option<bool>
    requires k <= levels
    decreases levels - k
  {
    if k == levels then RowAtEnd(script, levels, level, reason)
    else OrElse(RowBy(script, k, level, reason), RowFrom(script, levels, k + 1, level, reason))
  }

  lemma {:induction false} NoRowFrom(script: seq<Turn>, levels: nat, k: nat, level: nat, reason: Reason, stuck: nat)
    requires stuck < k <= levels && !Escalates(script, stuck)
    ensures RowFrom(script, levels, k, level, reason) == None
    decreases levels - k
  {
    assert !Pages(script, k) && !Exhausts(script, levels);
    if k < levels { NoRowFrom(script, levels, k + 1, level, reason, stuck); }
  }

  lemma RecordedThen(a: St, b: St, c: St, level: nat, reason: Reason, first: Option<bool>, second: Option<bool>)
    requires Recorded(a, b, level, reason, first) && Recorded(b, c, level, reason, second)
    ensures Recorded(a, c, level, reason, OrElse(first, second))
  {}

  /** Level `k + 1` of a run, in terms of the script. */
  lemma LevelRecords(st: St, script: seq<Turn>, k: nat, level: nat, reason: Reason)
    requires Placed(st, script, k)
    ensures var flow := OneLevel(st, k + 1);
      && Recorded(st, flow.st, level, reason, RowBy(script, k, level, reason))
      && (flow.Continue? <==> Escalates(script, k)) && (flow.Continue? ==> Placed(flow.st, script, k + 1))
      && (flow.Break? ==> flow.st.Owned())
  {
    LevelPlaces(st, script, k, level, reason);
    OneLevelRecords(st, k + 1, level, reason);
  }

  lemma {:induction false} RunRecords(st: St, script: seq<Turn>, levels: nat, k: nat, level: nat, reason: Reason)
    requires k <= levels && Placed(st, script, k)
    ensures Recorded(st, Run(st, levels, k).0, level, reason, RowFrom(script, levels, k, level, reason))
    decreases levels - k
  {
    if k == levels {
      CloseRecords(st, levels, level, reason);
    } else {
      LevelRecords(st, script, k, level, reason);
      var flow := OneLevel(st, k + 1);
      if flow.Continue? {
        RunRecords(flow.st, script, levels, k + 1, level, reason);
        RecordedThen(st, flow.st, Run(flow.st, levels, k + 1).0, level, reason,
                     RowBy(script, k, level, reason), RowFrom(script, levels, k + 1, level, reason));
      } else {
        NoRowFrom(script, levels, k + 1, level, reason, k);
        CloseRecords(flow.st, levels, level, reason);
      }
    }
  }

  lemma OtherLevelHasNoRow(script: seq<Turn>, k: nat, level: nat, reason: Reason)
    requires (k + 1, Escalation) != (level, reason)
    ensures RowBy(script, k, level, reason) == None
  {}

  lemma {:induction false} RowFromOwnLevel(script: seq<Turn>, levels: nat, k: nat, level: nat, reason: Reason)
    requires k <= levels
    ensures RowFrom(script, levels, k, level, reason) ==
      if reason == Exhausted then RowAtEnd(script, levels, level, reason)
      else if k < level <= levels then RowBy(script, level - 1, level, reason) else None
    decreases levels - k
  {
    if k < levels {
      RowFromOwnLevel(script, levels, k + 1, level, reason);
      if (k + 1, Escalation) != (level, reason) { OtherLevelHasNoRow(script, k, level, reason); }
    }
  }

  /** A page has a row exactly when the run sends it and some attempt made in its turn writes
      one, and the row says delivered exactly when the first such attempt's post was. */
  lemma PageRecordedExactly(script: seq<Turn>, levels: nat, level: nat, reason: Reason, delivered: bool)
    ensures var notes := Run(Start(script), levels, 0).0.notes;
      var turn := PageTurn(script, levels, level, reason);
      && (Notification(level, reason, delivered) in notes <==>
          turn.Some? && exists j: nat ::
            FirstWrites(Allowed(turn.value.attempts), level, j) && turn.value.attempts[j].delivered == delivered)
  {
    StartPlaced(script);
    RunRecords(Start(script), script, levels, 0, level, reason);
    RowFromOwnLevel(script, levels, 0, level, reason);
    var notes := Run(Start(script), levels, 0).0.notes;
    var turn := PageTurn(script, levels, level, reason);
    assert RowOf(notes, level, reason) == if turn.Some? then FirstRecord(Allowed(turn.value.attempts), level) else None;
    RowOfMeans(notes, level, reason);
    OneRowEach(script, levels, level, reason, delivered);
    if turn.Some? { FirstRecordMeans(Allowed(turn.value.attempts), level, delivered); }
  }

  /** No page has two rows, so its first row is its only one. */
  lemma OneRowEach(script: seq<Turn>, levels: nat, level: nat, reason: Reason, delivered: bool)
    ensures var notes := Run(Start(script), levels, 0).0.notes;
      Notification(level, reason, delivered) in notes <==> RowOf(notes, level, reason) == Some(delivered)
  {
    var notes := Run(Start(script), levels, 0).0.notes;
    EveryRunIsLawful(script, levels);
    var k := LawfulAuditShape(TraceOf(script, levels), levels, Onward(script));
    RowOfMeans(notes, level, reason);
    OneRowIn(notes, k, levels, level, reason, delivered);
  }

  lemma OneRowIn(notes: seq<Notification>, k: nat, levels: nat, level: nat, reason: Reason, delivered: bool)
    requires AuditShape(notes, k, levels)
    ensures Notification(level, reason, delivered) in notes ==> RowOf(notes, level, reason) == Some(delivered)
  {
    if Notification(level, reason, delivered) in notes {
      var i :| 0 <= i < |notes| && notes[i] == Notification(level, reason, delivered);
      assert HasNote(notes, level, reason);
      RowOfMeans(notes, level, reason);
      var j :| 0 <= j < |notes| && notes[j] == Notification(level, reason, RowOf(notes, level, reason).value);
      ShapeHasOne(notes, k, levels, i, j);
    }
  }

  lemma ShapeHasOne(notes: seq<Notification>, k: nat, levels: nat, i: nat, j: nat)
    requires AuditShape(notes, k, levels) && i < |notes| && j < |notes|
    requires notes[i].level == notes[j].level && notes[i].reason == notes[j].reason
    ensures i == j
  {
    if !Climbed(notes, k) {
      assert forall x :: 0 <= x < k ==> notes[..k][x] == notes[x];
    }
  }
}
