/** Runs of the remediation workflow that do what one might not expect of it. */
module RemediationTraps {
  import opened Incidents
  import opened Remediation
  import opened RemediationSafety
  import opened RemediationRetries
  import opened RemediationChecks
  import opened RemediationSchedule
  import opened Retries

  /** An activity that succeeds at its first attempt. */
  const ONCE := [Attempt(true, true)]

  /** A rejection during the recording of an approval does not stop the
      gated action it was meant for. */
  lemma RejectWhileRecordingApprovalIsLost(approver: string, rejecter: string) returns (script: seq<Turn>)
    ensures var trace := TraceOf(script, [Approval]);
      && Run(Start(script), [Approval], 0).1 == Completed
      && |trace| == 10 && trace[4] == Got(Reject(rejecter)) && trace[9] == Wrote(1, AuditRow(Succeeded, approver))
      && Ran(1) in trace[5..]
  {
    var t0, t1 := Turn([], Open, true, [], false), Turn([], Open, true, ONCE, false);
    var t2 := Turn([Approve(approver)], Open, true, [], false);
    var t3 := Turn([Reject(rejecter)], Open, true, ONCE, false);
    script := [t0, t1, t2, t3, t1, t1];
    var s0 := Start(script);
    var s1 := Note(s0.(script := script[1..]), Checked(1, Open));
    assert Note(Wait(s0), Checked(1, Open)) == s1;
    var s2 := WriteRow(s1.(script := script[2..]), 1, AuditRow(Pending, ""));
    assert Record(s1, 1, AuditRow(Pending, "")) == (s2, Done);
    var s3 := Receive(s2, Approve(approver)).(script := script[3..]);
    assert Deliver(s2, [Approve(approver)]) == Receive(s2, Approve(approver));
    assert Wait(s2) == s3;
    var s4 := Note(s3, Decided(1, Granted, approver));
    assert Deliver(s4, [Reject(rejecter)]) == Receive(s4, Reject(rejecter));
    var s5 := WriteRow(Receive(s4, Reject(rejecter)).(script := script[4..]), 1, AuditRow(Approved, approver));
    assert Record(s4, 1, AuditRow(Approved, approver)) == (s5, Done);
    var s6 := Clear(s5, 1);
    var s7 := Note(Note(s6, Began(1, Open)).(script := script[5..]), Ran(1));
    assert Execute(s6, 1) == (s7, Done);
    var s8 := WriteRow(s7.(script := []), 1, AuditRow(Succeeded, approver));
    assert Record(s7, 1, AuditRow(Succeeded, approver)) == (s8, Done);
    assert s8.trace[8] == Ran(1);
  }

  lemma OnceIsAnswered(turn: Turn)
    requires turn.attempts == ONCE
    ensures Answered(turn)
  {
    assert Made(turn)[0].heard;
  }

  /** A runbook of one automatic step, every activity heard to succeed. */
  lemma AutoFinishes(read: Turn, action: Turn, row: Turn)
    requires ReadLive(read) && Answered(action) && row.attempts == ONCE
    ensures var script := [read, action, row];
      && Run(Start(script), [Auto], 0).1 == Completed
      && Starts(script, [Auto], 0) && ActionTurn([Auto], 0) == 1
  {
    OnceIsAnswered(row);
    assert [read, action, row][0..] == [read, action, row];
    CompletesExactlyWhen([read, action, row], [Auto]);
  }

  /** An action does run again: an attempt that ran and went unheard is repeated. */
  lemma ActionCanRunTwice() returns (script: seq<Turn>)
    ensures Run(Start(script), [Auto], 0).1 == Completed
    ensures Runs(TraceOf(script, [Auto]), 1) == 2
  {
    var read, row := Turn([], Open, true, [], false), Turn([], Open, true, ONCE, false);
    var action := Turn([], Open, true, [Attempt(true, false), Attempt(true, true)], false);
    script := [read, action, row];
    var made := Made(action);
    assert made == [Try(true, false), Try(true, true)] && made[1].heard;
    assert made[1..] == [Try(true, true)] && Applied(made[1..]) == 1;
    AutoFinishes(read, action, row);
    ActionRunsExactly(script, [Auto], 1);
  }

  lemma OneLate(script: seq<Turn>, modes: seq<Mode>)
    requires Onward(script) && modes != [] && ActsLate(script, modes, 0)
    ensures Late(TraceOf(script, modes)) == 1
  {
    LateExactlyWhen(script, modes);
    AtMostOneLateAction(script, modes);
  }

  /** The database can change between a step's status read and its action, so an automatic
      step acts on an incident resolved in between. */
  lemma AutoStepActsOnResolved() returns (script: seq<Turn>)
    ensures Onward(script) && |script| == 3 && script[0].db == Open && script[1].db == Resolved
    ensures Run(Start(script), [Auto], 0).1 == Completed && Late(TraceOf(script, [Auto])) == 1
  {
    var live, gone := Turn([], Open, true, ONCE, false), Turn([], Resolved, true, ONCE, false);
    script := [live, gone, gone];
    OnceIsAnswered(gone);
    AutoFinishes(live, gone, gone);
    OneLate(script, [Auto]);
  }

  /** After a rejection and then an approval the step is refused, and its row says the
      approver rejected it. */
  lemma RefusalCanNameApprover(rejecter: string, approver: string) returns (script: seq<Turn>)
    ensures var (st, outcome) := Run(Start(script), [Approval], 0);
      outcome == Halted && st.rows == map[1 := AuditRow(Rejected, approver)]
    ensures |script| == 4 && script[2].signals == [Reject(rejecter), Approve(approver)]
  {
    var quiet := Turn([], Open, true, ONCE, false);
    script := [quiet, quiet, Turn([Reject(rejecter), Approve(approver)], Open, true, [], false), quiet];
    var s1 := Note(Start(script).(script := script[1..]), Checked(1, Open));
    assert Note(Wait(Start(script)), Checked(1, Open)) == s1;
    var s2 := WriteRow(s1.(script := script[2..]), 1, AuditRow(Pending, ""));
    assert Record(s1, 1, AuditRow(Pending, "")) == (s2, Done);
    var s3 := Receive(Receive(s2, Reject(rejecter)), Approve(approver)).(script := script[3..]);
    var both := [Reject(rejecter), Approve(approver)];
    var heard := Receive(s2, Reject(rejecter));
    assert both[1..] == [Approve(approver)] && both[1..][1..] == [];
    assert Deliver(s2, both) == Deliver(heard, [Approve(approver)]) == Receive(heard, Approve(approver));
    assert Wait(s2) == s3;
    var s4 := Note(s3, Decided(1, Refused, approver));
    var s5 := WriteRow(s4.(script := []), 1, AuditRow(Rejected, approver));
    assert script[3..][1..] == [] && Record(s4, 1, AuditRow(Rejected, approver)) == (s5, Done);
  }

  /** A runbook of one gated step, approved while it waits. */
  lemma GateFinishes(script: seq<Turn>, approver: string)
    requires |script| == 6 && ReadLive(script[0]) && script[0].signals == script[1].signals == []
    requires script[2].signals == [Approve(approver)] && !script[2].cancelled
    requires forall i :: 0 <= i < 6 && i != 2 ==> script[i].attempts == ONCE
    ensures Run(Start(script), [Approval], 0).1 == Completed
    ensures Starts(script, [Approval], 0) && ActionTurn([Approval], 0) == 4
  {
    forall i | 0 <= i < 6 && i != 2 ensures Answered(script[i]) { OnceIsAnswered(script[i]); }
    var heard := script[..3];
    assert Approve(approver) in heard[2].signals && Sends(heard[2], true);
    assert !Sent(heard, false);
    assert Passes(script, false, false);
    assert script[0..] == script && script[0..0] == [];
    assert Finishes(script, [Approval], 0);
    CompletesExactlyWhen(script, [Approval]);
  }

  /** A gated step does not read the incident again after its approval, so it
      acts on one resolved while it waited. */
  lemma GatedStepActsOnResolved(approver: string) returns (script: seq<Turn>)
    ensures Onward(script) && |script| == 6 && script[2].db == Resolved && Approve(approver) in script[2].signals
    ensures Run(Start(script), [Approval], 0).1 == Completed && Late(TraceOf(script, [Approval])) == 1
  {
    var live, gone := Turn([], Open, true, ONCE, false), Turn([], Resolved, true, ONCE, false);
    script := [live, live, Turn([Approve(approver)], Resolved, true, [], false), gone, gone, gone];
    GateFinishes(script, approver);
    OneLate(script, [Approval]);
  }
}
