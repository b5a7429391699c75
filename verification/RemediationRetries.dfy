/** Retried activities: how often an action can run, who the audit trail names, and
    why retries with lost acknowledgements leave the rows of a run without them. */
module RemediationRetries {
  import opened Remediation
  import opened RemediationSafety
  import opened Retries

  // ---- Each activity once -------------------------------------------------

  /** The attempts made, rolled into at most one with the same effect and answer. */
  function Collapse(attempts: seq<Attempt>): (r: seq<Attempt>)
    ensures |r| <= 1 && (r == [] <==> attempts == [])
  {
    if attempts == [] then []
    else if attempts[0].acked || |attempts| == 1 then [Attempt(attempts[0].effect || attempts[0].acked, attempts[0].acked)]
    else
      var rest := Collapse(attempts[1..])[0];
      [Attempt(attempts[0].effect || rest.effect || rest.acked, rest.acked)]
  }

  function OnceEach(script: seq<Turn>): (r: seq<Turn>)
    ensures |r| == |script|
    ensures forall i :: 0 <= i < |r| ==> |r[i].attempts| <= 1
  {
    if script == [] then []
    else [script[0].(attempts := Collapse(Allowed(script[0].attempts)))] + OnceEach(script[1..])
  }

  /** The same variables and audit rows, facing the same environment up to retries. */
  ghost predicate Alike(a: St, b: St) {
    && a.approved == b.approved && a.rejected == b.rejected && a.actor == b.actor
    && a.rows == b.rows && b.script == OnceEach(a.script)
  }

  lemma {:induction false} DeliverAlike(a: St, b: St, signals: seq<Signal>)
    requires Alike(a, b)
    ensures Alike(Deliver(a, signals), Deliver(b, signals))
    ensures Deliver(a, signals).script == a.script
    decreases |signals|
  {
    if signals != [] { DeliverAlike(Receive(a, signals[0]), Receive(b, signals[0]), signals[1..]); }
  }

  lemma WaitAlike(a: St, b: St)
    requires Alike(a, b) && a.script != []
    ensures b.script != [] && Alike(Wait(a), Wait(b))
    ensures b.script[0] == a.script[0].(attempts := Collapse(Allowed(a.script[0].attempts)))
  {
    DeliverAlike(a, b, a.script[0].signals);
    assert b.script[1..] == OnceEach(a.script[1..]);
  }

  /** How attempts roll up, first by first. */
  lemma CollapseFirst(attempts: seq<Attempt>)
    requires attempts != []
    ensures Collapse(attempts) == [Collapse(attempts)[0]] && Collapse(attempts)[1..] == []
    ensures var first, one := attempts[0], Collapse(attempts)[0];
      if first.acked || |attempts| == 1 then one == Attempt(first.effect || first.acked, first.acked)
      else var rest := Collapse(attempts[1..])[0];
        one == Attempt(first.effect || rest.effect || rest.acked, rest.acked)
  {}

  lemma OneWrite(st: St, step: nat, row: AuditRow, one: Attempt)
    ensures WriteAttempts(st, step, row, [one]) == (if one.effect || one.acked then WriteRow(st, step, row) else st, one.acked)
  {
    assert [one][1..] == [];
  }

  /** What attempts leave is what the one they roll up to leaves. */
  lemma {:induction false} WriteCollapses(st: St, step: nat, row: AuditRow, attempts: seq<Attempt>)
    requires attempts != []
    ensures var (st', done) := WriteAttempts(st, step, row, attempts);
      var one := Collapse(attempts)[0];
      && st'.(trace := []) == st.(rows := if one.effect || one.acked then st.rows[step := row] else st.rows, trace := [])
      && done == one.acked
    decreases |attempts|
  {
    CollapseFirst(attempts);
    if !attempts[0].acked {
      if |attempts| > 1 {
        WriteCollapses(if attempts[0].effect then WriteRow(st, step, row) else st, step, row, attempts[1..]);
      } else {
        assert attempts[1..] == [];
      }
    }
  }

  lemma WriteAlike(a: St, b: St, step: nat, row: AuditRow, attempts: seq<Attempt>)
    requires Alike(a, b)
    ensures var (a', done) := WriteAttempts(a, step, row, attempts);
      var (b', done') := WriteAttempts(b, step, row, Collapse(attempts));
      Alike(a', b') && done == done'
  {
    if attempts != [] {
      CollapseFirst(attempts);
      WriteCollapses(a, step, row, attempts);
      OneWrite(b, step, row, Collapse(attempts)[0]);
    }
  }

  lemma {:induction false} RunAlike(a: St, b: St, step: nat, attempts: seq<Attempt>)
    requires Alike(a, b)
    ensures var (a', done) := RunAttempts(a, step, attempts);
      var (b', done') := RunAttempts(b, step, Collapse(attempts));
      Alike(a', b') && done == done'
    decreases |attempts|
  {
    if attempts != [] {
      CollapseFirst(attempts);
      if !attempts[0].acked {
        RunAlike(if attempts[0].effect then Note(a, Ran(step)) else a, b, step, attempts[1..]);
        if |attempts| > 1 { CollapseFirst(attempts[1..]); } else { assert attempts[1..] == []; }
      }
    }
  }

  lemma AllowedCollapse(attempts: seq<Attempt>)
    ensures Allowed(Collapse(Allowed(attempts))) == Collapse(Allowed(attempts))
  {}

  lemma RecordAlike(a: St, b: St, step: nat, row: AuditRow)
    requires Alike(a, b)
    ensures Alike(Record(a, step, row).0, Record(b, step, row).0)
    ensures Record(a, step, row).1 == Record(b, step, row).1
  {
    if a.script != [] {
      WaitAlike(a, b);
      AllowedCollapse(a.script[0].attempts);
      WriteAlike(Wait(a), Wait(b), step, row, Allowed(a.script[0].attempts));
    }
  }

  lemma ExecuteAlike(a: St, b: St, step: nat)
    requires Alike(a, b)
    ensures Alike(Execute(a, step).0, Execute(b, step).0)
    ensures Execute(a, step).1 == Execute(b, step).1
  {
    if a.script != [] {
      var a1, b1 := Note(a, Began(step, a.script[0].db)), Note(b, Began(step, b.script[0].db));
      WaitAlike(a1, b1);
      AllowedCollapse(a.script[0].attempts);
      RunAlike(Wait(a1), Wait(b1), step, Allowed(a.script[0].attempts));
    }
  }

  ghost predicate FlowAlike(f: Flow, g: Flow) {
    && Alike(f.st, g.st) && (f.Continue? <==> g.Continue?)
    && (f.Stop? ==> f.outcome == g.outcome)
  }

  lemma ExecuteStepAlike(a: St, b: St, step: nat, actor: string)
    requires Alike(a, b)
    ensures FlowAlike(ExecuteStep(a, step, actor), ExecuteStep(b, step, actor))
  {
    ExecuteAlike(a, b, step);
    var a', b' := Execute(a, step).0, Execute(b, step).0;
    RecordAlike(a', b', step, AuditRow(Failed, actor));
    RecordAlike(a', b', step, AuditRow(Succeeded, actor));
  }

  lemma GrantAlike(a: St, b: St, step: nat, actor: string)
    requires Alike(a, b)
    ensures FlowAlike(Grant(a, step, actor), Grant(b, step, actor))
  {
    var row := AuditRow(Approved, actor);
    RecordAlike(a, b, step, row);
    ExecuteStepAlike(Clear(Record(a, step, row).0, step), Clear(Record(b, step, row).0, step), step, actor);
  }

  lemma DecideAlike(a: St, b: St, step: nat)
    requires Alike(a, b)
    ensures FlowAlike(Decide(a, step), Decide(b, step))
  {
    if a.script != [] {
      WaitAlike(a, b);
      var a1, b1 := Wait(a), Wait(b);
      var verdict := VerdictOn(a1.approved, a1.rejected);
      var a2, b2 := Note(a1, Decided(step, verdict, a1.actor)), Note(b1, Decided(step, verdict, b1.actor));
      match verdict
      case Granted => GrantAlike(a2, b2, step, a1.actor);
      case Refused => EndedAlike(a2, b2, step, AuditRow(Rejected, a1.actor), Halted);
      case Expired => EndedAlike(a2, b2, step, AuditRow(TimedOut, ""), Halted);
    }
  }

  lemma EndedAlike(a: St, b: St, step: nat, row: AuditRow, outcome: Outcome)
    requires Alike(a, b)
    ensures FlowAlike(Ended(Record(a, step, row), outcome), Ended(Record(b, step, row), outcome))
  {
    RecordAlike(a, b, step, row);
  }

  lemma GatedStepAlike(a: St, b: St, step: nat)
    requires Alike(a, b)
    ensures FlowAlike(GatedStep(a, step), GatedStep(b, step))
  {
    var row := AuditRow(Pending, "");
    RecordAlike(a, b, step, row);
    DecideAlike(Record(a, step, row).0, Record(b, step, row).0, step);
  }

  lemma OneStepAlike(a: St, b: St, step: nat, mode: Mode)
    requires Alike(a, b)
    ensures FlowAlike(OneStep(a, step, mode), OneStep(b, step, mode))
  {
    if a.script != [] {
      WaitAlike(a, b);
      var a1, b1 := Note(Wait(a), Checked(step, a.script[0].db)), Note(Wait(b), Checked(step, b.script[0].db));
      EndedAlike(a1, b1, step, AuditRow(Skipped, ""), Halted);
      GatedStepAlike(a1, b1, step);
      ExecuteStepAlike(a1, b1, step, "");
    }
  }

  lemma {:induction false} RunStaysAlike(a: St, b: St, modes: seq<Mode>, i: nat)
    requires i <= |modes| && Alike(a, b)
    ensures Alike(Run(a, modes, i).0, Run(b, modes, i).0)
    ensures Run(a, modes, i).1 == Run(b, modes, i).1
    decreases |modes| - i
  {
    if i < |modes| {
      OneStepAlike(a, b, i + 1, modes[i]);
      var f, g := OneStep(a, i + 1, modes[i]), OneStep(b, i + 1, modes[i]);
      if f.Continue? { RunStaysAlike(f.st, g.st, modes, i + 1); }
    }
  }

  /** Retries, with acknowledgements lost in any way, leave the audit rows and the
      outcome of the run in which every activity was attempted at most once. */
  lemma RetriesLeaveSameRows(script: seq<Turn>, modes: seq<Mode>)
    ensures var (st, outcome) := Run(Start(script), modes, 0);
      var (once, outcome') := Run(Start(OnceEach(script)), modes, 0);
      st.rows == once.rows && outcome == outcome'
  {
    RunStaysAlike(Start(script), Start(OnceEach(script)), modes, 0);
  }

  // ---- How often an action can run ----------------------------------------

  function Runs(trace: seq<Happening>, step: nat): nat { multiset(trace)[Ran(step)] }

  lemma {:induction false} DeliverRuns(st: St, signals: seq<Signal>, step: nat)
    ensures Runs(Deliver(st, signals).trace, step) == Runs(st.trace, step)
    decreases |signals|
  {
    if signals != [] { DeliverRuns(Receive(st, signals[0]), signals[1..], step); }
  }

  lemma {:induction false} WriteRuns(st: St, s: nat, row: AuditRow, attempts: seq<Attempt>, step: nat)
    ensures Runs(WriteAttempts(st, s, row, attempts).0.trace, step) == Runs(st.trace, step)
    decreases |attempts|
  {
    if attempts != [] {
      WriteRuns(if attempts[0].effect || attempts[0].acked then WriteRow(st, s, row) else st, s, row, attempts[1..], step);
    }
  }

  function Tries(attempts: seq<Attempt>): seq<Try> {
    seq(|attempts|, i requires 0 <= i < |attempts| => Try(attempts[i].effect || attempts[i].acked, attempts[i].acked))
  }

  lemma {:induction false} AttemptRuns(st: St, s: nat, attempts: seq<Attempt>, step: nat)
    ensures Runs(RunAttempts(st, s, attempts).0.trace, step)
         == Runs(st.trace, step) + if s == step then Applied(Tries(attempts)) else 0
    decreases |attempts|
  {
    if attempts == [] {
    } else {
      assert Tries(attempts)[1..] == Tries(attempts[1..]);
      var st' := if attempts[0].effect || attempts[0].acked then Note(st, Ran(s)) else st;
      AttemptRuns(st', s, attempts[1..], step);
    }
  }

  lemma NoteRuns(st: St, h: Happening, step: nat)
    ensures Runs(Note(st, h).trace, step) == Runs(st.trace, step) + if h == Ran(step) then 1 else 0
  {}

  lemma RecordRuns(st: St, s: nat, row: AuditRow, step: nat)
    ensures Runs(Record(st, s, row).0.trace, step) == Runs(st.trace, step)
  {
    if st.script != [] {
      DeliverRuns(st, st.script[0].signals, step);
      WriteRuns(Wait(st), s, row, Allowed(st.script[0].attempts), step);
    }
  }

  // ---- Who the audit trail names ------------------------------------------

  /** The signals heard since the last cleared decision. */
  function Heard(trace: seq<Happening>): seq<Signal> {
    if trace == [] then []
    else
      match Latest(trace)
      case Got(signal) => Heard(Init(trace)) + [signal]
      case Cleared(_) => []
      case _ => Heard(Init(trace))
  }

  lemma {:induction false} HeardSaysAll(trace: seq<Happening>)
    ensures HeardApprove(trace) <==> exists s :: s in Heard(trace) && s.Approve?
    ensures HeardReject(trace) <==> exists s :: s in Heard(trace) && s.Reject?
    ensures HeardFrom(trace) == if Heard(trace) == [] then "" else Heard(trace)[|Heard(trace)| - 1].actor
  {
    if trace != [] {
      HeardSaysAll(Init(trace));
      if Latest(trace).Got? {
        assert Latest(trace).signal in Heard(trace);
        assert forall s :: s in Heard(trace) <==> s in Heard(Init(trace)) || s == Latest(trace).signal;
      }
    }
  }

  /** Every decision names the sender of the latest signal heard. On a grant that is
      always an approver; on a refusal it is a rejecter exactly when the latest signal
      was itself a rejection, so an approval sent after a rejection takes its place. */
  lemma DecisionNamesLatestSender(script: seq<Turn>, modes: seq<Mode>, d: nat)
    requires d < |TraceOf(script, modes)| && TraceOf(script, modes)[d].Decided?
    requires TraceOf(script, modes)[d].verdict != Expired
    ensures var trace := TraceOf(script, modes);
      var heard := Heard(trace[..d]);
      && heard != [] && trace[d].actor == heard[|heard| - 1].actor
      && (trace[d].verdict == Granted <==> forall s :: s in heard ==> s.Approve?)
  {
    EveryRunIsLawful(script, modes);
    LawfulDecisionNames(TraceOf(script, modes), modes, d);
  }

  lemma LawfulDecisionNames(trace: seq<Happening>, modes: seq<Mode>, d: nat)
    requires d < |trace| && Lawful(trace, modes) && trace[d].Decided? && trace[d].verdict != Expired
    ensures var heard := Heard(trace[..d]);
      && heard != [] && trace[d].actor == heard[|heard| - 1].actor
      && (trace[d].verdict == Granted <==> forall s :: s in heard ==> s.Approve?)
  {
    LawfulPrefix(trace, d + 1, modes);
    LawfulPrefix(trace, d, modes);
    HeardSaysAll(trace[..d]);
  }
}
