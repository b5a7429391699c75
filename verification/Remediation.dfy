/** The remediation workflow: runbook steps, human gates and the audit trail, under
    every interleaving of signals, activity failures, retries and timeouts.

    A script lists what the environment does at each point where the workflow waits:
    the signals that arrive there, the incident's status in the database meanwhile, and
    how the activity or timer ends. A run over a script that ends early is a run observed
    part-way. */
module Remediation {
  import opened Incidents

  datatype Mode = Auto | Approval

  datatype Signal = Approve(actor: string) | Reject(actor: string)

  datatype ActionStatus = Pending | Approved | Rejected | TimedOut | Succeeded | Failed | Skipped

  datatype AuditRow = AuditRow(status: ActionStatus, actor: string)

  /** One attempt of an activity: whether its effect happened and whether the
      workflow heard so. An acknowledged attempt always took effect. */
  datatype Attempt = Attempt(effect: bool, acked: bool)

  datatype Turn = Turn(signals: seq<Signal>, db: Status, reachable: bool, attempts: seq<Attempt>, cancelled: bool)

  const MAX_ATTEMPTS := 3

  datatype Outcome = Running | Completed | Halted | Errored

  /** How a gated step's wait was resolved. */
  datatype Verdict = Granted | Refused | Expired

  /** What a run has done so far, in order. */
  datatype Happening =
    | Got(signal: Signal)
    | Wrote(step: nat, row: AuditRow)
    | Checked(step: nat, status: Status)
    | Began(step: nat, db: Status)
    | Ran(step: nat)
    | Decided(step: nat, verdict: Verdict, actor: string)
    | Cleared(step: nat)

  /** The workflow's variables, the audit table, what has happened and what the
      environment has yet to do. Step numbers start at one. */
  datatype St = St(approved: bool, rejected: bool, actor: string, rows: map<nat, AuditRow>,
                   trace: seq<Happening>, script: seq<Turn>)

  // ---- The environment ----------------------------------------------------

  function Receive(st: St, signal: Signal): St {
    match signal
    case Approve(a) => st.(approved := true, actor := a, trace := st.trace + [Got(signal)])
    case Reject(a) => st.(rejected := true, actor := a, trace := st.trace + [Got(signal)])
  }

  function Deliver(st: St, signals: seq<Signal>): St
    decreases |signals|
  {
    if signals == [] then st else Deliver(Receive(st, signals[0]), signals[1..])
  }

  /** The workflow waits: the next turn's signals arrive. */
  function Wait(st: St): St
    requires st.script != []
  {
    Deliver(st, st.script[0].signals).(script := st.script[1..])
  }

  function WriteRow(st: St, step: nat, row: AuditRow): St {
    Note(st.(rows := st.rows[step := row]), Wrote(step, row))
  }

  /** The attempts the retry policy leaves room for. */
  function Allowed(attempts: seq<Attempt>): seq<Attempt> {
    if |attempts| <= MAX_ATTEMPTS then attempts else attempts[..MAX_ATTEMPTS]
  }

  /** Retries of an audit write until one is acknowledged or the policy gives up. */
  function WriteAttempts(st: St, step: nat, row: AuditRow, attempts: seq<Attempt>): (r: (St, bool))
    decreases |attempts|
  {
    if attempts == [] then (st, false)
    else
      var st' := if attempts[0].effect || attempts[0].acked then WriteRow(st, step, row) else st;
      if attempts[0].acked then (st', true) else WriteAttempts(st', step, row, attempts[1..])
  }

  /** Retries of a step's action. */
  function RunAttempts(st: St, step: nat, attempts: seq<Attempt>): (r: (St, bool))
    decreases |attempts|
  {
    if attempts == [] then (st, false)
    else
      var st' := if attempts[0].effect || attempts[0].acked then Note(st, Ran(step)) else st;
      if attempts[0].acked then (st', true) else RunAttempts(st', step, attempts[1..])
  }

  /** How a wait ended: the script ran out, the activity failed, or it succeeded. */
  datatype Reply = Blocked | Failure | Done

  function Record(st: St, step: nat, row: AuditRow): (St, Reply) {
    if st.script == [] then (st, Blocked)
    else
      var (st', ok) := WriteAttempts(Wait(st), step, row, Allowed(st.script[0].attempts));
      (st', if ok then Done else Failure)
  }

  function Execute(st: St, step: nat): (St, Reply) {
    if st.script == [] then (st, Blocked)
    else
      var st1 := Note(st, Began(step, st.script[0].db));
      var (st', ok) := RunAttempts(Wait(st1), step, Allowed(st.script[0].attempts));
      (st', if ok then Done else Failure)
  }

  // ---- One runbook step ---------------------------------------------------

  /** The run goes on with the next step, or ends here. */
  datatype Flow = Continue(st: St) | Stop(st: St, outcome: Outcome)

  function Ended(r: (St, Reply), outcome: Outcome): Flow {
    match r.1
    case Blocked => Stop(r.0, Running)
    case Failure => Stop(r.0, Errored)
    case Done => Stop(r.0, outcome)
  }

  function ExecuteStep(st: St, step: nat, actor: string): Flow {
    var (st1, reply) := Execute(st, step);
    match reply
    case Blocked => Stop(st1, Running)
    case Failure => Ended(Record(st1, step, AuditRow(Failed, actor)), Halted)
    case Done =>
      var r := Record(st1, step, AuditRow(Succeeded, actor));
      if r.1.Done? then Continue(r.0) else Ended(r, Errored)
  }

  function Note(st: St, h: Happening): St { st.(trace := st.trace + [h]) }

  function Clear(st: St, step: nat): St {
    Note(st.(approved := false, rejected := false, actor := ""), Cleared(step))
  }

  /** Records the approval, clears the decision and acts on it. */
  function Grant(st: St, step: nat, actor: string): Flow {
    var r := Record(st, step, AuditRow(Approved, actor));
    if r.1.Done? then ExecuteStep(Clear(r.0, step), step, actor) else Ended(r, Errored)
  }

  /** After the pending row is recorded: wait for a decision, then act on it. */
  function Decide(st: St, step: nat): Flow {
    if st.script == [] then Stop(st, Running)
    else
      var st1 := Wait(st);
      if st.script[0].cancelled then Stop(st1, Errored)
      else if !st1.approved && !st1.rejected then
        Ended(Record(Note(st1, Decided(step, Expired, st1.actor)), step, AuditRow(TimedOut, "")), Halted)
      else if st1.rejected then
        Ended(Record(Note(st1, Decided(step, Refused, st1.actor)), step, AuditRow(Rejected, st1.actor)), Halted)
      else Grant(Note(st1, Decided(step, Granted, st1.actor)), step, st1.actor)
  }

  function GatedStep(st: St, step: nat): Flow {
    var r := Record(st, step, AuditRow(Pending, ""));
    if r.1.Done? then Decide(r.0, step) else Ended(r, Errored)
  }

  function OneStep(st: St, step: nat, mode: Mode): Flow {
    if st.script == [] then Stop(st, Running)
    else if !st.script[0].reachable then Stop(Wait(st), Errored)
    else
      var st1 := Note(Wait(st), Checked(step, st.script[0].db));
      if st.script[0].db == Resolved then Ended(Record(st1, step, AuditRow(Skipped, "")), Halted)
      else if mode == Approval then GatedStep(st1, step)
      else ExecuteStep(st1, step, "")
  }

  /** The whole run from step `i + 1` on. */
  function Run(st: St, modes: seq<Mode>, i: nat): (St, Outcome)
    requires i <= |modes|
    decreases |modes| - i
  {
    if i == |modes| then (st, Completed)
    else
      match OneStep(st, i + 1, modes[i])
      case Stop(st', outcome) => (st', outcome)
      case Continue(st') => Run(st', modes, i + 1)
  }

  function Start(script: seq<Turn>): St { St(false, false, "", map[], [], script) }

  // ---- The workflow as written -------------------------------------------

  /** The workflow's own loop over its mutable flags. */
  class Workflow {
    var approved: bool
    var rejected: bool
    var actor: string
    var rows: map<nat, AuditRow>
    var trace: seq<Happening>
    var script: seq<Turn>

    function Now(): St
      reads this
    {
      St(approved, rejected, actor, rows, trace, script)
    }

    constructor (script: seq<Turn>)
      ensures Now() == Start(script)
    {
      approved, rejected, actor := false, false, "";
      rows, trace := map[], [];
      this.script := script;
    }

    /** The signal loops run while the workflow waits. */
    method AwaitTurn() returns (turn: Turn)
      requires script != []
      modifies this
      ensures turn == old(script)[0] && Now() == Wait(old(Now()))
    {
      turn := script[0];
      script := script[1..];
      for k := 0 to |turn.signals|
        invariant script == old(script)[1..]
        invariant Deliver(Now(), turn.signals[k..]) == Deliver(old(Now()).(script := old(script)[1..]), turn.signals)
      {
        match turn.signals[k] {
          case Approve(a) => approved, actor := true, a;
          case Reject(a) => rejected, actor := true, a;
        }
        trace := trace + [Got(turn.signals[k])];
        assert turn.signals[k..][1..] == turn.signals[k + 1..];
      }
      DeliverKeepsScript(old(Now()), turn.signals, old(script)[1..]);
    }

    /** One attempt of an audit write. */
    method AttemptRecord(step: nat, row: AuditRow, attempt: Attempt)
      modifies this`rows, this`trace
      ensures Now() == if attempt.effect || attempt.acked then WriteRow(old(Now()), step, row) else old(Now())
    {
      if attempt.effect || attempt.acked {
        rows := rows[step := row];
        trace := trace + [Wrote(step, row)];
      }
    }

    /** One attempt of a step's action. */
    method AttemptAction(step: nat, attempt: Attempt)
      modifies this`trace
      ensures Now() == if attempt.effect || attempt.acked then Note(old(Now()), Ran(step)) else old(Now())
    {
      if attempt.effect || attempt.acked {
        trace := trace + [Ran(step)];
      }
    }

    method RecordAction(step: nat, row: AuditRow) returns (reply: Reply)
      modifies this
      ensures (Now(), reply) == Record(old(Now()), step, row)
    {
      if script == [] { return Blocked; }
      var turn := AwaitTurn();
      ghost var start := Now();
      var k := 0;
      ghost var allowed := Allowed(turn.attempts);
      while k < MAX_ATTEMPTS && k < |turn.attempts|
        invariant k <= |allowed|
        invariant WriteAttempts(Now(), step, row, allowed[k..]) == WriteAttempts(start, step, row, allowed)
      {
        assert allowed[k..][1..] == allowed[k + 1..];
        AttemptRecord(step, row, turn.attempts[k]);
        if turn.attempts[k].acked { return Done; }
        k := k + 1;
      }
      reply := Failure;
    }

    method ExecuteAction(step: nat) returns (reply: Reply)
      modifies this
      ensures (Now(), reply) == Execute(old(Now()), step)
    {
      if script == [] { return Blocked; }
      trace := trace + [Began(step, script[0].db)];
      var turn := AwaitTurn();
      ghost var start := Now();
      var k := 0;
      ghost var allowed := Allowed(turn.attempts);
      while k < MAX_ATTEMPTS && k < |turn.attempts|
        invariant k <= |allowed|
        invariant RunAttempts(Now(), step, allowed[k..]) == RunAttempts(start, step, allowed)
      {
        assert allowed[k..][1..] == allowed[k + 1..];
        AttemptAction(step, turn.attempts[k]);
        if turn.attempts[k].acked { return Done; }
        k := k + 1;
      }
      reply := Failure;
    }

    /** Records `row` and ends the run with it. */
    method Halt(step: nat, row: AuditRow) returns (outcome: Outcome)
      modifies this
      ensures Stop(Now(), outcome) == Ended(Record(old(Now()), step, row), Halted)
    {
      var reply := RecordAction(step, row);
      outcome := if reply.Blocked? then Running else if reply.Failure? then Errored else Halted;
    }

    /** An approval gate: pending row, bounded wait, decision, cleared flags. */
    method PassGate(step: nat) returns (passed: bool, approver: string, outcome: Outcome)
      modifies this
      ensures passed ==> GatedStep(old(Now()), step) == ExecuteStep(Now(), step, approver)
      ensures !passed ==> GatedStep(old(Now()), step) == Stop(Now(), outcome)
    {
      passed, approver := false, "";
      var reply := RecordAction(step, AuditRow(Pending, ""));
      if !reply.Done? {
        outcome := if reply.Blocked? then Running else Errored;
        return;
      }
      if script == [] { outcome := Running; return; }
      var turn := AwaitTurn();
      if turn.cancelled { outcome := Errored; return; }
      if !approved && !rejected {
        trace := trace + [Decided(step, Expired, actor)];
        outcome := Halt(step, AuditRow(TimedOut, ""));
        return;
      }
      approver := actor;
      if rejected {
        trace := trace + [Decided(step, Refused, actor)];
        outcome := Halt(step, AuditRow(Rejected, approver));
        return;
      }
      trace := trace + [Decided(step, Granted, actor)];
      reply := RecordAction(step, AuditRow(Approved, approver));
      if !reply.Done? {
        outcome := if reply.Blocked? then Running else Errored;
        return;
      }
      approved, rejected, actor := false, false, "";
      trace := trace + [Cleared(step)];
      passed, outcome := true, Running;
    }

    /** A step's action and the audit row that reports it. */
    method Perform(step: nat, approver: string) returns (goOn: bool, outcome: Outcome)
      modifies this
      ensures ExecuteStep(old(Now()), step, approver) == if goOn then Continue(Now()) else Stop(Now(), outcome)
    {
      goOn := false;
      var reply := ExecuteAction(step);
      if reply.Blocked? { outcome := Running; return; }
      if reply.Failure? {
        outcome := Halt(step, AuditRow(Failed, approver));
        return;
      }
      reply := RecordAction(step, AuditRow(Succeeded, approver));
      goOn := reply.Done?;
      outcome := if reply.Failure? then Errored else Running;
    }

    /** One turn of the loop over the runbook: status check, gate if any, action. */
    method TakeStep(step: nat, mode: Mode) returns (goOn: bool, outcome: Outcome)
      modifies this
      ensures OneStep(old(Now()), step, mode) == if goOn then Continue(Now()) else Stop(Now(), outcome)
    {
      goOn := false;
      if script == [] { outcome := Running; return; }
      var turn := AwaitTurn();
      if !turn.reachable { outcome := Errored; return; }
      trace := trace + [Checked(step, turn.db)];
      if turn.db != Open && turn.db != Acknowledged {
        outcome := Halt(step, AuditRow(Skipped, ""));
        return;
      }
      var approver := "";
      if mode == Approval {
        var passed;
        passed, approver, outcome := PassGate(step);
        if !passed { return; }
      }
      goOn, outcome := Perform(step, approver);
    }

    method IncidentRemediationWorkflow(modes: seq<Mode>) returns (outcome: Outcome)
      modifies this
      ensures (Now(), outcome) == Run(old(Now()), modes, 0)
    {
      for i := 0 to |modes|
        invariant Run(Now(), modes, i) == Run(old(Now()), modes, 0)
      {
        var goOn;
        goOn, outcome := TakeStep(i + 1, modes[i]);
        if !goOn { return; }
      }
      outcome := Completed;
    }
  }

  lemma {:induction false} DeliverKeepsScript(st: St, signals: seq<Signal>, rest: seq<Turn>)
    ensures Deliver(st.(script := rest), signals) == Deliver(st, signals).(script := rest)
    decreases |signals|
  {
    if signals != [] { DeliverKeepsScript(Receive(st, signals[0]), signals[1..], rest); }
  }
}
