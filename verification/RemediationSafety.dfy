/** What every run of the remediation workflow keeps, at every point of it. */
module RemediationSafety {
  import opened Wrappers
  import opened Incidents
  import opened Remediation

  function Init(trace: seq<Happening>): seq<Happening>
    requires trace != []
  { trace[..|trace| - 1] }

  function Latest(trace: seq<Happening>): Happening
    requires trace != []
  { trace[|trace| - 1] }

  // ---- Reading a trace ----------------------------------------------------

  /** An approval has arrived since the last decision was cleared. */
  predicate HeardApprove(trace: seq<Happening>) {
    trace != [] &&
    match Latest(trace)
    case Got(Approve(_)) => true
    case Cleared(_) => false
    case _ => HeardApprove(Init(trace))
  }

  /** A rejection has arrived since the last decision was cleared. */
  predicate HeardReject(trace: seq<Happening>) {
    trace != [] &&
    match Latest(trace)
    case Got(Reject(_)) => true
    case Cleared(_) => false
    case _ => HeardReject(Init(trace))
  }

  /** Who sent the latest signal since the last decision was cleared. */
  function HeardFrom(trace: seq<Happening>): string {
    if trace == [] then ""
    else
      match Latest(trace)
      case Got(signal) => signal.actor
      case Cleared(_) => ""
      case _ => HeardFrom(Init(trace))
  }

  /** The audit table after the writes of a trace. */
  function RowsOf(trace: seq<Happening>): map<nat, AuditRow> {
    if trace == [] then map[]
    else
      match Latest(trace)
      case Wrote(step, row) => RowsOf(Init(trace))[step := row]
      case _ => RowsOf(Init(trace))
  }

  /** The latest step whose action ran. */
  function LastRan(trace: seq<Happening>): nat {
    if trace == [] then 0
    else
      match Latest(trace)
      case Ran(step) => step
      case _ => LastRan(Init(trace))
  }

  function LastDecision(trace: seq<Happening>): Option<(nat, Verdict, string)> {
    if trace == [] then None
    else
      match Latest(trace)
      case Decided(step, verdict, actor) => Some((step, verdict, actor))
      case _ => LastDecision(Init(trace))
  }

  /** The latest step whose decision was cleared. */
  function LastCleared(trace: seq<Happening>): nat {
    if trace == [] then 0
    else
      match Latest(trace)
      case Cleared(step) => step
      case _ => LastCleared(Init(trace))
  }

  /** The latest status read, and the step it was read for. */
  function LastCheck(trace: seq<Happening>): Option<(nat, Status)> {
    if trace == [] then None
    else
      match Latest(trace)
      case Checked(step, status) => Some((step, status))
      case _ => LastCheck(Init(trace))
  }

  /** The incident was read as still live for this step. */
  predicate Live(trace: seq<Happening>, step: nat) {
    LastCheck(trace).Some? && LastCheck(trace).value.0 == step && LastCheck(trace).value.1 != Resolved
  }

  function Approvals(trace: seq<Happening>): nat {
    if trace == [] then 0
    else Approvals(Init(trace)) + (if Latest(trace).Got? && Latest(trace).signal.Approve? then 1 else 0)
  }

  // ---- What each happening may be -----------------------------------------

  /** A row already written for every step before `step`, all succeeded, and none
      for a later one. */
  ghost predicate Reached(rows: map<nat, AuditRow>, step: nat) {
    && 1 <= step
    && (forall j :: 1 <= j < step ==> j in rows && rows[j].status == Succeeded)
    && (forall j :: j in rows ==> 1 <= j <= step)
  }

  predicate Terminal(status: ActionStatus) { status in {Rejected, TimedOut, Failed, Skipped} }

  /** A rejection, a timeout, a failure or a skip has happened. */
  predicate Stopped(trace: seq<Happening>) {
    trace != [] &&
    match Latest(trace)
    case Decided(_, verdict, _) => verdict != Granted || Stopped(Init(trace))
    case Wrote(_, row) => Terminal(row.status) || Stopped(Init(trace))
    case _ => Stopped(Init(trace))
  }

  ghost predicate DecidedOn(trace: seq<Happening>, step: nat, verdict: Verdict) {
    LastDecision(trace).Some? && LastDecision(trace).value.0 == step && LastDecision(trace).value.1 == verdict
  }

  ghost predicate MayRun(before: seq<Happening>, step: nat, modes: seq<Mode>) {
    && 1 <= step <= |modes| && !Stopped(before) && Live(before, step)
    && Reached(RowsOf(before), step)
    && (step == LastRan(before) || step == LastRan(before) + 1)
    && (modes[step - 1] == Approval ==> LastCleared(before) == step && DecidedOn(before, step, Granted))
  }

  /** Who a step's own rows name: the sender its grant named, nobody when it has no gate. */
  ghost predicate Named(before: seq<Happening>, step: nat, modes: seq<Mode>, actor: string)
    requires 1 <= step <= |modes|
  {
    if modes[step - 1] == Approval then LastDecision(before) == Some((step, Granted, actor)) else actor == ""
  }

  ghost predicate MayWrite(before: seq<Happening>, step: nat, row: AuditRow, modes: seq<Mode>) {
    && step <= |modes| && Reached(RowsOf(before), step)
    && match row.status
       case Pending => modes[step - 1] == Approval && LastRan(before) < step && !Stopped(before) && row.actor == ""
       case Approved => LastDecision(before) == Some((step, Granted, row.actor)) && LastRan(before) < step && !Stopped(before)
       case Rejected => LastDecision(before) == Some((step, Refused, row.actor)) && LastRan(before) < step
       case TimedOut => DecidedOn(before, step, Expired) && LastRan(before) < step && row.actor == ""
       case Succeeded => LastRan(before) == step && !Stopped(before) && Named(before, step, modes, row.actor)
       case Failed =>
         LastRan(before) <= step && (modes[step - 1] == Approval ==> LastCleared(before) == step) && Named(before, step, modes, row.actor)
       case Skipped => LastRan(before) < step && row.actor == ""
  }

  function VerdictOn(approve: bool, reject: bool): Verdict {
    if reject then Refused else if approve then Granted else Expired
  }

  ghost predicate Lawful(trace: seq<Happening>, modes: seq<Mode>) {
    trace == [] ||
    (Lawful(Init(trace), modes) &&
     match Latest(trace)
     case Got(_) => true
     case Wrote(step, row) => MayWrite(Init(trace), step, row, modes)
     case Checked(step, _) => step == LastRan(Init(trace)) + 1 <= |modes| && !Stopped(Init(trace))
     case Began(step, _) => MayRun(Init(trace), step, modes) && step == LastRan(Init(trace)) + 1
     case Ran(step) => MayRun(Init(trace), step, modes)
     case Decided(step, verdict, actor) =>
       && 1 <= step <= |modes| && modes[step - 1] == Approval && !Stopped(Init(trace))
       && LastCleared(Init(trace)) < step && LastRan(Init(trace)) < step
       && verdict == VerdictOn(HeardApprove(Init(trace)), HeardReject(Init(trace)))
       && actor == HeardFrom(Init(trace))
     case Cleared(step) =>
       && DecidedOn(Init(trace), step, Granted) && HeardApprove(Init(trace))
       && LastCleared(Init(trace)) < step)
  }

  /** The variables say what the trace says. */
  ghost predicate Coherent(st: St, modes: seq<Mode>) {
    && Lawful(st.trace, modes)
    && st.rows == RowsOf(st.trace)
    && st.approved == HeardApprove(st.trace)
    && st.rejected == HeardReject(st.trace)
    && st.actor == HeardFrom(st.trace)
  }

  /** Nothing but signals separates two states, as far as the run can tell. */
  ghost predicate SameProgress(a: St, b: St) {
    && RowsOf(a.trace) == RowsOf(b.trace) && LastRan(a.trace) == LastRan(b.trace)
    && LastDecision(a.trace) == LastDecision(b.trace) && LastCleared(a.trace) == LastCleared(b.trace)
    && LastCheck(a.trace) == LastCheck(b.trace) && (Stopped(a.trace) <==> Stopped(b.trace))
  }

  lemma Appended(trace: seq<Happening>, h: Happening)
    ensures Init(trace + [h]) == trace && Latest(trace + [h]) == h
  {}

  lemma ReceiveCoherent(st: St, signal: Signal, modes: seq<Mode>)
    requires Coherent(st, modes)
    ensures Coherent(Receive(st, signal), modes) && SameProgress(st, Receive(st, signal))
  {
    Appended(st.trace, Got(signal));
  }

  lemma {:induction false} DeliverCoherent(st: St, signals: seq<Signal>, modes: seq<Mode>)
    requires Coherent(st, modes)
    ensures Coherent(Deliver(st, signals), modes) && SameProgress(st, Deliver(st, signals))
    ensures st.trace <= Deliver(st, signals).trace
    ensures st.approved ==> Deliver(st, signals).approved
    decreases |signals|
  {
    if signals != [] {
      var next := Receive(st, signals[0]);
      ReceiveCoherent(st, signals[0], modes);
      DeliverCoherent(next, signals[1..], modes);
    }
  }

  lemma WaitCoherent(st: St, modes: seq<Mode>)
    requires Coherent(st, modes) && st.script != []
    ensures Coherent(Wait(st), modes) && SameProgress(st, Wait(st)) && st.trace <= Wait(st).trace
    ensures st.approved ==> Wait(st).approved
  {
    DeliverCoherent(st, st.script[0].signals, modes);
  }

  /** What a completed or failed audit write leaves behind. */
  ghost predicate Written(before: St, after: St, step: nat, row: AuditRow, done: bool) {
    && (after.rows == before.rows || after.rows == before.rows[step := row])
    && (done ==> after.rows == before.rows[step := row])
    && (Stopped(after.trace) ==> Stopped(before.trace) || Terminal(row.status))
    && LastRan(after.trace) == LastRan(before.trace)
    && LastDecision(after.trace) == LastDecision(before.trace)
    && LastCleared(after.trace) == LastCleared(before.trace)
    && LastCheck(after.trace) == LastCheck(before.trace)
    && before.trace <= after.trace
    && (before.approved ==> after.approved)
  }

  lemma WriteKeepsReached(st: St, step: nat, row: AuditRow, modes: seq<Mode>)
    requires Coherent(st, modes) && MayWrite(st.trace, step, row, modes)
    ensures Coherent(WriteRow(st, step, row), modes)
    ensures MayWrite(WriteRow(st, step, row).trace, step, row, modes)
    ensures Written(st, WriteRow(st, step, row), step, row, true)
  {
    Appended(st.trace, Wrote(step, row));
    var after := WriteRow(st, step, row);
    assert RowsOf(after.trace) == st.rows[step := row];
  }

  lemma {:induction false} WriteCoherent(st: St, step: nat, row: AuditRow, attempts: seq<Attempt>, modes: seq<Mode>)
    requires Coherent(st, modes) && MayWrite(st.trace, step, row, modes)
    ensures var (st', done) := WriteAttempts(st, step, row, attempts);
      Coherent(st', modes) && Written(st, st', step, row, done)
    decreases |attempts|
  {
    if attempts != [] {
      if attempts[0].effect || attempts[0].acked {
        WriteKeepsReached(st, step, row, modes);
        if !attempts[0].acked {
          WriteCoherent(WriteRow(st, step, row), step, row, attempts[1..], modes);
        }
      } else {
        WriteCoherent(st, step, row, attempts[1..], modes);
      }
    }
  }

  lemma RecordCoherent(st: St, step: nat, row: AuditRow, modes: seq<Mode>)
    requires Coherent(st, modes) && MayWrite(st.trace, step, row, modes)
    ensures var (st', reply) := Record(st, step, row);
      Coherent(st', modes) && Written(st, st', step, row, reply.Done?)
  {
    if st.script != [] {
      WaitCoherent(st, modes);
      WriteCoherent(Wait(st), step, row, Allowed(st.script[0].attempts), modes);
    }
  }

  // ---- Step by step -------------------------------------------------------

  /** `n` steps are done and the next may begin. */
  ghost predicate Ready(st: St, modes: seq<Mode>, n: nat) {
    && Coherent(st, modes) && n <= |modes|
    && LastRan(st.trace) == n && LastCleared(st.trace) <= n && !Stopped(st.trace)
    && (forall j :: j in st.rows <==> 1 <= j <= n)
    && (forall j :: j in st.rows ==> st.rows[j].status == Succeeded)
  }

  /** Step `step` is under way and its action may run. */
  ghost predicate Cued(st: St, modes: seq<Mode>, step: nat) {
    && Coherent(st, modes) && MayRun(st.trace, step, modes)
    && LastRan(st.trace) <= step && LastCleared(st.trace) <= step
  }

  lemma RanCoherent(st: St, step: nat, modes: seq<Mode>)
    requires Cued(st, modes, step)
    ensures Cued(Note(st, Ran(step)), modes, step)
    ensures LastRan(Note(st, Ran(step)).trace) == step
    ensures LastDecision(Note(st, Ran(step)).trace) == LastDecision(st.trace)
  {
    Appended(st.trace, Ran(step));
  }

  lemma {:induction false} RunCoherent(st: St, step: nat, attempts: seq<Attempt>, modes: seq<Mode>)
    requires Cued(st, modes, step)
    ensures var (st', done) := RunAttempts(st, step, attempts);
      && Cued(st', modes, step) && st'.rows == st.rows && st.trace <= st'.trace
      && LastDecision(st'.trace) == LastDecision(st.trace)
      && (done ==> LastRan(st'.trace) == step)
    decreases |attempts|
  {
    if attempts != [] {
      if attempts[0].effect || attempts[0].acked {
        RanCoherent(st, step, modes);
        if !attempts[0].acked {
          RunCoherent(Note(st, Ran(step)), step, attempts[1..], modes);
        }
      } else {
        RunCoherent(st, step, attempts[1..], modes);
      }
    }
  }

  lemma WaitKeepsCue(st: St, step: nat, modes: seq<Mode>)
    requires Cued(st, modes, step) && st.script != []
    ensures Cued(Wait(st), modes, step) && st.trace <= Wait(st).trace
    ensures LastDecision(Wait(st).trace) == LastDecision(st.trace)
  {
    WaitCoherent(st, modes);
  }

  lemma RecordOutcome(st: St, step: nat, done: bool, actor: string, modes: seq<Mode>)
    requires Cued(st, modes, step) && (done ==> LastRan(st.trace) == step) && Named(st.trace, step, modes, actor)
    ensures var row := AuditRow(if done then Succeeded else Failed, actor);
      var (st', reply) := Record(st, step, row);
      && Coherent(st', modes) && st.trace <= st'.trace
      && (done && reply.Done? ==> Ready(st', modes, step))
  {
    RecordCoherent(st, step, AuditRow(if done then Succeeded else Failed, actor), modes);
  }

  lemma BeganKeepsCue(st: St, step: nat, modes: seq<Mode>)
    requires Cued(st, modes, step) && LastRan(st.trace) < step && st.script != []
    ensures Cued(Note(st, Began(step, st.script[0].db)), modes, step)
    ensures LastDecision(Note(st, Began(step, st.script[0].db)).trace) == LastDecision(st.trace)
  {
    Appended(st.trace, Began(step, st.script[0].db));
  }

  lemma ExecuteCoherent(st: St, step: nat, modes: seq<Mode>)
    requires Cued(st, modes, step) && LastRan(st.trace) < step
    ensures var (st', reply) := Execute(st, step);
      && Cued(st', modes, step) && st.trace <= st'.trace && (reply.Done? ==> LastRan(st'.trace) == step)
      && LastDecision(st'.trace) == LastDecision(st.trace)
  {
    if st.script != [] {
      var st1 := Note(st, Began(step, st.script[0].db));
      BeganKeepsCue(st, step, modes);
      WaitKeepsCue(st1, step, modes);
      RunCoherent(Wait(st1), step, Allowed(st.script[0].attempts), modes);
    }
  }

  lemma ExecuteStepCoherent(st: St, step: nat, actor: string, modes: seq<Mode>)
    requires Cued(st, modes, step) && LastRan(st.trace) < step && Named(st.trace, step, modes, actor)
    ensures Coherent(ExecuteStep(st, step, actor).st, modes)
    ensures st.trace <= ExecuteStep(st, step, actor).st.trace
    ensures ExecuteStep(st, step, actor).Continue? ==> Ready(ExecuteStep(st, step, actor).st, modes, step)
  {
    ExecuteCoherent(st, step, modes);
    var (st1, reply) := Execute(st, step);
    RecordOutcome(st1, step, reply.Done?, actor, modes);
  }

  /** Step `step` is next, and its gate is open for a decision. */
  ghost predicate Gated(st: St, modes: seq<Mode>, step: nat) {
    && Coherent(st, modes) && 1 <= step <= |modes| && modes[step - 1] == Approval
    && LastRan(st.trace) == step - 1 && LastCleared(st.trace) < step && !Stopped(st.trace)
    && Reached(st.rows, step) && Live(st.trace, step)
  }

  lemma DecidedCoherent(st: St, step: nat, modes: seq<Mode>)
    requires Gated(st, modes, step)
    ensures var st' := Note(st, Decided(step, VerdictOn(st.approved, st.rejected), st.actor));
      && Coherent(st', modes) && LastDecision(st'.trace) == Some((step, VerdictOn(st.approved, st.rejected), st.actor))
      && LastRan(st'.trace) == step - 1 && LastCleared(st'.trace) < step && Live(st'.trace, step)
      && (VerdictOn(st.approved, st.rejected) == Granted ==> !Stopped(st'.trace))
  {
    Appended(st.trace, Decided(step, VerdictOn(st.approved, st.rejected), st.actor));
  }

  lemma ClearedCues(st: St, step: nat, modes: seq<Mode>)
    requires Coherent(st, modes) && 1 <= step <= |modes| && Reached(st.rows, step)
    requires DecidedOn(st.trace, step, Granted) && st.approved && !Stopped(st.trace)
    requires LastRan(st.trace) == step - 1 && LastCleared(st.trace) < step && Live(st.trace, step)
    ensures Cued(Clear(st, step), modes, step) && LastRan(Clear(st, step).trace) < step
    ensures LastDecision(Clear(st, step).trace) == LastDecision(st.trace)
  {
    Appended(st.trace, Cleared(step));
  }

  lemma ClearedExecutes(st: St, step: nat, actor: string, modes: seq<Mode>)
    requires 1 <= step <= |modes| && modes[step - 1] == Approval && LastDecision(st.trace) == Some((step, Granted, actor))
    requires Cued(Clear(st, step), modes, step) && LastRan(Clear(st, step).trace) < step
    requires LastDecision(Clear(st, step).trace) == LastDecision(st.trace)
    ensures var flow := ExecuteStep(Clear(st, step), step, actor);
      && Coherent(flow.st, modes) && st.trace <= flow.st.trace && (flow.Continue? ==> Ready(flow.st, modes, step))
  {
    ExecuteStepCoherent(Clear(st, step), step, actor, modes);
    assert st.trace <= Clear(st, step).trace;
  }

  lemma GrantCoherent(st: St, step: nat, actor: string, modes: seq<Mode>)
    requires Coherent(st, modes) && 1 <= step <= |modes| && modes[step - 1] == Approval && Reached(st.rows, step)
    requires LastDecision(st.trace) == Some((step, Granted, actor)) && st.approved && !Stopped(st.trace)
    requires LastRan(st.trace) == step - 1 && LastCleared(st.trace) < step && Live(st.trace, step)
    ensures Coherent(Grant(st, step, actor).st, modes)
    ensures st.trace <= Grant(st, step, actor).st.trace
    ensures Grant(st, step, actor).Continue? ==> Ready(Grant(st, step, actor).st, modes, step)
  {
    var row := AuditRow(Approved, actor);
    RecordCoherent(st, step, row, modes);
    var (st', reply) := Record(st, step, row);
    if reply.Done? {
      ClearedCues(st', step, modes);
      ClearedExecutes(st', step, actor, modes);
    }
  }

  lemma EndedCoherent(st: St, step: nat, row: AuditRow, modes: seq<Mode>)
    requires Coherent(st, modes) && MayWrite(st.trace, step, row, modes)
    ensures var flow := Ended(Record(st, step, row), Halted);
      flow.Stop? && Coherent(flow.st, modes) && st.trace <= flow.st.trace
  {
    RecordCoherent(st, step, row, modes);
  }

  lemma DecideCoherent(st: St, step: nat, modes: seq<Mode>)
    requires Gated(st, modes, step)
    ensures Coherent(Decide(st, step).st, modes)
    ensures st.trace <= Decide(st, step).st.trace
    ensures Decide(st, step).Continue? ==> Ready(Decide(st, step).st, modes, step)
  {
    if st.script != [] {
      WaitCoherent(st, modes);
      if !st.script[0].cancelled { DecidedFlowCoherent(Wait(st), step, modes); }
    }
  }

  /** From the decision on. */
  lemma DecidedFlowCoherent(st: St, step: nat, modes: seq<Mode>)
    requires Gated(st, modes, step)
    ensures var verdict := VerdictOn(st.approved, st.rejected);
      var decided := Note(st, Decided(step, verdict, st.actor));
      var flow := match verdict
                  case Granted => Grant(decided, step, st.actor)
                  case Refused => Ended(Record(decided, step, AuditRow(Rejected, st.actor)), Halted)
                  case Expired => Ended(Record(decided, step, AuditRow(TimedOut, "")), Halted);
      Coherent(flow.st, modes) && st.trace <= flow.st.trace && (flow.Continue? ==> Ready(flow.st, modes, step))
  {
    var verdict := VerdictOn(st.approved, st.rejected);
    var decided := Note(st, Decided(step, verdict, st.actor));
    DecidedCoherent(st, step, modes);
    match verdict
    case Granted => GrantCoherent(decided, step, st.actor, modes);
    case Refused => EndedCoherent(decided, step, AuditRow(Rejected, st.actor), modes);
    case Expired => EndedCoherent(decided, step, AuditRow(TimedOut, ""), modes);
  }

  lemma PendingCoherent(st: St, modes: seq<Mode>, n: nat)
    requires n < |modes| && Ready(st, modes, n) && modes[n] == Approval && Live(st.trace, n + 1)
    ensures var (st', reply) := Record(st, n + 1, AuditRow(Pending, ""));
      && Coherent(st', modes) && st.trace <= st'.trace && (reply.Done? ==> Gated(st', modes, n + 1))
  {
    RecordCoherent(st, n + 1, AuditRow(Pending, ""), modes);
  }

  lemma GatedStepCoherent(st: St, modes: seq<Mode>, n: nat)
    requires n < |modes| && Ready(st, modes, n) && modes[n] == Approval && Live(st.trace, n + 1)
    ensures Coherent(GatedStep(st, n + 1).st, modes)
    ensures st.trace <= GatedStep(st, n + 1).st.trace
    ensures GatedStep(st, n + 1).Continue? ==> Ready(GatedStep(st, n + 1).st, modes, n + 1)
  {
    PendingCoherent(st, modes, n);
    var (st', reply) := Record(st, n + 1, AuditRow(Pending, ""));
    if reply.Done? {
      DecideCoherent(st', n + 1, modes);
    }
  }

  lemma WaitKeepsReady(st: St, modes: seq<Mode>, n: nat)
    requires Ready(st, modes, n) && st.script != []
    ensures Ready(Wait(st), modes, n) && st.trace <= Wait(st).trace
  {
    WaitCoherent(st, modes);
  }

  /** What holds of a step's outcome: it is coherent, and going on means ready. */
  ghost predicate Sound(before: St, flow: Flow, modes: seq<Mode>, n: nat) {
    && Coherent(flow.st, modes) && before.trace <= flow.st.trace && (flow.Continue? ==> Ready(flow.st, modes, n))
  }

  lemma SkippedSound(st: St, modes: seq<Mode>, n: nat)
    requires n < |modes| && Ready(st, modes, n)
    ensures Sound(st, Ended(Record(st, n + 1, AuditRow(Skipped, "")), Halted), modes, n + 1)
  {
    RecordCoherent(st, n + 1, AuditRow(Skipped, ""), modes);
  }

  lemma CheckedCoherent(st: St, modes: seq<Mode>, step: nat, status: Status)
    requires Coherent(st, modes) && step == LastRan(st.trace) + 1 <= |modes| && !Stopped(st.trace)
    ensures Coherent(Note(st, Checked(step, status)), modes)
  {
    Appended(st.trace, Checked(step, status));
  }

  lemma CheckedKeepsReady(st: St, modes: seq<Mode>, n: nat, status: Status)
    requires n < |modes| && Ready(st, modes, n)
    ensures var st' := Note(st, Checked(n + 1, status));
      Ready(st', modes, n) && LastCheck(st'.trace) == Some((n + 1, status))
  {
    CheckedCoherent(st, modes, n + 1, status);
    Appended(st.trace, Checked(n + 1, status));
  }

  lemma ChosenStepSound(st: St, modes: seq<Mode>, n: nat)
    requires n < |modes| && Ready(st, modes, n) && Live(st.trace, n + 1)
    ensures Sound(st, if modes[n] == Approval then GatedStep(st, n + 1) else ExecuteStep(st, n + 1, ""), modes, n + 1)
  {
    if modes[n] == Approval {
      GatedStepCoherent(st, modes, n);
    } else {
      ExecuteStepCoherent(st, n + 1, "", modes);
    }
  }

  lemma OneStepSound(st: St, modes: seq<Mode>, n: nat)
    requires n < |modes| && Ready(st, modes, n)
    ensures Sound(st, OneStep(st, n + 1, modes[n]), modes, n + 1)
  {
    if st.script != [] {
      WaitKeepsReady(st, modes, n);
      var db := st.script[0].db;
      CheckedKeepsReady(Wait(st), modes, n, db);
      var st1 := Note(Wait(st), Checked(n + 1, db));
      SkippedSound(st1, modes, n);
      if db != Resolved { ChosenStepSound(st1, modes, n); }
    }
  }

  lemma {:induction false} RunIsLawful(st: St, modes: seq<Mode>, n: nat)
    requires n <= |modes| && Ready(st, modes, n)
    ensures Coherent(Run(st, modes, n).0, modes)
    ensures st.trace <= Run(st, modes, n).0.trace
    decreases |modes| - n
  {
    if n < |modes| {
      OneStepSound(st, modes, n);
      var flow := OneStep(st, n + 1, modes[n]);
      if flow.Continue? {
        RunIsLawful(flow.st, modes, n + 1);
      }
    }
  }

  /** The trace of a run of a runbook over a script. */
  function TraceOf(script: seq<Turn>, modes: seq<Mode>): seq<Happening> {
    Run(Start(script), modes, 0).0.trace
  }

  /** Whatever signals arrive, activities fail, writes retry or timers fire, every
      happening of the run is one the runbook allows at that point. */
  lemma EveryRunIsLawful(script: seq<Turn>, modes: seq<Mode>)
    ensures Lawful(TraceOf(script, modes), modes)
    ensures Run(Start(script), modes, 0).0.rows == RowsOf(TraceOf(script, modes))
  {
    assert Ready(Start(script), modes, 0);
    RunIsLawful(Start(script), modes, 0);
  }

  // ---- What lawful traces rule out ----------------------------------------

  lemma {:induction false} LawfulPrefix(trace: seq<Happening>, n: nat, modes: seq<Mode>)
    requires n <= |trace| && Lawful(trace, modes)
    ensures Lawful(trace[..n], modes)
    ensures n < |trace| ==> Init(trace[..n + 1]) == trace[..n] && Latest(trace[..n + 1]) == trace[n]
    decreases |trace|
  {
    if n < |trace| {
      assert Init(trace)[..n] == trace[..n];
      LawfulPrefix(Init(trace), n, modes);
    } else {
      assert trace[..n] == trace;
    }
  }

  /** The executed steps are exactly the steps up to the latest one. */
  lemma {:induction false} RanIsPrefix(trace: seq<Happening>, modes: seq<Mode>)
    requires Lawful(trace, modes)
    ensures LastRan(trace) <= |modes|
    ensures forall s: nat :: Ran(s) in trace <==> 1 <= s <= LastRan(trace)
  {
    if trace != [] {
      RanIsPrefix(Init(trace), modes);
      assert trace == Init(trace) + [Latest(trace)];
    }
  }

  function ClearedSteps(trace: seq<Happening>): set<nat> {
    if trace == [] then {}
    else
      match Latest(trace)
      case Cleared(step) => ClearedSteps(Init(trace)) + {step}
      case _ => ClearedSteps(Init(trace))
  }

  /** Every cleared decision has used up an approval of its own. */
  lemma {:induction false} DecisionsAreSpent(trace: seq<Happening>, modes: seq<Mode>)
    requires Lawful(trace, modes)
    ensures |ClearedSteps(trace)| + (if HeardApprove(trace) then 1 else 0) <= Approvals(trace)
  {
    if trace != [] { DecisionsAreSpent(Init(trace), modes); }
  }

  /** The gated steps whose action ran. */
  function GatedRan(trace: seq<Happening>, modes: seq<Mode>): set<nat> {
    set s | 1 <= s <= |modes| && Ran(s) in trace && modes[s - 1] == Approval
  }

  lemma {:induction false} GatedRanWereCleared(trace: seq<Happening>, modes: seq<Mode>)
    requires Lawful(trace, modes)
    ensures GatedRan(trace, modes) <= ClearedSteps(trace)
    ensures LastCleared(trace) != 0 ==> LastCleared(trace) in ClearedSteps(trace)
  {
    if trace != [] {
      GatedRanWereCleared(Init(trace), modes);
      assert trace == Init(trace) + [Latest(trace)];
    }
  }

  /** At every point of every run, the executed steps are an in-order prefix of the
      runbook, and no more gated steps have run than approvals have arrived. */
  lemma ExecutedPrefixAndApprovals(script: seq<Turn>, modes: seq<Mode>, n: nat)
    requires n <= |TraceOf(script, modes)|
    ensures var seen := TraceOf(script, modes)[..n];
      && LastRan(seen) <= |modes|
      && (forall s: nat :: Ran(s) in seen <==> 1 <= s <= LastRan(seen))
      && |GatedRan(seen, modes)| <= Approvals(seen)
  {
    var trace := TraceOf(script, modes);
    EveryRunIsLawful(script, modes);
    LawfulPrefix(trace, n, modes);
    RanIsPrefix(trace[..n], modes);
    DecisionsAreSpent(trace[..n], modes);
    GatedRanWereCleared(trace[..n], modes);
    SubsetSize(GatedRan(trace[..n], modes), ClearedSteps(trace[..n]));
  }

  ghost predicate RowsUpTo(trace: seq<Happening>, k: nat) {
    && (forall j :: j in RowsOf(trace) <==> 1 <= j <= k)
    && (forall j :: 1 <= j < k ==> RowsOf(trace)[j].status == Succeeded)
    && (forall j: nat :: j in RowsOf(trace) && RowsOf(trace)[j].status == Succeeded ==> Ran(j) in trace)
  }

  /** At every point of every run, the audit rows are those of steps `1..k`, all
      before `k` succeeded (so at most row `k` is pending), and a row says succeeded
      only if its step's action ran. */
  lemma AuditRowsTellTheTruth(script: seq<Turn>, modes: seq<Mode>, n: nat)
    requires n <= |TraceOf(script, modes)|
    ensures var seen := TraceOf(script, modes)[..n];
      exists k: nat :: RowsUpTo(seen, k) && k <= |modes|
  {
    var trace := TraceOf(script, modes);
    EveryRunIsLawful(script, modes);
    LawfulPrefix(trace, n, modes);
    var k := RowsAreAPrefix(trace[..n], modes);
  }

  lemma WrittenRowFits(trace: seq<Happening>, modes: seq<Mode>, k: nat)
    requires trace != [] && Lawful(trace, modes) && Latest(trace).Wrote? && RowsUpTo(Init(trace), k)
    ensures 1 <= Latest(trace).step <= |modes| && RowsUpTo(trace, Latest(trace).step)
  {
    RanIsPrefix(Init(trace), modes);
    assert trace == Init(trace) + [Latest(trace)];
    assert RowsOf(trace) == RowsOf(Init(trace))[Latest(trace).step := Latest(trace).row];
  }

  lemma {:induction false} RowsAreAPrefix(trace: seq<Happening>, modes: seq<Mode>) returns (k: nat)
    requires Lawful(trace, modes)
    ensures RowsUpTo(trace, k) && k <= |modes|
  {
    k := 0;
    if trace != [] {
      k := RowsAreAPrefix(Init(trace), modes);
      if Latest(trace).Wrote? {
        WrittenRowFits(trace, modes, k);
        k := Latest(trace).step;
      } else {
        assert trace == Init(trace) + [Latest(trace)];
      }
    }
  }

  lemma {:induction false} StoppedStays(trace: seq<Happening>, n: nat, modes: seq<Mode>)
    requires n <= |trace| && Lawful(trace, modes) && Stopped(trace[..n])
    ensures Stopped(trace)
    ensures forall i :: n <= i < |trace| ==> !trace[i].Ran?
    decreases |trace|
  {
    if n < |trace| {
      assert Init(trace)[..n] == trace[..n];
      StoppedStays(Init(trace), n, modes);
    } else {
      assert trace[..n] == trace;
    }
  }

  // ---- Rejections ---------------------------------------------------------

  /** No decision is cleared strictly between two points. */
  ghost predicate Uncleared(trace: seq<Happening>, from: nat, to: nat)
    requires to <= |trace|
  {
    forall i :: from < i < to ==> !trace[i].Cleared?
  }

  lemma {:induction false} RejectIsHeard(trace: seq<Happening>, r: nat, modes: seq<Mode>)
    requires r < |trace| && trace[r].Got? && trace[r].signal.Reject? && Uncleared(trace, r, |trace|)
    ensures HeardReject(trace)
    decreases |trace|
  {
    if r < |trace| - 1 {
      assert Uncleared(Init(trace), r, |trace| - 1);
      RejectIsHeard(Init(trace), r, modes);
    }
  }

  /** A rejection that arrives before a decision point, with no decision cleared in
      between, is what that decision comes to, and nothing runs after it. */
  lemma RejectBeforeDecisionHalts(script: seq<Turn>, modes: seq<Mode>, r: nat, d: nat)
    requires r < d < |TraceOf(script, modes)|
    requires TraceOf(script, modes)[r].Got? && TraceOf(script, modes)[r].signal.Reject?
    requires TraceOf(script, modes)[d].Decided? && Uncleared(TraceOf(script, modes), r, d)
    ensures TraceOf(script, modes)[d].verdict == Refused
    ensures forall i :: d < i < |TraceOf(script, modes)| ==> !TraceOf(script, modes)[i].Ran?
  {
    var trace := TraceOf(script, modes);
    EveryRunIsLawful(script, modes);
    LawfulPrefix(trace, d + 1, modes);
    LawfulPrefix(trace, d, modes);
    assert Uncleared(trace[..d], r, d);
    RejectIsHeard(trace[..d], r, modes);
    StoppedStays(trace, d + 1, modes);
  }

  lemma {:induction false} HeardRejectHasSource(trace: seq<Happening>) returns (r: nat)
    requires HeardReject(trace)
    ensures r < |trace| && trace[r].Got? && trace[r].signal.Reject? && Uncleared(trace, r, |trace|)
  {
    r := |trace| - 1;
    if !(Latest(trace).Got? && Latest(trace).signal.Reject?) {
      r := HeardRejectHasSource(Init(trace));
    }
  }

  ghost predicate RejectStands(trace: seq<Happening>, r: nat, d: nat) {
    r < d <= |trace| && trace[r].Got? && trace[r].signal.Reject? && Uncleared(trace, r, d)
  }

  lemma RefusalAnswersReject(trace: seq<Happening>, modes: seq<Mode>, d: nat) returns (r: nat)
    requires d < |trace| && Lawful(trace, modes) && trace[d].Decided? && trace[d].verdict == Refused
    ensures RejectStands(trace, r, d)
  {
    LawfulPrefix(trace, d + 1, modes);
    LawfulPrefix(trace, d, modes);
    r := HeardRejectHasSource(trace[..d]);
  }

  lemma RefusalHasReject(script: seq<Turn>, modes: seq<Mode>, d: nat) returns (r: nat)
    requires d < |TraceOf(script, modes)| && TraceOf(script, modes)[d].Decided?
    requires TraceOf(script, modes)[d].verdict == Refused
    ensures RejectStands(TraceOf(script, modes), r, d)
  {
    EveryRunIsLawful(script, modes);
    r := RefusalAnswersReject(TraceOf(script, modes), modes, d);
  }

  /** Every refusal answers a rejection that nothing has cleared. So a decision is a
      refusal exactly when a rejection precedes it with no cleared decision between:
      one that arrives while the approval is being recorded is wiped. */
  lemma RefusedExactlyWhenUnclearedReject(script: seq<Turn>, modes: seq<Mode>, d: nat)
    requires d < |TraceOf(script, modes)| && TraceOf(script, modes)[d].Decided?
    ensures TraceOf(script, modes)[d].verdict == Refused <==>
            exists r: nat :: RejectStands(TraceOf(script, modes), r, d)
  {
    var trace := TraceOf(script, modes);
    if trace[d].verdict == Refused {
      var r := RefusalHasReject(script, modes, d);
    }
    if r: nat :| RejectStands(trace, r, d) {
      RejectBeforeDecisionHalts(script, modes, r, d);
    }
  }
}
