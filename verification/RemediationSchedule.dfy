/** Which turn of the environment each step's action falls in, and so exactly when an action
    is started, started late or repeated, and when a run completes. */
module RemediationSchedule {
  import opened Incidents
  import opened Remediation
  import opened RemediationSafety
  import opened RemediationRetries
  import opened RemediationChecks
  import opened Retries

  // ---- What a script says ---------------------------------------------------

  function Made(turn: Turn): seq<Try> { Tries(Allowed(turn.attempts)) }

  /** The retry policy makes three attempts where there is need of them. */
  lemma ThreeAttempts(turn: Turn)
    ensures |Made(turn)| == if |turn.attempts| < 3 then |turn.attempts| else 3
    ensures forall i :: 0 <= i < |Made(turn)| ==> Made(turn)[i].heard == turn.attempts[i].acked
  {}

  /** An activity carried out in this turn is heard to succeed. */
  ghost predicate Answered(turn: Turn) { HeardOf(Made(turn)) }

  /** The status is read in this turn, and the incident is live. */
  predicate ReadLive(turn: Turn) { turn.reachable && turn.db != Resolved }

  ghost predicate Sends(turn: Turn, approval: bool) { exists s :: s in turn.signals && s.Approve? == approval }

  ghost predicate Sent(turns: seq<Turn>, approval: bool) { exists i :: 0 <= i < |turns| && Sends(turns[i], approval) }

  /** A gate is passed: its pending row is heard of, its wait ends in a grant, and the row of
      the approval is heard of. `turns` begins with the step's status read; `approved` and
      `rejected` are what was heard before it. */
  ghost predicate Passes(turns: seq<Turn>, approved: bool, rejected: bool) {
    && |turns| >= 4 && Answered(turns[1]) && !turns[2].cancelled && Answered(turns[3])
    && (approved || Sent(turns[..3], true)) && !rejected && !Sent(turns[..3], false)
  }

  /** The turn, counted from a step's status read, in which its action starts. */
  function Lead(mode: Mode): nat { if mode == Approval then 4 else 1 }

  /** A step's action is started. */
  ghost predicate StepStarts(turns: seq<Turn>, approved: bool, rejected: bool, mode: Mode) {
    |turns| > Lead(mode) && ReadLive(turns[0]) && (mode == Approval ==> Passes(turns, approved, rejected))
  }

  /** And the action and its row are heard to succeed. */
  ghost predicate StepFinishes(turns: seq<Turn>, approved: bool, rejected: bool, mode: Mode) {
    && StepStarts(turns, approved, rejected, mode) && |turns| > Lead(mode) + 1
    && Answered(turns[Lead(mode)]) && Answered(turns[Lead(mode) + 1])
  }

  // ---- What passes in a run -------------------------------------------------

  /** `b` is `a` after `n` more turns, nothing cleared in between. */
  ghost predicate Moved(a: St, b: St, n: nat) {
    && n <= |a.script| && b.script == a.script[n..]
    && b.approved == (a.approved || Sent(a.script[..n], true))
    && b.rejected == (a.rejected || Sent(a.script[..n], false))
  }

  /** So many actions were started late, and step `w`'s ran so often, in between. */
  ghost predicate Counted(a: St, b: St, w: nat, late: nat, runs: nat) {
    Late(b.trace) == Late(a.trace) + late && Runs(b.trace, w) == Runs(a.trace, w) + runs
  }

  function LateIn(turn: Turn): nat { if turn.db == Resolved then 1 else 0 }

  function RunsIn(turn: Turn, s: nat, w: nat): nat { if s == w then Applied(Made(turn)) else 0 }

  lemma SentSplit(turns: seq<Turn>, n: nat, approval: bool)
    requires n <= |turns|
    ensures Sent(turns, approval) <==> Sent(turns[..n], approval) || Sent(turns[n..], approval)
  {
    assert forall i :: n <= i < |turns| ==> turns[i] == turns[n..][i - n];
    if i :| 0 <= i < |turns| && Sends(turns[i], approval) {
      assert if i < n then turns[..n][i] == turns[i] else turns[n..][i - n] == turns[i];
    }
  }

  lemma MovedThen(a: St, b: St, c: St, n: nat, m: nat)
    requires Moved(a, b, n) && Moved(b, c, m)
    ensures Moved(a, c, n + m)
  {
    var turns := a.script[..n + m];
    assert turns[..n] == a.script[..n] && turns[n..] == b.script[..m];
    SentSplit(turns, n, true);
    SentSplit(turns, n, false);
  }

  lemma NoteCounts(st: St, h: Happening, w: nat)
    ensures Counted(st, Note(st, h), w, if h.Began? then LateIn(Turn([], h.db, true, [], false)) else 0, if h == Ran(w) then 1 else 0)
    ensures Moved(st, Note(st, h), 0)
  {
    LateNote(st, h);
    NoteRuns(st, h, w);
  }

  lemma {:induction false} DeliverHears(st: St, signals: seq<Signal>)
    ensures var st' := Deliver(st, signals);
      && st'.approved == (st.approved || exists s :: s in signals && s.Approve? == true)
      && st'.rejected == (st.rejected || exists s :: s in signals && s.Approve? == false)
    decreases |signals|
  {
    if signals != [] {
      DeliverHears(Receive(st, signals[0]), signals[1..]);
      assert forall s :: s in signals <==> s == signals[0] || s in signals[1..];
      assert signals[0] in signals;
    }
  }

  lemma WaitMoves(st: St, w: nat)
    requires st.script != []
    ensures Moved(st, Wait(st), 1) && Counted(st, Wait(st), w, 0, 0)
  {
    var turn := st.script[0];
    DeliverHears(st, turn.signals);
    DeliverQuiet(st, turn.signals);
    DeliverRuns(st, turn.signals, w);
    assert st.script[..1] == [turn] && [turn][0] == turn;
    assert Sent([turn], true) <==> Sends(turn, true);
    assert Sent([turn], false) <==> Sends(turn, false);
  }

  lemma {:induction false} WriteAnswers(st: St, s: nat, row: AuditRow, attempts: seq<Attempt>)
    ensures var (st', done) := WriteAttempts(st, s, row, attempts);
      Moved(st, st', 0) && (done <==> HeardOf(Tries(attempts)))
    decreases |attempts|
  {
    HeardOfSplits(Tries(attempts));
    if attempts != [] {
      assert Tries(attempts)[1..] == Tries(attempts[1..]);
      WriteAnswers(if attempts[0].effect || attempts[0].acked then WriteRow(st, s, row) else st, s, row, attempts[1..]);
    }
  }

  lemma {:induction false} RunAnswers(st: St, s: nat, attempts: seq<Attempt>)
    ensures var (st', done) := RunAttempts(st, s, attempts);
      Moved(st, st', 0) && (done <==> HeardOf(Tries(attempts)))
    decreases |attempts|
  {
    HeardOfSplits(Tries(attempts));
    if attempts != [] {
      assert Tries(attempts)[1..] == Tries(attempts[1..]);
      RunAnswers(if attempts[0].effect || attempts[0].acked then Note(st, Ran(s)) else st, s, attempts[1..]);
    }
  }

  lemma RecordMoves(st: St, s: nat, row: AuditRow, w: nat)
    ensures st.script == [] ==> Record(st, s, row) == (st, Blocked)
    ensures Counted(st, Record(st, s, row).0, w, 0, 0)
    ensures st.script != [] ==>
      && Moved(st, Record(st, s, row).0, 1)
      && Record(st, s, row).1 == if Answered(st.script[0]) then Done else Failure
  {
    RecordRuns(st, s, row, w);
    RecordQuiet(st, s, row);
    if st.script != [] {
      WaitMoves(st, w);
      WriteAnswers(Wait(st), s, row, Allowed(st.script[0].attempts));
      MovedThen(st, Wait(st), Record(st, s, row).0, 1, 0);
    }
  }

  lemma RecordReplies(st: St, s: nat, row: AuditRow, w: nat)
    ensures st.script == [] ==> Record(st, s, row) == (st, Blocked)
    ensures Counted(st, Record(st, s, row).0, w, 0, 0)
    ensures st.script != [] ==>
      && Record(st, s, row).0.script == st.script[1..]
      && Record(st, s, row).1 == if Answered(st.script[0]) then Done else Failure
  {
    RecordMoves(st, s, row, w);
  }

  lemma ExecuteActs(st: St, s: nat, w: nat)
    requires st.script != []
    ensures var (st', reply) := Execute(st, s);
      && Moved(st, st', 1) && Counted(st, st', w, LateIn(st.script[0]), RunsIn(st.script[0], s, w))
      && reply == if Answered(st.script[0]) then Done else Failure
  {
    var turn := st.script[0];
    var st1 := Note(st, Began(s, turn.db));
    NoteCounts(st, Began(s, turn.db), w);
    WaitMoves(st1, w);
    RunAnswers(Wait(st1), s, Allowed(turn.attempts));
    RunQuiet(Wait(st1), s, Allowed(turn.attempts));
    AttemptRuns(Wait(st1), s, Allowed(turn.attempts), w);
    MovedThen(st, st1, Wait(st1), 0, 1);
    MovedThen(st, Wait(st1), Execute(st, s).0, 1, 0);
  }

  // ---- One step -------------------------------------------------------------

  lemma ExecuteStepActs(st: St, s: nat, actor: string, w: nat)
    ensures var flow := ExecuteStep(st, s, actor);
      && Counted(st, flow.st, w, if st.script == [] then 0 else LateIn(st.script[0]), if st.script == [] then 0 else RunsIn(st.script[0], s, w))
      && (flow.Continue? <==> |st.script| > 1 && Answered(st.script[0]) && Answered(st.script[1]))
      && (flow.Continue? ==> Moved(st, flow.st, 2)) && (flow.Stop? ==> flow.outcome != Completed)
  {
    if st.script != [] {
      ExecuteActs(st, s, w);
      var (st1, reply) := Execute(st, s);
      var row := AuditRow(if reply.Done? then Succeeded else Failed, actor);
      RecordMoves(st1, s, row, w);
      if st1.script != [] { MovedThen(st, st1, Record(st1, s, row).0, 1, 1); }
    }
  }

  /** The flow goes on to the action from `cleared`, `n` turns later. */
  ghost predicate Opened(st: St, flow: Flow, s: nat, actor: string, w: nat, cleared: St, n: nat) {
    && flow == ExecuteStep(cleared, s, actor) && n <= |st.script| && cleared.script == st.script[n..]
    && !cleared.approved && !cleared.rejected && Counted(st, cleared, w, 0, 0)
  }

  /** The run ends without the action. */
  ghost predicate Shut(st: St, flow: Flow, w: nat) {
    flow.Stop? && flow.outcome != Completed && Counted(st, flow.st, w, 0, 0)
  }

  lemma EndedShut(st: St, s: nat, row: AuditRow, outcome: Outcome, w: nat)
    requires outcome != Completed
    ensures Shut(st, Ended(Record(st, s, row), outcome), w)
  {
    RecordReplies(st, s, row, w);
  }

  /** A grant goes on to the action exactly when its row is heard of. */
  lemma GrantOpens(st: St, s: nat, actor: string, w: nat) returns (cleared: St)
    ensures var flow := Grant(st, s, actor);
      if st.script != [] && Answered(st.script[0]) then Opened(st, flow, s, actor, w, cleared, 1) else Shut(st, flow, w)
  {
    var row := AuditRow(Approved, actor);
    var r := Record(st, s, row);
    RecordReplies(st, s, row, w);
    cleared := Clear(r.0, s);
    if r.1.Done? {
      ClearCounts(r.0, s, w);
      assert Grant(st, s, actor) == ExecuteStep(cleared, s, actor);
    } else {
      EndedShut(st, s, row, Errored, w);
    }
  }

  lemma ClearCounts(st: St, s: nat, w: nat)
    ensures Counted(st, Clear(st, s), w, 0, 0)
  {
    NoteCounts(st.(approved := false, rejected := false, actor := ""), Cleared(s), w);
  }

  /** The decision of a gate, and the row of a grant. */
  lemma DecisionOpens(st: St, s: nat, w: nat) returns (cleared: St, actor: string)
    requires st.script != []
    ensures var flow := Decide(st, s);
      if !st.script[0].cancelled && Wait(st).approved && !Wait(st).rejected && |st.script| > 1 && Answered(st.script[1])
      then Opened(st, flow, s, actor, w, cleared, 2) else Shut(st, flow, w)
  {
    var st1 := Wait(st);
    WaitMoves(st, w);
    actor := st1.actor;
    var verdict := VerdictOn(st1.approved, st1.rejected);
    var st2 := Note(st1, Decided(s, verdict, actor));
    NoteCounts(st1, Decided(s, verdict, actor), w);
    if verdict == Expired {
      EndedShut(st2, s, AuditRow(TimedOut, ""), Halted, w);
    } else if verdict == Refused {
      EndedShut(st2, s, AuditRow(Rejected, actor), Halted, w);
    }
    cleared := GrantOpens(st2, s, actor, w);
  }

  /** A gate from its pending row on. */
  lemma PendingOpens(st: St, s: nat, w: nat) returns (cleared: St, actor: string)
    ensures var flow := GatedStep(st, s);
      if |st.script| > 2 && Answered(st.script[0]) && !st.script[1].cancelled && Answered(st.script[2])
         && (st.approved || Sent(st.script[..2], true)) && !st.rejected && !Sent(st.script[..2], false)
      then Opened(st, flow, s, actor, w, cleared, 3) else Shut(st, flow, w)
  {
    var row := AuditRow(Pending, "");
    RecordMoves(st, s, row, w);
    var st1 := Record(st, s, row).0;
    cleared, actor := st1, "";
    if st.script != [] && Answered(st.script[0]) && st1.script != [] {
      WaitMoves(st1, w);
      MovedThen(st, st1, Wait(st1), 1, 1);
      cleared, actor := DecisionOpens(st1, s, w);
    }
  }

  lemma CheckMoves(st: St, s: nat, w: nat)
    requires st.script != []
    ensures var st1 := Note(Wait(st), Checked(s, st.script[0].db)); Moved(st, st1, 1) && Counted(st, st1, w, 0, 0)
  {
    WaitMoves(st, w);
    NoteCounts(Wait(st), Checked(s, st.script[0].db), w);
  }

  /** The gate of a step whose incident was read live: whether it is passed, and from where
      the action goes on if so. */
  lemma GateOpens(st: St, s: nat, w: nat) returns (cleared: St, actor: string)
    requires st.script != [] && ReadLive(st.script[0])
    ensures var flow := OneStep(st, s, Approval);
      if Passes(st.script, st.approved, st.rejected) then Opened(st, flow, s, actor, w, cleared, 4) else Shut(st, flow, w)
  {
    var st1 := Note(Wait(st), Checked(s, st.script[0].db));
    CheckMoves(st, s, w);
    cleared, actor := PendingOpens(st1, s, w);
    if |st.script| > 2 {
      var turns := st.script[..3];
      assert turns[..1] == st.script[..1] && turns[1..] == st1.script[..2];
      SentSplit(turns, 1, true);
      SentSplit(turns, 1, false);
    }
  }

  /** What one step does, for either kind: its action is started exactly when the status was
      read live and any gate is passed. It is late exactly when the incident is resolved by
      the turn of the action, whatever was read before. */
  lemma OneStepActs(st: St, s: nat, mode: Mode, w: nat)
    ensures var flow := OneStep(st, s, mode);
      var starts := StepStarts(st.script, st.approved, st.rejected, mode);
      && Counted(st, flow.st, w, if starts then LateIn(st.script[Lead(mode)]) else 0,
                                 if starts then RunsIn(st.script[Lead(mode)], s, w) else 0)
      && (flow.Continue? <==> StepFinishes(st.script, st.approved, st.rejected, mode))
      && (flow.Stop? ==> flow.outcome != Completed)
      && (flow.Continue? ==> Moved(Resumed(st, mode), flow.st, if mode == Auto then 3 else 2))
  {
    if st.script != [] {
      if !ReadLive(st.script[0]) {
        UnreadShut(st, s, mode, w);
      } else if mode == Auto {
        AutoStepActs(st, s, w);
      } else {
        GatedStepActs(st, s, w);
      }
    }
  }

  /** Where the signals that count for the next step begin: a gate clears those before it. */
  function Resumed(st: St, mode: Mode): St {
    if mode == Auto || |st.script| < 4 then st else st.(approved := false, rejected := false, script := st.script[4..])
  }

  lemma GatedStepActs(st: St, s: nat, w: nat)
    requires st.script != [] && ReadLive(st.script[0])
    ensures var flow := OneStep(st, s, Approval);
      var starts := |st.script| > 4 && Passes(st.script, st.approved, st.rejected);
      && Counted(st, flow.st, w, if starts then LateIn(st.script[4]) else 0, if starts then RunsIn(st.script[4], s, w) else 0)
      && (flow.Continue? <==> starts && |st.script| > 5 && Answered(st.script[4]) && Answered(st.script[5]))
      && (flow.Stop? ==> flow.outcome != Completed)
      && (flow.Continue? ==> Moved(Resumed(st, Approval), flow.st, 2))
  {
    var cleared, actor := GateOpens(st, s, w);
    if Passes(st.script, st.approved, st.rejected) {
      ExecuteStepActs(cleared, s, actor, w);
      MovedAlike(cleared, Resumed(st, Approval), OneStep(st, s, Approval).st, 2);
    }
  }

  /** Only the script and the flags matter to what was heard since. */
  lemma MovedAlike(a: St, b: St, c: St, n: nat)
    requires a.script == b.script && a.approved == b.approved && a.rejected == b.rejected
    ensures Moved(a, c, n) <==> Moved(b, c, n)
  {}

  lemma UnreadShut(st: St, s: nat, mode: Mode, w: nat)
    requires st.script != [] && !ReadLive(st.script[0])
    ensures Shut(st, OneStep(st, s, mode), w)
  {
    CheckMoves(st, s, w);
    WaitMoves(st, w);
    EndedShut(Note(Wait(st), Checked(s, st.script[0].db)), s, AuditRow(Skipped, ""), Halted, w);
  }

  lemma AutoStepActs(st: St, s: nat, w: nat)
    requires st.script != [] && ReadLive(st.script[0])
    ensures var flow := OneStep(st, s, Auto);
      && Counted(st, flow.st, w, if |st.script| > 1 then LateIn(st.script[1]) else 0,
                                 if |st.script| > 1 then RunsIn(st.script[1], s, w) else 0)
      && (flow.Continue? <==> |st.script| > 2 && Answered(st.script[1]) && Answered(st.script[2]))
      && (flow.Stop? ==> flow.outcome != Completed)
      && (flow.Continue? ==> Moved(st, flow.st, 3))
  {
    var st1 := Note(Wait(st), Checked(s, st.script[0].db));
    CheckMoves(st, s, w);
    ExecuteStepActs(st1, s, "", w);
    MovedOn(st, st1, OneStep(st, s, Auto), w);
  }

  lemma MovedOn(a: St, b: St, flow: Flow, w: nat)
    requires Moved(a, b, 1) && Counted(a, b, w, 0, 0)
    ensures flow.Continue? && Moved(b, flow.st, 2) ==> Moved(a, flow.st, 3)
    ensures forall late, runs :: Counted(b, flow.st, w, late, runs) ==> Counted(a, flow.st, w, late, runs)
  {
    if flow.Continue? && Moved(b, flow.st, 2) { MovedThen(a, b, flow.st, 1, 2); }
  }

  // ---- Whole runs -----------------------------------------------------------

  /** The turn in which step `k + 1` reads the status, if all before it finish. */
  function ReadTurn(modes: seq<Mode>, k: nat): nat
    requires k <= |modes|
    decreases k, 0
  {
    if k == 0 then 0 else ActionTurn(modes, k - 1) + 2
  }

  /** The turn in which its action starts. */
  function ActionTurn(modes: seq<Mode>, k: nat): nat
    requires k < |modes|
    decreases k, 1
  {
    ReadTurn(modes, k) + Lead(modes[k])
  }

  /** The first turn whose signals count for step `k + 1`: those before were cleared. */
  function CountedFrom(modes: seq<Mode>, k: nat): (r: nat)
    requires k <= |modes|
    ensures r <= ReadTurn(modes, k)
  {
    if k == 0 then 0
    else if modes[k - 1] == Approval then ActionTurn(modes, k - 1)
    else CountedFrom(modes, k - 1)
  }

  /** Heard by the time step `k + 1` begins and not yet cleared. */
  ghost predicate Pent(script: seq<Turn>, modes: seq<Mode>, k: nat, approval: bool)
    requires k <= |modes| && ReadTurn(modes, k) <= |script|
  {
    Sent(script[CountedFrom(modes, k)..ReadTurn(modes, k)], approval)
  }

  /** Step `k + 1` carries out its action and goes on. */
  ghost predicate Finishes(script: seq<Turn>, modes: seq<Mode>, k: nat)
    requires k < |modes|
  {
    var at := ReadTurn(modes, k);
    at <= |script| && StepFinishes(script[at..], Pent(script, modes, k, true), Pent(script, modes, k, false), modes[k])
  }

  /** The run starts the action of step `k + 1`: all earlier steps finish, the status is read
      live and any gate is passed. */
  ghost predicate Starts(script: seq<Turn>, modes: seq<Mode>, k: nat)
    requires k < |modes|
  {
    var at := ReadTurn(modes, k);
    && (forall j :: 0 <= j < k ==> Finishes(script, modes, j))
    && at <= |script| && StepStarts(script[at..], Pent(script, modes, k, true), Pent(script, modes, k, false), modes[k])
  }

  /** The run has come to step `k + 1`. */
  ghost predicate Placed(st: St, script: seq<Turn>, modes: seq<Mode>, k: nat) {
    && k <= |modes| && (forall j :: 0 <= j < k ==> Finishes(script, modes, j))
    && ReadTurn(modes, k) <= |script| && st.script == script[ReadTurn(modes, k)..]
    && st.approved == Pent(script, modes, k, true) && st.rejected == Pent(script, modes, k, false)
  }

  lemma PentAfterAuto(script: seq<Turn>, modes: seq<Mode>, k: nat, approval: bool)
    requires k < |modes| && modes[k] == Auto && ReadTurn(modes, k + 1) <= |script|
    ensures Pent(script, modes, k + 1, approval) <==>
            Pent(script, modes, k, approval) || Sent(script[ReadTurn(modes, k)..][..3], approval)
  {
    var at, since := ReadTurn(modes, k), CountedFrom(modes, k);
    var heard := script[since..at + 3];
    assert heard[..at - since] == script[since..at] && heard[at - since..] == script[at..][..3];
    SentSplit(heard, at - since, approval);
  }

  lemma PentAfterGate(script: seq<Turn>, modes: seq<Mode>, k: nat, approval: bool)
    requires k < |modes| && modes[k] == Approval && ReadTurn(modes, k + 1) <= |script|
    ensures Pent(script, modes, k + 1, approval) <==> Sent(script[ReadTurn(modes, k)..][4..][..2], approval)
  {
    var at := ReadTurn(modes, k);
    assert script[at..][4..][..2] == script[at + 4..at + 6];
  }

  /** Step `k + 1` of a run, in terms of the script. */
  lemma StepPlaces(st: St, script: seq<Turn>, modes: seq<Mode>, k: nat, w: nat)
    requires k < |modes| && Placed(st, script, modes, k)
    ensures var flow := OneStep(st, k + 1, modes[k]);
      && Counted(st, flow.st, w, LateBy(script, modes, k), RunsBy(script, modes, k, w))
      && (flow.Continue? <==> Finishes(script, modes, k))
      && (flow.Continue? ==> Placed(flow.st, script, modes, k + 1))
      && (flow.Stop? ==> flow.outcome != Completed && forall j :: k < j < |modes| ==> !Starts(script, modes, j))
  {
    OneStepActs(st, k + 1, modes[k], w);
    var flow := OneStep(st, k + 1, modes[k]);
    if flow.Continue? { MovedPlaces(st, flow.st, script, modes, k); }
  }

  /** What step `k + 1` of a run adds. */
  ghost function LateBy(script: seq<Turn>, modes: seq<Mode>, k: nat): nat
    requires k < |modes|
  {
    if Starts(script, modes, k) then LateIn(script[ActionTurn(modes, k)]) else 0
  }

  ghost function RunsBy(script: seq<Turn>, modes: seq<Mode>, k: nat, w: nat): nat
    requires k < |modes|
  {
    if Starts(script, modes, k) then RunsIn(script[ActionTurn(modes, k)], k + 1, w) else 0
  }

  lemma AutoMovedPlaces(st: St, after: St, script: seq<Turn>, modes: seq<Mode>, k: nat)
    requires k < |modes| && modes[k] == Auto && Placed(st, script, modes, k) && Finishes(script, modes, k)
    requires Moved(st, after, 3)
    ensures Placed(after, script, modes, k + 1)
  {
    var at := ReadTurn(modes, k);
    PentAfterAuto(script, modes, k, true);
    PentAfterAuto(script, modes, k, false);
    assert script[at..][3..] == script[at + 3..];
  }

  lemma GateMovedPlaces(st: St, after: St, script: seq<Turn>, modes: seq<Mode>, k: nat)
    requires k < |modes| && modes[k] == Approval && Placed(st, script, modes, k) && Finishes(script, modes, k)
    requires Moved(Resumed(st, Approval), after, 2)
    ensures Placed(after, script, modes, k + 1)
  {
    var at := ReadTurn(modes, k);
    PentAfterGate(script, modes, k, true);
    PentAfterGate(script, modes, k, false);
    assert script[at..][4..][2..] == script[at + 6..];
  }

  lemma MovedPlaces(st: St, after: St, script: seq<Turn>, modes: seq<Mode>, k: nat)
    requires k < |modes| && Placed(st, script, modes, k) && Finishes(script, modes, k)
    requires Moved(Resumed(st, modes[k]), after, if modes[k] == Auto then 3 else 2)
    ensures Placed(after, script, modes, k + 1)
  {
    if modes[k] == Auto {
      AutoMovedPlaces(st, after, script, modes, k);
    } else {
      GateMovedPlaces(st, after, script, modes, k);
    }
  }

  lemma StartPlaced(script: seq<Turn>, modes: seq<Mode>)
    ensures Placed(Start(script), script, modes, 0)
  {}

  /** What the steps from `k + 1` on add to a run. */
  ghost function LateFrom(script: seq<Turn>, modes: seq<Mode>, k: nat): nat
    requires k <= |modes|
    decreases |modes| - k
  {
    if k == |modes| then 0 else LateBy(script, modes, k) + LateFrom(script, modes, k + 1)
  }

  ghost function RunsFrom(script: seq<Turn>, modes: seq<Mode>, k: nat, w: nat): nat
    requires k <= |modes|
    decreases |modes| - k
  {
    if k == |modes| then 0 else RunsBy(script, modes, k, w) + RunsFrom(script, modes, k + 1, w)
  }

  lemma {:induction false} NothingFrom(script: seq<Turn>, modes: seq<Mode>, k: nat, w: nat)
    requires k <= |modes| && forall j :: k <= j < |modes| ==> !Starts(script, modes, j)
    ensures LateFrom(script, modes, k) == 0 && RunsFrom(script, modes, k, w) == 0
    decreases |modes| - k
  {
    if k < |modes| { NothingFrom(script, modes, k + 1, w); }
  }

  lemma {:induction false} RunCounts(st: St, script: seq<Turn>, modes: seq<Mode>, k: nat, w: nat)
    requires Placed(st, script, modes, k)
    ensures Counted(st, Run(st, modes, k).0, w, LateFrom(script, modes, k), RunsFrom(script, modes, k, w))
    decreases |modes| - k
  {
    if k < |modes| {
      StepPlaces(st, script, modes, k, w);
      var flow := OneStep(st, k + 1, modes[k]);
      if flow.Continue? {
        RunCounts(flow.st, script, modes, k + 1, w);
      } else {
        NothingFrom(script, modes, k + 1, w);
      }
    }
  }

  /** Step `k + 1` starts its action although the incident is resolved by then. */
  ghost predicate ActsLate(script: seq<Turn>, modes: seq<Mode>, k: nat) {
    k < |modes| && Starts(script, modes, k) && script[ActionTurn(modes, k)].db == Resolved
  }

  lemma LateByIsLate(script: seq<Turn>, modes: seq<Mode>, k: nat)
    requires k < |modes|
    ensures LateBy(script, modes, k) > 0 <==> ActsLate(script, modes, k)
  {}

  lemma {:induction false} LateFromSomeStep(script: seq<Turn>, modes: seq<Mode>, k: nat)
    requires k <= |modes|
    ensures LateFrom(script, modes, k) > 0 <==> exists j: nat :: k <= j && ActsLate(script, modes, j)
    decreases |modes| - k
  {
    if k < |modes| {
      LateFromSomeStep(script, modes, k + 1);
      LateByIsLate(script, modes, k);
    }
  }

  /** An action is started on a resolved incident exactly when some step whose turn comes
      reads the incident live, passes its gate if it has one, and finds it resolved when the
      action starts: one turn after the read, or four for a gated step. */
  lemma LateExactlyWhen(script: seq<Turn>, modes: seq<Mode>)
    ensures Late(TraceOf(script, modes)) > 0 <==> exists k: nat :: ActsLate(script, modes, k)
  {
    StartPlaced(script, modes);
    RunCounts(Start(script), script, modes, 0, 0);
    LateFromSomeStep(script, modes, 0);
  }

  lemma OtherStepRunsNothing(script: seq<Turn>, modes: seq<Mode>, k: nat, w: nat)
    requires k < |modes| && k + 1 != w
    ensures RunsBy(script, modes, k, w) == 0
  {}

  lemma {:induction false} OtherStepsRunNothing(script: seq<Turn>, modes: seq<Mode>, k: nat, w: nat)
    requires k <= |modes| && !(k < w <= |modes|)
    ensures RunsFrom(script, modes, k, w) == 0
    decreases |modes| - k
  {
    if k < |modes| {
      OtherStepsRunNothing(script, modes, k + 1, w);
      OtherStepRunsNothing(script, modes, k, w);
    }
  }

  lemma {:induction false} RunsFromOwnStep(script: seq<Turn>, modes: seq<Mode>, k: nat, w: nat)
    requires k < w <= |modes|
    ensures RunsFrom(script, modes, k, w) == RunsBy(script, modes, w - 1, w)
    decreases |modes| - k
  {
    if k + 1 == w {
      OtherStepsRunNothing(script, modes, w, w);
    } else {
      RunsFromOwnStep(script, modes, k + 1, w);
      OtherStepRunsNothing(script, modes, k, w);
    }
  }

  /** How often a step's action runs: as often as the attempts of its turn apply, if that
      turn comes, and so at most as often as the retry policy allows. */
  lemma ActionRunsExactly(script: seq<Turn>, modes: seq<Mode>, step: nat)
    ensures Runs(TraceOf(script, modes), step) ==
      if 1 <= step <= |modes| && Starts(script, modes, step - 1) then Applied(Made(script[ActionTurn(modes, step - 1)])) else 0
    ensures Runs(TraceOf(script, modes), step) <= 3
  {
    StartPlaced(script, modes);
    RunCounts(Start(script), script, modes, 0, step);
    if 1 <= step <= |modes| {
      RunsFromOwnStep(script, modes, 0, step);
    } else {
      OtherStepsRunNothing(script, modes, 0, step);
    }
    if 1 <= step <= |modes| && Starts(script, modes, step - 1) {
      AppliedBounds(Made(script[ActionTurn(modes, step - 1)]));
    }
  }

  /** A run repeats a step's action exactly when it starts it and, in that turn, an attempt
      that ran goes unheard and a later one runs. */
  lemma ActionRepeatsExactlyWhen(script: seq<Turn>, modes: seq<Mode>, step: nat)
    ensures Runs(TraceOf(script, modes), step) >= 2 <==>
      1 <= step <= |modes| && Starts(script, modes, step - 1) && Repeats(Made(script[ActionTurn(modes, step - 1)]))
  {
    ActionRunsExactly(script, modes, step);
    if 1 <= step <= |modes| && Starts(script, modes, step - 1) {
      AppliedTwiceExactlyWhen(Made(script[ActionTurn(modes, step - 1)]));
    }
  }

  lemma {:induction false} RunCompletes(st: St, script: seq<Turn>, modes: seq<Mode>, k: nat)
    requires Placed(st, script, modes, k)
    ensures Run(st, modes, k).1 == Completed <==> forall j :: k <= j < |modes| ==> Finishes(script, modes, j)
    decreases |modes| - k
  {
    if k < |modes| {
      StepPlaces(st, script, modes, k, 0);
      var flow := OneStep(st, k + 1, modes[k]);
      if flow.Continue? {
        RunCompletes(flow.st, script, modes, k + 1);
      } else {
        assert !Finishes(script, modes, k) && Run(st, modes, k) == (flow.st, flow.outcome);
      }
    }
  }

  /** A run completes exactly when every step of the runbook finishes. */
  lemma CompletesExactlyWhen(script: seq<Turn>, modes: seq<Mode>)
    ensures Run(Start(script), modes, 0).1 == Completed <==> forall k :: 0 <= k < |modes| ==> Finishes(script, modes, k)
  {
    StartPlaced(script, modes);
    RunCompletes(Start(script), script, modes, 0);
  }

  // ---- Never two late actions -------------------------------------------------

  lemma {:induction false} ResolvedForGood(script: seq<Turn>, m: nat, n: nat)
    requires Onward(script) && m <= n < |script| && script[m].db == Resolved
    ensures script[n].db == Resolved
    decreases n
  {
    if m < n {
      ResolvedForGood(script, m, n - 1);
      assert Reaches(script[n - 1].db, script[n].db);
    }
  }

  /** No step acts after one that acted late. */
  lemma LateIsLast(script: seq<Turn>, modes: seq<Mode>, j: nat, k: nat)
    requires Onward(script) && j < k < |modes| && ActsLate(script, modes, j)
    ensures !Starts(script, modes, k)
  {
    TurnsAscend(modes, j, k);
    if ReadTurn(modes, k) < |script| {
      ResolvedForGood(script, ActionTurn(modes, j), ReadTurn(modes, k));
    }
  }

  lemma {:induction false} TurnsAscend(modes: seq<Mode>, j: nat, k: nat)
    requires j < k < |modes|
    ensures ActionTurn(modes, j) < ReadTurn(modes, k)
  {
    if j < k - 1 { TurnsAscend(modes, j, k - 1); }
  }

  lemma {:induction false} LateFromOnce(script: seq<Turn>, modes: seq<Mode>, k: nat)
    requires k <= |modes| && Onward(script)
    ensures LateFrom(script, modes, k) <= 1
    decreases |modes| - k
  {
    if k < |modes| {
      LateFromOnce(script, modes, k + 1);
      if ActsLate(script, modes, k) {
        forall j | k < j < |modes| ensures !Starts(script, modes, j) { LateIsLast(script, modes, k, j); }
        NothingFrom(script, modes, k + 1, 0);
      }
    }
  }

  /** Once the database has the incident resolved, at most one further step's action is
      started, however the approvals fall. */
  lemma AtMostOneLateAction(script: seq<Turn>, modes: seq<Mode>)
    requires Onward(script)
    ensures Late(TraceOf(script, modes)) <= 1
  {
    StartPlaced(script, modes);
    RunCounts(Start(script), script, modes, 0, 0);
    LateFromOnce(script, modes, 0);
  }
}
