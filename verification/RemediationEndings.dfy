/** How each step of a remediation run ends, from the environment's script, and the audit row
    every way of ending leaves. */
module RemediationEndings {
  import opened Incidents
  import opened Remediation
  import opened RemediationSafety
  import opened RemediationRetries
  import opened RemediationSchedule
  import opened Retries

  // ---- Who was heard last -------------------------------------------------------

  function SenderIn(signals: seq<Signal>, before: string): string {
    if signals == [] then before else signals[|signals| - 1].actor
  }

  /** The sender of the latest signal in these turns, or else whoever was heard before. */
  function LastSender(turns: seq<Turn>, before: string): string {
    if turns == [] then before else SenderIn(turns[|turns| - 1].signals, LastSender(turns[..|turns| - 1], before))
  }

  lemma {:induction false} LastSenderSplit(turns: seq<Turn>, n: nat, before: string)
    requires n <= |turns|
    ensures LastSender(turns, before) == LastSender(turns[n..], LastSender(turns[..n], before))
    decreases |turns|
  {
    if n < |turns| {
      var front := turns[..|turns| - 1];
      LastSenderSplit(front, n, before);
      assert front[..n] == turns[..n];
      assert turns[n..][..|turns| - n - 1] == front[n..];
    } else {
      assert turns[..n] == turns;
    }
  }

  lemma {:induction false} DeliverNames(st: St, signals: seq<Signal>)
    ensures Deliver(st, signals).actor == SenderIn(signals, st.actor) && Deliver(st, signals).rows == st.rows
    decreases |signals|
  {
    if signals != [] { DeliverNames(Receive(st, signals[0]), signals[1..]); }
  }

  // ---- How a step ends ------------------------------------------------------------

  /** On to the next step, with the sender heard last by then; halted; failed with an error; or
      still waiting where the script ends. */
  datatype Ending = Goes(row: AuditRow, heard: string) | Halts(row: AuditRow) | Errs | Waits

  ghost function RowEnding(turns: seq<Turn>, row: AuditRow): Ending {
    if turns == [] then Waits else if Answered(turns[0]) then Halts(row) else Errs
  }

  /** From the turn of a step's action on; `name` is who the rows name. */
  ghost function ActionEnding(turns: seq<Turn>, name: string, heard: string): Ending {
    if |turns| <= 1 then Waits
    else if !Answered(turns[1]) then Errs
    else if Answered(turns[0]) then Goes(AuditRow(Succeeded, name), LastSender(turns[..2], heard))
    else Halts(AuditRow(Failed, name))
  }

  /** From the turn of a gate's pending row on. */
  ghost function GateEnding(turns: seq<Turn>, approved: bool, rejected: bool, heard: string): Ending {
    if turns == [] then Waits
    else if !Answered(turns[0]) then Errs
    else if |turns| == 1 then Waits
    else if turns[1].cancelled then Errs
    else
      DecisionEnding(turns[2..], approved || Sent(turns[..2], true), rejected || Sent(turns[..2], false), LastSender(turns[..2], heard))
  }

  /** From the row that records a decision on. */
  ghost function DecisionEnding(turns: seq<Turn>, approved: bool, rejected: bool, name: string): Ending {
    if rejected then RowEnding(turns, AuditRow(Rejected, name))
    else if !approved then RowEnding(turns, AuditRow(TimedOut, ""))
    else if turns == [] then Waits
    else if !Answered(turns[0]) then Errs
    else ActionEnding(turns[1..], name, "")
  }

  /** From the turn of a step's status read on. */
  ghost function StepEnding(turns: seq<Turn>, approved: bool, rejected: bool, heard: string, mode: Mode): Ending {
    if turns == [] then Waits
    else if !turns[0].reachable then Errs
    else if turns[0].db == Resolved then RowEnding(turns[1..], AuditRow(Skipped, ""))
    else
      var sender := SenderIn(turns[0].signals, heard);
      if mode == Auto then ActionEnding(turns[1..], "", sender)
      else GateEnding(turns[1..], approved || Sends(turns[0], true), rejected || Sends(turns[0], false), sender)
  }

  // ---- The workflow ends so -------------------------------------------------------

  /** The flow of step `s` from `st` ends as said, and touches no other step's row. */
  ghost predicate Ends(st: St, flow: Flow, s: nat, ending: Ending) {
    && flow.st.rows - {s} == st.rows - {s}
    && match ending
       case Goes(row, heard) => flow.Continue? && flow.st.rows == st.rows[s := row] && flow.st.actor == heard
       case Halts(row) => flow.Stop? && flow.outcome == Halted && flow.st.rows == st.rows[s := row]
       case Errs => flow.Stop? && flow.outcome == Errored
       case Waits => flow.Stop? && flow.outcome == Running
  }

  /** One turn has passed; `s`'s row is the only one written. */
  ghost predicate Passed(st: St, after: St, s: nat) {
    && st.script != [] && after.script == st.script[1..]
    && after.actor == SenderIn(st.script[0].signals, st.actor) && after.rows - {s} == st.rows - {s}
  }

  lemma WaitPasses(st: St, s: nat)
    requires st.script != []
    ensures Passed(st, Wait(st), s) && Wait(st).rows == st.rows
  {
    DeliverNames(st, st.script[0].signals);
  }

  lemma {:induction false} WriteLeaves(st: St, s: nat, row: AuditRow, attempts: seq<Attempt>)
    ensures var (st', done) := WriteAttempts(st, s, row, attempts);
      && st'.script == st.script && st'.actor == st.actor && st'.rows - {s} == st.rows - {s}
      && (done <==> HeardOf(Tries(attempts))) && (done ==> st'.rows == st.rows[s := row])
    decreases |attempts|
  {
    HeardOfSplits(Tries(attempts));
    if attempts != [] {
      assert Tries(attempts)[1..] == Tries(attempts[1..]);
      WriteLeaves(if attempts[0].effect || attempts[0].acked then WriteRow(st, s, row) else st, s, row, attempts[1..]);
    }
  }

  lemma {:induction false} RunLeaves(st: St, s: nat, attempts: seq<Attempt>)
    ensures var (st', done) := RunAttempts(st, s, attempts);
      && st'.script == st.script && st'.actor == st.actor && st'.rows == st.rows && (done <==> HeardOf(Tries(attempts)))
    decreases |attempts|
  {
    HeardOfSplits(Tries(attempts));
    if attempts != [] {
      assert Tries(attempts)[1..] == Tries(attempts[1..]);
      RunLeaves(if attempts[0].effect || attempts[0].acked then Note(st, Ran(s)) else st, s, attempts[1..]);
    }
  }

  lemma RecordLeaves(st: St, s: nat, row: AuditRow)
    ensures st.script == [] ==> Record(st, s, row) == (st, Blocked)
    ensures st.script != [] ==>
      var (st', reply) := Record(st, s, row);
      && Passed(st, st', s) && reply == (if Answered(st.script[0]) then Done else Failure)
      && (reply.Done? ==> st'.rows == st.rows[s := row])
  {
    if st.script != [] {
      WaitPasses(st, s);
      WriteLeaves(Wait(st), s, row, Allowed(st.script[0].attempts));
    }
  }

  lemma ExecuteLeaves(st: St, s: nat)
    ensures st.script == [] ==> Execute(st, s) == (st, Blocked)
    ensures st.script != [] ==>
      var (st', reply) := Execute(st, s);
      Passed(st, st', s) && st'.rows == st.rows && reply == if Answered(st.script[0]) then Done else Failure
  {
    if st.script != [] {
      var st1 := Note(st, Began(s, st.script[0].db));
      WaitPasses(st1, s);
      RunLeaves(Wait(st1), s, Allowed(st.script[0].attempts));
    }
  }

  lemma RowEnds(st: St, s: nat, row: AuditRow)
    ensures Ends(st, Ended(Record(st, s, row), Halted), s, RowEnding(st.script, row))
  {
    RecordLeaves(st, s, row);
  }

  lemma TwoSenders(turns: seq<Turn>, before: string)
    requires |turns| >= 2
    ensures LastSender(turns[..2], before) == SenderIn(turns[1].signals, SenderIn(turns[0].signals, before))
  {
    assert turns[..2][..1] == [turns[0]] && [turns[0]][..0] == [];
    assert LastSender([turns[0]], before) == SenderIn(turns[0].signals, before);
  }

  lemma ActionEnds(st: St, s: nat, name: string)
    ensures Ends(st, ExecuteStep(st, s, name), s, ActionEnding(st.script, name, st.actor))
  {
    ExecuteLeaves(st, s);
    if st.script != [] {
      var (st1, reply) := Execute(st, s);
      var row := AuditRow(if reply.Done? then Succeeded else Failed, name);
      RecordLeaves(st1, s, row);
      if |st.script| >= 2 { TwoSenders(st.script, st.actor); }
    }
  }

  /** A flow from a later state of the same step ends the step so, too. */
  lemma EndsFrom(st: St, mid: St, flow: Flow, s: nat, ending: Ending)
    requires mid.rows - {s} == st.rows - {s} && Ends(mid, flow, s, ending)
    ensures Ends(st, flow, s, ending)
  {
    if ending.Goes? || ending.Halts? {
      assert mid.rows[s := ending.row] == (mid.rows - {s})[s := ending.row];
      assert st.rows[s := ending.row] == (st.rows - {s})[s := ending.row];
    }
  }

  lemma GrantEnds(st: St, s: nat, name: string)
    ensures Ends(st, Grant(st, s, name), s, DecisionEnding(st.script, true, false, name))
  {
    RecordLeaves(st, s, AuditRow(Approved, name));
    var (st1, reply) := Record(st, s, AuditRow(Approved, name));
    if reply.Done? {
      ActionEnds(Clear(st1, s), s, name);
      EndsFrom(st, Clear(st1, s), ExecuteStep(Clear(st1, s), s, name), s, ActionEnding(st.script[1..], name, ""));
    }
  }

  lemma DecideEnds(st: St, s: nat)
    requires st.script != [] && !st.script[0].cancelled
    ensures Ends(st, Decide(st, s), s, DecisionEnding(st.script[1..], Wait(st).approved, Wait(st).rejected, Wait(st).actor))
  {
    var st1 := Wait(st);
    WaitPasses(st, s);
    var st2 := Note(st1, Decided(s, VerdictOn(st1.approved, st1.rejected), st1.actor));
    RowEnds(st2, s, AuditRow(Rejected, st1.actor));
    RowEnds(st2, s, AuditRow(TimedOut, ""));
    GrantEnds(st2, s, st1.actor);
  }

  lemma GateEnds(st: St, s: nat)
    ensures Ends(st, GatedStep(st, s), s, GateEnding(st.script, st.approved, st.rejected, st.actor))
  {
    var row := AuditRow(Pending, "");
    RecordLeaves(st, s, row);
    RecordMoves(st, s, row, s);
    var st1 := Record(st, s, row).0;
    if |st.script| > 1 && Answered(st.script[0]) {
      WaitPasses(st1, s);
      WaitMoves(st1, s);
      MovedThen(st, st1, Wait(st1), 1, 1);
      TwoSenders(st.script, st.actor);
      if !st.script[1].cancelled {
        DecideEnds(st1, s);
        EndsFrom(st, st1, Decide(st1, s), s, GateEnding(st.script, st.approved, st.rejected, st.actor));
      }
    }
  }

  /** Every step ends as the script says, and leaves the row the script says. */
  lemma StepEnds(st: St, s: nat, mode: Mode)
    ensures Ends(st, OneStep(st, s, mode), s, StepEnding(st.script, st.approved, st.rejected, st.actor, mode))
  {
    if st.script != [] {
      var st1 := Note(Wait(st), Checked(s, st.script[0].db));
      WaitPasses(st, s);
      CheckMoves(st, s, s);
      FirstSends(st.script, true);
      FirstSends(st.script, false);
      if st.script[0].reachable && st.script[0].db == Resolved {
        RowEnds(st1, s, AuditRow(Skipped, ""));
      } else if mode == Auto {
        ActionEnds(st1, s, "");
      } else {
        GateEnds(st1, s);
      }
    }
  }

  lemma FirstSends(turns: seq<Turn>, approval: bool)
    requires turns != []
    ensures Sent(turns[..1], approval) <==> Sends(turns[0], approval)
  {
    assert turns[..1] == [turns[0]] && [turns[0]][0] == turns[0];
  }

  // ---- What each way of halting means -------------------------------------------

  /** The incident is read as resolved, and the row of the skip is heard of. */
  ghost predicate Skips(turns: seq<Turn>) {
    |turns| > 1 && turns[0].reachable && turns[0].db == Resolved && Answered(turns[1])
  }

  /** A gate's wait ends in a decision whose row is heard of. */
  ghost predicate Decides(turns: seq<Turn>) {
    |turns| > 3 && ReadLive(turns[0]) && Answered(turns[1]) && !turns[2].cancelled && Answered(turns[3])
  }

  /** Nobody has answered by the end of the wait. */
  ghost predicate TimesOut(turns: seq<Turn>, approved: bool, rejected: bool) {
    Decides(turns) && !approved && !rejected && !Sent(turns[..3], true) && !Sent(turns[..3], false)
  }

  /** Somebody has rejected by the end of the wait. */
  ghost predicate Refuses(turns: seq<Turn>, rejected: bool) {
    Decides(turns) && (rejected || Sent(turns[..3], false))
  }

  /** The action is started, never heard to succeed, and the row of the failure is heard of. */
  ghost predicate Fails(turns: seq<Turn>, approved: bool, rejected: bool, mode: Mode) {
    && StepStarts(turns, approved, rejected, mode) && |turns| > Lead(mode) + 1
    && !Answered(turns[Lead(mode)]) && Answered(turns[Lead(mode) + 1])
  }

  /** Who a step's rows name: behind a gate, the sender heard last as its wait ended. */
  function Namer(turns: seq<Turn>, heard: string, mode: Mode): string {
    if mode == Approval && |turns| >= 3 then LastSender(turns[..3], heard) else ""
  }

  /** A halted step leaves one of four rows, each for its own cause. */
  ghost predicate HaltsFor(turns: seq<Turn>, approved: bool, rejected: bool, heard: string, mode: Mode, row: AuditRow) {
    match row.status
    case Skipped => Skips(turns) && row.actor == ""
    case TimedOut => mode == Approval && TimesOut(turns, approved, rejected) && row.actor == ""
    case Rejected => mode == Approval && Refuses(turns, rejected) && row.actor == Namer(turns, heard, mode)
    case Failed => Fails(turns, approved, rejected, mode) && row.actor == Namer(turns, heard, mode)
    case _ => false
  }

  /** What has been heard by the end of a gate's wait. */
  lemma HeardAtGate(turns: seq<Turn>, heard: string)
    requires |turns| >= 3
    ensures LastSender(turns[..3], heard) == LastSender(turns[1..][..2], SenderIn(turns[0].signals, heard))
    ensures forall approval :: Sent(turns[..3], approval) <==> Sends(turns[0], approval) || Sent(turns[1..][..2], approval)
  {
    var three := turns[..3];
    assert three[..1] == [turns[0]] && three[1..] == turns[1..][..2] && [turns[0]][..0] == [];
    LastSenderSplit(three, 1, heard);
    assert LastSender([turns[0]], heard) == SenderIn(turns[0].signals, heard);
    forall approval ensures Sent(three, approval) <==> Sends(turns[0], approval) || Sent(turns[1..][..2], approval) {
      SentSplit(three, 1, approval);
      FirstSends(three, approval);
    }
  }

  lemma GateHalts(turns: seq<Turn>, approved: bool, rejected: bool, heard: string, row: AuditRow)
    ensures GateEnding(turns, approved, rejected, heard) == Halts(row) <==>
      && |turns| > 2 && Answered(turns[0]) && !turns[1].cancelled && Answered(turns[2])
      && var yes, no := approved || Sent(turns[..2], true), rejected || Sent(turns[..2], false);
         if no then row == AuditRow(Rejected, LastSender(turns[..2], heard))
         else if !yes then row == AuditRow(TimedOut, "")
         else |turns| > 4 && !Answered(turns[3]) && Answered(turns[4]) && row == AuditRow(Failed, LastSender(turns[..2], heard))
  {}

  /** What of a gated step's turns makes it halt with a row. */
  lemma GateHaltsFor(turns: seq<Turn>, approved: bool, rejected: bool, heard: string, row: AuditRow)
    requires turns != [] && ReadLive(turns[0])
    ensures HaltsFor(turns, approved, rejected, heard, Approval, row) <==>
      && Decides(turns)
      && var yes, no := approved || Sent(turns[..3], true), rejected || Sent(turns[..3], false);
         if no then row == AuditRow(Rejected, LastSender(turns[..3], heard))
         else if !yes then row == AuditRow(TimedOut, "")
         else |turns| > 5 && !Answered(turns[4]) && Answered(turns[5]) && row == AuditRow(Failed, LastSender(turns[..3], heard))
  {}

  lemma GatedHaltsFor(turns: seq<Turn>, approved: bool, rejected: bool, heard: string, row: AuditRow)
    requires turns != [] && ReadLive(turns[0])
    ensures StepEnding(turns, approved, rejected, heard, Approval) == Halts(row) <==>
            HaltsFor(turns, approved, rejected, heard, Approval, row)
  {
    GateHalts(turns[1..], approved || Sends(turns[0], true), rejected || Sends(turns[0], false),
              SenderIn(turns[0].signals, heard), row);
    GateHaltsFor(turns, approved, rejected, heard, row);
    if |turns| >= 3 { HeardAtGate(turns, heard); }
  }

  /** A step halts with a row exactly for the row's own cause. */
  lemma HaltsExactlyFor(turns: seq<Turn>, approved: bool, rejected: bool, heard: string, mode: Mode, row: AuditRow)
    ensures StepEnding(turns, approved, rejected, heard, mode) == Halts(row) <==>
            HaltsFor(turns, approved, rejected, heard, mode, row)
  {
    if turns != [] && ReadLive(turns[0]) && mode == Approval { GatedHaltsFor(turns, approved, rejected, heard, row); }
  }

  /** A step goes on exactly when it finishes, leaving a row that says it succeeded and names
      the sender of its grant. */
  lemma GoesExactlyWhenFinished(turns: seq<Turn>, approved: bool, rejected: bool, heard: string, mode: Mode)
    ensures var ending := StepEnding(turns, approved, rejected, heard, mode);
      && (ending.Goes? <==> StepFinishes(turns, approved, rejected, mode))
      && (ending.Goes? ==>
            && ending.row == AuditRow(Succeeded, Namer(turns, heard, mode))
            && ending.heard == (if mode == Auto then LastSender(turns[..3], heard) else LastSender(turns[4..][..2], "")))
  {
    if mode == Approval {
      if turns != [] {
        GateGoes(turns[1..], approved || Sends(turns[0], true), rejected || Sends(turns[0], false), SenderIn(turns[0].signals, heard));
      }
      if |turns| >= 3 { HeardAtGate(turns, heard); }
      assert |turns| > 5 ==> turns[1..][3..][..2] == turns[4..][..2];
    } else if |turns| >= 3 {
      HeardAtGate(turns, heard);
    }
  }

  lemma GateGoes(turns: seq<Turn>, approved: bool, rejected: bool, heard: string)
    ensures var ending := GateEnding(turns, approved, rejected, heard);
      && (ending.Goes? <==>
            && |turns| > 4 && Answered(turns[0]) && !turns[1].cancelled && Answered(turns[2])
            && (approved || Sent(turns[..2], true)) && !rejected && !Sent(turns[..2], false)
            && Answered(turns[3]) && Answered(turns[4]))
      && (ending.Goes? ==> ending == Goes(AuditRow(Succeeded, LastSender(turns[..2], heard)), LastSender(turns[3..][..2], "")))
  {
    assert |turns| > 2 ==> turns[2..][1..] == turns[3..];
  }

  // ---- Whole runs ----------------------------------------------------------------

  /** Who has been heard last when step `k + 1` begins, of those not cleared. */
  function PentSender(script: seq<Turn>, modes: seq<Mode>, k: nat): string
    requires k <= |modes| && ReadTurn(modes, k) <= |script|
  {
    LastSender(script[CountedFrom(modes, k)..ReadTurn(modes, k)], "")
  }

  /** How step `k + 1` ends, if the run comes to it. */
  ghost function EndingAt(script: seq<Turn>, modes: seq<Mode>, k: nat): Ending
    requires k < |modes| && ReadTurn(modes, k) <= |script|
  {
    StepEnding(script[ReadTurn(modes, k)..], Pent(script, modes, k, true), Pent(script, modes, k, false),
               PentSender(script, modes, k), modes[k])
  }

  /** The row step `k + 1` leaves when it succeeds. */
  function SuccessRow(script: seq<Turn>, modes: seq<Mode>, k: nat): AuditRow
    requires k < |modes|
  {
    var at := ReadTurn(modes, k);
    AuditRow(Succeeded, if at <= |script| then Namer(script[at..], PentSender(script, modes, k), modes[k]) else "")
  }

  /** The audit table once the first `k` steps have succeeded. */
  function RowsAfter(script: seq<Turn>, modes: seq<Mode>, k: nat): map<nat, AuditRow>
    requires k <= |modes|
  {
    if k == 0 then map[] else RowsAfter(script, modes, k - 1)[k := SuccessRow(script, modes, k - 1)]
  }

  lemma {:induction false} RowsAfterAt(script: seq<Turn>, modes: seq<Mode>, k: nat, s: nat)
    requires k <= |modes|
    ensures s in RowsAfter(script, modes, k) <==> 1 <= s <= k
    ensures 1 <= s <= k ==> RowsAfter(script, modes, k)[s] == SuccessRow(script, modes, s - 1)
  {
    if k > 0 { RowsAfterAt(script, modes, k - 1, s); }
  }

  /** The run has come to step `k + 1`. */
  ghost predicate Arrived(st: St, script: seq<Turn>, modes: seq<Mode>, k: nat) {
    Placed(st, script, modes, k) && st.actor == PentSender(script, modes, k) && st.rows == RowsAfter(script, modes, k)
  }

  lemma SenderRange(script: seq<Turn>, i: nat, j: nat, k: nat)
    requires i <= j <= k <= |script|
    ensures LastSender(script[i..k], "") == LastSender(script[j..][..k - j], LastSender(script[i..j], ""))
  {
    var heard := script[i..k];
    assert heard[..j - i] == script[i..j] && heard[j - i..] == script[j..][..k - j];
    LastSenderSplit(heard, j - i, "");
  }

  /** Where the next step's turns begin, and those whose signals count for it. */
  lemma TurnsAfter(modes: seq<Mode>, k: nat)
    requires k < |modes|
    ensures ReadTurn(modes, k + 1) == ReadTurn(modes, k) + (if modes[k] == Auto then 3 else 6)
    ensures CountedFrom(modes, k + 1) == if modes[k] == Auto then CountedFrom(modes, k) else ReadTurn(modes, k) + 4
  {}

  lemma SenderAfter(script: seq<Turn>, modes: seq<Mode>, k: nat)
    requires k < |modes| && ReadTurn(modes, k + 1) <= |script|
    requires ReadTurn(modes, k) + (if modes[k] == Auto then 3 else 6) <= |script|
    ensures var turns := script[ReadTurn(modes, k)..];
      && PentSender(script, modes, k + 1) ==
         if modes[k] == Auto then LastSender(turns[..3], PentSender(script, modes, k)) else LastSender(turns[4..][..2], "")
  {
    TurnsAfter(modes, k);
    var at := ReadTurn(modes, k);
    if modes[k] == Auto {
      SenderRange(script, CountedFrom(modes, k), at, at + 3);
    } else {
      assert script[at..][4..][..2] == script[at + 4..at + 6];
    }
  }

  lemma StepArrives(st: St, script: seq<Turn>, modes: seq<Mode>, k: nat)
    requires k < |modes| && Arrived(st, script, modes, k)
    ensures var flow := OneStep(st, k + 1, modes[k]);
      && Ends(st, flow, k + 1, EndingAt(script, modes, k))
      && (flow.Continue? <==> Finishes(script, modes, k))
      && (flow.Continue? ==> Arrived(flow.st, script, modes, k + 1))
  {
    StepPlaces(st, script, modes, k, 0);
    StepEnds(st, k + 1, modes[k]);
    if OneStep(st, k + 1, modes[k]).Continue? { FinishedArrives(st, OneStep(st, k + 1, modes[k]).st, script, modes, k); }
  }

  /** What a finished step leaves for the next: its row and the sender heard last. */
  lemma FinishedArrives(st: St, after: St, script: seq<Turn>, modes: seq<Mode>, k: nat)
    requires k < |modes| && Arrived(st, script, modes, k) && EndingAt(script, modes, k).Goes?
    requires after.rows == st.rows[k + 1 := EndingAt(script, modes, k).row] && after.actor == EndingAt(script, modes, k).heard
    requires Finishes(script, modes, k)
    ensures after.rows == RowsAfter(script, modes, k + 1) && after.actor == PentSender(script, modes, k + 1)
  {
    GoesExactlyWhenFinished(script[ReadTurn(modes, k)..], Pent(script, modes, k, true), Pent(script, modes, k, false),
                            PentSender(script, modes, k), modes[k]);
    TurnsAfter(modes, k);
    SenderAfter(script, modes, k);
  }

  lemma StartArrived(script: seq<Turn>, modes: seq<Mode>)
    ensures Arrived(Start(script), script, modes, 0)
  {
    StartPlaced(script, modes);
  }

  /** Which steps finish, were the run to come to them. */
  ghost function Finished(script: seq<Turn>, modes: seq<Mode>): seq<bool> {
    seq(|modes|, k requires 0 <= k < |modes| => Finishes(script, modes, k))
  }

  /** The first `k` of these and not the next. */
  predicate LastOf(finished: seq<bool>, k: nat) {
    k <= |finished| && (forall j :: 0 <= j < k ==> finished[j]) && (k < |finished| ==> !finished[k])
  }

  /** The run comes to step `k + 1` and goes no further. */
  ghost predicate LastStep(script: seq<Turn>, modes: seq<Mode>, k: nat) {
    k < |modes| && ReadTurn(modes, k) <= |script| && LastOf(Finished(script, modes), k)
  }

  /** A run that has stopped at step `k + 1`: the steps before it have succeeded, and its own
      row and the outcome are those of its ending. */
  ghost predicate StoppedAt(st: St, outcome: Outcome, script: seq<Turn>, modes: seq<Mode>, k: nat)
    requires k < |modes| && ReadTurn(modes, k) <= |script|
  {
    && st.rows - {k + 1} == RowsAfter(script, modes, k) - {k + 1}
    && match EndingAt(script, modes, k)
       case Goes(_, _) => false
       case Halts(row) => outcome == Halted && st.rows == RowsAfter(script, modes, k)[k + 1 := row]
       case Errs => outcome == Errored
       case Waits => outcome == Running
  }

  /** Where the end state says the run stopped. */
  ghost function Stops(st: St, outcome: Outcome, script: seq<Turn>, modes: seq<Mode>): seq<bool> {
    seq(|modes|, k requires 0 <= k < |modes| => ReadTurn(modes, k) <= |script| && StoppedAt(st, outcome, script, modes, k))
  }

  /** Followed step by step from `k` on, a run stops at the first step that does not finish. */
  predicate StopsFrom(finished: seq<bool>, stops: seq<bool>, done: bool, k: nat)
    requires k <= |finished| == |stops|
    decreases |finished| - k
  {
    if k == |finished| then done
    else if finished[k] then StopsFrom(finished, stops, done, k + 1)
    else stops[k]
  }

  lemma {:induction false} EndsAtLast(finished: seq<bool>, stops: seq<bool>, done: bool, k: nat) returns (last: nat)
    requires k <= |finished| == |stops| && StopsFrom(finished, stops, done, k) && forall j :: 0 <= j < k ==> finished[j]
    ensures LastOf(finished, last) && if last == |finished| then done else stops[last]
    decreases |finished| - k
  {
    last := k;
    if k < |finished| && finished[k] { last := EndsAtLast(finished, stops, done, k + 1); }
  }

  predicate AllDone(st: St, outcome: Outcome, script: seq<Turn>, modes: seq<Mode>) {
    outcome == Completed && st.rows == RowsAfter(script, modes, |modes|)
  }

  lemma {:induction false} RunEndsFrom(st: St, script: seq<Turn>, modes: seq<Mode>, k: nat)
    requires Arrived(st, script, modes, k)
    ensures EndsSoFrom(Run(st, modes, k), script, modes, k)
    decreases |modes| - k
  {
    if k < |modes| {
      StepArrives(st, script, modes, k);
      var flow := OneStep(st, k + 1, modes[k]);
      if flow.Continue? {
        RunEndsFrom(flow.st, script, modes, k + 1);
        assert Run(st, modes, k) == Run(flow.st, modes, k + 1);
        EndsOnward(Run(st, modes, k), script, modes, k);
      } else {
        StepStops(st, flow, script, modes, k);
        EndsNow(flow.st, flow.outcome, script, modes, k);
        assert Run(st, modes, k) == (flow.st, flow.outcome);
      }
    }
  }

  ghost predicate EndsSoFrom(end: (St, Outcome), script: seq<Turn>, modes: seq<Mode>, k: nat)
    requires k <= |modes|
  {
    StopsFrom(Finished(script, modes), Stops(end.0, end.1, script, modes), AllDone(end.0, end.1, script, modes), k)
  }

  lemma EndsOnward(end: (St, Outcome), script: seq<Turn>, modes: seq<Mode>, k: nat)
    requires k < |modes| && Finishes(script, modes, k) && EndsSoFrom(end, script, modes, k + 1)
    ensures EndsSoFrom(end, script, modes, k)
  {}

  lemma EndsNow(st: St, outcome: Outcome, script: seq<Turn>, modes: seq<Mode>, k: nat)
    requires k < |modes| && !Finishes(script, modes, k)
    requires ReadTurn(modes, k) <= |script| && StoppedAt(st, outcome, script, modes, k)
    ensures EndsSoFrom((st, outcome), script, modes, k)
  {}

  /** A run that has ended after `last` steps succeeded. */
  ghost predicate EndedAt(st: St, outcome: Outcome, script: seq<Turn>, modes: seq<Mode>, last: nat) {
    && LastOf(Finished(script, modes), last)
    && if last == |modes| then AllDone(st, outcome, script, modes)
       else LastStep(script, modes, last) && StoppedAt(st, outcome, script, modes, last)
  }

  lemma RunEnds(script: seq<Turn>, modes: seq<Mode>) returns (last: nat)
    ensures EndedAt(Run(Start(script), modes, 0).0, Run(Start(script), modes, 0).1, script, modes, last)
  {
    var (st, outcome) := Run(Start(script), modes, 0);
    StartArrived(script, modes);
    RunEndsFrom(Start(script), script, modes, 0);
    last := EndsAtLast(Finished(script, modes), Stops(st, outcome, script, modes), AllDone(st, outcome, script, modes), 0);
  }

  lemma StepStops(st: St, flow: Flow, script: seq<Turn>, modes: seq<Mode>, k: nat)
    requires k < |modes| && Arrived(st, script, modes, k) && !Finishes(script, modes, k)
    requires flow.Stop? && Ends(st, flow, k + 1, EndingAt(script, modes, k))
    ensures StoppedAt(flow.st, flow.outcome, script, modes, k)
  {}

  /** A run's last step halts, and leaves this row for its own cause. */
  ghost predicate HaltedAt(script: seq<Turn>, modes: seq<Mode>, k: nat, row: AuditRow) {
    && LastStep(script, modes, k)
    && HaltsFor(script[ReadTurn(modes, k)..], Pent(script, modes, k, true), Pent(script, modes, k, false),
                PentSender(script, modes, k), modes[k], row)
  }

  lemma HaltingIs(script: seq<Turn>, modes: seq<Mode>, k: nat, row: AuditRow)
    requires LastStep(script, modes, k)
    ensures HaltedAt(script, modes, k, row) <==> EndingAt(script, modes, k) == Halts(row)
  {
    HaltsExactlyFor(script[ReadTurn(modes, k)..], Pent(script, modes, k, true), Pent(script, modes, k, false),
                    PentSender(script, modes, k), modes[k], row);
  }

  lemma OneLast(finished: seq<bool>, j: nat, k: nat)
    requires LastOf(finished, j) && LastOf(finished, k)
    ensures j == k
  {}

  /** A run halts exactly when the step it comes to last is skipped on a resolved incident,
      times out unanswered, is rejected or fails. */
  lemma HaltsExactlyWhen(script: seq<Turn>, modes: seq<Mode>)
    ensures Run(Start(script), modes, 0).1 == Halted <==> exists k: nat, row :: HaltedAt(script, modes, k, row)
  {
    var last := RunEnds(script, modes);
    if last < |modes| && EndingAt(script, modes, last).Halts? {
      HaltingIs(script, modes, last, EndingAt(script, modes, last).row);
      assert HaltedAt(script, modes, last, EndingAt(script, modes, last).row);
    }
    forall k: nat, row | HaltedAt(script, modes, k, row) ensures Run(Start(script), modes, 0).1 == Halted {
      HaltedRows(script, modes, k, row);
    }
  }

  lemma HaltingRows(script: seq<Turn>, modes: seq<Mode>, k: nat, row: AuditRow)
    requires LastStep(script, modes, k) && EndingAt(script, modes, k) == Halts(row)
    ensures var (st, outcome) := Run(Start(script), modes, 0);
      outcome == Halted && st.rows == RowsAfter(script, modes, k)[k + 1 := row]
  {
    var last := RunEnds(script, modes);
    var (st, outcome) := Run(Start(script), modes, 0);
    StopsThere(st, outcome, script, modes, last, k, row);
  }

  lemma StopsThere(st: St, outcome: Outcome, script: seq<Turn>, modes: seq<Mode>, last: nat, k: nat, row: AuditRow)
    requires EndedAt(st, outcome, script, modes, last)
    requires LastStep(script, modes, k) && EndingAt(script, modes, k) == Halts(row)
    ensures outcome == Halted && st.rows == RowsAfter(script, modes, k)[k + 1 := row]
  {
    OneLast(Finished(script, modes), last, k);
  }

  /** And then the audit table says that every earlier step succeeded and ends with the row of
      that very cause. */
  lemma HaltedRows(script: seq<Turn>, modes: seq<Mode>, k: nat, row: AuditRow)
    requires HaltedAt(script, modes, k, row)
    ensures var (st, outcome) := Run(Start(script), modes, 0);
      outcome == Halted && st.rows == RowsAfter(script, modes, k)[k + 1 := row]
  {
    HaltingIs(script, modes, k, row);
    HaltingRows(script, modes, k, row);
  }

  /** A completed run leaves a row for every step that says it succeeded, and names the sender
      of its grant if it has a gate and nobody if it has none. */
  lemma CompletedRows(script: seq<Turn>, modes: seq<Mode>)
    requires Run(Start(script), modes, 0).1 == Completed
    ensures Run(Start(script), modes, 0).0.rows == RowsAfter(script, modes, |modes|)
  {
    var last := RunEnds(script, modes);
    CompletedIsDone(Run(Start(script), modes, 0).0, Run(Start(script), modes, 0).1, script, modes, last);
  }

  lemma CompletedIsDone(st: St, outcome: Outcome, script: seq<Turn>, modes: seq<Mode>, last: nat)
    requires outcome == Completed && EndedAt(st, outcome, script, modes, last)
    ensures AllDone(st, outcome, script, modes)
  {
    if last < |modes| { CompletedIsNotStopped(st, outcome, script, modes, last); }
  }

  lemma CompletedIsNotStopped(st: St, outcome: Outcome, script: seq<Turn>, modes: seq<Mode>, k: nat)
    requires k < |modes| && ReadTurn(modes, k) <= |script| && StoppedAt(st, outcome, script, modes, k)
    ensures outcome != Completed
  {}

  /** However a run stops, the steps that finished keep the rows of their success. */
  lemma FinishedStepsKeepRows(script: seq<Turn>, modes: seq<Mode>, k: nat)
    requires k < |modes| && forall j :: 0 <= j <= k ==> Finishes(script, modes, j)
    ensures var rows := Run(Start(script), modes, 0).0.rows; k + 1 in rows && rows[k + 1] == SuccessRow(script, modes, k)
  {
    var last := RunEnds(script, modes);
    assert k < last by { FinishedFirst(Finished(script, modes), last, k); }
    KeptRow(Run(Start(script), modes, 0).0.rows, script, modes, last, k);
  }

  lemma FinishedFirst(finished: seq<bool>, last: nat, k: nat)
    requires k < |finished| && LastOf(finished, last) && forall j :: 0 <= j <= k ==> finished[j]
    ensures k < last
  {}

  lemma KeptRow(rows: map<nat, AuditRow>, script: seq<Turn>, modes: seq<Mode>, last: nat, k: nat)
    requires k < last <= |modes|
    requires rows - {last + 1} == RowsAfter(script, modes, last) - {last + 1}
    ensures k + 1 in rows && rows[k + 1] == SuccessRow(script, modes, k)
  {
    RowsAfterAt(script, modes, last, k + 1);
    assert k + 1 in RowsAfter(script, modes, last) - {last + 1};
    assert k + 1 in rows - {last + 1};
  }
}
