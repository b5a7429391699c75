/** What reading the incident's status before each step is worth: no action without a live
    read, and at most one action started after the incident was resolved. */
module RemediationChecks {
  import opened Wrappers
  import opened Incidents
  import opened Remediation
  import opened RemediationSafety

  // ---- Every action was checked -------------------------------------------

  lemma {:induction false} LastCheckHasSource(trace: seq<Happening>) returns (j: nat)
    requires LastCheck(trace).Some?
    ensures j < |trace| && trace[j] == Checked(LastCheck(trace).value.0, LastCheck(trace).value.1)
    ensures forall i :: j < i < |trace| ==> !trace[i].Checked?
  {
    j := |trace| - 1;
    if !Latest(trace).Checked? {
      j := LastCheckHasSource(Init(trace));
    }
  }

  lemma RanWasChecked(trace: seq<Happening>, modes: seq<Mode>, n: nat, j: nat)
    requires j < n < |trace| && Lawful(trace, modes) && trace[n].Ran? && LastCheck(trace[..n]).Some?
    requires trace[j] == Checked(LastCheck(trace[..n]).value.0, LastCheck(trace[..n]).value.1)
    requires forall i :: j < i < n ==> !trace[i].Checked?
    ensures trace[j].Checked? && trace[j].step == trace[n].step && trace[j].status in {Open, Acknowledged}
    ensures forall i :: j < i < n && trace[i].Ran? ==> trace[i].step == trace[n].step
  {
    LawfulPrefix(trace, n + 1, modes);
    LawfulPrefix(trace, n, modes);
    forall i | j < i < n && trace[i].Ran? ensures trace[i].step == trace[n].step {
      LawfulPrefix(trace, i + 1, modes);
      LawfulPrefix(trace, i, modes);
      CheckStands(trace[..n], i, j);
      assert trace[..n][..i] == trace[..i];
    }
  }

  /** Before every run of a step's action the incident was read for that very step, after
      every earlier step, and was not resolved. */
  lemma EveryActionWasChecked(script: seq<Turn>, modes: seq<Mode>, n: nat) returns (j: nat)
    requires n < |TraceOf(script, modes)| && TraceOf(script, modes)[n].Ran?
    ensures var trace := TraceOf(script, modes);
      && j < n && trace[j].Checked? && trace[j].step == trace[n].step && trace[j].status in {Open, Acknowledged}
      && forall i :: j < i < n && trace[i].Ran? ==> trace[i].step == trace[n].step
  {
    EveryRunIsLawful(script, modes);
    j := LastCheckOfRan(TraceOf(script, modes), modes, n);
    RanWasChecked(TraceOf(script, modes), modes, n, j);
  }

  lemma LastCheckOfRan(trace: seq<Happening>, modes: seq<Mode>, n: nat) returns (j: nat)
    requires n < |trace| && Lawful(trace, modes) && trace[n].Ran?
    ensures LastCheck(trace[..n]).Some? && j < n
    ensures trace[j] == Checked(LastCheck(trace[..n]).value.0, LastCheck(trace[..n]).value.1)
    ensures forall i :: j < i < n ==> !trace[i].Checked?
  {
    LawfulPrefix(trace, n + 1, modes);
    LawfulPrefix(trace, n, modes);
    j := LastCheckHasSource(trace[..n]);
    assert forall i :: j < i < n ==> trace[..n][i] == trace[i];
  }

  /** Nothing was read between `j` and `i`, so the latest read is the same at both. */
  lemma {:induction false} CheckStands(trace: seq<Happening>, i: nat, j: nat)
    requires j < i <= |trace| && trace[j].Checked? && forall h :: j < h < |trace| ==> !trace[h].Checked?
    ensures LastCheck(trace[..i]) == Some((trace[j].step, trace[j].status))
    decreases i
  {
    assert Init(trace[..i]) == trace[..i - 1];
    if j < i - 1 {
      CheckStands(trace, i - 1, j);
    }
  }

  // ---- At most one action after the incident is resolved ---------------------

  /** Actions started while the database had the incident resolved. */
  function Late(trace: seq<Happening>): nat {
    if trace == [] then 0
    else Late(Init(trace)) + if Latest(trace).Began? && Latest(trace).db == Resolved then 1 else 0
  }

  /** The incident's status only moves forward over the script. */
  predicate Onward(script: seq<Turn>) { forall i :: 0 < i < |script| ==> Reaches(script[i - 1].db, script[i].db) }

  lemma LateNote(st: St, h: Happening)
    ensures Late(Note(st, h).trace) == Late(st.trace) + if h.Began? && h.db == Resolved then 1 else 0
  {
    Appended(st.trace, h);
  }

  /** Nothing late was started, and the environment is as far or one turn further. */
  predicate Quiet(a: St, b: St) {
    Late(b.trace) == Late(a.trace) && (b.script == a.script || (a.script != [] && b.script == a.script[1..]))
  }

  lemma {:induction false} DeliverQuiet(st: St, signals: seq<Signal>)
    ensures Late(Deliver(st, signals).trace) == Late(st.trace)
    decreases |signals|
  {
    if signals != [] {
      LateNote(st, Got(signals[0]));
      DeliverQuiet(Receive(st, signals[0]), signals[1..]);
    }
  }

  lemma WaitQuiet(st: St)
    requires st.script != []
    ensures Quiet(st, Wait(st)) && Wait(st).script == st.script[1..]
  {
    DeliverQuiet(st, st.script[0].signals);
  }

  lemma {:induction false} WriteQuiet(st: St, step: nat, row: AuditRow, attempts: seq<Attempt>)
    ensures var st' := WriteAttempts(st, step, row, attempts).0; Late(st'.trace) == Late(st.trace) && st'.script == st.script
    decreases |attempts|
  {
    if attempts != [] {
      LateNote(st.(rows := st.rows[step := row]), Wrote(step, row));
      WriteQuiet(
        if attempts[0].effect || attempts[0].acked then WriteRow(st, step, row) else st, step, row, attempts[1..]);
    }
  }

  lemma {:induction false} RunQuiet(st: St, step: nat, attempts: seq<Attempt>)
    ensures var st' := RunAttempts(st, step, attempts).0; Late(st'.trace) == Late(st.trace) && st'.script == st.script
    decreases |attempts|
  {
    if attempts != [] {
      LateNote(st, Ran(step));
      RunQuiet(if attempts[0].effect || attempts[0].acked then Note(st, Ran(step)) else st, step, attempts[1..]);
    }
  }

  lemma RecordQuiet(st: St, step: nat, row: AuditRow)
    ensures Quiet(st, Record(st, step, row).0)
  {
    if st.script != [] {
      WaitQuiet(st);
      WriteQuiet(Wait(st), step, row, Allowed(st.script[0].attempts));
    }
  }
}
