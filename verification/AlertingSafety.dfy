/** What every run of the alert workflow keeps, at every point of it. */
module AlertingSafety {
  import opened Wrappers
  import opened Incidents
  import opened Alerting

  function Init(trace: seq<Happening>): seq<Happening>
    requires trace != []
  { trace[..|trace| - 1] }

  function Latest(trace: seq<Happening>): Happening
    requires trace != []
  { trace[|trace| - 1] }

  // ---- Reading a trace ----------------------------------------------------

  /** A signal has arrived, or the incident was read as no longer open. */
  predicate OwnerKnown(trace: seq<Happening>) {
    trace != [] &&
    match Latest(trace)
    case Got(_) => true
    case Read(status) => status != Open || OwnerKnown(Init(trace))
    case _ => OwnerKnown(Init(trace))
  }

  function LastPage(trace: seq<Happening>): Option<(nat, Reason)> {
    if trace == [] then None
    else
      match Latest(trace)
      case Paged(level, reason, _) => Some((level, reason))
      case _ => LastPage(Init(trace))
  }

  function LastRead(trace: seq<Happening>): Option<Status> {
    if trace == [] then None
    else
      match Latest(trace)
      case Read(status) => Some(status)
      case _ => LastRead(Init(trace))
  }

  /** How many levels have been paged. */
  function LevelsPaged(trace: seq<Happening>): nat {
    if trace == [] then 0
    else LevelsPaged(Init(trace)) + (if Latest(trace).Paged? && Latest(trace).reason == Escalation then 1 else 0)
  }

  /** How many levels were paged while the database no longer had the incident open. */
  function LatePages(trace: seq<Happening>): nat {
    if trace == [] then 0
    else
      LatePages(Init(trace))
      + (if Latest(trace).Paged? && Latest(trace).reason == Escalation && Latest(trace).db != Open then 1 else 0)
  }

  function NotesOf(trace: seq<Happening>): seq<Notification> {
    if trace == [] then []
    else
      match Latest(trace)
      case Wrote(note) => NotesOf(Init(trace)) + [note]
      case _ => NotesOf(Init(trace))
  }

  function ClosedAs(trace: seq<Happening>): Option<bool> {
    if trace == [] then None
    else
      match Latest(trace)
      case Closed(owned) => Some(owned)
      case _ => ClosedAs(Init(trace))
  }

  // ---- What each happening may be -----------------------------------------

  /** One row for each of the levels `1..k`, in order, and nothing else. */
  ghost predicate Climbed(notes: seq<Notification>, k: nat) {
    |notes| == k && forall i :: 0 <= i < k ==> notes[i].level == i + 1 && notes[i].reason == Escalation
  }

  ghost predicate MayPage(before: seq<Happening>, level: nat, reason: Reason, levels: nat, onward: bool) {
    match reason
    case Escalation =>
      && level == LevelsPaged(before) + 1 <= levels && Climbed(NotesOf(before), level - 1)
      && !OwnerKnown(before) && LastRead(before) == Some(Open) && ClosedAs(before).None?
      && (onward ==> LatePages(before) == 0)
    case Exhausted =>
      level == levels && ClosedAs(before) == Some(false)
      && (LastPage(before).Some? ==> LastPage(before).value.1 != Exhausted)
  }

  ghost predicate MayWrite(before: seq<Happening>, note: Notification, levels: nat) {
    && note.level >= 1 && LastPage(before) == Some((note.level, note.reason))
    && match note.reason
       case Escalation => Climbed(NotesOf(before), note.level - 1) && ClosedAs(before).None?
       case Exhausted => Climbed(NotesOf(before), levels) && note.level == levels && ClosedAs(before) == Some(false)
  }

  /** `onward` says the incident's status in the database only ever moves forward. */
  ghost predicate Lawful(trace: seq<Happening>, levels: nat, onward: bool) {
    trace == [] ||
    (Lawful(Init(trace), levels, onward) &&
     match Latest(trace)
     case Got(_) => true
     case Read(_) => ClosedAs(Init(trace)).None?
     case Paged(level, reason, _) => MayPage(Init(trace), level, reason, levels, onward)
     case Posted(level, reason) => LastPage(Init(trace)) == Some((level, reason))
     case Wrote(note) => MayWrite(Init(trace), note, levels)
     case Closed(owned) =>
       && ClosedAs(Init(trace)).None? && owned == OwnerKnown(Init(trace))
       && (!owned ==> Climbed(NotesOf(Init(trace)), levels))
       && (LastPage(Init(trace)).Some? ==> LastPage(Init(trace)).value.1 == Escalation))
  }

  /** Statuses seen over the rest of the script only move forward from `from`. */
  predicate OnwardFrom(from: Status, script: seq<Turn>)
    decreases |script|
  {
    script == [] || (Reaches(from, script[0].db) && OnwardFrom(script[0].db, script[1..]))
  }

  predicate NeverOpen(script: seq<Turn>) {
    forall i :: 0 <= i < |script| ==> script[i].db != Open
  }

  lemma {:induction false} OnwardNeverReopens(from: Status, script: seq<Turn>)
    requires OnwardFrom(from, script) && from != Open
    ensures NeverOpen(script)
    decreases |script|
  {
    if script != [] {
      OnwardNeverReopens(script[0].db, script[1..]);
      assert forall i :: 1 <= i < |script| ==> script[i] == script[1..][i - 1];
    }
  }

  lemma OnwardTail(script: seq<Turn>)
    requires script != [] && OnwardFrom(script[0].db, script)
    ensures |script| > 1 ==> OnwardFrom(script[1].db, script[1..])
  {
    var rest := script[1..];
    if rest != [] {
      assert OnwardFrom(script[0].db, rest);
      assert OnwardFrom(rest[0].db, rest[1..]);
    }
  }

  /** The variables say what the trace says. */
  ghost predicate Coherent(st: St, levels: nat, onward: bool) {
    && Lawful(st.trace, levels, onward)
    && st.Owned() == OwnerKnown(st.trace)
    && st.notes == NotesOf(st.trace)
    && (onward ==>
          && (st.script != [] ==> OnwardFrom(st.script[0].db, st.script))
          && (LatePages(st.trace) > 0 ==> NeverOpen(st.script)))
  }

  /** Only signals have arrived in between. */
  ghost predicate SameProgress(a: St, b: St) {
    && NotesOf(a.trace) == NotesOf(b.trace) && LastPage(a.trace) == LastPage(b.trace)
    && LevelsPaged(a.trace) == LevelsPaged(b.trace) && LatePages(a.trace) == LatePages(b.trace)
    && LastRead(a.trace) == LastRead(b.trace) && ClosedAs(a.trace) == ClosedAs(b.trace)
  }

  lemma Appended(trace: seq<Happening>, h: Happening)
    ensures Init(trace + [h]) == trace && Latest(trace + [h]) == h
  {}

  lemma {:induction false} DeliverCoherent(st: St, signals: seq<Signal>, levels: nat, onward: bool)
    requires Coherent(st, levels, onward)
    ensures Coherent(Deliver(st, signals), levels, onward) && SameProgress(st, Deliver(st, signals))
    decreases |signals|
  {
    if signals != [] {
      Appended(st.trace, Got(signals[0]));
      DeliverCoherent(Receive(st, signals[0]), signals[1..], levels, onward);
    }
  }

  lemma WaitCoherent(st: St, levels: nat, onward: bool)
    requires Coherent(st, levels, onward) && st.script != []
    ensures Coherent(Wait(st), levels, onward) && SameProgress(st, Wait(st))
    ensures Wait(st).script == st.script[1..]
  {
    DeliverCoherent(st, st.script[0].signals, levels, onward);
    if onward { OnwardTail(st.script); }
    DeliverKeepsScript(st, st.script[0].signals, st.script);
  }

  // ---- Sending ------------------------------------------------------------

  /** The audit rows before the page in hand, and with it. */
  ghost predicate Sending(st: St, base: seq<Notification>, level: nat, reason: Reason) {
    && LastPage(st.trace) == Some((level, reason))
    && (reason == Escalation ==> ClosedAs(st.trace).None? && level >= 1 && Climbed(base, level - 1))
    && (reason == Exhausted ==> ClosedAs(st.trace) == Some(false) && Climbed(base, level))
    && (st.notes == base
        || (|st.notes| == |base| + 1 && st.notes[..|base|] == base
            && st.notes[|base|].level == level && st.notes[|base|].reason == reason))
  }

  lemma AttemptCoherent(st: St, base: seq<Notification>, level: nat, reason: Reason, attempt: Attempt, levels: nat, onward: bool)
    requires Coherent(st, levels, onward) && Sending(st, base, level, reason)
    requires level <= levels && (reason == Exhausted ==> level == levels)
    ensures var st' := Attempted(st, level, reason, attempt);
      && Coherent(st', levels, onward) && Sending(st', base, level, reason)
      && LevelsPaged(st'.trace) == LevelsPaged(st.trace)
      && (attempt.acked && level >= 1 ==> |st'.notes| == |base| + 1)
  {
    var st1 := if attempt.posted then Log(st, Posted(level, reason)) else st;
    Appended(st.trace, Posted(level, reason));
    assert Coherent(st1, levels, onward) && Sending(st1, base, level, reason);
    InsertCoherent(st1, base, Notification(level, reason, attempt.delivered), levels, onward);
  }

  lemma InsertCoherent(st: St, base: seq<Notification>, note: Notification, levels: nat, onward: bool)
    requires Coherent(st, levels, onward) && Sending(st, base, note.level, note.reason)
    requires note.level <= levels && (note.reason == Exhausted ==> note.level == levels)
    ensures note.level >= 1 ==> var st' := Insert(st, note);
      && Coherent(st', levels, onward) && Sending(st', base, note.level, note.reason)
      && LevelsPaged(st'.trace) == LevelsPaged(st.trace) && |st'.notes| == |base| + 1
  {
    Appended(st.trace, Wrote(note));
    if st.notes != base {
      assert st.notes[|base|].level == note.level && st.notes[|base|].reason == note.reason;
      assert HasNote(st.notes, note.level, note.reason);
    } else {
      assert !HasNote(st.notes, note.level, note.reason);
    }
  }

  lemma {:induction false} SendAttemptsCoherent(st: St, base: seq<Notification>, level: nat, reason: Reason,
                                                attempts: seq<Attempt>, levels: nat, onward: bool)
    requires Coherent(st, levels, onward) && Sending(st, base, level, reason)
    requires level <= levels && (reason == Exhausted ==> level == levels)
    ensures var (st', done) := SendAttempts(st, level, reason, attempts);
      && Coherent(st', levels, onward) && Sending(st', base, level, reason)
      && LevelsPaged(st'.trace) == LevelsPaged(st.trace)
      && (done ==> |st'.notes| == |base| + 1)
    decreases |attempts|
  {
    if attempts != [] {
      AttemptCoherent(st, base, level, reason, attempts[0], levels, onward);
      SendAttemptsCoherent(Attempted(st, level, reason, attempts[0]), base, level, reason, attempts[1..], levels, onward);
    }
  }

  lemma PagedCoherent(st: St, level: nat, reason: Reason, levels: nat, onward: bool)
    requires Coherent(st, levels, onward) && st.script != [] && MayPage(st.trace, level, reason, levels, onward)
    requires reason == Exhausted ==> Climbed(st.notes, levels)
    ensures var st' := Wait(Log(st, Paged(level, reason, st.script[0].db)));
      && Coherent(st', levels, onward) && Sending(st', st.notes, level, reason)
      && LevelsPaged(st'.trace) == LevelsPaged(st.trace) + if reason == Escalation then 1 else 0
  {
    Appended(st.trace, Paged(level, reason, st.script[0].db));
    var st1 := Log(st, Paged(level, reason, st.script[0].db));
    if onward && LatePages(st1.trace) > LatePages(st.trace) {
      OnwardNeverReopens(st.script[0].db, st.script);
    }
    WaitCoherent(st1, levels, onward);
  }

  /** What one send activity does to a coherent run, whatever its reply. */
  lemma SentFacts(st: St, level: nat, reason: Reason, levels: nat, onward: bool)
    requires Coherent(st, levels, onward) && MayPage(st.trace, level, reason, levels, onward)
    requires reason == Exhausted ==> Climbed(st.notes, levels)
    requires st.script != []
    ensures var (st', reply) := Send(st, level, reason);
      && Coherent(st', levels, onward) && Sending(st', st.notes, level, reason)
      && LevelsPaged(st'.trace) == LevelsPaged(st.trace) + (if reason == Escalation then 1 else 0)
      && (reply.Done? ==> |st'.notes| == |st.notes| + 1)
  {
    var st1 := Wait(Log(st, Paged(level, reason, st.script[0].db)));
    PagedCoherent(st, level, reason, levels, onward);
    SendAttemptsCoherent(st1, st.notes, level, reason, Allowed(st.script[0].attempts), levels, onward);
  }

  lemma SentIsReady(st: St, base: seq<Notification>, level: nat, levels: nat, onward: bool)
    requires Coherent(st, levels, onward) && Sending(st, base, level, Escalation) && level <= levels
    requires |st.notes| == |base| + 1 && LevelsPaged(st.trace) == level
    ensures Ready(st, level, levels, onward)
  {
    assert st.notes == base + [st.notes[|base|]];
  }

  lemma SendCoherent(st: St, level: nat, reason: Reason, levels: nat, onward: bool)
    requires Coherent(st, levels, onward) && MayPage(st.trace, level, reason, levels, onward)
    requires reason == Exhausted ==> Climbed(st.notes, levels)
    ensures var (st', reply) := Send(st, level, reason);
      && Coherent(st', levels, onward)
      && (reply.Done? && reason == Escalation ==> Ready(st', level, levels, onward))
      && (reply.Done? && reason == Exhausted ==> |st'.notes| == levels + 1)
  {
    if st.script != [] {
      SentFacts(st, level, reason, levels, onward);
      var (st', reply) := Send(st, level, reason);
      if reply.Done? && reason == Escalation { SentIsReady(st', st.notes, level, levels, onward); }
    }
  }

  // ---- Level by level -----------------------------------------------------

  /** `k` levels are paged and recorded, and the loop goes on. */
  ghost predicate Ready(st: St, k: nat, levels: nat, onward: bool) {
    && Coherent(st, levels, onward) && k <= levels
    && LevelsPaged(st.trace) == k && Climbed(st.notes, k) && ClosedAs(st.trace).None?
    && (LastPage(st.trace).Some? ==> LastPage(st.trace).value.1 == Escalation)
  }

  lemma WaitKeepsReady(st: St, k: nat, levels: nat, onward: bool)
    requires Ready(st, k, levels, onward) && st.script != []
    ensures Ready(Wait(st), k, levels, onward)
  {
    WaitCoherent(st, levels, onward);
  }

  lemma SeeKeepsReady(st: St, k: nat, levels: nat, onward: bool, status: Status)
    requires Ready(st, k, levels, onward)
    ensures Ready(See(st, status), k, levels, onward)
    ensures LastRead(See(st, status).trace) == Some(status)
    ensures LatePages(See(st, status).trace) == LatePages(st.trace)
  {
    Appended(st.trace, Read(status));
  }

  lemma AwaitOwnerCoherent(st: St, k: nat, levels: nat, onward: bool)
    requires Ready(st, k, levels, onward)
    ensures var flow := AwaitOwner(st);
      && Ready(flow.st, k, levels, onward)
      && (flow.Continue? ==> !flow.st.Owned()) && (flow.Break? ==> flow.st.Owned())
      && (flow.Stop? ==> flow.outcome != Completed)
  {
    if st.script != [] {
      WaitKeepsReady(st, k, levels, onward);
    }
  }

  lemma PageLevelCoherent(st: St, k: nat, levels: nat, onward: bool)
    requires Ready(st, k, levels, onward) && k < levels && MayPage(st.trace, k + 1, Escalation, levels, onward)
    ensures var flow := PageLevel(st, k + 1);
      && Coherent(flow.st, levels, onward)
      && (flow.Continue? || flow.Break? ==> Ready(flow.st, k + 1, levels, onward))
      && (flow.Continue? ==> !flow.st.Owned()) && (flow.Break? ==> flow.st.Owned())
      && (flow.Stop? ==> flow.outcome != Completed)
  {
    SendCoherent(st, k + 1, Escalation, levels, onward);
    var (st', reply) := Send(st, k + 1, Escalation);
    if reply.Done? {
      AwaitOwnerCoherent(st', k + 1, levels, onward);
    }
  }

  lemma OneLevelCoherent(st: St, k: nat, levels: nat, onward: bool)
    requires Ready(st, k, levels, onward) && k < levels && !st.Owned()
    ensures var flow := OneLevel(st, k + 1);
      && Coherent(flow.st, levels, onward)
      && (flow.Continue? ==> Ready(flow.st, k + 1, levels, onward) && !flow.st.Owned())
      && (flow.Break? ==> flow.st.Owned() && (Ready(flow.st, k, levels, onward) || Ready(flow.st, k + 1, levels, onward)))
      && (flow.Stop? ==> flow.outcome != Completed)
  {
    if st.script != [] {
      WaitKeepsReady(st, k, levels, onward);
      WaitCoherent(st, levels, onward);
      var db := st.script[0].db;
      SeeKeepsReady(Wait(st), k, levels, onward, db);
      var st1 := See(Wait(st), db);
      if st.script[0].reachable && !st1.Owned() {
        PageLevelCoherent(st1, k, levels, onward);
      }
    }
  }

  lemma CloseCoherent(st: St, k: nat, levels: nat, onward: bool)
    requires Ready(st, k, levels, onward) && (!st.Owned() ==> k == levels)
    ensures var (st', outcome) := Close(st, levels);
      && Coherent(st', levels, onward)
      && (outcome == Completed ==> |st'.notes| == if st.Owned() then k else levels + 1)
      && (outcome == Completed ==> (st.Owned() <==> Climbed(st'.notes, k)))
  {
    Appended(st.trace, Closed(st.Owned()));
    if !st.Owned() {
      SendCoherent(Log(st, Closed(false)), levels, Exhausted, levels, onward);
    }
  }

  lemma {:induction false} RunIsLawful(st: St, k: nat, levels: nat, onward: bool)
    requires Ready(st, k, levels, onward) && !st.Owned()
    ensures Coherent(Run(st, levels, k).0, levels, onward)
    decreases levels - k
  {
    if k == levels {
      CloseCoherent(st, k, levels, onward);
    } else {
      OneLevelCoherent(st, k, levels, onward);
      var flow := OneLevel(st, k + 1);
      match flow
      case Stop(_, _) =>
      case Break(st') =>
        if Ready(st', k, levels, onward) {
          CloseCoherent(st', k, levels, onward);
        } else {
          CloseCoherent(st', k + 1, levels, onward);
        }
      case Continue(st') => RunIsLawful(st', k + 1, levels, onward);
    }
  }

  // ---- Results ------------------------------------------------------------

  function TraceOf(script: seq<Turn>, levels: nat): seq<Happening> { Run(Start(script), levels, 0).0.trace }

  predicate Onward(script: seq<Turn>) { script == [] || OnwardFrom(script[0].db, script) }

  lemma EveryRunIsLawful(script: seq<Turn>, levels: nat)
    ensures Lawful(TraceOf(script, levels), levels, Onward(script))
    ensures Run(Start(script), levels, 0).0.notes == NotesOf(TraceOf(script, levels))
  {
    RunIsLawful(Start(script), 0, levels, Onward(script));
  }

  lemma {:induction false} LawfulPrefix(trace: seq<Happening>, n: nat, levels: nat, onward: bool)
    requires n <= |trace| && Lawful(trace, levels, onward)
    ensures Lawful(trace[..n], levels, onward)
    ensures n < |trace| ==> Init(trace[..n + 1]) == trace[..n] && Latest(trace[..n + 1]) == trace[n]
    decreases |trace|
  {
    if n < |trace| {
      assert Init(trace)[..n] == trace[..n];
      LawfulPrefix(Init(trace), n, levels, onward);
    } else {
      assert trace[..n] == trace;
    }
  }

  /** The audit rows: levels `1..k` in order, then perhaps one "exhausted" row for the
      last level, and only when every level had its page. */
  ghost predicate AuditShape(notes: seq<Notification>, k: nat, levels: nat) {
    || Climbed(notes, k)
    || (k == levels && |notes| == k + 1 && Climbed(notes[..k], k)
        && notes[k].level == levels && notes[k].reason == Exhausted)
  }

  lemma {:induction false} LawfulAuditShape(trace: seq<Happening>, levels: nat, onward: bool) returns (k: nat)
    requires Lawful(trace, levels, onward)
    ensures k <= levels && AuditShape(NotesOf(trace), k, levels)
    ensures LastPage(trace).Some? ==> LastPage(trace).value.0 <= levels
    ensures LevelsPaged(trace) <= levels && LatePages(trace) <= LevelsPaged(trace)
    ensures (exists i :: 0 <= i < |NotesOf(trace)| && NotesOf(trace)[i].reason == Exhausted) ==> ClosedAs(trace) == Some(false)
    ensures onward ==> LatePages(trace) <= 1
    decreases |trace|
  {
    k := 0;
    if trace != [] {
      k := LawfulAuditShape(Init(trace), levels, onward);
      if Latest(trace).Wrote? {
        var note := Latest(trace).note;
        if note.reason == Escalation {
          k := note.level;
        } else {
          k := levels;
          assert NotesOf(trace)[..k] == NotesOf(Init(trace));
        }
      }
    }
  }

  /** At every point of every run, the recorded pages are levels `1..k` in order with
      one row each, followed at most by one "exhausted" row once all levels are paged. */
  lemma RecordedPagesClimbInOrder(script: seq<Turn>, levels: nat, n: nat)
    requires n <= |TraceOf(script, levels)|
    ensures exists k: nat :: k <= levels && AuditShape(NotesOf(TraceOf(script, levels)[..n]), k, levels)
  {
    EveryRunIsLawful(script, levels);
    LawfulPrefix(TraceOf(script, levels), n, levels, Onward(script));
    var k := LawfulAuditShape(TraceOf(script, levels)[..n], levels, Onward(script));
  }

  /** However signals are lost, once the database has the incident acknowledged or
      resolved at most one further level is paged. */
  lemma AtMostOneLatePage(script: seq<Turn>, levels: nat)
    requires Onward(script)
    ensures LatePages(TraceOf(script, levels)) <= 1
  {
    EveryRunIsLawful(script, levels);
    var k := LawfulAuditShape(TraceOf(script, levels), levels, true);
  }

  lemma {:induction false} OwnerStaysKnown(trace: seq<Happening>, n: nat)
    requires n <= |trace| && OwnerKnown(trace[..n])
    ensures OwnerKnown(trace)
    decreases |trace|
  {
    if n < |trace| {
      assert Init(trace)[..n] == trace[..n];
      OwnerStaysKnown(Init(trace), n);
    } else {
      assert trace[..n] == trace;
    }
  }

  /** After a signal arrives, or a check reads the incident as acknowledged or
      resolved, no further level is paged. */
  lemma NoPageOnceOwned(script: seq<Turn>, levels: nat, n: nat, p: nat)
    requires n <= p < |TraceOf(script, levels)| && OwnerKnown(TraceOf(script, levels)[..n])
    ensures var h := TraceOf(script, levels)[p]; !(h.Paged? && h.reason == Escalation)
  {
    var trace := TraceOf(script, levels);
    EveryRunIsLawful(script, levels);
    LawfulPrefix(trace, p + 1, levels, Onward(script));
    LawfulPrefix(trace, p, levels, Onward(script));
    assert trace[..p][..n] == trace[..n];
    OwnerStaysKnown(trace[..p], n);
  }

  predicate HasExhausted(notes: seq<Notification>) {
    exists i :: 0 <= i < |notes| && notes[i].reason == Exhausted
  }

  lemma {:induction false} CompletedRun(st: St, k: nat, levels: nat)
    requires Ready(st, k, levels, false) && !st.Owned() && Run(st, levels, k).1 == Completed
    ensures var st' := Run(st, levels, k).0;
      && ClosedAs(st'.trace).Some?
      && (HasExhausted(st'.notes) <==> ClosedAs(st'.trace) == Some(false))
    decreases levels - k
  {
    if k == levels {
      CloseCompleted(st, k, levels);
    } else {
      OneLevelCoherent(st, k, levels, false);
      match OneLevel(st, k + 1)
      case Stop(_, _) =>
      case Break(st') => CloseCompleted(st', if Ready(st', k, levels, false) then k else k + 1, levels);
      case Continue(st') => CompletedRun(st', k + 1, levels);
    }
  }

  lemma CloseCompleted(st: St, k: nat, levels: nat)
    requires Ready(st, k, levels, false) && (!st.Owned() ==> k == levels) && Close(st, levels).1 == Completed
    ensures var st' := Close(st, levels).0;
      && ClosedAs(st'.trace) == Some(st.Owned())
      && (HasExhausted(st'.notes) <==> !st.Owned())
  {
    CloseCoherent(st, k, levels, false);
    Appended(st.trace, Closed(st.Owned()));
    if !st.Owned() {
      var st1 := Log(st, Closed(false));
      var s := Wait(Log(st1, Paged(levels, Exhausted, st1.script[0].db)));
      PagedCoherent(st1, levels, Exhausted, levels, false);
      SendAttemptsCoherent(s, st1.notes, levels, Exhausted, Allowed(st1.script[0].attempts), levels, false);
    }
  }

  /** An error-free run writes an "exhausted" row exactly when, at the end of the
      escalation loop, no signal had arrived and every check had read "open". */
  lemma ExhaustedExactlyWhenUnowned(script: seq<Turn>, levels: nat)
    requires Run(Start(script), levels, 0).1 == Completed
    ensures var trace := TraceOf(script, levels);
      exists c :: 0 <= c < |trace| && trace[c].Closed?
        && (HasExhausted(NotesOf(trace)) <==> !OwnerKnown(trace[..c]))
  {
    var trace := TraceOf(script, levels);
    EveryRunIsLawful(script, levels);
    CompletedRun(Start(script), 0, levels);
    var c := ClosedPoint(trace);
    LawfulPrefix(trace, c + 1, levels, Onward(script));
  }

  lemma {:induction false} ClosedPoint(trace: seq<Happening>) returns (c: nat)
    requires ClosedAs(trace).Some?
    ensures c < |trace| && trace[c] == Closed(ClosedAs(trace).value)
    ensures Init(trace[..c + 1]) == trace[..c] && Latest(trace[..c + 1]) == trace[c]
  {
    c := |trace| - 1;
    if !Latest(trace).Closed? {
      c := ClosedPoint(Init(trace));
      assert Init(trace)[..c + 1] == trace[..c + 1];
    }
  }

  /** The trap: the database is not read again after the last level times out, so an
      acknowledgement whose signal was lost still ends as "exhausted". */
  lemma ExhaustedDespiteAcknowledgement() returns (script: seq<Turn>)
    ensures |script| == 4 && script[2].db == Acknowledged && Onward(script)
    ensures var (st, outcome) := Run(Start(script), 1, 0);
      outcome == Completed && HasExhausted(st.notes)
  {
    var once := [Attempt(true, true, true, true)];
    script := [Turn([], Open, true, [], false), Turn([], Open, true, once, false),
               Turn([], Acknowledged, true, [], false), Turn([], Acknowledged, true, once, false)];
    assert script[1..][1..] == script[2..] && script[2..][1..] == script[3..];
    assert script[3..][1..] == [];
    assert OnwardFrom(Acknowledged, script[3..]);
    assert OnwardFrom(Open, script[2..]);
    assert OnwardFrom(Open, script[1..]);
    var page, last := Notification(1, Escalation, true), Notification(1, Exhausted, true);
    var s0 := Start(script);
    var s1 := See(Wait(s0), Open);
    var s2 := Wait(Log(s1, Paged(1, Escalation, Open)));
    var s3 := Insert(Log(s2, Posted(1, Escalation)), page);
    assert Send(s1, 1, Escalation) == (s3, Done);
    var s4 := Wait(s3);
    assert OneLevel(s0, 1) == Continue(s4) && s4.notes == [page];
    var s5 := Wait(Log(Log(s4, Closed(false)), Paged(1, Exhausted, Acknowledged)));
    var s6 := Insert(Log(s5, Posted(1, Exhausted)), last);
    assert !HasNote([page], 1, Exhausted);
    assert Close(s4, 1) == (s6, Completed) && s6.notes == [page, last];
    assert s6.notes[1].reason == Exhausted;
    assert Run(s4, 1, 1) == Close(s4, 1);
  }
}
