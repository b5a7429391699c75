/** The alert workflow: escalation levels, lossy signals, a database that is the
    authority, and an audit table that takes one row per notification id.

    As in the remediation workflow, a script lists what the environment does at each
    point where the workflow waits; `db` is the incident's status during that turn. */
module Alerting {
  import opened Incidents

  datatype Signal = AcknowledgeSignal | ResolveSignal

  datatype Reason = Escalation | Exhausted

  /** An audit row; its id is derived from the incident, the level and the reason. */
  datatype Notification = Notification(level: nat, reason: Reason, delivered: bool)

  /** One attempt of the send activity: whether the webhook was posted, what the post
      came to, whether the row was written and whether the workflow heard so. */
  datatype Attempt = Attempt(posted: bool, delivered: bool, written: bool, acked: bool)

  datatype Turn = Turn(signals: seq<Signal>, db: Status, reachable: bool, attempts: seq<Attempt>, cancelled: bool)

  const MAX_ATTEMPTS := 5

  datatype Outcome = Running | Completed | Errored

  datatype Happening =
    | Got(signal: Signal)
    | Read(status: Status)
    | Paged(level: nat, reason: Reason, db: Status)
    | Posted(level: nat, reason: Reason)
    | Wrote(note: Notification)
    | Closed(owned: bool)

  datatype St = St(acked: bool, resolved: bool, notes: seq<Notification>, trace: seq<Happening>, script: seq<Turn>) {
    predicate Owned() { acked || resolved }
  }

  function Start(script: seq<Turn>): St { St(false, false, [], [], script) }

  function Log(st: St, h: Happening): St { st.(trace := st.trace + [h]) }

  // ---- The environment ----------------------------------------------------

  function Receive(st: St, signal: Signal): St {
    match signal
    case AcknowledgeSignal => Log(st.(acked := true), Got(signal))
    case ResolveSignal => Log(st.(resolved := true), Got(signal))
  }

  function Deliver(st: St, signals: seq<Signal>): St
    decreases |signals|
  {
    if signals == [] then st else Deliver(Receive(st, signals[0]), signals[1..])
  }

  function Wait(st: St): St
    requires st.script != []
  {
    Deliver(st, st.script[0].signals).(script := st.script[1..])
  }

  predicate HasNote(notes: seq<Notification>, level: nat, reason: Reason) {
    exists i :: 0 <= i < |notes| && notes[i].level == level && notes[i].reason == reason
  }

  /** The insert does nothing when the id is already there. */
  function Insert(st: St, note: Notification): St {
    if HasNote(st.notes, note.level, note.reason) then st
    else Log(st.(notes := st.notes + [note]), Wrote(note))
  }

  function Allowed(attempts: seq<Attempt>): seq<Attempt> {
    if |attempts| <= MAX_ATTEMPTS then attempts else attempts[..MAX_ATTEMPTS]
  }

  /** One attempt: post, then record. The table refuses levels below one. */
  function Attempted(st: St, level: nat, reason: Reason, attempt: Attempt): St {
    var st1 := if attempt.posted then Log(st, Posted(level, reason)) else st;
    if (attempt.written || attempt.acked) && level >= 1
    then Insert(st1, Notification(level, reason, attempt.delivered)) else st1
  }

  function SendAttempts(st: St, level: nat, reason: Reason, attempts: seq<Attempt>): (St, bool)
    decreases |attempts|
  {
    if attempts == [] then (st, false)
    else
      var st' := Attempted(st, level, reason, attempts[0]);
      if attempts[0].acked && level >= 1 then (st', true) else SendAttempts(st', level, reason, attempts[1..])
  }

  datatype Reply = Blocked | Failure | Done

  function Send(st: St, level: nat, reason: Reason): (St, Reply) {
    if st.script == [] then (st, Blocked)
    else
      var st1 := Log(st, Paged(level, reason, st.script[0].db));
      var (st', ok) := SendAttempts(Wait(st1), level, reason, Allowed(st.script[0].attempts));
      (st', if ok then Done else Failure)
  }

  // ---- The escalation loop ------------------------------------------------

  datatype Flow = Continue(st: St) | Break(st: St) | Stop(st: St, outcome: Outcome)

  function See(st: St, status: Status): St {
    Log(st.(acked := st.acked || status == Acknowledged, resolved := st.resolved || status == Resolved), Read(status))
  }

  /** After the page went out: wait for an owner, at most the level's timeout. */
  function AwaitOwner(st: St): Flow {
    if st.script == [] then Stop(st, Running)
    else if st.script[0].cancelled then Stop(Wait(st), Errored)
    else if Wait(st).Owned() then Break(Wait(st))
    else Continue(Wait(st))
  }

  function PageLevel(st: St, level: nat): Flow {
    var (st', reply) := Send(st, level, Escalation);
    match reply
    case Blocked => Stop(st', Running)
    case Failure => Stop(st', Errored)
    case Done => AwaitOwner(st')
  }

  function OneLevel(st: St, level: nat): Flow {
    if st.script == [] then Stop(st, Running)
    else if !st.script[0].reachable then Stop(Wait(st), Errored)
    else
      var st1 := See(Wait(st), st.script[0].db);
      if st1.Owned() then Break(st1) else PageLevel(st1, level)
  }

  /** After the loop: record that nobody took ownership, if nobody did. */
  function Close(st: St, levels: nat): (St, Outcome) {
    var st1 := Log(st, Closed(st.Owned()));
    if st.Owned() then (st1, Completed)
    else
      var (st', reply) := Send(st1, levels, Exhausted);
      (st', match reply case Blocked => Running case Failure => Errored case Done => Completed)
  }

  function Run(st: St, levels: nat, i: nat): (St, Outcome)
    requires i <= levels
    decreases levels - i
  {
    if i == levels then Close(st, levels)
    else
      match OneLevel(st, i + 1)
      case Stop(st', outcome) => (st', outcome)
      case Break(st') => Close(st', levels)
      case Continue(st') => Run(st', levels, i + 1)
  }

  // ---- The workflow as written -------------------------------------------

  class Workflow {
    var acked: bool
    var resolved: bool
    var notes: seq<Notification>
    var trace: seq<Happening>
    var script: seq<Turn>

    function Now(): St
      reads this
    {
      St(acked, resolved, notes, trace, script)
    }

    constructor (script: seq<Turn>)
      ensures Now() == Start(script)
    {
      acked, resolved := false, false;
      notes, trace := [], [];
      this.script := script;
    }

    method AwaitTurn() returns (turn: Turn)
      requires script != []
      modifies this
      ensures turn == old(script)[0] && Now() == Wait(old(Now()))
    {
      turn := script[0];
      script := script[1..];
      for k := 0 to |turn.signals|
        invariant script == old(script)[1..]
        invariant Deliver(Now(), turn.signals[k..]) == Deliver(old(Now()).(script := old(script)[1..]), turn.signals)
      {
        match turn.signals[k] {
          case AcknowledgeSignal => acked := true;
          case ResolveSignal => resolved := true;
        }
        trace := trace + [Got(turn.signals[k])];
        assert turn.signals[k..][1..] == turn.signals[k + 1..];
      }
      DeliverKeepsScript(old(Now()), turn.signals, old(script)[1..]);
    }

    /** One attempt of the send activity. */
    method Attempt(attempt: Attempt, level: nat, reason: Reason)
      modifies this`notes, this`trace
      ensures Now() == Attempted(old(Now()), level, reason, attempt)
    {
      if attempt.posted {
        trace := trace + [Posted(level, reason)];
      }
      if (attempt.written || attempt.acked) && level >= 1 {
        if !HasNote(notes, level, reason) {
          notes := notes + [Notification(level, reason, attempt.delivered)];
          trace := trace + [Wrote(Notification(level, reason, attempt.delivered))];
        }
      }
    }

    /** Posts and records one notification, retrying until the record is acknowledged. */
    method SendNotification(level: nat, reason: Reason) returns (reply: Reply)
      modifies this
      ensures (Now(), reply) == Send(old(Now()), level, reason)
    {
      if script == [] { return Blocked; }
      trace := trace + [Paged(level, reason, script[0].db)];
      var turn := AwaitTurn();
      ghost var start, allowed := Now(), Allowed(turn.attempts);
      var k := 0;
      while k < MAX_ATTEMPTS && k < |turn.attempts|
        invariant k <= |allowed|
        invariant SendAttempts(Now(), level, reason, allowed[k..]) == SendAttempts(start, level, reason, allowed)
      {
        assert allowed[k..][1..] == allowed[k + 1..];
        Attempt(turn.attempts[k], level, reason);
        if turn.attempts[k].acked && level >= 1 { return Done; }
        k := k + 1;
      }
      reply := Failure;
    }

    /** Reads the incident, then pages one level and waits for an owner. */
    method Escalate(level: nat) returns (next: Turned)
      modifies this
      ensures OneLevel(old(Now()), level) == FlowOf(next, Now())
    {
      if script == [] { return End(Running); }
      var turn := AwaitTurn();
      if !turn.reachable { return End(Errored); }
      match turn.db {
        case Resolved => resolved := true;
        case Acknowledged => acked := true;
        case Open =>
      }
      trace := trace + [Read(turn.db)];
      if acked || resolved { return Out; }
      var reply := SendNotification(level, Escalation);
      if !reply.Done? { return End(if reply.Blocked? then Running else Errored); }
      if script == [] { return End(Running); }
      turn := AwaitTurn();
      if turn.cancelled { return End(Errored); }
      next := if acked || resolved then Out else On;
    }

    /** Records that nobody took ownership, if nobody did. */
    method Finish(levels: nat) returns (outcome: Outcome)
      modifies this
      ensures (Now(), outcome) == Close(old(Now()), levels)
    {
      trace := trace + [Closed(acked || resolved)];
      if !acked && !resolved {
        var reply := SendNotification(levels, Exhausted);
        if !reply.Done? { return if reply.Blocked? then Running else Errored; }
      }
      outcome := Completed;
    }

    method IncidentAlertWorkflow(levels: nat) returns (outcome: Outcome)
      modifies this
      ensures (Now(), outcome) == Run(old(Now()), levels, 0)
    {
      var i := 0;
      while i < levels
        invariant i <= levels
        invariant Run(Now(), levels, i) == Run(old(Now()), levels, 0)
      {
        var next := Escalate(i + 1);
        if next.End? { return next.outcome; }
        if next.Out? { break; }
        i := i + 1;
      }
      assert Close(Now(), levels) == Run(old(Now()), levels, 0);
      outcome := Finish(levels);
    }
  }

  /** How a level left the loop: on to the next, out of it, or out of the run. */
  datatype Turned = On | Out | End(outcome: Outcome)

  function FlowOf(next: Turned, st: St): Flow {
    match next
    case On => Continue(st)
    case Out => Break(st)
    case End(outcome) => Stop(st, outcome)
  }

  lemma {:induction false} DeliverKeepsScript(st: St, signals: seq<Signal>, rest: seq<Turn>)
    ensures Deliver(st.(script := rest), signals) == Deliver(st, signals).(script := rest)
    decreases |signals|
  {
    if signals != [] { DeliverKeepsScript(Receive(st, signals[0]), signals[1..], rest); }
  }
}
