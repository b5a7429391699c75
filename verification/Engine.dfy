/** One consumer as it runs: poll, process with retries, commit, repeat, while every
    other member, the coordinator and the producers do as they please in between. */
module Engine {
  import opened Pipeline
  import opened PipelineSafety

  datatype Outcome = Stored | Duplicate | Discarded | Failed

  /** What the store's insert came back with. */
  datatype InsertReply = Inserted(isNew: bool) | Transient | Permanent

  /** Steps this member takes itself; handing it a partition is the coordinator's. */
  predicate ActsFor(step: Step, c: nat) {
    match step
    case Join(d) => d == c
    case Poll(d, _) => d == c
    case Discard(d) => d == c
    case Accept(d) => d == c
    case Insert(d, _, _) => d == c
    case Commit(d) => d == c
    case CommitFailed(d, _) => d == c
    case Crash(d) => d == c
    case _ => false
  }

  /** The history went on from `before`, and `c` neither polled nor committed meanwhile. */
  ghost predicate Uncommitted(c: nat, before: seq<Step>, after: seq<Step>) {
    && before <= after
    && forall i :: |before| <= i < |after| ==> after[i] != Commit(c) && !CommitFailedBy(c, after[i]) && !PolledBy(c, after[i])
  }

  predicate PolledBy(c: nat, step: Step) { step.Poll? && step.c == c }

  predicate CommitFailedBy(c: nat, step: Step) { step.CommitFailed? && step.c == c }

  /** The history went on from `before` without `c` taking part. */
  ghost predicate WithoutTaking(c: nat, before: seq<Step>, after: seq<Step>) {
    before <= after && forall i :: |before| <= i < |after| ==> !ActsFor(after[i], c)
  }

  /** `c` is as far through the same batch as before. */
  predicate SameWork(c: nat, a: Sys, b: Sys) {
    && c in a.members && c in b.members
    && b.members[c].(positions := a.members[c].positions) == a.members[c]
  }

  /** The insert statements `c` has issued. */
  ghost function Inserts(c: nat, steps: seq<Step>): nat {
    if steps == [] then 0
    else
      Inserts(c, steps[..|steps| - 1]) + if steps[|steps| - 1].Insert? && steps[|steps| - 1].c == c then 1 else 0
  }

  lemma {:induction false} IdleIssuesNothing(c: nat, before: seq<Step>, after: seq<Step>)
    requires WithoutTaking(c, before, after)
    ensures Inserts(c, after) == Inserts(c, before) && Uncommitted(c, before, after)
    decreases |after|
  {
    if before == after {
    } else {
      assert before <= after[..|after| - 1] && !ActsFor(after[|after| - 1], c);
      IdleIssuesNothing(c, before, after[..|after| - 1]);
    }
  }

  lemma IssuesOne(c: nat, steps: seq<Step>, step: Step)
    ensures Inserts(c, steps + [step]) == Inserts(c, steps) + if step.Insert? && step.c == c then 1 else 0
  {
    assert (steps + [step])[..|steps|] == steps;
  }

  /** What a member may rely on about the batch in its hands. */
  ghost predicate Held(cfg: Config, s: Sys, m: Member) {
    && m.done <= |m.batch|
    && (forall i :: 0 <= i < |m.batch| ==> m.batch[i].1 < |Log(s, m.batch[i].0)|)
    && (forall i :: 0 <= i < m.done ==> Settled(cfg, s, m.batch[i]))
  }

  /** Everything done to the broker and the database so far. */
  ghost predicate History(cfg: Config, start: Sys, steps: seq<Step>, sys: Sys) {
    Sensible(cfg) && start == Start(start.clock) && IsRun(cfg, start, steps) && Exec(cfg, start, steps) == sys
  }

  lemma HeldAlways(cfg: Config, start: Sys, steps: seq<Step>, sys: Sys, c: nat)
    requires History(cfg, start, steps, sys) && c in sys.members
    ensures Held(cfg, sys, sys.members[c])
  {
    StartSound(cfg, start.clock);
    RunKeepsInv(cfg, start, steps);
    assert MemberSound(cfg, sys, c, sys.members[c]);
  }

  /** A record judged valid has a row to store. */
  lemma JudgedHasRow(cfg: Config, start: Sys, steps: seq<Step>, sys: Sys, c: nat)
    requires History(cfg, start, steps, sys) && Processing(sys, c) && sys.members[c].judged
    ensures cfg.store(At(sys, Current(sys, c))).Some?
  {
    StartSound(cfg, start.clock);
    RunKeepsInv(cfg, start, steps);
    JudgedIsAccepted(cfg, sys, c);
  }

  lemma {:induction false} RunSince(cfg: Config, s: Sys, from: seq<Step>, steps: seq<Step>)
    requires Sensible(cfg) && Inv(cfg, s) && IsRun(cfg, s, from) && IsRun(cfg, s, steps) && from <= steps
    ensures Grows(Exec(cfg, s, from), Exec(cfg, s, steps))
    ensures forall p :: Committed(Exec(cfg, s, from), p) <= Committed(Exec(cfg, s, steps), p)
    decreases |from|
  {
    if from == [] {
      RunKeepsInv(cfg, s, steps);
    } else {
      StepKeepsInv(cfg, s, steps[0]);
      RunSince(cfg, Next(cfg, s, steps[0]), from[1..], steps[1..]);
    }
  }

  lemma Outlasts(cfg: Config, start: Sys, from: seq<Step>, before: Sys, steps: seq<Step>, sys: Sys)
    requires History(cfg, start, from, before) && History(cfg, start, steps, sys) && from <= steps
    ensures Grows(before, sys)
    ensures forall at :: Settled(cfg, before, at) ==> Settled(cfg, sys, at)
    ensures forall p :: Committed(before, p) <= Committed(sys, p)
    ensures forall p, o: nat :: o < Committed(sys, p) ==> Settled(cfg, sys, (p, o))
  {
    StartSound(cfg, start.clock);
    RunSince(cfg, start, from, steps);
    RunKeepsInv(cfg, start, steps);
    forall at | Settled(cfg, before, at) ensures Settled(cfg, sys, at) {
      SettledStays(cfg, before, sys, at);
    }
  }

  /** The broker and the database, with the history of everything done to them. */
  class World {
    const cfg: Config
    const start: Sys
    var sys: Sys
    ghost var steps: seq<Step>

    ghost predicate Valid()
      reads this
    {
      History(cfg, start, steps, sys)
    }

    constructor (cfg: Config, now: int)
      requires Sensible(cfg)
      ensures Valid() && this.cfg == cfg && sys == Start(now) && steps == []
    {
      this.cfg, this.start, this.sys := cfg, Start(now), Start(now);
      steps := [];
    }

    method Do(step: Step)
      requires Valid() && Enabled(cfg, sys, step)
      modifies this
      ensures Valid() && sys == Next(cfg, old(sys), step) && steps == old(steps) + [step]
    {
      ExtendRun(cfg, start, steps, step);
      sys := Next(cfg, sys, step);
      steps := steps + [step];
    }

    /** Anything but member `c` acting. While `c` holds a batch nobody touches it. */
    method Others(c: nat)
      requires Valid() && c in sys.members
      modifies this
      ensures Valid() && WithoutTaking(c, old(steps), steps) && SameWork(c, old(sys), sys)
    {
      var turns :| 0 <= turns;
      for i := 0 to turns
        invariant Valid() && WithoutTaking(c, old(steps), steps) && SameWork(c, old(sys), sys)
      {
        var step: Step := *;
        if Enabled(cfg, sys, step) && !ActsFor(step, c) {
          Spectates(cfg, sys, step, c);
          Do(step);
        }
      }
    }
  }

  lemma Spectates(cfg: Config, s: Sys, step: Step, c: nat)
    requires Enabled(cfg, s, step) && !ActsFor(step, c) && c in s.members
    ensures SameWork(c, s, Next(cfg, s, step))
  {}

  /** A limit that leaves room for one at least. */
  type Limit = n: int | 1 <= n witness 1

  /** The history ends with an insert of `c` that reported an error. */
  ghost predicate JustErred(c: nat, steps: seq<Step>) {
    steps != [] && steps[|steps| - 1] in {Insert(c, true, false), Insert(c, false, false)}
  }

  /** A member of the group with its retry policy. */
  class Consumer {
    const world: World
    const id: nat
    const maxAttempts: Limit
    const maxRecords: Limit

    constructor (world: World, id: nat, maxAttempts: nat, maxRecords: nat)
      requires world.Valid() && Enabled(world.cfg, world.sys, Join(id))
      modifies world
      ensures world.Valid() && this.world == world && this.id == id
      ensures world.sys == Next(world.cfg, old(world.sys), Join(id)) && world.steps == old(world.steps) + [Join(id)]
      ensures this.maxAttempts == (if maxAttempts < 1 then 5 else maxAttempts)
      ensures this.maxRecords == (if maxRecords < 1 then 250 else maxRecords)
    {
      this.world, this.id := world, id;
      this.maxAttempts := if maxAttempts < 1 then 5 else maxAttempts;
      this.maxRecords := if maxRecords < 1 then 250 else maxRecords;
      new;
      world.Do(Join(id));
    }

    /** One insert statement, which may apply and still report an error. */
    method InsertOnce() returns (reply: InsertReply)
      requires world.Valid() && Processing(world.sys, id) && world.sys.members[id].judged
      modifies world
      ensures world.Valid()
      ensures exists applied :: world.steps == old(world.steps) + [Insert(id, applied, reply.Inserted?)]
      ensures id in world.sys.members
      ensures world.sys.members[id] == AfterInsert(old(world.sys.members)[id], reply)
      ensures reply.Inserted? ==> JustInserted(world.cfg, world.start, world.steps, Current(old(world.sys), id), reply.isNew)
    {
      JudgedHasRow(world.cfg, world.start, world.steps, world.sys, id);
      ghost var taken := world.steps;
      var rows := world.sys.rows;
      if * {
        world.Do(Insert(id, true, true));
        reply := Inserted(world.sys.rows != rows);
        assert world.steps[..|world.steps| - 1] == taken;
        assert world.steps == old(world.steps) + [Insert(id, true, reply.Inserted?)];
      } else {
        var applied: bool := *;
        world.Do(Insert(id, applied, false));
        if * { reply := Transient; } else { reply := Permanent; }
        assert world.steps == old(world.steps) + [Insert(id, applied, reply.Inserted?)];
      }
    }

    /** Retries transient failures up to the policy's limit; a lost acknowledgement is
        retried onto the same key. Shutdown may interrupt the wait after `stopAfter` attempts. */
    method InsertWithRetry(stopAfter: nat) returns (reply: InsertReply, cancelled: bool)
      requires world.Valid() && Processing(world.sys, id) && world.sys.members[id].judged
      modifies world
      ensures world.Valid() && Uncommitted(id, old(world.steps), world.steps)
      ensures id in world.sys.members && Worked(old(world.sys.members)[id], world.sys.members[id], reply)
      ensures Inserts(id, world.steps) <= Inserts(id, old(world.steps)) + maxAttempts
      ensures reply.Transient? && !cancelled ==> Inserts(id, world.steps) == Inserts(id, old(world.steps)) + maxAttempts
      ensures cancelled ==> reply.Transient? && Inserts(id, world.steps) == Inserts(id, old(world.steps)) + stopAfter
      ensures reply.Transient? ==> (cancelled <==> 0 < stopAfter < maxAttempts)
      ensures !reply.Inserted? ==> JustErred(id, world.steps)
      ensures reply.Inserted? ==> JustInserted(world.cfg, world.start, world.steps, Current(old(world.sys), id), reply.isNew)
    {
      ghost var from := world.steps;
      ghost var m := world.sys.members[id];
      reply, cancelled := Transient, false;
      for attempt := 1 to maxAttempts + 1
        invariant world.Valid() && reply.Transient?
        invariant Uncommitted(id, from, world.steps)
        invariant Processing(world.sys, id) && Worked(m, world.sys.members[id], reply)
        invariant Inserts(id, world.steps) == Inserts(id, from) + attempt - 1
        invariant 0 < stopAfter < maxAttempts ==> attempt <= stopAfter
        invariant attempt > 1 ==> JustErred(id, world.steps)
      {
        reply := Attempt();
        if !reply.Transient? { return; }
        if attempt == stopAfter && attempt < maxAttempts { return reply, true; }
      }
    }

    /** Whatever others do meanwhile, and then one insert statement. */
    method Attempt() returns (reply: InsertReply)
      requires world.Valid() && Processing(world.sys, id) && world.sys.members[id].judged
      modifies world
      ensures world.Valid() && Uncommitted(id, old(world.steps), world.steps)
      ensures id in world.sys.members && Worked(old(world.sys.members)[id], world.sys.members[id], reply)
      ensures Inserts(id, world.steps) == Inserts(id, old(world.steps)) + 1
      ensures !reply.Inserted? ==> JustErred(id, world.steps)
      ensures Processing(world.sys, id) <== !reply.Inserted?
      ensures reply.Inserted? ==> JustInserted(world.cfg, world.start, world.steps, Current(old(world.sys), id), reply.isNew)
    {
      ghost var s0 := world.steps;
      world.Others(id);
      IdleIssuesNothing(id, s0, world.steps);
      HeldAlways(world.cfg, world.start, world.steps, world.sys, id);
      ghost var s1 := world.steps;
      reply := InsertOnce();
      IssuesOne(id, s1, world.steps[|s1|]);
      HeldAlways(world.cfg, world.start, world.steps, world.sys, id);
    }

    /** Decodes, revalidates and stores the current record. Only `Failed` leaves it
        unsettled; an invalid record is passed over. */
    method Process() returns (outcome: Outcome)
      requires world.Valid() && InHand(world.sys, id)
      modifies world
      ensures world.Valid() && Uncommitted(id, old(world.steps), world.steps)
      ensures id in world.sys.members && Passed(old(world.sys.members)[id], world.sys.members[id], outcome)
      ensures outcome != Failed ==> Settled(world.cfg, world.sys, Upcoming(old(world.sys), id))
      ensures outcome in {Stored, Duplicate} ==>
        JustInserted(world.cfg, world.start, world.steps, Upcoming(old(world.sys), id), outcome == Stored)
      ensures outcome == Failed ==> JustErred(id, world.steps)
      ensures outcome == Discarded ==> Upcoming(old(world.sys), id) in world.sys.rejected
      ensures outcome in {Stored, Duplicate} ==> Upcoming(old(world.sys), id) in world.sys.accepted
      ensures Inserts(id, world.steps) <= Inserts(id, old(world.steps)) + if outcome == Discarded then 0 else maxAttempts
    {
      ghost var s0 := world.steps;
      world.Others(id);
      IdleIssuesNothing(id, s0, world.steps);
      HeldAlways(world.cfg, world.start, world.steps, world.sys, id);
      ghost var s1 := world.steps;
      if world.cfg.invalid(At(world.sys, Current(world.sys, id)), world.sys.clock) {
        world.Do(Pipeline.Discard(id));
        IssuesOne(id, s1, Pipeline.Discard(id));
        HeldAlways(world.cfg, world.start, world.steps, world.sys, id);
        return Discarded;
      }
      outcome := StoreRecord();
    }

    /** Stores the current record, judged valid now. */
    method StoreRecord() returns (outcome: Outcome)
      requires world.Valid() && InHand(world.sys, id) && Enabled(world.cfg, world.sys, Accept(id))
      modifies world
      ensures world.Valid() && Uncommitted(id, old(world.steps), world.steps)
      ensures id in world.sys.members && Passed(old(world.sys.members)[id], world.sys.members[id], outcome)
      ensures outcome in {Stored, Duplicate, Failed}
      ensures outcome != Failed ==>
        && Settled(world.cfg, world.sys, Upcoming(old(world.sys), id))
        && JustInserted(world.cfg, world.start, world.steps, Upcoming(old(world.sys), id), outcome == Stored)
      ensures outcome == Failed ==> JustErred(id, world.steps)
      ensures Upcoming(old(world.sys), id) in world.sys.accepted
      ensures Inserts(id, world.steps) <= Inserts(id, old(world.steps)) + maxAttempts
    {
      ghost var s1 := world.steps;
      world.Do(Accept(id));
      IssuesOne(id, s1, Accept(id));
      ghost var before, s2 := world.sys, world.steps;
      var stopAfter: nat :| true;
      var reply, _ := InsertWithRetry(stopAfter);
      Outlasts(world.cfg, world.start, s2, before, world.steps, world.sys);
      HeldAlways(world.cfg, world.start, world.steps, world.sys, id);
      outcome := if !reply.Inserted? then Failed else if reply.isNew then Stored else Duplicate;
    }

    /** Every record of the batch in order, stopping at the first that must not be
        committed. Success means every one of them is settled. */
    method ProcessBatch() returns (ok: bool)
      requires world.Valid() && id in world.sys.members
      requires world.sys.members[id].done == 0 && !world.sys.members[id].judged
      modifies world
      ensures world.Valid() && Uncommitted(id, old(world.steps), world.steps)
      ensures id in world.sys.members && world.sys.members[id].batch == old(world.sys.members)[id].batch
      ensures if ok then world.sys.members[id].done == |world.sys.members[id].batch|
              else world.sys.members[id].done < |world.sys.members[id].batch| && JustErred(id, world.steps)
      ensures ok ==> forall at :: at in world.sys.members[id].batch ==> Settled(world.cfg, world.sys, at)
    {
      ghost var m := world.sys.members[id];
      ghost var from := world.steps;
      var n := |world.sys.members[id].batch|;
      for k := 0 to n
        invariant world.Valid() && Uncommitted(id, from, world.steps)
        invariant id in world.sys.members && world.sys.members[id].batch == m.batch
        invariant world.sys.members[id].done == k && !world.sys.members[id].judged
      {
        var outcome := Process();
        if outcome == Failed { return false; }
      }
      HeldAlways(world.cfg, world.start, world.steps, world.sys, id);
      ok := true;
    }

    /** One turn of the loop: poll, process, commit. A turn that leaves a record in doubt
        commits nothing and the process must exit. */
    method Turn() returns (ok: bool)
      requires world.Valid() && Idle(world.sys, id)
      modifies world
      ensures world.Valid() && old(world.steps) <= world.steps
      ensures ok ==> Idle(world.sys, id)
      ensures ok ==> |old(world.steps)| < |world.steps| && world.steps[|world.steps| - 1] in {Poll(id, []), Commit(id)}
      ensures forall i :: |old(world.steps)| <= i < |world.steps| && PolledBy(id, world.steps[i]) ==> |world.steps[i].batch| <= maxRecords
      ensures !ok ==> forall i :: |old(world.steps)| <= i < |world.steps| ==> world.steps[i] != Commit(id)
      ensures !ok && id in world.sys.members ==>
        world.sys.members[id].done < |world.sys.members[id].batch| && JustErred(id, world.steps)
    {
      ghost var s0 := world.steps;
      world.Others(id);
      IdleIssuesNothing(id, s0, world.steps);
      var records :| Polled(world.sys, world.sys.members[id].positions, records) && |records| <= maxRecords;
      world.Do(Poll(id, records));
      if records == [] { return true; }
      var processed := ProcessBatch();
      if !processed { return false; }
      ok := CommitBatch();
    }

    /** Commits the finished batch, unless the coordinator refuses some of it. */
    method CommitBatch() returns (ok: bool)
      requires world.Valid() && id in world.sys.members
      requires world.sys.members[id].done == |world.sys.members[id].batch|
      modifies world
      ensures world.Valid() && old(world.steps) <= world.steps
      ensures ok ==> Idle(world.sys, id)
      ensures ok ==> |old(world.steps)| < |world.steps| && world.steps[|world.steps| - 1] == Commit(id)
      ensures !ok ==> forall i :: |old(world.steps)| <= i < |world.steps| ==> world.steps[i] != Commit(id)
      ensures forall i :: |old(world.steps)| <= i < |world.steps| ==> !PolledBy(id, world.steps[i])
      ensures !ok ==> id !in world.sys.members
    {
      ghost var s0 := world.steps;
      world.Others(id);
      IdleIssuesNothing(id, s0, world.steps);
      var m := world.sys.members[id];
      var refused: bool := *;
      if refused || Owned(world.sys, id, m.batch) != Partitions(m.batch) {
        var stored: set<nat> :| stored <= Owned(world.sys, id, m.batch);
        world.Do(CommitFailed(id, stored));
        return false;
      }
      world.Do(Commit(id));
      ok := true;
    }

    /** Polls until told to stop or until something leaves a record in doubt; then the
        process exits without committing. Whatever is committed by then is settled. */
    method Run(polls: nat)
      requires world.Valid() && Idle(world.sys, id)
      modifies world
      ensures world.Valid() && id !in world.sys.members
      ensures Grows(old(world.sys), world.sys)
      ensures forall p :: Committed(old(world.sys), p) <= Committed(world.sys, p)
      ensures forall p, o: nat :: o < Committed(world.sys, p) ==> Settled(world.cfg, world.sys, (p, o))
    {
      ghost var before, from := world.sys, world.steps;
      for k := 0 to polls
        invariant world.Valid() && from <= world.steps && Idle(world.sys, id)
      {
        var ok := Turn();
        if !ok { break; }
      }
      if id in world.sys.members {
        world.Do(Crash(id));
      }
      Outlasts(world.cfg, world.start, from, before, world.steps, world.sys);
    }
  }

  /** The history ends with the insert of the record at a place, and its key was new to the
      table exactly if `isNew`. */
  ghost predicate JustInserted(cfg: Config, start: Sys, steps: seq<Step>, at: Place, isNew: bool) {
    && steps != [] && steps[|steps| - 1].Insert? && IsRun(cfg, start, steps[..|steps| - 1])
    && var s := Exec(cfg, start, steps[..|steps| - 1]);
       && at.1 < |Log(s, at.0)| && cfg.store(At(s, at)).Some?
       && (isNew <==> cfg.store(At(s, at)).value.0 !in s.rows)
  }

  /** Waiting for the next poll. */
  predicate Idle(s: Sys, c: nat) {
    c in s.members && s.members[c].batch == [] && s.members[c].done == 0 && !s.members[c].judged
  }

  /** About to process the next record of its batch. */
  predicate InHand(s: Sys, c: nat) {
    c in s.members && s.members[c].done < |s.members[c].batch| && !s.members[c].judged
  }

  function Upcoming(s: Sys, c: nat): Place
    requires InHand(s, c)
  {
    s.members[c].batch[s.members[c].done]
  }

  /** The same batch, one record further unless processing failed. */
  predicate Passed(a: Member, b: Member, outcome: Outcome) {
    b.batch == a.batch && b.done == (if outcome == Failed then a.done else a.done + 1) && (outcome != Failed ==> !b.judged)
  }

  function AfterInsert(m: Member, reply: InsertReply): Member {
    if reply.Inserted? then m.(done := m.done + 1, judged := false) else m
  }

  /** The same batch, one record further exactly when the insert succeeded. */
  predicate Worked(a: Member, b: Member, reply: InsertReply) {
    && b.batch == a.batch && b.done == AfterInsert(a, reply).done && b.judged == AfterInsert(a, reply).judged
  }
}
