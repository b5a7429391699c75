/** The janitor's view of the database: creating and dropping one partition while inserts
    and other janitors go on. */
module PartitionStores {
  import opened Wrappers
  import opened PartitionNames
  import opened Partitions
  import opened PartitionSafety

  /** Statements only the client running the drain can issue. */
  predicate ActsFor(step: Step, c: nat) {
    match step
    case Begin(d, _) => d == c
    case Lock(d) => d == c
    case Stage(d) => d == c
    case Clear(d) => d == c
    case AttachInside(d) => d == c
    case Reinsert(d) => d == c
    case Commit(d) => d == c
    case Rollback(d) => d == c
    case _ => false
  }

  ghost predicate History(steps: seq<Step>, sys: Sys) { IsRun(START, steps) && Exec(START, steps) == sys }

  lemma HistoryInv(steps: seq<Step>, sys: Sys)
    requires History(steps, sys)
    ensures Inv(sys) && Shows(sys.table, FlatRun(map[], steps))
  {
    RunShows(START, map[], steps);
  }

  lemma {:induction false} ExtendRun(s: Sys, steps: seq<Step>, step: Step)
    requires IsRun(s, steps) && Enabled(Exec(s, steps), step)
    ensures IsRun(s, steps + [step]) && Exec(s, steps + [step]) == Next(Exec(s, steps), step)
    decreases |steps|
  {
    if steps == [] {
    } else {
      assert (steps + [step])[1..] == steps[1..] + [step];
      ExtendRun(Next(s, steps[0]), steps[1..], step);
    }
  }

  /** Somebody dropped the day's partition between two points of the history. */
  predicate DroppedSince(before: seq<Step>, after: seq<Step>, day: int) {
    exists i :: |before| <= i < |after| && after[i] == Drop(day)
  }

  /** `c` began a drain between two points of the history. */
  predicate BeganDrain(before: seq<Step>, after: seq<Step>, c: nat) {
    exists i :: |before| <= i < |after| && after[i].Begin? && after[i].c == c
  }

  /** At some point since, the day had no partition and the default one held rows of it. */
  ghost predicate WasOpposed(before: seq<Step>, after: seq<Step>, day: int) {
    exists i :: |before| <= i <= |after| && IsRun(START, after[..i]) && OpposedIn(Exec(START, after[..i]), day)
  }

  predicate OpposedIn(s: Sys, day: int) { day !in s.table.days && exists k :: k in s.table.spare && Day(k) == day }

  /** `c` is in a phase of draining the default partition for a day. */
  predicate Draining(s: Sys, c: nat, day: int, phase: Phase) {
    c in s.drains && s.drains[c].day == day && s.drains[c].phase == phase
  }

  lemma ClearedIsUnopposed(rows: Rows, day: int)
    ensures Unopposed(Without(rows, day), day)
  {
    SplitByDay(rows, day);
    SplitByDay(Without(rows, day), day);
  }

  /** A partition once there goes only by being dropped. */
  lemma {:induction false} StaysUnlessDropped(before: seq<Step>, a: Sys, after: seq<Step>, b: Sys, day: int)
    requires History(before, a) && History(after, b) && before <= after && day in a.table.days
    ensures day in b.table.days || DroppedSince(before, after, day)
    decreases |after|
  {
    if before == after {
    } else {
      var front, last := after[..|after| - 1], after[|after| - 1];
      assert after == front + [last];
      RunSplits(START, front, last);
      StaysUnlessDropped(before, a, front, Exec(START, front), day);
    }
  }

  lemma {:induction false} RunSplits(s: Sys, steps: seq<Step>, step: Step)
    requires IsRun(s, steps + [step])
    ensures IsRun(s, steps) && Enabled(Exec(s, steps), step) && Exec(s, steps + [step]) == Next(Exec(s, steps), step)
    decreases |steps|
  {
    if steps == [] {
      assert (steps + [step])[1..] == [];
    } else {
      assert (steps + [step])[1..] == steps[1..] + [step];
      RunSplits(Next(s, steps[0]), steps[1..], step);
    }
  }

  class Database {
    var sys: Sys
    ghost var steps: seq<Step>

    /** How many statements have failed or waited for a lock in vain. */
    ghost var faults: nat

    ghost predicate Valid()
      reads this
    {
      History(steps, sys)
    }

    constructor ()
      ensures Valid() && sys == START && steps == []
    {
      sys, steps := START, [];
      faults := 0;
    }

    /** Whether the next statement fails, as one must that needs a lock another transaction has. */
    method Fails(blocked: bool) returns (failed: bool)
      modifies this`faults
      ensures faults == old(faults) + (if failed then 1 else 0) && (blocked ==> failed)
    {
      failed := *;
      if blocked { failed := true; }
      if failed { faults := faults + 1; }
    }

    method Do(step: Step)
      requires Valid() && Enabled(sys, step)
      modifies this
      ensures Valid() && sys == Next(old(sys), step) && steps == old(steps) + [step] && faults == old(faults)
    {
      ExtendRun(START, steps, step);
      sys := Next(sys, step);
      steps := steps + [step];
    }

    /** Anybody else: inserts, drops, attaches and drains other than `c`'s. */
    method Others(c: nat)
      requires Valid()
      modifies this
      ensures Valid() && old(steps) <= steps && faults == old(faults)
      ensures forall i :: |old(steps)| <= i < |steps| ==> !ActsFor(steps[i], c)
      ensures c in sys.drains <==> c in old(sys.drains)
      ensures c in sys.drains ==> sys.drains[c] == old(sys.drains)[c]
      ensures old(sys.lock) == Some(c) ==> sys.lock == Some(c)
    {
      var turns :| 0 <= turns;
      for i := 0 to turns
        invariant Valid() && old(steps) <= steps && faults == old(faults)
        invariant forall i :: |old(steps)| <= i < |steps| ==> !ActsFor(steps[i], c)
        invariant c in sys.drains <==> c in old(sys.drains)
        invariant c in sys.drains ==> sys.drains[c] == old(sys.drains)[c]
        invariant old(sys.lock) == Some(c) ==> sys.lock == Some(c)
      {
        var step: Step := *;
        if Enabled(sys, step) && !ActsFor(step, c) {
          LeavesAlone(steps, sys, step, c);
          Do(step);
        }
      }
    }
  }

  lemma LeavesAlone(steps: seq<Step>, s: Sys, step: Step, c: nat)
    requires History(steps, s) && Enabled(s, step) && !ActsFor(step, c)
    ensures var b := Next(s, step);
      && (c in b.drains <==> c in s.drains) && (c in b.drains ==> b.drains[c] == s.drains[c])
      && (s.lock == Some(c) ==> b.lock == Some(c))
  {
    HistoryInv(steps, s);
    if step.Commit? {
      assert DrainSound(s, step.c, s.drains[step.c]);
    }
  }

  class PartitionStore {
    const db: Database
    const id: nat

    constructor (db: Database, id: nat)
      ensures this.db == db && this.id == id
    {
      this.db, this.id := db, id;
    }

    /** Holds the default partition still and stages its rows of the day. */
    method StageRows(day: int) returns (ok: bool)
      requires db.Valid() && Draining(db.sys, id, day, Begun)
      modifies db
      ensures db.Valid() && old(db.steps) <= db.steps
      ensures id in db.sys.drains && (ok ==> Draining(db.sys, id, day, Staged))
      ensures ok <==> db.faults == old(db.faults)
    {
      db.Others(id);
      var failed := db.Fails(db.sys.lock.Some?);
      if failed { return false; }
      db.Do(Lock(id));
      db.Others(id);
      failed := db.Fails(false);
      if failed { return false; }
      db.Do(Stage(id));
      ok := true;
    }

    /** Clears the staged rows and makes the partition: with the rows out of the way
        nothing opposes it. */
    method MakePartition(day: int) returns (ok: bool)
      requires db.Valid() && Draining(db.sys, id, day, Staged)
      modifies db
      ensures db.Valid() && old(db.steps) <= db.steps
      ensures id in db.sys.drains && (ok ==> Draining(db.sys, id, day, Attached))
      ensures ok && db.sys.drains[id].made == None ==>
        day in db.sys.table.days || DroppedSince(old(db.steps), db.steps, day)
      ensures ok <==> db.faults == old(db.faults)
    {
      db.Others(id);
      var failed := db.Fails(false);
      if failed { return false; }
      db.Do(Clear(id));
      db.Others(id);
      failed := db.Fails(false);
      if failed { return false; }
      ClearedUnopposed(day);
      db.Do(AttachInside(id));
      ok := true;
    }

    lemma ClearedUnopposed(day: int)
      requires db.Valid() && Draining(db.sys, id, day, Cleared)
      ensures Enabled(db.sys, AttachInside(id))
    {
      HistoryInv(db.steps, db.sys);
      assert DrainSound(db.sys, id, db.sys.drains[id]);
      ClearedIsUnopposed(db.sys.table.spare, day);
    }

    lemma AttachedReinsertable(day: int)
      requires db.Valid() && Draining(db.sys, id, day, Attached)
      ensures Enabled(db.sys, Reinsert(id))
    {
      HistoryInv(db.steps, db.sys);
      assert DrainSound(db.sys, id, db.sys.drains[id]);
    }

    /** Puts the rows back through the parent and commits. */
    method Finish(day: int) returns (ok: bool)
      requires db.Valid() && Draining(db.sys, id, day, Attached)
      modifies db
      ensures db.Valid() && old(db.steps) <= db.steps
      ensures ok <==> id !in db.sys.drains
      ensures ok ==> db.sys.lock == None
      ensures ok && old(db.sys.drains)[id].made.Some? ==> day in db.sys.table.days
      ensures ok <==> db.faults == old(db.faults)
    {
      db.Others(id);
      var failed := db.Fails(false);
      if failed { return false; }
      AttachedReinsertable(day);
      db.Do(Reinsert(id));
      db.Others(id);
      failed := db.Fails(false);
      if failed { return false; }
      db.Do(Commit(id));
      ok := true;
    }

    /** The transaction after BEGIN. Any statement may fail, and others go on between
        statements. */
    method DrainInto(day: int) returns (ok: bool)
      requires db.Valid() && Draining(db.sys, id, day, Begun)
      modifies db
      ensures db.Valid() && old(db.steps) <= db.steps
      ensures ok <==> id !in db.sys.drains
      ensures ok ==> db.sys.lock == None && (day in db.sys.table.days || DroppedSince(old(db.steps), db.steps, day))
      ensures ok <==> db.faults == old(db.faults)
    {
      ok := StageRows(day);
      if !ok { return; }
      ok := MakePartition(day);
      if !ok { return; }
      ghost var steps, sys := db.steps, db.sys;
      ok := Finish(day);
      if ok && day in sys.table.days {
        StaysUnlessDropped(steps, sys, db.steps, db.sys, day);
      }
    }

    /** Makes the day's partition, draining the default one when it is in the way. A
        failure anywhere rolls the transaction back. */
    method CreatePartition(day: int) returns (ok: bool)
      requires db.Valid() && id !in db.sys.drains
      modifies db
      ensures db.Valid() && old(db.steps) <= db.steps && id !in db.sys.drains
      ensures ok ==> day in db.sys.table.days || DroppedSince(old(db.steps), db.steps, day)
      ensures BeganDrain(old(db.steps), db.steps, id) ==> WasOpposed(old(db.steps), db.steps, day)
      ensures Presents(db.sys.table, FlatRun(map[], db.steps)) && KeysUnique(db.sys.table) && Routed(db.sys.table)
      ensures ok <==> db.faults == old(db.faults)
    {
      ok := Create(day);
      RunRefinesFlatTable(db.steps);
    }

    method Create(day: int) returns (ok: bool)
      requires db.Valid() && id !in db.sys.drains
      modifies db
      ensures db.Valid() && old(db.steps) <= db.steps && id !in db.sys.drains
      ensures ok ==> day in db.sys.table.days || DroppedSince(old(db.steps), db.steps, day)
      ensures ok <==> db.faults == old(db.faults)
      ensures BeganDrain(old(db.steps), db.steps, id) ==> WasOpposed(old(db.steps), db.steps, day)
    {
      db.Others(id);
      var failed := db.Fails(db.sys.lock.Some?);
      if failed { return false; }
      if day in db.sys.table.days || Unopposed(db.sys.table.spare, day) {
        db.Do(Attach(day));
        return true;
      }
      ghost var point := db.steps;
      assert OpposedIn(db.sys, day);
      db.Others(id);
      failed := db.Fails(false);
      if failed { return false; }
      db.Do(Begin(id, day));
      ok := DrainInto(day);
      if !ok {
        db.Do(Rollback(id));
      }
      assert db.steps[..|point|] == point;
    }

    /** Drops a dated partition with everything in it; any other name is refused. */
    method DropPartition(name: string) returns (ok: bool)
      requires db.Valid()
      modifies db
      ensures db.Valid() && old(db.steps) <= db.steps
      ensures PartitionDay(name) == None ==> !ok && db.sys == old(db.sys)
      ensures ok ==> PartitionDay(name).Some? && PartitionDay(name).value !in db.sys.table.days
      ensures ok <==> PartitionDay(name).Some? && db.faults == old(db.faults)
    {
      var day := PartitionDay(name);
      if day == None { return false; }
      db.Others(id);
      var failed := db.Fails(false);
      if failed { return false; }
      if day.value in db.sys.table.days {
        db.Do(Drop(day.value));
      }
      ok := true;
    }
  }
}
