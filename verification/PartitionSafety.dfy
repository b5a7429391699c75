/** What every interleaving of inserts, drops and drains keeps, and the partition store
    that runs one drain among them. */
module PartitionSafety {
  import opened Wrappers
  import opened Partitions

  /** Read through its routing, the table shows exactly these rows. */
  ghost predicate Shows(t: Table, rows: Rows) {
    Routed(t) && forall k :: Look(t, k) == if k in rows then Some(rows[k]) else None
  }

  lemma ShowsPresents(t: Table, rows: Rows)
    requires Shows(t, rows)
    ensures Presents(t, rows) && KeysUnique(t)
  {
    RoutedKeysUnique(t);
    forall k, r ensures Holds(t, k, r) <==> k in rows && rows[k] == r {
      LooksSuffice(t, k, r);
    }
  }

  lemma SplitByDay(rows: Rows, day: int)
    ensures forall k :: k in Within(rows, day) <==> k in rows && Day(k) == day
    ensures forall k :: k in Without(rows, day) <==> k in rows && Day(k) != day
  {
    forall k ensures InBounds(k, day) <==> Day(k) == day {
      BoundsAreTheDay(k, day);
    }
  }

  /** A day without rows in the default partition can have its partition made. */
  lemma AttachShows(t: Table, rows: Rows, day: int)
    requires Shows(t, rows) && day !in t.days && Unopposed(t.spare, day)
    ensures Shows(t.(days := t.days[day := map[]]), rows)
  {
    SplitByDay(t.spare, day);
    assert forall k :: k in t.spare ==> k !in Within(t.spare, day);
  }

  /** Moving a day's rows from the default partition to the new one shows the same rows. */
  lemma DrainShows(t: Table, rows: Rows, day: int)
    requires Shows(t, rows) && day !in t.days
    ensures Shows(Table(Without(t.spare, day), t.days[day := Within(t.spare, day)]), rows)
  {
    SplitByDay(t.spare, day);
  }

  lemma InsertShows(t: Table, rows: Rows, key: Key, row: Row)
    requires Shows(t, rows)
    ensures Shows(Inserted(t, key, row), Flat(rows, Insert(key, row)))
    ensures Inserted(t, key, row) != t <==> key !in rows
  {
    assert Look(t, key) == if key in rows then Some(rows[key]) else None;
  }

  lemma DropShows(t: Table, rows: Rows, day: int)
    requires Shows(t, rows) && day in t.days
    ensures Shows(t.(days := t.days - {day}), Flat(rows, Drop(day)))
  {}

  lemma CommitShows(s: Sys, rows: Rows, c: nat)
    requires Inv(s) && Shows(s.table, rows) && Enabled(s, Commit(c))
    ensures Shows(Next(s, Commit(c)).table, rows)
  {
    var d := s.drains[c];
    assert DrainSound(s, c, d);
    if d.made.Some? {
      DrainShows(s.table, rows, d.day);
    } else {
      SplitByDay(s.table.spare, d.day);
      assert forall k :: k in s.table.spare ==> k !in d.staged;
      assert d.spare == s.table.spare;
    }
  }

  /** Whatever the step, the partitions go on showing one flat table. */
  lemma StepShows(s: Sys, rows: Rows, step: Step)
    requires Inv(s) && Shows(s.table, rows) && Enabled(s, step)
    ensures Shows(Next(s, step).table, Flat(rows, step))
  {
    match step
    case Insert(key, row) => InsertShows(s.table, rows, key, row);
    case Attach(day) => if day !in s.table.days { AttachShows(s.table, rows, day); }
    case Drop(day) => DropShows(s.table, rows, day);
    case Commit(c) => CommitShows(s, rows, c);
    case _ =>
  }

  /** Steps that leave the table alone keep every other drain as it was. */
  lemma OpeningKeepsSound(s: Sys, step: Step, c: nat)
    requires Inv(s) && Enabled(s, step) && c in Next(s, step).drains
    requires step.Begin? || step.Lock? || step.Rollback?
    ensures DrainSound(Next(s, step), c, Next(s, step).drains[c])
  {
    if c in s.drains {
      assert DrainSound(s, c, s.drains[c]);
    }
  }

  lemma DrainStepKeepsSound(s: Sys, step: Step, c: nat)
    requires Inv(s) && Enabled(s, step) && c in Next(s, step).drains
    requires step.Stage? || step.Clear? || step.AttachInside? || step.Reinsert?
    ensures DrainSound(Next(s, step), c, Next(s, step).drains[c])
  {
    assert DrainSound(s, c, s.drains[c]);
  }

  lemma TableStepKeepsSound(s: Sys, step: Step, c: nat)
    requires Inv(s) && Enabled(s, step) && c in Next(s, step).drains
    requires step.Insert? || step.Attach? || step.Drop? || step.Commit?
    ensures DrainSound(Next(s, step), c, Next(s, step).drains[c])
  {
    assert DrainSound(s, c, s.drains[c]);
    if step.Commit? {
      assert DrainSound(s, step.c, s.drains[step.c]);
    }
  }

  lemma StepKeepsInv(s: Sys, rows: Rows, step: Step)
    requires Inv(s) && Shows(s.table, rows) && Enabled(s, step)
    ensures Inv(Next(s, step)) && Shows(Next(s, step).table, Flat(rows, step))
  {
    StepShows(s, rows, step);
    var b := Next(s, step);
    forall c | c in b.drains ensures DrainSound(b, c, b.drains[c]) {
      if step.Insert? || step.Attach? || step.Drop? || step.Commit? {
        TableStepKeepsSound(s, step, c);
      } else if step.Begin? || step.Lock? || step.Rollback? {
        OpeningKeepsSound(s, step, c);
      } else {
        DrainStepKeepsSound(s, step, c);
      }
    }
    LockKept(s, step);
  }

  lemma LockKept(s: Sys, step: Step)
    requires Inv(s) && Enabled(s, step)
    ensures var b := Next(s, step); b.lock.Some? ==> b.lock.value in b.drains && b.drains[b.lock.value].phase != Begun
  {
    match step
    case Commit(c) => assert DrainSound(s, c, s.drains[c]);
    case _ =>
  }

  lemma {:induction false} RunShows(s: Sys, rows: Rows, steps: seq<Step>)
    requires Inv(s) && Shows(s.table, rows) && IsRun(s, steps)
    ensures Inv(Exec(s, steps)) && Shows(Exec(s, steps).table, FlatRun(rows, steps))
    decreases |steps|
  {
    if steps == [] {
    } else {
      StepKeepsInv(s, rows, steps[0]);
      RunShows(Next(s, steps[0]), Flat(rows, steps[0]), steps[1..]);
    }
  }

  /** In every run of inserts, drops, attaches and drains, each committed or rolled back
      anywhere, the partitions hold exactly the rows one flat table would, no key twice,
      and each in its day's partition or, for want of one, in the default. */
  lemma RunRefinesFlatTable(steps: seq<Step>)
    requires IsRun(START, steps)
    ensures var t := Exec(START, steps).table;
      Presents(t, FlatRun(map[], steps)) && KeysUnique(t) && Routed(t)
  {
    RunShows(START, map[], steps);
    ShowsPresents(Exec(START, steps).table, FlatRun(map[], steps));
  }
}
