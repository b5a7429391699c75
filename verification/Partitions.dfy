/** The partitioned events table as a machine: inserts, drops, and partitions attached
    outright or by draining the default partition in a transaction. */
module Partitions {
  import opened Times
  import opened Wrappers
  import opened PartitionNames

  /** The primary key: the event's instant and its id. */
  type Key = (int, string)
  type Row = string
  type Rows = map<Key, Row>

  datatype Table = Table(spare: Rows, days: map<int, Rows>)

  /** How far a drain's transaction has come, with what it has changed but not committed:
      the default partition as it sees it, the staged rows, and the partition it made. */
  datatype Phase = Begun | Locked | Staged | Cleared | Attached | Reinserted

  datatype Drain = Drain(day: int, phase: Phase, spare: Rows, staged: Rows, made: Option<Rows>)

  datatype Sys = Sys(table: Table, drains: map<nat, Drain>, lock: Option<nat>)

  datatype Step =
    | Insert(key: Key, row: Row)
    | Attach(day: int)
    | Drop(day: int)
    | Begin(c: nat, day: int)
    | Lock(c: nat)
    | Stage(c: nat)
    | Clear(c: nat)
    | AttachInside(c: nat)
    | Reinsert(c: nat)
    | Commit(c: nat)
    | Rollback(c: nat)

  function Day(k: Key): int { k.0 / DAY }

  /** The rows between a day's bounds, and the rest. */
  predicate InBounds(k: Key, day: int) {
    var (lower, upper) := DayBounds(day * DAY);
    lower <= k.0 < upper
  }

  function Within(rows: Rows, day: int): Rows { map k | k in rows && InBounds(k, day) :: rows[k] }

  function Without(rows: Rows, day: int): Rows { map k | k in rows && !InBounds(k, day) :: rows[k] }

  /** An attach finds nothing in the default partition that belongs to the new one. */
  predicate Unopposed(spare: Rows, day: int) { Within(spare, day) == map[] }

  predicate InPhase(s: Sys, c: nat, phase: Phase) { c in s.drains && s.drains[c].phase == phase }

  /** The default partition is not locked, except perhaps by `c` itself. */
  predicate Enabled(s: Sys, step: Step) {
    match step
    case Insert(key, _) => Day(key) in s.table.days || s.lock == None
    case Attach(day) => s.lock == None && (day in s.table.days || Unopposed(s.table.spare, day))
    case Drop(day) => day in s.table.days
    case Begin(c, _) => c !in s.drains
    case Lock(c) => InPhase(s, c, Begun) && s.lock == None
    case Stage(c) => InPhase(s, c, Locked)
    case Clear(c) => InPhase(s, c, Staged)
    case AttachInside(c) =>
      InPhase(s, c, Cleared) && (s.drains[c].day in s.table.days || Unopposed(s.drains[c].spare, s.drains[c].day))
    case Reinsert(c) =>
      InPhase(s, c, Attached) && (s.drains[c].made.Some? || s.drains[c].staged == map[])
    case Commit(c) => InPhase(s, c, Reinserted)
    case Rollback(c) => c in s.drains
  }

  /** An insert goes to its day's partition, or to the default one, and does nothing when
      the key is already there. */
  function Inserted(t: Table, key: Key, row: Row): Table {
    var day := Day(key);
    if day in t.days then
      if key in t.days[day] then t else t.(days := t.days[day := t.days[day][key := row]])
    else
      if key in t.spare then t else t.(spare := t.spare[key := row])
  }

  function Next(s: Sys, step: Step): Sys
    requires Enabled(s, step)
  {
    match step
    case Insert(key, row) => s.(table := Inserted(s.table, key, row))
    case Attach(day) => if day in s.table.days then s else s.(table := s.table.(days := s.table.days[day := map[]]))
    case Drop(day) => s.(table := s.table.(days := s.table.days - {day}))
    case Begin(c, day) => s.(drains := s.drains[c := Drain(day, Begun, map[], map[], None)])
    case Lock(c) =>
      s.(lock := Some(c), drains := s.drains[c := s.drains[c].(phase := Locked, spare := s.table.spare)])
    case Stage(c) =>
      var d := s.drains[c];
      s.(drains := s.drains[c := d.(phase := Staged, staged := Within(d.spare, d.day))])
    case Clear(c) =>
      var d := s.drains[c];
      s.(drains := s.drains[c := d.(phase := Cleared, spare := Without(d.spare, d.day))])
    case AttachInside(c) =>
      var d := s.drains[c];
      s.(drains := s.drains[c := d.(phase := Attached, made := if d.day in s.table.days then None else Some(map[]))])
    case Reinsert(c) =>
      var d := s.drains[c];
      s.(drains := s.drains[c := d.(phase := Reinserted, made := if d.made.Some? then Some(d.staged) else None)])
    case Commit(c) =>
      var d := s.drains[c];
      Sys(Table(d.spare, if d.made.Some? then s.table.days[d.day := d.made.value] else s.table.days),
          s.drains - {c}, None)
    case Rollback(c) =>
      s.(drains := s.drains - {c}, lock := if s.lock == Some(c) then None else s.lock)
  }

  predicate IsRun(s: Sys, steps: seq<Step>)
    decreases |steps|
  {
    steps == [] || (Enabled(s, steps[0]) && IsRun(Next(s, steps[0]), steps[1..]))
  }

  function Exec(s: Sys, steps: seq<Step>): Sys
    requires IsRun(s, steps)
    decreases |steps|
  {
    if steps == [] then s else Exec(Next(s, steps[0]), steps[1..])
  }

  const START := Sys(Table(map[], map[]), map[], None)

  // ---- One table, as far as anyone can tell --------------------------------

  /** Every row is in its day's partition if there is one, and in the default otherwise. */
  predicate Routed(t: Table) {
    && (forall d, k :: d in t.days && k in t.days[d] ==> Day(k) == d)
    && (forall k :: k in t.spare ==> Day(k) !in t.days)
  }

  /** Some partition holds the row. */
  predicate Holds(t: Table, k: Key, r: Row) {
    || (k in t.spare && t.spare[k] == r)
    || exists d :: d in t.days && k in t.days[d] && t.days[d][k] == r
  }

  /** No key is in two partitions. */
  predicate KeysUnique(t: Table) {
    && (forall d, e, k :: d in t.days && e in t.days && k in t.days[d] && k in t.days[e] ==> d == e)
    && (forall d, k :: d in t.days && k in t.days[d] ==> k !in t.spare)
  }

  /** What a step does to an unpartitioned table. */
  function Flat(rows: Rows, step: Step): Rows {
    match step
    case Insert(key, row) => if key in rows then rows else rows[key := row]
    case Drop(day) => map k | k in rows && Day(k) != day :: rows[k]
    case _ => rows
  }

  function FlatRun(rows: Rows, steps: seq<Step>): Rows
    decreases |steps|
  {
    if steps == [] then rows else FlatRun(Flat(rows, steps[0]), steps[1..])
  }

  /** The partitions together hold exactly these rows. */
  ghost predicate Presents(t: Table, rows: Rows) {
    forall k, r :: Holds(t, k, r) <==> k in rows && rows[k] == r
  }

  /** The one place a routed table can hold a key. */
  function Look(t: Table, k: Key): Option<Row> {
    if Day(k) in t.days
    then if k in t.days[Day(k)] then Some(t.days[Day(k)][k]) else None
    else if k in t.spare then Some(t.spare[k]) else None
  }

  lemma LooksSuffice(t: Table, k: Key, r: Row)
    requires Routed(t)
    ensures Holds(t, k, r) <==> Look(t, k) == Some(r)
  {
    if Look(t, k) == Some(r) && Day(k) in t.days {
      assert k in t.days[Day(k)] && t.days[Day(k)][k] == r;
    }
  }

  lemma RoutedKeysUnique(t: Table)
    requires Routed(t)
    ensures KeysUnique(t)
  {
    forall d, e, k | d in t.days && e in t.days && k in t.days[d] && k in t.days[e] ensures d == e {
      assert Day(k) == d;
    }
  }

  lemma BoundsAreTheDay(k: Key, day: int)
    ensures InBounds(k, day) <==> Day(k) == day
  {
    assert day * DAY / DAY == day;
    BoundsTile(day * DAY, k.0);
  }

  // ---- The invariant -----------------------------------------------------

  /** A drain holds the lock from its second step on, and at every step its view, what it
      staged and what it made account for every row of the default partition. */
  predicate DrainSound(s: Sys, c: nat, d: Drain) {
    && (d.phase != Begun ==> s.lock == Some(c))
    && (d.phase in {Locked, Staged} ==> d.spare == s.table.spare)
    && (d.phase in {Staged, Cleared, Attached, Reinserted} ==> d.staged == Within(s.table.spare, d.day))
    && (d.phase in {Cleared, Attached, Reinserted} ==> d.spare == Without(s.table.spare, d.day))
    && (d.phase in {Begun, Locked, Staged, Cleared} ==> d.made == None)
    && (d.made.Some? ==> d.day !in s.table.days)
    && (d.phase in {Attached, Reinserted} && d.made == None ==> d.staged == map[])
    && (d.phase == Attached && d.made.Some? ==> d.made.value == map[])
    && (d.phase == Reinserted && d.made.Some? ==> d.made.value == d.staged)
  }

  predicate Inv(s: Sys) {
    && Routed(s.table)
    && (s.lock.Some? ==> s.lock.value in s.drains && s.drains[s.lock.value].phase != Begun)
    && (forall c :: c in s.drains ==> DrainSound(s, c, s.drains[c]))
  }
}
