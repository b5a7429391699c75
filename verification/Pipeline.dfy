/** The ingest pipeline as a machine: partition logs, committed offsets, consumers that
    poll, process and commit, and the events table they all insert into. */
module Pipeline {
  import opened Wrappers
  import opened Events

  /** What a topic record holds: the event it decodes to, if it decodes at all. */
  type Record = Option<Event>

  /** The events table's primary key. */
  type Key = (int, string)

  /** A partition and an offset. */
  type Place = (nat, nat)

  /** How the engine judges a record at a moment, and the row it stores for it. */
  datatype Config = Config(invalid: (Record, int) -> bool, store: Record -> Option<(Key, Event)>)

  /** A record valid at one moment is valid at every later one, and has a row. */
  ghost predicate Sensible(cfg: Config) {
    forall r, t, t' :: t <= t' && !cfg.invalid(r, t) ==> !cfg.invalid(r, t') && cfg.store(r).Some?
  }

  /** A member of the consumer group: where it reads next in each partition, the batch
      in hand, how many of its records are processed, and whether the one being
      processed has been judged valid. */
  datatype Member = Member(positions: map<nat, nat>, batch: seq<Place>, done: nat, judged: bool)

  datatype Sys = Sys(
    clock: int,
    logs: map<nat, seq<Record>>,
    committed: map<nat, nat>,
    owner: map<nat, nat>,
    rows: map<Key, Event>,
    accepted: set<Place>,
    rejected: set<Place>,
    members: map<nat, Member>)

  datatype Step =
    | Tick(now: int)
    | Append(partition: nat, r: Record)
    | Join(c: nat)
    | Assign(c: nat, partition: nat)
    | Poll(c: nat, batch: seq<Place>)
    | Discard(c: nat)
    | Accept(c: nat)
    | Insert(c: nat, applied: bool, ok: bool)
    | Commit(c: nat)
    | CommitFailed(c: nat, stored: set<nat>)
    | Crash(c: nat)

  function Log(s: Sys, p: nat): seq<Record> { if p in s.logs then s.logs[p] else [] }

  function Committed(s: Sys, p: nat): nat { if p in s.committed then s.committed[p] else 0 }

  /** The record at a place that lies inside its log. */
  function At(s: Sys, at: Place): Record
    requires at.1 < |Log(s, at.0)|
  {
    Log(s, at.0)[at.1]
  }

  /** A poll returns, partition by partition, the records from the member's position on. */
  predicate Polled(s: Sys, positions: map<nat, nat>, batch: seq<Place>)
    decreases |batch|
  {
    batch == [] ||
    var (p, o) := batch[0];
    && p in positions && o == positions[p] && o < |Log(s, p)|
    && Polled(s, positions[p := o + 1], batch[1..])
  }

  function Moved(positions: map<nat, nat>, batch: seq<Place>): map<nat, nat>
    decreases |batch|
  {
    if batch == [] then positions else Moved(positions[batch[0].0 := batch[0].1 + 1], batch[1..])
  }

  /** Commits move each partition of the batch past its highest record in it. */
  function Advance(committed: map<nat, nat>, batch: seq<Place>, stored: set<nat>): map<nat, nat>
    decreases |batch|
  {
    if batch == [] then committed
    else
      Advance(if batch[0].0 in stored then committed[batch[0].0 := batch[0].1 + 1] else committed, batch[1..], stored)
  }

  function Partitions(batch: seq<Place>): set<nat> { set at | at in batch :: at.0 }

  /** The partitions of a batch that the group coordinator still has `c` own; commits
      for any other are refused. */
  function Owned(s: Sys, c: nat, batch: seq<Place>): set<nat> {
    set p | p in Partitions(batch) && p in s.owner && s.owner[p] == c
  }

  predicate Processing(s: Sys, c: nat) {
    && c in s.members && s.members[c].done < |s.members[c].batch|
    && var at := s.members[c].batch[s.members[c].done]; at.1 < |Log(s, at.0)|
  }

  function Current(s: Sys, c: nat): Place
    requires Processing(s, c)
  {
    s.members[c].batch[s.members[c].done]
  }

  predicate Enabled(cfg: Config, s: Sys, step: Step) {
    match step
    case Tick(now) => s.clock <= now
    case Append(_, _) => true
    case Join(c) => c !in s.members && c !in s.owner.Values
    case Assign(c, _) => c in s.members && s.members[c].batch == []
    case Poll(c, batch) =>
      c in s.members && s.members[c].batch == [] && Polled(s, s.members[c].positions, batch)
    case Discard(c) => Processing(s, c) && !s.members[c].judged && cfg.invalid(At(s, Current(s, c)), s.clock)
    case Accept(c) => Processing(s, c) && !s.members[c].judged && !cfg.invalid(At(s, Current(s, c)), s.clock)
    case Insert(c, applied, ok) => Processing(s, c) && s.members[c].judged && (ok ==> applied)
    case Commit(c) =>
      && c in s.members && s.members[c].done == |s.members[c].batch|
      && Owned(s, c, s.members[c].batch) == Partitions(s.members[c].batch)
    case CommitFailed(c, stored) =>
      c in s.members && s.members[c].done == |s.members[c].batch| && stored <= Owned(s, c, s.members[c].batch)
    case Crash(c) => c in s.members
  }

  /** The insert does nothing when the key is already there. */
  function InsertRow(cfg: Config, s: Sys, at: Place): map<Key, Event>
    requires at.1 < |Log(s, at.0)|
  {
    match cfg.store(At(s, at))
    case None => s.rows
    case Some((key, row)) => if key in s.rows then s.rows else s.rows[key := row]
  }

  function Next(cfg: Config, s: Sys, step: Step): Sys
    requires Enabled(cfg, s, step)
  {
    match step
    case Tick(now) => s.(clock := now)
    case Append(p, r) => s.(logs := s.logs[p := Log(s, p) + [r]])
    case Join(c) => s.(members := s.members[c := Member(map[], [], 0, false)])
    case Assign(c, p) =>
      var m := s.members[c];
      s.(owner := s.owner[p := c],
         members := s.members[c := m.(positions := m.positions[p := Committed(s, p)])])
    case Poll(c, batch) =>
      s.(members := s.members[c := Member(Moved(s.members[c].positions, batch), batch, 0, false)])
    case Discard(c) =>
      var m := s.members[c];
      s.(rejected := s.rejected + {Current(s, c)}, members := s.members[c := m.(done := m.done + 1)])
    case Accept(c) =>
      s.(accepted := s.accepted + {Current(s, c)}, members := s.members[c := s.members[c].(judged := true)])
    case Insert(c, applied, ok) =>
      var m := s.members[c];
      s.(rows := if applied then InsertRow(cfg, s, Current(s, c)) else s.rows,
         members := if ok then s.members[c := m.(done := m.done + 1, judged := false)] else s.members)
    case Commit(c) =>
      var m := s.members[c];
      s.(committed := Advance(s.committed, m.batch, Partitions(m.batch)),
         members := s.members[c := m.(batch := [], done := 0, judged := false)])
    case CommitFailed(c, stored) =>
      s.(committed := Advance(s.committed, s.members[c].batch, stored), members := s.members - {c})
    case Crash(c) => s.(members := s.members - {c})
  }

  function Start(now: int): Sys { Sys(now, map[], map[], map[], map[], {}, {}, map[]) }

  predicate IsRun(cfg: Config, s: Sys, steps: seq<Step>)
    decreases |steps|
  {
    steps == [] || (Enabled(cfg, s, steps[0]) && IsRun(cfg, Next(cfg, s, steps[0]), steps[1..]))
  }

  function Exec(cfg: Config, s: Sys, steps: seq<Step>): Sys
    requires IsRun(cfg, s, steps)
    decreases |steps|
  {
    if steps == [] then s else Exec(cfg, Next(cfg, s, steps[0]), steps[1..])
  }

  // ---- Invariant ----------------------------------------------------------

  /** A record whose offset may be passed: judged invalid, or its key is stored. */
  predicate Settled(cfg: Config, s: Sys, at: Place) {
    && at.1 < |Log(s, at.0)|
    && (at in s.rejected || (cfg.store(At(s, at)).Some? && cfg.store(At(s, at)).value.0 in s.rows))
  }

  /** Every row is what some record judged valid is stored as. */
  ghost predicate RowsFromLogs(cfg: Config, s: Sys) {
    forall k :: k in s.rows ==> exists at :: at in s.accepted && Source(cfg, s, at, k)
  }

  predicate Source(cfg: Config, s: Sys, at: Place, k: Key)
    requires k in s.rows
  {
    at.1 < |Log(s, at.0)| && cfg.store(At(s, at)) == Some((k, s.rows[k]))
  }

  /** Judgements were about records in the logs, at or before now. */
  ghost predicate JudgementsSound(cfg: Config, s: Sys) {
    && (forall at :: at in s.accepted ==> at.1 < |Log(s, at.0)| && !cfg.invalid(At(s, at), s.clock))
    && (forall at :: at in s.rejected ==> at.1 < |Log(s, at.0)|)
  }

  ghost predicate CommittedSettled(cfg: Config, s: Sys) {
    forall p, o: nat :: o < Committed(s, p) ==> Settled(cfg, s, (p, o))
  }

  ghost predicate MemberSound(cfg: Config, s: Sys, c: nat, m: Member) {
    && m.done <= |m.batch|
    && (forall i :: 0 <= i < |m.batch| ==>
          m.batch[i].0 in m.positions && m.batch[i].1 < m.positions[m.batch[i].0] && m.batch[i].1 < |Log(s, m.batch[i].0)|)
    && (forall i :: 0 <= i < m.done ==> Settled(cfg, s, m.batch[i]))
    && (m.judged ==> m.done < |m.batch| && m.batch[m.done] in s.accepted)
    && (forall p, o: nat :: p in m.positions && o < m.positions[p] ==> Settled(cfg, s, (p, o)) || (p, o) in m.batch)
    && (forall p :: p in s.owner && s.owner[p] == c ==>
          p in m.positions && Committed(s, p) <= m.positions[p]
          && forall i :: 0 <= i < |m.batch| && m.batch[i].0 == p ==> Committed(s, p) <= m.batch[i].1)
  }

  ghost predicate Inv(cfg: Config, s: Sys) {
    && RowsFromLogs(cfg, s) && JudgementsSound(cfg, s) && CommittedSettled(cfg, s)
    && (forall c :: c in s.members ==> MemberSound(cfg, s, c, s.members[c]))
  }

  /** Nothing already decided is undone. */
  ghost predicate Grows(a: Sys, b: Sys) {
    && a.clock <= b.clock
    && (forall p :: Log(a, p) <= Log(b, p))
    && a.accepted <= b.accepted && a.rejected <= b.rejected
    && (forall k :: k in a.rows ==> k in b.rows && b.rows[k] == a.rows[k])
  }

  lemma SettledStays(cfg: Config, a: Sys, b: Sys, at: Place)
    requires Grows(a, b) && Settled(cfg, a, at)
    ensures Settled(cfg, b, at)
  {
    assert Log(a, at.0) <= Log(b, at.0);
  }

  lemma NextGrows(cfg: Config, s: Sys, step: Step)
    requires Enabled(cfg, s, step)
    ensures Grows(s, Next(cfg, s, step))
  {}
}
