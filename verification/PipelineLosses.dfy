/** Exactly which records can be judged valid by the ingest pipeline and yet be lost. */
module PipelineLosses {
  import opened Wrappers
  import opened Pipeline
  import opened PipelineSafety
  import opened PipelineOutcomes

  // ---- What a partition's backlog allows ----------------------------------

  /** A record of this key that would be stored if it were processed now. */
  predicate Bars(cfg: Config, s: Sys, at: Place, k: Key) {
    HasKey(cfg, s, at, k) && !cfg.invalid(At(s, at), s.clock)
  }

  /** A member has this place behind it in its batch. */
  ghost predicate Past(m: Member, at: Place) { exists i :: 0 <= i < |m.batch| && i < m.done && m.batch[i] == at }

  /** A member cannot finish its batch without storing the key. */
  ghost predicate Stuck(cfg: Config, s: Sys, m: Member, k: Key) {
    exists i :: m.done <= i < |m.batch| && Bars(cfg, s, m.batch[i], k)
  }

  /** The partition's owner is alive, has the place behind it and can finish its batch
      without storing the key, so it can commit past the place. */
  ghost predicate Passable(cfg: Config, s: Sys, p: nat, o: nat, k: Key) {
    && p in s.owner && s.owner[p] in s.members
    && Past(s.members[s.owner[p]], (p, o)) && !Stuck(cfg, s, s.members[s.owner[p]], k)
  }

  /** The backlog of a partition can be committed without storing the key. */
  ghost predicate Free(cfg: Config, s: Sys, p: nat, k: Key) {
    forall o: nat :: Committed(s, p) <= o < |Log(s, p)| && Bars(cfg, s, (p, o), k) ==> Passable(cfg, s, p, o, k)
  }

  predicate Accounted(s: Sys, batch: seq<Place>, p: nat, o: nat) { o < Committed(s, p) || (p, o) in batch }

  /** A batch takes each partition in order, and what a member has read is committed or in
      its batch. */
  ghost predicate TidyMember(s: Sys, m: Member) {
    && m.done <= |m.batch|
    && (forall i, j :: 0 <= i < j < |m.batch| && m.batch[i].0 == m.batch[j].0 ==> m.batch[i].1 < m.batch[j].1)
    && (forall p, o: nat :: p in m.positions && o < m.positions[p] ==> Accounted(s, m.batch, p, o))
  }

  ghost predicate Tidy(s: Sys) { forall c :: c in s.members ==> TidyMember(s, s.members[c]) }

  lemma {:induction false} PolledAscends(s: Sys, positions: map<nat, nat>, batch: seq<Place>)
    requires Polled(s, positions, batch)
    ensures forall i, j :: 0 <= i < j < |batch| && batch[i].0 == batch[j].0 ==> batch[i].1 < batch[j].1
    decreases |batch|
  {
    if batch != [] {
      var next := positions[batch[0].0 := batch[0].1 + 1];
      PolledAscends(s, next, batch[1..]);
      PolledBatch(s, next, batch[1..]);
      assert forall i :: 1 <= i < |batch| ==> batch[i] == batch[1..][i - 1];
    }
  }

  lemma PolledTidy(s: Sys, b: Sys, c: nat, batch: seq<Place>)
    requires c in s.members && TidyMember(s, s.members[c]) && s.members[c].batch == []
    requires b.committed == s.committed && Polled(s, s.members[c].positions, batch)
    ensures TidyMember(b, Member(Moved(s.members[c].positions, batch), batch, 0, false))
  {
    var positions := s.members[c].positions;
    PolledAscends(s, positions, batch);
    PolledBatch(s, positions, batch);
    forall p, o: nat | p in positions && o < Moved(positions, batch)[p] ensures Accounted(b, batch, p, o) {
      assert o < positions[p] ==> Accounted(s, [], p, o);
    }
  }

  /** An entry of a batch lies before where committing the batch leaves its partition. */
  lemma AdvancePasses(s: Sys, m: Member, stored: set<nat>, p: nat, o: nat)
    requires TidyMember(s, m) && p in stored && (p, o) in m.batch
    ensures var after := Advance(s.committed, m.batch, stored); p in after && o < after[p]
  {
    AdvanceTo(s.committed, m.batch, stored, p);
    var j :| 0 <= j < |m.batch| && m.batch[j] == (p, o);
    var i: nat :| LastOf(m.batch, i) && m.batch[i].0 == p && Advance(s.committed, m.batch, stored)[p] == m.batch[i].1 + 1;
    assert j <= i;
  }

  lemma TidyStays(a: Sys, b: Sys, m: Member)
    requires TidyMember(a, m) && forall p :: Committed(a, p) <= Committed(b, p)
    ensures TidyMember(b, m)
  {
    forall p, o: nat | p in m.positions && o < m.positions[p] ensures Accounted(b, m.batch, p, o) {
      assert Accounted(a, m.batch, p, o);
    }
  }

  lemma CommittedTidy(s: Sys, b: Sys, m: Member)
    requires TidyMember(s, m) && b.committed == Advance(s.committed, m.batch, Partitions(m.batch))
    requires forall p :: Committed(s, p) <= Committed(b, p)
    ensures TidyMember(b, m.(batch := [], done := 0, judged := false))
  {
    forall p, o: nat | p in m.positions && o < m.positions[p] ensures Accounted(b, [], p, o) {
      assert Accounted(s, m.batch, p, o);
      if (p, o) in m.batch {
        assert p in Partitions(m.batch);
        AdvancePasses(s, m, Partitions(m.batch), p, o);
      }
    }
  }

  lemma WorkKeepsTidy(cfg: Config, s: Sys, step: Step, c: nat)
    requires Tidy(s) && Enabled(cfg, s, step) && !Commits(step) && c in Next(cfg, s, step).members
    ensures TidyMember(Next(cfg, s, step), Next(cfg, s, step).members[c])
  {
    WorkCommitsNothing(cfg, s, step);
    if c in s.members {
      TidyStays(s, Next(cfg, s, step), s.members[c]);
      if step.Poll? && step.c == c { PolledTidy(s, Next(cfg, s, step), c, step.batch); }
    }
  }

  lemma CommitKeepsTidy(cfg: Config, s: Sys, step: Step, c: nat)
    requires Tidy(s) && Enabled(cfg, s, step) && Commits(step) && c in Next(cfg, s, step).members
    requires forall p :: Committed(s, p) <= Committed(Next(cfg, s, step), p)
    ensures TidyMember(Next(cfg, s, step), Next(cfg, s, step).members[c])
  {
    TidyStays(s, Next(cfg, s, step), s.members[c]);
    if step.Commit? && step.c == c { CommittedTidy(s, Next(cfg, s, step), s.members[c]); }
  }

  lemma StepKeepsTidy(cfg: Config, s: Sys, step: Step)
    requires Sensible(cfg) && Inv(cfg, s) && Tidy(s) && Enabled(cfg, s, step)
    ensures Tidy(Next(cfg, s, step))
  {
    StepKeepsInv(cfg, s, step);
    forall c | c in Next(cfg, s, step).members ensures TidyMember(Next(cfg, s, step), Next(cfg, s, step).members[c]) {
      if Commits(step) {
        CommitKeepsTidy(cfg, s, step, c);
      } else {
        WorkKeepsTidy(cfg, s, step, c);
      }
    }
  }

  lemma {:induction false} RunKeepsTidy(cfg: Config, s: Sys, steps: seq<Step>)
    requires Sensible(cfg) && Inv(cfg, s) && Tidy(s) && IsRun(cfg, s, steps)
    ensures Tidy(Exec(cfg, s, steps))
    decreases |steps|
  {
    if steps != [] {
      StepKeepsInv(cfg, s, steps[0]);
      StepKeepsTidy(cfg, s, steps[0]);
      RunKeepsTidy(cfg, Next(cfg, s, steps[0]), steps[1..]);
    }
  }

  // ---- A barred place stays uncommitted -----------------------------------

  /** A pending record of the key, valid now, that nobody can commit past without storing it. */
  ghost predicate Barred(cfg: Config, s: Sys, p: nat, o: nat, k: Key) {
    Committed(s, p) <= o && Bars(cfg, s, (p, o), k) && !Passable(cfg, s, p, o, k)
  }

  lemma BarsStay(cfg: Config, a: Sys, b: Sys, at: Place, k: Key)
    requires Sensible(cfg) && Grows(a, b) && Bars(cfg, a, at, k)
    ensures Bars(cfg, b, at, k)
  {
    assert Log(a, at.0) <= Log(b, at.0);
  }

  lemma StuckStays(cfg: Config, a: Sys, b: Sys, m: Member, n: Member, k: Key)
    requires Sensible(cfg) && Grows(a, b) && n.batch == m.batch && Stuck(cfg, a, m, k)
    requires n.done == m.done || (n.done == m.done + 1 && m.done < |m.batch| && !Bars(cfg, a, m.batch[m.done], k))
    ensures Stuck(cfg, b, n, k)
  {
    var i :| m.done <= i < |m.batch| && Bars(cfg, a, m.batch[i], k);
    BarsStay(cfg, a, b, m.batch[i], k);
  }

  /** What a member does in a step that leaves it in its batch cannot make a barred place
      passable, unless it stores the key. */
  lemma MemberStaysBarred(cfg: Config, s: Sys, step: Step, p: nat, o: nat, k: Key)
    requires Sensible(cfg) && Enabled(cfg, s, step) && Bars(cfg, s, (p, o), k) && !Passable(cfg, s, p, o, k)
    requires step.Discard? || step.Insert? || step.Accept?
    requires k !in Next(cfg, s, step).rows
    ensures !Passable(cfg, Next(cfg, s, step), p, o, k)
  {
    var b := Next(cfg, s, step);
    NextGrows(cfg, s, step);
    if p in b.owner && b.owner[p] in b.members {
      var m, n := s.members[b.owner[p]], b.members[b.owner[p]];
      assert n.batch == m.batch;
      assert n.done == m.done || (n.done == m.done + 1 && m.done < |m.batch| && !Bars(cfg, s, m.batch[m.done], k));
      if Past(n, (p, o)) {
        assert Past(m, (p, o));
        StuckStays(cfg, s, b, m, n, k);
      }
    }
  }

  lemma OtherStaysBarred(cfg: Config, s: Sys, step: Step, p: nat, o: nat, k: Key)
    requires Sensible(cfg) && Enabled(cfg, s, step) && !Passable(cfg, s, p, o, k)
    requires !(step.Discard? || step.Insert? || step.Accept?)
    ensures !Passable(cfg, Next(cfg, s, step), p, o, k)
  {
    var b := Next(cfg, s, step);
    NextGrows(cfg, s, step);
    if p in b.owner && b.owner[p] in b.members && Past(b.members[b.owner[p]], (p, o)) {
      var c := b.owner[p];
      assert p in s.owner && s.owner[p] == c && c in s.members && b.members[c] == s.members[c];
      StuckStays(cfg, s, b, s.members[c], b.members[c], k);
    }
  }

  /** A commit past a place needs an owner that has it behind it and is done. */
  lemma CommitStaysBehind(cfg: Config, s: Sys, c: nat, stored: set<nat>, p: nat, o: nat, k: Key)
    requires c in s.members && MemberSound(cfg, s, c, s.members[c]) && TidyMember(s, s.members[c])
    requires s.members[c].done == |s.members[c].batch| && stored <= Owned(s, c, s.members[c].batch)
    requires Barred(cfg, s, p, o, k)
    ensures var after := Advance(s.committed, s.members[c].batch, stored); p in after ==> after[p] <= o
  {
    var m := s.members[c];
    AdvanceTo(s.committed, m.batch, stored, p);
    if p in stored {
      assert (p, o) !in m.batch by {
        if (p, o) in m.batch { assert Past(m, (p, o)) && Passable(cfg, s, p, o, k); }
      }
      if i: nat :| LastOf(m.batch, i) && m.batch[i].0 == p {
        assert !Accounted(s, m.batch, p, o);
        assert m.positions[p] <= o;
      }
    }
  }

  lemma StepStaysBehind(cfg: Config, s: Sys, step: Step, p: nat, o: nat, k: Key)
    requires Inv(cfg, s) && Tidy(s) && Enabled(cfg, s, step) && Barred(cfg, s, p, o, k)
    ensures Committed(Next(cfg, s, step), p) <= o
  {
    if Commits(step) {
      var m := s.members[step.c];
      assert MemberSound(cfg, s, step.c, m);
      CommitStaysBehind(cfg, s, step.c, if step.Commit? then Partitions(m.batch) else step.stored, p, o, k);
    } else {
      WorkCommitsNothing(cfg, s, step);
    }
  }

  lemma StepKeepsBarred(cfg: Config, s: Sys, step: Step, p: nat, o: nat, k: Key)
    requires Sensible(cfg) && Inv(cfg, s) && Tidy(s) && Enabled(cfg, s, step) && Barred(cfg, s, p, o, k)
    requires k !in Next(cfg, s, step).rows
    ensures Barred(cfg, Next(cfg, s, step), p, o, k)
  {
    NextGrows(cfg, s, step);
    StepStaysBehind(cfg, s, step, p, o, k);
    BarsStay(cfg, s, Next(cfg, s, step), (p, o), k);
    if step.Discard? || step.Insert? || step.Accept? {
      MemberStaysBarred(cfg, s, step, p, o, k);
    } else {
      OtherStaysBarred(cfg, s, step, p, o, k);
    }
  }

  lemma {:induction false} BarredStaysUncommitted(cfg: Config, s: Sys, steps: seq<Step>, p: nat, o: nat, k: Key)
    requires Sensible(cfg) && Inv(cfg, s) && Tidy(s) && IsRun(cfg, s, steps)
    requires Barred(cfg, s, p, o, k) && k !in Exec(cfg, s, steps).rows
    ensures Committed(Exec(cfg, s, steps), p) <= o
    decreases |steps|
  {
    if steps != [] {
      var next := Next(cfg, s, steps[0]);
      StepKeepsInv(cfg, s, steps[0]);
      StepKeepsTidy(cfg, s, steps[0]);
      RunKeepsInv(cfg, next, steps[1..]);
      StepKeepsBarred(cfg, s, steps[0], p, o, k);
      BarredStaysUncommitted(cfg, next, steps[1..], p, o, k);
    }
  }

  // ---- Exactly which records can be lost -----------------------------------

  /** After the history that led to `s`, record `r` is produced to partition `p`, and what
      happens then, whatever else it is, loses it. */
  ghost predicate Loses(cfg: Config, s: Sys, p: nat, r: Record, more: seq<Step>) {
    && IsRun(cfg, s, [Append(p, r)] + more)
    && Lost(cfg, Exec(cfg, s, [Append(p, r)] + more), (p, |Log(s, p)|))
  }

  function Holding(p: nat, o: nat): Member { Member(map[p := o + 1], [(p, o)], 0, false) }

  lemma {:induction false} Above(ids: set<nat>) returns (bound: nat)
    ensures forall c :: c in ids ==> c < bound
    decreases |ids|
  {
    bound := 0;
    if ids != {} {
      var c :| c in ids;
      bound := Above(ids - {c});
      assert forall d :: d in ids ==> d == c || d in ids - {c};
      if bound <= c { bound := c + 1; }
    }
  }

  /** A new member joins and is handed the partition. */
  lemma TakesOver(cfg: Config, start: Sys, steps: seq<Step>, s: Sys, p: nat) returns (more: seq<Step>, after: Sys, c: nat)
    requires IsRun(cfg, start, steps) && Exec(cfg, start, steps) == s
    ensures IsRun(cfg, start, more) && Exec(cfg, start, more) == after && c !in s.members && steps <= more
    ensures after == s.(owner := s.owner[p := c], members := s.members[c := Member(map[p := Committed(s, p)], [], 0, false)])
  {
    c := Above(s.members.Keys + s.owner.Values);
    more, after := Extended(cfg, start, steps, s, Join(c));
    more, after := Extended(cfg, start, more, after, Assign(c, p));
    assert after.members[c].positions == map[p := Committed(s, p)];
    assert after.members == s.members[c := after.members[c]];
  }

  lemma PollsOne(cfg: Config, s: Sys, c: nat, p: nat, o: nat)
    requires c in s.members && s.members[c] == Member(map[p := o], [], 0, false) && o < |Log(s, p)|
    ensures Enabled(cfg, s, Poll(c, [(p, o)]))
    ensures Next(cfg, s, Poll(c, [(p, o)])) == s.(members := s.members[c := Holding(p, o)])
  {
    var batch := [(p, o)];
    assert batch[1..] == [];
    assert Polled(s, map[p := o][p := o + 1], []);
    assert Moved(map[p := o][p := o + 1], []) == map[p := o + 1];
  }

  /** And it polls its first uncommitted record. */
  lemma PollsPending(cfg: Config, start: Sys, steps: seq<Step>, s: Sys, p: nat)
    returns (more: seq<Step>, after: Sys, c: nat)
    requires IsRun(cfg, start, steps) && Exec(cfg, start, steps) == s && Committed(s, p) < |Log(s, p)|
    ensures IsRun(cfg, start, more) && Exec(cfg, start, more) == after && c !in s.members
    ensures steps <= more
    ensures after == s.(owner := s.owner[p := c], members := s.members[c := Holding(p, Committed(s, p))])
  {
    var over;
    more, over, c := TakesOver(cfg, start, steps, s, p);
    PollsOne(cfg, over, c, p, Committed(s, p));
    more, after := Extended(cfg, start, more, over, Poll(c, [(p, Committed(s, p))]));
    assert over.members[c := Holding(p, Committed(s, p))] == s.members[c := Holding(p, Committed(s, p))];
  }

  /** Time and the logs are as before, and so is every member but `c`; the key is still
      not stored. */
  ghost predicate Spares(a: Sys, b: Sys, c: nat, k: Key) {
    && b.clock == a.clock && b.logs == a.logs && (k !in a.rows ==> k !in b.rows)
    && (forall d :: d != c && d in a.members ==> d in b.members && b.members[d] == a.members[d])
  }

  /** A member settles the record in hand without storing the key. */
  lemma TakesOne(cfg: Config, start: Sys, steps: seq<Step>, s: Sys, c: nat, k: Key) returns (more: seq<Step>, after: Sys)
    requires Sensible(cfg) && IsRun(cfg, start, steps) && Exec(cfg, start, steps) == s && Processing(s, c)
    requires s.members[c].judged ==> !cfg.invalid(At(s, Current(s, c)), s.clock)
    requires !Bars(cfg, s, Current(s, c), k)
    ensures IsRun(cfg, start, more) && Exec(cfg, start, more) == after && steps <= more
    ensures Spares(s, after, c, k) && after.owner == s.owner && after.committed == s.committed
    ensures after.members == s.members[c := s.members[c].(done := s.members[c].done + 1, judged := false)]
  {
    if !s.members[c].judged && cfg.invalid(At(s, Current(s, c)), s.clock) {
      more, after := Extended(cfg, start, steps, s, Discard(c));
    } else {
      assert cfg.store(At(s, Current(s, c))).Some?;
      more, after := StoresOne(cfg, start, steps, s, c);
    }
  }

  lemma StoresOne(cfg: Config, start: Sys, steps: seq<Step>, s: Sys, c: nat) returns (more: seq<Step>, after: Sys)
    requires IsRun(cfg, start, steps) && Exec(cfg, start, steps) == s && Processing(s, c)
    requires s.members[c].judged || !cfg.invalid(At(s, Current(s, c)), s.clock)
    ensures IsRun(cfg, start, more) && Exec(cfg, start, more) == after && steps <= more
    ensures after == s.(accepted := after.accepted, rows := InsertRow(cfg, s, Current(s, c)),
                        members := s.members[c := s.members[c].(done := s.members[c].done + 1, judged := false)])
  {
    more, after := steps, s;
    if !s.members[c].judged { more, after := Extended(cfg, start, more, after, Accept(c)); }
    more, after := Extended(cfg, start, more, after, Insert(c, true, true));
  }

  /** A member works through the rest of its batch without storing the key. */
  lemma {:induction false} FinishesBatch(cfg: Config, start: Sys, steps: seq<Step>, s: Sys, c: nat, k: Key)
    returns (more: seq<Step>, after: Sys)
    requires Sensible(cfg) && IsRun(cfg, start, steps) && Exec(cfg, start, steps) == s && c in s.members
    requires s.members[c].done <= |s.members[c].batch| && !Stuck(cfg, s, s.members[c], k)
    requires forall i :: 0 <= i < |s.members[c].batch| ==> s.members[c].batch[i].1 < |Log(s, s.members[c].batch[i].0)|
    requires s.members[c].judged ==> Processing(s, c) && !cfg.invalid(At(s, Current(s, c)), s.clock)
    ensures IsRun(cfg, start, more) && Exec(cfg, start, more) == after && steps <= more
    ensures Spares(s, after, c, k) && after.owner == s.owner && after.committed == s.committed
    ensures after.members == s.members[c := s.members[c].(done := |s.members[c].batch|, judged := false)]
    decreases |s.members[c].batch| - s.members[c].done
  {
    var m := s.members[c];
    more, after := steps, s;
    if m.done < |m.batch| {
      var next;
      more, next := TakesOne(cfg, start, steps, s, c, k);
      forall i | m.done + 1 <= i < |m.batch| ensures !Bars(cfg, next, m.batch[i], k) {
        assert !Bars(cfg, s, m.batch[i], k);
      }
      more, after := FinishesBatch(cfg, start, more, next, c, k);
    }
  }

  /** The owner settles its one record without storing the key, and commits past it. */
  lemma SettlesAndCommits(cfg: Config, start: Sys, steps: seq<Step>, s: Sys, c: nat, p: nat, o: nat, k: Key)
    returns (more: seq<Step>, after: Sys)
    requires Sensible(cfg) && IsRun(cfg, start, steps) && Exec(cfg, start, steps) == s
    requires c in s.members && s.members[c] == Holding(p, o) && p in s.owner && s.owner[p] == c
    requires o < |Log(s, p)| && !Bars(cfg, s, (p, o), k)
    ensures IsRun(cfg, start, more) && Exec(cfg, start, more) == after && steps <= more
    ensures Spares(s, after, c, k) && Committed(after, p) == o + 1
  {
    var batch := Holding(p, o).batch;
    assert batch[1..] == [];
    more, after := TakesOne(cfg, start, steps, s, c, k);
    assert Partitions(batch) == {p} && Owned(after, c, batch) == {p};
    assert Advance(s.committed, batch, {p}) == s.committed[p := o + 1];
    more, after := Extended(cfg, start, more, after, Commit(c));
  }

  /** New members take a backlog one record at a time, none of which stores the key. */
  lemma {:induction false} DrainsTo(cfg: Config, start: Sys, steps: seq<Step>, s: Sys, p: nat, to: nat, k: Key)
    returns (more: seq<Step>, after: Sys)
    requires Sensible(cfg) && IsRun(cfg, start, steps) && Exec(cfg, start, steps) == s
    requires Committed(s, p) <= to <= |Log(s, p)|
    requires forall o: nat :: Committed(s, p) <= o < to ==> !Bars(cfg, s, (p, o), k)
    ensures IsRun(cfg, start, more) && Exec(cfg, start, more) == after && steps <= more
    ensures after.clock == s.clock && after.logs == s.logs && (k !in s.rows ==> k !in after.rows)
    ensures Committed(after, p) == to
    decreases |Log(s, p)| - Committed(s, p)
  {
    more, after := steps, s;
    var o := Committed(s, p);
    if o < to {
      var next, c;
      more, next, c := PollsPending(cfg, start, steps, s, p);
      assert !Bars(cfg, next, (p, o), k);
      more, next := SettlesAndCommits(cfg, start, more, next, c, p, o, k);
      forall x: nat | o < x < to ensures !Bars(cfg, next, (p, x), k) { assert !Bars(cfg, s, (p, x), k); }
      more, after := DrainsTo(cfg, start, more, next, p, to, k);
    }
  }

  /** The owner finishes its batch without storing the key. */
  lemma OwnerFinishes(cfg: Config, start: Sys, steps: seq<Step>, s: Sys, p: nat, q: nat, k: Key)
    returns (more: seq<Step>, after: Sys)
    requires Sensible(cfg) && IsRun(cfg, start, steps) && Exec(cfg, start, steps) == s
    requires Inv(cfg, s) && Passable(cfg, s, p, q, k)
    ensures IsRun(cfg, start, more) && Exec(cfg, start, more) == after && steps <= more
    ensures Spares(s, after, s.owner[p], k) && after.owner == s.owner && after.committed == s.committed
    ensures var c := s.owner[p]; var m := s.members[c];
      after.members == s.members[c := m.(done := |m.batch|, judged := false)] && p in Owned(after, c, m.batch)
  {
    var c := s.owner[p];
    var m := s.members[c];
    assert MemberSound(cfg, s, c, m) && (p, q) in m.batch;
    more, after := FinishesBatch(cfg, start, steps, s, c, k);
    assert p in Partitions(m.batch);
  }

  /** Then it commits the partition, if no other. */
  lemma OwnerCommits(cfg: Config, start: Sys, steps: seq<Step>, s: Sys, p: nat, q: nat, k: Key, end: nat)
    returns (more: seq<Step>, after: Sys)
    requires Sensible(cfg) && IsRun(cfg, start, steps) && Exec(cfg, start, steps) == s
    requires Inv(cfg, s) && Tidy(s) && Passable(cfg, s, p, q, k) && Committed(s, p) <= end
    requires forall o: nat :: (p, o) in s.members[s.owner[p]].batch ==> o < end
    ensures IsRun(cfg, start, more) && Exec(cfg, start, more) == after && steps <= more
    ensures after.clock == s.clock && after.logs == s.logs && (k !in s.rows ==> k !in after.rows)
    ensures Committed(s, p) <= Committed(after, p) <= end
    ensures forall o: nat :: Passable(cfg, s, p, o, k) ==> o < Committed(after, p)
  {
    more, after := OwnerFinishes(cfg, start, steps, s, p, q, k);
    more, after := Extended(cfg, start, more, after, CommitFailed(s.owner[p], {p}));
    OwnerMoves(cfg, s, p, k, end);
  }

  /** Where the owner's batch, once finished, would commit the partition to. */
  lemma OwnerMoves(cfg: Config, s: Sys, p: nat, k: Key, end: nat)
    requires Inv(cfg, s) && Tidy(s) && p in s.owner && s.owner[p] in s.members && Committed(s, p) <= end
    requires forall o: nat :: (p, o) in s.members[s.owner[p]].batch ==> o < end
    ensures var after := Advance(s.committed, s.members[s.owner[p]].batch, {p});
      && Committed(s, p) <= (if p in after then after[p] else 0) <= end
      && forall o: nat :: Passable(cfg, s, p, o, k) ==> p in after && o < after[p]
  {
    var m := s.members[s.owner[p]];
    assert MemberSound(cfg, s, s.owner[p], m);
    forall o: nat | Passable(cfg, s, p, o, k)
      ensures var after := Advance(s.committed, m.batch, {p}); p in after && o < after[p]
    {
      AdvancePasses(s, m, {p}, p, o);
    }
    CommitRises(s, m, p, end);
  }

  lemma CommitRises(s: Sys, m: Member, p: nat, end: nat)
    requires forall o: nat :: (p, o) in m.batch ==> Committed(s, p) <= o < end
    requires Committed(s, p) <= end
    ensures var after := Advance(s.committed, m.batch, {p}); Committed(s, p) <= (if p in after then after[p] else 0) <= end
  {
    AdvanceTo(s.committed, m.batch, {p}, p);
    if i: nat :| LastOf(m.batch, i) && m.batch[i].0 == p && Advance(s.committed, m.batch, {p})[p] == m.batch[i].1 + 1 {
      assert (p, m.batch[i].1) in m.batch;
    }
  }

  /** A member that lost the partition judges its record valid later, and its insert never
      applies. */
  lemma AcceptsTooLate(cfg: Config, start: Sys, steps: seq<Step>, s: Sys, c: nat, p: nat, o: nat, later: int)
    returns (more: seq<Step>, after: Sys)
    requires IsRun(cfg, start, steps) && Exec(cfg, start, steps) == s && s.clock <= later
    requires c in s.members && s.members[c] == Holding(p, o) && o < Committed(s, p) && o < |Log(s, p)|
    requires !cfg.invalid(Log(s, p)[o], later) && Storable(cfg, s, Log(s, p)[o])
    ensures IsRun(cfg, start, more) && Exec(cfg, start, more) == after && steps <= more
    ensures Lost(cfg, after, (p, o))
  {
    more, after := Extended(cfg, start, steps, s, Tick(later));
    more, after := Extended(cfg, start, more, after, Accept(c));
  }

  /** What a record produced now leaves as it was: which of those before it can be passed. */
  lemma ProducedPassable(cfg: Config, s: Sys, p: nat, r: Record, o: nat, k: Key)
    requires Inv(cfg, s) && Passable(cfg, s, p, o, k)
    ensures Passable(cfg, Next(cfg, s, Append(p, r)), p, o, k)
  {
    var b, c := Next(cfg, s, Append(p, r)), s.owner[p];
    var m := s.members[c];
    assert MemberSound(cfg, s, c, m);
    forall i | m.done <= i < |m.batch| ensures !Bars(cfg, b, m.batch[i], k) {
      assert !Bars(cfg, s, m.batch[i], k);
    }
  }

  /** After a record is produced, the owner commits what only it can pass, if anything. */
  lemma OwnerMakesWay(cfg: Config, s: Sys, p: nat, r: Record, k: Key) returns (steps: seq<Step>, after: Sys)
    requires Sensible(cfg) && Inv(cfg, s) && Tidy(s) && Free(cfg, s, p, k)
    ensures [Append(p, r)] <= steps && IsRun(cfg, s, steps) && Exec(cfg, s, steps) == after
    ensures after.clock == s.clock && after.logs == Next(cfg, s, Append(p, r)).logs && (k !in s.rows ==> k !in after.rows)
    ensures Committed(s, p) <= Committed(after, p) <= |Log(s, p)|
    ensures forall o: nat :: Passable(cfg, s, p, o, k) && Bars(cfg, s, (p, o), k) && o < |Log(s, p)| ==> o < Committed(after, p)
  {
    steps, after := Extended(cfg, s, [], s, Append(p, r));
    assert steps == [Append(p, r)];
    CommittedInLog(cfg, s, p);
    if q: nat :| Passable(cfg, s, p, q, k) {
      var made, m := after, s.members[s.owner[p]];
      StepKeepsInv(cfg, s, Append(p, r));
      StepKeepsTidy(cfg, s, Append(p, r));
      assert MemberSound(cfg, s, s.owner[p], m);
      forall o: nat | Passable(cfg, s, p, o, k) ensures Passable(cfg, made, p, o, k) { ProducedPassable(cfg, s, p, r, o, k); }
      steps, after := OwnerCommits(cfg, s, steps, made, p, q, k, |Log(s, p)|);
    }
  }

  lemma CommittedInLog(cfg: Config, s: Sys, p: nat)
    requires CommittedSettled(cfg, s)
    ensures Committed(s, p) <= |Log(s, p)|
  {
    if Committed(s, p) > 0 { assert Settled(cfg, s, (p, Committed(s, p) - 1)); }
  }

  /** The backlog is committed up to a record just produced, without storing its key. */
  lemma BacklogDrains(cfg: Config, s: Sys, p: nat, r: Record, k: Key) returns (steps: seq<Step>, after: Sys)
    requires Sensible(cfg) && Inv(cfg, s) && Tidy(s) && Free(cfg, s, p, k)
    ensures [Append(p, r)] <= steps && IsRun(cfg, s, steps) && Exec(cfg, s, steps) == after
    ensures after.clock == s.clock && Log(after, p) == Log(s, p) + [r] && (k !in s.rows ==> k !in after.rows)
    ensures Committed(after, p) == |Log(s, p)|
  {
    steps, after := OwnerMakesWay(cfg, s, p, r, k);
    forall o: nat | Committed(after, p) <= o < |Log(s, p)| ensures !Bars(cfg, after, (p, o), k) {
      assert Bars(cfg, after, (p, o), k) ==> Bars(cfg, s, (p, o), k);
    }
    steps, after := DrainsTo(cfg, s, steps, after, p, |Log(s, p)|, k);
  }

  /** One zombie is enough to lose an untimely record whose key the backlog does not hold. */
  lemma UntimelyRecordCanBeLost(cfg: Config, s: Sys, p: nat, r: Record, later: int) returns (more: seq<Step>)
    requires Sensible(cfg) && Inv(cfg, s) && Tidy(s) && s.clock <= later
    requires cfg.invalid(r, s.clock) && !cfg.invalid(r, later) && Storable(cfg, s, r)
    requires Free(cfg, s, p, cfg.store(r).value.0)
    ensures Loses(cfg, s, p, r, more)
  {
    var o, k := |Log(s, p)|, cfg.store(r).value.0;
    var steps, now := BacklogDrains(cfg, s, p, r, k);
    assert Log(now, p)[o] == r;
    var zombie, owner;
    steps, now, zombie := PollsPending(cfg, s, steps, now, p);
    steps, now, owner := PollsPending(cfg, s, steps, now, p);
    steps, now := SettlesAndCommits(cfg, s, steps, now, owner, p, o, k);
    steps, now := AcceptsTooLate(cfg, s, steps, now, zombie, p, o, later);
    more := steps[1..];
    assert steps == [Append(p, r)] + more;
  }

  /** A lost record was invalid as it was produced, valid later and not stored, and so was
      the backlog free of its key. */
  lemma LosesOnlyUntimely(cfg: Config, s: Sys, p: nat, r: Record, more: seq<Step>)
    requires Sensible(cfg) && Inv(cfg, s) && Tidy(s) && Loses(cfg, s, p, r, more)
    ensures cfg.invalid(r, s.clock) && !Hopeless(cfg, r) && Storable(cfg, s, r)
    ensures Free(cfg, s, p, cfg.store(r).value.0)
  {
    var steps, at := [Append(p, r)] + more, (p, |Log(s, p)|);
    RunKeepsInv(cfg, s, steps);
    var e := Exec(cfg, s, steps);
    assert steps[0] == Append(p, r) && steps[1..] == more;
    assert Settled(cfg, e, (at.0, at.1));
    RejectedWasInvalidWhenBorn(cfg, s, steps, at);
    Kept(cfg, Next(cfg, s, steps[0]), steps[1..], at);
    assert At(e, at) == r;
    LosesOnlyFree(cfg, s, p, |Log(s, p)|, steps, cfg.store(r).value.0);
  }

  lemma LosesOnlyFree(cfg: Config, s: Sys, p: nat, end: nat, steps: seq<Step>, k: Key)
    requires Sensible(cfg) && Inv(cfg, s) && Tidy(s) && IsRun(cfg, s, steps)
    requires end == |Log(s, p)| < Committed(Exec(cfg, s, steps), p) && k !in Exec(cfg, s, steps).rows
    ensures Free(cfg, s, p, k)
  {
    forall o: nat | Committed(s, p) <= o < end && Bars(cfg, s, (p, o), k) ensures Passable(cfg, s, p, o, k) {
      if !Passable(cfg, s, p, o, k) { BarredStaysUncommitted(cfg, s, steps, p, o, k); }
    }
  }

  /** After any history, whatever backlog and members it left, a record produced to a
      partition can be judged valid and be lost exactly when it is invalid as it is produced,
      valid at some other moment, not stored already, and no record of its key waits before
      it that is valid now, save one that the partition's owner has discarded and can commit
      past. */
  lemma LostExactlyWhenUntimely(cfg: Config, now: int, before: seq<Step>, p: nat, r: Record)
    requires Sensible(cfg) && IsRun(cfg, Start(now), before)
    ensures var s := Exec(cfg, Start(now), before);
      (exists more :: Loses(cfg, s, p, r, more)) <==>
      cfg.invalid(r, s.clock) && !Hopeless(cfg, r) && Storable(cfg, s, r) && Free(cfg, s, p, cfg.store(r).value.0)
  {
    var s := Exec(cfg, Start(now), before);
    StartSound(cfg, now);
    RunKeepsInv(cfg, Start(now), before);
    RunKeepsTidy(cfg, Start(now), before);
    if cfg.invalid(r, s.clock) && !Hopeless(cfg, r) && Storable(cfg, s, r) && Free(cfg, s, p, cfg.store(r).value.0) {
      var later :| !cfg.invalid(r, later);
      var more := UntimelyRecordCanBeLost(cfg, s, p, r, later);
    }
    forall more | Loses(cfg, s, p, r, more)
      ensures cfg.invalid(r, s.clock) && !Hopeless(cfg, r) && Storable(cfg, s, r) && Free(cfg, s, p, cfg.store(r).value.0)
    {
      LosesOnlyUntimely(cfg, s, p, r, more);
    }
  }

  /** A partition committed so far holds nothing back. */
  lemma CommittedIsFree(cfg: Config, s: Sys, p: nat, k: Key)
    requires Committed(s, p) == |Log(s, p)|
    ensures Free(cfg, s, p, k)
  {}
}
