/** What every run of the ingest pipeline keeps, and exactly when its end state holds
    the records that were ever judged valid. */
module PipelineSafety {
  import opened Pipeline

  // ---- The invariant, step by step ----------------------------------------

  lemma RowsStayFromLogs(cfg: Config, a: Sys, b: Sys)
    requires RowsFromLogs(cfg, a) && Grows(a, b) && b.rows == a.rows
    ensures RowsFromLogs(cfg, b)
  {
    forall k | k in b.rows ensures exists at :: at in b.accepted && Source(cfg, b, at, k) {
      var at :| at in a.accepted && Source(cfg, a, at, k);
      assert Log(a, at.0) <= Log(b, at.0);
      assert Source(cfg, b, at, k);
    }
  }

  lemma JudgementsStaySound(cfg: Config, a: Sys, b: Sys)
    requires Sensible(cfg) && JudgementsSound(cfg, a) && Grows(a, b) && b.accepted == a.accepted && b.rejected == a.rejected
    ensures JudgementsSound(cfg, b)
  {
    forall at | at in b.accepted ensures at.1 < |Log(b, at.0)| && !cfg.invalid(At(b, at), b.clock) {
      assert Log(a, at.0) <= Log(b, at.0);
    }
    forall at | at in b.rejected ensures at.1 < |Log(b, at.0)| {
      assert Log(a, at.0) <= Log(b, at.0);
    }
  }

  lemma CommittedStaysSettled(cfg: Config, a: Sys, b: Sys)
    requires CommittedSettled(cfg, a) && Grows(a, b)
    requires forall p :: Committed(b, p) == Committed(a, p)
    ensures CommittedSettled(cfg, b)
  {
    forall p, o: nat | o < Committed(b, p) ensures Settled(cfg, b, (p, o)) {
      SettledStays(cfg, a, b, (p, o));
    }
  }

  /** A member nobody touched is still sound if what it owns was not committed to or
      handed to it meanwhile. */
  lemma MemberStaysSound(cfg: Config, a: Sys, b: Sys, c: nat, m: Member)
    requires MemberSound(cfg, a, c, m) && Grows(a, b)
    requires forall p :: p in b.owner && b.owner[p] == c ==>
               p in a.owner && a.owner[p] == c && Committed(b, p) == Committed(a, p)
    ensures MemberSound(cfg, b, c, m)
  {
    forall i | 0 <= i < |m.batch| ensures m.batch[i].1 < |Log(b, m.batch[i].0)| {
      assert Log(a, m.batch[i].0) <= Log(b, m.batch[i].0);
    }
    forall i | 0 <= i < m.done ensures Settled(cfg, b, m.batch[i]) {
      SettledStays(cfg, a, b, m.batch[i]);
    }
    forall p, o: nat | p in m.positions && o < m.positions[p] ensures Settled(cfg, b, (p, o)) || (p, o) in m.batch {
      if Settled(cfg, a, (p, o)) { SettledStays(cfg, a, b, (p, o)); }
    }
  }

  /** A step that leaves rows, judgements and commits alone keeps what they promise. */
  lemma SharedKept(cfg: Config, a: Sys, b: Sys)
    requires Sensible(cfg) && RowsFromLogs(cfg, a) && JudgementsSound(cfg, a) && CommittedSettled(cfg, a) && Grows(a, b)
    requires b.rows == a.rows && b.accepted == a.accepted && b.rejected == a.rejected && b.committed == a.committed
    ensures RowsFromLogs(cfg, b) && JudgementsSound(cfg, b) && CommittedSettled(cfg, b)
  {
    RowsStayFromLogs(cfg, a, b);
    JudgementsStaySound(cfg, a, b);
    CommittedStaysSettled(cfg, a, b);
  }

  ghost predicate MembersSound(cfg: Config, s: Sys) {
    forall c :: c in s.members ==> MemberSound(cfg, s, c, s.members[c])
  }

  /** Every member but `c` is unaffected by a step of `c`. */
  lemma OthersKept(cfg: Config, a: Sys, b: Sys, c: nat)
    requires MembersSound(cfg, a) && Grows(a, b)
    requires forall d :: d in b.members && d != c ==> d in a.members && b.members[d] == a.members[d]
    requires forall p :: p in b.owner && b.owner[p] != c ==>
               p in a.owner && a.owner[p] == b.owner[p] && Committed(b, p) == Committed(a, p)
    ensures forall d :: d in b.members && d != c ==> MemberSound(cfg, b, d, b.members[d])
  {
    forall d | d in b.members && d != c ensures MemberSound(cfg, b, d, b.members[d]) {
      MemberStaysSound(cfg, a, b, d, a.members[d]);
    }
  }

  lemma QuietMemberSound(cfg: Config, s: Sys, step: Step, c: nat)
    requires MembersSound(cfg, s) && Enabled(cfg, s, step) && c in Next(cfg, s, step).members
    requires step.Tick? || step.Append? || step.Join? || step.Crash?
    ensures MemberSound(cfg, Next(cfg, s, step), c, Next(cfg, s, step).members[c])
  {
    NextGrows(cfg, s, step);
    if c in s.members { MemberStaysSound(cfg, s, Next(cfg, s, step), c, s.members[c]); }
  }

  /** The steps that leave judgements, rows and commits alone. */
  lemma QuietStepKeepsInv(cfg: Config, s: Sys, step: Step)
    requires Sensible(cfg) && Inv(cfg, s) && Enabled(cfg, s, step)
    requires step.Tick? || step.Append? || step.Join? || step.Crash?
    ensures Inv(cfg, Next(cfg, s, step))
  {
    var b := Next(cfg, s, step);
    NextGrows(cfg, s, step);
    SharedKept(cfg, s, b);
    forall c | c in b.members ensures MemberSound(cfg, b, c, b.members[c]) {
      QuietMemberSound(cfg, s, step, c);
    }
  }

  lemma AssignedSound(cfg: Config, s: Sys, b: Sys, c: nat, p: nat)
    requires c in s.members && MemberSound(cfg, s, c, s.members[c]) && s.members[c].batch == []
    requires CommittedSettled(cfg, s) && b.(owner := s.owner, members := s.members) == s && b.owner == s.owner[p := c]
    ensures MemberSound(cfg, b, c, s.members[c].(positions := s.members[c].positions[p := Committed(s, p)]))
  {
    var m := s.members[c];
    var positions := m.positions[p := Committed(s, p)];
    forall q, o: nat | q in positions && o < positions[q] ensures Settled(cfg, b, (q, o)) {
      assert q == p || Settled(cfg, s, (q, o)) || (q, o) in m.batch;
      SettledStays(cfg, s, b, (q, o));
    }
  }

  lemma AssignKeepsInv(cfg: Config, s: Sys, c: nat, p: nat)
    requires Sensible(cfg) && Inv(cfg, s) && Enabled(cfg, s, Assign(c, p))
    ensures Inv(cfg, Next(cfg, s, Assign(c, p)))
  {
    var b := Next(cfg, s, Assign(c, p));
    NextGrows(cfg, s, Assign(c, p));
    SharedKept(cfg, s, b);
    OthersKept(cfg, s, b, c);
    AssignedSound(cfg, s, b, c, p);
  }

  /** What a poll's batch is made of. */
  lemma {:induction false} PolledBatch(s: Sys, positions: map<nat, nat>, batch: seq<Place>)
    requires Polled(s, positions, batch)
    ensures var moved := Moved(positions, batch);
      && moved.Keys == positions.Keys
      && (forall p :: p in positions ==> positions[p] <= moved[p])
      && (forall i :: 0 <= i < |batch| ==>
            batch[i].0 in positions && positions[batch[i].0] <= batch[i].1 < moved[batch[i].0]
            && batch[i].1 < |Log(s, batch[i].0)|)
      && (forall p, o: nat :: p in positions && positions[p] <= o < moved[p] ==> (p, o) in batch)
    decreases |batch|
  {
    if batch != [] {
      var (p0, o0) := batch[0];
      var next := positions[p0 := o0 + 1];
      PolledBatch(s, next, batch[1..]);
      var moved := Moved(positions, batch);
      forall p, o: nat | p in positions && positions[p] <= o < moved[p] ensures (p, o) in batch {
        if !(p == p0 && o == o0) {
          assert next[p] <= o;
          assert (p, o) in batch[1..];
        } else {
          assert batch[0] == (p, o);
        }
      }
    }
  }

  lemma PolledAccounts(cfg: Config, s: Sys, b: Sys, c: nat, batch: seq<Place>, p: nat, o: nat)
    requires c in s.members && MemberSound(cfg, s, c, s.members[c]) && s.members[c].batch == []
    requires b.(members := s.members) == s && Polled(s, s.members[c].positions, batch)
    requires var positions := Moved(s.members[c].positions, batch); p in positions && o < positions[p]
    ensures Settled(cfg, b, (p, o)) || (p, o) in batch
  {
    var before := s.members[c];
    PolledBatch(s, before.positions, batch);
    if o < before.positions[p] {
      assert Settled(cfg, s, (p, o)) || (p, o) in before.batch;
      SettledStays(cfg, s, b, (p, o));
    }
  }

  /** A poll reads on from where the member was, so nothing committed already. */
  lemma PolledAhead(cfg: Config, s: Sys, c: nat, batch: seq<Place>, p: nat)
    requires c in s.members && MemberSound(cfg, s, c, s.members[c]) && Polled(s, s.members[c].positions, batch)
    requires p in s.owner && s.owner[p] == c
    ensures var positions := Moved(s.members[c].positions, batch);
      && p in positions && Committed(s, p) <= positions[p]
      && forall i :: 0 <= i < |batch| && batch[i].0 == p ==> Committed(s, p) <= batch[i].1
  {
    PolledBatch(s, s.members[c].positions, batch);
  }

  lemma PolledSound(cfg: Config, s: Sys, b: Sys, c: nat, batch: seq<Place>)
    requires c in s.members && MemberSound(cfg, s, c, s.members[c]) && s.members[c].batch == []
    requires b.(members := s.members) == s && Polled(s, s.members[c].positions, batch)
    ensures MemberSound(cfg, b, c, Member(Moved(s.members[c].positions, batch), batch, 0, false))
  {
    var positions := Moved(s.members[c].positions, batch);
    PolledBatch(s, s.members[c].positions, batch);
    forall p, o: nat | p in positions && o < positions[p] ensures Settled(cfg, b, (p, o)) || (p, o) in batch {
      PolledAccounts(cfg, s, b, c, batch, p, o);
    }
    forall p | p in b.owner && b.owner[p] == c
      ensures p in positions && Committed(b, p) <= positions[p]
      ensures forall i :: 0 <= i < |batch| && batch[i].0 == p ==> Committed(b, p) <= batch[i].1
    {
      PolledAhead(cfg, s, c, batch, p);
    }
  }

  lemma PollKeepsInv(cfg: Config, s: Sys, c: nat, batch: seq<Place>)
    requires Sensible(cfg) && Inv(cfg, s) && Enabled(cfg, s, Poll(c, batch))
    ensures Inv(cfg, Next(cfg, s, Poll(c, batch)))
  {
    var b := Next(cfg, s, Poll(c, batch));
    NextGrows(cfg, s, Poll(c, batch));
    SharedKept(cfg, s, b);
    OthersKept(cfg, s, b, c);
    PolledSound(cfg, s, b, c, batch);
  }

  /** A member that settles its current record and moves on is sound. */
  lemma SettlesOne(cfg: Config, a: Sys, b: Sys, c: nat)
    requires c in a.members && MemberSound(cfg, a, c, a.members[c]) && Processing(a, c) && Grows(a, b)
    requires b.owner == a.owner && b.committed == a.committed
    requires Settled(cfg, b, Current(a, c))
    ensures var m := a.members[c]; MemberSound(cfg, b, c, m.(done := m.done + 1, judged := false))
  {
    MemberStaysSound(cfg, a, b, c, a.members[c]);
  }

  lemma DiscardShared(cfg: Config, s: Sys, c: nat)
    requires Sensible(cfg) && Inv(cfg, s) && Enabled(cfg, s, Discard(c))
    ensures var b := Next(cfg, s, Discard(c));
      RowsFromLogs(cfg, b) && JudgementsSound(cfg, b) && CommittedSettled(cfg, b)
  {
    var b := Next(cfg, s, Discard(c));
    NextGrows(cfg, s, Discard(c));
    RowsStayFromLogs(cfg, s, b);
    CommittedStaysSettled(cfg, s, b);
  }

  lemma DiscardKeepsInv(cfg: Config, s: Sys, c: nat)
    requires Sensible(cfg) && Inv(cfg, s) && Enabled(cfg, s, Discard(c))
    ensures Inv(cfg, Next(cfg, s, Discard(c)))
  {
    var b := Next(cfg, s, Discard(c));
    NextGrows(cfg, s, Discard(c));
    DiscardShared(cfg, s, c);
    OthersKept(cfg, s, b, c);
    SettlesOne(cfg, s, b, c);
    assert b.members[c] == s.members[c].(done := s.members[c].done + 1, judged := false);
  }

  lemma AcceptedSound(cfg: Config, s: Sys, b: Sys, c: nat)
    requires Processing(s, c) && MemberSound(cfg, s, c, s.members[c]) && Grows(s, b)
    requires b.owner == s.owner && b.committed == s.committed && Current(s, c) in b.accepted
    ensures MemberSound(cfg, b, c, s.members[c].(judged := true))
  {
    MemberStaysSound(cfg, s, b, c, s.members[c]);
  }

  lemma AcceptShared(cfg: Config, s: Sys, c: nat)
    requires Sensible(cfg) && Inv(cfg, s) && Enabled(cfg, s, Accept(c))
    ensures var b := Next(cfg, s, Accept(c));
      RowsFromLogs(cfg, b) && JudgementsSound(cfg, b) && CommittedSettled(cfg, b)
  {
    var b := Next(cfg, s, Accept(c));
    NextGrows(cfg, s, Accept(c));
    RowsStayFromLogs(cfg, s, b);
    JudgementsStaySound(cfg, s, b.(accepted := s.accepted));
    CommittedStaysSettled(cfg, s, b);
  }

  lemma AcceptKeepsInv(cfg: Config, s: Sys, c: nat)
    requires Sensible(cfg) && Inv(cfg, s) && Enabled(cfg, s, Accept(c))
    ensures Inv(cfg, Next(cfg, s, Accept(c)))
  {
    var b := Next(cfg, s, Accept(c));
    NextGrows(cfg, s, Accept(c));
    AcceptShared(cfg, s, c);
    OthersKept(cfg, s, b, c);
    AcceptedSound(cfg, s, b, c);
  }

  lemma InsertedRows(cfg: Config, s: Sys, b: Sys, at: Place)
    requires RowsFromLogs(cfg, s) && at in s.accepted && at.1 < |Log(s, at.0)|
    requires cfg.store(At(s, at)).Some?
    requires b.logs == s.logs && b.accepted == s.accepted && (b.rows == s.rows || b.rows == InsertRow(cfg, s, at))
    ensures RowsFromLogs(cfg, b)
    ensures b.rows == InsertRow(cfg, s, at) ==> Settled(cfg, b, at)
  {
    forall k | k in b.rows ensures exists x :: x in b.accepted && Source(cfg, b, x, k) {
      if k in s.rows {
        var x :| x in s.accepted && Source(cfg, s, x, k);
        assert Source(cfg, b, x, k);
      } else {
        assert Source(cfg, b, at, k);
      }
    }
  }

  lemma JudgedIsAccepted(cfg: Config, s: Sys, c: nat)
    requires Sensible(cfg) && Inv(cfg, s) && Processing(s, c) && s.members[c].judged
    ensures Current(s, c) in s.accepted && cfg.store(At(s, Current(s, c))).Some?
  {
    assert MemberSound(cfg, s, c, s.members[c]);
  }

  lemma InsertShared(cfg: Config, s: Sys, c: nat, applied: bool, ok: bool)
    requires Sensible(cfg) && Inv(cfg, s) && Enabled(cfg, s, Insert(c, applied, ok))
    ensures var b := Next(cfg, s, Insert(c, applied, ok));
      && RowsFromLogs(cfg, b) && JudgementsSound(cfg, b) && CommittedSettled(cfg, b)
      && (ok ==> Settled(cfg, b, Current(s, c)))
  {
    var b := Next(cfg, s, Insert(c, applied, ok));
    NextGrows(cfg, s, Insert(c, applied, ok));
    JudgedIsAccepted(cfg, s, c);
    InsertedRows(cfg, s, b, Current(s, c));
    JudgementsStaySound(cfg, s, b);
    CommittedStaysSettled(cfg, s, b);
  }

  lemma InsertMembers(cfg: Config, s: Sys, c: nat, applied: bool, ok: bool)
    requires MembersSound(cfg, s) && Enabled(cfg, s, Insert(c, applied, ok))
    requires ok ==> Settled(cfg, Next(cfg, s, Insert(c, applied, ok)), Current(s, c))
    ensures MembersSound(cfg, Next(cfg, s, Insert(c, applied, ok)))
  {
    var b := Next(cfg, s, Insert(c, applied, ok));
    NextGrows(cfg, s, Insert(c, applied, ok));
    OthersKept(cfg, s, b, c);
    if ok {
      SettlesOne(cfg, s, b, c);
    } else {
      MemberStaysSound(cfg, s, b, c, s.members[c]);
    }
  }

  lemma InsertKeepsInv(cfg: Config, s: Sys, c: nat, applied: bool, ok: bool)
    requires Sensible(cfg) && Inv(cfg, s) && Enabled(cfg, s, Insert(c, applied, ok))
    ensures Inv(cfg, Next(cfg, s, Insert(c, applied, ok)))
  {
    InsertShared(cfg, s, c, applied, ok);
    InsertMembers(cfg, s, c, applied, ok);
  }

  /** Entry `i` is the last of the batch for its partition. */
  predicate LastOf(batch: seq<Place>, i: nat) {
    i < |batch| && forall j :: i < j < |batch| ==> batch[j].0 != batch[i].0
  }

  /** Where a commit leaves each partition: just past its last record in the batch. */
  lemma {:induction false} AdvanceTo(committed: map<nat, nat>, batch: seq<Place>, stored: set<nat>, p: nat)
    ensures var after := Advance(committed, batch, stored);
      if p in stored && exists i :: 0 <= i < |batch| && batch[i].0 == p
      then p in after && exists i: nat :: LastOf(batch, i) && batch[i].0 == p && after[p] == batch[i].1 + 1
      else (p in after <==> p in committed) && (p in committed ==> after[p] == committed[p])
    decreases |batch|
  {
    if batch != [] {
      var next := if batch[0].0 in stored then committed[batch[0].0 := batch[0].1 + 1] else committed;
      AdvanceTo(next, batch[1..], stored, p);
      var after := Advance(committed, batch, stored);
      assert forall i :: 1 <= i < |batch| ==> batch[i] == batch[1..][i - 1];
      if i :| 0 <= i < |batch[1..]| && batch[1..][i].0 == p {
        assert batch[i + 1].0 == p;
        if p in stored {
          var j: nat :| LastOf(batch[1..], j) && batch[1..][j].0 == p && after[p] == batch[1..][j].1 + 1;
          assert LastOf(batch, j + 1) && batch[j + 1] == batch[1..][j];
        }
      } else if p in stored && batch[0].0 == p {
        assert LastOf(batch, 0) && after[p] == batch[0].1 + 1;
      }
    }
  }

  /** A finished batch moves commits only past settled records, and never backwards. */
  lemma CommitMoves(cfg: Config, s: Sys, c: nat, stored: set<nat>, b: Sys)
    requires c in s.members && MemberSound(cfg, s, c, s.members[c]) && CommittedSettled(cfg, s)
    requires s.members[c].done == |s.members[c].batch| && stored <= Owned(s, c, s.members[c].batch)
    requires Grows(s, b) && b.committed == Advance(s.committed, s.members[c].batch, stored)
    ensures CommittedSettled(cfg, b)
    ensures forall p :: Committed(s, p) <= Committed(b, p)
    ensures forall p :: p in s.members[c].positions ==> Committed(b, p) <= Committed(s, p) || Committed(b, p) <= s.members[c].positions[p]
    ensures forall p :: p !in stored ==> Committed(b, p) == Committed(s, p)
  {
    var m := s.members[c];
    forall p ensures Committed(s, p) <= Committed(b, p) && (p !in stored ==> Committed(b, p) == Committed(s, p))
      && (p in m.positions ==> Committed(b, p) <= Committed(s, p) || Committed(b, p) <= m.positions[p])
      && forall o: nat :: o < Committed(b, p) ==> Settled(cfg, b, (p, o))
    {
      CommitMovesTo(cfg, s, c, stored, b, p);
      forall o: nat | o < Committed(b, p) ensures Settled(cfg, b, (p, o)) {
        if o >= Committed(s, p) { ReadIsSettled(cfg, s, c, p, o); }
        SettledStays(cfg, s, b, (p, o));
      }
    }
  }

  lemma CommitMovesTo(cfg: Config, s: Sys, c: nat, stored: set<nat>, b: Sys, p: nat)
    requires c in s.members && MemberSound(cfg, s, c, s.members[c])
    requires stored <= Owned(s, c, s.members[c].batch) && b.committed == Advance(s.committed, s.members[c].batch, stored)
    ensures Committed(b, p) == Committed(s, p)
            || (p in stored && p in s.members[c].positions && Committed(s, p) <= Committed(b, p) <= s.members[c].positions[p])
  {
    AdvanceTo(s.committed, s.members[c].batch, stored, p);
  }

  /** Once its batch is done, all a member has read is settled. */
  lemma ReadIsSettled(cfg: Config, s: Sys, c: nat, p: nat, o: nat)
    requires c in s.members && MemberSound(cfg, s, c, s.members[c]) && s.members[c].done == |s.members[c].batch|
    requires p in s.members[c].positions && o < s.members[c].positions[p]
    ensures Settled(cfg, s, (p, o))
  {
    var m := s.members[c];
    if (p, o) in m.batch {
      var j :| 0 <= j < |m.batch| && m.batch[j] == (p, o);
      assert Settled(cfg, s, m.batch[j]);
    }
  }

  /** A member whose finished batch is committed starts over, sound. */
  lemma CommittedSound(cfg: Config, s: Sys, c: nat, b: Sys)
    requires c in s.members && MemberSound(cfg, s, c, s.members[c]) && Grows(s, b)
    requires s.members[c].done == |s.members[c].batch| && b.owner == s.owner
    requires forall p :: p in s.members[c].positions ==>
               Committed(b, p) <= Committed(s, p) || Committed(b, p) <= s.members[c].positions[p]
    ensures MemberSound(cfg, b, c, s.members[c].(batch := [], done := 0, judged := false))
  {
    var m := s.members[c];
    forall p, o: nat | p in m.positions && o < m.positions[p] ensures Settled(cfg, b, (p, o)) {
      ReadIsSettled(cfg, s, c, p, o);
      SettledStays(cfg, s, b, (p, o));
    }
  }

  lemma CommitKeepsInv(cfg: Config, s: Sys, c: nat)
    requires Sensible(cfg) && Inv(cfg, s) && Enabled(cfg, s, Commit(c))
    ensures Inv(cfg, Next(cfg, s, Commit(c)))
    ensures forall p :: Committed(s, p) <= Committed(Next(cfg, s, Commit(c)), p)
  {
    var b := Next(cfg, s, Commit(c));
    NextGrows(cfg, s, Commit(c));
    RowsStayFromLogs(cfg, s, b);
    JudgementsStaySound(cfg, s, b);
    CommitMoves(cfg, s, c, Partitions(s.members[c].batch), b);
    OthersKept(cfg, s, b, c);
    CommittedSound(cfg, s, c, b);
  }

  lemma CommitFailedKeepsInv(cfg: Config, s: Sys, c: nat, stored: set<nat>)
    requires Sensible(cfg) && Inv(cfg, s) && Enabled(cfg, s, CommitFailed(c, stored))
    ensures Inv(cfg, Next(cfg, s, CommitFailed(c, stored)))
    ensures forall p :: Committed(s, p) <= Committed(Next(cfg, s, CommitFailed(c, stored)), p)
  {
    var b := Next(cfg, s, CommitFailed(c, stored));
    NextGrows(cfg, s, CommitFailed(c, stored));
    RowsStayFromLogs(cfg, s, b);
    JudgementsStaySound(cfg, s, b);
    CommitMoves(cfg, s, c, stored, b);
    forall d | d in b.members ensures MemberSound(cfg, b, d, b.members[d]) {
      MemberStaysSound(cfg, s, b, d, s.members[d]);
    }
  }

  predicate Commits(step: Step) { step.Commit? || step.CommitFailed? }

  lemma WorkKeepsInv(cfg: Config, s: Sys, step: Step)
    requires Sensible(cfg) && Inv(cfg, s) && Enabled(cfg, s, step) && !Commits(step)
    ensures Inv(cfg, Next(cfg, s, step))
  {
    match step
    case Assign(c, p) => AssignKeepsInv(cfg, s, c, p);
    case Poll(c, batch) => PollKeepsInv(cfg, s, c, batch);
    case Discard(c) => DiscardKeepsInv(cfg, s, c);
    case Accept(c) => AcceptKeepsInv(cfg, s, c);
    case Insert(c, applied, ok) => InsertKeepsInv(cfg, s, c, applied, ok);
    case _ => QuietStepKeepsInv(cfg, s, step);
  }

  lemma WorkCommitsNothing(cfg: Config, s: Sys, step: Step)
    requires Enabled(cfg, s, step) && !Commits(step)
    ensures Next(cfg, s, step).committed == s.committed
  {}

  lemma StepKeepsInv(cfg: Config, s: Sys, step: Step)
    requires Sensible(cfg) && Inv(cfg, s) && Enabled(cfg, s, step)
    ensures Inv(cfg, Next(cfg, s, step))
    ensures forall p :: Committed(s, p) <= Committed(Next(cfg, s, step), p)
  {
    if step.Commit? {
      CommitKeepsInv(cfg, s, step.c);
    } else if step.CommitFailed? {
      CommitFailedKeepsInv(cfg, s, step.c, step.stored);
    } else {
      WorkKeepsInv(cfg, s, step);
      WorkCommitsNothing(cfg, s, step);
    }
  }

  lemma GrowsTransitive(a: Sys, b: Sys, c: Sys)
    requires Grows(a, b) && Grows(b, c)
    ensures Grows(a, c)
  {
    forall p ensures Log(a, p) <= Log(c, p) {
      assert Log(a, p) <= Log(b, p) <= Log(c, p);
    }
  }

  /** In every run of any number of members, with crashes, rebalances, zombies, failed
      commits and inserts that apply but report an error: the invariant holds, nothing
      stored or judged is undone, and no committed offset moves back. */
  lemma {:induction false} RunKeepsInv(cfg: Config, s: Sys, steps: seq<Step>)
    requires Sensible(cfg) && Inv(cfg, s) && IsRun(cfg, s, steps)
    ensures Inv(cfg, Exec(cfg, s, steps)) && Grows(s, Exec(cfg, s, steps))
    ensures forall p :: Committed(s, p) <= Committed(Exec(cfg, s, steps), p)
    decreases |steps|
  {
    if steps != [] {
      var next := Next(cfg, s, steps[0]);
      StepKeepsInv(cfg, s, steps[0]);
      NextGrows(cfg, s, steps[0]);
      RunKeepsInv(cfg, next, steps[1..]);
      GrowsTransitive(s, next, Exec(cfg, s, steps));
    }
  }

  // ---- Results ------------------------------------------------------------

  lemma StartSound(cfg: Config, now: int)
    ensures Inv(cfg, Start(now))
  {}

  /** Every record below a partition's committed offset was judged invalid or has its
      key stored, and every row is what a logged record judged valid is stored as. */
  lemma CommittedMeansSettled(cfg: Config, now: int, steps: seq<Step>, p: nat, o: nat)
    requires Sensible(cfg) && IsRun(cfg, Start(now), steps)
    requires o < Committed(Exec(cfg, Start(now), steps), p)
    ensures var s := Exec(cfg, Start(now), steps);
      Settled(cfg, s, (p, o)) && RowsFromLogs(cfg, s)
  {
    StartSound(cfg, now);
    RunKeepsInv(cfg, Start(now), steps);
  }

  /** One more step of a run. */
  lemma Extended(cfg: Config, s: Sys, steps: seq<Step>, end: Sys, step: Step) returns (more: seq<Step>, after: Sys)
    requires IsRun(cfg, s, steps) && Exec(cfg, s, steps) == end && Enabled(cfg, end, step)
    ensures more == steps + [step] && after == Next(cfg, end, step)
    ensures IsRun(cfg, s, more) && Exec(cfg, s, more) == after
  {
    more, after := steps + [step], Next(cfg, end, step);
    ExtendRun(cfg, s, steps, step);
  }

  lemma {:induction false} ExtendRun(cfg: Config, s: Sys, steps: seq<Step>, step: Step)
    requires IsRun(cfg, s, steps) && Enabled(cfg, Exec(cfg, s, steps), step)
    ensures IsRun(cfg, s, steps + [step])
    ensures Exec(cfg, s, steps + [step]) == Next(cfg, Exec(cfg, s, steps), step)
    decreases |steps|
  {
    if steps == [] {
      assert ([step])[1..] == [] && [] + [step] == [step];
      assert IsRun(cfg, Next(cfg, s, step), []);
    } else {
      ExtendRun(cfg, Next(cfg, s, steps[0]), steps[1..], step);
      assert (steps + [step])[1..] == steps[1..] + [step];
    }
  }

  /** A run in two parts. */
  lemma {:induction false} RunSplits(cfg: Config, s: Sys, a: seq<Step>, b: seq<Step>)
    requires IsRun(cfg, s, a)
    ensures IsRun(cfg, s, a + b) <==> IsRun(cfg, Exec(cfg, s, a), b)
    ensures IsRun(cfg, s, a + b) ==> Exec(cfg, s, a + b) == Exec(cfg, Exec(cfg, s, a), b)
    decreases |a|
  {
    if a == [] {
      assert a + b == b;
    } else {
      assert (a + b)[1..] == a[1..] + b;
      RunSplits(cfg, Next(cfg, s, a[0]), a[1..], b);
    }
  }
}
