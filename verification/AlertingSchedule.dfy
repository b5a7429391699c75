/** Which turn of the environment each page falls in, and so exactly when a level is paged,
    paged late or posted again. */
module AlertingSchedule {
  import opened Wrappers
  import opened Incidents
  import opened Alerting
  import opened AlertingSafety
  import opened Retries

  // ---- Posts are not deduplicated -----------------------------------------

  function Posts(trace: seq<Happening>, level: nat, reason: Reason): nat { multiset(trace)[Posted(level, reason)] }

  lemma {:induction false} DeliverPosts(st: St, signals: seq<Signal>, level: nat, reason: Reason)
    ensures Posts(Deliver(st, signals).trace, level, reason) == Posts(st.trace, level, reason)
    decreases |signals|
  {
    if signals != [] { DeliverPosts(Receive(st, signals[0]), signals[1..], level, reason); }
  }

  /** An attempt is heard once its row is acknowledged, which level zero never is. */
  function Tries(attempts: seq<Attempt>, level: nat): seq<Try> {
    seq(|attempts|, i requires 0 <= i < |attempts| => Try(attempts[i].posted, attempts[i].acked && level >= 1))
  }

  lemma LogPosts(st: St, h: Happening, level: nat, reason: Reason)
    ensures Posts(Log(st, h).trace, level, reason) == Posts(st.trace, level, reason) + if h == Posted(level, reason) then 1 else 0
  {}

  lemma AttemptedPosts(st: St, l: nat, r: Reason, attempt: Attempt, level: nat, reason: Reason)
    ensures Posts(Attempted(st, l, r, attempt).trace, level, reason)
         == Posts(st.trace, level, reason) + if (l, r) == (level, reason) && attempt.posted then 1 else 0
  {
    var st1 := if attempt.posted then Log(st, Posted(l, r)) else st;
    LogPosts(st, Posted(l, r), level, reason);
    var note := Notification(l, r, attempt.delivered);
    LogPosts(st1.(notes := st1.notes + [note]), Wrote(note), level, reason);
  }

  lemma {:induction false} AttemptPosts(st: St, l: nat, r: Reason, attempts: seq<Attempt>, level: nat, reason: Reason)
    ensures Posts(SendAttempts(st, l, r, attempts).0.trace, level, reason)
         == Posts(st.trace, level, reason) + if (l, r) == (level, reason) then Applied(Tries(attempts, l)) else 0
    decreases |attempts|
  {
    if attempts == [] {
    } else {
      assert Tries(attempts, l)[1..] == Tries(attempts[1..], l);
      AttemptedPosts(st, l, r, attempts[0], level, reason);
      AttemptPosts(Attempted(st, l, r, attempts[0]), l, r, attempts[1..], level, reason);
    }
  }

  // ---- Sent late ------------------------------------------------------------

  /** How many notifications of this reason were sent while the incident was no longer open. */
  function LateSends(trace: seq<Happening>, reason: Reason): nat {
    if trace == [] then 0
    else
      LateSends(Init(trace), reason)
      + (if Latest(trace).Paged? && Latest(trace).reason == reason && Latest(trace).db != Open then 1 else 0)
  }

  lemma {:induction false} LateEscalations(trace: seq<Happening>)
    ensures LateSends(trace, Escalation) == LatePages(trace)
  {
    if trace != [] { LateEscalations(Init(trace)); }
  }

  lemma {:induction false} SendAttemptsDone(st: St, l: nat, r: Reason, attempts: seq<Attempt>, reason: Reason)
    ensures var (st', done) := SendAttempts(st, l, r, attempts);
      && st'.script == st.script && st'.Owned() == st.Owned() && LateSends(st'.trace, reason) == LateSends(st.trace, reason)
      && (done <==> HeardOf(Tries(attempts, l)))
    decreases |attempts|
  {
    HeardOfSplits(Tries(attempts, l));
    if attempts != [] {
      assert Tries(attempts, l)[1..] == Tries(attempts[1..], l);
      AttemptedKeeps(st, l, r, attempts[0], reason);
      SendAttemptsDone(Attempted(st, l, r, attempts[0]), l, r, attempts[1..], reason);
    }
  }

  lemma AttemptedKeeps(st: St, l: nat, r: Reason, attempt: Attempt, reason: Reason)
    ensures var st' := Attempted(st, l, r, attempt);
      st'.script == st.script && st'.Owned() == st.Owned() && LateSends(st'.trace, reason) == LateSends(st.trace, reason)
  {
    var st1 := if attempt.posted then Log(st, Posted(l, r)) else st;
    var note := Notification(l, r, attempt.delivered);
    Appended(st.trace, Posted(l, r));
    Appended(st1.trace, Wrote(note));
  }

  lemma {:induction false} DeliverOwns(st: St, signals: seq<Signal>, reason: Reason)
    ensures Deliver(st, signals).Owned() <==> st.Owned() || signals != []
    ensures LateSends(Deliver(st, signals).trace, reason) == LateSends(st.trace, reason)
    decreases |signals|
  {
    if signals != [] {
      Appended(st.trace, Got(signals[0]));
      DeliverOwns(Receive(st, signals[0]), signals[1..], reason);
    }
  }

  // ---- What a script says ---------------------------------------------------

  /** The tries of a notification sent in this turn. */
  function Made(turn: Turn, level: nat): seq<Try> { Tries(Allowed(turn.attempts), level) }

  /** The retry policy makes five attempts where there is need of them. */
  lemma FiveAttempts(turn: Turn, level: nat)
    ensures |Made(turn, level)| == if |turn.attempts| < 5 then |turn.attempts| else 5
    ensures forall i :: 0 <= i < |Made(turn, level)| ==> Made(turn, level)[i].applies == turn.attempts[i].posted
  {}

  /** A level whose status is read in the first of these turns is paged in the second: the
      incident is read open and no signal has come. */
  predicate LevelPages(turns: seq<Turn>) {
    |turns| > 1 && turns[0].reachable && turns[0].db == Open && turns[0].signals == []
  }

  /** And its wait runs out, so the next level has its turn. */
  ghost predicate LevelEscalates(turns: seq<Turn>, level: nat) {
    && LevelPages(turns) && |turns| > 2 && HeardOf(Made(turns[1], level)) && !turns[2].cancelled
    && turns[1].signals == [] && turns[2].signals == []
  }

  /** The run escalates past level `k + 1`. */
  ghost predicate Escalates(script: seq<Turn>, k: nat) {
    3 * k <= |script| && LevelEscalates(script[3 * k..], k + 1)
  }

  /** The run pages level `k + 1`, in turn `3 * k + 1`. */
  ghost predicate Pages(script: seq<Turn>, k: nat) {
    (forall j :: 0 <= j < k ==> Escalates(script, j)) && 3 * k <= |script| && LevelPages(script[3 * k..])
  }

  /** The run escalates past every level, and says so in the turn after. */
  ghost predicate Exhausts(script: seq<Turn>, levels: nat) {
    (forall j :: 0 <= j < levels ==> Escalates(script, j)) && 3 * levels < |script|
  }

  // ---- What a run does --------------------------------------------------------

  /** So many late notifications of this reason and posts of this page in between. */
  ghost predicate Counted(a: St, b: St, level: nat, reason: Reason, late: nat, posts: nat) {
    && LateSends(b.trace, reason) == LateSends(a.trace, reason) + late
    && Posts(b.trace, level, reason) == Posts(a.trace, level, reason) + posts
  }

  function LateIn(turn: Turn, r: Reason, reason: Reason): nat { if r == reason && turn.db != Open then 1 else 0 }

  function PostsIn(turn: Turn, l: nat, r: Reason, level: nat, reason: Reason): nat {
    if (l, r) == (level, reason) then Applied(Made(turn, l)) else 0
  }

  lemma WaitCounts(st: St, level: nat, reason: Reason)
    requires st.script != []
    ensures Counted(st, Wait(st), level, reason, 0, 0) && Wait(st).script == st.script[1..]
    ensures Wait(st).Owned() <==> st.Owned() || st.script[0].signals != []
  {
    DeliverOwns(st, st.script[0].signals, reason);
    DeliverPosts(st, st.script[0].signals, level, reason);
  }

  lemma LogCounts(st: St, h: Happening, level: nat, reason: Reason)
    requires !h.Paged? && !h.Posted?
    ensures Counted(st, Log(st, h), level, reason, 0, 0)
  {
    LogPosts(st, h, level, reason);
    Appended(st.trace, h);
  }

  lemma SendCounts(st: St, l: nat, r: Reason, level: nat, reason: Reason)
    requires st.script != []
    ensures var (st', reply) := Send(st, l, r);
      && Counted(st, st', level, reason, LateIn(st.script[0], r, reason),
                 PostsIn(st.script[0], l, r, level, reason))
      && st'.script == st.script[1..] && st'.Owned() == (st.Owned() || st.script[0].signals != [])
      && reply == if HeardOf(Made(st.script[0], l)) then Done else Failure
  {
    var turn := st.script[0];
    var st1 := Log(st, Paged(l, r, turn.db));
    LogPosts(st, Paged(l, r, turn.db), level, reason);
    Appended(st.trace, Paged(l, r, turn.db));
    WaitCounts(st1, level, reason);
    AttemptPosts(Wait(st1), l, r, Allowed(turn.attempts), level, reason);
    SendAttemptsDone(Wait(st1), l, r, Allowed(turn.attempts), reason);
  }

  /** Sending and then waiting for an owner. */
  lemma PageLevelCounts(st: St, l: nat, level: nat, reason: Reason)
    requires !st.Owned()
    ensures var flow := PageLevel(st, l);
      var turns := st.script;
      && Counted(st, flow.st, level, reason, if turns == [] then 0 else LateIn(turns[0], Escalation, reason),
                 if turns == [] then 0 else PostsIn(turns[0], l, Escalation, level, reason))
      && (flow.Continue? <==> |turns| > 1 && HeardOf(Made(turns[0], l)) && !turns[1].cancelled
                              && turns[0].signals == [] && turns[1].signals == [])
      && (flow.Continue? ==> !flow.st.Owned() && flow.st.script == turns[2..]) && (flow.Break? ==> flow.st.Owned())
  {
    if st.script != [] {
      SendCounts(st, l, Escalation, level, reason);
      var st1 := Send(st, l, Escalation).0;
      if st1.script != [] { WaitCounts(st1, level, reason); }
    }
  }

  /** What one level does: it is paged exactly when the incident is read open before any
      signal, late exactly when it is no longer open by the turn of the page. */
  lemma OneLevelCounts(st: St, l: nat, level: nat, reason: Reason)
    requires !st.Owned()
    ensures var flow := OneLevel(st, l);
      && Counted(st, flow.st, level, reason, if LevelPages(st.script) then LateIn(st.script[1], Escalation, reason) else 0,
                 if LevelPages(st.script) then PostsIn(st.script[1], l, Escalation, level, reason) else 0)
      && (flow.Continue? <==> LevelEscalates(st.script, l))
      && (flow.Continue? ==> !flow.st.Owned() && flow.st.script == st.script[3..]) && (flow.Break? ==> flow.st.Owned())
  {
    if st.script != [] {
      WaitCounts(st, level, reason);
      var st1 := See(Wait(st), st.script[0].db);
      LogCounts(st1.(trace := Wait(st).trace), Read(st.script[0].db), level, reason);
      if !st1.Owned() { PageLevelCounts(st1, l, level, reason); }
    }
  }

  lemma CloseCounts(st: St, levels: nat, level: nat, reason: Reason)
    ensures Counted(st, Close(st, levels).0, level, reason,
                    if st.Owned() || st.script == [] then 0 else LateIn(st.script[0], Exhausted, reason),
                    if st.Owned() || st.script == [] then 0 else PostsIn(st.script[0], levels, Exhausted, level, reason))
  {
    LogCounts(st, Closed(st.Owned()), level, reason);
    if !st.Owned() && st.script != [] { SendCounts(Log(st, Closed(false)), levels, Exhausted, level, reason); }
  }

  // ---- Whole runs -------------------------------------------------------------

  /** The run has come to level `k + 1`, or past the last one, with no owner known. */
  ghost predicate Placed(st: St, script: seq<Turn>, k: nat) {
    && (forall j :: 0 <= j < k ==> Escalates(script, j))
    && !st.Owned() && 3 * k <= |script| && st.script == script[3 * k..]
  }

  /** What level `k + 1` adds to a run. */
  ghost function LateBy(script: seq<Turn>, k: nat, reason: Reason): nat {
    if Pages(script, k) then LateIn(script[3 * k + 1], Escalation, reason) else 0
  }

  ghost function PostsBy(script: seq<Turn>, k: nat, level: nat, reason: Reason): nat {
    if Pages(script, k) then PostsIn(script[3 * k + 1], k + 1, Escalation, level, reason) else 0
  }

  /** What a run past every level adds. */
  ghost function LateAtEnd(script: seq<Turn>, levels: nat, reason: Reason): nat {
    if Exhausts(script, levels) then LateIn(script[3 * levels], Exhausted, reason) else 0
  }

  ghost function PostsAtEnd(script: seq<Turn>, levels: nat, level: nat, reason: Reason): nat {
    if Exhausts(script, levels) then PostsIn(script[3 * levels], levels, Exhausted, level, reason) else 0
  }

  /** What a run adds from level `k + 1` on. */
  ghost function LateFrom(script: seq<Turn>, levels: nat, k: nat, reason: Reason): nat
    requires k <= levels
    decreases levels - k
  {
    if k == levels then LateAtEnd(script, levels, reason)
    else LateBy(script, k, reason) + LateFrom(script, levels, k + 1, reason)
  }

  ghost function PostsFrom(script: seq<Turn>, levels: nat, k: nat, level: nat, reason: Reason): nat
    requires k <= levels
    decreases levels - k
  {
    if k == levels then PostsAtEnd(script, levels, level, reason)
    else PostsBy(script, k, level, reason) + PostsFrom(script, levels, k + 1, level, reason)
  }

  lemma {:induction false} NothingFrom(script: seq<Turn>, levels: nat, k: nat, level: nat, reason: Reason, stuck: nat)
    requires stuck < k <= levels && !Escalates(script, stuck)
    ensures LateFrom(script, levels, k, reason) == 0 && PostsFrom(script, levels, k, level, reason) == 0
    decreases levels - k
  {
    assert !Pages(script, k) && !Exhausts(script, levels);
    if k < levels { NothingFrom(script, levels, k + 1, level, reason, stuck); }
  }

  lemma LevelPlaces(st: St, script: seq<Turn>, k: nat, level: nat, reason: Reason)
    requires Placed(st, script, k)
    ensures var flow := OneLevel(st, k + 1);
      && Counted(st, flow.st, level, reason, LateBy(script, k, reason), PostsBy(script, k, level, reason))
      && (flow.Continue? <==> Escalates(script, k)) && (flow.Continue? ==> Placed(flow.st, script, k + 1))
      && (flow.Break? ==> flow.st.Owned())
  {
    OneLevelCounts(st, k + 1, level, reason);
    if OneLevel(st, k + 1).Continue? { assert script[3 * k..][3..] == script[3 * (k + 1)..]; }
  }

  lemma {:induction false} RunCounts(st: St, script: seq<Turn>, levels: nat, k: nat, level: nat, reason: Reason)
    requires k <= levels && Placed(st, script, k)
    ensures Counted(st, Run(st, levels, k).0, level, reason,
                    LateFrom(script, levels, k, reason), PostsFrom(script, levels, k, level, reason))
    decreases levels - k
  {
    if k == levels {
      CloseCounts(st, levels, level, reason);
    } else {
      LevelPlaces(st, script, k, level, reason);
      var flow := OneLevel(st, k + 1);
      if flow.Continue? {
        RunCounts(flow.st, script, levels, k + 1, level, reason);
      } else {
        NothingFrom(script, levels, k + 1, level, reason, k);
        CloseCounts(flow.st, levels, level, reason);
      }
    }
  }

  lemma StartPlaced(script: seq<Turn>)
    ensures Placed(Start(script), script, 0)
  {
    assert script[0..] == script;
  }

  lemma {:induction false} LateFromSomeLevel(script: seq<Turn>, levels: nat, k: nat)
    requires k <= levels
    ensures LateFrom(script, levels, k, Escalation) > 0 <==>
      exists j :: k <= j < levels && Pages(script, j) && script[3 * j + 1].db != Open
    decreases levels - k
  {
    if k < levels {
      LateFromSomeLevel(script, levels, k + 1);
      assert LateBy(script, k, Escalation) > 0 <==> Pages(script, k) && script[3 * k + 1].db != Open;
    }
  }

  /** A level is paged although the incident is no longer open exactly when the run comes to
      that level, reads the incident open with no signal yet, and the incident has left open
      by the next turn. */
  lemma LatePageExactlyWhen(script: seq<Turn>, levels: nat)
    ensures LatePages(TraceOf(script, levels)) > 0 <==>
      exists k :: 0 <= k < levels && Pages(script, k) && script[3 * k + 1].db != Open
  {
    StartPlaced(script);
    RunCounts(Start(script), script, levels, 0, 0, Escalation);
    LateEscalations(TraceOf(script, levels));
    LateFromSomeLevel(script, levels, 0);
  }

  lemma {:induction false} LateFromEnd(script: seq<Turn>, levels: nat, k: nat)
    requires k <= levels
    ensures LateFrom(script, levels, k, Exhausted) == LateAtEnd(script, levels, Exhausted)
    decreases levels - k
  {
    if k < levels { LateFromEnd(script, levels, k + 1); }
  }

  /** An incident no longer open is announced as exhausted exactly when the run escalates
      past every level, every read before a page being open and no signal heard, and the
      incident has left open by the turn after the last wait. */
  lemma LateExhaustionExactlyWhen(script: seq<Turn>, levels: nat)
    ensures LateSends(TraceOf(script, levels), Exhausted) > 0 <==>
      Exhausts(script, levels) && script[3 * levels].db != Open
  {
    StartPlaced(script);
    RunCounts(Start(script), script, levels, 0, 0, Exhausted);
    LateFromEnd(script, levels, 0);
  }

  /** The turn of the environment in which a run sends this page, if it sends it. */
  ghost function PageTurn(script: seq<Turn>, levels: nat, level: nat, reason: Reason): (turn: Option<Turn>) {
    match reason
    case Escalation => if 1 <= level <= levels && Pages(script, level - 1) then Some(script[3 * level - 2]) else None
    case Exhausted => if level == levels && Exhausts(script, levels) then Some(script[3 * levels]) else None
  }

  lemma OtherLevelPostsNothing(script: seq<Turn>, k: nat, level: nat, reason: Reason)
    requires (k + 1, Escalation) != (level, reason)
    ensures PostsBy(script, k, level, reason) == 0
  {}

  lemma {:induction false} PostsFromOwnLevel(script: seq<Turn>, levels: nat, k: nat, level: nat, reason: Reason)
    requires k <= levels
    ensures PostsFrom(script, levels, k, level, reason) == PostsAtEnd(script, levels, level, reason) +
      if reason == Escalation && k < level <= levels then PostsBy(script, level - 1, level, reason) else 0
    decreases levels - k
  {
    if k < levels {
      PostsFromOwnLevel(script, levels, k + 1, level, reason);
      if (k + 1, Escalation) != (level, reason) { OtherLevelPostsNothing(script, k, level, reason); }
    }
  }

  /** How often a run posts a page: as often as the attempts of its turn post, if that turn
      comes, and so at most as often as the retry policy allows. */
  lemma PagePostsExactly(script: seq<Turn>, levels: nat, level: nat, reason: Reason)
    ensures var turn := PageTurn(script, levels, level, reason);
      Posts(TraceOf(script, levels), level, reason) == if turn.Some? then Applied(Made(turn.value, level)) else 0
    ensures Posts(TraceOf(script, levels), level, reason) <= 5
  {
    StartPlaced(script);
    RunCounts(Start(script), script, levels, 0, level, reason);
    PostsFromOwnLevel(script, levels, 0, level, reason);
    var turn := PageTurn(script, levels, level, reason);
    if turn.Some? { AppliedBounds(Made(turn.value, level)); }
  }

  /** A run posts a page again exactly when it sends it and, in that turn, an attempt that
      posted goes unheard and a later one posts. */
  lemma PageRepeatsExactlyWhen(script: seq<Turn>, levels: nat, level: nat, reason: Reason)
    ensures Posts(TraceOf(script, levels), level, reason) >= 2 <==>
      var turn := PageTurn(script, levels, level, reason);
      turn.Some? && Repeats(Made(turn.value, level))
  {
    PagePostsExactly(script, levels, level, reason);
    var turn := PageTurn(script, levels, level, reason);
    if turn.Some? { AppliedTwiceExactlyWhen(Made(turn.value, level)); }
  }

  // ---- How a run ends -----------------------------------------------------------

  /** A level finds an owner: by its status read, or by a signal before its wait runs out. */
  ghost predicate LevelOwned(turns: seq<Turn>, level: nat) {
    && turns != [] && turns[0].reachable
    && (turns[0].db != Open || turns[0].signals != []
        || (|turns| > 2 && HeardOf(Made(turns[1], level)) && !turns[2].cancelled
            && (turns[1].signals != [] || turns[2].signals != [])))
  }

  /** A level fails: its status cannot be read, its page is never heard to be recorded, or its
      wait is cancelled. */
  ghost predicate LevelErrs(turns: seq<Turn>, level: nat) {
    && turns != []
    && (!turns[0].reachable
        || (LevelPages(turns) && (!HeardOf(Made(turns[1], level)) || (|turns| > 2 && turns[2].cancelled))))
  }

  lemma PageLevelEnds(st: St, l: nat)
    requires !st.Owned()
    ensures var flow, turns := PageLevel(st, l), st.script;
      && (flow.Break? <==> |turns| > 1 && HeardOf(Made(turns[0], l)) && !turns[1].cancelled
                           && (turns[0].signals != [] || turns[1].signals != []))
      && (flow.Stop? && flow.outcome == Errored <==>
            turns != [] && (!HeardOf(Made(turns[0], l)) || (|turns| > 1 && turns[1].cancelled)))
      && (flow.Stop? ==> flow.outcome in {Errored, Running}) && (flow.Break? ==> flow.st.Owned())
  {
    if st.script != [] {
      SendCounts(st, l, Escalation, l, Escalation);
      var st1 := Send(st, l, Escalation).0;
      if st1.script != [] { WaitCounts(st1, l, Escalation); }
    }
  }

  lemma OneLevelEnds(st: St, l: nat)
    requires !st.Owned()
    ensures var flow := OneLevel(st, l);
      && (flow.Break? <==> LevelOwned(st.script, l))
      && (flow.Stop? && flow.outcome == Errored <==> LevelErrs(st.script, l))
      && (flow.Stop? ==> flow.outcome in {Errored, Running}) && (flow.Break? ==> flow.st.Owned())
  {
    if st.script != [] {
      WaitCounts(st, l, Escalation);
      var st1 := See(Wait(st), st.script[0].db);
      if !st1.Owned() { PageLevelEnds(st1, l); }
    }
  }

  /** The run comes to level `k + 1`, or past the last level, and escalates no further. */
  ghost predicate LastLevel(script: seq<Turn>, levels: nat, k: nat) {
    && k <= levels && (forall j :: 0 <= j < k ==> Escalates(script, j)) && 3 * k <= |script|
    && (k < levels ==> !Escalates(script, k))
  }

  /** Nothing went wrong: an owner was found, or the exhaustion was heard to be recorded. */
  ghost predicate EndsWell(script: seq<Turn>, levels: nat, k: nat)
    requires 3 * k <= |script|
  {
    if k < levels then LevelOwned(script[3 * k..], k + 1)
    else 3 * k < |script| && HeardOf(Made(script[3 * k], levels))
  }

  ghost predicate EndsBadly(script: seq<Turn>, levels: nat, k: nat)
    requires 3 * k <= |script|
  {
    if k < levels then LevelErrs(script[3 * k..], k + 1)
    else 3 * k < |script| && !HeardOf(Made(script[3 * k], levels))
  }

  lemma CloseEnds(st: St, levels: nat)
    ensures Close(st, levels).1 ==
      if st.Owned() then Completed else if st.script == [] then Running
      else if HeardOf(Made(st.script[0], levels)) then Completed else Errored
  {
    if !st.Owned() && st.script != [] { SendCounts(Log(st, Closed(false)), levels, Exhausted, levels, Exhausted); }
  }

  lemma {:induction false} RunEnds(st: St, script: seq<Turn>, levels: nat, k: nat) returns (last: nat)
    requires k <= levels && Placed(st, script, k)
    ensures LastLevel(script, levels, last)
    ensures var outcome := Run(st, levels, k).1;
      && (outcome == Completed <==> EndsWell(script, levels, last)) && (outcome == Errored <==> EndsBadly(script, levels, last))
    decreases levels - k
  {
    last := k;
    if k == levels {
      CloseEnds(st, levels);
    } else {
      LevelPlaces(st, script, k, 0, Escalation);
      OneLevelEnds(st, k + 1);
      var flow := OneLevel(st, k + 1);
      if flow.Continue? {
        last := RunEnds(flow.st, script, levels, k + 1);
      } else if flow.Break? {
        CloseEnds(flow.st, levels);
      }
    }
  }

  lemma OneLastLevel(script: seq<Turn>, levels: nat, j: nat, k: nat)
    requires LastLevel(script, levels, j) && LastLevel(script, levels, k)
    ensures j == k
  {}

  /** A run ends well exactly when the level it comes to last finds an owner, or every level
      times out and the exhaustion is heard to be recorded. It fails exactly when that level's
      read, page or wait fails, or the exhaustion is never heard to be recorded. */
  lemma EndsExactlyWhen(script: seq<Turn>, levels: nat, k: nat)
    requires LastLevel(script, levels, k)
    ensures var outcome := Run(Start(script), levels, 0).1;
      && (outcome == Completed <==> EndsWell(script, levels, k)) && (outcome == Errored <==> EndsBadly(script, levels, k))
  {
    StartPlaced(script);
    var last := RunEnds(Start(script), script, levels, 0);
    OneLastLevel(script, levels, last, k);
  }

  /** Two posts, the first of which was recorded without the workflow hearing of it. */
  const UNHEARD := [Attempt(true, true, true, false), Attempt(true, true, true, true)]

  lemma RecordsOnce(st: St)
    requires st.script != [] && st.script[0].signals == [] && st.script[0].attempts == UNHEARD && st.notes == []
    ensures var (st', reply) := Send(st, 1, Escalation);
      && reply == Done && st'.script == st.script[1..] && st'.notes == [Notification(1, Escalation, true)]
      && st'.acked == st.acked && st'.resolved == st.resolved
  {
    var page := Notification(1, Escalation, true);
    var s1 := Log(st, Paged(1, Escalation, st.script[0].db));
    var s2 := s1.(script := st.script[1..]);
    assert Wait(s1) == s2;
    var s3 := Insert(Log(s2, Posted(1, Escalation)), page);
    assert Attempted(s2, 1, Escalation, UNHEARD[0]) == s3 && s3.notes == [page] && [page][0] == page;
    var s4 := Log(s3, Posted(1, Escalation));
    assert HasNote([page], 1, Escalation) && UNHEARD[1..] == [Attempt(true, true, true, true)];
    assert Attempted(s3, 1, Escalation, UNHEARD[1]) == s4;
  }

  /** And it is posted again: an attempt whose row was written but not heard of is
      repeated, and the table takes the row once. */
  lemma PageCanBePostedTwice() returns (script: seq<Turn>)
    ensures var (st, outcome) := Run(Start(script), 1, 0);
      && outcome == Completed && Posts(st.trace, 1, Escalation) == 2
      && st.notes == [Notification(1, Escalation, true)]
  {
    script := [Turn([], Open, true, [], false), Turn([], Open, true, UNHEARD, false),
               Turn([AcknowledgeSignal], Acknowledged, true, [], false)];
    var s1 := See(Start(script).(script := script[1..]), Open);
    assert See(Wait(Start(script)), Open) == s1;
    RecordsOnce(s1);
    var s4 := Send(s1, 1, Escalation).0;
    var s5 := Receive(s4, AcknowledgeSignal).(script := []);
    assert script[2..][1..] == [] && Deliver(s4, [AcknowledgeSignal]) == Receive(s4, AcknowledgeSignal);
    assert OneLevel(Start(script), 1) == Break(s5);
    assert Close(s5, 1) == (Log(s5, Closed(true)), Completed);
    PostsTwice(script);
  }

  lemma PostsTwice(script: seq<Turn>)
    requires |script| > 1 && script[1].attempts == UNHEARD && LevelPages(script)
    ensures Posts(TraceOf(script, 1), 1, Escalation) == 2
  {
    var made := Made(script[1], 1);
    assert made == [Try(true, false), Try(true, true)] && made[1..] == [Try(true, true)];
    assert script[0..] == script && Pages(script, 0);
    PagePostsExactly(script, 1, 1, Escalation);
    assert Applied(made[1..]) == 1;
  }
}
