/** The session-scoped advisory lock that keeps a periodic loop on one replica. */
module CycleLock {
  import opened Wrappers

  /** The server's sessions and its one lock (a session that has it may take it again),
      each replica's pool of connections, and the connection each replica's lock object
      keeps. `home` says whose pool a session is from, `out` which are checked out. */
  datatype Sys = Sys(
    alive: set<nat>, holder: Option<nat>, depth: nat,
    home: map<nat, nat>, out: set<nat>, conn: map<nat, nat>)

  /** Local bookkeeping that follows a server's reply is part of the same step. */
  datatype Step =
    | Die(s: nat)
    | Connect(r: nat, s: nat)
    | Checkout(r: nat, s: nat)
    | TryLock(r: nat, s: nat)
    | Unlock(r: nat)
    | Forget(r: nat)
    | GiveBack(r: nat, s: nat)

  predicate Enabled(sys: Sys, step: Step) {
    match step
    case Die(s) => s in sys.alive
    case Connect(r, s) => s !in sys.home
    case Checkout(r, s) => s in sys.home && sys.home[s] == r && s !in sys.out
    case TryLock(r, s) => s in sys.home && sys.home[s] == r && s in sys.out && s in sys.alive && r !in sys.conn
    case Unlock(r) => r in sys.conn && sys.conn[r] in sys.alive
    case Forget(r) => r in sys.conn && sys.conn[r] !in sys.alive
    case GiveBack(r, s) => s in sys.home && sys.home[s] == r && s in sys.out && !(r in sys.conn && sys.conn[r] == s)
  }

  predicate Granted(sys: Sys, s: nat) { sys.holder in {None, Some(s)} }

  function Next(sys: Sys, step: Step): Sys
    requires Enabled(sys, step)
  {
    match step
    case Die(s) =>
      var freed := sys.holder == Some(s);
      sys.(alive := sys.alive - {s}, holder := if freed then None else sys.holder, depth := if freed then 0 else sys.depth)
    case Connect(r, s) => sys.(alive := sys.alive + {s}, home := sys.home[s := r], out := sys.out + {s})
    case Checkout(r, s) => sys.(out := sys.out + {s})
    case TryLock(r, s) =>
      if Granted(sys, s) then sys.(holder := Some(s), depth := sys.depth + 1, conn := sys.conn[r := s]) else sys
    case Unlock(r) =>
      var mine := sys.holder == Some(sys.conn[r]);
      sys.(depth := if mine && sys.depth > 0 then sys.depth - 1 else sys.depth,
           holder := if mine && sys.depth <= 1 then None else sys.holder,
           conn := sys.conn - {r})
    case Forget(r) => sys.(conn := sys.conn - {r})
    case GiveBack(r, s) => sys.(out := sys.out - {s})
  }

  predicate IsRun(sys: Sys, steps: seq<Step>)
    decreases |steps|
  {
    steps == [] || (Enabled(sys, steps[0]) && IsRun(Next(sys, steps[0]), steps[1..]))
  }

  function Exec(sys: Sys, steps: seq<Step>): Sys
    requires IsRun(sys, steps)
    decreases |steps|
  {
    if steps == [] then sys else Exec(Next(sys, steps[0]), steps[1..])
  }

  const START := Sys({}, None, 0, map[], {}, map[])

  /** The lock is with a live session that some replica keeps; a kept session that lives
      has the lock; idle connections never do. */
  predicate Inv(sys: Sys) {
    && sys.out <= sys.home.Keys && sys.alive <= sys.home.Keys
    && (sys.holder.Some? ==>
          var h := sys.holder.value;
          h in sys.alive && sys.depth == 1 && sys.home[h] in sys.conn && sys.conn[sys.home[h]] == h)
    && (sys.holder.None? ==> sys.depth == 0)
    && (forall r :: r in sys.conn ==>
          && sys.conn[r] in sys.out && sys.home[sys.conn[r]] == r
          && (sys.conn[r] in sys.alive ==> sys.holder == Some(sys.conn[r])))
  }

  /** A replica's lock object keeps a session that is alive and has the lock. */
  predicate Leads(sys: Sys, r: nat) {
    r in sys.conn && sys.conn[r] in sys.alive && sys.holder == Some(sys.conn[r])
  }

  lemma StepKeepsInv(sys: Sys, step: Step)
    requires Inv(sys) && Enabled(sys, step)
    ensures Inv(Next(sys, step))
  {}

  lemma {:induction false} RunKeepsInv(sys: Sys, steps: seq<Step>)
    requires Inv(sys) && IsRun(sys, steps)
    ensures Inv(Exec(sys, steps))
    decreases |steps|
  {
    if steps == [] {
    } else {
      StepKeepsInv(sys, steps[0]);
      RunKeepsInv(Next(sys, steps[0]), steps[1..]);
    }
  }

  /** In every run, with connections dying anywhere, at most one replica keeps a live
      session from a successful acquire, and the lock is never with an idle connection. */
  lemma OneLeader(steps: seq<Step>, a: nat, b: nat)
    requires IsRun(START, steps)
    ensures var sys := Exec(START, steps);
      && (a in sys.conn && sys.conn[a] in sys.alive ==> Leads(sys, a))
      && (Leads(sys, a) && Leads(sys, b) ==> a == b)
      && (sys.holder.Some? ==> sys.holder.value in sys.home && sys.holder.value in sys.out && Leads(sys, sys.home[sys.holder.value]))
  {
    RunKeepsInv(START, steps);
  }

  predicate LosesLead(step: Step, r: nat, s: nat) { step == Unlock(r) || step == Die(s) }

  /** Leadership stays until the leader releases it or its session is lost. */
  lemma {:induction false} LeadershipSticks(sys: Sys, steps: seq<Step>, r: nat)
    requires Inv(sys) && IsRun(sys, steps) && Leads(sys, r)
    requires forall i :: 0 <= i < |steps| ==> !LosesLead(steps[i], r, sys.conn[r])
    ensures Leads(Exec(sys, steps), r) && Exec(sys, steps).conn[r] == sys.conn[r]
    decreases |steps|
  {
    if steps == [] {
    } else {
      var next := Next(sys, steps[0]);
      StepKeepsInv(sys, steps[0]);
      assert !LosesLead(steps[0], r, sys.conn[r]);
      assert Leads(next, r) && next.conn[r] == sys.conn[r];
      forall i | 0 <= i < |steps[1..]| ensures !LosesLead(steps[1..][i], r, sys.conn[r]) {
        assert steps[1..][i] == steps[i + 1];
      }
      LeadershipSticks(next, steps[1..], r);
    }
  }

  // ---- The lock object -----------------------------------------------------

  /** Sessions are never reopened under the same name. */
  predicate DeadStayDead(a: Sys, b: Sys) { a.home.Keys <= b.home.Keys && b.alive * a.home.Keys <= a.alive }

  predicate ActsFor(step: Step, r: nat) { !step.Die? && step.r == r }

  /** The connections a replica has checked out, and the one its lock object keeps. */
  function CheckedOut(sys: Sys, r: nat): set<nat> { set s | s in sys.out && s in sys.home && sys.home[s] == r }

  function Kept(sys: Sys, r: nat): set<nat> { if r in sys.conn then {sys.conn[r]} else {} }

  lemma {:induction false} ExtendRun(sys: Sys, steps: seq<Step>, step: Step)
    requires IsRun(sys, steps) && Enabled(Exec(sys, steps), step)
    ensures IsRun(sys, steps + [step]) && Exec(sys, steps + [step]) == Next(Exec(sys, steps), step)
    decreases |steps|
  {
    if steps == [] {
    } else {
      assert (steps + [step])[1..] == steps[1..] + [step];
      ExtendRun(Next(sys, steps[0]), steps[1..], step);
    }
  }

  class World {
    var sys: Sys
    ghost var steps: seq<Step>

    ghost predicate Valid()
      reads this
    {
      IsRun(START, steps) && Exec(START, steps) == sys && Inv(sys)
    }

    constructor ()
      ensures Valid() && sys == START && steps == []
    {
      sys, steps := START, [];
    }

    method Do(step: Step)
      requires Valid() && Enabled(sys, step)
      modifies this
      ensures Valid() && sys == Next(old(sys), step) && steps == old(steps) + [step]
    {
      ExtendRun(START, steps, step);
      StepKeepsInv(sys, step);
      sys := Next(sys, step);
      steps := steps + [step];
    }

    /** Other replicas, and sessions dying, `r`'s own among them. */
    method Others(r: nat)
      requires Valid()
      modifies this
      ensures Valid() && old(steps) <= steps
      ensures forall i :: |old(steps)| <= i < |steps| ==> !ActsFor(steps[i], r)
      ensures CheckedOut(sys, r) == CheckedOut(old(sys), r) && Kept(sys, r) == Kept(old(sys), r)
      ensures DeadStayDead(old(sys), sys)
    {
      var turns :| 0 <= turns;
      for i := 0 to turns
        invariant Valid() && old(steps) <= steps
        invariant forall i :: |old(steps)| <= i < |steps| ==> !ActsFor(steps[i], r)
        invariant CheckedOut(sys, r) == CheckedOut(old(sys), r) && Kept(sys, r) == Kept(old(sys), r)
        invariant DeadStayDead(old(sys), sys)
      {
        var step: Step := *;
        if Enabled(sys, step) && !ActsFor(step, r) {
          LeavesPool(sys, step, r);
          Do(step);
        }
      }
    }
  }

  lemma LeavesPool(sys: Sys, step: Step, r: nat)
    requires Inv(sys) && Enabled(sys, step) && !ActsFor(step, r)
    ensures CheckedOut(Next(sys, step), r) == CheckedOut(sys, r) && Kept(Next(sys, step), r) == Kept(sys, r)
  {}

  /** Since `from`, the replica tried the lock on some session of its own, and whether the
      server granted it, which it does when the lock is free. */
  ghost predicate Tried(steps: seq<Step>, from: nat, r: nat, granted: bool) {
    exists i: nat, s: nat :: TriedAt(steps, from, r, granted, i, s)
  }

  ghost predicate TriedAt(steps: seq<Step>, from: nat, r: nat, granted: bool, i: nat, s: nat) {
    && from <= i < |steps| && steps[i] == TryLock(r, s) && IsRun(START, steps[..i])
    && (granted <==> Exec(START, steps[..i]).holder in {None, Some(s)})
  }

  /** The sessions a replica was given since `from`. */
  predicate Given(steps: seq<Step>, from: nat, r: nat, s: nat) {
    exists i :: from <= i < |steps| && steps[i] in {Checkout(r, s), Connect(r, s)}
  }

  lemma TriedStays(a: seq<Step>, b: seq<Step>, from: nat, r: nat, granted: bool)
    requires a <= b && Tried(a, from, r, granted)
    ensures Tried(b, from, r, granted)
  {
    var i: nat, s: nat :| TriedAt(a, from, r, granted, i, s);
    assert a[..i] == b[..i] && TriedAt(b, from, r, granted, i, s);
  }

  /** The lock was tried while another session had it, or no live session was to be had. */
  ghost predicate Missed(sys: Sys, steps: seq<Step>, from: nat, r: nat) {
    Tried(steps, from, r, false) || forall s :: Given(steps, from, r, s) ==> s !in sys.alive
  }

  lemma TriedSince(steps: seq<Step>, earlier: nat, from: nat, r: nat, granted: bool)
    requires earlier <= from && Tried(steps, from, r, granted)
    ensures Tried(steps, earlier, r, granted)
  {
    var i: nat, s: nat :| TriedAt(steps, from, r, granted, i, s);
    assert TriedAt(steps, earlier, r, granted, i, s);
  }

  lemma MissedSince(sys: Sys, steps: seq<Step>, earlier: nat, from: nat, r: nat)
    requires earlier <= from <= |steps| && Missed(sys, steps, from, r)
    requires forall i :: earlier <= i < from ==> !(steps[i].Checkout? || steps[i].Connect?) || steps[i].r != r
    ensures Missed(sys, steps, earlier, r)
  {
    if Tried(steps, from, r, false) {
      TriedSince(steps, earlier, from, r, false);
    } else {
      forall s | Given(steps, earlier, r, s) ensures s !in sys.alive {
        var i :| earlier <= i < |steps| && steps[i] in {Checkout(r, s), Connect(r, s)};
        assert Given(steps, from, r, s);
      }
    }
  }

  class Lock {
    const world: World
    const r: nat

    constructor (world: World, r: nat)
      ensures this.world == world && this.r == r
    {
      this.world, this.r := world, r;
    }

    /** A connection from the pool, idle or new, if the pool can give one. */
    method FromPool() returns (s: Option<nat>)
      requires world.Valid()
      modifies world
      ensures world.Valid() && Kept(world.sys, r) == Kept(old(world.sys), r)
      ensures DeadStayDead(old(world.sys), world.sys) && old(world.steps) <= world.steps
      ensures forall i :: |old(world.steps)| <= i < |world.steps| && ActsFor(world.steps[i], r) ==>
        s.Some? && world.steps[i] in {Checkout(r, s.value), Connect(r, s.value)}
      ensures s.None? ==> CheckedOut(world.sys, r) == CheckedOut(old(world.sys), r)
      ensures s.Some? ==>
        s.value !in CheckedOut(old(world.sys), r) && CheckedOut(world.sys, r) == CheckedOut(old(world.sys), r) + {s.value}
    {
      world.Others(r);
      var session: nat :| true;
      if Enabled(world.sys, Checkout(r, session)) {
        world.Do(Checkout(r, session));
        s := Some(session);
      } else if Enabled(world.sys, Connect(r, session)) {
        world.Do(Connect(r, session));
        s := Some(session);
      } else {
        s := None;
      }
    }

    /** True exactly when this replica's session is alive and has the lock at that moment;
        otherwise nothing is kept. Every connection taken is kept or given back. */
    method Acquire() returns (held: bool)
      requires world.Valid() && CheckedOut(world.sys, r) == Kept(world.sys, r)
      modifies world
      ensures world.Valid() && CheckedOut(world.sys, r) == Kept(world.sys, r)
      ensures held <==> Leads(world.sys, r)
      ensures !held ==> r !in world.sys.conn
      ensures r in old(world.sys.conn) && old(world.sys.conn)[r] in world.sys.alive ==>
        held && world.sys.conn[r] == old(world.sys.conn)[r]
      ensures !held ==> Missed(world.sys, world.steps, |old(world.steps)|, r)
      ensures held ==> (r in old(world.sys.conn) && world.sys.conn[r] == old(world.sys.conn)[r])
                       || Tried(world.steps, |old(world.steps)|, r, true)
    {
      ghost var start := |world.steps|;
      world.Others(r);
      if r in world.sys.conn {
        if world.sys.conn[r] in world.sys.alive { return true; }
        var lost := world.sys.conn[r];
        world.Do(Forget(r));
        world.Do(GiveBack(r, lost));
      }
      ghost var from := |world.steps|;
      held := TakeLock();
      if held {
        TriedSince(world.steps, start, from, r, true);
      } else {
        MissedSince(world.sys, world.steps, start, from, r);
      }
    }

    /** Takes a connection and tries the lock on it, giving it back without. */
    method TakeLock() returns (held: bool)
      requires world.Valid() && CheckedOut(world.sys, r) == {} && r !in world.sys.conn
      modifies world
      ensures world.Valid() && CheckedOut(world.sys, r) == Kept(world.sys, r)
      ensures held <==> Leads(world.sys, r)
      ensures !held ==> r !in world.sys.conn
      ensures DeadStayDead(old(world.sys), world.sys) && old(world.steps) <= world.steps
      ensures held ==> Tried(world.steps, |old(world.steps)|, r, true)
      ensures !held ==> Missed(world.sys, world.steps, |old(world.steps)|, r)
    {
      ghost var from := |world.steps|;
      var conn := FromPool();
      if conn.None? { return false; }
      var s := conn.value;
      world.Others(r);
      if s in world.sys.alive {
        held := Granted(world.sys, s);
        ghost var before := world.steps;
        world.Do(TryLock(r, s));
        assert world.steps[..|before|] == before;
        assert TriedAt(world.steps, from, r, held, |before|, s);
        if held { return; }
      }
      ghost var tried := world.steps;
      world.Do(GiveBack(r, s));
      held := false;
      if Tried(tried, from, r, false) { TriedStays(tried, world.steps, from, r, false); }
    }

    /** Drops the lock and gives the connection back; nothing when nothing is kept. */
    method Release()
      requires world.Valid() && CheckedOut(world.sys, r) == Kept(world.sys, r)
      modifies world
      ensures world.Valid() && CheckedOut(world.sys, r) == {} && r !in world.sys.conn
      ensures !Leads(world.sys, r)
      ensures r !in old(world.sys.conn) ==> world.sys == old(world.sys)
    {
      if r !in world.sys.conn { return; }
      world.Others(r);
      var s := world.sys.conn[r];
      if s in world.sys.alive {
        world.Do(Unlock(r));
      } else {
        world.Do(Forget(r));
      }
      world.Others(r);
      world.Do(GiveBack(r, s));
    }
  }
}
