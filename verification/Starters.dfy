/** The loops that start one workflow per incident and then mark it, on any number of
    replicas that fail and crash anywhere. */
module Starters {

  /** What a start decides on: whether a runbook covers the incident (always, for alerts). */
  type Covers = string -> bool

  /** Runs in the order they started, marked incidents, and per replica the incidents
      whose start it saw succeed. */
  datatype Sys = Sys(runs: seq<string>, marked: set<string>, confirmed: map<nat, set<string>>)

  datatype Step =
    | Begin(c: nat)
    | Start(c: nat, id: string, applied: bool, ok: bool)
    | Mark(c: nat, id: string)
    | Crash(c: nat)

  /** A success reply means the run exists: started now, or before and so rejected. */
  predicate Enabled(covers: Covers, sys: Sys, step: Step) {
    match step
    case Begin(c) => c !in sys.confirmed
    case Start(c, id, applied, ok) => c in sys.confirmed && covers(id) && (ok ==> applied)
    case Mark(c, id) => c in sys.confirmed && (id in sys.confirmed[c] || !covers(id))
    case Crash(c) => c in sys.confirmed
  }

  /** The server rejects a second run under the same incident's id. */
  function Next(covers: Covers, sys: Sys, step: Step): Sys
    requires Enabled(covers, sys, step)
  {
    match step
    case Begin(c) => sys.(confirmed := sys.confirmed[c := {}])
    case Start(c, id, applied, ok) =>
      sys.(runs := if applied && id !in sys.runs then sys.runs + [id] else sys.runs,
           confirmed := if ok then sys.confirmed[c := sys.confirmed[c] + {id}] else sys.confirmed)
    case Mark(c, id) => sys.(marked := sys.marked + {id})
    case Crash(c) => sys.(confirmed := sys.confirmed - {c})
  }

  predicate IsRun(covers: Covers, sys: Sys, steps: seq<Step>)
    decreases |steps|
  {
    steps == [] || (Enabled(covers, sys, steps[0]) && IsRun(covers, Next(covers, sys, steps[0]), steps[1..]))
  }

  function Exec(covers: Covers, sys: Sys, steps: seq<Step>): Sys
    requires IsRun(covers, sys, steps)
    decreases |steps|
  {
    if steps == [] then sys else Exec(covers, Next(covers, sys, steps[0]), steps[1..])
  }

  const START := Sys([], {}, map[])

  ghost predicate Inv(covers: Covers, sys: Sys) {
    && (forall i, j :: 0 <= i < j < |sys.runs| ==> sys.runs[i] != sys.runs[j])
    && (forall id :: id in sys.marked ==> id in sys.runs || !covers(id))
    && (forall id :: id in sys.runs ==> covers(id))
    && (forall c, id :: c in sys.confirmed && id in sys.confirmed[c] ==> id in sys.runs)
  }

  lemma StepKeepsInv(covers: Covers, sys: Sys, step: Step)
    requires Inv(covers, sys) && Enabled(covers, sys, step)
    ensures Inv(covers, Next(covers, sys, step))
    ensures sys.runs <= Next(covers, sys, step).runs && sys.marked <= Next(covers, sys, step).marked
  {}

  /** Runs and marks are never taken back. */
  lemma {:induction false} RunKeepsInv(covers: Covers, sys: Sys, steps: seq<Step>)
    requires Inv(covers, sys) && IsRun(covers, sys, steps)
    ensures Inv(covers, Exec(covers, sys, steps))
    ensures sys.runs <= Exec(covers, sys, steps).runs && sys.marked <= Exec(covers, sys, steps).marked
    decreases |steps|
  {
    if steps == [] {
    } else {
      StepKeepsInv(covers, sys, steps[0]);
      RunKeepsInv(covers, Next(covers, sys, steps[0]), steps[1..]);
    }
  }

  /** With every number of starters, crashing and losing replies and marks anywhere, an
      incident gets at most one run, and a marked one has its run or no runbook. */
  lemma AtMostOneRunEach(covers: Covers, steps: seq<Step>)
    requires IsRun(covers, START, steps)
    ensures var sys := Exec(covers, START, steps);
      && (forall i, j :: 0 <= i < j < |sys.runs| ==> sys.runs[i] != sys.runs[j])
      && (forall id :: id in sys.marked ==> id in sys.runs || !covers(id))
  {
    RunKeepsInv(covers, START, steps);
  }

  lemma {:induction false} ExtendRun(covers: Covers, sys: Sys, steps: seq<Step>, step: Step)
    requires IsRun(covers, sys, steps) && Enabled(covers, Exec(covers, sys, steps), step)
    ensures IsRun(covers, sys, steps + [step])
    ensures Exec(covers, sys, steps + [step]) == Next(covers, Exec(covers, sys, steps), step)
    decreases |steps|
  {
    if steps == [] {
    } else {
      assert (steps + [step])[1..] == steps[1..] + [step];
      ExtendRun(covers, Next(covers, sys, steps[0]), steps[1..], step);
    }
  }

  predicate ActsFor(step: Step, c: nat) { step.c == c }

  class World {
    const covers: Covers
    var sys: Sys
    ghost var steps: seq<Step>

    ghost predicate Valid()
      reads this
    {
      IsRun(covers, START, steps) && Exec(covers, START, steps) == sys && Inv(covers, sys)
    }

    constructor (covers: Covers)
      ensures Valid() && this.covers == covers && sys == START
    {
      this.covers, sys, steps := covers, START, [];
    }

    method Do(step: Step)
      requires Valid() && Enabled(covers, sys, step)
      modifies this
      ensures Valid() && sys == Next(covers, old(sys), step) && steps == old(steps) + [step]
      ensures old(sys.runs) <= sys.runs && old(sys.marked) <= sys.marked
    {
      ExtendRun(covers, START, steps, step);
      StepKeepsInv(covers, sys, step);
      sys := Next(covers, sys, step);
      steps := steps + [step];
    }

    method Others(c: nat)
      requires Valid()
      modifies this
      ensures Valid() && old(sys.runs) <= sys.runs && old(sys.marked) <= sys.marked
      ensures old(steps) <= steps && forall i :: |old(steps)| <= i < |steps| ==> !ActsFor(steps[i], c)
      ensures c in sys.confirmed <==> c in old(sys.confirmed)
      ensures c in sys.confirmed ==> sys.confirmed[c] == old(sys.confirmed)[c]
    {
      var turns :| 0 <= turns;
      for i := 0 to turns
        invariant Valid() && old(sys.runs) <= sys.runs && old(sys.marked) <= sys.marked
        invariant old(steps) <= steps && forall i :: |old(steps)| <= i < |steps| ==> !ActsFor(steps[i], c)
        invariant c in sys.confirmed <==> c in old(sys.confirmed)
        invariant c in sys.confirmed ==> sys.confirmed[c] == old(sys.confirmed)[c]
      {
        var step: Step := *;
        if Enabled(covers, sys, step) && !ActsFor(step, c) {
          Do(step);
        }
      }
    }
  }

  lemma PrefixKeeps(a: seq<string>, b: seq<string>)
    requires a <= b
    ensures forall x :: x in a ==> x in b
  {
    assert b == a + b[|a|..];
  }

  /** Since `from` replica `c` asked for the incident's run, and whether it heard of success. */
  predicate Asked(steps: seq<Step>, from: nat, c: nat, id: string, ok: bool) {
    exists i :: from <= i < |steps| && steps[i].Start? && steps[i].c == c && steps[i].id == id && steps[i].ok == ok
  }

  lemma AskedStays(a: seq<Step>, b: seq<Step>, from: nat, c: nat)
    requires a <= b
    ensures forall id, ok :: Asked(a, from, c, id, ok) ==> Asked(b, from, c, id, ok)
    ensures (forall i :: |a| <= i < |b| ==> !(b[i].Start? && b[i].c == c)) ==>
      forall id, ok :: Asked(b, from, c, id, ok) ==> Asked(a, from, c, id, ok)
  {
    forall id, ok | Asked(a, from, c, id, ok) ensures Asked(b, from, c, id, ok) {
      var i :| from <= i < |a| && a[i].Start? && a[i].c == c && a[i].id == id && a[i].ok == ok;
      assert b[i] == a[i];
    }
    if forall i :: |a| <= i < |b| ==> !(b[i].Start? && b[i].c == c) {
      forall id, ok | Asked(b, from, c, id, ok) ensures Asked(a, from, c, id, ok) {
        var i :| from <= i < |b| && b[i].Start? && b[i].c == c && b[i].id == id && b[i].ok == ok;
        assert b[i] == a[i];
      }
    }
  }

  /** One more request is what there is to know of. */
  lemma AskedOnce(a: seq<Step>, step: Step, from: nat, c: nat)
    requires from <= |a| && step.Start? && step.c == c
    ensures forall id, ok :: Asked(a + [step], from, c, id, ok) <==> Asked(a, from, c, id, ok) || (id == step.id && ok == step.ok)
  {
    AskedStays(a, a + [step], from, c);
    assert (a + [step])[|a|] == step;
    forall id, ok | Asked(a + [step], from, c, id, ok) ensures Asked(a, from, c, id, ok) || (id == step.id && ok == step.ok) {
      var i :| from <= i < |a + [step]| && (a + [step])[i].Start? && (a + [step])[i].c == c && (a + [step])[i].id == id && (a + [step])[i].ok == ok;
      if i < |a| { assert a[i] == (a + [step])[i]; }
    }
  }

  class Starter {
    const world: World
    const c: nat

    constructor (world: World, c: nat)
      requires world.Valid() && c !in world.sys.confirmed
      modifies world
      ensures world.Valid() && this.world == world && this.c == c && c in world.sys.confirmed
    {
      this.world, this.c := world, c;
      new;
      world.Do(Begin(c));
    }

    /** Best effort: the mark may fail. */
    method MarkStarted(id: string) returns (ok: bool)
      requires world.Valid() && c in world.sys.confirmed
      requires id in world.sys.confirmed[c] || !world.covers(id)
      modifies world
      ensures world.Valid() && c in world.sys.confirmed
      ensures old(world.sys.runs) <= world.sys.runs && old(world.sys.marked) <= world.sys.marked
      ensures old(world.steps) <= world.steps
      ensures forall i :: |old(world.steps)| <= i < |world.steps| ==> !(world.steps[i].Start? && world.steps[i].c == c)
      ensures ok ==> id in world.sys.marked
    {
      world.Others(c);
      ok := *;
      if ok { world.Do(Mark(c, id)); }
    }

    /** Asks for one incident's run, and marks the incident if that is heard to succeed. An
        incident without a runbook is only marked. */
    method StartOne(id: string) returns (ok: bool)
      requires world.Valid() && c in world.sys.confirmed
      modifies world
      ensures world.Valid() && c in world.sys.confirmed && old(world.steps) <= world.steps
      ensures old(world.sys.runs) <= world.sys.runs && old(world.sys.marked) <= world.sys.marked
      ensures ok ==> world.covers(id) && id in world.sys.runs
      ensures forall x, heard :: Asked(world.steps, |old(world.steps)|, c, x, heard) <==> world.covers(id) && x == id && heard == ok
    {
      ghost var from := |world.steps|;
      world.Others(c);
      AskedStays(old(world.steps), world.steps, from, c);
      ghost var s0, t0 := world.sys.runs, world.steps;
      if !world.covers(id) {
        var _ := MarkStarted(id);
        AskedStays(t0, world.steps, from, c);
        return false;
      }
      var applied: bool;
      ok, applied := *, *;
      if ok { applied := true; }
      world.Do(Start(c, id, applied, ok));
      AskedOnce(t0, Start(c, id, applied, ok), from, c);
      if !ok { return; }
      ghost var s1, t1 := world.sys.runs, world.steps;
      var _ := MarkStarted(id);
      AskedStays(t1, world.steps, from, c);
      PrefixKeeps(s1, world.sys.runs);
    }

    /** Starts, then marks, each listed incident; one that fails to start is skipped and
        left for the next tick. Every covered one is asked for, those counted are those heard
        to succeed, and every one counted has its run. */
    method StartPending(listed: seq<string>) returns (started: seq<string>)
      requires world.Valid() && c in world.sys.confirmed
      modifies world
      ensures world.Valid() && c in world.sys.confirmed
      ensures old(world.sys.runs) <= world.sys.runs && old(world.sys.marked) <= world.sys.marked
      ensures forall id :: id in started ==> id in listed && id in world.sys.runs && world.covers(id)
      ensures forall id :: id in listed && world.covers(id) ==> exists ok :: Asked(world.steps, |old(world.steps)|, c, id, ok)
      ensures forall id, ok :: Asked(world.steps, |old(world.steps)|, c, id, ok) ==> id in listed && world.covers(id)
      ensures forall id :: id in started <==> Asked(world.steps, |old(world.steps)|, c, id, true)
    {
      ghost var from := |world.steps|;
      started := [];
      for i := 0 to |listed|
        invariant world.Valid() && c in world.sys.confirmed && old(world.steps) <= world.steps
        invariant old(world.sys.runs) <= world.sys.runs && old(world.sys.marked) <= world.sys.marked
        invariant forall id :: id in started ==> id in world.sys.runs
        invariant forall id :: id in listed[..i] && world.covers(id) ==> exists ok :: Asked(world.steps, from, c, id, ok)
        invariant forall id, ok :: Asked(world.steps, from, c, id, ok) ==> id in listed[..i] && world.covers(id)
        invariant forall id :: id in started <==> Asked(world.steps, from, c, id, true)
      {
        ghost var runs, steps := world.sys.runs, world.steps;
        var ok := StartOne(listed[i]);
        PrefixKeeps(runs, world.sys.runs);
        AskedJoins(steps, world.steps, from, c);
        assert world.covers(listed[i]) ==> Asked(world.steps, |steps|, c, listed[i], ok);
        assert listed[..i + 1] == listed[..i] + [listed[i]];
        if ok { started := started + [listed[i]]; }
      }
      assert listed[..|listed|] == listed;
    }
  }

  /** What was asked since `from` was asked before or after some point in between. */
  lemma AskedJoins(a: seq<Step>, b: seq<Step>, from: nat, c: nat)
    requires from <= |a| && a <= b
    ensures forall id, ok :: Asked(b, from, c, id, ok) <==> Asked(a, from, c, id, ok) || Asked(b, |a|, c, id, ok)
  {
    AskedStays(a, b, from, c);
    forall id, ok | Asked(b, from, c, id, ok) ensures Asked(a, from, c, id, ok) || Asked(b, |a|, c, id, ok) {
      var i :| from <= i < |b| && b[i].Start? && b[i].c == c && b[i].id == id && b[i].ok == ok;
      if i < |a| { assert a[i] == b[i]; }
    }
  }
}
