/** The evaluator as it runs: one correlation cycle, interleaved with operators and
    ingestion, each of whose statements may fail before or after it applied. */
module Evaluation {
  import opened Times
  import opened Wrappers
  import opened Incidents
  import opened Correlation
  import opened Sightings

  datatype ServiceWindow = ServiceWindow(tenant: string, service: string, total: nat, errors: nat, newErrors: nat) {
    predicate For(e: Event) { e.tenant == tenant && e.service == service }
  }

  /** A window row reports the tallies of its service over a table. */
  ghost predicate Tallies(w: ServiceWindow, table: set<Event>, since: int, countSince: int) {
    && w.total == |InWindow(table, w.tenant, w.service, since)|
    && w.errors == |Bad(InWindow(table, w.tenant, w.service, since))|
    && w.newErrors == |Bad(InWindow(table, w.tenant, w.service, countSince))|
    && InWindow(table, w.tenant, w.service, since) != {}
  }

  /** One group per service with events since `since`, and none for the others. */
  method WindowStats(table: set<Event>, since: int, countSince: int) returns (windows: seq<ServiceWindow>)
    requires since <= countSince
    ensures forall w :: w in windows ==> Tallies(w, table, since, countSince)
    ensures Separate(windows)
    ensures forall e :: e in table && e.at >= since ==> exists w :: w in windows && w.For(e)
  {
    windows := [];
    var rest := set e | e in table && e.at >= since;
    while rest != {}
      invariant rest <= set e | e in table && e.at >= since
      invariant forall w :: w in windows ==> Tallies(w, table, since, countSince)
      invariant forall w, e :: w in windows && e in rest ==> !w.For(e)
      invariant Separate(windows)
      invariant forall e :: e in table && e.at >= since && e !in rest ==> exists w :: w in windows && w.For(e)
      decreases rest
    {
      var e :| e in rest;
      var group := InWindow(table, e.tenant, e.service, since);
      var recent := InWindow(table, e.tenant, e.service, countSince);
      var w := ServiceWindow(e.tenant, e.service, |group|, |Bad(group)|, |Bad(recent)|);
      assert e in group;
      ghost var before := windows;
      forall i | 0 <= i < |before| ensures before[i].tenant != w.tenant || before[i].service != w.service {
        assert before[i] in windows && !before[i].For(e);
      }
      windows := windows + [w];
      rest := set x | x in rest && !w.For(x);
      forall x | x in table && x.at >= since && x !in rest ensures exists v :: v in windows && v.For(x) {
        if w.For(x) {
          assert w in windows;
        } else {
          var v :| v in before && v.For(x);
          assert v in windows;
        }
      }
    }
  }

  datatype Verdict = Quiet | Fired(eventCount: nat, newEventCount: nat)

  /** A rule against one window row. */
  function Evaluate(rule: Rule, w: ServiceWindow): (r: Verdict)
    ensures r.Fired? ==> r == Fired(w.errors, w.newErrors)
    ensures r.Fired? <==> RateReached(rule, w.total, w.errors)
  {
    match rule.kind
    case UnknownKind => Quiet
    case ErrorRate =>
      if w.total < rule.minEvents then Quiet
      else if w.errors * rule.denominator < rule.numerator * w.total then Quiet
      else Fired(w.errors, w.newErrors)
  }

  /** On the tallies of a read a rule fires exactly when the detection machine says so,
      and it reports the errors of the whole window and those since the count's bound. */
  lemma VerdictIsDetection(d: Detection, w: ServiceWindow, start: int, countSince: int)
    requires w.tenant == d.tenant && w.service == d.service
    requires Tallies(w, d.visible, start - d.rule.window, countSince)
    ensures Evaluate(d.rule, w).Fired? <==> Fires(d, start)
    ensures Fires(d, start) ==>
      Evaluate(d.rule, w) == Fired(|Errors(d, start)|, |Bad(InWindow(d.visible, d.tenant, d.service, countSince))|)
  {
    var seen := InWindow(d.visible, d.tenant, d.service, start - d.rule.window);
    assert Errors(d, start) == Bad(seen);
  }

  lemma Products(a: nat, b: nat, c: nat)
    requires a <= b
    ensures a * c <= b * c
  {}

  lemma RateKept(errors: nat, total: nat, numerator: nat, denominator: nat)
    requires 1 <= total && errors <= total && errors * denominator >= numerator * total
    ensures numerator <= denominator && (errors + 1) * denominator >= numerator * (total + 1)
  {
    Products(errors, total, denominator);
    if denominator < numerator {
      Products(denominator + 1, numerator, total);
    }
  }

  /** One more error event joins a service's window, or it changes nothing there. */
  lemma WindowGrows(table: set<Event>, e: Event, tenant: string, service: string, since: int)
    requires e.bad
    ensures var seen, more := InWindow(table, tenant, service, since), InWindow(table + {e}, tenant, service, since);
      more == seen || (e !in seen && more == seen + {e} && Bad(more) == Bad(seen) + {e})
  {
    if e.tenant == tenant && e.service == service && e.at >= since && e !in table {
      assert InWindow(table + {e}, tenant, service, since) == InWindow(table, tenant, service, since) + {e};
    } else {
      assert InWindow(table + {e}, tenant, service, since) == InWindow(table, tenant, service, since);
    }
  }

  /** What fires keeps firing when one more error event arrives, for this service or
      another: more errors never turn a rule quiet. */
  lemma MoreErrorsKeepFiring(d: Detection, e: Event, start: int)
    requires Fires(d, start) && e.bad
    ensures Fires(d.(visible := d.visible + {e}), start)
  {
    var since := start - d.rule.window;
    var seen := InWindow(d.visible, d.tenant, d.service, since);
    WindowGrows(d.visible, e, d.tenant, d.service, since);
    SubsetSize(Bad(seen), seen);
    RateKept(|Bad(seen)|, |seen|, d.rule.numerator, d.rule.denominator);
  }

  /** `after` extends `before` by operator steps only. */
  ghost predicate OnlyOperators(before: seq<Happening>, after: seq<Happening>) {
    && before <= after
    && (forall i :: |before| <= i < |after| ==> after[i].Operator?)
    && Replay(after).(rows := []) == Replay(before).(rows := [])
  }

  lemma OperatorAppended(before: seq<Happening>, after: seq<Happening>, op: Op, at: int)
    requires OnlyOperators(before, after)
    ensures OnlyOperators(before, after + [Operator(op, at)])
  {
    assert Front(after + [Operator(op, at)]) == after;
  }

  /** The database as the evaluator sees it: stored events, incidents, a clock that
      never runs backwards, and the history of everything that touched incidents. */
  class World {
    const incidents: IncidentStore
    var events: set<Event>
    var clock: int
    ghost var history: seq<Happening>

    /** How many statements of the evaluator have been answered with an error. */
    ghost var faults: nat

    ghost predicate Valid()
      reads this, incidents
    {
      incidents.Valid() && ValidHistory(history) && Replay(history).rows == incidents.rows && NotAhead(history, clock)
    }

    constructor ()
      ensures Valid() && history == [] && fresh(incidents)
    {
      incidents := new IncidentStore();
      events := {};
      clock, faults := 0, 0;
      history := [];
    }

    ghost method Emit(h: Happening)
      requires ValidHistory(history) && Enabled(Replay(history), h) && NotAhead(history, clock) && Past(h, clock)
      modifies this`history
      ensures history == old(history) + [h] && ValidHistory(history) && NotAhead(history, clock)
      ensures Replay(history) == Next(Replay(old(history)), h)
    {
      history := history + [h];
      assert Front(history) == old(history);
    }

    method Now() returns (t: int)
      modifies this`clock
      ensures t == clock && old(clock) <= clock
      ensures NotAhead(history, old(clock)) ==> NotAhead(history, clock)
    {
      var passed :| 0 <= passed;
      clock := clock + passed;
      t := clock;
    }

    /** Whatever other processes do between two statements of the evaluator: store
        events, acknowledge and resolve incidents, mark them. */
    method Others()
      requires Valid()
      modifies this`events, this`history, incidents
      ensures Valid() && old(events) <= events
      ensures OnlyOperators(old(history), history)
    {
      var turns :| 0 <= turns;
      for i := 0 to turns
        invariant Valid() && old(events) <= events && OnlyOperators(old(history), history)
      {
        var e: Event := *;
        if * { events := events + {e}; }
        var op: Op := *;
        if !op.Upsert? && !op.AutoResolve? {
          incidents.Operate(op, clock);
          OperatorAppended(old(history), history, op, clock);
          Emit(Operator(op, clock));
        }
      }
    }

    /** Whether a read fails. */
    method ReadFails() returns (failed: bool)
      modifies this`faults
      ensures faults == old(faults) + if failed then 1 else 0
    {
      failed := *;
      if failed { faults := faults + 1; }
    }

    /** The upsert of one detection. An error leaves open whether it was applied. */
    method UpsertDetection(ghost d: Detection, fingerprint: string, count: nat, increment: nat, id: nat, at: int)
      returns (ok: bool)
      requires Valid() && at <= clock
      requires fingerprint == d.Fingerprint()
      requires var s := Replay(history);
        && s.cycle.Some? && d.Key() !in s.seen && Fires(d, s.cycle.value)
        && count == |Errors(d, s.cycle.value)| && increment == |Fresh(d, s.cycle.value, s.last)|
      modifies this`history, this`faults, incidents
      ensures Valid() && faults == old(faults) + if ok then 0 else 1
      ensures ok ==> history == old(history) + [Detected(d, id, at)]
      ensures !ok ==> history == old(history) || history == old(history) + [Detected(d, id, at)]
      ensures history != old(history) ==> Replay(history) == Next(Replay(old(history)), Detected(d, id, at))
    {
      var blank: bool := *;
      ghost var before := incidents.rows;
      var r := incidents.UpsertOpen(Draft(id, fingerprint, blank, count, at), increment, at);
      ok := r.Ok?;
      if !ok { faults := faults + 1; }
      if ok || incidents.rows != before {
        Emit(Detected(d, id, at));
      }
    }

    /** The quiet-period sweep. An error leaves open whether it was applied. */
    method Sweep(olderThan: int, at: int) returns (ok: bool)
      requires Valid() && Replay(history).cycle.Some? && at <= clock
      modifies this`history, this`faults, incidents
      ensures Valid() && faults == old(faults) + if ok then 0 else 1
      ensures ok ==> history == old(history) + [Swept(olderThan, at)]
      ensures !ok ==> history == old(history) || history == old(history) + [Swept(olderThan, at)]
      ensures Replay(history).(rows := []) == Replay(old(history)).(rows := [])
    {
      ghost var before := incidents.rows;
      var r := incidents.AutoResolveStale(olderThan, at);
      ok := r.Ok?;
      if !ok { faults := faults + 1; }
      if ok || incidents.rows != before {
        Emit(Swept(olderThan, at));
      }
    }
  }

  // ---- What a cycle must have detected -----------------------------------

  /** The keys a group of rules fires for on one service. */
  function FiredFor(group: seq<Rule>, w: ServiceWindow, table: set<Event>, start: int): set<Key> {
    set r | r in group && Fires(Detection(r, w.tenant, w.service, table), start) :: (r.id, w.tenant, w.service)
  }

  /** The keys a group of rules fires for over one read of the table. */
  function FiredKeys(group: seq<Rule>, table: set<Event>, start: int): set<Key> {
    set r, e | r in group && e in table && Fires(Detection(r, e.tenant, e.service, table), start)
      :: (r.id, e.tenant, e.service)
  }

  /** The same over all rules, each with the read of its own window. */
  function FiredBy(rules: seq<Rule>, snapshots: map<int, set<Event>>, start: int): set<Key> {
    set r, e | r in rules && r.window in snapshots && e in snapshots[r.window]
               && Fires(Detection(r, e.tenant, e.service, snapshots[r.window]), start)
      :: (r.id, e.tenant, e.service)
  }

  function FiredOne(rule: Rule, w: ServiceWindow, table: set<Event>, start: int): set<Key> {
    if Fires(Detection(rule, w.tenant, w.service, table), start) then {(rule.id, w.tenant, w.service)} else {}
  }

  /** A cycle in progress has not yet detected anything for the service by these rules,
      which all share one lookback. */
  ghost predicate Ready(group: seq<Rule>, w: ServiceWindow, start: int, since: int, countSince: int, s: Sys) {
    s.cycle == Some(start) && forall r :: r in group ==>
      (r.id, w.tenant, w.service) !in s.seen
      && since == start - r.window && countSince == CountSince(start, r.window, s.last)
  }

  lemma NextRuleReady(group: seq<Rule>, i: nat, w: ServiceWindow, start: int, since: int, countSince: int,
                      s: Sys, now: Sys, table: set<Event>)
    requires i < |group| && DistinctIds(group) && Ready(group, w, start, since, countSince, s)
    requires now.cycle == s.cycle && now.last == s.last && now.seen == s.seen + FiredFor(group[..i], w, table, start)
    ensures Ready([group[i]], w, start, since, countSince, now)
  {
    forall r | r in group[..i] ensures r.id != group[i].id {
      var j :| 0 <= j < i && group[..i][j] == r;
    }
    assert group[i] in group;
  }

  lemma FiredForStep(group: seq<Rule>, i: nat, w: ServiceWindow, table: set<Event>, start: int)
    requires i < |group|
    ensures FiredFor(group[..i + 1], w, table, start)
         == FiredFor(group[..i], w, table, start) + FiredOne(group[i], w, table, start)
  {
    assert group[..i + 1] == group[..i] + [group[i]];
  }

  lemma DetectionsJoin(before: seq<Happening>, mid: seq<Happening>, after: seq<Happening>,
                       group: seq<Rule>, rule: Rule, table: set<Event>, start: int)
    requires Detections(before, mid, group, table, start) && Detections(mid, after, [rule], table, start) && rule in group
    ensures Detections(before, after, group, table, start)
  {
    forall i | |before| <= i < |after|
      ensures after[i].Operator?
              || (after[i].Detected? && after[i].d.rule in group && after[i].d.visible == table && after[i].at >= start)
    {
      if i < |mid| {
        assert after[i] == mid[i];
      }
    }
  }

  lemma OneMoreRule(before: seq<Happening>, mid: seq<Happening>, after: seq<Happening>,
                    group: seq<Rule>, i: nat, w: ServiceWindow, table: set<Event>, start: int)
    requires i < |group| && Detections(before, mid, group, table, start) && Detections(mid, after, [group[i]], table, start)
    requires Replay(mid).seen == Replay(before).seen + FiredFor(group[..i], w, table, start)
    ensures Detections(before, after, group, table, start)
    ensures Replay(after).seen == Replay(mid).seen + FiredOne(group[i], w, table, start) ==>
            Replay(after).seen == Replay(before).seen + FiredFor(group[..i + 1], w, table, start)
  {
    DetectionsJoin(before, mid, after, group, group[i], table, start);
    FiredForStep(group, i, w, table, start);
  }

  ghost predicate DistinctIds(rules: seq<Rule>) {
    forall i, j :: 0 <= i < j < |rules| ==> rules[i].id != rules[j].id
  }

  function WithWindow(rules: seq<Rule>, window: int): (group: seq<Rule>)
    ensures forall r :: r in group <==> r in rules && r.window == window
  {
    if rules == [] then []
    else
      assert forall r :: r in rules <==> r == rules[0] || r in rules[1..];
      (if rules[0].window == window then [rules[0]] else []) + WithWindow(rules[1..], window)
  }

  lemma {:induction false} WithWindowDistinct(rules: seq<Rule>, window: int)
    requires DistinctIds(rules)
    ensures DistinctIds(WithWindow(rules, window))
  {
    if rules != [] {
      var rest := WithWindow(rules[1..], window);
      assert DistinctIds(rules[1..]);
      WithWindowDistinct(rules[1..], window);
      forall r | r in rest ensures r.id != rules[0].id {
        var j :| 0 <= j < |rules[1..]| && rules[1..][j] == r;
        assert rules[j + 1] == r;
      }
    }
  }

  /** `after` extends `before` by operator steps and by detections of rules in
      `group` that read `table`. */
  ghost predicate Detections(before: seq<Happening>, after: seq<Happening>, group: seq<Rule>, table: set<Event>, start: int) {
    && before <= after
    && Replay(after).last == Replay(before).last && Replay(after).cycle == Replay(before).cycle
    && forall i :: |before| <= i < |after| ==>
         || after[i].Operator?
         || (after[i].Detected? && after[i].d.rule in group && after[i].d.visible == table && after[i].at >= start)
  }

  class Evaluator {
    const world: World
    const rules: seq<Rule>
    const resolveAfter: int
    var lastCycleAt: Option<int>

    /** What each window's read saw in the latest cycle. */
    ghost var snapshots: map<int, set<Event>>

    ghost predicate Valid()
      reads this, world, world.incidents
    {
      && world.Valid() && DistinctIds(rules)
      && Replay(world.history).last == lastCycleAt
      && Replay(world.history).cycle.None?
      && (lastCycleAt.Some? ==> lastCycleAt.value <= world.clock)
    }

    /** A fresh process over an existing database: the bound starts out unset. */
    constructor (world: World, rules: seq<Rule>, resolveAfter: int)
      requires world.Valid() && DistinctIds(rules)
      modifies world`history
      ensures Valid() && lastCycleAt.None? && this.world == world && this.rules == rules
      ensures world.history == old(world.history) + [Restart]
      ensures this.resolveAfter == if resolveAfter <= 0 then 300 * SECOND else resolveAfter
    {
      this.world := world;
      this.rules := rules;
      this.resolveAfter := if resolveAfter <= 0 then 300 * SECOND else resolveAfter;
      lastCycleAt := None;
      snapshots := map[];
      new;
      world.Emit(Restart);
    }

    /** One rule against one service's tallies. */
    method ApplyRule(rule: Rule, w: ServiceWindow, start: int, since: int, countSince: int, ghost table: set<Event>)
      returns (ok: bool)
      requires world.Valid() && Tallies(w, table, since, countSince) && start <= world.clock
      requires Ready([rule], w, start, since, countSince, Replay(world.history))
      modifies world`events, world`history, world`faults, world`clock, world.incidents
      ensures ok <==> world.faults == old(world.faults)
      ensures world.Valid() && old(world.events) <= world.events && old(world.clock) <= world.clock
      ensures Detections(old(world.history), world.history, [rule], table, start)
      ensures ok ==> Replay(world.history).seen == Replay(old(world.history)).seen + FiredOne(rule, w, table, start)
    {
      ghost var d := Detection(rule, w.tenant, w.service, table);
      assert rule in [rule];
      VerdictIsDetection(d, w, start, countSince);
      world.Others();
      ok := true;
      var det := Evaluate(rule, w);
      if det.Fired? {
        ghost var mid := world.history;
        ok := Upsert(d, rule, w, det, start);
        DetectionJoins(old(world.history), mid, world.history, d, start);
      }
    }

    /** The upsert of one detection, dated now. */
    method Upsert(ghost d: Detection, rule: Rule, w: ServiceWindow, det: Verdict, start: int)
      returns (ok: bool)
      requires world.Valid() && start <= world.clock
      requires d.rule == rule && d.tenant == w.tenant && d.service == w.service && det.Fired?
      requires var s := Replay(world.history);
        && s.cycle == Some(start) && d.Key() !in s.seen && Fires(d, start)
        && det.eventCount == |Errors(d, start)| && det.newEventCount == |Fresh(d, start, s.last)|
      modifies world`history, world`faults, world`clock, world.incidents
      ensures ok <==> world.faults == old(world.faults)
      ensures world.Valid() && old(world.clock) <= world.clock && old(world.history) <= world.history
      ensures Upserted(old(world.history), world.history, d, start) || (!ok && world.history == old(world.history))
    {
      var at := world.Now();
      var id: nat :| true;
      ok := world.UpsertDetection(d, Fingerprint(rule.id, w.tenant, w.service), det.eventCount, det.newEventCount, id, at);
    }

    /** Every rule of one window group against one service's tallies. */
    method ApplyRules(group: seq<Rule>, w: ServiceWindow, start: int, since: int, countSince: int, ghost table: set<Event>)
      returns (ok: bool)
      requires world.Valid() && DistinctIds(group) && start <= world.clock
      requires Tallies(w, table, since, countSince)
      requires Ready(group, w, start, since, countSince, Replay(world.history))
      modifies world`events, world`history, world`faults, world`clock, world.incidents
      ensures ok <==> world.faults == old(world.faults)
      ensures world.Valid() && old(world.events) <= world.events && old(world.clock) <= world.clock
      ensures Detections(old(world.history), world.history, group, table, start)
      ensures ok ==>
        Replay(world.history).seen == Replay(old(world.history)).seen + FiredFor(group, w, table, start)
    {
      ghost var before := world.history;
      for i := 0 to |group|
        invariant world.faults == old(world.faults)
        invariant world.Valid() && old(world.events) <= world.events && old(world.clock) <= world.clock
        invariant Detections(before, world.history, group, table, start)
        invariant Replay(world.history).seen == Replay(before).seen + FiredFor(group[..i], w, table, start)
      {
        ghost var mid := world.history;
        NextRuleReady(group, i, w, start, since, countSince, Replay(before), Replay(mid), table);
        var done := ApplyRule(group[i], w, start, since, countSince, table);
        OneMoreRule(before, mid, world.history, group, i, w, table, start);
        if !done { return false; }
      }
      assert group[..|group|] == group;
      ok := true;
    }

    /** Every service's tallies against the rules of one window group. */
    method ApplyServices(group: seq<Rule>, windows: seq<ServiceWindow>, start: int, since: int, countSince: int,
                         ghost table: set<Event>)
      returns (ok: bool)
      requires world.Valid() && DistinctIds(group) && Separate(windows) && start <= world.clock
      requires forall w :: w in windows ==> Tallies(w, table, since, countSince)
      requires forall w :: w in windows ==> Ready(group, w, start, since, countSince, Replay(world.history))
      modifies world`events, world`history, world`faults, world`clock, world.incidents
      ensures ok <==> world.faults == old(world.faults)
      ensures world.Valid() && old(world.events) <= world.events && old(world.clock) <= world.clock
      ensures Detections(old(world.history), world.history, group, table, start)
      ensures ok ==>
        Replay(world.history).seen == Replay(old(world.history)).seen + Covered(group, windows, table, start)
    {
      ghost var before := world.history;
      for j := 0 to |windows|
        invariant world.faults == old(world.faults)
        invariant world.Valid() && old(world.events) <= world.events && old(world.clock) <= world.clock
        invariant Detections(before, world.history, group, table, start)
        invariant Replay(world.history).seen == Replay(before).seen + Covered(group, windows[..j], table, start)
      {
        ghost var mid := world.history;
        StillReady(group, windows, j, start, since, countSince, Replay(before), Replay(mid), table);
        CoveredStep(group, windows, j, table, start);
        var done := ApplyRules(group, windows[j], start, since, countSince, table);
        DetectionsContinue(before, mid, world.history, group, table, start);
        if !done { return false; }
      }
      assert windows[..|windows|] == windows;
      ok := true;
    }

    /** One lookback: read the tallies once and apply every rule that uses it. */
    method ApplyWindow(window: int, start: int) returns (ok: bool)
      requires world.Valid() && DistinctIds(rules) && start <= world.clock
      requires Replay(world.history).cycle == Some(start) && Replay(world.history).last == lastCycleAt
      requires window !in snapshots
      requires forall r, t, s :: r in rules && r.window == window ==> (r.id, t, s) !in Replay(world.history).seen
      modifies this`snapshots, world`events, world`history, world`faults, world`clock, world.incidents
      ensures ok <==> world.faults == old(world.faults)
      ensures world.Valid() && old(world.events) <= world.events && old(world.clock) <= world.clock
      ensures window in snapshots ==> old(world.events) <= snapshots[window] <= world.events
      ensures snapshots == old(snapshots) || (window in snapshots && snapshots == old(snapshots)[window := snapshots[window]])
      ensures if window in snapshots
              then Detections(old(world.history), world.history, WithWindow(rules, window), snapshots[window], start)
              else Detections(old(world.history), world.history, [], {}, start)
      ensures ok ==>
        window in snapshots
        && Replay(world.history).seen
           == Replay(old(world.history)).seen + FiredKeys(WithWindow(rules, window), snapshots[window], start)
    {
      var group := WithWindow(rules, window);
      WithWindowDistinct(rules, window);
      var since := start - window;
      var countSince := since;
      if lastCycleAt.Some? && lastCycleAt.value > countSince {
        countSince := lastCycleAt.value;
      }
      world.Others();
      var failed := world.ReadFails();
      if failed { return false; }
      var table := world.events;
      snapshots := snapshots[window := table];
      var windows := WindowStats(table, since, countSince);
      CoveredAll(group, windows, table, start, since, countSince);
      ok := ApplyServices(group, windows, start, since, countSince, table);
    }

    /** Every distinct lookback in some order, stopping at the first failure. */
    method EvaluateWindows(start: int) returns (ok: bool)
      requires world.Valid() && DistinctIds(rules) && start <= world.clock
      requires var s := Replay(world.history);
        s.cycle == Some(start) && s.last == lastCycleAt && s.seen == {}
      modifies this`snapshots, world`events, world`history, world`faults, world`clock, world.incidents
      ensures ok <==> world.faults == old(world.faults)
      ensures world.Valid() && old(world.events) <= world.events && old(world.clock) <= world.clock
      ensures Replay(world.history).cycle == Some(start) && Replay(world.history).last == lastCycleAt
      ensures forall w :: w in snapshots ==> old(world.events) <= snapshots[w] <= world.events
      ensures Recorded(old(world.history), world.history, rules, snapshots, start)
      ensures ok ==> Replay(world.history).seen == FiredBy(rules, snapshots, start)
      ensures ok ==> forall r :: r in rules ==> r.window in snapshots
    {
      ghost var opening := world.history;
      snapshots := map[];
      var pending := set r | r in rules :: r.window;
      ghost var windows := pending;
      while pending != {}
        invariant world.faults == old(world.faults)
        invariant world.Valid() && old(world.events) <= world.events && old(world.clock) <= world.clock
        invariant Replay(world.history).cycle == Some(start) && Replay(world.history).last == lastCycleAt
        invariant pending <= windows && snapshots.Keys == windows - pending
        invariant forall w :: w in snapshots ==> old(world.events) <= snapshots[w] <= world.events
        invariant Recorded(opening, world.history, rules, snapshots, start)
        invariant Replay(world.history).seen == FiredBy(rules, snapshots, start)
        decreases pending
      {
        var window :| window in pending;
        pending := pending - {window};
        ghost var before, known := world.history, snapshots;
        FiredByOthers(rules, known, start, window);
        var done := ApplyWindow(window, start);
        RecordedExtends(opening, before, world.history, rules, known, snapshots, window, start);
        if !done { return false; }
        FiredByStep(rules, known, start, window, snapshots[window]);
      }
      ok := true;
    }

    /** The windows, then the sweep of what went quiet. */
    method RunCycle(start: int) returns (ok: bool)
      requires world.Valid() && DistinctIds(rules) && start <= world.clock
      requires var s := Replay(world.history);
        s.cycle == Some(start) && s.last == lastCycleAt && s.seen == {}
      modifies this`snapshots, world`events, world`history, world`faults, world`clock, world.incidents
      ensures ok <==> world.faults == old(world.faults)
      ensures world.Valid() && old(world.events) <= world.events && old(world.clock) <= world.clock
      ensures Replay(world.history).cycle == Some(start) && Replay(world.history).last == lastCycleAt
      ensures forall w :: w in snapshots ==> old(world.events) <= snapshots[w] <= world.events
      ensures CycleRecorded(old(world.history), world.history, rules, snapshots, start)
      ensures ok ==> Replay(world.history).seen == FiredBy(rules, snapshots, start)
      ensures ok ==> forall r :: r in rules ==> r.window in snapshots
      ensures ok ==> |old(world.history)| < |world.history| && SweptAfter(Last(world.history), start, resolveAfter)
    {
      ok := EvaluateWindows(start);
      if ok {
        var at := world.Now();
        ok := world.Sweep(at - resolveAfter, at);
      }
    }

    /** One correlation cycle. */
    method EvaluateOnce() returns (start: int, ok: bool)
      requires Valid()
      modifies this`snapshots, this`lastCycleAt, world`events, world`history, world`faults, world`clock, world.incidents
      ensures ok <==> world.faults == old(world.faults)
      ensures Valid() && old(world.events) <= world.events
      ensures lastCycleAt == if ok then Some(start) else old(lastCycleAt)
      ensures |old(world.history)| + 2 <= |world.history| && old(world.history) <= world.history
      ensures world.history[|old(world.history)|] == Begin(start) && Last(world.history) == End(ok)
      ensures CycleRecorded(old(world.history) + [Begin(start)], Front(world.history), rules, snapshots, start)
      ensures forall w :: w in snapshots ==> old(world.events) <= snapshots[w] <= world.events
      ensures ok ==> Replay(world.history).seen == FiredBy(rules, snapshots, start)
      ensures ok ==> forall r :: r in rules ==> r.window in snapshots
      ensures ok ==> SweptAfter(Last(Front(world.history)), start, resolveAfter)
      ensures RowsPast(world.incidents.rows, world.clock)
      ensures ok ==> forall key :: key in FiredBy(rules, snapshots, start) ==>
        exists k :: LeftLive(old(world.incidents.rows), world.incidents.rows, world.history, |old(world.history)|, key, start, k)
    {
      start := world.Now();
      world.Emit(Begin(start));
      ghost var opening := world.history;
      ok := RunCycle(start);
      ghost var before := world.history;
      if ok { CycleAnswers(opening, before, rules, snapshots, start); }
      world.Emit(End(ok));
      assert Front(world.history) == before;
      RowsNotAhead(world.history, world.clock);
      if ok {
        forall key | key in FiredBy(rules, snapshots, start)
          ensures exists k :: LeftLive(old(world.incidents.rows), world.incidents.rows, world.history, |old(world.history)|, key, start, k)
        {
          var k :| Answers(before, |opening|, key, start, k);
          AnswersAtEnd(opening, before, |old(world.history)|, key, start, k);
        }
      }
      if ok {
        lastCycleAt := Some(start);
      }
    }
  }

  /** Row `k` is an incident of the key seen in the cycle that began after `n` happenings; it
      is active unless an operator resolved it or the sweep cut off later than the start. */
  ghost predicate LeftLive(had: seq<Incident>, rows: seq<Incident>, hs: seq<Happening>, n: nat, key: Key, start: int, k: nat) {
    && Sighted(rows, |had|, key, start, k)
    && (NoLateSweep(hs, n, start) ==> rows[k].status.Active() || ResolvedByOperator(hs, n, rows[k].id))
  }

  /** Every key detected since the opening has its row. */
  lemma CycleAnswers(opening: seq<Happening>, now: seq<Happening>, rules: seq<Rule>, snapshots: map<int, set<Event>>, start: int)
    requires ValidHistory(now) && CycleRecorded(opening, now, rules, snapshots, start)
    requires Replay(opening).cycle == Some(start) && Replay(opening).seen == {}
    ensures forall key :: key in Replay(now).seen ==> exists k :: Answers(now, |opening|, key, start, k)
  {
    assert now[..|opening|] == opening;
    forall key | key in Replay(now).seen ensures exists k :: Answers(now, |opening|, key, start, k) {
      var k := SeenKeysAnswered(now, |opening|, start, key);
    }
  }

  lemma AnswersAtEnd(opening: seq<Happening>, now: seq<Happening>, n: nat, key: Key, start: int, k: nat)
    requires n + 1 == |opening| && opening <= now && Answers(now, |opening|, key, start, k)
    ensures LeftLive(Replay(opening).rows, Replay(now).rows, now + [End(true)], n, key, start, k)
  {
    var ended := now + [End(true)];
    assert now[..|opening|] == opening;
    if NoLateSweep(ended, n, start) {
      forall i | |opening| <= i < |now| && now[i].Swept? ensures now[i].olderThan <= start { assert ended[i] == now[i]; }
      var id := Replay(now).rows[k].id;
      if ResolvedByOperator(now, |opening|, id) {
        var i :| |opening| <= i < |now| && now[i].Operator? && now[i].op == Resolve(id);
        assert ended[i] == now[i];
      }
    }
  }

  /** The sweep resolves what was last seen `resolveAfter` before it or earlier. */
  predicate SweptAfter(h: Happening, start: int, resolveAfter: int) {
    h.Swept? && h.olderThan == h.at - resolveAfter && start <= h.at
  }

  /** A detection since the opening is by a rule of the evaluator, read what its window's
      snapshot holds and is dated no earlier than the start. */
  ghost predicate ReadsSnapshot(h: Happening, rules: seq<Rule>, snapshots: map<int, set<Event>>, start: int) {
    && h.Detected? && h.d.rule in rules && h.d.rule.window in snapshots
    && h.d.visible == snapshots[h.d.rule.window] && h.at >= start
  }

  /** Everything after the opening is an operator step or a recorded detection. */
  ghost predicate Recorded(opening: seq<Happening>, now: seq<Happening>, rules: seq<Rule>,
                           snapshots: map<int, set<Event>>, start: int) {
    && opening <= now
    && forall i :: |opening| <= i < |now| ==> now[i].Operator? || ReadsSnapshot(now[i], rules, snapshots, start)
  }

  /** The same with a sweep at the very end, if there was one. */
  ghost predicate CycleRecorded(opening: seq<Happening>, now: seq<Happening>, rules: seq<Rule>,
                                snapshots: map<int, set<Event>>, start: int) {
    && opening <= now
    && forall i :: |opening| <= i < |now| ==>
         || now[i].Operator? || ReadsSnapshot(now[i], rules, snapshots, start)
         || (now[i].Swept? && i == |now| - 1)
  }

  lemma RecordedExtends(opening: seq<Happening>, before: seq<Happening>, after: seq<Happening>, rules: seq<Rule>,
                        known: map<int, set<Event>>, snapshots: map<int, set<Event>>, window: int, start: int)
    requires Recorded(opening, before, rules, known, start) && window !in known
    requires snapshots == known || (window in snapshots && snapshots == known[window := snapshots[window]])
    requires if window in snapshots
             then Detections(before, after, WithWindow(rules, window), snapshots[window], start)
             else Detections(before, after, [], {}, start)
    ensures Recorded(opening, after, rules, snapshots, start)
  {
    forall i | |opening| <= i < |after| ensures after[i].Operator? || ReadsSnapshot(after[i], rules, snapshots, start) {
      if i < |before| {
        assert after[i] == before[i];
      }
    }
  }

  /** Keys fired for the services of some window rows. */
  function Covered(group: seq<Rule>, windows: seq<ServiceWindow>, table: set<Event>, start: int): set<Key> {
    set r, w | r in group && w in windows && Fires(Detection(r, w.tenant, w.service, table), start)
      :: (r.id, w.tenant, w.service)
  }

  lemma CoveredStep(group: seq<Rule>, windows: seq<ServiceWindow>, j: nat, table: set<Event>, start: int)
    requires j < |windows|
    ensures Covered(group, windows[..j + 1], table, start)
         == Covered(group, windows[..j], table, start) + FiredFor(group, windows[j], table, start)
  {
    assert windows[..j + 1] == windows[..j] + [windows[j]];
  }

  /** No two window rows are of one service. */
  predicate Separate(windows: seq<ServiceWindow>) {
    forall i, j :: 0 <= i < j < |windows| ==>
      windows[i].tenant != windows[j].tenant || windows[i].service != windows[j].service
  }

  lemma StillReady(group: seq<Rule>, windows: seq<ServiceWindow>, j: nat, start: int, since: int, countSince: int,
                   s: Sys, now: Sys, table: set<Event>)
    requires j < |windows| && Separate(windows) && Ready(group, windows[j], start, since, countSince, s)
    requires now.cycle == s.cycle && now.last == s.last && now.seen == s.seen + Covered(group, windows[..j], table, start)
    ensures Ready(group, windows[j], start, since, countSince, now)
  {
    var w := windows[j];
    forall r | r in group ensures (r.id, w.tenant, w.service) !in Covered(group, windows[..j], table, start) {
      forall v | v in windows[..j] ensures v.tenant != w.tenant || v.service != w.service {
        var k :| 0 <= k < j && windows[..j][k] == v;
      }
    }
  }

  /** One detection, dated at or after the start, has been added. */
  ghost predicate Upserted(before: seq<Happening>, after: seq<Happening>, d: Detection, start: int) {
    && |after| == |before| + 1 && before == Front(after)
    && Last(after).Detected? && Last(after).d == d && Last(after).at >= start
  }

  lemma UpsertedSees(before: seq<Happening>, after: seq<Happening>, d: Detection, start: int)
    requires Upserted(before, after, d, start) && Replay(before).cycle.Some?
    ensures Replay(after).last == Replay(before).last && Replay(after).cycle == Replay(before).cycle
    ensures Replay(after).seen == Replay(before).seen + {d.Key()}
  {
    assert Replay(after) == Next(Replay(before), Last(after));
  }

  lemma DetectionJoins(before: seq<Happening>, mid: seq<Happening>, after: seq<Happening>, d: Detection, start: int)
    requires OnlyOperators(before, mid) && Replay(mid).cycle.Some?
    requires Upserted(mid, after, d, start) || after == mid
    ensures Detections(before, after, [d.rule], d.visible, start)
    ensures after != mid ==> Replay(after).seen == Replay(before).seen + {d.Key()}
  {
    if after != mid {
      UpsertedSees(mid, after, d, start);
      assert d.rule in [d.rule];
      forall i | |before| <= i < |after|
        ensures after[i].Operator? || (after[i].Detected? && after[i].d == d && after[i].at >= start)
      {
        if i < |mid| { assert after[i] == mid[i]; }
      }
    }
  }

  lemma DetectionsContinue(before: seq<Happening>, mid: seq<Happening>, after: seq<Happening>,
                           group: seq<Rule>, table: set<Event>, start: int)
    requires Detections(before, mid, group, table, start) && Detections(mid, after, group, table, start)
    ensures Detections(before, after, group, table, start)
  {
    forall i | |before| <= i < |after|
      ensures after[i].Operator?
              || (after[i].Detected? && after[i].d.rule in group && after[i].d.visible == table && after[i].at >= start)
    {
      if i < |mid| {
        assert after[i] == mid[i];
      }
    }
  }

  lemma CoveredAll(group: seq<Rule>, windows: seq<ServiceWindow>, table: set<Event>, start: int, since: int, countSince: int)
    requires forall r :: r in group ==> since == start - r.window
    requires forall w :: w in windows ==> Tallies(w, table, since, countSince)
    requires forall e :: e in table && e.at >= since ==> exists w :: w in windows && w.For(e)
    ensures Covered(group, windows, table, start) == FiredKeys(group, table, start)
  {
    forall key | key in FiredKeys(group, table, start) ensures key in Covered(group, windows, table, start) {
      var r, e: Event :| r in group && e in table && Fires(Detection(r, e.tenant, e.service, table), start)
        && key == (r.id, e.tenant, e.service);
      var x :| x in InWindow(table, e.tenant, e.service, since);
      var w :| w in windows && w.For(x);
    }
    forall key | key in Covered(group, windows, table, start) ensures key in FiredKeys(group, table, start) {
      var r, w :| r in group && w in windows && Fires(Detection(r, w.tenant, w.service, table), start)
        && key == (r.id, w.tenant, w.service);
      var x :| x in InWindow(table, w.tenant, w.service, since);
    }
  }

  lemma FiredByOthers(rules: seq<Rule>, snapshots: map<int, set<Event>>, start: int, window: int)
    requires DistinctIds(rules) && window !in snapshots
    ensures forall r, t, s :: r in rules && r.window == window ==> (r.id, t, s) !in FiredBy(rules, snapshots, start)
  {}

  lemma FiredByAfter(rules: seq<Rule>, known: map<int, set<Event>>, start: int, window: int, table: set<Event>)
    requires window !in known
    ensures FiredBy(rules, known[window := table], start)
         <= FiredBy(rules, known, start) + FiredKeys(WithWindow(rules, window), table, start)
  {
    var snapshots := known[window := table];
    forall key | key in FiredBy(rules, snapshots, start)
      ensures key in FiredBy(rules, known, start) + FiredKeys(WithWindow(rules, window), table, start)
    {
      var r, e: Event :| r in rules && r.window in snapshots && e in snapshots[r.window]
        && Fires(Detection(r, e.tenant, e.service, snapshots[r.window]), start) && key == (r.id, e.tenant, e.service);
      if r.window == window {
        assert r in WithWindow(rules, window);
      }
    }
  }

  lemma FiredByBefore(rules: seq<Rule>, known: map<int, set<Event>>, start: int, window: int, table: set<Event>)
    requires window !in known
    ensures FiredBy(rules, known, start) <= FiredBy(rules, known[window := table], start)
  {
    var snapshots := known[window := table];
    forall key | key in FiredBy(rules, known, start) ensures key in FiredBy(rules, snapshots, start) {
      var r, e: Event :| r in rules && r.window in known && e in known[r.window]
        && Fires(Detection(r, e.tenant, e.service, known[r.window]), start) && key == (r.id, e.tenant, e.service);
      assert snapshots[r.window] == known[r.window];
    }
  }

  lemma FiredByWindow(rules: seq<Rule>, snapshots: map<int, set<Event>>, start: int, window: int)
    requires window in snapshots
    ensures FiredKeys(WithWindow(rules, window), snapshots[window], start) <= FiredBy(rules, snapshots, start)
  {
    forall key | key in FiredKeys(WithWindow(rules, window), snapshots[window], start)
      ensures key in FiredBy(rules, snapshots, start)
    {
      var r, e: Event :| r in WithWindow(rules, window) && e in snapshots[window]
        && Fires(Detection(r, e.tenant, e.service, snapshots[window]), start) && key == (r.id, e.tenant, e.service);
    }
  }

  lemma FiredByStep(rules: seq<Rule>, known: map<int, set<Event>>, start: int, window: int, table: set<Event>)
    requires window !in known
    ensures FiredBy(rules, known[window := table], start)
         == FiredBy(rules, known, start) + FiredKeys(WithWindow(rules, window), table, start)
  {
    FiredByAfter(rules, known, start, window, table);
    FiredByBefore(rules, known, start, window, table);
    FiredByWindow(rules, known[window := table], start, window);
  }
}
