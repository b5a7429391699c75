/** Correlation as a machine over evaluator steps, operator steps and restarts, and
    what an incident's running event count means over every run of it. Moments are those
    the database compares, cut to its precision: events' timestamps and cycles' starts. */
module Correlation {
  import opened Wrappers
  import opened Incidents

  /** A stored telemetry row; `bad` means severity error or critical. */
  datatype Event = Event(id: nat, tenant: string, service: string, at: int, bad: bool)

  datatype RuleKind = ErrorRate | UnknownKind

  /** The firing threshold is the fraction `numerator / denominator`. */
  datatype Rule = Rule(id: string, kind: RuleKind, window: int, numerator: nat, denominator: nat, minEvents: int)

  type Key = (string, string, string)

  /** A rule that fired for a service, with the table its window read saw. */
  datatype Detection = Detection(rule: Rule, tenant: string, service: string, visible: set<Event>) {
    function Key(): Key { (rule.id, tenant, service) }

    function Fingerprint(): string { Incidents.Fingerprint(rule.id, tenant, service) }
  }

  function InWindow(table: set<Event>, tenant: string, service: string, since: int): set<Event> {
    set e | e in table && e.tenant == tenant && e.service == service && e.at >= since
  }

  function Bad(events: set<Event>): set<Event> { set e | e in events && e.bad }

  function CountSince(start: int, window: int, last: Option<int>): int {
    if last.Some? && last.value > start - window then last.value else start - window
  }

  /** What a detection counts when it opens an incident. */
  function Errors(d: Detection, start: int): set<Event> {
    Bad(InWindow(d.visible, d.tenant, d.service, start - d.rule.window))
  }

  /** What a detection adds to an incident that is already active. */
  function Fresh(d: Detection, start: int, last: Option<int>): set<Event> {
    Bad(InWindow(d.visible, d.tenant, d.service, CountSince(start, d.rule.window, last)))
  }

  predicate RateReached(rule: Rule, total: nat, errors: nat) {
    rule.kind == ErrorRate && total >= rule.minEvents && errors * rule.denominator >= rule.numerator * total
  }

  /** A group exists for the service and the rule fires on its tally. */
  predicate Fires(d: Detection, start: int) {
    var seen := InWindow(d.visible, d.tenant, d.service, start - d.rule.window);
    seen != {} && RateReached(d.rule, |seen|, |Bad(seen)|)
  }

  /** With nothing but errors in its window, a service fires an error-rate rule exactly
      when the rule's threshold is at most one and it has seen events enough. */
  lemma OnlyErrorsFire(d: Detection, start: int)
    requires d.rule.kind == ErrorRate
    requires forall e :: e in d.visible ==> e.bad
    ensures var seen := InWindow(d.visible, d.tenant, d.service, start - d.rule.window);
      Fires(d, start) <==> seen != {} && |seen| >= d.rule.minEvents && d.rule.numerator <= d.rule.denominator
  {
    var seen := InWindow(d.visible, d.tenant, d.service, start - d.rule.window);
    assert Bad(seen) == seen;
    if seen != {} {
      var x :| x in seen;
      assert |seen| >= 1;
      if d.rule.numerator <= d.rule.denominator {
        assert |seen| * d.rule.denominator >= d.rule.numerator * |seen|;
      } else {
        assert |seen| * d.rule.denominator < d.rule.numerator * |seen|;
      }
    }
  }

  lemma CrossMultiplied(a: nat, b: nat, c: nat, d: nat)
    requires b > 0 && d > 0
    ensures a as real / b as real >= c as real / d as real <==> a * d >= c * b
  {
    var x, y := a as real / b as real, c as real / d as real;
    assert x * b as real == a as real && y * d as real == c as real;
    assert (a * d) as real == x * b as real * d as real && (c * b) as real == y * d as real * b as real;
    var bd := b as real * d as real;
    assert bd > 0.0 && (a * d) as real == x * bd && (c * b) as real == y * bd;
    if x >= y { assert (x - y) * bd >= 0.0; } else { assert (y - x) * bd > 0.0; }
  }

  /** A rule fires for a service exactly when it has events in the window, at least the
      minimum of them, and the fraction that are errors reaches the threshold. */
  lemma FiresExactlyAtThreshold(d: Detection, start: int)
    requires d.rule.denominator > 0
    ensures var seen := set e | e in d.visible && e.tenant == d.tenant && e.service == d.service && e.at >= start - d.rule.window;
      var bad := set e | e in seen && e.bad;
      Fires(d, start) <==>
      && d.rule.kind == ErrorRate && seen != {} && |seen| >= d.rule.minEvents
      && |bad| as real / |seen| as real >= d.rule.numerator as real / d.rule.denominator as real
  {
    var seen := InWindow(d.visible, d.tenant, d.service, start - d.rule.window);
    if seen != {} {
      var x :| x in seen;
      assert |seen| > 0;
      CrossMultiplied(|Bad(seen)|, |seen|, d.rule.numerator, d.rule.denominator);
    }
  }

  // ---- The machine --------------------------------------------------------

  /** The incident table, the evaluator's `lastCycleAt`, the start of the cycle in
      progress, and the detections already upserted in the latest cycle. */
  datatype Sys = Sys(rows: seq<Incident>, last: Option<int>, cycle: Option<int>, seen: set<Key>)

  datatype Happening =
    | Begin(start: int)
    | Detected(d: Detection, id: nat, at: int)
    | Swept(olderThan: int, at: int)
    | End(ok: bool)
    | Restart
    | Operator(op: Op, at: int)

  function UpsertOf(s: Sys, h: Happening): Op
    requires h.Detected? && s.cycle.Some?
  {
    Upsert(h.id, h.d.Fingerprint(), |Errors(h.d, s.cycle.value)|, |Fresh(h.d, s.cycle.value, s.last)|, h.at)
  }

  /** The position of the row an upsert folds into or inserts. */
  function Target(rows: seq<Incident>, fingerprint: string, id: nat): Option<nat> {
    var found := FindActive(rows, fingerprint);
    if found.Some? then found else if HasId(rows, id) then None else Some(|rows|)
  }

  predicate Enabled(s: Sys, h: Happening) {
    match h
    case Begin(start) => s.cycle.None? && (s.last.Some? ==> s.last.value <= start)
    case Detected(d, id, _) =>
      s.cycle.Some? && d.Key() !in s.seen && Fires(d, s.cycle.value) && Target(s.rows, d.Fingerprint(), id).Some?
    case Swept(_, _) => s.cycle.Some?
    case End(_) => s.cycle.Some?
    case Restart => true
    case Operator(op, _) => !op.Upsert? && !op.AutoResolve?
  }

  function Next(s: Sys, h: Happening): Sys {
    match h
    case Begin(start) => s.(cycle := Some(start), seen := {})
    case Detected(d, _, at) =>
      if s.cycle.None? then s
      else s.(rows := Apply(s.rows, UpsertOf(s, h), at), seen := s.seen + {d.Key()})
    case Swept(olderThan, at) => s.(rows := Apply(s.rows, AutoResolve(olderThan), at))
    case End(ok) => s.(last := if ok then s.cycle else s.last, cycle := None)
    case Restart => s.(last := None, cycle := None)
    case Operator(op, at) => s.(rows := Apply(s.rows, op, at))
  }

  const INITIAL := Sys([], None, None, {})

  function Front(hs: seq<Happening>): seq<Happening>
    requires hs != []
  { hs[..|hs| - 1] }

  function Last(hs: seq<Happening>): Happening
    requires hs != []
  { hs[|hs| - 1] }

  function Replay(hs: seq<Happening>): Sys {
    if hs == [] then INITIAL else Next(Replay(Front(hs)), Last(hs))
  }

  predicate ValidHistory(hs: seq<Happening>) {
    hs == [] || (ValidHistory(Front(hs)) && Enabled(Replay(Front(hs)), Last(hs)))
  }

  /** Rule and tenant names free of the fingerprint separator. */
  predicate Clean(hs: seq<Happening>) {
    forall i :: 0 <= i < |hs| && hs[i].Detected? ==> Free(hs[i].d.rule.id) && Free(hs[i].d.tenant)
  }

  // ---- What one incident has counted -------------------------------------

  /** The events step `h` adds to the count of row `k`. */
  function Counted(s: Sys, h: Happening, k: nat): set<Event> {
    if h.Detected? && s.cycle.Some? && Target(s.rows, h.d.Fingerprint(), h.id) == Some(k)
    then if k == |s.rows| then Errors(h.d, s.cycle.value) else Fresh(h.d, s.cycle.value, s.last)
    else {}
  }

  function CountedAt(hs: seq<Happening>, k: nat): set<Event>
    requires hs != []
  { Counted(Replay(Front(hs)), Last(hs), k) }

  /** How often row `k` has counted event `e`. */
  function Times(hs: seq<Happening>, k: nat, e: Event): nat {
    if hs == [] then 0 else Times(Front(hs), k, e) + (if e in CountedAt(hs, k) then 1 else 0)
  }

  /** How often it counted `e` in a cycle that started no later than `e`'s timestamp. */
  function FutureTimes(hs: seq<Happening>, k: nat, e: Event): nat {
    if hs == [] then 0
    else FutureTimes(Front(hs), k, e)
         + (if e in CountedAt(hs, k) && Replay(Front(hs)).cycle.value <= e.at then 1 else 0)
  }

  /** Whether the cycle in progress has counted `e` into row `k`. */
  predicate CountedNow(hs: seq<Happening>, k: nat, e: Event) {
    hs != [] &&
    match Last(hs)
    case Begin(_) => false
    case End(_) => false
    case Restart => false
    case _ => CountedNow(Front(hs), k, e) || e in CountedAt(hs, k)
  }

  /** How many failed cycles had counted `e` into row `k`. */
  function FailedTimes(hs: seq<Happening>, k: nat, e: Event): nat {
    if hs == [] then 0
    else FailedTimes(Front(hs), k, e) + (if Last(hs) == End(false) && CountedNow(Front(hs), k, e) then 1 else 0)
  }

  /** How many restarts row `k` has lived through. */
  function Restarts(hs: seq<Happening>, k: nat): nat {
    if hs == [] then 0
    else Restarts(Front(hs), k) + (if Last(hs) == Restart && k < |Replay(Front(hs)).rows| then 1 else 0)
  }

  // ---- Invariants of the machine -----------------------------------------

  lemma {:induction false} ReplayConsistent(hs: seq<Happening>)
    requires ValidHistory(hs)
    ensures Consistent(Replay(hs).rows)
    ensures Replay(hs).last.Some? && Replay(hs).cycle.Some? ==> Replay(hs).last.value <= Replay(hs).cycle.value
  {
    if hs != [] {
      ReplayConsistent(Front(hs));
      var s, h := Replay(Front(hs)), Last(hs);
      match h
      case Detected(_, _, at) => ApplyKeepsConsistent(s.rows, UpsertOf(s, h), at);
      case Swept(olderThan, at) => ApplyKeepsConsistent(s.rows, AutoResolve(olderThan), at);
      case Operator(op, at) => ApplyKeepsConsistent(s.rows, op, at);
      case _ =>
    }
  }

  /** Rows only move forward along a history. */
  lemma StepAdvances(s: Sys, h: Happening)
    requires Consistent(s.rows) && Enabled(s, h)
    ensures Advanced(s.rows, Next(s, h).rows)
  {
    match h
    case Detected(_, _, at) => ApplyAdvances(s.rows, UpsertOf(s, h), at);
    case Swept(olderThan, at) => ApplyAdvances(s.rows, AutoResolve(olderThan), at);
    case Operator(op, at) => ApplyAdvances(s.rows, op, at);
    case _ =>
  }

  /** Every step moves the count of row `k` by exactly the events it counts. */
  lemma StepCounts(s: Sys, h: Happening, k: nat)
    requires Enabled(s, h) && k < |Next(s, h).rows|
    ensures Next(s, h).rows[k].eventCount
         == (if k < |s.rows| then s.rows[k].eventCount else 0) + |Counted(s, h, k)|
  {
    if h.Detected? {
      var found := FindActive(s.rows, h.d.Fingerprint());
      if found.Some? {
        assert Next(s, h).rows[k] == if k == found.value then Next(s, h).rows[k] else s.rows[k];
      }
    }
  }

  lemma {:induction false} SeenIsClean(hs: seq<Happening>)
    requires ValidHistory(hs) && Clean(hs)
    ensures forall key :: key in Replay(hs).seen ==> Free(key.0) && Free(key.1)
  {
    if hs != [] {
      assert Clean(Front(hs));
      SeenIsClean(Front(hs));
    }
  }

  /** A row counted in this cycle has its detection among those already seen. */
  ghost predicate Marked(s: Sys, k: nat) {
    k < |s.rows| && exists key :: key in s.seen && Fingerprint(key.0, key.1, key.2) == s.rows[k].fingerprint
  }

  /** What a step counts into is marked, and what was marked stays so within the cycle. */
  lemma StepMarks(s: Sys, h: Happening, k: nat)
    requires Consistent(s.rows) && Enabled(s, h)
    ensures Counted(s, h, k) != {} ==> Marked(Next(s, h), k)
    ensures Marked(s, k) && !h.Begin? ==> Marked(Next(s, h), k)
    ensures |s.rows| <= |Next(s, h).rows|
  {
    StepAdvances(s, h);
    if Counted(s, h, k) != {} {
      assert h.d.Key() in Next(s, h).seen;
      assert k < |s.rows| ==> RowAdvanced(s.rows[k], Next(s, h).rows[k]);
    }
    if Marked(s, k) && !h.Begin? {
      var key :| key in s.seen && Fingerprint(key.0, key.1, key.2) == s.rows[k].fingerprint;
      assert RowAdvanced(s.rows[k], Next(s, h).rows[k]) && key in Next(s, h).seen;
    }
  }

  lemma {:induction false} CountedRowIsMarked(hs: seq<Happening>, k: nat, e: Event)
    requires ValidHistory(hs) && Clean(hs)
    ensures CountedNow(hs, k, e) ==> Marked(Replay(hs), k)
    ensures |Replay(hs).rows| <= k ==> Times(hs, k, e) == 0
    ensures Replay(hs).cycle.None? ==> !CountedNow(hs, k, e)
  {
    if hs != [] {
      assert Clean(Front(hs));
      CountedRowIsMarked(Front(hs), k, e);
      ReplayConsistent(Front(hs));
      StepMarks(Replay(Front(hs)), Last(hs), k);
    }
  }

  /** No cycle upserts into a row it has already counted into. */
  lemma NotTwicePerCycle(hs: seq<Happening>, k: nat, e: Event)
    requires hs != [] && ValidHistory(hs) && Clean(hs)
    requires CountedNow(Front(hs), k, e)
    ensures CountedAt(hs, k) == {}
  {
    var s, h := Replay(Front(hs)), Last(hs);
    assert Clean(Front(hs));
    CountedRowIsMarked(Front(hs), k, e);
    SeenIsClean(Front(hs));
    if CountedAt(hs, k) != {} {
      var key :| key in s.seen && Fingerprint(key.0, key.1, key.2) == s.rows[k].fingerprint;
      FingerprintInjective(key.0, key.1, key.2, h.d.rule.id, h.d.tenant, h.d.service);
    }
  }
}
