/** What an incident's event count means: how often one event can have been counted,
    and which events a well-followed episode has counted. */
module EventCounts {
  import opened Wrappers
  import opened Incidents
  import opened Correlation

  // ---- Each event at most once, except for future dates, failures, restarts --

  /** `e` is behind the evaluator's bound: no later cycle will count it again. */
  ghost predicate Spent(hs: seq<Happening>, k: nat, e: Event) {
    var s := Replay(hs);
    || (s.last.Some? && e.at < s.last.value)
    || (s.cycle.Some? && CountedNow(hs, k, e) && e.at < s.cycle.value)
  }

  function Allowance(hs: seq<Happening>, k: nat, e: Event): nat {
    FutureTimes(hs, k, e) + FailedTimes(hs, k, e) + Restarts(hs, k)
  }

  /** The allowance covers the times counted, with one to spare unless the event is spent. */
  ghost predicate Charged(hs: seq<Happening>, k: nat, e: Event) {
    Times(hs, k, e) <= Allowance(hs, k, e) + 1 && (Times(hs, k, e) == Allowance(hs, k, e) + 1 ==> Spent(hs, k, e))
  }

  lemma ChargeCounted(hs: seq<Happening>, k: nat, e: Event)
    requires hs != [] && ValidHistory(hs) && Clean(hs) && e in CountedAt(hs, k) && Charged(Front(hs), k, e)
    ensures Charged(hs, k, e)
  {
    var s, h := Replay(Front(hs)), Last(hs);
    assert Clean(Front(hs));
    CountedRowIsMarked(Front(hs), k, e);
    if CountedNow(Front(hs), k, e) {
      NotTwicePerCycle(hs, k, e);
    } else if k < |s.rows| {
      assert e.at >= CountSince(s.cycle.value, h.d.rule.window, s.last);
    }
  }

  /** A step that neither counts the event nor adds to the allowance leaves it spent. */
  lemma SpentStays(hs: seq<Happening>, k: nat, e: Event)
    requires hs != [] && ValidHistory(hs) && Clean(hs) && e !in CountedAt(hs, k) && Spent(Front(hs), k, e)
    requires Times(hs, k, e) > 0 && !(Last(hs) == End(false) && CountedNow(Front(hs), k, e)) && Last(hs) != Restart
    ensures Spent(hs, k, e)
  {
    assert Clean(Front(hs));
    ReplayConsistent(Front(hs));
    CountedRowIsMarked(Front(hs), k, e);
  }

  lemma ChargeOther(hs: seq<Happening>, k: nat, e: Event)
    requires hs != [] && ValidHistory(hs) && Clean(hs) && e !in CountedAt(hs, k) && Charged(Front(hs), k, e)
    ensures Charged(hs, k, e)
  {
    assert Clean(Front(hs));
    CountedRowIsMarked(Front(hs), k, e);
    assert Times(hs, k, e) == Times(Front(hs), k, e);
    if Times(hs, k, e) == Allowance(hs, k, e) + 1 { SpentStays(hs, k, e); }
  }

  lemma {:induction false} Charge(hs: seq<Happening>, k: nat, e: Event)
    requires ValidHistory(hs) && Clean(hs)
    ensures Charged(hs, k, e)
  {
    if hs != [] {
      assert Clean(Front(hs));
      Charge(Front(hs), k, e);
      if e in CountedAt(hs, k) {
        ChargeCounted(hs, k, e);
      } else {
        ChargeOther(hs, k, e);
      }
    }
  }

  /** Over any run, a row counts an event at most once, plus once for every time it
      was counted by a cycle starting no later than its timestamp, once for every
      failed cycle that had counted it, and once per restart. */
  lemma CountedAtMostOnce(hs: seq<Happening>, k: nat, e: Event)
    requires ValidHistory(hs) && Clean(hs)
    ensures Times(hs, k, e) <= 1 + FutureTimes(hs, k, e) + FailedTimes(hs, k, e) + Restarts(hs, k)
  {
    Charge(hs, k, e);
  }

  /** Every event row `k` has ever counted. */
  function EverCounted(hs: seq<Happening>, k: nat): set<Event> {
    if hs == [] then {} else EverCounted(Front(hs), k) + CountedAt(hs, k)
  }

  lemma {:induction false} EverCountedIsTimes(hs: seq<Happening>, k: nat, e: Event)
    ensures e in EverCounted(hs, k) <==> Times(hs, k, e) > 0
  {
    if hs != [] { EverCountedIsTimes(Front(hs), k, e); }
  }

  lemma {:induction false} TimesGrows(hs: seq<Happening>, n: nat, k: nat, e: Event)
    requires n <= |hs|
    ensures Times(hs[..n], k, e) <= Times(hs, k, e)
    decreases |hs|
  {
    if n < |hs| {
      assert Front(hs)[..n] == hs[..n];
      TimesGrows(Front(hs), n, k, e);
    } else {
      assert hs[..n] == hs;
    }
  }

  /** Nothing happened to row `k` that makes an event count twice. */
  ghost predicate Undisturbed(hs: seq<Happening>, k: nat) {
    forall e :: NeverDisturbed(hs, k, e)
  }

  predicate NeverDisturbed(hs: seq<Happening>, k: nat, e: Event) {
    FutureTimes(hs, k, e) == 0 && FailedTimes(hs, k, e) == 0 && Restarts(hs, k) == 0
  }

  lemma CountedApart(hs: seq<Happening>, k: nat)
    requires hs != [] && forall e :: Times(hs, k, e) <= 1
    ensures EverCounted(Front(hs), k) !! CountedAt(hs, k)
  {
    forall e | e in EverCounted(Front(hs), k) ensures e !in CountedAt(hs, k) {
      EverCountedIsTimes(Front(hs), k, e);
      assert Times(hs, k, e) <= 1;
    }
  }

  lemma StepKeepsCount(s: Sys, h: Happening, k: nat)
    requires Consistent(s.rows) && Enabled(s, h)
    ensures k < |Next(s, h).rows| ==>
      Next(s, h).rows[k].eventCount == (if k < |s.rows| then s.rows[k].eventCount else 0) + |Counted(s, h, k)|
    ensures |Next(s, h).rows| <= k ==> |s.rows| <= k && Counted(s, h, k) == {}
  {
    StepAdvances(s, h);
    if k < |Next(s, h).rows| { StepCounts(s, h, k); }
  }

  lemma {:induction false} CountIsDistinct(hs: seq<Happening>, k: nat)
    requires ValidHistory(hs)
    requires forall e :: Times(hs, k, e) <= 1
    ensures |Replay(hs).rows| <= k ==> EverCounted(hs, k) == {}
    ensures k < |Replay(hs).rows| ==> Replay(hs).rows[k].eventCount == |EverCounted(hs, k)|
  {
    if hs != [] {
      forall e ensures Times(Front(hs), k, e) <= 1 {
        TimesGrows(hs, |hs| - 1, k, e);
      }
      CountIsDistinct(Front(hs), k);
      ReplayConsistent(Front(hs));
      StepKeepsCount(Replay(Front(hs)), Last(hs), k);
      CountedApart(hs, k);
    }
  }

  /** Without future-dated sightings, failed cycles or restarts, the running count is
      exactly the number of distinct error events the incident has counted. */
  lemma UndisturbedCountIsDistinct(hs: seq<Happening>, k: nat)
    requires ValidHistory(hs) && Clean(hs) && Undisturbed(hs, k)
    requires k < |Replay(hs).rows|
    ensures Replay(hs).rows[k].eventCount == |EverCounted(hs, k)|
  {
    forall e ensures Times(hs, k, e) <= 1 {
      assert NeverDisturbed(hs, k, e);
      CountedAtMostOnce(hs, k, e);
    }
    CountIsDistinct(hs, k);
  }

  lemma Appended(hs: seq<Happening>, h: Happening, k: nat, e: Event)
    requires ValidHistory(hs) && Enabled(Replay(hs), h)
    ensures ValidHistory(hs + [h]) && Replay(hs + [h]) == Next(Replay(hs), h)
    ensures Times(hs + [h], k, e) == Times(hs, k, e) + if e in Counted(Replay(hs), h, k) then 1 else 0
    ensures h != End(false) && h != Restart && h.Detected? == (e in Counted(Replay(hs), h, k))
      ==> FailedTimes(hs + [h], k, e) == FailedTimes(hs, k, e) && Restarts(hs + [h], k) == Restarts(hs, k)
  {
    assert Front(hs + [h]) == hs && Last(hs + [h]) == h;
  }

  /** A cycle that counts `e` into the active row its detection folds into. */
  lemma GroupsNext(hs: seq<Happening>, d: Detection, k: nat, e: Event, start: int) returns (more: seq<Happening>)
    requires ValidHistory(hs) && Enabled(Replay(hs), Begin(start)) && Fires(d, start)
    requires FindActive(Replay(hs).rows, d.Fingerprint()) == Some(k) && e in Fresh(d, start, Replay(hs).last)
    ensures more == [Begin(start), Detected(d, 0, start)] && ValidHistory(hs + more)
    ensures Times(hs + more, k, e) == Times(hs, k, e) + 1
    ensures FailedTimes(hs + more, k, e) == FailedTimes(hs, k, e) && Restarts(hs + more, k) == Restarts(hs, k)
  {
    var begin, detect := Begin(start), Detected(d, 0, start);
    more := [begin, detect];
    Appended(hs, begin, k, e);
    assert e in Counted(Replay(hs + [begin]), detect, k);
    Appended(hs + [begin], detect, k, e);
    assert hs + [begin] + [detect] == hs + more;
  }

  lemma OneWindow(e: Event, since: int)
    requires e.bad && since <= e.at
    ensures InWindow({e}, e.tenant, e.service, since) == {e} && Bad({e}) == {e}
  {}

  lemma BeginsAt(e: Event, start: int) returns (hs: seq<Happening>)
    ensures hs == [Begin(start)] && ValidHistory(hs) && Replay(hs) == Sys([], None, Some(start), {})
    ensures Times(hs, 0, e) == 0 && FailedTimes(hs, 0, e) == 0 && Restarts(hs, 0) == 0
  {
    Appended([], Begin(start), 0, e);
    hs := [Begin(start)];
    assert [] + hs == hs;
  }

  /** The first cycle sees the event dated at its start and opens an incident for it. */
  lemma OpensAtStart(e: Event, rule: Rule) returns (hs: seq<Happening>)
    requires e.bad && Free(rule.id) && Free(e.tenant)
    requires RateReached(rule, 1, 1) && 0 < rule.window
    ensures ValidHistory(hs) && Clean(hs) && Times(hs, 0, e) == 1
    ensures FailedTimes(hs, 0, e) == 0 && Restarts(hs, 0) == 0
    ensures var s := Replay(hs);
      s.last == Some(e.at) && s.cycle == None
      && FindActive(s.rows, Detection(rule, e.tenant, e.service, {e}).Fingerprint()) == Some(0)
  {
    var d := Detection(rule, e.tenant, e.service, {e});
    OneWindow(e, e.at - rule.window);
    hs := BeginsAt(e, e.at);
    assert Fires(d, e.at) && FindActive([], d.Fingerprint()).None?;
    Appended(hs, Detected(d, 0, e.at), 0, e);
    hs := hs + [Detected(d, 0, e.at)];
    assert |Replay(hs).rows| == 1 && Replay(hs).rows[0].fingerprint == d.Fingerprint();
    Appended(hs, End(true), 0, e);
    hs := hs + [End(true)];
  }

  /** A row does count an event twice when the event is dated at the start of the
      cycle that first sees it: the next cycle's bound is inclusive. */
  lemma CountedTwiceWhenDatedAtStart(e: Event, rule: Rule) returns (hs: seq<Happening>)
    requires e.bad && Free(rule.id) && Free(e.tenant)
    requires RateReached(rule, 1, 1) && 0 < rule.window
    ensures ValidHistory(hs) && Clean(hs) && Times(hs, 0, e) == 2
    ensures FailedTimes(hs, 0, e) == 0 && Restarts(hs, 0) == 0
  {
    hs := OpensAtStart(e, rule);
    var d := Detection(rule, e.tenant, e.service, {e});
    OneWindow(e, e.at);
    var more := GroupsNext(hs, d, 0, e, e.at + rule.window);
    hs := hs + more;
  }

  // ---- Exactly when an event can be counted again ----------------------------

  /** What happens after a history until the evaluator restarts or, unless `failures` are
      allowed, until a cycle fails. */
  predicate Uninterrupted(more: seq<Happening>, failures: bool) {
    forall i :: 0 <= i < |more| ==> more[i] != Restart && (failures || more[i] != End(false))
  }

  /** Some such continuation counts `e` into row `k` once more. */
  ghost predicate CanCountAgain(hs: seq<Happening>, k: nat, e: Event, failures: bool) {
    exists more :: CountsAgain(hs, more, k, e) && Uninterrupted(more, failures)
  }

  ghost predicate CountsAgain(hs: seq<Happening>, more: seq<Happening>, k: nat, e: Event) {
    ValidHistory(hs + more) && Times(hs + more, k, e) > Times(hs, k, e)
  }

  lemma PastUncounted(s: Sys, h: Happening, k: nat, e: Event)
    requires Consistent(s.rows) && Enabled(s, h) && h != Restart && k < |s.rows|
    requires s.last.Some? && e.at < s.last.value && (s.cycle.Some? ==> s.last.value <= s.cycle.value)
    ensures e !in Counted(s, h, k) && k < |Next(s, h).rows|
    ensures Next(s, h).last.Some? && e.at < Next(s, h).last.value
  {
    StepAdvances(s, h);
    if h.Detected? {
      assert CountSince(s.cycle.value, h.d.rule.window, s.last) >= s.last.value;
    }
  }

  /** An event dated before the start of a successful cycle is never counted into an
      existing row again, whatever fails, until a restart. */
  lemma {:induction false} NeverAgain(hs: seq<Happening>, more: seq<Happening>, k: nat, e: Event)
    requires ValidHistory(hs + more) && Uninterrupted(more, true) && k < |Replay(hs).rows|
    requires Replay(hs).last.Some? && e.at < Replay(hs).last.value
    ensures Times(hs + more, k, e) == Times(hs, k, e) && k < |Replay(hs + more).rows|
    ensures Replay(hs + more).last.Some? && e.at < Replay(hs + more).last.value
    decreases |more|
  {
    if more == [] {
      assert hs + more == hs;
    } else {
      var front, h := more[..|more| - 1], more[|more| - 1];
      assert Front(hs + more) == hs + front && Last(hs + more) == h;
      NeverAgain(hs, front, k, e);
      ReplayConsistent(hs + front);
      PastUncounted(Replay(hs + front), h, k, e);
    }
  }

  /** Error events of one service and moment: `e` and enough others like it. */
  function Crowd(e: Event, size: nat): set<Event> { set i: nat | i < size :: Twin(e, i) }

  function Twin(e: Event, i: nat): Event { e.(id := e.id + i) }

  lemma {:induction false} CrowdSize(e: Event, size: nat)
    ensures |Crowd(e, size)| == size
  {
    if size > 0 {
      CrowdSize(e, size - 1);
      assert Crowd(e, size) == Crowd(e, size - 1) + {Twin(e, size - 1)};
    }
  }

  /** A detection of a rule that can fire, by a cycle started at `e`'s timestamp. */
  lemma CrowdFires(e: Event, rule: Rule) returns (d: Detection)
    requires e.bad && rule.kind == ErrorRate && rule.numerator <= rule.denominator && 0 <= rule.window
    ensures d.rule == rule && d.tenant == e.tenant && d.service == e.service && e in d.visible && Fires(d, e.at)
  {
    var size: nat := if rule.minEvents < 1 then 1 else rule.minEvents;
    d := Detection(rule, e.tenant, e.service, Crowd(e, size));
    CrowdSize(e, size);
    assert e == Twin(e, 0);
    assert InWindow(d.visible, e.tenant, e.service, e.at - rule.window) == d.visible;
    OnlyErrorsFire(d, e.at);
  }

  lemma ActiveIsFound(rows: seq<Incident>, k: nat)
    requires Consistent(rows) && k < |rows| && rows[k].status.Active()
    ensures FindActive(rows, rows[k].fingerprint) == Some(k)
  {
    assert FindActive(rows, rows[k].fingerprint).Some?;
  }

  /** The very next cycle, started at the event's timestamp, counts it. */
  lemma NextCycleCounts(hs: seq<Happening>, k: nat, e: Event, rule: Rule)
    requires Countable(hs, k, e, rule) && (Replay(hs).last.Some? ==> Replay(hs).last.value <= e.at)
    ensures CanCountAgain(hs, k, e, false)
  {
    var d := CrowdFires(e, rule);
    ReplayConsistent(hs);
    ActiveIsFound(Replay(hs).rows, k);
    var more := GroupsNext(hs, d, k, e, e.at);
    assert CountsAgain(hs, more, k, e) && Uninterrupted(more, false);
  }

  /** Between cycles, row `k` is the active incident of an error-rate rule that can fire,
      for the service of the error event `e`. */
  ghost predicate Countable(hs: seq<Happening>, k: nat, e: Event, rule: Rule) {
    && ValidHistory(hs) && Replay(hs).cycle.None? && e.bad
    && k < |Replay(hs).rows| && Replay(hs).rows[k].status.Active()
    && Replay(hs).rows[k].fingerprint == Fingerprint(rule.id, e.tenant, e.service)
    && rule.kind == ErrorRate && rule.numerator <= rule.denominator && 0 <= rule.window
  }

  /** An active incident can count an event (again) exactly when no cycle has succeeded
      since the evaluator started or the event is dated at or after the start of the
      latest one that did. Failed cycles make no difference. */
  lemma CountedAgainExactlyWhenNotBehind(hs: seq<Happening>, k: nat, e: Event, rule: Rule, failures: bool)
    requires Countable(hs, k, e, rule)
    ensures CanCountAgain(hs, k, e, failures) <==> (Replay(hs).last.Some? ==> Replay(hs).last.value <= e.at)
  {
    if Replay(hs).last.Some? && e.at < Replay(hs).last.value {
      forall more | ValidHistory(hs + more) && Uninterrupted(more, failures) ensures !CountsAgain(hs, more, k, e) {
        NeverAgain(hs, more, k, e);
      }
    } else {
      NextCycleCounts(hs, k, e, rule);
      var more :| CountsAgain(hs, more, k, e) && Uninterrupted(more, false);
      assert Uninterrupted(more, failures);
    }
  }

  // ---- A well-followed episode counts exactly its own events ---------------

  /** Row `k`, opened by `rule` on a service in the cycle that started at `openedAt`;
      `errors` is every error event the service will ever have stored. */
  datatype Episode = Episode(k: nat, rule: Rule, tenant: string, service: string, openedAt: int, errors: set<Event>) {
    function Key(): Key { (rule.id, tenant, service) }

    predicate Own(d: Detection) { d.Key() == Key() }

    /** The service's errors dated in `[from, to)`. */
    function Dated(from: int, to: int): set<Event> { set e | e in errors && from <= e.at < to }
  }

  /** A read of the service's errors: nothing unknown, nothing before its time. */
  ghost predicate Punctual(d: Detection, ep: Episode, start: int) {
    && d.rule == ep.rule
    && (forall e :: e in d.visible && e.tenant == ep.tenant && e.service == ep.service && e.bad
          ==> e in ep.errors && e.at < start)
    && (forall e :: e in ep.errors ==> e.tenant == ep.tenant && e.service == ep.service && e.bad)
  }

  /** The table the cycle in progress read when it detected the episode's service;
      `n` is the length of the history that ends with the opening. */
  function Read(hs: seq<Happening>, n: nat, ep: Episode): Option<set<Event>>
    requires 0 < n <= |hs|
    decreases |hs|
  {
    match Last(hs)
    case Detected(d, _, _) =>
      if ep.Own(d) then Some(d.visible) else if |hs| == n then None else Read(Front(hs), n, ep)
    case Begin(_) => None
    case End(_) => None
    case Restart => None
    case _ => if |hs| == n then None else Read(Front(hs), n, ep)
  }

  /** The start of the latest successful cycle, or of the opening one. */
  function Horizon(hs: seq<Happening>, n: nat, ep: Episode): int
    requires 0 < n <= |hs|
    decreases |hs|
  {
    if |hs| == n then ep.openedAt
    else
      var s := Replay(Front(hs));
      if Last(hs) == End(true) && s.cycle.Some? then s.cycle.value else Horizon(Front(hs), n, ep)
  }

  /** The history up to `n` ends with the detection that opens the episode. */
  ghost predicate Opens(hs: seq<Happening>, ep: Episode) {
    hs != [] && Last(hs).Detected? &&
    var s := Replay(Front(hs));
    var d := Last(hs).d;
    && s.cycle == Some(ep.openedAt)
    && ep.Own(d) && Punctual(d, ep, ep.openedAt)
    && ep.k == |s.rows| && Target(s.rows, d.Fingerprint(), Last(hs).id) == Some(ep.k)
    && (forall e :: e in ep.Dated(ep.openedAt - ep.rule.window, ep.openedAt) ==> e in d.visible)
  }

  /** Hypotheses on one later step: the clock moves forward; reads are punctual; a
      successful cycle fired for the episode, started at most one window after the
      previous successful one, and read every error dated between the two starts; and
      the incident stays active. */
  ghost predicate Follows(hs: seq<Happening>, n: nat, ep: Episode)
    requires 0 < n < |hs|
  {
    var s, h := Replay(Front(hs)), Last(hs);
    && (h.Begin? ==> Horizon(Front(hs), n, ep) <= h.start)
    && (h.Detected? && ep.Own(h.d) && s.cycle.Some? ==> Punctual(h.d, ep, s.cycle.value))
    && (h == End(true) && s.cycle.Some? ==>
          && s.cycle.value - Horizon(Front(hs), n, ep) <= ep.rule.window
          && Read(Front(hs), n, ep).Some?
          && forall e :: e in ep.Dated(Horizon(Front(hs), n, ep), s.cycle.value) ==> e in Read(Front(hs), n, ep).value)
    && (ep.k < |Replay(hs).rows| ==> Replay(hs).rows[ep.k].status.Active())
  }

  ghost predicate Followed(hs: seq<Happening>, n: nat, ep: Episode)
    decreases |hs|
  {
    && 0 < n <= |hs| && ValidHistory(hs) && Clean(hs)
    && (if |hs| == n then Opens(hs, ep) else Followed(Front(hs), n, ep) && Follows(hs, n, ep))
  }

  /** Facts about an episode's row that its bounds rest on. */
  lemma {:induction false} EpisodeRow(hs: seq<Happening>, n: nat, ep: Episode)
    requires Followed(hs, n, ep)
    ensures var s := Replay(hs);
      && ep.k < |s.rows| && s.rows[ep.k].status.Active()
      && s.rows[ep.k].fingerprint == Fingerprint(ep.rule.id, ep.tenant, ep.service)
      && (s.last.Some? ==> s.last.value <= Horizon(hs, n, ep))
      && (s.cycle.Some? ==> Horizon(hs, n, ep) <= s.cycle.value)
      && (Read(hs, n, ep).Some? ==> s.cycle.Some?)
      && ep.openedAt <= Horizon(hs, n, ep)
      && Free(ep.rule.id) && Free(ep.tenant)
    decreases |hs|
  {
    var s, h := Replay(Front(hs)), Last(hs);
    ReplayConsistent(Front(hs));
    if |hs| == n {
      assert hs[n - 1].Detected?;
    } else {
      EpisodeRow(Front(hs), n, ep);
      StepAdvances(s, h);
      assert RowAdvanced(s.rows[ep.k], Replay(hs).rows[ep.k]);
    }
  }

  /** Only the episode's own detections touch its row, and they all do. */
  lemma OwnDetectionsHit(hs: seq<Happening>, n: nat, ep: Episode)
    requires n < |hs| && Followed(hs, n, ep)
    ensures var s, h := Replay(Front(hs)), Last(hs);
      CountedAt(hs, ep.k) == if h.Detected? && ep.Own(h.d) then Fresh(h.d, s.cycle.value, s.last) else {}
  {
    var s, h := Replay(Front(hs)), Last(hs);
    EpisodeRow(Front(hs), n, ep);
    ReplayConsistent(Front(hs));
    if h.Detected? {
      assert hs[|hs| - 1] == h;
      var found := FindActive(s.rows, h.d.Fingerprint());
      if ep.Own(h.d) {
        assert found.Some? && found.value == ep.k;
      } else if found == Some(ep.k) {
        FingerprintInjective(h.d.rule.id, h.d.tenant, h.d.service, ep.rule.id, ep.tenant, ep.service);
      }
    }
  }

  /** The events the cycle in progress adds beyond the horizon. */
  ghost function Beyond(hs: seq<Happening>, n: nat, ep: Episode): set<Event>
    requires 0 < n <= |hs|
  {
    var s, read, hi := Replay(hs), Read(hs, n, ep), Horizon(hs, n, ep);
    if read.Some? && s.cycle.Some? && s.cycle.value - hi <= ep.rule.window
    then set e | e in ep.errors && e in read.value && hi <= e.at < s.cycle.value else {}
  }

  /** The events accounted for once a history has happened. */
  ghost function Accounted(hs: seq<Happening>, n: nat, ep: Episode): (a: nat)
    requires 0 < n <= |hs|
    ensures a >= |ep.Dated(ep.openedAt - ep.rule.window, Horizon(hs, n, ep))|
  {
    |ep.Dated(ep.openedAt - ep.rule.window, Horizon(hs, n, ep))| + |Beyond(hs, n, ep)|
  }

  lemma OwnDetectionAccounts(hs: seq<Happening>, n: nat, ep: Episode)
    requires n < |hs| && Followed(hs, n, ep) && Last(hs).Detected? && ep.Own(Last(hs).d)
    ensures var s := Replay(Front(hs)); Accounted(hs, n, ep) <= Accounted(Front(hs), n, ep) + |Fresh(Last(hs).d, s.cycle.value, s.last)|
  {
    var s, h := Replay(Front(hs)), Last(hs);
    EpisodeRow(Front(hs), n, ep);
    assert Beyond(hs, n, ep) <= Fresh(h.d, s.cycle.value, s.last);
    SubsetSize(Beyond(hs, n, ep), Fresh(h.d, s.cycle.value, s.last));
  }

  lemma SuccessAccounts(hs: seq<Happening>, n: nat, ep: Episode)
    requires n < |hs| && Followed(hs, n, ep) && Last(hs) == End(true)
    ensures Accounted(hs, n, ep) <= Accounted(Front(hs), n, ep)
  {
    var s := Replay(Front(hs));
    var lo, hi := ep.openedAt - ep.rule.window, Horizon(Front(hs), n, ep);
    EpisodeRow(Front(hs), n, ep);
    var both := ep.Dated(lo, hi) + Beyond(Front(hs), n, ep);
    assert ep.Dated(lo, hi) !! Beyond(Front(hs), n, ep);
    assert ep.Dated(lo, s.cycle.value) <= both;
    SubsetSize(ep.Dated(lo, s.cycle.value), both);
    assert Beyond(hs, n, ep) == {};
  }

  lemma OtherStepAccounts(hs: seq<Happening>, n: nat, ep: Episode)
    requires n < |hs| && Followed(hs, n, ep) && Last(hs) != End(true) && !(Last(hs).Detected? && ep.Own(Last(hs).d))
    ensures Accounted(hs, n, ep) <= Accounted(Front(hs), n, ep)
  {
    EpisodeRow(Front(hs), n, ep);
    SubsetSize(Beyond(hs, n, ep), Beyond(Front(hs), n, ep));
  }

  lemma NothingBeyondOpening(hs: seq<Happening>, ep: Episode)
    requires Followed(hs, |hs|, ep)
    ensures Beyond(hs, |hs|, ep) == {}
  {}

  lemma OpeningAccounts(hs: seq<Happening>, ep: Episode)
    requires Followed(hs, |hs|, ep)
    ensures Accounted(hs, |hs|, ep) <= |Errors(Last(hs).d, ep.openedAt)|
  {
    NothingBeyondOpening(hs, ep);
    assert ep.Dated(ep.openedAt - ep.rule.window, ep.openedAt) <= Errors(Last(hs).d, ep.openedAt);
    SubsetSize(ep.Dated(ep.openedAt - ep.rule.window, ep.openedAt), Errors(Last(hs).d, ep.openedAt));
  }

  /** One step adds at least what it makes accounted for. */
  lemma StepAccounts(hs: seq<Happening>, n: nat, ep: Episode)
    requires n < |hs| && Followed(hs, n, ep)
    ensures Accounted(hs, n, ep) <= Accounted(Front(hs), n, ep) + |CountedAt(hs, ep.k)|
  {
    OwnDetectionsHit(hs, n, ep);
    if Last(hs).Detected? && ep.Own(Last(hs).d) {
      OwnDetectionAccounts(hs, n, ep);
    } else if Last(hs) == End(true) {
      SuccessAccounts(hs, n, ep);
    } else {
      OtherStepAccounts(hs, n, ep);
    }
  }

  lemma OpeningCounts(hs: seq<Happening>, ep: Episode)
    requires Followed(hs, |hs|, ep)
    ensures ep.k < |Replay(hs).rows| && Replay(hs).rows[ep.k].eventCount >= Accounted(hs, |hs|, ep)
  {
    EpisodeRow(hs, |hs|, ep);
    StepCounts(Replay(Front(hs)), Last(hs), ep.k);
    OpeningAccounts(hs, ep);
  }

  /** However many cycles fail in between, the incident has counted at least the
      service's errors dated from one window before its opening cycle up to the start
      of the latest successful cycle. */
  lemma {:induction false} FollowedCountIsAtLeast(hs: seq<Happening>, n: nat, ep: Episode)
    requires Followed(hs, n, ep)
    ensures ep.k < |Replay(hs).rows| && Replay(hs).rows[ep.k].eventCount >= Accounted(hs, n, ep)
    ensures Replay(hs).rows[ep.k].eventCount >= |ep.Dated(ep.openedAt - ep.rule.window, Horizon(hs, n, ep))|
    decreases |hs|
  {
    if |hs| == n {
      OpeningCounts(hs, ep);
    } else {
      FollowedCountIsAtLeast(Front(hs), n, ep);
      EpisodeRow(hs, n, ep);
      StepCounts(Replay(Front(hs)), Last(hs), ep.k);
      StepAccounts(hs, n, ep);
    }
  }

  /** After the opening, no cycle fails and the evaluator does not restart. */
  predicate Smooth(hs: seq<Happening>, n: nat) {
    forall i :: n <= i < |hs| ==> hs[i] != End(false) && hs[i] != Restart
  }

  lemma {:induction false} SmoothIsUndisturbed(hs: seq<Happening>, n: nat, ep: Episode, e: Event)
    requires Followed(hs, n, ep) && Smooth(hs, n)
    ensures NeverDisturbed(hs, ep.k, e)
    decreases |hs|
  {
    if |hs| == n {
      BeforeOpening(Front(hs), ep.k, e);
      ReplayConsistent(Front(hs));
    } else {
      SmoothIsUndisturbed(Front(hs), n, ep, e);
      OwnDetectionsHit(hs, n, ep);
      assert hs[|hs| - 1] != End(false);
    }
  }

  lemma {:induction false} BeforeOpening(hs: seq<Happening>, k: nat, e: Event)
    requires ValidHistory(hs) && |Replay(hs).rows| <= k
    ensures NeverDisturbed(hs, k, e)
    ensures !CountedNow(hs, k, e) && e !in EverCounted(hs, k)
  {
    if hs != [] {
      ReplayConsistent(Front(hs));
      StepAdvances(Replay(Front(hs)), Last(hs));
      BeforeOpening(Front(hs), k, e);
    }
  }

  /** An event is one of the episode's, and dated by where the history has come to. */
  ghost predicate InStep(hs: seq<Happening>, n: nat, ep: Episode, e: Event)
    requires 0 < n <= |hs|
  {
    && e in ep.errors && ep.openedAt - ep.rule.window <= e.at
    && (e.at < Horizon(hs, n, ep)
        || (Replay(hs).cycle.Some? && Read(hs, n, ep).Some? && e.at < Replay(hs).cycle.value))
  }

  lemma CountedInStep(hs: seq<Happening>, n: nat, ep: Episode, e: Event)
    requires n < |hs| && Followed(hs, n, ep) && e in CountedAt(hs, ep.k)
    ensures InStep(hs, n, ep, e)
  {
    EpisodeRow(Front(hs), n, ep);
    OwnDetectionsHit(hs, n, ep);
  }

  lemma StaysInStep(hs: seq<Happening>, n: nat, ep: Episode, e: Event)
    requires n < |hs| && Followed(hs, n, ep) && Smooth(hs, n) && InStep(Front(hs), n, ep, e)
    ensures InStep(hs, n, ep, e)
  {
    EpisodeRow(Front(hs), n, ep);
    assert hs[|hs| - 1] != Restart && hs[|hs| - 1] != End(false);
    assert Last(hs).Begin? ==> Replay(Front(hs)).cycle.None?;
  }

  lemma {:induction false} AtMostDated(hs: seq<Happening>, n: nat, ep: Episode, e: Event)
    requires Followed(hs, n, ep) && Smooth(hs, n)
    requires e in EverCounted(hs, ep.k)
    ensures InStep(hs, n, ep, e)
    decreases |hs|
  {
    if |hs| == n {
      EpisodeRow(hs, n, ep);
      BeforeOpening(Front(hs), ep.k, e);
    } else if e in CountedAt(hs, ep.k) {
      CountedInStep(hs, n, ep, e);
    } else {
      AtMostDated(Front(hs), n, ep, e);
      StaysInStep(hs, n, ep, e);
    }
  }

  lemma OnlyDatedCounted(hs: seq<Happening>, n: nat, ep: Episode)
    requires Followed(hs, n, ep) && Smooth(hs, n) && Replay(hs).cycle.None?
    ensures EverCounted(hs, ep.k) <= ep.Dated(ep.openedAt - ep.rule.window, Horizon(hs, n, ep))
  {
    forall e | e in EverCounted(hs, ep.k) ensures e in ep.Dated(ep.openedAt - ep.rule.window, Horizon(hs, n, ep)) {
      AtMostDated(hs, n, ep, e);
    }
  }

  /** Between cycles, with every cycle since the opening successful and firing, the
      incident has counted exactly the service's errors dated from one window before
      its opening cycle up to the start of the latest cycle, each of them once. */
  lemma FollowedCountIsExact(hs: seq<Happening>, n: nat, ep: Episode)
    requires Followed(hs, n, ep) && Smooth(hs, n) && Replay(hs).cycle.None?
    ensures ep.k < |Replay(hs).rows|
    ensures Replay(hs).rows[ep.k].eventCount == |ep.Dated(ep.openedAt - ep.rule.window, Horizon(hs, n, ep))|
  {
    FollowedCountIsAtLeast(hs, n, ep);
    forall e ensures NeverDisturbed(hs, ep.k, e) {
      SmoothIsUndisturbed(hs, n, ep, e);
    }
    assert Undisturbed(hs, ep.k);
    UndisturbedCountIsDistinct(hs, ep.k);
    OnlyDatedCounted(hs, n, ep);
    SubsetSize(EverCounted(hs, ep.k), ep.Dated(ep.openedAt - ep.rule.window, Horizon(hs, n, ep)));
  }
}
