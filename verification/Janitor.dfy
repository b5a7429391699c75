/** One maintenance cycle over the daily partitions: create the days ahead, drop the days
    past retention, report. */
module Janitor {
  import opened Times
  import opened Wrappers
  import opened PartitionNames
  import P = Partitions
  import E = Events

  /** The naming contract the janitor is given. */
  datatype Naming = Naming(nameOf: int -> string, dayOf: string -> Option<int>)

  /** No name is taken for another day's. */
  ghost predicate Agrees(naming: Naming) {
    forall d :: naming.dayOf(naming.nameOf(d)) in {None, Some(d)}
  }

  const DAILY := Naming(PartitionName, PartitionDay)

  lemma DailyAgrees()
    ensures Agrees(DAILY) && DAILY.dayOf(DEFAULT_PARTITION) == None
  {
    DefaultHasNoDay();
    forall d ensures DAILY.dayOf(DAILY.nameOf(d)) in {None, Some(d)} {
      NamesRoundTrip(d);
    }
  }

  /** Creating or dropping, and whether it was reported to have worked. */
  datatype Call = Create(name: string, ok: bool) | Drop(name: string, ok: bool)

  /** The partitions attached to the events table, with what was asked of them. */
  class Maintainer {
    const naming: Naming
    var names: set<string>
    ghost var calls: seq<Call>

    /** How many calls have been answered with an error. */
    ghost var faults: nat

    constructor (naming: Naming, names: set<string>)
      ensures this.naming == naming && this.names == names && calls == []
    {
      this.naming, this.names, calls := naming, names, [];
      faults := 0;
    }

    /** Every name once, in some order, unless the query fails. */
    method ListPartitions() returns (r: Option<seq<string>>)
      modifies this`faults
      ensures r.Some? ==> forall n :: n in r.value <==> n in names
      ensures faults == old(faults) + if r.None? then 1 else 0
    {
      if * {
        faults := faults + 1;
        return None;
      }
      var left, listed := names, [];
      while left != {}
        invariant left <= names && forall n :: n in listed <==> n in names - left
        decreases |left|
      {
        var n :| n in left;
        left, listed := left - {n}, listed + [n];
      }
      r := Some(listed);
    }

    /** The rows in the default partition, unless counting them fails. */
    method CountDefault() returns (ok: bool)
      modifies this`faults
      ensures faults == old(faults) + if ok then 0 else 1
    {
      ok := *;
      if !ok { faults := faults + 1; }
    }

    /** A failure may be reported although the statement took effect. */
    method CreatePartition(day: int) returns (ok: bool)
      modifies this
      ensures calls == old(calls) + [Create(naming.nameOf(day), ok)] && faults == old(faults) + if ok then 0 else 1
      ensures names == old(names) + {naming.nameOf(day)} || (!ok && names == old(names))
    {
      ok := *;
      var applied: bool := *;
      if ok || applied { names := names + {naming.nameOf(day)}; }
      calls := calls + [Create(naming.nameOf(day), ok)];
      if !ok { faults := faults + 1; }
    }

    /** Anything that is not a dated daily partition is refused. */
    method DropPartition(name: string) returns (ok: bool)
      modifies this
      ensures calls == old(calls) + [Drop(name, ok)] && faults == old(faults) + if ok then 0 else 1
      ensures names == old(names) - {name} || (!ok && names == old(names))
      ensures naming.dayOf(name) == None ==> !ok && names == old(names)
    {
      ok := false;
      if naming.dayOf(name).Some? {
        ok := *;
        var applied: bool := *;
        if ok || applied { names := names - {name}; }
      }
      calls := calls + [Drop(name, ok)];
      if !ok { faults := faults + 1; }
    }
  }

  /** Days whose partition must exist, `today` being a day and `lookahead` a duration. */
  predicate IsAhead(day: int, today: int, lookahead: int) { today <= day && day * DAY <= today * DAY + lookahead }

  /** Even the newest instant the day could hold is older than the retention horizon. */
  predicate Expired(day: int, today: int, retention: int) { (day + 1) * DAY < today * DAY - retention }

  /** A day is expired exactly when every instant it holds, its last nanosecond included, is
      older than the retention from the start of today. */
  lemma ExpiredExactlyWhen(day: int, today: int, retention: int)
    ensures Expired(day, today, retention) <==>
      forall t :: t / DAY == day ==> t + 1 < today * DAY - retention
  {
    var last := (day + 1) * DAY - 1;
    DayHolds(last, day);
    forall t | t / DAY == day ensures t <= last { DayHolds(t, day); }
  }

  predicate NameExpired(naming: Naming, name: string, today: int, retention: int) {
    naming.dayOf(name).Some? && Expired(naming.dayOf(name).value, today, retention)
  }

  /** Names of the days from `today` up to, not including, `end`. */
  function NamesUpto(naming: Naming, today: int, end: int): set<string> { set d | today <= d < end :: naming.nameOf(d) }

  lemma OneMoreName(naming: Naming, today: int, day: int, end: int)
    requires today <= day < end
    ensures NamesUpto(naming, today, day + 1) == NamesUpto(naming, today, day) + {naming.nameOf(day)}
    ensures NamesUpto(naming, today, day + 1) <= NamesUpto(naming, today, end)
  {}

  /** The first day past the lookahead. */
  function EndOfAhead(today: int, lookahead: int): int { today + lookahead / DAY + 1 }

  lemma AheadEnds(day: int, today: int, lookahead: int)
    ensures IsAhead(day, today, lookahead) <==> today <= day < EndOfAhead(today, lookahead)
  {}

  function ExpiredNames(naming: Naming, names: set<string>, today: int, retention: int): set<string> {
    set n | n in names && NameExpired(naming, n, today, retention)
  }

  /** What an error-free cycle leaves attached. */
  function Maintained(naming: Naming, names: set<string>, today: int, lookahead: int, retention: int): set<string> {
    names + NamesUpto(naming, today, EndOfAhead(today, lookahead)) - ExpiredNames(naming, names, today, retention)
  }

  datatype Outcome = Done(created: seq<string>, dropped: seq<string>) | Failed(created: seq<string>, dropped: seq<string>)

  /** The names reported are the ones that were missing and the ones that were expired. */
  ghost predicate Reports(naming: Naming, outcome: Outcome, had: set<string>, today: int, lookahead: int, retention: int) {
    && (forall n :: n in outcome.created <==> n in NamesUpto(naming, today, EndOfAhead(today, lookahead)) && n !in had)
    && (forall n :: n in outcome.dropped <==> n in ExpiredNames(naming, had, today, retention))
  }

  /** Only creates were asked for, and all of them worked if `ok`. */
  ghost predicate OnlyCreates(before: seq<Call>, after: seq<Call>, ok: bool) {
    before <= after && forall i :: |before| <= i < |after| ==> after[i].Create? && (ok ==> after[i].ok)
  }

  /** Every drop comes after all creates, each of which worked. */
  ghost predicate CreatesFirst(before: seq<Call>, after: seq<Call>) {
    && before <= after
    && forall i, j :: |before| <= i < |after| && |before| <= j < |after| && after[i].Create? && after[j].Drop? ==> i < j && after[i].ok
  }

  class Janitor {
    const naming: Naming
    const partitions: Maintainer
    const lookahead: int
    const retention: int

    constructor (partitions: Maintainer, lookahead: int, retention: int)
      ensures this.partitions == partitions && naming == partitions.naming
      ensures this.lookahead == (if lookahead <= 0 then 7 * DAY else lookahead)
      ensures this.retention == (if retention <= 0 then 30 * DAY else retention)
    {
      this.naming, this.partitions := partitions.naming, partitions;
      this.lookahead := if lookahead <= 0 then 7 * DAY else lookahead;
      this.retention := if retention <= 0 then 30 * DAY else retention;
    }

    /** Creates the days ahead that are not listed. */
    method Ensure(existing: seq<string>, today: int) returns (created: seq<string>, ok: bool)
      requires lookahead > 0 && naming == partitions.naming
      requires forall n :: n in existing <==> n in partitions.names
      modifies partitions
      ensures OnlyCreates(old(partitions.calls), partitions.calls, ok)
      ensures ok <==> partitions.faults == old(partitions.faults)
      ensures old(partitions.names) <= partitions.names
      ensures partitions.names <= old(partitions.names) + NamesUpto(naming, today, EndOfAhead(today, lookahead))
      ensures ok ==> partitions.names == old(partitions.names) + NamesUpto(naming, today, EndOfAhead(today, lookahead))
      ensures forall n :: n in created ==> n in partitions.names && n !in old(partitions.names)
      ensures ok ==> forall n :: n in partitions.names && n !in old(partitions.names) ==> n in created
      ensures NamesUpto(naming, today, EndOfAhead(today, lookahead)) <= old(partitions.names) ==>
        ok && created == [] && partitions.calls == old(partitions.calls)
    {
      ghost var before, had := partitions.calls, partitions.names;
      ghost var end := EndOfAhead(today, lookahead);
      var present := set n | n in existing;
      created := [];
      var day := today;
      while day * DAY <= today * DAY + lookahead
        invariant today <= day <= end
        invariant OnlyCreates(before, partitions.calls, true) && partitions.faults == old(partitions.faults)
        invariant partitions.names == had + NamesUpto(naming, today, day)
        invariant forall n :: n in created <==> n in partitions.names && n !in had
        invariant NamesUpto(naming, today, end) <= had ==> created == [] && partitions.calls == before
        decreases end - day
      {
        var name := naming.nameOf(day);
        OneMoreName(naming, today, day, end);
        if name !in present {
          var made := partitions.CreatePartition(day);
          if !made { return created, false; }
          created := created + [name];
        }
        day := day + 1;
      }
      assert day == end;
      ok := true;
    }

    /** Drops the listed names that are dated and expired. */
    method Expire(existing: seq<string>, today: int) returns (dropped: seq<string>, ok: bool)
      requires naming == partitions.naming
      modifies partitions
      ensures ok <==> partitions.faults == old(partitions.faults)
      ensures old(partitions.calls) <= partitions.calls
      ensures forall i :: |old(partitions.calls)| <= i < |partitions.calls| ==>
        partitions.calls[i].Drop? && NameExpired(naming, partitions.calls[i].name, today, retention)
      ensures partitions.names <= old(partitions.names)
      ensures forall n :: n in old(partitions.names) && !NameExpired(naming, n, today, retention) ==> n in partitions.names
      ensures ok ==> partitions.names == old(partitions.names) - set n | n in existing && NameExpired(naming, n, today, retention)
      ensures forall n :: n in dropped ==> n in existing && NameExpired(naming, n, today, retention)
      ensures ok ==> forall n :: n in existing && NameExpired(naming, n, today, retention) ==> n in dropped
      ensures (forall n :: n in existing ==> !NameExpired(naming, n, today, retention)) ==> partitions.calls == old(partitions.calls)
    {
      ghost var before, had := partitions.calls, partitions.names;
      dropped := [];
      for i := 0 to |existing|
        invariant before <= partitions.calls && partitions.faults == old(partitions.faults)
        invariant forall k :: |before| <= k < |partitions.calls| ==>
          partitions.calls[k].Drop? && NameExpired(naming, partitions.calls[k].name, today, retention)
        invariant partitions.names == had - set n | n in existing[..i] && NameExpired(naming, n, today, retention)
        invariant forall n :: n in dropped <==> n in existing[..i] && NameExpired(naming, n, today, retention)
        invariant (forall n :: n in existing ==> !NameExpired(naming, n, today, retention)) ==> partitions.calls == before
      {
        var name := existing[i];
        assert existing[..i + 1] == existing[..i] + [name] && name in existing;
        var day := naming.dayOf(name);
        if day == None || !Expired(day.value, today, retention) { continue; }
        var gone := partitions.DropPartition(name);
        if !gone { return dropped, false; }
        dropped := dropped + [name];
      }
      assert existing[..|existing|] == existing;
      ok := true;
    }

    /** Ensure, then expire. Creation comes first, and no drop follows a failed create. */
    method RunOnce(now: int) returns (outcome: Outcome)
      requires naming == partitions.naming && Agrees(naming) && lookahead > 0 && retention > 0
      modifies partitions
      ensures outcome.Done? <==> partitions.faults == old(partitions.faults)
      ensures CreatesFirst(old(partitions.calls), partitions.calls)
      ensures forall n :: n in old(partitions.names) && !NameExpired(naming, n, now / DAY, retention) ==> n in partitions.names
      ensures forall n :: n in outcome.dropped ==> n in old(partitions.names) && NameExpired(naming, n, now / DAY, retention)
      ensures outcome.Done? ==> partitions.names == Maintained(naming, old(partitions.names), now / DAY, lookahead, retention)
      ensures outcome.Done? ==> forall d :: IsAhead(d, now / DAY, lookahead) ==> naming.nameOf(d) in partitions.names
      ensures outcome.Done? ==> Reports(naming, outcome, old(partitions.names), now / DAY, lookahead, retention)
      ensures outcome.Done? ==> Steady(naming, partitions.names, now / DAY, lookahead, retention)
      ensures Steady(naming, old(partitions.names), now / DAY, lookahead, retention) ==> partitions.calls == old(partitions.calls)
    {
      ghost var had := partitions.names;
      var listed := partitions.ListPartitions();
      if listed == None { return Failed([], []); }
      var existing := listed.value;
      var today := now / DAY;
      var created, ok := Ensure(existing, today);
      if !ok { return Failed(created, []); }
      AheadNotExpired(naming, today, lookahead, retention);
      var dropped;
      dropped, ok := Expire(existing, today);
      assert (set n | n in existing && NameExpired(naming, n, today, retention)) == ExpiredNames(naming, had, today, retention);
      if !ok { return Failed(created, dropped); }
      var counted := partitions.CountDefault();
      if !counted { return Failed(created, dropped); }
      outcome := Done(created, dropped);
      forall d | IsAhead(d, today, lookahead) ensures naming.nameOf(d) in partitions.names {
        AheadEnds(d, today, lookahead);
        assert naming.nameOf(d) in NamesUpto(naming, today, EndOfAhead(today, lookahead));
      }
    }
  }

  /** Nothing is left for a cycle to do. */
  predicate Steady(naming: Naming, names: set<string>, today: int, lookahead: int, retention: int) {
    && NamesUpto(naming, today, EndOfAhead(today, lookahead)) <= names
    && forall n :: n in names ==> !NameExpired(naming, n, today, retention)
  }

  lemma AheadNotExpired(naming: Naming, today: int, lookahead: int, retention: int)
    requires Agrees(naming) && lookahead > 0 && retention > 0
    ensures forall n :: n in NamesUpto(naming, today, EndOfAhead(today, lookahead)) ==> !NameExpired(naming, n, today, retention)
  {
    forall n | n in NamesUpto(naming, today, EndOfAhead(today, lookahead)) ensures !NameExpired(naming, n, today, retention) {
      var d :| today <= d < EndOfAhead(today, lookahead) && n == naming.nameOf(d);
      assert naming.dayOf(naming.nameOf(d)) in {None, Some(d)};
    }
  }

  // ---- What dropping a day loses --------------------------------------------

  /** Dropping an expired day loses rows older than the retention horizon, and no others. */
  lemma DroppedRowsWereOld(rows: P.Rows, day: int, now: int, retention: int, k: P.Key)
    requires Expired(day, now / DAY, retention)
    ensures k in rows && k !in P.Flat(rows, P.Drop(day)) ==> k.0 < now / DAY * DAY - retention
    ensures k in P.Flat(rows, P.Drop(day)) <==> k in rows && !P.InBounds(k, day)
  {
    P.BoundsAreTheDay(k, day);
  }

  /** An instant the API's bounds let through now. */
  predicate Acceptable(api: E.TimeBounds, t: int, now: int) { t != ZERO_TIME && api.Check(Some(t), now) == [] }

  /** Some event the API would accept now belongs to a day the janitor would drop now
      exactly when the API bounds no age or the oldest acceptable instant does. */
  lemma AcceptableYetDropped(api: E.TimeBounds, now: int, retention: int)
    requires retention > 0
    ensures (exists t :: Acceptable(api, t, now) && Expired(t / DAY, now / DAY, retention)) <==>
            api.maxAge <= 0 || Expired((now - api.maxAge) / DAY, now / DAY, retention)
    ensures 0 < api.maxAge <= retention ==> !Expired((now - api.maxAge) / DAY, now / DAY, retention)
  {
    if api.maxAge <= 0 {
      var ancient := now / DAY * DAY - retention - 2 * DAY;
      var dated := if ancient == ZERO_TIME then ancient + 1 else ancient;
      assert Acceptable(api, dated, now) && Expired(dated / DAY, now / DAY, retention);
    } else {
      var oldest := now - api.maxAge;
      if Expired(oldest / DAY, now / DAY, retention) {
        var dated := if oldest == ZERO_TIME then oldest + 1 else oldest;
        assert Acceptable(api, dated, now) && dated / DAY == oldest / DAY;
      }
      forall t | Acceptable(api, t, now) && Expired(t / DAY, now / DAY, retention)
        ensures Expired(oldest / DAY, now / DAY, retention)
      {
        assert t >= oldest && t / DAY >= oldest / DAY;
      }
    }
  }
}
