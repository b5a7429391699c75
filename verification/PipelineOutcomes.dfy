/** Which records a run of the ingest pipeline ends up storing. */
module PipelineOutcomes {
  import opened Wrappers
  import opened Events
  import opened EventBounds
  import opened Pipeline
  import opened PipelineSafety

  /** When a place of some log was written, if a run from `s` wrote it. */
  ghost function Born(cfg: Config, s: Sys, steps: seq<Step>, at: Place): Option<int>
    requires IsRun(cfg, s, steps)
    decreases |steps|
  {
    if steps == [] then None
    else if steps[0].Append? && at == (steps[0].partition, |Log(s, steps[0].partition)|) then Some(s.clock)
    else Born(cfg, Next(cfg, s, steps[0]), steps[1..], at)
  }

  /** A record judged invalid at some point was so at every point before. */
  lemma {:induction false} RejectedWasInvalid(cfg: Config, s: Sys, steps: seq<Step>, at: Place, t: int)
    requires Sensible(cfg) && IsRun(cfg, s, steps)
    requires at.1 < |Log(s, at.0)| && at !in s.rejected && t <= s.clock
    ensures var e := Exec(cfg, s, steps);
      && at.1 < |Log(e, at.0)| && At(e, at) == At(s, at)
      && (at in e.rejected ==> cfg.invalid(At(s, at), t))
    decreases |steps|
  {
    if steps == [] {
    } else {
      var next := Next(cfg, s, steps[0]);
      NextGrows(cfg, s, steps[0]);
      assert Log(s, at.0) <= Log(next, at.0);
      if at in next.rejected {
        Kept(cfg, next, steps[1..], at);
      } else {
        RejectedWasInvalid(cfg, next, steps[1..], at, t);
      }
    }
  }

  lemma {:induction false} Kept(cfg: Config, s: Sys, steps: seq<Step>, at: Place)
    requires IsRun(cfg, s, steps) && at.1 < |Log(s, at.0)|
    ensures at.1 < |Log(Exec(cfg, s, steps), at.0)| && At(Exec(cfg, s, steps), at) == At(s, at)
    decreases |steps|
  {
    if steps == [] {
    } else {
      NextGrows(cfg, s, steps[0]);
      assert Log(s, at.0) <= Log(Next(cfg, s, steps[0]), at.0);
      Kept(cfg, Next(cfg, s, steps[0]), steps[1..], at);
    }
  }

  /** Every place a run writes has its moment, and what is ever rejected there was invalid
      at that very moment. */
  lemma {:induction false} RejectedWasInvalidWhenBorn(cfg: Config, s: Sys, steps: seq<Step>, at: Place)
    requires Sensible(cfg) && IsRun(cfg, s, steps) && JudgementsSound(cfg, s)
    requires |Log(s, at.0)| <= at.1 < |Log(Exec(cfg, s, steps), at.0)|
    ensures var e, born := Exec(cfg, s, steps), Born(cfg, s, steps, at);
      && born.Some? && s.clock <= born.value <= e.clock
      && (at in e.rejected ==> cfg.invalid(At(e, at), born.value))
    decreases |steps|
  {
    var next := Next(cfg, s, steps[0]);
    NextGrows(cfg, s, steps[0]);
    ClockRises(cfg, next, steps[1..]);
    if steps[0].Append? && at == (steps[0].partition, |Log(s, steps[0].partition)|) {
      assert at !in s.rejected;
      RejectedWasInvalid(cfg, next, steps[1..], at, s.clock);
    } else {
      assert |Log(next, at.0)| <= at.1 by { WrittenOnlyByAppend(cfg, s, steps[0], at); }
      JudgementsStaySoundNow(cfg, s, steps[0]);
      RejectedWasInvalidWhenBorn(cfg, next, steps[1..], at);
    }
  }

  lemma WrittenOnlyByAppend(cfg: Config, s: Sys, step: Step, at: Place)
    requires Enabled(cfg, s, step) && |Log(s, at.0)| <= at.1
    requires !(step.Append? && at == (step.partition, |Log(s, step.partition)|))
    ensures |Log(Next(cfg, s, step), at.0)| <= at.1
  {}

  lemma {:induction false} ClockRises(cfg: Config, s: Sys, steps: seq<Step>)
    requires IsRun(cfg, s, steps)
    ensures s.clock <= Exec(cfg, s, steps).clock
    decreases |steps|
  {
    if steps == [] {
    } else {
      NextGrows(cfg, s, steps[0]);
      ClockRises(cfg, Next(cfg, s, steps[0]), steps[1..]);
    }
  }

  /** Judgements are about records in the logs, whatever the step. */
  lemma JudgementsStaySoundNow(cfg: Config, s: Sys, step: Step)
    requires Sensible(cfg) && JudgementsSound(cfg, s) && Enabled(cfg, s, step)
    ensures JudgementsSound(cfg, Next(cfg, s, step))
  {
    var b := Next(cfg, s, step);
    NextGrows(cfg, s, step);
    forall at | at in b.accepted ensures at.1 < |Log(b, at.0)| && !cfg.invalid(At(b, at), b.clock) {
      assert Log(s, at.0) <= Log(b, at.0);
    }
    forall at | at in b.rejected ensures at.1 < |Log(b, at.0)| {
      assert Log(s, at.0) <= Log(b, at.0);
    }
  }

  // ---- Record by record --------------------------------------------------

  /** A committed record was judged valid, and its key is not stored. */
  predicate Lost(cfg: Config, s: Sys, at: Place) {
    && at in s.accepted && at.1 < Committed(s, at.0) && at.1 < |Log(s, at.0)|
    && Storable(cfg, s, At(s, at))
  }

  /** A record has a row, whose key is not stored yet. */
  predicate Storable(cfg: Config, s: Sys, r: Record) { cfg.store(r).Some? && cfg.store(r).value.0 !in s.rows }

  /** In any run, with any other traffic, a record that is lost was invalid as it was
      produced and valid later. So every record that was ever judged valid and was valid
      as it was produced has its key stored once its offset is committed. */
  lemma LostWasUntimely(cfg: Config, now: int, steps: seq<Step>, at: Place)
    requires Sensible(cfg) && IsRun(cfg, Start(now), steps) && Lost(cfg, Exec(cfg, Start(now), steps), at)
    ensures var s, born := Exec(cfg, Start(now), steps), Born(cfg, Start(now), steps, at);
      && born.Some? && now <= born.value <= s.clock
      && cfg.invalid(At(s, at), born.value) && !cfg.invalid(At(s, at), s.clock)
  {
    StartSound(cfg, now);
    RunKeepsInv(cfg, Start(now), steps);
    var s := Exec(cfg, Start(now), steps);
    assert Settled(cfg, s, (at.0, at.1)) && at == (at.0, at.1);
    RejectedWasInvalidWhenBorn(cfg, Start(now), steps, at);
  }

  predicate FullyCommitted(s: Sys) {
    forall p :: p in s.logs ==> Committed(s, p) == |s.logs[p]|
  }

  /** The keys of the records judged valid at some processing. */
  ghost predicate StoredExactlyAccepted(cfg: Config, s: Sys) {
    forall k :: k in s.rows <==> exists at :: at in s.accepted && HasKey(cfg, s, at, k)
  }

  predicate HasKey(cfg: Config, s: Sys, at: Place, k: Key) {
    at.1 < |Log(s, at.0)| && cfg.store(At(s, at)).Some? && cfg.store(At(s, at)).value.0 == k
  }

  /** A record no moment makes valid. */
  ghost predicate Hopeless(cfg: Config, r: Record) { forall t :: cfg.invalid(r, t) }

  /** The record written at a place was hopeless or already valid as it was written. */
  ghost predicate Timely(cfg: Config, now: int, steps: seq<Step>, at: Place)
    requires IsRun(cfg, Start(now), steps) && at.1 < |Log(Exec(cfg, Start(now), steps), at.0)|
  {
    var r, born := At(Exec(cfg, Start(now), steps), at), Born(cfg, Start(now), steps, at);
    Hopeless(cfg, r) || (born.Some? && !cfg.invalid(r, born.value))
  }

  /** In any fully committed run the stored keys are exactly those of the records judged
      valid, save for the lost ones. */
  lemma StoredExactlyUnlessLost(cfg: Config, now: int, steps: seq<Step>)
    requires Sensible(cfg) && IsRun(cfg, Start(now), steps) && FullyCommitted(Exec(cfg, Start(now), steps))
    ensures var s := Exec(cfg, Start(now), steps);
      && StoredExactlyAccepted(cfg, s) <==> forall at :: !Lost(cfg, s, at)
    ensures var s := Exec(cfg, Start(now), steps);
      forall k :: k in s.rows ==> exists at :: at in s.accepted && HasKey(cfg, s, at, k)
  {
    StartSound(cfg, now);
    RunKeepsInv(cfg, Start(now), steps);
    var s := Exec(cfg, Start(now), steps);
    forall k | k in s.rows ensures exists at :: at in s.accepted && HasKey(cfg, s, at, k) {
      var at :| at in s.accepted && Source(cfg, s, at, k);
      assert HasKey(cfg, s, at, k);
    }
    if at :| Lost(cfg, s, at) {
      assert HasKey(cfg, s, at, cfg.store(At(s, at)).value.0);
    } else {
      forall at, k | at in s.accepted && HasKey(cfg, s, at, k) ensures k in s.rows {
        assert at.1 < Committed(s, at.0) && !Lost(cfg, s, at);
      }
    }
  }

  /** So they are exactly those when every record ever judged valid was timely; records
      never judged valid do not matter. */
  lemma TimelyRunsStoreExactlyAccepted(cfg: Config, now: int, steps: seq<Step>)
    requires Sensible(cfg) && IsRun(cfg, Start(now), steps) && FullyCommitted(Exec(cfg, Start(now), steps))
    requires forall at :: at in Exec(cfg, Start(now), steps).accepted && at.1 < |Log(Exec(cfg, Start(now), steps), at.0)|
                          ==> Timely(cfg, now, steps, at)
    ensures StoredExactlyAccepted(cfg, Exec(cfg, Start(now), steps))
  {
    StoredExactlyUnlessLost(cfg, now, steps);
    forall at ensures !Lost(cfg, Exec(cfg, Start(now), steps), at) {
      if Lost(cfg, Exec(cfg, Start(now), steps), at) {
        LostWasUntimely(cfg, now, steps, at);
      }
    }
  }

  // ---- The engine's own configuration -------------------------------------

  predicate Malformed(r: Record, isUUID: string -> bool) {
    r.None? || Validate(Normalized(r.value), isUUID) != []
  }

  predicate TooFarAhead(r: Record, bounds: TimeBounds, now: int) {
    r.Some? && !Undated(r.value.timestamp) && bounds.maxFuture > 0 && r.value.timestamp.value - now > bounds.maxFuture
  }

  function EngineConfig(bounds: TimeBounds, isUUID: string -> bool): Config {
    Config(
      (r: Record, now: int) => JudgedInvalid(r, bounds, isUUID, now),
      (r: Record) =>
        if r.Some? && r.value.timestamp.Some?
        then Some(((r.value.timestamp.value, Normalized(r.value).eventId), Normalized(r.value))) else None)
  }

  lemma EngineJudges(bounds: TimeBounds, isUUID: string -> bool, r: Record, now: int)
    ensures JudgedInvalid(r, bounds, isUUID, now) <==> Malformed(r, isUUID) || TooFarAhead(r, bounds, now)
    ensures !Malformed(r, isUUID) ==> r.Some? && !Undated(r.value.timestamp)
  {
    if r.Some? {
      var n := Normalized(r.value);
      assert n.timestamp == r.value.timestamp;
      assert Undated(n.timestamp) ==> FieldError("timestamp", Required) in Validate(n, isUUID);
    }
  }

  /** The engine's judgement only ever turns from invalid to valid, and only for a
      record that ran ahead of its bound. So the runs above are the engine's runs, and
      the records that can be judged both ways are exactly the well-formed ones dated
      further ahead than the bound when they were appended. */
  lemma EngineIsSensible(bounds: TimeBounds, isUUID: string -> bool)
    ensures Sensible(EngineConfig(bounds, isUUID))
    ensures forall r, t :: !(Hopeless(EngineConfig(bounds, isUUID), r) || !EngineConfig(bounds, isUUID).invalid(r, t))
                           <==> !Malformed(r, isUUID) && TooFarAhead(r, bounds, t)
  {
    var cfg := EngineConfig(bounds, isUUID);
    forall r: Record, t, t' | t <= t' && !cfg.invalid(r, t) ensures !cfg.invalid(r, t') && cfg.store(r).Some? {
      EngineJudges(bounds, isUUID, r, t);
      EngineJudges(bounds, isUUID, r, t');
    }
    forall r: Record, t
      ensures !(Hopeless(cfg, r) || !cfg.invalid(r, t)) <==> !Malformed(r, isUUID) && TooFarAhead(r, bounds, t)
    {
      EngineJudges(bounds, isUUID, r, t);
      if Malformed(r, isUUID) {
        forall now ensures cfg.invalid(r, now) { EngineJudges(bounds, isUUID, r, now); }
      } else {
        EngineJudges(bounds, isUUID, r, r.value.timestamp.value);
        assert !cfg.invalid(r, r.value.timestamp.value);
      }
    }
  }

  // ---- What the engine stores ----------------------------------------------

  /** The texts are one id but for case and surrounding space. */
  ghost predicate SameId(a: string, b: string) {
    exists s, t :: CoreOf(a, s) && CoreOf(b, t) && SameLetters(s, t)
  }

  /** Two dated records share a primary key exactly when their instants agree and their ids
      agree up to case and surrounding space. So neither hides the other otherwise. */
  lemma SameKeyExactlyWhen(bounds: TimeBounds, isUUID: string -> bool, a: Event, b: Event)
    requires a.timestamp.Some? && b.timestamp.Some?
    ensures var cfg := EngineConfig(bounds, isUUID);
      && cfg.store(Some(a)).Some? && cfg.store(Some(b)).Some?
      && (cfg.store(Some(a)).value.0 == cfg.store(Some(b)).value.0 <==>
          a.timestamp == b.timestamp && SameId(a.eventId, b.eventId))
  {
    SameIdExactlyWhen(a.eventId, b.eventId);
  }

  /** What is stored for a record: its normal form, keyed by its instant and its id. */
  lemma EngineStores(bounds: TimeBounds, isUUID: string -> bool, r: Record)
    ensures var stored := EngineConfig(bounds, isUUID).store(r);
      && (stored.Some? <==> r.Some? && r.value.timestamp.Some?)
      && (stored.Some? ==> var (key, row) := stored.value;
            NormalFormOf(r.value, row) && row.timestamp == Some(key.0) && row.eventId == key.1)
  {
    if r.Some? { NormalizedMeans(r.value); }
  }

  /** A row is the normal form of a record judged valid, keyed by its own instant and id. */
  ghost predicate OwnRow(s: Sys, k: Key, at: Place)
    requires k in s.rows
  {
    && at in s.accepted && at.1 < |Log(s, at.0)| && At(s, at).Some?
    && NormalFormOf(At(s, at).value, s.rows[k])
    && s.rows[k].timestamp == Some(k.0) && s.rows[k].eventId == k.1
  }

  /** In every run of the engine every row is keyed by its own timestamp and its own id, and
      is some logged and valid record's normal form, field by field. */
  lemma EngineRowsAreTheirRecords(bounds: TimeBounds, isUUID: string -> bool, now: int, steps: seq<Step>, k: Key)
    requires IsRun(EngineConfig(bounds, isUUID), Start(now), steps)
    requires k in Exec(EngineConfig(bounds, isUUID), Start(now), steps).rows
    ensures exists at :: OwnRow(Exec(EngineConfig(bounds, isUUID), Start(now), steps), k, at)
  {
    var cfg := EngineConfig(bounds, isUUID);
    EngineIsSensible(bounds, isUUID);
    StartSound(cfg, now);
    RunKeepsInv(cfg, Start(now), steps);
    var s := Exec(cfg, Start(now), steps);
    var at :| at in s.accepted && Source(cfg, s, at, k);
    EngineStores(bounds, isUUID, At(s, at));
    assert OwnRow(s, k, at);
  }

  /** An event the API accepted, once published and read back, is stored under its instant and
      its id as the very event the API prepared. */
  lemma AcceptedIsStoredAsPrepared(api: TimeBounds, bounds: TimeBounds, e: Event, spanTrace: Option<string>,
                                   isUUID: string -> bool, t: int)
    requires spanTrace.Some? ==> TraceText(spanTrace.value)
    requires Accepts(api, e, spanTrace, isUUID, t) && Writable(e.timestamp)
    ensures var p := Prepared(e, spanTrace);
      && e.timestamp.Some?
      && EngineConfig(bounds, isUUID).store(Decoded(p)) == Some(((e.timestamp.value, p.eventId), p))
      && NormalFormOf(e, p.(traceId := Normalized(e).traceId))
      && (if Blank(e.traceId) && spanTrace.Some? then p.traceId == spanTrace.value else CoreOf(e.traceId, p.traceId))
  {
    AcceptedThenInvalid(api, bounds, e, spanTrace, isUUID, t, t);
    PreparedSurvives(e, spanTrace);
    NormalizedMeans(e);
    BlankTrimsAway(e.traceId);
  }

  /** A row of this instant whose id is the record's but for case and surrounding space. */
  ghost predicate HasRowFor(s: Sys, e: Event) {
    exists k :: k in s.rows && Some(k.0) == e.timestamp && s.rows[k].timestamp == e.timestamp
                && s.rows[k].eventId == k.1 && LowerCoreOf(e.eventId, s.rows[k].eventId)
  }

  /** Once every log is committed in a timely run, every record ever judged valid has a row
      with its instant and its id. */
  lemma TimelyEngineRunsHoldEveryRecord(bounds: TimeBounds, isUUID: string -> bool, now: int, steps: seq<Step>, at: Place)
    requires IsRun(EngineConfig(bounds, isUUID), Start(now), steps)
    requires var cfg := EngineConfig(bounds, isUUID); var s := Exec(cfg, Start(now), steps);
      && FullyCommitted(s) && at in s.accepted
      && forall x :: x in s.accepted && x.1 < |Log(s, x.0)| ==> Timely(cfg, now, steps, x)
    ensures var s := Exec(EngineConfig(bounds, isUUID), Start(now), steps);
      at.1 < |Log(s, at.0)| && At(s, at).Some? && HasRowFor(s, At(s, at).value)
  {
    var cfg := EngineConfig(bounds, isUUID);
    EngineIsSensible(bounds, isUUID);
    StartSound(cfg, now);
    RunKeepsInv(cfg, Start(now), steps);
    TimelyRunsStoreExactlyAccepted(cfg, now, steps);
    var s := Exec(cfg, Start(now), steps);
    assert !cfg.invalid(At(s, at), s.clock);
    EngineStores(bounds, isUUID, At(s, at));
    var k := cfg.store(At(s, at)).value.0;
    assert HasKey(cfg, s, at, k);
    EngineRowsAreTheirRecords(bounds, isUUID, now, steps, k);
  }
}
