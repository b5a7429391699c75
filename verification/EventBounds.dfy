/** The contract at its two trust boundaries: what the ingestion API accepts, what travels
    over the topic, and what the engine makes of it later. */
module EventBounds {
  import opened Times
  import opened Wrappers
  import opened Events

  /** The ingestion API's view of a submitted event: normalized, with the request's
      trace id when the event brought none. */
  function Prepared(e: Event, spanTrace: Option<string>): Event {
    var n := Normalized(e);
    if n.traceId == "" && spanTrace.Some? then n.(traceId := spanTrace.value) else n
  }

  predicate Accepts(api: TimeBounds, e: Event, spanTrace: Option<string>, isUUID: string -> bool, now: int) {
    ValidateWithin(Prepared(e, spanTrace), isUUID, api, now) == []
  }

  predicate Writable(timestamp: Option<int>) { timestamp.Some? ==> InFourDigitYears(timestamp.value) }

  /** What a consumer decodes from a published event. Empty attributes are omitted on
      the wire; a timestamp outside four-digit years does not parse back. */
  function Decoded(e: Event): Option<Event> {
    if !Writable(e.timestamp) then None
    else Some(e.(attributes := if e.attributes == Some(map[]) then None else e.attributes))
  }

  /** The engine keeps only the future half of its configured bounds. */
  function EngineBounds(configured: TimeBounds): TimeBounds { TimeBounds(configured.maxFuture, 0) }

  /** Whether the engine discards a consumed record as invalid. */
  predicate JudgedInvalid(record: Option<Event>, configured: TimeBounds, isUUID: string -> bool, now: int) {
    record.None? || ValidateWithin(Normalized(record.value), isUUID, EngineBounds(configured), now) != []
  }

  /** A request's trace id as the tracing library prints it. */
  predicate TraceText(s: string) { Tight(s) && ByteLen(s) <= MAX_TRACE_ID_LEN }

  lemma PreparedSurvives(e: Event, spanTrace: Option<string>)
    requires spanTrace.Some? ==> TraceText(spanTrace.value)
    ensures var p := Prepared(e, spanTrace);
      Decoded(p).Some? ==> Normalized(Decoded(p).value) == p
  {
    NormalizeIdempotent(e);
    if spanTrace.Some? {
      TightUntouched(spanTrace.value);
    }
  }

  /** An event accepted at `t` is discarded at `t'` exactly when its timestamp cannot
      be written down, or the engine's future bound is on and still breached then. Its
      age never matters. */
  lemma AcceptedThenInvalid(api: TimeBounds, engine: TimeBounds, e: Event, spanTrace: Option<string>,
                            isUUID: string -> bool, t: int, t': int)
    requires spanTrace.Some? ==> TraceText(spanTrace.value)
    requires Accepts(api, e, spanTrace, isUUID, t)
    ensures !Undated(e.timestamp)
    ensures JudgedInvalid(Decoded(Prepared(e, spanTrace)), engine, isUUID, t') <==>
            !Writable(e.timestamp) || (engine.maxFuture > 0 && e.timestamp.value - t' > engine.maxFuture)
  {
    PreparedSurvives(e, spanTrace);
    var p := Prepared(e, spanTrace);
    assert Validate(p, isUUID) == [];
    assert p.timestamp == e.timestamp;
    assert Undated(p.timestamp) ==> FieldError("timestamp", Required) in Validate(p, isUUID);
  }

  /** While the clock runs from `lo` to `hi`, no event accepted (if `writable`, no event
      with a writable timestamp) is discarded then or later. */
  ghost predicate NothingAcceptedIsDiscarded(api: TimeBounds, engine: TimeBounds, isUUID: string -> bool,
                                             lo: int, hi: int, writable: bool) {
    forall e: Event, spanTrace: Option<string>, t, t' ::
      && (spanTrace.Some? ==> TraceText(spanTrace.value)) && (writable ==> Writable(e.timestamp))
      && lo <= t <= t' <= hi && Accepts(api, e, spanTrace, isUUID, t)
      ==> !JudgedInvalid(Decoded(Prepared(e, spanTrace)), engine, isUUID, t')
  }

  function Sample(id: string, timestamp: int): Event {
    Event(id, SCHEMA_VERSION_10, "t", "s", "e", "k", "info", Some(timestamp), "", Some(map[]))
  }

  lemma SampleAccepted(id: string, timestamp: int, api: TimeBounds, isUUID: string -> bool, now: int)
    requires isUUID(id) && Lower(id) == id && Tight(id) && id != "" && timestamp != ZERO_TIME
    requires api.Check(Some(timestamp), now) == []
    ensures Accepts(api, Sample(id, timestamp), None, isUUID, now)
  {
    TightUntouched(id);
    TightUntouched(SCHEMA_VERSION_10);
    TightUntouched("t");
    TightUntouched("s");
    TightUntouched("e");
    TightUntouched("k");
    TightUntouched("info");
    TightUntouched("");
    assert Lower("info") == "info";
    assert Normalized(Sample(id, timestamp)) == Sample(id, timestamp);
    assert ByteLen("t") == 1 && ByteLen("s") == 1 && ByteLen("k") == 1 && ByteLen("e") == 1;
  }

  /** An event the API lets through and the engine then discards at once. */
  lemma AcceptedThenDiscarded(api: TimeBounds, engine: TimeBounds, isUUID: string -> bool, id: string, timestamp: int, t: int)
    requires isUUID(id) && Lower(id) == id && Tight(id) && id != "" && timestamp != ZERO_TIME
    requires api.Check(Some(timestamp), t) == []
    requires !InFourDigitYears(timestamp) || (engine.maxFuture > 0 && timestamp - t > engine.maxFuture)
    ensures Accepts(api, Sample(id, timestamp), None, isUUID, t)
    ensures JudgedInvalid(Decoded(Prepared(Sample(id, timestamp), None)), engine, isUUID, t)
  {
    SampleAccepted(id, timestamp, api, isUUID, t);
    AcceptedThenInvalid(api, engine, Sample(id, timestamp), None, isUUID, t, t);
  }

  /** With the API's bounds off it accepts an event dated just past the last year four
      digits can write, as an offset west of Greenwich can date it, and the engine cannot
      read it back. */
  lemma AcceptedYetUnreadable(engine: TimeBounds, isUUID: string -> bool, id: string, t: int)
    requires isUUID(id) && Lower(id) == id && Tight(id) && id != ""
    ensures Accepts(TimeBounds(0, 0), Sample(id, LAST_INSTANT + 1), None, isUUID, t)
    ensures JudgedInvalid(Decoded(Prepared(Sample(id, LAST_INSTANT + 1), None)), engine, isUUID, t)
  {
    AcceptedThenDiscarded(TimeBounds(0, 0), engine, isUUID, id, LAST_INSTANT + 1, t);
  }

  /** What the API's bounds say of an accepted timestamp. */
  lemma AcceptedWithin(api: TimeBounds, e: Event, spanTrace: Option<string>, isUUID: string -> bool, t: int)
    requires Accepts(api, e, spanTrace, isUUID, t) && !Undated(e.timestamp)
    ensures api.maxFuture > 0 ==> e.timestamp.value - t <= api.maxFuture
    ensures api.maxAge > 0 ==> t - e.timestamp.value <= api.maxAge
  {
    assert Prepared(e, spanTrace).timestamp == e.timestamp;
    assert api.Check(e.timestamp, t) == [];
  }

  /** A condition under which nothing the API accepts is discarded. */
  predicate Keeps(api: TimeBounds, engine: TimeBounds, lo: int, hi: int, writable: bool) {
    && (engine.maxFuture <= 0 || 0 < api.maxFuture <= engine.maxFuture || (writable && engine.maxFuture >= LAST_INSTANT - lo))
    && (writable || (0 < api.maxFuture <= LAST_INSTANT - hi && 0 < api.maxAge <= lo - FIRST_INSTANT))
  }

  lemma KeepsInstant(api: TimeBounds, engine: TimeBounds, lo: int, hi: int, writable: bool, at: int, t: int, t': int)
    requires Keeps(api, engine, lo, hi, writable) && lo <= t <= t' <= hi && (writable ==> InFourDigitYears(at))
    requires (api.maxFuture > 0 ==> at - t <= api.maxFuture) && (api.maxAge > 0 ==> t - at <= api.maxAge)
    ensures InFourDigitYears(at) && !(engine.maxFuture > 0 && at - t' > engine.maxFuture)
  {}

  lemma NeverDiscarded(api: TimeBounds, engine: TimeBounds, isUUID: string -> bool, lo: int, hi: int, writable: bool)
    requires Keeps(api, engine, lo, hi, writable)
    ensures NothingAcceptedIsDiscarded(api, engine, isUUID, lo, hi, writable)
  {
    forall e: Event, spanTrace: Option<string>, t, t' |
      && (spanTrace.Some? ==> TraceText(spanTrace.value)) && (writable ==> Writable(e.timestamp))
      && lo <= t <= t' <= hi && Accepts(api, e, spanTrace, isUUID, t)
      ensures !JudgedInvalid(Decoded(Prepared(e, spanTrace)), engine, isUUID, t')
    {
      AcceptedThenInvalid(api, engine, e, spanTrace, isUUID, t, t');
      AcceptedWithin(api, e, spanTrace, isUUID, t);
      KeepsInstant(api, engine, lo, hi, writable, e.timestamp.value, t, t');
    }
  }

  /** Among events with writable timestamps the engine discards nothing the API accepted
      exactly when its future bound is disabled, or at least the API's own positive
      bound, or reaches past the last writable year. */
  lemma WritableKeptExactlyWhen(api: TimeBounds, engine: TimeBounds, isUUID: string -> bool, id: string, lo: int, hi: int)
    requires isUUID(id) && Lower(id) == id && Tight(id) && id != ""
    requires ZERO_TIME < lo <= hi <= LAST_INSTANT
    ensures NothingAcceptedIsDiscarded(api, engine, isUUID, lo, hi, true) <==>
            engine.maxFuture <= 0 || 0 < api.maxFuture <= engine.maxFuture || engine.maxFuture >= LAST_INSTANT - lo
  {
    if engine.maxFuture <= 0 || 0 < api.maxFuture <= engine.maxFuture || engine.maxFuture >= LAST_INSTANT - lo {
      NeverDiscarded(api, engine, isUUID, lo, hi, true);
    } else {
      AcceptedThenDiscarded(api, engine, isUUID, id, lo + engine.maxFuture + 1, lo);
    }
  }

  /** Among all events, exactly when in addition both of the API's bounds are on and keep
      what it accepts inside the writable years. */
  lemma NothingDiscardedExactlyWhen(api: TimeBounds, engine: TimeBounds, isUUID: string -> bool, id: string, lo: int, hi: int)
    requires isUUID(id) && Lower(id) == id && Tight(id) && id != ""
    requires ZERO_TIME < lo <= hi <= LAST_INSTANT
    ensures NothingAcceptedIsDiscarded(api, engine, isUUID, lo, hi, false) <==>
            && 0 < api.maxFuture <= LAST_INSTANT - hi && 0 < api.maxAge <= lo - FIRST_INSTANT
            && (engine.maxFuture <= 0 || api.maxFuture <= engine.maxFuture)
  {
    if !(0 < api.maxFuture <= LAST_INSTANT - hi) {
      AcceptedThenDiscarded(api, engine, isUUID, id, LAST_INSTANT + 1, hi);
    } else if !(0 < api.maxAge <= lo - FIRST_INSTANT) {
      AcceptedThenDiscarded(api, engine, isUUID, id, FIRST_INSTANT - 1, lo);
    } else if !(engine.maxFuture <= 0 || api.maxFuture <= engine.maxFuture) {
      AcceptedThenDiscarded(api, engine, isUUID, id, lo + engine.maxFuture + 1, lo);
    } else {
      NeverDiscarded(api, engine, isUUID, lo, hi, false);
    }
  }

  /** With both of the API's bounds on and a clock that keeps them inside four-digit
      years, every accepted timestamp is writable. */
  lemma BoundedTimestampsAreWritable(api: TimeBounds, e: Event, spanTrace: Option<string>, isUUID: string -> bool, t: int)
    requires api.maxFuture > 0 && api.maxAge > 0
    requires FIRST_INSTANT + api.maxAge <= t <= LAST_INSTANT - api.maxFuture
    requires Accepts(api, e, spanTrace, isUUID, t)
    ensures Writable(e.timestamp)
  {
    if !Undated(e.timestamp) { AcceptedWithin(api, e, spanTrace, isUUID, t); }
  }
}
