/** The telemetry event contract: normalization, structural validation, time bounds. */
module Events {
  import opened Times
  import opened Wrappers

  /** A missing timestamp and the zero time read alike; missing attributes are nil. */
  datatype Event = Event(
    eventId: string,
    schemaVersion: string,
    tenantId: string,
    serviceName: string,
    environment: string,
    eventType: string,
    severity: string,
    timestamp: Option<int>,
    traceId: string,
    attributes: Option<map<string, string>>)

  // ---- Text ---------------------------------------------------------------

  predicate IsSpace(c: char) {
    || '\t' <= c <= '\r' || c == ' ' || c == '\U{85}' || c == '\U{A0}' || c == '\U{1680}'
    || '\U{2000}' <= c <= '\U{200a}' || c == '\U{2028}' || c == '\U{2029}'
    || c == '\U{202f}' || c == '\U{205f}' || c == '\U{3000}'
  }

  /** The characters Unicode calls white space. */
  lemma SpacesAre(c: char)
    ensures IsSpace(c) <==>
      c in {'\U{9}', '\U{a}', '\U{b}', '\U{c}', '\U{d}', '\U{20}', '\U{85}', '\U{a0}', '\U{1680}', '\U{2000}', '\U{2001}',
            '\U{2002}', '\U{2003}', '\U{2004}', '\U{2005}', '\U{2006}', '\U{2007}', '\U{2008}', '\U{2009}', '\U{200a}',
            '\U{2028}', '\U{2029}', '\U{202f}', '\U{205f}', '\U{3000}'}
  {}

  function TrimLeft(s: string): string {
    if s != "" && IsSpace(s[0]) then TrimLeft(s[1..]) else s
  }

  function TrimRight(s: string): string {
    if s != "" && IsSpace(s[|s| - 1]) then TrimRight(s[..|s| - 1]) else s
  }

  function Trim(s: string): string { TrimRight(TrimLeft(s)) }

  /** No space at either end. */
  predicate Tight(s: string) { s == "" || (!IsSpace(s[0]) && !IsSpace(s[|s| - 1])) }

  function LowerChar(c: char): char {
    if 'A' <= c <= 'Z' then c - 'A' + 'a' else c
  }

  function Lower(s: string): string { seq(|s|, i requires 0 <= i < |s| => LowerChar(s[i])) }

  function CharLen(c: char): nat {
    if c < '\U{80}' then 1 else if c < '\U{800}' then 2 else if c < '\U{10000}' then 3 else 4
  }

  function PowerOfTwo(n: nat): nat { if n == 0 then 1 else 2 * PowerOfTwo(n - 1) }

  /** UTF-8 has room for seven bits in one byte, and for one more than five times as many bits
      as bytes in more than one. */
  predicate FitsIn(c: char, bytes: nat) {
    bytes >= 1 && c as int < if bytes == 1 then PowerOfTwo(7) else PowerOfTwo(5 * bytes + 1)
  }

  /** A character takes as few bytes as it fits in. */
  lemma CharLenIsLeast(c: char)
    ensures FitsIn(c, CharLen(c)) && forall n :: 1 <= n < CharLen(c) ==> !FitsIn(c, n)
  {
    assert PowerOfTwo(7) == 0x80;
    assert PowerOfTwo(11) == 0x800 by { assert PowerOfTwo(8) == 0x100; }
    assert PowerOfTwo(16) == 0x10000 by { assert PowerOfTwo(13) == 0x2000; }
    assert PowerOfTwo(21) == 0x200000 by { assert PowerOfTwo(18) == 0x40000; }
  }

  /** Length in bytes, which is what the ceilings measure. */
  function ByteLen(s: string): nat { if s == "" then 0 else CharLen(s[0]) + ByteLen(s[1..]) }

  // ---- Normalization ------------------------------------------------------

  const DEFAULT_ENVIRONMENT := "unknown"

  function Normalized(e: Event): Event {
    Event(Lower(Trim(e.eventId)), Trim(e.schemaVersion), Trim(e.tenantId), Trim(e.serviceName),
          if Trim(e.environment) == "" then DEFAULT_ENVIRONMENT else Trim(e.environment),
          Trim(e.eventType), Lower(Trim(e.severity)), e.timestamp, Trim(e.traceId),
          if e.attributes.None? then Some(map[]) else e.attributes)
  }

  lemma {:induction false} TrimLeftStarts(s: string)
    ensures TrimLeft(s) == "" || !IsSpace(TrimLeft(s)[0])
  {
    if s != "" && IsSpace(s[0]) { TrimLeftStarts(s[1..]); }
  }

  lemma {:induction false} TrimRightTight(s: string)
    requires s == "" || !IsSpace(s[0])
    ensures Tight(TrimRight(s))
  {
    if s != "" && IsSpace(s[|s| - 1]) {
      assert |s| > 1 ==> s[..|s| - 1][0] == s[0];
      TrimRightTight(s[..|s| - 1]);
    }
  }

  lemma TrimTight(s: string)
    ensures Tight(Trim(s))
  {
    TrimLeftStarts(s);
    TrimRightTight(TrimLeft(s));
  }

  lemma TightUntouched(s: string)
    requires Tight(s)
    ensures Trim(s) == s
  {}

  lemma LowerStable(s: string)
    ensures Lower(Lower(s)) == Lower(s)
    ensures Tight(s) ==> Tight(Lower(s))
  {}

  /** Normalizing twice is normalizing once. */
  lemma NormalizeIdempotent(e: Event)
    ensures Normalized(Normalized(e)) == Normalized(e)
  {
    var n := Normalized(e);
    TrimTight(e.eventId);
    TrimTight(e.severity);
    LowerStable(Trim(e.eventId));
    LowerStable(Trim(e.severity));
    TightUntouched(n.eventId);
    TightUntouched(n.severity);
    TrimTwice(e.schemaVersion);
    TrimTwice(e.tenantId);
    TrimTwice(e.serviceName);
    TrimTwice(e.environment);
    TightUntouched(DEFAULT_ENVIRONMENT);
    TrimTwice(e.eventType);
    TrimTwice(e.traceId);
  }

  lemma TrimTwice(s: string)
    ensures Trim(Trim(s)) == Trim(s)
  {
    TrimTight(s);
    TightUntouched(Trim(s));
  }

  // ---- What the normal form means --------------------------------------------

  predicate Blank(s: string) { forall i :: 0 <= i < |s| ==> IsSpace(s[i]) }

  /** `core` is `s` without the space around it. */
  ghost predicate CoreOf(s: string, core: string) {
    Tight(core) && exists before, after :: s == before + core + after && Blank(before) && Blank(after)
  }

  lemma {:induction false} TrimLeftCuts(s: string)
    ensures var cut := |s| - |TrimLeft(s)|; 0 <= cut && s[cut..] == TrimLeft(s) && Blank(s[..cut])
  {
    if s != "" && IsSpace(s[0]) {
      TrimLeftCuts(s[1..]);
      var cut := |s| - |TrimLeft(s)|;
      assert s[cut..] == s[1..][cut - 1..] && s[..cut] == [s[0]] + s[1..][..cut - 1];
    }
  }

  lemma {:induction false} TrimRightCuts(s: string)
    ensures var n := |TrimRight(s)|; n <= |s| && s[..n] == TrimRight(s) && Blank(s[n..])
  {
    if s != "" && IsSpace(s[|s| - 1]) {
      var front := s[..|s| - 1];
      TrimRightCuts(front);
      var n := |TrimRight(s)|;
      assert s[..n] == front[..n] && s[n..] == front[n..] + [s[|s| - 1]];
    }
  }

  lemma TrimCuts(s: string) returns (before: string, after: string)
    ensures s == before + Trim(s) + after && Blank(before) && Blank(after)
  {
    var rest := TrimLeft(s);
    TrimLeftCuts(s);
    TrimRightCuts(rest);
    before, after := s[..|s| - |rest|], rest[|Trim(s)|..];
    assert rest == Trim(s) + after;
  }

  /** Trimming gives the core, and a text has no other. */
  lemma TrimIsCore(s: string)
    ensures CoreOf(s, Trim(s))
    ensures forall core :: CoreOf(s, core) ==> core == Trim(s)
  {
    var before, after := TrimCuts(s);
    TrimTight(s);
    forall core | CoreOf(s, core) ensures core == Trim(s) {
      var b, a :| s == b + core + a && Blank(b) && Blank(a);
      OneCore(s, b, core, a, before, Trim(s), after);
    }
  }

  /** Where a core that is not empty begins and ends. */
  predicate CutsAt(s: string, i: nat, j: nat) {
    && i < j <= |s| && !IsSpace(s[i]) && !IsSpace(s[j - 1])
    && (forall k :: 0 <= k < i ==> IsSpace(s[k])) && (forall k :: j <= k < |s| ==> IsSpace(s[k]))
  }

  lemma CoreCuts(s: string, b: string, t: string, a: string)
    requires s == b + t + a && Tight(t) && t != "" && Blank(b) && Blank(a)
    ensures CutsAt(s, |b|, |b| + |t|) && s[|b|..|b| + |t|] == t && !Blank(s)
  {
    assert s[|b|] == t[0] && s[|b| + |t| - 1] == t[|t| - 1];
    assert forall k :: 0 <= k < |b| ==> s[k] == b[k];
    assert forall k :: |b| + |t| <= k < |s| ==> s[k] == a[k - |b| - |t|];
  }

  lemma OneCut(s: string, i: nat, j: nat, i': nat, j': nat)
    requires CutsAt(s, i, j) && CutsAt(s, i', j')
    ensures i == i' && j == j'
  {}

  lemma OneCore(s: string, b: string, t: string, a: string, b': string, t': string, a': string)
    requires s == b + t + a && Tight(t) && Blank(b) && Blank(a)
    requires s == b' + t' + a' && Tight(t') && Blank(b') && Blank(a')
    ensures t == t'
  {
    if t != "" { CoreCuts(s, b, t, a); }
    if t' != "" { CoreCuts(s, b', t', a'); }
    if t != "" && t' != "" {
      OneCut(s, |b|, |b| + |t|, |b'|, |b'| + |t'|);
    } else {
      assert t == "" ==> s == b + a;
      assert t' == "" ==> s == b' + a';
    }
  }

  /** The same letters, whatever their case. */
  predicate SameLetters(a: string, b: string) {
    |a| == |b| && forall i :: 0 <= i < |a| ==>
      || a[i] == b[i]
      || ('A' <= a[i] <= 'Z' && b[i] == a[i] - 'A' + 'a') || ('A' <= b[i] <= 'Z' && a[i] == b[i] - 'A' + 'a')
  }

  predicate NoCapitals(s: string) { forall i :: 0 <= i < |s| ==> !('A' <= s[i] <= 'Z') }

  /** Lowering keeps the letters, and texts have one lower form exactly when they have the
      same letters. */
  lemma LowerMeans(a: string, b: string)
    ensures SameLetters(a, Lower(a)) && NoCapitals(Lower(a))
    ensures Lower(a) == Lower(b) <==> SameLetters(a, b)
  {
    if Lower(a) == Lower(b) {
      forall i | 0 <= i < |a|
        ensures || a[i] == b[i]
                || ('A' <= a[i] <= 'Z' && b[i] == a[i] - 'A' + 'a') || ('A' <= b[i] <= 'Z' && a[i] == b[i] - 'A' + 'a')
      {
        assert Lower(a)[i] == Lower(b)[i];
      }
    }
  }

  /** `text` is the core of `raw` with its capitals lowered. */
  ghost predicate LowerCoreOf(raw: string, text: string) {
    exists core :: CoreOf(raw, core) && SameLetters(core, text) && NoCapitals(text)
  }

  /** `n` is what an event is stored as: every text without the space around it, id and
      severity in lower case, a default for a blank environment and for missing attributes,
      and nothing else changed. */
  ghost predicate NormalFormOf(e: Event, n: Event) {
    && LowerCoreOf(e.eventId, n.eventId) && LowerCoreOf(e.severity, n.severity)
    && CoreOf(e.schemaVersion, n.schemaVersion) && CoreOf(e.tenantId, n.tenantId)
    && CoreOf(e.serviceName, n.serviceName) && CoreOf(e.eventType, n.eventType) && CoreOf(e.traceId, n.traceId)
    && (if Blank(e.environment) then n.environment == "unknown" else CoreOf(e.environment, n.environment))
    && n.timestamp == e.timestamp
    && n.attributes == (if e.attributes == None then Some(map[]) else e.attributes)
  }

  lemma BlankTrimsAway(s: string)
    ensures Trim(s) == "" <==> Blank(s)
  {
    var before, after := TrimCuts(s);
    TrimTight(s);
    if Trim(s) != "" { CoreCuts(s, before, Trim(s), after); }
    if Trim(s) == "" { assert s == before + after; }
  }

  /** The normal form is what it should be. */
  lemma NormalizedMeans(e: Event)
    ensures NormalFormOf(e, Normalized(e))
  {
    var n := Normalized(e);
    TrimIsCore(e.eventId);
    TrimIsCore(e.severity);
    LowerMeans(Trim(e.eventId), "");
    LowerMeans(Trim(e.severity), "");
    TrimIsCore(e.schemaVersion);
    TrimIsCore(e.tenantId);
    TrimIsCore(e.serviceName);
    TrimIsCore(e.eventType);
    TrimIsCore(e.traceId);
    TrimIsCore(e.environment);
    BlankTrimsAway(e.environment);
  }

  /** Two ids are stored alike exactly when they agree up to case and surrounding space. */
  lemma SameIdExactlyWhen(a: string, b: string)
    ensures Lower(Trim(a)) == Lower(Trim(b)) <==>
      exists s, t :: CoreOf(a, s) && CoreOf(b, t) && SameLetters(s, t)
  {
    TrimIsCore(a);
    TrimIsCore(b);
    LowerMeans(Trim(a), Trim(b));
  }

  /** An event being prepared in place. */
  class Draft {
    var value: Event

    constructor (e: Event)
      ensures value == e
    {
      value := e;
    }

    method Normalize()
      modifies this
      ensures value == Normalized(old(value))
    {
      value := value.(eventId := Lower(Trim(value.eventId)));
      value := value.(schemaVersion := Trim(value.schemaVersion));
      value := value.(tenantId := Trim(value.tenantId));
      value := value.(serviceName := Trim(value.serviceName));
      value := value.(environment := Trim(value.environment));
      value := value.(eventType := Trim(value.eventType));
      value := value.(severity := Lower(Trim(value.severity)));
      value := value.(traceId := Trim(value.traceId));
      if value.environment == "" {
        value := value.(environment := DEFAULT_ENVIRONMENT);
      }
      if value.attributes.None? {
        value := value.(attributes := Some(map[]));
      }
    }
  }

  // ---- Validation ---------------------------------------------------------

  const MAX_IDENTIFIER_LEN := 128
  const MAX_TRACE_ID_LEN := 128
  const SCHEMA_VERSION_10 := "1.0"
  const SEVERITIES := {"debug", "info", "warn", "error", "critical"}

  datatype Problem = Required | NotUUID | Unsupported | TooLong | TooFarAhead | TooOld

  datatype FieldError = FieldError(field: string, problem: Problem)

  function TextErrors(field: string, value: string): seq<FieldError> {
    if value == "" then [FieldError(field, Required)]
    else if ByteLen(value) > MAX_IDENTIFIER_LEN then [FieldError(field, TooLong)]
    else []
  }

  /** Structural problems, all of them; `isUUID` is the UUID parser's verdict. */
  function Validate(e: Event, isUUID: string -> bool): seq<FieldError> {
    (if e.eventId == "" then [FieldError("event_id", Required)]
     else if !isUUID(e.eventId) then [FieldError("event_id", NotUUID)] else [])
    + (if e.schemaVersion == "" then [FieldError("schema_version", Required)]
       else if e.schemaVersion != SCHEMA_VERSION_10 then [FieldError("schema_version", Unsupported)] else [])
    + TextErrors("tenant_id", e.tenantId)
    + TextErrors("service_name", e.serviceName)
    + TextErrors("event_type", e.eventType)
    + (if ByteLen(e.environment) > MAX_IDENTIFIER_LEN then [FieldError("environment", TooLong)] else [])
    + (if e.severity == "" then [FieldError("severity", Required)]
       else if e.severity !in SEVERITIES then [FieldError("severity", Unsupported)] else [])
    + (if Undated(e.timestamp) then [FieldError("timestamp", Required)] else [])
    + (if ByteLen(e.traceId) > MAX_TRACE_ID_LEN then [FieldError("trace_id", TooLong)] else [])
  }

  /** What is wrong with a field. */
  predicate Breaches(e: Event, isUUID: string -> bool, fe: FieldError) {
    match fe.problem
    case Required =>
      || (fe.field == "event_id" && e.eventId == "") || (fe.field == "schema_version" && e.schemaVersion == "")
      || (fe.field == "tenant_id" && e.tenantId == "") || (fe.field == "service_name" && e.serviceName == "")
      || (fe.field == "event_type" && e.eventType == "") || (fe.field == "severity" && e.severity == "")
      || (fe.field == "timestamp" && e.timestamp in {None, Some(ZERO_TIME)})
    case NotUUID => fe.field == "event_id" && e.eventId != "" && !isUUID(e.eventId)
    case Unsupported =>
      || (fe.field == "schema_version" && e.schemaVersion !in {"", "1.0"})
      || (fe.field == "severity" && e.severity !in {"", "debug", "info", "warn", "error", "critical"})
    case TooLong =>
      || (fe.field == "tenant_id" && ByteLen(e.tenantId) > 128) || (fe.field == "service_name" && ByteLen(e.serviceName) > 128)
      || (fe.field == "event_type" && ByteLen(e.eventType) > 128) || (fe.field == "environment" && ByteLen(e.environment) > 128)
      || (fe.field == "trace_id" && ByteLen(e.traceId) > 128)
    case _ => false
  }

  /** Validation reports every breach and nothing else. */
  lemma ReportsExactlyBreaches(e: Event, isUUID: string -> bool, fe: FieldError)
    ensures fe in Validate(e, isUUID) <==> Breaches(e, isUUID, fe)
  {
    assert ByteLen("") == 0;
  }

  /** The bounds let a dated event through exactly when neither positive one is breached. */
  lemma CheckPassesExactlyWhen(bounds: TimeBounds, t: int, now: int)
    ensures bounds.Check(Some(t), now) == [] <==>
      t == ZERO_TIME || ((bounds.maxFuture > 0 ==> t <= now + bounds.maxFuture) && (bounds.maxAge > 0 ==> now - bounds.maxAge <= t))
    ensures forall fe :: fe in bounds.Check(Some(t), now) <==>
      && t != ZERO_TIME && fe.field == "timestamp"
      && ((fe.problem == TooFarAhead && bounds.maxFuture > 0 && now + bounds.maxFuture < t)
          || (fe.problem == TooOld && bounds.maxAge > 0 && t < now - bounds.maxAge))
    ensures bounds.Check(None, now) == []
  {}

  predicate Undated(timestamp: Option<int>) { timestamp in {None, Some(ZERO_TIME)} }

  /** Zero or less disables a bound. */
  datatype TimeBounds = TimeBounds(maxFuture: int, maxAge: int) {
    function Check(timestamp: Option<int>, now: int): seq<FieldError> {
      if Undated(timestamp) then []
      else
        (if maxFuture > 0 && timestamp.value - now > maxFuture then [FieldError("timestamp", TooFarAhead)] else [])
        + (if maxAge > 0 && now - timestamp.value > maxAge then [FieldError("timestamp", TooOld)] else [])
    }
  }

  function ValidateWithin(e: Event, isUUID: string -> bool, bounds: TimeBounds, now: int): seq<FieldError> {
    Validate(e, isUUID) + bounds.Check(e.timestamp, now)
  }
}
