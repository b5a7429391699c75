/** Parameterised list queries: how a filter becomes clauses over positional arguments,
    and what those clauses select. */
module Queries {
  import opened Times
  import opened Wrappers

  /** Both listed tables order by a moment and break ties by an id; the other columns
      are text. */
  datatype Column = TenantID | ServiceName | Severity | EventType | TraceID | Status | Time | ID

  datatype Row = Row(time: int, id: string, text: map<Column, string>)

  datatype Value = Text(text: string) | Moment(moment: int) | Number(number: int)

  datatype Operator = Equal | AtLeast | AtMost

  /** A condition as written in the query, naming its arguments by 1-based position. */
  datatype Clause =
    | Comparison(column: Column, op: Operator, position: nat)
    | Before(timePosition: nat, idPosition: nat)

  datatype Cursor = Cursor(time: int, id: string)

  const START_OF_LIST := Cursor(ZERO_TIME, "")

  predicate IsZero(c: Cursor) { c.time == ZERO_TIME && c.id == "" }

  /** The text order the database uses, whichever collation it is. */
  type Collation = (string, string) -> bool

  ghost predicate StrictOrder(less: Collation) {
    && (forall a :: !less(a, a))
    && (forall a, b, c :: less(a, b) && less(b, c) ==> less(a, c))
    && (forall a, b :: a == b || less(a, b) || less(b, a))
  }

  /** Row-value comparison of (time, id) pairs. */
  predicate Earlier(less: Collation, a: Cursor, b: Cursor) {
    a.time < b.time || (a.time == b.time && less(a.id, b.id))
  }

  function Position(r: Row): Cursor { Cursor(r.time, r.id) }

  function Field(r: Row, c: Column): Value {
    match c
    case Time => Moment(r.time)
    case ID => Text(r.id)
    case _ => Text(if c in r.text then r.text[c] else "")
  }

  predicate Compare(op: Operator, a: Value, b: Value) {
    match op
    case Equal => a == b
    case AtLeast => a.Moment? && b.Moment? && a.moment >= b.moment
    case AtMost => a.Moment? && b.Moment? && a.moment <= b.moment
  }

  predicate Holds(less: Collation, c: Clause, args: seq<Value>, r: Row) {
    match c
    case Comparison(column, op, p) => 1 <= p <= |args| && Compare(op, Field(r, column), args[p - 1])
    case Before(t, i) =>
      && 1 <= t <= |args| && 1 <= i <= |args| && args[t - 1].Moment? && args[i - 1].Text?
      && Earlier(less, Position(r), Cursor(args[t - 1].moment, args[i - 1].text))
  }

  /** What the joined WHERE conditions let through. */
  predicate Selects(less: Collation, clauses: seq<Clause>, args: seq<Value>, r: Row) {
    forall c :: c in clauses ==> Holds(less, c, args, r)
  }

  // ---- Placeholders ------------------------------------------------------

  function Upto(n: nat): seq<nat> { seq(n, i requires 0 <= i => i + 1) }

  function PlaceholdersOf(c: Clause): seq<nat> {
    match c
    case Comparison(_, _, p) => [p]
    case Before(t, i) => [t, i]
  }

  /** Every placeholder of the conditions, in the order they are written. */
  function Placeholders(clauses: seq<Clause>): seq<nat> {
    if clauses == [] then []
    else Placeholders(clauses[..|clauses| - 1]) + PlaceholdersOf(clauses[|clauses| - 1])
  }

  lemma {:induction false} PlaceholdersBounded(clauses: seq<Clause>, n: nat)
    requires forall p :: p in Placeholders(clauses) ==> 1 <= p <= n
    ensures forall c, p :: c in clauses && p in PlaceholdersOf(c) ==> 1 <= p <= n
  {
    if clauses == [] {
    } else {
      var front, last := clauses[..|clauses| - 1], clauses[|clauses| - 1];
      assert clauses == front + [last];
      forall p | p in Placeholders(front) || p in PlaceholdersOf(last) ensures 1 <= p <= n {
        assert p in Placeholders(clauses);
      }
      PlaceholdersBounded(front, n);
    }
  }

  /** Arguments bound later do not change what earlier conditions mean. */
  lemma LaterArguments(less: Collation, clauses: seq<Clause>, args: seq<Value>, more: seq<Value>, r: Row)
    requires Placeholders(clauses) == Upto(|args|)
    ensures Selects(less, clauses, args + more, r) <==> Selects(less, clauses, args, r)
  {
    PlaceholdersBounded(clauses, |args|);
    forall c | c in clauses ensures Holds(less, c, args + more, r) <==> Holds(less, c, args, r) {
      match c
      case Comparison(_, _, p) => assert p in PlaceholdersOf(c);
      case Before(t, i) => assert t in PlaceholdersOf(c) && i in PlaceholdersOf(c);
    }
  }

  lemma OneMore(less: Collation, clauses: seq<Clause>, args: seq<Value>, c: Clause, more: seq<Value>, r: Row)
    requires Placeholders(clauses) == Upto(|args|)
    ensures Selects(less, clauses + [c], args + more, r) <==>
            Selects(less, clauses, args, r) && Holds(less, c, args + more, r)
    ensures Placeholders(clauses + [c]) == Placeholders(clauses) + PlaceholdersOf(c)
  {
    LaterArguments(less, clauses, args, more, r);
    assert (clauses + [c])[..|clauses|] == clauses;
    assert c in clauses + [c];
  }

  // ---- The builder -------------------------------------------------------

  /** The trailing LIMIT and OFFSET placeholders. */
  datatype PageClause = PageClause(limit: nat, offset: Option<nat>)

  const DEFAULT_LIST_LIMIT := 50
  const MAX_LIST_LIMIT := 200

  function NormalizeLimit(limit: int): (n: nat)
    ensures 1 <= n <= MAX_LIST_LIMIT
    ensures 1 <= limit <= MAX_LIST_LIMIT ==> n == limit
    ensures limit <= 0 ==> n == 50
    ensures limit > 200 ==> n == 200
  {
    if limit <= 0 then DEFAULT_LIST_LIMIT else if limit > MAX_LIST_LIMIT then MAX_LIST_LIMIT else limit
  }

  /** What a condition asks for, whatever positions its arguments got. */
  datatype Condition = Is(column: Column, op: Operator, val: Value) | Below(cursor: Cursor)

  predicate Meets(less: Collation, c: Condition, r: Row) {
    match c
    case Is(column, op, val) => Compare(op, Field(r, column), val)
    case Below(cursor) => Earlier(less, Position(r), cursor)
  }

  predicate MeetsAll(less: Collation, asked: seq<Condition>, r: Row) {
    asked == [] || (MeetsAll(less, asked[..|asked| - 1], r) && Meets(less, asked[|asked| - 1], r))
  }

  /** The clauses over their arguments select what was asked for, and every argument is
      bound by exactly one placeholder, in order. */
  ghost predicate Compiled(clauses: seq<Clause>, args: seq<Value>, asked: seq<Condition>) {
    && Placeholders(clauses) == Upto(|args|)
    && forall less, r :: Selects(less, clauses, args, r) <==> MeetsAll(less, asked, r)
  }

  lemma CompiledOneMore(clauses: seq<Clause>, args: seq<Value>, asked: seq<Condition>,
                        clause: Clause, more: seq<Value>, c: Condition)
    requires Compiled(clauses, args, asked)
    requires Upto(|args|) + PlaceholdersOf(clause) == Upto(|args + more|)
    requires forall less, r :: Holds(less, clause, args + more, r) <==> Meets(less, c, r)
    ensures Compiled(clauses + [clause], args + more, asked + [c])
  {
    forall less, r
      ensures Selects(less, clauses + [clause], args + more, r) <==> MeetsAll(less, asked + [c], r)
      ensures Placeholders(clauses + [clause]) == Upto(|args + more|)
    {
      OneMore(less, clauses, args, clause, more, r);
      assert Holds(less, clause, args + more, r) <==> Meets(less, c, r);
      assert (asked + [c])[..|asked|] == asked;
    }
    OneMore((a, b) => false, clauses, args, clause, more, Row(0, "", map[]));
  }

  class FilterBuilder {
    var clauses: seq<Clause>
    var args: seq<Value>
    ghost var asked: seq<Condition>

    ghost predicate Valid()
      reads this
    {
      Compiled(clauses, args, asked)
    }

    constructor ()
      ensures Valid() && clauses == [] && args == [] && asked == []
    {
      clauses, args, asked := [], [], [];
    }

    method Add(column: Column, op: Operator, val: Value)
      requires Valid()
      modifies this
      ensures Valid() && asked == old(asked) + [Is(column, op, val)]
    {
      CompiledOneMore(clauses, args, asked, Comparison(column, op, |args| + 1), [val], Is(column, op, val));
      args := args + [val];
      clauses := clauses + [Comparison(column, op, |args|)];
      asked := asked + [Is(column, op, val)];
    }

    method After(c: Cursor)
      requires Valid()
      modifies this
      ensures Valid() && asked == Also(old(asked), !IsZero(c), Below(c))
    {
      if IsZero(c) { return; }
      ghost var bound := args;
      CompiledOneMore(
        clauses, args, asked, Before(|args| + 1, |args| + 2), [Moment(c.time), Text(c.id)], Below(c));
      args := args + [Moment(c.time)];
      var timePos := |args|;
      args := args + [Text(c.id)];
      var idPos := |args|;
      clauses := clauses + [Before(timePos, idPos)];
      asked := asked + [Below(c)];
      assert args == bound + [Moment(c.time), Text(c.id)];
    }

    /** Binds one row more than the page size, and the offset when one is asked for. */
    method Paginate(limit: int, offset: int) returns (page: PageClause, size: nat)
      requires Valid()
      modifies this`args
      ensures size == NormalizeLimit(limit)
      ensures WellBound(Query(clauses, page, args), limit, offset)
      ensures forall less, r :: Selects(less, clauses, args, r) <==> MeetsAll(less, asked, r)
    {
      ghost var bound := args;
      size := NormalizeLimit(limit);
      args := args + [Number(size + 1)];
      page := PageClause(|args|, None);
      if offset > 0 {
        args := args + [Number(offset)];
        page := page.(offset := Some(|args|));
      }
      assert Upto(|bound|) + PagePlaceholders(page) == Upto(|args|);
      forall less, r ensures Selects(less, clauses, args, r) <==> MeetsAll(less, asked, r) {
        assert args == bound + args[|bound|..];
        LaterArguments(less, clauses, bound, args[|bound|..], r);
        assert Selects(less, clauses, bound, r) <==> MeetsAll(less, asked, r);
      }
    }
  }

  function Also(asked: seq<Condition>, wanted: bool, c: Condition): seq<Condition> {
    if wanted then asked + [c] else asked
  }

  function PagePlaceholders(page: PageClause): seq<nat> {
    [page.limit] + if page.offset.Some? then [page.offset.value] else []
  }

  // ---- The two list queries ----------------------------------------------

  datatype Query = Query(clauses: seq<Clause>, page: PageClause, args: seq<Value>)

  datatype EventFilter = EventFilter(
    tenantID: string, serviceName: string, severity: string, eventType: string, traceID: string,
    since: int, until: int, limit: int, offset: int, after: Cursor)

  datatype IncidentFilter = IncidentFilter(
    status: string, tenantID: string, serviceName: string, severity: string,
    limit: int, offset: int, after: Cursor)

  /** An omitted text filter lets every row through. */
  predicate Matches(wanted: string, r: Row, column: Column) { wanted == "" || Field(r, column) == Text(wanted) }

  predicate EventTextMatches(f: EventFilter, r: Row) {
    && Matches(f.tenantID, r, TenantID) && Matches(f.serviceName, r, ServiceName) && Matches(f.severity, r, Severity)
    && Matches(f.eventType, r, EventType) && Matches(f.traceID, r, TraceID)
  }

  predicate EventMatches(f: EventFilter, r: Row) {
    && EventTextMatches(f, r)
    && (f.since == ZERO_TIME || f.since <= r.time) && (f.until == ZERO_TIME || r.time <= f.until)
  }

  predicate IncidentMatches(f: IncidentFilter, r: Row) {
    && Matches(f.status, r, Status) && Matches(f.tenantID, r, TenantID)
    && Matches(f.serviceName, r, ServiceName) && Matches(f.severity, r, Severity)
  }

  /** The rows below the cursor, or all of them from the start of the list. */
  predicate BelowCursor(less: Collation, c: Cursor, r: Row) { IsZero(c) || Earlier(less, Position(r), c) }

  /** Each argument bound once and in order; the limit asks for one row more. */
  predicate WellBound(q: Query, limit: int, offset: int) {
    && Placeholders(q.clauses) + PagePlaceholders(q.page) == Upto(|q.args|)
    && 1 <= q.page.limit <= |q.args| && q.args[q.page.limit - 1] == Number(NormalizeLimit(limit) + 1)
    && (q.page.offset.Some? <==> offset > 0)
    && (q.page.offset.Some? ==> 1 <= q.page.offset.value <= |q.args| && q.args[q.page.offset.value - 1] == Number(offset))
  }

  /** One condition per non-empty field of the filter, in the builder's order. */
  function EventTextConditions(f: EventFilter): seq<Condition> {
    var a1 := Also([], f.tenantID != "", Is(TenantID, Equal, Text(f.tenantID)));
    var a2 := Also(a1, f.serviceName != "", Is(ServiceName, Equal, Text(f.serviceName)));
    var a3 := Also(a2, f.severity != "", Is(Severity, Equal, Text(f.severity)));
    var a4 := Also(a3, f.eventType != "", Is(EventType, Equal, Text(f.eventType)));
    Also(a4, f.traceID != "", Is(TraceID, Equal, Text(f.traceID)))
  }

  function EventConditions(f: EventFilter): seq<Condition> {
    var a1 := Also(EventTextConditions(f), f.since != ZERO_TIME, Is(Time, AtLeast, Moment(f.since)));
    var a2 := Also(a1, f.until != ZERO_TIME, Is(Time, AtMost, Moment(f.until)));
    Also(a2, !IsZero(f.after), Below(f.after))
  }

  function IncidentConditions(f: IncidentFilter): seq<Condition> {
    var a1 := Also([], f.status != "", Is(Status, Equal, Text(f.status)));
    var a2 := Also(a1, f.tenantID != "", Is(TenantID, Equal, Text(f.tenantID)));
    var a3 := Also(a2, f.serviceName != "", Is(ServiceName, Equal, Text(f.serviceName)));
    var a4 := Also(a3, f.severity != "", Is(Severity, Equal, Text(f.severity)));
    Also(a4, !IsZero(f.after), Below(f.after))
  }

  lemma AlsoMeets(less: Collation, asked: seq<Condition>, wanted: bool, c: Condition, r: Row)
    ensures MeetsAll(less, Also(asked, wanted, c), r) <==> MeetsAll(less, asked, r) && (wanted ==> Meets(less, c, r))
  {
    assert (asked + [c])[..|asked|] == asked;
  }

  lemma EventTextConditionsMean(f: EventFilter, less: Collation, r: Row)
    ensures MeetsAll(less, EventTextConditions(f), r) <==> EventTextMatches(f, r)
  {
    AlsoMeets(less, [], f.tenantID != "", Is(TenantID, Equal, Text(f.tenantID)), r);
    var a1 := Also([], f.tenantID != "", Is(TenantID, Equal, Text(f.tenantID)));
    AlsoMeets(less, a1, f.serviceName != "", Is(ServiceName, Equal, Text(f.serviceName)), r);
    var a2 := Also(a1, f.serviceName != "", Is(ServiceName, Equal, Text(f.serviceName)));
    AlsoMeets(less, a2, f.severity != "", Is(Severity, Equal, Text(f.severity)), r);
    var a3 := Also(a2, f.severity != "", Is(Severity, Equal, Text(f.severity)));
    AlsoMeets(less, a3, f.eventType != "", Is(EventType, Equal, Text(f.eventType)), r);
    var a4 := Also(a3, f.eventType != "", Is(EventType, Equal, Text(f.eventType)));
    AlsoMeets(less, a4, f.traceID != "", Is(TraceID, Equal, Text(f.traceID)), r);
  }

  lemma EventConditionsMean(f: EventFilter, less: Collation, r: Row)
    ensures MeetsAll(less, EventConditions(f), r) <==> EventMatches(f, r) && BelowCursor(less, f.after, r)
  {
    EventTextConditionsMean(f, less, r);
    var a0 := EventTextConditions(f);
    AlsoMeets(less, a0, f.since != ZERO_TIME, Is(Time, AtLeast, Moment(f.since)), r);
    var a1 := Also(a0, f.since != ZERO_TIME, Is(Time, AtLeast, Moment(f.since)));
    AlsoMeets(less, a1, f.until != ZERO_TIME, Is(Time, AtMost, Moment(f.until)), r);
    var a2 := Also(a1, f.until != ZERO_TIME, Is(Time, AtMost, Moment(f.until)));
    AlsoMeets(less, a2, !IsZero(f.after), Below(f.after), r);
  }

  lemma IncidentConditionsMean(f: IncidentFilter, less: Collation, r: Row)
    ensures MeetsAll(less, IncidentConditions(f), r) <==> IncidentMatches(f, r) && BelowCursor(less, f.after, r)
  {
    AlsoMeets(less, [], f.status != "", Is(Status, Equal, Text(f.status)), r);
    var a1 := Also([], f.status != "", Is(Status, Equal, Text(f.status)));
    AlsoMeets(less, a1, f.tenantID != "", Is(TenantID, Equal, Text(f.tenantID)), r);
    var a2 := Also(a1, f.tenantID != "", Is(TenantID, Equal, Text(f.tenantID)));
    AlsoMeets(less, a2, f.serviceName != "", Is(ServiceName, Equal, Text(f.serviceName)), r);
    var a3 := Also(a2, f.serviceName != "", Is(ServiceName, Equal, Text(f.serviceName)));
    AlsoMeets(less, a3, f.severity != "", Is(Severity, Equal, Text(f.severity)), r);
    var a4 := Also(a3, f.severity != "", Is(Severity, Equal, Text(f.severity)));
    AlsoMeets(less, a4, !IsZero(f.after), Below(f.after), r);
  }

  lemma EventQueryMeans(f: EventFilter, q: Query)
    requires forall less, r :: Selects(less, q.clauses, q.args, r) <==> MeetsAll(less, EventConditions(f), r)
    ensures forall less, r ::
      Selects(less, q.clauses, q.args, r) <==> EventMatches(f, r) && BelowCursor(less, f.after, r)
  {
    forall less, r
      ensures Selects(less, q.clauses, q.args, r) <==> EventMatches(f, r) && BelowCursor(less, f.after, r)
    {
      EventConditionsMean(f, less, r);
    }
  }

  method AddEventTexts(b: FilterBuilder, f: EventFilter)
    requires b.Valid() && b.asked == []
    modifies b
    ensures b.Valid() && b.asked == EventTextConditions(f)
  {
    if f.tenantID != "" { b.Add(TenantID, Equal, Text(f.tenantID)); }
    if f.serviceName != "" { b.Add(ServiceName, Equal, Text(f.serviceName)); }
    if f.severity != "" { b.Add(Severity, Equal, Text(f.severity)); }
    if f.eventType != "" { b.Add(EventType, Equal, Text(f.eventType)); }
    if f.traceID != "" { b.Add(TraceID, Equal, Text(f.traceID)); }
  }

  method BuildEventListQuery(f: EventFilter) returns (q: Query, limit: nat)
    ensures limit == NormalizeLimit(f.limit) && WellBound(q, f.limit, f.offset)
    ensures forall less, r ::
      Selects(less, q.clauses, q.args, r) <==> EventMatches(f, r) && BelowCursor(less, f.after, r)
  {
    var b := new FilterBuilder();
    AddEventTexts(b, f);
    if f.since != ZERO_TIME { b.Add(Time, AtLeast, Moment(f.since)); }
    if f.until != ZERO_TIME { b.Add(Time, AtMost, Moment(f.until)); }
    b.After(f.after);
    assert b.asked == EventConditions(f);
    var page, size := b.Paginate(f.limit, f.offset);
    q, limit := Query(b.clauses, page, b.args), size;
    EventQueryMeans(f, q);
  }

  method BuildIncidentListQuery(f: IncidentFilter) returns (q: Query, limit: nat)
    ensures limit == NormalizeLimit(f.limit) && WellBound(q, f.limit, f.offset)
    ensures forall less, r ::
      Selects(less, q.clauses, q.args, r) <==> IncidentMatches(f, r) && BelowCursor(less, f.after, r)
  {
    var b := new FilterBuilder();
    if f.status != "" { b.Add(Status, Equal, Text(f.status)); }
    if f.tenantID != "" { b.Add(TenantID, Equal, Text(f.tenantID)); }
    if f.serviceName != "" { b.Add(ServiceName, Equal, Text(f.serviceName)); }
    if f.severity != "" { b.Add(Severity, Equal, Text(f.severity)); }
    b.After(f.after);
    assert b.asked == IncidentConditions(f);
    var page, size := b.Paginate(f.limit, f.offset);
    q, limit := Query(b.clauses, page, b.args), size;
    forall less, r ensures MeetsAll(less, b.asked, r) <==> IncidentMatches(f, r) && BelowCursor(less, f.after, r) {
      IncidentConditionsMean(f, less, r);
    }
  }
}
