/** Cursor tokens and keyset pages: following next cursors to the end of a list. */
module Keyset {
  import opened Times
  import opened Wrappers
  import opened Queries

  // ---- Cursor tokens -----------------------------------------------------

  /** Rendering moments as text and text as URL-safe tokens, with their inverses. */
  datatype Codec = Codec(
    format: int -> string, parse: string -> Option<int>,
    armor: string -> string, unarmor: string -> Option<string>)

  /** A moment reads back exactly when its year has four digits. */
  ghost predicate Faithful(codec: Codec) {
    && (forall t :: codec.parse(codec.format(t)) == if InFourDigitYears(t) then Some(t) else None)
    && (forall t :: ',' !in codec.format(t))
    && (forall s :: codec.unarmor(codec.armor(s)) == Some(s))
    && (forall s :: codec.armor(s) == "" ==> s == "")
  }

  datatype CursorError = NotAToken | MalformedCursor | InvalidTimestamp

  function Encode(codec: Codec, c: Cursor): string {
    if c.id == "" && c.time == ZERO_TIME then "" else codec.armor(codec.format(c.time) + "," + c.id)
  }

  /** The text before and after the first comma. */
  function CutAtComma(s: string): Option<(string, string)> {
    if s == "" then None
    else if s[0] == ',' then Some(("", s[1..]))
    else
      match CutAtComma(s[1..])
      case None => None
      case Some((a, b)) => Some(([s[0]] + a, b))
  }

  function DecodeCursor(codec: Codec, token: string): Result<Cursor, CursorError> {
    if token == "" then Ok(START_OF_LIST)
    else
      match codec.unarmor(token)
      case None => Err(NotAToken)
      case Some(decoded) =>
        match CutAtComma(decoded)
        case None => Err(MalformedCursor)
        case Some((rawTime, id)) =>
          if id == "" then Err(MalformedCursor)
          else
            match codec.parse(rawTime)
            case None => Err(InvalidTimestamp)
            case Some(t) => Ok(Cursor(t, id))
  }

  lemma {:induction false} CutsAtFirstComma(a: string, b: string)
    requires ',' !in a
    ensures CutAtComma(a + "," + b) == Some((a, b))
  {
    var s := a + "," + b;
    if a == "" {
      assert s[1..] == b;
    } else {
      assert s[1..] == a[1..] + "," + b;
      CutsAtFirstComma(a[1..], b);
      assert [a[0]] + a[1..] == a;
    }
  }

  /** A token gives back its cursor exactly when the cursor has an id and a moment in
      four-digit years, or is the start of the list; otherwise it is refused. */
  lemma CursorRoundTrip(codec: Codec, c: Cursor)
    requires Faithful(codec)
    ensures DecodeCursor(codec, Encode(codec, c)) == Ok(c) <==> (c.id != "" && InFourDigitYears(c.time)) || IsZero(c)
    ensures c.id == "" && !IsZero(c) ==> DecodeCursor(codec, Encode(codec, c)) == Err(MalformedCursor)
    ensures c.id != "" && !InFourDigitYears(c.time) ==> DecodeCursor(codec, Encode(codec, c)) == Err(InvalidTimestamp)
    ensures Encode(codec, c) == "" <==> IsZero(c)
  {
    var text := codec.format(c.time) + "," + c.id;
    CutsAtFirstComma(codec.format(c.time), c.id);
    assert codec.unarmor(codec.armor(text)) == Some(text);
    assert |text| > 0;
  }

  // ---- One page ----------------------------------------------------------

  /** `a` is listed before `b`: newest first, ids descending within a moment. */
  predicate Ahead(less: Collation, a: Row, b: Row) { Earlier(less, Position(b), Position(a)) }

  function Insert(less: Collation, r: Row, rows: seq<Row>): seq<Row> {
    if rows == [] || Ahead(less, r, rows[0]) then [r] + rows
    else [rows[0]] + Insert(less, r, rows[1..])
  }

  /** The rows in list order. */
  function Ordered(less: Collation, rows: seq<Row>): seq<Row> {
    if rows == [] then [] else Insert(less, rows[0], Ordered(less, rows[1..]))
  }

  function Chosen(keep: Row -> bool, rows: seq<Row>): seq<Row> {
    if rows == [] then []
    else (if keep(rows[0]) then [rows[0]] else []) + Chosen(keep, rows[1..])
  }

  /** The rows wanted from below a cursor. */
  function Under(less: Collation, wanted: Row -> bool, after: Cursor): Row -> bool {
    r => wanted(r) && BelowCursor(less, after, r)
  }

  function SelectedBy(less: Collation, q: Query): Row -> bool { r => Selects(less, q.clauses, q.args, r) }

  function EventsWanted(f: EventFilter): Row -> bool { r => EventMatches(f, r) }

  function IncidentsWanted(f: IncidentFilter): Row -> bool { r => IncidentMatches(f, r) }

  predicate Descending(less: Collation, rows: seq<Row>) {
    forall i, j :: 0 <= i < j < |rows| ==> Ahead(less, rows[i], rows[j])
  }

  /** The table's key: no two rows share a moment and an id. */
  predicate Keyed(rows: seq<Row>) {
    forall i, j :: 0 <= i < j < |rows| ==> Position(rows[i]) != Position(rows[j])
  }

  function Least(a: nat, b: nat): nat { if a < b then a else b }

  /** At most `n` rows after skipping `skip`. */
  function Window(rows: seq<Row>, skip: nat, n: nat): seq<Row> {
    var rest := rows[Least(skip, |rows|)..];
    rest[..Least(n, |rest|)]
  }

  /** What the database answers to a list query. */
  function Execute(less: Collation, q: Query, table: seq<Row>): seq<Row>
    requires exists limit, offset :: WellBound(q, limit, offset)
  {
    var n := q.args[q.page.limit - 1].number;
    var skip := if q.page.offset.Some? then q.args[q.page.offset.value - 1].number else 0;
    Window(Ordered(less, Chosen(SelectedBy(less, q), table)), skip, n)
  }

  datatype Page = Page(rows: seq<Row>, next: Cursor)

  /** A page of the whole table, sorted and filtered: the rows wanted below the cursor,
      and a cursor for the rest when there is any. */
  function PageOf(less: Collation, wanted: Row -> bool, limit: nat, skip: nat, table: seq<Row>, after: Cursor): Page
    requires limit >= 1
  {
    var listed := Ordered(less, Chosen(Under(less, wanted, after), table));
    var rows := Window(listed, skip, limit);
    Page(rows, if |Window(listed, skip, limit + 1)| > limit then Position(rows[|rows| - 1]) else START_OF_LIST)
  }

  lemma {:induction false} ChosenSame(p: Row -> bool, q: Row -> bool, rows: seq<Row>)
    requires forall r :: p(r) <==> q(r)
    ensures Chosen(p, rows) == Chosen(q, rows)
  {
    if rows == [] {
    } else {
      ChosenSame(p, q, rows[1..]);
    }
  }

  method PageFrom(rows: seq<Row>, limit: nat) returns (page: Page)
    requires 1 <= limit
    ensures page.rows == rows[..Least(limit, |rows|)]
    ensures page.next == if |rows| > limit then Position(rows[limit - 1]) else START_OF_LIST
  {
    page := Page(rows, START_OF_LIST);
    if |rows| > limit {
      var last := rows[..limit][limit - 1];
      page := Page(rows[..limit], Position(last));
    }
  }

  method ListEvents(less: Collation, table: seq<Row>, f: EventFilter) returns (page: Page)
    ensures page == PageOf(less, EventsWanted(f), NormalizeLimit(f.limit), Skip(f.offset), table, f.after)
  {
    var q, limit := BuildEventListQuery(f);
    AnswerOf(less, q, EventsWanted(f), f.limit, f.offset, table, f.after);
    page := PageFrom(Execute(less, q, table), limit);
  }

  method ListIncidents(less: Collation, table: seq<Row>, f: IncidentFilter) returns (page: Page)
    ensures page == PageOf(less, IncidentsWanted(f), NormalizeLimit(f.limit), Skip(f.offset), table, f.after)
  {
    var q, limit := BuildIncidentListQuery(f);
    AnswerOf(less, q, IncidentsWanted(f), f.limit, f.offset, table, f.after);
    page := PageFrom(Execute(less, q, table), limit);
  }

  /** What a well-bound query for the wanted rows answers, and the page cut from it. */
  lemma AnswerOf(less: Collation, q: Query, wanted: Row -> bool, limit: int, offset: int, table: seq<Row>, after: Cursor)
    requires WellBound(q, limit, offset)
    requires forall r :: Selects(less, q.clauses, q.args, r) <==> wanted(r) && BelowCursor(less, after, r)
    ensures var answer, n := Execute(less, q, table), NormalizeLimit(limit);
      PageOf(less, wanted, n, Skip(offset), table, after) ==
      Page(answer[..Least(n, |answer|)], if |answer| > n then Position(answer[n - 1]) else START_OF_LIST)
  {
    ChosenSame(SelectedBy(less, q), Under(less, wanted, after), table);
    PageOfAnswer(less, wanted, NormalizeLimit(limit), Skip(offset), table, after);
  }

  function Skip(offset: int): nat { if offset > 0 then offset else 0 }

  lemma PageOfAnswer(less: Collation, wanted: Row -> bool, limit: nat, skip: nat, table: seq<Row>, after: Cursor)
    requires limit >= 1
    ensures var answer := Window(Ordered(less, Chosen(Under(less, wanted, after), table)), skip, limit + 1);
      PageOf(less, wanted, limit, skip, table, after) ==
      Page(answer[..Least(limit, |answer|)], if |answer| > limit then Position(answer[limit - 1]) else START_OF_LIST)
  {
    WindowIsCut(Ordered(less, Chosen(Under(less, wanted, after), table)), skip, limit);
  }

  lemma WindowIsCut(listed: seq<Row>, skip: nat, limit: nat)
    ensures var answer := Window(listed, skip, limit + 1);
      Window(listed, skip, limit) == answer[..Least(limit, |answer|)]
  {}
}
