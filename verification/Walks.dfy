/** Walking a list page by page through cursor tokens, on a fixed table and on one that
    changes between pages. */
module Walks {
  import opened Times
  import opened Queries
  import opened Keyset

  // ---- Sorting and filtering ---------------------------------------------

  lemma EarlierOrders(less: Collation, a: Cursor, b: Cursor, c: Cursor)
    requires StrictOrder(less)
    ensures !Earlier(less, a, a)
    ensures Earlier(less, a, b) && Earlier(less, b, c) ==> Earlier(less, a, c)
    ensures a == b || Earlier(less, a, b) || Earlier(less, b, a)
  {}

  lemma {:induction false} InsertFacts(less: Collation, r: Row, rows: seq<Row>)
    requires StrictOrder(less) && Descending(less, rows)
    requires forall x :: x in rows ==> Position(x) != Position(r)
    ensures var all := Insert(less, r, rows);
      Descending(less, all) && |all| == |rows| + 1 && forall x :: x in all <==> x == r || x in rows
  {
    if rows == [] {
    } else if Ahead(less, r, rows[0]) {
      forall j | 0 <= j < |rows| ensures Ahead(less, r, rows[j]) {
        EarlierOrders(less, Position(rows[j]), Position(rows[0]), Position(r));
      }
    } else {
      var rest := rows[1..];
      InsertFacts(less, r, rest);
      var more := Insert(less, r, rest);
      assert rows == [rows[0]] + rest;
      EarlierOrders(less, Position(r), Position(rows[0]), Position(r));
      forall j | 0 <= j < |more| ensures Ahead(less, rows[0], more[j]) {
        assert more[j] in more;
        if more[j] != r {
          var k :| 0 <= k < |rest| && rest[k] == more[j];
          assert rows[k + 1] == more[j];
        }
      }
    }
  }

  lemma {:induction false} OrderedFacts(less: Collation, rows: seq<Row>)
    requires StrictOrder(less) && Keyed(rows)
    ensures Descending(less, Ordered(less, rows)) && |Ordered(less, rows)| == |rows|
    ensures forall x :: x in Ordered(less, rows) <==> x in rows
  {
    if rows == [] {
    } else {
      OrderedFacts(less, rows[1..]);
      forall x | x in Ordered(less, rows[1..]) ensures Position(x) != Position(rows[0]) {
        var k :| 0 <= k < |rows[1..]| && rows[1..][k] == x;
        assert rows[k + 1] == x;
      }
      InsertFacts(less, rows[0], Ordered(less, rows[1..]));
      assert rows == [rows[0]] + rows[1..];
    }
  }

  lemma {:induction false} ChosenRows(keep: Row -> bool, rows: seq<Row>)
    ensures |Chosen(keep, rows)| <= |rows|
    ensures forall x :: x in Chosen(keep, rows) <==> x in rows && keep(x)
  {
    if rows == [] {
    } else {
      ChosenRows(keep, rows[1..]);
      assert rows == [rows[0]] + rows[1..];
    }
  }

  lemma {:induction false} ChosenFacts(keep: Row -> bool, rows: seq<Row>)
    requires Keyed(rows)
    ensures Keyed(Chosen(keep, rows)) && |Chosen(keep, rows)| <= |rows|
    ensures forall x :: x in Chosen(keep, rows) <==> x in rows && keep(x)
  {
    ChosenRows(keep, rows);
    if rows == [] {
    } else {
      ChosenFacts(keep, rows[1..]);
      var rest := Chosen(keep, rows[1..]);
      forall j | 0 <= j < |rest| ensures Position(rest[j]) != Position(rows[0]) {
        assert rest[j] in rest;
        var k :| 0 <= k < |rows[1..]| && rows[1..][k] == rest[j];
        assert rows[k + 1] == rest[j];
      }
    }
  }

  /** The rows wanted below a cursor, in list order. */
  function Listing(less: Collation, wanted: Row -> bool, table: seq<Row>, after: Cursor): seq<Row> {
    Ordered(less, Chosen(Under(less, wanted, after), table))
  }

  lemma ListingFacts(less: Collation, wanted: Row -> bool, table: seq<Row>, after: Cursor)
    requires StrictOrder(less) && Keyed(table)
    ensures Descending(less, Listing(less, wanted, table, after)) && |Listing(less, wanted, table, after)| <= |table|
    ensures forall x :: x in Listing(less, wanted, table, after) <==>
      x in table && wanted(x) && BelowCursor(less, after, x)
  {
    ChosenFacts(Under(less, wanted, after), table);
    OrderedFacts(less, Chosen(Under(less, wanted, after), table));
  }

  /** A list in order is determined by its rows. */
  lemma {:induction false} OneListing(less: Collation, a: seq<Row>, b: seq<Row>)
    requires StrictOrder(less) && Descending(less, a) && Descending(less, b)
    requires forall x :: x in a <==> x in b
    ensures a == b
  {
    HasRow(a);
    HasRow(b);
    if a == [] {
    } else {
      assert a[0] in a;
      if b != [] {
        FirstOfBoth(less, a, b);
        forall x ensures x in a[1..] <==> x in b[1..] {
          RestOf(less, a, x);
          RestOf(less, b, x);
        }
        OneListing(less, a[1..], b[1..]);
        assert a == [a[0]] + a[1..] && b == [b[0]] + b[1..];
      }
    }
  }

  lemma HasRow(rows: seq<Row>)
    ensures rows == [] || exists x :: x in rows
  {
    if rows != [] {
      assert rows[0] in rows;
    }
  }

  lemma FirstOfBoth(less: Collation, a: seq<Row>, b: seq<Row>)
    requires StrictOrder(less) && Descending(less, a) && Descending(less, b) && a != [] && b != []
    requires forall x :: x in a <==> x in b
    ensures a[0] == b[0]
  {
    assert a[0] in a && b[0] in b;
    var i :| 0 <= i < |b| && b[i] == a[0];
    var j :| 0 <= j < |a| && a[j] == b[0];
    EarlierOrders(less, Position(a[0]), Position(b[0]), Position(a[0]));
  }

  lemma RestOf(less: Collation, a: seq<Row>, x: Row)
    requires StrictOrder(less) && Descending(less, a) && a != []
    ensures x in a[1..] <==> x in a && x != a[0]
  {
    EarlierOrders(less, Position(a[0]), Position(a[0]), Position(a[0]));
    if x in a[1..] {
      var k :| 0 <= k < |a[1..]| && a[1..][k] == x;
      assert a[k + 1] == x && Ahead(less, a[0], a[k + 1]);
    }
    if x in a && x != a[0] {
      var k :| 0 <= k < |a| && a[k] == x;
      assert a[1..][k - 1] == x;
    }
  }

  // ---- One page ----------------------------------------------------------

  lemma PageFacts(less: Collation, wanted: Row -> bool, limit: nat, table: seq<Row>, after: Cursor)
    requires limit >= 1 && StrictOrder(less) && Keyed(table)
    ensures var listed := Listing(less, wanted, table, after);
      var page := PageOf(less, wanted, limit, 0, table, after);
      && page.rows == listed[..Least(limit, |listed|)]
      && page.next == if |listed| > limit then Position(listed[limit - 1]) else START_OF_LIST
  {
    var listed := Listing(less, wanted, table, after);
    assert listed[0..] == listed;
  }

  /** Below the last row of a page lies exactly the rest of the list. */
  lemma RestOfListing(less: Collation, wanted: Row -> bool, table: seq<Row>, after: Cursor, k: nat)
    requires StrictOrder(less) && Keyed(table) && 1 <= k <= |Listing(less, wanted, table, after)|
    requires !IsZero(Position(Listing(less, wanted, table, after)[k - 1]))
    ensures var listed := Listing(less, wanted, table, after);
      Listing(less, wanted, table, Position(listed[k - 1])) == listed[k..]
  {
    var listed := Listing(less, wanted, table, after);
    var last := Position(listed[k - 1]);
    ListingFacts(less, wanted, table, after);
    ListingFacts(less, wanted, table, last);
    assert listed[k - 1] in listed;
    forall x ensures x in Listing(less, wanted, table, last) <==> x in listed[k..] {
      AfterRow(less, listed, k, x);
      EarlierOrders(less, Position(x), last, after);
    }
    OneListing(less, Listing(less, wanted, table, last), listed[k..]);
  }

  lemma AfterRow(less: Collation, listed: seq<Row>, k: nat, x: Row)
    requires StrictOrder(less) && Descending(less, listed) && 1 <= k <= |listed|
    ensures x in listed[k..] <==> x in listed && Earlier(less, Position(x), Position(listed[k - 1]))
  {
    var last := Position(listed[k - 1]);
    EarlierOrders(less, Position(x), last, Position(x));
    if x in listed[k..] {
      var j :| 0 <= j < |listed[k..]| && listed[k..][j] == x;
      assert listed[j + k] == x && Ahead(less, listed[k - 1], listed[j + k]);
    }
    if x in listed && Earlier(less, Position(x), last) {
      var j :| 0 <= j < |listed| && listed[j] == x;
      assert j >= k && listed[k..][j - k] == x;
    }
  }

  // ---- The walk ----------------------------------------------------------

  /** What a client gathered by following next cursors, and whether it reached the end. */
  datatype Trip = Trip(rows: seq<Row>, finished: bool)

  /** One request per table state, each sending back the token of the page before. */
  function Walk(less: Collation, codec: Codec, wanted: Row -> bool, limit: nat, tables: seq<seq<Row>>, token: string): Trip
    requires limit >= 1
    decreases |tables|
  {
    if tables == [] then Trip([], false)
    else
      match DecodeCursor(codec, token)
      case Err(_) => Trip([], false)
      case Ok(after) =>
        var page := PageOf(less, wanted, limit, 0, tables[0], after);
        var next := Encode(codec, page.next);
        if next == "" then Trip(page.rows, true)
        else
          var rest := Walk(less, codec, wanted, limit, tables[1..], next);
          Trip(page.rows + rest.rows, rest.finished)
  }

  /** What validation and the wire let into either table: ids that are not empty, moments
      in four-digit years. */
  predicate Identified(table: seq<Row>) { forall i :: 0 <= i < |table| ==> Marks(Position(table[i])) }

  predicate Marks(c: Cursor) { c.id != "" && InFourDigitYears(c.time) }

  ghost predicate Sound(tables: seq<seq<Row>>) {
    forall i :: 0 <= i < |tables| ==> Keyed(tables[i]) && Identified(tables[i])
  }

  /** A cursor the walk can be at: the start, or just after some row. */
  predicate Usable(c: Cursor) { IsZero(c) || Marks(c) }

  /** One step of the walk, from the cursor rather than its token. */
  lemma WalkStep(less: Collation, codec: Codec, wanted: Row -> bool, limit: nat, tables: seq<seq<Row>>, after: Cursor)
    requires limit >= 1 && Faithful(codec) && StrictOrder(less) && Sound(tables) && tables != [] && Usable(after)
    ensures var listed := Listing(less, wanted, tables[0], after);
      var trip := Walk(less, codec, wanted, limit, tables, Encode(codec, after));
      if |listed| <= limit then trip == Trip(listed, true)
      else
        var last := Position(listed[limit - 1]);
        var rest := Walk(less, codec, wanted, limit, tables[1..], Encode(codec, last));
        Marks(last) && trip == Trip(listed[..limit] + rest.rows, rest.finished)
  {
    var listed := Listing(less, wanted, tables[0], after);
    CursorRoundTrip(codec, after);
    PageFacts(less, wanted, limit, tables[0], after);
    ListingFacts(less, wanted, tables[0], after);
    var page := PageOf(less, wanted, limit, 0, tables[0], after);
    CursorRoundTrip(codec, page.next);
    if |listed| <= limit {
      assert listed[..|listed|] == listed;
    } else {
      assert listed[limit - 1] in listed;
      var i :| 0 <= i < |tables[0]| && tables[0][i] == listed[limit - 1];
    }
  }

  /** The same walk by cursors instead of tokens. */
  function Gather(less: Collation, wanted: Row -> bool, limit: nat, tables: seq<seq<Row>>, after: Cursor): Trip
    requires limit >= 1
    decreases |tables|
  {
    if tables == [] then Trip([], false)
    else
      var listed := Listing(less, wanted, tables[0], after);
      if |listed| <= limit then Trip(listed, true)
      else
        var rest := Gather(less, wanted, limit, tables[1..], Position(listed[limit - 1]));
        Trip(listed[..limit] + rest.rows, rest.finished)
  }

  lemma {:induction false} WalkGathers(less: Collation, codec: Codec, wanted: Row -> bool, limit: nat,
                                       tables: seq<seq<Row>>, after: Cursor)
    requires limit >= 1 && Faithful(codec) && StrictOrder(less) && Sound(tables) && Usable(after)
    ensures Walk(less, codec, wanted, limit, tables, Encode(codec, after)) == Gather(less, wanted, limit, tables, after)
    decreases |tables|
  {
    if tables == [] {
    } else {
      WalkStep(less, codec, wanted, limit, tables, after);
      var listed := Listing(less, wanted, tables[0], after);
      if |listed| > limit {
        WalkGathers(less, codec, wanted, limit, tables[1..], Position(listed[limit - 1]));
      }
    }
  }

  // ---- A fixed table -----------------------------------------------------

  lemma {:induction false} GathersListing(less: Collation, wanted: Row -> bool, limit: nat,
                                          table: seq<Row>, tables: seq<seq<Row>>, after: Cursor)
    requires limit >= 1 && StrictOrder(less) && Keyed(table) && Identified(table)
    requires tables != [] && forall i :: 0 <= i < |tables| ==> tables[i] == table
    requires |Listing(less, wanted, table, after)| <= |tables| * limit
    ensures Gather(less, wanted, limit, tables, after) == Trip(Listing(less, wanted, table, after), true)
    decreases |tables|
  {
    var listed := Listing(less, wanted, table, after);
    if |listed| > limit {
      var last := Position(listed[limit - 1]);
      ListedHasID(less, wanted, table, after, limit - 1);
      RestOfListing(less, wanted, table, after, limit);
      assert |tables| * limit == (|tables| - 1) * limit + limit;
      GathersListing(less, wanted, limit, table, tables[1..], last);
      assert listed == listed[..limit] + listed[limit..];
    }
  }

  lemma ListedHasID(less: Collation, wanted: Row -> bool, table: seq<Row>, after: Cursor, k: nat)
    requires StrictOrder(less) && Keyed(table) && Identified(table) && k < |Listing(less, wanted, table, after)|
    ensures Marks(Position(Listing(less, wanted, table, after)[k]))
  {
    ListingFacts(less, wanted, table, after);
    assert Listing(less, wanted, table, after)[k] in Listing(less, wanted, table, after);
  }

  /** On a fixed table the walk ends, after no more requests than the rows need pages,
      and has gathered the whole table filtered and sorted. */
  lemma FixedTableWalk(less: Collation, codec: Codec, wanted: Row -> bool, limit: nat,
                       table: seq<Row>, tables: seq<seq<Row>>)
    requires limit >= 1 && Faithful(codec) && StrictOrder(less) && Keyed(table) && Identified(table)
    requires tables != [] && forall i :: 0 <= i < |tables| ==> tables[i] == table
    requires |Chosen(wanted, table)| <= |tables| * limit
    ensures Walk(less, codec, wanted, limit, tables, "") == Trip(Ordered(less, Chosen(wanted, table)), true)
  {
    var start := START_OF_LIST;
    assert Encode(codec, start) == "";
    ChosenSame(Under(less, wanted, start), wanted, table);
    ChosenFacts(wanted, table);
    OrderedFacts(less, Chosen(wanted, table));
    WalkGathers(less, codec, wanted, limit, tables, start);
    GathersListing(less, wanted, limit, table, tables, start);
  }

  // ---- A changing table --------------------------------------------------

  lemma Joined(less: Collation, listed: seq<Row>, limit: nat, rest: seq<Row>, after: Cursor)
    requires StrictOrder(less) && 1 <= limit <= |listed| && Descending(less, listed) && Descending(less, rest)
    requires forall x :: x in listed ==> BelowCursor(less, after, x)
    requires forall x :: x in rest ==> Earlier(less, Position(x), Position(listed[limit - 1]))
    ensures Descending(less, listed[..limit] + rest)
    ensures forall x :: x in listed[..limit] + rest ==> BelowCursor(less, after, x)
  {
    var page, last := listed[..limit], listed[limit - 1];
    assert last in listed;
    forall x | x in rest ensures BelowCursor(less, after, x) {
      EarlierOrders(less, Position(x), Position(last), after);
    }
    forall i, j | 0 <= i < |page| && 0 <= j < |rest| ensures Ahead(less, page[i], rest[j]) {
      assert rest[j] in rest;
      EarlierOrders(less, Position(rest[j]), Position(last), Position(page[i]));
    }
  }

  lemma FirstPageBelow(less: Collation, wanted: Row -> bool, table: seq<Row>, after: Cursor)
    requires StrictOrder(less) && Keyed(table)
    ensures var listed := Listing(less, wanted, table, after);
      Descending(less, listed) && forall x :: x in listed ==> BelowCursor(less, after, x)
  {
    ListingFacts(less, wanted, table, after);
  }

  lemma {:induction false} GatherDescends(less: Collation, wanted: Row -> bool, limit: nat,
                                          tables: seq<seq<Row>>, after: Cursor)
    requires limit >= 1 && StrictOrder(less) && Sound(tables)
    ensures var rows := Gather(less, wanted, limit, tables, after).rows;
      Descending(less, rows) && forall x :: x in rows ==> BelowCursor(less, after, x)
    decreases |tables|
  {
    if tables == [] {
    } else {
      var listed := Listing(less, wanted, tables[0], after);
      FirstPageBelow(less, wanted, tables[0], after);
      if |listed| > limit {
        var last := Position(listed[limit - 1]);
        ListedHasID(less, wanted, tables[0], after, limit - 1);
        GatherDescends(less, wanted, limit, tables[1..], last);
        Joined(less, listed, limit, Gather(less, wanted, limit, tables[1..], last).rows, after);
      }
    }
  }

  /** However the table changes between requests, the rows gathered strictly descend, so
      no event (moment and id) comes up twice. */
  lemma WalkNeverRepeatsAPosition(less: Collation, codec: Codec, wanted: Row -> bool, limit: nat, tables: seq<seq<Row>>)
    requires limit >= 1 && Faithful(codec) && StrictOrder(less) && Sound(tables)
    ensures var rows := Walk(less, codec, wanted, limit, tables, "").rows;
      Descending(less, rows) && Keyed(rows)
  {
    var start := START_OF_LIST;
    assert Encode(codec, start) == "";
    WalkGathers(less, codec, wanted, limit, tables, start);
    GatherDescends(less, wanted, limit, tables, start);
    var rows := Gather(less, wanted, limit, tables, start).rows;
    forall i, j | 0 <= i < j < |rows| ensures Position(rows[i]) != Position(rows[j]) {
      EarlierOrders(less, Position(rows[i]), Position(rows[j]), Position(rows[i]));
    }
  }

  predicate UniqueIDs(rows: seq<Row>) { forall i, j :: 0 <= i < j < |rows| ==> rows[i].id != rows[j].id }

  /** A row's moment never goes back from one table state to a later one. */
  ghost predicate TimesGrow(tables: seq<seq<Row>>) {
    forall i, j, x, y :: 0 <= i <= j < |tables| && x in tables[i] && y in tables[j] && x.id == y.id ==> x.time <= y.time
  }

  lemma {:induction false} GatheredFromTables(less: Collation, wanted: Row -> bool, limit: nat,
                                              tables: seq<seq<Row>>, after: Cursor)
    requires limit >= 1 && StrictOrder(less) && Sound(tables)
    ensures forall x :: x in Gather(less, wanted, limit, tables, after).rows ==>
      wanted(x) && exists j :: 0 <= j < |tables| && x in tables[j]
    decreases |tables|
  {
    if tables == [] {
    } else {
      var listed := Listing(less, wanted, tables[0], after);
      ListingFacts(less, wanted, tables[0], after);
      if |listed| > limit {
        var last := Position(listed[limit - 1]);
        GatheredFromTables(less, wanted, limit, tables[1..], last);
        forall x | x in Gather(less, wanted, limit, tables[1..], last).rows
          ensures exists j :: 0 <= j < |tables| && x in tables[j]
        {
          var j :| 0 <= j < |tables[1..]| && x in tables[1..][j];
          assert x in tables[j + 1];
        }
      }
    }
  }

  lemma LaterPagesHaveOtherIDs(less: Collation, tables: seq<seq<Row>>, listed: seq<Row>, limit: nat, rest: seq<Row>)
    requires StrictOrder(less) && tables != [] && TimesGrow(tables) && 1 <= limit <= |listed|
    requires Descending(less, listed) && UniqueIDs(listed) && UniqueIDs(rest)
    requires forall x :: x in listed ==> x in tables[0]
    requires forall y :: y in rest ==>
      Earlier(less, Position(y), Position(listed[limit - 1])) && exists j :: 0 <= j < |tables| && y in tables[j]
    ensures UniqueIDs(listed[..limit] + rest)
  {
    var page, last := listed[..limit], Position(listed[limit - 1]);
    forall i, k | 0 <= i < |page| && 0 <= k < |rest| ensures page[i].id != rest[k].id {
      var x, y := page[i], rest[k];
      assert x in listed && y in rest;
      var j :| 0 <= j < |tables| && y in tables[j];
      EarlierOrders(less, Position(y), last, Position(x));
      EarlierOrders(less, Position(y), Position(x), Position(y));
      assert y.id == x.id ==> x.time <= y.time;
    }
  }

  lemma LaterPagesComeFromTables(less: Collation, wanted: Row -> bool, limit: nat, tables: seq<seq<Row>>, last: Cursor)
    requires limit >= 1 && StrictOrder(less) && Sound(tables) && tables != [] && last.id != ""
    ensures forall y :: y in Gather(less, wanted, limit, tables[1..], last).rows ==>
      Earlier(less, Position(y), last) && exists j :: 0 <= j < |tables| && y in tables[j]
  {
    GatherDescends(less, wanted, limit, tables[1..], last);
    GatheredFromTables(less, wanted, limit, tables[1..], last);
    forall y | y in Gather(less, wanted, limit, tables[1..], last).rows
      ensures exists j :: 0 <= j < |tables| && y in tables[j]
    {
      var j :| 0 <= j < |tables[1..]| && y in tables[1..][j];
      assert y in tables[j + 1];
    }
  }

  lemma TimesGrowOn(tables: seq<seq<Row>>)
    requires tables != [] && TimesGrow(tables)
    ensures TimesGrow(tables[1..])
  {
    forall i, j, x, y | 0 <= i <= j < |tables[1..]| && x in tables[1..][i] && y in tables[1..][j] && x.id == y.id
      ensures x.time <= y.time
    {
      assert x in tables[i + 1] && y in tables[j + 1];
    }
  }

  /** Within one state, growing times make ids as distinct as positions are. */
  lemma FirstPageIDs(less: Collation, wanted: Row -> bool, tables: seq<seq<Row>>, after: Cursor)
    requires StrictOrder(less) && tables != [] && Keyed(tables[0]) && TimesGrow(tables)
    ensures var listed := Listing(less, wanted, tables[0], after);
      Descending(less, listed) && UniqueIDs(listed) && forall x :: x in listed ==> x in tables[0]
  {
    var listed := Listing(less, wanted, tables[0], after);
    ListingFacts(less, wanted, tables[0], after);
    forall i, j | 0 <= i < j < |listed| ensures listed[i].id != listed[j].id {
      assert listed[i] in listed && listed[j] in listed;
    }
  }

  lemma {:induction false} GatherUniqueIDs(less: Collation, wanted: Row -> bool, limit: nat,
                                           tables: seq<seq<Row>>, after: Cursor)
    requires limit >= 1 && StrictOrder(less) && Sound(tables) && TimesGrow(tables)
    ensures UniqueIDs(Gather(less, wanted, limit, tables, after).rows)
    decreases |tables|
  {
    if tables == [] {
    } else {
      var listed := Listing(less, wanted, tables[0], after);
      FirstPageIDs(less, wanted, tables, after);
      if |listed| > limit {
        var last := Position(listed[limit - 1]);
        TimesGrowOn(tables);
        GatherUniqueIDs(less, wanted, limit, tables[1..], last);
        PagesHaveOtherIDs(less, wanted, limit, tables, listed);
      }
    }
  }

  lemma PagesHaveOtherIDs(less: Collation, wanted: Row -> bool, limit: nat, tables: seq<seq<Row>>, listed: seq<Row>)
    requires 1 <= limit < |listed| && StrictOrder(less) && Sound(tables) && TimesGrow(tables) && tables != []
    requires Descending(less, listed) && UniqueIDs(listed) && forall x :: x in listed ==> x in tables[0]
    requires UniqueIDs(Gather(less, wanted, limit, tables[1..], Position(listed[limit - 1])).rows)
    ensures UniqueIDs(listed[..limit] + Gather(less, wanted, limit, tables[1..], Position(listed[limit - 1])).rows)
  {
    var last := listed[limit - 1];
    assert last in listed;
    var i :| 0 <= i < |tables[0]| && tables[0][i] == last;
    assert Marks(Position(tables[0][i]));
    LaterPagesComeFromTables(less, wanted, limit, tables, Position(last));
    LaterPagesHaveOtherIDs(less, tables, listed, limit, Gather(less, wanted, limit, tables[1..], Position(last)).rows);
  }

  /** An incident's moment only grows, so none comes up twice even though rows move. */
  lemma WalkNeverRepeatsAnIncident(less: Collation, codec: Codec, wanted: Row -> bool, limit: nat, tables: seq<seq<Row>>)
    requires limit >= 1 && Faithful(codec) && StrictOrder(less) && Sound(tables) && TimesGrow(tables)
    ensures UniqueIDs(Walk(less, codec, wanted, limit, tables, "").rows)
  {
    var start := START_OF_LIST;
    assert Encode(codec, start) == "";
    WalkGathers(less, codec, wanted, limit, tables, start);
    GatherUniqueIDs(less, wanted, limit, tables, start);
  }

  /** A wanted row stands at a position. */
  predicate Stands(table: seq<Row>, wanted: Row -> bool, at: Cursor) {
    exists x :: x in table && Position(x) == at && wanted(x)
  }

  lemma {:induction false} GatherFindsWhatStays(less: Collation, wanted: Row -> bool, limit: nat,
                                                tables: seq<seq<Row>>, after: Cursor, at: Cursor)
    requires limit >= 1 && StrictOrder(less) && Sound(tables)
    requires Gather(less, wanted, limit, tables, after).finished
    requires IsZero(after) || Earlier(less, at, after)
    requires forall i :: 0 <= i < |tables| ==> Stands(tables[i], wanted, at)
    ensures Stands(Gather(less, wanted, limit, tables, after).rows, wanted, at)
    decreases |tables|
  {
    var listed := Listing(less, wanted, tables[0], after);
    var k := StandsInListing(less, wanted, tables[0], after, at);
    if |listed| > limit {
      if k < limit {
        assert listed[..limit][k] == listed[k];
      } else {
        assert Ahead(less, listed[limit - 1], listed[k]);
        GatherFindsWhatStays(less, wanted, limit, tables[1..], Position(listed[limit - 1]), at);
      }
    }
  }

  lemma StandsInListing(less: Collation, wanted: Row -> bool, table: seq<Row>, after: Cursor, at: Cursor) returns (k: nat)
    requires StrictOrder(less) && Keyed(table) && Stands(table, wanted, at)
    requires IsZero(after) || Earlier(less, at, after)
    ensures var listed := Listing(less, wanted, table, after);
      Descending(less, listed) && k < |listed| && Position(listed[k]) == at && wanted(listed[k]) && listed[k] in listed
  {
    var listed := Listing(less, wanted, table, after);
    ListingFacts(less, wanted, table, after);
    var x :| x in table && Position(x) == at && wanted(x);
    assert x in listed;
    k :| 0 <= k < |listed| && listed[k] == x;
  }

  /** In a walk that reached the end, whatever stayed wanted at the same position through
      every request comes up, and comes up once: a row is missed only if in some request's
      table it had moved, stopped matching or was not there. */
  lemma StayedMeansListedOnce(less: Collation, codec: Codec, wanted: Row -> bool, limit: nat,
                              tables: seq<seq<Row>>, at: Cursor)
    requires limit >= 1 && Faithful(codec) && StrictOrder(less) && Sound(tables)
    requires Walk(less, codec, wanted, limit, tables, "").finished
    requires forall i :: 0 <= i < |tables| ==> Stands(tables[i], wanted, at)
    ensures var rows := Walk(less, codec, wanted, limit, tables, "").rows;
      exists k :: 0 <= k < |rows| && Position(rows[k]) == at && forall j :: 0 <= j < |rows| && j != k ==> Position(rows[j]) != at
  {
    var start := START_OF_LIST;
    assert Encode(codec, start) == "";
    WalkGathers(less, codec, wanted, limit, tables, start);
    GatherFindsWhatStays(less, wanted, limit, tables, start, at);
    WalkNeverRepeatsAPosition(less, codec, wanted, limit, tables);
    var rows := Walk(less, codec, wanted, limit, tables, "").rows;
    var x :| x in rows && Position(x) == at && wanted(x);
    var k :| 0 <= k < |rows| && rows[k] == x;
    assert forall j :: 0 <= j < |rows| && j != k ==> Position(rows[j]) != at;
  }
}
