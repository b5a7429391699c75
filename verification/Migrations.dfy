/** Schema migrations: applying and rolling back in order, a version row per change, with
    failures and crashes anywhere. */
module Migrations {
  import opened Wrappers

  datatype Migration = Migration(version: string, name: string)

  predicate Distinct(migrations: seq<Migration>) {
    forall i, j :: 0 <= i < j < |migrations| ==> migrations[i].version != migrations[j].version
  }

  function Versions(migrations: seq<Migration>): set<string> { set m | m in migrations :: m.version }

  /** The schema as the changes made to it in order, and the version rows. */
  class Database {
    var schema: seq<Migration>
    var versions: set<string>

    /** How many statements have been answered with an error. */
    ghost var faults: nat

    /** Exactly the first `k` migrations are in the schema and on record. */
    ghost predicate Holds(migrations: seq<Migration>, k: nat)
      reads this
    {
      k <= |migrations| && schema == migrations[..k] && versions == Versions(migrations[..k])
    }

    constructor ()
      ensures schema == [] && versions == {}
    {
      schema, versions := [], {};
      faults := 0;
    }

    /** The version rows, unless reading them fails. */
    method Applied() returns (r: Option<set<string>>)
      modifies this`faults
      ensures r.Some? ==> r.value == versions
      ensures faults == old(faults) + if r.None? then 1 else 0
    {
      if * {
        faults := faults + 1;
        return None;
      }
      r := Some(versions);
    }

    /** A transaction making the change and inserting its row: both happen or neither,
        whatever the reply says. */
    method Apply(m: Migration) returns (ok: bool)
      modifies this
      ensures (schema == old(schema) + [m] && versions == old(versions) + {m.version}) ||
              (!ok && schema == old(schema) && versions == old(versions))
      ensures faults == old(faults) + if ok then 0 else 1
    {
      ok := *;
      if !ok { faults := faults + 1; }
      var committed: bool := *;
      if ok || committed { schema, versions := schema + [m], versions + {m.version}; }
    }

    /** A transaction undoing the newest change and deleting its row. */
    method Revert(m: Migration) returns (ok: bool)
      requires schema != [] && schema[|schema| - 1] == m
      modifies this
      ensures (schema == old(schema)[..|old(schema)| - 1] && versions == old(versions) - {m.version}) ||
              (!ok && schema == old(schema) && versions == old(versions))
      ensures faults == old(faults) + if ok then 0 else 1
    {
      ok := *;
      if !ok { faults := faults + 1; }
      var committed: bool := *;
      if ok || committed { schema, versions := schema[..|schema| - 1], versions - {m.version}; }
    }
  }

  lemma OneMore(migrations: seq<Migration>, k: nat)
    requires Distinct(migrations) && k < |migrations|
    ensures migrations[..k + 1] == migrations[..k] + [migrations[k]]
    ensures Versions(migrations[..k + 1]) == Versions(migrations[..k]) + {migrations[k].version}
    ensures Versions(migrations[..k + 1]) - {migrations[k].version} == Versions(migrations[..k])
  {
    assert migrations[..k + 1] == migrations[..k] + [migrations[k]];
    assert forall m :: m in migrations[..k] ==> m.version != migrations[k].version;
  }

  lemma RecordedExactlyBelow(migrations: seq<Migration>, k: nat, i: nat)
    requires Distinct(migrations) && k <= |migrations| && i < |migrations|
    ensures migrations[i].version in Versions(migrations[..k]) <==> i < k
  {
    if i < k {
      assert migrations[..k][i] == migrations[i] && migrations[i] in migrations[..k];
    } else {
      assert forall m :: m in migrations[..k] ==> m.version != migrations[i].version;
    }
  }

  /** Applies what is missing. However it ends, what is applied is a prefix, no shorter
      than before; when it succeeds, everything. */
  method Up(db: Database, migrations: seq<Migration>, ghost k: nat) returns (ok: bool, ghost now: nat)
    requires Distinct(migrations) && db.Holds(migrations, k)
    modifies db
    ensures k <= now && db.Holds(migrations, now)
    ensures ok ==> now == |migrations|
    ensures ok <==> db.faults == old(db.faults)
    ensures k == |migrations| ==> db.schema == old(db.schema)
  {
    now := k;
    ok := false;
    var recorded := db.Applied();
    if recorded.None? { return; }
    var applied := recorded.value;
    for i := 0 to |migrations|
      invariant now == if i < k then k else i
      invariant db.faults == old(db.faults)
      invariant db.Holds(migrations, now)
    {
      RecordedExactlyBelow(migrations, k, i);
      if migrations[i].version in applied { continue; }
      OneMore(migrations, now);
      var done := db.Apply(migrations[i]);
      if !done {
        if db.schema == migrations[..now + 1] { now := now + 1; }
        return;
      }
      now := now + 1;
    }
    ok := true;
  }

  /** Takes back the newest of `i + 1` applied migrations, or leaves it. */
  method RevertNewest(db: Database, migrations: seq<Migration>, i: nat) returns (ok: bool, ghost now: nat)
    requires Distinct(migrations) && i < |migrations| && db.Holds(migrations, i + 1)
    modifies db
    ensures db.Holds(migrations, now) && i <= now <= i + 1
    ensures ok ==> now == i
    ensures db.faults == old(db.faults) + if ok then 0 else 1
  {
    OneMore(migrations, i);
    ok := db.Revert(migrations[i]);
    now := if db.schema == migrations[..i] then i else i + 1;
  }

  /** Rolls back the newest applied ones, newest first: when it succeeds, exactly the
      last `steps` of them or all there were; otherwise fewer, and still a prefix. */
  method Down(db: Database, migrations: seq<Migration>, steps: int, ghost k: nat) returns (ok: bool, ghost now: nat)
    requires Distinct(migrations) && db.Holds(migrations, k)
    modifies db
    ensures db.Holds(migrations, now)
    ensures Rest(k, steps) <= now <= k
    ensures ok ==> steps >= 1 && now == if steps < k then k - steps else 0
    ensures ok <==> steps >= 1 && db.faults == old(db.faults)
    ensures steps < 1 ==> !ok && db.schema == old(db.schema) && db.versions == old(db.versions)
  {
    now := k;
    ok := false;
    if steps < 1 { return; }
    var recorded := db.Applied();
    if recorded.None? { return; }
    var applied := recorded.value;
    var rolledBack := 0;
    var i := |migrations| - 1;
    while i >= 0 && rolledBack < steps
      invariant -1 <= i < |migrations| && 0 <= rolledBack <= steps && rolledBack <= k
      invariant now == k - rolledBack && db.faults == old(db.faults)
      invariant now == if i < k then i + 1 else k
      invariant db.Holds(migrations, now)
    {
      RecordedExactlyBelow(migrations, k, i);
      if migrations[i].version in applied {
        var done;
        done, now := RevertNewest(db, migrations, i);
        if !done { return; }
        rolledBack := rolledBack + 1;
      }
      i := i - 1;
    }
    ok := true;
  }

  /** What is left of `k` after rolling back `steps`. */
  function Rest(k: nat, steps: int): nat { if steps < 1 then k else if steps < k then k - steps else 0 }

  datatype Request = UpRequest | DownRequest(steps: int)

  /** Any sequence of runs, each of which may fail or crash anywhere: what is applied is
      always a prefix of the list, and an `Up` that succeeds last restores all of it. */
  method Serve(db: Database, migrations: seq<Migration>, requests: seq<Request>, ghost k: nat)
    returns (ok: bool, ghost now: nat)
    requires Distinct(migrations) && db.Holds(migrations, k)
    modifies db
    ensures db.Holds(migrations, now)
    ensures ok && requests != [] && requests[|requests| - 1].UpRequest? ==> now == |migrations|
  {
    now := k;
    ok := true;
    for i := 0 to |requests|
      invariant db.Holds(migrations, now)
      invariant ok && i > 0 && requests[i - 1].UpRequest? ==> now == |migrations|
    {
      match requests[i]
      case UpRequest => ok, now := Up(db, migrations, now);
      case DownRequest(steps) => ok, now := Down(db, migrations, steps, now);
    }
  }

  // ---- The order migrations are loaded in -------------------------------------

  /** Byte order of text. */
  predicate Before(a: string, b: string) {
    b != "" && (a == "" || a[0] < b[0] || (a[0] == b[0] && Before(a[1..], b[1..])))
  }

  /** One version starts the other, which goes on with a character below the separator:
      a digit, for one. */
  predicate Tangled(v: string, w: string) { v < w && w[|v|] < '_' }

  /** Files are applied in the order of their versions exactly when neither version is
      tangled with the other. A version is cut at the first separator, so it has none. */
  lemma {:induction false} FileOrderExactlyWhen(v: string, w: string, x: string, y: string)
    requires v != w && '_' !in v && '_' !in w
    ensures (Before(v + "_" + x, w + "_" + y) <==> Before(v, w)) <==> !Tangled(v, w) && !Tangled(w, v)
  {
    var a, b := v + "_" + x, w + "_" + y;
    if v == "" {
      assert a[0] == '_' && b[0] == w[0];
    } else if w == "" {
      assert b[0] == '_' && a[0] == v[0];
    } else {
      assert a[0] == v[0] && b[0] == w[0];
      assert a[1..] == v[1..] + "_" + x && b[1..] == w[1..] + "_" + y;
      assert v == [v[0]] + v[1..] && w == [w[0]] + w[1..];
      if v[0] == w[0] {
        FileOrderExactlyWhen(v[1..], w[1..], x, y);
        TangledTails(v, w);
        TangledTails(w, v);
      }
    }
  }

  lemma TangledTails(v: string, w: string)
    requires v != "" && w != "" && v[0] == w[0]
    ensures Tangled(v, w) <==> Tangled(v[1..], w[1..])
  {
    assert v == [v[0]] + v[1..] && w == [w[0]] + w[1..];
  }

  /** So versions of one width are applied in their order. */
  lemma FileOrderIsVersionOrder(v: string, w: string, x: string, y: string)
    requires |v| == |w| && v != w && '_' !in v && '_' !in w
    ensures Before(v + "_" + x, w + "_" + y) <==> Before(v, w)
  {
    FileOrderExactlyWhen(v, w, x, y);
  }

  /** Of different widths they need not be: "1" comes before "10", its file after. */
  lemma WidthsMatter()
    ensures Before("1", "10") && !Before("1_a", "10_b")
  {
    assert Tangled("1", "10");
    assert "1"[1..] == "" && "10"[1..] == "0";
    FileOrderExactlyWhen("1", "10", "a", "b");
    assert "1" + "_" + "a" == "1_a" && "10" + "_" + "b" == "10_b";
  }
}
