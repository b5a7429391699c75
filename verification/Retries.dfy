/** Retrying a statement whose reply can be lost: how often it applies. */
module Retries {
  /** One try: whether it applied, and whether that was heard, which ends the retries. */
  datatype Try = Try(applies: bool, heard: bool)

  /** How many tries apply up to the first that is heard of. */
  function Applied(tries: seq<Try>): nat {
    if tries == [] then 0
    else (if tries[0].applies then 1 else 0) + if tries[0].heard then 0 else Applied(tries[1..])
  }

  /** Some try is heard of. */
  ghost predicate HeardOf(tries: seq<Try>) { exists i :: 0 <= i < |tries| && tries[i].heard }

  lemma HeardOfSplits(tries: seq<Try>)
    ensures HeardOf(tries) <==> tries != [] && (tries[0].heard || HeardOf(tries[1..]))
  {
    if i :| 0 < i < |tries| && tries[i].heard {
      assert tries[1..][i - 1].heard;
    }
  }

  /** Try `j` is made, none before it having been heard of, and applies. */
  predicate Lands(tries: seq<Try>, j: nat) {
    j < |tries| && tries[j].applies && forall i :: 0 <= i < j ==> !tries[i].heard
  }

  /** A try applied unheard, and a later one was made and applied as well. */
  ghost predicate Repeats(tries: seq<Try>) { exists i: nat, j: nat :: i < j && Lands(tries, i) && Lands(tries, j) }

  lemma LandsLater(tries: seq<Try>, j: nat)
    requires tries != []
    ensures Lands(tries, j + 1) <==> !tries[0].heard && Lands(tries[1..], j)
  {
    assert forall i :: 0 <= i < |tries| - 1 ==> tries[1..][i] == tries[i + 1];
    if !tries[0].heard && Lands(tries[1..], j) {
      forall i | 0 <= i < j + 1 ensures !tries[i].heard {
        if i > 0 { assert !tries[1..][i - 1].heard; }
      }
    }
    if Lands(tries, j + 1) {
      forall i | 0 <= i < j ensures !tries[1..][i].heard {
        assert !tries[i + 1].heard;
      }
    }
  }

  lemma {:induction false} AppliedBounds(tries: seq<Try>)
    ensures Applied(tries) <= |tries|
    ensures Applied(tries) >= 1 <==> exists j: nat :: Lands(tries, j)
  {
    if tries == [] {
    } else {
      var rest := tries[1..];
      AppliedBounds(rest);
      if tries[0].applies {
        assert Lands(tries, 0);
      } else {
        if j: nat :| Lands(rest, j) && !tries[0].heard { LandsLater(tries, j); }
        if j: nat :| Lands(tries, j) { LandsLater(tries, j - 1); }
      }
    }
  }

  /** More than one try applies exactly when one that applied went unheard and a later
      one applied too. */
  lemma {:induction false} AppliedTwiceExactlyWhen(tries: seq<Try>)
    ensures Applied(tries) >= 2 <==> Repeats(tries)
  {
    if tries == [] {
    } else {
      AppliedTwiceExactlyWhen(tries[1..]);
      AppliedBounds(tries[1..]);
      if Applied(tries) >= 2 { RepeatsFrom(tries); }
      if Repeats(tries) { RepeatsTo(tries); }
    }
  }

  lemma RepeatsFrom(tries: seq<Try>)
    requires tries != [] && !tries[0].heard
    requires Repeats(tries[1..]) || (tries[0].applies && Applied(tries[1..]) >= 1)
    ensures Repeats(tries)
  {
    if i: nat, j: nat :| i < j && Lands(tries[1..], i) && Lands(tries[1..], j) {
      LandsLater(tries, i);
      LandsLater(tries, j);
    } else {
      AppliedBounds(tries[1..]);
      var j: nat :| Lands(tries[1..], j);
      LandsLater(tries, j);
      assert Lands(tries, 0) && Lands(tries, j + 1);
    }
  }

  lemma RepeatsTo(tries: seq<Try>)
    requires tries != [] && Repeats(tries)
    ensures !tries[0].heard
    ensures Repeats(tries[1..]) || (tries[0].applies && Applied(tries[1..]) >= 1)
  {
    var i: nat, j: nat :| i < j && Lands(tries, i) && Lands(tries, j);
    LandsLater(tries, j - 1);
    if i > 0 {
      LandsLater(tries, i - 1);
    } else {
      AppliedBounds(tries[1..]);
    }
  }
}
