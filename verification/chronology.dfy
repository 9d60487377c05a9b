// Reading rows by the instant they carry, as `ORDER BY instant, id` does.
module Chronology {
  // The row goes behind every row that is not later.
  function Insert<T>(at: T -> real, sorted: seq<T>, x: T): seq<T> {
    if sorted == [] || at(sorted[|sorted| - 1]) <= at(x) then sorted + [x]
    else Insert(at, sorted[..|sorted| - 1], x) + [sorted[|sorted| - 1]]
  }

  // Rows by instant; rows of one instant keep their order.
  function ByTime<T>(at: T -> real, rows: seq<T>): seq<T> {
    if rows == [] then [] else Insert(at, ByTime(at, rows[..|rows| - 1]), rows[|rows| - 1])
  }

  ghost predicate InOrder<T>(at: T -> real, rows: seq<T>) {
    forall i, j :: 0 <= i < j < |rows| ==> at(rows[i]) <= at(rows[j])
  }

  lemma Inserted<T>(at: T -> real, rows: seq<T>, x: T)
    ensures ByTime(at, rows + [x]) == Insert(at, ByTime(at, rows), x)
  {
    assert (rows + [x])[..|rows|] == rows;
  }

  lemma InsertedBefore<T>(at: T -> real, sorted: seq<T>, last: T, x: T)
    requires at(x) < at(last)
    ensures Insert(at, sorted + [last], x) == Insert(at, sorted, x) + [last]
  {
    assert (sorted + [last])[..|sorted|] == sorted;
  }

  // Two rows stand in the order of their instants, or of `first` where those are equal.
  ghost predicate Precedes<T>(at: T -> real, first: (T, T) -> bool, a: T, b: T) {
    at(a) < at(b) || (at(a) == at(b) && first(a, b))
  }

  ghost predicate Chronological<T>(at: T -> real, first: (T, T) -> bool, rows: seq<T>) {
    forall i, j :: 0 <= i < j < |rows| ==> Precedes(at, first, rows[i], rows[j])
  }

  ghost predicate StandInOrder<T>(at: T -> real, first: (T, T) -> bool, rows: seq<T>, i: int, j: int) {
    0 <= i < j < |rows| ==> Precedes(at, first, rows[i], rows[j])
  }

  // The rows stay the same, and so does how often each occurs.
  lemma {:induction false} InsertKeeps<T>(at: T -> real, sorted: seq<T>, x: T)
    ensures multiset(Insert(at, sorted, x)) == multiset(sorted) + multiset{x}
  {
    if sorted != [] && at(sorted[|sorted| - 1]) > at(x) {
      InsertKeeps(at, sorted[..|sorted| - 1], x);
      assert sorted == sorted[..|sorted| - 1] + [sorted[|sorted| - 1]];
    }
  }

  lemma {:induction false} InsertChronological<T>(at: T -> real, first: (T, T) -> bool, sorted: seq<T>, x: T)
    requires Chronological(at, first, sorted)
    requires forall y :: y in sorted ==> first(y, x)
    ensures Chronological(at, first, Insert(at, sorted, x))
  {
    if sorted == [] || at(sorted[|sorted| - 1]) <= at(x) {
      forall i | 0 <= i < |sorted|
        ensures Precedes(at, first, sorted[i], x)
      {
        assert sorted[i] in sorted;
        assert i == |sorted| - 1 || Precedes(at, first, sorted[i], sorted[|sorted| - 1]);
      }
    } else {
      var front, last := sorted[..|sorted| - 1], sorted[|sorted| - 1];
      InsertChronological(at, first, front, x);
      InsertKeeps(at, front, x);
      var inserted := Insert(at, front, x);
      forall i | 0 <= i < |inserted|
        ensures Precedes(at, first, inserted[i], last)
      {
        assert inserted[i] in multiset(inserted);
        if inserted[i] != x {
          assert inserted[i] in front;
          var j :| 0 <= j < |front| && front[j] == inserted[i];
          assert Precedes(at, first, sorted[j], last);
        }
      }
    }
  }

  lemma {:induction false} ByTimeKeeps<T>(at: T -> real, rows: seq<T>)
    ensures multiset(ByTime(at, rows)) == multiset(rows)
  {
    if rows != [] {
      var front, x := rows[..|rows| - 1], rows[|rows| - 1];
      ByTimeKeeps(at, front);
      InsertKeeps(at, ByTime(at, front), x);
      assert rows == front + [x];
    }
  }

  lemma SameRows<T>(at: T -> real, rows: seq<T>, x: T)
    ensures x in ByTime(at, rows) <==> x in rows
  {
    ByTimeKeeps(at, rows);
    assert x in multiset(ByTime(at, rows)) <==> x in multiset(rows);
  }

  // What is read: the same rows, by instant, those of one instant in the order they came.
  lemma {:induction false} ByTimeSorts<T>(at: T -> real, first: (T, T) -> bool, rows: seq<T>)
    requires forall i, j :: 0 <= i < j < |rows| ==> first(rows[i], rows[j])
    ensures multiset(ByTime(at, rows)) == multiset(rows)
    ensures Chronological(at, first, ByTime(at, rows))
  {
    ByTimeKeeps(at, rows);
    if rows != [] {
      var front, x := rows[..|rows| - 1], rows[|rows| - 1];
      ByTimeSorts(at, first, front);
      forall y | y in ByTime(at, front)
        ensures first(y, x)
      {
        SameRows(at, front, y);
        var i :| 0 <= i < |front| && front[i] == y;
        assert first(rows[i], rows[|rows| - 1]);
      }
      InsertChronological(at, first, ByTime(at, front), x);
    }
  }

  // Of two rows the one with the earlier instant is read first.
  lemma EarlierFirst<T>(at: T -> real, rows: seq<T>, a: T, b: T) returns (p: nat, q: nat)
    requires a in rows && b in rows && at(a) < at(b)
    ensures p < q < |ByTime(at, rows)| && ByTime(at, rows)[p] == a && ByTime(at, rows)[q] == b
  {
    var any := (x: T, y: T) => true;
    var read := ByTime(at, rows);
    ByTimeSorts(at, any, rows);
    SameRows(at, rows, a);
    SameRows(at, rows, b);
    p :| 0 <= p < |read| && read[p] == a;
    q :| 0 <= q < |read| && read[q] == b;
    assert StandInOrder(at, any, read, q, p);
  }

  // Rows that come in order are read in the order they came.
  lemma {:induction false} InOrderIsKept<T>(at: T -> real, rows: seq<T>)
    requires InOrder(at, rows)
    ensures ByTime(at, rows) == rows
  {
    if rows != [] {
      InOrderIsKept(at, rows[..|rows| - 1]);
    }
  }
}
