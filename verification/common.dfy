// Shared vocabulary: optional values (the source's `None`), instants, and sorted sets.
module Common {
  datatype Option<+T> = None | Some(value: T)

  // An instant is a count of seconds; only differences and comparisons are used.
  type Instant = int

  lemma HasElement(s: set<int>)
    ensures s == {} || exists x :: x in s
  {
    if forall x :: x !in s {
      assert s == {};
    }
  }

  lemma Appended<T>(a: seq<T>, b: seq<T>, c: seq<T>)
    ensures a + b + c == a + (b + c)
  {
  }

  ghost predicate Ascending(s: seq<int>) {
    forall i, j :: 0 <= i < j < |s| ==> s[i] < s[j]
  }

  method Least(s: set<int>) returns (least: int)
    requires s != {}
    ensures least in s && forall x :: x in s ==> least <= x
  {
    HasElement(s);
    least :| least in s;
    var todo := s - {least};
    while todo != {}
      invariant least in s && todo <= s
      invariant forall x :: x in s && x !in todo ==> least <= x
    {
      HasElement(todo);
      var x :| x in todo;
      todo := todo - {x};
      least := if x < least then x else least;
    }
  }

  method Sorted(s: set<int>) returns (r: seq<int>)
    ensures Ascending(r) && forall x :: x in r <==> x in s
  {
    r := [];
    var todo := s;
    while todo != {}
      invariant todo <= s && Ascending(r)
      invariant forall x :: x in r <==> x in s && x !in todo
      invariant forall x, y :: x in r && y in todo ==> x < y
    {
      var x := Least(todo);
      assert forall i :: 0 <= i < |r| ==> r[i] in r && r[i] < x;
      r := r + [x];
      todo := todo - {x};
    }
  }
}
