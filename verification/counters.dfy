// Counter accounting: what is made of an interface counter that is sampled now and then,
// while it counts, wraps and is reset to zero.
module Counters {
  import opened Common
  import opened Chronology

  // What happens at one interface, in the order it happens: octets pass in a direction, the
  // counter is reset, or a poll stores a sample (its value may fail to be collected).
  datatype Event =
    | Traffic(octets: nat)
    | Reset
    | Poll(at: real, collected: bool, speed: Option<int>)

  datatype Row = Row(at: real, value: Option<nat>, speed: Option<int>)

  // A counter that holds values below `modulus` starts over when it gets there.
  ghost function Wrap(value: nat, modulus: nat): (r: nat)
    requires modulus > 0
    ensures r <= value && r < modulus
    ensures value < modulus ==> r == value
  {
    if value < modulus then value else Wrap(value - modulus, modulus)
  }

  // It goes around a whole number of times.
  lemma {:induction false} WrapMeans(value: nat, modulus: nat) returns (rounds: nat)
    requires modulus > 0
    ensures value == rounds * modulus + Wrap(value, modulus) && Wrap(value, modulus) < modulus
  {
    rounds := 0;
    if value >= modulus {
      var fewer := WrapMeans(value - modulus, modulus);
      rounds := fewer + 1;
      assert rounds * modulus == fewer * modulus + modulus;
    }
  }

  // The counter after some events. It starts anywhere and wraps at `modulus`.
  ghost function Counter(start: nat, modulus: nat, events: seq<Event>): nat
    requires modulus > 0
  {
    if events == [] then start
    else
      var before := Counter(start, modulus, events[..|events| - 1]);
      match events[|events| - 1]
      case Traffic(n) => Wrap(before + n, modulus)
      case Reset => 0
      case Poll(_, _, _) => before
  }

  // The octets that really passed.
  ghost function Passed(events: seq<Event>): nat {
    if events == [] then 0
    else
      Passed(events[..|events| - 1])
      + match events[|events| - 1] case Traffic(n) => n case _ => 0
  }

  // The rows the polls stored, in the order of the polls.
  ghost function Rows(start: nat, modulus: nat, events: seq<Event>): seq<Row>
    requires modulus > 0
  {
    if events == [] then []
    else
      var front := events[..|events| - 1];
      var rows := Rows(start, modulus, front);
      match events[|events| - 1]
      case Poll(at, collected, speed) =>
        rows + [Row(at, if collected then Some(Counter(start, modulus, front)) else None, speed)]
      case _ => rows
  }

  lemma OneMore(start: nat, modulus: nat, events: seq<Event>, e: Event)
    requires modulus > 0
    ensures Counter(start, modulus, events + [e])
         == match e case Traffic(n) => Wrap(Counter(start, modulus, events) + n, modulus)
                    case Reset => 0
                    case Poll(_, _, _) => Counter(start, modulus, events)
    ensures Passed(events + [e]) == Passed(events) + if e.Traffic? then e.octets else 0
    ensures Rows(start, modulus, events + [e])
         == Rows(start, modulus, events)
            + if e.Poll?
              then [Row(e.at, if e.collected then Some(Counter(start, modulus, events)) else None, e.speed)]
              else []
  {
  }

  // ---- weekly increments ------------------------------------------------------------------

  function CollectedAt(row: Row): real { row.at }

  // An interval counts if both of its sides are there and the counter did not go back.
  predicate ValidInterval(previous: Row, row: Row) {
    previous.value.Some? && row.value.Some? && row.value.value >= previous.value.value
  }

  // The sum over the valid intervals between neighbouring rows; nothing if there is none.
  function Delta(rows: seq<Row>): Option<nat> {
    if |rows| < 2 then None
    else
      var earlier := Delta(rows[..|rows| - 1]);
      var previous, row := rows[|rows| - 2], rows[|rows| - 1];
      if ValidInterval(previous, row) then
        Some((if earlier.Some? then earlier.value else 0) + (row.value.value - previous.value.value))
      else earlier
  }

  // Rows are read by the instant they were collected at.
  function WeeklyDelta(rows: seq<Row>): Option<nat> {
    Delta(ByTime(CollectedAt, rows))
  }

  function OrZero(delta: Option<nat>): nat {
    if delta.Some? then delta.value else 0
  }

  lemma {:induction false} DeltaIsNone(rows: seq<Row>)
    ensures Delta(rows).None? <==> forall i :: 0 < i < |rows| ==> !ValidInterval(rows[i - 1], rows[i])
  {
    if |rows| >= 2 {
      var front := rows[..|rows| - 1];
      DeltaIsNone(front);
      forall i | 0 < i < |front|
        ensures ValidInterval(front[i - 1], front[i]) <==> ValidInterval(rows[i - 1], rows[i])
      {
      }
    }
  }

  // The increment over two rows is the difference of their values, where both are there and the
  // later one is not smaller.
  lemma DeltaOfTwo(previous: Row, row: Row)
    ensures Delta([previous, row])
         == if previous.value.Some? && row.value.Some? && previous.value.value <= row.value.value
            then Some(row.value.value - previous.value.value) else None
  {
    assert [previous, row][..1] == [previous];
  }

  // Cut at any row, the increments of both parts add up to that of the whole.
  lemma {:induction false} DeltaAdds(rows: seq<Row>, m: nat)
    requires m < |rows|
    ensures OrZero(Delta(rows)) == OrZero(Delta(rows[..m + 1])) + OrZero(Delta(rows[m..]))
  {
    if m == |rows| - 1 {
      assert rows[..m + 1] == rows;
    } else {
      var front := rows[..|rows| - 1];
      DeltaAdds(front, m);
      assert front[..m + 1] == rows[..m + 1] && front[m..] == rows[m..][..|rows| - m - 1];
    }
  }

  // How far the counter is ahead of the last row.
  ghost function Ahead(counter: nat, rows: seq<Row>): nat {
    if rows == [] || rows[|rows| - 1].value.None? || rows[|rows| - 1].value.value > counter then 0
    else counter - rows[|rows| - 1].value.value
  }

  // What has been accounted for and what is still to come never exceed what really passed.
  lemma {:induction false} DeltaAndAhead(start: nat, modulus: nat, events: seq<Event>)
    requires modulus > 0
    ensures var rows := Rows(start, modulus, events);
            OrZero(Delta(rows)) + Ahead(Counter(start, modulus, events), rows) <= Passed(events)
  {
    if events != [] {
      var front := events[..|events| - 1];
      DeltaAndAhead(start, modulus, front);
      var rows := Rows(start, modulus, front);
      var last := events[|events| - 1];
      match last
      case Traffic(n) =>
      case Reset =>
      case Poll(at, collected, speed) => {
        var more := Rows(start, modulus, events);
        assert more[..|more| - 1] == rows;
      }
    }
  }

  // Whatever is counted, reset, wrapped or missed: the weekly increment never exceeds the
  // octets that passed, as long as the collection instants do not go back.
  lemma DeltaNeverInvents(start: nat, modulus: nat, events: seq<Event>)
    requires modulus > 0 && InOrder(CollectedAt, Rows(start, modulus, events))
    ensures OrZero(WeeklyDelta(Rows(start, modulus, events))) <= Passed(events)
  {
    InOrderIsKept(CollectedAt, Rows(start, modulus, events));
    DeltaAndAhead(start, modulus, events);
  }

  // ---- when the instants go back --------------------------------------------------------------

  // The instants of the polls, in the order of the polls.
  ghost function PollInstants(events: seq<Event>): seq<real> {
    if events == [] then []
    else
      var instants := PollInstants(events[..|events| - 1]);
      match events[|events| - 1]
      case Poll(at, _, _) => instants + [at]
      case _ => instants
  }

  lemma {:induction false} InstantsOfRows(start: nat, modulus: nat, events: seq<Event>)
    requires modulus > 0
    ensures |Rows(start, modulus, events)| == |PollInstants(events)|
    ensures forall i :: 0 <= i < |PollInstants(events)| ==>
              Rows(start, modulus, events)[i].at == PollInstants(events)[i]
  {
    if events != [] {
      InstantsOfRows(start, modulus, events[..|events| - 1]);
    }
  }

  ghost predicate Forward(instants: seq<real>) {
    forall i, j :: 0 <= i < j < |instants| ==> instants[i] <= instants[j]
  }

  // No history of a counter of this size polled at these instants is credited with more than
  // passed.
  ghost predicate NeverInvents(modulus: nat, instants: seq<real>)
    requires modulus > 0
  {
    forall start: nat, events ::
      PollInstants(events) == instants ==>
        OrZero(WeeklyDelta(Rows(start, modulus, events))) <= Passed(events)
  }

  // Going up anywhere in the rows is counted.
  lemma {:induction false} RiseIsCounted(rows: seq<Row>, p: nat, q: nat)
    requires p < q < |rows| && forall i :: 0 <= i < |rows| ==> rows[i].value.Some?
    ensures OrZero(Delta(rows)) >= rows[q].value.value - rows[p].value.value
    decreases |rows|
  {
    var front := rows[..|rows| - 1];
    if q < |rows| - 1 {
      RiseIsCounted(front, p, q);
    } else if p < q - 1 {
      RiseIsCounted(front, p, q - 1);
    }
  }

  // Polls at the given instants, with nothing in between.
  ghost function Polls(instants: seq<real>): seq<Event> {
    seq(|instants|, i requires 0 <= i < |instants| => Poll(instants[i], true, None))
  }

  ghost function RowsAt(instants: seq<real>, value: nat): seq<Row> {
    seq(|instants|, i requires 0 <= i < |instants| => Row(instants[i], Some(value), None))
  }

  // From `before` to `after` the given polls were made, and nothing else happened.
  ghost predicate OnlyPolled(start: nat, modulus: nat, before: seq<Event>, after: seq<Event>, instants: seq<real>)
    requires modulus > 0
  {
    && Rows(start, modulus, after)
       == Rows(start, modulus, before) + RowsAt(instants, Counter(start, modulus, before))
    && Counter(start, modulus, after) == Counter(start, modulus, before)
    && Passed(after) == Passed(before)
    && PollInstants(after) == PollInstants(before) + instants
  }

  lemma PollOnce(start: nat, modulus: nat, before: seq<Event>, events: seq<Event>, instants: seq<real>, at: real)
    requires modulus > 0 && OnlyPolled(start, modulus, before, events, instants)
    ensures OnlyPolled(start, modulus, before, events + [Poll(at, true, None)], instants + [at])
  {
    var counter := Counter(start, modulus, before);
    assert (events + [Poll(at, true, None)])[..|events|] == events;
    OneMore(start, modulus, events, Poll(at, true, None));
    assert RowsAt(instants + [at], counter) == RowsAt(instants, counter) + [Row(at, Some(counter), None)];
  }

  lemma {:induction false} PollsRead(start: nat, modulus: nat, events: seq<Event>, instants: seq<real>)
    requires modulus > 0
    ensures OnlyPolled(start, modulus, events, events + Polls(instants), instants)
    decreases |instants|
  {
    if instants == [] {
      assert events + Polls(instants) == events;
    } else {
      var front, last := instants[..|instants| - 1], instants[|instants| - 1];
      PollsRead(start, modulus, events, front);
      PollOnce(start, modulus, events, events + Polls(front), front, last);
      assert events + Polls(instants) == events + Polls(front) + [Poll(last, true, None)];
      assert instants == front + [last];
    }
  }

  // Polls up to position `k`, a reset, and the rest of the polls; nothing passes at all.
  ghost function ResetAfter(instants: seq<real>, k: nat): seq<Event>
    requires k < |instants|
  {
    Polls(instants[..k + 1]) + [Reset] + Polls(instants[k + 1..])
  }

  lemma ResetAfterRows(modulus: nat, instants: seq<real>, k: nat)
    requires modulus >= 2 && k < |instants|
    ensures var events := ResetAfter(instants, k);
            && Rows(1, modulus, events) == RowsAt(instants[..k + 1], 1) + RowsAt(instants[k + 1..], 0)
            && Passed(events) == 0 && PollInstants(events) == instants
  {
    PollsRead(1, modulus, [], instants[..k + 1]);
    var polled := Polls(instants[..k + 1]);
    assert [] + polled == polled;
    assert (polled + [Reset])[..|polled|] == polled;
    PollsRead(1, modulus, polled + [Reset], instants[k + 1..]);
  }

  // Of two rows the one that carries the earlier instant is read first, so that the rise from
  // its value to that of the other is counted.
  lemma RiseInReading(rows: seq<Row>, low: Row, high: Row)
    requires low in rows && high in rows && low.at < high.at && forall row :: row in rows ==> row.value.Some?
    ensures OrZero(WeeklyDelta(rows)) >= high.value.value - low.value.value
  {
    var read := ByTime(CollectedAt, rows);
    var p, q := EarlierFirst(CollectedAt, rows, low, high);
    forall m | 0 <= m < |read|
      ensures read[m].value.Some?
    {
      SameRows(CollectedAt, rows, read[m]);
    }
    RiseIsCounted(read, p, q);
  }

  // Wherever the instants go back, a history at these instants is credited with an octet
  // although none passed: a row from after the reset is read before one from before it.
  lemma SteppedBackInvents(modulus: nat, instants: seq<real>, i: nat, j: nat)
    requires modulus >= 2 && i < j < |instants| && instants[i] > instants[j]
    ensures OrZero(WeeklyDelta(Rows(1, modulus, ResetAfter(instants, i)))) > Passed(ResetAfter(instants, i))
  {
    ResetAfterRows(modulus, instants, i);
    var rows := Rows(1, modulus, ResetAfter(instants, i));
    var before, after := Row(instants[i], Some(1), None), Row(instants[j], Some(0), None);
    assert rows[i] == before && rows[j] == after;
    RiseInReading(rows, after, before);
  }

  // The weekly increment is bounded by what passed, for every history polled at the given
  // instants, exactly if these never go back. This goes for counters of any size.
  lemma NeverInventsMeans(modulus: nat, instants: seq<real>)
    requires modulus >= 2
    ensures NeverInvents(modulus, instants) <==> Forward(instants)
  {
    if Forward(instants) {
      forall start: nat, events | PollInstants(events) == instants
        ensures OrZero(WeeklyDelta(Rows(start, modulus, events))) <= Passed(events)
      {
        InstantsOfRows(start, modulus, events);
        DeltaNeverInvents(start, modulus, events);
      }
    } else {
      var i: nat, j: nat :| i < j < |instants| && instants[i] > instants[j];
      ResetAfterRows(modulus, instants, i);
      SteppedBackInvents(modulus, instants, i, j);
    }
  }

  // Resets are not needed for it: twelve octets pass, and thirteen are counted.
  lemma SteppedClockInvents()
    ensures var events := [Poll(100.0, true, None), Traffic(10), Poll(50.0, true, None), Traffic(1),
                           Poll(60.0, true, None), Traffic(1), Poll(101.0, true, None)];
            Passed(events) == 12 && WeeklyDelta(Rows(0, 1000, events)) == Some(13)
  {
    var e1 := [Poll(100.0, true, None)];
    var e3 := e1 + [Traffic(10)] + [Poll(50.0, true, None)];
    var e5 := e3 + [Traffic(1)] + [Poll(60.0, true, None)];
    var e7 := e5 + [Traffic(1)] + [Poll(101.0, true, None)];
    OneMore(0, 1000, [], Poll(100.0, true, None));
    assert [] + e1 == e1;
    OneMore(0, 1000, e1, Traffic(10));
    OneMore(0, 1000, e1 + [Traffic(10)], Poll(50.0, true, None));
    OneMore(0, 1000, e3, Traffic(1));
    OneMore(0, 1000, e3 + [Traffic(1)], Poll(60.0, true, None));
    OneMore(0, 1000, e5, Traffic(1));
    OneMore(0, 1000, e5 + [Traffic(1)], Poll(101.0, true, None));
    var a, b := Row(100.0, Some(0), None), Row(50.0, Some(10), None);
    var c, d := Row(60.0, Some(11), None), Row(101.0, Some(12), None);
    assert Rows(0, 1000, e7) == [a] + [b] + [c] + [d];
    SteppedRows(a, b, c, d);
    assert e7 == [Poll(100.0, true, None), Traffic(10), Poll(50.0, true, None), Traffic(1),
                  Poll(60.0, true, None), Traffic(1), Poll(101.0, true, None)];
  }

  lemma SteppedRows(a: Row, b: Row, c: Row, d: Row)
    requires b.at < c.at < a.at < d.at
    requires a.value == Some(0) && b.value == Some(10) && c.value == Some(11) && d.value == Some(12)
    ensures WeeklyDelta([a] + [b] + [c] + [d]) == Some(13)
  {
    var ordered := [b] + [c] + [a] + [d];
    assert ByTime(CollectedAt, [a] + [b] + [c] + [d]) == ordered by {
      assert [] + [a] == [a] && [] + [b] == [b];
      Inserted(CollectedAt, [], a);
      Inserted(CollectedAt, [a], b);
      InsertedBefore(CollectedAt, [], a, b);
      Inserted(CollectedAt, [a] + [b], c);
      InsertedBefore(CollectedAt, [b], a, c);
      Inserted(CollectedAt, [a] + [b] + [c], d);
    }
    assert Delta(ordered) == Some(13) by {
      assert [] + [b] == [b];
      DeltaNext([], b, c);
      DeltaNext([b], c, a);
      DeltaNext([b] + [c], a, d);
    }
  }

  lemma DeltaNext(rows: seq<Row>, previous: Row, row: Row)
    ensures Delta(rows + [previous] + [row])
         == if ValidInterval(previous, row)
            then Some(OrZero(Delta(rows + [previous])) + (row.value.value - previous.value.value))
            else Delta(rows + [previous])
  {
  }

  // The counter keeps growing and every sample is there.
  ghost predicate Undisturbed(start: nat, modulus: nat, events: seq<Event>) {
    && start + Passed(events) < modulus
    && forall i :: 0 <= i < |events| ==> !events[i].Reset? && (events[i].Poll? ==> events[i].collected)
  }

  lemma UndisturbedFront(start: nat, modulus: nat, events: seq<Event>)
    requires Undisturbed(start, modulus, events) && events != []
    ensures Undisturbed(start, modulus, events[..|events| - 1])
  {
  }

  // The rows hold values between the start and what has passed since.
  ghost predicate Growing(rows: seq<Row>, start: nat, counter: nat) {
    && (forall i :: 0 <= i < |rows| ==> rows[i].value.Some? && start <= rows[i].value.value <= counter)
    && (rows != [] ==> rows[0].value.value <= rows[|rows| - 1].value.value)
    && (|rows| >= 2 ==> Delta(rows) == Some(rows[|rows| - 1].value.value - rows[0].value.value))
  }

  lemma GrowingNext(rows: seq<Row>, start: nat, counter: nat, row: Row)
    requires start <= counter && Growing(rows, start, counter) && row.value == Some(counter)
    ensures Growing(rows + [row], start, counter)
  {
  }

  lemma GrowingLater(rows: seq<Row>, start: nat, counter: nat, later: nat)
    requires Growing(rows, start, counter) && counter <= later
    ensures Growing(rows, start, later)
  {
  }

  lemma {:induction false} UndisturbedCounter(start: nat, modulus: nat, events: seq<Event>)
    requires Undisturbed(start, modulus, events)
    ensures Counter(start, modulus, events) == start + Passed(events)
  {
    if events != [] {
      UndisturbedFront(start, modulus, events);
      UndisturbedCounter(start, modulus, events[..|events| - 1]);
    }
  }

  lemma GrowthStep(start: nat, modulus: nat, front: seq<Event>, last: Event)
    requires modulus > 0 && Counter(start, modulus, front) == start + Passed(front)
    requires Growing(Rows(start, modulus, front), start, start + Passed(front))
    requires !last.Reset? && (last.Poll? ==> last.collected)
    ensures Growing(Rows(start, modulus, front + [last]), start, start + Passed(front + [last]))
  {
    OneMore(start, modulus, front, last);
    var rows, counter := Rows(start, modulus, front), start + Passed(front);
    if last.Poll? {
      assert Rows(start, modulus, front + [last]) == rows + [Row(last.at, Some(counter), last.speed)];
      GrowingNext(rows, start, counter, Row(last.at, Some(counter), last.speed));
    } else {
      GrowingLater(rows, start, counter, counter + last.octets);
      assert rows + [] == rows;
    }
  }

  lemma {:induction false} UndisturbedRows(start: nat, modulus: nat, events: seq<Event>)
    requires Undisturbed(start, modulus, events)
    ensures Growing(Rows(start, modulus, events), start, start + Passed(events))
  {
    if events != [] {
      var front, last := events[..|events| - 1], events[|events| - 1];
      UndisturbedFront(start, modulus, events);
      UndisturbedRows(start, modulus, front);
      UndisturbedCounter(start, modulus, front);
      GrowthStep(start, modulus, front, last);
      assert events == front + [last];
    }
  }

  lemma GrowingDelta(rows: seq<Row>, start: nat, counter: nat)
    requires Growing(rows, start, counter) && InOrder(CollectedAt, rows) && |rows| >= 2
    ensures WeeklyDelta(rows) == Some(rows[|rows| - 1].value.value - rows[0].value.value)
  {
    InOrderIsKept(CollectedAt, rows);
  }

  // With nothing reset, wrapped or missing the increment is the last value minus the first.
  lemma UndisturbedDelta(start: nat, modulus: nat, events: seq<Event>)
    requires Undisturbed(start, modulus, events) && InOrder(CollectedAt, Rows(start, modulus, events))
    requires |Rows(start, modulus, events)| >= 2
    ensures var rows := Rows(start, modulus, events);
            && rows[0].value.Some? && rows[|rows| - 1].value.Some?
            && rows[|rows| - 1].value.value >= rows[0].value.value
            && WeeklyDelta(rows) == Some(rows[|rows| - 1].value.value - rows[0].value.value)
  {
    UndisturbedRows(start, modulus, events);
    GrowingDelta(Rows(start, modulus, events), start, start + Passed(events));
  }
}
