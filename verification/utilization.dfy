// Utilization of an interface, computed from two stored samples and never made up.
module Utilization {
  import opened Common
  import opened Counters

  const MAX_SAMPLE_INTERVAL := 900.0

  datatype PreviousSample = PreviousSample(at: real, inOctets: Option<nat>, outOctets: Option<nat>, speed: Option<int>)

  datatype UtilizationResult = UtilizationResult(
    inPercent: Option<real>,
    outPercent: Option<real>,
    elapsed: Option<real>,
    rebaselined: bool)

  function DirectionUtilization(previous: Option<nat>, current: Option<nat>, elapsed: real, speed: int): Option<real>
    requires elapsed > 0.0 && speed > 0
  {
    if previous.None? || current.None? then None
    else
      var delta: int := current.value - previous.value;
      if delta < 0 then None
      else
        var percent := Percent(delta as real, elapsed * speed as real);
        if percent > 100.0 then None else Some(percent)
  }

  // Octets as a share of what the line could have carried, in bits.
  function Percent(octets: real, capacity: real): real
    requires capacity > 0.0
  {
    octets * 8.0 / capacity * 100.0
  }

  function ComputeUtilization(previous: Option<PreviousSample>, now: real, inOctets: Option<nat>,
                              outOctets: Option<nat>,
                              speed: Option<int>): UtilizationResult
  {
    if previous.None? || speed.None? || speed.value <= 0 || previous.value.speed != speed then
      UtilizationResult(None, None, None, true)
    else
      var elapsed := now - previous.value.at;
      if elapsed <= 0.0 || elapsed > MAX_SAMPLE_INTERVAL then UtilizationResult(None, None, None, true)
      else
        var inPercent := DirectionUtilization(previous.value.inOctets, inOctets, elapsed, speed.value);
        var outPercent := DirectionUtilization(previous.value.outOctets, outOctets, elapsed, speed.value);
        UtilizationResult(inPercent, outPercent, Some(elapsed), inPercent.None? || outPercent.None?)
  }

  // ---- what a stored percentage stands for -------------------------------------------------

  lemma Capacity(elapsed: real, speed: int)
    requires elapsed > 0.0 && speed > 0
    ensures elapsed * speed as real > 0.0
  {
  }

  lemma PercentInverts(octets: real, capacity: real)
    requires capacity > 0.0
    ensures Percent(octets, capacity) * capacity / 800.0 == octets
    ensures octets >= 0.0 ==> Percent(octets, capacity) >= 0.0
    ensures Percent(octets, capacity) > 100.0 <==> octets * 8.0 > capacity
  {
    var share := octets * 8.0 / capacity;
    assert share * capacity == octets * 8.0;
    assert Percent(octets, capacity) * capacity == share * capacity * 100.0;
    ShareMeans(share, octets * 8.0, capacity);
  }

  lemma ShareMeans(share: real, bits: real, capacity: real)
    requires capacity > 0.0 && share * capacity == bits
    ensures share > 1.0 <==> bits > capacity
    ensures bits >= 0.0 ==> share >= 0.0
  {
    assert share > 1.0 ==> (share - 1.0) * capacity > 0.0;
    assert share <= 1.0 ==> (1.0 - share) * capacity >= 0.0;
    assert share < 0.0 ==> (0.0 - share) * capacity > 0.0;
  }

  // The two directions are computed alike and independently: each from the two values of its
  // own counter, and one may be missing while the other is not.
  ghost function Direction(previous: Option<Row>, row: Row): Option<real> {
    ComputeUtilization(
      if previous.None? then None
      else Some(PreviousSample(previous.value.at, previous.value.value, None, previous.value.speed)),
      row.at, row.value, None, row.speed).inPercent
  }

  lemma DirectionsAreIndependent(previous: PreviousSample, now: real, inOctets: Option<nat>,
                                outOctets: Option<nat>, speed: Option<int>)
    ensures var r := ComputeUtilization(Some(previous), now, inOctets, outOctets, speed);
            && r.inPercent
               == Direction(Some(Row(previous.at, previous.inOctets, previous.speed)), Row(now, inOctets, speed))
            && r.outPercent
               == Direction(Some(Row(previous.at, previous.outOctets, previous.speed)), Row(now, outOctets, speed))
            && (r.rebaselined <==> r.inPercent.None? || r.outPercent.None?)
            && (r.inPercent.Some? || r.outPercent.Some? ==> r.elapsed == Some(now - previous.at))
  {
  }

  ghost function Difference(previous: Row, row: Row): int
    requires previous.value.Some? && row.value.Some?
  {
    row.value.value - previous.value.value
  }

  // A value is computed exactly when there are two counter values that can be compared:
  // equal known speeds, a gap of at most fifteen minutes, no step back, and no more bits than
  // the line can carry.
  lemma WhenComputed(previous: Option<Row>, row: Row)
    ensures Direction(previous, row).Some? <==>
              && previous.Some? && previous.value.value.Some? && row.value.Some?
              && row.value.value >= previous.value.value.value
              && row.speed.Some? && row.speed.value > 0 && previous.value.speed == row.speed
              && 0.0 < row.at - previous.value.at <= 900.0
              && Difference(previous.value, row) as real * 8.0
                 <= (row.at - previous.value.at) * row.speed.value as real
  {
    if previous.Some? && row.speed.Some? && row.speed.value > 0 && row.at > previous.value.at {
      DirectionComputed(previous.value.value, row.value, row.at - previous.value.at, row.speed.value);
    }
  }

  lemma DirectionComputed(previous: Option<nat>, current: Option<nat>, elapsed: real, speed: int)
    requires elapsed > 0.0 && speed > 0
    ensures DirectionUtilization(previous, current, elapsed, speed).Some? <==>
              && previous.Some? && current.Some? && current.value >= previous.value
              && (current.value - previous.value) as real * 8.0 <= elapsed * speed as real
  {
    if previous.Some? && current.Some? {
      var octets: int := current.value - previous.value;
      Capacity(elapsed, speed);
      PercentInverts(octets as real, elapsed * speed as real);
    }
  }

  // The octets a stored percentage stands for, read back from what is stored with it.
  ghost function Implied(previous: Option<Row>, row: Row): real {
    var percent := Direction(previous, row);
    if percent.Some? && previous.Some? && row.speed.Some? then
      percent.value * ((row.at - previous.value.at) * row.speed.value as real) / 800.0
    else 0.0
  }

  lemma ImpliedIsDifference(previous: Option<Row>, row: Row)
    ensures if Direction(previous, row).Some?
            then && previous.Some? && ValidInterval(previous.value, row)
                 && Implied(previous, row) == Difference(previous.value, row) as real
                 && 0.0 <= Direction(previous, row).value <= 100.0
            else Implied(previous, row) == 0.0
  {
    WhenComputed(previous, row);
    if Direction(previous, row).Some? {
      var octets := Difference(previous.value, row);
      Capacity(row.at - previous.value.at, row.speed.value);
      PercentInverts(octets as real, (row.at - previous.value.at) * row.speed.value as real);
    }
  }

  // ---- a whole history ----------------------------------------------------------------------

  // The baseline is the stored row with the latest instant, the later one of equals.
  function Baseline(rows: seq<Row>): Option<Row> {
    if rows == [] then None
    else
      var earlier, row := Baseline(rows[..|rows| - 1]), rows[|rows| - 1];
      if earlier.Some? && earlier.value.at > row.at then earlier else Some(row)
  }

  // It is the one no other row is later than, or as late and further on.
  lemma {:induction false} BaselineIs(rows: seq<Row>, m: nat)
    requires m < |rows|
    requires forall i :: 0 <= i < |rows| ==> rows[i].at <= rows[m].at && (i > m ==> rows[i].at < rows[m].at)
    ensures Baseline(rows) == Some(rows[m])
  {
    if m < |rows| - 1 {
      BaselineIs(rows[..|rows| - 1], m);
    } else {
      BaselineAmong(rows[..m]);
    }
  }

  lemma {:induction false} BaselineAmong(rows: seq<Row>)
    ensures Baseline(rows) == None <==> rows == []
    ensures rows != [] ==> exists i :: 0 <= i < |rows| && Baseline(rows) == Some(rows[i])
  {
    if rows != [] {
      var front := rows[..|rows| - 1];
      BaselineAmong(front);
      if front != [] {
        var i :| 0 <= i < |front| && Baseline(front) == Some(front[i]);
        assert front[i] == rows[i];
      }
    }
  }

  // All the octets that the stored percentages of the rows stand for.
  ghost function Accounted(rows: seq<Row>): real {
    if rows == [] then 0.0
    else Accounted(rows[..|rows| - 1]) + Implied(Baseline(rows[..|rows| - 1]), rows[|rows| - 1])
  }

  ghost function AheadOf(counter: nat, baseline: Option<Row>): nat {
    if baseline.None? || baseline.value.value.None? || baseline.value.value.value > counter then 0
    else counter - baseline.value.value.value
  }

  lemma OneMoreRow(rows: seq<Row>, row: Row, counter: nat)
    requires row.value.None? || row.value == Some(counter)
    ensures Accounted(rows + [row]) + AheadOf(counter, Baseline(rows + [row])) as real
         <= Accounted(rows) + AheadOf(counter, Baseline(rows)) as real
  {
    assert (rows + [row])[..|rows|] == rows;
    ImpliedIsDifference(Baseline(rows), row);
    WhenComputed(Baseline(rows), row);
  }

  // The stored percentages never stand for more octets than passed, whatever is reset,
  // wrapped or missed, and even if the collection instants go back.
  lemma {:induction false} UtilizationNeverInvents(start: nat, modulus: nat, events: seq<Event>)
    requires modulus > 0
    ensures var rows := Rows(start, modulus, events);
            Accounted(rows) + AheadOf(Counter(start, modulus, events), Baseline(rows)) as real <= Passed(events) as real
  {
    if events != [] {
      var front, last := events[..|events| - 1], events[|events| - 1];
      UtilizationNeverInvents(start, modulus, front);
      if last.Poll? {
        var counter := Counter(start, modulus, front);
        var row := Row(last.at, if last.collected then Some(counter) else None, last.speed);
        OneMoreRow(Rows(start, modulus, front), row, counter);
      }
    }
  }

  // Two neighbouring rows that give a value.
  ghost predicate Comparable(previous: Row, row: Row) {
    && previous.value.Some? && row.value.Some? && row.value.value >= previous.value.value
    && row.speed.Some? && row.speed.value > 0 && previous.speed == row.speed
    && 0.0 < row.at - previous.at <= 900.0
    && (row.value.value - previous.value.value) as real * 8.0 <= (row.at - previous.at) * row.speed.value as real
  }

  // Where all neighbouring rows give one, the stored percentages stand for everything from the
  // first counter value to the last.
  lemma {:induction false} UndisturbedIsAccounted(rows: seq<Row>)
    requires rows != [] && rows[0].value.Some?
    requires forall i :: 0 < i < |rows| ==> Comparable(rows[i - 1], rows[i])
    ensures rows[|rows| - 1].value.Some?
    ensures Accounted(rows) == (rows[|rows| - 1].value.value - rows[0].value.value) as real
  {
    if |rows| > 1 {
      var front, row := rows[..|rows| - 1], rows[|rows| - 1];
      var previous := front[|front| - 1];
      UndisturbedIsAccounted(front);
      LaterAndLater(front);
      BaselineIs(front, |front| - 1);
      assert Comparable(previous, row);
      WhenComputed(Some(previous), row);
      ImpliedIsDifference(Some(previous), row);
    } else {
      assert Accounted(rows[..0]) == 0.0 && Implied(Baseline(rows[..0]), rows[0]) == 0.0;
    }
  }

  lemma {:induction false} LaterAndLater(rows: seq<Row>)
    requires rows != [] && forall i :: 0 < i < |rows| ==> Comparable(rows[i - 1], rows[i])
    ensures forall i :: 0 <= i < |rows| ==> rows[i].at <= rows[|rows| - 1].at
  {
    if |rows| > 1 {
      LaterAndLater(rows[..|rows| - 1]);
      assert Comparable(rows[|rows| - 2], rows[|rows| - 1]);
    }
  }
}
