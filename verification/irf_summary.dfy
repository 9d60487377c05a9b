// The weekly reading of a member's observations: when it was missing, and since when it is
// back.
module IrfSummary {
  import opened Common
  import opened Chronology
  import opened Irf
  import opened IsoWeek

  datatype Window = Window(startedAt: Instant, reappearedAt: Option<Instant>)

  datatype MemberSummary = MemberSummary(observations: nat, windows: seq<Window>, latestObserved: Option<bool>) {
    predicate MissingAtPeriodEnd() {
      latestObserved == Some(false)
    }
  }

  // Positions `lo` up to `hi` of the observations.
  datatype Stretch = Stretch(lo: nat, hi: nat)

  // A stretch of observations that all miss the member, and that cannot be made longer.
  ghost predicate MissingRun(flags: seq<Flag>, r: Stretch) {
    && r.lo < r.hi <= |flags|
    && (forall i :: r.lo <= i < r.hi ==> !flags[i].observed)
    && (r.lo > 0 ==> flags[r.lo - 1].observed)
    && (r.hi < |flags| ==> flags[r.hi].observed)
  }

  ghost function WindowOf(flags: seq<Flag>, r: Stretch): Window
    requires r.lo < r.hi <= |flags|
  {
    Window(flags[r.lo].at, if r.hi < |flags| then Some(flags[r.hi].at) else None)
  }

  // The runs that are over before position `k`, in order.
  ghost predicate Runs(flags: seq<Flag>, k: int, runs: seq<Stretch>) {
    && (forall r {:trigger r in runs} :: r in runs <==> MissingRun(flags, r) && r.hi < k)
    && (forall i, j :: 0 <= i < j < |runs| ==> runs[i].hi < runs[j].lo)
  }

  ghost predicate Nth(i: nat) { true }

  ghost predicate Windows(flags: seq<Flag>, runs: seq<Stretch>, windows: seq<Window>) {
    && |windows| == |runs|
    && forall i: nat {:trigger Nth(i)} :: Nth(i) && i < |runs| ==>
         && runs[i].lo < runs[i].hi <= |flags| && windows[i].startedAt == flags[runs[i].lo].at
         && windows[i].reappearedAt == if runs[i].hi < |flags| then Some(flags[runs[i].hi].at) else None
  }

  // Where the run that is under way at position `k` began, if one is.
  ghost predicate Open(flags: seq<Flag>, k: nat, start: Option<nat>) {
    match start
    case None => k <= |flags| && (k > 0 ==> flags[k - 1].observed)
    case Some(lo) =>
      && lo < k <= |flags| && (forall i :: lo <= i < k ==> !flags[i].observed)
      && (lo > 0 ==> flags[lo - 1].observed)
  }

  ghost predicate SeenAt(flags: seq<Flag>, i: int) {
    0 <= i < |flags| && flags[i].observed
  }

  // Nothing ends at position `k` but the run that is under way.
  lemma EndsAt(flags: seq<Flag>, k: nat, start: Option<nat>, r: Stretch)
    requires Open(flags, k, start) && (k < |flags| ==> flags[k].observed)
    ensures MissingRun(flags, r) && r.hi == k <==> start.Some? && r == Stretch(start.value, k)
  {
  }

  lemma RunEnds(flags: seq<Flag>, k: nat, start: Option<nat>, runs: seq<Stretch>)
    requires Open(flags, k, start) && (k < |flags| ==> flags[k].observed)
    requires Runs(flags, k, runs)
    ensures Runs(flags, k + 1, if start.Some? then runs + [Stretch(start.value, k)] else runs)
  {
    forall r: Stretch
      ensures MissingRun(flags, r) && r.hi == k <==> start.Some? && r == Stretch(start.value, k)
    {
      EndsAt(flags, k, start, r);
    }
    forall i | 0 <= i < |runs|
      ensures start.Some? ==> runs[i].hi < start.value
    {
      assert runs[i] in runs;
      assert SeenAt(flags, runs[i].hi);
      assert start.Some? && start.value > 0 ==> SeenAt(flags, start.value - 1);
    }
  }

  lemma RunGoesOn(flags: seq<Flag>, k: nat, runs: seq<Stretch>)
    requires k < |flags| && !flags[k].observed && Runs(flags, k, runs)
    ensures Runs(flags, k + 1, runs)
  {
  }

  lemma WindowAdded(flags: seq<Flag>, runs: seq<Stretch>, windows: seq<Window>, r: Stretch)
    requires Windows(flags, runs, windows) && r.lo < r.hi <= |flags|
    ensures Windows(flags, runs + [r], windows + [WindowOf(flags, r)])
  {
  }

  // Exactly the maximal runs of missing observations, in order, each from its first instant
  // to the instant the member was seen again.
  method Summarize(flags: seq<Flag>) returns (summary: MemberSummary, ghost runs: seq<Stretch>)
    ensures Runs(flags, |flags| + 1, runs) && Windows(flags, runs, summary.windows)
    ensures summary.observations == |flags|
    ensures summary.latestObserved == if flags == [] then None else Some(flags[|flags| - 1].observed)
  {
    runs := [];
    if flags == [] {
      return MemberSummary(0, [], None), [];
    }
    var windows: seq<Window> := [];
    var openStart: Option<Instant> := None;
    ghost var start: Option<nat> := None;
    for k := 0 to |flags|
      invariant Open(flags, k, start) && Runs(flags, k, runs) && Windows(flags, runs, windows)
      invariant openStart == if start.Some? then Some(flags[start.value].at) else None
    {
      if flags[k].observed {
        RunEnds(flags, k, start, runs);
        if openStart.Some? {
          WindowAdded(flags, runs, windows, Stretch(start.value, k));
          windows := windows + [Window(openStart.value, Some(flags[k].at))];
          runs := runs + [Stretch(start.value, k)];
          openStart, start := None, None;
        }
      } else {
        RunGoesOn(flags, k, runs);
        if openStart.None? {
          openStart, start := Some(flags[k].at), Some(k);
        }
      }
    }
    RunEnds(flags, |flags|, start, runs);
    if openStart.Some? {
      WindowAdded(flags, runs, windows, Stretch(start.value, |flags|));
      windows := windows + [Window(openStart.value, None)];
      runs := runs + [Stretch(start.value, |flags|)];
    }
    summary := MemberSummary(|flags|, windows, Some(flags[|flags| - 1].observed));
  }

  // Only the last window can be open, and it is exactly if the latest observation misses the
  // member: what the report calls missing at the end of the period.
  lemma OpenWindow(flags: seq<Flag>, runs: seq<Stretch>, summary: MemberSummary)
    requires Runs(flags, |flags| + 1, runs) && Windows(flags, runs, summary.windows)
    requires summary.latestObserved == if flags == [] then None else Some(flags[|flags| - 1].observed)
    ensures var windows := summary.windows;
            && (forall i :: 0 <= i < |windows| && windows[i].reappearedAt.None? ==> i == |windows| - 1)
            && (summary.MissingAtPeriodEnd() <==> windows != [] && windows[|windows| - 1].reappearedAt.None?)
  {
    var windows := summary.windows;
    forall i | 0 <= i < |windows|
      ensures windows[i].reappearedAt.None? <==> runs[i].hi == |flags|
      ensures runs[i].hi == |flags| ==> i == |windows| - 1 && flags != [] && !SeenAt(flags, |flags| - 1)
    {
      assert Nth(i) && runs[i] in runs && runs[|runs| - 1] in runs;
      assert i == |runs| - 1 || runs[i].hi < runs[|runs| - 1].lo;
    }
    if flags != [] && !flags[|flags| - 1].observed {
      var lo := RunStart(flags, |flags| - 1);
      var r := Stretch(lo, |flags|);
      assert MissingRun(flags, r);
      assert r in runs;
      var i :| 0 <= i < |runs| && runs[i] == r;
      assert windows[i].reappearedAt.None? && i == |windows| - 1;
    }
  }

  lemma RunStart(flags: seq<Flag>, k: nat) returns (lo: nat)
    requires k < |flags| && !flags[k].observed
    ensures lo <= k && (forall i :: lo <= i <= k ==> !flags[i].observed) && (lo > 0 ==> flags[lo - 1].observed)
  {
    lo := k;
    while lo > 0 && !flags[lo - 1].observed
      invariant lo <= k && forall i :: lo <= i <= k ==> !flags[i].observed
    {
      lo := lo - 1;
    }
  }

  // ---- the reader and the writer agree --------------------------------------------------------

  // The observation at position `i` sees the member that the one before it missed.
  ghost predicate Reappears(flags: seq<Flag>, i: nat) {
    0 < i < |flags| && flags[i].observed && !flags[i - 1].observed
  }

  // A window closes exactly at the observations, after the first, that see the member again.
  lemma ClosingsAreReappearances(flags: seq<Flag>, runs: seq<Stretch>, i: nat)
    requires Runs(flags, |flags| + 1, runs) && i < |flags|
    ensures Reappears(flags, i) <==> exists k :: 0 <= k < |runs| && runs[k].hi == i
  {
    if Reappears(flags, i) {
      var lo := RunStart(flags, i - 1);
      var r := Stretch(lo, i);
      assert MissingRun(flags, r);
      assert r in runs;
      var k :| 0 <= k < |runs| && runs[k] == r;
      assert runs[k].hi == i;
    }
    if k :| 0 <= k < |runs| && runs[k].hi == i {
      assert runs[k] in runs;
      assert !SeenAt(flags, i - 1);
    }
  }

  // The instants of a member's rows, in the order they were written.
  ghost function Instants(flags: seq<Flag>): (instants: seq<Instant>)
    ensures |instants| == |flags|
    ensures forall i :: 0 <= i < |flags| ==> instants[i] == flags[i].at
  {
    seq(|flags|, i requires 0 <= i < |flags| => flags[i].at)
  }

  // A history with these instants that misses the member only at position `j`.
  ghost function MissedAt(instants: seq<Instant>, j: nat): (flags: seq<Flag>)
    ensures |flags| == |instants| && Instants(flags) == instants
    ensures forall i :: 0 <= i < |flags| ==> flags[i] == Flag(instants[i], i != j)
  {
    var flags := seq(|instants|, i requires 0 <= i < |instants| => Flag(instants[i], i != j));
    assert Instants(flags) == instants;
    flags
  }

  // With one flag missing the writer announces only where that one is the latest so far.
  lemma OnlyLatestAnnounced(instants: seq<Instant>, j: nat, i: nat)
    ensures Announces(MissedAt(instants, j), i) ==>
              j < i < |instants| && forall h :: 0 <= h < i ==> instants[h] <= instants[j]
  {
    var flags := MissedAt(instants, j);
    if 0 < i < |flags| {
      var m := LatestAmong(flags[..i]);
      assert flags[..i][m] == Flag(instants[m], m != j);
    }
  }

  ghost predicate AnnouncesAsWritten(instants: seq<Instant>, i: nat) {
    forall flags :: Instants(flags) == instants ==> (Announces(flags, i) <==> Reappears(flags, i))
  }

  // The writer compares an observation with the one written just before it, whatever the
  // flags, exactly if no row before carries a later instant than that one.
  lemma AnnouncesReappearances(instants: seq<Instant>, i: nat)
    requires 0 < i < |instants|
    ensures AnnouncesAsWritten(instants, i) <==> forall h :: 0 <= h < i ==> instants[h] <= instants[i - 1]
  {
    if forall h :: 0 <= h < i ==> instants[h] <= instants[i - 1] {
      forall flags | Instants(flags) == instants
        ensures Announces(flags, i) <==> Reappears(flags, i)
      {
        LatestIs(flags[..i], i - 1);
      }
    }
    if AnnouncesAsWritten(instants, i) {
      var flags := MissedAt(instants, i - 1);
      assert Reappears(flags, i);
      OnlyLatestAnnounced(instants, i - 1, i);
    }
  }

  // ---- what the reader reads ------------------------------------------------------------------

  // A row with its place in the order of writing.
  datatype Stored = Stored(id: nat, flag: Flag)

  ghost function StoredAt(row: Stored): real { row.flag.at as real }

  ghost predicate WrittenBefore(a: Stored, b: Stored) { a.id < b.id }

  // The rows of a period, as they were written.
  ghost function Listed(flags: seq<Flag>, p: Period): seq<Stored> {
    if flags == [] then []
    else
      var front, flag := Listed(flags[..|flags| - 1], p), flags[|flags| - 1];
      if p.Contains(flag.at) then front + [Stored(|flags| - 1, flag)] else front
  }

  // The rows of a period, as they are read: by instant, then by id.
  ghost function Reading(flags: seq<Flag>, p: Period): seq<Stored> {
    ByTime(StoredAt, Listed(flags, p))
  }

  ghost function FlagsRead(rows: seq<Stored>): (flags: seq<Flag>)
    ensures |flags| == |rows|
    ensures forall k :: 0 <= k < |rows| ==> flags[k] == rows[k].flag
  {
    seq(|rows|, k requires 0 <= k < |rows| => rows[k].flag)
  }

  lemma {:induction false} ListedRows(flags: seq<Flag>, p: Period)
    ensures forall row :: row in Listed(flags, p) <==>
              row.id < |flags| && row.flag == flags[row.id] && p.Contains(row.flag.at)
    ensures forall a, b :: 0 <= a < b < |Listed(flags, p)| ==> WrittenBefore(Listed(flags, p)[a], Listed(flags, p)[b])
  {
    if flags != [] {
      var front, last := flags[..|flags| - 1], flags[|flags| - 1];
      ListedRows(front, p);
      forall a | 0 <= a < |Listed(front, p)|
        ensures Listed(front, p)[a].id < |front|
      {
        assert Listed(front, p)[a] in Listed(front, p);
      }
    }
  }

  // Every row of the period is read once: by instant, and in the order of writing where
  // instants are equal.
  lemma ReadingRows(flags: seq<Flag>, p: Period)
    ensures forall row :: row in Reading(flags, p) <==>
              row.id < |flags| && row.flag == flags[row.id] && p.Contains(row.flag.at)
    ensures Chronological(StoredAt, WrittenBefore, Reading(flags, p))
  {
    ListedRows(flags, p);
    ByTimeSorts(StoredAt, WrittenBefore, Listed(flags, p));
    forall row
      ensures row in Reading(flags, p) <==> row in Listed(flags, p)
    {
      SameRows(StoredAt, Listed(flags, p), row);
    }
  }

  // ---- when the two agree -----------------------------------------------------------------------

  // The row read at position `k` closes a window exactly if the writer announced the member
  // back when it wrote that row. The first row read never closes one: a run that it ends
  // began before the period.
  ghost predicate AgreeAt(flags: seq<Flag>, p: Period, k: nat)
    requires k < |Reading(flags, p)|
  {
    var rows := Reading(flags, p);
    Reappears(FlagsRead(rows), k) <==> k > 0 && Announces(flags, rows[k].id)
  }

  ghost predicate Agree(flags: seq<Flag>, p: Period) {
    forall k: nat :: k < |Reading(flags, p)| ==> AgreeAt(flags, p, k)
  }

  // Reader and writer agree about the period for every history with these instants.
  ghost predicate AlwaysAgree(instants: seq<Instant>, p: Period) {
    forall flags :: Instants(flags) == instants ==> Agree(flags, p)
  }

  // Within the period the instants never go back.
  ghost predicate ForwardWithin(instants: seq<Instant>, p: Period) {
    forall i, j :: 0 <= i < j < |instants| && p.Contains(instants[i]) && p.Contains(instants[j]) ==>
      instants[i] <= instants[j]
  }

  // No row from beyond the period was written before a row of the period, but for its first.
  ghost predicate NoneFromBeyond(instants: seq<Instant>, p: Period) {
    forall h, i, j :: 0 <= h < i < |instants| && 0 <= j < i && p.Contains(instants[h]) && p.Contains(instants[i]) ==>
      instants[j] < p.end
  }

  lemma ReadAsWritten(flags: seq<Flag>, p: Period)
    requires ForwardWithin(Instants(flags), p)
    ensures Reading(flags, p) == Listed(flags, p)
  {
    ListedRows(flags, p);
    var rows := Listed(flags, p);
    forall a, b | 0 <= a < b < |rows|
      ensures StoredAt(rows[a]) <= StoredAt(rows[b])
    {
      assert rows[a] in rows && rows[b] in rows && WrittenBefore(rows[a], rows[b]);
      assert Instants(flags)[rows[a].id] <= Instants(flags)[rows[b].id];
    }
    InOrderIsKept(StoredAt, rows);
  }

  ghost predicate InWritingOrder(rows: seq<Stored>, a: int, b: int) {
    0 <= a < b < |rows| ==> WrittenBefore(rows[a], rows[b])
  }

  lemma ListedAt(flags: seq<Flag>, p: Period, i: nat) returns (k: nat)
    requires i < |flags| && p.Contains(flags[i].at)
    ensures k < |Listed(flags, p)| && Listed(flags, p)[k] == Stored(i, flags[i])
  {
    ListedRows(flags, p);
    assert Stored(i, flags[i]) in Listed(flags, p);
    k :| k < |Listed(flags, p)| && Listed(flags, p)[k] == Stored(i, flags[i]);
  }

  lemma ListedInOrder(flags: seq<Flag>, p: Period, a: int, b: int)
    ensures InWritingOrder(Listed(flags, p), a, b)
  {
    ListedRows(flags, p);
  }

  lemma ListedRow(flags: seq<Flag>, p: Period, k: nat)
    requires k < |Listed(flags, p)|
    ensures var row := Listed(flags, p)[k];
            row.id < |flags| && row.flag == flags[row.id] && p.Contains(row.flag.at)
  {
    ListedRows(flags, p);
    assert Listed(flags, p)[k] in Listed(flags, p);
  }

  // Nothing of the period was written between two neighbouring rows of it.
  lemma NoneBetweenRows(flags: seq<Flag>, p: Period, k: nat, j: nat)
    requires 0 < k < |Listed(flags, p)| && j < |flags|
    ensures p.Contains(flags[j].at) ==> j <= Listed(flags, p)[k - 1].id || j >= Listed(flags, p)[k].id
  {
    if p.Contains(flags[j].at) {
      var a := ListedAt(flags, p, j);
      ListedInOrder(flags, p, a, k - 1);
      ListedInOrder(flags, p, k, a);
    }
  }

  // What is known of the row read just before another, when rows are read as written.
  lemma RowBefore(flags: seq<Flag>, p: Period, k: nat)
    requires ForwardWithin(Instants(flags), p) && 0 < k < |Reading(flags, p)|
    ensures var rows := Reading(flags, p);
            && rows[k - 1].id < rows[k].id < |flags|
            && rows[k - 1].flag == flags[rows[k - 1].id] && rows[k].flag == flags[rows[k].id]
            && p.Contains(rows[k - 1].flag.at) && p.Contains(rows[k].flag.at)
            && forall j :: rows[k - 1].id < j < rows[k].id ==> !p.Contains(flags[j].at)
  {
    ReadAsWritten(flags, p);
    ListedRow(flags, p, k - 1);
    ListedRow(flags, p, k);
    ListedInOrder(flags, p, k - 1, k);
    var rows := Listed(flags, p);
    forall j | rows[k - 1].id < j < rows[k].id
      ensures !p.Contains(flags[j].at)
    {
      NoneBetweenRows(flags, p, k, j);
    }
  }

  lemma AgreeInOrder(flags: seq<Flag>, p: Period, k: nat)
    requires ForwardWithin(Instants(flags), p) && NoneFromBeyond(Instants(flags), p) && k < |Reading(flags, p)|
    ensures AgreeAt(flags, p, k)
  {
    if k > 0 {
      RowBefore(flags, p, k);
      var rows, instants := Reading(flags, p), Instants(flags);
      var h, i := rows[k - 1].id, rows[k].id;
      forall j | 0 <= j < i
        ensures flags[j].at <= flags[h].at && (j > h ==> flags[j].at < flags[h].at)
      {
        assert instants[j] < p.end;
        assert p.Contains(instants[j]) ==> j <= h && instants[j] <= instants[h];
      }
      LatestIs(flags[..i], h);
    }
  }

  // If the instants go back within the period, missing the member only in the row that steps
  // back closes a window that the writer never announced.
  lemma SteppedBackDisagrees(instants: seq<Instant>, p: Period, i: nat, j: nat)
    requires i < j < |instants| && instants[i] > instants[j] && p.Contains(instants[i]) && p.Contains(instants[j])
    ensures !Agree(MissedAt(instants, j), p)
  {
    var flags := MissedAt(instants, j);
    var rows := Reading(flags, p);
    ReadingRows(flags, p);
    ListedRows(flags, p);
    var x, y := EarlierFirst(StoredAt, Listed(flags, p), Stored(j, flags[j]), Stored(i, flags[i]));
    var k := x + 1;
    assert StandInOrder(StoredAt, WrittenBefore, rows, x, k);
    assert rows[k] in rows && rows[k].id != j;
    assert Reappears(FlagsRead(rows), k);
    OnlyLatestAnnounced(instants, j, rows[k].id);
    assert !AgreeAt(flags, p, k);
  }

  // The last position before `i` within the period.
  lemma LastWithin(instants: seq<Instant>, p: Period, h: nat, i: nat) returns (g: nat)
    requires h < i < |instants| && p.Contains(instants[h])
    ensures h <= g < i && p.Contains(instants[g]) && forall j :: g < j < i ==> !p.Contains(instants[j])
  {
    g := i - 1;
    while !p.Contains(instants[g])
      invariant h <= g < i && forall j :: g < j < i ==> !p.Contains(instants[j])
      decreases g
    {
      g := g - 1;
    }
  }

  // Two rows of the period with none of it written in between are read one after the other.
  lemma ReadAfter(flags: seq<Flag>, p: Period, g: nat, i: nat) returns (k: nat)
    requires ForwardWithin(Instants(flags), p) && g < i < |flags| && p.Contains(flags[g].at) && p.Contains(flags[i].at)
    requires forall j :: g < j < i ==> !p.Contains(flags[j].at)
    ensures var rows := Reading(flags, p);
            0 < k < |rows| && rows[k] == Stored(i, flags[i]) && rows[k - 1] == Stored(g, flags[g])
  {
    ReadAsWritten(flags, p);
    var a := ListedAt(flags, p, g);
    k := ListedAt(flags, p, i);
    ListedInOrder(flags, p, k, a);
    RowBefore(flags, p, k);
    ListedInOrder(flags, p, a, k - 1);
  }

  // If a row from beyond the period came before a later row of the period, missing the member
  // only just before that one closes a window that the writer never announced.
  lemma BeyondDisagrees(instants: seq<Instant>, p: Period, h: nat, i: nat, j: nat) returns (g: nat)
    requires ForwardWithin(instants, p) && h < i < |instants| && j < i
    requires p.Contains(instants[h]) && p.Contains(instants[i]) && instants[j] >= p.end
    ensures !Agree(MissedAt(instants, g), p)
  {
    g := LastWithin(instants, p, h, i);
    var flags := MissedAt(instants, g);
    var k := ReadAfter(flags, p, g, i);
    assert Reappears(FlagsRead(Reading(flags, p)), k);
    OnlyLatestAnnounced(instants, g, i);
    assert !AgreeAt(flags, p, k);
  }

  // Reader and writer agree about a period, whatever the observations, exactly if the instants
  // never go back within it and no row from beyond it was written before a later row of it.
  lemma AlwaysAgreeMeans(instants: seq<Instant>, p: Period)
    ensures AlwaysAgree(instants, p) <==> ForwardWithin(instants, p) && NoneFromBeyond(instants, p)
  {
    if !ForwardWithin(instants, p) {
      var i: nat, j: nat :| i < j < |instants| && p.Contains(instants[i]) && p.Contains(instants[j])
                            && instants[i] > instants[j];
      SteppedBackDisagrees(instants, p, i, j);
      assert Instants(MissedAt(instants, j)) == instants;
    } else if !NoneFromBeyond(instants, p) {
      var h: nat, i: nat, j: nat :| h < i < |instants| && j < i && p.Contains(instants[h]) && p.Contains(instants[i])
                                    && instants[j] >= p.end;
      var g := BeyondDisagrees(instants, p, h, i, j);
      assert Instants(MissedAt(instants, g)) == instants;
    } else {
      forall flags, k: nat | Instants(flags) == instants && k < |Reading(flags, p)|
        ensures AgreeAt(flags, p, k)
      {
        AgreeInOrder(flags, p, k);
      }
    }
  }

  // They agree about every period exactly if the instants never go back at all.
  lemma AgreeEverywhereMeans(instants: seq<Instant>)
    ensures (forall p :: AlwaysAgree(instants, p))
       <==> forall i, j :: 0 <= i < j < |instants| ==> instants[i] <= instants[j]
  {
    forall p
      ensures AlwaysAgree(instants, p) <==> ForwardWithin(instants, p) && NoneFromBeyond(instants, p)
    {
      AlwaysAgreeMeans(instants, p);
    }
    if i, j :| 0 <= i < j < |instants| && instants[i] > instants[j] {
      var p := Period(instants[j], instants[i] + 1);
      assert p.Contains(instants[i]) && p.Contains(instants[j]);
      assert !ForwardWithin(instants, p);
    }
  }

  // A row of the same week was written before row `i`.
  ghost predicate NotFirst(instants: seq<Instant>, i: nat)
    requires i < |instants|
  {
    exists h :: 0 <= h < i && WeekContaining(instants[i]).Contains(instants[h])
  }

  lemma OrderFromWeeks(instants: seq<Instant>, i: nat, j: nat)
    requires j < i < |instants| && NotFirst(instants, i) && AlwaysAgree(instants, WeekContaining(instants[i]))
    ensures instants[j] <= instants[i]
  {
    var p := WeekContaining(instants[i]);
    AlwaysAgreeMeans(instants, p);
    OneWeekEach(instants[i], instants[i]);
    var h :| 0 <= h < i && p.Contains(instants[h]);
    assert instants[j] < p.end;
  }

  lemma WeekFromOrder(instants: seq<Instant>, t: Instant)
    requires forall i, j :: 0 <= j < i < |instants| && NotFirst(instants, i) ==> instants[j] <= instants[i]
    ensures AlwaysAgree(instants, WeekContaining(t))
  {
    var p := WeekContaining(t);
    forall h, i, j | 0 <= h < i < |instants| && 0 <= j < i && p.Contains(instants[h]) && p.Contains(instants[i])
      ensures instants[j] <= instants[i]
    {
      OneWeekEach(t, instants[i]);
      assert NotFirst(instants, i);
    }
    AlwaysAgreeMeans(instants, p);
  }

  // They agree about every week exactly if each row that is not the first written of its week
  // carries an instant no earlier than any row written before it.
  lemma AgreeEveryWeekMeans(instants: seq<Instant>)
    ensures (forall t :: AlwaysAgree(instants, WeekContaining(t)))
       <==> forall i, j :: 0 <= j < i < |instants| && NotFirst(instants, i) ==> instants[j] <= instants[i]
  {
    if forall t :: AlwaysAgree(instants, WeekContaining(t)) {
      forall i, j | 0 <= j < i < |instants| && NotFirst(instants, i)
        ensures instants[j] <= instants[i]
      {
        OrderFromWeeks(instants, i, j);
      }
    }
    if forall i, j :: 0 <= j < i < |instants| && NotFirst(instants, i) ==> instants[j] <= instants[i] {
      forall t
        ensures AlwaysAgree(instants, WeekContaining(t))
      {
        WeekFromOrder(instants, t);
      }
    }
  }

  // The windows of a period on which the two agree close exactly at the rows, after the first,
  // at which the writer announced the member back, and at the instants of these rows.
  lemma WindowsCloseWhereAnnounced(flags: seq<Flag>, p: Period, runs: seq<Stretch>, windows: seq<Window>, k: nat)
    requires ForwardWithin(Instants(flags), p) && NoneFromBeyond(Instants(flags), p) && k < |Reading(flags, p)|
    requires var read := FlagsRead(Reading(flags, p)); Runs(read, |read| + 1, runs) && Windows(read, runs, windows)
    ensures (exists r :: 0 <= r < |runs| && runs[r].hi == k) <==> k > 0 && Announces(flags, Reading(flags, p)[k].id)
    ensures forall r :: 0 <= r < |runs| && runs[r].hi == k ==>
              windows[r].reappearedAt == Some(Reading(flags, p)[k].flag.at)
  {
    ClosingsAreReappearances(FlagsRead(Reading(flags, p)), runs, k);
    AgreeInOrder(flags, p, k);
    forall r | 0 <= r < |runs| && runs[r].hi == k
      ensures windows[r].reappearedAt == Some(Reading(flags, p)[k].flag.at)
    {
      assert Nth(r);
    }
  }
}
