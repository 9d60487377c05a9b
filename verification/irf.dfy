// Observing the members of a fabric: every successful observation leaves one row for each
// member known so far, present or not.
module Irf {
  import opened Common

  // One member as the device reports it; what it does not say reliably is missing.
  datatype Sample = Sample(member: int, role: Option<string>, model: Option<string>, software: Option<string>)

  // What is stored of a member.
  datatype Member = Member(role: Option<string>, model: Option<string>, software: Option<string>,
                           lastSeen: Option<Instant>)

  const NEW_MEMBER := Member(None, None, None, None)

  datatype Row = Row(member: int, observed: bool, role: Option<string>, previousRole: Option<string>, at: Instant)

  // What a row says about the presence of its member.
  datatype Flag = Flag(at: Instant, observed: bool)

  datatype RoleChange = RoleChange(member: int, previous: string, observed: string)

  datatype Report = Report(
    observed: seq<int>,
    missing: seq<int>,
    roleChanges: seq<RoleChange>,
    reappeared: seq<int>)

  // What becomes known of the fabric: a member stored by some other collection, or one
  // successful observation with the members it found.
  datatype Event = Registered(member: int) | Observation(at: Instant, present: set<int>)

  ghost predicate Mentions(e: Event, member: int) {
    match e
    case Registered(m) => m == member
    case Observation(_, present) => member in present
  }

  ghost predicate Known(log: seq<Event>, member: int) {
    exists i :: 0 <= i < |log| && Mentions(log[i], member)
  }

  // One flag for every observation from the member's first appearance on.
  ghost function Expected(log: seq<Event>, member: int): seq<Flag> {
    if log == [] then []
    else
      var front, e := log[..|log| - 1], log[|log| - 1];
      if e.Observation? && (member in e.present || Known(front, member)) then
        Expected(front, member) + [Flag(e.at, member in e.present)]
      else Expected(front, member)
  }

  function FlagsOf(rows: seq<Row>, member: int): seq<Flag> {
    if rows == [] then []
    else
      var front, row := rows[..|rows| - 1], rows[|rows| - 1];
      if row.member == member then FlagsOf(front, member) + [Flag(row.at, row.observed)] else FlagsOf(front, member)
  }

  // The flag with the latest instant, the later one of equals.
  function Latest(flags: seq<Flag>): Option<Flag> {
    if flags == [] then None
    else
      var earlier, flag := Latest(flags[..|flags| - 1]), flags[|flags| - 1];
      if earlier.Some? && earlier.value.at > flag.at then earlier else Some(flag)
  }

  // It is one of the flags, and no other is later, or as late and further on.
  lemma {:induction false} LatestAmong(flags: seq<Flag>) returns (m: nat)
    requires flags != []
    ensures m < |flags| && Latest(flags) == Some(flags[m])
    ensures forall i :: 0 <= i < |flags| ==> flags[i].at <= flags[m].at
    ensures forall i :: m < i < |flags| ==> flags[i].at < flags[m].at
  {
    m := |flags| - 1;
    if |flags| > 1 {
      var earlier := LatestAmong(flags[..|flags| - 1]);
      if flags[earlier].at > flags[m].at {
        m := earlier;
      }
    }
  }

  lemma LatestIs(flags: seq<Flag>, m: nat)
    requires m < |flags|
    requires forall i :: 0 <= i < |flags| ==> flags[i].at <= flags[m].at
    requires forall i :: m < i < |flags| ==> flags[i].at < flags[m].at
    ensures Latest(flags) == Some(flags[m])
  {
    var latest := LatestAmong(flags);
    assert latest == m;
  }

  predicate WasMissing(rows: seq<Row>, member: int) {
    var latest := Latest(FlagsOf(rows, member));
    latest.Some? && !latest.value.observed
  }

  ghost function RoleBefore(before: map<int, Member>, member: int): Option<string> {
    if member in before then before[member].role else None
  }

  ghost function RoleFound(present: map<int, Sample>, member: int): Option<string> {
    if member in present then present[member].role else None
  }

  // A member's role changed for sure: both roles are known, and they differ.
  ghost predicate RoleChanged(before: map<int, Member>, present: map<int, Sample>, member: int) {
    && RoleBefore(before, member).Some? && RoleFound(present, member).Some?
    && RoleBefore(before, member) != RoleFound(present, member)
  }

  // What is reported replaces what is stored; what is not reported erases nothing.
  function Over(reported: Option<string>, stored: Option<string>): Option<string> {
    if reported.Some? then reported else stored
  }

  // The stored member after an observation at `at`.
  function MemberAfter(before: map<int, Member>, present: map<int, Sample>, member: int, at: Instant): Member {
    var m := if member in before then before[member] else NEW_MEMBER;
    if member !in present then m
    else
      var s := present[member];
      Member(Over(s.role, m.role), Over(s.model, m.model), Over(s.software, m.software), Some(at))
  }

  // The row of one member of an observation.
  ghost function RowFor(before: map<int, Member>, present: map<int, Sample>, member: int, at: Instant): Row {
    Row(member, member in present, RoleFound(present, member),
        if RoleChanged(before, present, member) then RoleBefore(before, member) else None, at)
  }

  // One row for each of the members, in their order.
  ghost function RowsFor(before: map<int, Member>, present: map<int, Sample>, ids: seq<int>, at: Instant): seq<Row> {
    if ids == [] then []
    else RowsFor(before, present, ids[..|ids| - 1], at) + [RowFor(before, present, ids[|ids| - 1], at)]
  }

  lemma LogNext(log: seq<Event>, e: Event, member: int)
    ensures Known(log + [e], member) <==> Known(log, member) || Mentions(e, member)
    ensures Expected(log + [e], member)
         == if e.Observation? && (member in e.present || Known(log, member))
            then Expected(log, member) + [Flag(e.at, member in e.present)] else Expected(log, member)
  {
    var all := log + [e];
    assert all[..|log|] == log && all[|log|] == e;
    if i :| 0 <= i < |log| && Mentions(log[i], member) {
      assert all[i] == log[i];
    }
  }

  lemma FlagsNext(rows: seq<Row>, row: Row, member: int)
    ensures FlagsOf(rows + [row], member)
         == if row.member == member then FlagsOf(rows, member) + [Flag(row.at, row.observed)] else FlagsOf(rows, member)
  {
  }

  // Every member dealt with so far has one more row, and no other has.
  ghost predicate RowsAdded(before: seq<Row>, rows: seq<Row>, seen: seq<int>, present: set<int>, at: Instant) {
    forall m {:trigger FlagsOf(rows, m)} ::
      FlagsOf(rows, m) == if m in seen then FlagsOf(before, m) + [Flag(at, m in present)] else FlagsOf(before, m)
  }

  lemma RowAdded(before: seq<Row>, rows: seq<Row>, seen: seq<int>, present: set<int>, at: Instant, row: Row)
    requires RowsAdded(before, rows, seen, present, at)
    requires row.member !in seen && row.at == at && row.observed == (row.member in present)
    ensures RowsAdded(before, rows + [row], seen + [row.member], present, at)
  {
  }

  // The members of a list that lie in a set, in the order of the list.
  ghost function Pick(ids: seq<int>, chosen: set<int>): seq<int> {
    if ids == [] then []
    else
      var front, id := Pick(ids[..|ids| - 1], chosen), ids[|ids| - 1];
      if id in chosen then front + [id] else front
  }

  lemma {:induction false} PickMeans(ids: seq<int>, chosen: set<int>)
    requires Ascending(ids)
    ensures Ascending(Pick(ids, chosen))
    ensures forall m :: m in Pick(ids, chosen) <==> m in ids && m in chosen
  {
    if ids != [] {
      var front, id := ids[..|ids| - 1], ids[|ids| - 1];
      PickMeans(front, chosen);
      var picked := Pick(front, chosen);
      assert ids == front + [id];
      forall i | 0 <= i < |picked|
        ensures picked[i] < id
      {
        assert picked[i] in picked && picked[i] in front;
      }
    }
  }

  // A report with one more member.
  function Extended(report: Report, id: int, here: bool, wasMissing: bool, change: Option<(string, string)>): Report {
    if !here then report.(missing := report.missing + [id])
    else report.(
      observed := report.observed + [id],
      reappeared := if wasMissing then report.reappeared + [id] else report.reappeared,
      roleChanges := if change.Some? then report.roleChanges + [RoleChange(id, change.value.0, change.value.1)]
                     else report.roleChanges)
  }

  ghost predicate Reporting(report: Report, seen: seq<int>, present: set<int>, absent: set<int>, back: set<int>) {
    && report.observed == Pick(seen, present) && report.missing == Pick(seen, absent)
    && report.reappeared == Pick(seen, back)
  }

  lemma ReportingNext(report: Report, seen: seq<int>, present: set<int>, absent: set<int>, back: set<int>,
                      id: int, wasMissing: bool, change: Option<(string, string)>)
    requires Reporting(report, seen, present, absent, back)
    requires (id in absent <==> id !in present) && (id in back <==> id in present && wasMissing)
    ensures Reporting(Extended(report, id, id in present, wasMissing, change), seen + [id], present, absent, back)
  {
  }

  // The instants and members a report is about, given the rows and members before it.
  ghost predicate Reports(report: Report, before: seq<Row>, known: set<int>, present: set<int>) {
    && Ascending(report.observed) && (forall m :: m in report.observed <==> m in present)
    && Ascending(report.missing) && (forall m :: m in report.missing <==> m in known && m !in present)
    && Ascending(report.reappeared) && (forall m :: m in report.reappeared <==> m in present && LastMissed(before, m))
  }

  // The observation at position `i` of a member's flags finds it back: the latest flag before
  // says that it was missing.
  ghost predicate Announces(flags: seq<Flag>, i: nat) {
    && i < |flags| && flags[i].observed
    && var latest := Latest(flags[..i]); latest.Some? && !latest.value.observed
  }

  // An announcement that a member is back, at a position of its flags.
  datatype Announcement = Announcement(member: int, position: nat)

  // Sample number `i` is the last of the first `k` for its member.
  ghost predicate IsLast(samples: seq<Sample>, k: nat, i: nat, member: int)
    requires k <= |samples|
  {
    i < k && samples[i].member == member && forall j :: i < j < k ==> samples[j].member != member
  }

  // Each member that the first `k` samples mention, with its last sample.
  ghost predicate Sampled(samples: seq<Sample>, k: nat, found: map<int, Sample>)
    requires k <= |samples|
  {
    && (forall i :: 0 <= i < k ==> samples[i].member in found)
    && (forall m :: m in found ==> exists i: nat :: IsLast(samples, k, i, m) && found[m] == samples[i])
  }

  lemma SampledNext(samples: seq<Sample>, k: nat, found: map<int, Sample>)
    requires k < |samples| && Sampled(samples, k, found)
    ensures Sampled(samples, k + 1, found[samples[k].member := samples[k]])
  {
    var next := found[samples[k].member := samples[k]];
    forall m | m in next
      ensures exists i: nat :: IsLast(samples, k + 1, i, m) && next[m] == samples[i]
    {
      if m == samples[k].member {
        assert IsLast(samples, k + 1, k, m);
      } else {
        var i: nat :| IsLast(samples, k, i, m) && found[m] == samples[i];
        assert IsLast(samples, k + 1, i, m);
      }
    }
  }

  method ById(samples: seq<Sample>) returns (sampleById: map<int, Sample>)
    ensures Sampled(samples, |samples|, sampleById)
  {
    sampleById := map[];
    for i := 0 to |samples|
      invariant Sampled(samples, i, sampleById)
    {
      SampledNext(samples, i, sampleById);
      sampleById := sampleById[samples[i].member := samples[i]];
    }
  }

  class Fabric {
    // The stored members with what was last reported of them, and the observation rows in the order
    // they were written.
    var members: map<int, Member>
    var rows: seq<Row>
    ghost var log: seq<Event>
    // What has been reported as reappeared so far.
    ghost var announced: set<Announcement>

    constructor ()
      ensures Valid() && log == [] && announced == {}
    {
      members, rows, log, announced := map[], [], [], {};
    }

    ghost predicate Valid()
      reads this
    {
      && (forall m {:trigger Known(log, m)} :: m in members <==> Known(log, m))
      && (forall m {:trigger FlagsOf(rows, m)} :: FlagsOf(rows, m) == Expected(log, m))
      && AllAnnounced(announced, rows)
    }

    // Another collection stores a member; what it does not report erases nothing.
    method Register(sample: Sample, at: Instant)
      requires Valid()
      modifies this
      ensures Valid() && rows == old(rows) && announced == old(announced)
      ensures log == old(log) + [Registered(sample.member)]
      ensures Updated(old(members), members, map[sample.member := sample], at)
    {
      members := members[sample.member := MemberAfter(members, map[sample.member := sample], sample.member, at)];
      forall m {
        LogNext(log, Registered(sample.member), m);
      }
      log := log + [Registered(sample.member)];
    }

    // One member of one observation.
    method Observe(id: int, present: map<int, Sample>, at: Instant)
      returns (change: Option<(string, string)>)
      modifies this`members, this`rows
      ensures members == if id in present then old(members)[id := MemberAfter(old(members), present, id, at)]
                         else old(members)
      ensures change.Some? <==> RoleChanged(old(members), present, id)
      ensures change.Some? ==>
                RoleBefore(old(members), id) == Some(change.value.0) && RoleFound(present, id) == Some(change.value.1)
      ensures rows == old(rows) + [RowFor(old(members), present, id, at)]
    {
      var role := if id in present then present[id].role else None;
      var previousRole := if id in members then members[id].role else None;
      change := None;
      if id in present && role.Some? && previousRole.Some? && role != previousRole {
        change := Some((previousRole.value, role.value));
      }
      rows := rows + [Row(id, id in present, role, if change.Some? then previousRole else None, at)];
      if id in present {
        var member := if id in members then members[id] else NEW_MEMBER;
        if role.Some? {
          member := member.(role := role);
        }
        if present[id].model.Some? {
          member := member.(model := present[id].model);
        }
        if present[id].software.Some? {
          member := member.(software := present[id].software);
        }
        members := members[id := member.(lastSeen := Some(at))];
      }
    }

    // What has become of the tables and the report once the given members were dealt with.
    ghost predicate DealtWith(report: Report, seen: seq<int>, before: seq<Row>, known: map<int, Member>,
                              present: map<int, Sample>, absent: set<int>, back: set<int>, at: Instant)
      reads this`members, this`rows
    {
      && rows == before + RowsFor(known, present, seen, at)
      && RowsAdded(before, rows, seen, present.Keys, at)
      && Reporting(report, seen, present.Keys, absent, back)
      && MembersAdded(known, members, seen, present, at)
      && RolesReported(known, report.roleChanges, seen, present)
    }

    method ObserveNext(report: Report, id: int, present: map<int, Sample>, at: Instant, ghost seen: seq<int>,
                       ghost before: seq<Row>, ghost known: map<int, Member>, ghost absent: set<int>,
                       ghost back: set<int>)
      returns (next: Report)
      requires DealtWith(report, seen, before, known, present, absent, back, at) && id !in seen
      requires (id in absent <==> id !in present) && (id in back <==> id in present && WasMissing(before, id))
      modifies this`members, this`rows
      ensures DealtWith(next, seen + [id], before, known, present, absent, back, at)
    {
      ghost var now, earlier := rows, members;
      assert FlagsOf(rows, id) == FlagsOf(before, id);
      var wasMissing := WasMissing(rows, id);
      MemberAdded(known, members, seen, present, id, at);
      RoleReported(known, report.roleChanges, seen, present, id);
      var change := Observe(id, present, at);
      RowForNext(known, earlier, present, seen, id, at);
      Appended(before, RowsFor(known, present, seen, at), [RowFor(earlier, present, id, at)]);
      RowAdded(before, now, seen, present.Keys, at, RowFor(earlier, present, id, at));
      ReportingNext(report, seen, present.Keys, absent, back, id, wasMissing, change);
      next := Extended(report, id, id in present, wasMissing, change);
    }

    // The rows and the report for the given members, in their order.
    method ObserveAll(ids: seq<int>, present: map<int, Sample>, at: Instant) returns (report: Report)
      requires Ascending(ids)
      modifies this`members, this`rows
      ensures rows == old(rows) + RowsFor(old(members), present, ids, at)
      ensures RowsAdded(old(rows), rows, ids, present.Keys, at)
      ensures MembersAdded(old(members), members, ids, present, at)
      ensures RolesReported(old(members), report.roleChanges, ids, present)
      ensures report.observed == Pick(ids, present.Keys)
      ensures report.missing == Pick(ids, set m | m in ids && m !in present)
      ensures report.reappeared == Pick(ids, set m | m in present && WasMissing(old(rows), m))
    {
      ghost var before, known := rows, members;
      ghost var absent, back := set m | m in ids && m !in present, set m | m in present && WasMissing(before, m);
      report := Report([], [], [], []);
      for k := 0 to |ids|
        invariant DealtWith(report, ids[..k], before, known, present, absent, back, at)
      {
        assert ids[..k + 1] == ids[..k] + [ids[k]] && ids[k] in ids && ids[k] !in ids[..k];
        report := ObserveNext(report, ids[k], present, at, ids[..k], before, known, absent, back);
      }
      assert ids[..|ids|] == ids;
    }

    // One successful observation of the members known or found, in order.
    method ObserveMembers(samples: seq<Sample>, at: Instant)
      returns (report: Report, ghost present: map<int, Sample>, ghost ids: seq<int>)
      modifies this`members, this`rows
      ensures Sampled(samples, |samples|, present)
      ensures forall m :: m in ids <==> m in old(members) || m in present
      ensures RowsAdded(old(rows), rows, ids, present.Keys, at)
      ensures Ascending(ids) && rows == old(rows) + RowsFor(old(members), present, ids, at)
      ensures Reports(report, old(rows), old(members).Keys, present.Keys)
      ensures Updated(old(members), members, present, at) && AllRoleChanges(old(members), report.roleChanges, present)
    {
      var sampleById := ById(samples);
      present := sampleById;
      var listed := Sorted(members.Keys + sampleById.Keys);
      ids := listed;
      ghost var before, known := rows, members;
      report := ObserveAll(listed, sampleById, at);
      Reported(report, ids, before, known.Keys, present.Keys);
      AllDealtWith(known, members, report.roleChanges, ids, present, at);
    }

    // One successful observation: a row for each member known or found, in order, and a
    // report of who is there, who is not, and who is back.
    method ApplyIrfObservation(samples: seq<Sample>, at: Instant)
      returns (report: Report, ghost present: map<int, Sample>, ghost ids: seq<int>)
      requires Valid()
      modifies this
      ensures Valid()
      ensures Sampled(samples, |samples|, present)
      ensures Ascending(ids) && (forall m :: m in ids <==> m in old(members) || m in present)
      ensures old(rows) <= rows && AreRowsOf(rows[|old(rows)|..], old(members), present, ids, at)
      ensures log == old(log) + [Observation(at, present.Keys)]
      ensures announced == old(announced) + Announcements(report.reappeared, old(rows))
      ensures Reports(report, old(rows), old(members).Keys, present.Keys)
      ensures Updated(old(members), members, present, at) && AllRoleChanges(old(members), report.roleChanges, present)
    {
      ghost var before, known := rows, members.Keys;
      report, present, ids := ObserveMembers(samples, at);
      RowsForAre(old(members), present, ids, at);
      Concluded(log, before, known, rows, ids, present.Keys, at);
      forall m {
        WasMissingMeans(before, m);
      }
      AnnouncedNext(announced, before, rows, ids, present.Keys, at, report.reappeared);
      announced := announced + Announcements(report.reappeared, before);
      log := log + [Observation(at, present.Keys)];
    }
  }

  // Exactly the reappearances that the rows show have been announced.
  ghost predicate AllAnnounced(announced: set<Announcement>, rows: seq<Row>) {
    forall a: Announcement {:trigger a in announced} :: a in announced <==>
      Announces(FlagsOf(rows, a.member), a.position)
  }

  // The members reported as back, each at the position of its next flag.
  ghost function Announcements(reappeared: seq<int>, before: seq<Row>): set<Announcement> {
    set m | m in reappeared :: Announcement(m, |FlagsOf(before, m)|)
  }

  lemma AnnouncedNext(announced: set<Announcement>, before: seq<Row>, rows: seq<Row>, ids: seq<int>, present: set<int>,
                      at: Instant, reappeared: seq<int>)
    requires AllAnnounced(announced, before) && RowsAdded(before, rows, ids, present, at)
    requires forall m :: m in present ==> m in ids
    requires forall m :: m in reappeared <==> m in present && WasMissing(before, m)
    ensures AllAnnounced(announced + Announcements(reappeared, before), rows)
  {
    forall a: Announcement
      ensures Announces(FlagsOf(rows, a.member), a.position) <==>
              a in announced || (a.member in reappeared && a.position == |FlagsOf(before, a.member)|)
    {
      var flags, more := FlagsOf(before, a.member), FlagsOf(rows, a.member);
      if a.position <= |flags| {
        assert more[..a.position] == flags[..a.position];
      }
      assert flags[..|flags|] == flags;
    }
  }

  lemma Reported(report: Report, ids: seq<int>, before: seq<Row>, known: set<int>, present: set<int>)
    requires Ascending(ids) && forall m :: m in ids <==> m in known || m in present
    requires report.observed == Pick(ids, present) && report.missing == Pick(ids, set m | m in ids && m !in present)
    requires report.reappeared == Pick(ids, set m | m in present && WasMissing(before, m))
    ensures Reports(report, before, known, present)
  {
    PickMeans(ids, present);
    PickMeans(ids, set m | m in ids && m !in present);
    PickMeans(ids, set m | m in present && WasMissing(before, m));
    forall m {
      WasMissingMeans(before, m);
    }
  }

  // What is known of a member before the observation; nothing of a new one.
  ghost function Stored(before: map<int, Member>, m: int): Member {
    if m in before then before[m] else Member(None, None, None, None)
  }

  // A member that is there has what the observation found reliably, otherwise what was stored, and
  // was seen last now; one that is missing is as it was.
  ghost predicate Updated(before: map<int, Member>, after: map<int, Member>, present: map<int, Sample>, at: Instant) {
    && (forall m :: m in after <==> m in before || m in present)
    && (forall m :: m in after && m !in present ==> after[m] == before[m])
    && (forall m :: m in after && m in present ==>
          var sample, was := present[m], Stored(before, m);
          && after[m].lastSeen == Some(at)
          && after[m].role == (if sample.role == None then was.role else sample.role)
          && after[m].model == (if sample.model == None then was.model else sample.model)
          && after[m].software == (if sample.software == None then was.software else sample.software))
  }

  // Exactly the sure changes are reported, each with the role before and the role found.
  ghost predicate AllRoleChanges(before: map<int, Member>, changes: seq<RoleChange>, present: map<int, Sample>) {
    forall c :: c in changes <==>
      && c.member in before && before[c.member].role == Some(c.previous)
      && c.member in present && present[c.member].role == Some(c.observed)
      && c.previous != c.observed
  }

  // The row of one member: whether it was there, the role found, and the role before where that is
  // known and another one.
  ghost predicate IsRowOf(row: Row, before: map<int, Member>, present: map<int, Sample>, m: int, at: Instant) {
    && row.member == m && row.at == at && (row.observed <==> m in present)
    && row.role == (if m in present then present[m].role else None)
    && row.previousRole == (if row.role != None && m in before && before[m].role != row.role then before[m].role
                            else None)
  }

  // One row for each member, in their order.
  ghost predicate AreRowsOf(added: seq<Row>, before: map<int, Member>, present: map<int, Sample>, ids: seq<int>,
                            at: Instant) {
    |added| == |ids| && forall k :: 0 <= k < |ids| ==> IsRowOf(added[k], before, present, ids[k], at)
  }

  lemma {:induction false} RowsForAre(before: map<int, Member>, present: map<int, Sample>, ids: seq<int>, at: Instant)
    ensures AreRowsOf(RowsFor(before, present, ids, at), before, present, ids, at)
  {
    if ids != [] {
      RowsForAre(before, present, ids[..|ids| - 1], at);
    }
  }

  // The member's latest row, the later one of equals, says that it was missing.
  ghost predicate LastMissed(rows: seq<Row>, m: int) {
    exists k :: 0 <= k < |rows| && IsLatestRow(rows, m, k) && !rows[k].observed
  }

  ghost predicate IsLatestRow(rows: seq<Row>, m: int, k: int)
    requires 0 <= k < |rows|
  {
    && rows[k].member == m
    && forall j :: 0 <= j < |rows| && rows[j].member == m ==>
         rows[j].at <= rows[k].at && (j > k ==> rows[j].at < rows[k].at)
  }

  lemma {:induction false} LatestRow(rows: seq<Row>, m: int) returns (k: int)
    ensures -1 <= k < |rows|
    ensures k == -1 ==> Latest(FlagsOf(rows, m)) == None && forall j :: 0 <= j < |rows| ==> rows[j].member != m
    ensures k >= 0 ==> IsLatestRow(rows, m, k) && Latest(FlagsOf(rows, m)) == Some(Flag(rows[k].at, rows[k].observed))
  {
    k := -1;
    if rows != [] {
      var front, row := rows[..|rows| - 1], rows[|rows| - 1];
      k := LatestRow(front, m);
      if row.member == m && (k == -1 || rows[k].at <= row.at) {
        k := |rows| - 1;
      }
      assert forall j :: 0 <= j < |front| ==> front[j] == rows[j];
    }
  }

  lemma WasMissingMeans(rows: seq<Row>, m: int)
    ensures WasMissing(rows, m) <==> LastMissed(rows, m)
  {
    var k := LatestRow(rows, m);
    if k >= 0 {
      assert forall j :: 0 <= j < |rows| && IsLatestRow(rows, m, j) ==> j == k;
    }
  }

  lemma AllDealtWith(before: map<int, Member>, after: map<int, Member>, changes: seq<RoleChange>,
                     ids: seq<int>, present: map<int, Sample>, at: Instant)
    requires forall m :: m in ids <==> m in before || m in present
    requires MembersAdded(before, after, ids, present, at) && RolesReported(before, changes, ids, present)
    ensures Updated(before, after, present, at) && AllRoleChanges(before, changes, present)
  {
  }

  // The rows still match what became known, and so do the members.
  lemma Concluded(log: seq<Event>, before: seq<Row>, known: set<int>, rows: seq<Row>, ids: seq<int>,
                  present: set<int>, at: Instant)
    requires forall m {:trigger Known(log, m)} :: m in known <==> Known(log, m)
    requires forall m {:trigger FlagsOf(before, m)} :: FlagsOf(before, m) == Expected(log, m)
    requires RowsAdded(before, rows, ids, present, at)
    requires forall m :: m in ids <==> m in known || m in present
    ensures var all := log + [Observation(at, present)];
            forall m :: (m in known || m in present <==> Known(all, m)) && FlagsOf(rows, m) == Expected(all, m)
  {
    forall m
      ensures var all := log + [Observation(at, present)];
              (m in known || m in present <==> Known(all, m)) && FlagsOf(rows, m) == Expected(all, m)
    {
      LogNext(log, Observation(at, present), m);
      assert Known(log, m) <==> m in known;
      assert FlagsOf(before, m) == Expected(log, m);
    }
  }

  // A member not dealt with so far is as it was.
  lemma RowForNext(before: map<int, Member>, now: map<int, Member>, present: map<int, Sample>, seen: seq<int>, id: int,
                   at: Instant)
    requires MembersAdded(before, now, seen, present, at) && id !in seen
    ensures RowsFor(before, present, seen + [id], at)
         == RowsFor(before, present, seen, at) + [RowFor(now, present, id, at)]
  {
    assert (seen + [id])[..|seen|] == seen;
  }

  // The members dealt with so far have the role they end up with, the others theirs.
  ghost predicate MembersAdded(before: map<int, Member>, after: map<int, Member>, seen: seq<int>,
                               present: map<int, Sample>, at: Instant)
  {
    && (forall m :: m in after <==> m in before || (m in seen && m in present))
    && (forall m :: m in after ==> after[m] == if m in seen then MemberAfter(before, present, m, at) else before[m])
  }

  lemma MemberAdded(before: map<int, Member>, after: map<int, Member>, seen: seq<int>,
                    present: map<int, Sample>, id: int, at: Instant)
    requires MembersAdded(before, after, seen, present, at) && id !in seen
    ensures MembersAdded(before, if id in present then after[id := MemberAfter(after, present, id, at)] else after,
                         seen + [id], present, at)
    ensures RoleChanged(after, present, id) <==> RoleChanged(before, present, id)
    ensures RoleChanged(after, present, id) ==> RoleBefore(after, id) == RoleBefore(before, id)
  {
  }

  // Exactly the sure changes of the members dealt with so far are reported.
  ghost predicate RolesReported(before: map<int, Member>, changes: seq<RoleChange>, seen: seq<int>,
                                present: map<int, Sample>)
  {
    forall c :: c in changes <==>
      && c.member in seen && RoleChanged(before, present, c.member)
      && c == RoleChange(c.member, RoleBefore(before, c.member).value, RoleFound(present, c.member).value)
  }

  lemma RoleReported(before: map<int, Member>, changes: seq<RoleChange>, seen: seq<int>,
                     present: map<int, Sample>, id: int)
    requires RolesReported(before, changes, seen, present)
    ensures RolesReported(before,
                          if RoleChanged(before, present, id)
                          then changes + [RoleChange(id, RoleBefore(before, id).value, RoleFound(present, id).value)]
                          else changes,
                          seen + [id], present)
  {
  }
}
