// Aggregation membership: grouping the ports a device reports, and reconciling the stored
// memberships with the groups.
module Aggregations {
  import opened Common

  type InterfaceId = int

  datatype Mapping = Mapping(aggregation: int, members: seq<int>)

  // ---- grouping the reported ports ------------------------------------------------------

  // A value of a walked column; anything but a number is ignored.
  datatype Value = Number(n: int) | Other

  predicate Usable(column: map<int, Value>, port: int) {
    port in column && column[port].Number? && column[port].n != 0
  }

  // The aggregation a port belongs to: attached before selected, and never itself.
  function AggregationOf(attached: map<int, Value>, selected: map<int, Value>, port: int): Option<int> {
    var aggregation :=
      if Usable(attached, port) then Some(attached[port].n)
      else if Usable(selected, port) then Some(selected[port].n)
      else None;
    if aggregation == Some(port) then None else aggregation
  }

  // The groups the ports belong to: each group once, in order, with
  // exactly its own ports, in order.
  ghost predicate Groups(mappings: seq<Mapping>, attached: map<int, Value>, selected: map<int, Value>) {
    && (forall i, j :: 0 <= i < j < |mappings| ==> mappings[i].aggregation < mappings[j].aggregation)
    && (forall i :: 0 <= i < |mappings| ==> mappings[i].members != [] && Ascending(mappings[i].members))
    && forall a, port ::
         InGroup(mappings, a, port) <==> Belongs(attached, selected, port, a)
  }

  // A port belongs to the aggregation it is attached to, or, where it is attached to none, to the
  // one it has selected; 0 and anything but a number stand for none, and no port is its own member.
  ghost predicate Belongs(attached: map<int, Value>, selected: map<int, Value>, port: int, a: int) {
    && a != port && a != 0
    && ((port in attached && attached[port] == Number(a))
        || ((port in attached ==> attached[port] == Number(0) || attached[port] == Other)
            && port in selected && selected[port] == Number(a)))
  }

  lemma BelongsMeans(attached: map<int, Value>, selected: map<int, Value>, port: int, a: int)
    ensures AggregationOf(attached, selected, port) == Some(a) <==> Belongs(attached, selected, port, a)
  {
  }

  ghost predicate InGroup(mappings: seq<Mapping>, a: int, port: int) {
    exists i :: 0 <= i < |mappings| && mappings[i].aggregation == a && port in mappings[i].members
  }

  // The ports seen so far, filed under their aggregations.
  ghost predicate Filed(grouped: map<int, seq<int>>, attached: map<int, Value>, selected: map<int, Value>,
                        seen: seq<int>) {
    && (forall a :: a in grouped ==> grouped[a] != [] && Ascending(grouped[a]))
    && (forall a, port ::
          a in grouped && port in grouped[a] <==> port in seen && AggregationOf(attached, selected, port) == Some(a))
  }

  function File(grouped: map<int, seq<int>>, a: int, port: int): map<int, seq<int>> {
    grouped[a := (if a in grouped then grouped[a] else []) + [port]]
  }

  lemma FiledNext(grouped: map<int, seq<int>>, attached: map<int, Value>, selected: map<int, Value>, seen: seq<int>,
                  port: int)
    requires Filed(grouped, attached, selected, seen) && Ascending(seen + [port])
    ensures Filed(match AggregationOf(attached, selected, port)
                  case Some(a) => File(grouped, a, port)
                  case None => grouped, attached, selected, seen + [port])
  {
    var aggregation := AggregationOf(attached, selected, port);
    if aggregation.Some? && aggregation.value in grouped {
      var members := grouped[aggregation.value];
      forall i | 0 <= i < |members|
        ensures members[i] < port
      {
        assert members[i] in seen;
        var j :| 0 <= j < |seen| && seen[j] == members[i];
        assert (seen + [port])[j] < (seen + [port])[|seen|];
      }
    }
  }

  method ParseAggregations(attached: map<int, Value>, selected: map<int, Value>) returns (mappings: seq<Mapping>)
    ensures Groups(mappings, attached, selected)
  {
    var grouped: map<int, seq<int>> := map[];
    var ports := Sorted(attached.Keys + selected.Keys);
    for k := 0 to |ports|
      invariant Filed(grouped, attached, selected, ports[..k])
    {
      var port := ports[k];
      assert ports[..k + 1] == ports[..k] + [port];
      FiledNext(grouped, attached, selected, ports[..k], port);
      var aggregation := AggregationOf(attached, selected, port);
      if aggregation.Some? {
        grouped := File(grouped, aggregation.value, port);
      }
    }
    assert ports[..|ports|] == ports;
    var keys := Sorted(grouped.Keys);
    mappings := [];
    assert forall i :: 0 <= i < |keys| ==> keys[i] in keys && keys[i] in grouped;
    for k := 0 to |keys|
      invariant |mappings| == k
      invariant forall i :: 0 <= i < k ==> mappings[i].aggregation == keys[i] && mappings[i].members == grouped[keys[i]]
    {
      mappings := mappings + [Mapping(keys[k], grouped[keys[k]])];
    }
    forall a, port
      ensures InGroup(mappings, a, port) <==> Belongs(attached, selected, port, a)
    {
      BelongsMeans(attached, selected, port, a);
      if AggregationOf(attached, selected, port) == Some(a) {
        assert port in ports && a in grouped && a in keys;
        var i :| 0 <= i < |keys| && keys[i] == a;
        assert mappings[i].aggregation == a;
      }
    }
  }

  // ---- reconciling the stored memberships -------------------------------------------------

  datatype Interface = Interface(device: int, ifIndex: Option<int>, isAggregation: bool)

  // The row that says that one interface is a member of another.
  datatype Membership = Membership(aggregation: InterfaceId, member: InterfaceId)

  datatype Unresolved = UnresolvedAggregation(ifIndex: int) | UnresolvedMember(ifIndex: int)

  // The rows of one device in the order they were loaded, each once.
  ghost predicate Loaded(interfaces: map<InterfaceId, Interface>, device: int, rows: seq<InterfaceId>) {
    && (forall id :: id in rows <==> id in interfaces && interfaces[id].device == device)
    && (forall i, j :: 0 <= i < j < |rows| ==> rows[i] != rows[j])
  }

  // The row an ifIndex stands for: the last loaded one that has it.
  ghost function Resolve(interfaces: map<InterfaceId, Interface>, rows: seq<InterfaceId>, ifIndex: int)
    : Option<InterfaceId>
    requires forall id :: id in rows ==> id in interfaces
  {
    if rows == [] then None
    else
      var last := rows[|rows| - 1];
      if interfaces[last].ifIndex == Some(ifIndex) then Some(last)
      else Resolve(interfaces, rows[..|rows| - 1], ifIndex)
  }

  lemma {:induction false} ResolveMeans(interfaces: map<InterfaceId, Interface>, rows: seq<InterfaceId>, ifIndex: int)
    requires forall id :: id in rows ==> id in interfaces
    ensures match Resolve(interfaces, rows, ifIndex)
            case Some(id) => id in rows && interfaces[id].ifIndex == Some(ifIndex)
            case None => forall id :: id in rows ==> interfaces[id].ifIndex != Some(ifIndex)
  {
    if rows != [] {
      ResolveMeans(interfaces, rows[..|rows| - 1], ifIndex);
    }
  }

  // Row number `k` is the last loaded one that has the ifIndex.
  ghost predicate IsLastWith(interfaces: map<InterfaceId, Interface>, rows: seq<InterfaceId>, ifIndex: int, k: int) {
    && 0 <= k < |rows| && rows[k] in interfaces && interfaces[rows[k]].ifIndex == Some(ifIndex)
    && forall j :: k < j < |rows| && rows[j] in interfaces ==> interfaces[rows[j]].ifIndex != Some(ifIndex)
  }

  // Every known ifIndex stands for the last row that has it.
  ghost predicate StandForLast(byIndex: map<int, InterfaceId>, interfaces: map<InterfaceId, Interface>,
                               rows: seq<InterfaceId>) {
    && (forall x, k :: IsLastWith(interfaces, rows, x, k) ==> x in byIndex && byIndex[x] == rows[k])
    && (forall x :: x in byIndex ==> exists k :: IsLastWith(interfaces, rows, x, k))
  }

  lemma {:induction false} ResolvesToLast(interfaces: map<InterfaceId, Interface>, rows: seq<InterfaceId>, ifIndex: int)
    returns (k: int)
    requires forall id :: id in rows ==> id in interfaces
    ensures Resolve(interfaces, rows, ifIndex).None? ==> forall j :: !IsLastWith(interfaces, rows, ifIndex, j)
    ensures Resolve(interfaces, rows, ifIndex).Some? ==>
              && IsLastWith(interfaces, rows, ifIndex, k) && Resolve(interfaces, rows, ifIndex) == Some(rows[k])
              && forall j :: IsLastWith(interfaces, rows, ifIndex, j) ==> j == k
  {
    k := |rows| - 1;
    if rows != [] {
      var front, last := rows[..k], rows[k];
      assert last in rows;
      if interfaces[last].ifIndex == Some(ifIndex) {
        assert IsLastWith(interfaces, rows, ifIndex, k);
      } else {
        k := ResolvesToLast(interfaces, front, ifIndex);
        assert forall j :: 0 <= j < |front| ==> front[j] == rows[j];
        forall j | IsLastWith(interfaces, rows, ifIndex, j)
          ensures IsLastWith(interfaces, front, ifIndex, j)
        {
        }
      }
    }
  }

  lemma IndexesAreLast(byIndex: map<int, InterfaceId>, interfaces: map<InterfaceId, Interface>, rows: seq<InterfaceId>)
    requires forall id :: id in rows ==> id in interfaces
    requires Indexes(byIndex, interfaces, rows)
    ensures StandForLast(byIndex, interfaces, rows)
  {
    forall x
      ensures forall k :: IsLastWith(interfaces, rows, x, k) ==> x in byIndex && byIndex[x] == rows[k]
      ensures x in byIndex ==> exists k :: IsLastWith(interfaces, rows, x, k)
    {
      var k := ResolvesToLast(interfaces, rows, x);
      assert Resolve(interfaces, rows, x) == if x in byIndex then Some(byIndex[x]) else None;
    }
  }

  // Which row every known ifIndex of the device stands for.
  ghost predicate Indexes(byIndex: map<int, InterfaceId>, interfaces: map<InterfaceId, Interface>,
                          rows: seq<InterfaceId>)
    requires forall id :: id in rows ==> id in interfaces
  {
    forall x :: Resolve(interfaces, rows, x) == if x in byIndex then Some(byIndex[x]) else None
  }

  lemma IndexMeans(byIndex: map<int, InterfaceId>, interfaces: map<InterfaceId, Interface>, rows: seq<InterfaceId>,
                   x: int)
    requires forall id :: id in rows ==> id in interfaces
    requires Indexes(byIndex, interfaces, rows)
    ensures x in byIndex ==> byIndex[x] in rows && interfaces[byIndex[x]].ifIndex == Some(x)
    ensures x !in byIndex ==> forall id :: id in rows ==> interfaces[id].ifIndex != Some(x)
  {
    assert Resolve(interfaces, rows, x) == if x in byIndex then Some(byIndex[x]) else None;
    ResolveMeans(interfaces, rows, x);
  }

  // One of the first `k` mappings is for this ifIndex.
  predicate IsMapped(mappings: seq<Mapping>, k: nat, ifIndex: int)
    requires k <= |mappings|
  {
    exists i :: 0 <= i < k && mappings[i].aggregation == ifIndex
  }

  // One of the first `k` mappings is for this row.
  ghost predicate Done(byIndex: map<int, InterfaceId>, mappings: seq<Mapping>, k: nat, a: InterfaceId)
    requires k <= |mappings|
  {
    exists i :: 0 <= i < k && mappings[i].aggregation in byIndex && byIndex[mappings[i].aggregation] == a
  }

  ghost predicate HasMember(byIndex: map<int, InterfaceId>, m: Mapping, id: InterfaceId) {
    exists i :: 0 <= i < |m.members| && m.members[i] in byIndex && byIndex[m.members[i]] == id
  }

  // One of the first `k` mappings calls for this membership.
  ghost predicate Wanted(byIndex: map<int, InterfaceId>, mappings: seq<Mapping>, k: nat, p: Membership)
    requires k <= |mappings|
  {
    exists i :: 0 <= i < k && mappings[i].aggregation in byIndex && byIndex[mappings[i].aggregation] == p.aggregation
                && HasMember(byIndex, mappings[i], p.member)
  }

  // The call decides about an interface whose ifIndex is known, unless that ifIndex is
  // mapped and stands for another row.
  ghost predicate Decided(byIndex: map<int, InterfaceId>, mappings: seq<Mapping>, id: InterfaceId, row: Interface) {
    row.ifIndex.Some? && (IsMapped(mappings, |mappings|, row.ifIndex.value) ==> Done(byIndex, mappings, |mappings|, id))
  }

  predicate Stale(mappings: seq<Mapping>, row: Interface) {
    row.ifIndex.Some? && !IsMapped(mappings, |mappings|, row.ifIndex.value)
  }

  ghost predicate DistinctGroups(mappings: seq<Mapping>) {
    forall i, j :: 0 <= i < j < |mappings| ==> mappings[i].aggregation != mappings[j].aggregation
  }

  // The memberships once the first `k` mappings have been dealt with.
  ghost predicate Stage(byIndex: map<int, InterfaceId>, mappings: seq<Mapping>, k: nat, before: set<Membership>,
                        after: set<Membership>)
    requires k <= |mappings|
  {
    forall p: Membership :: p in after <==>
      if Done(byIndex, mappings, k, p.aggregation) then Wanted(byIndex, mappings, k, p) else p in before
  }

  lemma IndexIsInjective(byIndex: map<int, InterfaceId>, interfaces: map<InterfaceId, Interface>,
                         rows: seq<InterfaceId>,
                         x: int, y: int)
    requires forall id :: id in rows ==> id in interfaces
    requires Indexes(byIndex, interfaces, rows) && x in byIndex && y in byIndex && byIndex[x] == byIndex[y]
    ensures x == y
  {
    IndexMeans(byIndex, interfaces, rows, x);
    IndexMeans(byIndex, interfaces, rows, y);
  }

  ghost predicate Injective(byIndex: map<int, InterfaceId>) {
    forall x, y :: x in byIndex && y in byIndex && byIndex[x] == byIndex[y] ==> x == y
  }

  // A mapping is for a row that no earlier mapping was for.
  lemma NotYetDone(byIndex: map<int, InterfaceId>, mappings: seq<Mapping>, k: nat)
    requires Injective(byIndex) && DistinctGroups(mappings) && k < |mappings| && mappings[k].aggregation in byIndex
    ensures !Done(byIndex, mappings, k, byIndex[mappings[k].aggregation])
  {
  }

  ghost predicate SameMembers(a: InterfaceId, before: set<Membership>, now: set<Membership>) {
    forall id :: Membership(a, id) in now <==> Membership(a, id) in before
  }

  lemma StillSame(byIndex: map<int, InterfaceId>, mappings: seq<Mapping>, k: nat, before: set<Membership>,
                  now: set<Membership>)
    requires Injective(byIndex) && DistinctGroups(mappings) && k < |mappings|
    requires Stage(byIndex, mappings, k, before, now)
    ensures mappings[k].aggregation in byIndex ==> SameMembers(byIndex[mappings[k].aggregation], before, now)
  {
    if mappings[k].aggregation in byIndex {
      NotYetDone(byIndex, mappings, k);
    }
  }

  // What one mapping makes of the memberships, of the flags, and of the ports without a row.
  ghost predicate MembersFor(byIndex: map<int, InterfaceId>, m: Mapping, now: set<Membership>, next: set<Membership>) {
    if m.aggregation in byIndex
    then forall p: Membership :: p in next <==> if p.aggregation == byIndex[m.aggregation]
                                                then HasMember(byIndex, m, p.member) else p in now
    else next == now
  }

  ghost predicate FlagFor(byIndex: map<int, InterfaceId>, m: Mapping,
                          now: map<InterfaceId, Interface>, next: map<InterfaceId, Interface>)
  {
    if m.aggregation in byIndex
    then byIndex[m.aggregation] in now
      && next == now[byIndex[m.aggregation] := now[byIndex[m.aggregation]].(isAggregation := true)]
    else next == now
  }

  ghost predicate UnknownFor(byIndex: map<int, InterfaceId>, m: Mapping, more: set<Unresolved>) {
    if m.aggregation in byIndex
    then forall u :: u in more <==> u.UnresolvedMember? && u.ifIndex in m.members && u.ifIndex !in byIndex
    else more == {UnresolvedAggregation(m.aggregation)}
  }

  lemma StageNext(byIndex: map<int, InterfaceId>, mappings: seq<Mapping>, k: nat,
                  before: set<Membership>, now: set<Membership>, next: set<Membership>)
    requires Injective(byIndex) && DistinctGroups(mappings) && k < |mappings|
    requires Stage(byIndex, mappings, k, before, now) && MembersFor(byIndex, mappings[k], now, next)
    ensures Stage(byIndex, mappings, k + 1, before, next)
  {
  }

  lemma WantedNeedsDone(byIndex: map<int, InterfaceId>, mappings: seq<Mapping>, k: nat, p: Membership)
    requires k <= |mappings|
    ensures Wanted(byIndex, mappings, k, p) ==> Done(byIndex, mappings, k, p.aggregation)
  {
  }

  class Tables {
    var interfaces: map<InterfaceId, Interface>
    var members: set<Membership>

    method IndexRows(rows: seq<InterfaceId>) returns (byIndex: map<int, InterfaceId>)
      requires forall id :: id in rows ==> id in interfaces
      ensures Indexes(byIndex, interfaces, rows) && StandForLast(byIndex, interfaces, rows)
    {
      byIndex := map[];
      for k := 0 to |rows|
        invariant forall x :: Resolve(interfaces, rows[..k], x) == if x in byIndex then Some(byIndex[x]) else None
      {
        var id := rows[k];
        assert rows[..k + 1][..k] == rows[..k] && id in rows;
        var row := interfaces[id];
        if row.ifIndex.Some? {
          byIndex := byIndex[row.ifIndex.value := id];
        }
      }
      assert rows[..|rows|] == rows;
      IndexesAreLast(byIndex, interfaces, rows);
    }

    method AddMembers(a: InterfaceId, missing: set<InterfaceId>, ghost before: set<Membership>) returns (added: nat)
      requires forall m :: m in missing ==> Membership(a, m) !in members && Membership(a, m) !in before
      modifies this`members
      ensures forall p: Membership :: p in members <==> p in old(members) || (p.aggregation == a && p.member in missing)
      ensures |members - before| == |old(members) - before| + added
      ensures before - members == before - old(members)
    {
      added := 0;
      var todo := missing;
      while todo != {}
        invariant todo <= missing
        invariant forall p: Membership :: p in members <==>
                    p in old(members) || (p.aggregation == a && p.member in missing - todo)
        invariant |members - before| == |old(members) - before| + added
        invariant before - members == before - old(members)
      {
        HasElement(todo);
        var m :| m in todo;
        todo := todo - {m};
        assert members + {Membership(a, m)} - before == (members - before) + {Membership(a, m)};
        members := members + {Membership(a, m)};
        added := added + 1;
      }
    }

    method RemoveMembers(gone: set<Membership>, ghost before: set<Membership>) returns (removed: nat)
      requires gone <= members && gone <= before
      modifies this`members
      ensures members == old(members) - gone
      ensures members - before == old(members) - before
      ensures |before - members| == |before - old(members)| + removed
    {
      removed := 0;
      var todo := gone;
      while todo != {}
        invariant todo <= gone
        invariant forall p: Membership :: p in members <==> p in old(members) && (p in gone ==> p in todo)
        invariant members - before == old(members) - before
        invariant |before - members| == |before - old(members)| + removed
      {
        var p :| p in todo;
        todo := todo - {p};
        assert before - (members - {p}) == (before - members) + {p};
        assert members - {p} - before == members - before;
        members := members - {p};
        removed := removed + 1;
      }
    }

    // Brings the memberships of one aggregation to the desired ones and touches no other.
    method ReconcileOne(a: InterfaceId, desired: set<InterfaceId>, ghost before: set<Membership>)
      returns (added: nat, removed: nat)
      requires SameMembers(a, before, members)
      modifies this`members
      ensures forall p: Membership :: p in members <==>
                if p.aggregation == a then p.member in desired else p in old(members)
      ensures |members - before| == |old(members) - before| + added
      ensures |before - members| == |before - old(members)| + removed
    {
      var current := set p | p in members && p.aggregation == a :: p.member;
      assert forall m :: m in current <==> Membership(a, m) in members;
      added := AddMembers(a, desired - current, before);
      var gone := set p | p in members && p.aggregation == a && p.member !in desired;
      removed := RemoveMembers(gone, before);
    }

    // The rows a mapping's ports stand for, and the ports that stand for none.
    method ResolveMembers(byIndex: map<int, InterfaceId>, m: Mapping)
      returns (desired: set<InterfaceId>, unresolved: set<Unresolved>)
      ensures forall id :: id in desired <==> HasMember(byIndex, m, id)
      ensures forall u :: u in unresolved <==> u.UnresolvedMember? && u.ifIndex in m.members && u.ifIndex !in byIndex
    {
      desired, unresolved := {}, {};
      for i := 0 to |m.members|
        invariant forall id :: id in desired <==> HasMember(byIndex, m.(members := m.members[..i]), id)
        invariant forall u :: u in unresolved <==>
                    u.UnresolvedMember? && u.ifIndex in m.members[..i] && u.ifIndex !in byIndex
      {
        var port := m.members[i];
        assert m.members[..i + 1] == m.members[..i] + [port];
        ghost var seen := m.(members := m.members[..i + 1]);
        forall id
          ensures HasMember(byIndex, seen, id)
             <==> HasMember(byIndex, m.(members := m.members[..i]), id) || (port in byIndex && byIndex[port] == id)
        {
          assert seen.members[i] == port;
          assert forall j :: 0 <= j < i ==> seen.members[j] == m.members[..i][j];
        }
        if port in byIndex {
          desired := desired + {byIndex[port]};
        } else {
          unresolved := unresolved + {UnresolvedMember(port)};
        }
      }
      assert m.members[..|m.members|] == m.members;
    }

    // One mapping: its row, if there is one, becomes an aggregation with exactly the members
    // that have rows.
    method ApplyMapping(byIndex: map<int, InterfaceId>, m: Mapping, ghost before: set<Membership>)
      returns (added: nat, removed: nat, unknown: set<Unresolved>)
      requires m.aggregation in byIndex ==>
                 byIndex[m.aggregation] in interfaces && SameMembers(byIndex[m.aggregation], before, members)
      modifies this
      ensures MembersFor(byIndex, m, old(members), members) && FlagFor(byIndex, m, old(interfaces), interfaces)
      ensures UnknownFor(byIndex, m, unknown)
      ensures |members - before| == |old(members) - before| + added
      ensures |before - members| == |before - old(members)| + removed
    {
      if m.aggregation !in byIndex {
        added, removed, unknown := 0, 0, {UnresolvedAggregation(m.aggregation)};
      } else {
        var a := byIndex[m.aggregation];
        interfaces := interfaces[a := interfaces[a].(isAggregation := true)];
        var desired;
        desired, unknown := ResolveMembers(byIndex, m);
        added, removed := ReconcileOne(a, desired, before);
      }
    }

    // Mapped rows become aggregations with exactly their mapping's resolvable members.
    method ApplyMappings(byIndex: map<int, InterfaceId>, mappings: seq<Mapping>)
      returns (added: nat, removed: nat, unresolved: set<Unresolved>)
      requires Injective(byIndex) && DistinctGroups(mappings)
      requires forall x :: x in byIndex ==> byIndex[x] in interfaces
      modifies this
      ensures Stage(byIndex, mappings, |mappings|, old(members), members)
      ensures FlagsAfter(byIndex, mappings, |mappings|, old(interfaces), interfaces)
      ensures added == |members - old(members)| && removed == |old(members) - members|
      ensures UnresolvedUpTo(byIndex, mappings, |mappings|, unresolved)
    {
      added, removed, unresolved := 0, 0, {};
      ghost var before := members;
      for k := 0 to |mappings|
        invariant Stage(byIndex, mappings, k, before, members)
        invariant FlagsAfter(byIndex, mappings, k, old(interfaces), interfaces)
        invariant added == |members - before| && removed == |before - members|
        invariant UnresolvedUpTo(byIndex, mappings, k, unresolved)
      {
        ghost var now, earlier := members, interfaces;
        StillSame(byIndex, mappings, k, before, now);
        var more, fewer, unknown := ApplyMapping(byIndex, mappings[k], before);
        UnresolvedNext(byIndex, mappings, k, unresolved, unknown);
        StageNext(byIndex, mappings, k, before, now, members);
        FlagsNext(byIndex, mappings, k, old(interfaces), earlier, interfaces);
        added, removed, unresolved := added + more, removed + fewer, unresolved + unknown;
      }
    }

    // Rows whose ifIndex is known and no longer mapped lose their memberships and their flag.
    method ClearStale(rows: seq<InterfaceId>, mappings: seq<Mapping>, ghost before: set<Membership>)
      returns (removed: nat)
      requires forall id :: id in rows ==> id in interfaces
      requires forall p: Membership ::
                 p in members && p.aggregation in rows && Stale(mappings, interfaces[p.aggregation]) ==> p in before
      modifies this
      ensures forall p: Membership :: p in members <==>
                p in old(members) && !(p.aggregation in rows && Stale(mappings, old(interfaces)[p.aggregation]))
      ensures members - before == old(members) - before
      ensures |before - members| == |before - old(members)| + removed
      ensures FlagsCleared(rows, mappings, old(interfaces), interfaces)
    {
      var gone := set p | p in members && p.aggregation in rows && Stale(mappings, interfaces[p.aggregation]);
      removed := RemoveMembers(gone, before);
      ClearFlags(rows, mappings);
    }

    method ClearFlags(rows: seq<InterfaceId>, mappings: seq<Mapping>)
      requires forall id :: id in rows ==> id in interfaces
      modifies this`interfaces
      ensures FlagsCleared(rows, mappings, old(interfaces), interfaces)
    {
      for i := 0 to |rows|
        invariant FlagsCleared(rows[..i], mappings, old(interfaces), interfaces)
      {
        var id := rows[i];
        assert rows[..i + 1] == rows[..i] + [id];
        if interfaces[id].isAggregation && Stale(mappings, interfaces[id]) {
          interfaces := interfaces[id := interfaces[id].(isAggregation := false)];
        }
      }
      assert rows[..|rows|] == rows;
    }

    // Reconciles the memberships of a device with what it reports, in both directions. Every
    // row the call decides about ends with exactly the memberships the mappings call for, and
    // is flagged exactly if it is mapped; nothing else changes; and the counts are those of
    // the memberships that are new and those that are gone.
    method SyncAggregations(device: int, rows: seq<InterfaceId>, mappings: seq<Mapping>)
      returns (added: nat, removed: nat, unresolved: set<Unresolved>, ghost byIndex: map<int, InterfaceId>)
      requires Loaded(interfaces, device, rows) && DistinctGroups(mappings)
      modifies this
      ensures Indexes(byIndex, old(interfaces), rows) && StandForLast(byIndex, old(interfaces), rows)
      ensures Reconciled(byIndex, rows, mappings, old(interfaces), old(members), interfaces, members)
      ensures added == |members - old(members)| && removed == |old(members) - members|
      ensures |members| + removed == |old(members)| + added
      ensures UnresolvedUpTo(byIndex, mappings, |mappings|, unresolved)
    {
      var index := IndexRows(rows);
      byIndex := index;
      forall x, y | x in byIndex && y in byIndex && byIndex[x] == byIndex[y]
        ensures x == y
      {
        IndexIsInjective(byIndex, interfaces, rows, x, y);
      }
      forall x | x in byIndex
        ensures byIndex[x] in interfaces
      {
        IndexMeans(byIndex, interfaces, rows, x);
      }
      added, removed, unresolved := ApplyMappings(index, mappings);
      ghost var stage, flagged := members, interfaces;
      StaleIsNotDone(byIndex, rows, mappings, old(interfaces));
      var cleared := ClearStale(rows, mappings, old(members));
      removed := removed + cleared;
      Conclude(byIndex, rows, mappings, old(interfaces), old(members), flagged, stage, interfaces, members);
      CountsOfChange(old(members), members);
    }
  }

  lemma CountsOfChange(before: set<Membership>, after: set<Membership>)
    ensures |after| + |before - after| == |before| + |after - before|
  {
  }

  ghost predicate FlagsAfter(byIndex: map<int, InterfaceId>, mappings: seq<Mapping>, k: nat,
                             before: map<InterfaceId, Interface>, after: map<InterfaceId, Interface>)
    requires k <= |mappings|
  {
    && after.Keys == before.Keys
    && forall id :: id in after ==>
         after[id] == before[id].(isAggregation := before[id].isAggregation || Done(byIndex, mappings, k, id))
  }

  lemma FlagsNext(byIndex: map<int, InterfaceId>, mappings: seq<Mapping>, k: nat,
                  before: map<InterfaceId, Interface>, now: map<InterfaceId, Interface>,
                  next: map<InterfaceId, Interface>)
    requires k < |mappings| && FlagsAfter(byIndex, mappings, k, before, now) && FlagFor(byIndex, mappings[k], now, next)
    ensures FlagsAfter(byIndex, mappings, k + 1, before, next)
  {
  }

  // A mapping without a row is reported itself, any other by its ports without a row.
  lemma UnresolvedNext(byIndex: map<int, InterfaceId>, mappings: seq<Mapping>, k: nat, unresolved: set<Unresolved>,
                       more: set<Unresolved>)
    requires k < |mappings| && UnresolvedUpTo(byIndex, mappings, k, unresolved)
    requires UnknownFor(byIndex, mappings[k], more)
    ensures UnresolvedUpTo(byIndex, mappings, k + 1, unresolved + more)
  {
  }

  ghost predicate FlagsCleared(rows: seq<InterfaceId>, mappings: seq<Mapping>,
                               before: map<InterfaceId, Interface>, after: map<InterfaceId, Interface>)
  {
    && after.Keys == before.Keys
    && forall id :: id in after ==>
         after[id] == if id in rows && Stale(mappings, before[id]) then before[id].(isAggregation := false)
                     else before[id]
  }

  ghost predicate HasPort(byIndex: map<int, InterfaceId>, m: Mapping, x: int) {
    m.aggregation in byIndex && x in m.members
  }

  // The port belongs to one of the first `k` mappings that have a row.
  ghost predicate IsMember(byIndex: map<int, InterfaceId>, mappings: seq<Mapping>, k: nat, x: int)
    requires k <= |mappings|
  {
    exists i :: 0 <= i < k && HasPort(byIndex, mappings[i], x)
  }

  // Exactly the ifIndexes without a row are reported.
  ghost predicate UnresolvedUpTo(byIndex: map<int, InterfaceId>, mappings: seq<Mapping>, k: nat,
                                 unresolved: set<Unresolved>)
    requires k <= |mappings|
  {
    && (forall x :: UnresolvedAggregation(x) in unresolved <==> IsMapped(mappings, k, x) && x !in byIndex)
    && (forall x :: UnresolvedMember(x) in unresolved <==> x !in byIndex && IsMember(byIndex, mappings, k, x))
  }

  // The tables after the call, in terms of the tables before it.
  ghost predicate Reconciled(byIndex: map<int, InterfaceId>, rows: seq<InterfaceId>, mappings: seq<Mapping>,
                             interfaces: map<InterfaceId, Interface>, members: set<Membership>,
                             interfaces': map<InterfaceId, Interface>, members': set<Membership>)
    requires forall id :: id in rows ==> id in interfaces
  {
    && (forall p: Membership :: p in members' <==>
          if p.aggregation in rows && Decided(byIndex, mappings, p.aggregation, interfaces[p.aggregation])
          then Wanted(byIndex, mappings, |mappings|, p) else p in members)
    && interfaces'.Keys == interfaces.Keys
    && forall id :: id in interfaces ==>
         interfaces'[id] == if id in rows && Decided(byIndex, mappings, id, interfaces[id])
                            then interfaces[id].(
                              isAggregation := IsMapped(mappings, |mappings|, interfaces[id].ifIndex.value))
                            else interfaces[id]
  }

  // A row that a mapping was for has a mapped ifIndex.
  lemma StaleIsNotDone(byIndex: map<int, InterfaceId>, rows: seq<InterfaceId>, mappings: seq<Mapping>,
                       interfaces: map<InterfaceId, Interface>)
    requires forall id :: id in rows ==> id in interfaces
    requires Indexes(byIndex, interfaces, rows)
    ensures forall id :: Done(byIndex, mappings, |mappings|, id) ==>
              id in rows && interfaces[id].ifIndex.Some? && IsMapped(mappings, |mappings|, interfaces[id].ifIndex.value)
  {
    forall id | Done(byIndex, mappings, |mappings|, id)
      ensures id in rows && interfaces[id].ifIndex.Some? && IsMapped(mappings, |mappings|, interfaces[id].ifIndex.value)
    {
      var i :| 0 <= i < |mappings| && mappings[i].aggregation in byIndex && byIndex[mappings[i].aggregation] == id;
      IndexMeans(byIndex, interfaces, rows, mappings[i].aggregation);
    }
  }

  lemma Conclude(byIndex: map<int, InterfaceId>, rows: seq<InterfaceId>, mappings: seq<Mapping>,
                 interfaces: map<InterfaceId, Interface>, members: set<Membership>,
                 flagged: map<InterfaceId, Interface>, stage: set<Membership>,
                 interfaces': map<InterfaceId, Interface>, members': set<Membership>)
    requires forall id :: id in rows ==> id in interfaces
    requires Indexes(byIndex, interfaces, rows)
    requires Stage(byIndex, mappings, |mappings|, members, stage)
    requires FlagsAfter(byIndex, mappings, |mappings|, interfaces, flagged)
    requires forall p: Membership :: p in members' <==>
               p in stage && !(p.aggregation in rows && Stale(mappings, flagged[p.aggregation]))
    requires FlagsCleared(rows, mappings, flagged, interfaces')
    ensures Reconciled(byIndex, rows, mappings, interfaces, members, interfaces', members')
  {
    StaleIsNotDone(byIndex, rows, mappings, interfaces);
    forall p: Membership
      ensures p in members' <==>
              if p.aggregation in rows && Decided(byIndex, mappings, p.aggregation, interfaces[p.aggregation])
              then Wanted(byIndex, mappings, |mappings|, p) else p in members
    {
      WantedNeedsDone(byIndex, mappings, |mappings|, p);
    }
  }

  // ---- what the reconciliation means ------------------------------------------------------

  ghost predicate DistinctIndexes(interfaces: map<InterfaceId, Interface>, rows: seq<InterfaceId>)
    requires forall id :: id in rows ==> id in interfaces
  {
    forall a, b ::
      a in rows && b in rows && interfaces[a].ifIndex.Some? && interfaces[a].ifIndex == interfaces[b].ifIndex ==> a == b
  }

  // A row with a known ifIndex is passed over exactly when that ifIndex is mapped and
  // resolves to another row.
  lemma PassedOver(byIndex: map<int, InterfaceId>, rows: seq<InterfaceId>, mappings: seq<Mapping>,
                   interfaces: map<InterfaceId, Interface>, id: InterfaceId)
    requires forall r :: r in rows ==> r in interfaces
    requires Indexes(byIndex, interfaces, rows) && id in rows && interfaces[id].ifIndex.Some?
    ensures var x := interfaces[id].ifIndex.value;
            !Decided(byIndex, mappings, id, interfaces[id])
            <==> IsMapped(mappings, |mappings|, x) && Resolve(interfaces, rows, x) != Some(id)
  {
    var x := interfaces[id].ifIndex.value;
    IndexMeans(byIndex, interfaces, rows, x);
    assert Resolve(interfaces, rows, x) == Some(byIndex[x]);
    if Done(byIndex, mappings, |mappings|, id) {
      var i :| 0 <= i < |mappings| && mappings[i].aggregation in byIndex && byIndex[mappings[i].aggregation] == id;
      IndexMeans(byIndex, interfaces, rows, mappings[i].aggregation);
    }
    if IsMapped(mappings, |mappings|, x) && byIndex[x] == id {
      var i :| 0 <= i < |mappings| && mappings[i].aggregation == x;
      assert Done(byIndex, mappings, |mappings|, id);
    }
  }

  // The row ends as the mappings call for: flagged exactly if its ifIndex is mapped, and with
  // exactly the members they want for it.
  ghost predicate EndsRight(byIndex: map<int, InterfaceId>, mappings: seq<Mapping>, id: InterfaceId, row: Interface,
                            members: set<Membership>) {
    && row.ifIndex.Some? && (row.isAggregation <==> IsMapped(mappings, |mappings|, row.ifIndex.value))
    && forall m :: Membership(id, m) in members <==> Wanted(byIndex, mappings, |mappings|, Membership(id, m))
  }

  // The same rows, whatever their flags.
  ghost predicate SameIndexes(before: map<InterfaceId, Interface>, interfaces: map<InterfaceId, Interface>) {
    before.Keys == interfaces.Keys && forall id :: id in before ==> before[id].ifIndex == interfaces[id].ifIndex
  }

  // It does so for every earlier flag and membership.
  ghost predicate AlwaysEndsRight(byIndex: map<int, InterfaceId>, rows: seq<InterfaceId>, mappings: seq<Mapping>,
                                  interfaces: map<InterfaceId, Interface>, id: InterfaceId)
    requires id in interfaces && forall r :: r in rows ==> r in interfaces
  {
    forall before, members, after, members' ::
      SameIndexes(before, interfaces) && Reconciled(byIndex, rows, mappings, before, members, after, members') ==>
        EndsRight(byIndex, mappings, id, after[id], members')
  }

  ghost function WantedRows(byIndex: map<int, InterfaceId>, mappings: seq<Mapping>): set<Membership> {
    set x, y | x in byIndex && y in byIndex
              && Wanted(byIndex, mappings, |mappings|, Membership(byIndex[x], byIndex[y])) ::
      Membership(byIndex[x], byIndex[y])
  }

  lemma AllWantedRows(byIndex: map<int, InterfaceId>, mappings: seq<Mapping>, p: Membership)
    ensures p in WantedRows(byIndex, mappings) <==> Wanted(byIndex, mappings, |mappings|, p)
  {
    if Wanted(byIndex, mappings, |mappings|, p) {
      var i :| 0 <= i < |mappings| && mappings[i].aggregation in byIndex
               && byIndex[mappings[i].aggregation] == p.aggregation
               && HasMember(byIndex, mappings[i], p.member);
      var j :| 0 <= j < |mappings[i].members| && mappings[i].members[j] in byIndex
               && byIndex[mappings[i].members[j]] == p.member;
      var x, y := mappings[i].aggregation, mappings[i].members[j];
      assert Membership(byIndex[x], byIndex[y]) == p && x in byIndex && y in byIndex;
      assert Membership(byIndex[x], byIndex[y]) in WantedRows(byIndex, mappings);
    }
  }

  // Any tables have a reconciled form.
  lemma CanReconcile(byIndex: map<int, InterfaceId>, rows: seq<InterfaceId>, mappings: seq<Mapping>,
                     interfaces: map<InterfaceId, Interface>, members: set<Membership>)
    returns (after: map<InterfaceId, Interface>, members': set<Membership>)
    requires forall id :: id in rows ==> id in interfaces
    requires Indexes(byIndex, interfaces, rows)
    ensures Reconciled(byIndex, rows, mappings, interfaces, members, after, members')
  {
    after := map id | id in interfaces ::
      if id in rows && Decided(byIndex, mappings, id, interfaces[id])
      then interfaces[id].(isAggregation := IsMapped(mappings, |mappings|, interfaces[id].ifIndex.value))
      else interfaces[id];
    var decided := set id | id in rows && Decided(byIndex, mappings, id, interfaces[id]);
    var kept := set p | p in members && p.aggregation !in decided;
    members' := kept + WantedRows(byIndex, mappings);
    StaleIsNotDone(byIndex, rows, mappings, interfaces);
    forall p: Membership
      ensures p in members' <==>
              if p.aggregation in rows && Decided(byIndex, mappings, p.aggregation, interfaces[p.aggregation])
              then Wanted(byIndex, mappings, |mappings|, p) else p in members
    {
      AllWantedRows(byIndex, mappings, p);
      WantedNeedsDone(byIndex, mappings, |mappings|, p);
    }
  }

  lemma DecidedEndsRight(byIndex: map<int, InterfaceId>, rows: seq<InterfaceId>, mappings: seq<Mapping>,
                         before: map<InterfaceId, Interface>, members: set<Membership>,
                         after: map<InterfaceId, Interface>, members': set<Membership>, id: InterfaceId)
    requires forall r :: r in rows ==> r in before
    requires id in rows && Decided(byIndex, mappings, id, before[id])
    requires Reconciled(byIndex, rows, mappings, before, members, after, members')
    ensures EndsRight(byIndex, mappings, id, after[id], members')
  {
  }

  // A row with a known ifIndex ends right, whatever its earlier flag and memberships were,
  // exactly if its ifIndex is not mapped or stands for the row itself.
  lemma AlwaysEndsRightMeans(byIndex: map<int, InterfaceId>, rows: seq<InterfaceId>, mappings: seq<Mapping>,
                             interfaces: map<InterfaceId, Interface>, id: InterfaceId)
    requires forall r :: r in rows ==> r in interfaces
    requires Indexes(byIndex, interfaces, rows) && id in rows && interfaces[id].ifIndex.Some?
    ensures AlwaysEndsRight(byIndex, rows, mappings, interfaces, id)
       <==> !IsMapped(mappings, |mappings|, interfaces[id].ifIndex.value)
            || Resolve(interfaces, rows, interfaces[id].ifIndex.value) == Some(id)
  {
    PassedOver(byIndex, rows, mappings, interfaces, id);
    if Decided(byIndex, mappings, id, interfaces[id]) {
      forall before, members, after, members' |
        SameIndexes(before, interfaces) && Reconciled(byIndex, rows, mappings, before, members, after, members')
        ensures EndsRight(byIndex, mappings, id, after[id], members')
      {
        DecidedEndsRight(byIndex, rows, mappings, before, members, after, members', id);
      }
    } else {
      var before := interfaces[id := interfaces[id].(isAggregation := false)];
      forall x
        ensures Resolve(before, rows, x) == Resolve(interfaces, rows, x)
      {
        ResolveIgnoresFlags(before, interfaces, rows, x);
      }
      var after, members' := CanReconcile(byIndex, rows, mappings, before, {});
      assert !EndsRight(byIndex, mappings, id, after[id], members');
    }
  }

  // The rows a mapping is meant to tie together, by their ifIndexes alone.
  ghost predicate CalledFor(mappings: seq<Mapping>, a: Interface, m: Interface) {
    && a.ifIndex.Some? && m.ifIndex.Some?
    && exists i :: 0 <= i < |mappings| && mappings[i].aggregation == a.ifIndex.value
            && m.ifIndex.value in mappings[i].members
  }

  // With distinct ifIndexes every row that has one ends with precisely the rows its mapping
  // names, and is an aggregation exactly if it has a mapping.
  lemma DistinctIndexesReconcile(byIndex: map<int, InterfaceId>, rows: seq<InterfaceId>, mappings: seq<Mapping>,
                                 interfaces: map<InterfaceId, Interface>, members: set<Membership>,
                                 interfaces': map<InterfaceId, Interface>, members': set<Membership>,
                                 a: InterfaceId, m: InterfaceId)
    requires forall id :: id in rows ==> id in interfaces
    requires Indexes(byIndex, interfaces, rows) && DistinctIndexes(interfaces, rows)
    requires Reconciled(byIndex, rows, mappings, interfaces, members, interfaces', members')
    requires a in rows && interfaces[a].ifIndex.Some?
    ensures Membership(a, m) in members' <==> m in rows && CalledFor(mappings, interfaces[a], interfaces[m])
    ensures interfaces'[a].isAggregation <==> IsMapped(mappings, |mappings|, interfaces[a].ifIndex.value)
  {
    ResolveMeans(interfaces, rows, interfaces[a].ifIndex.value);
    PassedOver(byIndex, rows, mappings, interfaces, a);
    if Wanted(byIndex, mappings, |mappings|, Membership(a, m)) {
      var i :| 0 <= i < |mappings| && mappings[i].aggregation in byIndex && byIndex[mappings[i].aggregation] == a
               && HasMember(byIndex, mappings[i], m);
      var j :| 0 <= j < |mappings[i].members| && mappings[i].members[j] in byIndex
               && byIndex[mappings[i].members[j]] == m;
      IndexMeans(byIndex, interfaces, rows, mappings[i].aggregation);
      IndexMeans(byIndex, interfaces, rows, mappings[i].members[j]);
    }
    if m in rows && CalledFor(mappings, interfaces[a], interfaces[m]) {
      var i :| 0 <= i < |mappings| && mappings[i].aggregation == interfaces[a].ifIndex.value
               && interfaces[m].ifIndex.value in mappings[i].members;
      var j :| 0 <= j < |mappings[i].members| && mappings[i].members[j] == interfaces[m].ifIndex.value;
      IndexMeans(byIndex, interfaces, rows, interfaces[a].ifIndex.value);
      IndexMeans(byIndex, interfaces, rows, interfaces[m].ifIndex.value);
      assert HasMember(byIndex, mappings[i], m);
    }
  }

  const SHARED_INDEX: map<InterfaceId, Interface> :=
    map[1 := Interface(0, Some(7), true), 2 := Interface(0, Some(7), false), 3 := Interface(0, Some(9), false)]

  // Without them a row can keep the flag and a member of an aggregation it no longer is: row
  // 1 and row 2 share ifIndex 7, and the mapping is settled on row 2.
  lemma SharedIndexIsPassedOver(byIndex: map<int, InterfaceId>, interfaces': map<InterfaceId, Interface>,
                                members': set<Membership>)
    requires Indexes(byIndex, SHARED_INDEX, [1, 2, 3])
    requires Reconciled(byIndex, [1, 2, 3], [Mapping(7, [])], SHARED_INDEX, {Membership(1, 3)}, interfaces', members')
    ensures interfaces'[1].isAggregation && Membership(1, 3) in members'
  {
    var interfaces, rows := SHARED_INDEX, [1, 2, 3];
    assert rows[..2] == [1, 2] && interfaces[rows[1]].ifIndex == Some(7);
    assert Resolve(interfaces, rows, 7) == Some(2);
    assert [Mapping(7, [])][0].aggregation == 7;
    assert 1 in rows;
    PassedOver(byIndex, rows, [Mapping(7, [])], interfaces, 1);
  }

  lemma {:induction false} ResolveIgnoresFlags(before: map<InterfaceId, Interface>, after: map<InterfaceId, Interface>,
                                               rows: seq<InterfaceId>, x: int)
    requires forall id :: id in rows ==> id in before && id in after && before[id].ifIndex == after[id].ifIndex
    ensures Resolve(before, rows, x) == Resolve(after, rows, x)
  {
    if rows != [] {
      ResolveIgnoresFlags(before, after, rows[..|rows| - 1], x);
    }
  }

  // Doing it again changes nothing, so that it adds and removes nothing.
  lemma ReconcileIsIdempotent(byIndex: map<int, InterfaceId>, again: map<int, InterfaceId>, rows: seq<InterfaceId>,
                              mappings: seq<Mapping>, i0: map<InterfaceId, Interface>, m0: set<Membership>,
                              i1: map<InterfaceId, Interface>, m1: set<Membership>,
                              i2: map<InterfaceId, Interface>, m2: set<Membership>)
    requires forall id :: id in rows ==> id in i0
    requires Indexes(byIndex, i0, rows) && Reconciled(byIndex, rows, mappings, i0, m0, i1, m1)
    requires Indexes(again, i1, rows) && Reconciled(again, rows, mappings, i1, m1, i2, m2)
    ensures m2 == m1 && i2 == i1
  {
    forall x
      ensures x in byIndex <==> x in again
      ensures x in byIndex ==> byIndex[x] == again[x]
    {
      ResolveIgnoresFlags(i0, i1, rows, x);
      assert Resolve(i0, rows, x) == if x in byIndex then Some(byIndex[x]) else None;
      assert Resolve(i1, rows, x) == if x in again then Some(again[x]) else None;
    }
    assert byIndex == again;
    forall p: Membership
      ensures p in m2 <==> p in m1
    {
    }
    forall id | id in i1
      ensures i2[id] == i1[id]
    {
    }
  }

  // The groups parsed from a device are what the reconciliation asks for.
  lemma GroupsAreDistinct(mappings: seq<Mapping>, attached: map<int, Value>, selected: map<int, Value>)
    requires Groups(mappings, attached, selected)
    ensures DistinctGroups(mappings)
  {
  }
}
