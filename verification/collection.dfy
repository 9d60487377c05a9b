// One collection of one device: five sections run one after another, none of which can
// spoil another, then the SSH probe if SNMP delivered nothing at all.
module Collection {
  import opened Common

  datatype Status = SUCCESS | PARTIAL | FAILED | DEGRADED

  datatype SectionResult = SectionResult(name: string, status: Status, error: Option<string>)

  datatype InterfaceSample = InterfaceSample(name: string, operState: Option<string>)

  // What a section's collector does: it returns data or it raises.
  datatype Attempt<+T> = Returns(data: T) | Raises(message: string)

  // The interface collector also reports the key fields that no column delivered.
  datatype InterfaceCollection = InterfaceCollection(samples: seq<InterfaceSample>, missingFields: seq<string>)

  // What each collector would do if the device were asked now.
  datatype Target = Target(
    identity: Attempt<string>,
    cpu: Attempt<seq<real>>,
    memory: Attempt<seq<real>>,
    interfaces: Attempt<InterfaceCollection>,
    aggregations: Attempt<seq<(int, int)>>)

  datatype Outcome = Outcome(
    sections: seq<SectionResult>,
    identity: Option<string>,
    cpu: Option<seq<real>>,
    memory: Option<seq<real>>,
    interfaces: Option<seq<InterfaceSample>>,
    aggregations: Option<seq<(int, int)>>,
    sshReachable: Option<bool>)
  {
    predicate HasValidData() {
      identity.Some? || cpu.Some? || memory.Some? || interfaces.Some? || aggregations.Some?
    }

    function OverallStatus(): Status {
      if sections == [] then FAILED
      else
        var failed := FailedSections(sections);
        if failed == [] then SUCCESS
        else if |failed| == |sections| && (forall i :: 0 <= i < |sections| ==> sections[i].status == FAILED) then FAILED
        else PARTIAL
    }
  }

  // The names of the sections that did not fully succeed, in order.
  function FailedSections(sections: seq<SectionResult>): (names: seq<string>)
    ensures |names| <= |sections|
    ensures names == [] <==> forall i :: 0 <= i < |sections| ==> sections[i].status == SUCCESS
    ensures |names| == |sections| <==> forall i :: 0 <= i < |sections| ==> sections[i].status != SUCCESS
  {
    if sections == [] then []
    else
      var first := sections[0];
      var rest := FailedSections(sections[1..]);
      assert forall i :: 0 < i < |sections| ==> sections[i] == sections[1..][i - 1];
      if first.status != SUCCESS then [first.name] + rest else rest
  }

  lemma FirstSection(s: SectionResult, rest: seq<SectionResult>)
    ensures FailedSections([s] + rest) == (if s.status == SUCCESS then [] else [s.name]) + FailedSections(rest)
  {
    assert ([s] + rest)[1..] == rest;
  }

  // Five sections, one after the other.
  lemma FiveSections(a: SectionResult, b: SectionResult, c: SectionResult, d: SectionResult, e: SectionResult)
    ensures FailedSections([a] + ([b] + ([c] + ([d] + [e]))))
         == (if a.status == SUCCESS then [] else [a.name])
            + ((if b.status == SUCCESS then [] else [b.name])
               + ((if c.status == SUCCESS then [] else [c.name])
                  + ((if d.status == SUCCESS then [] else [d.name])
                     + (if e.status == SUCCESS then [] else [e.name]))))
  {
    FirstSection(a, [b] + ([c] + ([d] + [e])));
    FirstSection(b, [c] + ([d] + [e]));
    FirstSection(c, [d] + [e]);
    FirstSection(d, [e]);
    SingleSection(e);
  }

  lemma SingleSection(s: SectionResult)
    ensures FailedSections([s]) == if s.status == SUCCESS then [] else [s.name]
  {
    FirstSection(s, []);
    assert [s] + [] == [s];
  }

  // The names are those of the sections without data, and "interfaces" also if it is degraded.
  lemma FailedSectionsMeans(o: Outcome)
    requires Collected(o)
    ensures FailedSections(o.sections)
         == (if o.identity.None? then ["identity"] else [])
            + ((if o.cpu.None? then ["cpu"] else [])
               + ((if o.memory.None? then ["memory"] else [])
                  + ((if o.sections[3].status == SUCCESS then [] else ["interfaces"])
                     + (if o.aggregations.None? then ["aggregations"] else []))))
  {
    var s := o.sections;
    assert s == [s[0]] + ([s[1]] + ([s[2]] + ([s[3]] + [s[4]])));
    FiveSections(s[0], s[1], s[2], s[3], s[4]);
  }

  const EMPTY := Outcome([], None, None, None, None, None, None)

  // FAILED exactly when every section failed, SUCCESS exactly when there are sections and
  // all of them succeeded, and PARTIAL for everything in between.
  lemma OverallStatusMeans(o: Outcome)
    ensures o.OverallStatus() == FAILED <==> forall i :: 0 <= i < |o.sections| ==> o.sections[i].status == FAILED
    ensures o.OverallStatus() == SUCCESS <==>
              o.sections != [] && forall i :: 0 <= i < |o.sections| ==> o.sections[i].status == SUCCESS
    ensures o.OverallStatus() != DEGRADED
  {
  }

  // Section `i` failed exactly when it left no data behind.
  ghost predicate SectionTells(o: Outcome, i: nat, name: string, delivered: bool) {
    && i < |o.sections|
    && o.sections[i].name == name
    && (o.sections[i].status == FAILED <==> !delivered)
  }

  // What every collection of a device leaves: five sections in order, each telling whether
  // its data is there, and a probe result only if there is no data at all.
  ghost predicate Collected(o: Outcome) {
    && |o.sections| == 5
    && SectionTells(o, 0, "identity", o.identity.Some?)
    && SectionTells(o, 1, "cpu", o.cpu.Some?)
    && SectionTells(o, 2, "memory", o.memory.Some?)
    && SectionTells(o, 3, "interfaces", o.interfaces.Some?)
    && SectionTells(o, 4, "aggregations", o.aggregations.Some?)
    && (forall i :: 0 <= i < 5 && i != 3 ==> o.sections[i].status == SUCCESS || o.sections[i].status == FAILED)
    && o.sections[3].status != PARTIAL
    && (o.sshReachable.Some? ==> !o.HasValidData())
  }

  // A collected cycle is FAILED exactly when it has no valid data: what the poll row says
  // and what the reachability machine is told never disagree.
  lemma FailedMeansNoData(o: Outcome)
    requires Collected(o)
    ensures o.OverallStatus() == FAILED <==> !o.HasValidData()
  {
  }

  ghost function Kept<T>(attempt: Attempt<T>): Option<T> {
    if attempt.Returns? then Some(attempt.data) else None
  }

  // The section that records its result and passes the data on.
  method RunSection<T>(sections: seq<SectionResult>, name: string, attempt: Attempt<T>)
    returns (after: seq<SectionResult>, data: Option<T>)
    ensures data == Kept(attempt)
    ensures |after| == |sections| + 1 && after[..|sections|] == sections
    ensures after[|sections|].name == name
    ensures after[|sections|].status == (if data.Some? then SUCCESS else FAILED)
  {
    if attempt.Raises? {
      return sections + [SectionResult(name, FAILED, Some(attempt.message))], None;
    }
    after, data := sections + [SectionResult(name, SUCCESS, None)], Some(attempt.data);
  }

  // The interfaces section keeps every sample even when key fields are missing.
  method RunInterfacesSection(sections: seq<SectionResult>, attempt: Attempt<InterfaceCollection>)
    returns (after: seq<SectionResult>, data: Option<seq<InterfaceSample>>)
    ensures data == (if attempt.Returns? then Some(attempt.data.samples) else None)
    ensures |after| == |sections| + 1 && after[..|sections|] == sections
    ensures after[|sections|].name == "interfaces"
    ensures after[|sections|].status
         == (if data.None? then FAILED else if attempt.data.missingFields != [] then DEGRADED else SUCCESS)
  {
    if attempt.Raises? {
      return sections + [SectionResult("interfaces", FAILED, Some(attempt.message))], None;
    }
    data := Some(attempt.data.samples);
    if attempt.data.missingFields != [] {
      return sections + [SectionResult("interfaces", DEGRADED, Some("missing key fields"))], data;
    }
    after := sections + [SectionResult("interfaces", SUCCESS, None)];
  }

  // The outcome is what the device answered: the data of every section that did not raise, the
  // probe's answer exactly if there is none, and SUCCESS exactly if nothing is missing.
  ghost predicate Answered(o: Outcome, device: Target, ssh: Option<bool>) {
    && o.identity == Kept(device.identity) && o.cpu == Kept(device.cpu) && o.memory == Kept(device.memory)
    && o.aggregations == Kept(device.aggregations)
    && o.interfaces == (if device.interfaces.Returns? then Some(device.interfaces.data.samples) else None)
    && |o.sections| == 5
    && o.sections[3].status
       == (if device.interfaces.Raises? then FAILED
           else if device.interfaces.data.missingFields != [] then DEGRADED
           else SUCCESS)
    && o.sshReachable == (if o.OverallStatus() == FAILED then ssh else None)
    && (o.OverallStatus() == SUCCESS <==>
          && device.identity.Returns? && device.cpu.Returns? && device.memory.Returns?
          && device.interfaces.Returns? && device.interfaces.data.missingFields == []
          && device.aggregations.Returns?)
  }

  // `ssh` is what the SSH probe would answer, or `None` where SSH is not configured. Never
  // raises, whatever the device does; no section hides what another one delivered.
  method RunCollection(device: Target, ssh: Option<bool>) returns (o: Outcome)
    ensures Collected(o) && Answered(o, device, ssh)
  {
    var sections := [];
    var identity, cpu, memory, interfaces, aggregations;
    sections, identity := RunSection(sections, "identity", device.identity);
    sections, cpu := RunSection(sections, "cpu", device.cpu);
    sections, memory := RunSection(sections, "memory", device.memory);
    sections, interfaces := RunInterfacesSection(sections, device.interfaces);
    sections, aggregations := RunSection(sections, "aggregations", device.aggregations);
    o := Outcome(sections, identity, cpu, memory, interfaces, aggregations, None);
    if !o.HasValidData() && ssh.Some? {
      o := o.(sshReachable := ssh);
    }
    FailedMeansNoData(o);
    OverallStatusMeans(o);
    assert o.sections == [sections[0], sections[1], sections[2], sections[3], sections[4]];
  }
}
