/** The topic namespace of the fleet. */
module Topics {

  import opened Helpers

  // Topics as strings and as levels.

  /** What every level taken from configuration must match: one or more of
      a-z, 0-9 and the hyphen. */
  predicate IsSegment(level: string) {
    level != "" && forall i :: 0 <= i < |level| ==> 'a' <= level[i] <= 'z' || '0' <= level[i] <= '9' || level[i] == '-'
  }

  function Join(levels: seq<string>): string {
    if levels == [] then ""
    else if |levels| == 1 then levels[0]
    else levels[0] + "/" + Join(levels[1..])
  }

  /** The levels of a topic or filter, as a broker separates them. */
  function Split(topic: string): (levels: seq<string>)
    ensures levels != []
  {
    if topic == "" then [""]
    else if topic[0] == '/' then [""] + Split(topic[1..])
    else
      var rest := Split(topic[1..]);
      [[topic[0]] + rest[0]] + rest[1..]
  }

  predicate NoSlash(level: string) {
    '/' !in level
  }

  lemma {:induction false} SplitFirst(level: string, rest: string)
    requires NoSlash(level)
    ensures Split(level) == [level]
    ensures Split(level + "/" + rest) == [level] + Split(rest)
  {
    if level == "" {
      assert ("" + "/" + rest)[1..] == rest;
    } else {
      SplitFirst(level[1..], rest);
      var whole := level + "/" + rest;
      assert whole[1..] == level[1..] + "/" + rest;
      assert [level[0]] + level[1..] == level;
      assert ([level[1..]] + Split(rest))[1..] == Split(rest);
    }
  }

  /** Splitting what was joined gives the levels back. */
  lemma {:induction false} SplitJoined(levels: seq<string>)
    requires levels != [] && forall i :: 0 <= i < |levels| ==> NoSlash(levels[i])
    ensures Split(Join(levels)) == levels
  {
    if |levels| == 1 {
      SplitFirst(levels[0], "");
    } else {
      SplitJoined(levels[1..]);
      SplitFirst(levels[0], Join(levels[1..]));
      assert [levels[0]] + levels[1..] == levels;
    }
  }

  /** A prefix already joined joins on. */
  lemma {:induction false} JoinOn(prefix: seq<string>, levels: seq<string>)
    requires prefix != [] && levels != []
    ensures Join([Join(prefix)] + levels) == Join(prefix + levels)
  {
    assert ([Join(prefix)] + levels)[1..] == levels;
    if |prefix| == 1 {
      assert [prefix[0]] + levels == prefix + levels;
    } else {
      JoinOn(prefix[1..], levels);
      assert ([Join(prefix[1..])] + levels)[1..] == levels;
      assert (prefix + levels)[1..] == prefix[1..] + levels;
      assert prefix[0] + "/" + Join(prefix[1..]) + "/" + Join(levels)
          == prefix[0] + "/" + (Join(prefix[1..]) + "/" + Join(levels));
    }
  }

  lemma JoinedOn(prefix: seq<string>, levels: seq<string>, all: seq<string>)
    requires prefix != [] && 1 <= |levels| <= 3 && all == prefix + levels
    ensures |levels| == 1 ==> Join([Join(prefix), levels[0]]) == Join(all)
    ensures |levels| == 3 ==> Join([Join(prefix), levels[0], levels[1], levels[2]]) == Join(all)
  {
    hide Join;
    JoinOn(prefix, levels);
    if |levels| == 1 {
      assert [Join(prefix)] + levels == [Join(prefix), levels[0]];
    } else if |levels| == 3 {
      assert [Join(prefix)] + levels == [Join(prefix), levels[0], levels[1], levels[2]];
    }
  }

  // What the program builds.

  const ROOT := "skuhus"
  const AGENT := "agent"
  const GROUP := "group"
  const RX := "rx"
  const TX := "tx"
  const STATUS := "status"
  const ANY := "+"

  datatype Scope = ScopeProject | ScopeSite | ScopeStation | ScopeDevice

  datatype StationTopics = StationTopics(projectPrefix: string, sitePrefix: string, stationPrefix: string)

  datatype DeviceTopics = DeviceTopics(rx: string, tx: string, status: string)

  function NewStationTopics(project: string, site: string, station: string): Option<StationTopics> {
    if !IsSegment(project) || !IsSegment(site) || !IsSegment(station) || station == GROUP then None
    else
      var projectPrefix := Join([ROOT, project]);
      var sitePrefix := Join([projectPrefix, site]);
      Some(StationTopics(projectPrefix, sitePrefix, Join([sitePrefix, station])))
  }

  function GroupTx(station: StationTopics, scope: Scope, group: string): Option<string> {
    if !IsSegment(group) || scope.ScopeDevice? then None
    else
      var prefix := match scope
        case ScopeProject => station.projectPrefix
        case ScopeSite => station.sitePrefix
        case ScopeStation => station.stationPrefix
        case ScopeDevice => "";
      Some(Join([prefix, GROUP, group, TX]))
  }

  function AgentStatus(station: StationTopics, instance: string): Option<string> {
    if !IsSegment(instance) then None else Some(Join([station.stationPrefix, AGENT, instance, STATUS]))
  }

  function Device(station: StationTopics, id: string): Option<DeviceTopics> {
    if !IsSegment(id) || id == AGENT then None
    else
      var prefix := Join([station.stationPrefix, id]);
      Some(DeviceTopics(Join([prefix, RX]), Join([prefix, TX]), Join([prefix, STATUS])))
  }

  function EveryDeviceRx(station: StationTopics): string { Join([station.stationPrefix, ANY, RX]) }

  function EveryDeviceStatus(station: StationTopics): string { Join([station.stationPrefix, ANY, STATUS]) }

  function EveryAgentStatus(station: StationTopics): string { Join([station.stationPrefix, AGENT, ANY, STATUS]) }

  // The namespace, by levels.

  /** Every kind of topic in the fleet, with the levels that tell it apart. */
  datatype Route =
    | RxOf(project: string, site: string, station: string, device: string)
    | TxOf(project: string, site: string, station: string, device: string)
    | StatusOf(project: string, site: string, station: string, device: string)
    | AgentStatusOf(project: string, site: string, station: string, instance: string)
    | ProjectTx(project: string, group: string)
    | SiteTx(project: string, site: string, group: string)
    | StationTx(project: string, site: string, station: string, group: string)

  function Levels(route: Route): seq<string> {
    match route
    case RxOf(p, s, st, id) => [ROOT, p, s, st, id, RX]
    case TxOf(p, s, st, id) => [ROOT, p, s, st, id, TX]
    case StatusOf(p, s, st, id) => [ROOT, p, s, st, id, STATUS]
    case AgentStatusOf(p, s, st, inst) => [ROOT, p, s, st, AGENT, inst, STATUS]
    case ProjectTx(p, g) => [ROOT, p, GROUP, g, TX]
    case SiteTx(p, s, g) => [ROOT, p, s, GROUP, g, TX]
    case StationTx(p, s, st, g) => [ROOT, p, s, st, GROUP, g, TX]
  }

  function Topic(route: Route): string { Join(Levels(route)) }

  /** The station, if the route names one. */
  predicate AtStation(route: Route, project: string, site: string, station: string) {
    match route
    case ProjectTx(_, _) => false
    case SiteTx(_, _, _) => false
    case _ => route.project == project && route.site == site && route.station == station
  }

  /** Every level follows the segment rule. */
  predicate Segmented(route: Route) {
    match route
    case RxOf(p, s, st, id) => IsSegment(p) && IsSegment(s) && IsSegment(st) && IsSegment(id)
    case TxOf(p, s, st, id) => IsSegment(p) && IsSegment(s) && IsSegment(st) && IsSegment(id)
    case StatusOf(p, s, st, id) => IsSegment(p) && IsSegment(s) && IsSegment(st) && IsSegment(id)
    case AgentStatusOf(p, s, st, inst) => IsSegment(p) && IsSegment(s) && IsSegment(st) && IsSegment(inst)
    case ProjectTx(p, g) => IsSegment(p) && IsSegment(g)
    case SiteTx(p, s, g) => IsSegment(p) && IsSegment(s) && IsSegment(g)
    case StationTx(p, s, st, g) => IsSegment(p) && IsSegment(s) && IsSegment(st) && IsSegment(g)
  }

  /** What the constructors let through, except that the reserved device id is
      not asked for: it turns out not to matter. */
  predicate Admitted(route: Route) {
    Segmented(route) && (route.ProjectTx? || route.SiteTx? || route.station != GROUP)
  }

  lemma StationPrefixes(project: string, site: string, station: string)
    requires NewStationTopics(project, site, station).Some?
    ensures var topics := NewStationTopics(project, site, station).value;
            && topics.projectPrefix == Join([ROOT, project])
            && topics.sitePrefix == Join([ROOT, project, site])
            && topics.stationPrefix == Join([ROOT, project, site, station])
  {
    hide Join;
    var projectLevels, siteLevels := [ROOT, project], [ROOT, project, site];
    JoinOn(projectLevels, [site]);
    assert [Join(projectLevels)] + [site] == [Join(projectLevels), site] && projectLevels + [site] == siteLevels;
    JoinOn(siteLevels, [station]);
    assert [Join(siteLevels)] + [station] == [Join(siteLevels), station];
    assert siteLevels + [station] == [ROOT, project, site, station];
  }

  /** A station has topics exactly if its levels follow the segment rule and it
      is not called like the level that groups are under. */
  lemma StationsWithTopics(project: string, site: string, station: string)
    ensures NewStationTopics(project, site, station).Some?
       <==> Segmented(RxOf(project, site, station, AGENT)) && station != GROUP
  {
    assert IsSegment(AGENT);
  }

  /** What the program builds for a station's devices, groups and agents are
      the topics of the namespace, and every one of them is admitted. */
  lemma BuiltTopics(project: string, site: string, station: string, name: string)
    requires NewStationTopics(project, site, station).Some?
    ensures var topics := NewStationTopics(project, site, station).value;
            && (Device(topics, name).Some? <==> IsSegment(name) && name != AGENT)
            && (Device(topics, name).Some? ==>
                  && Device(topics, name).value.rx == Topic(RxOf(project, site, station, name))
                  && Device(topics, name).value.tx == Topic(TxOf(project, site, station, name))
                  && Device(topics, name).value.status == Topic(StatusOf(project, site, station, name))
                  && Admitted(RxOf(project, site, station, name)))
            && (AgentStatus(topics, name).Some? <==> IsSegment(name))
            && (AgentStatus(topics, name).Some? ==>
                  && AgentStatus(topics, name).value == Topic(AgentStatusOf(project, site, station, name))
                  && Admitted(AgentStatusOf(project, site, station, name)))
            && (IsSegment(name) ==>
                  && GroupTx(topics, ScopeProject, name) == Some(Topic(ProjectTx(project, name)))
                  && GroupTx(topics, ScopeSite, name) == Some(Topic(SiteTx(project, site, name)))
                  && GroupTx(topics, ScopeStation, name) == Some(Topic(StationTx(project, site, station, name)))
                  && Admitted(StationTx(project, site, station, name)))
            && (!IsSegment(name) ==> forall scope :: GroupTx(topics, scope, name).None?)
            && GroupTx(topics, ScopeDevice, name).None?
  {
    hide Join, IsSegment;
    StationPrefixes(project, site, station);
    var at := [ROOT, project, site, station];
    JoinedOn(at, [name], at + [name]);
    JoinedOn(at + [name], [RX], Levels(RxOf(project, site, station, name)));
    JoinedOn(at + [name], [TX], Levels(TxOf(project, site, station, name)));
    JoinedOn(at + [name], [STATUS], Levels(StatusOf(project, site, station, name)));
    JoinedOn(at, [AGENT, name, STATUS], Levels(AgentStatusOf(project, site, station, name)));
    JoinedOn(at, [GROUP, name, TX], Levels(StationTx(project, site, station, name)));
    JoinedOn([ROOT, project, site], [GROUP, name, TX], Levels(SiteTx(project, site, name)));
    JoinedOn([ROOT, project], [GROUP, name, TX], Levels(ProjectTx(project, name)));
  }

  // Injectivity.

  lemma SegmentHasNoSlash(level: string)
    requires IsSegment(level)
    ensures NoSlash(level)
  {
  }

  lemma LevelsOfTopic(route: Route)
    requires Segmented(route)
    ensures Split(Topic(route)) == Levels(route)
  {
    hide IsSegment, Split, Join;
    forall level | IsSegment(level)
      ensures NoSlash(level)
    {
      SegmentHasNoSlash(level);
    }
    SplitJoined(Levels(route));
  }

  /** Over the whole fleet, two routes share a topic only if they are the same
      kind with the same levels. */
  lemma TopicsAreInjective(a: Route, b: Route)
    requires Admitted(a) && Admitted(b) && Topic(a) == Topic(b)
    ensures a == b
  {
    hide IsSegment, Split, Join, Topic;
    LevelsOfTopic(a);
    LevelsOfTopic(b);
    var x, y := Levels(a), Levels(b);
    assert x == y && |x| == |y|;
    assert x[|x| - 1] == y[|y| - 1];
    assert x[1] == y[1] && x[2] == y[2] && x[3] == y[3] && x[4] == y[4];
    if |x| > 5 { assert x[5] == y[5]; }
  }

  /** Why the station id group is reserved: without that rule, a device's tx
      topic is a site group's exactly when its station is called group. */
  lemma GroupStationWouldCollide(project: string, site: string, station: string, id: string,
                                 project': string, site': string, group: string)
    requires Segmented(TxOf(project, site, station, id)) && Segmented(SiteTx(project', site', group))
    ensures Topic(TxOf(project, site, station, id)) == Topic(SiteTx(project', site', group))
       <==> project == project' && site == site' && station == GROUP && id == group
  {
    hide IsSegment, Split, Join;
    var a, b := TxOf(project, site, station, id), SiteTx(project', site', group);
    LevelsOfTopic(a);
    LevelsOfTopic(b);
    if Levels(a) == Levels(b) {
      assert Levels(a)[1] == Levels(b)[1] && Levels(a)[2] == Levels(b)[2]
          && Levels(a)[3] == Levels(b)[3] && Levels(a)[4] == Levels(b)[4];
    }
  }

  // Filters, by section 4.7.1 of MQTT Version 5.0.

  /** + matches exactly one level, and # as the last level any number, also
      none. */
  predicate MatchesLevels(filter: seq<string>, topic: seq<string>) {
    if filter == [] then topic == []
    else if filter == ["#"] then true
    else if topic == [] then false
    else (filter[0] == ANY || filter[0] == topic[0]) && MatchesLevels(filter[1..], topic[1..])
  }

  predicate Matches(filter: string, topic: string) { MatchesLevels(Split(filter), Split(topic)) }

  predicate NoHash(filter: seq<string>) { forall i :: 0 <= i < |filter| ==> filter[i] != "#" }

  /** The levels agree, but for those the filter leaves open with +. */
  predicate Agree(filter: seq<string>, topic: seq<string>)
    requires |filter| == |topic|
  {
    forall i :: 0 <= i < |filter| ==> filter[i] == ANY || filter[i] == topic[i]
  }

  /** A filter without # matches the topics with as many levels that agree on
      every level but +. */
  lemma {:induction false} MatchesByLevel(filter: seq<string>, topic: seq<string>)
    requires NoHash(filter)
    ensures MatchesLevels(filter, topic) <==> |filter| == |topic| && Agree(filter, topic)
  {
    if filter != [] {
      assert filter[0] != "#";
      if topic != [] {
        MatchesByLevel(filter[1..], topic[1..]);
        if |filter| == |topic| {
          AgreeInParts(filter[..1], filter[1..], topic);
          assert filter[..1] + filter[1..] == filter;
        }
      }
    }
  }

  lemma AgreeInParts(at: seq<string>, rest: seq<string>, levels: seq<string>)
    requires |levels| == |at| + |rest|
    ensures Agree(at + rest, levels) <==> Agree(at, levels[..|at|]) && Agree(rest, levels[|at|..])
  {
    if Agree(at + rest, levels) {
      forall i | 0 <= i < |at|
        ensures at[i] == ANY || at[i] == levels[..|at|][i]
      {
        assert (at + rest)[i] == at[i];
      }
      forall i | 0 <= i < |rest|
        ensures rest[i] == ANY || rest[i] == levels[|at|..][i]
      {
        assert (at + rest)[|at| + i] == rest[i];
      }
    }
  }

  lemma SegmentIsPlain(level: string)
    requires IsSegment(level)
    ensures level != ANY && level != "#" && NoSlash(level)
  {
    assert 'a' <= level[0] <= 'z' || '0' <= level[0] <= '9' || level[0] == '-';
  }

  /** A station's filter: its levels, and what they match. */
  lemma FilterLevels(project: string, site: string, station: string, rest: seq<string>)
    requires NewStationTopics(project, site, station).Some? && rest != []
    requires forall i :: 0 <= i < |rest| ==> NoSlash(rest[i])
    ensures var topics := NewStationTopics(project, site, station).value;
            Split(Join([topics.stationPrefix] + rest)) == [ROOT, project, site, station] + rest
  {
    hide IsSegment, Join, Split;
    StationPrefixes(project, site, station);
    SegmentIsPlain(project);
    SegmentIsPlain(site);
    SegmentIsPlain(station);
    JoinOn([ROOT, project, site, station], rest);
    SplitJoined([ROOT, project, site, station] + rest);
  }

  lemma StationIsPlain(project: string, site: string, station: string)
    requires NewStationTopics(project, site, station).Some?
    ensures NoHash([ROOT, project, site, station])
    ensures project != ANY && site != ANY && station != ANY
  {
    hide IsSegment, Join;
    SegmentIsPlain(project);
    SegmentIsPlain(site);
    SegmentIsPlain(station);
  }

  /** The levels before the filter's own are those of the station. */
  lemma StationAgrees(project: string, site: string, station: string, route: Route)
    requires project != ANY && site != ANY && station != ANY && |Levels(route)| >= 4
    ensures var levels := Levels(route);
            Agree([ROOT, project, site, station], levels[..4])
            <==> levels[1] == project && levels[2] == site && levels[3] == station
  {
    var at, levels := [ROOT, project, site, station], Levels(route);
    assert levels[0] == ROOT;
    if Agree(at, levels[..4]) {
      assert at[1] == levels[..4][1] && at[2] == levels[..4][2] && at[3] == levels[..4][3];
    }
  }

  /** Level by level: the station's four, then the filter's own. */
  lemma FilterMatches(project: string, site: string, station: string, rest: seq<string>, route: Route)
    requires NewStationTopics(project, site, station).Some? && Segmented(route) && rest != [] && NoHash(rest)
    requires forall i :: 0 <= i < |rest| ==> NoSlash(rest[i])
    ensures var topics, levels := NewStationTopics(project, site, station).value, Levels(route);
            Matches(Join([topics.stationPrefix] + rest), Topic(route))
            <==> && |levels| == 4 + |rest| && levels[1] == project && levels[2] == site && levels[3] == station
                 && Agree(rest, levels[4..])
  {
    hide IsSegment, Join, Split, MatchesLevels, Topic, Levels, NewStationTopics, Segmented, NoSlash, Agree;
    StationIsPlain(project, site, station);
    LevelsOfTopic(route);
    FilterLevels(project, site, station, rest);
    var at, levels := [ROOT, project, site, station], Levels(route);
    MatchesByLevel(at + rest, levels);
    if |levels| == 4 + |rest| {
      AgreeInParts(at, rest, levels);
      StationAgrees(project, site, station, route);
    }
  }

  /** A station's filters, level by level. */
  lemma FiltersByLevel(project: string, site: string, station: string, kind: string, route: Route)
    requires NewStationTopics(project, site, station).Some? && Segmented(route) && IsSegment(kind)
    ensures var prefix, levels := NewStationTopics(project, site, station).value.stationPrefix, Levels(route);
            var here := |levels| >= 4 && levels[1] == project && levels[2] == site && levels[3] == station;
            && (Matches(Join([prefix, ANY, kind]), Topic(route)) <==> here && |levels| == 6 && levels[5] == kind)
            && (Matches(Join([prefix, AGENT, ANY, kind]), Topic(route))
                <==> here && |levels| == 7 && levels[4] == AGENT && levels[6] == kind)
  {
    hide IsSegment, Join, Split, MatchesLevels, Topic, Matches;
    SegmentIsPlain(kind);
    var prefix := NewStationTopics(project, site, station).value.stationPrefix;
    var short, long := [ANY, kind], [AGENT, ANY, kind];
    FilterMatches(project, site, station, short, route);
    FilterMatches(project, site, station, long, route);
    assert [prefix] + short == [prefix, ANY, kind] && [prefix] + long == [prefix, AGENT, ANY, kind];
    assert short[0] == ANY && short[1] == kind && long[0] == AGENT && long[1] == ANY && long[2] == kind;
    var levels := Levels(route);
    if |levels| == 6 {
      assert levels[4 + 1] == levels[5];
    } else if |levels| == 7 {
      assert levels[4 + 0] == levels[4] && levels[4 + 2] == levels[6];
    }
  }

  /** Each of a station's filters matches, of all the fleet's topics, exactly
      the station's own of its kind. */
  lemma FiltersAreExact(project: string, site: string, station: string, route: Route)
    requires NewStationTopics(project, site, station).Some? && Admitted(route)
    ensures var topics := NewStationTopics(project, site, station).value;
            && (Matches(EveryDeviceRx(topics), Topic(route))
                <==> route.RxOf? && AtStation(route, project, site, station))
            && (Matches(EveryDeviceStatus(topics), Topic(route))
                <==> route.StatusOf? && AtStation(route, project, site, station))
            && (Matches(EveryAgentStatus(topics), Topic(route))
                <==> route.AgentStatusOf? && AtStation(route, project, site, station))
  {
    hide Join, Split, MatchesLevels, Topic, Matches;
    FiltersByLevel(project, site, station, RX, route);
    FiltersByLevel(project, site, station, STATUS, route);
    var levels := Levels(route);
    assert route.ProjectTx? ==> |levels| == 5;
  }
}
