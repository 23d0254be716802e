/** From the configuration to the topics subscribed to and the table that
    routes what arrives on them. */
module Routing {
  import opened Helpers
  import opened Topics

  datatype DeviceConfig = DeviceConfig(
    id: string,
    projectGroups: seq<string>,
    siteGroups: seq<string>,
    stationGroups: seq<string>)

  ghost predicate ValidGroups(groups: seq<string>) {
    Distinct(groups) && forall i :: 0 <= i < |groups| ==> IsSegment(groups[i])
  }

  ghost predicate ValidDevice(device: DeviceConfig) {
    && IsSegment(device.id) && device.id != AGENT
    && ValidGroups(device.projectGroups) && ValidGroups(device.siteGroups) && ValidGroups(device.stationGroups)
  }

  /** What validation asks of the devices: ids that are levels, used once and
      not reserved, and groups that are levels, listed once in their scope. */
  ghost predicate Validated(devices: seq<DeviceConfig>) {
    && (forall i :: 0 <= i < |devices| ==> ValidDevice(devices[i]))
    && (forall i, j :: 0 <= i < j < |devices| ==> devices[i].id != devices[j].id)
  }

  datatype Station = Station(project: string, site: string, id: string) {
    predicate Valid() { NewStationTopics(project, site, id).Some? }
  }

  // The routes of a device, by kind and then as topics.

  function GroupRoutes(station: Station, scope: Scope, groups: seq<string>): seq<Route>
    requires !scope.ScopeDevice?
  {
    seq(|groups|, i requires 0 <= i < |groups| =>
      match scope
      case ScopeProject => ProjectTx(station.project, groups[i])
      case ScopeSite => SiteTx(station.project, station.site, groups[i])
      case ScopeStation => StationTx(station.project, station.site, station.id, groups[i])
      case ScopeDevice => ProjectTx("", ""))
  }

  /** The device's own tx first, then its groups' by scope. */
  function RoutesOf(station: Station, device: DeviceConfig): seq<Route> {
    [TxOf(station.project, station.site, station.id, device.id)]
    + GroupRoutes(station, ScopeProject, device.projectGroups)
    + GroupRoutes(station, ScopeSite, device.siteGroups)
    + GroupRoutes(station, ScopeStation, device.stationGroups)
  }

  function TopicsOf(routes: seq<Route>): seq<string> {
    seq(|routes|, i requires 0 <= i < |routes| => Topic(routes[i]))
  }

  /** broadcastGroupRoutes for one scope, through the topic constructors. */
  method BuildGroups(station: Station, scope: Scope, groups: seq<string>) returns (topics: seq<string>)
    requires station.Valid() && !scope.ScopeDevice? && ValidGroups(groups)
    ensures topics == TopicsOf(GroupRoutes(station, scope, groups))
  {
    hide IsSegment, Topic;
    topics := [];
    var prefixes := NewStationTopics(station.project, station.site, station.id).value;
    var i := 0;
    while i < |groups|
      invariant 0 <= i <= |groups| && |topics| == i
      invariant forall k :: 0 <= k < i ==> topics[k] == Topic(GroupRoutes(station, scope, groups)[k])
    {
      BuiltTopics(station.project, station.site, station.id, groups[i]);
      var route := GroupTx(prefixes, scope, groups[i]);
      topics := topics + [route.value];
      i := i + 1;
    }
  }

  /** Some device has the topic among its routes. */
  ghost predicate Routed(routes: seq<seq<string>>, topic: string) {
    exists i :: 0 <= i < |routes| && topic in routes[i]
  }

  lemma RoutedOneMore(routes: seq<seq<string>>, more: seq<string>, topic: string)
    ensures Routed(routes + [more], topic) <==> Routed(routes, topic) || topic in more
  {
    var all := routes + [more];
    if Routed(routes, topic) {
      var i :| 0 <= i < |routes| && topic in routes[i];
      assert topic in all[i];
    }
    if topic in more {
      assert topic in all[|routes|];
    }
  }

  lemma TopicsOfRoutes(station: Station, device: DeviceConfig)
    ensures TopicsOf(RoutesOf(station, device))
         == [Topic(TxOf(station.project, station.site, station.id, device.id))]
            + TopicsOf(GroupRoutes(station, ScopeProject, device.projectGroups))
            + TopicsOf(GroupRoutes(station, ScopeSite, device.siteGroups))
            + TopicsOf(GroupRoutes(station, ScopeStation, device.stationGroups))
  {
    hide Topic, GroupRoutes;
  }

  lemma OwnTopic(station: Station, id: string)
    requires station.Valid() && IsSegment(id) && id != AGENT
    ensures var prefixes := NewStationTopics(station.project, station.site, station.id).value;
            && Device(prefixes, id).Some?
            && Device(prefixes, id).value.tx == Topic(TxOf(station.project, station.site, station.id, id))
  {
    hide IsSegment, NewStationTopics, Device, GroupTx, AgentStatus, Topic, Admitted;
    BuiltTopics(station.project, station.site, station.id, id);
  }

  /** One device's topics, through the topic constructors. */
  method BuildDevice(station: Station, device: DeviceConfig) returns (topics: seq<string>)
    requires station.Valid() && ValidDevice(device)
    ensures topics == TopicsOf(RoutesOf(station, device))
  {
    hide IsSegment, ValidGroups, Topic, GroupRoutes, TopicsOf, RoutesOf, NewStationTopics, Device;
    OwnTopic(station, device.id);
    var prefixes := NewStationTopics(station.project, station.site, station.id).value;
    var own := Device(prefixes, device.id).value.tx;
    var project := BuildGroups(station, ScopeProject, device.projectGroups);
    var site := BuildGroups(station, ScopeSite, device.siteGroups);
    var local := BuildGroups(station, ScopeStation, device.stationGroups);
    TopicsOfRoutes(station, device);
    topics := [own] + project + site + local;
  }

  /** buildDevices: every device's topics, and the list to subscribe to. */
  method BuildDevices(station: Station, devices: seq<DeviceConfig>)
    returns (routes: seq<seq<string>>, subscriptions: seq<string>)
    requires station.Valid() && Validated(devices)
    ensures |routes| == |devices|
    ensures forall i :: 0 <= i < |devices| ==> routes[i] == TopicsOf(RoutesOf(station, devices[i]))
    ensures Distinct(subscriptions)
    ensures forall topic :: topic in subscriptions <==> Routed(routes, topic)
  {
    hide RoutesOf, TopicsOf, Distinct, Routed, ValidDevice;
    routes, subscriptions := [], [];
    assert Distinct<string>([]) && forall topic :: !Routed([], topic) by { NothingRouted(); }
    var i := 0;
    while i < |devices|
      invariant 0 <= i <= |devices| && |routes| == i
      invariant forall k :: 0 <= k < i ==> routes[k] == TopicsOf(RoutesOf(station, devices[k]))
      invariant Distinct(subscriptions)
      invariant forall topic :: topic in subscriptions <==> Routed(routes, topic)
    {
      var topics := BuildDevice(station, devices[i]);
      forall topic
        ensures Routed(routes + [topics], topic) <==> Routed(routes, topic) || topic in topics
      {
        RoutedOneMore(routes, topics, topic);
      }
      subscriptions := Subscribe(subscriptions, topics);
      routes := routes + [topics];
      i := i + 1;
    }
  }

  lemma NothingRouted()
    ensures Distinct<string>([]) && forall topic :: !Routed([], topic)
  {
  }

  /** Adds each topic that is not subscribed to yet. */
  method Subscribe(before: seq<string>, topics: seq<string>) returns (subscriptions: seq<string>)
    requires Distinct(before)
    ensures Distinct(subscriptions)
    ensures forall topic :: topic in subscriptions <==> topic in before || topic in topics
  {
    subscriptions := before;
    var i := 0;
    while i < |topics|
      invariant 0 <= i <= |topics| && Distinct(subscriptions)
      invariant forall topic :: topic in subscriptions <==> topic in before || topic in topics[..i]
    {
      if topics[i] !in subscriptions {
        subscriptions := subscriptions + [topics[i]];
      }
      assert topics[..i + 1] == topics[..i] + [topics[i]];
      i := i + 1;
    }
    assert topics[..i] == topics;
  }

  // The routing table.

  /** The devices that have a topic among their routes, in order. */
  function DevicesWith(routes: seq<seq<string>>, topic: string): seq<nat> {
    if routes == [] then []
    else DevicesWith(routes[..|routes| - 1], topic) + (if topic in routes[|routes| - 1] then [|routes| - 1] else [])
  }

  lemma {:induction false} DevicesWithAre(routes: seq<seq<string>>, topic: string, d: nat)
    ensures d in DevicesWith(routes, topic) <==> d < |routes| && topic in routes[d]
  {
    if routes != [] {
      DevicesWithAre(routes[..|routes| - 1], topic, d);
    }
  }

  /** Each once, in order. */
  lemma {:induction false} DevicesWithOnce(routes: seq<seq<string>>, topic: string, i: nat, j: nat)
    requires i < j < |DevicesWith(routes, topic)|
    ensures DevicesWith(routes, topic)[i] < DevicesWith(routes, topic)[j] < |routes|
  {
    var earlier := routes[..|routes| - 1];
    var before := DevicesWith(earlier, topic);
    if j < |before| {
      DevicesWithOnce(earlier, topic, i, j);
    } else {
      assert before[i] in before;
      DevicesWithAre(earlier, topic, before[i]);
    }
  }

  lemma NoneWith(routes: seq<seq<string>>, topic: string)
    requires !Routed(routes, topic)
    ensures DevicesWith(routes, topic) == []
  {
    if DevicesWith(routes, topic) != [] {
      DevicesWithAre(routes, topic, DevicesWith(routes, topic)[0]);
    }
  }

  /** Where a topic leads once the topics seen lead to one more device. */
  function LinesWith(before: map<string, seq<nat>>, seen: seq<string>, line: nat, topic: string): seq<nat> {
    (if topic in before then before[topic] else []) + (if topic in seen then [line] else [])
  }

  lemma OneMoreTopic(before: map<string, seq<nat>>, seen: seq<string>, next: string, line: nat, topic: string)
    requires next !in seen
    ensures topic in seen + [next] <==> topic in seen || topic == next
    ensures LinesWith(before, seen + [next], line, topic)
         == LinesWith(before, seen, line, topic) + (if topic == next then [line] else [])
    ensures topic !in before && topic !in seen ==> LinesWith(before, seen, line, topic) == []
  {
  }

  lemma NoneSeen(before: map<string, seq<nat>>, line: nat, topic: string)
    requires topic in before
    ensures LinesWith(before, [], line, topic) == before[topic]
  {
  }

  lemma NextIsNew(topics: seq<string>, i: nat)
    requires Distinct(topics) && i < |topics|
    ensures topics[i] !in topics[..i] && topics[..i + 1] == topics[..i] + [topics[i]]
  {
  }

  /** One device's part of the table: each of its topics leads to it once more. */
  method AddLine(before: map<string, seq<nat>>, line: nat, topics: seq<string>) returns (byTopic: map<string, seq<nat>>)
    requires Distinct(topics)
    ensures forall topic :: topic in byTopic <==> topic in before || topic in topics
    ensures forall topic :: topic in byTopic ==> byTopic[topic] == LinesWith(before, topics, line, topic)
  {
    hide Distinct, LinesWith;
    byTopic := before;
    var i := 0;
    assert topics[..0] == [];
    forall topic
      ensures topic in before ==> before[topic] == LinesWith(before, [], line, topic)
    {
      if topic in before {
        NoneSeen(before, line, topic);
      }
    }
    while i < |topics|
      invariant 0 <= i <= |topics|
      invariant forall topic :: topic in byTopic <==> topic in before || topic in topics[..i]
      invariant forall topic :: topic in byTopic ==> byTopic[topic] == LinesWith(before, topics[..i], line, topic)
    {
      NextIsNew(topics, i);
      forall topic {
        OneMoreTopic(before, topics[..i], topics[i], line, topic);
      }
      if topics[i] !in byTopic {
        byTopic := byTopic[topics[i] := []];
      }
      byTopic := byTopic[topics[i] := byTopic[topics[i]] + [line]];
      i := i + 1;
    }
    assert topics[..i] == topics;
  }

  /** The table Run builds: each topic leads to exactly the devices with that
      route, each once. */
  method BuildTable(routes: seq<seq<string>>) returns (byTopic: map<string, seq<nat>>)
    requires forall i :: 0 <= i < |routes| ==> Distinct(routes[i])
    ensures forall topic :: topic in byTopic <==> Routed(routes, topic)
    ensures forall topic :: topic in byTopic ==> byTopic[topic] == DevicesWith(routes, topic)
  {
    hide Distinct, Routed;
    byTopic := map[];
    NothingRouted();
    var i := 0;
    assert routes[..0] == [];
    while i < |routes|
      invariant 0 <= i <= |routes|
      invariant forall topic :: topic in byTopic <==> Routed(routes[..i], topic)
      invariant forall topic :: topic in byTopic ==> byTopic[topic] == DevicesWith(routes[..i], topic)
    {
      ghost var before := byTopic;
      byTopic := AddLine(byTopic, i, routes[i]);
      assert routes[..i + 1] == routes[..i] + [routes[i]] && routes[..i + 1][..i] == routes[..i];
      forall topic
        ensures topic in byTopic <==> Routed(routes[..i + 1], topic)
        ensures topic in byTopic ==> byTopic[topic] == DevicesWith(routes[..i + 1], topic)
      {
        RoutedOneMore(routes[..i], routes[i], topic);
        if topic !in before {
          NoneWith(routes[..i], topic);
        }
      }
      i := i + 1;
    }
    assert routes[..i] == routes;
  }

  // Why no device is reached twice.

  /** The routes of a device, by name: its own tx, and each group it lists, in
      the scope it lists it for. */
  lemma RoutesByName(station: Station, device: DeviceConfig, route: Route)
    ensures route in RoutesOf(station, device) <==>
              match route
              case TxOf(p, s, st, id) =>
                p == station.project && s == station.site && st == station.id && id == device.id
              case ProjectTx(p, group) => p == station.project && group in device.projectGroups
              case SiteTx(p, s, group) => p == station.project && s == station.site && group in device.siteGroups
              case StationTx(p, s, st, group) =>
                p == station.project && s == station.site && st == station.id && group in device.stationGroups
              case _ => false
  {
    GroupRoutesByName(station, ScopeProject, device.projectGroups, route);
    GroupRoutesByName(station, ScopeSite, device.siteGroups, route);
    GroupRoutesByName(station, ScopeStation, device.stationGroups, route);
    hide GroupRoutes;
  }

  lemma GroupRoutesByName(station: Station, scope: Scope, groups: seq<string>, route: Route)
    requires !scope.ScopeDevice?
    ensures route in GroupRoutes(station, scope, groups) <==>
              match route
              case ProjectTx(p, group) => scope.ScopeProject? && p == station.project && group in groups
              case SiteTx(p, s, group) =>
                scope.ScopeSite? && p == station.project && s == station.site && group in groups
              case StationTx(p, s, st, group) =>
                scope.ScopeStation? && p == station.project && s == station.site && st == station.id && group in groups
              case _ => false
  {
    var routes := GroupRoutes(station, scope, groups);
    assert forall i :: 0 <= i < |groups| ==> routes[i].group == groups[i];
    if route.ProjectTx? || route.SiteTx? || route.StationTx? {
      if route.group in groups {
        var i :| 0 <= i < |groups| && groups[i] == route.group;
        assert routes[i].group == route.group;
      }
    }
  }

  /** The kind of the route at each place: its own tx, then project, site and
      station groups. */
  lemma RoutesDiffer(station: Station, device: DeviceConfig, i: nat, j: nat)
    requires ValidGroups(device.projectGroups) && ValidGroups(device.siteGroups) && ValidGroups(device.stationGroups)
    requires i < j < |RoutesOf(station, device)|
    ensures RoutesOf(station, device)[i] != RoutesOf(station, device)[j]
  {
    hide IsSegment;
    var a, b, c := |device.projectGroups|, |device.siteGroups|, |device.stationGroups|;
    var routes := RoutesOf(station, device);
    assert routes[0].TxOf?;
    assert 1 <= i <= a ==> routes[i] == GroupRoutes(station, ScopeProject, device.projectGroups)[i - 1];
    assert 1 <= j <= a ==> routes[j] == GroupRoutes(station, ScopeProject, device.projectGroups)[j - 1];
    assert a < i <= a + b ==> routes[i] == GroupRoutes(station, ScopeSite, device.siteGroups)[i - 1 - a];
    assert a < j <= a + b ==> routes[j] == GroupRoutes(station, ScopeSite, device.siteGroups)[j - 1 - a];
    assert a + b < i ==> routes[i] == GroupRoutes(station, ScopeStation, device.stationGroups)[i - 1 - a - b];
    assert a + b < j ==> routes[j] == GroupRoutes(station, ScopeStation, device.stationGroups)[j - 1 - a - b];
  }

  lemma RouteIsAdmitted(station: Station, device: DeviceConfig, i: nat)
    requires station.Valid() && IsSegment(device.id)
    requires ValidGroups(device.projectGroups) && ValidGroups(device.siteGroups) && ValidGroups(device.stationGroups)
    requires i < |RoutesOf(station, device)|
    ensures Admitted(RoutesOf(station, device)[i])
  {
    hide IsSegment;
    var a, b := |device.projectGroups|, |device.siteGroups|;
    if i == 0 {
    } else if i <= a {
      assert RoutesOf(station, device)[i] == GroupRoutes(station, ScopeProject, device.projectGroups)[i - 1];
    } else if i <= a + b {
      assert RoutesOf(station, device)[i] == GroupRoutes(station, ScopeSite, device.siteGroups)[i - 1 - a];
    } else {
      assert RoutesOf(station, device)[i] == GroupRoutes(station, ScopeStation, device.stationGroups)[i - 1 - a - b];
    }
  }

  /** No two routes of a device share a topic, so that none appears twice under
      one. */
  lemma TopicsOfDeviceAreDistinct(station: Station, device: DeviceConfig)
    requires station.Valid() && IsSegment(device.id)
    requires ValidGroups(device.projectGroups) && ValidGroups(device.siteGroups) && ValidGroups(device.stationGroups)
    ensures Distinct(TopicsOf(RoutesOf(station, device)))
  {
    hide IsSegment, Topic, RoutesOf, ValidGroups;
    var routes := RoutesOf(station, device);
    forall i, j | 0 <= i < j < |routes|
      ensures TopicsOf(routes)[i] != TopicsOf(routes)[j]
    {
      RoutesDiffer(station, device, i, j);
      RouteIsAdmitted(station, device, i);
      RouteIsAdmitted(station, device, j);
      if Topic(routes[i]) == Topic(routes[j]) {
        TopicsAreInjective(routes[i], routes[j]);
      }
    }
  }

  /** Two devices share a topic only through a group both are in, by its
      scope. */
  lemma SharedTopicIsSharedRoute(station: Station, a: DeviceConfig, b: DeviceConfig, i: nat, j: nat)
    requires station.Valid() && Validated([a, b])
    requires i < |RoutesOf(station, a)| && j < |RoutesOf(station, b)|
    requires Topic(RoutesOf(station, a)[i]) == Topic(RoutesOf(station, b)[j])
    ensures RoutesOf(station, a)[i] == RoutesOf(station, b)[j] && !RoutesOf(station, a)[i].TxOf?
  {
    hide IsSegment, Topic, ValidGroups;
    assert [a, b][0] == a && [a, b][1] == b;
    RouteIsAdmitted(station, a, i);
    RouteIsAdmitted(station, b, j);
    TopicsAreInjective(RoutesOf(station, a)[i], RoutesOf(station, b)[j]);
    if RoutesOf(station, a)[i].TxOf? {
      OwnRouteIsFirst(station, a, i);
      OwnRouteIsFirst(station, b, j);
    }
  }

  lemma OwnRouteIsFirst(station: Station, device: DeviceConfig, i: nat)
    requires i < |RoutesOf(station, device)| && RoutesOf(station, device)[i].TxOf?
    ensures RoutesOf(station, device)[i].device == device.id
  {
  }

  /** lines are exactly the devices that have the topic as a route, each once. */
  ghost predicate ReachesExactly(station: Station, devices: seq<DeviceConfig>, topic: string, lines: seq<nat>) {
    && (forall d: nat :: d in lines <==> d < |devices| && topic in TopicsOf(RoutesOf(station, devices[d])))
    && (forall i, j :: 0 <= i < j < |lines| ==> lines[i] < lines[j])
  }

  lemma TableReachesExactly(station: Station, devices: seq<DeviceConfig>, routes: seq<seq<string>>, topic: string)
    requires |routes| == |devices|
    requires forall i :: 0 <= i < |devices| ==> routes[i] == TopicsOf(RoutesOf(station, devices[i]))
    ensures ReachesExactly(station, devices, topic, DevicesWith(routes, topic))
  {
    hide RoutesOf, TopicsOf, DevicesWith;
    var lines := DevicesWith(routes, topic);
    forall d: nat
      ensures d in lines <==> d < |devices| && topic in TopicsOf(RoutesOf(station, devices[d]))
    {
      DevicesWithAre(routes, topic, d);
    }
    forall i, j | 0 <= i < j < |lines|
      ensures lines[i] < lines[j]
    {
      DevicesWithOnce(routes, topic, i, j);
    }
  }

  /** For every validated configuration the subscriptions, each once, are the
      keys of the routing table, and every topic subscribed to leads to exactly
      the devices that have it as a route, each once. */
  method SubscribeAndRoute(station: Station, devices: seq<DeviceConfig>)
    returns (subscriptions: seq<string>, byTopic: map<string, seq<nat>>)
    requires station.Valid() && Validated(devices)
    ensures Distinct(subscriptions)
    ensures forall topic :: topic in subscriptions <==> topic in byTopic
    ensures forall topic :: topic in byTopic ==> ReachesExactly(station, devices, topic, byTopic[topic])
  {
    hide IsSegment, Topic, RoutesOf, ValidGroups, Distinct, Routed, DevicesWith, TopicsOf, ReachesExactly;
    var routes;
    routes, subscriptions := BuildDevices(station, devices);
    forall i | 0 <= i < |routes|
      ensures Distinct(routes[i])
    {
      TopicsOfDeviceAreDistinct(station, devices[i]);
    }
    byTopic := BuildTable(routes);
    forall topic | topic in byTopic
      ensures ReachesExactly(station, devices, topic, byTopic[topic])
    {
      TableReachesExactly(station, devices, routes, topic);
    }
  }
}
