/** router/router.go: choosing a server of a type among those the service discovery knows. */
module Routing {
  import opened Base
  import opened Replicas
  import opened Discovery

  datatype Outcome = Routed(server: Server) | DiscoveryNotInitialized | NoServersOfType | RouteFailed(code: int)

  /** A routing function registered for a type; its context, route and payload arguments are fixed per call. */
  type RoutingFunc = map<string, Server> -> Outcome

  class Router {
    var serviceDiscovery: ServiceDiscovery?
    var routesMap: map<string, RoutingFunc>

    constructor ()
      ensures serviceDiscovery == null && routesMap == map[]
    {
      serviceDiscovery, routesMap := null, map[];
    }

    /** A random element of the servers. The random index is in range unless there are none, which panics (None). */
    method DefaultRoute(servers: map<string, Server>) returns (server: Option<Server>)
      ensures server.None? <==> servers == map[]
      ensures server.Some? ==> exists id :: id in servers && servers[id] == server.value
    {
      var srvList := [];
      var todo := servers.Keys;
      while todo != {}
        invariant todo <= servers.Keys
        invariant forall i :: 0 <= i < |srvList| ==> exists id :: id in servers && servers[id] == srvList[i]
        invariant |srvList| + |todo| == |servers|
        decreases |todo|
      {
        var id :| id in todo;
        srvList := srvList + [servers[id]];
        todo := todo - {id};
      }
      if srvList == [] {
        assert |servers.Keys| == 0;
        return None;
      }
      assert servers != map[];
      var k :| 0 <= k < |srvList|;
      return Some(srvList[k]);
    }

    /** Without discovery, or with nothing filed under the type, an error; else the registered function decides on
        exactly what is filed under the type, or the default picks one of that. It never panics, and what the default
        picks has the type if servers are filed where they belong. */
    method Route(svType: string) returns (outcome: Outcome)
      ensures serviceDiscovery == null ==> outcome == DiscoveryNotInitialized
      ensures serviceDiscovery != null ==>
                var ofType := Bucket(serviceDiscovery.View(), svType);
                if ofType == map[] then outcome == NoServersOfType
                else if svType in routesMap then outcome == routesMap[svType](ofType)
                else && outcome.Routed? && outcome.server in ofType.Values
                     && (Filed(serviceDiscovery.View()) ==>
                           outcome.server.typ == svType && outcome.server.id in ofType
                           && ofType[outcome.server.id] == outcome.server)
      ensures serviceDiscovery != null && Consistent(serviceDiscovery.View()) ==>
                var known := serviceDiscovery.byId;
                Bucket(serviceDiscovery.View(), svType)
                == map id | id in known && known[id].typ == svType :: known[id]
    {
      if serviceDiscovery == null {
        return DiscoveryNotInitialized;
      }
      var servers := serviceDiscovery.GetServersByType(svType);
      if servers.None? {
        return NoServersOfType;
      }
      if svType in routesMap {
        return routesMap[svType](servers.value);
      }
      var server := DefaultRoute(servers.value);
      return Routed(server.value);
    }
  }
}
