/**
 * Where apid sends a request: the Director picks local or remote backends from the headers, and a
 * remote backend marks the requests it forwards so that they are never forwarded again.
 */
module Proxying {
  import opened Results

  /** Request headers. The keys are in lower case. */
  type Metadata = map<string, seq<string>>

  datatype Backend = Local | Remote(target: string)

  datatype Code = Unimplemented | InvalidArgument | Internal

  /** What a Director decides: one backend, a fan-out over several, or an error. */
  datatype Route = One2One(backend: Backend) | One2Many(backends: seq<Backend>) | Refused(code: Code)

  /** The local address provider, and the remote backend factory, which accepts some targets only. */
  datatype Env = Env(isLocal: string -> bool, accepts: string -> bool)

  function Values(md: Metadata, key: string): (values: seq<string>)
    ensures key in md ==> values == md[key]
    ensures key !in md ==> values == []
  {
    if key in md then md[key] else []
  }

  predicate IsCosi(name: string)
    ensures IsCosi(name) <==> |name| >= 6 && name[..6] == "/cosi."
  {
    "/cosi." <= name
  }

  /** Each target is handled by its own remote backend, at the same index. */
  predicate FansOut(backends: seq<Backend>, targets: seq<string>) {
    |backends| == |targets| && forall i | 0 <= i < |targets| :: backends[i] == Remote(targets[i])
  }

  predicate AllAccepted(env: Env, targets: seq<string>) {
    forall t | t in targets :: env.accepts(t)
  }

  /** A fan-out over the targets, refused as soon as one of them is. */
  ghost predicate Aggregates(env: Env, targets: seq<string>, route: Route) {
    && (AllAccepted(env, targets) <==> route.One2Many?)
    && (route.One2Many? ==> FansOut(route.backends, targets))
    && (!route.One2Many? ==> route == Refused(Internal))
  }

  class Router {
    const env: Env
    const nodeProxyingDisabled: bool

    constructor (env: Env, nodeProxyingDisabled: bool)
      ensures this.env == env && this.nodeProxyingDisabled == nodeProxyingDisabled
    {
      this.env, this.nodeProxyingDisabled := env, nodeProxyingDisabled;
    }

    method RemoteBackend(target: string) returns (backend: Option<Backend>)
      ensures backend == if env.accepts(target) then Some(Remote(target)) else None
    {
      backend := if env.accepts(target) then Some(Remote(target)) else None;
    }

    method AggregateDirector(targets: seq<string>) returns (route: Route)
      ensures Aggregates(env, targets, route)
    {
      var backends: seq<Backend> := [];
      for i := 0 to |targets|
        invariant FansOut(backends, targets[..i]) && AllAccepted(env, targets[..i])
      {
        var backend := RemoteBackend(targets[i]);
        if backend == None {
          assert targets[i] in targets;
          return Refused(Internal);
        }
        backends := backends + [backend.value];
        assert targets[..i + 1] == targets[..i] + [targets[i]];
      }
      assert targets[..|targets|] == targets;
      route := One2Many(backends);
    }

    method SingleDirector(target: string) returns (route: Route)
      ensures route == if env.accepts(target) then One2One(Remote(target)) else Refused(Internal)
    {
      var backend := RemoteBackend(target);
      route := if backend == None then Refused(Internal) else One2One(backend.value);
    }

    /** With node proxying disabled, a request is local or is fanned out; nothing else is forwarded. */
    method DirectAccessDirector(md: Metadata, fullMethodName: string) returns (route: Route)
      ensures DirectAccess(env, md, fullMethodName, route)
    {
      if "node" in md {
        return Refused(Unimplemented);
      }
      var nodes := Values(md, "nodes");
      if |nodes| == 0 {
        return One2One(Local);
      }
      if |nodes| == 1 {
        if !env.isLocal(nodes[0]) {
          return Refused(InvalidArgument);
        }
      }
      if IsCosi(fullMethodName) {
        return Refused(InvalidArgument);
      }
      route := AggregateDirector(nodes);
    }

    /** With node proxying enabled, "nodes" asks for a fan-out and "node" for one remote node. */
    method ProxyDirector(md: Metadata, fullMethodName: string) returns (route: Route)
      ensures Proxies(env, md, fullMethodName, route)
    {
      if "node" in md && |md["node"]| != 1 {
        return Refused(InvalidArgument);
      }
      if "nodes" in md {
        if IsCosi(fullMethodName) {
          return Refused(InvalidArgument);
        }
        route := AggregateDirector(md["nodes"]);
      } else if "node" in md {
        route := SingleDirector(md["node"][0]);
      } else {
        route := One2One(Local);
      }
    }

    /** Director: a request without metadata, or one that was already forwarded, stays here. */
    method Director(md: Option<Metadata>, fullMethodName: string) returns (route: Route)
      ensures Directs(env, nodeProxyingDisabled, md, fullMethodName, route)
    {
      if md == None {
        return One2One(Local);
      }
      if "proxyfrom" in md.value {
        return One2One(Local);
      }
      if nodeProxyingDisabled {
        route := DirectAccessDirector(md.value, fullMethodName);
      } else {
        route := ProxyDirector(md.value, fullMethodName);
      }
    }
  }

  // ---------------------------------------------------------------- what the directors decide

  /**
   * Without node proxying: a "node" header is refused, and no "nodes" is for this node; nodes are fanned
   * out, unless the method is of COSI, or there is one only and that is not this node.
   */
  ghost predicate DirectAccess(env: Env, md: Metadata, fullMethodName: string, route: Route) {
    if "node" in md then route == Refused(Unimplemented)
    else if "nodes" !in md || md["nodes"] == [] then route == One2One(Local)
    else if "/cosi." <= fullMethodName || (|md["nodes"]| == 1 && !env.isLocal(md["nodes"][0])) then
      route == Refused(InvalidArgument)
    else Aggregates(env, md["nodes"], route)
  }

  /** One remote node only for a single "node" header, a fan-out only for "nodes", else local. */
  ghost predicate Proxies(env: Env, md: Metadata, fullMethodName: string, route: Route) {
    && (route == One2One(Local) <==> "node" !in md && "nodes" !in md)
    && (route == Refused(InvalidArgument) <==>
        ("node" in md && |md["node"]| != 1) || ("nodes" in md && "/cosi." <= fullMethodName))
    && (route.One2One? && route.backend.Remote? <==>
        "nodes" !in md && "node" in md && |md["node"]| == 1 && env.accepts(md["node"][0]))
    && (route.One2One? && route.backend.Remote? ==> md["node"] == [route.backend.target])
    && ("nodes" in md && route != Refused(InvalidArgument) ==> Aggregates(env, md["nodes"], route))
    && (route.One2Many? ==> "nodes" in md)
    && route != Refused(Unimplemented)
  }

  /** Only fan-outs leave this node without node proxying, and a fan-out over one node is over this one. */
  lemma DirectAccessIsLocal(env: Env, md: Metadata, fullMethodName: string, route: Route)
    requires DirectAccess(env, md, fullMethodName, route)
    ensures route.One2One? ==> route == One2One(Local)
    ensures route.One2Many? ==> (
              && "nodes" in md && FansOut(route.backends, md["nodes"])
              && (|md["nodes"]| == 1 ==> env.isLocal(md["nodes"][0])))
  {
  }

  ghost predicate Directs(env: Env, disabled: bool, md: Option<Metadata>, fullMethodName: string, route: Route) {
    if md == None || "proxyfrom" in md.value then route == One2One(Local)
    else if disabled then DirectAccess(env, md.value, fullMethodName, route)
    else Proxies(env, md.value, fullMethodName, route)
  }

  lemma AggregateIsDetermined(env: Env, targets: seq<string>, a: Route, b: Route)
    requires Aggregates(env, targets, a) && Aggregates(env, targets, b)
    ensures a == b
  {
    if a.One2Many? {
      assert a.backends == b.backends;
    }
  }

  lemma RouteCases(r: Route)
    ensures r.One2Many? || r == One2One(Local) || (r.One2One? && r.backend.Remote?) ||
            r == Refused(Unimplemented) || r == Refused(InvalidArgument) || r == Refused(Internal)
  {
    match r
    case Refused(code) => assert code == Unimplemented || code == InvalidArgument || code == Internal;
    case One2One(backend) => assert backend == Local || backend.Remote?;
    case One2Many(_) =>
  }

  lemma DirectAccessIsDetermined(env: Env, md: Metadata, fullMethodName: string, a: Route, b: Route)
    requires DirectAccess(env, md, fullMethodName, a) && DirectAccess(env, md, fullMethodName, b)
    ensures a == b
  {
    hide Aggregates;
    if "nodes" in md && Aggregates(env, md["nodes"], a) && Aggregates(env, md["nodes"], b) {
      AggregateIsDetermined(env, md["nodes"], a, b);
    }
  }

  lemma ProxiesIsDetermined(env: Env, md: Metadata, fullMethodName: string, a: Route, b: Route)
    requires Proxies(env, md, fullMethodName, a) && Proxies(env, md, fullMethodName, b)
    ensures a == b
  {
    hide Aggregates;
    RouteCases(a);
    RouteCases(b);
    if a != Refused(InvalidArgument) {
      if "nodes" in md {
        AggregateIsDetermined(env, md["nodes"], a, b);
      } else if a.One2One? && a.backend.Remote? {
        assert [a.backend.target][0] == [b.backend.target][0];
      }
    }
  }

  /** What is stated of a Director leaves it no choice. */
  lemma DirectorIsDetermined(env: Env, disabled: bool, md: Option<Metadata>, fullMethodName: string, a: Route, b: Route)
    requires Directs(env, disabled, md, fullMethodName, a) && Directs(env, disabled, md, fullMethodName, b)
    ensures a == b
  {
    hide DirectAccess, Proxies;
    if md.Some? && "proxyfrom" !in md.value {
      if disabled {
        DirectAccessIsDetermined(env, md.value, fullMethodName, a, b);
      } else {
        ProxiesIsDetermined(env, md.value, fullMethodName, a, b);
      }
    }
  }

  // ---------------------------------------------------------------- forwarding

  /** The headers of a forwarded request. */
  function Forwarded(md: Metadata): Metadata {
    var from := if Values(md, ":authority") != [] then Values(md, ":authority") else ["unknown"];
    md["proxyfrom" := from] - {":authority", "nodes", "node"}
  }

  type Conn = nat

  /** The backend for one remote apid, with its connection once there is one. */
  class APID {
    const target: string
    var conn: Option<Conn>

    constructor (target: string)
      ensures this.target == target && conn == None
    {
      this.target, conn := target, None;
    }

    /**
     * GetConnection: the headers to forward and the connection, dialled at the first use. Any
     * failure leaves the backend without one, so that the next use tries again.
     */
    method GetConnection(md: Option<Metadata>, tls: Option<Error>, dial: Result<Conn>)
      returns (outgoing: Metadata, c: Option<Conn>, err: Option<Error>)
      modifies this`conn
      ensures "proxyfrom" in outgoing && outgoing["proxyfrom"] != []
      ensures outgoing["proxyfrom"] ==
                if md.Some? && ":authority" in md.value && md.value[":authority"] != [] then md.value[":authority"]
                else ["unknown"]
      ensures forall key | key in {":authority", "nodes", "node"} :: key !in outgoing
      ensures forall key | key !in {":authority", "nodes", "node", "proxyfrom"} ::
                (key in outgoing <==> md.Some? && key in md.value) &&
                    (key in outgoing ==> outgoing[key] == md.value[key])
      ensures outgoing == Forwarded(if md == None then map[] else md.value)
      ensures old(conn).Some? ==> conn == old(conn)
      ensures c == conn && (err == None <==> c.Some?)
      ensures old(conn) == None && tls == None && dial.Ok? ==> conn == Some(dial.value)
      ensures old(conn) == None && (tls != None || dial.Err?) ==> conn == None
    {
      var headers: Metadata := if md == None then map[] else md.value;
      var authority := Values(headers, ":authority");
      if |authority| > 0 {
        headers := headers["proxyfrom" := authority];
      } else {
        headers := headers["proxyfrom" := ["unknown"]];
      }
      headers := headers - {":authority"};
      headers := headers - {"nodes"};
      headers := headers - {"node"};
      outgoing := headers;
      if conn.Some? {
        return outgoing, conn, None;
      }
      if tls != None {
        return outgoing, None, tls;
      }
      if dial.Ok? {
        conn, err := Some(dial.value), None;
      } else {
        conn, err := None, Some(dial.error);
      }
      c := conn;
    }
  }

  // ---------------------------------------------------------------- routes

  /** A node's apid, and which node each target address leads to. */
  datatype Node = Node(env: Env, disabled: bool)
  datatype Network = Network(nodes: seq<Node>, address: string -> nat)

  /** A request as it arrives at a node. */
  datatype Arrival = Arrival(node: nat, md: Option<Metadata>)

  /** The receiving side gets every forwarded header; it may add some of its own, such as ":authority". */
  ghost predicate Carries(outgoing: Metadata, incoming: Option<Metadata>) {
    incoming.Some? && forall key | key in outgoing :: key in incoming.value && incoming.value[key] == outgoing[key]
  }

  ghost predicate Chooses(route: Route, backend: Backend) {
    (route.One2One? && route.backend == backend) || (route.One2Many? && backend in route.backends)
  }

  /** The node at a sends the request on to the node at b. */
  ghost predicate Hop(net: Network, fullMethodName: string, a: Arrival, b: Arrival) {
    exists route, target ::
      && a.node < |net.nodes| && b.node < |net.nodes|
      && Directs(net.nodes[a.node].env, net.nodes[a.node].disabled, a.md, fullMethodName, route)
      && Chooses(route, Remote(target))
      && b.node == net.address(target)
      && Carries(Forwarded(if a.md == None then map[] else a.md.value), b.md)
  }

  /** A request that starts somewhere and is handed from node to node. */
  ghost predicate Path(net: Network, fullMethodName: string, path: seq<Arrival>) {
    forall i | 0 < i < |path| :: Hop(net, fullMethodName, path[i - 1], path[i])
  }

  lemma ForwardedIsMarked(md: Metadata)
    ensures "proxyfrom" in Forwarded(md) && "node" !in Forwarded(md) && "nodes" !in Forwarded(md)
  {
  }

  lemma HopArrives(net: Network, fullMethodName: string, a: Arrival, b: Arrival)
    requires Hop(net, fullMethodName, a, b)
    ensures b.md.Some? && "proxyfrom" in b.md.value
    ensures !(a.md.Some? && "proxyfrom" in a.md.value)
  {
    ForwardedIsMarked(if a.md == None then map[] else a.md.value);
  }

  /** Whatever the headers and whichever mode each node is in, a request makes at most one remote hop. */
  lemma OneRemoteHop(net: Network, fullMethodName: string, path: seq<Arrival>)
    requires Path(net, fullMethodName, path)
    ensures |path| <= 2
    ensures |path| == 2 ==> forall env, disabled, route |
              Directs(env, disabled, path[1].md, fullMethodName, route) :: route == One2One(Local)
  {
    if |path| >= 2 {
      assert Hop(net, fullMethodName, path[1 - 1], path[1]);
      HopArrives(net, fullMethodName, path[0], path[1]);
    }
    if |path| >= 3 {
      assert Hop(net, fullMethodName, path[2 - 1], path[2]);
      HopArrives(net, fullMethodName, path[1], path[2]);
    }
  }
}
