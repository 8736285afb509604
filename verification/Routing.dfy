/** Which node a client request is sent to, and how the route table changes over a run. */
module Routing {
  import opened Entries
  import opened Routes
  import Balancing
  import ResolverSpec

  const AUTO := "auto"
  const CLIENT := "client"

  /** The node id of a request or of an administrative call, as text that may not parse. */
  datatype NodeText = Absent | Malformed | Parsed(id: NodeId)

  datatype Request = Request(session: string, code: int, node: NodeText)

  datatype Refusal = NoPick | InvalidNodeId | NotAllocated | NoConnection

  type Outcome = Result<NodeId, Refusal>

  /** A connection to a node: the node must be known and not down, and dialling must work. */
  function Connection(nodes: map<NodeId, NodeEntry>, id: NodeId, dials: bool): Outcome {
    if id !in nodes || nodes[id].state == NodeDown || !dials then Failure(NoConnection) else Success(id)
  }

  /** What the gateway knows when a request arrives: the resolver's nodes, the balancer's answer for
      this session, and whether dialling the chosen node works. */
  datatype Surroundings = Surroundings(nodes: map<NodeId, NodeEntry>, alloc: Option<NodeId>, dials: bool)

  datatype Answer = Answer(table: Table, outcome: Outcome)

  /** Send to a node and, when that works, remember the route. */
  function Keep(t: Table, p: Pair, outcome: Outcome): Answer {
    Answer(if outcome.Success? then t[p := outcome.value] else t, outcome)
  }

  predicate NamesNode(desc: ServiceDesc, req: Request) {
    desc.stateful && desc.allocation == CLIENT && req.node != Absent
  }

  function Upstream(t: Table, env: Surroundings, desc: ServiceDesc, req: Request): Answer {
    var p := Pair(req.session, req.code);
    if !desc.stateful then
      Answer(t, if env.alloc.None? then Failure(NoPick) else Connection(env.nodes, env.alloc.value, env.dials))
    else if desc.allocation == CLIENT && req.node != Absent then
      if req.node.Malformed? then Answer(t, Failure(InvalidNodeId))
      else Keep(t, p, Connection(env.nodes, req.node.id, env.dials))
    else if p in t then Answer(t, Connection(env.nodes, t[p], env.dials))
    else if desc.allocation != AUTO then Answer(t, Failure(NotAllocated))
    else if env.alloc.None? then Answer(t, Failure(NoPick))
    else Keep(t, p, Connection(env.nodes, env.alloc.value, env.dials))
  }

  /** The routing decision over the table in memory; a route is stored only on success. */
  method GetUpstream(table: StateTable, env: Surroundings, desc: ServiceDesc, req: Request) returns (r: Outcome)
    requires table.Valid()
    modifies table, table.Maps()
    ensures table.Valid()
    ensures Answer(table.flat, r) == Upstream(old(table.flat), env, desc, req)
  {
    var nodeId: NodeId;
    var remember := false;
    if !desc.stateful {
      if env.alloc.None? { return Failure(NoPick); }
      nodeId := env.alloc.value;
    } else if desc.allocation == CLIENT && req.node != Absent {
      if req.node.Malformed? { return Failure(InvalidNodeId); }
      nodeId := req.node.id;
      remember := true;
    } else {
      var found := table.Find(req.session, req.code);
      if found.Some? {
        nodeId := found.value;
      } else {
        if desc.allocation != AUTO { return Failure(NotAllocated); }
        if env.alloc.None? { return Failure(NoPick); }
        nodeId := env.alloc.value;
        remember := true;
      }
    }
    r := Connection(env.nodes, nodeId, env.dials);
    if remember && r.Success? {
      table.Store(req.session, req.code, nodeId);
    }
  }

  // ---- One request ----

  /** A failed request leaves the table alone; a successful one goes to a known node that is not
      down, and if the service is stateful its route is in the table afterwards. Only a client that
      names a node changes an existing route, a stateless service has none, and without a route or
      a named node the request goes where the balancer says. */
  lemma OneRequest(t: Table, env: Surroundings, desc: ServiceDesc, req: Request)
    ensures var a := Upstream(t, env, desc, req);
            && (a.outcome.Failure? ==> a.table == t)
            && (a.outcome.Success? ==> a.outcome.value in env.nodes && env.nodes[a.outcome.value].state != NodeDown)
            && (a.outcome.Success? && desc.stateful ==>
                  Pair(req.session, req.code) in a.table && a.table[Pair(req.session, req.code)] == a.outcome.value)
            && (!desc.stateful || (Pair(req.session, req.code) in t && !NamesNode(desc, req)) ==> a.table == t)
            && (a.outcome.Success? && NamesNode(desc, req) ==> req.node == Parsed(a.outcome.value))
            && (a.outcome.Success? && !NamesNode(desc, req) && (!desc.stateful || Pair(req.session, req.code) !in t) ==>
                  env.alloc == Some(a.outcome.value) && (desc.stateful ==> desc.allocation == AUTO))
            && (forall p :: p != Pair(req.session, req.code) ==>
                  (p in a.table <==> p in t) && (p in t ==> a.table[p] == t[p]))
  {
  }

  /** The node can be reached: it is known, it is not down, and dialling works. */
  predicate CanReach(env: Surroundings, n: NodeId) {
    n in env.nodes && env.nodes[n].state != NodeDown && env.dials
  }

  /** The outcome when the request is meant for this node. */
  predicate SentTo(env: Surroundings, n: NodeId, outcome: Outcome) {
    outcome == if CanReach(env, n) then Success(n) else Failure(NoConnection)
  }

  /** The exact outcome of every request, and the one change it can make. A stateful service goes by the
      node that a client may name, then by the route, then by the balancer if allocation is automatic;
      a stateless one goes by the balancer. */
  lemma RequestOutcome(t: Table, env: Surroundings, desc: ServiceDesc, req: Request)
    ensures var a := Upstream(t, env, desc, req); var p := Pair(req.session, req.code);
            var named := desc.stateful && desc.allocation == "client" && req.node != Absent;
            var routed := desc.stateful && !named && p in t;
            var balanced := !desc.stateful || (!named && !routed && desc.allocation == "auto");
            && (a.outcome == Failure(InvalidNodeId) <==> named && req.node.Malformed?)
            && (a.outcome == Failure(NotAllocated) <==> !named && !routed && !balanced)
            && (a.outcome == Failure(NoPick) <==> balanced && env.alloc.None?)
            && (named && req.node.Parsed? ==> SentTo(env, req.node.id, a.outcome))
            && (routed ==> SentTo(env, t[p], a.outcome))
            && (balanced && env.alloc.Some? ==> SentTo(env, env.alloc.value, a.outcome))
            && a.table == if desc.stateful && !routed && a.outcome.Success? then t[p := a.outcome.value] else t
  {
  }

  // ---- Runs ----

  /** The table together with the sessions in the hub. */
  datatype State = State(table: Table, hub: set<string>)

  datatype Step =
    | Ask(env: Surroundings, desc: ServiceDesc, req: Request)
    | SetRoute(session: string, code: int, node: NodeText)      // by a server, for a connected session
    | RemoveRoute(session: string, code: int)
    | ReplaceRoutes(oldId: NodeText, newId: NodeText, pick: Choice)
    | NodeGone(gone: NodeId, pick: Choice)
    | Forget(session: string)                                   // clean-up timer, or connected elsewhere
    | HubChanges(hub: set<string>)

  ghost predicate Enabled(s: State, step: Step) {
    match step
    case ReplaceRoutes(oldId, newId, pick) => oldId.Parsed? && newId.Parsed? ==> GoodChoice(s.table, oldId.id, pick)
    case NodeGone(node, pick) => GoodChoice(s.table, node, pick)
    case _ => true
  }

  function Next(s: State, step: Step): State {
    match step
    case Ask(env, desc, req) => s.(table := Upstream(s.table, env, desc, req).table)
    case SetRoute(session, code, node) =>
      if session in s.hub && node.Parsed? then s.(table := s.table[Pair(session, code) := node.id]) else s
    case RemoveRoute(session, code) => s.(table := s.table - {Pair(session, code)})
    case ReplaceRoutes(oldId, newId, pick) =>
      if oldId.Parsed? && newId.Parsed? then s.(table := Replaced(s.table, pick, newId.id)) else s
    case NodeGone(_, pick) => s.(table := Cleaned(s.table, pick))
    case Forget(session) => s.(table := WithoutSession(s.table, session))
    case HubChanges(hub) => s.(hub := hub)
  }

  ghost predicate Possible(s: State, steps: seq<Step>)
    decreases |steps|
  {
    steps == [] || (Enabled(s, steps[0]) && Possible(Next(s, steps[0]), steps[1..]))
  }

  function Run(s: State, steps: seq<Step>): State
    decreases |steps|
  {
    if steps == [] then s else Run(Next(s, steps[0]), steps[1..])
  }

  /** The step is not about this route: nobody sets, removes, replaces or forgets it, its node does
      not go, and the client does not name a node for it. Ordinary requests, also for the same
      service, other sessions' routes and any change among the nodes are all allowed. */
  predicate LeavesAlone(step: Step, p: Pair, node: NodeId) {
    match step
    case Ask(_, desc, req) => Pair(req.session, req.code) == p ==> !NamesNode(desc, req)
    case SetRoute(session, code, _) => Pair(session, code) != p
    case RemoveRoute(session, code) => Pair(session, code) != p
    case ReplaceRoutes(oldId, newId, _) => oldId != Parsed(node)
    case NodeGone(gone, _) => gone != node
    case Forget(session) => session != p.session
    case HubChanges(_) => true
  }

  lemma {:induction false} RouteStays(s: State, steps: seq<Step>, p: Pair, node: NodeId)
    requires Possible(s, steps) && p in s.table && s.table[p] == node
    requires forall i :: 0 <= i < |steps| ==> LeavesAlone(steps[i], p, node)
    ensures p in Run(s, steps).table && Run(s, steps).table[p] == node
    decreases |steps|
  {
    if steps != [] {
      StepStays(s, steps[0], p, node);
      RouteStays(Next(s, steps[0]), steps[1..], p, node);
    }
  }

  lemma StepStays(s: State, step: Step, p: Pair, node: NodeId)
    requires Enabled(s, step) && p in s.table && s.table[p] == node && LeavesAlone(step, p, node)
    ensures p in Next(s, step).table && Next(s, step).table[p] == node
  {
    match step
    case ReplaceRoutes(oldId, newId, pick) =>
      if oldId.Parsed? && newId.Parsed? { NotChosen(s.table, oldId.id, pick, p); }
    case NodeGone(gone, pick) => NotChosen(s.table, gone, pick, p);
    case _ =>
  }

  lemma NotChosen(t: Table, node: NodeId, pick: Choice, p: Pair)
    requires GoodChoice(t, node, pick) && p in t && t[p] != node
    ensures !Chosen(pick, p)
  {
    assert p == Pair(p.session, p.code);
  }

  /** Sticky routing: once a request of a stateful service has succeeded on a node, then after any
      run of steps that leave that route alone the next request that names no node reaches the same
      node if it is known, not down and can be dialled, and fails otherwise. */
  lemma StickyRouting(s: State, env: Surroundings, desc: ServiceDesc, req: Request, node: NodeId,
                      steps: seq<Step>, env': Surroundings, desc': ServiceDesc, req': Request)
    requires desc.stateful && Upstream(s.table, env, desc, req).outcome == Success(node)
    requires Possible(Next(s, Ask(env, desc, req)), steps)
    requires forall i :: 0 <= i < |steps| ==> LeavesAlone(steps[i], Pair(req.session, req.code), node)
    requires desc'.stateful && (req'.session, req'.code) == (req.session, req.code) && !NamesNode(desc', req')
    ensures var t := Run(Next(s, Ask(env, desc, req)), steps);
            Upstream(t.table, env', desc', req').outcome ==
              if node in env'.nodes && env'.nodes[node].state != NodeDown && env'.dials then Success(node) else Failure(NoConnection)
  {
    OneRequest(s.table, env, desc, req);
    RouteStays(Next(s, Ask(env, desc, req)), steps, Pair(req.session, req.code), node);
  }

  /** The surroundings that the resolver gives a session of a service. */
  function FromResolver(v: ResolverSpec.View, code: int, sess: Balancing.Session, draw: int, dials: bool): Surroundings {
    var r := ResolverSpec.AllocNode(v, code, sess, draw);
    Surroundings(v.nodes, if r.Success? then Some(r.value) else None, dials)
  }

  /** An automatic allocation never gives a node that is not ok. */
  lemma AllocAvoids(v: ResolverSpec.View, code: int, sess: Balancing.Session, draw: int, node: NodeId, pub: int -> bool)
    requires ResolverSpec.Consistent(v, pub) && code > 0
    requires node in v.nodes && v.nodes[node].state != NodeOk
    ensures FromResolver(v, code, sess, draw, true).alloc != Some(node)
  {
    if ResolverSpec.AllocNode(v, code, sess, draw).Success? {
      ResolverSpec.AllocGivesOkNode(v, code, sess, draw, pub);
    }
  }

  /** A lazy node keeps the sessions routed to it and gets no new ones: a session with a route
      still reaches it, and neither a stateless request nor a first request under automatic
      allocation is ever sent to a node that is not ok. */
  lemma LazyKeepsItsSessions(t: Table, v: ResolverSpec.View, desc: ServiceDesc, req: Request,
                             sess: Balancing.Session, draw: int, node: NodeId, pub: int -> bool)
    requires ResolverSpec.Consistent(v, pub) && req.code > 0
    requires node in v.nodes && v.nodes[node].state == NodeLazy && !NamesNode(desc, req)
    ensures var p := Pair(req.session, req.code);
            var outcome := Upstream(t, FromResolver(v, req.code, sess, draw, true), desc, req).outcome;
            && (desc.stateful && p in t && t[p] == node ==> outcome == Success(node))
            && ((!desc.stateful || p !in t) ==> outcome != Success(node))
  {
    AllocAvoids(v, req.code, sess, draw, node, pub);
    Decided(t, FromResolver(v, req.code, sess, draw, true), desc, req, node);
  }

  lemma Decided(t: Table, env: Surroundings, desc: ServiceDesc, req: Request, node: NodeId)
    requires !NamesNode(desc, req) && env.dials && env.alloc != Some(node)
    requires node in env.nodes && env.nodes[node].state != NodeDown
    ensures var p := Pair(req.session, req.code); var outcome := Upstream(t, env, desc, req).outcome;
            && (desc.stateful && p in t && t[p] == node ==> outcome == Success(node))
            && ((!desc.stateful || p !in t) ==> outcome != Success(node))
  {
  }

  // ---- Administrative calls ----

  /** A server sets the route of a connected session; the id is not parsed for a session that
      is not here. */
  method SetServiceRoute(table: StateTable, hub: set<string>, session: string, code: int, node: NodeText) returns (ok: bool)
    requires table.Valid()
    modifies table, table.Maps()
    ensures table.Valid()
    ensures table.flat == Next(State(old(table.flat), hub), SetRoute(session, code, node)).table
    ensures table.flat == if session in hub && node.Parsed? then old(table.flat)[Pair(session, code) := node.id] else old(table.flat)
    ensures ok <==> session !in hub || node.Parsed?
  {
    if session in hub {
      if !node.Parsed? { return false; }
      table.Store(session, code, node.id);
    }
    return true;
  }

  /** A server removes a route, whether or not the session is here. */
  method RemoveServiceRoute(table: StateTable, hub: set<string>, session: string, code: int)
    requires table.Valid()
    modifies table, table.Maps()
    ensures table.Valid()
    ensures table.flat == Next(State(old(table.flat), hub), RemoveRoute(session, code)).table
    ensures Pair(session, code) !in table.flat
    ensures forall p :: p != Pair(session, code) ==> (p in table.flat <==> p in old(table.flat)) && (p in table.flat ==> table.flat[p] == old(table.flat)[p])
  {
    table.Remove(session, code);
  }

  method ReplaceServiceRoute(table: StateTable, oldId: NodeText, newId: NodeText) returns (ok: bool, ghost pick: Choice)
    requires table.Valid()
    modifies table, table.Maps()
    ensures table.Valid()
    ensures ok <==> oldId.Parsed? && newId.Parsed?
    ensures ok ==> GoodChoice(old(table.flat), oldId.id, pick) && table.flat == Replaced(old(table.flat), pick, newId.id)
    ensures forall hub :: table.flat == Next(State(old(table.flat), hub), ReplaceRoutes(oldId, newId, pick)).table
    ensures !ok ==> table.flat == old(table.flat)
  {
    pick := map[];
    if !oldId.Parsed? { return false, pick; }
    if !newId.Parsed? { return false, pick; }
    pick := table.ReplaceNode(oldId.id, newId.id);
    ok := true;
  }
}
