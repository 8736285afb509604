/** One gateway's bookkeeping of client sessions: the session hub, the clean-up jobs of users who
    left, and the table of stateful routes. */
module Gateway {
  import opened Entries
  import opened Routes
  import Routing

  type User = string
  type SessionId = int
  type TimerId = int

  datatype Gate = Gate(
    hub: map<User, SessionId>,       // the session of each connected user
    closed: set<SessionId>,          // sessions whose connection this gateway has closed
    jobs: map<User, TimerId>,        // the clean-up timer registered for a user who left
    timers: map<TimerId, User>,      // timers that have neither fired nor been stopped
    table: Table)                    // the stateful routes

  const IDLE := Gate(map[], {}, map[], map[], map[])

  /** Close the session the user already has here. */
  function Displace(g: Gate, u: User): Gate {
    if u in g.hub then g.(closed := g.closed + {g.hub[u]}) else g
  }

  /** Give up the clean-up job of a user who returns. */
  function CancelJob(g: Gate, u: User): Gate {
    if u in g.jobs then g.(timers := g.timers - {g.jobs[u]}, jobs := g.jobs - {u}) else g
  }

  /** Stopping a timer that is no longer running would wait for ever. */
  predicate WouldBlock(g: Gate, u: User) {
    u in g.jobs && g.jobs[u] !in g.timers
  }

  /** A new connection. When its event cannot be published the session is not stored. */
  function Connect(g: Gate, u: User, s: SessionId, published: bool): Gate {
    var g1 := CancelJob(Displace(g, u), u);
    if published then g1.(hub := g1.hub[u := s]) else g1
  }

  /** A connection has ended: its hub entry goes only if it is still this session's. */
  function Disconnect(g: Gate, u: User, s: SessionId, t: TimerId): Gate {
    g.(hub := if u in g.hub && g.hub[u] == s then g.hub - {u} else g.hub,
       closed := g.closed + {s},
       jobs := g.jobs[u := t],
       timers := g.timers[t := u])
  }

  /** A clean-up timer fires. */
  function Fire(g: Gate, t: TimerId): Gate
    requires t in g.timers
  {
    var u := g.timers[t];
    g.(table := if u in g.hub then g.table else WithoutSession(g.table, u),
       jobs := g.jobs - {u},
       timers := g.timers - {t})
  }

  /** The user has connected to another gateway. */
  function ConnectedElsewhere(g: Gate, u: User): Gate {
    var g1 := Displace(g, u);
    g1.(table := WithoutSession(g1.table, u))
  }

  function Close(g: Gate, s: SessionId): Gate {
    g.(closed := g.closed + {s})
  }

  /** The routes and the connected users, as the routing rules see them. */
  function Routed(g: Gate): Routing.State {
    Routing.State(g.table, g.hub.Keys)
  }

  /** A request, an administrative call or the loss of a node changes the routes. */
  function Serve(g: Gate, step: Routing.Step): Gate {
    g.(table := Routing.Next(Routed(g), step).table)
  }

  // ---- The objects that a gateway works on ----

  /** A client connection. The id is that of the model only; the gateway compares objects. */
  class Session {
    const user: User
    ghost const id: SessionId
    var closed: bool

    constructor (user: User, ghost id: SessionId)
      ensures this.user == user && this.id == id && !closed
    {
      this.user, this.id, closed := user, id, false;
    }

    method Close()
      modifies this
      ensures closed
    {
      closed := true;
    }
  }

  datatype Status = Running | Fired | Stopped

  class Timer {
    const user: User
    ghost const id: TimerId
    var status: Status

    constructor (user: User, ghost id: TimerId)
      ensures this.user == user && this.id == id && status == Running
    {
      this.user, this.id, status := user, id, Running;
    }

    method Stop() returns (stopped: bool)
      modifies this
      ensures stopped <==> old(status) == Running
      ensures status == if stopped then Stopped else old(status)
    {
      stopped := status == Running;
      if stopped { status := Stopped; }
    }

    method GoOff()
      requires status == Running
      modifies this
      ensures status == Fired
    {
      status := Fired;
    }
  }

  /** Different sessions, and different timers, have different ids. */
  ghost predicate Distinct(sessions: set<Session>, timers: set<Timer>) {
    && (forall s, t :: s in sessions && t in sessions && s.id == t.id ==> s == t)
    && (forall s, t :: s in timers && t in timers && s.id == t.id ==> s == t)
  }

  ghost predicate HubLeads(hub: map<User, Session>, ids: map<User, SessionId>, sessions: set<Session>) {
    && hub.Keys == ids.Keys
    && forall u :: u in hub ==> hub[u] in sessions && hub[u].user == u && hub[u].id == ids[u]
  }

  ghost predicate JobsLead(jobs: map<User, Timer>, ids: map<User, TimerId>, timers: set<Timer>) {
    && jobs.Keys == ids.Keys
    && forall u :: u in jobs ==> jobs[u] in timers && jobs[u].id == ids[u]
  }

  ghost predicate ClosedAre(sessions: set<Session>, closed: set<SessionId>)
    reads sessions
  {
    forall s :: s in sessions ==> (s.closed <==> s.id in closed)
  }

  ghost predicate RunningAre(timers: set<Timer>, running: map<TimerId, User>)
    reads timers
  {
    forall t :: t in timers ==> (t.status == Running <==> t.id in running) && (t.id in running ==> running[t.id] == t.user)
  }

  datatype Welcome = Stored | Refused | Stuck

  class Proxy {
    var hub: map<User, Session>
    var cleanJobs: map<User, Timer>
    const table: StateTable
    /** All sessions stored and all timers started so far, and what they amount to. */
    ghost var sessions: set<Session>
    ghost var timers: set<Timer>
    ghost var gate: Gate

    ghost predicate Valid()
      reads this, sessions, timers, table, table.Maps()
    {
      && Distinct(sessions, timers)
      && HubLeads(hub, gate.hub, sessions) && JobsLead(cleanJobs, gate.jobs, timers)
      && ClosedAre(sessions, gate.closed) && RunningAre(timers, gate.timers)
      && table.Valid() && table.flat == gate.table
    }

    constructor ()
      ensures Valid() && gate == IDLE && sessions == {} && timers == {}
      ensures fresh(table)
    {
      hub, cleanJobs := map[], map[];
      sessions, timers, gate := {}, {}, IDLE;
      table := new StateTable();
    }

    /** A client connects: its other session here is closed, its clean-up job is given up, and it is
        stored if the event bus takes the event. A timer that has gone off blocks the call for ever. */
    method OnConnect(sess: Session, published: bool) returns (r: Welcome)
      requires Valid() && sess !in sessions && forall s :: s in sessions ==> s.id != sess.id
      requires !sess.closed && sess.id !in gate.closed
      modifies this, sessions, timers, sess
      ensures Valid()
      ensures r == if WouldBlock(old(gate), sess.user) then Stuck else if published then Stored else Refused
      ensures gate == if r.Stuck? then Displace(old(gate), sess.user) else Connect(old(gate), sess.user, sess.id, published)
      ensures sessions == (if r.Stored? then old(sessions) + {sess} else old(sessions)) && timers == old(timers)
      ensures sess.closed <==> r.Refused?
      ensures hub == (if r.Stored? then old(hub)[sess.user := sess] else old(hub)) && table.flat == old(table.flat)
      ensures sess.user in old(hub) ==> old(hub)[sess.user].closed
      ensures cleanJobs == if r.Stuck? then old(cleanJobs) else old(cleanJobs) - {sess.user}
      ensures !r.Stuck? && sess.user in old(cleanJobs) ==> old(cleanJobs)[sess.user].status == Stopped
      ensures forall t :: t in timers && !(sess.user in old(cleanJobs) && t == old(cleanJobs)[sess.user]) ==> t.status == old(t.status)
    {
      var cleared := MakeWay(sess.user);
      if !cleared { return Stuck; }
      r := Admit(sess, published);
    }

    method Admit(sess: Session, published: bool) returns (r: Welcome)
      requires Valid() && sess !in sessions && forall s :: s in sessions ==> s.id != sess.id
      requires !sess.closed && sess.id !in gate.closed
      modifies this`hub, this`gate, this`sessions, sess
      ensures Valid() && r == (if published then Stored else Refused) && (sess.closed <==> r.Refused?)
      ensures gate == if published then old(gate).(hub := old(gate).hub[sess.user := sess.id]) else old(gate)
      ensures sessions == if published then old(sessions) + {sess} else old(sessions)
      ensures hub == if published then old(hub)[sess.user := sess] else old(hub)
    {
      if published {
        Keep(sess);
        return Stored;
      }
      sess.Close();
      return Refused;
    }

    /** Close the user's other session here and give up the clean-up job. */
    method MakeWay(u: User) returns (cleared: bool)
      requires Valid()
      modifies this`cleanJobs, this`gate, sessions, timers
      ensures Valid() && (cleared <==> !WouldBlock(old(gate), u))
      ensures gate == if cleared then CancelJob(Displace(old(gate), u), u) else Displace(old(gate), u)
      ensures u in hub ==> hub[u].closed
      ensures cleanJobs == if cleared then old(cleanJobs) - {u} else old(cleanJobs)
      ensures cleared && u in old(cleanJobs) ==> old(cleanJobs)[u].status == Stopped
      ensures forall t :: t in timers && !(u in old(cleanJobs) && t == old(cleanJobs)[u]) ==> t.status == old(t.status)
    {
      if u in hub { Shut(hub[u]); }
      cleared := true;
      if u in cleanJobs { cleared := Cancel(u); }
    }

    /** Close a session that is or was stored here. */
    method Shut(s: Session)
      requires Valid() && s in sessions
      modifies this`gate, s
      ensures Valid() && s.closed && gate == Close(old(gate), s.id)
    {
      s.Close();
      gate := Close(gate, s.id);
    }

    /** Stop the registered timer of a user and forget it, if it is still running. */
    method Cancel(u: User) returns (stopped: bool)
      requires Valid() && u in cleanJobs
      modifies this`cleanJobs, this`gate, cleanJobs[u]
      ensures Valid() && (stopped <==> !WouldBlock(old(gate), u))
      ensures gate == if stopped then CancelJob(old(gate), u) else old(gate)
      ensures cleanJobs == if stopped then old(cleanJobs) - {u} else old(cleanJobs)
      ensures stopped ==> old(cleanJobs)[u].status == Stopped
    {
      stopped := cleanJobs[u].Stop();
      if stopped {
        gate := CancelJob(gate, u);
        cleanJobs := cleanJobs - {u};
      }
    }

    method Keep(sess: Session)
      requires Valid() && sess !in sessions && forall s :: s in sessions ==> s.id != sess.id
      requires !sess.closed && sess.id !in gate.closed
      modifies this`hub, this`gate, this`sessions
      ensures Valid() && sessions == old(sessions) + {sess} && hub == old(hub)[sess.user := sess]
      ensures gate == old(gate).(hub := old(gate).hub[sess.user := sess.id])
    {
      hub := hub[sess.user := sess];
      sessions := sessions + {sess};
      gate := gate.(hub := gate.hub[sess.user := sess.id]);
    }

    /** A stored session has ended. The hub is changed only if it still holds this very session. */
    method OnDisconnect(sess: Session, ghost id: TimerId) returns (job: Timer)
      requires Valid() && sess in sessions && id !in gate.timers && forall t :: t in timers ==> t.id != id
      modifies this, sess
      ensures Valid() && gate == Disconnect(old(gate), sess.user, sess.id, id)
      ensures hub == if sess.user in old(hub) && old(hub)[sess.user] == sess then old(hub) - {sess.user} else old(hub)
      ensures fresh(job) && job.user == sess.user && timers == old(timers) + {job} && sessions == old(sessions)
      ensures job.status == Running && cleanJobs == old(cleanJobs)[sess.user := job] && sess.closed
      ensures forall t :: t in old(timers) ==> t.status == old(t.status)
      ensures table.flat == old(table.flat)
    {
      var u := sess.user;
      Forget(sess);
      job := Register(u, id);
      Shut(sess);
    }

    /** The hub's compare-and-delete. */
    method Forget(sess: Session)
      requires Valid() && sess in sessions
      modifies this`hub, this`gate
      ensures Valid()
      ensures hub == if sess.user in old(hub) && old(hub)[sess.user] == sess then old(hub) - {sess.user} else old(hub)
      ensures var g := old(gate);
              gate == g.(hub := if sess.user in g.hub && g.hub[sess.user] == sess.id then g.hub - {sess.user} else g.hub)
    {
      var u := sess.user;
      assert u in hub && hub[u].id == sess.id ==> hub[u] == sess;
      if u in hub && hub[u] == sess {
        hub := hub - {u};
        gate := gate.(hub := gate.hub - {u});
      }
    }

    /** Start a clean-up timer and register it, in place of an earlier one that goes on running. */
    method Register(u: User, ghost id: TimerId) returns (job: Timer)
      requires Valid() && id !in gate.timers && forall t :: t in timers ==> t.id != id
      modifies this`cleanJobs, this`timers, this`gate
      ensures Valid() && fresh(job) && job.user == u && timers == old(timers) + {job}
      ensures job.status == Running && cleanJobs == old(cleanJobs)[u := job]
      ensures gate == old(gate).(jobs := old(gate).jobs[u := id], timers := old(gate).timers[id := u])
    {
      job := new Timer(u, id);
      cleanJobs := cleanJobs[u := job];
      timers := timers + {job};
      gate := gate.(jobs := gate.jobs[u := id], timers := gate.timers[id := u]);
    }

    /** A clean-up timer goes off: the routes of its user go unless the user is back. */
    method OnTimer(job: Timer)
      requires Valid() && job in timers && job.status == Running
      modifies this, job, table
      ensures Valid() && gate == Fire(old(gate), job.id)
      ensures table.flat == if job.user in hub then old(table.flat) else WithoutSession(old(table.flat), job.user)
      ensures hub == old(hub) && sessions == old(sessions) && timers == old(timers)
      ensures job.status == Fired && cleanJobs == old(cleanJobs) - {job.user}
    {
      ghost var next := Fire(gate, job.id);
      job.GoOff();
      if job.user !in hub { table.CleanSession(job.user); }
      cleanJobs := cleanJobs - {job.user};
      gate := next;
    }

    /** A UserConnected event from the bus; `own` says that this gateway published it. */
    method OnUserConnected(u: User, own: bool)
      requires Valid()
      modifies this`gate, sessions, table
      ensures Valid() && gate == if own then old(gate) else ConnectedElsewhere(old(gate), u)
      ensures !own ==> (u in hub ==> hub[u].closed) && table.flat == WithoutSession(old(table.flat), u)
    {
      if !own {
        if u in hub { Shut(hub[u]); }
        table.CleanSession(u);
        gate := gate.(table := WithoutSession(gate.table, u));
      }
    }

    /** A client's request is routed, which may add to the table. */
    method OnRequest(env: Routing.Surroundings, desc: ServiceDesc, req: Routing.Request) returns (r: Routing.Outcome)
      requires Valid()
      modifies this`gate, table, table.Maps()
      ensures Valid() && gate == Serve(old(gate), Routing.Ask(env, desc, req))
      ensures Routing.Answer(table.flat, r) == Routing.Upstream(old(table.flat), env, desc, req)
    {
      r := Routing.GetUpstream(table, env, desc, req);
      gate := gate.(table := table.flat);
    }

    /** A node has left the cluster. */
    method OnNodeGone(node: NodeId) returns (ghost pick: Choice)
      requires Valid()
      modifies this`gate, table`flat, table.Maps()
      ensures Valid() && Routing.Enabled(Routed(old(gate)), Routing.NodeGone(node, pick))
      ensures gate == Serve(old(gate), Routing.NodeGone(node, pick))
      ensures GoodChoice(old(table.flat), node, pick) && table.flat == Cleaned(old(table.flat), pick)
    {
      pick := table.CleanNode(node);
      gate := gate.(table := table.flat);
    }

    /** A server sets the route of a user who is connected here. */
    method SetServiceRoute(user: User, code: int, node: Routing.NodeText) returns (ok: bool)
      requires Valid()
      modifies this`gate, table, table.Maps()
      ensures Valid() && gate == Serve(old(gate), Routing.SetRoute(user, code, node))
      ensures table.flat == if user in hub && node.Parsed? then old(table.flat)[Pair(user, code) := node.id] else old(table.flat)
      ensures ok <==> user !in hub || node.Parsed?
    {
      ok := Routing.SetServiceRoute(table, hub.Keys, user, code, node);
      gate := gate.(table := table.flat);
    }
  }
}
