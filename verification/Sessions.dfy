/** Session ownership across all gateways: connections, displacement, events that arrive in any
    order, disconnections and clean-up timers, in every order they can happen. */
module Sessions {
  import opened Entries
  import opened Gateway
  import opened Routes
  import Routing

  type GateId = int

  /** A session that was stored in a hub. Sessions are numbered in the order of their connections;
      `live` says that its disconnection has not been handled yet. */
  datatype Record = Record(user: User, gate: GateId, live: bool)

  /** A pair (n, g) in `pending`: gateway g has not yet handled the event of session n. */
  datatype Cluster = Cluster(
    sessions: seq<Record>,
    gates: map<GateId, Gate>,
    pending: set<(int, GateId)>,
    nextTimer: int)

  datatype Step =
    | Start(g: GateId)                      // a gateway joins and subscribes to the events
    | Connecting(g: GateId, user: User)     // displace, cancel the job, publish, store: one step
    | Rejected(g: GateId, user: User)       // the event could not be published
    | Closing(n: int)                       // the connection is closed for any other reason
    | Disconnecting(n: int)                 // the session's loop ends
    | Firing(g: GateId, t: TimerId)
    | Deliver(n: int, g: GateId)            // in any order
    | Serving(g: GateId, step: Routing.Step) // a request, an administrative call, or a node is lost

  ghost predicate Enabled(c: Cluster, step: Step) {
    match step
    case Start(g) => g !in c.gates
    case Connecting(g, _) => g in c.gates
    case Rejected(g, _) => g in c.gates
    case Closing(n) => 0 <= n < |c.sessions| && c.sessions[n].gate in c.gates
    case Disconnecting(n) => 0 <= n < |c.sessions| && c.sessions[n].live && c.sessions[n].gate in c.gates
    case Firing(g, t) => g in c.gates && t in c.gates[g].timers
    case Deliver(n, g) => (n, g) in c.pending && 0 <= n < |c.sessions| && g in c.gates
    case Serving(g, rs) => g in c.gates && !rs.Forget? && !rs.HubChanges? && Routing.Enabled(Routed(c.gates[g]), rs)
  }

  ghost function Next(c: Cluster, step: Step): Cluster
    requires Enabled(c, step)
  {
    match step
    case Start(g) => c.(gates := c.gates[g := IDLE])
    case Connecting(g, u) =>
      var n := |c.sessions|;
      c.(sessions := c.sessions + [Record(u, g, true)],
         gates := c.gates[g := Connect(c.gates[g], u, n, true)],
         pending := c.pending + (set h | h in c.gates :: (n, h)))
    case Rejected(g, u) => c.(gates := c.gates[g := Connect(c.gates[g], u, |c.sessions|, false)])
    case Closing(n) =>
      var g := c.sessions[n].gate;
      c.(gates := c.gates[g := Close(c.gates[g], n)])
    case Disconnecting(n) =>
      var r := c.sessions[n];
      c.(sessions := c.sessions[n := r.(live := false)],
         gates := c.gates[r.gate := Disconnect(c.gates[r.gate], r.user, n, c.nextTimer)],
         nextTimer := c.nextTimer + 1)
    case Firing(g, t) => c.(gates := c.gates[g := Fire(c.gates[g], t)])
    case Deliver(n, g) =>
      var r := c.sessions[n];
      c.(pending := c.pending - {(n, g)},
         gates := if r.gate == g then c.gates else c.gates[g := ConnectedElsewhere(c.gates[g], r.user)])
    case Serving(g, rs) => c.(gates := c.gates[g := Serve(c.gates[g], rs)])
  }

  ghost predicate Possible(c: Cluster, steps: seq<Step>)
    decreases |steps|
  {
    steps == [] || (Enabled(c, steps[0]) && Possible(Next(c, steps[0]), steps[1..]))
  }

  ghost function Run(c: Cluster, steps: seq<Step>): Cluster
    requires Possible(c, steps)
    decreases |steps|
  {
    if steps == [] then c else Run(Next(c, steps[0]), steps[1..])
  }

  const NOTHING := Cluster([], map[], {}, 0)

  // ---- What the hub should hold, from the list of sessions alone ----

  predicate At(c: Cluster, n: int, g: GateId, u: User) {
    0 <= n < |c.sessions| && c.sessions[n].gate == g && c.sessions[n].user == u
  }

  /** No later session of the same user was stored at the same gateway. */
  predicate IsLast(c: Cluster, n: int, g: GateId, u: User) {
    At(c, n, g, u) && forall m :: n < m < |c.sessions| ==> !At(c, m, g, u)
  }

  /** The connection is still up as far as its gateway has done anything about it. */
  predicate Open(c: Cluster, n: int) {
    && 0 <= n < |c.sessions| && c.sessions[n].live
    && c.sessions[n].gate in c.gates && n !in c.gates[c.sessions[n].gate].closed
  }

  ghost predicate HubExact(c: Cluster) {
    && (forall g, u :: g in c.gates && u in c.gates[g].hub ==>
          IsLast(c, c.gates[g].hub[u], g, u) && c.sessions[c.gates[g].hub[u]].live)
    && (forall n :: 0 <= n < |c.sessions| && c.sessions[n].live && IsLast(c, n, c.sessions[n].gate, c.sessions[n].user) ==>
          InHub(c, n))
  }

  predicate InHub(c: Cluster, n: int)
    requires 0 <= n < |c.sessions|
  {
    var r := c.sessions[n];
    r.gate in c.gates && r.user in c.gates[r.gate].hub && c.gates[r.gate].hub[r.user] == n
  }

  /** Every connected session that is not the last of its user here is already closed. */
  ghost predicate OthersClosed(c: Cluster) {
    forall n :: Open(c, n) ==> IsLast(c, n, c.sessions[n].gate, c.sessions[n].user)
  }

  /** A registered job is always a running timer of that user. */
  ghost predicate JobsRunning(c: Cluster) {
    && (forall g, u :: g in c.gates && u in c.gates[g].jobs ==>
          c.gates[g].jobs[u] in c.gates[g].timers && c.gates[g].timers[c.gates[g].jobs[u]] == u)
    && (forall g, t :: g in c.gates && t in c.gates[g].timers ==> t < c.nextTimer)
  }

  /** Of two open sessions of a user, the later one's event has not reached the earlier's gateway. */
  ghost predicate Announced(c: Cluster) {
    forall n, m :: n < m && Open(c, n) && Open(c, m) && Rivals(c.sessions[n], c.sessions[m]) ==>
      (m, c.sessions[n].gate) in c.pending
  }

  predicate Rivals(a: Record, b: Record) {
    a.user == b.user && a.gate != b.gate
  }

  ghost predicate Inv(c: Cluster) {
    && (forall n :: 0 <= n < |c.sessions| ==> c.sessions[n].gate in c.gates)
    && (forall n, g :: (n, g) in c.pending ==> 0 <= n < |c.sessions| && g in c.gates)
    && HubExact(c) && OthersClosed(c) && JobsRunning(c) && Announced(c)
  }

  // ---- Every step keeps the invariant ----

  /** A step that leaves the sessions and the hubs alone and at most closes connections. */
  ghost predicate OnlyCloses(c: Cluster, c': Cluster) {
    && c'.sessions == c.sessions && c'.gates.Keys == c.gates.Keys
    && forall g :: g in c.gates ==> c'.gates[g].hub == c.gates[g].hub && c.gates[g].closed <= c'.gates[g].closed
  }

  lemma ClosingKeepsHub(c: Cluster, c': Cluster)
    requires Inv(c) && OnlyCloses(c, c')
    ensures HubExact(c') && OthersClosed(c')
    ensures forall n :: Open(c', n) ==> Open(c, n)
  {
    assert forall n, g, u :: IsLast(c', n, g, u) <==> IsLast(c, n, g, u) by {
      assert forall n, g, u :: At(c', n, g, u) <==> At(c, n, g, u);
    }
    forall n | Open(c', n) ensures Open(c, n) && IsLast(c', n, c'.sessions[n].gate, c'.sessions[n].user) {
      assert Open(c, n);
    }
    forall n | 0 <= n < |c'.sessions| && c'.sessions[n].live && IsLast(c', n, c'.sessions[n].gate, c'.sessions[n].user)
      ensures InHub(c', n)
    {
      assert InHub(c, n);
    }
  }

  lemma OpenInHub(c: Cluster, n: int)
    requires Inv(c) && Open(c, n)
    ensures InHub(c, n)
  {
    assert IsLast(c, n, c.sessions[n].gate, c.sessions[n].user);
  }

  lemma StartKeeps(c: Cluster, g: GateId)
    requires Inv(c) && Enabled(c, Start(g))
    ensures Inv(Next(c, Start(g)))
  {
    var c' := Next(c, Start(g));
    assert forall n, h, u :: At(c', n, h, u) <==> At(c, n, h, u);
    assert forall n, h, u :: IsLast(c', n, h, u) <==> IsLast(c, n, h, u);
    forall n | Open(c', n) ensures Open(c, n) { assert c.sessions[n].gate in c.gates; }
    forall n | 0 <= n < |c'.sessions| && c'.sessions[n].live && IsLast(c', n, c'.sessions[n].gate, c'.sessions[n].user)
      ensures InHub(c', n)
    {
      assert InHub(c, n);
    }
  }

  /** Steps that touch one gateway's timers, routes or closed set only. */
  lemma TouchKeeps(c: Cluster, step: Step)
    requires Inv(c) && Enabled(c, step)
    requires step.Rejected? || step.Closing? || step.Firing? || step.Serving?
    ensures Inv(Next(c, step))
  {
    var c' := Next(c, step);
    assert OnlyCloses(c, c');
    ClosingKeepsHub(c, c');
    TouchJobs(c, step);
  }

  lemma TouchJobs(c: Cluster, step: Step)
    requires JobsRunning(c) && Enabled(c, step)
    requires step.Rejected? || step.Closing? || step.Firing? || step.Serving?
    ensures JobsRunning(Next(c, step))
  {
  }

  /** The session that the delivered event rivals is the one in the hub, so it gets closed. */
  lemma DeliverKeeps(c: Cluster, n: int, g: GateId)
    requires Inv(c) && Enabled(c, Deliver(n, g))
    ensures Inv(Next(c, Deliver(n, g)))
  {
    var c' := Next(c, Deliver(n, g));
    ClosingKeepsHub(c, c');
    forall a, b | a < b && Open(c', a) && Open(c', b) && Rivals(c'.sessions[a], c'.sessions[b])
      ensures (b, c'.sessions[a].gate) in c'.pending
    {
      assert Open(c, a) && Open(c, b);
      OpenInHub(c, a);
    }
  }

  lemma ConnectKeeps(c: Cluster, g: GateId, u: User)
    requires Inv(c) && Enabled(c, Connecting(g, u))
    ensures Inv(Next(c, Connecting(g, u)))
  {
    var c' := Next(c, Connecting(g, u));
    var n := |c.sessions|;
    assert At(c', n, g, u);
    assert forall m, h, w :: m != n ==> (At(c', m, h, w) <==> At(c, m, h, w));
    forall m, h, w ensures IsLast(c', m, h, w) <==> if (h, w) == (g, u) then m == n else IsLast(c, m, h, w) {}
    forall m | Open(c', m) && m != n ensures Open(c, m) && !At(c, m, g, u) {
      assert Open(c, m);
      OpenInHub(c, m);
    }
    forall m | 0 <= m < |c'.sessions| && c'.sessions[m].live && IsLast(c', m, c'.sessions[m].gate, c'.sessions[m].user)
      ensures InHub(c', m)
    {
      if m != n { assert InHub(c, m); }
    }
    ConnectAnnounced(c, g, u);
  }

  lemma ConnectAnnounced(c: Cluster, g: GateId, u: User)
    requires Inv(c) && Enabled(c, Connecting(g, u))
    ensures Announced(Next(c, Connecting(g, u)))
  {
    var c' := Next(c, Connecting(g, u));
    forall a, b | a < b && Open(c', a) && Open(c', b) && Rivals(c'.sessions[a], c'.sessions[b])
      ensures (b, c'.sessions[a].gate) in c'.pending
    {
      assert Open(c, a);
      if b < |c.sessions| { assert Open(c, b); }
    }
  }

  lemma DisconnectHub(c: Cluster, n: int)
    requires Inv(c) && Enabled(c, Disconnecting(n))
    ensures HubExact(Next(c, Disconnecting(n)))
    ensures forall m :: Open(Next(c, Disconnecting(n)), m) ==> Open(c, m)
    ensures OthersClosed(Next(c, Disconnecting(n)))
  {
    var c' := Next(c, Disconnecting(n));
    assert forall m, h, w :: At(c', m, h, w) <==> At(c, m, h, w);
    assert forall m, h, w :: IsLast(c', m, h, w) <==> IsLast(c, m, h, w);
    forall m | Open(c', m) ensures m != n && Open(c, m) { assert m != n; }
    forall m | 0 <= m < |c'.sessions| && c'.sessions[m].live && IsLast(c', m, c'.sessions[m].gate, c'.sessions[m].user)
      ensures InHub(c', m)
    {
      assert InHub(c, m);
    }
  }

  lemma DisconnectJobs(c: Cluster, n: int)
    requires JobsRunning(c) && Enabled(c, Disconnecting(n))
    ensures JobsRunning(Next(c, Disconnecting(n)))
  {
  }

  lemma DisconnectKeeps(c: Cluster, n: int)
    requires Inv(c) && Enabled(c, Disconnecting(n))
    ensures Inv(Next(c, Disconnecting(n)))
  {
    var c' := Next(c, Disconnecting(n));
    DisconnectHub(c, n);
    DisconnectJobs(c, n);
    forall a, b | a < b && Open(c', a) && Open(c', b) && Rivals(c'.sessions[a], c'.sessions[b])
      ensures (b, c'.sessions[a].gate) in c'.pending
    {
      assert Open(c, a) && Open(c, b) && Rivals(c.sessions[a], c.sessions[b]);
    }
  }

  lemma StepKeeps(c: Cluster, step: Step)
    requires Inv(c) && Enabled(c, step)
    ensures Inv(Next(c, step))
  {
    match step
    case Start(g) => StartKeeps(c, g);
    case Connecting(g, u) => ConnectKeeps(c, g, u);
    case Disconnecting(n) => DisconnectKeeps(c, n);
    case Deliver(n, g) => DeliverKeeps(c, n, g);
    case _ => TouchKeeps(c, step);
  }

  lemma {:induction false} RunKeeps(c: Cluster, steps: seq<Step>)
    requires Inv(c) && Possible(c, steps)
    ensures Inv(Run(c, steps))
    decreases |steps|
  {
    if steps != [] {
      StepKeeps(c, steps[0]);
      RunKeeps(Next(c, steps[0]), steps[1..]);
    }
  }

  // ---- Main results ----

  /** In every run, once no event is pending, no user has two open sessions anywhere. */
  lemma SingleSession(steps: seq<Step>, n: int, m: int)
    requires Possible(NOTHING, steps)
    requires var c := Run(NOTHING, steps);
             c.pending == {} && Open(c, n) && Open(c, m) && c.sessions[n].user == c.sessions[m].user
    ensures n == m
  {
    RunKeeps(NOTHING, steps);
    var c := Run(NOTHING, steps);
    assert IsLast(c, n, c.sessions[n].gate, c.sessions[n].user);
    assert IsLast(c, m, c.sessions[m].gate, c.sessions[m].user);
    assert n < m ==> Rivals(c.sessions[n], c.sessions[m]);
    assert m < n ==> Rivals(c.sessions[m], c.sessions[n]);
  }

  /** In every run the hub holds for each user exactly the last session stored at that gateway,
      provided its disconnection has not been handled; every other session of the user that is
      still connected there has been closed. */
  lemma HubOwnership(steps: seq<Step>, g: GateId, u: User, n: int)
    requires Possible(NOTHING, steps) && g in Run(NOTHING, steps).gates
    ensures var c := Run(NOTHING, steps);
            && (u in c.gates[g].hub && c.gates[g].hub[u] == n <==> IsLast(c, n, g, u) && c.sessions[n].live)
            && (At(c, n, g, u) && c.sessions[n].live && !IsLast(c, n, g, u) ==> n in c.gates[g].closed)
  {
    RunKeeps(NOTHING, steps);
    var c := Run(NOTHING, steps);
    if IsLast(c, n, g, u) && c.sessions[n].live { assert InHub(c, n); }
    if At(c, n, g, u) && c.sessions[n].live && n !in c.gates[g].closed { assert Open(c, n); }
  }

  /** A displaced session that ends late does not evict its successor. */
  lemma LateDisconnect(steps: seq<Step>, n: int)
    requires Possible(NOTHING, steps) && Enabled(Run(NOTHING, steps), Disconnecting(n))
    ensures var c := Run(NOTHING, steps); var r := c.sessions[n];
            !IsLast(c, n, r.gate, r.user) ==> Next(c, Disconnecting(n)).gates[r.gate].hub == c.gates[r.gate].hub
  {
    RunKeeps(NOTHING, steps);
  }

  /** A returning user's clean-up job can always be stopped without waiting, and a timer that
      fires takes away exactly the routes of its own user, and only while that user is away. */
  lemma CleanUpJobs(steps: seq<Step>, g: GateId, u: User, t: TimerId, p: Pair)
    requires Possible(NOTHING, steps) && g in Run(NOTHING, steps).gates
    ensures var gate := Run(NOTHING, steps).gates[g];
            && !WouldBlock(gate, u)
            && (t in gate.timers ==> Fire(gate, t).timers == gate.timers - {t} && gate.timers[t] !in Fire(gate, t).jobs)
            && (t in gate.timers && p in gate.table ==>
                  (p !in Fire(gate, t).table <==> p.session == gate.timers[t] && p.session !in gate.hub))
            && (t in gate.timers && u in gate.jobs && gate.timers[t] != u ==>
                  u in Fire(gate, t).jobs && Fire(gate, t).jobs[u] in Fire(gate, t).timers)
  {
    RunKeeps(NOTHING, steps);
  }

  /** A session lost its connection by this gateway's doing: its user came again here or elsewhere. */
  ghost predicate ClosesSession(c: Cluster, step: Step, n: int)
    requires Enabled(c, step) && Open(c, n)
  {
    var r := c.sessions[n];
    match step
    case Connecting(g, u) => g == r.gate && u == r.user
    case Rejected(g, u) => g == r.gate && u == r.user
    case Deliver(m, g) => g == r.gate && c.sessions[m].user == r.user && c.sessions[m].gate != g
    case Closing(m) => m == n
    case Disconnecting(m) => m == n
    case _ => false
  }

  /** In every run an open session ends by exactly those steps; no step on behalf of another user
      or an outdated session ends it. */
  lemma WhoEndsSessions(steps: seq<Step>, step: Step, n: int)
    requires Possible(NOTHING, steps) && Enabled(Run(NOTHING, steps), step) && Open(Run(NOTHING, steps), n)
    ensures var c := Run(NOTHING, steps); !Open(Next(c, step), n) <==> ClosesSession(c, step, n)
  {
    RunKeeps(NOTHING, steps);
    var c := Run(NOTHING, steps);
    OpenInHub(c, n);
    EndsOnly(c, step, n);
  }

  lemma EndsOnly(c: Cluster, step: Step, n: int)
    requires Inv(c) && Enabled(c, step) && Open(c, n) && InHub(c, n)
    ensures !Open(Next(c, step), n) <==> ClosesSession(c, step, n)
  {
    forall u | u in c.gates[c.sessions[n].gate].hub && c.gates[c.sessions[n].gate].hub[u] == n ensures u == c.sessions[n].user {
      assert IsLast(c, n, c.sessions[n].gate, u);
    }
  }

  /** A user who returns has no clean-up job any more, its timer will not fire, and the jobs of
      others go on. */
  lemma ReturnCancelsJob(steps: seq<Step>, g: GateId, u: User, w: User, step: Step)
    requires Possible(NOTHING, steps) && g in Run(NOTHING, steps).gates && w != u && Returns(step, g, u)
    ensures var c := Run(NOTHING, steps);
            var before, after := c.gates[g], Next(c, step).gates[g];
            && u !in after.jobs
            && (u in before.jobs ==> before.jobs[u] !in after.timers)
            && (w in before.jobs ==> w in after.jobs && after.jobs[w] == before.jobs[w] && before.jobs[w] in after.timers)
  {
    RunKeeps(NOTHING, steps);
  }

  // ---- Clean-up after a user has left ----

  /** In every run a disconnection starts a timer of the user and registers it, and every timer and
      every other user's job goes on. */
  lemma DisconnectStartsJob(steps: seq<Step>, n: int, w: User)
    requires Possible(NOTHING, steps) && Enabled(Run(NOTHING, steps), Disconnecting(n))
    ensures var c := Run(NOTHING, steps); var r, t := c.sessions[n], c.nextTimer;
            var before, after := c.gates[r.gate], Next(c, Disconnecting(n)).gates[r.gate];
            && t !in before.timers && t in after.timers && after.timers[t] == r.user
            && r.user in after.jobs && after.jobs[r.user] == t
            && (forall x :: x in before.timers ==> x in after.timers && after.timers[x] == before.timers[x])
            && (w != r.user && w in before.jobs ==> w in after.jobs && after.jobs[w] == before.jobs[w])
            && after.table == before.table
  {
    RunKeeps(NOTHING, steps);
  }

  /** The timer has neither fired nor been stopped. */
  ghost predicate Ticking(c: Cluster, g: GateId, t: TimerId, u: User) {
    g in c.gates && t in c.gates[g].timers && c.gates[g].timers[t] == u
  }

  /** The user tries to connect here again. */
  predicate Returns(step: Step, g: GateId, u: User) {
    step == Connecting(g, u) || step == Rejected(g, u)
  }

  lemma StepTicks(c: Cluster, step: Step, g: GateId, t: TimerId, u: User)
    requires JobsRunning(c) && Enabled(c, step) && Ticking(c, g, t, u) && !Returns(step, g, u) && step != Firing(g, t)
    ensures Ticking(Next(c, step), g, t, u)
    ensures u !in c.gates[g].hub ==> u !in Next(c, step).gates[g].hub
  {
  }

  /** The step ends the registration of the user's job: the user returns, one of the user's timers
      fires, or another session of the user ends and registers its own. */
  ghost predicate Unregisters(c: Cluster, step: Step, g: GateId, u: User)
    requires Enabled(c, step)
  {
    || Returns(step, g, u)
    || (step.Firing? && step.g == g && c.gates[g].timers[step.t] == u)
    || (step.Disconnecting? && c.sessions[step.n].gate == g && c.sessions[step.n].user == u)
  }

  /** A job stays registered through every step but exactly those. */
  lemma StepRegistered(c: Cluster, step: Step, g: GateId, u: User)
    requires JobsRunning(c) && Enabled(c, step) && g in c.gates && u in c.gates[g].jobs
    ensures g in Next(c, step).gates
    ensures var jobs := Next(c, step).gates[g].jobs;
            (u in jobs && jobs[u] == c.gates[g].jobs[u]) <==> !Unregisters(c, step, g, u)
  {
  }

  lemma {:induction false} RunTicks(c: Cluster, steps: seq<Step>, g: GateId, t: TimerId, u: User)
    requires Inv(c) && Possible(c, steps) && Ticking(c, g, t, u)
    requires forall i :: 0 <= i < |steps| ==> !Returns(steps[i], g, u) && steps[i] != Firing(g, t)
    ensures Ticking(Run(c, steps), g, t, u)
    ensures u !in c.gates[g].hub ==> u !in Run(c, steps).gates[g].hub
    decreases |steps|
  {
    if steps != [] {
      StepTicks(c, steps[0], g, t, u);
      StepKeeps(c, steps[0]);
      RunTicks(Next(c, steps[0]), steps[1..], g, t, u);
    }
  }

  /** In every run, the timer that a disconnection started goes on until it fires or the user returns
      to that gateway, whatever else happens. If the session was the user's last one there, the user
      is still away when it fires, and then no route of the user is left. */
  lemma RoutesAreCleaned(steps: seq<Step>, n: int, more: seq<Step>, c1: Cluster, c2: Cluster)
    requires Possible(NOTHING, steps) && Enabled(Run(NOTHING, steps), Disconnecting(n))
    requires c1 == Next(Run(NOTHING, steps), Disconnecting(n)) && Possible(c1, more) && c2 == Run(c1, more)
    requires var c := Run(NOTHING, steps); var r := c.sessions[n];
             forall i :: 0 <= i < |more| ==> !Returns(more[i], r.gate, r.user) && more[i] != Firing(r.gate, c.nextTimer)
    ensures var c := Run(NOTHING, steps); var r, t := c.sessions[n], c.nextTimer;
            && Enabled(c2, Firing(r.gate, t)) && c2.gates[r.gate].timers[t] == r.user
            && (IsLast(c, n, r.gate, r.user) ==>
                  forall p :: p in Next(c2, Firing(r.gate, t)).gates[r.gate].table ==> p.session != r.user)
  {
    var c := Run(NOTHING, steps);
    var r, t := c.sessions[n], c.nextTimer;
    RunKeeps(NOTHING, steps);
    StepKeeps(c, Disconnecting(n));
    assert Ticking(c1, r.gate, t, r.user);
    if IsLast(c, n, r.gate, r.user) {
      assert InHub(c, n);
      assert r.user !in c1.gates[r.gate].hub;
    }
    RunTicks(c1, more, r.gate, t, r.user);
  }

  // ---- Routes across connections ----

  /** The step does not bear on the route from p to the node at gateway g: no timer of the user fires
      there while the user is away, no news arrives that the user connected elsewhere, and routing
      leaves the route alone. Connecting, being displaced and disconnecting there are all allowed. */
  ghost predicate Undisturbed(c: Cluster, step: Step, g: GateId, p: Pair, node: NodeId)
    requires Enabled(c, step)
  {
    match step
    case Firing(h, t) => h == g && c.gates[h].timers[t] == p.session ==> p.session in c.gates[h].hub
    case Deliver(n, h) => h == g && c.sessions[n].user == p.session ==> c.sessions[n].gate == g
    case Serving(h, rs) => h == g ==> Routing.LeavesAlone(rs, p, node)
    case _ => true
  }

  ghost predicate AllUndisturbed(c: Cluster, steps: seq<Step>, g: GateId, p: Pair, node: NodeId)
    requires Possible(c, steps)
    decreases |steps|
  {
    steps == [] || (Undisturbed(c, steps[0], g, p, node) && AllUndisturbed(Next(c, steps[0]), steps[1..], g, p, node))
  }

  ghost predicate HasRoute(c: Cluster, g: GateId, p: Pair, node: NodeId) {
    g in c.gates && p in c.gates[g].table && c.gates[g].table[p] == node
  }

  /** A timer or an event takes a route away exactly when it disturbs it. */
  lemma StepRoute(c: Cluster, step: Step, g: GateId, p: Pair, node: NodeId)
    requires Enabled(c, step) && HasRoute(c, g, p, node)
    ensures Undisturbed(c, step, g, p, node) ==> HasRoute(Next(c, step), g, p, node)
    ensures !step.Serving? && !Undisturbed(c, step, g, p, node) ==> !HasRoute(Next(c, step), g, p, node)
  {
    if step.Serving? && step.g == g && Routing.LeavesAlone(step.step, p, node) {
      Routing.StepStays(Routed(c.gates[g]), step.step, p, node);
    }
  }

  lemma {:induction false} RunRoute(c: Cluster, steps: seq<Step>, g: GateId, p: Pair, node: NodeId)
    requires Possible(c, steps) && HasRoute(c, g, p, node) && AllUndisturbed(c, steps, g, p, node)
    ensures HasRoute(Run(c, steps), g, p, node)
    decreases |steps|
  {
    if steps != [] {
      StepRoute(c, steps[0], g, p, node);
      RunRoute(Next(c, steps[0]), steps[1..], g, p, node);
    }
  }

  /** Sticky routing over connections: once a request of a stateful service has succeeded on a node,
      the user may lose the connection, come back to the same gateway and be displaced there any
      number of times, among any steps of others. As long as nothing disturbs the route, the next
      request that names no node reaches that node or fails. */
  lemma StickyAcrossReconnects(c: Cluster, g: GateId, ask: Routing.Step, node: NodeId, steps: seq<Step>,
                               env: Routing.Surroundings, desc: ServiceDesc, req: Routing.Request)
    requires ask.Ask? && ask.desc.stateful && Enabled(c, Serving(g, ask))
    requires Routing.Upstream(c.gates[g].table, ask.env, ask.desc, ask.req).outcome == Success(node)
    requires Possible(Next(c, Serving(g, ask)), steps)
    requires AllUndisturbed(Next(c, Serving(g, ask)), steps, g, Pair(ask.req.session, ask.req.code), node)
    requires desc.stateful && (req.session, req.code) == (ask.req.session, ask.req.code) && !Routing.NamesNode(desc, req)
    ensures g in Run(Next(c, Serving(g, ask)), steps).gates
    ensures Routing.Upstream(Run(Next(c, Serving(g, ask)), steps).gates[g].table, env, desc, req).outcome ==
            if node in env.nodes && env.nodes[node].state != NodeDown && env.dials then Success(node)
            else Failure(Routing.NoConnection)
  {
    var p := Pair(ask.req.session, ask.req.code);
    Routing.OneRequest(c.gates[g].table, ask.env, ask.desc, ask.req);
    assert HasRoute(Next(c, Serving(g, ask)), g, p, node);
    RunRoute(Next(c, Serving(g, ask)), steps, g, p, node);
  }
}
