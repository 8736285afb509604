/** The table of stateful routes: one map of service codes to nodes per session, changed in place. */
module Routes {
  import opened Entries

  /** A session and a service code. */
  datatype Pair = Pair(session: string, code: int)

  /** The table seen as one flat map. */
  type Table = map<Pair, NodeId>

  /** Which route of each session a walk over its services meets first among those to a node. */
  type Choice = map<string, int>

  /** The walk finds a route to the node in every session that has one. */
  ghost predicate GoodChoice(t: Table, node: NodeId, pick: Choice) {
    && (forall s :: s in pick ==> Pair(s, pick[s]) in t && t[Pair(s, pick[s])] == node)
    && (forall p :: p in t && t[p] == node ==> p.session in pick)
  }

  predicate Chosen(pick: Choice, p: Pair) {
    p.session in pick && pick[p.session] == p.code
  }

  function Cleaned(t: Table, pick: Choice): Table {
    map p | p in t && !Chosen(pick, p) :: t[p]
  }

  function Replaced(t: Table, pick: Choice, newId: NodeId): Table {
    map p | p in t :: if Chosen(pick, p) then newId else t[p]
  }

  function WithoutSession(t: Table, session: string): Table {
    map p | p in t && p.session != session :: t[p]
  }

  // ---- Both walks stop at the first match of each session ----

  ghost predicate AtMostOne(t: Table, node: NodeId) {
    forall p, q :: p in t && q in t && t[p] == node && t[q] == node && p.session == q.session ==> p == q
  }

  ghost predicate Unused(t: Table, node: NodeId) {
    forall p :: p in t ==> t[p] != node
  }

  /** After a node is removed no route to it is left if and only if no session had two. */
  lemma CleanedIff(t: Table, node: NodeId, pick: Choice)
    requires GoodChoice(t, node, pick)
    ensures Unused(Cleaned(t, pick), node) <==> AtMostOne(t, node)
  {
    var t' := Cleaned(t, pick);
    if AtMostOne(t, node) {
      forall p | p in t' ensures t'[p] != node {
        assert p.session in pick ==> Pair(p.session, pick[p.session]) in t;
      }
    } else {
      var p, q :| p in t && q in t && t[p] == node && t[q] == node && p.session == q.session && p != q;
      var kept := if Chosen(pick, p) then q else p;
      assert kept in t' && t'[kept] == node;
    }
  }

  /** The same holds for replacing a node by another one. */
  lemma ReplacedIff(t: Table, oldId: NodeId, newId: NodeId, pick: Choice)
    requires GoodChoice(t, oldId, pick) && oldId != newId
    ensures Unused(Replaced(t, pick, newId), oldId) <==> AtMostOne(t, oldId)
  {
    var t' := Replaced(t, pick, newId);
    if AtMostOne(t, oldId) {
      forall p | p in t' ensures t'[p] != oldId {
        assert p.session in pick ==> Pair(p.session, pick[p.session]) in t;
      }
    } else {
      var p, q :| p in t && q in t && t[p] == oldId && t[q] == oldId && p.session == q.session && p != q;
      var kept := if Chosen(pick, p) then q else p;
      assert kept in t' && t'[kept] == oldId;
    }
  }

  /** One session with two services on one node. */
  function TwoRoutes(node: NodeId): Table {
    map[Pair("alice", 1) := node, Pair("alice", 2) := node]
  }

  /** When the node is removed, that session keeps one of the two routes, whichever the walk meets first. */
  lemma StaleRouteStays(node: NodeId, pick: Choice)
    requires GoodChoice(TwoRoutes(node), node, pick)
    ensures !Unused(Cleaned(TwoRoutes(node), pick), node)
  {
    var t := TwoRoutes(node);
    assert Pair("alice", 1) in t && Pair("alice", 2) in t;
    CleanedIff(t, node, pick);
  }

  /** Removing or replacing a node changes exactly one of its routes in each session that has
      any, and nothing else. */
  lemma OnePerSession(t: Table, node: NodeId, newId: NodeId, pick: Choice, session: string)
    requires GoodChoice(t, node, pick)
    ensures (exists p :: p in t && p.session == session && t[p] == node) ==>
              exists code :: Pair(session, code) in t && t[Pair(session, code)] == node
                && Pair(session, code) !in Cleaned(t, pick)
                && Replaced(t, pick, newId)[Pair(session, code)] == newId
                && (forall other :: Pair(session, other) in t && other != code ==>
                      && Pair(session, other) in Cleaned(t, pick)
                      && Cleaned(t, pick)[Pair(session, other)] == t[Pair(session, other)]
                      && Replaced(t, pick, newId)[Pair(session, other)] == t[Pair(session, other)])
    ensures (forall p :: p in t && p.session == session ==> t[p] != node) ==>
              forall p :: p in t && p.session == session ==>
                p in Cleaned(t, pick) && Cleaned(t, pick)[p] == t[p] && Replaced(t, pick, newId)[p] == t[p]
  {
    if p :| p in t && p.session == session && t[p] == node {
      var code := pick[session];
      assert Chosen(pick, Pair(session, code));
    } else {
      forall p | p in t && p.session == session ensures !Chosen(pick, p) {
        assert p == Pair(session, p.code);
      }
    }
  }

  // ---- The table in memory ----

  /** The routes of one session. */
  class Services {
    var nodes: map<int, NodeId>

    constructor ()
      ensures nodes == map[]
    {
      nodes := map[];
    }
  }

  class StateTable {
    var routes: map<string, Services>
    ghost var flat: Table

    ghost function Maps(): set<Services>
      reads this
    {
      set s | s in routes :: routes[s]
    }

    /** No two sessions share a map, and the flat view shows every route. */
    ghost predicate Valid()
      reads this, Maps()
    {
      && (forall s, r :: s in routes && r in routes && s != r ==> routes[s] != routes[r])
      && (forall p :: p in flat <==> p.session in routes && p.code in routes[p.session].nodes)
      && (forall p :: p in flat ==> flat[p] == routes[p.session].nodes[p.code])
    }

    constructor ()
      ensures Valid() && flat == map[] && Maps() == {}
    {
      routes, flat := map[], map[];
    }

    method Find(session: string, code: int) returns (r: Option<NodeId>)
      requires Valid()
      ensures r == if Pair(session, code) in flat then Some(flat[Pair(session, code)]) else None
    {
      if session in routes && code in routes[session].nodes {
        return Some(routes[session].nodes[code]);
      }
      return None;
    }

    method Store(session: string, code: int, node: NodeId)
      requires Valid()
      modifies this, Maps()
      ensures Valid() && flat == old(flat)[Pair(session, code) := node]
      ensures fresh(Maps() - old(Maps()))
    {
      if session !in routes {
        var services := new Services();
        routes := routes[session := services];
      }
      var services := routes[session];
      services.nodes := services.nodes[code := node];
      flat := flat[Pair(session, code) := node];
    }

    method Remove(session: string, code: int)
      requires Valid()
      modifies this, Maps()
      ensures Valid() && flat == old(flat) - {Pair(session, code)}
      ensures Maps() == old(Maps())
    {
      if session in routes {
        var services := routes[session];
        services.nodes := services.nodes - {code};
      }
      flat := flat - {Pair(session, code)};
    }

    method CleanSession(session: string)
      requires Valid()
      modifies this
      ensures Valid() && flat == WithoutSession(old(flat), session)
      ensures Maps() <= old(Maps())
    {
      routes := routes - {session};
      flat := WithoutSession(flat, session);
    }

    /** Take the first route of one session to the node, if there is one, out of the table. */
    method CleanOne(s: string, node: NodeId) returns (hit: Option<int>)
      requires Valid() && s in routes
      modifies this`flat, routes[s]
      ensures Valid()
      ensures hit.Some? ==> Pair(s, hit.value) in old(flat) && old(flat)[Pair(s, hit.value)] == node
                            && flat == old(flat) - {Pair(s, hit.value)}
      ensures hit.None? ==> flat == old(flat) && forall p :: p in flat && p.session == s ==> flat[p] != node
    {
      hit := FirstMatch(routes[s].nodes, node);
      if hit.Some? {
        routes[s].nodes := routes[s].nodes - {hit.value};
        flat := flat - {Pair(s, hit.value)};
      }
    }

    /** A node is gone: in each session, the first route to it that the walk meets is removed. */
    method CleanNode(node: NodeId) returns (ghost pick: Choice)
      requires Valid()
      modifies this`flat, Maps()
      ensures Valid()
      ensures GoodChoice(old(flat), node, pick) && flat == Cleaned(old(flat), pick)
    {
      ghost var start := flat;
      pick := map[];
      var todo := routes.Keys;
      while todo != {}
        invariant todo <= routes.Keys && Valid()
        invariant flat == Cleaned(start, pick) && Partial(start, node, pick, todo)
      {
        var s := Any(todo);
        var hit := CleanOne(s, node);
        VisitOne(start, node, pick, todo, s, hit);
        if hit.Some? {
          CleanedMore(start, pick, s, hit.value);
          pick := pick[s := hit.value];
        }
        todo := todo - {s};
      }
    }

    method ReplaceOne(s: string, oldId: NodeId, newId: NodeId) returns (hit: Option<int>)
      requires Valid() && s in routes
      modifies this`flat, routes[s]
      ensures Valid()
      ensures hit.Some? ==> Pair(s, hit.value) in old(flat) && old(flat)[Pair(s, hit.value)] == oldId
                            && flat == old(flat)[Pair(s, hit.value) := newId]
      ensures hit.None? ==> flat == old(flat) && forall p :: p in flat && p.session == s ==> flat[p] != oldId
    {
      hit := FirstMatch(routes[s].nodes, oldId);
      if hit.Some? {
        routes[s].nodes := routes[s].nodes[hit.value := newId];
        flat := flat[Pair(s, hit.value) := newId];
      }
    }

    method ReplaceNode(oldId: NodeId, newId: NodeId) returns (ghost pick: Choice)
      requires Valid()
      modifies this`flat, Maps()
      ensures Valid()
      ensures GoodChoice(old(flat), oldId, pick) && flat == Replaced(old(flat), pick, newId)
    {
      ghost var start := flat;
      pick := map[];
      var todo := routes.Keys;
      while todo != {}
        invariant todo <= routes.Keys && Valid()
        invariant flat == Replaced(start, pick, newId) && Partial(start, oldId, pick, todo)
      {
        var s := Any(todo);
        var hit := ReplaceOne(s, oldId, newId);
        VisitOne(start, oldId, pick, todo, s, hit);
        if hit.Some? {
          ReplacedMore(start, pick, newId, s, hit.value);
          pick := pick[s := hit.value];
        }
        todo := todo - {s};
      }
    }
  }

  /** Sessions not yet visited still show their original routes. */
  lemma VisitOne(t: Table, node: NodeId, pick: Choice, todo: set<string>, s: string, hit: Option<int>)
    requires Partial(t, node, pick, todo) && s in todo
    requires hit.Some? ==> Pair(s, hit.value) in t && t[Pair(s, hit.value)] == node
    requires hit.None? ==> forall p :: p in t && p.session == s ==> t[p] != node
    ensures Partial(t, node, if hit.Some? then pick[s := hit.value] else pick, todo - {s})
  {
  }

  lemma CleanedMore(t: Table, pick: Choice, s: string, code: int)
    requires s !in pick
    ensures Cleaned(t, pick[s := code]) == Cleaned(t, pick) - {Pair(s, code)}
  {
  }

  lemma ReplacedMore(t: Table, pick: Choice, newId: NodeId, s: string, code: int)
    requires s !in pick && Pair(s, code) in t
    ensures Replaced(t, pick[s := code], newId) == Replaced(t, pick, newId)[Pair(s, code) := newId]
  {
  }

  /** The choices made while the sessions in `todo` are still to be visited. */
  ghost predicate Partial(t: Table, node: NodeId, pick: Choice, todo: set<string>) {
    && (forall s :: s in pick ==> s !in todo && Pair(s, pick[s]) in t && t[Pair(s, pick[s])] == node)
    && (forall p :: p in t && t[p] == node && p.session !in todo ==> p.session in pick)
  }

  /** The walk over one session's routes stops at the first one to the node. */
  method FirstMatch(nodes: map<int, NodeId>, node: NodeId) returns (hit: Option<int>)
    ensures hit.Some? ==> hit.value in nodes && nodes[hit.value] == node
    ensures hit.None? ==> forall c :: c in nodes ==> nodes[c] != node
  {
    var todo := nodes.Keys;
    while todo != {}
      invariant todo <= nodes.Keys
      invariant forall c :: c in nodes && c !in todo ==> nodes[c] != node
    {
      var c := Any(todo);
      if nodes[c] == node { return Some(c); }
      todo := todo - {c};
    }
    return None;
  }
}
