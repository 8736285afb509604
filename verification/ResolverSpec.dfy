/** Service discovery as values: the known nodes, and the per-service index and balancers that
    are caches over them. */
module ResolverSpec {
  import opened Entries
  import opened Balancing

  /** `ok` and `balancers` are keyed by service code. */
  datatype View = View(
    services: map<int, ServiceDesc>,
    nodes: map<NodeId, NodeEntry>,
    ok: map<int, set<NodeEntry>>,
    balancers: map<int, Balancer>)

  const EMPTY := View(map[], map[], map[], map[])

  /** The plain filter that the index caches. */
  ghost function OkSet(nodes: map<NodeId, NodeEntry>, code: int): set<NodeEntry> {
    set id | id in nodes && nodes[id].state == NodeOk && Offers(nodes[id], code) :: nodes[id]
  }

  ghost function Index(nodes: map<NodeId, NodeEntry>, code: int): Option<set<NodeEntry>> {
    if OkSet(nodes, code) == {} then None else Some(OkSet(nodes, code))
  }

  /** Some listing of a set of nodes; balancers do not depend on which. */
  ghost function Listing(s: set<NodeEntry>): (r: seq<NodeEntry>)
    ensures multiset(r) == multiset(s)
  {
    if s == {} then []
    else
      var e :| e in s;
      assert multiset(s) == multiset{e} + multiset(s - {e});
      [e] + Listing(s - {e})
  }

  ghost function BalancerOf(code: int, s: set<NodeEntry>): Balancer {
    Build(code, Listing(s))
  }

  predicate DistinctIdSet(s: set<NodeEntry>) {
    forall a, b :: a in s && b in s && a.id == b.id ==> a == b
  }

  /** Any list of the members of a set of nodes gives the same balancer. */
  lemma BalancerOfListing(code: int, s: set<NodeEntry>, list: seq<NodeEntry>)
    requires DistinctIdSet(s) && multiset(list) == multiset(s)
    ensures DistinctIds(list) && Build(code, list) == BalancerOf(code, s)
  {
    ListingDistinct(s, list);
    BuildIgnoresOrder(code, list, Listing(s));
  }

  lemma ListingDistinct(s: set<NodeEntry>, list: seq<NodeEntry>)
    requires DistinctIdSet(s) && multiset(list) == multiset(s)
    ensures DistinctIds(list)
    ensures forall e :: e in list <==> e in s
    ensures |list| == |s|
  {
    forall e ensures e in list <==> e in s { assert e in multiset(list) <==> e in multiset(s); }
    forall i, j | 0 <= i < j < |list| ensures list[i].id != list[j].id {
      assert list[i] in s && list[j] in s;
      if list[i] == list[j] { TwiceCounted(list, i, j); }
    }
    assert |list| == |multiset(list)|;
  }

  lemma OkSetDistinct(nodes: map<NodeId, NodeEntry>, code: int)
    requires Keyed(nodes)
    ensures DistinctIdSet(OkSet(nodes, code))
  {
  }

  // ---- Operations ----

  /** Recompute the index of one service from the known nodes. */
  ghost function RefreshIndex(v: View, code: int): View {
    var s := OkSet(v.nodes, code);
    v.(ok := if s == {} then v.ok - {code} else v.ok[code := s])
  }

  /** Rebuild the balancer of one service from its index; private services have none. */
  ghost function RefreshBalancer(v: View, code: int): View {
    if code !in v.services || !v.services[code].isPublic then v
    else if code !in v.ok then v.(balancers := v.balancers - {code})
    else v.(balancers := v.balancers[code := BalancerOf(code, v.ok[code])])
  }

  ghost function Refresh(v: View, code: int): View {
    RefreshBalancer(RefreshIndex(v, code), code)
  }

  ghost function UpdateOne(v: View, d: ServiceDesc): View {
    if d.code > 0 then Refresh(v.(services := v.services[d.code := d]), d.code) else v
  }

  ghost function UpdateAll(v: View, descs: seq<ServiceDesc>): View
    decreases |descs|
  {
    if descs == [] then v else UpdateOne(UpdateAll(v, descs[..|descs| - 1]), descs[|descs| - 1])
  }

  ghost function Update(v: View, node: NodeEntry): View {
    if node.services == [] then v
    else UpdateAll(v.(nodes := v.nodes[node.id := node]), node.services)
  }

  ghost function RefreshOne(v: View, d: ServiceDesc): View {
    if d.code > 0 then Refresh(v, d.code) else v
  }

  ghost function RefreshAll(v: View, descs: seq<ServiceDesc>): View
    decreases |descs|
  {
    if descs == [] then v else RefreshOne(RefreshAll(v, descs[..|descs| - 1]), descs[|descs| - 1])
  }

  ghost function Remove(v: View, node: NodeEntry): View {
    if node.services == [] then v
    else RefreshAll(v.(nodes := v.nodes - {node.id}), node.services)
  }

  /** A session's node for a service, by the service's balancer. */
  function AllocNode(v: View, code: int, sess: Session, draw: int): Result<NodeId, PickError> {
    if code in v.balancers then Pick(v.balancers[code], sess, draw) else Failure(NoNodeAvailable)
  }

  // ---- What an operation does to one service ----

  predicate Flagged(descs: seq<ServiceDesc>, pub: int -> bool) {
    forall i :: 0 <= i < |descs| ==> descs[i].isPublic == pub(descs[i].code)
  }

  ghost function BalancerIndex(nodes: map<NodeId, NodeEntry>, code: int): Option<Balancer> {
    if OkSet(nodes, code) == {} then None else Some(BalancerOf(code, OkSet(nodes, code)))
  }

  lemma NamesLast(descs: seq<ServiceDesc>, code: int)
    requires descs != []
    ensures Names(descs, code) <==> Names(descs[..|descs| - 1], code) || descs[|descs| - 1].code == code
  {
    var n := |descs| - 1;
    if Names(descs, code) {
      var i :| 0 <= i < |descs| && descs[i].code == code;
      if i < n { assert descs[..n][i].code == code; }
    }
    if Names(descs[..n], code) {
      var i :| 0 <= i < n && descs[..n][i].code == code;
      assert descs[i].code == code;
    }
  }

  /** Refreshing one service touches no other. */
  lemma RefreshAt(v: View, refreshed: int, code: int)
    ensures var v' := Refresh(v, refreshed);
            && v'.nodes == v.nodes && v'.services == v.services
            && Lookup(v'.ok, code) == (if code == refreshed then Index(v.nodes, code) else Lookup(v.ok, code))
            && Lookup(v'.balancers, code) ==
               if code == refreshed && code in v.services && v.services[code].isPublic
               then BalancerIndex(v.nodes, code) else Lookup(v.balancers, code)
  {
    var v1 := RefreshIndex(v, refreshed);
    assert Lookup(v1.ok, code) == (if code == refreshed then Index(v.nodes, code) else Lookup(v.ok, code));
    assert v1.balancers == v.balancers && v1.services == v.services;
  }

  lemma {:induction false} UpdateAllAt(v: View, descs: seq<ServiceDesc>, code: int)
    requires code > 0
    ensures var v' := UpdateAll(v, descs);
            && v'.nodes == v.nodes
            && v.services.Keys <= v'.services.Keys
            && if Names(descs, code) then Lookup(v'.ok, code) == Index(v.nodes, code) && code in v'.services
               else Lookup(v'.ok, code) == Lookup(v.ok, code) && Lookup(v'.services, code) == Lookup(v.services, code)
                    && Lookup(v'.balancers, code) == Lookup(v.balancers, code)
    decreases |descs|
  {
    if descs != [] {
      var n := |descs| - 1;
      var d, rest := descs[n], UpdateAll(v, descs[..n]);
      UpdateAllAt(v, descs[..n], code);
      NamesLast(descs, code);
      RefreshAt(rest.(services := rest.services[d.code := d]), d.code, code);
    }
  }

  predicate SomePublic(descs: seq<ServiceDesc>, code: int) {
    exists i :: 0 <= i < |descs| && descs[i].code == code && descs[i].isPublic
  }

  /** The last description of the service wins. */
  predicate LastPublic(descs: seq<ServiceDesc>, code: int)
    decreases |descs|
  {
    descs != [] &&
    if descs[|descs| - 1].code == code then descs[|descs| - 1].isPublic else LastPublic(descs[..|descs| - 1], code)
  }

  lemma SomePublicLast(descs: seq<ServiceDesc>, code: int)
    requires descs != []
    ensures var n := |descs| - 1;
            SomePublic(descs, code) <==> SomePublic(descs[..n], code) || (descs[n].code == code && descs[n].isPublic)
  {
    var n := |descs| - 1;
    if SomePublic(descs, code) {
      var i :| 0 <= i < |descs| && descs[i].code == code && descs[i].isPublic;
      if i < n { assert descs[..n][i] == descs[i]; }
    }
    if SomePublic(descs[..n], code) {
      var i :| 0 <= i < n && descs[..n][i].code == code && descs[..n][i].isPublic;
      assert descs[i] == descs[..n][i];
    }
  }

  lemma {:induction false} LastIsSome(descs: seq<ServiceDesc>, code: int)
    requires LastPublic(descs, code)
    ensures SomePublic(descs, code)
    decreases |descs|
  {
    SomePublicLast(descs, code);
    if descs[|descs| - 1].code != code { LastIsSome(descs[..|descs| - 1], code); }
  }

  /** The balancer of a service is rebuilt if the entry lists the service as public at all. */
  lemma {:induction false} UpdateAllFlags(v: View, descs: seq<ServiceDesc>, code: int)
    requires code > 0
    ensures var v' := UpdateAll(v, descs);
            && Lookup(v'.balancers, code) == (if SomePublic(descs, code) then BalancerIndex(v.nodes, code) else Lookup(v.balancers, code))
            && (Names(descs, code) ==> code in v'.services && v'.services[code].isPublic == LastPublic(descs, code))
    decreases |descs|
  {
    if descs != [] {
      var n := |descs| - 1;
      var d, rest := descs[n], UpdateAll(v, descs[..n]);
      UpdateAllFlags(v, descs[..n], code);
      UpdateAllAt(v, descs[..n], code);
      NamesLast(descs, code);
      SomePublicLast(descs, code);
      RefreshAt(rest.(services := rest.services[d.code := d]), d.code, code);
    }
  }

  lemma {:induction false} FlaggedAgree(descs: seq<ServiceDesc>, code: int, pub: int -> bool)
    requires Flagged(descs, pub) && Names(descs, code)
    ensures SomePublic(descs, code) == LastPublic(descs, code) == pub(code)
    decreases |descs|
  {
    var n := |descs| - 1;
    assert descs[n].isPublic == pub(descs[n].code);
    NamesLast(descs, code);
    SomePublicLast(descs, code);
    if Names(descs[..n], code) { FlaggedAgree(descs[..n], code, pub); }
  }

  lemma UpdateAllBalancer(v: View, descs: seq<ServiceDesc>, code: int, pub: int -> bool)
    requires code > 0 && Flagged(descs, pub) && Names(descs, code)
    ensures var v' := UpdateAll(v, descs);
            && Lookup(v'.balancers, code) == (if pub(code) then BalancerIndex(v.nodes, code) else Lookup(v.balancers, code))
            && code in v'.services && v'.services[code].isPublic == pub(code)
  {
    UpdateAllFlags(v, descs, code);
    FlaggedAgree(descs, code, pub);
  }

  lemma {:induction false} RefreshAllAt(v: View, descs: seq<ServiceDesc>, code: int)
    requires code > 0
    ensures var v' := RefreshAll(v, descs);
            && v'.nodes == v.nodes && v'.services == v.services
            && if Names(descs, code)
               then && Lookup(v'.ok, code) == Index(v.nodes, code)
                    && Lookup(v'.balancers, code) ==
                       (if code in v.services && v.services[code].isPublic then BalancerIndex(v.nodes, code) else Lookup(v.balancers, code))
               else Lookup(v'.ok, code) == Lookup(v.ok, code) && Lookup(v'.balancers, code) == Lookup(v.balancers, code)
    decreases |descs|
  {
    if descs != [] {
      var n := |descs| - 1;
      RefreshAllAt(v, descs[..n], code);
      NamesLast(descs, code);
      RefreshAt(RefreshAll(v, descs[..n]), descs[n].code, code);
    }
  }

  /** The i-th description is the last one of the service. */
  predicate IsLast(descs: seq<ServiceDesc>, code: int, i: int) {
    0 <= i < |descs| && descs[i].code == code && forall j :: i < j < |descs| ==> descs[j].code != code
  }

  lemma {:induction false} UpdateAllDescribes(v: View, descs: seq<ServiceDesc>, code: int, i: int)
    requires IsLast(descs, code, i) && code > 0
    ensures Lookup(UpdateAll(v, descs).services, code) == Some(descs[i])
    decreases |descs|
  {
    var n := |descs| - 1;
    var rest := UpdateAll(v, descs[..n]);
    RefreshAt(rest.(services := rest.services[descs[n].code := descs[n]]), descs[n].code, code);
    if i < n {
      assert IsLast(descs[..n], code, i);
      UpdateAllDescribes(v, descs[..n], code, i);
    }
  }

  lemma {:induction false} UpdateAllKeepsNegative(v: View, descs: seq<ServiceDesc>, code: int)
    requires code <= 0
    ensures var v' := UpdateAll(v, descs);
            && Lookup(v'.services, code) == Lookup(v.services, code) && Lookup(v'.ok, code) == Lookup(v.ok, code)
            && Lookup(v'.balancers, code) == Lookup(v.balancers, code)
    decreases |descs|
  {
    if descs != [] {
      var n := |descs| - 1;
      UpdateAllKeepsNegative(v, descs[..n], code);
      var rest := UpdateAll(v, descs[..n]);
      RefreshAt(rest.(services := rest.services[descs[n].code := descs[n]]), descs[n].code, code);
    }
  }

  /** After an update the node is stored as it came, and each positive code that it names is described
      by its last description with that code; other services, and all codes that are not positive,
      are as before. An entry without services changes nothing. */
  lemma UpdateDescribes(v: View, node: NodeEntry, code: int)
    ensures node.services == [] ==> Update(v, node) == v
    ensures node.services != [] ==> Update(v, node).nodes == v.nodes[node.id := node]
    ensures code > 0 ==> forall i :: IsLast(node.services, code, i) ==> Lookup(Update(v, node).services, code) == Some(node.services[i])
    ensures code <= 0 || !Offers(node, code) ==>
              var v' := Update(v, node);
              && Lookup(v'.services, code) == Lookup(v.services, code) && Lookup(v'.ok, code) == Lookup(v.ok, code)
              && Lookup(v'.balancers, code) == Lookup(v.balancers, code)
  {
    if node.services != [] {
      var v0 := v.(nodes := v.nodes[node.id := node]);
      UpdateAllAt(v0, node.services, 1);
      if code > 0 {
        UpdateAllAt(v0, node.services, code);
        forall i | IsLast(node.services, code, i) ensures Lookup(Update(v, node).services, code) == Some(node.services[i]) {
          UpdateAllDescribes(v0, node.services, code, i);
        }
      } else {
        UpdateAllKeepsNegative(v0, node.services, code);
      }
    }
  }

  /** A removal forgets the node but no description. */
  lemma RemoveForgets(v: View, node: NodeEntry)
    ensures node.services == [] ==> Remove(v, node) == v
    ensures node.services != [] ==> Remove(v, node).nodes == v.nodes - {node.id} && Remove(v, node).services == v.services
  {
    if node.services != [] { RefreshAllAt(v.(nodes := v.nodes - {node.id}), node.services, 1); }
  }

  // ---- The index agrees with the filter ----

  ghost predicate IndexAgrees(v: View) {
    forall code :: code > 0 ==> Lookup(v.ok, code) == Index(v.nodes, code)
  }

  /** The filter changes for a service that the new entry does not name exactly when the stored
      entry was an ok node of that service. */
  lemma UnnamedSet(nodes: map<NodeId, NodeEntry>, nodes': map<NodeId, NodeEntry>, node: NodeEntry, code: int)
    requires Keyed(nodes) && !Offers(node, code)
    requires nodes' == nodes[node.id := node] || nodes' == nodes - {node.id}
    ensures OkSet(nodes', code) == OkSet(nodes, code)
            <==> !(node.id in nodes && nodes[node.id].state == NodeOk && Offers(nodes[node.id], code))
  {
    if node.id in nodes && nodes[node.id].state == NodeOk && Offers(nodes[node.id], code) {
      assert nodes[node.id] in OkSet(nodes, code);
      assert nodes[node.id] !in OkSet(nodes', code);
    } else {
      forall e | e in OkSet(nodes, code) ensures e in OkSet(nodes', code) {
        assert e == nodes[e.id] && e.id in nodes';
      }
    }
  }

  /** No stored ok entry of this id has a positive code that the operation's entry lacks. */
  predicate DropsNothing(v: View, node: NodeEntry) {
    node.id in v.nodes && v.nodes[node.id].state == NodeOk ==> KeepsCodes(v.nodes[node.id], node)
  }

  lemma DropsNothingAt(v: View, node: NodeEntry)
    ensures DropsNothing(v, node)
            <==> forall code :: code > 0 && !Offers(node, code) ==>
                   !(node.id in v.nodes && v.nodes[node.id].state == NodeOk && Offers(v.nodes[node.id], code))
  {
    if node.id in v.nodes && v.nodes[node.id].state == NodeOk && !DropsNothing(v, node) {
      var was := v.nodes[node.id];
      var i :| 0 <= i < |was.services| && was.services[i].code > 0 && !Offers(node, was.services[i].code);
      assert Offers(was, was.services[i].code);
    }
  }

  /** An update keeps the index right if and only if the entry has no services (the update is
      ignored) or no ok entry stored under the id has a code that the new one lacks. */
  lemma UpdateIndexIff(v: View, node: NodeEntry)
    requires Keyed(v.nodes) && IndexAgrees(v)
    ensures IndexAgrees(Update(v, node)) <==> node.services == [] || DropsNothing(v, node)
  {
    if node.services != [] {
      var v0 := v.(nodes := v.nodes[node.id := node]);
      var v' := Update(v, node);
      forall code | code > 0
        ensures Offers(node, code) ==> Lookup(v'.ok, code) == Index(v'.nodes, code)
        ensures !Offers(node, code) ==> (Lookup(v'.ok, code) == Index(v'.nodes, code) <==>
          !(node.id in v.nodes && v.nodes[node.id].state == NodeOk && Offers(v.nodes[node.id], code)))
      {
        UpdateAllAt(v0, node.services, code);
        if !Offers(node, code) { UnnamedSet(v.nodes, v0.nodes, node, code); }
      }
      DropsNothingAt(v, node);
    }
  }

  lemma RemoveIndexIff(v: View, node: NodeEntry)
    requires Keyed(v.nodes) && IndexAgrees(v)
    ensures IndexAgrees(Remove(v, node)) <==> node.services == [] || DropsNothing(v, node)
  {
    if node.services != [] {
      var v0 := v.(nodes := v.nodes - {node.id});
      var v' := Remove(v, node);
      forall code | code > 0
        ensures Offers(node, code) ==> Lookup(v'.ok, code) == Index(v'.nodes, code)
        ensures !Offers(node, code) ==> (Lookup(v'.ok, code) == Index(v'.nodes, code) <==>
          !(node.id in v.nodes && v.nodes[node.id].state == NodeOk && Offers(v.nodes[node.id], code)))
      {
        RefreshAllAt(v0, node.services, code);
        if !Offers(node, code) { UnnamedSet(v.nodes, v0.nodes, node, code); }
      }
      DropsNothingAt(v, node);
    }
  }

  const CHAT := ServiceDesc("chat", 1, "/chat", true, "random", 0, false, "")
  const ROOM := ServiceDesc("room", 2, "/room", true, "random", 0, false, "")

  function Node(services: seq<ServiceDesc>): NodeEntry { NodeEntry(5, "a", NodeOk, "h:1", services) }

  /** The view after a first update, one service at a time. */
  lemma FirstUpdate(d: ServiceDesc)
    requires d.code > 0
    ensures var v := Update(EMPTY, Node([d]));
            && v.nodes == map[5 := Node([d])] && Keyed(v.nodes) && IndexAgrees(v)
            && OkSet(v.nodes, d.code) == {Node([d])}
            && v.services == map[d.code := d]
            && Lookup(v.balancers, d.code) == if d.isPublic then BalancerIndex(v.nodes, d.code) else None
  {
    var v0 := EMPTY.(nodes := EMPTY.nodes[5 := Node([d])]);
    assert [d][..0] == [];
    var v1 := v0.(services := v0.services[d.code := d]);
    assert UpdateAll(v0, [d]) == UpdateOne(UpdateAll(v0, []), d) == Refresh(v1, d.code);
    assert v1.services == map[d.code := d];
    RefreshAt(v1, d.code, d.code);
    assert Node([d]).services[0].code == d.code && Offers(Node([d]), d.code);
    assert v0.nodes[5] in OkSet(v0.nodes, d.code);
    UpdateIndexIff(EMPTY, Node([d]));
  }

  /** A node that comes back without its only service, and with another one, stays in the index of
      the first. */
  lemma DroppedCodeStays()
    ensures IndexAgrees(Update(EMPTY, Node([CHAT])))
    ensures var v := Update(Update(EMPTY, Node([CHAT])), Node([ROOM]));
            !IndexAgrees(v) && Lookup(v.ok, 1) == Some({Node([CHAT])}) && OkSet(v.nodes, 1) == {}
  {
    var v := Update(EMPTY, Node([CHAT]));
    FirstUpdate(CHAT);
    assert Lookup(v.ok, 1) == Index(v.nodes, 1);
    UpdateAllAt(v.(nodes := v.nodes[5 := Node([ROOM])]), [ROOM], 1);
  }

  // ---- Balancers, whatever the flags ----

  /** A service has a balancer over its ok nodes exactly when it is known to be public now. */
  ghost predicate BalancersRight(v: View) {
    forall code :: code > 0 ==> Lookup(v.balancers, code) == if IsPublic(v, code) then BalancerIndex(v.nodes, code) else None
  }

  predicate IsPublic(v: View, code: int) { code in v.services && v.services[code].isPublic }

  /** An update makes a service private that still has a balancer: either the service was public
      and had ok nodes, or the entry itself lists it as public first and as private last. */
  ghost predicate TurnsPrivate(v: View, node: NodeEntry, code: int) {
    && Offers(node, code) && !LastPublic(node.services, code)
    && if SomePublic(node.services, code) then OkSet(v.nodes[node.id := node], code) != {}
       else IsPublic(v, code) && OkSet(v.nodes, code) != {}
  }

  /** An update that drops no code keeps the balancers right if and only if it turns no service
      private: the balancer of such a service is left in place. */
  lemma UpdateBalancersIff(v: View, node: NodeEntry)
    requires Keyed(v.nodes) && BalancersRight(v) && DropsNothing(v, node)
    ensures BalancersRight(Update(v, node))
            <==> node.services == [] || forall code :: code > 0 ==> !TurnsPrivate(v, node, code)
  {
    if node.services != [] {
      var v' := Update(v, node);
      DropsNothingAt(v, node);
      forall code | code > 0
        ensures Lookup(v'.balancers, code) == (if IsPublic(v', code) then BalancerIndex(v'.nodes, code) else None)
                <==> !TurnsPrivate(v, node, code)
      {
        UpdateBalancerAt(v, node, code);
      }
    }
  }

  lemma UpdateBalancerAt(v: View, node: NodeEntry, code: int)
    requires Keyed(v.nodes) && BalancersRight(v) && node.services != [] && code > 0
    requires !Offers(node, code) ==> !(node.id in v.nodes && v.nodes[node.id].state == NodeOk && Offers(v.nodes[node.id], code))
    ensures var v' := Update(v, node);
            Lookup(v'.balancers, code) == (if IsPublic(v', code) then BalancerIndex(v'.nodes, code) else None)
            <==> !TurnsPrivate(v, node, code)
  {
    var v0 := v.(nodes := v.nodes[node.id := node]);
    UpdateAllAt(v0, node.services, code);
    if Offers(node, code) {
      UpdateAllFlags(v0, node.services, code);
      if LastPublic(node.services, code) { LastIsSome(node.services, code); }
    } else {
      UnnamedSet(v.nodes, v0.nodes, node, code);
    }
  }

  /** A public service whose only node declares it private keeps its balancer, and sessions are
      still sent there. */
  lemma PrivateKeepsBalancer(sess: Session, draw: int)
    ensures BalancersRight(Update(EMPTY, Node([CHAT])))
    ensures var v := Update(Update(EMPTY, Node([CHAT])), Node([CHAT.(isPublic := false)]));
            !BalancersRight(v) && !IsPublic(v, 1) && AllocNode(v, 1, sess, draw) == Success(5)
  {
    var private := CHAT.(isPublic := false);
    var v, v' := Update(EMPTY, Node([CHAT])), Update(Update(EMPTY, Node([CHAT])), Node([private]));
    UpdateBalancersIff(EMPTY, Node([CHAT]));
    FirstUpdate(CHAT);
    assert Names([private], 1) by { assert [private][0].code == 1; }
    UpdateAllFlags(v.(nodes := v.nodes[5 := Node([private])]), [private], 1);
    assert [private][..0] == [];
    SingleListing(Node([CHAT]), 1);
  }

  lemma SingleListing(e: NodeEntry, code: int)
    ensures BalancerOf(code, {e}) == Single(e)
  {
    var list := Listing({e});
    assert |list| == |multiset(list)| == 1;
    assert list[0] in multiset(list);
  }

  // ---- Index and balancers over every run ----

  ghost predicate BalancersAgree(v: View, pub: int -> bool) {
    forall code :: code > 0 ==>
      Lookup(v.balancers, code) == if pub(code) then BalancerIndex(v.nodes, code) else None
  }

  ghost predicate ServicesKnown(v: View, pub: int -> bool) {
    && (forall code :: code > 0 && code in v.services ==> v.services[code].isPublic == pub(code))
    && (forall id, code :: id in v.nodes && code > 0 && Offers(v.nodes[id], code) ==> code in v.services)
  }

  ghost predicate Consistent(v: View, pub: int -> bool) {
    Keyed(v.nodes) && IndexAgrees(v) && BalancersAgree(v, pub) && ServicesKnown(v, pub)
  }

  datatype Op = Updating(node: NodeEntry) | Removing(node: NodeEntry)

  ghost function Do(v: View, op: Op): View {
    match op
    case Updating(node) => Update(v, node)
    case Removing(node) => Remove(v, node)
  }

  /** The id's stored entry loses no code, and public flags are stable per code. */
  predicate LegalOp(v: View, op: Op, pub: int -> bool) {
    && Flagged(op.node.services, pub)
    && (op.node.id in v.nodes ==> KeepsCodes(v.nodes[op.node.id], op.node))
  }

  ghost predicate LegalOps(v: View, ops: seq<Op>, pub: int -> bool)
    decreases |ops|
  {
    ops == [] || (LegalOp(v, ops[0], pub) && LegalOps(Do(v, ops[0]), ops[1..], pub))
  }

  ghost function DoAll(v: View, ops: seq<Op>): View
    decreases |ops|
  {
    if ops == [] then v else DoAll(Do(v, ops[0]), ops[1..])
  }

  lemma UpdateConsistent(v: View, node: NodeEntry, pub: int -> bool)
    requires Consistent(v, pub) && LegalOp(v, Updating(node), pub)
    ensures Consistent(Update(v, node), pub)
  {
    UpdateIndexIff(v, node);
    if node.services != [] {
      var v0 := v.(nodes := v.nodes[node.id := node]);
      var v' := Update(v, node);
      DropsNothingAt(v, node);
      forall code | code > 0
        ensures v'.nodes == v0.nodes
        ensures Lookup(v'.balancers, code) == if pub(code) then BalancerIndex(v'.nodes, code) else None
        ensures code in v'.services ==> v'.services[code].isPublic == pub(code)
        ensures forall id :: id in v'.nodes && Offers(v'.nodes[id], code) ==> code in v'.services
      {
        UpdateAllAt(v0, node.services, code);
        if Offers(node, code) {
          UpdateAllBalancer(v0, node.services, code, pub);
        } else {
          UnnamedSet(v.nodes, v0.nodes, node, code);
        }
      }
      assert v'.nodes == v0.nodes by { assert 1 > 0; UpdateAllAt(v0, node.services, 1); }
    }
  }

  lemma RemoveConsistent(v: View, node: NodeEntry, pub: int -> bool)
    requires Consistent(v, pub) && LegalOp(v, Removing(node), pub)
    ensures Consistent(Remove(v, node), pub)
  {
    RemoveIndexIff(v, node);
    if node.services != [] {
      var v0 := v.(nodes := v.nodes - {node.id});
      var v' := Remove(v, node);
      DropsNothingAt(v, node);
      RefreshAllAt(v0, node.services, 1);
      forall code | code > 0
        ensures Lookup(v'.balancers, code) == if pub(code) then BalancerIndex(v'.nodes, code) else None
      {
        RefreshAllAt(v0, node.services, code);
        if !Offers(node, code) {
          UnnamedSet(v.nodes, v0.nodes, node, code);
        } else if code !in v.services {
          assert OkSet(v.nodes, code) == {};
          assert OkSet(v'.nodes, code) == {};
        }
      }
    }
  }

  /** After any run of updates and removals in which no id drops a code and public flags are
      stable, every index and balancer is what the plain filter over the nodes gives. */
  lemma {:induction false} IndexOverRuns(v: View, ops: seq<Op>, pub: int -> bool)
    requires Consistent(v, pub) && LegalOps(v, ops, pub)
    ensures Consistent(DoAll(v, ops), pub)
    decreases |ops|
  {
    if ops != [] {
      match ops[0] {
        case Updating(node) => UpdateConsistent(v, node, pub);
        case Removing(node) => RemoveConsistent(v, node, pub);
      }
      IndexOverRuns(Do(v, ops[0]), ops[1..], pub);
    }
  }

  // ---- Allocation ----

  predicate HasId(nodes: seq<NodeEntry>, id: NodeId) {
    exists e :: e in nodes && e.id == id
  }

  lemma {:induction false} WeighMembers(nodes: seq<NodeEntry>, code: int, i: nat)
    requires i < |Weigh(nodes, code)|
    ensures HasId(nodes, Weigh(nodes, code)[i].id)
    decreases |nodes|
  {
    var n := |nodes| - 1;
    var rest := Weigh(nodes[..n], code);
    if i < |rest| {
      WeighMembers(nodes[..n], code, i);
      var e :| e in nodes[..n] && e.id == rest[i].id;
      assert e in nodes;
    } else {
      assert nodes[n] in nodes;
    }
  }

  /** The nodes that a balancer has to choose from. */
  ghost predicate CanPick(b: Balancer, id: NodeId) {
    match b
    case Single(node) => id == node.id
    case Failing(_) => false
    case Random(nodes) => HasId(nodes, id)
    case RoundRobin(ws, _) => exists i :: 0 <= i < |ws| && ws[i].id == id
    case IpHash(nodes) => HasId(nodes, id)
    case IdHash(nodes) => HasId(nodes, id)
    case Oldest(node) => id == node.id
    case Newest(node) => id == node.id
  }

  lemma PickCan(b: Balancer, sess: Session, draw: int)
    requires Pick(b, sess, draw).Success?
    ensures CanPick(b, Pick(b, sess, draw).value)
  {
    forall nodes, index | PickIndex(nodes, index).Success? ensures HasId(nodes, PickIndex(nodes, index).value) {
      assert nodes[index] in nodes;
    }
    if b.RoundRobin? { PickedIsMember(b.weights, draw); }
  }

  lemma ChosenCan(kind: PolicyKind, code: int, s: seq<NodeEntry>, id: NodeId)
    requires s != [] && CanPick(Choose(kind, code, s), id)
    ensures HasId(s, id)
  {
    match kind
    case AsRoundRobin =>
      var i :| 0 <= i < |Weigh(s, code)| && Weigh(s, code)[i].id == id;
      WeighMembers(s, code, i);
    case AsOldest => SameMembers(Sort(false, s), s, Sort(false, s)[0]);
    case AsNewest => SameMembers(Sort(true, s), s, Sort(true, s)[0]);
    case _ =>
  }

  lemma BuiltCan(code: int, nodes: seq<NodeEntry>, id: NodeId)
    requires CanPick(Build(code, nodes), id)
    ensures HasId(nodes, id)
  {
    if |nodes| == 1 {
      assert nodes[0] in nodes;
    } else {
      var s := Sort(true, nodes);
      ChosenCan(Kind(Policy(s[0], code)), code, s, id);
      var e :| e in s && e.id == id;
      SameMembers(s, nodes, e);
    }
  }

  /** A balancer only ever picks one of the nodes it was built from. */
  lemma PickMember(code: int, nodes: seq<NodeEntry>, sess: Session, draw: int)
    requires Pick(Build(code, nodes), sess, draw).Success?
    ensures HasId(nodes, Pick(Build(code, nodes), sess, draw).value)
  {
    var b := Build(code, nodes);
    PickCan(b, sess, draw);
    BuiltCan(code, nodes, Pick(b, sess, draw).value);
  }

  /** Allocation gives a known node that is ok and offers the service. */
  lemma AllocGivesOkNode(v: View, code: int, sess: Session, draw: int, pub: int -> bool)
    requires Consistent(v, pub) && code > 0
    requires AllocNode(v, code, sess, draw).Success?
    ensures var id := AllocNode(v, code, sess, draw).value;
            id in v.nodes && v.nodes[id].state == NodeOk && Offers(v.nodes[id], code) && pub(code)
  {
    var s := OkSet(v.nodes, code);
    assert Lookup(v.balancers, code) == if pub(code) then BalancerIndex(v.nodes, code) else None;
    PickMember(code, Listing(s), sess, draw);
    var e :| e in Listing(s) && e.id == AllocNode(v, code, sess, draw).value;
    assert e in multiset(s);
  }

  /** Allocation is the pick of the balancer that any listing of the service's ok nodes gives, and
      fails for lack of nodes exactly when there are none or the service is private. */
  lemma AllocByPolicy(v: View, code: int, sess: Session, draw: int, list: seq<NodeEntry>, pub: int -> bool)
    requires Consistent(v, pub) && code > 0 && multiset(list) == multiset(OkSet(v.nodes, code))
    ensures AllocNode(v, code, sess, draw) ==
            if pub(code) && list != [] then Pick(Build(code, list), sess, draw) else Failure(NoNodeAvailable)
  {
    var s := OkSet(v.nodes, code);
    assert Lookup(v.balancers, code) == if pub(code) then BalancerIndex(v.nodes, code) else None;
    OkSetDistinct(v.nodes, code);
    BalancerOfListing(code, s, list);
    ListingDistinct(s, list);
    assert list != [] ==> list[0] in s;
  }

  // ---- Weighted share of allocations ----

  /** The nodes of a service, newest first, as its balancer is given them. */
  lemma RoundRobinList(code: int, s: set<NodeEntry>, newest: NodeEntry) returns (list: seq<NodeEntry>)
    requires DistinctIdSet(s) && |s| >= 2 && NewestIn(newest, s) && Asks(newest, code, "roundrobin")
    ensures DistinctIds(list) && forall e :: e in list <==> e in s
    ensures BalancerOf(code, s) == RoundRobin(Weigh(list, code), Total(Weigh(list, code)))
  {
    var given := Listing(s);
    ListingDistinct(s, given);
    list := Sort(true, given);
    assert IsNewest(newest, given);
    BuildAsked(code, given, newest);
    DistinctPermutation(given, list);
    forall e ensures e in list <==> e in s { SameMembers(list, given, e); }
  }

  lemma OkOffer(nodes: map<NodeId, NodeEntry>, code: int, list: seq<NodeEntry>)
    requires forall e :: e in list ==> e in OkSet(nodes, code)
    ensures AllOffer(list, code)
  {
    forall i | 0 <= i < |list| ensures Offers(list[i], code) { assert list[i] in OkSet(nodes, code); }
  }

  lemma AllocByWeight(v: View, code: int, ws: seq<Weighted>, sess: Session, d: int)
    requires Lookup(v.balancers, code) == Some(RoundRobin(ws, Total(ws)))
    ensures AllocNode(v, code, sess, d) ==
            if PickWeighted(ws, d).Some? then Success(PickWeighted(ws, d).value) else Failure(NoNodeAvailable)
  {
  }

  /** The draws for which a session of the service is sent to this node. */
  ghost function SendingTo(v: View, code: int, sess: Session, id: NodeId): set<int>
    requires code in v.balancers
  {
    set d: int | 0 <= d < Draws(v.balancers[code]) && AllocNode(v, code, sess, d) == Success(id)
  }

  /** Under the policy `roundRobin` every draw gives a node, and each ok node of the service gets
      exactly ten times its weight (at least 1) of the draws, where the weight is that of the node's
      first description of the service. */
  lemma AllocShare(v: View, code: int, sess: Session, newest: NodeEntry, e: NodeEntry, k: int, pub: int -> bool)
    requires Consistent(v, pub) && code > 0 && pub(code) && |OkSet(v.nodes, code)| >= 2
    requires NewestIn(newest, OkSet(v.nodes, code)) && Asks(newest, code, "roundrobin")
    requires e in OkSet(v.nodes, code) && IsFirst(e.services, code, k)
    ensures code in v.balancers && Draws(v.balancers[code]) > 0
    ensures forall d :: 0 <= d < Draws(v.balancers[code]) ==> AllocNode(v, code, sess, d).Success?
    ensures var w := e.services[k].weight; |SendingTo(v, code, sess, e.id)| == 10 * (if w <= 0 then 1 else w)
  {
    assert Lookup(v.balancers, code) == BalancerIndex(v.nodes, code);
    OkSetDistinct(v.nodes, code);
    var list := RoundRobinList(code, OkSet(v.nodes, code), newest);
    OkOffer(v.nodes, code, list);
    ShareOfList(v, code, sess, list, e, k);
  }

  lemma ShareOfList(v: View, code: int, sess: Session, list: seq<NodeEntry>, e: NodeEntry, k: int)
    requires DistinctIds(list) && AllOffer(list, code) && e in list && IsFirst(e.services, code, k)
    requires Lookup(v.balancers, code) == Some(RoundRobin(Weigh(list, code), Total(Weigh(list, code))))
    ensures Draws(v.balancers[code]) > 0
    ensures forall d :: 0 <= d < Draws(v.balancers[code]) ==> AllocNode(v, code, sess, d).Success?
    ensures var w := e.services[k].weight; |SendingTo(v, code, sess, e.id)| == 10 * (if w <= 0 then 1 else w)
  {
    var ws := Weigh(list, code);
    var i :| 0 <= i < |list| && list[i] == e;
    ExactShare(code, list, i, k);
    forall d ensures AllocNode(v, code, sess, d) ==
                     if PickWeighted(ws, d).Some? then Success(PickWeighted(ws, d).value) else Failure(NoNodeAvailable)
    {
      AllocByWeight(v, code, ws, sess, d);
    }
    assert SendingTo(v, code, sess, e.id) == Selecting(ws, e.id);
  }

  // ---- Oldest-first failover ----

  /** The nodes a session is sent to when, again and again, the node it was given disappears. */
  ghost function Failover(v: View, code: int, sess: Session, rounds: nat): seq<NodeId>
    decreases rounds
  {
    if rounds == 0 then []
    else
      match AllocNode(v, code, sess, 0)
      case Failure(_) => []
      case Success(id) =>
        [id] + if id in v.nodes then Failover(Remove(v, v.nodes[id]), code, sess, rounds - 1) else []
  }

  ghost predicate NewestIn(e: NodeEntry, s: set<NodeEntry>) {
    e in s && forall x :: x in s ==> x.id <= e.id
  }

  lemma AllocOldest(v: View, code: int, sess: Session, newest: NodeEntry, pub: int -> bool)
    requires Consistent(v, pub) && code > 0 && pub(code)
    requires NewestIn(newest, OkSet(v.nodes, code)) && Asks(newest, code, "oldest")
    ensures exists e :: e in OkSet(v.nodes, code) && AllocNode(v, code, sess, 0) == Success(e.id)
                        && forall x :: x in OkSet(v.nodes, code) ==> e.id <= x.id
  {
    var s := OkSet(v.nodes, code);
    var list := Listing(s);
    assert Lookup(v.balancers, code) == BalancerIndex(v.nodes, code);
    OkSetDistinct(v.nodes, code);
    ListingDistinct(s, list);
    assert IsNewest(newest, list);
    var e := OldestPolicy(code, list, newest, sess, 0);
    forall x | x in s ensures e.id <= x.id {
      assert x in list;
    }
  }

  lemma RemovingOk(v: View, code: int, e: NodeEntry)
    requires Keyed(v.nodes) && e in OkSet(v.nodes, code)
    ensures e.id in v.nodes && v.nodes[e.id] == e && e.services != []
    ensures OkSet(Remove(v, e).nodes, code) == OkSet(v.nodes, code) - {e}
  {
    RefreshAllAt(v.(nodes := v.nodes - {e.id}), e.services, 1);
    var s, s' := OkSet(v.nodes, code), OkSet(Remove(v, e).nodes, code);
    forall x | x in s' ensures x in s - {e} {
      assert x.id in v.nodes && v.nodes[x.id] == x && x.id != e.id;
    }
    forall x | x in s - {e} ensures x in s' {
      assert v.nodes[x.id] == x && x.id != e.id;
      assert x.id in Remove(v, e).nodes && Remove(v, e).nodes[x.id] == x;
    }
  }

  /** What the failover of one service relies on. */
  ghost predicate FailoverReady(v: View, code: int, newest: NodeEntry, pub: int -> bool) {
    && Consistent(v, pub) && code > 0 && pub(code)
    && (forall id :: id in v.nodes ==> Flagged(v.nodes[id].services, pub))
    && (OkSet(v.nodes, code) != {} ==> NewestIn(newest, OkSet(v.nodes, code)))
    && Asks(newest, code, "oldest")
  }

  lemma FailoverStep(v: View, code: int, sess: Session, newest: NodeEntry, pub: int -> bool) returns (e: NodeEntry)
    requires FailoverReady(v, code, newest, pub) && OkSet(v.nodes, code) != {}
    ensures e in OkSet(v.nodes, code) && forall x :: x in OkSet(v.nodes, code) ==> e.id <= x.id
    ensures AllocNode(v, code, sess, 0) == Success(e.id) && e.id in v.nodes && v.nodes[e.id] == e
    ensures OkSet(Remove(v, e).nodes, code) == OkSet(v.nodes, code) - {e}
    ensures FailoverReady(Remove(v, e), code, newest, pub)
  {
    AllocOldest(v, code, sess, newest, pub);
    e :| e in OkSet(v.nodes, code) && AllocNode(v, code, sess, 0) == Success(e.id)
         && forall x :: x in OkSet(v.nodes, code) ==> e.id <= x.id;
    RemovingOk(v, code, e);
    assert KeepsCodes(e, e);
    RemoveConsistent(v, e, pub);
    FailoverRest(v, code, e, newest, pub);
  }

  lemma FailoverUnfolds(v: View, code: int, sess: Session, rounds: nat)
    requires rounds > 0
    ensures match AllocNode(v, code, sess, 0)
            case Failure(_) => Failover(v, code, sess, rounds) == []
            case Success(id) => id in v.nodes ==>
              Failover(v, code, sess, rounds) == [id] + Failover(Remove(v, v.nodes[id]), code, sess, rounds - 1)
  {
  }

  lemma FailoverEnds(v: View, code: int, sess: Session, newest: NodeEntry, rounds: nat, pub: int -> bool)
    requires FailoverReady(v, code, newest, pub) && OkSet(v.nodes, code) == {}
    ensures Failover(v, code, sess, rounds) == []
  {
    assert Lookup(v.balancers, code) == None;
    assert AllocNode(v, code, sess, 0) == Failure(NoNodeAvailable);
    if rounds > 0 { FailoverUnfolds(v, code, sess, rounds); }
  }

  /** One round: the oldest node is allocated, and the rest goes on without it. */
  lemma FailoverRound(v: View, code: int, sess: Session, newest: NodeEntry, rounds: nat, pub: int -> bool, s: set<NodeEntry>)
    returns (e: NodeEntry, v': View, rest: seq<NodeId>)
    requires FailoverReady(v, code, newest, pub) && s == OkSet(v.nodes, code) && s != {} && rounds > 0
    ensures DistinctIdSet(s) && e in s && forall x :: x in s ==> e.id <= x.id
    ensures FailoverReady(v', code, newest, pub) && OkSet(v'.nodes, code) == s - {e} && |s - {e}| == |s| - 1
    ensures rest == Failover(v', code, sess, rounds - 1) && Failover(v, code, sess, rounds) == [e.id] + rest
  {
    e := FailoverStep(v, code, sess, newest, pub);
    v' := Remove(v, e);
    rest := Failover(v', code, sess, rounds - 1);
    FailoverUnfolds(v, code, sess, rounds);
    OkSetDistinct(v.nodes, code);
  }

  /** With the policy `oldest`, losing the allocated node again and again visits all ok nodes of
      the service in increasing id order, the last single node included, and then none. */
  lemma {:induction false} OldestFailover(v: View, code: int, sess: Session, newest: NodeEntry, rounds: nat, pub: int -> bool,
                                          s: set<NodeEntry>, r: seq<NodeId>)
    requires FailoverReady(v, code, newest, pub) && s == OkSet(v.nodes, code) && rounds >= |s|
    requires r == Failover(v, code, sess, rounds)
    ensures Visits(r, s)
    decreases rounds
  {
    if s == {} {
      FailoverEnds(v, code, sess, newest, rounds, pub);
    } else {
      var e, v', rest := FailoverRound(v, code, sess, newest, rounds, pub, s);
      OldestFailover(v', code, sess, newest, rounds - 1, pub, s - {e}, rest);
      VisitFirst(s, e, s - {e}, rest, r);
    }
  }

  /** `r` lists the ids of the set in increasing order. */
  ghost predicate Visits(r: seq<NodeId>, s: set<NodeEntry>) {
    && |r| == |s|
    && (forall i, j :: 0 <= i < j < |r| ==> r[i] < r[j])
    && (forall id :: id in r <==> exists e :: e in s && e.id == id)
  }

  lemma VisitFirst(s: set<NodeEntry>, e: NodeEntry, others: set<NodeEntry>, rest: seq<NodeId>, r: seq<NodeId>)
    requires DistinctIdSet(s) && e in s && (forall x :: x in s ==> e.id <= x.id)
    requires others == s - {e} && Visits(rest, others) && r == [e.id] + rest
    ensures Visits(r, s)
  {
    forall j | 0 <= j < |rest| ensures e.id < rest[j] {
      assert rest[j] in rest;
      var x :| x in s - {e} && x.id == rest[j];
    }
    forall id ensures id in r <==> exists x :: x in s && x.id == id {
      if x :| x in s && x.id == id {
        if x != e { assert x in s - {e}; }
      }
      if id in rest {
        var x :| x in s - {e} && x.id == id;
        assert x in s;
      }
    }
  }

  lemma FailoverRest(v: View, code: int, e: NodeEntry, newest: NodeEntry, pub: int -> bool)
    requires Keyed(v.nodes) && e in OkSet(v.nodes, code) && NewestIn(newest, OkSet(v.nodes, code))
    requires forall x :: x in OkSet(v.nodes, code) ==> e.id <= x.id
    requires forall id :: id in v.nodes ==> Flagged(v.nodes[id].services, pub)
    ensures var v' := Remove(v, e);
            && (OkSet(v'.nodes, code) != {} ==> NewestIn(newest, OkSet(v'.nodes, code)))
            && forall id :: id in v'.nodes ==> Flagged(v'.nodes[id].services, pub)
  {
    RemovingOk(v, code, e);
    RefreshAllAt(v.(nodes := v.nodes - {e.id}), e.services, 1);
    var s := OkSet(v.nodes, code);
    OkSetDistinct(v.nodes, code);
    if s - {e} != {} {
      var x :| x in s - {e};
      assert newest != e;
    }
  }
}
