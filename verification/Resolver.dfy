/** The service resolver as it is kept in memory: maps changed in place, and node lists that a
    service's index and its balancer share. */
module Resolver {
  import opened Entries
  import opened Balancing
  import opened ResolverSpec

  /** A balancer that keeps a reference to the list it was built from, or one that does not. */
  datatype Stored = Plain(balancer: Balancer) | OverSlice(kind: PolicyKind, slice: array<NodeEntry>)

  ghost function Backing(b: Stored): set<object> {
    if b.OverSlice? then {b.slice} else {}
  }

  function ViewOf(b: Stored): Balancer
    reads Backing(b)
  {
    match b
    case Plain(balancer) => balancer
    case OverSlice(kind, slice) =>
      match kind
      case AsIpHash => IpHash(slice[..])
      case AsIdHash => IdHash(slice[..])
      case _ => Random(slice[..])
  }

  /** Sorting a list in place. */
  method SortSlice(newestFirst: bool, slice: array<NodeEntry>)
    modifies slice
    ensures slice[..] == Sort(newestFirst, old(slice[..]))
  {
    var sorted := Sort(newestFirst, slice[..]);
    assert |sorted| == |multiset(sorted)| == |multiset(slice[..])|;
    for i := 0 to slice.Length
      invariant slice[..i] == sorted[..i]
      invariant |sorted| == slice.Length
    {
      slice[i] := sorted[i];
    }
    assert slice[..] == slice[..slice.Length] && sorted == sorted[..|sorted|];
  }

  /** Building a balancer reorders the caller's list, which the balancer may then keep. */
  method NewBalancer(code: int, slice: array<NodeEntry>) returns (b: Stored)
    modifies slice
    ensures Backing(b) <= {slice}
    ensures multiset(slice[..]) == multiset(old(slice[..]))
    ensures ViewOf(b) == Build(code, old(slice[..]))
  {
    ghost var before := slice[..];
    if slice.Length == 0 {
      return Plain(Failing(NoNodeAvailable));
    } else if slice.Length == 1 {
      return Plain(Single(slice[0]));
    }
    SortSlice(true, slice);
    ghost var sorted := slice[..];
    assert sorted == Sort(true, before) && |sorted| == slice.Length;
    var policy := Policy(slice[0], code);
    match Kind(policy) {
      case AsRoundRobin =>
        var ws, sum := BuildWeights(code, slice[..]);
        b := Plain(RoundRobin(ws, sum));
      case AsOldest =>
        SortSlice(false, slice);
        b := Plain(Oldest(slice[0]));
      case AsNewest =>
        SortSlice(true, slice);
        b := Plain(Newest(slice[0]));
      case Unknown =>
        b := Plain(Failing(NotImplemented(policy)));
      case kind =>
        b := OverSlice(kind, slice);
    }
  }

  /** The list holds each member of the set once, and has members. */
  ghost predicate Lists(list: seq<NodeEntry>, s: set<NodeEntry>) {
    list != [] && DistinctIdSet(s) && multiset(list) == multiset(s)
  }

  /** The ok nodes of a service in a new list; the walk over the nodes has no fixed order. */
  method CollectOk(nodes: map<NodeId, NodeEntry>, code: int) returns (slice: array<NodeEntry>)
    requires Keyed(nodes)
    ensures fresh(slice)
    ensures slice.Length == 0 ==> OkSet(nodes, code) == {}
    ensures slice.Length > 0 ==> OkSet(nodes, code) != {} && Lists(slice[..], OkSet(nodes, code))
  {
    var list: seq<NodeEntry> := [];
    var todo := nodes.Keys;
    while todo != {}
      invariant todo <= nodes.Keys
      invariant multiset(list) == multiset(Seen(nodes, nodes.Keys - todo, code))
    {
      var id := Any(todo);
      ghost var seen := nodes.Keys - todo;
      if nodes[id].state == NodeOk && Offers(nodes[id], code) {
        list := list + [nodes[id]];
      }
      SeenMore(nodes, seen, id, code);
      todo := todo - {id};
      assert nodes.Keys - todo == seen + {id};
    }
    assert nodes.Keys - todo == nodes.Keys;
    assert Seen(nodes, nodes.Keys, code) == OkSet(nodes, code);
    OkSetDistinct(nodes, code);
    ListingDistinct(OkSet(nodes, code), list);
    slice := new NodeEntry[|list|](i requires 0 <= i < |list| => list[i]);
    assert slice[..] == list;
  }

  /** Each member of the set is at exactly one position of its list, so that exactly one of the
      draws below the length of the list picks it. */
  lemma PickedByOneDraw(list: seq<NodeEntry>, s: set<NodeEntry>, e: NodeEntry)
    requires Lists(list, s) && e in s
    ensures |list| == |s|
    ensures exists d :: 0 <= d < |list| && list[d].id == e.id && forall d' :: 0 <= d' < |list| && list[d'].id == e.id ==> d' == d
  {
    ListingDistinct(s, list);
    assert e in list;
    var d :| 0 <= d < |list| && list[d] == e;
  }

  class Resolver {
    var services: map<int, ServiceDesc>
    var nodes: map<NodeId, NodeEntry>
    var ok: map<int, array<NodeEntry>>
    var balancers: map<int, Stored>

    /** What the lists and the balancers show, whatever order the lists are in. */
    ghost var index: map<int, set<NodeEntry>>
    ghost var shown: map<int, Balancer>

    ghost function Slices(): set<object>
      reads this
    {
      (set c | c in ok :: ok[c]) + (set c | c in balancers && balancers[c].OverSlice? :: balancers[c].slice)
    }

    /** Every node is stored under its own id, each list holds the nodes of its service once, and
        no list that may still be sorted is shared between two services. */
    ghost predicate Valid()
      reads this, Slices()
    {
      ValidBut({})
    }

    /** Valid, except perhaps that the balancers of these services are out of date. */
    ghost predicate ValidBut(stale: set<int>)
      reads this, Slices()
    {
      && Keyed(nodes)
      && ok.Keys == index.Keys && balancers.Keys == shown.Keys
      && (forall c :: c in ok ==> Lists(ok[c][..], index[c]))
      && (forall c :: c in balancers && c !in stale ==> ViewOf(balancers[c]) == shown[c])
      && (forall c, d :: c in ok && d in ok && c != d ==> ok[c] != ok[d])
      && (forall c, d :: c in ok && d in balancers && c != d ==> ok[c] !in Backing(balancers[d]))
    }

    /** Only lists are reachable from here. */
    lemma OnlyLists(o: object)
      requires !(o is array<NodeEntry>)
      ensures o !in Slices()
    {
    }

    ghost function State(): View
      reads this
    {
      View(services, nodes, index, shown)
    }

    constructor ()
      ensures Valid() && State() == EMPTY && Slices() == {}
    {
      services, nodes, ok, balancers := map[], map[], map[], map[];
      index, shown := map[], map[];
    }

    /** Rebuild the list of ok nodes of one service. */
    method UpdateServiceNodes(code: int)
      requires Valid()
      modifies this`ok, this`index
      ensures Valid() && State() == RefreshIndex(old(State()), code)
      ensures code in ok ==> fresh(ok[code])
    {
      var slice := CollectOk(nodes, code);
      if slice.Length == 0 {
        OnlyLists(this);
        ok, index := ok - {code}, index - {code};
        assert forall c :: c in balancers ==> ViewOf(balancers[c]) == old(ViewOf(balancers[c]));
      } else {
        StoreList(code, slice, OkSet(nodes, code));
      }
    }

    method StoreList(code: int, slice: array<NodeEntry>, ghost members: set<NodeEntry>)
      requires Valid() && slice !in Slices() && Lists(slice[..], members)
      modifies this`ok, this`index
      ensures Valid() && ok == old(ok)[code := slice] && index == old(index)[code := members]
    {
      OnlyLists(this);
      ok, index := ok[code := slice], index[code := members];
      assert forall c :: c in balancers ==> ViewOf(balancers[c]) == old(ViewOf(balancers[c]));
    }

    /** Build a balancer over a service's list. The list is sorted in place, which changes neither
        its members nor any other list. */
    method Rebuild(code: int) returns (b: Stored)
      requires Valid() && code in ok
      modifies ok[code]
      ensures ValidBut({code})
      ensures Backing(b) <= {ok[code]} && ViewOf(b) == BalancerOf(code, index[code])
    {
      BalancerOfListing(code, index[code], ok[code][..]);
      b := NewBalancer(code, ok[code]);
      assert forall c :: c in balancers && c != code ==> ViewOf(balancers[c]) == old(ViewOf(balancers[c]));
      assert forall c :: c in ok && c != code ==> ok[c][..] == old(ok[c][..]);
    }

    method StoreBalancer(code: int, b: Stored, ghost shows: Balancer)
      requires ValidBut({code}) && code in ok
      requires Backing(b) <= {ok[code]} && ViewOf(b) == shows
      modifies this`balancers, this`shown
      ensures Valid() && balancers == old(balancers)[code := b] && shown == old(shown)[code := shows]
    {
      OnlyLists(this);
      balancers, shown := balancers[code := b], shown[code := shows];
      assert forall c :: c in ok ==> ok[c][..] == old(ok[c][..]);
      assert ViewOf(b) == old(ViewOf(b));
      assert forall c :: c in balancers && c != code ==> ViewOf(balancers[c]) == old(ViewOf(balancers[c]));
    }

    method UpdateBalancer(code: int)
      requires Valid()
      modifies this`balancers, this`shown, if code in ok then {ok[code]} else {}
      ensures Valid() && State() == RefreshBalancer(old(State()), code)
    {
      if code !in services || !services[code].isPublic { return; }
      if code !in ok {
        OnlyLists(this);
        balancers, shown := balancers - {code}, shown - {code};
        assert forall c :: c in balancers ==> ViewOf(balancers[c]) == old(ViewOf(balancers[c]));
      } else {
        var b := Rebuild(code);
        StoreBalancer(code, b, BalancerOf(code, index[code]));
      }
    }

    /** Take over one service description; codes that are not positive are not discovered. */
    method Describe(d: ServiceDesc)
      requires Valid()
      modifies this
      ensures Valid() && State() == UpdateOne(old(State()), d)
      ensures nodes == old(nodes)
    {
      if d.code > 0 {
        OnlyLists(this);
        services := services[d.code := d];
        assert forall c :: c in balancers ==> ViewOf(balancers[c]) == old(ViewOf(balancers[c]));
        Recount(d.code);
      }
    }

    method Recount(code: int)
      requires Valid()
      modifies this
      ensures Valid() && State() == if code > 0 then Refresh(old(State()), code) else old(State())
    {
      if code > 0 {
        UpdateServiceNodes(code);
        UpdateBalancer(code);
      }
    }

    method Update(node: NodeEntry)
      requires Valid()
      modifies this
      ensures Valid() && State() == ResolverSpec.Update(old(State()), node)
    {
      if |node.services| == 0 { return; }
      OnlyLists(this);
      nodes := nodes[node.id := node];
      assert forall c :: c in balancers ==> ViewOf(balancers[c]) == old(ViewOf(balancers[c]));
      ghost var start := State();
      for i := 0 to |node.services|
        invariant Valid()
        invariant State() == UpdateAll(start, node.services[..i])
      {
        assert node.services[..i + 1][..i] == node.services[..i];
        Describe(node.services[i]);
      }
      assert node.services[..|node.services|] == node.services;
    }

    method Remove(node: NodeEntry)
      requires Valid()
      modifies this
      ensures Valid() && State() == ResolverSpec.Remove(old(State()), node)
    {
      if |node.services| == 0 { return; }
      OnlyLists(this);
      nodes := nodes - {node.id};
      assert forall c :: c in balancers ==> ViewOf(balancers[c]) == old(ViewOf(balancers[c]));
      ghost var start := State();
      for i := 0 to |node.services|
        invariant Valid()
        invariant State() == RefreshAll(start, node.services[..i])
      {
        assert node.services[..i + 1][..i] == node.services[..i];
        Recount(node.services[i].code);
      }
      assert node.services[..|node.services|] == node.services;
    }

    method AllocNode(code: int, sess: Session, draw: int) returns (r: Result<NodeId, PickError>)
      requires Valid()
      ensures r == ResolverSpec.AllocNode(State(), code, sess, draw)
    {
      if code !in balancers { return Failure(NoNodeAvailable); }
      r := Pick(ViewOf(balancers[code]), sess, draw);
    }

    /** A random ok node of the service; `draw` is the value drawn below the length of the list. */
    method PickNode(code: int, draw: nat) returns (r: Result<NodeId, PickError>)
      requires Valid()
      requires code in ok ==> draw < ok[code].Length
      ensures r == if code in ok then Success(ok[code][draw].id) else Failure(NoNodeAvailable)
      ensures r.Failure? <==> code !in State().ok
      ensures r.Success? ==> exists e :: e in State().ok[code] && e.id == r.value
    {
      if code !in ok { return Failure(NoNodeAvailable); }
      assert ok[code][draw] in multiset(ok[code][..]);
      if ok[code].Length == 1 {
        assert draw == 0;
        r := Success(ok[code][0].id);
      } else {
        r := Success(ok[code][draw].id);
      }
    }
  }

  /** The ok nodes of a service among the ids already visited. */
  ghost function Seen(nodes: map<NodeId, NodeEntry>, ids: set<NodeId>, code: int): set<NodeEntry> {
    set id | id in ids && id in nodes && nodes[id].state == NodeOk && Offers(nodes[id], code) :: nodes[id]
  }

  lemma SeenMore(nodes: map<NodeId, NodeEntry>, ids: set<NodeId>, id: NodeId, code: int)
    requires Keyed(nodes) && id in nodes && id !in ids
    ensures multiset(Seen(nodes, ids + {id}, code)) ==
            multiset(Seen(nodes, ids, code)) + if nodes[id].state == NodeOk && Offers(nodes[id], code) then multiset{nodes[id]} else multiset{}
  {
    if nodes[id].state == NodeOk && Offers(nodes[id], code) {
      assert Seen(nodes, ids + {id}, code) == Seen(nodes, ids, code) + {nodes[id]};
      assert nodes[id] !in Seen(nodes, ids, code);
    } else {
      assert Seen(nodes, ids + {id}, code) == Seen(nodes, ids, code);
    }
  }
}
