/** The registry's watcher: it keeps the copy of the entries in place and drives the resolver. */
module Watcher {
  import opened Entries
  import opened Replica
  import Mirror
  import Resolver

  class Watcher {
    var versions: map<Key, int>
    var maxRev: int
    var nodes: map<NodeId, NodeEntry>
    /** Everything sent to the subscribers so far. */
    var notices: seq<Notice>
    const resolver: Resolver.Resolver

    /** The resolver is where the notices sent so far have brought it. */
    ghost predicate Valid()
      reads this, resolver, resolver.Slices()
    {
      && resolver.Valid()
      && resolver.State() == Mirror.Drive(notices)
    }

    ghost function Contents(): Copy
      reads this
    {
      Copy(versions, maxRev, nodes, notices)
    }

    constructor ()
      ensures Valid() && Contents() == FRESH
      ensures fresh(resolver)
    {
      versions, maxRev, nodes, notices := map[], 0, map[], [];
      resolver := new Resolver.Resolver();
    }

    /** Send a notice, together with the matching call on the resolver. */
    method Tell(notice: Notice)
      requires Valid()
      modifies this`notices, resolver
      ensures Valid() && notices == old(notices) + [notice]
    {
      Mirror.DriveMore(notices, notice);
      match notice {
        case Updated(entry, _) => resolver.Update(entry);
        case Removed(entry) => resolver.Remove(entry);
      }
      resolver.OnlyLists(this);
      notices := notices + [notice];
    }

    method RemoveNode(entry: NodeEntry)
      requires Valid()
      modifies this, resolver
      ensures Valid() && Contents() == Remove(old(Contents()), entry)
    {
      Tell(Removed(entry));
      resolver.OnlyLists(this);
      nodes := nodes - {entry.id};
    }

    /** Take over one event unless an equal or newer revision of its key is already known. */
    method Apply(ev: Event)
      requires Valid()
      modifies this, resolver
      ensures Valid() && Contents() == Replica.Apply(old(Contents()), ev)
    {
      resolver.OnlyLists(this);
      if ev.rev > maxRev { maxRev := ev.rev; }
      if ev.key in versions && versions[ev.key] >= ev.rev { return; }
      versions := versions[ev.key := ev.rev];
      match ev {
        case Put(_, rev, Decoded(entry)) =>
          StoreNode(entry, rev);
        case Delete(_, _, Decoded(entry)) =>
          RemoveNode(entry);
        case _ =>
      }
    }

    method StoreNode(entry: NodeEntry, rev: int)
      requires Valid()
      modifies this, resolver
      ensures Valid()
      ensures Contents() == old(Contents()).(nodes := old(nodes)[entry.id := entry], notices := old(notices) + [Updated(entry, rev)])
    {
      Tell(Updated(entry, rev));
      resolver.OnlyLists(this);
      nodes := nodes[entry.id := entry];
    }

    /** Merge a full read. `order` reports in which order the walk met the local nodes. */
    method Resync(snap: Snapshot) returns (ghost order: seq<NodeId>)
      requires Valid()
      modifies this, resolver
      ensures Valid()
      ensures Covers(order, Merged(old(Contents()), snap).nodes)
      ensures Contents() == Replica.Resync(old(Contents()), snap, order)
    {
      Doubt(snap.header);
      var present := MergeAll(snap.kvs);
      order := DropMissing(present, snap.header);
    }

    /** Forget all versions if etcd has gone back behind something already seen. */
    method Doubt(header: int)
      requires Valid()
      modifies this
      ensures Valid() && Contents() == Distrust(old(Contents()), header)
    {
      resolver.OnlyLists(this);
      if header < maxRev {
        versions := map[];
        maxRev := header;
      }
    }

    method MergeAll(kvs: seq<KeyValue>) returns (present: set<Key>)
      requires Valid()
      modifies this, resolver
      ensures Valid() && Contents() == ApplyAll(old(Contents()), kvs) && present == KeysOf(kvs)
    {
      present := {};
      for i := 0 to |kvs|
        invariant Valid()
        invariant present == KeysOf(kvs[..i])
        invariant Contents() == ApplyAll(old(Contents()), kvs[..i])
      {
        assert kvs[..i + 1][..i] == kvs[..i];
        KeysOfMore(kvs, i);
        present := present + {kvs[i].key};
        Apply(AsPut(kvs[i]));
      }
      assert kvs[..|kvs|] == kvs;
    }

    method DropMissing(keep: set<Key>, header: int) returns (ghost order: seq<NodeId>)
      requires Valid()
      modifies this, resolver
      ensures Valid()
      ensures Covers(order, old(nodes))
      ensures Contents() == DropStale(old(Contents()), keep, header, order)
    {
      ghost var start := Contents();
      var todo := nodes.Keys;
      order := [];
      while todo != {}
        invariant Valid()
        invariant forall id :: id in start.nodes ==> id in todo || id in order
        invariant Contents() == DropStale(start, keep, header, order)
      {
        assert (forall id :: id !in todo) ==> todo == {};
        var id :| id in todo;
        todo := todo - {id};
        DropStaleMore(start, keep, header, order, id);
        Visit(id, keep, header);
        order := order + [id];
      }
    }

    method Visit(id: NodeId, keep: set<Key>, header: int)
      requires Valid()
      modifies this, resolver
      ensures Valid() && Contents() == DropOne(old(Contents()), keep, header, id)
    {
      if id in nodes && KeyOf(nodes[id]) !in keep {
        resolver.OnlyLists(this);
        versions := versions[KeyOf(nodes[id]) := header];
        RemoveNode(nodes[id]);
      }
    }
  }

  lemma DropStaleMore(c: Copy, keep: set<Key>, header: int, order: seq<NodeId>, id: NodeId)
    ensures DropStale(c, keep, header, order + [id]) == DropOne(DropStale(c, keep, header, order), keep, header, id)
  {
    assert (order + [id])[..|order|] == order;
  }

  lemma KeysOfMore(kvs: seq<KeyValue>, i: nat)
    requires i < |kvs|
    ensures KeysOf(kvs[..i + 1]) == KeysOf(kvs[..i]) + {kvs[i].key}
  {
    var more, less := kvs[..i + 1], kvs[..i];
    forall k | k in KeysOf(more) ensures k in KeysOf(less) + {kvs[i].key} {
      var j :| 0 <= j < |more| && more[j].key == k;
      if j < i { assert less[j].key == k; }
    }
    forall k | k in KeysOf(less) ensures k in KeysOf(more) {
      var j :| 0 <= j < |less| && less[j].key == k;
      assert more[j].key == k;
    }
    assert more[i].key == kvs[i].key;
  }
}
