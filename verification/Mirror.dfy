/** From etcd to the resolver: every notice of the registry is also one call on the resolver. */
module Mirror {
  import opened Entries
  import opened ResolverSpec
  import R = Replica
  import E = EtcdRuns

  /** The resolver after the calls that went with these notices. */
  ghost function Drive(notices: seq<R.Notice>): View
    decreases |notices|
  {
    if notices == [] then EMPTY else Told(Drive(notices[..|notices| - 1]), notices[|notices| - 1])
  }

  ghost function Told(v: View, notice: R.Notice): View {
    match notice
    case Updated(e, _) => Update(v, e)
    case Removed(e) => Remove(v, e)
  }

  lemma DriveMore(notices: seq<R.Notice>, n: R.Notice)
    ensures Drive(notices + [n]) == Told(Drive(notices), n)
  {
    assert (notices + [n])[..|notices|] == notices;
  }

  /** Nodes without services are not for the resolver. */
  function Discoverable(nodes: map<NodeId, NodeEntry>): map<NodeId, NodeEntry> {
    map id | id in nodes && nodes[id].services != [] :: nodes[id]
  }

  predicate KeepsAll(older: NodeEntry, newer: NodeEntry) {
    forall i :: 0 <= i < |older.services| ==> Offers(newer, older.services[i].code)
  }

  /** The resolver knows exactly the nodes of the copy that have services, with right indexes. */
  ghost predicate Mirrors(nodes: map<NodeId, NodeEntry>, v: View, pub: int -> bool) {
    && v.nodes == Discoverable(nodes)
    && Keyed(nodes)
    && (forall id :: id in nodes ==> Flagged(nodes[id].services, pub))
    && Consistent(v, pub)
  }

  lemma MirrorUpdate(nodes: map<NodeId, NodeEntry>, v: View, e: NodeEntry, nodes': map<NodeId, NodeEntry>, v': View, pub: int -> bool)
    requires Mirrors(nodes, v, pub) && Flagged(e.services, pub)
    requires e.id in nodes ==> KeepsAll(nodes[e.id], e)
    requires nodes' == nodes[e.id := e] && v' == Update(v, e)
    ensures Mirrors(nodes', v', pub)
  {
    UpdateConsistent(v, e, pub);
    if e.services != [] {
      UpdateAllAt(v.(nodes := v.nodes[e.id := e]), e.services, 1);
      assert Discoverable(nodes[e.id := e]) == Discoverable(nodes)[e.id := e];
    } else {
      assert !Offers(e, if e.id in nodes && nodes[e.id].services != [] then nodes[e.id].services[0].code else 0);
      assert Discoverable(nodes[e.id := e]) == Discoverable(nodes);
    }
  }

  lemma MirrorRemove(nodes: map<NodeId, NodeEntry>, v: View, e: NodeEntry, nodes': map<NodeId, NodeEntry>, v': View, pub: int -> bool)
    requires Mirrors(nodes, v, pub) && Flagged(e.services, pub)
    requires e.id in nodes ==> KeepsAll(nodes[e.id], e)
    requires nodes' == nodes - {e.id} && v' == Remove(v, e)
    ensures Mirrors(nodes', v', pub)
  {
    RemoveConsistent(v, e, pub);
    if e.services != [] {
      RefreshAllAt(v.(nodes := v.nodes - {e.id}), e.services, 1);
      assert Discoverable(nodes - {e.id}) == Discoverable(nodes) - {e.id};
    } else {
      assert !Offers(e, if e.id in nodes && nodes[e.id].services != [] then nodes[e.id].services[0].code else 0);
      assert Discoverable(nodes - {e.id}) == Discoverable(nodes);
    }
  }

  // ---- Histories in which no node drops a service ----

  predicate NoDrop(h: seq<R.Event>) {
    forall i, j :: 0 <= i < j < |h| && h[i].key == h[j].key && IsEntryPut(h[i]) && IsEntryPut(h[j]) ==>
      KeepsAll(h[i].value.entry, h[j].value.entry)
  }

  predicate IsEntryPut(ev: R.Event) {
    ev.Put? && ev.value.Decoded?
  }

  predicate StableFlags(h: seq<R.Event>, pub: int -> bool) {
    forall i :: 0 <= i < |h| && IsEntryPut(h[i]) ==> Flagged(h[i].value.entry.services, pub)
  }

  lemma EntryFlagged(h: seq<R.Event>, rev: int, k: R.Key, r: int, pub: int -> bool)
    requires E.GoodHistory(h, rev) && StableFlags(h, pub)
    requires E.EntryAt(h, k, r).Some?
    ensures Flagged(E.EntryAt(h, k, r).value.services, pub)
  {
    var i := E.AtLatest(h, k, r);
    assert E.GoodEvent(h[i]);
  }

  /** A later state of a node offers everything that an earlier one did. */
  lemma EntriesGrow(h: seq<R.Event>, rev: int, k: R.Key, r: int, r': int)
    requires E.GoodHistory(h, rev) && NoDrop(h) && r <= r'
    requires E.EntryAt(h, k, r).Some? && E.EntryAt(h, k, r').Some?
    ensures KeepsAll(E.EntryAt(h, k, r).value, E.EntryAt(h, k, r').value)
  {
    var i := E.AtLatest(h, k, r);
    var j := E.AtLatest(h, k, r');
    assert E.GoodEvent(h[i]) && E.GoodEvent(h[j]);
    assert h[i].rev <= h[j].rev;
    assert i <= j;
    if i == j {
      forall n | 0 <= n < |h[i].value.entry.services| ensures Offers(h[i].value.entry, h[i].value.entry.services[n].code) {}
    }
  }

  /** The entry an event carries: the new one of a put, the deleted one of a deletion. */
  function Carried(ev: R.Event): NodeEntry
    requires E.GoodEvent(ev)
  {
    match ev
    case Put(_, _, v) => v.entry
    case Delete(_, _, v) => v.entry
  }

  /** The carried entry is what etcd held at the put, or just before the deletion. */
  predicate Truthful(h: seq<R.Event>, ev: R.Event) {
    E.GoodEvent(ev) && E.EntryAt(h, ev.key, if ev.Put? then ev.rev else ev.rev - 1) == Some(Carried(ev))
  }

  lemma HistoryTruthful(h: seq<R.Event>, rev: int, i: nat)
    requires E.GoodHistory(h, rev) && i < |h|
    ensures Truthful(h, h[i])
  {
    var e := h[i];
    assert E.GoodEvent(e);
    E.AtEvent(h, i);
    if e.Delete? {
      JustBefore(h, i);
    }
  }

  lemma {:induction false} JustBefore(h: seq<R.Event>, i: nat)
    requires i < |h|
    requires forall a, b :: 0 <= a < b < |h| && h[a].key == h[b].key ==> h[a].rev < h[b].rev
    ensures E.At(h, h[i].key, h[i].rev - 1) == E.At(h[..i], h[i].key, h[i].rev)
    decreases |h|
  {
    var n, k, r := |h| - 1, h[i].key, h[i].rev;
    if i == n {
      assert forall a :: 0 <= a < n && h[..n][a].key == k ==> h[..n][a].rev < h[n].rev;
      E.AtStable(h[..n], k, r - 1, r);
    } else {
      assert h[n].key == k ==> r < h[n].rev;
      assert h[..n][i] == h[i] && h[..n][..i] == h[..i];
      JustBefore(h[..n], i);
    }
  }

  /** The entry of a new event offers everything that the stored entry offers. */
  lemma CarriedGrows(h: seq<R.Event>, rev: int, c: R.Copy, ev: R.Event, pub: int -> bool)
    requires E.GoodHistory(h, rev) && NoDrop(h) && StableFlags(h, pub)
    requires E.Faithful(h, rev, c) && Truthful(h, ev) && !R.IsOld(c, ev.key, ev.rev)
    ensures Carried(ev).id == ev.key.id && Flagged(Carried(ev).services, pub)
    ensures ev.key.id in c.nodes ==> KeepsAll(c.nodes[ev.key.id], Carried(ev))
  {
    var at := if ev.Put? then ev.rev else ev.rev - 1;
    EntryFlagged(h, rev, ev.key, at, pub);
    if ev.key.id in c.nodes {
      assert ev.key == R.Key(ev.key.id);
      EntriesGrow(h, rev, ev.key, c.versions[ev.key], at);
    }
  }

  lemma PutMirrors(c: R.Copy, ev: R.Event, pub: int -> bool)
    requires E.GoodEvent(ev) && ev.Put? && !R.IsOld(c, ev.key, ev.rev)
    requires Mirrors(c.nodes, Drive(c.notices), pub) && Flagged(Carried(ev).services, pub)
    requires ev.key.id in c.nodes ==> KeepsAll(c.nodes[ev.key.id], Carried(ev))
    ensures var c' := R.Apply(c, ev); Mirrors(c'.nodes, Drive(c'.notices), pub)
  {
    DriveMore(c.notices, R.Updated(Carried(ev), ev.rev));
    MirrorUpdate(c.nodes, Drive(c.notices), Carried(ev), R.Apply(c, ev).nodes, Drive(R.Apply(c, ev).notices), pub);
  }

  lemma DeleteMirrors(c: R.Copy, ev: R.Event, pub: int -> bool)
    requires E.GoodEvent(ev) && ev.Delete? && !R.IsOld(c, ev.key, ev.rev)
    requires Mirrors(c.nodes, Drive(c.notices), pub) && Flagged(Carried(ev).services, pub)
    requires ev.key.id in c.nodes ==> KeepsAll(c.nodes[ev.key.id], Carried(ev))
    ensures var c' := R.Apply(c, ev); Mirrors(c'.nodes, Drive(c'.notices), pub)
  {
    DriveMore(c.notices, R.Removed(Carried(ev)));
    MirrorRemove(c.nodes, Drive(c.notices), Carried(ev), R.Apply(c, ev).nodes, Drive(R.Apply(c, ev).notices), pub);
  }

  /** Applying a truthful event to a faithful copy keeps copy and resolver in step. */
  lemma ApplyMirrors(h: seq<R.Event>, rev: int, c: R.Copy, ev: R.Event, pub: int -> bool)
    requires E.GoodHistory(h, rev) && NoDrop(h) && StableFlags(h, pub)
    requires E.Faithful(h, rev, c) && Truthful(h, ev)
    requires Mirrors(c.nodes, Drive(c.notices), pub)
    ensures var c' := R.Apply(c, ev); Mirrors(c'.nodes, Drive(c'.notices), pub)
  {
    if !R.IsOld(c, ev.key, ev.rev) {
      CarriedGrows(h, rev, c, ev, pub);
      if ev.Put? { PutMirrors(c, ev, pub); } else { DeleteMirrors(c, ev, pub); }
    }
  }

  lemma ApplyPutFaithful(h: seq<R.Event>, rev: int, c: R.Copy, kv: R.KeyValue)
    requires E.GoodHistory(h, rev) && E.Faithful(h, rev, c)
    requires R.GoodKeyValue(kv) && kv.rev <= rev && E.At(h, kv.key, kv.rev) == Some(kv)
    ensures E.Faithful(h, rev, R.Apply(c, R.AsPut(kv)))
  {
    var c' := R.Apply(c, R.AsPut(kv));
    forall k | k in c'.versions
      ensures c'.versions[k] <= rev && Lookup(c'.nodes, k.id) == E.EntryAt(h, k, c'.versions[k])
    {
      if k != kv.key { assert k.id != kv.key.id; }
    }
  }

  /** A key read at the latest revision was in that state since the revision that wrote it. */
  lemma ReadSince(h: seq<R.Event>, rev: int, kvs: seq<R.KeyValue>, i: nat)
    requires E.GoodHistory(h, rev) && E.IsRead(h, rev, kvs) && i < |kvs|
    ensures R.GoodKeyValue(kvs[i]) && kvs[i].rev <= rev && E.At(h, kvs[i].key, kvs[i].rev) == Some(kvs[i])
  {
    E.ReadIsGood(h, rev, kvs);
    var j := E.AtLatest(h, kvs[i].key, rev);
    E.AtStable(h, kvs[i].key, kvs[i].rev, rev);
  }

  lemma {:induction false} MergeMirrors(h: seq<R.Event>, rev: int, c: R.Copy, kvs: seq<R.KeyValue>, n: nat, pub: int -> bool)
    requires E.GoodHistory(h, rev) && NoDrop(h) && StableFlags(h, pub) && E.IsRead(h, rev, kvs) && n <= |kvs|
    requires E.Faithful(h, rev, c) && Mirrors(c.nodes, Drive(c.notices), pub)
    ensures var c' := R.ApplyAll(c, kvs[..n]);
            E.Faithful(h, rev, c') && Mirrors(c'.nodes, Drive(c'.notices), pub)
    decreases n
  {
    if n > 0 {
      MergeMirrors(h, rev, c, kvs, n - 1, pub);
      assert kvs[..n][..n - 1] == kvs[..n - 1];
      var mid := R.ApplyAll(c, kvs[..n - 1]);
      ReadSince(h, rev, kvs, n - 1);
      ApplyPutFaithful(h, rev, mid, kvs[n - 1]);
      ApplyMirrors(h, rev, mid, R.AsPut(kvs[n - 1]), pub);
    }
  }

  lemma {:induction false} DropMirrors(c: R.Copy, keep: set<R.Key>, header: int, order: seq<NodeId>, pub: int -> bool)
    requires Mirrors(c.nodes, Drive(c.notices), pub)
    ensures var c' := R.DropStale(c, keep, header, order); Mirrors(c'.nodes, Drive(c'.notices), pub)
    decreases |order|
  {
    if order != [] {
      var n := |order| - 1;
      DropMirrors(c, keep, header, order[..n], pub);
      var mid := R.DropStale(c, keep, header, order[..n]);
      var id := order[n];
      if id in mid.nodes && R.KeyOf(mid.nodes[id]) !in keep {
        var e := mid.nodes[id];
        assert KeepsAll(e, e);
        DriveMore(mid.notices, R.Removed(e));
        var c' := R.DropOne(mid, keep, header, id);
        MirrorRemove(mid.nodes, Drive(mid.notices), e, c'.nodes, Drive(c'.notices), pub);
      }
    }
  }

  lemma StepMirrors(s: E.System, step: E.Step, pub: int -> bool)
    requires E.Inv(s) && E.Enabled(s, step)
    requires NoDrop(s.history) && StableFlags(s.history, pub)
    requires Mirrors(s.copy.nodes, Drive(s.copy.notices), pub)
    ensures var c := E.Next(s, step).copy; Mirrors(c.nodes, Drive(c.notices), pub)
  {
    match step
    case Deliver =>
      HistoryTruthful(s.history, s.rev, s.cursor);
      ApplyMirrors(s.history, s.rev, s.copy, s.history[s.cursor], pub);
    case Sync(kvs, order) =>
      MergeMirrors(s.history, s.rev, s.copy, kvs, |kvs|, pub);
      assert kvs[..|kvs|] == kvs;
      DropMirrors(R.ApplyAll(s.copy, kvs), R.KeysOf(kvs), s.rev, order, pub);
    case _ =>
  }

  lemma {:induction false} HistoryGrows(s: E.System, steps: seq<E.Step>)
    requires E.Possible(s, steps)
    ensures s.history <= E.Run(s, steps).history
    decreases |steps|
  {
    if steps != [] { HistoryGrows(E.Next(s, steps[0]), steps[1..]); }
  }

  lemma Prefixes(h: seq<R.Event>, longer: seq<R.Event>, pub: int -> bool)
    requires h <= longer && NoDrop(longer) && StableFlags(longer, pub)
    ensures NoDrop(h) && StableFlags(h, pub)
  {
    forall i | 0 <= i < |h| ensures h[i] == longer[i] {}
  }

  lemma {:induction false} RunMirrors(s: E.System, steps: seq<E.Step>, pub: int -> bool)
    requires E.Inv(s) && E.Possible(s, steps)
    requires NoDrop(E.Run(s, steps).history) && StableFlags(E.Run(s, steps).history, pub)
    requires Mirrors(s.copy.nodes, Drive(s.copy.notices), pub)
    ensures var c := E.Run(s, steps).copy; Mirrors(c.nodes, Drive(c.notices), pub)
    decreases |steps|
  {
    if steps != [] {
      HistoryGrows(s, steps);
      Prefixes(s.history, E.Run(s, steps).history, pub);
      E.StepKeeps(s, steps[0]);
      StepMirrors(s, steps[0], pub);
      RunMirrors(E.Next(s, steps[0]), steps[1..], pub);
    }
  }

  lemma SameFilter(nodes: map<NodeId, NodeEntry>, code: int)
    ensures OkSet(Discoverable(nodes), code) == OkSet(nodes, code)
  {
    var d := Discoverable(nodes);
    forall e | e in OkSet(nodes, code) ensures e in OkSet(d, code) {
      var id :| id in nodes && nodes[id] == e && e.state == NodeOk && Offers(e, code);
      assert id in d && d[id] == e;
    }
  }

  /** From etcd to the resolver's indexes: in every run in which no node drops a service and
      public flags are stable, whenever a resync has succeeded since the watch was created and
      nothing is queued, the resolver knows exactly the nodes in etcd that have services, and the
      index of each service is what filtering etcd's content directly would give. */
  lemma EndToEnd(s: E.System, steps: seq<E.Step>, pub: int -> bool)
    requires E.Init(s) && E.Possible(s, steps)
    requires NoDrop(E.Run(s, steps).history) && StableFlags(E.Run(s, steps).history, pub)
    ensures var t := E.Run(s, steps); var v := Drive(t.copy.notices);
            t.synced && t.cursor == |t.history| ==>
              exists content :: E.IsContent(t, content) && v.nodes == Discoverable(content)
                && (forall code :: code > 0 ==> Lookup(v.ok, code) == Index(content, code))
                && (forall code :: code > 0 ==>
                      Lookup(v.balancers, code) == if pub(code) then BalancerIndex(content, code) else None)
  {
    assert Discoverable(map[]) == map[];
    assert Mirrors(s.copy.nodes, Drive(s.copy.notices), pub);
    RunMirrors(s, steps, pub);
    E.Convergence(s, steps);
    var t := E.Run(s, steps);
    var content := t.copy.nodes;
    forall code ensures OkSet(Discoverable(content), code) == OkSet(content, code) { SameFilter(content, code); }
  }
}
