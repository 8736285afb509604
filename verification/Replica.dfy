/** The local copy of the node entries that a registry keeps, and how one watch event
    or one full snapshot changes it. */
module Replica {
  import opened Entries

  /** The etcd key of a node: the registry's prefix joined with the node id. The prefix is
      the same for every key, so the id identifies the key. */
  datatype Key = Key(id: NodeId)

  /** A stored value either decodes to an entry or is reported and skipped. */
  datatype Value = Decoded(entry: NodeEntry) | Undecodable

  /** A watch event. A deletion carries the value the key had before it. */
  datatype Event =
    | Put(key: Key, rev: int, value: Value)
    | Delete(key: Key, rev: int, prev: Value)

  /** One key of a snapshot, with the revision that last wrote it. */
  datatype KeyValue = KeyValue(key: Key, rev: int, value: Value)

  datatype Snapshot = Snapshot(header: int, kvs: seq<KeyValue>)

  /** What the registry tells the rest of the node, in order. Every notice goes together with
      the matching call on the resolver. `rev` records the revision that caused an update. */
  datatype Notice = Updated(entry: NodeEntry, rev: int) | Removed(entry: NodeEntry)

  datatype Copy = Copy(versions: map<Key, int>, maxRev: int, nodes: map<NodeId, NodeEntry>, notices: seq<Notice>)

  const FRESH := Copy(map[], 0, map[], [])

  function KeyOf(e: NodeEntry): Key { Key(e.id) }

  function AsPut(kv: KeyValue): Event { Put(kv.key, kv.rev, kv.value) }

  predicate IsOld(c: Copy, key: Key, rev: int) {
    key in c.versions && c.versions[key] >= rev
  }

  function Remove(c: Copy, e: NodeEntry): Copy {
    c.(nodes := c.nodes - {e.id}, notices := c.notices + [Removed(e)])
  }

  function Apply(c: Copy, ev: Event): Copy {
    var c1 := c.(maxRev := if ev.rev > c.maxRev then ev.rev else c.maxRev);
    if IsOld(c, ev.key, ev.rev) then c1
    else
      var c2 := c1.(versions := c.versions[ev.key := ev.rev]);
      match ev
      case Put(_, rev, Decoded(e)) => c2.(nodes := c.nodes[e.id := e], notices := c.notices + [Updated(e, rev)])
      case Delete(_, _, Decoded(e)) => Remove(c2, e)
      case _ => c2
  }

  /** A snapshot older than something already seen means etcd was restored from a backup. */
  function Distrust(c: Copy, header: int): Copy {
    if header < c.maxRev then c.(versions := map[], maxRev := header) else c
  }

  function ApplyAll(c: Copy, kvs: seq<KeyValue>): Copy
    decreases |kvs|
  {
    if kvs == [] then c else Apply(ApplyAll(c, kvs[..|kvs| - 1]), AsPut(kvs[|kvs| - 1]))
  }

  function KeysOf(kvs: seq<KeyValue>): set<Key> {
    set i | 0 <= i < |kvs| :: kvs[i].key
  }

  /** One visit of the walk over the local nodes: a node whose key the snapshot lacks is removed. */
  function DropOne(c: Copy, keep: set<Key>, header: int, id: NodeId): Copy {
    if id in c.nodes && KeyOf(c.nodes[id]) !in keep then
      Remove(c.(versions := c.versions[KeyOf(c.nodes[id]) := header]), c.nodes[id])
    else c
  }

  function DropStale(c: Copy, keep: set<Key>, header: int, order: seq<NodeId>): Copy
    decreases |order|
  {
    if order == [] then c
    else DropOne(DropStale(c, keep, header, order[..|order| - 1]), keep, header, order[|order| - 1])
  }

  /** The copy once the snapshot's entries are merged, before the walk over the local nodes. */
  function Merged(c: Copy, snap: Snapshot): Copy {
    ApplyAll(Distrust(c, snap.header), snap.kvs)
  }

  /** `order` is the order in which the walk visits the local nodes. */
  function Resync(c: Copy, snap: Snapshot, order: seq<NodeId>): Copy {
    DropStale(Merged(c, snap), KeysOf(snap.kvs), snap.header, order)
  }

  /** The walk visits every local node. */
  predicate Covers(order: seq<NodeId>, nodes: map<NodeId, NodeEntry>) {
    forall id :: id in nodes ==> id in order
  }

  /** What etcd guarantees of a snapshot of well-formed entries: every value decodes to an entry
      stored under its own id, a key occurs once, and no key is newer than the snapshot. */
  predicate GoodSnapshot(snap: Snapshot) {
    && (forall i :: 0 <= i < |snap.kvs| ==> GoodKeyValue(snap.kvs[i]) && snap.kvs[i].rev <= snap.header)
    && DistinctKeys(snap.kvs)
  }

  predicate GoodKeyValue(kv: KeyValue) {
    kv.value.Decoded? && KeyOf(kv.value.entry) == kv.key
  }

  predicate DistinctKeys(kvs: seq<KeyValue>) {
    forall i, j :: 0 <= i < j < |kvs| ==> kvs[i].key != kvs[j].key
  }

  /** The entries of a snapshot, by node id. */
  function Contents(kvs: seq<KeyValue>): map<NodeId, NodeEntry>
    requires forall i :: 0 <= i < |kvs| ==> GoodKeyValue(kvs[i])
    requires DistinctKeys(kvs)
  {
    map i | 0 <= i < |kvs| :: kvs[i].key.id := assert GoodKeyValue(kvs[i]); kvs[i].value.entry
  }

  // ---- What is announced ----

  /** An event that is not newer than its key's version changes nothing but maxRev. Any other event
      sets the version; a put then announces its entry exactly once, a deletion the removal of the
      entry it carries, and a value that does not decode nothing. */
  lemma ApplyAnnounces(c: Copy, ev: Event)
    ensures var m := Apply(c, ev).maxRev; ev.rev <= m && c.maxRev <= m && (m == ev.rev || m == c.maxRev)
    ensures var c', seen := Apply(c, ev), ev.key in c.versions && ev.rev <= c.versions[ev.key];
            && (seen ==> c' == c.(maxRev := c'.maxRev))
            && (!seen ==> c'.versions == c.versions[ev.key := ev.rev])
            && (!seen && ev.Put? && ev.value.Decoded? ==>
                  c'.notices == c.notices + [Updated(ev.value.entry, ev.rev)] && c'.nodes == c.nodes[ev.value.entry.id := ev.value.entry])
            && (!seen && ev.Delete? && ev.prev.Decoded? ==>
                  c'.notices == c.notices + [Removed(ev.prev.entry)] && c'.nodes == c.nodes - {ev.prev.entry.id})
            && (ev == Put(ev.key, ev.rev, Undecodable) || ev == Delete(ev.key, ev.rev, Undecodable) ==>
                  c'.notices == c.notices && c'.nodes == c.nodes)
  {
  }

  function Heard(known: map<NodeId, NodeEntry>, n: Notice): map<NodeId, NodeEntry> {
    if n.Updated? then known[n.entry.id := n.entry] else known - {n.entry.id}
  }

  /** What a listener that starts with nothing knows after these notices. */
  function Replay(notices: seq<Notice>): map<NodeId, NodeEntry>
    decreases |notices|
  {
    if notices == [] then map[] else Heard(Replay(notices[..|notices| - 1]), notices[|notices| - 1])
  }

  lemma ReplayMore(notices: seq<Notice>, n: Notice)
    ensures Replay(notices + [n]) == Heard(Replay(notices), n)
  {
    assert (notices + [n])[..|notices|] == notices;
  }

  predicate Told(c: Copy) { Replay(c.notices) == c.nodes }

  lemma ApplyTold(c: Copy, ev: Event)
    requires Told(c)
    ensures Told(Apply(c, ev))
  {
    match ev
    case Put(_, rev, Decoded(e)) => ReplayMore(c.notices, Updated(e, rev));
    case Delete(_, _, Decoded(e)) => ReplayMore(c.notices, Removed(e));
    case _ =>
  }

  lemma {:induction false} ApplyAllTold(c: Copy, kvs: seq<KeyValue>)
    requires Told(c)
    ensures Told(ApplyAll(c, kvs))
    decreases |kvs|
  {
    if kvs != [] {
      ApplyAllTold(c, kvs[..|kvs| - 1]);
      ApplyTold(ApplyAll(c, kvs[..|kvs| - 1]), AsPut(kvs[|kvs| - 1]));
    }
  }

  lemma {:induction false} DropStaleTold(c: Copy, keep: set<Key>, header: int, order: seq<NodeId>)
    requires Told(c)
    ensures Told(DropStale(c, keep, header, order))
    decreases |order|
  {
    if order != [] {
      DropStaleTold(c, keep, header, order[..|order| - 1]);
      var mid, id := DropStale(c, keep, header, order[..|order| - 1]), order[|order| - 1];
      if id in mid.nodes { ReplayMore(mid.notices, Removed(mid.nodes[id])); }
    }
  }

  // ---- What merging a snapshot does to one node ----

  lemma {:induction false} ApplyAllAbsent(c: Copy, kvs: seq<KeyValue>, id: NodeId)
    requires forall i :: 0 <= i < |kvs| ==> GoodKeyValue(kvs[i]) && kvs[i].key != Key(id)
    ensures Lookup(ApplyAll(c, kvs).nodes, id) == Lookup(c.nodes, id)
    ensures Lookup(ApplyAll(c, kvs).versions, Key(id)) == Lookup(c.versions, Key(id))
    decreases |kvs|
  {
    if kvs != [] { ApplyAllAbsent(c, kvs[..|kvs| - 1], id); }
  }

  lemma {:induction false} ApplyAllPresent(c: Copy, kvs: seq<KeyValue>, i: nat)
    requires i < |kvs|
    requires forall j :: 0 <= j < |kvs| ==> GoodKeyValue(kvs[j])
    requires DistinctKeys(kvs)
    ensures GoodKeyValue(kvs[i])
    ensures var c' := ApplyAll(c, kvs); var kv := kvs[i];
            if IsOld(c, kv.key, kv.rev)
            then Lookup(c'.nodes, kv.key.id) == Lookup(c.nodes, kv.key.id) && Lookup(c'.versions, kv.key) == Some(c.versions[kv.key])
            else Lookup(c'.nodes, kv.key.id) == Some(kv.value.entry) && Lookup(c'.versions, kv.key) == Some(kv.rev)
    decreases |kvs|
  {
    var n := |kvs| - 1;
    if i == n {
      ApplyAllAbsent(c, kvs[..n], kvs[i].key.id);
    } else {
      assert kvs[..n][i] == kvs[i];
      ApplyAllPresent(c, kvs[..n], i);
      assert kvs[i].key != kvs[n].key;
    }
  }

  lemma {:induction false} ApplyAllMaxRev(c: Copy, kvs: seq<KeyValue>, bound: int)
    requires c.maxRev <= bound
    requires forall i :: 0 <= i < |kvs| ==> kvs[i].rev <= bound
    ensures c.maxRev <= ApplyAll(c, kvs).maxRev <= bound
    decreases |kvs|
  {
    if kvs != [] { ApplyAllMaxRev(c, kvs[..|kvs| - 1], bound); }
  }

  lemma {:induction false} ApplyAllKeyed(c: Copy, kvs: seq<KeyValue>)
    requires Keyed(c.nodes)
    ensures Keyed(ApplyAll(c, kvs).nodes)
    decreases |kvs|
  {
    if kvs != [] { ApplyAllKeyed(c, kvs[..|kvs| - 1]); }
  }

  // ---- What the walk over the local nodes does to one node ----

  lemma {:induction false} DropStaleAt(c: Copy, keep: set<Key>, header: int, order: seq<NodeId>, id: NodeId)
    requires Keyed(c.nodes)
    ensures var c' := DropStale(c, keep, header, order);
            && Keyed(c'.nodes) && c'.maxRev == c.maxRev
            && if id in c.nodes && id in order && Key(id) !in keep
               then id !in c'.nodes && Lookup(c'.versions, Key(id)) == Some(header)
               else Lookup(c'.nodes, id) == Lookup(c.nodes, id) && Lookup(c'.versions, Key(id)) == Lookup(c.versions, Key(id))
    decreases |order|
  {
    if order != [] {
      var n := |order| - 1;
      DropStaleAt(c, keep, header, order[..n], id);
      assert order == order[..n] + [order[n]];
      assert id in order <==> id in order[..n] || id == order[n];
    }
  }

  // ---- Resync, one node at a time ----

  /** A key of the snapshot: its entry wins unless an equal or newer revision is already known. */
  lemma ResyncPresent(c: Copy, snap: Snapshot, order: seq<NodeId>, i: nat)
    requires Keyed(c.nodes) && GoodSnapshot(snap)
    requires i < |snap.kvs|
    ensures var c0 := Distrust(c, snap.header); var c' := Resync(c, snap, order); var kv := snap.kvs[i];
            if IsOld(c0, kv.key, kv.rev)
            then Lookup(c'.nodes, kv.key.id) == Lookup(c.nodes, kv.key.id) && Lookup(c'.versions, kv.key) == Some(c0.versions[kv.key])
            else Lookup(c'.nodes, kv.key.id) == Some(kv.value.entry) && Lookup(c'.versions, kv.key) == Some(kv.rev)
  {
    var c0 := Distrust(c, snap.header);
    ApplyAllPresent(c0, snap.kvs, i);
    ApplyAllKeyed(c0, snap.kvs);
    assert snap.kvs[i].key in KeysOf(snap.kvs);
    DropStaleAt(ApplyAll(c0, snap.kvs), KeysOf(snap.kvs), snap.header, order, snap.kvs[i].key.id);
  }

  /** A key the snapshot lacks: the node goes, and its version becomes the snapshot's revision. */
  lemma ResyncAbsent(c: Copy, snap: Snapshot, order: seq<NodeId>, id: NodeId)
    requires Keyed(c.nodes) && GoodSnapshot(snap)
    requires Covers(order, Merged(c, snap).nodes)
    requires Key(id) !in KeysOf(snap.kvs)
    ensures var c' := Resync(c, snap, order);
            && id !in c'.nodes
            && Lookup(c'.versions, Key(id)) ==
               if id in c.nodes then Some(snap.header) else Lookup(Distrust(c, snap.header).versions, Key(id))
  {
    var c0 := Distrust(c, snap.header);
    forall i | 0 <= i < |snap.kvs| ensures GoodKeyValue(snap.kvs[i]) && snap.kvs[i].key != Key(id) {
      assert snap.kvs[i].key in KeysOf(snap.kvs);
    }
    ApplyAllAbsent(c0, snap.kvs, id);
    ApplyAllKeyed(c0, snap.kvs);
    DropStaleAt(Merged(c, snap), KeysOf(snap.kvs), snap.header, order, id);
  }

  lemma ResyncMaxRev(c: Copy, snap: Snapshot, order: seq<NodeId>)
    requires Keyed(c.nodes) && GoodSnapshot(snap)
    ensures Distrust(c, snap.header).maxRev <= Resync(c, snap, order).maxRev <= snap.header
    ensures Keyed(Resync(c, snap, order).nodes)
  {
    var c0 := Distrust(c, snap.header);
    ApplyAllMaxRev(c0, snap.kvs, snap.header);
    ApplyAllKeyed(c0, snap.kvs);
    DropStaleAt(Merged(c, snap), KeysOf(snap.kvs), snap.header, order, 0);
  }

  // ---- When a resync makes the copy equal to the snapshot ----

  /** Nothing the copy remembers stops this key of the snapshot from being taken over. */
  predicate Taken(c: Copy, kv: KeyValue) {
    !IsOld(c, kv.key, kv.rev) || Lookup(c.nodes, kv.key.id) == (if kv.value.Decoded? then Some(kv.value.entry) else None)
  }

  lemma ResyncTakes(c: Copy, snap: Snapshot, order: seq<NodeId>, i: nat)
    requires Keyed(c.nodes) && GoodSnapshot(snap) && i < |snap.kvs|
    ensures GoodKeyValue(snap.kvs[i])
    ensures Lookup(Resync(c, snap, order).nodes, snap.kvs[i].key.id) == Some(snap.kvs[i].value.entry)
            <==> snap.header < c.maxRev || Taken(c, snap.kvs[i])
  {
    ResyncPresent(c, snap, order, i);
  }

  lemma ResyncDrops(c: Copy, snap: Snapshot, order: seq<NodeId>, id: NodeId)
    requires Keyed(c.nodes) && GoodSnapshot(snap)
    requires Covers(order, Merged(c, snap).nodes)
    requires id !in Contents(snap.kvs)
    ensures id !in Resync(c, snap, order).nodes
  {
    forall i | 0 <= i < |snap.kvs| ensures snap.kvs[i].key != Key(id) {
      assert snap.kvs[i].key.id in Contents(snap.kvs);
    }
    ResyncAbsent(c, snap, order, id);
  }

  /** Every remembered version lets the snapshot through. */
  predicate AllTaken(c: Copy, snap: Snapshot) {
    forall i :: 0 <= i < |snap.kvs| ==> Taken(c, snap.kvs[i])
  }

  lemma ResyncLookup(c: Copy, snap: Snapshot, order: seq<NodeId>, id: NodeId)
    requires Keyed(c.nodes) && GoodSnapshot(snap)
    requires Covers(order, Merged(c, snap).nodes)
    requires snap.header < c.maxRev || AllTaken(c, snap)
    ensures Lookup(Resync(c, snap, order).nodes, id) == Lookup(Contents(snap.kvs), id)
  {
    if id in Contents(snap.kvs) {
      var i :| 0 <= i < |snap.kvs| && snap.kvs[i].key.id == id && Contents(snap.kvs)[id] == snap.kvs[i].value.entry;
      ResyncTakes(c, snap, order, i);
    } else {
      ResyncDrops(c, snap, order, id);
    }
  }

  /** After a resync the copy is the snapshot if and only if either the snapshot is older than
      something already seen, or no remembered version hides an entry of the snapshot. */
  lemma ResyncExact(c: Copy, snap: Snapshot, order: seq<NodeId>)
    requires Keyed(c.nodes) && GoodSnapshot(snap)
    requires Covers(order, Merged(c, snap).nodes)
    ensures Resync(c, snap, order).nodes == Contents(snap.kvs)
            <==> snap.header < c.maxRev || AllTaken(c, snap)
  {
    var got, want := Resync(c, snap, order).nodes, Contents(snap.kvs);
    if snap.header < c.maxRev || AllTaken(c, snap) {
      forall id ensures Lookup(got, id) == Lookup(want, id) { ResyncLookup(c, snap, order, id); }
      SameLookups(got, want);
    } else {
      var i :| 0 <= i < |snap.kvs| && !Taken(c, snap.kvs[i]);
      ResyncTakes(c, snap, order, i);
      assert snap.kvs[i].key.id in want && want[snap.kvs[i].key.id] == snap.kvs[i].value.entry;
    }
  }

  lemma SameLookups<K, V>(m: map<K, V>, m': map<K, V>)
    requires forall k :: Lookup(m, k) == Lookup(m', k)
    ensures m == m'
  {
    forall k ensures k in m <==> k in m' { assert Lookup(m, k) == Lookup(m', k); }
    forall k | k in m ensures m[k] == m'[k] { assert Lookup(m, k) == Lookup(m', k); }
  }

  /** Recovery from a restored backup: whatever the copy held, the snapshot replaces it. */
  lemma RollbackRecovery(c: Copy, snap: Snapshot, order: seq<NodeId>)
    requires Keyed(c.nodes) && GoodSnapshot(snap)
    requires Covers(order, Merged(c, snap).nodes)
    requires snap.header < c.maxRev
    ensures Resync(c, snap, order).nodes == Contents(snap.kvs)
    ensures Resync(c, snap, order).maxRev == snap.header
  {
    ResyncExact(c, snap, order);
    ResyncMaxRev(c, snap, order);
  }

  // ---- A second resync changes nothing ----

  lemma {:induction false} ApplyAllOld(c: Copy, kvs: seq<KeyValue>)
    requires forall i :: 0 <= i < |kvs| ==> IsOld(c, kvs[i].key, kvs[i].rev) && kvs[i].rev <= c.maxRev
    ensures ApplyAll(c, kvs) == c
    decreases |kvs|
  {
    if kvs != [] {
      assert IsOld(c, kvs[|kvs| - 1].key, kvs[|kvs| - 1].rev);
      ApplyAllOld(c, kvs[..|kvs| - 1]);
    }
  }

  lemma {:induction false} ApplyAllReaches(c: Copy, kvs: seq<KeyValue>, i: nat)
    requires i < |kvs|
    ensures kvs[i].rev <= ApplyAll(c, kvs).maxRev
    decreases |kvs|
  {
    var n := |kvs| - 1;
    if i < n {
      assert kvs[..n][i] == kvs[i];
      ApplyAllReaches(c, kvs[..n], i);
    }
  }

  lemma {:induction false} DropNothing(c: Copy, keep: set<Key>, header: int, order: seq<NodeId>)
    requires forall id :: id in c.nodes ==> KeyOf(c.nodes[id]) in keep
    ensures DropStale(c, keep, header, order) == c
    decreases |order|
  {
    if order != [] { DropNothing(c, keep, header, order[..|order| - 1]); }
  }

  /** Repeating a resync while etcd does not change alters nothing and tells nobody anything. */
  lemma ResyncIdempotent(c: Copy, snap: Snapshot, order: seq<NodeId>, again: seq<NodeId>)
    requires Keyed(c.nodes) && GoodSnapshot(snap)
    requires Covers(order, Merged(c, snap).nodes)
    ensures var c' := Resync(c, snap, order); Resync(c', snap, again) == c'
  {
    var c' := Resync(c, snap, order);
    ResyncMaxRev(c, snap, order);
    forall i | 0 <= i < |snap.kvs|
      ensures IsOld(c', snap.kvs[i].key, snap.kvs[i].rev) && snap.kvs[i].rev <= c'.maxRev
    {
      ResyncPresent(c, snap, order, i);
      ApplyAllReaches(Distrust(c, snap.header), snap.kvs, i);
      ApplyAllKeyed(Distrust(c, snap.header), snap.kvs);
      DropStaleAt(Merged(c, snap), KeysOf(snap.kvs), snap.header, order, 0);
    }
    ApplyAllOld(c', snap.kvs);
    forall id | id in c'.nodes ensures KeyOf(c'.nodes[id]) in KeysOf(snap.kvs) {
      if Key(id) !in KeysOf(snap.kvs) { ResyncAbsent(c, snap, order, id); }
    }
    DropNothing(c', KeysOf(snap.kvs), snap.header, again);
  }
}
