/** The registry copy beside etcd: commits, an ordered but delayed watch stream, watch
    re-creations and full resyncs, in every order they can happen. */
module EtcdRuns {
  import opened Entries
  import opened Replica

  /** The state of a key once every event up to revision `r` has happened. */
  function At(h: seq<Event>, k: Key, r: int): Option<KeyValue>
    decreases |h|
  {
    if h == [] then None
    else
      var e := h[|h| - 1];
      if e.key == k && e.rev <= r then Effect(e) else At(h[..|h| - 1], k, r)
  }

  function Effect(e: Event): Option<KeyValue> {
    if e.Put? then Some(KeyValue(e.key, e.rev, e.value)) else None
  }

  function EntryOf(kv: Option<KeyValue>): Option<NodeEntry> {
    if kv.Some? && kv.value.value.Decoded? then Some(kv.value.value.entry) else None
  }

  function EntryAt(h: seq<Event>, k: Key, r: int): Option<NodeEntry> {
    EntryOf(At(h, k, r))
  }

  predicate GoodEvent(e: Event) {
    match e
    case Put(k, _, v) => v.Decoded? && KeyOf(v.entry) == k
    case Delete(k, _, v) => v.Decoded? && KeyOf(v.entry) == k
  }

  /** What etcd guarantees of the events under the prefix: revisions never go down, one key's
      revisions go up, and a deletion carries the value it deletes. One revision may hold
      events of several keys. */
  predicate GoodHistory(h: seq<Event>, rev: int) {
    && (forall i :: 0 <= i < |h| ==> GoodEvent(h[i]) && h[i].rev <= rev)
    && (forall i, j :: 0 <= i < j < |h| ==> h[i].rev <= h[j].rev)
    && (forall i, j :: 0 <= i < j < |h| && h[i].key == h[j].key ==> h[i].rev < h[j].rev)
    && (forall i :: 0 <= i < |h| && h[i].Delete? ==> EntryAt(h[..i], h[i].key, h[i].rev) == Some(h[i].prev.entry))
  }

  /** A full read at revision `rev`: every key that exists, once, in some order. */
  ghost predicate IsRead(h: seq<Event>, rev: int, kvs: seq<KeyValue>) {
    && DistinctKeys(kvs)
    && (forall i :: 0 <= i < |kvs| ==> At(h, kvs[i].key, rev) == Some(kvs[i]))
    && (forall k :: At(h, k, rev).Some? ==> k in KeysOf(kvs))
  }

  /** `cursor` counts the events the current watch has handed over; the rest is still queued.
      `synced` says that a resync has succeeded since the watch was created. */
  datatype System = System(history: seq<Event>, rev: int, cursor: nat, synced: bool, copy: Copy)

  datatype Step =
    | Commit(events: seq<Event>)                          // one etcd transaction, perhaps on other keys only
    | Deliver                                             // the watch hands over its next event
    | Rewatch                                             // the watch is created anew, from now on
    | Sync(kvs: seq<KeyValue>, order: seq<NodeId>)        // a read and the merge, under the lock

  ghost predicate Enabled(s: System, step: Step) {
    match step
    case Commit(events) =>
      && (forall i :: 0 <= i < |events| ==> events[i].rev == s.rev + 1)
      && GoodHistory(s.history + events, s.rev + 1)
    case Deliver => s.cursor < |s.history|
    case Rewatch => true
    case Sync(kvs, order) =>
      && IsRead(s.history, s.rev, kvs)
      && Covers(order, Merged(s.copy, Snapshot(s.rev, kvs)).nodes)
  }

  ghost function Next(s: System, step: Step): System
    requires Enabled(s, step)
  {
    match step
    case Commit(events) => s.(history := s.history + events, rev := s.rev + 1)
    case Deliver => s.(cursor := s.cursor + 1, copy := Apply(s.copy, s.history[s.cursor]))
    case Rewatch => s.(cursor := |s.history|, synced := false)
    case Sync(kvs, order) => s.(synced := true, copy := Resync(s.copy, Snapshot(s.rev, kvs), order))
  }

  ghost predicate Possible(s: System, steps: seq<Step>)
    decreases |steps|
  {
    steps == [] || (Enabled(s, steps[0]) && Possible(Next(s, steps[0]), steps[1..]))
  }

  ghost function Run(s: System, steps: seq<Step>): System
    requires Possible(s, steps)
    decreases |steps|
  {
    if steps == [] then s else Run(Next(s, steps[0]), steps[1..])
  }

  /** A registry that starts beside an etcd with any content. */
  predicate Init(s: System) {
    GoodHistory(s.history, s.rev) && 0 <= s.rev && s.cursor == |s.history| && !s.synced && s.copy == FRESH
  }

  // ---- Facts about histories ----

  lemma {:induction false} AtAppend(h: seq<Event>, more: seq<Event>, k: Key, r: int)
    requires forall i :: 0 <= i < |more| ==> more[i].rev > r
    ensures At(h + more, k, r) == At(h, k, r)
    decreases |more|
  {
    if more == [] {
      assert h + more == h;
    } else {
      var n := |more| - 1;
      assert (h + more)[..|h| + n] == h + more[..n];
      assert (h + more)[|h| + n] == more[n];
      AtAppend(h, more[..n], k, r);
    }
  }

  lemma {:induction false} AtStable(h: seq<Event>, k: Key, r: int, r': int)
    requires r <= r'
    requires forall i :: 0 <= i < |h| && h[i].key == k && h[i].rev <= r' ==> h[i].rev <= r
    ensures At(h, k, r) == At(h, k, r')
    decreases |h|
  {
    if h != [] {
      var n := |h| - 1;
      assert h[n].key == k && h[n].rev <= r' ==> h[n].rev <= r;
      forall i | 0 <= i < |h[..n]| && h[..n][i].key == k && h[..n][i].rev <= r' ensures h[..n][i].rev <= r {
        assert h[i].rev <= r;
      }
      AtStable(h[..n], k, r, r');
    }
  }

  lemma {:induction false} AtEvent(h: seq<Event>, i: nat)
    requires i < |h|
    requires forall a, b :: 0 <= a < b < |h| && h[a].key == h[b].key ==> h[a].rev < h[b].rev
    ensures At(h, h[i].key, h[i].rev) == Effect(h[i])
    decreases |h|
  {
    var n := |h| - 1;
    if i < n {
      assert h[n].key == h[i].key ==> h[i].rev < h[n].rev;
      assert h[..n][i] == h[i];
      AtEvent(h[..n], i);
    }
  }

  /** The state of a key comes from an event, and no later event up to `r` touches the key. */
  lemma {:induction false} AtLatest(h: seq<Event>, k: Key, r: int) returns (i: nat)
    requires At(h, k, r).Some?
    requires forall a, b :: 0 <= a < b < |h| && h[a].key == h[b].key ==> h[a].rev < h[b].rev
    ensures i < |h| && h[i].Put? && h[i].rev <= r && At(h, k, r) == Some(KeyValue(k, h[i].rev, h[i].value)) && h[i].key == k
    ensures forall j :: 0 <= j < |h| && h[j].key == k && h[j].rev <= r ==> h[j].rev <= h[i].rev
    decreases |h|
  {
    var n := |h| - 1;
    if h[n].key == k && h[n].rev <= r {
      i := n;
    } else {
      i := AtLatest(h[..n], k, r);
      forall j | 0 <= j < |h| && h[j].key == k && h[j].rev <= r ensures h[j].rev <= h[i].rev {
        if j < n { assert h[..n][j] == h[j]; }
      }
    }
  }

  // ---- The invariant ----

  /** For every key with a version, the copy holds what etcd held at that revision. */
  predicate Faithful(h: seq<Event>, rev: int, c: Copy) {
    && Keyed(c.nodes)
    && c.maxRev <= rev
    && (forall k :: k in c.versions ==> c.versions[k] <= rev && Lookup(c.nodes, k.id) == EntryAt(h, k, c.versions[k]))
    && (forall id :: id in c.nodes ==> Key(id) in c.versions)
  }

  predicate Queued(h: seq<Event>, cursor: nat, k: Key) {
    exists i :: cursor <= i < |h| && h[i].key == k
  }

  predicate Agrees(h: seq<Event>, rev: int, c: Copy, k: Key) {
    Lookup(c.nodes, k.id) == EntryAt(h, k, rev)
  }

  /** Each key agrees with etcd or has its last event still queued. */
  ghost predicate CatchingUp(s: System) {
    forall k :: Agrees(s.history, s.rev, s.copy, k) || Queued(s.history, s.cursor, k)
  }

  ghost predicate Inv(s: System) {
    && GoodHistory(s.history, s.rev)
    && s.cursor <= |s.history|
    && Faithful(s.history, s.rev, s.copy)
    && (s.synced ==> CatchingUp(s))
  }

  lemma FaithfulAppend(h: seq<Event>, rev: int, c: Copy, more: seq<Event>)
    requires Faithful(h, rev, c)
    requires forall i :: 0 <= i < |more| ==> more[i].rev == rev + 1
    ensures Faithful(h + more, rev + 1, c)
  {
    forall k | k in c.versions ensures EntryAt(h + more, k, c.versions[k]) == EntryAt(h, k, c.versions[k]) {
      AtAppend(h, more, k, c.versions[k]);
    }
  }

  lemma CommitKeeps(s: System, events: seq<Event>)
    requires Inv(s) && Enabled(s, Commit(events))
    ensures Inv(Next(s, Commit(events)))
  {
    var s' := Next(s, Commit(events));
    FaithfulAppend(s.history, s.rev, s.copy, events);
    if s.synced {
      forall k ensures Agrees(s'.history, s'.rev, s'.copy, k) || Queued(s'.history, s'.cursor, k) {
        if Queued(s.history, s.cursor, k) {
          var i :| s.cursor <= i < |s.history| && s.history[i].key == k;
          assert s'.history[i].key == k;
        } else if !Queued(s'.history, s'.cursor, k) {
          assert forall j :: s'.cursor <= j < |s'.history| ==> s'.history[j].key != k;
          forall j | 0 <= j < |s'.history| && s'.history[j].key == k ensures s'.history[j].rev <= s.rev {
            assert s'.history[j] == s.history[j];
          }
          AtStable(s'.history, k, s.rev, s'.rev);
          AtAppend(s.history, events, k, s.rev);
        }
      }
    }
  }

  lemma ApplyEventFaithful(h: seq<Event>, rev: int, c: Copy, i: nat)
    requires GoodHistory(h, rev) && Faithful(h, rev, c) && i < |h|
    ensures Faithful(h, rev, Apply(c, h[i]))
  {
    var e := h[i];
    assert GoodEvent(e);
    AtEvent(h, i);
    var c' := Apply(c, e);
    if !IsOld(c, e.key, e.rev) {
      forall k | k in c'.versions ensures c'.versions[k] <= rev && Lookup(c'.nodes, k.id) == EntryAt(h, k, c'.versions[k]) {
        if k != e.key { assert k.id != e.key.id; }
      }
    }
  }

  /** Once the last event of a key is handed over, the copy agrees with etcd on that key. */
  lemma LastEventAgrees(h: seq<Event>, rev: int, c: Copy, i: nat)
    requires GoodHistory(h, rev) && Faithful(h, rev, c) && i < |h|
    requires forall j :: i < j < |h| ==> h[j].key != h[i].key
    ensures Agrees(h, rev, Apply(c, h[i]), h[i].key)
  {
    ApplyEventFaithful(h, rev, c, i);
    var k, v := h[i].key, Apply(c, h[i]).versions[h[i].key];
    forall j | 0 <= j < |h| && h[j].key == k ensures h[j].rev <= v {
      assert j <= i;
    }
    AtStable(h, k, v, rev);
  }

  lemma DeliverKeeps(s: System)
    requires Inv(s) && Enabled(s, Deliver)
    ensures Inv(Next(s, Deliver))
  {
    var s' := Next(s, Deliver);
    var h, i := s.history, s.cursor;
    ApplyEventFaithful(h, s.rev, s.copy, i);
    if s.synced {
      forall k ensures Agrees(h, s.rev, s'.copy, k) || Queued(h, s'.cursor, k) {
        if k == h[i].key {
          if !Queued(h, s'.cursor, k) {
            LastEventAgrees(h, s.rev, s.copy, i);
          }
        } else {
          assert GoodEvent(h[i]) && k.id != h[i].key.id;
          assert Agrees(h, s.rev, s.copy, k) || Queued(h, s.cursor, k);
        }
      }
    }
  }

  lemma ReadIsGood(h: seq<Event>, rev: int, kvs: seq<KeyValue>)
    requires GoodHistory(h, rev) && IsRead(h, rev, kvs)
    ensures GoodSnapshot(Snapshot(rev, kvs))
  {
    forall i | 0 <= i < |kvs| ensures GoodKeyValue(kvs[i]) && kvs[i].rev <= rev {
      var j := AtLatest(h, kvs[i].key, rev);
      assert GoodEvent(h[j]);
    }
  }

  lemma ReadHasEntry(h: seq<Event>, rev: int, kvs: seq<KeyValue>, k: Key)
    requires GoodHistory(h, rev) && IsRead(h, rev, kvs)
    ensures k in KeysOf(kvs) ==> EntryAt(h, k, rev).Some?
  {
    ReadIsGood(h, rev, kvs);
    if k in KeysOf(kvs) {
      var i :| 0 <= i < |kvs| && kvs[i].key == k;
      assert GoodKeyValue(kvs[i]);
    }
  }

  /** A resync gives a faithful copy that agrees with etcd on every key, both from a faithful
      copy and, when the read shows an older revision, from any copy at all. */
  lemma SyncFaithful(h: seq<Event>, rev: int, c: Copy, kvs: seq<KeyValue>, order: seq<NodeId>)
    requires GoodHistory(h, rev) && IsRead(h, rev, kvs)
    requires Faithful(h, rev, c) || (Keyed(c.nodes) && rev < c.maxRev)
    requires Covers(order, Merged(c, Snapshot(rev, kvs)).nodes)
    ensures Faithful(h, rev, Resync(c, Snapshot(rev, kvs), order))
    ensures forall k :: Agrees(h, rev, Resync(c, Snapshot(rev, kvs), order), k)
  {
    var snap := Snapshot(rev, kvs);
    var c' := Resync(c, snap, order);
    ReadIsGood(h, rev, kvs);
    ResyncMaxRev(c, snap, order);
    forall k
      ensures Agrees(h, rev, c', k)
      ensures k in c'.versions ==> c'.versions[k] <= rev && Lookup(c'.nodes, k.id) == EntryAt(h, k, c'.versions[k])
      ensures k.id in c'.nodes ==> k in c'.versions
    {
      SyncKey(h, rev, c, kvs, order, k);
    }
    forall id | id in c'.nodes ensures Key(id) in c'.versions {
      assert Key(id).id in c'.nodes;
    }
  }

  lemma SyncKey(h: seq<Event>, rev: int, c: Copy, kvs: seq<KeyValue>, order: seq<NodeId>, k: Key)
    requires GoodHistory(h, rev) && IsRead(h, rev, kvs)
    requires Faithful(h, rev, c) || (Keyed(c.nodes) && rev < c.maxRev)
    requires Covers(order, Merged(c, Snapshot(rev, kvs)).nodes)
    ensures var c' := Resync(c, Snapshot(rev, kvs), order);
            && Agrees(h, rev, c', k)
            && (k in c'.versions ==> c'.versions[k] <= rev && Lookup(c'.nodes, k.id) == EntryAt(h, k, c'.versions[k]))
            && (k.id in c'.nodes ==> k in c'.versions)
  {
    var snap := Snapshot(rev, kvs);
    ReadIsGood(h, rev, kvs);
    if k in KeysOf(kvs) {
      var i :| 0 <= i < |kvs| && kvs[i].key == k;
      ResyncPresent(c, snap, order, i);
      var j := AtLatest(h, k, rev);
      var c' := Resync(c, snap, order);
      assert kvs[i].rev == h[j].rev;
      AtStable(h, k, c'.versions[k], rev);
      assert GoodKeyValue(kvs[i]);
    } else {
      ResyncAbsent(c, snap, order, k.id);
      assert k == Key(k.id);
      assert At(h, k, rev).None?;
    }
  }

  lemma SyncKeeps(s: System, kvs: seq<KeyValue>, order: seq<NodeId>)
    requires Inv(s) && Enabled(s, Sync(kvs, order))
    ensures Inv(Next(s, Sync(kvs, order)))
  {
    SyncFaithful(s.history, s.rev, s.copy, kvs, order);
  }

  lemma StepKeeps(s: System, step: Step)
    requires Inv(s) && Enabled(s, step)
    ensures Inv(Next(s, step))
  {
    match step
    case Commit(events) => CommitKeeps(s, events);
    case Deliver => DeliverKeeps(s);
    case Rewatch =>
    case Sync(kvs, order) => SyncKeeps(s, kvs, order);
  }

  lemma {:induction false} RunKeeps(s: System, steps: seq<Step>)
    requires Inv(s) && Possible(s, steps)
    ensures Inv(Run(s, steps))
    decreases |steps|
  {
    if steps != [] {
      StepKeeps(s, steps[0]);
      RunKeeps(Next(s, steps[0]), steps[1..]);
    }
  }

  // ---- Main results ----

  /** What etcd holds now, as a plain map: independent of everything the registry does. */
  ghost predicate IsContent(s: System, nodes: map<NodeId, NodeEntry>) {
    forall id :: Lookup(nodes, id) == EntryAt(s.history, Key(id), s.rev)
  }

  /** In every run from a fresh registry, once a resync has succeeded since the watch was
      created and the queue is empty, the copy is what etcd holds. */
  lemma Convergence(s: System, steps: seq<Step>)
    requires Init(s) && Possible(s, steps)
    ensures var t := Run(s, steps); t.synced && t.cursor == |t.history| ==> IsContent(t, t.copy.nodes)
  {
    RunKeeps(s, steps);
    var t := Run(s, steps);
    if t.synced && t.cursor == |t.history| {
      forall id ensures Lookup(t.copy.nodes, id) == EntryAt(t.history, Key(id), t.rev) {
        assert Agrees(t.history, t.rev, t.copy, Key(id)) || Queued(t.history, t.cursor, Key(id));
      }
    }
  }

  predicate VersionsGrow(c: Copy, c': Copy) {
    forall k :: k in c.versions ==> k in c'.versions && c.versions[k] <= c'.versions[k]
  }

  lemma StepVersionsGrow(s: System, step: Step)
    requires Inv(s) && Enabled(s, step)
    ensures VersionsGrow(s.copy, Next(s, step).copy)
  {
    if step.Sync? {
      var snap := Snapshot(s.rev, step.kvs);
      ReadIsGood(s.history, s.rev, step.kvs);
      forall k | k in s.copy.versions
        ensures k in Next(s, step).copy.versions && s.copy.versions[k] <= Next(s, step).copy.versions[k]
      {
        if k in KeysOf(step.kvs) {
          var i :| 0 <= i < |step.kvs| && step.kvs[i].key == k;
          ResyncPresent(s.copy, snap, step.order, i);
        } else {
          assert k == Key(k.id);
          ResyncAbsent(s.copy, snap, step.order, k.id);
        }
      }
    }
  }

  /** No key ever goes back: its version never decreases, and the copy holds what etcd held
      at that version. */
  lemma {:induction false} NoGoingBack(s: System, steps: seq<Step>)
    requires Inv(s) && Possible(s, steps)
    ensures var t := Run(s, steps);
            && VersionsGrow(s.copy, t.copy)
            && forall k :: k in t.copy.versions ==> Lookup(t.copy.nodes, k.id) == EntryAt(t.history, k, t.copy.versions[k])
    decreases |steps|
  {
    if steps != [] {
      StepKeeps(s, steps[0]);
      StepVersionsGrow(s, steps[0]);
      NoGoingBack(Next(s, steps[0]), steps[1..]);
    }
  }

  /** A node that a resync removed as stale is not brought back by any event that is not newer
      than that resync's snapshot, however long the event stayed queued. */
  lemma StaleStaysGone(s: System, sync: Step, steps: seq<Step>, ev: Event)
    requires Inv(s) && sync.Sync? && Enabled(s, sync) && Possible(Next(s, sync), steps)
    requires ev.key.id in s.copy.nodes && ev.key.id !in Next(s, sync).copy.nodes
    requires ev.rev <= s.rev
    ensures var t := Run(Next(s, sync), steps);
            && Apply(t.copy, ev).nodes == t.copy.nodes
            && Apply(t.copy, ev).notices == t.copy.notices
  {
    var s1 := Next(s, sync);
    StepKeeps(s, sync);
    NoGoingBack(s1, steps);
    var k := ev.key;
    SyncFaithful(s.history, s.rev, s.copy, sync.kvs, sync.order);
    assert Agrees(s.history, s.rev, s1.copy, k);
    ReadIsGood(s.history, s.rev, sync.kvs);
    ReadHasEntry(s.history, s.rev, sync.kvs, k);
    assert k == Key(k.id);
    ResyncAbsent(s.copy, Snapshot(s.rev, sync.kvs), sync.order, k.id);
  }

  /** After etcd was restored from a backup, a resync that reads an older revision than the
      registry has seen starts a run that converges like a fresh one, whatever the copy held. */
  lemma RollbackConvergence(s: System, kvs: seq<KeyValue>, order: seq<NodeId>, steps: seq<Step>)
    requires GoodHistory(s.history, s.rev) && s.cursor <= |s.history| && Keyed(s.copy.nodes)
    requires s.rev < s.copy.maxRev
    requires Enabled(s, Sync(kvs, order)) && Possible(Next(s, Sync(kvs, order)), steps)
    ensures var t := Run(Next(s, Sync(kvs, order)), steps);
            t.synced && t.cursor == |t.history| ==> IsContent(t, t.copy.nodes)
  {
    SyncFaithful(s.history, s.rev, s.copy, kvs, order);
    var s1 := Next(s, Sync(kvs, order));
    RunKeeps(s1, steps);
    var t := Run(s1, steps);
    if t.synced && t.cursor == |t.history| {
      forall id ensures Lookup(t.copy.nodes, id) == EntryAt(t.history, Key(id), t.rev) {
        assert Agrees(t.history, t.rev, t.copy, Key(id)) || Queued(t.history, t.cursor, Key(id));
      }
    }
  }

  // ---- Events from before the restore that are still buffered ----

  function ApplyEvents(c: Copy, events: seq<Event>): Copy
    decreases |events|
  {
    if events == [] then c else Apply(ApplyEvents(c, events[..|events| - 1]), events[|events| - 1])
  }

  lemma {:induction false} ApplyEventsAny(c: Copy, events: seq<Event>)
    requires Keyed(c.nodes)
    ensures var c' := ApplyEvents(c, events);
            && Keyed(c'.nodes) && c.maxRev <= c'.maxRev
            && forall i :: 0 <= i < |events| ==> events[i].rev <= c'.maxRev
    decreases |events|
  {
    if events != [] {
      var n := |events| - 1;
      ApplyEventsAny(c, events[..n]);
      forall i | 0 <= i < |events| ensures events[i].rev <= ApplyEvents(c, events).maxRev {
        if i < n { assert events[..n][i] == events[i]; }
      }
    }
  }

  /** Whatever events of the old history are still handed over after a restore, the next resync
      starts a run that converges, if one of them or the copy before them is newer than etcd. */
  lemma {:induction false} StrayRecovery(s: System, strays: seq<Event>, s': System, kvs: seq<KeyValue>, order: seq<NodeId>, steps: seq<Step>)
    requires GoodHistory(s.history, s.rev) && s.cursor <= |s.history| && Keyed(s.copy.nodes)
    requires s.rev < s.copy.maxRev || exists i :: 0 <= i < |strays| && s.rev < strays[i].rev
    requires s' == s.(copy := ApplyEvents(s.copy, strays))
    requires Enabled(s', Sync(kvs, order)) && Possible(Next(s', Sync(kvs, order)), steps)
    ensures var t := Run(Next(s', Sync(kvs, order)), steps);
            t.synced && t.cursor == |t.history| ==> IsContent(t, t.copy.nodes)
  {
    ApplyEventsAny(s.copy, strays);
    RollbackConvergence(s', kvs, order, steps);
  }

  /** A stray event does no lasting harm: it is skipped as old, etcd has no such key, etcd's entry is
      newer than the event, or the event brings that very entry. */
  predicate Harmless(h: seq<Event>, rev: int, c: Copy, ev: Event) {
    || IsOld(c, ev.key, ev.rev)
    || At(h, ev.key, rev).None?
    || At(h, ev.key, rev).value.rev > ev.rev
    || (ev.Put? && EntryAt(h, ev.key, rev) == EntryOf(Effect(ev)))
  }

  /** After a restore has been detected and one stray event is handed over, the next resync restores
      the copy if and only if the event is newer than etcd or does no lasting harm. */
  lemma StrayExact(h: seq<Event>, rev: int, c: Copy, ev: Event, kvs: seq<KeyValue>, order: seq<NodeId>)
    requires GoodHistory(h, rev) && Faithful(h, rev, c) && (forall k :: Agrees(h, rev, c, k))
    requires GoodEvent(ev) && IsRead(h, rev, kvs)
    requires Covers(order, Merged(Apply(c, ev), Snapshot(rev, kvs)).nodes)
    ensures GoodSnapshot(Snapshot(rev, kvs))
    ensures Resync(Apply(c, ev), Snapshot(rev, kvs), order).nodes == Contents(kvs) <==> rev < ev.rev || Harmless(h, rev, c, ev)
  {
    var c', snap := Apply(c, ev), Snapshot(rev, kvs);
    ReadIsGood(h, rev, kvs);
    assert Keyed(c'.nodes);
    ResyncExact(c', snap, order);
    forall i | 0 <= i < |kvs| ensures Taken(c', kvs[i]) <==> kvs[i].key != ev.key || Harmless(h, rev, c, ev) {
      StrayTaken(h, rev, c, ev, kvs, i);
    }
    if At(h, ev.key, rev).Some? {
      var i :| 0 <= i < |kvs| && kvs[i].key == ev.key;
    }
  }

  lemma StrayTaken(h: seq<Event>, rev: int, c: Copy, ev: Event, kvs: seq<KeyValue>, i: nat)
    requires GoodHistory(h, rev) && Faithful(h, rev, c) && (forall k :: Agrees(h, rev, c, k))
    requires GoodEvent(ev) && IsRead(h, rev, kvs) && i < |kvs|
    ensures Taken(Apply(c, ev), kvs[i]) <==> kvs[i].key != ev.key || Harmless(h, rev, c, ev)
  {
    ReadIsGood(h, rev, kvs);
    assert GoodKeyValue(kvs[i]);
    assert Agrees(h, rev, c, kvs[i].key);
    assert kvs[i].key.id == ev.key.id ==> kvs[i].key == ev.key;
  }

  // ---- Rollbacks that the test on maxRev does not see ----

  /** A node is put at revision 1 and deleted at revision 2. */
  function PutOf(e: NodeEntry): Event { Put(KeyOf(e), 1, Decoded(e)) }

  function DeleteOf(e: NodeEntry): Event { Delete(KeyOf(e), 2, Decoded(e)) }

  /** Etcd with the node, and a registry that is about to start. */
  function Backup(e: NodeEntry): System { System([PutOf(e)], 1, 1, false, FRESH) }

  function ReadOf(e: NodeEntry): seq<KeyValue> { [KeyValue(KeyOf(e), 1, Decoded(e))] }

  /** Read the node, miss its deletion, and find it missing in the next read. */
  function MissedDelete(e: NodeEntry): seq<Step> {
    [Sync(ReadOf(e), [e.id]), Commit([DeleteOf(e)]), Sync([], [e.id])]
  }

  lemma BackupFacts(e: NodeEntry)
    ensures GoodHistory([PutOf(e)], 1) && GoodHistory([PutOf(e)] + [DeleteOf(e)], 2)
    ensures IsRead([PutOf(e)], 1, ReadOf(e)) && IsRead([PutOf(e)] + [DeleteOf(e)], 2, [])
    ensures EntryAt([PutOf(e)], KeyOf(e), 1) == Some(e)
  {
    var h, h' := [PutOf(e)], [PutOf(e)] + [DeleteOf(e)];
    assert h[..0] == [] && h'[..1] == h;
    forall k ensures At(h, k, 1) == (if k == KeyOf(e) then Some(ReadOf(e)[0]) else None) && At(h', k, 2).None? {
      assert At(h, k, 2) == At(h, k, 1);
    }
    assert At(h, KeyOf(e), 2) == Some(ReadOf(e)[0]);
    assert ReadOf(e)[0].key in KeysOf(ReadOf(e));
  }

  /** The copy after the first read, and after the second one. */
  lemma MissedDeleteCopy(e: NodeEntry)
    ensures Resync(FRESH, Snapshot(1, ReadOf(e)), [e.id]) == Copy(map[KeyOf(e) := 1], 1, map[e.id := e], [Updated(e, 1)])
    ensures Resync(Copy(map[KeyOf(e) := 1], 1, map[e.id := e], [Updated(e, 1)]), Snapshot(2, []), [e.id])
            == Copy(map[KeyOf(e) := 2], 1, map[], [Updated(e, 1), Removed(e)])
    ensures Merged(FRESH, Snapshot(1, ReadOf(e))).nodes == map[e.id := e]
  {
    var c := Copy(map[KeyOf(e) := 1], 1, map[e.id := e], [Updated(e, 1)]);
    assert ReadOf(e)[..0] == [] && [e.id][..0] == [];
    assert ApplyAll(FRESH, ReadOf(e)) == Apply(FRESH, AsPut(ReadOf(e)[0])) == c;
    assert ReadOf(e)[0].key in KeysOf(ReadOf(e));
    assert DropStale(c, KeysOf(ReadOf(e)), 1, [e.id]) == DropOne(c, KeysOf(ReadOf(e)), 1, e.id) == c;
    assert KeyOf(e) !in KeysOf([]);
    assert DropStale(c, KeysOf([]), 2, [e.id]) == DropOne(c, KeysOf([]), 2, e.id);
    assert c.nodes - {e.id} == map[];
  }

  /** The registry after its first read, and etcd after the deletion. */
  function Reading(e: NodeEntry): System {
    System([PutOf(e)], 1, 1, true, Copy(map[KeyOf(e) := 1], 1, map[e.id := e], [Updated(e, 1)]))
  }

  function Deleted(e: NodeEntry): System {
    Reading(e).(history := [PutOf(e)] + [DeleteOf(e)], rev := 2)
  }

  lemma FirstRead(e: NodeEntry)
    ensures Enabled(Backup(e), MissedDelete(e)[0]) && Next(Backup(e), MissedDelete(e)[0]) == Reading(e)
  {
    BackupFacts(e);
    MissedDeleteCopy(e);
  }

  lemma Deletion(e: NodeEntry)
    ensures Enabled(Reading(e), MissedDelete(e)[1]) && Next(Reading(e), MissedDelete(e)[1]) == Deleted(e)
  {
    BackupFacts(e);
  }

  lemma SecondRead(e: NodeEntry)
    ensures Enabled(Deleted(e), MissedDelete(e)[2])
    ensures Next(Deleted(e), MissedDelete(e)[2]) ==
            Deleted(e).(copy := Copy(map[KeyOf(e) := 2], 1, map[], [Updated(e, 1), Removed(e)]))
  {
    BackupFacts(e);
    MissedDeleteCopy(e);
  }

  lemma FirstStep(s: System, a: Step, rest: seq<Step>)
    requires Enabled(s, a) && Possible(Next(s, a), rest)
    ensures Possible(s, [a] + rest) && Run(s, [a] + rest) == Run(Next(s, a), rest)
  {
    assert ([a] + rest)[1..] == rest;
  }

  lemma ThreeSteps(s: System, s1: System, s2: System, a: Step, b: Step, c: Step)
    requires Enabled(s, a) && s1 == Next(s, a) && Enabled(s1, b) && s2 == Next(s1, b) && Enabled(s2, c)
    ensures Possible(s, [a, b, c]) && Run(s, [a, b, c]) == Next(s2, c)
  {
    FirstStep(s2, c, []);
    FirstStep(s1, b, [c] + []);
    FirstStep(s, a, [b] + ([c] + []));
    assert [a] + ([b] + ([c] + [])) == [a, b, c];
  }

  /** The input on which recovery fails, for every entry: a registry misses a deletion and removes the
      node as stale, which stamps its key without raising maxRev. If etcd is then restored to the
      state before the deletion, its revision is not below maxRev, and the next resync leaves out a
      node that etcd holds. */
  lemma UndetectedRollback(e: NodeEntry)
    ensures var s, steps := Backup(e), MissedDelete(e);
            && Init(s) && Possible(s, steps)
            && var t := Run(s, steps);
               && s.history <= t.history && s.rev < t.rev
               && IsRead(s.history, s.rev, ReadOf(e))
               && t.copy.maxRev <= s.rev
               && EntryAt(s.history, KeyOf(e), s.rev) == Some(e)
               && forall order :: e.id !in Resync(t.copy, Snapshot(s.rev, ReadOf(e)), order).nodes
  {
    FirstRead(e);
    Deletion(e);
    SecondRead(e);
    var steps := MissedDelete(e);
    ThreeSteps(Backup(e), Reading(e), Deleted(e), steps[0], steps[1], steps[2]);
    BackupFacts(e);
    var c := Run(Backup(e), MissedDelete(e)).copy;
    var snap := Snapshot(1, ReadOf(e));
    ReadIsGood([PutOf(e)], 1, ReadOf(e));
    forall order ensures e.id !in Resync(c, snap, order).nodes { ResyncPresent(c, snap, order, 0); }
  }

  // ---- No update is announced twice ----

  predicate SameNodeUpdates(a: Notice, b: Notice) {
    a.Updated? && b.Updated? && a.entry.id == b.entry.id
  }

  /** Updates of one node are announced in increasing revision order, never past its version. */
  predicate Announced(c: Copy) {
    && (forall i :: 0 <= i < |c.notices| && c.notices[i].Updated? ==>
          Key(c.notices[i].entry.id) in c.versions && c.notices[i].rev <= c.versions[Key(c.notices[i].entry.id)])
    && (forall i, j :: 0 <= i < j < |c.notices| && SameNodeUpdates(c.notices[i], c.notices[j]) ==>
          c.notices[i].rev < c.notices[j].rev)
  }

  lemma ApplyAnnounced(c: Copy, e: Event)
    requires Announced(c) && GoodEvent(e)
    ensures Announced(Apply(c, e))
  {
    var c' := Apply(c, e);
    if !IsOld(c, e.key, e.rev) && e.Put? {
      var n := |c.notices|;
      assert c'.notices[n] == Updated(e.value.entry, e.rev);
      forall i | 0 <= i < n && c.notices[i].Updated? && c.notices[i].entry.id == e.key.id ensures c.notices[i].rev < e.rev {
        assert Key(c.notices[i].entry.id) == e.key;
      }
    }
  }

  lemma {:induction false} ApplyAllAnnounced(c: Copy, kvs: seq<KeyValue>)
    requires Announced(c)
    requires forall i :: 0 <= i < |kvs| ==> GoodKeyValue(kvs[i])
    ensures Announced(ApplyAll(c, kvs))
    decreases |kvs|
  {
    if kvs != [] {
      ApplyAllAnnounced(c, kvs[..|kvs| - 1]);
      assert GoodKeyValue(kvs[|kvs| - 1]);
      ApplyAnnounced(ApplyAll(c, kvs[..|kvs| - 1]), AsPut(kvs[|kvs| - 1]));
    }
  }

  predicate VersionsWithin(c: Copy, bound: int) {
    forall k :: k in c.versions ==> c.versions[k] <= bound
  }

  lemma {:induction false} ApplyAllWithin(c: Copy, kvs: seq<KeyValue>, bound: int)
    requires VersionsWithin(c, bound)
    requires forall i :: 0 <= i < |kvs| ==> kvs[i].rev <= bound
    ensures VersionsWithin(ApplyAll(c, kvs), bound)
    decreases |kvs|
  {
    if kvs != [] { ApplyAllWithin(c, kvs[..|kvs| - 1], bound); }
  }

  lemma {:induction false} DropStaleAnnounced(c: Copy, keep: set<Key>, header: int, order: seq<NodeId>)
    requires Announced(c) && VersionsWithin(c, header)
    ensures Announced(DropStale(c, keep, header, order)) && VersionsWithin(DropStale(c, keep, header, order), header)
    decreases |order|
  {
    if order != [] { DropStaleAnnounced(c, keep, header, order[..|order| - 1]); }
  }

  lemma StepAnnounced(s: System, step: Step)
    requires Inv(s) && Announced(s.copy) && Enabled(s, step)
    ensures Announced(Next(s, step).copy)
  {
    match step
    case Deliver =>
      assert GoodEvent(s.history[s.cursor]);
      ApplyAnnounced(s.copy, s.history[s.cursor]);
    case Sync(kvs, order) =>
      ReadIsGood(s.history, s.rev, kvs);
      ApplyAllAnnounced(s.copy, kvs);
      ApplyAllWithin(s.copy, kvs, s.rev);
      DropStaleAnnounced(ApplyAll(s.copy, kvs), KeysOf(kvs), s.rev, order);
    case _ =>
  }

  lemma {:induction false} RunAnnounced(s: System, steps: seq<Step>)
    requires Inv(s) && Announced(s.copy) && Possible(s, steps)
    ensures Announced(Run(s, steps).copy)
    decreases |steps|
  {
    if steps != [] {
      StepKeeps(s, steps[0]);
      StepAnnounced(s, steps[0]);
      RunAnnounced(Next(s, steps[0]), steps[1..]);
    }
  }

  /** In every run without a rollback, each (node, revision) is announced at most once. */
  lemma UpdatesAnnouncedOnce(s: System, steps: seq<Step>, i: nat, j: nat)
    requires Init(s) && Possible(s, steps)
    requires i < j < |Run(s, steps).copy.notices|
    ensures var n := Run(s, steps).copy.notices;
            SameNodeUpdates(n[i], n[j]) ==> n[i].rev != n[j].rev
  {
    RunAnnounced(s, steps);
  }

  /** In every run, also across rollbacks, replaying the notices in order gives exactly the nodes of the
      copy: a listener misses nothing and is told nothing else. */
  lemma {:induction false} NoticesTellAll(s: System, steps: seq<Step>)
    requires Told(s.copy) && Possible(s, steps)
    ensures Replay(Run(s, steps).copy.notices) == Run(s, steps).copy.nodes
    decreases |steps|
  {
    if steps != [] {
      match steps[0] {
        case Deliver => ApplyTold(s.copy, s.history[s.cursor]);
        case Sync(kvs, order) =>
          ApplyAllTold(Distrust(s.copy, s.rev), kvs);
          DropStaleTold(Merged(s.copy, Snapshot(s.rev, kvs)), KeysOf(kvs), s.rev, order);
        case _ =>
      }
      NoticesTellAll(Next(s, steps[0]), steps[1..]);
    }
  }
}
