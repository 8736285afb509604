/** The dispatching loop that the gateway and the multicast bus share, over the objects it works on:
    workers with a channel each, which their goroutines empty while the loop feeds, closes and
    forgets them. Each method is one case of the loop or one turn of a goroutine. */
module Dispatcher {
  import opened Entries
  import opened Streams

  /** Closing one more channel is one more step of closing them all. */
  lemma CloseOneMore(l: Loop, streams: set<string>, x: string)
    requires Shape(l) && x in l.workers && x !in streams
    ensures CloseAll(l, streams)[l.workers[x]] == l.pool[l.workers[x]]
    ensures CloseAll(l, streams + {x}) == CloseAll(l, streams)[l.workers[x] := Shut(l.pool[l.workers[x]])]
  {
    forall i | 0 <= i < |l.pool|
      ensures CloseAll(l, streams + {x})[i] == CloseAll(l, streams)[l.workers[x] := Shut(l.pool[l.workers[x]])][i]
    {
      assert l.pool[i].stream == x && l.workers[x] == i <==> i == l.workers[x];
    }
  }

  /** A buffered channel. To send into it or to close it once it is closed is a run-time panic. */
  class Channel {
    const capacity: int
    var items: seq<Request>
    var closed: bool

    constructor (capacity: int)
      ensures this.capacity == capacity && items == [] && !closed
    {
      this.capacity := capacity;
      items, closed := [], false;
    }

    method Send(req: Request)
      requires !closed && |items| < capacity
      modifies this
      ensures items == old(items) + [req] && !closed
    {
      items := items + [req];
    }

    method Receive() returns (req: Request)
      requires items != []
      modifies this
      ensures [req] + items == old(items) && closed == old(closed)
    {
      req, items := items[0], items[1..];
    }

    method Close()
      requires !closed
      modifies this
      ensures closed && items == old(items)
    {
      closed := true;
    }
  }

  /** A worker: its channel, the time it was last fed, and what its goroutine is handling. */
  class Handle {
    const stream: string
    const channel: Channel
    var active: Option<int>
    var busy: Option<Job>

    constructor (stream: string, capacity: int)
      ensures this.stream == stream && fresh(channel) && channel.capacity == capacity && Is(NewWorker(stream))
    {
      this.stream := stream;
      channel := new Channel(capacity);
      active, busy := None, None;
    }

    /** The object is in the state that the record describes. */
    ghost predicate Is(w: Worker)
      reads this, channel
    {
      && stream == w.stream && channel.items == w.queue && busy == w.busy && active == w.active
      && (channel.closed <==> w.closings > 0)
    }

    predicate IdleSince(now: int, idle: int)
      reads this
    {
      active.None? || now - active.value > idle
    }

    method Feed(req: Request, now: int, ghost w: Worker)
      requires Is(w) && w.closings <= 0 && |w.queue| < channel.capacity
      modifies this, channel
      ensures Is(w.(queue := w.queue + [req], active := Some(now), fed := w.fed + [req]))
    {
      channel.Send(req);
      active := Some(now);
    }

    /** The goroutine takes the next request from the channel, open or closed. */
    method Begin(now: int, ghost w: Worker)
      requires Is(w) && w.busy.None? && w.queue != []
      modifies this, channel
      ensures Is(w.(queue := w.queue[1..], busy := Some(Job(w.queue[0], now))))
    {
      var req := channel.Receive();
      assert ([req] + channel.items)[1..] == channel.items;
      busy := Some(Job(req, now));
    }

    method Finish(ghost w: Worker)
      requires Is(w) && w.busy.Some?
      modifies this
      ensures Is(w.(busy := None, done := w.done + [w.busy.value.req]))
    {
      busy := None;
    }

    method Stop(ghost w: Worker)
      requires Is(w) && w.closings == 0
      modifies channel
      ensures Is(Shut(w))
    {
      channel.Close();
    }
  }

  /** One worker is closed and, if wanted, taken out of the map. */
  function Closed(l: Loop, x: string, forget: bool): Loop
    requires Shape(l) && x in l.workers
  {
    l.(pool := l.pool[l.workers[x] := Shut(l.pool[l.workers[x]])],
       workers := if forget then l.workers - {x} else l.workers)
  }

  /** The loop's state when the workers of these streams have been dealt with. */
  function Partly(l: Loop, done: set<string>, forget: bool): Loop
    requires Shape(l)
  {
    l.(pool := CloseAll(l, done), workers := if forget then l.workers - done else l.workers)
  }

  lemma PartlyMore(l: Loop, done: set<string>, forget: bool, x: string)
    requires Shape(l) && l.holding.None? && x in l.workers && x !in done && l.pool[l.workers[x]].closings == 0
    ensures var now := Partly(l, done, forget);
            && Shape(now) && x in now.workers && now.workers[x] == l.workers[x]
            && now.pool[now.workers[x]] == l.pool[l.workers[x]]
            && Partly(l, done + {x}, forget) == Closed(now, x, forget)
  {
    CloseOneMore(l, done, x);
    assert forget ==> l.workers - (done + {x}) == l.workers - done - {x};
  }

  lemma OpenWorker(l: Loop, x: string)
    requires Sound(l) && l.running && x in l.workers
    ensures l.pool[l.workers[x]].closings == 0
  {
  }

  /** No two workers share a channel. */
  ghost predicate Apart(pool: seq<Handle>, objects: set<object>, capacity: int) {
    && (forall i :: 0 <= i < |pool| ==> pool[i] in objects && pool[i].channel in objects && pool[i].channel.capacity == capacity)
    && (forall i, j :: 0 <= i < j < |pool| ==> pool[i] != pool[j] && pool[i].channel != pool[j].channel)
  }

  /** The workers are in the recorded states. */
  ghost predicate Recorded(pool: seq<Handle>, records: seq<Worker>, objects: set<object>, capacity: int)
    requires Apart(pool, objects, capacity) && |pool| == |records|
    reads objects
  {
    forall i :: 0 <= i < |pool| ==> pool[i].Is(records[i])
  }

  /** A new worker joins the others. */
  method AddOne(stream: string, capacity: int, ghost pool: seq<Handle>, ghost records: seq<Worker>, ghost objects: set<object>)
    returns (h: Handle)
    requires Apart(pool, objects, capacity) && |pool| == |records| && Recorded(pool, records, objects, capacity)
    ensures fresh(h) && fresh(h.channel) && h.stream == stream
    ensures Apart(pool + [h], objects + {h, h.channel}, capacity)
    ensures Recorded(pool + [h], records + [NewWorker(stream)], objects + {h, h.channel}, capacity)
  {
    h := new Handle(stream, capacity);
  }

  lemma LeadsMore(workers: map<string, Handle>, places: map<string, int>, pool: seq<Handle>, stream: string, h: Handle)
    requires Leads(workers, places, pool)
    ensures Leads(workers[stream := h], places[stream := |pool|], pool + [h])
  {
  }

  lemma LeadsLess(workers: map<string, Handle>, places: map<string, int>, pool: seq<Handle>, stream: string)
    requires Leads(workers, places, pool)
    ensures Leads(workers - {stream}, places - {stream}, pool)
  {
  }

  /** Feeding or stopping one worker leaves all others as they were. */
  method FeedOne(h: Handle, req: Request, now: int,
                 ghost pool: seq<Handle>, ghost records: seq<Worker>, ghost objects: set<object>, ghost capacity: int, ghost i: int)
    requires Apart(pool, objects, capacity) && |pool| == |records| && Recorded(pool, records, objects, capacity)
    requires 0 <= i < |pool| && pool[i] == h && records[i].closings == 0 && |records[i].queue| < capacity
    modifies h, h.channel
    ensures var w := records[i];
            Recorded(pool, records[i := w.(queue := w.queue + [req], active := Some(now), fed := w.fed + [req])], objects, capacity)
  {
    h.Feed(req, now, records[i]);
  }

  method StopOne(h: Handle,
                 ghost pool: seq<Handle>, ghost records: seq<Worker>, ghost objects: set<object>, ghost capacity: int, ghost i: int)
    requires Apart(pool, objects, capacity) && |pool| == |records| && Recorded(pool, records, objects, capacity)
    requires 0 <= i < |pool| && pool[i] == h && records[i].closings == 0
    modifies h.channel
    ensures Recorded(pool, records[i := Shut(records[i])], objects, capacity)
  {
    h.Stop(records[i]);
  }

  /** The map leads to the workers it should. */
  ghost predicate Leads(workers: map<string, Handle>, places: map<string, int>, pool: seq<Handle>) {
    && workers.Keys == places.Keys
    && forall x :: x in workers ==> 0 <= places[x] < |pool| && workers[x] == pool[places[x]]
  }

  lemma NoneVisited(all: set<string>, todo: set<string>)
    requires all <= todo
    ensures all - todo == {} && all - {} == all
  {
  }

  lemma OneVisited(all: set<string>, todo: set<string>, x: string)
    requires x in todo
    ensures all - (todo - {x}) == if x in all then (all - todo) + {x} else all - todo
  {
  }

  class Dispatcher {
    const limits: Limits
    var now: int
    var running: bool
    var workers: map<string, Handle>
    var holding: Option<Request>
    /** All workers ever created, and the run's record of them. */
    ghost var pool: seq<Handle>
    ghost var view: Loop
    ghost var objects: set<object>

    ghost predicate Mapped()
      reads this
    {
      && |pool| == |view.pool| && Apart(pool, objects, limits.capacity) && Leads(workers, view.workers, pool)
      && now == view.now && running == view.running && holding == view.holding
    }

    ghost predicate Tied()
      reads this, objects
    {
      Mapped() && this !in objects && Recorded(pool, view.pool, objects, limits.capacity)
    }

    ghost predicate Valid()
      reads this, objects
    {
      Tied() && Sound(view)
    }

    constructor (limits: Limits)
      ensures Valid() && this.limits == limits && view == FRESH && objects == {}
    {
      this.limits := limits;
      now, running, workers, holding := 0, true, map[], None;
      pool, view, objects := [], FRESH, {};
    }

    /** A request arrives; its stream has a worker from now on. */
    method Take(req: Request)
      requires Valid() && Enabled(view, limits, Receive(req))
      modifies this
      ensures Valid() && view == Next(old(view), limits, Receive(req))
      ensures holding == Some(req) && req.stream in workers && !workers[req.stream].channel.closed
      ensures req.stream in old(workers) ==> workers == old(workers)
      ensures fresh(objects - old(objects))
    {
      StepSound(view, limits, Receive(req));
      Accept(req);
      OpenWorker(view, req.stream);
    }

    method Accept(req: Request)
      requires Tied() && Enabled(view, limits, Receive(req))
      modifies this
      ensures Tied() && view == Next(old(view), limits, Receive(req))
      ensures req.stream in old(workers) ==> workers == old(workers)
      ensures fresh(objects - old(objects))
    {
      if req.stream !in workers { AddWorker(req.stream); }
      holding, view := Some(req), view.(holding := Some(req), received := view.received + [req]);
    }

    method AddWorker(stream: string)
      requires Tied() && stream !in workers
      modifies this`workers, this`pool, this`view, this`objects
      ensures Tied() && fresh(objects - old(objects))
      ensures view == old(view).(pool := old(view).pool + [NewWorker(stream)], workers := old(view).workers[stream := |old(view).pool|])
    {
      var h := AddOne(stream, limits.capacity, pool, view.pool, objects);
      LeadsMore(workers, view.workers, pool, stream, h);
      ghost var next := view.(pool := view.pool + [NewWorker(stream)], workers := view.workers[stream := |pool|]);
      workers := workers[stream := h];
      pool, objects := pool + [h], objects + {h, h.channel};
      Note(next);
    }

    /** Write down what has happened. */
    ghost method Note(next: Loop)
      requires |pool| == |next.pool| && Apart(pool, objects, limits.capacity) && Leads(workers, next.workers, pool)
      requires now == next.now && running == next.running && holding == next.holding
      requires this !in objects && Recorded(pool, next.pool, objects, limits.capacity)
      modifies this`view
      ensures Tied() && view == next
    {
      view := next;
    }

    /** The worker's channel has room and accepts the request. It is open, whatever was reaped. */
    method Put()
      requires Valid() && Enabled(view, limits, Place)
      modifies this, objects
      ensures Valid() && view == Next(old(view), limits, Place)
      ensures pool == old(pool) && objects == old(objects) && workers == old(workers)
      ensures var req := old(holding).value; var h := workers[req.stream];
              h.channel.items == old(h.channel.items) + [req] && !h.channel.closed && h.active == Some(now)
    {
      StepSound(view, limits, Place);
      OpenWorker(view, holding.value.stream);
      ghost var next := Next(view, limits, Place);
      ghost var i := view.workers[holding.value.stream];
      assert pool[i].Is(view.pool[i]);
      HandOver(holding.value, next);
      assert pool[i].Is(next.pool[i]);
    }

    method HandOver(req: Request, ghost next: Loop)
      requires Tied() && Enabled(view, limits, Place) && holding == Some(req) && next == Next(view, limits, Place)
      requires view.pool[view.workers[req.stream]].closings == 0
      modifies this`holding, this`view, objects
      ensures Tied() && pool == old(pool) && objects == old(objects) && view == next
    {
      FeedOne(workers[req.stream], req, now, pool, view.pool, objects, limits.capacity, view.workers[req.stream]);
      holding := None;
      Note(next);
    }

    /** A worker's goroutine takes its next request. */
    method Begin(h: Handle, ghost i: int)
      requires Valid() && Enabled(view, limits, Step.Begin(i)) && pool[i] == h
      modifies this`view, objects
      ensures Valid() && view == Next(old(view), limits, Step.Begin(i))
      ensures pool == old(pool) && objects == old(objects)
    {
      StepSound(view, limits, Step.Begin(i));
      h.Begin(now, view.pool[i]);
      view := Next(view, limits, Step.Begin(i));
    }

    method Finish(h: Handle, ghost i: int)
      requires Valid() && Enabled(view, limits, Step.Finish(i)) && pool[i] == h
      modifies this`view, objects
      ensures Valid() && view == Next(old(view), limits, Step.Finish(i))
      ensures pool == old(pool) && objects == old(objects)
    {
      StepSound(view, limits, Step.Finish(i));
      h.Finish(view.pool[i]);
      view := Next(view, limits, Step.Finish(i));
    }

    /** Close a worker's channel and, if wanted, take the worker out of the map. */
    method CloseWorker(x: string, forget: bool)
      requires Tied() && Shape(view) && x in workers && view.pool[view.workers[x]].closings == 0
      modifies this`workers, this`view, objects
      ensures Tied() && pool == old(pool) && objects == old(objects) && view == Closed(old(view), x, forget)
      ensures !forget ==> workers == old(workers)
    {
      ghost var next := Closed(view, x, forget);
      LeadsLess(workers, view.workers, pool, x);
      StopOne(workers[x], pool, view.pool, objects, limits.capacity, view.workers[x]);
      if forget { workers := workers - {x}; }
      Note(next);
    }

    /** The ticker fired: workers that have been idle for too long are closed and forgotten. */
    method Sweep()
      requires Valid() && Enabled(view, limits, Tick)
      modifies this, objects
      ensures Valid() && view == Next(old(view), limits, Tick)
      ensures pool == old(pool) && objects == old(objects)
      ensures forall x :: x in workers ==> x in old(workers) && workers[x] == old(workers)[x]
      ensures forall x :: x in old(workers) ==>
                var h := old(workers)[x];
                var idle := old(h.active).None? || old(now) - old(h.active).value > limits.idle;
                (h.channel.closed <==> idle) && (x in workers <==> !idle)
    {
      StepSound(view, limits, Tick);
      forall x | x in view.workers ensures view.pool[view.workers[x]].closings == 0 { OpenWorker(view, x); }
      forall x | x in workers ensures workers[x].active == view.pool[view.workers[x]].active {
        assert pool[view.workers[x]].Is(view.pool[view.workers[x]]);
      }
      ghost var l := view;
      CloseIdle(Expired(view, limits.idle));
      forall x | x in old(workers) ensures old(workers)[x].channel.closed <==> view.pool[l.workers[x]].closings == 1 {
        assert pool[l.workers[x]].Is(view.pool[l.workers[x]]);
      }
    }

    method CloseIdle(ghost idle: set<string>)
      requires Tied() && Shape(view) && view.holding.None? && idle <= view.workers.Keys
      requires forall x :: x in view.workers ==> OpenAndMaybeIdle(view, x, idle)
      modifies this`workers, this`view, objects
      ensures Tied() && pool == old(pool) && objects == old(objects)
      ensures view == Partly(old(view), idle, true)
    {
      ghost var l := view;
      var todo := workers.Keys;
      NoneVisited(idle, todo);
      assert CloseAll(l, {}) == l.pool;
      while todo != {}
        invariant todo <= l.workers.Keys
        invariant pool == old(pool) && objects == old(objects) && Tied()
        invariant view == Partly(l, idle - todo, true)
        decreases todo
      {
        var x := Any(todo);
        assert OpenAndMaybeIdle(l, x, idle);
        var closed := CloseIfIdle(x, l, idle - todo);
        OneVisited(idle, todo, x);
        todo := todo - {x};
      }
    }

    /** The worker is open, and in the set exactly if it is idle. */
    ghost predicate OpenAndMaybeIdle(l: Loop, x: string, idle: set<string>)
      requires Shape(l) && x in l.workers
    {
      l.pool[l.workers[x]].closings == 0 && (x in idle <==> IsIdle(l.pool[l.workers[x]], l.now, limits.idle))
    }

    method CloseIfIdle(x: string, ghost l: Loop, ghost done: set<string>) returns (idle: bool)
      requires Tied() && Shape(l) && l.holding.None? && view == Partly(l, done, true)
      requires x in l.workers && x !in done && l.pool[l.workers[x]].closings == 0
      modifies this`workers, this`view, objects
      ensures Tied() && pool == old(pool) && objects == old(objects)
      ensures idle <==> IsIdle(l.pool[l.workers[x]], l.now, limits.idle)
      ensures view == Partly(l, if idle then done + {x} else done, true)
    {
      PartlyMore(l, done, true, x);
      idle := workers[x].IdleSince(now, limits.idle);
      if idle { CloseWorker(x, true); }
    }

    /** The loop ends, with or without a request in hand, and closes every channel in its map. */
    method Shutdown()
      requires Valid() && Enabled(view, limits, Stop)
      modifies this, objects
      ensures Valid() && view == Next(old(view), limits, Stop)
      ensures pool == old(pool) && objects == old(objects) && workers == old(workers)
      ensures !running && holding == None && forall x :: x in workers ==> workers[x].channel.closed
    {
      StepSound(view, limits, Stop);
      forall x | x in view.workers ensures view.pool[view.workers[x]].closings == 0 { OpenWorker(view, x); }
      EndLoop(Next(view, limits, Stop));
      AllClosed();
    }

    method EndLoop(ghost next: Loop)
      requires Tied() && Shape(view)
      requires forall x :: x in view.workers ==> view.pool[view.workers[x]].closings == 0
      requires next == view.(pool := CloseAll(view, view.workers.Keys), running := false, holding := None)
      modifies this, objects
      ensures Tied() && pool == old(pool) && objects == old(objects) && workers == old(workers) && view == next
    {
      ghost var l := view.(running := false, holding := None);
      assert CloseAll(l, l.workers.Keys) == next.pool;
      running, holding := false, None;
      Note(l);
      CloseRest();
    }

    /** The channels of workers that are recorded as closed are closed. */
    lemma AllClosed()
      requires Tied() && forall i :: 0 <= i < |view.pool| ==> view.pool[i].closings == 1
      ensures forall x :: x in workers ==> workers[x].channel.closed
    {
      forall x | x in workers ensures workers[x].channel.closed {
        assert pool[view.workers[x]].Is(view.pool[view.workers[x]]);
      }
    }

    method CloseRest()
      requires Tied() && Shape(view) && view.holding.None?
      requires forall x :: x in view.workers ==> view.pool[view.workers[x]].closings == 0
      modifies this`workers, this`view, objects
      ensures Tied() && pool == old(pool) && objects == old(objects) && workers == old(workers)
      ensures view == Partly(old(view), old(view).workers.Keys, false)
    {
      ghost var l, done: set<string> := view, {};
      var todo := workers.Keys;
      assert CloseAll(l, {}) == l.pool;
      while todo != {}
        invariant todo <= l.workers.Keys && done <= l.workers.Keys && done !! todo
        invariant forall x :: x in l.workers ==> x in todo || x in done
        invariant pool == old(pool) && objects == old(objects) && workers == old(workers) && Tied()
        invariant view == Partly(l, done, false)
        decreases todo
      {
        var x := Any(todo);
        PartlyMore(l, done, false, x);
        CloseWorker(x, false);
        done, todo := done + {x}, todo - {x};
      }
      assert done == l.workers.Keys;
    }
  }
}
