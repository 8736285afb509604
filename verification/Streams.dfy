/** Ordered streams: one worker per stream is created on demand, fed through a bounded channel and
    reaped when it has been idle for long. The gateway (for client requests) and the multicast bus
    run the same loop with different limits. Times are in milliseconds. */
module Streams {
  import opened Entries

  datatype Request = Request(stream: string, id: int)

  /** `capacity` of a worker's channel, the `idle` time after which it is reaped, and the `longest`
      time from when a request is next in line until its handling has ended. */
  datatype Limits = Limits(capacity: int, idle: int, longest: int)

  datatype Job = Job(req: Request, since: int)

  /** `active` is the time of the last send. The last three fields record what happened to the
      channel: how often it was closed, what was sent into it, and what has been handled. */
  datatype Worker = Worker(
    stream: string,
    queue: seq<Request>,
    busy: Option<Job>,
    active: Option<int>,
    closings: int,
    fed: seq<Request>,
    done: seq<Request>)

  /** `pool` lists all workers ever created, and `workers` is the loop's map from streams to them.
      `holding` is the request taken from the input and not yet sent to its worker. */
  datatype Loop = Loop(
    now: int,
    running: bool,
    pool: seq<Worker>,
    workers: map<string, int>,
    holding: Option<Request>,
    received: seq<Request>,
    placed: seq<Request>,
    finished: seq<Request>)

  const FRESH := Loop(0, true, [], map[], None, [], [], [])

  function NewWorker(stream: string): Worker { Worker(stream, [], None, None, 0, [], []) }

  function InProgress(w: Worker): seq<Request> {
    if w.busy.Some? then [w.busy.value.req] else []
  }

  predicate Drained(w: Worker) { w.queue == [] && w.busy.None? }

  function Shut(w: Worker): Worker { w.(closings := w.closings + 1) }

  predicate IsIdle(w: Worker, now: int, idle: int) {
    w.active.None? || now - w.active.value > idle
  }

  /** The map names workers of the pool, each under its own stream. */
  predicate Shape(l: Loop) {
    && (forall x :: x in l.workers ==> 0 <= l.workers[x] < |l.pool| && l.pool[l.workers[x]].stream == x)
    && (l.holding.Some? ==> l.holding.value.stream in l.workers)
  }

  datatype Step =
    | Receive(req: Request)      // the loop takes a request and finds or creates its worker
    | Place                      // the channel accepts it
    | Begin(w: int)              // a worker takes the next request from its channel
    | Finish(w: int)
    | Wait(d: int)
    | Tick                       // idle workers are closed and forgotten
    | Stop                       // the loop ends and closes its workers; they still drain

  predicate Enabled(l: Loop, p: Limits, step: Step) {
    && Shape(l)
    && match step
       case Receive(_) => l.running && l.holding.None?
       case Place => l.running && l.holding.Some? && |l.pool[l.workers[l.holding.value.stream]].queue| < p.capacity
       case Begin(w) => 0 <= w < |l.pool| && l.pool[w].busy.None? && l.pool[w].queue != []
       case Finish(w) => 0 <= w < |l.pool| && l.pool[w].busy.Some?
       case Wait(d) => d >= 0
       case Tick => l.running && l.holding.None?
       case Stop => l.running
  }

  function Expired(l: Loop, idle: int): set<string>
    requires Shape(l)
  {
    set x | x in l.workers && IsIdle(l.pool[l.workers[x]], l.now, idle)
  }

  /** Close the channels of the workers of these streams. */
  function CloseAll(l: Loop, streams: set<string>): seq<Worker>
    requires Shape(l)
  {
    seq(|l.pool|, i requires 0 <= i < |l.pool| =>
      var x := l.pool[i].stream;
      if x in streams && x in l.workers && l.workers[x] == i then Shut(l.pool[i]) else l.pool[i])
  }

  function Next(l: Loop, p: Limits, step: Step): Loop
    requires Enabled(l, p, step)
  {
    match step
    case Receive(req) =>
      var l1 := l.(holding := Some(req), received := l.received + [req]);
      if req.stream in l.workers then l1
      else l1.(pool := l.pool + [NewWorker(req.stream)], workers := l.workers[req.stream := |l.pool|])
    case Place =>
      var req := l.holding.value;
      var i := l.workers[req.stream];
      var w := l.pool[i];
      l.(pool := l.pool[i := w.(queue := w.queue + [req], active := Some(l.now), fed := w.fed + [req])],
         holding := None,
         placed := l.placed + [req])
    case Begin(i) =>
      var w := l.pool[i];
      l.(pool := l.pool[i := w.(queue := w.queue[1..], busy := Some(Job(w.queue[0], l.now)))])
    case Finish(i) =>
      var w := l.pool[i];
      l.(pool := l.pool[i := w.(busy := None, done := w.done + [w.busy.value.req])],
         finished := l.finished + [w.busy.value.req])
    case Wait(d) => l.(now := l.now + d)
    case Tick =>
      l.(pool := CloseAll(l, Expired(l, p.idle)), workers := l.workers - Expired(l, p.idle))
    case Stop => l.(pool := CloseAll(l, l.workers.Keys), running := false, holding := None)
  }

  predicate Possible(l: Loop, p: Limits, steps: seq<Step>)
    decreases |steps|
  {
    steps == [] || (Enabled(l, p, steps[0]) && Possible(Next(l, p, steps[0]), p, steps[1..]))
  }

  function Run(l: Loop, p: Limits, steps: seq<Step>): Loop
    requires Possible(l, p, steps)
    decreases |steps|
  {
    if steps == [] then l else Run(Next(l, p, steps[0]), p, steps[1..])
  }

  // ---- Conservation, whatever the timing ----

  /** The channels in the map of a running loop are open, and all others have been closed exactly
      once; what was sent into a channel is, in order, handled, in progress or still queued. */
  ghost predicate Sound(l: Loop) {
    && Shape(l)
    && (forall i :: 0 <= i < |l.pool| ==> SoundWorker(l.pool[i]))
    && (forall i :: 0 <= i < |l.pool| ==> l.pool[i].closings == if l.running && Current(l, i) then 0 else 1)
    && (l.running ==> l.received == l.placed + Held(l))
    && l.placed <= l.received
  }

  predicate SoundWorker(w: Worker) {
    0 <= w.closings <= 1 && w.fed == w.done + InProgress(w) + w.queue
  }

  function Held(l: Loop): seq<Request> {
    if l.holding.Some? then [l.holding.value] else []
  }

  lemma ReceiveSound(l: Loop, p: Limits, req: Request)
    requires Sound(l) && Enabled(l, p, Receive(req))
    ensures Sound(Next(l, p, Receive(req)))
  {
    var l' := Next(l, p, Receive(req));
    assert l.received == l.placed;
    forall i | 0 <= i < |l'.pool| ensures SoundWorker(l'.pool[i]) {
      if i < |l.pool| { assert l'.pool[i] == l.pool[i]; }
    }
    forall x | x in l'.workers ensures l'.pool[l'.workers[x]].closings == 0 {
      if x in l.workers { assert l'.workers[x] == l.workers[x]; }
    }
  }

  lemma PlaceSound(l: Loop, p: Limits)
    requires Sound(l) && Enabled(l, p, Place)
    ensures Sound(Next(l, p, Place))
  {
    assert SoundWorker(Next(l, p, Place).pool[l.workers[l.holding.value.stream]]);
  }

  lemma WorkSound(l: Loop, p: Limits, step: Step)
    requires Sound(l) && Enabled(l, p, step) && (step.Begin? || step.Finish?)
    ensures Sound(Next(l, p, step))
  {
    var l', i := Next(l, p, step), step.w;
    assert SoundWorker(l'.pool[i]) by { WorkedSound(l.pool[i], l'.pool[i]); }
  }

  /** Taking a request from the channel, or ending its handling, moves it one place along. */
  lemma WorkedSound(w: Worker, w': Worker)
    requires SoundWorker(w) && w'.fed == w.fed && w'.closings == w.closings
    requires || (w.busy.None? && w.queue != [] && w'.done == w.done && InProgress(w') == [w.queue[0]] && w'.queue == w.queue[1..])
             || (w.busy.Some? && w'.done == w.done + InProgress(w) && w'.busy.None? && w'.queue == w.queue)
    ensures SoundWorker(w')
  {
    if w.busy.None? {
      assert w.queue == [w.queue[0]] + w.queue[1..];
      assert w.done + [] + w.queue == w.done + [w.queue[0]] + w.queue[1..];
    } else {
      assert w'.done + [] + w'.queue == w.done + InProgress(w) + w.queue;
    }
  }

  lemma TickSound(l: Loop, p: Limits)
    requires Sound(l) && Enabled(l, p, Tick)
    ensures Sound(Next(l, p, Tick))
  {
    ClosingSound(l, Expired(l, p.idle));
  }

  lemma StopSound(l: Loop, p: Limits)
    requires Sound(l) && Enabled(l, p, Stop)
    ensures Sound(Next(l, p, Stop))
  {
    ClosingSound(l, l.workers.Keys);
  }

  lemma StepSound(l: Loop, p: Limits, step: Step)
    requires Sound(l) && Enabled(l, p, step)
    ensures Sound(Next(l, p, step))
  {
    match step
    case Receive(req) => ReceiveSound(l, p, req);
    case Place => PlaceSound(l, p);
    case Tick => TickSound(l, p);
    case Stop => StopSound(l, p);
    case Wait(_) =>
    case _ => WorkSound(l, p, step);
  }

  lemma ClosingSound(l: Loop, streams: set<string>)
    requires Sound(l) && l.running
    ensures forall i :: 0 <= i < |l.pool| ==> SoundWorker(CloseAll(l, streams)[i])
    ensures forall x :: x in l.workers && x !in streams ==> CloseAll(l, streams)[l.workers[x]] == l.pool[l.workers[x]]
  {
  }

  lemma {:induction false} RunSound(l: Loop, p: Limits, steps: seq<Step>)
    requires Sound(l) && Possible(l, p, steps)
    ensures Sound(Run(l, p, steps))
    decreases |steps|
  {
    if steps != [] {
      StepSound(l, p, steps[0]);
      RunSound(Next(l, p, steps[0]), p, steps[1..]);
    }
  }

  /** All that was ever sent to the workers, or all that they have handled. */
  function Gathered(pool: seq<Worker>, handled: bool): multiset<Request>
    decreases |pool|
  {
    if pool == [] then multiset{}
    else Gathered(pool[..|pool| - 1], handled) + multiset(Log(pool[|pool| - 1], handled))
  }

  function Log(w: Worker, handled: bool): seq<Request> {
    if handled then w.done else w.fed
  }

  lemma {:induction false} GatheredSame(pool: seq<Worker>, pool': seq<Worker>, handled: bool)
    requires |pool| == |pool'| && forall i :: 0 <= i < |pool| ==> Log(pool[i], handled) == Log(pool'[i], handled)
    ensures Gathered(pool, handled) == Gathered(pool', handled)
    decreases |pool|
  {
    if pool != [] { GatheredSame(pool[..|pool| - 1], pool'[..|pool| - 1], handled); }
  }

  lemma {:induction false} GatheredGrows(pool: seq<Worker>, pool': seq<Worker>, handled: bool, i: nat, more: seq<Request>)
    requires i < |pool| == |pool'| && Log(pool'[i], handled) == Log(pool[i], handled) + more
    requires forall j :: 0 <= j < |pool| && j != i ==> Log(pool[j], handled) == Log(pool'[j], handled)
    ensures Gathered(pool', handled) == Gathered(pool, handled) + multiset(more)
    decreases |pool|
  {
    var n := |pool| - 1;
    var rest, last := Gathered(pool[..n], handled), Log(pool[n], handled);
    if i == n {
      GatheredSame(pool[..n], pool'[..n], handled);
      Appended(rest, last, more);
    } else {
      GatheredGrows(pool[..n], pool'[..n], handled, i, more);
      Swapped(rest, multiset(more), multiset(last));
    }
  }

  lemma Appended(m: multiset<Request>, a: seq<Request>, b: seq<Request>)
    ensures m + multiset(a + b) == m + multiset(a) + multiset(b)
  {
  }

  lemma Swapped(a: multiset<Request>, b: multiset<Request>, c: multiset<Request>)
    ensures a + b + c == a + c + b
  {
  }

  /** What the loop has placed is what the workers were sent, and what was finished is what they
      have handled, each as often. */
  predicate Accounted(l: Loop) {
    multiset(l.placed) == Gathered(l.pool, false) && multiset(l.finished) == Gathered(l.pool, true)
  }

  lemma WorkerAccounted(l: Loop, l': Loop, i: nat, w: Worker, sent: seq<Request>, handled: seq<Request>)
    requires Accounted(l) && i < |l.pool| && l'.pool == l.pool[i := w]
    requires w.fed == l.pool[i].fed + sent && w.done == l.pool[i].done + handled
    requires l'.placed == l.placed + sent && l'.finished == l.finished + handled
    ensures Accounted(l')
  {
    GatheredGrows(l.pool, l'.pool, false, i, sent);
    GatheredGrows(l.pool, l'.pool, true, i, handled);
  }

  lemma WorkAccounted(l: Loop, p: Limits, step: Step)
    requires Accounted(l) && Enabled(l, p, step) && (step.Place? || step.Begin? || step.Finish?)
    ensures Accounted(Next(l, p, step))
  {
    var l' := Next(l, p, step);
    match step
    case Place =>
      var i := l.workers[l.holding.value.stream];
      WorkerAccounted(l, l', i, l'.pool[i], [l.holding.value], []);
    case Begin(i) => WorkerAccounted(l, l', i, l'.pool[i], [], []);
    case Finish(i) => WorkerAccounted(l, l', i, l'.pool[i], [], [l.pool[i].busy.value.req]);
  }

  lemma ClosingAccounted(l: Loop, l': Loop, streams: set<string>)
    requires Accounted(l) && Shape(l) && l'.pool == CloseAll(l, streams) && l'.placed == l.placed && l'.finished == l.finished
    ensures Accounted(l')
  {
    GatheredSame(l.pool, l'.pool, false);
    GatheredSame(l.pool, l'.pool, true);
  }

  lemma StepAccounted(l: Loop, p: Limits, step: Step)
    requires Accounted(l) && Enabled(l, p, step)
    ensures Accounted(Next(l, p, step))
  {
    var l' := Next(l, p, step);
    match step
    case Receive(req) =>
      if req.stream !in l.workers { assert l'.pool[..|l.pool|] == l.pool; }
    case Wait(_) =>
    case Tick => ClosingAccounted(l, l', Expired(l, p.idle));
    case Stop => ClosingAccounted(l, l', l.workers.Keys);
    case _ => WorkAccounted(l, p, step);
  }

  lemma {:induction false} RunAccounted(l: Loop, p: Limits, steps: seq<Step>)
    requires Accounted(l) && Possible(l, p, steps)
    ensures Accounted(Run(l, p, steps))
    decreases |steps|
  {
    if steps != [] {
      StepAccounted(l, p, steps[0]);
      RunAccounted(Next(l, p, steps[0]), p, steps[1..]);
    }
  }

  /** In every run, across reaping and shutdown: requests are placed in the order received, a
      channel is closed exactly once, when its worker leaves the map or the loop ends, and never sent
      into after that, every request placed is sent
      to one worker, and there it is exactly once either handled, in progress or still queued, in
      order; what is finished is what the workers have handled. */
  lemma WorkerConservation(p: Limits, steps: seq<Step>, i: int)
    requires Possible(FRESH, p, steps) && 0 <= i < |Run(FRESH, p, steps).pool|
    ensures var l := Run(FRESH, p, steps); var w := l.pool[i];
            && w.fed == w.done + InProgress(w) + w.queue
            && w.closings == (if l.running && Current(l, i) then 0 else 1)
            && l.placed <= l.received
            && multiset(l.placed) == Gathered(l.pool, false)
            && multiset(l.finished) == Gathered(l.pool, true)
            && (Enabled(l, p, Place) ==> l.pool[l.workers[l.holding.value.stream]].closings == 0)
  {
    RunSound(FRESH, p, steps);
    RunAccounted(FRESH, p, steps);
  }

  // ---- Order, when handling is quick enough ----

  /** Time passes only while no handling overruns and no worker leaves its channel waiting. */
  predicate Prompt(l: Loop, p: Limits, step: Step) {
    step.Wait? && step.d > 0 ==>
      forall i :: 0 <= i < |l.pool| ==>
        if l.pool[i].busy.Some? then l.now + step.d <= l.pool[i].busy.value.since + p.longest else l.pool[i].queue == []
  }

  predicate PromptRun(l: Loop, p: Limits, steps: seq<Step>)
    requires Possible(l, p, steps)
    decreases |steps|
  {
    steps == [] || (Prompt(l, p, steps[0]) && PromptRun(Next(l, p, steps[0]), p, steps[1..]))
  }

  function OfStream(s: seq<Request>, x: string): seq<Request>
    decreases |s|
  {
    if s == [] then []
    else OfStream(s[..|s| - 1], x) + if s[|s| - 1].stream == x then [s[|s| - 1]] else []
  }

  lemma OfStreamMore(s: seq<Request>, r: Request, x: string)
    ensures OfStream(s + [r], x) == OfStream(s, x) + if r.stream == x then [r] else []
  {
    assert (s + [r])[..|s|] == s;
  }

  lemma {:induction false} OfStreamPrefix(s: seq<Request>, t: seq<Request>, x: string)
    requires s <= t
    ensures OfStream(s, x) <= OfStream(t, x)
    decreases |t|
  {
    if |s| < |t| { OfStreamPrefix(s, t[..|t| - 1], x); } else { assert s == t; }
  }

  predicate Current(l: Loop, i: int)
    requires 0 <= i < |l.pool|
  {
    l.pool[i].stream in l.workers && l.workers[l.pool[i].stream] == i
  }

  /** What a stream's worker still has to finish. */
  function Rest(l: Loop, x: string): seq<Request>
    requires Shape(l)
  {
    if x in l.workers then InProgress(l.pool[l.workers[x]]) + l.pool[l.workers[x]].queue else []
  }

  /** A worker that is not drained will be, at the latest `capacity + 1` handlings after its last send. */
  predicate OnTime(w: Worker, now: int, p: Limits) {
    Drained(w) ||
    (&& w.active.Some? && w.active.value <= now && |w.queue| <= p.capacity
     && var due := w.active.value + p.longest * (p.capacity + 1);
        if w.busy.Some?
        then w.busy.value.since <= now <= w.busy.value.since + p.longest
             && w.busy.value.since + p.longest + p.longest * |w.queue| <= due
        else now + p.longest * |w.queue| <= due)
  }

  /** Workers that left the map are drained, and each stream is handled in the order of placing. */
  ghost predicate Timely(l: Loop, p: Limits) {
    && Shape(l)
    && (forall i :: 0 <= i < |l.pool| ==> OnTime(l.pool[i], l.now, p))
    && (forall i :: 0 <= i < |l.pool| && !Current(l, i) ==> Drained(l.pool[i]))
    && (forall i :: 0 <= i < |l.pool| ==> OwnStream(l.pool[i]))
    && (forall x :: OfStream(l.placed, x) == OfStream(l.finished, x) + Rest(l, x))
  }

  /** Only requests of its own stream reach a worker. */
  predicate OwnStream(w: Worker) {
    && (forall k :: 0 <= k < |w.queue| ==> w.queue[k].stream == w.stream)
    && (w.busy.Some? ==> w.busy.value.req.stream == w.stream)
  }

  predicate Safe(p: Limits) {
    p.longest >= 0 && (p.capacity + 1) * p.longest <= p.idle
  }

  lemma Product(t: int, n: int, m: int)
    requires 0 <= t && n <= m
    ensures t * n <= t * m
  {
    assert t * (m - n) >= 0;
  }

  lemma ReceiveTimely(l: Loop, p: Limits, req: Request)
    requires Timely(l, p) && Enabled(l, p, Receive(req))
    ensures Timely(Next(l, p, Receive(req)), p)
  {
    var l' := Next(l, p, Receive(req));
    forall x ensures Rest(l', x) == Rest(l, x) {}
    forall i | 0 <= i < |l'.pool| && !Current(l', i) ensures Drained(l'.pool[i]) {
      if i < |l.pool| { assert !Current(l, i); }
    }
  }

  lemma PlaceTimely(l: Loop, p: Limits)
    requires Timely(l, p) && Enabled(l, p, Place) && p.longest >= 0
    ensures Timely(Next(l, p, Place), p)
  {
    var l' := Next(l, p, Place);
    var req := l.holding.value;
    var i := l.workers[req.stream];
    var w, w' := l.pool[i], l'.pool[i];
    Product(p.longest, |w'.queue|, p.capacity);
    assert p.longest * (p.capacity + 1) == p.longest * p.capacity + p.longest;
    assert OnTime(w', l.now, p);
    assert OwnStream(w');
    forall j | 0 <= j < |l'.pool| && !Current(l', j) ensures Drained(l'.pool[j]) {
      assert j != i;
      assert !Current(l, j);
    }
    forall x ensures OfStream(l'.placed, x) == OfStream(l'.finished, x) + Rest(l', x) {
      OfStreamMore(l.placed, req, x);
      assert x != req.stream && x in l.workers ==> l.workers[x] != i;
    }
  }

  lemma BeginTimely(l: Loop, p: Limits, i: int)
    requires Timely(l, p) && Enabled(l, p, Begin(i)) && p.longest >= 0
    ensures Timely(Next(l, p, Begin(i)), p)
  {
    var l' := Next(l, p, Begin(i));
    var w, w' := l.pool[i], l'.pool[i];
    assert p.longest * |w.queue| == p.longest + p.longest * |w'.queue|;
    assert OnTime(w', l.now, p);
    assert OwnStream(w');
    assert Current(l, i);
    forall j | 0 <= j < |l'.pool| && !Current(l', j) ensures Drained(l'.pool[j]) {
      assert j != i;
      assert !Current(l, j);
    }
    forall x ensures Rest(l', x) == Rest(l, x) {
      if x == w.stream { assert w.queue == [w.queue[0]] + w.queue[1..]; }
      else { assert x in l.workers ==> l.workers[x] != i; }
    }
  }

  lemma FinishRest(l: Loop, p: Limits, i: int, x: string)
    requires Enabled(l, p, Finish(i)) && Current(l, i) && OwnStream(l.pool[i])
    ensures var req := l.pool[i].busy.value.req; var l' := Next(l, p, Finish(i));
            Shape(l') && Rest(l, x) == (if x == req.stream then [req] else []) + Rest(l', x)
  {
    var l' := Next(l, p, Finish(i));
    var w := l.pool[i];
    if x == w.stream {
      assert Rest(l, x) == [w.busy.value.req] + w.queue;
      assert Rest(l', x) == [] + w.queue;
    } else if x in l.workers {
      assert l'.pool[l.workers[x]] == l.pool[l.workers[x]];
    }
  }

  /** Moving the first unfinished request to the finished ones keeps their concatenation. */
  lemma Moved(finished: seq<Request>, req: Request, x: string, all: seq<Request>, rest: seq<Request>, rest': seq<Request>)
    requires all == OfStream(finished, x) + rest && rest == (if x == req.stream then [req] else []) + rest'
    ensures all == OfStream(finished + [req], x) + rest'
  {
    OfStreamMore(finished, req, x);
  }

  lemma FinishOrder(l: Loop, p: Limits, i: int, x: string)
    requires Enabled(l, p, Finish(i)) && Current(l, i) && OwnStream(l.pool[i])
    requires OfStream(l.placed, x) == OfStream(l.finished, x) + Rest(l, x)
    ensures var l' := Next(l, p, Finish(i));
            Shape(l') && OfStream(l'.placed, x) == OfStream(l'.finished, x) + Rest(l', x)
  {
    FinishRest(l, p, i, x);
    Moved(l.finished, l.pool[i].busy.value.req, x, OfStream(l.placed, x), Rest(l, x), Rest(Next(l, p, Finish(i)), x));
  }

  lemma FinishTimely(l: Loop, p: Limits, i: int)
    requires Timely(l, p) && Enabled(l, p, Finish(i))
    ensures Timely(Next(l, p, Finish(i)), p)
  {
    var l' := Next(l, p, Finish(i));
    assert OnTime(l'.pool[i], l.now, p);
    assert OwnStream(l'.pool[i]);
    assert Current(l, i);
    forall j | 0 <= j < |l'.pool| && !Current(l', j) ensures Drained(l'.pool[j]) {
      assert j != i;
      assert !Current(l, j);
    }
    forall x ensures OfStream(l'.placed, x) == OfStream(l'.finished, x) + Rest(l', x) { FinishOrder(l, p, i, x); }
  }

  lemma WaitTimely(l: Loop, p: Limits, d: int)
    requires Timely(l, p) && Enabled(l, p, Wait(d)) && Prompt(l, p, Wait(d))
    ensures Timely(Next(l, p, Wait(d)), p)
  {
    var l' := Next(l, p, Wait(d));
    forall i | 0 <= i < |l'.pool| ensures OnTime(l'.pool[i], l'.now, p) {
      assert OnTime(l.pool[i], l.now, p);
    }
    forall i | 0 <= i < |l'.pool| && !Current(l', i) ensures Drained(l'.pool[i]) { assert !Current(l, i); }
    forall x ensures Rest(l', x) == Rest(l, x) {}
  }

  /** An idle worker has had time for everything that was in its channel. */
  lemma IdleIsDrained(w: Worker, now: int, p: Limits)
    requires OnTime(w, now, p) && Safe(p) && IsIdle(w, now, p.idle)
    ensures Drained(w)
  {
    Product(p.longest, 0, |w.queue|);
  }

  lemma TickTimely(l: Loop, p: Limits)
    requires Timely(l, p) && Enabled(l, p, Tick) && Safe(p)
    ensures Timely(Next(l, p, Tick), p)
    ensures forall x :: x in Expired(l, p.idle) ==> Drained(l.pool[l.workers[x]])
  {
    var l' := Next(l, p, Tick);
    forall x | x in Expired(l, p.idle) ensures Drained(l.pool[l.workers[x]]) {
      IdleIsDrained(l.pool[l.workers[x]], l.now, p);
    }
    forall i | 0 <= i < |l'.pool| && !Current(l', i) ensures Drained(l'.pool[i]) {
      if Current(l, i) { assert l.pool[i].stream in Expired(l, p.idle); }
    }
    forall i | 0 <= i < |l'.pool| ensures OnTime(l'.pool[i], l'.now, p) && OwnStream(l'.pool[i]) {
      assert OnTime(l.pool[i], l.now, p) && OwnStream(l.pool[i]);
    }
    forall x ensures Rest(l', x) == Rest(l, x) {}
  }

  lemma StopTimely(l: Loop, p: Limits)
    requires Timely(l, p) && Enabled(l, p, Stop)
    ensures Timely(Next(l, p, Stop), p)
  {
    var l' := Next(l, p, Stop);
    forall i | 0 <= i < |l'.pool| ensures OnTime(l'.pool[i], l'.now, p) && OwnStream(l'.pool[i]) {
      assert OnTime(l.pool[i], l.now, p) && OwnStream(l.pool[i]);
    }
    forall i | 0 <= i < |l'.pool| && !Current(l', i) ensures Drained(l'.pool[i]) { assert !Current(l, i); }
    forall x ensures Rest(l', x) == Rest(l, x) {}
  }

  lemma StepTimely(l: Loop, p: Limits, step: Step)
    requires Timely(l, p) && Enabled(l, p, step) && Prompt(l, p, step) && Safe(p)
    ensures Timely(Next(l, p, step), p)
  {
    match step
    case Receive(req) => ReceiveTimely(l, p, req);
    case Place => PlaceTimely(l, p);
    case Begin(i) => BeginTimely(l, p, i);
    case Finish(i) => FinishTimely(l, p, i);
    case Wait(d) => WaitTimely(l, p, d);
    case Tick => TickTimely(l, p);
    case Stop => StopTimely(l, p);
  }

  lemma {:induction false} RunTimely(l: Loop, p: Limits, steps: seq<Step>)
    requires Timely(l, p) && Possible(l, p, steps) && PromptRun(l, p, steps) && Safe(p)
    ensures Timely(Run(l, p, steps), p)
    decreases |steps|
  {
    if steps != [] {
      StepTimely(l, p, steps[0]);
      RunTimely(Next(l, p, steps[0]), p, steps[1..]);
    }
  }

  /** At most one worker of any stream has anything left to do. */
  ghost predicate OneAtATime(l: Loop) {
    forall i, j :: 0 <= i < j < |l.pool| && l.pool[i].stream == l.pool[j].stream ==> Drained(l.pool[i]) || Drained(l.pool[j])
  }

  /** Timed order: if `capacity + 1` handlings fit into the idle time, then in every run each
      stream's requests are handled one at a time and in the order they were received, what is
      placed but not finished is with the stream's one worker, and a worker that is reaped has
      nothing left to do. */
  lemma TimedOrder(p: Limits, steps: seq<Step>, x: string)
    requires Safe(p) && Possible(FRESH, p, steps) && PromptRun(FRESH, p, steps)
    ensures var l := Run(FRESH, p, steps);
            && Shape(l) && OneAtATime(l)
            && OfStream(l.finished, x) <= OfStream(l.received, x)
            && OfStream(l.placed, x) == OfStream(l.finished, x) + Rest(l, x)
            && (Enabled(l, p, Tick) ==> forall y :: y in Expired(l, p.idle) ==> Drained(l.pool[l.workers[y]]))
  {
    RunTimely(FRESH, p, steps);
    RunSound(FRESH, p, steps);
    var l := Run(FRESH, p, steps);
    OfStreamPrefix(l.placed, l.received, x);
    forall i, j | 0 <= i < j < |l.pool| && l.pool[i].stream == l.pool[j].stream
      ensures Drained(l.pool[i]) || Drained(l.pool[j])
    {
      assert !Current(l, i) || !Current(l, j);
    }
    if Enabled(l, p, Tick) { TickTimely(l, p); }
  }

  /** The limits of the two loops in use. */
  function GatewayLimits(longest: int): Limits { Limits(10, 60_000, longest) }

  function MulticastLimits(longest: int): Limits { Limits(100, 300_000, longest) }

  // ---- The bound is exact ----

  /** Some run whose handlings are all prompt leads to this state. */
  ghost predicate Reaches(p: Limits, l: Loop) {
    exists steps :: Possible(FRESH, p, steps) && PromptRun(FRESH, p, steps) && Run(FRESH, p, steps) == l
  }

  lemma {:induction false} RunMore(l: Loop, p: Limits, steps: seq<Step>, step: Step)
    requires Possible(l, p, steps) && PromptRun(l, p, steps)
    requires Enabled(Run(l, p, steps), p, step) && Prompt(Run(l, p, steps), p, step)
    ensures Possible(l, p, steps + [step]) && PromptRun(l, p, steps + [step])
    ensures Run(l, p, steps + [step]) == Next(Run(l, p, steps), p, step)
    decreases |steps|
  {
    if steps == [] {
      assert (steps + [step])[1..] == [];
    } else {
      assert (steps + [step])[1..] == steps[1..] + [step];
      RunMore(Next(l, p, steps[0]), p, steps[1..], step);
    }
  }

  lemma ReachMore(p: Limits, l: Loop, step: Step)
    requires Reaches(p, l) && Enabled(l, p, step) && Prompt(l, p, step)
    ensures Reaches(p, Next(l, p, step))
  {
    var steps :| Possible(FRESH, p, steps) && PromptRun(FRESH, p, steps) && Run(FRESH, p, steps) == l;
    RunMore(FRESH, p, steps, step);
  }

  const X := "x"

  /** One worker, last fed at time 0, busy since `since` and with `n` requests queued. */
  ghost predicate Loaded(l: Loop, since: int, n: int) {
    && l.running && l.holding.None? && l.workers == map[X := 0] && |l.pool| == 1 && l.pool[0].stream == X
    && l.pool[0].active == Some(0) && l.pool[0].busy.Some? && l.pool[0].busy.value.since == since
    && |l.pool[0].queue| == n
  }

  lemma Sent(p: Limits, l: Loop) returns (l': Loop)
    requires Reaches(p, l) && Shape(l) && l.running && l.holding.None?
    requires X in l.workers ==> |l.pool[l.workers[X]].queue| < p.capacity
    requires p.capacity >= 1
    ensures Reaches(p, l') && l' == Next(Next(l, p, Receive(Request(X, 0))), p, Place)
  {
    var l1 := Next(l, p, Receive(Request(X, 0)));
    ReachMore(p, l, Receive(Request(X, 0)));
    ReachMore(p, l1, Place);
    l' := Next(l1, p, Place);
  }

  lemma {:induction false} Filling(p: Limits, n: int) returns (l: Loop)
    requires p.capacity >= 1 && 0 <= n <= p.capacity
    ensures Reaches(p, l) && l.now == 0 && Loaded(l, 0, n)
    decreases n
  {
    if n == 0 {
      assert Possible(FRESH, p, []) && PromptRun(FRESH, p, []);
      var l1 := Sent(p, FRESH);
      ReachMore(p, l1, Begin(0));
      l := Next(l1, p, Begin(0));
    } else {
      var l0 := Filling(p, n - 1);
      l := Sent(p, l0);
    }
  }

  lemma DrainOne(p: Limits, l0: Loop, n: int) returns (l: Loop)
    requires Reaches(p, l0) && Loaded(l0, l0.now, n) && n >= 1 && p.longest >= 1
    ensures Reaches(p, l) && l.now == l0.now + p.longest && Loaded(l, l.now, n - 1)
  {
    ReachMore(p, l0, Wait(p.longest));
    var l1 := Next(l0, p, Wait(p.longest));
    ReachMore(p, l1, Finish(0));
    var l2 := Next(l1, p, Finish(0));
    ReachMore(p, l2, Begin(0));
    l := Next(l2, p, Begin(0));
  }

  /** When every handling takes its full time, `k` of them end at `k` times that. */
  lemma {:induction false} Draining(p: Limits, k: int) returns (l: Loop)
    requires p.capacity >= 1 && p.longest >= 1 && 0 <= k <= p.capacity
    ensures Reaches(p, l) && l.now == k * p.longest && Loaded(l, l.now, p.capacity - k)
    decreases k
  {
    if k == 0 {
      l := Filling(p, p.capacity);
    } else {
      var l0 := Draining(p, k - 1);
      l := DrainOne(p, l0, p.capacity - (k - 1));
    }
  }

  /** If the bound is missed, a worker can be reaped while it is busy, and the next request of the
      stream gets a second worker beside it. */
  lemma TwoWorkers(p: Limits) returns (l: Loop)
    requires p.capacity >= 1 && p.longest >= 1 && p.idle >= 0 && !Safe(p)
    ensures Reaches(p, l) && !OneAtATime(l)
  {
    var k := p.idle / p.longest;
    assert k * p.longest <= p.idle < (k + 1) * p.longest;
    assert k <= p.capacity by { Product(p.longest, p.capacity + 1, if k > p.capacity then k else p.capacity + 1); }
    var l0 := Draining(p, k);
    l := ReapBusy(p, l0, p.capacity - k);
  }

  lemma ReapBusy(p: Limits, l0: Loop, n: int) returns (l: Loop)
    requires Reaches(p, l0) && Loaded(l0, l0.now, n) && p.capacity >= 1
    requires l0.now <= p.idle < l0.now + p.longest
    ensures Reaches(p, l) && !OneAtATime(l)
  {
    var d := p.idle + 1 - l0.now;
    ReachMore(p, l0, Wait(d));
    var l1 := Next(l0, p, Wait(d));
    ReachMore(p, l1, Tick);
    var l2 := Next(l1, p, Tick);
    assert X in Expired(l1, p.idle);
    assert l2.workers == map[];
    l := Sent(p, l2);
    assert l.pool[0].stream == l.pool[1].stream == X;
  }

  /** Streams are handled one at a time in every prompt run if and only if `capacity + 1`
      handlings fit into the idle time. */
  lemma OrderIff(p: Limits)
    requires p.capacity >= 1 && p.longest >= 1 && p.idle >= 0
    ensures (forall l :: Reaches(p, l) ==> OneAtATime(l)) <==> Safe(p)
  {
    if Safe(p) {
      forall l | Reaches(p, l) ensures OneAtATime(l) {
        var steps :| Possible(FRESH, p, steps) && PromptRun(FRESH, p, steps) && Run(FRESH, p, steps) == l;
        TimedOrder(p, steps, X);
      }
    } else {
      var l := TwoWorkers(p);
    }
  }

  /** With the limits in use: the gateway handles every stream one at a time in all prompt runs if
      and only if eleven handlings fit into a minute, and the multicast bus if and only if a hundred
      and one fit into five minutes. */
  lemma LimitsInUse(longest: int)
    requires longest >= 1
    ensures (forall l :: Reaches(GatewayLimits(longest), l) ==> OneAtATime(l)) <==> 11 * longest <= 60_000
    ensures (forall l :: Reaches(MulticastLimits(longest), l) ==> OneAtATime(l)) <==> 101 * longest <= 300_000
  {
    OrderIff(GatewayLimits(longest));
    OrderIff(MulticastLimits(longest));
  }
}
