# nodehub in Dafny

A model of the stateful core of nodehub, a framework for clusters of game servers, and proofs about
it. Nodes publish entries in etcd; every node keeps a copy of those entries and derives from it which
node serves which request; gateways hold the client sessions, remember where each session's stateful
services live, and hand ordered streams of requests to workers.

`dafny verify dfyconfig.toml` checks the whole project.

| module | what it holds |
|---|---|
| `Entries`, `Octets` | node entries and service descriptions; numbers as bytes |
| `Replica` | the registry's copy: one event, one full read, merging by revision, as values |
| `EtcdRuns` | the copy beside etcd as a step system: commits, delayed watch, new watches, resyncs |
| `Balancing` | building a balancer and picking a node |
| `ResolverSpec`, `Resolver` | the per-service indexes and balancers as values, and the object that keeps them in place |
| `Mirror` | from etcd to the resolver's indexes |
| `Watcher` | the registry's watcher as an object that drives the resolver |
| `Gateway`, `Sessions` | one gateway's sessions, timers and routes as values and as objects, and all gateways as a step system |
| `Routes`, `Routing` | the nested route table, the routing decision and its runs |
| `Streams`, `Dispatcher` | stream workers as a timed step system, and the dispatching loop over workers and channels as objects |
| `Framing` | length-prefixed frames, read through reused and growing buffers |

The form follows the code. What the code changes in place is a class whose methods are proved against
functions on values (`Resolver.State`, `Watcher.Contents`, `StateTable.flat`, `Proxy.gate`,
`Dispatcher.view`); what the code promises is then proved about those functions, for every run of a
step system where it is about runs. Maps are walked in no fixed order: a walk picks any element
left, and lemmas hold for every order.

## Assumptions

- etcd: the key of an entry is the prefix joined with its id, so a key stands for an id
  (`cluster/registry.go:93`); values written to etcd decode; a deletion carries the previous value; one
  key's revisions strictly increase, while one revision may touch several keys; a full read shows the
  state at its header revision and happens under the lock, so read and merge are one step. `Apply`
  itself also models values that do not decode: they raise the version and change nothing else.
- Events of the time before a restore that are still buffered in the watch channel are handed over before
  the next resync or between two resyncs; what they can do then is stated by `EtcdRuns.StrayRecovery` and
  `EtcdRuns.StrayExact`. The step system itself has none.
- A node id is a number. The byte-wise comparison of ULIDs is the comparison of numbers.
- Connecting (displace, cancel the job, publish, store) is one step, and so is a timer's callback; events
  are delivered to every gateway that was subscribed when they were published, in any order.
- A timer stopped by `onConnect` was created by `time.AfterFunc`, whose channel never delivers. Stopping
  one that has already fired would therefore wait for ever: `Gateway.Proxy.OnConnect` says so as its result
  `Stuck`, and `Sessions.CleanUpJobs` proves that no run comes to that.
- Ids of sessions and timers exist in the model only (they are ghost); the modelled gateway, like the real
  one, compares objects.
- Random draws and the 64-bit session hash are parameters. `GoRem` and `Signed64` write out Go's
  truncating remainder and the conversion to a signed 64-bit integer.
- In `Streams`, `longest` bounds the time from when a request is next in line until its handling has
  ended; scheduling delay is part of it. A `Tick` may happen at any moment, because the once-a-minute tick can
  be handled late; it looks at one moment in time for all workers.
- Where the code and its comments disagree the code is followed: `resync` does not notice every
  rollback (`EtcdRuns.UndetectedRollback`), `CleanNode` and `ReplaceNode` change one route per session
  (`Routes.StaleRouteStays`), a hash balancer can index out of range (`Balancing.HashCanFail`), a
  service that turns private keeps its balancer (`ResolverSpec.PrivateKeepsBalancer`), and streams are ordered only within a bound on handling time (`Streams.OrderIff`).

## Model

| member | source | states |
|---|---|---|
| `Replica.ResyncPresent` | cluster/registry.go:163-232 | for every key of a snapshot, the entry and revision the copy ends with: the snapshot's, unless an equal or newer version survives the rollback test |
| `Replica.ResyncAbsent` | cluster/registry.go:234-243 | a node whose key the snapshot lacks is gone after the walk in any order, and its version is the header revision |
| `Replica.ResyncExact` | cluster/registry.go:221-243 | after a resync the copy equals the snapshot if and only if the header is below `maxRev` or no remembered version hides a different entry |
| `Replica.RollbackRecovery` | cluster/registry.go:221-243 | if the header is below `maxRev`, the copy becomes exactly the snapshot whatever it held, and `maxRev` the header |
| `Replica.ResyncIdempotent` | cluster/registry.go:209-246 | a second resync on the same snapshot changes nothing and emits nothing |
| `Replica.ApplyAnnounces` | cluster/registry.go:163-206 | an event that is not newer changes only `maxRev`; any other sets the version and announces its entry once, a deletion the removal once, an undecodable value nothing |
| `EtcdRuns.SyncFaithful` | cluster/registry.go:209-246 | a resync on a read of etcd makes every key agree with etcd, from a faithful copy or, after a detected rollback, from any copy |
| `EtcdRuns.LastEventAgrees` | cluster/registry.go:163-206 | after the last event of a key is applied the copy agrees with etcd on that key, whatever was skipped as old |
| `EtcdRuns.StepKeeps` | cluster/registry.go:163-293 | every step keeps: the copy holds what etcd held at each key's version, and each key agrees with etcd or has its last event queued |
| `EtcdRuns.RunKeeps` | cluster/registry.go:163-293 | the invariant holds after every run |
| `EtcdRuns.Convergence` | cluster/registry.go:163-293 | in every run, once synced since the latest watch and with an empty queue, the copy is exactly etcd's content |
| `EtcdRuns.NoGoingBack` | cluster/registry.go:163-246 | over every run each key's version never decreases and the copy holds etcd's state of the key at that version |
| `EtcdRuns.StaleStaysGone` | cluster/registry.go:234-243 | a node removed as stale by a snapshot is never brought back by an event no newer than that snapshot, however late it comes |
| `EtcdRuns.RollbackConvergence` | cluster/registry.go:221-246 | after a detected rollback every continuation converges, whatever the copy held |
| `EtcdRuns.StrayRecovery` | cluster/registry.go:221-246 | whatever events from before the restore are still handed over, the next resync starts a run that converges, if one of them or the copy is newer than etcd |
| `EtcdRuns.StrayExact` | cluster/registry.go:163-243 | after one such event the next resync restores the copy if and only if the event is newer than etcd, is skipped, or concerns a key that etcd lacks, holds in a newer state, or holds with that very entry |
| `EtcdRuns.UndetectedRollback` | cluster/registry.go:223-238 | for every entry, a run (read, missed deletion, read) after which etcd restored to the earlier state is not below `maxRev` and the resync leaves out the entry that etcd holds; `Replica.ResyncExact` is the exact condition |
| `EtcdRuns.UpdatesAnnouncedOnce` | cluster/registry.go:163-206 | in every run from the start no (node, revision) is announced twice |
| `EtcdRuns.NoticesTellAll` | cluster/registry.go:155-243 | in every run, also across rollbacks, replaying all notices in order gives exactly the nodes of the copy |
| `Watcher.Watcher.RemoveNode` | cluster/registry.go:155-160 | removing a node tells the resolver, drops the node from the copy and emits one notice |
| `Watcher.Watcher.Apply` | cluster/registry.go:163-206 | the in-place update is `Replica.Apply`, and the resolver is where all notices so far have brought it |
| `Watcher.Watcher.Resync` | cluster/registry.go:209-246 | the two loops are `Replica.Resync` for some order that visits every local node; the resolver stays in step |
| `Octets.DigitsRoundTrip` | internal/codec/message.go:48-50 | the big-endian bytes of a number that fits them give the number back |
| `Octets.BigEndianUnique` | internal/codec/message.go:87-87 | bytes are the big-endian form of the number they give, which is below 256 to their count |
| `Octets.BigEndianAppend` | cluster/balancer.go:209-211 | the number of a longer address is that of its upper part shifted plus that of its lower part |
| `Balancing.BuildWeights` | cluster/balancer.go:144-170 | the loop builds exactly one entry per node that offers the service, with ten times the weight (at least 1) of its first description of the service, and their sum |
| `Balancing.PickRoundRobin` | cluster/balancer.go:172-182 | the subtracting loop picks as the recursive definition does |
| `Balancing.PickInterval` | cluster/balancer.go:172-182 | a draw selects node i if and only if it lies in the interval after the weights before it |
| `Balancing.ExactShare` | cluster/balancer.go:144-182 | the sum is positive, no draw below it falls through, and exactly 10·max(1, weight) draws select each node, for the weight in the node's first description of the service |
| `Balancing.SortedUnique` | cluster/balancer.go:79-81 | a list strictly sorted by id is determined by its members |
| `Balancing.BuildIgnoresOrder` | cluster/balancer.go:70-101 | for distinct ids the balancer (policy, list, weights) is the same for every order of the nodes |
| `Balancing.GoRemExact` | cluster/balancer.go:199-199 | the remainder is the one number below n with the dividend's sign that leaves a multiple of n |
| `Balancing.HashInRange` | cluster/balancer.go:226-226 | it is a valid index if and only if the hash is not negative or is a multiple of the count |
| `Balancing.IpHashPicksIff` | cluster/balancer.go:194-212 | ipHash picks a node exactly under that condition on the signed low 64 bits of the address |
| `Balancing.Ipv4AlwaysPicks` | cluster/balancer.go:194-212 | an IPv4 client always gets a node of the list |
| `Balancing.IdHashPicksIff` | cluster/balancer.go:224-228 | idHash picks a node exactly under that condition on the signed hash |
| `Balancing.HashCanFail` | cluster/balancer.go:194-228 | with two nodes, ipHash gives no node to any /64 network's address ending in all ones, nor does idHash to a session whose hash is all ones |
| `Balancing.KindExact` | cluster/balancer.go:91-93 | each of the six names, letter for letter up to case, selects its own policy, and no other text selects any |
| `Balancing.OldestPolicy` | cluster/balancer.go:234-247 | if the first description of the service at the newest node says `oldest`, every session gets the node with the least id, also for one node |
| `Balancing.NewestPolicy` | cluster/balancer.go:253-266 | if it says `newest`, every session gets the newest node |
| `Balancing.RandomPolicy` | cluster/balancer.go:119-131 | if it says `random`, the k-th of as many draws as nodes picks the node that has exactly k newer ones |
| `Balancing.IpHashPolicy` | cluster/balancer.go:184-212 | if it says `ipHash`, the signed low 64 bits of the address pick the node with as many newer ones as their remainder, or none; an address that does not parse is reported |
| `Balancing.IdHashPolicy` | cluster/balancer.go:214-228 | if it says `idHash`, the signed hash of the session id does |
| `Balancing.UnknownPolicy` | cluster/balancer.go:83-100 | any other text, or no description, makes every pick fail with that text |
| `Balancing.FewNodes` | cluster/balancer.go:71-76 | a single node is always picked, and no node at all is reported |
| `ResolverSpec.UpdateIndexIff` | cluster/resolver.go:54-81 | an update keeps every index equal to the plain filter if and only if the entry has no services or no stored ok entry of the id has a code that the new one lacks |
| `ResolverSpec.RemoveIndexIff` | cluster/resolver.go:84-106 | the same for a removal |
| `ResolverSpec.UpdateDescribes` | cluster/resolver.go:71-79 | after an update the node is stored, each positive code it names is described by its last description, and all other codes are as before |
| `ResolverSpec.RemoveForgets` | cluster/resolver.go:84-106 | a removal forgets the node and no description; an entry without services changes nothing |
| `ResolverSpec.DroppedCodeStays` | cluster/resolver.go:54-81 | from the empty resolver, a node that offers service 1 and then comes back with service 2 only is still listed for service 1 |
| `ResolverSpec.UpdateBalancersIff` | cluster/resolver.go:54-143 | whatever the flags, an update that drops no code leaves a balancer over the ok nodes for exactly the public services if and only if it turns no service private that has a balancer |
| `ResolverSpec.PrivateKeepsBalancer` | cluster/resolver.go:128-143 | from the empty resolver, a public service whose node declares it private keeps its balancer and is still allocated |
| `ResolverSpec.BalancerOfListing` | cluster/resolver.go:109-143 | any listing of a service's nodes gives the same balancer |
| `ResolverSpec.IndexOverRuns` | cluster/resolver.go:54-143 | after any updates and removals that drop no code and keep public flags, every index is the filter (absent when empty), and a balancer over that set exists if and only if the service is public and the set is not empty |
| `ResolverSpec.PickMember` | cluster/balancer.go:70-266 | whatever the policy, a picked node is one of the nodes the balancer was built from |
| `ResolverSpec.AllocGivesOkNode` | cluster/resolver.go:151-159 | an allocated node is known, ok and offers the service, and the service is public |
| `ResolverSpec.AllocByPolicy` | cluster/resolver.go:151-159 | in every consistent view allocation is the pick of the balancer over the ok nodes, and fails for lack of nodes exactly when there are none or the service is private |
| `ResolverSpec.AllocShare` | cluster/balancer.go:144-182 | if the newest ok node says `roundRobin`, each ok node of a public service is allocated for exactly 10·max(1, weight) of the draws, and every draw gives a node |
| `ResolverSpec.OldestFailover` | cluster/balancer.go:230-247 | if the newest node says `oldest`, removing the allocated node again and again visits all ok nodes in increasing id order and then none |
| `Resolver.SortSlice` | cluster/balancer.go:79-81 | the list is sorted in place |
| `Resolver.NewBalancer` | cluster/balancer.go:70-101 | reorders the caller's list without changing its members; the balancer, which may keep the list, shows `Build` of the original |
| `Resolver.CollectOk` | cluster/resolver.go:110-119 | a new list with each ok node of the service once |
| `Resolver.Resolver.UpdateServiceNodes` | cluster/resolver.go:109-126 | one service's list is replaced by the filter's result, nothing else changes |
| `Resolver.Resolver.UpdateBalancer` | cluster/resolver.go:128-143 | one service's balancer is rebuilt; sorting the shared list changes no index and no other balancer |
| `Resolver.Resolver.Update` | cluster/resolver.go:54-81 | the in-place update refines `ResolverSpec.Update`, with no list shared between services |
| `Resolver.Resolver.Remove` | cluster/resolver.go:84-106 | the in-place removal refines `ResolverSpec.Remove` |
| `Resolver.Resolver.AllocNode` | cluster/resolver.go:151-159 | allocation through the stored balancer, which may share a list, is allocation through its value |
| `Resolver.Resolver.PickNode` | cluster/resolver.go:162-172 | fails if and only if the service has no index entry; otherwise a draw picks the node at that position of the list |
| `Resolver.PickedByOneDraw` | cluster/resolver.go:162-172 | each ok node of the service is picked by exactly one of the draws |
| `Mirror.EntriesGrow` | component/rpc/grpc_server.go:78-82 | if no put drops a service, a later state of a node in etcd offers all that an earlier one did |
| `Mirror.ApplyMirrors` | cluster/registry.go:163-206 | applying an event to a faithful copy keeps the resolver equal to the copy's nodes that have services, with right indexes |
| `Mirror.RunMirrors` | cluster/registry.go:155-246 | the resolver mirrors the copy throughout every run |
| `Mirror.EndToEnd` | cluster/registry.go:155-206 | at every quiescent point the resolver knows exactly etcd's entries with services, and its indexes and balancers are what filtering etcd directly gives |
| `Gateway.Proxy.OnConnect` | component/gateway/proxy.go:457-482 | over session, timer and table objects: the user's other session object is closed, the job stopped, the new session stored if published and closed otherwise; the call is stuck exactly when the job's timer has gone off; no route changes |
| `Gateway.Proxy.OnDisconnect` | component/gateway/proxy.go:485-503 | the hub entry goes exactly if it is this very object; a new timer of the user is running and registered, every earlier timer goes on, and the session is closed |
| `Gateway.Proxy.OnTimer` | component/gateway/proxy.go:497-502 | the nested route table loses exactly the routes of the timer's user, and only if the user is not in the hub |
| `Gateway.Proxy.OnUserConnected` | component/gateway/proxy.go:156-168 | another gateway's event closes the session object in the hub and takes the user's routes out of the table; an own event does nothing |
| `Gateway.Proxy.OnRequest` | component/gateway/proxy.go:505-566 | a request has the outcome and changes the table in memory as the routing rules say, and nothing else of the gateway |
| `Gateway.Proxy.OnNodeGone` | component/gateway/proxy.go:221-223 | the loss of a node changes the routes as the walk over the table does |
| `Sessions.StepKeeps` | component/gateway/proxy.go:155-168 | every step keeps: of two open sessions of a user at two gateways, the later one's event is pending at the earlier gateway; hubs, closed sets and jobs are as below |
| `Sessions.SingleSession` | component/gateway/proxy.go:440-483 | in every run, once no event is pending, a user has at most one open session in the cluster |
| `Sessions.HubOwnership` | component/gateway/proxy.go:695-707 | in every run the hub holds session n of a user if and only if n is the last one stored there and its disconnect has not happened; every other connected one is closed |
| `Sessions.LateDisconnect` | component/gateway/proxy.go:485-487 | a displaced session's late disconnect leaves the hub as it is |
| `Sessions.CleanUpJobs` | component/gateway/proxy.go:464-502 | in every run a returning user's job can be stopped without waiting, and a timer takes away a route if and only if it is its user's and the user is not in the hub |
| `Sessions.DisconnectStartsJob` | component/gateway/proxy.go:496-502 | in every run a disconnection starts and registers a new timer of the user, and all other timers and jobs go on |
| `Sessions.StepRegistered` | component/gateway/proxy.go:464-502 | a job stays registered exactly through the steps that are not the user's return, one of the user's timers firing, or another session of the user ending |
| `Sessions.RoutesAreCleaned` | component/gateway/proxy.go:496-502 | over every run after a disconnection that timer goes on until it fires or the user returns; if the session was the user's last there, no route of the user is left once it fires |
| `Sessions.StepRoute` | component/gateway/proxy.go:155-168 | a route survives every step that does not disturb it, and a timer or an event that disturbs it takes it away |
| `Sessions.StickyAcrossReconnects` | component/gateway/proxy.go:440-566 | after a request succeeded on n, over any run of all gateways with reconnects and displacements that does not disturb the route, the next request that names no node reaches n or fails |
| `Sessions.WhoEndsSessions` | component/gateway/proxy.go:457-462 | in every run a step ends an open session if and only if the user comes again here, its event from elsewhere arrives, or the session itself ends |
| `Sessions.ReturnCancelsJob` | component/gateway/proxy.go:464-470 | in every run connecting leaves no job for the user, its timer will not fire, and the jobs of others go on |
| `Routes.StateTable.Find` | component/gateway/state.go:20-26 | finds exactly the flat map's entry |
| `Routes.StateTable.Store` | component/gateway/state.go:28-34 | adds one entry to the flat map; sessions never share an inner map |
| `Routes.StateTable.Remove` | component/gateway/state.go:36-40 | removes one entry from the flat map |
| `Routes.StateTable.CleanNode` | component/gateway/state.go:42-53 | takes out one matching route in each session that has any |
| `Routes.StateTable.ReplaceNode` | component/gateway/state.go:56-67 | redirects one matching route in each session that has any |
| `Routes.StateTable.CleanSession` | component/gateway/state.go:69-71 | removes all entries of one session |
| `Routes.FirstMatch` | component/gateway/state.go:44-50 | the inner walk finds a route to the node if and only if there is one |
| `Routes.CleanedIff` | component/gateway/state.go:42-53 | no route to the node is left if and only if no session had two |
| `Routes.ReplacedIff` | component/gateway/state.go:56-67 | the same for replacing by a different node |
| `Routes.OnePerSession` | component/gateway/state.go:42-67 | both walks change exactly one matching route per session that has any, and nothing else |
| `Routes.StaleRouteStays` | component/gateway/state.go:47-47 | with two services on one node, whatever the order of the walk, a route to the removed node stays |
| `Routing.GetUpstream` | component/gateway/proxy.go:505-566 | the branching decision with its deferred store is the decision on the flat table |
| `Routing.RequestOutcome` | component/gateway/proxy.go:505-566 | the exact outcome of every request, in every branch and for every error, and the one route it may store |
| `Routing.OneRequest` | component/gateway/proxy.go:527-558 | a failed request leaves the table unchanged; a successful one goes to a known node that is not down and, if stateful, its route is in the table; an existing route changes only for a client that names a node, no other route ever |
| `Routing.RouteStays` | component/gateway/grpc.go:76-106 | a route survives every run of steps that are not about it |
| `Routing.StickyRouting` | component/gateway/proxy.go:536-565 | after a success on n and any run that leaves the route alone, the next request that names no node reaches n if n is known, not down and can be dialled, and fails otherwise |
| `Routing.LazyKeepsItsSessions` | cluster/resolver.go:175-184 | a lazy node is still reached by the sessions routed to it and gets no new ones |
| `Routing.SetServiceRoute` | component/gateway/grpc.go:76-86 | the route of a session in the hub with a well-formed id is in the table afterwards, otherwise the table is unchanged; only a bad id of such a session is refused |
| `Routing.RemoveServiceRoute` | component/gateway/grpc.go:88-91 | the route is gone afterwards and no other changes |
| `Routing.ReplaceServiceRoute` | component/gateway/grpc.go:93-106 | replaces if and only if both ids are well-formed, otherwise changes nothing |
| `Streams.RunSound` | component/gateway/proxy.go:392-436 | in every run the channels in the map of a running loop are open and all other channels have been closed exactly once |
| `Streams.WorkerConservation` | multicast/bus.go:90-152 | in every run each request placed is sent to one worker and is there once, in order, handled, in progress or queued; what is finished is what the workers handled; a channel is closed exactly once, when its worker leaves the map or the loop ends, and never sent into after that |
| `Streams.IdleIsDrained` | component/gateway/proxy.go:405-410 | a worker on time whose idle limit has passed is drained, if capacity + 1 handlings fit into the limit |
| `Streams.TimedOrder` | component/gateway/proxy.go:386-438 | under that bound every run handles each stream one at a time in reception order, and reaped workers are drained |
| `Streams.TwoWorkers` | component/gateway/proxy.go:404-428 | past the bound, some run has two busy workers for one stream |
| `Streams.OrderIff` | component/gateway/proxy.go:386-438 | streams are handled one at a time in all prompt runs if and only if the bound holds |
| `Streams.LimitsInUse` | multicast/bus.go:106-152 | that is the case for the gateway if and only if 11·T ≤ 60 s, and for multicast if and only if 101·T ≤ 300 s |
| `Dispatcher.Dispatcher.Take` | component/gateway/proxy.go:411-428 | the stream has an open worker object of its own afterwards, the one it had if it had one; the objects stay in the states of the run |
| `Dispatcher.Dispatcher.Put` | component/gateway/proxy.go:430-435 | the request is appended to that worker's channel, which is open whatever was reaped, and no other worker changes |
| `Dispatcher.Dispatcher.Begin` | component/gateway/proxy.go:423-427 | a worker's goroutine takes the first request of its own channel, open or closed |
| `Dispatcher.Dispatcher.Sweep` | component/gateway/proxy.go:404-410 | exactly the workers idle for longer than the limit are closed and gone from the map; no channel is closed twice |
| `Dispatcher.Dispatcher.Shutdown` | component/gateway/proxy.go:392-397 | every channel in the map is closed afterwards, each once, and the loop has ended |
| `Framing.FrameRoundTrip` | internal/codec/message.go:43-102 | reading a sent frame gives its payload and leaves what follows, if and only if the length fits 32 bits and the limit (an empty payload always does) |
| `Framing.FrameUnique` | internal/codec/message.go:82-102 | whatever is read as a frame is the encoding of its payload followed by the rest |
| `Framing.StreamRoundTrip` | internal/codec/message.go:43-102 | reading any list of frames gives exactly the payloads in order and then continues with the rest |
| `Framing.StreamUnique` | internal/codec/message.go:82-102 | any stream begins with the encoding of all that is read from it |
| `Framing.CutStream` | internal/codec/message.go:82-102 | a stream cut at any byte yields a prefix of the payloads sent |
| `Framing.Truncated` | internal/codec/message.go:83-101 | a cut frame is reported as cut inside its size or inside its payload |
| `Framing.Oversize` | internal/codec/message.go:90-92 | a frame over the limit is refused with its size before any of its payload is read |
| `Framing.RequestsAreFilled` | component/gateway/tcp.go:145-159 | skipping heartbeats request by request is dropping the empty payloads of the stream |
| `Framing.FilledExact` | component/gateway/tcp.go:151-158 | a list without heartbeats is kept as it is, and a heartbeat anywhere makes no difference |
| `Framing.SentIsReceived` | component/gateway/tcp.go:145-159 | a session receives the non-empty payloads sent, in order, and then a clean end |
| `Framing.SendBytes` | internal/codec/message.go:43-59 | the frame does not depend on what the scratch buffer held |
| `Framing.Reader.ReadFull` | internal/codec/message.go:83-83 | however the bytes arrive in pieces, exactly the wanted ones are delivered, or the end is reported |
| `Framing.Message.Grow` | internal/codec/message.go:95-97 | growing keeps the bytes and gives room for the size |
| `Framing.ReadMessage` | internal/codec/message.go:82-102 | outcome, payload, size and stream position for every input, whatever the reused buffer held; capacity never shrinks, and the size is within it on success |
| `Framing.MessagePool.Get` | internal/codec/message.go:118-128 | an emptied message that shares no buffer with those still in the pool |
| `Framing.MessagePool.Put` | internal/codec/message.go:130-135 | the message joins the pool unless 1024 wait there |
| `Framing.Recv` | component/gateway/tcp.go:135-160 | the next non-empty payload or the error before it, through a pooled buffer |
| `Framing.ReceiveRequests` | component/gateway/proxy.go:263-276 | a session's loop gets exactly the non-empty payloads of its stream, then the stream's error |

## Left out

- etcd, NATS, Redis, gRPC, QUIC, websocket and rxgo: only the interface they are assumed to offer is modelled; dropped notices of the event source (back-pressure) are not.
- Leases and keep-alives (`cluster/registry.go:98-142`), watch retries and their count, and the periodic trigger of resyncs: a resync and a new watch are steps that may happen at any time.
- The connection cache of the resolver (`conns`) and dialling: whether dialling works is a parameter of a request.
- JSON and protobuf encoding: an etcd value decodes or not; a request is its bytes, and a payload that does not decode as a request is not modelled.
- Finer interleavings: inside `onConnect`, inside the timer's callback, or between the outer and inner map of the route table. The results do not hold there.
- Sessions.SingleSession: says at most one session, not exactly one, because two gateways can each close their session on the other's event.
- A guarantee that routes are kept for five minutes: a displaced session's timer is overwritten in `cleanJobs` without being stopped (`component/gateway/proxy.go:497`) and may fire early.
- Hub shutdown, interceptors, the initializer (a refused connection never reaches the hub), session counting, and sending replies and multicasts.
- Requests and multicast messages without a stream: they are handed to a task pool and have no order.
- Multicast shutdown also deletes the workers from its map; the model keeps the map of a stopped loop, which is not used again.
- Balancers registered by applications (`RegisterBalancer`), the quality of `rand.Intn`, and the hash function. Lower-casing is modelled as far as it decides equality with the six built-in names.
- Balancing.ExactShare: weights and sums are unbounded integers, so an overflow of Go's `int` is not modelled.
- Framing.ReadMessage: the two kinds of end of stream (nothing or a part was read) are one error, and a reader's other errors are not told apart from its end.
- Service codes and sizes are unbounded integers except the frame size, which is cut to 32 bits.
- Node lifecycle, options, validation of entries, logging, metrics, the client and the code generator: they would only add easy members.
