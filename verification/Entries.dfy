/** Node entries: what a node publishes about itself in etcd. */
module Entries {

  /** A ULID, read as a number: its byte-wise comparison is the comparison of numbers. */
  type NodeId = int

  /** The source keeps the state as text; any other text is possible and is neither ok nor down. */
  datatype NodeState = NodeOk | NodeLazy | NodeDown | OtherState(text: string)

  datatype ServiceDesc = ServiceDesc(
    name: string,
    code: int,
    path: string,
    isPublic: bool,
    balancer: string,
    weight: int,
    stateful: bool,
    allocation: string)

  datatype NodeEntry = NodeEntry(
    id: NodeId,
    name: string,
    state: NodeState,
    endpoint: string,
    services: seq<ServiceDesc>)

  datatype Option<+T> = None | Some(value: T)

  datatype Result<+T, +E> = Success(value: T) | Failure(error: E)

  /** Some service of the entry carries this code. */
  predicate Offers(e: NodeEntry, code: int) {
    Names(e.services, code)
  }

  predicate Names(descs: seq<ServiceDesc>, code: int) {
    exists i :: 0 <= i < |descs| && descs[i].code == code
  }

  /** Only positive codes take part in service discovery. */
  predicate KeepsCodes(older: NodeEntry, newer: NodeEntry) {
    forall i :: 0 <= i < |older.services| && older.services[i].code > 0 ==> Offers(newer, older.services[i].code)
  }

  /** Every node is stored under its own id. */
  predicate Keyed(nodes: map<NodeId, NodeEntry>) {
    forall id :: id in nodes ==> nodes[id].id == id
  }

  function Lookup<K(==), V>(m: map<K, V>, k: K): Option<V> {
    if k in m then Some(m[k]) else None
  }

  /** A walk over a collection takes any element that is left. */
  method Any<T(==)>(s: set<T>) returns (x: T)
    requires s != {}
    ensures x in s
  {
    assert (forall y :: y !in s) ==> s == {};
    x :| x in s;
  }
}
