/** The part of an etcd server that the controller relies on: a revisioned
    key-value store whose keys may hang on leases with a deadline.

    A revision of 0 stands for an absent key, in transaction comparisons as well
    as in the controller's own bookkeeping. */
module Etcd {
  type Key = string
  type LeaseId = nat

  const NO_LEASE: LeaseId := 0

  datatype KeyValue<V> = KeyValue(value: V, createRevision: nat, modRevision: nat, lease: LeaseId)

  /** `leases` maps every live lease to the instant from which the server may
      expire it; `nextLease` is the identifier the next grant hands out. */
  datatype Server<V> = Server(
    revision: nat,
    kvs: map<Key, KeyValue<V>>,
    leases: map<LeaseId, real>,
    nextLease: LeaseId)

  function EmptyServer<V>(): Server<V> {
    Server(0, map[], map[], 1)
  }

  /** What `Compare::CREATE` sees. */
  function CreateRevision<V>(sv: Server<V>, key: Key): nat {
    if key in sv.kvs then sv.kvs[key].createRevision else 0
  }

  /** What `Compare::MOD` and a range read see. */
  function ModRevision<V>(sv: Server<V>, key: Key): nat {
    if key in sv.kvs then sv.kvs[key].modRevision else 0
  }

  function Put<V>(sv: Server<V>, key: Key, value: V, lease: LeaseId): Server<V> {
    var revision := sv.revision + 1;
    var created := if key in sv.kvs then sv.kvs[key].createRevision else revision;
    sv.(revision := revision, kvs := sv.kvs[key := KeyValue(value, created, revision, lease)])
  }

  function Grant<V>(sv: Server<V>, deadline: real): Server<V> {
    sv.(leases := sv.leases[sv.nextLease := deadline], nextLease := sv.nextLease + 1)
  }

  /** A keep-alive for an unknown lease changes nothing. */
  function KeepAlive<V>(sv: Server<V>, lease: LeaseId, deadline: real): Server<V> {
    if lease in sv.leases then sv.(leases := sv.leases[lease := deadline]) else sv
  }

  /** Expiry deletes the lease together with every key attached to it. */
  function Expire<V>(sv: Server<V>, lease: LeaseId): Server<V> {
    sv.(revision := sv.revision + 1,
        kvs := map k | k in sv.kvs && sv.kvs[k].lease != lease :: sv.kvs[k],
        leases := sv.leases - {lease})
  }

  /** Revisions stored with a key never run ahead of the server, and are never 0. */
  ghost predicate Valid<V>(sv: Server<V>) {
    && 0 < sv.nextLease
    && (forall l :: l in sv.leases ==> 0 < l < sv.nextLease)
    && (forall k :: k in sv.kvs ==>
        && 0 < sv.kvs[k].createRevision <= sv.kvs[k].modRevision <= sv.revision
        && (sv.kvs[k].lease == NO_LEASE || sv.kvs[k].lease in sv.leases))
  }
}
