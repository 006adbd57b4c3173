/**
 sweepByIfindex (bpf/maps.go) over a hash map that changes while it is walked. A key has a bucket, whatever the
 kernel's hash makes it; the batch cursor is a bucket index.
 */
module Sweep {
  import opened Sets

  /** What a batch lookup reports: more buckets to come, none left, a bucket too big for the batch, or a failure. */
  datatype Batch = More | EndOfMap | NoSpace | Fault

  /** The kernel's side of a pinned hash map. Entries of the swept interface are no longer written, only evicted. */
  class Table<K(==, !new)> {
    const hash: K -> nat
    const buckets: nat
    const maxEntries: nat
    var keys: set<K>
    /** What Delete has removed so far. */
    ghost var deleted: set<K>
    /** How often the kernel has failed. */
    ghost var failures: nat

    ghost predicate Valid()
      reads this
    {
      |keys| <= maxEntries && buckets > 0 && forall k: K :: hash(k) < buckets
    }

    /** Everyone else's inserts and evictions, at any moment. */
    method Churn(dead: K -> bool)
      requires Valid()
      modifies this`keys
      ensures Valid()
      ensures forall k :: k in keys && dead(k) ==> k in old(keys)
    {
      var next: set<K> := *;
      if |next| <= maxEntries && forall k :: k in next && dead(k) ==> k in keys {
        keys := next;
      }
    }

    /** BPF_MAP_LOOKUP_BATCH: whole buckets from `cursor` on, at most `count` keys in all. */
    method BatchLookup(cursor: nat, count: nat, dead: K -> bool) returns (found: seq<K>, next: nat, r: Batch)
      requires Valid() && cursor <= buckets
      modifies this`keys, this`failures
      ensures Valid()
      ensures forall k :: k in keys && dead(k) ==> k in old(keys)
      ensures cursor <= next <= buckets
      ensures forall k :: k in keys && dead(k) && cursor <= hash(k) < next ==> k in found
      ensures r.More? ==> cursor < next
      ensures failures == old(failures) + if r.Fault? then 1 else 0
      ensures r.EndOfMap? ==> next == buckets
      ensures r.NoSpace? ==> found == [] && count < maxEntries
    {
      found, next := [], cursor;
      while next < buckets
        invariant Valid() && cursor <= next <= buckets && |found| <= count
        invariant forall k :: k in keys && dead(k) ==> k in old(keys)
        invariant forall k :: k in keys && dead(k) && cursor <= hash(k) < next ==> k in found
        invariant found == [] || cursor < next
        invariant failures == old(failures)
      {
        Churn(dead);
        var fault: bool := *;
        if fault {
          failures := failures + 1;
          return found, next, Fault;
        }
        var bucket := set k | k in keys && hash(k) == next;
        SubsetSize(bucket, keys);
        if |found| + |bucket| > count {
          return found, next, if found == [] then NoSpace else More;
        }
        var copied := Listed(bucket);
        found := found + copied;
        next := next + 1;
      }
      r := EndOfMap;
    }

    method Delete(k: K, dead: K -> bool) returns (failed: bool)
      requires Valid()
      modifies this
      ensures Valid()
      ensures forall x :: x in keys && dead(x) ==> x in old(keys)
      ensures !failed ==> k !in keys || !dead(k)
      ensures deleted <= old(deleted) + {k}
      ensures failures == old(failures) + if failed then 1 else 0
    {
      Churn(dead);
      failed := *;
      if failed {
        failures := failures + 1;
      } else if k in keys {
        SubsetSize(keys - {k}, keys);
        keys, deleted := keys - {k}, deleted + {k};
      }
    }
  }

  /** A bucket's keys in some order. */
  method Listed<K(==)>(s: set<K>) returns (list: seq<K>)
    ensures |list| == |s| && forall k :: k in list <==> k in s
  {
    list := [];
    var rest := s;
    while rest != {}
      invariant rest <= s && |list| + |rest| == |s|
      invariant forall k :: k in list <==> k in s && k !in rest
    {
      var k :| k in rest;
      list, rest := list + [k], rest - {k};
    }
  }

  datatype Outcome = Swept | CPUsUnknown | BatchFailed(spaceless: bool) | DeleteFailed

  const SWEEP_BATCH_SIZE := 4096

  /**
   sweepByIfindex. Unless something fails, no key of the interface is left, however the map changed meanwhile;
   only its keys are deleted; and a bucket too big for the batch is never what fails. A map that cannot be
   opened is reported as swept.
   */
  method SweepByIfindex<K(==, !new)>(m: Table<K>, ifindex: nat, keyIfindex: K -> nat,
                                     opens: bool, perCPU: bool, cpusKnown: bool)
    returns (r: Outcome)
    requires m.Valid()
    modifies m
    ensures m.Valid()
    ensures !opens ==> r == Swept && m.keys == old(m.keys) && m.deleted == old(m.deleted)
    ensures opens && r == Swept ==> forall k :: k in m.keys ==> keyIfindex(k) != ifindex
    ensures forall k :: k in m.deleted && k !in old(m.deleted) ==> keyIfindex(k) == ifindex
    ensures r != BatchFailed(true)
    ensures r == Swept <==> !opens || ((perCPU ==> cpusKnown) && m.failures == old(m.failures))
  {
    if !opens {
      return Swept;
    }
    if perCPU && !cpusKnown {
      return CPUsUnknown;
    }
    var dead := k => keyIfindex(k) == ifindex;
    var toDelete: seq<K> := [];
    var cursor: nat, batch: nat := 0, SWEEP_BATCH_SIZE;
    while true
      invariant m.Valid() && cursor <= m.buckets && batch > 0
      invariant m.deleted == old(m.deleted) && m.failures == old(m.failures)
      invariant forall k :: k in toDelete ==> dead(k)
      invariant forall k :: k in m.keys && dead(k) && m.hash(k) < cursor ==> k in toDelete
      decreases m.buckets - cursor, m.maxEntries - batch
    {
      ghost var before := toDelete;
      var keys, next, b := m.BatchLookup(cursor, batch, dead);
      for n := 0 to |keys|
        invariant forall k :: k in toDelete <==> k in before || (k in keys[..n] && dead(k))
      {
        if keyIfindex(keys[n]) == ifindex {
          toDelete := toDelete + [keys[n]];
        }
      }
      cursor := next;
      if b == EndOfMap {
        break;
      }
      if b == NoSpace && batch < m.maxEntries {
        batch := batch * 2;
        continue;
      }
      if b != More {
        return BatchFailed(b == NoSpace);
      }
    }
    r := Swept;
    for n := 0 to |toDelete|
      invariant m.Valid()
      invariant forall k :: k in m.deleted && k !in old(m.deleted) ==> dead(k)
      invariant forall k :: k in m.keys && dead(k) ==> k in toDelete
      invariant r == if m.failures == old(m.failures) then Swept else DeleteFailed
      invariant m.failures >= old(m.failures)
      invariant r == Swept ==> forall j :: 0 <= j < n ==> toDelete[j] !in m.keys
    {
      var failed := m.Delete(toDelete[n], dead);
      if failed {
        r := DeleteFailed;
      }
    }
  }
}
