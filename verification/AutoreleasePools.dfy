/**
 Autorelease pools (include/nupa/runtime.c:117-144, 215-226): a linked stack of growing buffers,
 and what pushing, filling and popping them does to the reference counts.
 */
module AutoreleasePools {
  import opened WeakTable
  import opened Lifecycle

  const INITIAL_POOL_CAPACITY: nat := 16

  class Pool {
    const next: Pool?
    var objects: array<Ref>   // its length is the capacity
    var count: nat

    constructor (next: Pool?)
      ensures this.next == next && fresh(objects) && objects.Length == 0 && count == 0
    {
      this.next := next;
      objects := new Ref[0];
      count := 0;
    }

    ghost predicate Valid()
      reads this
    {
      count <= objects.Length
    }

    ghost function Contents(): seq<Ref>
      requires Valid()
      reads this, objects
    {
      objects[..count]
    }

    /** The buffer doubles when it is full; what was in it stays, in order. */
    method Append(obj: Ref)
      requires Valid()
      modifies this, objects
      ensures Valid()
      ensures objects == old(objects) || fresh(objects)
      ensures Contents() == old(Contents()) + [obj]
      ensures objects.Length == if old(count) < old(objects.Length) then old(objects.Length)
                                else if old(objects.Length) == 0 then INITIAL_POOL_CAPACITY
                                else 2 * old(objects.Length)
    {
      if count >= objects.Length {
        var capacity := if objects.Length != 0 then objects.Length * 2 else INITIAL_POOL_CAPACITY;
        var grown := new Ref[capacity];
        for i := 0 to count
          invariant grown[..i] == old(objects[..i])
          invariant objects == old(objects) && count == old(count)
          modifies grown
        {
          grown[i] := objects[i];
        }
        objects := grown;
      }
      objects[count] := obj;
      count := count + 1;
    }
  }

  /** All pool entries, with multiplicity. */
  ghost function Sum(pooled: seq<seq<Ref>>): multiset<Ref> {
    if pooled == [] then multiset{}
    else Sum(pooled[..|pooled| - 1]) + multiset(pooled[|pooled| - 1])
  }

  lemma {:induction false} SumPush(pooled: seq<seq<Ref>>, top: seq<Ref>)
    ensures Sum(pooled + [top]) == Sum(pooled) + multiset(top)
  {
    assert (pooled + [top])[..|pooled|] == pooled;
  }

  lemma {:induction false} SumAppend(pooled: seq<seq<Ref>>, obj: Ref)
    requires pooled != []
    ensures var last := |pooled| - 1;
            Sum(pooled[last := pooled[last] + [obj]]) == Sum(pooled) + multiset{obj}
  {
    hide Sum;
    var last := |pooled| - 1;
    assert pooled == pooled[..last] + [pooled[last]];
    assert pooled[last := pooled[last] + [obj]] == pooled[..last] + [pooled[last] + [obj]];
    SumPush(pooled[..last], pooled[last]);
    SumPush(pooled[..last], pooled[last] + [obj]);
  }

  /** An owner from outside becomes an entry. */
  lemma {:induction false} MoveIn(claims: multiset<Ref>, entries: multiset<Ref>, obj: Ref)
    requires entries <= claims && obj in claims - entries
    ensures entries + multiset{obj} <= claims
    ensures claims - (entries + multiset{obj}) == claims - entries - multiset{obj}
  {
  }

  lemma {:induction false} SumPrefix(pooled: seq<seq<Ref>>, k: nat)
    requires k < |pooled|
    ensures Sum(pooled[..k]) + multiset(pooled[k]) <= Sum(pooled)
    ensures k == |pooled| - 1 ==> Sum(pooled[..k]) + multiset(pooled[k]) == Sum(pooled)
    decreases |pooled|
  {
    var last := |pooled| - 1;
    if k < last {
      SumPrefix(pooled[..last], k);
      assert pooled[..last][..k] == pooled[..k];
    }
  }

  /** The open pools of a thread. */
  class PoolStack {
    var current: Pool?
    ghost var stack: seq<Pool>          // all open pools, innermost last
    ghost var pooled: seq<seq<Ref>>     // their contents
    ghost var footprint: set<object>

    constructor ()
      ensures Valid() && fresh(footprint) && stack == [] && pooled == []
    {
      current, stack, pooled := null, [], [];
      footprint := {this};
    }

    ghost predicate Linked(i: nat)
      requires i < |stack| == |pooled|
      reads this, footprint
    {
      var p := stack[i];
      && p in footprint && p.objects in footprint
      && p.Valid() && p.Contents() == pooled[i]
      && p.next == if i == 0 then null else stack[i - 1]
    }

    ghost predicate Apart(i: nat, j: nat)
      requires i < j < |stack|
      reads this, footprint
    {
      stack[j] in footprint && stack[i] in footprint && stack[i] != stack[j] && stack[i].objects != stack[j].objects
    }

    ghost predicate Valid()
      reads this, footprint
      ensures Valid() ==> this in footprint
    {
      && this in footprint
      && |stack| == |pooled|
      && current == (if stack == [] then null else stack[|stack| - 1])
      && (forall i :: 0 <= i < |stack| ==> Linked(i))
      && (forall i, j :: 0 <= i < j < |stack| ==> Apart(i, j))
    }

    /** `nupa_autoreleasepoolPush` */
    method Push() returns (pool: Pool)
      requires Valid()
      modifies this
      ensures Valid() && fresh(footprint - old(footprint)) && fresh(pool)
      ensures stack == old(stack) + [pool] && pooled == old(pooled) + [[]]
    {
      pool := new Pool(current);
      current := pool;
      stack, pooled := stack + [pool], pooled + [[]];
      footprint := footprint + {pool, pool.objects};
      forall i | 0 <= i < |stack|
        ensures Linked(i)
      {
        if i < |old(stack)| {
          assert old(Linked(i));
        }
      }
      forall i, j | 0 <= i < j < |stack|
        ensures Apart(i, j)
      {
        assert old(Linked(i));
        if j < |old(stack)| {
          assert old(Apart(i, j));
        }
      }
    }

    /** An entry for the innermost pool; there must be one. */
    method Append(obj: Ref)
      requires Valid() && current != null
      modifies footprint
      ensures Valid() && fresh(footprint - old(footprint))
      ensures stack == old(stack)
      ensures pooled == old(pooled)[|stack| - 1 := old(pooled)[|stack| - 1] + [obj]]
    {
      ghost var last := |stack| - 1;
      assert Linked(last);
      current.Append(obj);
      pooled := pooled[last := pooled[last] + [obj]];
      footprint := footprint + {current.objects};
      forall i | 0 <= i < |stack|
        ensures Linked(i)
      {
        assert old(Linked(i));
        if i < last {
          assert old(Apart(i, last));
        }
      }
      forall i, j | 0 <= i < j < |stack|
        ensures Apart(i, j)
      {
        assert old(Linked(i)) && old(Linked(j)) && old(Apart(i, j));
      }
    }

    /** `current_pool = pool->next`, for the pool at position `k`. */
    method DropTo(pool: Pool, ghost k: nat)
      requires Valid() && k < |stack| && stack[k] == pool
      modifies this
      ensures Valid() && footprint == old(footprint)
      ensures stack == old(stack)[..k] && pooled == old(pooled)[..k]
    {
      assert Linked(k);
      current := pool.next;
      stack, pooled := stack[..k], pooled[..k];
      forall i | 0 <= i < |stack|
        ensures Linked(i)
      {
        assert old(Linked(i));
      }
      forall i, j | 0 <= i < j < |stack|
        ensures Apart(i, j)
      {
        assert old(Apart(i, j));
      }
    }
  }

  /** One thread's state: the counted heap and the open pools. */
  class Thread {
    const runtime: Runtime
    const pools: PoolStack

    constructor (weakVariables: set<Location>)
      requires 0 !in weakVariables
      ensures Valid() && Outside() == multiset{}
      ensures runtime.heap == map[] && pools.stack == []
    {
      runtime := new Runtime(weakVariables);
      pools := new PoolStack();
    }

    /** Every pool entry is an ownership of the object it points to. */
    ghost predicate Valid()
      reads pools, pools.footprint, runtime, runtime.weak
    {
      && pools.Valid() && runtime.Valid()
      && runtime !in pools.footprint && runtime.weak !in pools.footprint
      && Sum(pools.pooled) <= runtime.claims
    }

    /** The owners that are neither instance variables nor pool entries. */
    ghost function Outside(): multiset<Ref>
      reads pools, runtime
    {
      runtime.claims - Sum(pools.pooled)
    }

    /** `nupa_autoreleasepoolPush` */
    method Push() returns (pool: Pool)
      requires Valid()
      modifies pools
      ensures Valid()
      ensures pools.stack == old(pools.stack) + [pool] && pools.pooled == old(pools.pooled) + [[]]
      ensures Outside() == old(Outside())
    {
      SumPush(pools.pooled, []);
      pool := pools.Push();
    }

    /** `nupa_autorelease`: the caller's ownership goes to the innermost pool, if there is one. */
    method Autorelease(obj: Ref) returns (r: Ref)
      requires Valid() && (obj != 0 ==> obj in Outside())
      modifies pools.footprint
      ensures Valid() && r == obj && pools.stack == old(pools.stack)
      ensures pools.pooled == if obj == 0 || pools.stack == [] then old(pools.pooled)
                              else old(pools.pooled)[|pools.stack| - 1 := old(pools.pooled)[|pools.stack| - 1] + [obj]]
      ensures Outside() == if obj == 0 || pools.stack == [] then old(Outside()) else old(Outside()) - multiset{obj}
    {
      r := obj;
      if obj == 0 || pools.current == null {
        return;
      }
      hide Sum;
      SumAppend(pools.pooled, obj);
      MoveIn(runtime.claims, Sum(pools.pooled), obj);
      pools.Append(obj);
    }

    /**
     `nupa_autoreleasepoolPop` of the pool at position `k`: its entries are released once each, in
     the order they were added, and the pool that was current before its push is current again.
     Pools above it, if any, are dropped without releasing anything.
     */
    method Pop(pool: Pool, ghost k: nat)
      requires Valid() && k < |pools.stack| && pools.stack[k] == pool
      modifies pools, runtime, runtime.weak
      ensures Valid()
      ensures pools.stack == old(pools.stack)[..k] && pools.pooled == old(pools.pooled)[..k]
      ensures runtime.log == old(runtime.log) + old(pools.pooled)[k]
      ensures runtime.claims == old(runtime.claims) - multiset(old(pools.pooled)[k])
      ensures k == |old(pools.stack)| - 1 ==> Outside() == old(Outside())
    {
      hide Sum;
      SumPrefix(pools.pooled, k);
      assert pools.Linked(k);
      ReleaseEntries(pool, pools.pooled[k]);
      pools.DropTo(pool, k);
    }

    method ReleaseEntries(pool: Pool, ghost entries: seq<Ref>)
      requires pool.Valid() && pool.Contents() == entries
      requires runtime.Valid() && multiset(entries) <= runtime.claims
      modifies runtime, runtime.weak
      ensures runtime.Valid()
      ensures runtime.log == old(runtime.log) + entries
      ensures runtime.claims == old(runtime.claims) - multiset(entries)
    {
      hide Refs, Owners, WellFormed, Counted, Justified, Cascade, Refines, Tracked, StillTracked, Nulled, Cleanup,
      LeastOrphans, Left;
      ghost var before := runtime.claims;
      AllLeft(before, entries);
      var i := 0;
      while i < pool.count
        invariant runtime.Valid() && i <= |entries|
        invariant runtime.log == old(runtime.log) + entries[..i]
        invariant runtime.claims == Left(before, entries, i)
      {
        NextLeft(before, entries, i);
        var obj := pool.objects[i];
        assert obj == entries[i];
        ghost var freed := runtime.Release(obj);
        i := i + 1;
      }
      assert entries[..i] == entries;
    }
  }
}
