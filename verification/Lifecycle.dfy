/**
 The reference-counting runtime (include/nupa/runtime.c:111-226): retain, release with its
 cascade through `dealloc`, autorelease and the pools. `dealloc` of an object releases each of
 its strong instance variables once.
 */
module Lifecycle {
  import opened WeakTable

  /** `fields` are the strong instance variables, in the order `dealloc` releases them. */
  datatype Object = Object(retainCount: nat, fields: seq<Ref>)

  type Heap = map<Ref, Object>

  const RETAIN_COUNT_LIMIT: nat := 0x1_0000_0000   // retain_count is a uint32_t

  // ---------------------------------------------------------------- who owns what

  /** The strong instance variables of the objects in `owners`, with multiplicity. */
  ghost function Refs(h: Heap, owners: set<Ref>): multiset<Ref>
    requires owners <= h.Keys
  {
    if owners == {} then multiset{}
    else var x :| x in owners; multiset(h[x].fields) + Refs(h, owners - {x})
  }

  lemma {:induction false} RefsSplit(h: Heap, owners: set<Ref>, x: Ref)
    requires owners <= h.Keys && x in owners
    ensures Refs(h, owners) == multiset(h[x].fields) + Refs(h, owners - {x})
    decreases owners
  {
    var y :| y in owners && Refs(h, owners) == multiset(h[y].fields) + Refs(h, owners - {y});
    if y != x {
      RefsSplit(h, owners - {y}, x);
      RefsSplit(h, owners - {x}, y);
      assert owners - {y} - {x} == owners - {x} - {y};
    }
  }

  lemma {:induction false} RefsSameFields(h: Heap, h': Heap, owners: set<Ref>)
    requires owners <= h.Keys && owners <= h'.Keys
    requires forall x :: x in owners ==> h[x].fields == h'[x].fields
    ensures Refs(h, owners) == Refs(h', owners)
    decreases owners
  {
    if owners != {} {
      var x :| x in owners;
      RefsSplit(h, owners, x);
      RefsSplit(h', owners, x);
      RefsSameFields(h, h', owners - {x});
    }
  }

  lemma {:induction false} RefsMember(h: Heap, owners: set<Ref>, o: Ref)
    requires owners <= h.Keys
    ensures o in Refs(h, owners) <==> exists x :: x in owners && o in h[x].fields
    decreases owners
  {
    if owners != {} {
      var x :| x in owners;
      RefsSplit(h, owners, x);
      RefsMember(h, owners - {x}, o);
    }
  }

  /** The owners of `o`: strong instance variables of live objects, and `claims` for everybody else. */
  ghost function Owners(h: Heap, dying: set<Ref>, claims: multiset<Ref>, o: Ref): nat
    requires dying <= h.Keys
  {
    claims[o] + Refs(h, h.Keys - dying)[o]
  }

  ghost predicate WellFormed(h: Heap, dying: set<Ref>, claims: multiset<Ref>) {
    && 0 !in h && dying <= h.Keys
    && (forall o :: o in claims ==> o == 0 || o in h)
    && (forall x, f :: x in h && x !in dying && f in h[x].fields ==> f == 0 || f in h)
  }

  /**
   Every count is the number of owners. `dying` objects have reached zero and are being deallocated.
   */
  ghost predicate Counted(h: Heap, dying: set<Ref>, claims: multiset<Ref>) {
    && WellFormed(h, dying, claims)
    && (forall o :: o in h ==> h[o].retainCount == Owners(h, dying, claims, o))
    && (forall o :: o in h ==> (h[o].retainCount == 0 <==> o in dying))
  }

  lemma {:induction false} Claimed(h: Heap, dying: set<Ref>, claims: multiset<Ref>, o: Ref)
    requires Counted(h, dying, claims) && o in claims && o != 0
    ensures o in h && o !in dying && h[o].retainCount > 0
  {
    assert Owners(h, dying, claims, o) > 0;
  }

  lemma {:induction false} NilClaim(h: Heap, dying: set<Ref>, claims: multiset<Ref>)
    requires Counted(h, dying, claims)
    ensures dying <= h.Keys && Counted(h, dying, claims - multiset{0})
  {
    forall o | o in h
      ensures Owners(h, dying, claims - multiset{0}, o) == Owners(h, dying, claims, o)
    {
    }
  }

  lemma {:induction false} OwnersSameFields(h: Heap, h': Heap, dying: set<Ref>, claims: multiset<Ref>, o: Ref)
    requires dying <= h.Keys && h'.Keys == h.Keys && forall x :: x in h ==> h[x].fields == h'[x].fields
    ensures Owners(h, dying, claims, o) == Owners(h', dying, claims, o)
  {
    hide Refs;
    RefsSameFields(h, h', h.Keys - dying);
  }

  /** A count drops because one claim was given up. */
  lemma {:induction false} CountedDecrement(h: Heap, dying: set<Ref>, claims: multiset<Ref>, o: Ref)
    requires Counted(h, dying, claims) && o in h && o in claims && h[o].retainCount > 1
    ensures Counted(h[o := h[o].(retainCount := h[o].retainCount - 1)], dying, claims - multiset{o})
  {
    hide Refs;
    var h' := h[o := h[o].(retainCount := h[o].retainCount - 1)];
    forall x | x in h'
      ensures h'[x].retainCount == Owners(h', dying, claims - multiset{o}, x)
    {
      OwnersSameFields(h, h', dying, claims, x);
    }
  }

  /** The last claim is given up: the object dies and its instance variables become claims. */
  lemma {:induction false} CountedDeath(h: Heap, dying: set<Ref>, claims: multiset<Ref>, o: Ref)
    requires Counted(h, dying, claims) && o in h && o in claims && h[o].retainCount == 1
    ensures Counted(h[o := h[o].(retainCount := 0)], dying + {o}, claims - multiset{o} + multiset(h[o].fields))
  {
    hide Refs;
    var h' := h[o := h[o].(retainCount := 0)];
    var claims' := claims - multiset{o} + multiset(h[o].fields);
    assert h'.Keys - (dying + {o}) == h.Keys - dying - {o};
    forall x | x in h'
      ensures h'[x].retainCount == Owners(h', dying + {o}, claims', x)
    {
      OwnersSameFields(h, h', dying, claims, x);
      RefsSplit(h', h'.Keys - dying, o);
    }
    assert WellFormed(h', dying + {o}, claims');
  }

  /** Memory of a dead object, whose instance variables have all been released, is returned. */
  lemma {:induction false} CountedFree(h: Heap, dying: set<Ref>, claims: multiset<Ref>, o: Ref)
    requires Counted(h, dying, claims) && o in dying
    ensures Counted(h - {o}, dying - {o}, claims)
  {
    hide Refs;
    var h' := h - {o};
    assert h'.Keys - (dying - {o}) == h.Keys - dying;
    RefsSameFields(h, h', h.Keys - dying);
    assert Owners(h, dying, claims, o) == 0;
    forall x, f | x in h' && x !in dying - {o} && f in h'[x].fields
      ensures f == 0 || f in h'
    {
      RefsMember(h, h.Keys - dying, f);
    }
  }

  lemma {:induction false} CountedAlloc(h: Heap, claims: multiset<Ref>, o: Ref, fields: seq<Ref>)
    requires Counted(h, {}, claims) && o != 0 && o !in h && forall f :: f in fields ==> f == 0
    ensures Counted(h[o := Object(1, fields)], {}, claims + multiset{o})
  {
    hide Refs;
    var h' := h[o := Object(1, fields)];
    var claims' := claims + multiset{o};
    assert h'.Keys - {} == h.Keys + {o} && h'.Keys - {} - {o} == h.Keys && h.Keys - {} == h.Keys;
    RefsSplit(h', h'.Keys - {}, o);
    RefsSameFields(h, h', h.Keys);
    RefsMember(h, h.Keys, o);
    forall x | x in h'
      ensures h'[x].retainCount == Owners(h', {}, claims', x)
    {
      assert x in h ==> h[x].retainCount == Owners(h, {}, claims, x);
      OnlyNil(fields, x);
    }
  }

  lemma {:induction false} OnlyNil(fields: seq<Ref>, x: Ref)
    requires x != 0 && forall f :: f in fields ==> f == 0
    ensures multiset(fields)[x] == 0
  {
    assert x !in fields;
  }

  lemma {:induction false} CountedRetain(h: Heap, claims: multiset<Ref>, o: Ref)
    requires Counted(h, {}, claims) && o in h
    ensures Counted(h[o := h[o].(retainCount := h[o].retainCount + 1)], {}, claims + multiset{o})
  {
    hide Refs;
    var h' := h[o := h[o].(retainCount := h[o].retainCount + 1)];
    forall x | x in h'
      ensures h'[x].retainCount == Owners(h', {}, claims + multiset{o}, x)
    {
      OwnersSameFields(h, h', {}, claims, x);
    }
  }

  /** Overwriting one instance variable moves one reference. */
  lemma {:induction false} RefsStore(h: Heap, o: Ref, i: nat, v: Ref)
    requires o in h && i < |h[o].fields|
    ensures Refs(h[o := h[o].(fields := h[o].fields[i := v])], h.Keys)
         == Refs(h, h.Keys) - multiset{h[o].fields[i]} + multiset{v}
    ensures h[o].fields[i] in Refs(h, h.Keys)
  {
    hide Refs;
    var fields := h[o].fields;
    var h' := h[o := h[o].(fields := fields[i := v])];
    RefsSplit(h, h.Keys, o);
    RefsSplit(h', h.Keys, o);
    RefsSameFields(h, h', h.Keys - {o});
    assert multiset(fields[i := v]) == multiset(fields) - multiset{fields[i]} + multiset{v};
    assert fields[i] in multiset(fields);
  }

  lemma {:induction false} CountedStore(h: Heap, claims: multiset<Ref>, o: Ref, i: nat, v: Ref)
    requires Counted(h, {}, claims) && o in h && i < |h[o].fields| && (v != 0 ==> v in claims)
    ensures Counted(h[o := h[o].(fields := h[o].fields[i := v])], {}, claims - multiset{v} + multiset{h[o].fields[i]})
  {
    hide Refs;
    var h' := h[o := h[o].(fields := h[o].fields[i := v])];
    var claims' := claims - multiset{v} + multiset{h[o].fields[i]};
    assert h'.Keys - {} == h.Keys && h.Keys - {} == h.Keys;
    RefsStore(h, o, i, v);
    forall x | x in h'
      ensures h'[x].retainCount == Owners(h', {}, claims', x)
    {
      assert h[x].retainCount == Owners(h, {}, claims, x);
    }
    forall x, f | x in h' && f in h'[x].fields
      ensures f == 0 || f in h'
    {
      if f != v {
        assert f in h[x].fields;
      }
    }
  }

  // ---------------------------------------------------------------- which objects a release frees

  ghost function Members(s: seq<Ref>): set<Ref> {
    set x | x in s
  }

  /**
   `deaths` lists objects in the order their counts reached zero. Each of them has no claim left,
   and every live object that refers to it died before it.
   */
  ghost predicate Justified(h: Heap, live: set<Ref>, claims: multiset<Ref>, deaths: seq<Ref>)
    requires live <= h.Keys
  {
    forall i :: 0 <= i < |deaths| ==>
      && deaths[i] in live && deaths[i] !in claims
      && forall y :: y in live && deaths[i] in h[y].fields ==> y in deaths[..i]
  }

  /** What a release does to the heap: exactly the dead are freed, the rest keep their variables. */
  ghost predicate Cascade(h: Heap, dying: set<Ref>, claims: multiset<Ref>, deaths: seq<Ref>, h': Heap)
    requires dying <= h.Keys
  {
    && Justified(h, h.Keys - dying, claims, deaths)
    && h'.Keys == h.Keys - Members(deaths)
    && forall x :: x in h' ==> h'[x].fields == h[x].fields
  }

  lemma {:induction false} CascadeNothing(h: Heap, dying: set<Ref>, claims: multiset<Ref>, h': Heap)
    requires dying <= h.Keys && h'.Keys == h.Keys && forall x :: x in h' ==> h'[x].fields == h[x].fields
    ensures Cascade(h, dying, claims, [], h')
  {
    assert Members([]) == {};
  }

  lemma {:induction false} JustifiedThen(h: Heap, live: set<Ref>, claims: multiset<Ref>, d: seq<Ref>, h1: Heap,
                                         live1: set<Ref>, claims1: multiset<Ref>, d1: seq<Ref>, i: nat)
    requires live <= h.Keys && live1 <= h1.Keys && claims1 <= claims && live1 == live - Members(d)
    requires Justified(h, live, claims, d) && Justified(h1, live1, claims1, d1)
    requires forall x :: x in live1 ==> h1[x].fields == h[x].fields
    requires i < |d + d1|
    ensures var all := d + d1;
            && all[i] in live && all[i] !in claims1
            && forall y :: y in live && all[i] in h[y].fields ==> y in all[..i]
  {
    var all := d + d1;
    if i < |d| {
      assert all[i] == d[i] && all[..i] == d[..i];
    } else {
      var k := i - |d|;
      assert all[i] == d1[k] && all[..i] == d + d1[..k];
      forall y | y in live && all[i] in h[y].fields
        ensures y in all[..i]
      {
        if y !in d {
          assert y in live1 && h1[y].fields == h[y].fields;
        }
      }
    }
  }

  lemma {:induction false} CascadeThen(h: Heap, dying: set<Ref>, claims: multiset<Ref>, d: seq<Ref>, h1: Heap,
                                       claims1: multiset<Ref>, d1: seq<Ref>, h2: Heap)
    requires dying <= h.Keys && dying <= h1.Keys && claims1 <= claims
    requires Cascade(h, dying, claims, d, h1) && Cascade(h1, dying, claims1, d1, h2)
    ensures Cascade(h, dying, claims1, d + d1, h2)
  {
    assert Members(d + d1) == Members(d) + Members(d1);
    assert h1.Keys - dying == h.Keys - dying - Members(d);
    forall i | 0 <= i < |d + d1|
      ensures var all := d + d1;
              && all[i] in h.Keys - dying && all[i] !in claims1
              && forall y :: y in h.Keys - dying && all[i] in h[y].fields ==> y in all[..i]
    {
      JustifiedThen(h, h.Keys - dying, claims, d, h1, h1.Keys - dying, claims1, d1, i);
    }
  }

  lemma {:induction false} CascadeKeeps(h: Heap, dying: set<Ref>, claims: multiset<Ref>, d: seq<Ref>, h': Heap, x: Ref)
    requires dying <= h.Keys && Cascade(h, dying, claims, d, h') && x in dying
    ensures h'.Keys <= h.Keys && x in h' && h'[x].fields == h[x].fields
  {
  }

  lemma {:induction false} NextField(fields: seq<Ref>, i: nat)
    requires i < |fields|
    ensures multiset(fields[..i + 1]) == multiset(fields[..i]) + multiset{fields[i]}
    ensures multiset(fields[..i + 1]) <= multiset(fields)
  {
    assert fields[..i + 1] == fields[..i] + [fields[i]];
    assert fields == fields[..i + 1] + fields[i + 1..];
  }

  lemma {:induction false} NextClaim(claims: multiset<Ref>, entries: seq<Ref>, i: nat)
    requires multiset(entries) <= claims && i < |entries|
    ensures entries[i] in claims - multiset(entries[..i])
    ensures claims - multiset(entries[..i]) - multiset{entries[i]} == claims - multiset(entries[..i + 1])
    ensures claims - multiset(entries[..i + 1]) <= claims - multiset(entries[..i])
  {
    NextField(entries, i);
  }

  /** The claims after the first `i` entries were released. */
  ghost function Left(claims: multiset<Ref>, entries: seq<Ref>, i: nat): multiset<Ref>
    requires i <= |entries|
  {
    claims - multiset(entries[..i])
  }

  lemma {:induction false} AllLeft(claims: multiset<Ref>, entries: seq<Ref>)
    ensures Left(claims, entries, 0) == claims
    ensures Left(claims, entries, |entries|) == claims - multiset(entries)
  {
    assert entries[..0] == [] && entries[..|entries|] == entries;
  }

  lemma {:induction false} NextLeft(claims: multiset<Ref>, entries: seq<Ref>, i: nat)
    requires multiset(entries) <= claims && i < |entries|
    ensures entries[i] in Left(claims, entries, i)
    ensures Left(claims, entries, i) - multiset{entries[i]} == Left(claims, entries, i + 1)
    ensures Left(claims, entries, i + 1) <= Left(claims, entries, i)
    ensures entries[..i + 1] == entries[..i] + [entries[i]]
  {
    hide Left;
    NextClaim(claims, entries, i);
    LeftIs(claims, entries, i);
    LeftIs(claims, entries, i + 1);
  }

  lemma {:induction false} LeftIs(claims: multiset<Ref>, entries: seq<Ref>, i: nat)
    requires i <= |entries|
    ensures Left(claims, entries, i) == claims - multiset(entries[..i])
  {
  }

  /** The only owner of an object with count 1 is the claim that is about to be given up. */
  lemma {:induction false} LastOwner(h: Heap, dying: set<Ref>, claims: multiset<Ref>, o: Ref)
    requires Counted(h, dying, claims) && o in h && o in claims && h[o].retainCount == 1
    ensures o !in dying && o !in claims - multiset{o}
    ensures forall y :: y in h.Keys - dying ==> o !in h[y].fields
  {
    hide Refs;
    assert Owners(h, dying, claims, o) == 1;
    RefsMember(h, h.Keys - dying, o);
  }

  /** A cascade out of the instance variables of `o`, and then the memory of `o`. */
  ghost predicate Destruction(h: Heap, dying: set<Ref>, claims: multiset<Ref>, o: Ref, deaths: seq<Ref>, h': Heap)
    requires dying <= h.Keys
  {
    && Justified(h, h.Keys - (dying + {o}), claims, deaths)
    && h'.Keys == h.Keys - Members(deaths) - {o}
    && forall x :: x in h' ==> h'[x].fields == h[x].fields
  }

  lemma {:induction false} CascadeDeath(h: Heap, dying: set<Ref>, claims: multiset<Ref>, o: Ref, h1: Heap,
                                        d: seq<Ref>, h2: Heap)
    requires dying <= h.Keys && o in h.Keys - dying && o !in claims
    requires forall y :: y in h.Keys - dying ==> o !in h[y].fields
    requires h1 == h[o := h[o].(retainCount := 0)]
    requires Destruction(h1, dying, claims, o, d, h2)
    ensures Cascade(h, dying, claims, [o] + d, h2)
  {
    var all := [o] + d;
    assert Members(all) == {o} + Members(d);
    assert h1.Keys - (dying + {o}) == h.Keys - dying - {o};
    forall i | 0 <= i < |all|
      ensures all[i] in h.Keys - dying && all[i] !in claims
      ensures forall y :: y in h.Keys - dying && all[i] in h[y].fields ==> y in all[..i]
    {
      if i > 0 {
        assert all[i] == d[i - 1] && all[..i] == [o] + d[..i - 1];
        forall y | y in h.Keys - dying && all[i] in h[y].fields
          ensures y in all[..i]
        {
          if y != o {
            assert y in h1.Keys - (dying + {o}) && h1[y].fields == h[y].fields;
          }
        }
      }
    }
  }

  /**
   `s` contains every live object that nobody outside `s` owns: no claims, and only instance
   variables of objects in `s` refer to it.
   */
  ghost predicate ClosedUnderOrphans(h: Heap, live: set<Ref>, claims: multiset<Ref>, s: set<Ref>)
    requires live <= h.Keys
  {
    forall x :: x in live && x !in claims && (forall y :: y in live && x in h[y].fields ==> y in s) ==> x in s
  }

  /** `freed` are the objects left with no owner, and no others. */
  ghost predicate LeastOrphans(h: Heap, claims: multiset<Ref>, freed: set<Ref>) {
    && ClosedUnderOrphans(h, h.Keys, claims, freed)
    && forall s :: ClosedUnderOrphans(h, h.Keys, claims, s) ==> freed <= s
  }

  lemma {:induction false} JustifiedIsLeast(h: Heap, live: set<Ref>, claims: multiset<Ref>, deaths: seq<Ref>,
                                            s: set<Ref>, n: nat)
    requires live <= h.Keys && Justified(h, live, claims, deaths) && ClosedUnderOrphans(h, live, claims, s)
    requires n <= |deaths|
    ensures forall i :: 0 <= i < n ==> deaths[i] in s
    decreases n
  {
    if n > 0 {
      JustifiedIsLeast(h, live, claims, deaths, s, n - 1);
      forall y | y in live && deaths[n - 1] in h[y].fields
        ensures y in s
      {
        var k :| 0 <= k < n - 1 && deaths[k] == y;
      }
    }
  }

  /**
   The freed objects are exactly the objects left with no owner: they are the least set closed
   under "all owners gone". In particular a cycle that is not reachable from them stays.
   */
  lemma {:induction false} FreedExactlyTheOrphans(h: Heap, claims: multiset<Ref>, deaths: seq<Ref>, h': Heap)
    requires Cascade(h, {}, claims, deaths, h') && Counted(h', {}, claims)
    ensures LeastOrphans(h, claims, h.Keys - h'.Keys)
  {
    assert h.Keys - {} == h.Keys;
    forall x | x in h.Keys && x !in claims && forall y :: y in h.Keys && x in h[y].fields ==> y !in h'
      ensures x !in h'
    {
      RefsMember(h', h'.Keys - {}, x);
    }
    forall s | ClosedUnderOrphans(h, h.Keys, claims, s)
      ensures h.Keys - h'.Keys <= s
    {
      JustifiedIsLeast(h, h.Keys, claims, deaths, s, |deaths|);
    }
  }

  // ---------------------------------------------------------------- weak variables of the dead

  ghost function StillTracked(targets: map<Location, Ref>, dead: set<Ref>): map<Location, Ref> {
    map l | l in targets && targets[l] !in dead :: targets[l]
  }

  ghost function Nulled(memory: map<Location, Ref>, targets: map<Location, Ref>, dead: set<Ref>): map<Location, Ref> {
    map l | l in memory :: if l in targets && targets[l] in dead then 0 else memory[l]
  }

  lemma {:induction false} StillTrackedThen(targets: map<Location, Ref>, memory: map<Location, Ref>, d: seq<Ref>,
                                            d1: seq<Ref>)
    ensures StillTracked(StillTracked(targets, Members(d)), Members(d1)) == StillTracked(targets, Members(d + d1))
    ensures Nulled(Nulled(memory, targets, Members(d)), StillTracked(targets, Members(d)), Members(d1))
         == Nulled(memory, targets, Members(d + d1))
  {
    assert Members(d + d1) == Members(d) + Members(d1);
  }

  /** What a release does to the heap and the weak variables. */
  ghost predicate Cleanup(h: Heap, t: map<Location, Ref>, m: map<Location, Ref>, dying: set<Ref>, claims: multiset<Ref>,
                          freed: seq<Ref>, h': Heap, t': map<Location, Ref>, m': map<Location, Ref>)
    requires dying <= h.Keys
  {
    && Cascade(h, dying, claims, freed, h')
    && t' == StillTracked(t, Members(freed))
    && m' == Nulled(m, t, Members(freed))
  }

  /** No weak variable is left dangling by a release. */
  lemma {:induction false} CleanupComplete(h: Heap, t: map<Location, Ref>, m: map<Location, Ref>, dying: set<Ref>,
                                           claims: multiset<Ref>, freed: seq<Ref>, h': Heap, t': map<Location, Ref>,
                                           m': map<Location, Ref>)
    requires dying <= h.Keys && Cleanup(h, t, m, dying, claims, freed, h', t', m')
    ensures NoneDangling(m, t) ==> NoneDangling(m', t')
  {
    hide Cascade;
  }

  lemma {:induction false} CleanupNothing(h: Heap, t: map<Location, Ref>, m: map<Location, Ref>, dying: set<Ref>,
                                          claims: multiset<Ref>, h': Heap)
    requires dying <= h.Keys && h'.Keys == h.Keys && forall x :: x in h' ==> h'[x].fields == h[x].fields
    ensures Cleanup(h, t, m, dying, claims, [], h', t, m)
  {
    CascadeNothing(h, dying, claims, h');
  }

  lemma {:induction false} CleanupThen(h: Heap, t: map<Location, Ref>, m: map<Location, Ref>, dying: set<Ref>,
                                       c1: multiset<Ref>, d1: seq<Ref>, h1: Heap, t1: map<Location, Ref>,
                                       m1: map<Location, Ref>,
                                       c2: multiset<Ref>, d2: seq<Ref>, h2: Heap, t2: map<Location, Ref>,
                                       m2: map<Location, Ref>)
    requires dying <= h.Keys && dying <= h1.Keys && c2 <= c1
    requires Cleanup(h, t, m, dying, c1, d1, h1, t1, m1) && Cleanup(h1, t1, m1, dying, c2, d2, h2, t2, m2)
    ensures Cleanup(h, t, m, dying, c2, d1 + d2, h2, t2, m2)
  {
    CascadeThen(h, dying, c1, d1, h1, c2, d2, h2);
    StillTrackedThen(t, m, d1, d2);
  }

  lemma {:induction false} CleanupKeeps(h: Heap, t: map<Location, Ref>, m: map<Location, Ref>, dying: set<Ref>,
                                        claims: multiset<Ref>, d: seq<Ref>, h': Heap, t': map<Location, Ref>,
                                        m': map<Location, Ref>,
                                        x: Ref)
    requires dying <= h.Keys && Cleanup(h, t, m, dying, claims, d, h', t', m') && x in dying
    ensures h'.Keys <= h.Keys && x in h' && h'[x].fields == h[x].fields
  {
    CascadeKeeps(h, dying, claims, d, h', x);
  }

  lemma {:induction false} ClearedThen(targets: map<Location, Ref>, memory: map<Location, Ref>, o: Ref,
                    targets1: map<Location, Ref>, memory1: map<Location, Ref>, d: seq<Ref>)
    requires targets1 == Without(targets, o)
    requires memory1 == map l | l in memory :: if l in targets && targets[l] == o then 0 else memory[l]
    ensures StillTracked(targets1, Members(d)) == StillTracked(targets, Members([o] + d))
    ensures Nulled(memory1, targets1, Members(d)) == Nulled(memory, targets, Members([o] + d))
  {
    assert Members([o] + d) == {o} + Members(d);
  }

  // ---------------------------------------------------------------- the runtime

  class Runtime {
    var heap: Heap
    const weak: Table

    ghost var dying: set<Ref>         // objects inside their dealloc
    ghost var claims: multiset<Ref>   // ownerships other than instance variables of live objects
    ghost var log: seq<Ref>           // releases not made by a dealloc, in order

    constructor (weakVariables: set<Location>)
      requires 0 !in weakVariables
      ensures Valid() && fresh(weak) && weak.Complete()
      ensures heap == map[] && claims == multiset{} && log == []
    {
      heap, claims, dying, log := map[], multiset{}, {}, [];
      weak := new Table(weakVariables);
    }

    /** Between calls no dealloc is running. */
    ghost predicate Valid()
      reads this, weak
    {
      Sound() && dying == {}
    }

    /** `nupa_alloc`, for an address that the allocator picked; the caller owns the object. */
    method Alloc(address: Ref, ivars: nat)
      requires Valid() && address != 0 && address !in heap
      modifies `heap, `claims
      ensures Valid()
      ensures heap == old(heap)[address := Object(1, seq(ivars, _ => 0))]
      ensures claims == old(claims) + multiset{address}
    {
      hide Refs, Owners, WellFormed, Refines, Tracked;
      CountedAlloc(heap, claims, address, seq(ivars, _ => 0));
      heap := heap[address := Object(1, seq(ivars, _ => 0))];
      claims := claims + multiset{address};
    }

    /**
     `nupa_retain`: one more owner. The counter has 32 bits, so the books are right afterwards
     unless it wrapped.
     */
    method Retain(obj: Ref) returns (r: Ref)
      requires Valid() && (obj != 0 ==> obj in heap)
      modifies `heap, `claims
      ensures r == obj
      ensures obj == 0 ==> heap == old(heap) && claims == old(claims)
      ensures obj != 0 ==> claims == old(claims) + multiset{obj}
      ensures obj != 0 ==>
                var before := old(heap)[obj];
                heap == old(heap)[obj := before.(retainCount := (before.retainCount + 1) % RETAIN_COUNT_LIMIT)]
      ensures obj != 0 && old(heap)[obj].retainCount < RETAIN_COUNT_LIMIT ==>
                (Valid() <==> old(heap)[obj].retainCount != RETAIN_COUNT_LIMIT - 1)
    {
      hide Refs, Refines, Tracked;
      r := obj;
      if obj != 0 {
        heap := heap[obj := heap[obj].(retainCount := (heap[obj].retainCount + 1) % RETAIN_COUNT_LIMIT)];
        claims := claims + multiset{obj};
        if old(heap)[obj].retainCount < RETAIN_COUNT_LIMIT - 1 {
          CountedRetain(old(heap), old(claims), obj);
        }
      }
    }

    /** `obj->ivar = v` of a strong instance variable: the reference moves in, the old one moves out. */
    method StoreIvar(obj: Ref, ivar: nat, v: Ref)
      requires Valid() && obj in heap && ivar < |heap[obj].fields| && (v != 0 ==> v in claims)
      modifies `heap, `claims
      ensures Valid()
      ensures heap == old(heap)[obj := old(heap)[obj].(fields := old(heap)[obj].fields[ivar := v])]
      ensures claims == old(claims) - multiset{v} + multiset{old(heap)[obj].fields[ivar]}
    {
      hide Refs, Owners, WellFormed, Refines, Tracked;
      CountedStore(heap, claims, obj, ivar, v);
      claims := claims - multiset{v} + multiset{heap[obj].fields[ivar]};
      heap := heap[obj := heap[obj].(fields := heap[obj].fields[ivar := v])];
    }

    /**
     A weak variable is set to a live object or NULL. Only live objects have entries before and after, and
     a full table is the only way to a variable that dangles later.
     */
    method StoreWeak(loc: Location, target: Ref)
      requires Valid() && loc in weak.memory && (target != 0 ==> target in heap)
      modifies weak
      ensures Valid() && Tracked(weak.entries) <= heap.Keys
      ensures weak.memory == old(weak.memory)[loc := target]
      ensures weak.targets == if target != 0 && old(weak.HasRoom(target)) then old(weak.targets)[loc := target]
                              else old(weak.targets) - {loc}
      ensures old(weak.Complete()) ==> (weak.Complete() <==> target == 0 || old(weak.HasRoom(target)))
    {
      hide Refs, Owners, WellFormed, Counted, Refines;
      weak.Store(loc, target);
    }

    /** A weak local comes into scope. */
    method DeclareWeak(loc: Location, target: Ref)
      requires Valid() && loc != 0 && loc !in weak.memory && (target != 0 ==> target in heap)
      modifies weak
      ensures Valid() && Tracked(weak.entries) <= heap.Keys
      ensures weak.memory == old(weak.memory)[loc := target]
      ensures weak.targets == if target != 0 && old(weak.HasRoom(target)) then old(weak.targets)[loc := target]
                              else old(weak.targets)
      ensures old(weak.Complete()) ==> (weak.Complete() <==> target == 0 || old(weak.HasRoom(target)))
    {
      hide Refs, Owners, WellFormed, Counted, Refines;
      weak.Declare(loc, target);
    }

    /** A weak local goes out of scope; nothing points to its place any more. */
    method EndWeak(loc: Location)
      requires Valid()
      modifies weak
      ensures Valid() && Tracked(weak.entries) <= heap.Keys
      ensures weak.memory == old(weak.memory) - {loc} && weak.targets == old(weak.targets) - {loc}
      ensures old(weak.Complete()) ==> weak.Complete()
    {
      hide Refs, Owners, WellFormed, Counted, Refines;
      weak.AutoCleanup(loc);
    }

    ghost predicate Sound()
      reads this, weak
    {
      && weak.Valid()
      && dying <= heap.Keys && Counted(heap, dying, claims)
      && Tracked(weak.entries) <= heap.Keys - dying
    }

    /** `freed` died: their memory is gone, and every weak variable that pointed to them is NULL. */
    twostate predicate Freed(freed: seq<Ref>)
      requires old(dying) <= old(heap.Keys)
      reads this, weak
    {
      && Cleanup(old(heap), old(weak.targets), old(weak.memory), old(dying), claims, freed,
                 heap, weak.targets, weak.memory)
      && Tracked(weak.entries) <= old(Tracked(weak.entries))
    }

    /** `nupa_release`, called by somebody who owns `obj`. */
    method Release(obj: Ref) returns (ghost freed: seq<Ref>)
      requires Sound() && (obj != 0 ==> obj in claims)
      modifies `heap, `dying, `claims, `log, weak
      ensures Sound()
      ensures claims == old(claims) - multiset{obj} && dying == old(dying)
      ensures log == if old(dying) == {} then old(log) + [obj] else old(log)
      ensures Freed(freed)
      ensures dying == {} ==> LeastOrphans(old(heap), claims, old(heap).Keys - heap.Keys)
      ensures old(weak.Complete()) ==> weak.Complete()
      decreases heap.Keys - dying, 1
    {
      hide LeastOrphans, Refs, Owners, WellFormed, Counted, Justified, Refines, Tracked, Members, StillTracked,
      Nulled, Cascade, Destruction;
      freed := [];
      if dying == {} {
        log := log + [obj];
      }
      if obj == 0 {
        NilClaim(heap, dying, claims);
        claims := claims - multiset{obj};
        CleanupNothing(heap, weak.targets, weak.memory, dying, claims, heap);
        if dying == {} {
          FreedExactlyTheOrphans(heap, claims, freed, heap);
        }
        return;
      }
      Claimed(heap, dying, claims, obj);
      if heap[obj].retainCount > 0 {
        heap := heap[obj := heap[obj].(retainCount := heap[obj].retainCount - 1)];
      }
      if heap[obj].retainCount == 0 {
        LastOwner(old(heap), dying, claims, obj);
        CountedDeath(old(heap), dying, claims, obj);
        claims := claims - multiset{obj};
        ghost var before := heap;
        freed := Destroy(obj);
        CascadeDeath(old(heap), dying, claims, obj, before, freed, heap);
        freed := [obj] + freed;
      } else {
        CountedDecrement(old(heap), dying, claims, obj);
        claims := claims - multiset{obj};
        CleanupNothing(old(heap), weak.targets, weak.memory, dying, claims, heap);
      }
      CleanupComplete(old(heap), old(weak.targets), old(weak.memory), dying, claims, freed, heap, weak.targets,
          weak.memory);
      if dying == {} {
        FreedExactlyTheOrphans(old(heap), claims, freed, heap);
      }
    }

    /** The part of `nupa_release` for a count of zero: clear weak references, dealloc, free. */
    method Destroy(obj: Ref) returns (ghost freed: seq<Ref>)
      requires weak.Valid() && obj != 0 && obj in heap && obj !in dying && dying <= heap.Keys
      requires Counted(heap, dying + {obj}, claims + multiset(heap[obj].fields))
      requires Tracked(weak.entries) <= heap.Keys - dying
      modifies `heap, `dying, `claims, `log, weak
      ensures Sound() && claims == old(claims) && dying == old(dying) && log == old(log)
      ensures Destruction(old(heap), dying, claims, obj, freed, heap)
      ensures weak.targets == StillTracked(old(weak.targets), Members([obj] + freed))
      ensures weak.memory == Nulled(old(weak.memory), old(weak.targets), Members([obj] + freed))
      ensures Tracked(weak.entries) <= old(Tracked(weak.entries))
      decreases heap.Keys - dying, 0
    {
      hide Refs, Owners, WellFormed, Counted, Justified, Refines, Tracked, Members, StillTracked, Nulled, Without,
        LeastOrphans, NoneDangling;
      weak.ClearAll(obj);
      claims := claims + multiset(heap[obj].fields);
      dying := dying + {obj};
      ghost var targets, memory := weak.targets, weak.memory;
      freed := Dealloc(obj);
      CountedFree(heap, dying, claims, obj);
      heap := heap - {obj};
      dying := dying - {obj};
      ClearedThen(old(weak.targets), old(weak.memory), obj, targets, memory, freed);
    }

    /** The dealloc of `obj`: its strong instance variables are released one after the other. */
    method Dealloc(obj: Ref) returns (ghost freed: seq<Ref>)
      requires Sound() && obj in dying && multiset(heap[obj].fields) <= claims
      modifies `heap, `dying, `claims, `log, weak
      ensures Sound()
      ensures claims == old(claims) - multiset(old(heap[obj].fields)) && dying == old(dying)
      ensures log == old(log)
      ensures Freed(freed)
      decreases heap.Keys - dying, 2
    {
      hide Refs, Owners, WellFormed, Counted, Justified, Refines, Tracked, Members, StillTracked, Nulled, Cascade,
      Cleanup, LeastOrphans, NoneDangling, Left;
      freed := [];
      ghost var fields := heap[obj].fields;
      CleanupNothing(heap, weak.targets, weak.memory, dying, claims, heap);
      AllLeft(claims, fields);
      var i := 0;
      while i < |heap[obj].fields|
        invariant Sound() && dying == old(dying) && log == old(log)
        invariant obj in heap && heap[obj].fields == fields && i <= |fields|
        invariant claims == Left(old(claims), fields, i)
        invariant Freed(freed) && heap.Keys <= old(heap.Keys)
        decreases |fields| - i
      {
        NextLeft(old(claims), fields, i);
        ghost var h, t, m, c := heap, weak.targets, weak.memory, claims;
        ghost var more := Release(heap[obj].fields[i]);
        CleanupThen(old(heap), old(weak.targets), old(weak.memory), dying, c, freed, h, t, m,
                    claims, more, heap, weak.targets, weak.memory);
        CleanupKeeps(h, t, m, dying, claims, more, heap, weak.targets, weak.memory, obj);
        freed := freed + more;
        i := i + 1;
      }
    }
  }
}
