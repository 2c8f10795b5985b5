/**
 Object and vtable layout (crates/codegen/src/codegen.rs:4398-4492, 6046-6139): the inheritance
 depths, the sort by depth, the in-place merge of inherited methods, and what ends up in the slots.
 */
module Vtable {
  import opened Wrappers

  /** One position of the parallel method vectors; `signature` is return type and parameters. */
  datatype Method = Method(name: string, isClass: bool, signature: string, owner: string)

  datatype Class = Class(name: string, super: Option<string>, methods: seq<Method>, ivars: seq<string>)

  // ---------------------------------------------------------------- looking things up

  /** `iter().position(|n| n == name)`, or -1 */
  function Find(names: seq<string>, name: string): (i: int)
    ensures -1 <= i < |names|
    ensures i >= 0 ==> names[i] == name && forall k :: 0 <= k < i ==> names[k] != name
    ensures i < 0 ==> forall k :: 0 <= k < |names| ==> names[k] != name
  {
    if names == [] then -1
    else if names[0] == name then 0
    else var p := Find(names[1..], name); if p < 0 then -1 else p + 1
  }

  function Position(ms: seq<Method>, name: string): (i: int)
    ensures -1 <= i < |ms|
    ensures i >= 0 ==> ms[i].name == name && forall k :: 0 <= k < i ==> ms[k].name != name
    ensures i < 0 ==> forall k :: 0 <= k < |ms| ==> ms[k].name != name
  {
    var names := seq(|ms|, k requires 0 <= k < |ms| => ms[k].name);
    assert forall k :: 0 <= k < |ms| ==> names[k] == ms[k].name;
    Find(names, name)
  }

  function ClassIndex(cs: seq<Class>, name: string): (i: int)
    ensures -1 <= i < |cs|
    ensures i >= 0 ==> cs[i].name == name && forall k :: 0 <= k < i ==> cs[k].name != name
    ensures i < 0 ==> forall k :: 0 <= k < |cs| ==> cs[k].name != name
  {
    var names := seq(|cs|, k requires 0 <= k < |cs| => cs[k].name);
    assert forall k :: 0 <= k < |cs| ==> names[k] == cs[k].name;
    Find(names, name)
  }

  /** The index of the superclass, or -1 for a root or a superclass of another unit. */
  function Super(cs: seq<Class>, i: nat): (s: int)
    requires i < |cs|
    ensures -1 <= s < |cs|
    ensures s >= 0 ==> cs[i].super == Some(cs[s].name)
  {
    if cs[i].super.Some? then ClassIndex(cs, cs[i].super.value) else -1
  }

  ghost predicate UniqueNames(cs: seq<Class>) {
    forall i, j :: 0 <= i < j < |cs| ==> cs[i].name != cs[j].name
  }

  // ---------------------------------------------------------------- acyclic inheritance

  /** The class `n` superclass links above `i`, or -1. */
  function Up(cs: seq<Class>, i: int, n: nat): (j: int)
    requires i < |cs|
    ensures j < |cs| && (i >= -1 ==> j >= -1)
    decreases n
  {
    if n == 0 || i < 0 then i else Up(cs, Super(cs, i), n - 1)
  }

  /** No class is among its own ancestors. */
  ghost predicate Acyclic(cs: seq<Class>) {
    forall i, n :: 0 <= i < |cs| && n > 0 ==> Up(cs, i, n) != i
  }

  lemma {:induction false} UpSum(cs: seq<Class>, i: int, m: nat, n: nat)
    requires -1 <= i < |cs|
    ensures Up(cs, i, m + n) == Up(cs, Up(cs, i, m), n)
    decreases m
  {
    if m > 0 && i >= 0 {
      UpSum(cs, Super(cs, i), m - 1, n);
    }
  }

  /** The classes met in the first `n` steps from `i`. */
  ghost function Met(cs: seq<Class>, i: nat, n: nat): set<int>
    requires i < |cs|
  {
    set k | 0 <= k < n :: Up(cs, i, k)
  }

  /** As long as the walk goes on, every step meets a new class. */
  lemma {:induction false} MeetsNew(cs: seq<Class>, i: nat, n: nat)
    requires Acyclic(cs) && i < |cs| && forall k :: 0 <= k < n ==> Up(cs, i, k) >= 0
    ensures |Met(cs, i, n)| == n
    decreases n
  {
    if n > 0 {
      MeetsNew(cs, i, n - 1);
      forall k | 0 <= k < n - 1
        ensures Up(cs, i, k) != Up(cs, i, n - 1)
      {
        UpSum(cs, i, k, n - 1 - k);
      }
      assert Met(cs, i, n) == Met(cs, i, n - 1) + {Up(cs, i, n - 1)};
    } else {
      assert Met(cs, i, 0) == {};
    }
  }

  ghost function Range(n: nat): (r: set<int>)
    ensures |r| == n && forall k :: k in r <==> 0 <= k < n
  {
    if n == 0 then {} else Range(n - 1) + {n - 1}
  }

  lemma {:induction false} NoMoreThanAll(cs: seq<Class>, i: nat, n: nat)
    requires Acyclic(cs) && i < |cs| && forall k :: 0 <= k < n ==> Up(cs, i, k) >= 0
    ensures n <= |cs|
  {
    MeetsNew(cs, i, n);
    var met, all := Met(cs, i, n), Range(|cs|);
    assert met <= all;
    assert all == met + (all - met);
  }

  /** The walk upwards ends, within as many steps as there are classes. */
  lemma {:induction false} WalkEnds(cs: seq<Class>, i: nat)
    requires Acyclic(cs) && i < |cs|
    ensures Up(cs, i, |cs|) == -1
  {
    if Up(cs, i, |cs|) >= 0 {
      forall k | 0 <= k <= |cs|
        ensures Up(cs, i, k) >= 0
      {
        UpSum(cs, i, k, |cs| - k);
      }
      NoMoreThanAll(cs, i, |cs| + 1);
    }
  }

  /** How many steps the walk from `i` takes. */
  ghost function StepsUp(cs: seq<Class>, i: int, n: nat): nat
    requires -1 <= i < |cs| && Up(cs, i, n) == -1
    decreases n
  {
    if i < 0 then 0 else 1 + StepsUp(cs, Super(cs, i), n - 1)
  }

  lemma {:induction false} StepsUpSame(cs: seq<Class>, i: int, m: nat, n: nat)
    requires -1 <= i < |cs| && Up(cs, i, m) == -1 && Up(cs, i, n) == -1
    ensures StepsUp(cs, i, m) == StepsUp(cs, i, n)
    decreases m
  {
    if i >= 0 {
      StepsUpSame(cs, Super(cs, i), m - 1, n - 1);
    }
  }

  /** Inheritance is acyclic iff the classes can be numbered so that the number grows along every link. */
  lemma {:induction false} AcyclicIffRanked(cs: seq<Class>)
    ensures Acyclic(cs) <==> exists rank :: Ranked(cs, rank)
  {
    if Acyclic(cs) {
      forall i | 0 <= i < |cs|
        ensures Up(cs, i, |cs|) == -1
      {
        WalkEnds(cs, i);
      }
      var rank := seq(|cs|, i requires 0 <= i < |cs| => StepsUp(cs, i, |cs|));
      forall i | 0 <= i < |cs| && Super(cs, i) >= 0
        ensures rank[i] > rank[Super(cs, i)]
      {
        WalkEnds(cs, i);
        WalkEnds(cs, Super(cs, i));
        assert Up(cs, i, |cs|) == Up(cs, Super(cs, i), |cs| - 1);
        StepsUpSame(cs, Super(cs, i), |cs| - 1, |cs|);
      }
      assert Ranked(cs, rank);
    }
    if rank :| Ranked(cs, rank) {
      forall i, n | 0 <= i < |cs| && n > 0
        ensures Up(cs, i, n) != i
      {
        RankFalls(cs, rank, i, n);
      }
    }
  }

  lemma {:induction false} RankFalls(cs: seq<Class>, rank: seq<nat>, i: nat, n: nat)
    requires Ranked(cs, rank) && i < |cs|
    ensures Up(cs, i, n) >= 0 ==> rank[Up(cs, i, n)] + n <= rank[i]
    decreases n
  {
    if n > 0 && Super(cs, i) >= 0 {
      RankFalls(cs, rank, Super(cs, i), n - 1);
    }
  }

  // ---------------------------------------------------------------- depths

  /** A numbering that grows along every superclass link. */
  ghost predicate Ranked(cs: seq<Class>, rank: seq<nat>) {
    |rank| == |cs| && forall i :: 0 <= i < |cs| && Super(cs, i) >= 0 ==> rank[i] > rank[Super(cs, i)]
  }

  /** The number of ancestors in the unit. */
  ghost predicate IsDepth(cs: seq<Class>, depth: seq<nat>) {
    |depth| == |cs|
    && forall i :: 0 <= i < |cs| ==> depth[i] == if Super(cs, i) >= 0 then depth[Super(cs, i)] + 1 else 0
  }

  ghost function Sum(s: seq<nat>): nat {
    if s == [] then 0 else s[0] + Sum(s[1..])
  }

  lemma {:induction false} SumUpdate(s: seq<nat>, i: nat, v: nat)
    requires i < |s|
    ensures Sum(s[i := v]) == Sum(s) - s[i] + v
    decreases |s|
  {
    if i > 0 {
      assert s[i := v][1..] == s[1..][i - 1 := v];
      SumUpdate(s[1..], i - 1, v);
    } else {
      assert s[0 := v][1..] == s[1..];
    }
  }

  lemma {:induction false} SumMonotone(a: seq<nat>, b: seq<nat>)
    requires |a| == |b| && forall i :: 0 <= i < |a| ==> a[i] <= b[i]
    ensures Sum(a) <= Sum(b)
    decreases |a|
  {
    if a != [] {
      SumMonotone(a[1..], b[1..]);
    }
  }

  /** No class is recorded deeper than its superclass allows. */
  ghost predicate Supported(cs: seq<Class>, depth: seq<nat>) {
    |depth| == |cs|
    && forall i :: 0 <= i < |cs| && depth[i] > 0 ==> Super(cs, i) >= 0 && depth[i] <= depth[Super(cs, i)] + 1
  }

  ghost predicate Bounded(depth: seq<nat>, rank: seq<nat>) {
    |depth| == |rank| && forall i :: 0 <= i < |depth| ==> depth[i] <= rank[i]
  }

  ghost predicate RelaxedUpTo(cs: seq<Class>, depth: seq<nat>, n: nat)
    requires |depth| == |cs| && n <= |cs|
  {
    forall k :: 0 <= k < n && Super(cs, k) >= 0 ==> depth[Super(cs, k)] + 1 <= depth[k]
  }

  /** One relaxation step. */
  lemma {:induction false} Raise(cs: seq<Class>, rank: seq<nat>, depth: seq<nat>, i: nat)
    requires Ranked(cs, rank) && Supported(cs, depth) && Bounded(depth, rank)
    requires i < |cs| && Super(cs, i) >= 0 && depth[Super(cs, i)] + 1 > depth[i]
    ensures var after := depth[i := depth[Super(cs, i)] + 1];
            Supported(cs, after) && Bounded(after, rank) && Sum(after) > Sum(depth)
  {
    SumUpdate(depth, i, depth[Super(cs, i)] + 1);
  }

  lemma {:induction false} StartAtZero(cs: seq<Class>, rank: seq<nat>, depth: seq<nat>)
    requires |rank| == |cs| == |depth| && forall i :: 0 <= i < |depth| ==> depth[i] == 0
    ensures Supported(cs, depth) && Bounded(depth, rank)
  {
  }

  /** The relaxation loop ends on every acyclic unit, with the depth of every class. */
  method Depths(cs: seq<Class>) returns (depth: seq<nat>)
    requires Acyclic(cs)
    ensures IsDepth(cs, depth)
  {
    hide Super, Acyclic, Ranked, Supported, Bounded, Sum, RelaxedUpTo, IsDepth;
    AcyclicIffRanked(cs);
    ghost var rank :| Ranked(cs, rank);
    depth := seq(|cs|, _ => 0);
    assert |rank| == |cs| by { RankLength(cs, rank); }
    StartAtZero(cs, rank, depth);
    var changed := true;
    while changed
      invariant |depth| == |cs| && Supported(cs, depth) && Bounded(depth, rank)
      invariant !changed ==> RelaxedUpTo(cs, depth, |cs|)
      decreases Sum(rank) - Sum(depth), changed
    {
      changed := false;
      ghost var before := Sum(depth);
      RelaxedNone(cs, depth);
      for i := 0 to |cs|
        invariant |depth| == |cs| && Supported(cs, depth) && Bounded(depth, rank)
        invariant if changed then Sum(depth) > before else Sum(depth) == before && RelaxedUpTo(cs, depth, i)
      {
        var s := Super(cs, i);
        RelaxedNext(cs, depth, i);
        if s >= 0 {
          var d := depth[s] + 1;
          if d > depth[i] {
            Raise(cs, rank, depth, i);
            depth := depth[i := d];
            changed := true;
          }
        }
      }
      BoundedSum(depth, rank);
    }
    RelaxedIsDepth(cs, depth);
  }

  lemma {:induction false} RankLength(cs: seq<Class>, rank: seq<nat>)
    requires Ranked(cs, rank)
    ensures |rank| == |cs|
  {
  }

  lemma {:induction false} RelaxedNone(cs: seq<Class>, depth: seq<nat>)
    requires |depth| == |cs|
    ensures RelaxedUpTo(cs, depth, 0)
  {
  }

  lemma {:induction false} RelaxedNext(cs: seq<Class>, depth: seq<nat>, i: nat)
    requires |depth| == |cs| && i < |cs|
    ensures RelaxedUpTo(cs, depth, i) && (Super(cs, i) >= 0 ==> depth[Super(cs, i)] + 1 <= depth[i]) ==>
              RelaxedUpTo(cs, depth, i + 1)
  {
  }

  lemma {:induction false} BoundedSum(depth: seq<nat>, rank: seq<nat>)
    requires Bounded(depth, rank)
    ensures Sum(depth) <= Sum(rank)
  {
    SumMonotone(depth, rank);
  }

  lemma {:induction false} RelaxedIsDepth(cs: seq<Class>, depth: seq<nat>)
    requires Supported(cs, depth) && RelaxedUpTo(cs, depth, |cs|)
    ensures IsDepth(cs, depth)
  {
  }

  /**
   A round of the loop changes nothing only when every class is deeper than its superclass; some vector is
   like that iff inheritance is acyclic. On a cyclic unit the loop therefore never stops.
   */
  lemma {:induction false} StopsIffAcyclic(cs: seq<Class>)
    ensures Acyclic(cs) <==> exists depth: seq<nat> :: |depth| == |cs| && RelaxedUpTo(cs, depth, |cs|)
  {
    hide Acyclic;
    AcyclicIffRanked(cs);
    if rank :| Ranked(cs, rank) {
      assert RelaxedUpTo(cs, rank, |cs|);
    }
    if depth: seq<nat> :| |depth| == |cs| && RelaxedUpTo(cs, depth, |cs|) {
      assert Ranked(cs, depth);
    }
  }

  // ---------------------------------------------------------------- sorting by depth

  function Zip(cs: seq<Class>, depth: seq<nat>): (z: seq<(Class, nat)>)
    requires |cs| == |depth|
    ensures |z| == |cs| && forall i :: 0 <= i < |z| ==> z[i] == (cs[i], depth[i])
  {
    seq(|cs|, i requires 0 <= i < |cs| => (cs[i], depth[i]))
  }

  /** Every class with its depth. */
  ghost function Pairs(cs: seq<Class>, depth: seq<nat>): multiset<(Class, nat)>
    requires |cs| == |depth|
  {
    multiset(Zip(cs, depth))
  }

  lemma {:induction false} SwapPermutes<T>(s: seq<T>, i: nat, j: nat)
    requires i < |s| && j < |s|
    ensures multiset(s[i := s[j]][j := s[i]]) == multiset(s)
  {
  }

  method Swap(classes: array<Class>, depth: array<nat>, i: nat, j: nat)
    requires i < j < classes.Length == depth.Length
    modifies classes, depth
    ensures classes[..] == old(classes[..])[i := old(classes[j])][j := old(classes[i])]
    ensures depth[..] == old(depth[..])[i := old(depth[j])][j := old(depth[i])]
    ensures Pairs(classes[..], depth[..]) == old(Pairs(classes[..], depth[..]))
  {
    ghost var z := Zip(classes[..], depth[..]);
    classes[i], classes[j] := classes[j], classes[i];
    depth[i], depth[j] := depth[j], depth[i];
    SwapPermutes(z, i, j);
    assert Zip(classes[..], depth[..]) == z[i := z[j]][j := z[i]];
  }

  ghost predicate InOrder(depth: seq<nat>) {
    forall i, j :: 0 <= i < j < |depth| ==> depth[i] <= depth[j]
  }

  /** The exchange sort: classes and depths move together, and none does if they are in order already. */
  method SortByDepth(classes: array<Class>, depth: array<nat>)
    requires classes.Length == depth.Length
    modifies classes, depth
    ensures forall i, j :: 0 <= i < j < depth.Length ==> depth[i] <= depth[j]
    ensures Pairs(classes[..], depth[..]) == old(Pairs(classes[..], depth[..]))
    ensures old(InOrder(depth[..])) ==> classes[..] == old(classes[..]) && depth[..] == old(depth[..])
  {
    hide Pairs;
    var n := classes.Length;
    for i := 0 to n
      invariant Pairs(classes[..], depth[..]) == old(Pairs(classes[..], depth[..]))
      invariant old(InOrder(depth[..])) ==> classes[..] == old(classes[..]) && depth[..] == old(depth[..])
      invariant forall a, b :: 0 <= a < i && a < b < n ==> depth[a] <= depth[b]
    {
      for j := i + 1 to n
        invariant Pairs(classes[..], depth[..]) == old(Pairs(classes[..], depth[..]))
        invariant old(InOrder(depth[..])) ==> classes[..] == old(classes[..]) && depth[..] == old(depth[..])
        invariant forall a, b :: 0 <= a < i && a < b < n ==> depth[a] <= depth[b]
        invariant forall b :: i <= b < j ==> depth[i] <= depth[b]
      {
        assert depth[j] == depth[..][j] && depth[i] == depth[..][i];
        if depth[j] < depth[i] {
          Swap(classes, depth, i, j);
        }
      }
    }
  }

  // ---------------------------------------------------------------- superclass chains

  /** A class and its ancestors in the unit, nearest first. */
  ghost function Chain(cs: seq<Class>, depth: seq<nat>, i: nat): (chain: seq<Class>)
    requires IsDepth(cs, depth) && i < |cs|
    ensures chain != [] && chain[0] == cs[i] && |chain| == depth[i] + 1
    decreases depth[i]
  {
    if Super(cs, i) >= 0 then [cs[i]] + Chain(cs, depth, Super(cs, i)) else [cs[i]]
  }

  lemma {:induction false} SuperByName(cs: seq<Class>, i: nat, s: nat)
    requires UniqueNames(cs) && i < |cs| && s < |cs| && cs[i].super == Some(cs[s].name)
    ensures Super(cs, i) == s
  {
    var p := ClassIndex(cs, cs[s].name);
    assert 0 <= p <= s;
  }

  ghost predicate Reordered(cs: seq<Class>, depth: seq<nat>, cs': seq<Class>, depth': seq<nat>) {
    && |depth| == |cs| && |depth'| == |cs'|
    && Pairs(cs, depth) == Pairs(cs', depth')
  }

  /** Where a class of one order is in the other. */
  lemma {:induction false} Relocate(cs: seq<Class>, depth: seq<nat>, cs': seq<Class>, depth': seq<nat>, i: nat)
    returns (a: nat)
    requires Reordered(cs, depth, cs', depth') && i < |cs'|
    ensures a < |cs| && cs[a] == cs'[i] && depth[a] == depth'[i]
  {
    var z, z' := Zip(cs, depth), Zip(cs', depth');
    assert z'[i] in multiset(z');
    assert z'[i] in z;
    a :| 0 <= a < |z| && z[a] == z'[i];
  }

  lemma {:induction false} NoRepeats<T>(s: seq<T>, i: nat, j: nat)
    requires i < j < |s| && s[i] == s[j]
    ensures multiset(s)[s[i]] >= 2
  {
    assert s == s[..j] + [s[j]] + s[j + 1..];
    assert s[..j][i] in multiset(s[..j]);
  }

  lemma {:induction false} OnceOnly<T>(s: seq<T>, x: T, k: nat)
    requires k <= |s| && forall i, j :: 0 <= i < j < |s| ==> s[i] != s[j]
    ensures multiset(s[..k])[x] <= 1 && (multiset(s[..k])[x] == 1 ==> exists i :: 0 <= i < k && s[i] == x)
    decreases k
  {
    if k > 0 {
      OnceOnly(s, x, k - 1);
      assert s[..k] == s[..k - 1] + [s[k - 1]];
    }
  }

  lemma {:induction false} UniqueNamesReordered(cs: seq<Class>, depth: seq<nat>, cs': seq<Class>, depth': seq<nat>)
    requires Reordered(cs, depth, cs', depth') && UniqueNames(cs)
    ensures UniqueNames(cs')
  {
    var z, z' := Zip(cs, depth), Zip(cs', depth');
    forall i, j | 0 <= i < j < |cs'|
      ensures cs'[i].name != cs'[j].name
    {
      var a := Relocate(cs, depth, cs', depth', i);
      var b := Relocate(cs, depth, cs', depth', j);
      assert a != b ==> cs[a].name != cs[b].name;
      assert forall m, n :: 0 <= m < n < |z| ==> z[m].0.name != z[n].0.name;
      OnceOnly(z, z'[i], |z|);
      assert z[..|z|] == z;
      if z'[i] == z'[j] {
        NoRepeats(z', i, j);
      }
    }
  }

  /** A reordering keeps the chain of every class. */
  lemma {:induction false} ChainReordered(cs: seq<Class>, depth: seq<nat>, cs': seq<Class>, depth': seq<nat>, i: nat,
                                          a: nat)
    requires Reordered(cs, depth, cs', depth') && UniqueNames(cs) && UniqueNames(cs')
    requires IsDepth(cs, depth) && IsDepth(cs', depth')
    requires i < |cs'| && a < |cs| && cs[a] == cs'[i]
    ensures Chain(cs, depth, a) == Chain(cs', depth', i)
    decreases depth'[i]
  {
    var s' := Super(cs', i);
    if s' >= 0 {
      var s := Relocate(cs, depth, cs', depth', s');
      SuperByName(cs, a, s);
      ChainReordered(cs, depth, cs', depth', s', s);
    } else if Super(cs, a) >= 0 {
      assert Reordered(cs', depth', cs, depth);
      var k := Relocate(cs', depth', cs, depth, Super(cs, a));
      SuperByName(cs', i, k);
    }
  }

  /** Depths stay depths, and in depth order a superclass comes before its subclasses. */
  lemma {:induction false} SortedByDepth(cs: seq<Class>, depth: seq<nat>, cs': seq<Class>, depth': seq<nat>)
    requires Reordered(cs, depth, cs', depth') && UniqueNames(cs) && UniqueNames(cs') && IsDepth(cs, depth)
    requires forall i, j :: 0 <= i < j < |depth'| ==> depth'[i] <= depth'[j]
    ensures IsDepth(cs', depth')
    ensures forall i :: 0 <= i < |cs'| ==> Super(cs', i) < i
  {
    forall i | 0 <= i < |cs'|
      ensures depth'[i] == if Super(cs', i) >= 0 then depth'[Super(cs', i)] + 1 else 0
      ensures Super(cs', i) < i
    {
      SortedStep(cs, depth, cs', depth', i);
    }
  }

  lemma {:induction false} SortedStep(cs: seq<Class>, depth: seq<nat>, cs': seq<Class>, depth': seq<nat>, i: nat)
    requires Reordered(cs, depth, cs', depth') && UniqueNames(cs) && UniqueNames(cs') && IsDepth(cs, depth)
    requires forall i, j :: 0 <= i < j < |depth'| ==> depth'[i] <= depth'[j]
    requires i < |cs'|
    ensures depth'[i] == if Super(cs', i) >= 0 then depth'[Super(cs', i)] + 1 else 0
    ensures Super(cs', i) < i
  {
    var a := Relocate(cs, depth, cs', depth', i);
    var s' := Super(cs', i);
    if s' >= 0 {
      var s := Relocate(cs, depth, cs', depth', s');
      SuperByName(cs, a, s);
      assert depth'[i] == depth'[s'] + 1;
    } else if Super(cs, a) >= 0 {
      assert Reordered(cs', depth', cs, depth);
      var k := Relocate(cs', depth', cs, depth, Super(cs, a));
      SuperByName(cs', i, k);
    }
  }

  // ---------------------------------------------------------------- merging

  /** The inherited part: the parent's layout, with same-kind overrides in place. */
  function Inherit(parent: seq<Method>, own: seq<Method>): (r: seq<Method>)
    ensures |r| == |parent|
  {
    if parent == [] then []
    else
      var p := Position(own, parent[0].name);
      [if p >= 0 && own[p].isClass == parent[0].isClass then own[p] else parent[0]] + Inherit(parent[1..], own)
  }

  predicate ShouldAdd(parent: seq<Method>, m: Method) {
    var p := Position(parent, m.name);
    p < 0 || m.isClass != parent[p].isClass
  }

  /** The appended part: what the parent does not have, or has with the other kind. */
  function Added(parent: seq<Method>, own: seq<Method>): seq<Method> {
    if own == [] then []
    else (if ShouldAdd(parent, own[0]) then [own[0]] else []) + Added(parent, own[1..])
  }

  function Merge(parent: seq<Method>, own: seq<Method>): seq<Method> {
    Inherit(parent, own) + Added(parent, own)
  }

  /** The complete method list of the first class of a chain. */
  function MergeChain(chain: seq<Class>): seq<Method>
    requires chain != []
  {
    if |chain| == 1 then chain[0].methods else Merge(MergeChain(chain[1..]), chain[0].methods)
  }

  method MergeMethods(parent: seq<Method>, own: seq<Method>) returns (merged: seq<Method>)
    ensures merged == Merge(parent, own)
  {
    hide Inherit, Added;
    merged := [];
    assert parent[0..] == parent && own[0..] == own;
    for j := 0 to |parent|
      invariant merged + Inherit(parent[j..], own) == Inherit(parent, own)
    {
      InheritNext(parent, own, j);
      var p := Position(own, parent[j].name);
      merged := merged + [if p >= 0 && own[p].isClass == parent[j].isClass then own[p] else parent[j]];
    }
    MergeEnds(parent, own);
    assert merged + [] == merged;
    for j := 0 to |own|
      invariant merged + Added(parent, own[j..]) == Merge(parent, own)
    {
      AddedNext(parent, own, j);
      if ShouldAdd(parent, own[j]) {
        merged := merged + [own[j]];
      }
    }
    assert merged + [] == merged;
  }

  lemma {:induction false} InheritNext(parent: seq<Method>, own: seq<Method>, j: nat)
    requires j < |parent|
    ensures var p := Position(own, parent[j].name);
            Inherit(parent[j..], own)
            == [if p >= 0 && own[p].isClass == parent[j].isClass then own[p]
                else parent[j]] + Inherit(parent[j + 1..], own)
  {
    assert parent[j..][1..] == parent[j + 1..];
  }

  lemma {:induction false} AddedNext(parent: seq<Method>, own: seq<Method>, j: nat)
    requires j < |own|
    ensures Added(parent, own[j..])
        == (if ShouldAdd(parent, own[j]) then [own[j]] else []) + Added(parent, own[j + 1..])
  {
    assert own[j..][1..] == own[j + 1..];
  }

  lemma {:induction false} MergeEnds(parent: seq<Method>, own: seq<Method>)
    ensures Inherit(parent[|parent|..], own) == [] && Added(parent, own[|own|..]) == []
    ensures Inherit(parent, own) + Added(parent, own[0..]) == Merge(parent, own)
  {
    assert own[0..] == own;
  }

  ghost function WithMethods(c: Class, chain: seq<Class>): Class
    requires chain != []
  {
    c.(methods := MergeChain(chain))
  }

  lemma {:induction false} ClassIndexByName(cs: seq<Class>, ds: seq<Class>, name: string)
    requires |cs| == |ds| && forall i :: 0 <= i < |cs| ==> cs[i].name == ds[i].name
    ensures ClassIndex(cs, name) == ClassIndex(ds, name)
    decreases |cs|
  {
    if cs != [] {
      ClassIndexByName(cs[1..], ds[1..], name);
    }
  }

  lemma {:induction false} MergeStep(cs: seq<Class>, depth: seq<nat>, i: nat)
    requires IsDepth(cs, depth) && i < |cs|
    ensures var s := Super(cs, i);
            WithMethods(cs[i], Chain(cs, depth, i))
            == if s >= 0 then cs[i].(methods := Merge(WithMethods(cs[s], Chain(cs, depth, s)).methods,
                cs[i].methods)) else cs[i]
  {
    hide Merge;
    var s := Super(cs, i);
    if s >= 0 {
      assert Chain(cs, depth, i)[1..] == Chain(cs, depth, s);
    }
  }

  lemma {:induction false} SameName(cs: seq<Class>, depth: seq<nat>, ds: seq<Class>)
    requires IsDepth(cs, depth) && |ds| == |cs|
    requires forall k :: 0 <= k < |cs| ==> ds[k] == cs[k] || ds[k] == WithMethods(cs[k], Chain(cs, depth, k))
    ensures forall k :: 0 <= k < |cs| ==> cs[k].name == ds[k].name
  {
  }

  lemma {:induction false} SuperOf(cs: seq<Class>, i: nat)
    requires i < |cs|
    ensures Super(cs, i) == if cs[i].super.Some? then ClassIndex(cs, cs[i].super.value) else -1
  {
  }

  /** The loop over the sorted classes: each is merged with a superclass that is complete already. */
  method MergeAll(classes: array<Class>, ghost depth: seq<nat>)
    requires IsDepth(classes[..], depth)
    requires forall i :: 0 <= i < classes.Length ==> Super(classes[..], i) < i
    modifies classes
    ensures forall i :: 0 <= i < classes.Length ==>
              classes[i] == WithMethods(old(classes[i]), Chain(old(classes[..]), depth, i))
  {
    hide Super, ClassIndex, IsDepth, Chain, Merge, WithMethods;
    ghost var cs := classes[..];
    for i := 0 to classes.Length
      invariant forall k :: 0 <= k < i ==> classes[k] == WithMethods(cs[k], Chain(cs, depth, k))
      invariant forall k :: i <= k < classes.Length ==> classes[k] == cs[k]
    {
      var c := classes[i];
      SuperOf(cs, i);
      MergeStep(cs, depth, i);
      if c.super.Some? {
        SameName(cs, depth, classes[..]);
        ClassIndexByName(cs, classes[..], c.super.value);
        var s := ClassIndex(classes[..], c.super.value);
        if s >= 0 {
          var methods := MergeMethods(classes[s].methods, c.methods);
          classes[i] := c.(methods := methods);
        }
      }
    }
  }

  // ---------------------------------------------------------------- what a merged list finds

  /** The kind of the first entry of the rootmost class that declares the name. */
  function RootKind(chain: seq<Class>, name: string): Option<bool> {
    if chain == [] then None
    else if RootKind(chain[1..], name).Some? then RootKind(chain[1..], name)
    else
      var p := Position(chain[0].methods, name);
      if p < 0 then None else Some(chain[0].methods[p].isClass)
  }

  /** The first entry of the nearest class whose first entry of that name has the given kind. */
  function Nearest(chain: seq<Class>, name: string, isClass: bool): (m: Option<Method>)
    ensures m.Some? ==> m.value.name == name && m.value.isClass == isClass
  {
    if chain == [] then None
    else
      var p := Position(chain[0].methods, name);
      if p >= 0 && chain[0].methods[p].isClass == isClass then Some(chain[0].methods[p])
      else Nearest(chain[1..], name, isClass)
  }

  /** `i` is the position of `name` in `ms`. */
  lemma {:induction false} PositionIs(ms: seq<Method>, name: string, i: nat)
    requires i < |ms| && ms[i].name == name && forall k :: 0 <= k < i ==> ms[k].name != name
    ensures Position(ms, name) == i
  {
    var p := Position(ms, name);
    assert p >= 0;
  }

  lemma {:induction false} InheritAt(parent: seq<Method>, own: seq<Method>, j: nat)
    requires j < |parent|
    ensures var p := Position(own, parent[j].name);
            Inherit(parent, own)[j] == if p >= 0 && own[p].isClass == parent[j].isClass then own[p] else parent[j]
    decreases j
  {
    if j > 0 {
      InheritAt(parent[1..], own, j - 1);
    }
  }

  lemma {:induction false} PositionCons(x: Method, rest: seq<Method>, name: string)
    ensures Position([x] + rest, name)
            == if x.name == name then 0 else if Position(rest, name) < 0 then -1 else Position(rest, name) + 1
  {
    assert ([x] + rest)[1..] == rest;
  }

  /** What the parent does not have is appended with the first own entry first. */
  lemma {:induction false} AddedFirst(parent: seq<Method>, own: seq<Method>, name: string)
    requires Position(parent, name) < 0
    ensures var p, q := Position(Added(parent, own), name), Position(own, name);
            (p < 0 <==> q < 0) && (p >= 0 ==> Added(parent, own)[p] == own[q])
    decreases |own|
  {
    hide Position;
    if own != [] {
      var rest := Added(parent, own[1..]);
      AddedFirst(parent, own[1..], name);
      assert own == [own[0]] + own[1..];
      PositionCons(own[0], own[1..], name);
      PositionCons(own[0], rest, name);
      assert Added(parent, own) == if ShouldAdd(parent, own[0]) then [own[0]] + rest else rest;
    }
  }

  /** The first entry of the name in the list has the kind of `m`. */
  ghost predicate HasKind(ms: seq<Method>, m: Method) {
    exists p: nat :: FirstNamed(ms, p, m.name) && ms[p].isClass == m.isClass
  }

  lemma {:induction false} ShouldAddIff(parent: seq<Method>, m: Method)
    ensures ShouldAdd(parent, m) <==> !HasKind(parent, m)
  {
    var p := Position(parent, m.name);
    if p >= 0 {
      assert FirstNamed(parent, p, m.name);
      forall q: nat | FirstNamed(parent, q, m.name)
        ensures q == p
      {
        assert parent[q].name == parent[p].name == m.name;
      }
    }
  }

  /**
   A merge appends an own entry as often as the class lists it, unless the first entry of that name in the parent's
   list has the same kind: an instance method does not stand for a class method of the same name.
   */
  lemma {:induction false} AddedExactly(parent: seq<Method>, own: seq<Method>, m: Method)
    ensures |Merge(parent, own)| == |parent| + |Added(parent, own)|
    ensures Merge(parent, own)[|parent|..] == Added(parent, own)
    ensures multiset(Added(parent, own))[m] == if HasKind(parent, m) then 0 else multiset(own)[m]
    decreases |own|
  {
    hide ShouldAdd, HasKind;
    if own != [] {
      AddedExactly(parent, own[1..], m);
      ShouldAddIff(parent, own[0]);
      assert own == [own[0]] + own[1..];
    }
  }

  /** What a merge does to the first entry of a name. */
  lemma {:induction false} MergeFirst(parent: seq<Method>, own: seq<Method>, name: string)
    ensures var p, q, r := Position(parent, name), Position(own, name), Position(Merge(parent, own), name);
            if p >= 0 then
              r == p && Merge(parent, own)[r]
                  == (if q >= 0 && own[q].isClass == parent[p].isClass then own[q] else parent[p])
            else (r < 0 <==> q < 0) && (r >= 0 ==> Merge(parent, own)[r] == own[q])
  {
    hide Inherit, Added;
    var inherited, added, merged := Inherit(parent, own), Added(parent, own), Merge(parent, own);
    forall k | 0 <= k < |parent|
      ensures merged[k] == inherited[k] && inherited[k].name == parent[k].name
    {
      InheritAt(parent, own, k);
    }
    var p := Position(parent, name);
    if p >= 0 {
      InheritAt(parent, own, p);
      PositionIs(merged, name, p);
    } else {
      AddedFirst(parent, own, name);
      var a := Position(added, name);
      if a >= 0 {
        assert forall k :: 0 <= k < |added| ==> merged[|parent| + k] == added[k];
        assert forall k :: |parent| <= k < |parent| + a ==> merged[k] == added[k - |parent|];
        PositionIs(merged, name, |parent| + a);
      } else {
        assert forall k :: |parent| <= k < |merged| ==> merged[k] == added[k - |parent|];
      }
    }
  }

  /**
   A merged list has a name iff a class of the chain declares it, and its entry is that of the
   nearest class declaring it with the kind the rootmost declarer gave it.
   */
  lemma {:induction false} MergedEntry(chain: seq<Class>, name: string)
    requires chain != []
    ensures var p := Position(MergeChain(chain), name);
            && (p < 0 <==> RootKind(chain, name).None?)
            && (p >= 0 ==> Some(MergeChain(chain)[p]) == Nearest(chain, name, RootKind(chain, name).value))
    decreases |chain|
  {
    hide Merge, Position;
    if |chain| == 1 {
      assert chain[1..] == [];
      assert RootKind(chain[1..], name) == None;
      assert Nearest(chain[1..], name, true) == Nearest(chain[1..], name, false) == None;
    } else {
      MergedEntry(chain[1..], name);
      MergeFirst(MergeChain(chain[1..]), chain[0].methods, name);
    }
  }

  // ---------------------------------------------------------------- slots against superclass lookup

  function InstancePosition(ms: seq<Method>, name: string): (i: int)
    ensures -1 <= i < |ms|
    ensures i >= 0 ==> ms[i].name == name && !ms[i].isClass
                       && forall k :: 0 <= k < i ==> ms[k].name != name || ms[k].isClass
    ensures i < 0 ==> forall k :: 0 <= k < |ms| ==> ms[k].name != name || ms[k].isClass
  {
    if ms == [] then -1
    else if ms[0].name == name && !ms[0].isClass then 0
    else var p := InstancePosition(ms[1..], name); if p < 0 then -1 else p + 1
  }

  /** Superclass-chain lookup: the instance method of the nearest class that declares one. */
  function Lookup(chain: seq<Class>, name: string): (m: Option<Method>)
    ensures m.Some? ==> m.value.name == name && !m.value.isClass
  {
    if chain == [] then None
    else
      var p := InstancePosition(chain[0].methods, name);
      if p >= 0 then Some(chain[0].methods[p]) else Lookup(chain[1..], name)
  }

  /** The class lookup stops at has no class method of that name before the instance method. */
  predicate InstanceFirst(chain: seq<Class>, name: string) {
    chain != []
    && if InstancePosition(chain[0].methods, name) >= 0
       then !chain[0].methods[Position(chain[0].methods, name)].isClass
       else InstanceFirst(chain[1..], name)
  }

  /** The C name of a method's function; the emitted ones are remembered by it (codegen.rs:37-41). */
  function Symbol(owner: string, name: string): string {
    owner + "_" + name
  }

  /** Class names without an underscore keep their methods' functions apart. */
  lemma {:induction false} SymbolsApart(a: string, m: string, b: string, n: string)
    requires '_' !in a && '_' !in b && Symbol(a, m) == Symbol(b, n)
    ensures a == b && m == n
  {
    var s, t := Symbol(a, m), Symbol(b, n);
    assert s[|a|] == '_' && t[|b|] == '_';
    assert forall k :: 0 <= k < |a| ==> s[k] == a[k] && a[k] != '_';
    assert forall k :: 0 <= k < |b| ==> t[k] == b[k] && b[k] != '_';
    assert |a| == |b|;
    assert s[..|a|] == a && t[..|b|] == b && s[|a| + 1..] == m && t[|b| + 1..] == n;
  }

  /** With an underscore, two classes may share a function name: method `c` of `a_b` and `b_c` of `a`. */
  lemma {:induction false} SymbolsShared(a: string, b: string, c: string)
    ensures Symbol(a + "_" + b, c) == Symbol(a, b + "_" + c)
  {
    assert a + "_" + b + "_" + c == a + "_" + (b + "_" + c);
  }

  /** What the vtable instance is initialised with: the owner of the function, or NULL. */
  function Slot(methods: seq<Method>, emitted: set<string>, name: string): Option<string> {
    var p := Position(methods, name);
    if p >= 0 && !methods[p].isClass && Symbol(methods[p].owner, name) in emitted then Some(methods[p].owner) else None
  }

  function Implementation(m: Option<Method>, emitted: set<string>): Option<string> {
    if m.Some? && Symbol(m.value.owner, m.value.name) in emitted then Some(m.value.owner) else None
  }

  /** Before merging each entry is owned by the class that declares it. */
  ghost predicate Owned(chain: seq<Class>) {
    && (forall i, j :: 0 <= i < |chain| && 0 <= j < |chain[i].methods| ==> chain[i].methods[j].owner == chain[i].name)
    && forall i, j :: 0 <= i < j < |chain| ==> chain[i].name != chain[j].name
  }

  lemma {:induction false} NearestOwner(chain: seq<Class>, name: string, isClass: bool)
    requires Owned(chain)
    ensures var m := Nearest(chain, name, isClass); m.Some? ==>
        exists k :: 0 <= k < |chain| && chain[k].name == m.value.owner
    decreases |chain|
  {
    if chain != [] {
      var p := Position(chain[0].methods, name);
      if !(p >= 0 && chain[0].methods[p].isClass == isClass) {
        NearestOwner(chain[1..], name, isClass);
      }
    }
  }

  lemma {:induction false} NearestIsLookup(chain: seq<Class>, name: string)
    requires Owned(chain)
    ensures Lookup(chain, name).None? ==> Nearest(chain, name, false).None? && !InstanceFirst(chain, name)
    ensures Lookup(chain, name).Some? ==>
              if InstanceFirst(chain, name) then Nearest(chain, name, false) == Lookup(chain, name)
              else Nearest(chain, name, false).Some? ==>
                     Nearest(chain, name, false).value.owner != Lookup(chain, name).value.owner
    decreases |chain|
  {
    if chain != [] {
      var rest := chain[1..];
      NearestIsLookup(rest, name);
      NearestOwner(rest, name, false);
      assert forall k :: 0 <= k < |rest| ==> rest[k].name == chain[k + 1].name;
    }
  }

  lemma {:induction false} LookupNeedsKind(chain: seq<Class>, name: string)
    ensures Lookup(chain, name).Some? ==> RootKind(chain, name).Some?
    decreases |chain|
  {
    if chain != [] {
      LookupNeedsKind(chain[1..], name);
    }
  }

  /**
   Every slot against lookup, with every function emitted: they agree iff lookup finds nothing, or
   the name started as an instance method at the root and the found class lists it as one first.
   */
  lemma {:induction false} SlotIsLookupIff(chain: seq<Class>, emitted: set<string>, name: string)
    requires chain != [] && Owned(chain)
    requires Lookup(chain, name).Some? ==> Symbol(Lookup(chain, name).value.owner, name) in emitted
    ensures Slot(MergeChain(chain), emitted, name) == Implementation(Lookup(chain, name), emitted)
            <==> Lookup(chain, name).None? || (RootKind(chain, name) == Some(false) && InstanceFirst(chain, name))
  {
    hide MergeChain, RootKind, Nearest, Lookup, InstanceFirst, Owned, Position;
    MergedEntry(chain, name);
    NearestIsLookup(chain, name);
    LookupNeedsKind(chain, name);
  }

  /** Every class of the chain that declares the name does so with one and the same kind. */
  ghost predicate OneKind(chain: seq<Class>, name: string, isClass: bool) {
    forall i, j :: 0 <= i < |chain| && 0 <= j < |chain[i].methods| && chain[i].methods[j].name == name ==>
      chain[i].methods[j].isClass == isClass
  }

  /** The nearest class that declares the name at all. */
  function Declarer(chain: seq<Class>, name: string): (k: int)
    ensures -1 <= k < |chain|
    ensures k >= 0 ==> Position(chain[k].methods, name) >= 0 && forall i :: 0 <= i < k ==>
        Position(chain[i].methods, name) < 0
    ensures k < 0 ==> forall i :: 0 <= i < |chain| ==> Position(chain[i].methods, name) < 0
  {
    if chain == [] then -1
    else if Position(chain[0].methods, name) >= 0 then 0
    else var k := Declarer(chain[1..], name); if k < 0 then -1 else k + 1
  }

  lemma {:induction false} OneKindFacts(chain: seq<Class>, name: string, isClass: bool)
    requires OneKind(chain, name, isClass)
    ensures var k := Declarer(chain, name);
            && (k < 0 <==> RootKind(chain, name).None?) && (k >= 0 ==> RootKind(chain, name) == Some(isClass))
            && Nearest(chain, name, isClass)
               == (if k < 0 then None else Some(chain[k].methods[Position(chain[k].methods, name)]))
    ensures !isClass ==> Lookup(chain, name) == Nearest(chain, name, false)
    decreases |chain|
  {
    hide Position, InstancePosition;
    if chain != [] {
      var rest := chain[1..];
      assert OneKind(rest, name, isClass) by {
        assert forall i :: 0 <= i < |rest| ==> rest[i] == chain[i + 1];
      }
      OneKindFacts(rest, name, isClass);
      var p, q := Position(chain[0].methods, name), InstancePosition(chain[0].methods, name);
      if p >= 0 {
        assert chain[0].methods[p].isClass == isClass;
      }
    }
  }

  /**
   When a name keeps one kind along the chain, the merged list has it iff a class declares it, the
   recorded owner is the nearest class that does, and its slot holds that class's function, or NULL
   when it is a class method or the function is not emitted.
   */
  lemma {:induction false} OwnerIsNearestDeclarer(chain: seq<Class>, emitted: set<string>, name: string,
                                                  isClass: bool)
    requires chain != [] && Owned(chain) && OneKind(chain, name, isClass)
    ensures var ms, k := MergeChain(chain), Declarer(chain, name);
            && (Position(ms, name) < 0 <==> k < 0)
            && (k >= 0 ==> ms[Position(ms, name)].owner == chain[k].name)
            && Slot(ms, emitted, name)
               == (if k >= 0 && !isClass && Symbol(chain[k].name, name) in emitted then Some(chain[k].name) else None)
    ensures !isClass ==> Slot(MergeChain(chain), emitted, name) == Implementation(Lookup(chain, name), emitted)
  {
    hide MergeChain, RootKind, Nearest, Lookup, OneKind, Position;
    MergedEntry(chain, name);
    OneKindFacts(chain, name, isClass);
  }

  /** A name a root class uses for a class method is NULL in every subclass that makes it an instance method. */
  lemma {:induction false} KindClashLosesMethod(root: string, sub: string, name: string)
    requires root != sub
    ensures var chain := [Class(sub, Some(root), [Method(name, false, "", sub)], []),
                          Class(root, None, [Method(name, true, "", root)], [])];
            && Owned(chain) && Lookup(chain, name) == Some(Method(name, false, "", sub))
            && Slot(MergeChain(chain), {Symbol(sub, name)}, name) == None
  {
    var chain := [Class(sub, Some(root), [Method(name, false, "", sub)], []),
                  Class(root, None, [Method(name, true, "", root)], [])];
    assert chain[1..] == [chain[1]] && chain[1..][1..] == [];
    assert RootKind(chain[1..][1..], name) == None;
    assert RootKind(chain[1..], name) == Some(true);
    MergedEntry(chain, name);
  }

  // ---------------------------------------------------------------- the global index

  ghost predicate Distinct(names: seq<string>) {
    forall i, j :: 0 <= i < j < |names| ==> names[i] != names[j]
  }

  ghost predicate HasInstance(c: Class, name: string) {
    exists j :: 0 <= j < |c.methods| && c.methods[j].name == name && !c.methods[j].isClass
  }

  /** The name resolves to an instance method in the class. */
  predicate InstanceFound(c: Class, name: string) {
    var p := Position(c.methods, name);
    p >= 0 && !c.methods[p].isClass
  }

  /** The names that get a slot, before they are sorted: those of all instance methods, each once. */
  method InstanceNames(classes: seq<Class>) returns (names: seq<string>)
    ensures Distinct(names)
    ensures forall n :: n in names <==> exists i :: 0 <= i < |classes| && HasInstance(classes[i], n)
  {
    names := [];
    for i := 0 to |classes|
      invariant Distinct(names)
      invariant forall n :: n in names <==> exists k :: 0 <= k < i && HasInstance(classes[k], n)
    {
      ghost var before := names;
      var ms := classes[i].methods;
      for j := 0 to |ms|
        invariant Distinct(names)
        invariant forall n :: n in names <==> n in before || exists k :: 0 <= k < j && ms[k].name == n && !ms[k].isClass
      {
        if !ms[j].isClass && ms[j].name !in names {
          names := names + [ms[j].name];
        }
      }
    }
  }

  /** The first entry of a name. */
  ghost predicate FirstNamed(ms: seq<Method>, p: nat, name: string) {
    p < |ms| && ms[p].name == name && forall q :: 0 <= q < p ==> ms[q].name != name
  }

  /** Class `c` makes the name an instance method with its entry `p`. */
  ghost predicate Resolves(classes: seq<Class>, c: nat, p: nat, name: string) {
    c < |classes| && FirstNamed(classes[c].methods, p, name) && !classes[c].methods[p].isClass
  }

  /** The type comes from the entry that the first class with such an entry has. */
  ghost predicate TypedBy(classes: seq<Class>, c: nat, p: nat, name: string, t: string) {
    && Resolves(classes, c, p, name) && t == classes[c].methods[p].signature
    && forall i, q :: 0 <= i < c ==> !Resolves(classes, i, q, name)
  }

  /** Index and function type of every name that some class resolves to an instance method. */
  method MethodMetadata(classes: seq<Class>, names: seq<string>) returns (meta: map<string, (nat, string)>)
    requires Distinct(names)
    ensures forall n :: n in meta <==> n in names && exists c, p :: Resolves(classes, c, p, n)
    ensures forall n :: n in meta ==>
              && meta[n].0 < |names| && names[meta[n].0] == n
              && exists c, p :: TypedBy(classes, c, p, n, meta[n].1)
  {
    hide Position, InstanceFound, Resolves, TypedBy;
    meta := map[];
    for idx := 0 to |names|
      invariant forall n :: n in meta <==> n in names[..idx] && exists c, p :: Resolves(classes, c, p, n)
      invariant forall n :: n in meta ==>
                  && meta[n].0 < idx && names[meta[n].0] == n
                  && exists c, p :: TypedBy(classes, c, p, n, meta[n].1)
    {
      var name := names[idx];
      assert names[..idx + 1] == names[..idx] + [name];
      var i := 0;
      while i < |classes| && !InstanceFound(classes[i], name)
        invariant 0 <= i <= |classes| && forall j, q :: 0 <= j < i ==> !Resolves(classes, j, q, name)
      {
        NotFoundAt(classes, i, name);
        i := i + 1;
      }
      if i < |classes| {
        FoundAt(classes, i, name);
        var p := Position(classes[i].methods, name);
        TypeFound(classes, i, p, name);
        meta := meta[name := (idx, classes[i].methods[p].signature)];
      } else {
        NowhereResolved(classes, name);
      }
    }
    assert names[..|names|] == names;
  }

  lemma {:induction false} FoundAt(classes: seq<Class>, i: nat, name: string)
    requires i < |classes| && InstanceFound(classes[i], name)
    ensures var p := Position(classes[i].methods, name); p >= 0 && Resolves(classes, i, p, name)
  {
  }

  lemma {:induction false} NotFoundAt(classes: seq<Class>, i: nat, name: string)
    requires i < |classes| && !InstanceFound(classes[i], name)
    ensures forall q :: !Resolves(classes, i, q, name)
  {
  }

  lemma {:induction false} TypeFound(classes: seq<Class>, i: nat, p: nat, name: string)
    requires Resolves(classes, i, p, name) && forall j, q :: 0 <= j < i ==> !Resolves(classes, j, q, name)
    ensures TypedBy(classes, i, p, name, classes[i].methods[p].signature)
  {
  }

  lemma {:induction false} NowhereResolved(classes: seq<Class>, name: string)
    requires forall j, q :: 0 <= j < |classes| ==> !Resolves(classes, j, q, name)
    ensures !exists c, p :: Resolves(classes, c, p, name)
  {
  }

  /** The slots of one class. Every filled slot has metadata, so looking it up cannot fail. */
  method EmitSlots(classes: seq<Class>, i: nat, names: seq<string>, meta: map<string, (nat, string)>,
                   emitted: set<string>)
    returns (slots: seq<Option<(string, string)>>)
    requires i < |classes|
    requires forall n :: n in names && (exists c, p :: Resolves(classes, c, p, n)) ==> n in meta
    ensures |slots| == |names|
    ensures forall k :: 0 <= k < |names| ==> Filled(classes[i], names[k], emitted, slots[k])
    ensures forall k :: 0 <= k < |names| && slots[k].Some? ==>
              names[k] in meta && slots[k].value.0 == meta[names[k]].1
  {
    hide Position, Resolves, Filled, Symbol;
    slots := [];
    for k := 0 to |names|
      invariant |slots| == k
      invariant forall h :: 0 <= h < k ==> Filled(classes[i], names[h], emitted, slots[h])
      invariant forall h :: 0 <= h < k && slots[h].Some? ==>
                  names[h] in meta && slots[h].value.0 == meta[names[h]].1
    {
      var p := Position(classes[i].methods, names[k]);
      if p >= 0 && !classes[i].methods[p].isClass && Symbol(classes[i].methods[p].owner, names[k]) in emitted {
        FoundAt(classes, i, names[k]);
        var slot := Some((meta[names[k]].1, classes[i].methods[p].owner));
        FilledAt(classes[i], names[k], emitted, slot);
        slots := slots + [slot];
      } else {
        FilledAt(classes[i], names[k], emitted, None);
        slots := slots + [None];
      }
    }
  }

  /** The first entry of the name decides: its owner's function if it is an emitted instance method, else NULL. */
  ghost predicate Filled(c: Class, name: string, emitted: set<string>, slot: Option<(string, string)>) {
    match slot
    case None =>
      forall p: nat :: FirstNamed(c.methods, p, name) ==>
          c.methods[p].isClass || Symbol(c.methods[p].owner, name) !in emitted
    case Some((_, owner)) =>
      && Symbol(owner, name) in emitted
      && exists p: nat :: FirstNamed(c.methods, p, name) && !c.methods[p].isClass && c.methods[p].owner == owner
  }

  lemma {:induction false} OnlyFirst(ms: seq<Method>, name: string)
    ensures var p := Position(ms, name); forall q: nat :: FirstNamed(ms, q, name) <==> p >= 0 && q == p
  {
  }

  lemma {:induction false} FilledAt(c: Class, name: string, emitted: set<string>, slot: Option<(string, string)>)
    requires match Slot(c.methods, emitted, name)
             case None => slot == None
             case Some(owner) => slot.Some? && slot.value.1 == owner
    ensures Filled(c, name, emitted, slot)
  {
    OnlyFirst(c.methods, name);
  }

  /** The slot of a class is determined by its entries. */
  lemma {:induction false} FilledIsSlot(c: Class, name: string, emitted: set<string>, slot: Option<(string, string)>)
    requires Filled(c, name, emitted, slot)
    ensures match Slot(c.methods, emitted, name)
            case None => slot == None
            case Some(owner) => slot.Some? && slot.value.1 == owner
  {
    OnlyFirst(c.methods, name);
  }

  // ---------------------------------------------------------------- prefix layout

  function Selectors(ms: seq<Method>): (r: seq<(string, bool)>)
    ensures |r| == |ms| && forall i :: 0 <= i < |r| ==> r[i] == (ms[i].name, ms[i].isClass)
  {
    seq(|ms|, i requires 0 <= i < |ms| => (ms[i].name, ms[i].isClass))
  }

  /** The selectors and kinds of every ancestor start those of the class. */
  lemma {:induction false} ParentLayoutIsPrefix(chain: seq<Class>, k: nat)
    requires k < |chain|
    ensures Selectors(MergeChain(chain[k..])) <= Selectors(MergeChain(chain))
    decreases k
  {
    if k == 0 {
      assert chain[0..] == chain;
    } else {
      hide MergeChain, Inherit, Added;
      assert chain[1..][k - 1..] == chain[k..];
      ParentLayoutIsPrefix(chain[1..], k - 1);
      var parent, own := MergeChain(chain[1..]), chain[0].methods;
      MergedStep(chain);
      forall j | 0 <= j < |parent|
        ensures Selectors(Merge(parent, own))[j] == Selectors(parent)[j]
      {
        InheritAt(parent, own, j);
      }
    }
  }

  lemma {:induction false} MergedStep(chain: seq<Class>)
    requires |chain| > 1
    ensures MergeChain(chain) == Merge(MergeChain(chain[1..]), chain[0].methods)
  {
  }

  /** The ivars a struct embeds, the root's first. */
  function Ivars(chain: seq<Class>): seq<string> {
    if chain == [] then [] else Ivars(chain[1..]) + chain[0].ivars
  }

  function StructFields(chain: seq<Class>): seq<string> {
    ["isa", "retain_count"] + Ivars(chain)
  }

  lemma {:induction false} ParentStructIsPrefix(chain: seq<Class>, k: nat)
    requires k <= |chain|
    ensures StructFields(chain[k..]) <= StructFields(chain)
    decreases k
  {
    if k == 0 {
      assert chain[0..] == chain;
    } else {
      assert chain[1..][k - 1..] == chain[k..];
      ParentStructIsPrefix(chain[1..], k - 1);
    }
  }

  lemma {:induction false} IvarsSplit(ancestors: seq<Class>, k: nat)
    requires k < |ancestors|
    ensures Ivars(ancestors[k..]) == Ivars(ancestors[k + 1..]) + ancestors[k].ivars
  {
    assert ancestors[k..][1..] == ancestors[k + 1..];
  }

  /** Walk up the superclasses. */
  method Ancestors(cs: seq<Class>, ghost depth: seq<nat>, i: nat) returns (ancestors: seq<Class>)
    requires IsDepth(cs, depth) && i < |cs|
    ensures [cs[i]] + ancestors == Chain(cs, depth, i)
  {
    hide Super, IsDepth, Chain;
    ancestors := [];
    var cur: nat, up := i, Super(cs, i);
    ghost var rest := Chain(cs, depth, i)[1..];
    while up >= 0
      invariant cur < |cs| && up == Super(cs, cur)
      invariant rest == Chain(cs, depth, cur)[1..]
      invariant ancestors + rest == Chain(cs, depth, i)[1..]
      decreases |rest|
    {
      ChainStep(cs, depth, cur);
      assert rest == [cs[up]] + rest[1..];
      assert ancestors + [cs[up]] + rest[1..] == ancestors + rest;
      ancestors, rest := ancestors + [cs[up]], rest[1..];
      cur, up := up, Super(cs, up);
    }
    ChainStep(cs, depth, cur);
  }

  /** The struct of class `i`: the ancestors' ivars from the root down, then its own. */
  method EmitStruct(cs: seq<Class>, ghost depth: seq<nat>, i: nat) returns (fields: seq<string>)
    requires IsDepth(cs, depth) && i < |cs|
    ensures fields == StructFields(Chain(cs, depth, i))
  {
    hide Super, IsDepth, Chain, Ivars;
    fields := ["isa", "retain_count"];
    var ancestors := Ancestors(cs, depth, i);
    var k := |ancestors|;
    NoIvars();
    assert ancestors[k..] == [];
    while k > 0
      invariant 0 <= k <= |ancestors|
      invariant fields == ["isa", "retain_count"] + Ivars(ancestors[k..])
    {
      k := k - 1;
      IvarsSplit(ancestors, k);
      fields := fields + ancestors[k].ivars;
    }
    assert ancestors[0..] == ancestors;
    fields := fields + cs[i].ivars;
    FieldsStep(Chain(cs, depth, i));
    assert Chain(cs, depth, i)[1..] == ancestors;
  }

  lemma {:induction false} ChainStep(cs: seq<Class>, depth: seq<nat>, i: nat)
    requires IsDepth(cs, depth) && i < |cs|
    ensures Chain(cs, depth, i)[1..] == if Super(cs, i) >= 0 then Chain(cs, depth, Super(cs, i)) else []
  {
  }

  lemma {:induction false} NoIvars()
    ensures Ivars([]) == []
  {
  }

  lemma {:induction false} FieldsStep(chain: seq<Class>)
    requires chain != []
    ensures StructFields(chain) == ["isa", "retain_count"] + (Ivars(chain[1..]) + chain[0].ivars)
  {
  }

  // ---------------------------------------------------------------- the whole layout

  ghost function Merged(cs: seq<Class>, depth: seq<nat>, a: nat): Class
    requires IsDepth(cs, depth) && a < |cs|
  {
    WithMethods(cs[a], Chain(cs, depth, a))
  }

  /**
   Depths, sort and merge together: every class of the unit comes out once, after its superclass,
   with the merged methods of its own chain.
   */
  method LayOut(cs: seq<Class>) returns (classes: array<Class>, ghost depth: seq<nat>)
    requires UniqueNames(cs) && Acyclic(cs)
    ensures IsDepth(cs, depth) && classes.Length == |cs| && UniqueNames(classes[..])
    ensures forall i :: 0 <= i < |cs| ==> Super(classes[..], i) < i
    ensures forall a :: 0 <= a < |cs| ==> Merged(cs, depth, a) in classes[..]
    ensures fresh(classes)
  {
    hide IsDepth, Super, Acyclic, WithMethods, Chain, Merged;
    var d := Depths(cs);
    depth := d;
    DepthLength(cs, depth);
    var n := |cs|;
    classes := new Class[n](i requires 0 <= i < n => cs[i]);
    var depths := new nat[n](i requires 0 <= i < n => d[i]);
    assert classes[..] == cs && depths[..] == depth;
    SortByDepth(classes, depths);
    ghost var sorted, depth' := classes[..], depths[..];
    assert Reordered(cs, depth, sorted, depth');
    UniqueNamesReordered(cs, depth, sorted, depth');
    SortedByDepth(cs, depth, sorted, depth');
    MergeAll(classes, depth');
    SameNames(sorted, classes[..], depth');
    forall a | 0 <= a < n
      ensures Merged(cs, depth, a) in classes[..]
    {
      assert Reordered(sorted, depth', cs, depth);
      var i := Relocate(sorted, depth', cs, depth, a);
      MergedReordered(cs, depth, sorted, depth', i, a);
      assert classes[..][i] == Merged(cs, depth, a);
    }
  }

  // ---------------------------------------------------------------- the unit

  /** Before the layout every method is owned by the class that declares it. */
  ghost predicate OwnMethods(cs: seq<Class>) {
    forall i, j :: 0 <= i < |cs| && 0 <= j < |cs[i].methods| ==> cs[i].methods[j].owner == cs[i].name
  }

  /** Which class of the unit stands at position `k` of a chain. */
  ghost function ChainIndex(cs: seq<Class>, depth: seq<nat>, a: nat, k: nat): (j: nat)
    requires IsDepth(cs, depth) && a < |cs| && k <= depth[a]
    ensures j < |cs| && depth[j] == depth[a] - k && Chain(cs, depth, a)[k] == cs[j]
    decreases k
  {
    if k == 0 then a else ChainIndex(cs, depth, Super(cs, a), k - 1)
  }

  /** Unique names and own methods make every chain one of distinct owners. */
  lemma {:induction false} OwnedChain(cs: seq<Class>, depth: seq<nat>, a: nat)
    requires UniqueNames(cs) && OwnMethods(cs) && IsDepth(cs, depth) && a < |cs|
    ensures Owned(Chain(cs, depth, a))
  {
    hide IsDepth, Chain;
    var chain := Chain(cs, depth, a);
    forall i, j | 0 <= i < |chain| && 0 <= j < |chain[i].methods|
      ensures chain[i].methods[j].owner == chain[i].name
    {
      var n := ChainIndex(cs, depth, a, i);
    }
    forall i, j | 0 <= i < j < |chain|
      ensures chain[i].name != chain[j].name
    {
      var m, n := ChainIndex(cs, depth, a, i), ChainIndex(cs, depth, a, j);
      assert m != n;
    }
  }

  /** Every slot of every class of the unit, against lookup along the class's own superclasses. */
  lemma {:induction false} UnitSlotIffLookup(cs: seq<Class>, depth: seq<nat>, a: nat, emitted: set<string>,
                                             name: string)
    requires UniqueNames(cs) && OwnMethods(cs) && IsDepth(cs, depth) && a < |cs|
    requires var m := Lookup(Chain(cs, depth, a), name); m.Some? ==> Symbol(m.value.owner, name) in emitted
    ensures var chain := Chain(cs, depth, a);
            Slot(Merged(cs, depth, a).methods, emitted, name) == Implementation(Lookup(chain, name), emitted)
            <==> Lookup(chain, name).None? || (RootKind(chain, name) == Some(false) && InstanceFirst(chain, name))
  {
    hide IsDepth, Chain, MergeChain, RootKind, Lookup, InstanceFirst, Slot, Implementation;
    OwnedChain(cs, depth, a);
    SlotIsLookupIff(Chain(cs, depth, a), emitted, name);
  }

  /**
   When a name is used consistently along the superclasses of a class, the class has it iff one of them
   declares it, its owner is the nearest, and the slot holds that class's function or NULL.
   */
  lemma {:induction false} UnitOwnerIsNearest(cs: seq<Class>, depth: seq<nat>, a: nat, emitted: set<string>,
                                              name: string, isClass: bool)
    requires UniqueNames(cs) && OwnMethods(cs) && IsDepth(cs, depth) && a < |cs|
    requires OneKind(Chain(cs, depth, a), name, isClass)
    ensures var chain, ms := Chain(cs, depth, a), Merged(cs, depth, a).methods;
            var k := Declarer(chain, name);
            && (Position(ms, name) < 0 <==> k < 0)
            && (k >= 0 ==> ms[Position(ms, name)].owner == chain[k].name)
            && Slot(ms, emitted, name)
               == (if k >= 0 && !isClass && Symbol(chain[k].name, name) in emitted then Some(chain[k].name) else None)
            && (!isClass ==> Slot(ms, emitted, name) == Implementation(Lookup(chain, name), emitted))
  {
    hide IsDepth, Chain, MergeChain, Lookup, OneKind, Position, Slot, Implementation;
    OwnedChain(cs, depth, a);
    OwnerIsNearestDeclarer(Chain(cs, depth, a), emitted, name, isClass);
  }

  ghost function IndexOf(classes: seq<Class>, c: Class): (i: nat)
    requires c in classes
    ensures i < |classes| && classes[i] == c
  {
    var i: nat :| i < |classes| && classes[i] == c;
    i
  }

  /** What a slot holds is what lookup along the superclasses finds. */
  ghost predicate AsLookup(cs: seq<Class>, depth: seq<nat>, a: nat, emitted: set<string>, name: string,
                           slot: Option<(string, string)>)
    requires IsDepth(cs, depth) && a < |cs|
  {
    OneKind(Chain(cs, depth, a), name, false) ==>
      match Implementation(Lookup(Chain(cs, depth, a), name), emitted)
      case None => slot == None
      case Some(owner) => slot.Some? && slot.value.1 == owner
  }

  lemma {:induction false} FilledAsLookup(cs: seq<Class>, depth: seq<nat>, a: nat, emitted: set<string>,
                                          name: string, slot: Option<(string, string)>)
    requires UniqueNames(cs) && OwnMethods(cs) && IsDepth(cs, depth) && a < |cs|
    requires Filled(Merged(cs, depth, a), name, emitted, slot)
    ensures AsLookup(cs, depth, a, emitted, name, slot)
  {
    hide IsDepth, Chain, Merged, OneKind, Lookup, Slot, Implementation, Filled;
    FilledIsSlot(Merged(cs, depth, a), name, emitted, slot);
    if OneKind(Chain(cs, depth, a), name, false) {
      UnitOwnerIsNearest(cs, depth, a, emitted, name, false);
    }
  }

  /**
   The vtables of a unit, from its declarations on: each class has one, with a slot for every instance
   method name of the unit. The slot holds what the class's first entry of the name says, cast to the type of the
   first class that makes the name an instance method; for a consistently used name it is superclass-chain lookup.
   */
  method EmitVtables(cs: seq<Class>, emitted: set<string>)
    returns (classes: array<Class>, names: seq<string>, slots: seq<seq<Option<(string, string)>>>,
        ghost depth: seq<nat>)
    requires UniqueNames(cs) && Acyclic(cs) && OwnMethods(cs)
    ensures IsDepth(cs, depth) && classes.Length == |cs| == |slots| && Distinct(names)
    ensures forall n :: n in names <==> exists i :: 0 <= i < |cs| && HasInstance(classes[i], n)
    ensures forall i :: 0 <= i < |cs| ==> |slots[i]| == |names|
    ensures forall a :: 0 <= a < |cs| ==> Merged(cs, depth, a) in classes[..]
    ensures forall i, k :: 0 <= i < |cs| && 0 <= k < |names| ==>
              && Filled(classes[i], names[k], emitted, slots[i][k])
              && (slots[i][k].Some? ==> exists c, p :: TypedBy(classes[..], c, p, names[k], slots[i][k].value.0))
    ensures forall a, k :: 0 <= a < |cs| && 0 <= k < |names| ==>
              AsLookup(cs, depth, a, emitted, names[k], slots[IndexOf(classes[..], Merged(cs, depth, a))][k])
  {
    hide IsDepth, UniqueNames, Acyclic, OwnMethods, Merged, Filled, AsLookup, Distinct, HasInstance, Resolves,
    TypedBy;
    classes, depth := LayOut(cs);
    ghost var unit := classes[..];
    names := InstanceNames(classes[..]);
    var meta := MethodMetadata(classes[..], names);
    slots := [];
    for i := 0 to classes.Length
      modifies {}
      invariant |slots| == i && classes[..] == unit
      invariant forall h :: 0 <= h < i ==> |slots[h]| == |names|
      invariant forall h, k :: 0 <= h < i && 0 <= k < |names| ==>
                  && Filled(unit[h], names[k], emitted, slots[h][k])
                  && (slots[h][k].Some? ==> exists c, p :: TypedBy(unit, c, p, names[k], slots[h][k].value.0))
    {
      var row := EmitSlots(classes[..], i, names, meta, emitted);
      slots := slots + [row];
    }
    forall a, k | 0 <= a < |cs| && 0 <= k < |names|
      ensures AsLookup(cs, depth, a, emitted, names[k], slots[IndexOf(unit, Merged(cs, depth, a))][k])
    {
      var i := IndexOf(unit, Merged(cs, depth, a));
      FilledAsLookup(cs, depth, a, emitted, names[k], slots[i][k]);
    }
  }

  lemma {:induction false} MergedReordered(cs: seq<Class>, depth: seq<nat>, cs': seq<Class>, depth': seq<nat>, i: nat,
                                           a: nat)
    requires Reordered(cs, depth, cs', depth') && UniqueNames(cs) && UniqueNames(cs')
    requires IsDepth(cs, depth) && IsDepth(cs', depth')
    requires i < |cs'| && a < |cs| && cs[a] == cs'[i]
    ensures WithMethods(cs'[i], Chain(cs', depth', i)) == Merged(cs, depth, a)
  {
    ChainReordered(cs, depth, cs', depth', i, a);
  }

  lemma {:induction false} DepthLength(cs: seq<Class>, depth: seq<nat>)
    requires IsDepth(cs, depth)
    ensures |depth| == |cs|
  {
  }

  /** Merging methods changes neither names nor superclasses. */
  lemma {:induction false} SameNames(before: seq<Class>, after: seq<Class>, depth: seq<nat>)
    requires IsDepth(before, depth) && |after| == |before| && UniqueNames(before)
    requires forall i :: 0 <= i < |before| ==> after[i] == WithMethods(before[i], Chain(before, depth, i))
    ensures UniqueNames(after) && forall i :: 0 <= i < |before| ==> Super(after, i) == Super(before, i)
  {
    forall i | 0 <= i < |before|
      ensures Super(after, i) == Super(before, i)
    {
      if before[i].super.Some? {
        ClassIndexByName(before, after, before[i].super.value);
      }
    }
  }
}
