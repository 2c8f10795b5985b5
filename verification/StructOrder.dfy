/**
 The order in which struct definitions are written (crates/codegen/src/codegen.rs:2946-3024): a
 definition waits for every other definition of the unit that its field types mention.
 */
module StructOrder {

  /**
   The tag of a struct that a field type speaks of; `byValue` when the field holds the struct itself, `tagged`
   when the type is written with `struct ` in front of the tag. A typedef alias is written without.
   */
  datatype Mention = Mention(name: string, byValue: bool, tagged: bool)

  datatype Definition = Definition(tag: string, mentions: seq<Mention>)

  predicate Defined(defs: seq<Definition>, tag: string) {
    exists j :: 0 <= j < |defs| && defs[j].tag == tag
  }

  /** What a definition waits for: the code looks for the text `struct ` and does not tell pointers from values. */
  function Deps(defs: seq<Definition>, i: nat): set<string>
    requires i < |defs|
  {
    set m | m in defs[i].mentions && m.tagged && m.name != "" && m.name != defs[i].tag
        && Defined(defs, m.name) :: m.name
  }

  /** What C needs a complete type for, however the type is written. */
  function ValueDeps(defs: seq<Definition>, i: nat): set<string>
    requires i < |defs|
  {
    set m | m in defs[i].mentions && m.byValue && Defined(defs, m.name) :: m.name
  }

  /** Every dependency has a definition among the emitted ones. */
  predicate Ready(defs: seq<Definition>, emitted: set<nat>, i: nat)
    requires i < |defs| && forall e <- emitted :: e < |defs|
  {
    forall dep <- Deps(defs, i) :: exists e <- emitted :: defs[e].tag == dep
  }

  /** Each index once. */
  ghost predicate Permutation(order: seq<nat>, n: nat) {
    && |order| == n
    && (forall k :: 0 <= k < |order| ==> order[k] < n)
    && forall j, k :: 0 <= j < k < |order| ==> order[j] != order[k]
  }

  ghost function Indices(order: seq<nat>): set<nat> {
    set k | 0 <= k < |order| :: order[k]
  }

  /** Every dependency of position `k` is defined before it. */
  ghost predicate AfterDeps(defs: seq<Definition>, order: seq<nat>, k: nat)
    requires k < |order| && forall e :: 0 <= e < |order| ==> order[e] < |defs|
  {
    forall dep <- Deps(defs, order[k]) :: exists e :: 0 <= e < k && defs[order[e]].tag == dep
  }

  /** What the first loop has: distinct definitions, each after its dependencies. */
  ghost predicate Settling(defs: seq<Definition>, emitted: set<nat>, order: seq<nat>) {
    && (forall k :: 0 <= k < |order| ==> order[k] < |defs|)
    && (forall j, k :: 0 <= j < k < |order| ==> order[j] != order[k])
    && emitted == Indices(order)
    && forall k :: 0 <= k < |order| ==> AfterDeps(defs, order, k)
  }

  ghost predicate Blocked(defs: seq<Definition>, order: seq<nat>, i: nat)
    requires i < |defs| && forall e :: 0 <= e < |order| ==> order[e] < |defs|
  {
    exists dep <- Deps(defs, i) :: forall e :: 0 <= e < |order| ==> defs[order[e]].tag != dep
  }

  lemma {:induction false} NoMoreThan(order: seq<nat>, n: nat)
    requires forall k :: 0 <= k < |order| ==> order[k] < n
    requires forall j, k :: 0 <= j < k < |order| ==> order[j] != order[k]
    ensures |Indices(order)| == |order| <= n
  {
    Cardinality(order);
    assert Indices(order) <= Below(n);
    Subset(Indices(order), Below(n));
  }

  ghost function Below(n: nat): (r: set<nat>)
    ensures |r| == n && forall k: nat :: k in r <==> k < n
  {
    if n == 0 then {} else Below(n - 1) + {n - 1}
  }

  lemma {:induction false} Subset(a: set<nat>, b: set<nat>)
    requires a <= b
    ensures |a| <= |b|
  {
    assert b == a + (b - a);
  }

  lemma {:induction false} Cardinality(order: seq<nat>)
    requires forall j, k :: 0 <= j < k < |order| ==> order[j] != order[k]
    ensures |Indices(order)| == |order|
    decreases |order|
  {
    if order != [] {
      var n := |order| - 1;
      Cardinality(order[..n]);
      assert Indices(order) == Indices(order[..n]) + {order[n]};
    }
  }

  lemma {:induction false} Settle(defs: seq<Definition>, emitted: set<nat>, order: seq<nat>, i: nat)
    requires Settling(defs, emitted, order) && i < |defs| && i !in emitted
    requires (forall e <- emitted :: e < |defs|) && Ready(defs, emitted, i)
    ensures Settling(defs, emitted + {i}, order + [i])
  {
    var after := order + [i];
    assert forall k :: 0 <= k < |order| ==> order[k] in Indices(order);
    assert Indices(after) == Indices(order) + {i} by {
      assert after[|order|] == i;
      assert forall k :: 0 <= k < |order| ==> after[k] == order[k];
    }
    forall k | 0 <= k < |after|
      ensures AfterDeps(defs, after, k)
    {
      if k < |order| {
        assert AfterDeps(defs, order, k);
        forall dep | dep in Deps(defs, after[k])
          ensures exists e :: 0 <= e < k && defs[after[e]].tag == dep
        {
          var e :| 0 <= e < k && defs[order[e]].tag == dep;
          assert defs[after[e]].tag == dep;
        }
      } else {
        forall dep | dep in Deps(defs, after[k])
          ensures exists e :: 0 <= e < k && defs[after[e]].tag == dep
        {
          var e :| e in emitted && defs[e].tag == dep;
          var p :| 0 <= p < |order| && order[p] == e;
          assert defs[after[p]].tag == dep;
        }
      }
    }
  }

  lemma {:induction false} NotReadyIsBlocked(defs: seq<Definition>, emitted: set<nat>, order: seq<nat>, i: nat)
    requires Settling(defs, emitted, order) && i < |defs|
    requires (forall e <- emitted :: e < |defs|) && !Ready(defs, emitted, i)
    ensures Blocked(defs, order, i)
  {
    var dep :| dep in Deps(defs, i) && forall e <- emitted :: defs[e].tag != dep;
    assert forall e :: 0 <= e < |order| ==> order[e] in emitted;
  }

  /**
   Every definition once. The first `settled` positions each come after all they depend on; the rest,
   in their original order, are exactly the definitions that wait for one that never settles.
   */
  method Order(defs: seq<Definition>) returns (order: seq<nat>, ghost settled: nat)
    ensures Permutation(order, |defs|) && settled <= |order|
    ensures forall k :: 0 <= k < settled ==> AfterDeps(defs, order, k)
    ensures forall k :: settled <= k < |order| ==> Blocked(defs, order[..settled], order[k])
    ensures forall j, k :: settled <= j < k < |order| ==> order[j] < order[k]
    ensures DistinctTags(defs) ==> ByRound(defs, order, settled)
  {
    hide Ready, AfterDeps, Blocked, Appending, Scheduled, DistinctTags, ByRound;
    var emitted: set<nat> := {};
    order := [];
    var progressed := true;
    ghost var pass: nat := 0;
    StartSchedule(defs);
    while progressed
      invariant Settling(defs, emitted, order)
      invariant DistinctTags(defs) ==> Scheduled(defs, emitted, order, pass, 0)
      invariant !progressed ==> forall k :: 0 <= k < |defs| && k !in emitted ==> Blocked(defs, order, k)
      decreases |defs| - |order|, progressed
    {
      progressed := false;
      ghost var before := order;
      for i := 0 to |defs|
        invariant Settling(defs, emitted, order)
        invariant if progressed then |order| > |before| else order == before
        invariant DistinctTags(defs) ==> Scheduled(defs, emitted, order, pass, i)
        invariant !progressed ==> forall k :: 0 <= k < i && k !in emitted ==> Blocked(defs, order, k)
      {
        ScheduleNext(defs, emitted, order, pass, i);
        if i !in emitted {
          if Ready(defs, emitted, i) {
            Settle(defs, emitted, order, i);
            emitted := emitted + {i};
            order := order + [i];
            progressed := true;
          } else {
            NotReadyIsBlocked(defs, emitted, order, i);
          }
        }
      }
      NoMoreThan(order, |defs|);
      NextPass(defs, emitted, order, pass);
      pass := pass + 1;
    }
    settled := |order|;
    ghost var first := order;
    StartAppending(defs, emitted, first);
    for i := 0 to |defs|
      invariant Appending(defs, emitted, first, order, i)
    {
      AppendNext(defs, emitted, first, order, i);
      if i !in emitted {
        order := order + [i];
      }
    }
    AppendedAll(defs, emitted, first, order);
    if DistinctTags(defs) {
      ScheduleEnds(defs, emitted, first, order, pass);
    }
  }

  /** The second loop: what is left over follows in ascending order. */
  ghost predicate Appending(defs: seq<Definition>, emitted: set<nat>, first: seq<nat>, order: seq<nat>, n: nat) {
    && first <= order
    && (forall k :: 0 <= k < |order| ==> order[k] < |defs|)
    && (forall j, k :: 0 <= j < k < |order| ==> order[j] != order[k])
    && (forall k :: |first| <= k < |order| ==> order[k] < n && order[k] !in emitted)
    && (forall j, k :: |first| <= j < k < |order| ==> order[j] < order[k])
    && forall k: nat :: k < n ==> k in Indices(order) || k in emitted
  }

  lemma {:induction false} StartAppending(defs: seq<Definition>, emitted: set<nat>, first: seq<nat>)
    requires Settling(defs, emitted, first)
    ensures Appending(defs, emitted, first, first, 0)
  {
  }

  lemma {:induction false} AppendNext(defs: seq<Definition>, emitted: set<nat>, first: seq<nat>, order: seq<nat>,
                                      i: nat)
    requires Settling(defs, emitted, first) && Appending(defs, emitted, first, order, i) && i < |defs|
    ensures Appending(defs, emitted, first, if i in emitted then order else order + [i], i + 1)
  {
    hide AfterDeps;
    if i !in emitted {
      IndicesGrow(order, i);
      forall k | 0 <= k < |order|
        ensures order[k] != i
      {
        if k < |first| {
          assert first[k] in emitted;
        }
      }
    }
  }

  lemma {:induction false} AppendedAll(defs: seq<Definition>, emitted: set<nat>, first: seq<nat>, order: seq<nat>)
    requires Settling(defs, emitted, first) && Appending(defs, emitted, first, order, |defs|)
    requires forall k :: 0 <= k < |defs| && k !in emitted ==> Blocked(defs, first, k)
    ensures Permutation(order, |defs|) && |first| <= |order| && order[..|first|] == first
    ensures forall k :: 0 <= k < |first| ==> AfterDeps(defs, order, k)
    ensures forall k :: |first| <= k < |order| ==> Blocked(defs, order[..|first|], order[k])
    ensures forall j, k :: |first| <= j < k < |order| ==> order[j] < order[k]
  {
    hide AfterDeps, Blocked;
    forall k | k in Below(|defs|)
      ensures k in Indices(order)
    {
      if k in emitted {
        var p :| 0 <= p < |first| && first[p] == k;
        assert order[p] == k;
      }
    }
    NoMoreThan(order, |defs|);
    Subset(Below(|defs|), Indices(order));
    forall k | 0 <= k < |first|
      ensures AfterDeps(defs, order, k)
    {
      SamePrefix(defs, first, order, k);
    }
  }

  lemma {:induction false} IndicesGrow(order: seq<nat>, i: nat)
    ensures Indices(order + [i]) == Indices(order) + {i}
  {
    var after := order + [i];
    assert after[|order|] == i;
    assert forall k :: 0 <= k < |order| ==> after[k] == order[k];
  }

  lemma {:induction false} SamePrefix(defs: seq<Definition>, first: seq<nat>, order: seq<nat>, k: nat)
    requires k < |first| && first <= order
    requires forall e :: 0 <= e < |order| ==> order[e] < |defs|
    requires AfterDeps(defs, first, k)
    ensures AfterDeps(defs, order, k)
  {
    forall dep | dep in Deps(defs, order[k])
      ensures exists e :: 0 <= e < k && defs[order[e]].tag == dep
    {
      var e :| 0 <= e < k && defs[first[e]].tag == dep;
      assert defs[order[e]].tag == dep;
    }
  }

  // ---------------------------------------------------------------- in which pass

  /** Dependencies end after fewer than `n` steps. */
  ghost predicate Grounded(defs: seq<Definition>, i: nat, n: nat)
    requires i < |defs|
    decreases n
  {
    n > 0 && forall j :: 0 <= j < |defs| && defs[j].tag in Deps(defs, i) ==> Grounded(defs, j, n - 1)
  }

  /** No dependency of `i`, however far, is on a cycle. */
  ghost predicate Settles(defs: seq<Definition>, i: nat)
    requires i < |defs|
  {
    exists n :: Grounded(defs, i, n)
  }

  /** `Round` over the dependencies among the first `k` definitions. */
  ghost function RoundOver(defs: seq<Definition>, i: nat, n: nat, k: nat): nat
    requires i < |defs| && k <= |defs| && Grounded(defs, i, n)
    decreases n, k
  {
    if k == 0 then
      0
    else
      var rest := RoundOver(defs, i, n, k - 1);
      if defs[k - 1].tag !in Deps(defs, i) then
        rest
      else
        var here := RoundOver(defs, k - 1, n - 1, |defs|) + Forward(i, k - 1);
        if here > rest then here else rest
  }

  /** A dependency further down the source is met one pass later. */
  function Forward(i: nat, j: nat): nat {
    if j > i then 1 else 0
  }

  ghost function Depth(defs: seq<Definition>, i: nat): (n: nat)
    requires i < |defs| && Settles(defs, i)
    ensures Grounded(defs, i, n)
  {
    var n :| Grounded(defs, i, n);
    n
  }

  /** The pass in which a definition settles. */
  ghost function Round(defs: seq<Definition>, i: nat): nat
    requires i < |defs| && Settles(defs, i)
  {
    RoundOver(defs, i, Depth(defs, i), |defs|)
  }

  lemma {:induction false} RoundOverIsMax(defs: seq<Definition>, i: nat, n: nat, k: nat)
    requires i < |defs| && k <= |defs| && Grounded(defs, i, n)
    ensures forall j :: 0 <= j < k && defs[j].tag in Deps(defs, i) ==>
                RoundOver(defs, j, n - 1, |defs|) + Forward(i, j) <= RoundOver(defs, i, n, k)
    ensures RoundOver(defs, i, n, k) > 0 ==>
              exists j :: 0 <= j < k && defs[j].tag in Deps(defs, i)
                          && RoundOver(defs, i, n, k) == RoundOver(defs, j, n - 1, |defs|) + Forward(i, j)
    decreases k
  {
    hide Deps;
    if k > 0 {
      RoundOverIsMax(defs, i, n, k - 1);
    }
  }

  lemma {:induction false} RoundStable(defs: seq<Definition>, i: nat, n: nat, m: nat, k: nat)
    requires i < |defs| && k <= |defs| && Grounded(defs, i, n) && Grounded(defs, i, m)
    ensures RoundOver(defs, i, n, k) == RoundOver(defs, i, m, k)
    decreases n, k
  {
    hide Deps;
    if k > 0 {
      RoundStable(defs, i, n, m, k - 1);
      if defs[k - 1].tag in Deps(defs, i) {
        RoundStable(defs, k - 1, n - 1, m - 1, |defs|);
      }
    }
  }

  /** A definition's pass is the latest that its dependencies ask for. */
  lemma {:induction false} RoundIsLatest(defs: seq<Definition>, i: nat)
    requires i < |defs| && Settles(defs, i)
    ensures forall j :: 0 <= j < |defs| && defs[j].tag in Deps(defs, i) ==>
                Settles(defs, j) && Round(defs, j) + Forward(i, j) <= Round(defs, i)
    ensures Round(defs, i) > 0 ==> exists j :: 0 <= j < |defs| && defs[j].tag in Deps(defs, i)
                                               && Settles(defs, j) && Round(defs, i) == Round(defs, j) + Forward(i, j)
  {
    hide Deps;
    var n := Depth(defs, i);
    RoundOverIsMax(defs, i, n, |defs|);
    forall j | 0 <= j < |defs| && defs[j].tag in Deps(defs, i)
      ensures Settles(defs, j) && Round(defs, j) == RoundOver(defs, j, n - 1, |defs|)
    {
      assert Grounded(defs, j, n - 1);
      RoundStable(defs, j, n - 1, Depth(defs, j), |defs|);
    }
  }

  lemma {:induction false} GroundedLonger(defs: seq<Definition>, i: nat, n: nat, m: nat)
    requires i < |defs| && n <= m && Grounded(defs, i, n)
    ensures Grounded(defs, i, m)
    decreases n
  {
    forall j | 0 <= j < |defs| && defs[j].tag in Deps(defs, i)
      ensures Grounded(defs, j, m - 1)
    {
      GroundedLonger(defs, j, n - 1, m - 1);
    }
  }

  lemma {:induction false} CommonDepth(defs: seq<Definition>, i: nat, k: nat) returns (n: nat)
    requires i < |defs| && k <= |defs|
    requires forall j :: 0 <= j < |defs| && defs[j].tag in Deps(defs, i) ==> Settles(defs, j)
    ensures forall j :: 0 <= j < k && defs[j].tag in Deps(defs, i) ==> Grounded(defs, j, n)
    decreases k
  {
    n := 0;
    if k > 0 {
      var rest := CommonDepth(defs, i, k - 1);
      n := rest;
      if defs[k - 1].tag in Deps(defs, i) {
        n := if Depth(defs, k - 1) > rest then Depth(defs, k - 1) else rest;
        GroundedLonger(defs, k - 1, Depth(defs, k - 1), n);
      }
      forall j | 0 <= j < k - 1 && defs[j].tag in Deps(defs, i)
        ensures Grounded(defs, j, n)
      {
        GroundedLonger(defs, j, rest, n);
      }
    }
  }

  lemma {:induction false} SettlesAfterDeps(defs: seq<Definition>, i: nat)
    requires i < |defs|
    requires forall j :: 0 <= j < |defs| && defs[j].tag in Deps(defs, i) ==> Settles(defs, j)
    ensures Settles(defs, i)
  {
    var n := CommonDepth(defs, i, |defs|);
    assert Grounded(defs, i, n + 1);
  }

  /** Written before index `i` of pass `pass`. */
  ghost predicate Done(defs: seq<Definition>, k: nat, pass: nat, i: nat)
    requires k < |defs|
  {
    Settles(defs, k) && (Round(defs, k) < pass || (Round(defs, k) == pass && k < i))
  }

  /** `j` settles before `i`. */
  ghost predicate Sooner(defs: seq<Definition>, j: nat, i: nat)
    requires j < |defs| && i < |defs| && Settles(defs, i)
  {
    Done(defs, j, Round(defs, i), i)
  }

  /** Where the loop is at index `i` of pass `pass`. */
  ghost predicate Scheduled(defs: seq<Definition>, emitted: set<nat>, order: seq<nat>, pass: nat, i: nat) {
    && (forall k <- emitted :: k < |defs|)
    && (forall k :: 0 <= k < |defs| ==> (k in emitted <==> Done(defs, k, pass, i)))
    && (forall k :: 0 <= k < |order| ==> order[k] < |defs| && order[k] in emitted && Settles(defs, order[k]))
    && forall j, k :: 0 <= j < k < |order| ==> Sooner(defs, order[j], order[k])
  }

  lemma {:induction false} StartSchedule(defs: seq<Definition>)
    ensures Scheduled(defs, {}, [], 0, 0)
  {
    hide Settles, Round;
  }

  /** With distinct tags, what is not yet written is ready exactly in its own pass. */
  lemma {:induction false} ReadyInItsRound(defs: seq<Definition>, emitted: set<nat>, pass: nat, i: nat)
    requires DistinctTags(defs) && i < |defs| && (forall k <- emitted :: k < |defs|) && i !in emitted
    requires forall k :: 0 <= k < |defs| ==> (k in emitted <==> Done(defs, k, pass, i))
    ensures Ready(defs, emitted, i) <==> Settles(defs, i) && Round(defs, i) == pass
  {
    hide Settles, Round;
    if Settles(defs, i) && Round(defs, i) == pass {
      RoundIsLatest(defs, i);
      forall dep | dep in Deps(defs, i)
        ensures exists e <- emitted :: defs[e].tag == dep
      {
        assert Defined(defs, dep);
        var j: nat :| j < |defs| && defs[j].tag == dep;
        assert Done(defs, j, pass, i);
      }
    }
    if Ready(defs, emitted, i) {
      forall j | 0 <= j < |defs| && defs[j].tag in Deps(defs, i)
        ensures Done(defs, j, pass, i)
      {
        var e :| e in emitted && defs[e].tag == defs[j].tag;
        assert e == j;
      }
      SettlesAfterDeps(defs, i);
      RoundIsLatest(defs, i);
      assert !Done(defs, i, pass, i);
    }
  }

  lemma {:induction false} ScheduleNext(defs: seq<Definition>, emitted: set<nat>, order: seq<nat>, pass: nat, i: nat)
    requires (forall k <- emitted :: k < |defs|) && i < |defs|
    ensures DistinctTags(defs) && Scheduled(defs, emitted, order, pass, i) ==>
              if i !in emitted && Ready(defs, emitted, i) then
                Scheduled(defs, emitted + {i}, order + [i], pass, i + 1)
              else
                Scheduled(defs, emitted, order, pass, i + 1)
  {
    hide Settles, Round, Ready;
    if DistinctTags(defs) && Scheduled(defs, emitted, order, pass, i) && i !in emitted {
      ReadyInItsRound(defs, emitted, pass, i);
    }
  }

  lemma {:induction false} NextPass(defs: seq<Definition>, emitted: set<nat>, order: seq<nat>, pass: nat)
    ensures DistinctTags(defs) && Scheduled(defs, emitted, order, pass, |defs|) ==>
              Scheduled(defs, emitted, order, pass + 1, 0)
  {
    hide Settles, Round;
  }

  /** What the passes come to: what settles stands in front, sorted by pass and then by index. */
  ghost predicate ByRound(defs: seq<Definition>, order: seq<nat>, settled: nat) {
    && (forall k :: 0 <= k < |order| ==> order[k] < |defs|)
    && (forall k :: 0 <= k < |order| ==> (k < settled <==> Settles(defs, order[k])))
    && forall j, k :: 0 <= j < k < |order| && k < settled ==> Sooner(defs, order[j], order[k])
  }

  /** Whatever settles is among the emitted once everything else is blocked. */
  lemma {:induction false} SettlesIsEmitted(defs: seq<Definition>, first: seq<nat>, i: nat, n: nat)
    requires i < |defs| && Grounded(defs, i, n)
    requires forall e :: 0 <= e < |first| ==> first[e] < |defs|
    requires forall k :: 0 <= k < |defs| && k !in first ==> Blocked(defs, first, k)
    ensures i in first
    decreases n
  {
    if i !in first {
      var dep :| dep in Deps(defs, i) && forall e :: 0 <= e < |first| ==> defs[first[e]].tag != dep;
      assert Defined(defs, dep);
      var j: nat :| j < |defs| && defs[j].tag == dep;
      SettlesIsEmitted(defs, first, j, n - 1);
    }
  }

  lemma {:induction false} ScheduleEnds(defs: seq<Definition>, emitted: set<nat>, first: seq<nat>, order: seq<nat>,
                                        pass: nat)
    requires Settling(defs, emitted, first) && Scheduled(defs, emitted, first, pass, 0)
    requires forall k :: 0 <= k < |defs| && k !in emitted ==> Blocked(defs, first, k)
    requires Permutation(order, |defs|) && |first| <= |order| && order[..|first|] == first
    ensures ByRound(defs, order, |first|)
  {
    hide AfterDeps, Blocked, Round;
    assert forall k :: 0 <= k < |first| ==> order[k] == first[k];
    forall k | |first| <= k < |order|
      ensures !Settles(defs, order[k])
    {
      if Settles(defs, order[k]) {
        SettlesIsEmitted(defs, first, order[k], Depth(defs, order[k]));
      }
    }
  }

  // ---------------------------------------------------------------- acyclic units

  /** A numbering under which a definition is above every definition it depends on. */
  ghost predicate Ranked(defs: seq<Definition>, rank: seq<nat>) {
    |rank| == |defs|
    && forall i, j :: 0 <= i < |defs| && 0 <= j < |defs| && defs[j].tag in Deps(defs, i) ==> rank[j] < rank[i]
  }

  ghost predicate DistinctTags(defs: seq<Definition>) {
    forall i, j :: 0 <= i < j < |defs| ==> defs[i].tag != defs[j].tag
  }

  /** What `Order` promises. */
  ghost predicate Outcome(defs: seq<Definition>, order: seq<nat>, settled: nat) {
    && Permutation(order, |defs|) && settled <= |order|
    && (forall k :: 0 <= k < settled ==> AfterDeps(defs, order, k))
    && (forall k :: settled <= k < |order| ==> Blocked(defs, order[..settled], order[k]))
  }

  lemma {:induction false} Located(order: seq<nat>, n: nat, i: nat) returns (k: nat)
    requires Permutation(order, n) && i < n
    ensures k < n && order[k] == i
  {
    Cardinality(order);
    if i !in Indices(order) {
      Subset(Indices(order) + {i}, Below(n));
    }
    assert i in Indices(order);
    k :| 0 <= k < |order| && order[k] == i;
  }

  /** A blocked definition waits for another one that is left over too. */
  lemma {:induction false} BlockedByLeftover(defs: seq<Definition>, order: seq<nat>, settled: nat, k: nat)
    returns (k': nat)
    requires Outcome(defs, order, settled) && settled <= k < |order|
    ensures settled <= k' < |order| && defs[order[k']].tag in Deps(defs, order[k])
  {
    var first := order[..settled];
    var dep :| dep in Deps(defs, order[k]) && forall e :: 0 <= e < |first| ==> defs[first[e]].tag != dep;
    assert Defined(defs, dep);
    var j :| 0 <= j < |defs| && defs[j].tag == dep;
    k' := Located(order, |defs|, j);
    assert forall e :: 0 <= e < settled ==> first[e] == order[e];
  }

  lemma {:induction false} NothingLeftOver(defs: seq<Definition>, order: seq<nat>, settled: nat, rank: seq<nat>, k: nat)
    requires Outcome(defs, order, settled) && Ranked(defs, rank) && settled <= k < |order|
    ensures false
    decreases rank[order[k]]
  {
    var k' := BlockedByLeftover(defs, order, settled, k);
    NothingLeftOver(defs, order, settled, rank, k');
  }

  /** Every position at which a definition with tag `defs[j].tag` can be is `j`'s. */
  lemma {:induction false} SettledRank(defs: seq<Definition>, order: seq<nat>)
    requires Outcome(defs, order, |order|) && DistinctTags(defs)
    ensures exists rank :: Ranked(defs, rank)
  {
    var rank := seq(|defs|, i requires 0 <= i < |defs| => PositionOf(order, |defs|, i));
    forall i, j | 0 <= i < |defs| && 0 <= j < |defs| && defs[j].tag in Deps(defs, i)
      ensures rank[j] < rank[i]
    {
      DependencyFirst(defs, order, i, j);
    }
    assert Ranked(defs, rank);
  }

  ghost function PositionOf(order: seq<nat>, n: nat, i: nat): (k: nat)
    requires Permutation(order, n) && i < n
    ensures k < n && order[k] == i
  {
    HasPosition(order, n, i);
    var k: nat :| k < n && order[k] == i;
    k
  }

  lemma {:induction false} HasPosition(order: seq<nat>, n: nat, i: nat)
    requires Permutation(order, n) && i < n
    ensures exists k: nat :: k < n && order[k] == i
  {
    var k := Located(order, n, i);
  }

  /** With distinct tags a settled definition comes after every definition it depends on. */
  lemma {:induction false} DependencyFirst(defs: seq<Definition>, order: seq<nat>, i: nat, j: nat)
    requires Outcome(defs, order, |order|) && DistinctTags(defs)
    requires i < |defs| && j < |defs| && defs[j].tag in Deps(defs, i)
    ensures PositionOf(order, |defs|, j) < PositionOf(order, |defs|, i)
  {
    var k := PositionOf(order, |defs|, i);
    assert AfterDeps(defs, order, k);
    var e :| 0 <= e < k && defs[order[e]].tag == defs[j].tag;
    assert order[e] == j;
    assert PositionOf(order, |defs|, j) == e;
  }

  /**
   The fallback appends nothing when dependencies are acyclic, and with distinct tags only then; each
   definition then follows everything it depends on.
   */
  lemma {:induction false} FallbackUnusedIffAcyclic(defs: seq<Definition>, order: seq<nat>, settled: nat)
    requires Outcome(defs, order, settled)
    ensures (exists rank :: Ranked(defs, rank)) ==> settled == |order|
    ensures DistinctTags(defs) && settled == |order| ==> exists rank :: Ranked(defs, rank)
    ensures DistinctTags(defs) && settled == |order| ==>
              forall j, k :: 0 <= j < |order| && 0 <= k < |order| && defs[order[j]].tag in Deps(defs, order[k]) ==>
                  j < k
  {
    if rank :| Ranked(defs, rank) {
      if settled < |order| {
        NothingLeftOver(defs, order, settled, rank, settled);
      }
    }
    if DistinctTags(defs) && settled == |order| {
      SettledRank(defs, order);
      forall j, k | 0 <= j < |order| && 0 <= k < |order| && defs[order[j]].tag in Deps(defs, order[k])
        ensures j < k
      {
        DependencyFirst(defs, order, order[k], order[j]);
        assert PositionOf(order, |defs|, order[j]) == j && PositionOf(order, |defs|, order[k]) == k;
      }
    }
  }

  // ---------------------------------------------------------------- by value

  /** Every struct that position `k` holds by value is defined before it: the C compiles. */
  ghost predicate ValuesFirst(defs: seq<Definition>, order: seq<nat>, k: nat)
    requires k < |order| && forall e :: 0 <= e < |order| ==> order[e] < |defs|
  {
    forall dep <- ValueDeps(defs, order[k]) :: exists e :: 0 <= e < k && defs[order[e]].tag == dep
  }

  /** A walk along dependencies. */
  ghost predicate Walk(defs: seq<Definition>, path: seq<nat>) {
    && (forall n :: 0 <= n < |path| ==> path[n] < |defs|)
    && forall n :: 0 <= n < |path| - 1 ==> defs[path[n + 1]].tag in Deps(defs, path[n])
  }

  /** A walk from `i` that is longer than there are definitions: it runs into a cycle. */
  ghost predicate ReachesCycle(defs: seq<Definition>, i: nat) {
    exists path :: Walk(defs, path) && |path| == |defs| + 1 && path[0] == i
  }

  lemma {:induction false} LeftoverWalk(defs: seq<Definition>, order: seq<nat>, settled: nat, k: nat, n: nat)
    returns (path: seq<nat>)
    requires Outcome(defs, order, settled) && settled <= k < |order|
    ensures Walk(defs, path) && |path| == n + 1 && path[0] == order[k]
    decreases n
  {
    if n == 0 {
      path := [order[k]];
    } else {
      var k' := BlockedByLeftover(defs, order, settled, k);
      var rest := LeftoverWalk(defs, order, settled, k', n - 1);
      path := [order[k]] + rest;
    }
  }

  /** From a settled position a walk only goes down. */
  lemma {:induction false} SettledWalk(defs: seq<Definition>, order: seq<nat>, settled: nat, k: nat, path: seq<nat>)
    requires Outcome(defs, order, settled) && DistinctTags(defs) && k < settled
    requires Walk(defs, path) && path != [] && path[0] == order[k]
    ensures |path| <= k + 1
    decreases |path|
  {
    if |path| > 1 {
      assert AfterDeps(defs, order, k);
      var e :| 0 <= e < k && defs[order[e]].tag == defs[path[1]].tag;
      assert order[e] == path[1];
      var rest := path[1..];
      assert forall n :: 0 <= n < |rest| ==> rest[n] == path[n + 1];
      SettledWalk(defs, order, settled, e, rest);
    }
  }

  /** What is left over is what depends on a cycle. */
  lemma {:induction false} LeftoverIffCycle(defs: seq<Definition>, order: seq<nat>, settled: nat, k: nat)
    requires Outcome(defs, order, settled) && DistinctTags(defs) && k < |order|
    ensures settled <= k <==> ReachesCycle(defs, order[k])
  {
    if settled <= k {
      var path := LeftoverWalk(defs, order, settled, k, |defs|);
    } else {
      forall path | Walk(defs, path) && path != [] && path[0] == order[k]
        ensures |path| <= |defs|
      {
        SettledWalk(defs, order, settled, k, path);
      }
    }
  }

  /** Where the code writes `j` before `i`: by pass, then by index; what never settles follows in source order. */
  ghost predicate Earlier(defs: seq<Definition>, j: nat, i: nat)
    requires j < |defs| && i < |defs|
  {
    if Settles(defs, i) then Sooner(defs, j, i) else Settles(defs, j) || j < i
  }

  /** What `Order` promises about the sequence on units with distinct tags. */
  ghost predicate InRounds(defs: seq<Definition>, order: seq<nat>, settled: nat) {
    && Permutation(order, |defs|) && settled <= |order| && ByRound(defs, order, settled)
    && forall j, k :: settled <= j < k < |order| ==> order[j] < order[k]
  }

  /** The positions are those of a relation between definitions: no choice is left to the loop. */
  lemma {:induction false} PositionsAreRounds(defs: seq<Definition>, order: seq<nat>, settled: nat, j: nat, k: nat)
    requires InRounds(defs, order, settled) && j < |order| && k < |order|
    ensures j < k <==> Earlier(defs, order[j], order[k])
  {
    hide Settles, Round;
    if j < k {
      assert k < settled ==> Sooner(defs, order[j], order[k]);
    } else if j > k {
      assert j < settled ==> Sooner(defs, order[k], order[j]);
    }
  }

  /**
   The code's purpose, a struct used by value is defined first, is met exactly when every struct held by value
   is earlier than its holder in the order of passes and indices.
   */
  lemma {:induction false} ValuesFirstIff(defs: seq<Definition>, order: seq<nat>, settled: nat)
    requires InRounds(defs, order, settled) && DistinctTags(defs)
    ensures (forall k :: 0 <= k < |order| ==> ValuesFirst(defs, order, k)) <==>
            (forall i, j :: 0 <= i < |defs| && 0 <= j < |defs| && defs[j].tag in ValueDeps(defs, i) ==>
                Earlier(defs, j, i))
  {
    hide Earlier, ByRound;
    if forall k :: 0 <= k < |order| ==> ValuesFirst(defs, order, k) {
      forall i, j | 0 <= i < |defs| && 0 <= j < |defs| && defs[j].tag in ValueDeps(defs, i)
        ensures Earlier(defs, j, i)
      {
        var k := Located(order, |defs|, i);
        assert ValuesFirst(defs, order, k);
        var e :| 0 <= e < k && defs[order[e]].tag == defs[j].tag;
        assert order[e] == j;
        PositionsAreRounds(defs, order, settled, e, k);
      }
    }
    if forall i, j :: 0 <= i < |defs| && 0 <= j < |defs| && defs[j].tag in ValueDeps(defs, i) ==> Earlier(defs, j, i) {
      forall k, dep | 0 <= k < |order| && dep in ValueDeps(defs, order[k])
        ensures exists e :: 0 <= e < k && defs[order[e]].tag == dep
      {
        assert Defined(defs, dep);
        var j: nat :| j < |defs| && defs[j].tag == dep;
        var e := Located(order, |defs|, j);
        PositionsAreRounds(defs, order, settled, e, k);
      }
    }
  }

  /**
   Where each by-value field is written with `struct `, what settles needs no condition: the code fails only on
   definitions that depend on a cycle and hold by value one that stands after them in the source.
   */
  lemma {:induction false} TaggedValuesFirstIff(defs: seq<Definition>, order: seq<nat>, settled: nat)
    requires Outcome(defs, order, settled) && DistinctTags(defs)
    requires forall j, k :: settled <= j < k < |order| ==> order[j] < order[k]
    requires forall i :: 0 <= i < |defs| ==> ValueDeps(defs, i) <= Deps(defs, i)
    ensures (forall k :: 0 <= k < |order| ==> ValuesFirst(defs, order, k)) <==> ValueCyclesInOrder(defs)
  {
    hide ReachesCycle, ValuesFirst;
    if forall k :: 0 <= k < |order| ==> ValuesFirst(defs, order, k) {
      forall i, j | 0 <= i < |defs| && 0 <= j < |defs| && Backward(defs, i, j)
        ensures j < i
      {
        NeededInOrder(defs, order, settled, i, j);
      }
    }
    if ValueCyclesInOrder(defs) {
      forall k | 0 <= k < |order|
        ensures ValuesFirst(defs, order, k)
      {
        InOrderSuffices(defs, order, settled, k);
      }
    }
  }

  /** Both depend on a cycle, and `i` holds `j` by value. */
  ghost predicate Backward(defs: seq<Definition>, i: nat, j: nat)
    requires i < |defs| && j < |defs|
  {
    ReachesCycle(defs, i) && ReachesCycle(defs, j) && defs[j].tag in ValueDeps(defs, i)
  }

  ghost predicate ValueCyclesInOrder(defs: seq<Definition>) {
    forall i, j :: 0 <= i < |defs| && 0 <= j < |defs| && Backward(defs, i, j) ==> j < i
  }

  lemma {:induction false} NeededInOrder(defs: seq<Definition>, order: seq<nat>, settled: nat, i: nat, j: nat)
    requires Outcome(defs, order, settled) && DistinctTags(defs) && i < |defs| && j < |defs| && Backward(defs, i, j)
    requires forall p, q :: settled <= p < q < |order| ==> order[p] < order[q]
    requires forall k :: 0 <= k < |order| ==> ValuesFirst(defs, order, k)
    ensures j < i
  {
    hide ReachesCycle;
    var k := Located(order, |defs|, i);
    assert ValuesFirst(defs, order, k);
    var e :| 0 <= e < k && defs[order[e]].tag == defs[j].tag;
    assert order[e] == j;
    LeftoverIffCycle(defs, order, settled, k);
    LeftoverIffCycle(defs, order, settled, e);
  }

  lemma {:induction false} InOrderSuffices(defs: seq<Definition>, order: seq<nat>, settled: nat, k: nat)
    requires Outcome(defs, order, settled) && DistinctTags(defs) && k < |order| && ValueCyclesInOrder(defs)
    requires forall p, q :: settled <= p < q < |order| ==> order[p] < order[q]
    requires ValueDeps(defs, order[k]) <= Deps(defs, order[k])
    ensures ValuesFirst(defs, order, k)
  {
    hide ReachesCycle;
    LeftoverIffCycle(defs, order, settled, k);
    forall dep | dep in ValueDeps(defs, order[k])
      ensures exists e :: 0 <= e < k && defs[order[e]].tag == dep
    {
      if k < settled {
        assert AfterDeps(defs, order, k);
      } else {
        assert Defined(defs, dep);
        var j :| 0 <= j < |defs| && defs[j].tag == dep;
        var e := Located(order, |defs|, j);
        LeftoverIffCycle(defs, order, settled, e);
        if settled <= e {
          assert Backward(defs, order[k], order[e]);
        }
        assert defs[order[e]].tag == dep && e < k;
      }
    }
  }

  /**
   `struct A { struct B b; }; struct B { struct A *a; };` The pointer makes each wait for the other, and the
   fallback writes A, which needs B complete, first.
   */
  lemma {:induction false} PointerBlocksValue(order: seq<nat>, settled: nat)
    requires var defs := [Definition("A", [Mention("B", true, true)]), Definition("B", [Mention("A", false, true)])];
             Outcome(defs, order, settled) && forall j, k :: settled <= j < k < |order| ==> order[j] < order[k]
    ensures var defs := [Definition("A", [Mention("B", true, true)]), Definition("B", [Mention("A", false, true)])];
            order == [0, 1] && !ValuesFirst(defs, order, 0)
  {
    var a, b := Mention("B", true, true), Mention("A", false, true);
    var defs := [Definition("A", [a]), Definition("B", [b])];
    assert defs[0].tag == "A" && defs[1].tag == "B";
    assert Defined(defs, "A") && Defined(defs, "B");
    assert a in defs[0].mentions && b in defs[1].mentions;
    assert "B" in ValueDeps(defs, 0) && "A" in Deps(defs, 1);
    assert "B" in Deps(defs, 0) && "A" in Deps(defs, 1);
    assert order[0] < 2;
    assert Deps(defs, order[0]) != {};
    assert !AfterDeps(defs, order, 0);
    assert settled == 0 && order[0] < order[1];
    assert "B" in ValueDeps(defs, order[0]);
  }

  /** `typedef struct P { struct Q *q; } P; struct A { P p; }; struct Q { int x; };` */
  function AliasUnit(): seq<Definition> {
    [Definition("P", [Mention("Q", false, true)]), Definition("A", [Mention("P", true, false)]), Definition("Q", [])]
  }

  lemma {:induction false} AliasUnitDeps()
    ensures var defs := AliasUnit();
            && |defs| == 3 && defs[0].tag == "P" && defs[1].tag == "A" && defs[2].tag == "Q" && DistinctTags(defs)
            && Deps(defs, 0) == {"Q"} && Deps(defs, 1) == {} && Deps(defs, 2) == {} && ValueDeps(defs, 1) == {"P"}
  {
    var defs := AliasUnit();
    assert defs[0].tag == "P" && defs[1].tag == "A" && defs[2].tag == "Q";
    assert Defined(defs, "P") && Defined(defs, "Q");
  }

  /** The alias is no dependency: A, which holds P, is written before P, and nothing here is cyclic. */
  lemma {:induction false} AliasWrittenFirst(order: seq<nat>, settled: nat)
    requires InRounds(AliasUnit(), order, settled)
    ensures Ranked(AliasUnit(), [1, 0, 0]) && settled == 3 && order == [1, 2, 0]
    ensures !ValuesFirst(AliasUnit(), order, 0)
  {
    hide AliasUnit, Deps, ValueDeps, Round;
    AliasUnitDeps();
    var defs := AliasUnit();
    assert Grounded(defs, 1, 1) && Grounded(defs, 2, 1);
    assert Grounded(defs, 0, 2);
    RoundIsLatest(defs, 0);
    RoundIsLatest(defs, 1);
    RoundIsLatest(defs, 2);
    var a := Located(order, 3, 1);
    var q := Located(order, 3, 2);
    var p := Located(order, 3, 0);
    PositionsAreRounds(defs, order, settled, a, q);
    PositionsAreRounds(defs, order, settled, q, p);
  }

  /** A and one B need each other, and there is a second B. */
  function TwoBs(): seq<Definition> {
    [Definition("A", [Mention("B", false, true)]), Definition("B", [Mention("A", false, true)]), Definition("B", [])]
  }

  lemma {:induction false} TwoBsDeps()
    ensures var defs := TwoBs();
            && |defs| == 3 && defs[0].tag == "A" && defs[1].tag == "B" == defs[2].tag
            && Deps(defs, 0) == {"B"} && Deps(defs, 1) == {"A"} && Deps(defs, 2) == {}
  {
    var defs := TwoBs();
    assert defs[0].tag == "A" && defs[1].tag == "B" == defs[2].tag;
    assert Defined(defs, "A") && Defined(defs, "B");
  }

  /** With one tag twice the order settles everything although the unit is cyclic. */
  lemma {:induction false} SameTagHidesCycle()
    ensures Outcome(TwoBs(), [2, 0, 1], 3) && !exists rank :: Ranked(TwoBs(), rank)
  {
    hide TwoBs, Deps;
    TwoBsDeps();
    var defs, order: seq<nat> := TwoBs(), [2, 0, 1];
    assert AfterDeps(defs, order, 0);
    assert AfterDeps(defs, order, 1) by { assert defs[order[0]].tag == "B"; }
    assert AfterDeps(defs, order, 2) by { assert defs[order[1]].tag == "A"; }
    forall rank: seq<nat>
      ensures !Ranked(defs, rank)
    {
      assert defs[1].tag in Deps(defs, 0) && defs[0].tag in Deps(defs, 1);
    }
  }

  /** Structs that mention nothing but themselves, or no tag at all, wait for nothing and keep their places. */
  lemma {:induction false} OwnPointersKeepOrder(defs: seq<Definition>, order: seq<nat>, settled: nat)
    requires Outcome(defs, order, settled) && DistinctTags(defs) && ByRound(defs, order, settled)
    requires forall i :: 0 <= i < |defs| ==> forall m <- defs[i].mentions ::
               m.tagged ==> m.name == defs[i].tag || m.name == ""
    ensures settled == |order| && forall j, k :: 0 <= j < k < |order| ==> order[j] < order[k]
  {
    hide Outcome, DistinctTags;
    forall i | 0 <= i < |defs|
      ensures Settles(defs, i) && Round(defs, i) == 0
    {
      assert Deps(defs, i) == {};
      assert Grounded(defs, i, 1);
      RoundIsLatest(defs, i);
    }
    assert Permutation(order, |defs|) && settled <= |order| by { OutcomeParts(defs, order, settled); }
    assert forall k :: 0 <= k < |order| ==> Settles(defs, order[k]);
    if order != [] {
      assert Settles(defs, order[|order| - 1]);
    }
    forall j, k | 0 <= j < k < |order|
      ensures order[j] < order[k]
    {
      assert Sooner(defs, order[j], order[k]);
    }
  }

  lemma {:induction false} OutcomeParts(defs: seq<Definition>, order: seq<nat>, settled: nat)
    requires Outcome(defs, order, settled)
    ensures Permutation(order, |defs|) && settled <= |order|
  {
  }
}
