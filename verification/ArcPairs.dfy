/**
 `arc_optimize_pairs` (crates/arc/src/arc.rs:402-441): adjacent retain/release pairs of one variable
 are marked in one pass and then squeezed out of the statement vector in place.
 */
module ArcPairs {

  datatype Item = Retain(name: string) | Release(name: string) | Other(id: nat)

  predicate IsPair(a: Item, b: Item) {
    (a.Retain? && b.Release? && a.name == b.name) || (a.Release? && b.Retain? && a.name == b.name)
  }

  /** Which statements the pass removes: greedily, from the left. */
  function Marks(s: seq<Item>): (m: seq<bool>)
    ensures |m| == |s|
  {
    if |s| < 2 then seq(|s|, _ => false)
    else if IsPair(s[0], s[1]) then [true, true] + Marks(s[2..])
    else [false] + Marks(s[1..])
  }

  function Keep(s: seq<Item>, marks: seq<bool>): seq<Item>
    requires |marks| == |s|
  {
    if s == [] then []
    else (if marks[0] then [] else [s[0]]) + Keep(s[1..], marks[1..])
  }

  function Optimized(s: seq<Item>): seq<Item> {
    Keep(s, Marks(s))
  }

  lemma {:induction false} KeepNext(s: seq<Item>, marks: seq<bool>, i: nat)
    requires |marks| == |s| && i < |s|
    ensures Keep(s[..i + 1], marks[..i + 1])
         == Keep(s[..i], marks[..i]) + if marks[i] then [] else [s[i]]
    decreases i
  {
    if i > 0 {
      KeepNext(s[1..], marks[1..], i - 1);
      assert s[..i + 1][1..] == s[1..][..i] && marks[..i + 1][1..] == marks[1..][..i];
      assert s[..i][1..] == s[1..][..i - 1] && marks[..i][1..] == marks[1..][..i - 1];
    } else {
      assert s[..1] == [s[0]] && marks[..1] == [marks[0]];
    }
  }

  method OptimizePairs(a: array<Item>) returns (count: nat)
    modifies a
    ensures count <= a.Length && a[..count] == Optimized(old(a[..]))
  {
    hide Keep, Marks;
    var remove := MarkPairs(a);
    ghost var s, marks := a[..], Marks(a[..]);
    if remove == [] {
      NothingMarked(s, marks);
      return a.Length;
    }
    count := 0;
    assert Keep(s[..0], marks[..0]) == [] by { NothingMarked(s[..0], marks[..0]); }
    for i := 0 to a.Length
      invariant count <= i
      invariant a[..count] == Keep(s[..i], marks[..i])
      invariant forall k :: i <= k < a.Length ==> a[k] == s[k]
    {
      KeepNext(s, marks, i);
      if i !in remove {
        ghost var before := a[..count];
        a[count] := a[i];
        count := count + 1;
        assert a[..count] == before + [s[i]];
      }
    }
    assert s[..a.Length] == s && marks[..a.Length] == marks;
  }

  method MarkPairs(a: array<Item>) returns (remove: seq<nat>)
    ensures forall k :: 0 <= k < a.Length ==> (k in remove <==> Marks(a[..])[k])
    ensures forall k :: k in remove ==> k < a.Length
  {
    remove := [];
    ghost var s, marks := a[..], Marks(a[..]);
    var i := 0;
    while i + 1 < a.Length
      invariant i <= a.Length
      invariant forall k :: k in remove ==> k <= i && k < a.Length
      invariant forall k :: 0 <= k < i ==> (k in remove <==> marks[k])
      invariant i < a.Length && i in remove ==> marks[i] && marks[i + 1..] == Marks(s[i + 1..])
      invariant i !in remove ==> marks[i..] == Marks(s[i..])
    {
      if i !in remove {
        assert s[i..][0] == a[i] && s[i..][1] == a[i + 1] && s[i..][1..] == s[i + 1..] && s[i..][2..] == s[i + 2..];
        assert marks[i] == marks[i..][0] && marks[i + 1] == marks[i..][1];
        assert marks[i..][1..] == marks[i + 1..] && marks[i..][2..] == marks[i + 2..];
        if IsPair(a[i], a[i + 1]) {
          remove := remove + [i, i + 1];
        }
      }
      i := i + 1;
    }
    if i < a.Length && i !in remove {
      assert marks[i] == marks[i..][0];
    }
  }

  lemma {:induction false} NothingMarked(s: seq<Item>, marks: seq<bool>)
    requires |marks| == |s| && forall k :: 0 <= k < |s| ==> !marks[k]
    ensures Keep(s, marks) == s
    decreases |s|
  {
    if s != [] {
      NothingMarked(s[1..], marks[1..]);
    }
  }

  // ---------------------------------------------------------------- what the pass preserves

  function Change(item: Item, x: string): int {
    if item == Retain(x) then 1 else if item == Release(x) then -1 else 0
  }

  /** Retains minus releases of `x`. */
  function Net(s: seq<Item>, x: string): int {
    if s == [] then 0 else Change(s[0], x) + Net(s[1..], x)
  }

  /** The lowest running count of `x` over all prefixes. */
  function Lowest(s: seq<Item>, x: string): (low: int)
    ensures low <= 0 && low <= Net(s, x)
  {
    if s == [] then 0
    else
      var low := Change(s[0], x) + Lowest(s[1..], x);
      if low < 0 then low else 0
  }

  function Others(s: seq<Item>): seq<Item> {
    if s == [] then [] else (if s[0].Other? then [s[0]] else []) + Others(s[1..])
  }

  lemma {:induction false} OptimizedStep(s: seq<Item>)
    ensures |s| < 2 ==> Optimized(s) == s
    ensures |s| >= 2 && IsPair(s[0], s[1]) ==> Optimized(s) == Optimized(s[2..])
    ensures |s| >= 2 && !IsPair(s[0], s[1]) ==> Optimized(s) == [s[0]] + Optimized(s[1..])
  {
    var marks := Marks(s);
    if |s| < 2 {
      NothingMarked(s, marks);
    } else if IsPair(s[0], s[1]) {
      assert s[1..][1..] == s[2..] && marks[1..][1..] == Marks(s[2..]);
      assert marks[0] && marks[1..][0];
      assert Keep(s[1..], marks[1..]) == Keep(s[2..], Marks(s[2..]));
    } else {
      assert marks[1..] == Marks(s[1..]);
    }
  }

  /**
   Only disjoint adjacent pairs disappear: statements that are neither keep their order, the net count
   of every variable is the same, and it never runs lower than before.
   */
  lemma {:induction false} OptimizedKeeps(s: seq<Item>, x: string)
    ensures Others(Optimized(s)) == Others(s)
    ensures Net(Optimized(s), x) == Net(s, x)
    ensures Lowest(Optimized(s), x) >= Lowest(s, x)
    decreases |s|
  {
    OptimizedStep(s);
    if |s| < 2 {
    } else if IsPair(s[0], s[1]) {
      OptimizedKeeps(s[2..], x);
      assert s[1..][1..] == s[2..];
      assert Others(s) == Others(s[1..]) == Others(s[2..]);
    } else {
      OptimizedKeeps(s[1..], x);
      assert ([s[0]] + Optimized(s[1..]))[1..] == Optimized(s[1..]);
    }
  }

  /** The pass removes an even number of statements: one retain for every release. */
  lemma {:induction false} OptimizedLength(s: seq<Item>)
    ensures |Optimized(s)| <= |s| && (|s| - |Optimized(s)|) % 2 == 0
    decreases |s|
  {
    OptimizedStep(s);
    if |s| >= 2 {
      OptimizedLength(if IsPair(s[0], s[1]) then s[2..] else s[1..]);
    }
  }

  /** One pass is not enough for nested pairs: what is left of them is a pair again. */
  lemma {:induction false} NestedPairStays(x: string)
    ensures Optimized([Retain(x), Retain(x), Release(x), Release(x)]) == [Retain(x), Release(x)]
  {
    var s := [Retain(x), Retain(x), Release(x), Release(x)];
    OptimizedStep(s);
    OptimizedStep(s[1..]);
    OptimizedStep(s[1..][2..]);
    assert s[1..][2..] == [Release(x)];
  }

  /** No retain and release of one variable that stand side by side are both left, whichever comes first. */
  lemma {:induction false} NoPairIsLeft(s: seq<Item>, i: nat, x: string)
    requires i + 1 < |s| && Change(s[i], x) != 0 && Change(s[i], x) + Change(s[i + 1], x) == 0
    ensures Marks(s)[i] || Marks(s)[i + 1]
    decreases |s|
  {
    if IsPair(s[0], s[1]) {
      if i >= 2 {
        NoPairIsLeft(s[2..], i - 2, x);
      }
    } else if i >= 1 {
      NoPairIsLeft(s[1..], i - 1, x);
    }
  }
}
