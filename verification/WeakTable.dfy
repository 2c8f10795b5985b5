/**
 The side table behind `__weak` variables (include/nupa/runtime.c:32-87): for every tracked
 object, the addresses of the weak variables that point to it.
 */
module WeakTable {

  type Ref = nat        // address of an object; 0 is NULL
  type Location = nat   // address of a weak variable

  const MAX_WEAK_ENTRIES: nat := 1024

  datatype WeakEntry = WeakEntry(target: Ref, slots: seq<Location>)

  // ---------------------------------------------------------------- swap-removal

  /** The last element fills the hole at `j`: order is not kept, contents are. */
  function SwapRemove<T>(s: seq<T>, j: nat): (r: seq<T>)
    requires j < |s|
  {
    s[j := s[|s| - 1]][..|s| - 1]
  }

  ghost predicate NoDuplicates<T>(s: seq<T>) {
    forall i, j :: 0 <= i < j < |s| ==> s[i] != s[j]
  }

  lemma {:induction false} SwapRemoveAt<T>(s: seq<T>, j: nat)
    requires j < |s|
    ensures |SwapRemove(s, j)| == |s| - 1
    ensures forall k :: 0 <= k < |s| - 1 ==> SwapRemove(s, j)[k] == s[if k == j then |s| - 1 else k]
  {
  }

  lemma {:induction false} SwapRemoveContents<T>(s: seq<T>, j: nat)
    requires j < |s| && NoDuplicates(s)
    ensures NoDuplicates(SwapRemove(s, j))
    ensures forall x :: x in SwapRemove(s, j) <==> x in s && x != s[j]
  {
    var r := SwapRemove(s, j);
    assert forall k :: 0 <= k < |r| ==> r[k] == if k == j then s[|s| - 1] else s[k];
    forall x | x in s && x != s[j]
      ensures x in r
    {
      var k :| 0 <= k < |s| && s[k] == x;
      assert r[if k == |s| - 1 then j else k] == x;
    }
  }

  // ---------------------------------------------------------------- the table as a value

  ghost predicate DistinctTargets(entries: seq<WeakEntry>) {
    && (forall i :: 0 <= i < |entries| ==> entries[i].target != 0)
    && (forall i, j :: 0 <= i < j < |entries| ==> entries[i].target != entries[j].target)
  }

  ghost predicate Lists(entry: WeakEntry, l: Location) {
    l in entry.slots
  }

  /** The table holds exactly the pairs of `targets`, each of them once. */
  ghost predicate Refines(entries: seq<WeakEntry>, targets: map<Location, Ref>) {
    && DistinctTargets(entries)
    && (forall i :: 0 <= i < |entries| ==> NoDuplicates(entries[i].slots))
    && (forall i, l :: 0 <= i < |entries| && Lists(entries[i], l) ==> l in targets && targets[l] == entries[i].target)
    && (forall l :: l in targets ==> exists i :: 0 <= i < |entries| && Lists(entries[i], l))
  }

  /** The objects that have an entry. */
  ghost function Tracked(entries: seq<WeakEntry>): (t: set<Ref>)
    ensures forall i :: 0 <= i < |entries| ==> entries[i].target in t
  {
    set i | 0 <= i < |entries| :: entries[i].target
  }

  lemma {:induction false} RefinesNewEntry(entries: seq<WeakEntry>, targets: map<Location, Ref>, target: Ref)
    requires Refines(entries, targets) && target != 0 && target !in Tracked(entries)
    ensures Refines(entries + [WeakEntry(target, [])], targets)
    ensures Tracked(entries + [WeakEntry(target, [])]) == Tracked(entries) + {target}
  {
    var after := entries + [WeakEntry(target, [])];
    assert forall i :: 0 <= i < |entries| ==> after[i] == entries[i];
    assert after[|entries|].target == target;
    forall l | l in targets
      ensures exists i :: 0 <= i < |after| && Lists(after[i], l)
    {
      var i :| 0 <= i < |entries| && Lists(entries[i], l);
      assert Lists(after[i], l);
    }
  }

  lemma {:induction false} TrackedSameTargets(before: seq<WeakEntry>, after: seq<WeakEntry>)
    requires |before| == |after| && forall i :: 0 <= i < |before| ==> before[i].target == after[i].target
    ensures Tracked(before) == Tracked(after)
    ensures DistinctTargets(before) ==> DistinctTargets(after)
  {
    forall t ensures t in Tracked(before) <==> t in Tracked(after) {
      if t in Tracked(before) {
        var i :| 0 <= i < |before| && before[i].target == t;
        assert after[i].target == t;
      }
      if t in Tracked(after) {
        var i :| 0 <= i < |after| && after[i].target == t;
        assert before[i].target == t;
      }
    }
  }

  lemma {:induction false} NotThereYet(slots: seq<Location>, loc: Location)
    requires NoDuplicates(slots) && loc !in slots
    ensures NoDuplicates(slots + [loc])
  {
  }

  lemma {:induction false} RefinesAddSlot(entries: seq<WeakEntry>, targets: map<Location, Ref>, i: nat, loc: Location)
    requires Refines(entries, targets) && i < |entries| && loc !in targets
    ensures var after := entries[i := WeakEntry(entries[i].target, entries[i].slots + [loc])];
            Refines(after, targets[loc := entries[i].target]) && Tracked(after) == Tracked(entries)
  {
    hide NoDuplicates, DistinctTargets, Tracked;
    var after := entries[i := WeakEntry(entries[i].target, entries[i].slots + [loc])];
    NotThereYet(entries[i].slots, loc);
    var targets' := targets[loc := entries[i].target];
    TrackedSameTargets(entries, after);
    assert !Lists(entries[i], loc);
    assert forall n, l :: 0 <= n < |after| ==> (Lists(after[n], l) <==> Lists(entries[n], l) || (n == i && l == loc));
    forall l | l in targets'
      ensures exists n :: 0 <= n < |after| && Lists(after[n], l)
    {
      if l == loc {
        assert Lists(after[i], l);
      } else {
        var n :| 0 <= n < |entries| && Lists(entries[n], l);
        assert Lists(after[n], l);
      }
    }
  }

  lemma {:induction false} ListedOnce(entries: seq<WeakEntry>, targets: map<Location, Ref>, i: nat, n: nat,
                                      loc: Location)
    requires Refines(entries, targets) && i < |entries| && n < |entries|
    requires Lists(entries[i], loc) && Lists(entries[n], loc)
    ensures n == i
  {
    assert targets[loc] == entries[n].target && targets[loc] == entries[i].target;
  }

  lemma {:induction false} RefinesDropSlot(entries: seq<WeakEntry>, targets: map<Location, Ref>, i: nat, j: nat)
    requires Refines(entries, targets) && i < |entries| && j < |entries[i].slots|
    ensures var after := entries[i := WeakEntry(entries[i].target, SwapRemove(entries[i].slots, j))];
            Refines(after, targets - {entries[i].slots[j]}) && Tracked(after) == Tracked(entries)
  {
    hide SwapRemove, NoDuplicates, DistinctTargets, Tracked;
    var loc := entries[i].slots[j];
    var after := entries[i := WeakEntry(entries[i].target, SwapRemove(entries[i].slots, j))];
    TrackedSameTargets(entries, after);
    SwapRemoveContents(entries[i].slots, j);
    assert Lists(entries[i], loc);
    forall n, l | 0 <= n < |after|
      ensures Lists(after[n], l) <==> Lists(entries[n], l) && l != loc
    {
      if Lists(entries[n], loc) {
        ListedOnce(entries, targets, i, n, loc);
      }
    }
    forall l | l in targets - {loc}
      ensures exists n :: 0 <= n < |after| && Lists(after[n], l)
    {
      var n :| 0 <= n < |entries| && Lists(entries[n], l);
      assert Lists(after[n], l);
    }
  }

  /** The pairs whose target is not `target`. */
  ghost function Without(targets: map<Location, Ref>, target: Ref): map<Location, Ref> {
    map l | l in targets && targets[l] != target :: targets[l]
  }

  /** Where entry `n` of the shorter table was before entry `i` was removed. */
  function Source(last: nat, i: nat, n: nat): nat {
    if n == i then last else n
  }

  lemma {:induction false} TrackedWithout(entries: seq<WeakEntry>, i: nat)
    requires DistinctTargets(entries) && i < |entries|
    ensures DistinctTargets(SwapRemove(entries, i))
    ensures Tracked(SwapRemove(entries, i)) == Tracked(entries) - {entries[i].target}
  {
    hide SwapRemove;
    var after, last := SwapRemove(entries, i), |entries| - 1;
    SwapRemoveAt(entries, i);
    forall t | t in Tracked(entries) && t != entries[i].target
      ensures t in Tracked(after)
    {
      var n :| 0 <= n < |entries| && entries[n].target == t;
      assert after[if n == last then i else n].target == t;
    }
    forall n | 0 <= n < |after|
      ensures after[n].target in Tracked(entries) && after[n].target != entries[i].target
    {
      assert after[n] == entries[Source(last, i, n)];
    }
  }

  lemma {:induction false} RefinesDropEntry(entries: seq<WeakEntry>, targets: map<Location, Ref>, i: nat)
    requires Refines(entries, targets) && i < |entries|
    ensures Refines(SwapRemove(entries, i), Without(targets, entries[i].target))
    ensures Tracked(SwapRemove(entries, i)) == Tracked(entries) - {entries[i].target}
  {
    hide NoDuplicates, SwapRemove, Tracked, DistinctTargets;
    var after, last := SwapRemove(entries, i), |entries| - 1;
    TrackedWithout(entries, i);
    SwapRemoveAt(entries, i);
    assert forall n :: 0 <= n < |after| ==> after[n] == entries[Source(last, i, n)];
    forall n, l | 0 <= n < |after| && Lists(after[n], l)
      ensures l in targets && targets[l] == after[n].target && after[n].target != entries[i].target
    {
      assert Lists(entries[Source(last, i, n)], l);
    }
    forall l | l in Without(targets, entries[i].target)
      ensures exists n :: 0 <= n < |after| && Lists(after[n], l)
    {
      var n :| 0 <= n < |entries| && Lists(entries[n], l);
      assert Lists(after[if n == last then i else n], l);
    }
  }

  /** A variable listed in entry `i` belongs to the target of entry `i`, and only those do. */
  lemma {:induction false} SlotsOfEntry(entries: seq<WeakEntry>, targets: map<Location, Ref>, i: nat)
    requires Refines(entries, targets) && i < |entries|
    ensures forall l :: l in entries[i].slots <==> l in targets && targets[l] == entries[i].target
  {
    forall l ensures l in entries[i].slots <==> l in targets && targets[l] == entries[i].target {
      if l in entries[i].slots {
        assert Lists(entries[i], l);
      }
      if l in targets && targets[l] == entries[i].target {
        var n :| 0 <= n < |entries| && Lists(entries[n], l);
      }
    }
  }

  lemma {:induction false} UntrackedTarget(entries: seq<WeakEntry>, targets: map<Location, Ref>, target: Ref)
    requires Refines(entries, targets) && forall i :: 0 <= i < |entries| ==> entries[i].target != target
    ensures targets == Without(targets, target)
    ensures forall l :: l in targets ==> targets[l] != target
  {
    forall l | l in targets
      ensures targets[l] != target
    {
      var i :| 0 <= i < |entries| && Lists(entries[i], l);
    }
  }

  /** The position of the entry of `target`, or -1. */
  function EntryIndex(entries: seq<WeakEntry>, target: Ref): (i: int)
    ensures -1 <= i < |entries|
    ensures i >= 0 ==> entries[i].target == target && forall k :: 0 <= k < i ==> entries[k].target != target
    ensures i < 0 ==> forall k :: 0 <= k < |entries| ==> entries[k].target != target
  {
    if entries == [] then -1
    else if entries[0].target == target then 0
    else var i := EntryIndex(entries[1..], target); if i < 0 then -1 else i + 1
  }

  /** One more slot in the entry of `target`, which is made if there is room for it. */
  function Registered(entries: seq<WeakEntry>, loc: Location, target: Ref): seq<WeakEntry> {
    var i := EntryIndex(entries, target);
    if target == 0 || loc == 0 then entries
    else if i >= 0 then entries[i := WeakEntry(target, entries[i].slots + [loc])]
    else if |entries| >= MAX_WEAK_ENTRIES then entries
    else entries + [WeakEntry(target, [loc])]
  }

  /** The table has room for `target`: it has an entry already, or there are fewer than the maximum. */
  ghost predicate Room(entries: seq<WeakEntry>, target: Ref) {
    target in Tracked(entries) || |entries| < MAX_WEAK_ENTRIES
  }

  lemma {:induction false} IndexTracked(entries: seq<WeakEntry>, target: Ref)
    ensures EntryIndex(entries, target) >= 0 <==> target in Tracked(entries)
  {
  }

  /** A location that is not listed yet: exactly its pair is added. */
  lemma {:induction false} RegisteredOnce(entries: seq<WeakEntry>, targets: map<Location, Ref>, loc: Location,
                                          target: Ref)
    requires Refines(entries, targets) && loc !in targets && loc != 0 && target != 0 && Room(entries, target)
    ensures Refines(Registered(entries, loc, target), targets[loc := target])
    ensures Tracked(Registered(entries, loc, target)) == Tracked(entries) + {target}
  {
    hide Refines;
    IndexTracked(entries, target);
    var i := EntryIndex(entries, target);
    if i >= 0 {
      RefinesAddSlot(entries, targets, i, loc);
    } else {
      RefinesNewEntry(entries, targets, target);
      var more := entries + [WeakEntry(target, [])];
      RefinesAddSlot(more, targets, |entries|, loc);
      assert more[|entries|].slots + [loc] == [loc];
      assert more[|entries| := WeakEntry(target, [loc])] == entries + [WeakEntry(target, [loc])];
    }
  }

  lemma {:induction false} TrackedRegistered(entries: seq<WeakEntry>, loc: Location, target: Ref)
    requires loc != 0 && target != 0 && Room(entries, target)
    ensures Tracked(Registered(entries, loc, target)) == Tracked(entries) + {target}
  {
    IndexTracked(entries, target);
    var after, i := Registered(entries, loc, target), EntryIndex(entries, target);
    if i >= 0 {
      TrackedSameTargets(entries, after);
    } else {
      assert forall k :: 0 <= k < |entries| ==> after[k] == entries[k];
      assert after[|entries|].target == target;
    }
  }

  /** A location that is listed already: the table stands for no map at all any more. */
  lemma {:induction false} RegisteredTwice(entries: seq<WeakEntry>, targets: map<Location, Ref>, loc: Location,
                                           target: Ref,
                                           targets': map<Location, Ref>)
    requires Refines(entries, targets) && loc in targets && loc != 0 && target != 0 && Room(entries, target)
    ensures !Refines(Registered(entries, loc, target), targets')
  {
    IndexTracked(entries, target);
    var after, i := Registered(entries, loc, target), EntryIndex(entries, target);
    var n :| 0 <= n < |entries| && Lists(entries[n], loc);
    var m := if i >= 0 then i else |entries|;
    assert after[m].slots[|after[m].slots| - 1] == loc;
    assert Lists(after[m], loc) && Lists(after[n], loc);
    if n == m {
      var k :| 0 <= k < |entries[n].slots| && entries[n].slots[k] == loc;
      assert after[n].slots[k] == loc;
    } else {
      assert after[m].target == target && after[n] == entries[n];
      TwoEntries(after, targets', n, m, loc);
    }
  }

  lemma {:induction false} TwoEntries(entries: seq<WeakEntry>, targets: map<Location, Ref>, i: nat, j: nat,
                                      loc: Location)
    requires i < |entries| && j < |entries| && entries[i].target != entries[j].target
    requires Lists(entries[i], loc) && Lists(entries[j], loc)
    ensures !Refines(entries, targets)
  {
    hide Refines;
    if Refines(entries, targets) {
      ListedTarget(entries, targets, i, loc);
      ListedTarget(entries, targets, j, loc);
    }
  }

  lemma {:induction false} ListedTarget(entries: seq<WeakEntry>, targets: map<Location, Ref>, i: nat, loc: Location)
    requires Refines(entries, targets) && i < |entries| && Lists(entries[i], loc)
    ensures loc in targets && targets[loc] == entries[i].target
  {
  }

  /** No weak variable dangles: each is NULL or tracked. */
  ghost predicate NoneDangling(memory: map<Location, Ref>, targets: map<Location, Ref>) {
    forall l :: l in memory && memory[l] != 0 ==> l in targets
  }

  /** Setting one variable leaves none dangling exactly if that variable is NULL or tracked. */
  lemma {:induction false} NoneDanglingAfterStore(memory: map<Location, Ref>, targets: map<Location, Ref>,
                                                  loc: Location,
                               target: Ref, targets': map<Location, Ref>)
    requires NoneDangling(memory, targets)
    requires targets' == targets - {loc} || targets' == targets[loc := target]
    ensures NoneDangling(memory[loc := target], targets') <==> target == 0 || loc in targets'
  {
    var after := memory[loc := target];
    if target != 0 && loc !in targets' {
      assert loc in after && after[loc] != 0;
    }
  }

  // ---------------------------------------------------------------- the table in memory

  class Table {
    var entries: seq<WeakEntry>         // weak_table[..weak_entries]
    var memory: map<Location, Ref>      // what the weak variables hold

    /** The partial map that the table stands for: every tracked variable and its target. */
    ghost var targets: map<Location, Ref>

    ghost predicate Valid()
      reads this
    {
      && |entries| <= MAX_WEAK_ENTRIES
      && Refines(entries, targets)
      && 0 !in memory
      && (forall l :: l in targets ==> l in memory && memory[l] == targets[l])
    }

    ghost predicate Complete()
      reads this
    {
      NoneDangling(memory, targets)
    }

    /** Room for `target`: it has an entry already, or the table is not full. */
    ghost predicate HasRoom(target: Ref)
      reads this
    {
      Room(entries, target)
    }

    constructor (variables: set<Location>)
      requires 0 !in variables
      ensures Valid() && Complete() && entries == [] && targets == map[]
      ensures memory == map l | l in variables :: 0
    {
      entries := [];
      memory := map l | l in variables :: 0;
      targets := map[];
    }

    method FindEntry(target: Ref) returns (index: int)
      ensures -1 <= index < |entries|
      ensures index >= 0 ==> entries[index].target == target
      ensures index == EntryIndex(entries, target)
    {
      for i := 0 to |entries|
        invariant forall k :: 0 <= k < i ==> entries[k].target != target
      {
        if entries[i].target == target {
          return i;
        }
      }
      return -1;
    }

    /**
     `nupa_weakRegister`. The table goes on standing for a map exactly if nothing was to be done or could be,
     or the location was not registered and holds the target. A full table drops the registration.
     */
    method Register(loc: Location, target: Ref)
      requires Valid()
      modifies `entries, `targets
      ensures entries == Registered(old(entries), loc, target)
      ensures targets == if loc != 0 && target != 0
          && old(HasRoom(target)) then old(targets)[loc := target] else old(targets)
      ensures Tracked(entries) == if loc != 0 && target != 0
          && old(HasRoom(target)) then old(Tracked(entries)) + {target}
                                  else old(Tracked(entries))
      ensures Valid() <==> loc == 0 || target == 0 || !old(HasRoom(target))
                           || (loc !in old(targets) && loc in memory && memory[loc] == target)
    {
      hide Refines, Tracked;
      if target == 0 || loc == 0 {
        return;
      }
      IndexTracked(entries, target);
      var index := FindEntry(target);
      if index < 0 {
        if |entries| >= MAX_WEAK_ENTRIES {
          return;
        }
        index := |entries|;
        entries := entries + [WeakEntry(target, [])];
        assert entries[index].slots + [loc] == [loc];
      }
      entries := entries[index := WeakEntry(entries[index].target, entries[index].slots + [loc])];
      targets := targets[loc := target];
      assert entries == Registered(old(entries), loc, target);
      if loc in old(targets) {
        RegisteredTwice(old(entries), old(targets), loc, target, targets);
        TrackedRegistered(old(entries), loc, target);
      } else {
        RegisteredOnce(old(entries), old(targets), loc, target);
      }
    }

    method Unregister(loc: Location)
      requires Valid()
      modifies `entries, `targets
      ensures Valid()
      ensures targets == old(targets) - {loc}
      ensures Tracked(entries) == old(Tracked(entries)) && |entries| == |old(entries)|
    {
      if loc == 0 {
        return;
      }
      for i := 0 to |entries|
        invariant entries == old(entries) && targets == old(targets)
        invariant forall k :: 0 <= k < i ==> !Lists(entries[k], loc)
      {
        for j := 0 to |entries[i].slots|
          invariant entries == old(entries) && targets == old(targets)
          invariant loc !in entries[i].slots[..j]
        {
          if entries[i].slots[j] == loc {
            RefinesDropSlot(entries, targets, i, j);
            entries := entries[i := WeakEntry(entries[i].target, SwapRemove(entries[i].slots, j))];
            targets := targets - {loc};
            return;
          }
        }
        assert entries[i].slots[..|entries[i].slots|] == entries[i].slots;
      }
    }

    method NullAll(slots: seq<Location>)
      requires forall l :: l in slots ==> l in memory
      modifies `memory
      ensures memory == map l | l in old(memory) :: if l in slots then 0 else old(memory)[l]
    {
      for j := 0 to |slots|
        invariant memory == map l | l in old(memory) :: if l in slots[..j] then 0 else old(memory)[l]
      {
        memory := memory[slots[j] := 0];
        assert slots[..j + 1] == slots[..j] + [slots[j]];
      }
      assert slots[..|slots|] == slots;
    }

    /** `nupa_weakClearAll`: every variable that points to the dying object becomes NULL. */
    method ClearAll(target: Ref)
      requires Valid()
      modifies this
      ensures Valid()
      ensures target != 0 ==> targets == Without(old(targets), target)
      ensures target != 0 ==> Tracked(entries) == old(Tracked(entries)) - {target}
      ensures memory == map l | l in old(memory) ::
                          if l in old(targets) && old(targets)[l] == target && target != 0 then 0 else old(memory)[l]
      ensures target == 0 ==> targets == old(targets) && entries == old(entries)
      ensures old(Complete()) ==> Complete()
    {
      hide Refines, DistinctTargets, NoDuplicates, SwapRemove;
      if target == 0 {
        return;
      }
      for i := 0 to |entries|
        invariant entries == old(entries) && targets == old(targets) && memory == old(memory)
        invariant forall k :: 0 <= k < i ==> entries[k].target != target
      {
        if entries[i].target == target {
          SlotsOfEntry(entries, targets, i);
          RefinesDropEntry(entries, targets, i);
          SwapRemoveAt(entries, i);
          NullAll(entries[i].slots);
          entries := SwapRemove(entries, i);
          targets := Without(targets, target);
          return;
        }
      }
      UntrackedTarget(entries, targets, target);
    }

    /**
     What the compiler emits for an assignment to a weak variable. The variable is tracked
     afterwards iff it is non-NULL and there was room, so a full table is the only way to a
     dangling weak variable.
     */
    method Store(loc: Location, target: Ref)
      requires Valid() && loc in memory
      modifies this
      ensures Valid()
      ensures memory == old(memory)[loc := target]
      ensures targets == if target != 0
          && old(HasRoom(target)) then old(targets)[loc := target] else old(targets) - {loc}
      ensures Tracked(entries) == if target != 0 && old(HasRoom(target)) then old(Tracked(entries)) + {target}
                                  else old(Tracked(entries))
      ensures old(Complete()) ==> (Complete() <==> target == 0 || old(HasRoom(target)))
    {
      hide Refines, Tracked;
      Unregister(loc);
      memory := memory[loc := target];
      Register(loc, target);
      if old(Complete()) {
        NoneDanglingAfterStore(old(memory), old(targets), loc, target, targets);
      }
    }

    /** A weak local is declared with an initialiser, and registered for it. */
    method Declare(loc: Location, target: Ref)
      requires Valid() && loc != 0 && loc !in memory
      modifies this
      ensures Valid()
      ensures memory == old(memory)[loc := target]
      ensures targets == if target != 0 && old(HasRoom(target)) then old(targets)[loc := target] else old(targets)
      ensures Tracked(entries) == if target != 0 && old(HasRoom(target)) then old(Tracked(entries)) + {target}
                                  else old(Tracked(entries))
      ensures old(Complete()) ==> (Complete() <==> target == 0 || old(HasRoom(target)))
    {
      hide Refines, Tracked;
      memory := memory[loc := target];
      Register(loc, target);
    }

    /** `nupa_weakAutoCleanup`: a weak local goes out of scope. */
    method AutoCleanup(loc: Location)
      requires Valid()
      modifies this
      ensures Valid()
      ensures targets == old(targets) - {loc} && memory == old(memory) - {loc}
      ensures Tracked(entries) == old(Tracked(entries))
      ensures old(Complete()) ==> Complete()
    {
      Unregister(loc);
      memory := memory - {loc};
    }
  }
}
