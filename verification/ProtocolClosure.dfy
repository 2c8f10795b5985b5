/**
 The selectors a protocol requires, collected over its parents (crates/binder/src/binder.rs:686-709):
 a depth-first walk that shares one list of visited protocols and must survive cycles.
 */
module ProtocolClosure {

  datatype Protocol = Protocol(required: seq<string>, optional: seq<string>, parents: seq<string>)

  /** The protocol symbols; a name may be missing. */
  type Symbols = map<string, Protocol>

  ghost function Parents(table: Symbols, name: string): seq<string> {
    if name in table then table[name].parents else []
  }

  // ---------------------------------------------------------------- reachability

  /** A walk along parent links. */
  ghost predicate Walk(table: Symbols, path: seq<string>) {
    path != [] && forall i :: 0 <= i < |path| - 1 ==> path[i + 1] in Parents(table, path[i])
  }

  ghost predicate Reaches(table: Symbols, from: string, to: string) {
    exists path :: Walk(table, path) && path[0] == from && path[|path| - 1] == to
  }

  lemma {:induction false} ReachesItself(table: Symbols, name: string)
    ensures Reaches(table, name, name)
  {
    var path := [name];
    assert Walk(table, path) && path[0] == name && path[|path| - 1] == name;
  }

  lemma {:induction false} ReachesThroughParent(table: Symbols, from: string, parent: string, to: string)
    requires parent in Parents(table, from) && Reaches(table, parent, to)
    ensures Reaches(table, from, to)
  {
    var path :| Walk(table, path) && path[0] == parent && path[|path| - 1] == to;
    var longer := [from] + path;
    forall i | 0 <= i < |longer| - 1
      ensures longer[i + 1] in Parents(table, longer[i])
    {
      if i > 0 {
        assert longer[i] == path[i - 1] && longer[i + 1] == path[i];
      }
    }
    assert Walk(table, longer) && longer[0] == from && longer[|longer| - 1] == to;
  }

  /** A set closed under parents holds all that its members reach. */
  lemma {:induction false} ClosedHoldsWalk(table: Symbols, names: set<string>, path: seq<string>, k: nat)
    requires Walk(table, path) && path[0] in names && k < |path|
    requires forall x, q :: x in names && q in Parents(table, x) ==> q in names
    ensures path[k] in names
    decreases k
  {
    if k > 0 {
      ClosedHoldsWalk(table, names, path, k - 1);
      assert path[k - 1 + 1] in Parents(table, path[k - 1]);
    }
  }

  // ---------------------------------------------------------------- selector lists

  ghost predicate Distinct(s: seq<string>) {
    forall i, j :: 0 <= i < j < |s| ==> s[i] != s[j]
  }

  ghost function Elements(s: seq<string>): set<string> {
    set x | x in s
  }

  ghost function RequiredBy(table: Symbols, names: set<string>): set<string> {
    set p, m | p in names && p in table && m in table[p].required :: m
  }

  ghost function OptionalIn(table: Symbols, names: set<string>): set<string> {
    set p, m | p in names && p in table && m in table[p].optional :: m
  }

  /** Push what is not contained yet. */
  method Include(own: seq<string>, more: seq<string>) returns (r: seq<string>)
    ensures own <= r && Elements(r) == Elements(own) + Elements(more)
    ensures Distinct(r) <==> Distinct(own)
  {
    r := own;
    for k := 0 to |more|
      invariant own <= r && Elements(r) == Elements(own) + Elements(more[..k])
      invariant Distinct(r) <==> Distinct(own)
    {
      assert Elements(more[..k + 1]) == Elements(more[..k]) + {more[k]};
      if more[k] !in r {
        ElementsPush(r, more[k]);
        r := r + [more[k]];
      }
    }
    assert more[..|more|] == more;
  }

  lemma {:induction false} ElementsPush(s: seq<string>, x: string)
    requires x !in s
    ensures Elements(s + [x]) == Elements(s) + {x}
    ensures Distinct(s + [x]) <==> Distinct(s)
  {
    var t := s + [x];
    assert forall i :: 0 <= i < |s| ==> t[i] == s[i] && t[i] != x;
  }

  // ---------------------------------------------------------------- the walk

  /** The protocols the list gained. */
  ghost function Gained(before: seq<string>, after: seq<string>): set<string> {
    Elements(after) - Elements(before)
  }

  /** Every gained protocol is reachable from `name`, and all its parents are on the list. */
  ghost predicate Explored(table: Symbols, name: string, before: seq<string>, after: seq<string>) {
    && before <= after
    && (forall x :: x in Gained(before, after) ==> Reaches(table, name, x))
    && forall x, q :: x in Gained(before, after) && q in Parents(table, x) ==> q in Elements(after)
  }

  /** What a call does to the shared list, and what it returns. */
  ghost predicate Collected(table: Symbols, name: string, before: seq<string>, after: seq<string>, req: seq<string>,
                            opt: seq<string>) {
    && Explored(table, name, before, after) && name in Elements(after)
    && (name in Elements(before) ==> after == before)
    && Elements(req) == RequiredBy(table, Gained(before, after))
    && Elements(opt) == OptionalIn(table, Gained(before, after))
    && (Distinct(req) <==> name in Elements(before) || name !in table || Distinct(table[name].required))
    && (Distinct(opt) <==> name in Elements(before) || name !in table || Distinct(table[name].optional))
  }

  /** The loop over the parents, after the first `k` of them. */
  ghost predicate Visiting(table: Symbols, name: string, before: seq<string>, now: seq<string>, k: nat,
                           req: seq<string>, opt: seq<string>)
    requires name in table && k <= |table[name].parents|
  {
    && Explored(table, name, before + [name], now)
    && (forall i :: 0 <= i < k ==> table[name].parents[i] in Elements(now))
    && Elements(req) == RequiredBy(table, {name} + Gained(before + [name], now))
    && Elements(opt) == OptionalIn(table, {name} + Gained(before + [name], now))
    && (Distinct(req) <==> Distinct(table[name].required))
    && (Distinct(opt) <==> Distinct(table[name].optional))
  }

  lemma {:induction false} StartVisiting(table: Symbols, name: string, before: seq<string>)
    requires name in table
    ensures Visiting(table, name, before, before + [name], 0, table[name].required, table[name].optional)
  {
    assert Gained(before + [name], before + [name]) == {};
  }

  lemma {:induction false} UnionOverNames(table: Symbols, a: set<string>, b: set<string>)
    ensures RequiredBy(table, a + b) == RequiredBy(table, a) + RequiredBy(table, b)
    ensures OptionalIn(table, a + b) == OptionalIn(table, a) + OptionalIn(table, b)
  {
  }

  lemma {:induction false} VisitNext(table: Symbols, name: string, before: seq<string>, now: seq<string>, k: nat,
                                     req: seq<string>, opt: seq<string>, next: seq<string>,
                                     pr: seq<string>, po: seq<string>, req': seq<string>, opt': seq<string>)
    requires name in table && k < |table[name].parents|
    requires Visiting(table, name, before, now, k, req, opt)
    requires Collected(table, table[name].parents[k], now, next, pr, po)
    requires Elements(req') == Elements(req) + Elements(pr) && Elements(opt') == Elements(opt) + Elements(po)
    requires Distinct(req') <==> Distinct(req)
    requires Distinct(opt') <==> Distinct(opt)
    ensures Visiting(table, name, before, next, k + 1, req', opt')
  {
    hide RequiredBy, OptionalIn, Distinct, Reaches;
    var parent, mid := table[name].parents[k], before + [name];
    var early, late := Gained(mid, now), Gained(now, next);
    assert Elements(now) <= Elements(next);
    assert Gained(mid, next) == early + late;
    assert {name} + Gained(mid, next) == ({name} + early) + late;
    UnionOverNames(table, {name} + early, late);
    forall x | x in late
      ensures Reaches(table, name, x)
    {
      ReachesThroughParent(table, name, parent, x);
    }
  }

  lemma {:induction false} AllVisited(table: Symbols, name: string, before: seq<string>, after: seq<string>,
                                      req: seq<string>, opt: seq<string>)
    requires name in table && name !in Elements(before)
    requires Visiting(table, name, before, after, |table[name].parents|, req, opt)
    ensures Collected(table, name, before, after, req, opt)
  {
    hide RequiredBy, OptionalIn, Distinct, Reaches;
    var mid := before + [name];
    assert Gained(before, after) == {name} + Gained(mid, after) by {
      assert name in mid;
      assert Elements(mid) == Elements(before) + {name};
    }
    ReachesItself(table, name);
  }

  lemma {:induction false} UnknownCollected(table: Symbols, name: string, before: seq<string>)
    requires name in Elements(before) || name !in table
    ensures Collected(table, name, before, if name in Elements(before) then before else before + [name], [], [])
  {
    var after := if name in Elements(before) then before else before + [name];
    ReachesItself(table, name);
    assert Gained(before, after) <= {name};
  }

  /** The visited list that all calls of one walk share. */
  class Seen {
    var names: seq<string>

    constructor ()
      ensures names == []
    {
      names := [];
    }
  }

  class Binder {
    var protocols: Symbols

    constructor (table: Symbols)
      ensures protocols == table
    {
      protocols := table;
    }

    /** Ends on every table: each deeper call has one known protocol less to visit. */
    method ProtocolSelectors(name: string, seen: Seen) returns (req: seq<string>, opt: seq<string>)
      modifies seen
      ensures Collected(protocols, name, old(seen.names), seen.names, req, opt)
      decreases |protocols.Keys - Elements(seen.names)|
    {
      hide Visiting, Collected;
      UnknownOrNew(protocols, name, seen.names);
      if name in seen.names {
        return [], [];
      }
      ghost var before := seen.names;
      seen.names := seen.names + [name];
      if name !in protocols {
        return [], [];
      }
      var p := protocols[name];
      req, opt := p.required, p.optional;
      StartVisiting(protocols, name, before);
      for k := 0 to |p.parents|
        invariant protocols == old(protocols)
        invariant before + [name] <= seen.names && Visiting(protocols, name, before, seen.names, k, req, opt)
      {
        ghost var now, req0, opt0 := seen.names, req, opt;
        FewerUnseen(protocols, name, before, now);
        var pr, po := ProtocolSelectors(p.parents[k], seen);
        CollectedGrows(protocols, p.parents[k], now, seen.names, pr, po);
        req := Include(req, pr);
        opt := Include(opt, po);
        VisitNext(protocols, name, before, now, k, req0, opt0, seen.names, pr, po, req, opt);
      }
      AllVisited(protocols, name, before, seen.names, req, opt);
    }

    /**
     Starting with nothing seen: exactly the selectors of all protocols reachable through parents,
     known or not, cyclic or not, and without duplicates iff the protocol's own lists have none.
     */
    method Requirements(name: string) returns (req: seq<string>, opt: seq<string>)
      ensures forall m ::
                m in req <==> exists p :: Reaches(protocols, name, p) && p in protocols && m in protocols[p].required
      ensures forall m ::
                m in opt <==> exists p :: Reaches(protocols, name, p) && p in protocols && m in protocols[p].optional
      ensures name in protocols ==> (Distinct(req) <==> Distinct(protocols[name].required))
      ensures name in protocols ==> (Distinct(opt) <==> Distinct(protocols[name].optional))
      ensures name !in protocols ==> req == [] == opt
    {
      var seen := new Seen();
      req, opt := ProtocolSelectors(name, seen);
      ReachableUnion(protocols, name, seen.names, req, opt);
    }
  }

  lemma {:induction false} UnknownOrNew(table: Symbols, name: string, before: seq<string>)
    ensures name in before ==> Collected(table, name, before, before, [], [])
    ensures name !in before && name !in table ==> Collected(table, name, before, before + [name], [], [])
  {
    if name in before || name !in table {
      UnknownCollected(table, name, before);
    }
  }

  lemma {:induction false} FewerUnseen(table: Symbols, name: string, before: seq<string>, now: seq<string>)
    requires name in table && name !in before && before + [name] <= now
    ensures |table.Keys - Elements(now)| < |table.Keys - Elements(before)|
  {
    var small, big := table.Keys - Elements(now), table.Keys - Elements(before);
    assert name in now && forall x :: x in before ==> x in now by {
      assert now[|before|] == name;
      assert forall i :: 0 <= i < |before| ==> now[i] == before[i];
    }
    assert big == small + (big - small) && name in big - small;
  }

  lemma {:induction false} CollectedGrows(table: Symbols, name: string, before: seq<string>, after: seq<string>,
                                          req: seq<string>, opt: seq<string>)
    requires Collected(table, name, before, after, req, opt)
    ensures before <= after
  {
  }

  lemma {:induction false} ReachableUnion(table: Symbols, name: string, after: seq<string>, req: seq<string>,
                                          opt: seq<string>)
    requires Collected(table, name, [], after, req, opt)
    ensures forall p :: p in after <==> Reaches(table, name, p)
    ensures forall m :: m in req <==> exists p :: Reaches(table, name, p) && p in table && m in table[p].required
    ensures forall m :: m in opt <==> exists p :: Reaches(table, name, p) && p in table && m in table[p].optional
    ensures name in table ==> (Distinct(req) <==> Distinct(table[name].required))
    ensures name in table ==> (Distinct(opt) <==> Distinct(table[name].optional))
    ensures name !in table ==> req == [] == opt
  {
    var names := Gained([], after);
    assert names == Elements(after);
    forall p | Reaches(table, name, p)
      ensures p in names
    {
      var path :| Walk(table, path) && path[0] == name && path[|path| - 1] == p;
      ClosedHoldsWalk(table, names, path, |path| - 1);
    }
    if name !in table {
      OnlyItself(table, name, names);
    }
    assert req != [] ==> req[0] in Elements(req);
    assert opt != [] ==> opt[0] in Elements(opt);
    assert forall m :: m in req <==> m in Elements(req);
    assert forall m :: m in opt <==> m in Elements(opt);
  }

  lemma {:induction false} OnlyItself(table: Symbols, name: string, names: set<string>)
    requires name !in table && forall x :: x in names ==> Reaches(table, name, x)
    ensures RequiredBy(table, names) == {} == OptionalIn(table, names)
  {
    forall x | x in names
      ensures x == name
    {
      var path :| Walk(table, path) && path[0] == name && path[|path| - 1] == x;
      assert |path| > 1 ==> path[0 + 1] in Parents(table, path[0]);
    }
  }
}
