/**
 Hand-written releases under static ARC (crates/arc/src/arc.rs:307-318, 353-357): the analysis forgets a variable
 that the programmer releases, so the releases it inserts do no harm beside his, unless a loop comes round to one of
 them with the variable already released.
 */
module ArcByHand {
  import opened Wrappers
  import opened Arc
  import opened ArcForgets

  // ---------------------------------------------------------------- bodies with hand-written releases

  /** The variables that can be named at a point, those declared outside its scope, and those outside its loop. */
  datatype View = View(names: set<string>, outside: set<string>, aroundLoop: set<string>)

  function Within(v: View, insideLoop: bool): View {
    View(v.names, v.names, if insideLoop then v.names else v.aroundLoop)
  }

  function Shown(s: Stmt, v: View): View {
    match s
    case Decl(x, _) => v.(names := v.names + {x})
    case For(Some(init), _) => v.(names := v.names + {init.0})
    case _ => v
  }

  function ShownAll(ss: seq<Stmt>, v: View): View {
    if ss == [] then v else ShownAll(ss[1..], Shown(ss[0], v))
  }

  /**
   As `Plausible`, with hand-written releases of variables that can be named. No @noarc; a variable that ever owns
   an object is never overwritten with one it does not own.
   */
  predicate Tended(ss: seq<Stmt>, v: View, owners: set<string>, inLoop: bool)
    decreases ss
  {
    ss != [] ==> TendedStmt(ss[0], v, owners, inLoop) && Tended(ss[1..], Shown(ss[0], v), owners, inLoop)
  }

  predicate TendedStmt(s: Stmt, v: View, owners: set<string>, inLoop: bool)
    decreases s
  {
    match s
    case Plain => true
    case Decl(x, owned) => owned ==> x in owners
    case Assign(x, owned) => owned <==> x in owners
    case Release(x) => x in v.names
    case NoArc(_) => false
    case Block(b) => Tended(b, Within(v, false), owners, inLoop)
    case If(t, NoElse) => Tended(t, Within(v, false), owners, inLoop)
    case If(t, Else(e)) => Tended(t, Within(v, false), owners, inLoop) && Tended(e, Within(v, false), owners, inLoop)
    case While(b) => Tended(b, Within(v, true), owners, true)
    case For(init, b) =>
      (init.Some? && init.value.1 ==> init.value.0 in owners) && Tended(b, Within(Shown(s, v), true), owners, true)
    case Break => inLoop
    case Continue => inLoop
    case Return(_, _) => true
    case Throw(_, _) => true
  }

  // ---------------------------------------------------------------- released before any return

  /** A `return` or `@throw` stands in the list, at any depth. */
  predicate Exits(ss: seq<Stmt>)
    decreases ss
  {
    ss != [] && (ExitsIn(ss[0]) || Exits(ss[1..]))
  }

  predicate ExitsIn(s: Stmt)
    decreases s
  {
    match s
    case Block(b) => Exits(b)
    case If(t, NoElse) => Exits(t)
    case If(t, Else(e)) => Exits(t) || Exits(e)
    case While(b) => Exits(b)
    case For(_, b) => Exits(b)
    case Return(_, _) => true
    case Throw(_, _) => true
    case _ => false
  }

  /** The variables that are released by hand with no `return` or `@throw` above. */
  function ReleasedFirst(ss: seq<Stmt>): set<string>
    decreases ss
  {
    if ss == [] then {}
    else ReleasedFirstIn(ss[0]) + if ExitsIn(ss[0]) then {} else ReleasedFirst(ss[1..])
  }

  function ReleasedFirstIn(s: Stmt): set<string>
    decreases s
  {
    match s
    case Release(x) => {x}
    case Block(b) => ReleasedFirst(b)
    case If(t, NoElse) => ReleasedFirst(t)
    case If(t, Else(e)) => ReleasedFirst(t) + if Exits(t) then {} else ReleasedFirst(e)
    case While(b) => ReleasedFirst(b)
    case For(_, b) => ReleasedFirst(b)
    case _ => {}
  }

  // ---------------------------------------------------------------- runs whose loops find what they left

  /**
   In this run of the source, whenever an iteration of a loop begins, each variable declared outside the loop that
   held an object when the loop was entered holds one, unless the loop body releases it before any `return` or
   `@throw`.
   */
  ghost predicate Steady(ss: seq<Stmt>, held: set<string>, choices: seq<bool>)
    decreases |choices|, ss, 0
  {
    ss != [] ==>
      && SteadyStmt(ss[0], held, choices)
      && var r := Exec(ss[0], held, choices); r.out.Normal? ==> Steady(ss[1..], r.held, r.choices)
  }

  ghost predicate SteadyStmt(s: Stmt, held: set<string>, choices: seq<bool>)
    decreases |choices|, s, 0
  {
    match s
    case Block(b) => Steady(b, held, choices)
    case If(t, e) =>
      choices != [] ==>
        if choices[0] then Steady(t, held, choices[1..])
        else e.Else? ==> Steady(e.body, held, choices[1..])
    case While(b) => SteadyLoop(b, held, held, choices)
    case For(None, b) => SteadyLoop(b, held, held, choices)
    case For(Some(init), b) =>
      var now := ExecDecl(init.0, init.1, held, choices).held; SteadyLoop(b, now, now, choices)
    case _ => true
  }

  ghost predicate SteadyLoop(b: seq<Stmt>, entry: set<string>, held: set<string>, choices: seq<bool>)
    decreases |choices|, b, 1
  {
    && entry - NameSet(Names(b)) - ReleasedFirst(b) <= held
    && (choices != [] && choices[0] ==>
          && Steady(b, held, choices[1..])
          && var r := ExecList(b, held, choices[1..]);
             r.out.Normal? || r.out.Continued? ==> SteadyLoop(b, entry, r.held, r.choices))
  }

  // ---------------------------------------------------------------- the stack

  /** Scope by scope no more is listed. */
  ghost predicate Lesser(after: seq<Scope>, before: seq<Scope>) {
    |after| == |before| && forall i :: 0 <= i < |before| ==> LesserScope(after[i], before[i])
  }

  ghost predicate LesserScope(after: Scope, before: Scope) {
    && after.declared == before.declared && after.insideLoop == before.insideLoop
    && NameSet(after.vars) <= NameSet(before.vars) && (NoDuplicates(before.vars) ==> NoDuplicates(after.vars))
  }

  lemma {:induction false} LesserSame(stack: seq<Scope>)
    ensures Lesser(stack, stack)
  {
  }

  lemma {:induction false} LesserThen(c: seq<Scope>, b: seq<Scope>, a: seq<Scope>)
    requires Lesser(c, b) && Lesser(b, a)
    ensures Lesser(c, a)
  {
    forall i | 0 <= i < |a|
      ensures LesserScope(c[i], a[i])
    {
      assert LesserScope(c[i], b[i]) && LesserScope(b[i], a[i]);
    }
  }

  lemma {:induction false} LesserSlice(after: seq<Scope>, before: seq<Scope>, from: nat, to: nat)
    requires Lesser(after, before) && from <= to <= |before|
    ensures Lesser(after[from..to], before[from..to])
  {
    forall i | 0 <= i < to - from
      ensures LesserScope(after[from..to][i], before[from..to][i])
    {
      assert LesserScope(after[from + i], before[from + i]);
    }
  }

  lemma {:induction false} LesserVars(after: seq<Scope>, before: seq<Scope>)
    requires Lesser(after, before)
    ensures AllVars(after) <= AllVars(before) && LoopFrom(after) == LoopFrom(before)
    decreases |after|
  {
    if after != [] {
      assert LesserScope(after[|after| - 1], before[|before| - 1]);
      LesserSlice(after, before, 0, |after| - 1);
      LesserVars(after[..|after| - 1], before[..|before| - 1]);
    }
  }

  lemma {:induction false} WithoutFacts(vars: seq<string>, x: string)
    ensures NameSet(Without(vars, x)) == NameSet(vars) - {x}
    ensures NoDuplicates(vars) ==> NoDuplicates(Without(vars, x))
    decreases vars
  {
    if vars != [] {
      WithoutFacts(vars[1..], x);
      var rest := Without(vars[1..], x);
      assert NameSet(vars) == {vars[0]} + NameSet(vars[1..]);
      assert NameSet([vars[0]] + rest) == {vars[0]} + NameSet(rest);
      if NoDuplicates(vars) {
        assert NoDuplicates(vars[1..]);
        assert vars[0] !in NameSet(vars[1..]);
        assert vars[0] !in rest by { assert vars[0] !in NameSet(rest); }
        assert NoDuplicates([vars[0]] + rest);
      }
    }
  }

  lemma {:induction false} DropFacts(stack: seq<Scope>, x: string)
    ensures Lesser(DropVar(stack, x), stack) && AllVars(DropVar(stack, x)) == AllVars(stack) - {x}
    decreases |stack|
  {
    forall i | 0 <= i < |stack|
      ensures LesserScope(DropVar(stack, x)[i], stack[i])
    {
      WithoutFacts(stack[i].vars, x);
    }
    if stack != [] {
      var init := stack[..|stack| - 1];
      DropFacts(init, x);
      WithoutFacts(stack[|stack| - 1].vars, x);
      assert DropVar(stack, x)[..|stack| - 1] == DropVar(init, x);
    }
  }

  lemma {:induction false} ClearLesser(stack: seq<Scope>, from: nat)
    requires from <= |stack|
    ensures Lesser(ClearFrom(stack, from), stack)
  {
    assert NameSet([]) == {};
  }

  /** What the stack lists can be named, and scope by scope is of that scope. */
  ghost predicate Around(stack: seq<Scope>, v: View, owners: set<string>) {
    && AllVars(stack) <= v.names && AllVars(stack) <= owners && v.aroundLoop <= v.names
    && AllVars(stack[LoopFrom(stack)..]) !! v.aroundLoop && AllVars(stack[..LoopFrom(stack)]) <= v.aroundLoop
  }

  ghost predicate Inside(stack: seq<Scope>, v: View, owners: set<string>) {
    && stack != [] && Around(stack, v, owners) && v.aroundLoop <= v.outside <= v.names
    && var top := |stack| - 1;
       && AllVars(stack[..top]) <= v.outside && NoDuplicates(stack[top].vars)
       && ScopeNames(stack[top]) <= v.names - v.outside
  }

  lemma {:induction false} EnterInside(stack: seq<Scope>, v: View, insideLoop: bool, owners: set<string>)
    requires Around(stack, v, owners)
    ensures Inside(stack + [Scope([], [], insideLoop)], Within(v, insideLoop), owners)
  {
    var last := Scope([], [], insideLoop);
    var inner := stack + [last];
    assert NameSet([]) == {};
    AllVarsPush(stack, last);
    assert inner[..|stack|] == stack;
    var from := if insideLoop then |stack| else LoopFrom(stack);
    assert LoopFrom(inner) == from;
    AllVarsPush(stack[from..], last);
    assert inner[from..] == stack[from..] + [last] && inner[..from] == stack[..from];
    assert stack[|stack|..] == [] && stack[..|stack|] == stack;
  }

  lemma {:induction false} LesserAround(after: seq<Scope>, before: seq<Scope>, v: View, owners: set<string>)
    requires Lesser(after, before) && Around(before, v, owners)
    ensures Around(after, v, owners)
  {
    hide AllVars, LoopFrom;
    var from := LoopFrom(before);
    LesserVars(after, before);
    LesserSlice(after, before, from, |before|);
    LesserVars(after[from..], before[from..]);
    assert after[from..] == after[from..|before|] && before[from..] == before[from..|before|];
    LesserSlice(after, before, 0, from);
    LesserVars(after[..from], before[..from]);
  }

  lemma {:induction false} LesserInside(after: seq<Scope>, before: seq<Scope>, v: View, owners: set<string>)
    requires Lesser(after, before) && Inside(before, v, owners)
    ensures Inside(after, v, owners)
  {
    hide AllVars, LoopFrom;
    var top := |before| - 1;
    LesserAround(after, before, v, owners);
    assert LesserScope(after[top], before[top]);
    LesserSlice(after, before, 0, top);
    LesserVars(after[..top], before[..top]);
  }

  /** A new name, listed or not, in the innermost scope. */
  lemma {:induction false} AddInside(stack: seq<Scope>, v: View, x: string, listed: bool, declared: bool,
                                     owners: set<string>)
    requires Inside(stack, v, owners) && (listed ==> x in owners && x !in stack[|stack| - 1].vars)
    requires x in v.names && x !in v.outside
    ensures var top := |stack| - 1;
            var last := stack[top].(vars := if listed then stack[top].vars + [x] else stack[top].vars,
                                    declared := if declared then stack[top].declared + [x] else stack[top].declared);
            && Inside(stack[top := last], v, owners)
            && AllVars(stack[top := last]) == AllVars(stack) + if listed then {x} else {}
  {
    hide AllVars, LoopFrom, NameSet, NoDuplicates;
    var top, from := |stack| - 1, LoopFrom(stack);
    var last := stack[top].(vars := if listed then stack[top].vars + [x] else stack[top].vars,
                            declared := if declared then stack[top].declared + [x] else stack[top].declared);
    var after := stack[top := last];
    NameSetPush(stack[top].vars, x);
    NameSetPush(stack[top].declared, x);
    AllVarsPush(stack[..top], stack[top]);
    AllVarsPush(stack[..top], last);
    assert stack == stack[..top] + [stack[top]] && after == stack[..top] + [last];
    assert SameLoops(stack, after);
    SameLoopFrom(stack, after);
    AllVarsPush(stack[from..top], stack[top]);
    AllVarsPush(stack[from..top], last);
    assert after[..from] == stack[..from];
    assert stack[from..] == stack[from..top] + [stack[top]] && after[from..] == stack[from..top] + [last];
  }

  // ---------------------------------------------------------------- what the proofs go along

  ghost predicate Fair(ss: seq<Stmt>, stack: seq<Scope>, v: View, owners: set<string>, inLoop: bool) {
    && Tended(ss, v, owners, inLoop) && NoDuplicates(Names(ss)) && NameSet(Names(ss)) !! v.names
    && Inside(stack, v, owners)
  }

  ghost predicate FairStmt(s: Stmt, stack: seq<Scope>, v: View, owners: set<string>, inLoop: bool) {
    && TendedStmt(s, v, owners, inLoop) && NoDuplicates(NamesOf(s)) && NameSet(NamesOf(s)) !! v.names
    && Inside(stack, v, owners)
  }

  ghost predicate FairScope(ss: seq<Stmt>, stack: seq<Scope>, v: View, insideLoop: bool, owners: set<string>,
                            inLoop: bool) {
    && Tended(ss, Within(v, insideLoop), owners, inLoop) && NoDuplicates(Names(ss)) && NameSet(Names(ss)) !! v.names
    && Around(stack, v, owners)
  }

  lemma {:induction false} FairInside(ss: seq<Stmt>, stack: seq<Scope>, v: View, insideLoop: bool,
                                      owners: set<string>, inLoop: bool)
    requires FairScope(ss, stack, v, insideLoop, owners, inLoop)
    ensures Fair(ss, stack + [Scope([], [], insideLoop)], Within(v, insideLoop), owners, inLoop)
  {
    hide Tended, NoDuplicates, Names, Inside, Around;
    EnterInside(stack, v, insideLoop, owners);
  }

  lemma {:induction false} FairBody(s: Stmt, b: seq<Stmt>, stack: seq<Scope>, v: View, owners: set<string>,
                                    inLoop: bool)
    requires FairStmt(s, stack, v, owners, inLoop) && HasBody(s, b)
    ensures var loop := s.While? || s.For?; FairScope(b, stack, v, loop, owners, inLoop || loop)
  {
    hide NoDuplicates, Names, Around, Tended;
  }

  lemma {:induction false} FairBranches(t: seq<Stmt>, e: seq<Stmt>, stack: seq<Scope>, v: View, owners: set<string>,
                                        inLoop: bool)
    requires FairStmt(If(t, Else(e)), stack, v, owners, inLoop)
    ensures FairScope(t, stack, v, false, owners, inLoop)
    ensures Lesser(AnalyzeScope(t, stack, false).1, stack)
    ensures FairScope(e, AnalyzeScope(t, stack, false).1, v, false, owners, inLoop)
    decreases If(t, Else(e)), 0
  {
    hide NoDuplicates, Names, Around, Tended, AnalyzeScope, Lesser;
    NamesApart(Names(t), Names(e));
    ScopeAfter(t, stack, v, false, owners, inLoop);
    LesserAround(AnalyzeScope(t, stack, false).1, stack, v, owners);
  }

  /** The scope of the loop body of a `for` with a declaration. */
  function ForStackOf(init: (string, bool), stack: seq<Scope>): seq<Scope>
    requires stack != []
  {
    if init.1 then AddVar(stack, init.0) else stack
  }

  lemma {:induction false} FairFor(init: (string, bool), b: seq<Stmt>, stack: seq<Scope>, v: View,
                                   owners: set<string>, inLoop: bool)
    requires FairStmt(For(Some(init), b), stack, v, owners, inLoop)
    ensures init.0 !in v.names && stack != []
    ensures var mid := ForStackOf(init, stack);
            && FairScope(b, mid, Shown(For(Some(init), b), v), true, owners, true)
            && Inside(mid, Shown(For(Some(init), b), v), owners)
            && AllVars(mid) == AllVars(stack) + (if init.1 then {init.0} else {})
            && mid[..|stack| - 1] == stack[..|stack| - 1] && LoopFrom(mid) == LoopFrom(stack)
  {
    hide NoDuplicates, Names, Tended, AllVars, LoopFrom;
    NamesApart([init.0], Names(b));
    assert init.0 in [init.0];
    assert init.0 in NameSet([init.0]);
    var v' := Shown(For(Some(init), b), v);
    assert Inside(stack, v', owners);
    NotListed(stack, v, init.0, owners);
    AddInside(stack, v', init.0, init.1, false, owners);
    var top := stack[|stack| - 1];
    assert top.(vars := top.vars, declared := top.declared) == top;
    SameLoopFrom(stack, ForStackOf(init, stack));
  }

  lemma {:induction false} NotListed(stack: seq<Scope>, v: View, x: string, owners: set<string>)
    requires Inside(stack, v, owners) && x !in v.names
    ensures x !in stack[|stack| - 1].vars && x !in AllVars(stack)
  {
    assert x !in ScopeNames(stack[|stack| - 1]);
    assert x !in NameSet(stack[|stack| - 1].vars);
  }

  /** The stack behind a statement: the innermost scope went on, the others list no more than before. */
  ghost predicate Onward(before: seq<Scope>, after: seq<Scope>, v: View, owners: set<string>) {
    && before != [] && |after| == |before| && Inside(after, v, owners)
    && Lesser(after[..|before| - 1], before[..|before| - 1]) && LoopFrom(after) == LoopFrom(before)
  }

  lemma {:induction false} LesserOnward(before: seq<Scope>, after: seq<Scope>, v: View, owners: set<string>)
    requires Lesser(after, before) && Inside(before, v, owners)
    ensures Onward(before, after, v, owners)
  {
    hide Inside;
    assert before != [] by { InsideSome(before, v, owners); }
    LesserInside(after, before, v, owners);
    LesserSlice(after, before, 0, |before| - 1);
    LesserVars(after, before);
  }

  lemma {:induction false} InsideSome(stack: seq<Scope>, v: View, owners: set<string>)
    requires Inside(stack, v, owners)
    ensures stack != []
  {
  }

  lemma {:induction false} ScopeAfter(ss: seq<Stmt>, stack: seq<Scope>, v: View, insideLoop: bool,
                                      owners: set<string>, inLoop: bool)
    requires FairScope(ss, stack, v, insideLoop, owners, inLoop)
    ensures Lesser(AnalyzeScope(ss, stack, insideLoop).1, stack)
    decreases ss, 2
  {
    hide Fair, FairScope, Lesser, Inside, AnalyzeList, AtScopeEnd;
    var inner := stack + [Scope([], [], insideLoop)];
    FairInside(ss, stack, v, insideLoop, owners, inLoop);
    ListAfter(ss, inner, Within(v, insideLoop), owners, inLoop);
    assert inner[..|stack|] == stack;
  }

  lemma {:induction false} ListAfter(ss: seq<Stmt>, stack: seq<Scope>, v: View, owners: set<string>, inLoop: bool)
    requires Fair(ss, stack, v, owners, inLoop)
    ensures Onward(stack, AnalyzeList(ss, stack).1, ShownAll(ss, v), owners)
    decreases ss, 1
  {
    hide AnalyzeStmt, Inside, Lesser, TendedStmt, NamesOf, LoopFrom;
    InsideSome(stack, v, owners);
    var top := |stack| - 1;
    if ss == [] {
      LesserSame(stack[..top]);
    } else {
      FairSplit(ss, stack, v, owners, inLoop);
      StmtAfter(ss[0], stack, v, owners, inLoop);
      var st1 := AnalyzeStmt(ss[0], stack).1;
      ListAfter(ss[1..], st1, Shown(ss[0], v), owners, inLoop);
      LesserThen(AnalyzeList(ss[1..], st1).1[..top], st1[..top], stack[..top]);
    }
  }

  lemma {:induction false} FairSplit(ss: seq<Stmt>, stack: seq<Scope>, v: View, owners: set<string>, inLoop: bool)
    requires ss != [] && Fair(ss, stack, v, owners, inLoop)
    ensures stack != [] && FairStmt(ss[0], stack, v, owners, inLoop)
    ensures Fair(ss[1..], AnalyzeStmt(ss[0], stack).1, Shown(ss[0], v), owners, inLoop)
    decreases ss, 0
  {
    hide AnalyzeStmt, Inside, Lesser, TendedStmt, LoopFrom, NoDuplicates;
    InsideSome(stack, v, owners);
    NamesApart(NamesOf(ss[0]), Names(ss[1..]));
    StmtAfter(ss[0], stack, v, owners, inLoop);
    ShownNames(ss[0], v);
  }

  lemma {:induction false} ShownNames(s: Stmt, v: View)
    ensures v.names <= Shown(s, v).names <= v.names + NameSet(NamesOf(s))
    ensures Shown(s, v).outside == v.outside && Shown(s, v).aroundLoop == v.aroundLoop
  {
  }

  lemma {:induction false} ShownAllNames(ss: seq<Stmt>, v: View)
    ensures v.names <= ShownAll(ss, v).names
    ensures ShownAll(ss, v).outside == v.outside && ShownAll(ss, v).aroundLoop == v.aroundLoop
    decreases ss
  {
    if ss != [] {
      ShownNames(ss[0], v);
      ShownAllNames(ss[1..], Shown(ss[0], v));
    }
  }

  lemma {:induction false} StmtAfter(s: Stmt, stack: seq<Scope>, v: View, owners: set<string>, inLoop: bool)
    requires FairStmt(s, stack, v, owners, inLoop) && stack != []
    ensures Onward(stack, AnalyzeStmt(s, stack).1, Shown(s, v), owners)
    decreases s, 1
  {
    hide FairStmt, FairScope, AnalyzeScope, Onward, Inside, LoopFrom, Collect, ReleasesOf, Lesser;
    match s
    case Plain => FlatAfter(s, stack, v, owners, inLoop);
    case Decl(_, _) => FlatAfter(s, stack, v, owners, inLoop);
    case Assign(_, _) => FlatAfter(s, stack, v, owners, inLoop);
    case Release(x) =>
      FairIs(s, stack, v, owners, inLoop);
      DropFacts(stack, x);
      LesserOnward(stack, DropVar(stack, x), v, owners);
    case NoArc(_) => FlatAfter(s, stack, v, owners, inLoop);
    case Block(b) => BodyAfter(s, b, stack, v, owners, inLoop);
    case If(t, NoElse) => BodyAfter(s, t, stack, v, owners, inLoop);
    case If(t, Else(e)) =>
      FairIs(s, stack, v, owners, inLoop);
      FairBranches(t, e, stack, v, owners, inLoop);
      var st := AnalyzeScope(t, stack, false).1;
      ScopeAfter(e, st, v, false, owners, inLoop);
      LesserThen(AnalyzeScope(e, st, false).1, st, stack);
      LesserOnward(stack, AnalyzeScope(e, st, false).1, v, owners);
    case While(b) => BodyAfter(s, b, stack, v, owners, inLoop);
    case For(None, b) => BodyAfter(s, b, stack, v, owners, inLoop);
    case For(Some(init), b) => ForAfter(init, b, stack, v, owners, inLoop);
    case Break => ExitAfter(s, LoopFrom(stack), stack, v, owners, inLoop);
    case Continue => ExitAfter(s, LoopFrom(stack), stack, v, owners, inLoop);
    case Return(_, _) => ExitAfter(s, 0, stack, v, owners, inLoop);
    case Throw(_, _) => ExitAfter(s, 0, stack, v, owners, inLoop);
  }

  lemma {:induction false} FairIs(s: Stmt, stack: seq<Scope>, v: View, owners: set<string>, inLoop: bool)
    requires FairStmt(s, stack, v, owners, inLoop)
    ensures Inside(stack, v, owners) && TendedStmt(s, v, owners, inLoop)
  {
  }

  lemma {:induction false} ExitAfter(s: Stmt, from: nat, stack: seq<Scope>, v: View, owners: set<string>, inLoop: bool)
    requires FairStmt(s, stack, v, owners, inLoop) && stack != [] && from <= |stack|
    ensures Onward(stack, ClearFrom(stack, from), v, owners)
  {
    hide Inside, Lesser, LoopFrom;
    ClearLesser(stack, from);
    LesserOnward(stack, ClearFrom(stack, from), v, owners);
  }

  lemma {:induction false} FlatAfter(s: Stmt, stack: seq<Scope>, v: View, owners: set<string>, inLoop: bool)
    requires FairStmt(s, stack, v, owners, inLoop) && stack != []
    requires s.Plain? || s.Decl? || s.Assign? || s.NoArc?
    ensures Onward(stack, AnalyzeStmt(s, stack).1, Shown(s, v), owners)
    ensures AllVars(AnalyzeStmt(s, stack).1)
         <= AllVars(stack) + if (s.Decl? || s.Assign?) && s.owned then {s.name} else {}
  {
    hide AllVars, LoopFrom, Inside, Lesser, FairStmt;
    FairIs(s, stack, v, owners, inLoop);
    LesserSame(stack[..|stack| - 1]);
    match s
    case Decl(x, owned) => DeclAfter(x, owned, stack, v, owners, inLoop);
    case Assign(x, owned) =>
      if owned && x in stack[|stack| - 1].declared && x !in stack[|stack| - 1].vars {
        AssignAfter(x, stack, v, owners);
      }
    case _ =>
  }

  lemma {:induction false} DeclAfter(x: string, owned: bool, stack: seq<Scope>, v: View, owners: set<string>,
                                     inLoop: bool)
    requires FairStmt(Decl(x, owned), stack, v, owners, inLoop) && stack != []
    ensures Onward(stack, AnalyzeStmt(Decl(x, owned), stack).1, Shown(Decl(x, owned), v), owners)
    ensures AllVars(AnalyzeStmt(Decl(x, owned), stack).1) == AllVars(stack) + if owned then {x} else {}
  {
    hide AllVars, LoopFrom, Lesser;
    var s, top := Decl(x, owned), |stack| - 1;
    assert x in NameSet(NamesOf(s));
    NotListed(stack, v, x, owners);
    assert Inside(stack, Shown(s, v), owners);
    AddInside(stack, Shown(s, v), x, owned, true, owners);
    var last := stack[top].(vars := if owned then stack[top].vars + [x] else stack[top].vars,
                            declared := stack[top].declared + [x]);
    TopOnward(stack, last, Shown(s, v), owners);
    assert AnalyzeStmt(s, stack).1 == stack[top := last];
  }

  lemma {:induction false} AssignAfter(x: string, stack: seq<Scope>, v: View, owners: set<string>)
    requires Inside(stack, v, owners) && x in owners
    requires stack != [] && x in stack[|stack| - 1].declared && x !in stack[|stack| - 1].vars
    ensures Onward(stack, AddVar(stack, x), v, owners) && AllVars(AddVar(stack, x)) == AllVars(stack) + {x}
  {
    hide AllVars, LoopFrom, Lesser;
    var top := |stack| - 1;
    assert x in ScopeNames(stack[top]);
    AddInside(stack, v, x, true, false, owners);
    var last := stack[top].(vars := stack[top].vars + [x]);
    assert last == stack[top].(vars := stack[top].vars + [x], declared := stack[top].declared);
    TopOnward(stack, last, v, owners);
  }

  lemma {:induction false} TopOnward(stack: seq<Scope>, last: Scope, v: View, owners: set<string>)
    requires stack != [] && last.insideLoop == stack[|stack| - 1].insideLoop
    requires Inside(stack[|stack| - 1 := last], v, owners)
    ensures Onward(stack, stack[|stack| - 1 := last], v, owners)
  {
    hide Inside, LoopFrom, Lesser;
    var after := stack[|stack| - 1 := last];
    SameLoopFrom(stack, after);
    LesserSame(stack[..|stack| - 1]);
    assert after[..|stack| - 1] == stack[..|stack| - 1];
  }

  lemma {:induction false} BodyAfter(s: Stmt, b: seq<Stmt>, stack: seq<Scope>, v: View, owners: set<string>,
                                     inLoop: bool)
    requires FairStmt(s, stack, v, owners, inLoop) && HasBody(s, b) && stack != []
    ensures Onward(stack, AnalyzeStmt(s, stack).1, v, owners)
    ensures Lesser(AnalyzeStmt(s, stack).1, stack)
    decreases s, 0
  {
    hide FairStmt, FairScope, AnalyzeScope, Onward, Inside, Lesser;
    var loop := s.While? || s.For?;
    FairIs(s, stack, v, owners, inLoop);
    FairBody(s, b, stack, v, owners, inLoop);
    ScopeAfter(b, stack, v, loop, owners, inLoop || loop);
    LesserOnward(stack, AnalyzeScope(b, stack, loop).1, v, owners);
  }

  lemma {:induction false} ForAfter(init: (string, bool), b: seq<Stmt>, stack: seq<Scope>, v: View,
                                    owners: set<string>, inLoop: bool)
    requires FairStmt(For(Some(init), b), stack, v, owners, inLoop) && stack != []
    ensures Onward(stack, AnalyzeStmt(For(Some(init), b), stack).1, Shown(For(Some(init), b), v), owners)
    decreases For(Some(init), b), 0
  {
    hide FairStmt, FairScope, AnalyzeScope, Inside, Lesser, LoopFrom;
    FairFor(init, b, stack, v, owners, inLoop);
    var mid, v' := ForStackOf(init, stack), Shown(For(Some(init), b), v);
    ScopeAfter(b, mid, v', true, owners, true);
    LesserOnward(mid, AnalyzeScope(b, mid, true).1, v', owners);
  }

  // ---------------------------------------------------------------- what the analysis of a loop body does not look at

  type Analyzed = (seq<Stmt>, seq<Scope>)

  /** `b` is what becomes of `a` when x is taken off the stack first: the same, if x is dropped before any exit. */
  ghost predicate Unseen(a: Analyzed, b: Analyzed, x: string, first: bool, exits: bool) {
    && (first ==> a == b)
    && (!first && !exits ==> a.0 == b.0 && b.1 == DropVar(a.1, x))
  }

  lemma {:induction false} WithoutNone(vars: seq<string>, x: string)
    requires x !in vars
    ensures Without(vars, x) == vars
    decreases vars
  {
    if vars != [] {
      WithoutNone(vars[1..], x);
    }
  }

  lemma {:induction false} WithoutPush(vars: seq<string>, y: string, x: string)
    ensures Without(vars + [y], x) == Without(vars, x) + if y == x then [] else [y]
    decreases vars
  {
    if vars == [] {
      assert [] + [y] == [y] && [y][1..] == [];
    } else {
      WithoutPush(vars[1..], y, x);
      assert (vars + [y])[1..] == vars[1..] + [y];
    }
  }

  lemma {:induction false} WithoutCommutes(vars: seq<string>, x: string, y: string)
    ensures Without(Without(vars, x), y) == Without(Without(vars, y), x)
    decreases vars
  {
    hide Without;
    if vars == [] {
      NoneWithout(x);
      NoneWithout(y);
    } else {
      var rest := vars[1..];
      WithoutCommutes(rest, x, y);
      WithoutFirst(vars[0], rest, x);
      WithoutFirst(vars[0], rest, y);
      WithoutFirst(vars[0], Without(rest, x), y);
      WithoutFirst(vars[0], Without(rest, y), x);
      assert vars == [vars[0]] + rest;
    }
  }

  lemma {:induction false} NoneWithout(x: string)
    ensures Without([], x) == []
  {
  }

  lemma {:induction false} WithoutFirst(first: string, rest: seq<string>, x: string)
    ensures Without([first] + rest, x) == if first == x then Without(rest, x) else [first] + Without(rest, x)
  {
    assert ([first] + rest)[1..] == rest;
  }

  lemma {:induction false} WithoutTwice(vars: seq<string>, x: string)
    ensures Without(Without(vars, x), x) == Without(vars, x)
  {
    WithoutFacts(vars, x);
    assert x !in NameSet(Without(vars, x));
    WithoutNone(Without(vars, x), x);
  }

  lemma {:induction false} DropCommutes(stack: seq<Scope>, x: string, y: string)
    ensures DropVar(DropVar(stack, x), y) == DropVar(DropVar(stack, y), x)
    ensures DropVar(DropVar(stack, x), x) == DropVar(stack, x)
  {
    forall i | 0 <= i < |stack|
      ensures DropVar(DropVar(stack, x), y)[i] == DropVar(DropVar(stack, y), x)[i]
      ensures DropVar(DropVar(stack, x), x)[i] == DropVar(stack, x)[i]
    {
      WithoutCommutes(stack[i].vars, x, y);
      WithoutTwice(stack[i].vars, x);
    }
  }

  lemma {:induction false} DropPush(stack: seq<Scope>, insideLoop: bool, x: string)
    ensures DropVar(stack + [Scope([], [], insideLoop)], x) == DropVar(stack, x) + [Scope([], [], insideLoop)]
  {
    assert Without([], x) == [];
  }

  lemma {:induction false} DropAdds(stack: seq<Scope>, x: string, y: string)
    requires stack != [] && x != y
    ensures DropVar(AddVar(stack, y), x) == AddVar(DropVar(stack, x), y)
    ensures DropVar(AddDeclared(stack, y), x) == AddDeclared(DropVar(stack, x), y)
  {
    WithoutPush(stack[|stack| - 1].vars, y, x);
  }

  lemma {:induction false} DropClears(stack: seq<Scope>, from: nat, x: string)
    requires from <= |stack|
    ensures DropVar(ClearFrom(stack, from), x) == ClearFrom(DropVar(stack, x), from)
  {
    assert Without([], x) == [];
  }

  lemma {:induction false} DropNone(stack: seq<Scope>, x: string)
    requires x !in AllVars(stack)
    ensures DropVar(stack, x) == stack
  {
    AllVarsMember(stack, x);
    forall i | 0 <= i < |stack|
      ensures DropVar(stack, x)[i] == stack[i]
    {
      WithoutNone(stack[i].vars, x);
    }
  }

  /** A variable from outside the loop is not of the scopes inside it. */
  lemma {:induction false} Distant(stack: seq<Scope>, v: View, x: string, owners: set<string>)
    requires Inside(stack, v, owners) && x in v.aroundLoop
    ensures stack != [] && x !in stack[|stack| - 1].vars && x !in stack[|stack| - 1].declared
    ensures x in v.names && x !in AllVars(stack[LoopFrom(stack)..])
  {
    hide AllVars, LoopFrom;
    assert x !in ScopeNames(stack[|stack| - 1]);
    assert x !in NameSet(stack[|stack| - 1].vars) && x !in NameSet(stack[|stack| - 1].declared);
  }

  lemma {:induction false} UnseenList(ss: seq<Stmt>, stack: seq<Scope>, v: View, x: string, owners: set<string>,
                                      inLoop: bool)
    requires Fair(ss, stack, v, owners, inLoop) && stack != [] && x in v.aroundLoop
    ensures Unseen(AnalyzeList(ss, stack), AnalyzeList(ss, DropVar(stack, x)), x, x in ReleasedFirst(ss), Exits(ss))
    decreases ss, 1
  {
    hide Fair, FairStmt, AnalyzeStmt, DropVar, ExitsIn, ReleasedFirstIn;
    if ss != [] {
      FairSplit(ss, stack, v, owners, inLoop);
      UnseenStmt(ss[0], stack, v, x, owners, inLoop);
      ShownNames(ss[0], v);
      if x !in ReleasedFirstIn(ss[0]) && !ExitsIn(ss[0]) {
        UnseenList(ss[1..], AnalyzeStmt(ss[0], stack).1, Shown(ss[0], v), x, owners, inLoop);
      }
    }
  }

  lemma {:induction false} UnseenScope(ss: seq<Stmt>, stack: seq<Scope>, v: View, insideLoop: bool, x: string,
                                       owners: set<string>, inLoop: bool)
    requires FairScope(ss, stack, v, insideLoop, owners, inLoop) && x in Within(v, insideLoop).aroundLoop
    ensures Unseen(AnalyzeScope(ss, stack, insideLoop), AnalyzeScope(ss, DropVar(stack, x), insideLoop), x,
                   x in ReleasedFirst(ss), Exits(ss))
    decreases ss, 2
  {
    hide Fair, FairScope, AnalyzeList, AtScopeEnd, ReleasedFirst, Exits, Lesser, Inside;
    var inner := stack + [Scope([], [], insideLoop)];
    var v' := Within(v, insideLoop);
    FairInside(ss, stack, v, insideLoop, owners, inLoop);
    UnseenList(ss, inner, v', x, owners, inLoop);
    DropPush(stack, insideLoop, x);
    if x !in ReleasedFirst(ss) && !Exits(ss) {
      ListAfter(ss, inner, v', owners, inLoop);
      ShownAllNames(ss, v');
      var st := AnalyzeList(ss, inner).1;
      Distant(st, ShownAll(ss, v'), x, owners);
      WithoutNone(st[|stack|].vars, x);
      assert DropVar(st, x)[..|stack|] == DropVar(st[..|stack|], x);
    }
  }

  lemma {:induction false} UnseenStmt(s: Stmt, stack: seq<Scope>, v: View, x: string, owners: set<string>, inLoop: bool)
    requires FairStmt(s, stack, v, owners, inLoop) && stack != [] && x in v.aroundLoop
    ensures Unseen(AnalyzeStmt(s, stack), AnalyzeStmt(s, DropVar(stack, x)), x, x in ReleasedFirstIn(s), ExitsIn(s))
    decreases s, 1
  {
    hide FairStmt, AnalyzeScope, DropVar, AddVar, AddDeclared, Inside, AllVars, Collect, ReleasesOf, LoopFrom;
    hide ClearFrom;
    FairIs(s, stack, v, owners, inLoop);
    Distant(stack, v, x, owners);
    match s
    case Decl(y, owned) =>
      NewHere(s, y, stack, v, owners, inLoop);
      DropAdds(stack, x, y);
      DropAdds(AddVar(stack, y), x, y);
    case Assign(y, owned) => UnseenAssign(y, owned, stack, x);
    case Release(y) => DropCommutes(stack, x, y);
    case Block(b) => UnseenBody(s, b, stack, v, x, owners, inLoop);
    case If(t, NoElse) => UnseenBody(s, t, stack, v, x, owners, inLoop);
    case If(t, Else(e)) => UnseenBranches(t, e, stack, v, x, owners, inLoop);
    case While(b) => UnseenBody(s, b, stack, v, x, owners, inLoop);
    case For(None, b) => UnseenBody(s, b, stack, v, x, owners, inLoop);
    case For(Some(init), b) => UnseenFor(init, b, stack, v, x, owners, inLoop);
    case Break => UnseenExit(stack, x);
    case Continue => UnseenExit(stack, x);
    case _ =>
  }

  lemma {:induction false} NewHere(s: Stmt, y: string, stack: seq<Scope>, v: View, owners: set<string>, inLoop: bool)
    requires FairStmt(s, stack, v, owners, inLoop) && s.Decl? && s.name == y
    ensures y !in v.names
  {
    assert y in NamesOf(s);
    assert y in NameSet(NamesOf(s));
  }

  lemma {:induction false} UnseenAssign(y: string, owned: bool, stack: seq<Scope>, x: string)
    requires stack != [] && x !in stack[|stack| - 1].vars && x !in stack[|stack| - 1].declared
    ensures Unseen(AnalyzeStmt(Assign(y, owned), stack), AnalyzeStmt(Assign(y, owned), DropVar(stack, x)), x, false,
                   false)
  {
    WithoutNone(stack[|stack| - 1].vars, x);
    if y != x {
      DropAdds(stack, x, y);
    }
  }

  lemma {:induction false} UnseenExit(stack: seq<Scope>, x: string)
    requires stack != [] && x !in AllVars(stack[LoopFrom(stack)..])
    ensures LoopFrom(DropVar(stack, x)) == LoopFrom(stack)
    ensures DropVar(stack, x)[LoopFrom(stack)..] == stack[LoopFrom(stack)..]
    ensures DropVar(ClearFrom(stack, LoopFrom(stack)), x) == ClearFrom(DropVar(stack, x), LoopFrom(stack))
  {
    hide AllVars, LoopFrom, ClearFrom;
    var from := LoopFrom(stack);
    DropFacts(stack, x);
    LesserVars(DropVar(stack, x), stack);
    DropClears(stack, from, x);
    DropNone(stack[from..], x);
    assert DropVar(stack, x)[from..] == DropVar(stack[from..], x);
  }

  lemma {:induction false} UnseenBody(s: Stmt, b: seq<Stmt>, stack: seq<Scope>, v: View, x: string,
                                      owners: set<string>, inLoop: bool)
    requires FairStmt(s, stack, v, owners, inLoop) && HasBody(s, b) && stack != [] && x in v.aroundLoop && x in v.names
    ensures Unseen(AnalyzeStmt(s, stack), AnalyzeStmt(s, DropVar(stack, x)), x, x in ReleasedFirstIn(s), ExitsIn(s))
    decreases s, 0
  {
    hide FairStmt, FairScope, AnalyzeScope, DropVar, ReleasedFirst, Exits;
    var loop := s.While? || s.For?;
    FairBody(s, b, stack, v, owners, inLoop);
    UnseenScope(b, stack, v, loop, x, owners, inLoop || loop);
  }

  lemma {:induction false} UnseenBranches(t: seq<Stmt>, e: seq<Stmt>, stack: seq<Scope>, v: View, x: string,
                                          owners: set<string>, inLoop: bool)
    requires FairStmt(If(t, Else(e)), stack, v, owners, inLoop) && stack != [] && x in v.aroundLoop
    ensures var s := If(t, Else(e));
            Unseen(AnalyzeStmt(s, stack), AnalyzeStmt(s, DropVar(stack, x)), x, x in ReleasedFirstIn(s), ExitsIn(s))
    decreases If(t, Else(e)), 0
  {
    hide FairStmt, FairScope, AnalyzeScope, DropVar, ReleasedFirst, Exits, Lesser;
    FairBranches(t, e, stack, v, owners, inLoop);
    UnseenScope(t, stack, v, false, x, owners, inLoop);
    if x !in ReleasedFirst(t) && !Exits(t) {
      UnseenScope(e, AnalyzeScope(t, stack, false).1, v, false, x, owners, inLoop);
    }
  }

  lemma {:induction false} UnseenFor(init: (string, bool), b: seq<Stmt>, stack: seq<Scope>, v: View, x: string,
                                     owners: set<string>, inLoop: bool)
    requires FairStmt(For(Some(init), b), stack, v, owners, inLoop) && stack != [] && x in v.aroundLoop && x in v.names
    ensures var s := For(Some(init), b);
            Unseen(AnalyzeStmt(s, stack), AnalyzeStmt(s, DropVar(stack, x)), x, x in ReleasedFirstIn(s), ExitsIn(s))
    decreases For(Some(init), b), 0
  {
    hide FairStmt, FairScope, AnalyzeScope, DropVar, AddVar, ReleasedFirst, Exits, Inside, AllVars, LoopFrom;
    FairFor(init, b, stack, v, owners, inLoop);
    DropAdds(stack, x, init.0);
    UnseenScope(b, ForStackOf(init, stack), Shown(For(Some(init), b), v), true, x, owners, true);
  }

  /** A loop body is analyzed as if what it releases before any exit had not been listed around it. */
  lemma {:induction false} DropFirst(b: seq<Stmt>, stack: seq<Scope>, v: View, owners: set<string>, xs: set<string>)
    returns (st: seq<Scope>)
    requires FairScope(b, stack, v, true, owners, true) && xs <= ReleasedFirst(b) && xs <= v.names
    ensures AnalyzeScope(b, st, true) == AnalyzeScope(b, stack, true)
    ensures FairScope(b, st, v, true, owners, true) && AllVars(st) == AllVars(stack) - xs && |st| == |stack|
    decreases |xs|
  {
    hide AnalyzeScope, AllVars, DropVar, ReleasedFirst, Exits, Around, Lesser, Tended, NoDuplicates, Names;
    if xs == {} {
      st := stack;
    } else {
      var x :| x in xs;
      UnseenScope(b, stack, v, true, x, owners, true);
      DropFacts(stack, x);
      LesserAround(DropVar(stack, x), stack, v, owners);
      st := DropFirst(b, DropVar(stack, x), v, owners, xs - {x});
    }
  }

  // ---------------------------------------------------------------- the two runs side by side

  ghost predicate Agree(a: set<string>, b: set<string>, names: set<string>) {
    forall x :: x in names ==> (x in a <==> x in b)
  }

  /** The rewritten run `r` goes wrong where the run `q` of the source does, and holds the same of what can be named. */
  ghost predicate Lockstep(r: Run, q: Run, after: seq<Scope>, from: nat, names: set<string>, around: set<string>)
    requires from <= |after|
  {
    && (r.bad <==> q.bad)
    && (r.out.Normal? ==> Agree(r.held, q.held, names) && AllVars(after) <= r.held)
    && (r.out.Broke? || r.out.Continued? ==> Agree(r.held, q.held, around) && AllVars(after[..from]) <= r.held)
  }

  /** Both runs start alike. */
  ghost predicate Together(stack: seq<Scope>, v: View, held: set<string>, held': set<string>) {
    AllVars(stack) <= held && Agree(held, held', v.names)
  }

  lemma {:induction false} LockList(ss: seq<Stmt>, stack: seq<Scope>, v: View, held: set<string>, held': set<string>,
                                    choices: seq<bool>, owners: set<string>, inLoop: bool)
    requires Fair(ss, stack, v, owners, inLoop) && stack != [] && Together(stack, v, held, held')
    requires Steady(ss, held', choices)
    ensures Lockstep(ExecList(AnalyzeList(ss, stack).0, held, choices), ExecList(ss, held', choices),
                     AnalyzeList(ss, stack).1, LoopFrom(stack), ShownAll(ss, v).names, v.aroundLoop)
    decreases |choices|, ss, 0
  {
    hide Fair, FairStmt, AnalyzeStmt, SteadyStmt, LoopFrom, AllVars, Agree, Inside, Lesser;
    if ss != [] {
      FairSplit(ss, stack, v, owners, inLoop);
      var (o1, st1) := AnalyzeStmt(ss[0], stack);
      var o2 := AnalyzeList(ss[1..], st1).0;
      var r, q := ExecList(o1, held, choices), Exec(ss[0], held', choices);
      LockStmt(ss[0], stack, v, held, held', choices, owners, inLoop);
      AnalyzedControlStmt(ss[0], stack, held, held', choices);
      ExecConcat(o1, o2, held, choices);
      StmtAfter(ss[0], stack, v, owners, inLoop);
      ShownNames(ss[0], v);
      if r.out.Normal? {
        LockList(ss[1..], st1, Shown(ss[0], v), r.held, q.held, r.choices, owners, inLoop);
      } else {
        OuterShrinks(ss[1..], st1, Shown(ss[0], v), owners, inLoop, LoopFrom(stack));
      }
    }
  }

  /** What the rest of a list leaves listed around its innermost scope was listed before it. */
  lemma {:induction false} OuterShrinks(ss: seq<Stmt>, stack: seq<Scope>, v: View, owners: set<string>, inLoop: bool,
                                        from: nat)
    requires Fair(ss, stack, v, owners, inLoop) && stack != [] && from < |stack|
    ensures AllVars(AnalyzeList(ss, stack).1[..from]) <= AllVars(stack[..from])
  {
    hide Fair, Inside, AllVars, LoopFrom, Lesser;
    var top := |stack| - 1;
    ListAfter(ss, stack, v, owners, inLoop);
    var st := AnalyzeList(ss, stack).1;
    LesserSlice(st[..top], stack[..top], 0, from);
    assert st[..top][0..from] == st[..from] && stack[..top][0..from] == stack[..from];
    LesserVars(st[..from], stack[..from]);
  }

  lemma {:induction false} LockScope(ss: seq<Stmt>, stack: seq<Scope>, v: View, insideLoop: bool, held: set<string>,
                                     held': set<string>, choices: seq<bool>, owners: set<string>, inLoop: bool)
    requires FairScope(ss, stack, v, insideLoop, owners, inLoop) && Together(stack, v, held, held')
    requires Steady(ss, held', choices)
    ensures Lockstep(ExecList(AnalyzeScope(ss, stack, insideLoop).0, held, choices), ExecList(ss, held', choices),
                     AnalyzeScope(ss, stack, insideLoop).1, if insideLoop then |stack| else LoopFrom(stack), v.names,
                     if insideLoop then v.names else v.aroundLoop)
    decreases |choices|, ss, 1
  {
    hide Fair, FairScope, Steady, AllVars, AnalyzeList, ExecList, AtScopeEnd, ReleasesOf, LoopFrom, Lesser, NameSet;
    var inner, v' := stack + [Scope([], [], insideLoop)], Within(v, insideLoop);
    FairInside(ss, stack, v, insideLoop, owners, inLoop);
    ListAfter(ss, inner, v', owners, inLoop);
    EmptyScope(stack, insideLoop);
    LoopFromWithin(stack, insideLoop);
    LockList(ss, inner, v', held, held', choices, owners, inLoop);
    ShownAllNames(ss, v');
    ExecScopeEnd(ss, inner, held, choices);
    var (out, st) := AnalyzeList(ss, inner);
    var r := ExecList(out, held, choices);
    AnalyzedControl(ss, inner, held, held', choices);
    if r.out.Normal? {
      AllVarsPush(st[..|stack|], st[|stack|]);
      assert st == st[..|stack|] + [st[|stack|]];
      ExecReleases(st[|stack|].vars, None, r.held, r.choices);
    } else {
      var from := if insideLoop then |stack| else LoopFrom(stack);
      assert st[..|stack|][..from] == st[..from];
    }
  }

  lemma {:induction false} LoopFromWithin(stack: seq<Scope>, insideLoop: bool)
    ensures LoopFrom(stack + [Scope([], [], insideLoop)]) == if insideLoop then |stack| else LoopFrom(stack)
  {
    assert (stack + [Scope([], [], insideLoop)])[..|stack|] == stack;
  }

  lemma {:induction false} LockLoop(b: seq<Stmt>, stack: seq<Scope>, v: View, entry: set<string>, held: set<string>,
                                    held': set<string>, choices: seq<bool>, owners: set<string>)
    requires FairScope(b, stack, v, true, owners, true) && Agree(held, held', v.names)
    requires AllVars(stack) <= entry - ReleasedFirst(b) && SteadyLoop(b, entry, held', choices)
    ensures var r, q := ExecLoop(AnalyzeScope(b, stack, true).0, held, choices), ExecLoop(b, held', choices);
            && (r.bad <==> q.bad)
            && (r.out.Normal? ==> Agree(r.held, q.held, v.names) && AllVars(AnalyzeScope(b, stack, true).1) <= r.held)
    decreases |choices|, b, 2
  {
    hide FairScope, AnalyzeScope, ExecList, Steady, Lesser, AllVars, ReleasedFirst;
    ScopeAfter(b, stack, v, true, owners, true);
    LesserVars(AnalyzeScope(b, stack, true).1, stack);
    StillHeld(b, stack, v, entry, held, held', owners);
    var (code, st) := AnalyzeScope(b, stack, true);
    assert st[..|stack|] == st;
    if choices != [] && choices[0] {
      LockScope(b, stack, v, true, held, held', choices[1..], owners, true);
      AnalyzedControlScope(b, stack, true, held, held', choices[1..]);
      var r, q := ExecList(code, held, choices[1..]), ExecList(b, held', choices[1..]);
      if r.out.Normal? || r.out.Continued? {
        LockLoop(b, stack, v, entry, r.held, q.held, r.choices, owners);
      }
    }
  }

  lemma {:induction false} StillHeld(b: seq<Stmt>, stack: seq<Scope>, v: View, entry: set<string>, held: set<string>,
                                     held': set<string>, owners: set<string>)
    requires FairScope(b, stack, v, true, owners, true) && Agree(held, held', v.names)
    requires AllVars(stack) <= entry - ReleasedFirst(b)
    requires entry - NameSet(Names(b)) - ReleasedFirst(b) <= held'
    ensures AllVars(stack) <= held
  {
    hide AllVars, Tended, NoDuplicates, Names, LoopFrom, NameSet, ReleasedFirst;
  }

  /** The whole loop, from its entry. */
  lemma {:induction false} LockWholeLoop(b: seq<Stmt>, stack: seq<Scope>, v: View, held: set<string>,
                                         held': set<string>, choices: seq<bool>, owners: set<string>)
    requires FairScope(b, stack, v, true, owners, true) && Together(stack, v, held, held')
    requires SteadyLoop(b, held', held', choices)
    ensures var r, q := ExecLoop(AnalyzeScope(b, stack, true).0, held, choices), ExecLoop(b, held', choices);
            && (r.bad <==> q.bad)
            && (r.out.Normal? ==> Agree(r.held, q.held, v.names) && AllVars(AnalyzeScope(b, stack, true).1) <= r.held)
    decreases |choices|, b, 3
  {
    hide FairScope, AnalyzeScope, ExecLoop, SteadyLoop, AllVars, ReleasedFirst;
    StartHeld(b, stack, v, held, held', choices, owners);
    var st := DropFirst(b, stack, v, owners, AllVars(stack) * ReleasedFirst(b));
    LockLoop(b, st, v, held', held, held', choices, owners);
  }

  lemma {:induction false} LockStmt(s: Stmt, stack: seq<Scope>, v: View, held: set<string>, held': set<string>,
                                    choices: seq<bool>, owners: set<string>, inLoop: bool)
    requires FairStmt(s, stack, v, owners, inLoop) && stack != [] && Together(stack, v, held, held')
    requires SteadyStmt(s, held', choices)
    ensures Lockstep(ExecList(AnalyzeStmt(s, stack).0, held, choices), Exec(s, held', choices),
                     AnalyzeStmt(s, stack).1, LoopFrom(stack), Shown(s, v).names, v.aroundLoop)
    decreases |choices|, s, 1
  {
    hide FairStmt, AnalyzeStmt, ExecList, Exec, Lockstep, Together, AllVars, LoopFrom, SteadyStmt, Collect;
    FairIs(s, stack, v, owners, inLoop);
    match s
    case Plain => LockFlat(s, stack, v, held, held', choices, owners, inLoop);
    case Decl(_, _) => LockFlat(s, stack, v, held, held', choices, owners, inLoop);
    case Assign(_, _) => LockFlat(s, stack, v, held, held', choices, owners, inLoop);
    case Release(x) => LockRelease(x, stack, v, held, held', choices, owners, inLoop);
    case NoArc(_) => NoArcHere(s, stack, v, owners, inLoop);
    case Block(b) => LockBody(s, b, stack, v, held, held', choices, owners, inLoop);
    case If(t, NoElse) => LockBody(s, t, stack, v, held, held', choices, owners, inLoop);
    case If(t, Else(e)) => LockBranches(t, e, stack, v, held, held', choices, owners, inLoop);
    case While(b) => LockBody(s, b, stack, v, held, held', choices, owners, inLoop);
    case For(None, b) => LockBody(s, b, stack, v, held, held', choices, owners, inLoop);
    case For(Some(init), b) => LockFor(init, b, stack, v, held, held', choices, owners, inLoop);
    case Break => LockExit(s, LoopFrom(stack), None, stack, v, held, held', choices, owners, inLoop);
    case Continue => LockExit(s, LoopFrom(stack), None, stack, v, held, held', choices, owners, inLoop);
    case Return(keep, _) => LockExit(s, 0, keep, stack, v, held, held', choices, owners, inLoop);
    case Throw(keep, _) => LockExit(s, 0, keep, stack, v, held, held', choices, owners, inLoop);
  }

  lemma {:induction false} NoArcHere(s: Stmt, stack: seq<Scope>, v: View, owners: set<string>, inLoop: bool)
    requires FairStmt(s, stack, v, owners, inLoop)
    ensures !s.NoArc?
  {
  }

  lemma {:induction false} LockFlat(s: Stmt, stack: seq<Scope>, v: View, held: set<string>, held': set<string>,
                                    choices: seq<bool>, owners: set<string>, inLoop: bool)
    requires FairStmt(s, stack, v, owners, inLoop) && stack != [] && Together(stack, v, held, held')
    requires s.Plain? || s.Decl? || s.Assign?
    ensures Lockstep(ExecList(AnalyzeStmt(s, stack).0, held, choices), Exec(s, held', choices),
                     AnalyzeStmt(s, stack).1, LoopFrom(stack), Shown(s, v).names, v.aroundLoop)
  {
    hide AllVars, LoopFrom, AddVar, AddDeclared;
    FlatAfter(s, stack, v, owners, inLoop);
    ExecSingle(s, held, choices);
    if s.Decl? {
      assert s.name in NamesOf(s);
      assert s.name in NameSet(NamesOf(s));
    }
  }

  lemma {:induction false} LockRelease(x: string, stack: seq<Scope>, v: View, held: set<string>, held': set<string>,
                                       choices: seq<bool>, owners: set<string>, inLoop: bool)
    requires FairStmt(Release(x), stack, v, owners, inLoop) && stack != [] && Together(stack, v, held, held')
    ensures Lockstep(ExecList(AnalyzeStmt(Release(x), stack).0, held, choices), Exec(Release(x), held', choices),
                     AnalyzeStmt(Release(x), stack).1, LoopFrom(stack), v.names, v.aroundLoop)
  {
    hide AllVars, LoopFrom, DropVar;
    ExecSingle(Release(x), held, choices);
    DropFacts(stack, x);
  }

  lemma {:induction false} LockBody(s: Stmt, b: seq<Stmt>, stack: seq<Scope>, v: View, held: set<string>,
                                    held': set<string>, choices: seq<bool>, owners: set<string>, inLoop: bool)
    requires FairStmt(s, stack, v, owners, inLoop) && HasBody(s, b) && stack != [] && Together(stack, v, held, held')
    requires SteadyStmt(s, held', choices)
    ensures Lockstep(ExecList(AnalyzeStmt(s, stack).0, held, choices), Exec(s, held', choices),
                     AnalyzeStmt(s, stack).1, LoopFrom(stack), Shown(s, v).names, v.aroundLoop)
    decreases |choices|, s, 0
  {
    hide FairStmt, FairScope, AnalyzeScope, AllVars, ExecList, LoopFrom, Lesser, Agree, ExecLoop, Steady, SteadyLoop;
    FairBody(s, b, stack, v, owners, inLoop);
    BodyAfter(s, b, stack, v, owners, inLoop);
    var loop := s.While? || s.For?;
    var st := AnalyzeScope(b, stack, loop).1;
    LesserVars(st, stack);
    OuterVars(st, stack, LoopFrom(stack));
    ExecSingle(AnalyzeStmt(s, stack).0[0], held, choices);
    AroundAgrees(s, stack, v, held, held', owners, inLoop);
    if loop {
      LockWholeLoop(b, stack, v, held, held', choices, owners);
    } else if s.Block? {
      LockScope(b, stack, v, false, held, held', choices, owners, inLoop);
    } else if choices != [] && choices[0] {
      LockScope(b, stack, v, false, held, held', choices[1..], owners, inLoop);
    }
  }

  lemma {:induction false} OuterVars(after: seq<Scope>, before: seq<Scope>, from: nat)
    requires Lesser(after, before) && from <= |before|
    ensures AllVars(after[..from]) <= AllVars(after) && AllVars(after[..from]) <= AllVars(before[..from])
  {
    hide AllVars;
    LesserSlice(after, before, 0, from);
    LesserVars(after[..from], before[..from]);
    AllVarsSplit(after, from);
  }

  /** Agreement on all names is agreement on those around the loop. */
  lemma {:induction false} AroundAgrees(s: Stmt, stack: seq<Scope>, v: View, held: set<string>, held': set<string>,
                                        owners: set<string>, inLoop: bool)
    requires FairStmt(s, stack, v, owners, inLoop) && Agree(held, held', v.names)
    ensures Agree(held, held', v.aroundLoop)
  {
  }

  lemma {:induction false} StartHeld(b: seq<Stmt>, stack: seq<Scope>, v: View, held: set<string>, held': set<string>,
                                     choices: seq<bool>, owners: set<string>)
    requires FairScope(b, stack, v, true, owners, true) && Together(stack, v, held, held')
    ensures AllVars(stack) <= held' && AllVars(stack) <= v.names
  {
    hide AllVars, LoopFrom, Tended, NoDuplicates, Names;
  }

  lemma {:induction false} LockBranches(t: seq<Stmt>, e: seq<Stmt>, stack: seq<Scope>, v: View, held: set<string>,
                                        held': set<string>, choices: seq<bool>, owners: set<string>, inLoop: bool)
    requires FairStmt(If(t, Else(e)), stack, v, owners, inLoop) && stack != [] && Together(stack, v, held, held')
    requires SteadyStmt(If(t, Else(e)), held', choices)
    ensures var s := If(t, Else(e));
            Lockstep(ExecList(AnalyzeStmt(s, stack).0, held, choices), Exec(s, held', choices),
                     AnalyzeStmt(s, stack).1, LoopFrom(stack), v.names, v.aroundLoop)
    decreases |choices|, If(t, Else(e)), 0
  {
    hide FairStmt, FairScope, AnalyzeScope, AllVars, ExecList, LoopFrom, Lesser, Agree, Steady;
    FairBranches(t, e, stack, v, owners, inLoop);
    var st1 := AnalyzeScope(t, stack, false).1;
    var st2 := AnalyzeScope(e, st1, false).1;
    ScopeAfter(e, st1, v, false, owners, inLoop);
    LesserVars(st1, stack);
    LesserVars(st2, st1);
    OuterVars(st1, stack, LoopFrom(stack));
    OuterVars(st2, st1, LoopFrom(stack));
    ExecSingle(AnalyzeStmt(If(t, Else(e)), stack).0[0], held, choices);
    if choices != [] {
      if choices[0] {
        LockScope(t, stack, v, false, held, held', choices[1..], owners, inLoop);
      } else {
        LockScope(e, st1, v, false, held, held', choices[1..], owners, inLoop);
      }
    }
  }

  lemma {:induction false} LockFor(init: (string, bool), b: seq<Stmt>, stack: seq<Scope>, v: View, held: set<string>,
                                   held': set<string>, choices: seq<bool>, owners: set<string>, inLoop: bool)
    requires FairStmt(For(Some(init), b), stack, v, owners, inLoop) && stack != [] && Together(stack, v, held, held')
    requires SteadyStmt(For(Some(init), b), held', choices)
    ensures var s := For(Some(init), b);
            Lockstep(ExecList(AnalyzeStmt(s, stack).0, held, choices), Exec(s, held', choices),
                     AnalyzeStmt(s, stack).1, LoopFrom(stack), Shown(s, v).names, v.aroundLoop)
    decreases |choices|, For(Some(init), b), 0
  {
    hide FairStmt, FairScope, AnalyzeScope, AllVars, ExecList, ExecLoop, LoopFrom, Lesser, Inside, SteadyLoop;
    FairFor(init, b, stack, v, owners, inLoop);
    var s, mid := For(Some(init), b), ForStackOf(init, stack);
    var now := ExecDecl(init.0, init.1, held, choices).held;
    var now' := ExecDecl(init.0, init.1, held', choices).held;
    ExecSingle(AnalyzeStmt(s, stack).0[0], held, choices);
    NewName(init.0, stack, v, owners, s, inLoop);
    assert Together(mid, Shown(s, v), now, now');
    LockWholeLoop(b, mid, Shown(s, v), now, now', choices, owners);
  }

  lemma {:induction false} NewName(x: string, stack: seq<Scope>, v: View, owners: set<string>, s: Stmt, inLoop: bool)
    requires FairStmt(s, stack, v, owners, inLoop) && x !in v.names
    ensures x !in AllVars(stack)
  {
  }

  lemma {:induction false} LockExit(s: Stmt, from: nat, keep: Option<string>, stack: seq<Scope>, v: View,
                                    held: set<string>, held': set<string>, choices: seq<bool>, owners: set<string>,
                                    inLoop: bool)
    requires FairStmt(s, stack, v, owners, inLoop) && stack != [] && Together(stack, v, held, held')
    requires Leaves(s, from, keep, stack, inLoop) && from <= |stack|
    ensures Lockstep(ExecList(AnalyzeStmt(s, stack).0, held, choices), Exec(s, held', choices),
                     AnalyzeStmt(s, stack).1, LoopFrom(stack), v.names, v.aroundLoop)
  {
    hide AllVars, LoopFrom, Collect, ReleasesOf, ExecList;
    AllVarsSplit(stack, from);
    CollectFacts(stack[from..]);
    assert stack[0..] == stack;
    ExecExit(Collect(stack[from..]), keep, s, held, choices);
    assert ClearFrom(stack, from)[..from] == stack[..from];
    if s.Break? || s.Continue? {
      assert AllVars(stack[..from]) <= held - AllVars(stack[from..]);
    }
  }

  // ---------------------------------------------------------------- the theorem

  const START: View := View({}, {}, {})

  /**
   Where the loops of a run find what they left outside, the rewritten body releases a variable that holds nothing
   exactly if the source does: the inserted releases add no bad one.
   */
  lemma {:induction false} BadOnlyByHand(body: seq<Stmt>, owners: set<string>, choices: seq<bool>)
    requires Tended(body, START, owners, false) && NoDuplicates(Names(body)) && Steady(body, {}, choices)
    ensures ExecList(Rewritten(body), {}, choices).bad <==> ExecList(body, {}, choices).bad
  {
    hide Tended, NoDuplicates, Names, Steady, AnalyzeScope, ExecList;
    assert FairScope(body, [], START, false, owners, false);
    LockScope(body, [], START, false, {}, {}, choices, owners, false);
  }

  /** The variables released by hand. */
  function Releases(ss: seq<Stmt>): set<string>
    decreases ss
  {
    if ss == [] then {} else ReleasesIn(ss[0]) + Releases(ss[1..])
  }

  function ReleasesIn(s: Stmt): set<string>
    decreases s
  {
    match s
    case Release(x) => {x}
    case Block(b) => Releases(b)
    case NoArc(b) => Releases(b)
    case If(t, NoElse) => Releases(t)
    case If(t, Else(e)) => Releases(t) + Releases(e)
    case While(b) => Releases(b)
    case For(_, b) => Releases(b)
    case _ => {}
  }

  /** No loop body releases a variable that is declared outside it below a `return` or `@throw`. */
  ghost predicate OwnReleases(ss: seq<Stmt>)
    decreases ss
  {
    ss != [] ==> OwnReleasesIn(ss[0]) && OwnReleases(ss[1..])
  }

  ghost predicate OwnReleasesIn(s: Stmt)
    decreases s
  {
    match s
    case Block(b) => OwnReleases(b)
    case If(t, NoElse) => OwnReleases(t)
    case If(t, Else(e)) => OwnReleases(t) && OwnReleases(e)
    case While(b) => Releases(b) <= NameSet(Names(b)) + ReleasedFirst(b) && OwnReleases(b)
    case For(_, b) => Releases(b) <= NameSet(Names(b)) + ReleasedFirst(b) && OwnReleases(b)
    case _ => true
  }

  /** What is neither declared nor released there stays held. */
  ghost predicate Kept(before: set<string>, after: set<string>, names: set<string>, owners: set<string>) {
    after <= owners && before - names <= after
  }

  lemma {:induction false} KeptThen(a: set<string>, b: set<string>, c: set<string>, m: set<string>, n: set<string>,
                                    owners: set<string>)
    requires Kept(a, b, m, owners) && Kept(b, c, n, owners)
    ensures Kept(a, c, m + n, owners)
  {
  }

  lemma {:induction false} SteadyKept(ss: seq<Stmt>, v: View, held: set<string>, choices: seq<bool>,
                                      owners: set<string>, inLoop: bool)
    requires Tended(ss, v, owners, inLoop) && OwnReleases(ss) && held <= owners
    ensures Steady(ss, held, choices)
    ensures Kept(held, ExecList(ss, held, choices).held, NameSet(Names(ss)) + Releases(ss), owners)
    decreases |choices|, ss, 0
  {
    hide TendedStmt, OwnReleasesIn, SteadyStmt, ReleasesIn, NamesOf, Kept;
    if ss == [] {
      assert ExecList(ss, held, choices).held == held;
      KeptSame(held, NameSet(Names(ss)) + Releases(ss), owners);
    } else {
      var r := Exec(ss[0], held, choices);
      NamesApart(NamesOf(ss[0]), Names(ss[1..]));
      var m, n := NameSet(NamesOf(ss[0])) + ReleasesIn(ss[0]), NameSet(Names(ss[1..])) + Releases(ss[1..]);
      assert m + n == NameSet(Names(ss)) + Releases(ss);
      SteadyKeptStmt(ss[0], v, held, choices, owners, inLoop);
      assert r.held <= owners by { KeptOwners(held, r.held, m, owners); }
      if r.out.Normal? {
        SteadyKept(ss[1..], Shown(ss[0], v), r.held, r.choices, owners, inLoop);
        KeptThen(held, r.held, ExecList(ss[1..], r.held, r.choices).held, m, n, owners);
      } else {
        KeptSame(r.held, n, owners);
        KeptThen(held, r.held, r.held, m, n, owners);
      }
    }
  }

  lemma {:induction false} KeptSame(held: set<string>, names: set<string>, owners: set<string>)
    requires held <= owners
    ensures Kept(held, held, names, owners)
  {
  }

  lemma {:induction false} KeptOwners(before: set<string>, after: set<string>, names: set<string>, owners: set<string>)
    requires Kept(before, after, names, owners)
    ensures after <= owners
  {
  }

  lemma {:induction false} SteadyKeptStmt(s: Stmt, v: View, held: set<string>, choices: seq<bool>,
                                          owners: set<string>, inLoop: bool)
    requires TendedStmt(s, v, owners, inLoop) && OwnReleasesIn(s) && held <= owners
    ensures SteadyStmt(s, held, choices)
    ensures Kept(held, Exec(s, held, choices).held, NameSet(NamesOf(s)) + ReleasesIn(s), owners)
    decreases |choices|, s, 0
  {
    hide Tended, OwnReleases, Steady, SteadyLoop, ExecList, ExecLoop, Names, Releases, ReleasedFirst;
    match s
    case Block(b) => SteadyKept(b, Within(v, false), held, choices, owners, inLoop);
    case If(t, e) =>
      if choices != [] && choices[0] {
        SteadyKept(t, Within(v, false), held, choices[1..], owners, inLoop);
      } else if choices != [] && e.Else? {
        SteadyKept(e.body, Within(v, false), held, choices[1..], owners, inLoop);
      }
      if e.Else? {
        NamesApart(Names(t), Names(e.body));
      }
    case While(b) => SteadyKeptLoop(b, v, held, held, choices, owners);
    case For(None, b) => SteadyKeptLoop(b, v, held, held, choices, owners);
    case For(Some(init), b) =>
      var now := ExecDecl(init.0, init.1, held, choices).held;
      NamesApart([init.0], Names(b));
      assert init.0 in [init.0];
      assert init.0 in NameSet([init.0]);
      SteadyKeptLoop(b, Shown(s, v), now, now, choices, owners);
    case Decl(x, _) => assert x in [x]; assert x in NameSet([x]);
    case _ =>
  }

  lemma {:induction false} SteadyKeptLoop(b: seq<Stmt>, v: View, entry: set<string>, held: set<string>,
                                          choices: seq<bool>, owners: set<string>)
    requires Tended(b, Within(v, true), owners, true) && OwnReleases(b)
    requires Releases(b) <= NameSet(Names(b)) + ReleasedFirst(b)
    requires held <= owners && entry - NameSet(Names(b)) - ReleasedFirst(b) <= held
    ensures SteadyLoop(b, entry, held, choices)
    ensures Kept(held, ExecLoop(b, held, choices).held, NameSet(Names(b)) + Releases(b), owners)
    decreases |choices|, b, 1
  {
    hide Tended, OwnReleases, Steady, ExecList, Names, Releases, ReleasedFirst, NameSet;
    if choices != [] && choices[0] {
      SteadyKept(b, Within(v, true), held, choices[1..], owners, true);
      var r := ExecList(b, held, choices[1..]);
      if r.out.Normal? || r.out.Continued? {
        SteadyKeptLoop(b, v, entry, r.held, r.choices, owners);
      }
    }
  }

  /**
   Where no loop body releases a variable declared outside it below a `return` or `@throw`, every execution of the
   rewritten body releases a variable that holds nothing exactly if the source does.
   */
  lemma {:induction false} BadOnlyByHandEverywhere(body: seq<Stmt>, owners: set<string>, choices: seq<bool>)
    requires Tended(body, START, owners, false) && NoDuplicates(Names(body)) && OwnReleases(body)
    ensures ExecList(Rewritten(body), {}, choices).bad <==> ExecList(body, {}, choices).bad
  {
    SteadyKept(body, START, {}, choices, owners, false);
    BadOnlyByHand(body, owners, choices);
  }

  // ---------------------------------------------------------------- forgotten, and a loop that is not steady

  /** Behind a hand-written release nothing that is inserted names the variable until it is acquired again. */
  lemma {:induction false} ReleasedIsForgotten(x: string, rest: seq<Stmt>, stack: seq<Scope>)
    requires stack != [] && !Touches(rest, x)
    ensures var out := AnalyzeList([Release(x)] + rest, stack).0;
            out != [] && out[0] == Release(x) && !Touches(out[1..], x)
  {
    hide Touches, TouchesStmt;
    var ss := [Release(x)] + rest;
    assert ss[1..] == rest;
    var st := DropVar(stack, x);
    DropFacts(stack, x);
    AllVarsMember(st, x);
    ForgottenList(rest, st, x);
    assert AnalyzeStmt(Release(x), stack) == ([Release(x)], st);
    assert ([Release(x)] + AnalyzeList(rest, st).0)[1..] == AnalyzeList(rest, st).0;
  }

  lemma {:induction false} OneAnalyzed(s: Stmt, stack: seq<Scope>)
    requires stack != []
    ensures AnalyzeList([s], stack) == AnalyzeStmt(s, stack)
  {
    var (out, st) := AnalyzeStmt(s, stack);
    assert [s][1..] == [] && AnalyzeList([], st) == ([], st);
    assert AnalyzeList([s], stack) == (out + [], st);
    assert out + [] == out;
  }

  lemma {:induction false} TwoAnalyzed(s: Stmt, t: Stmt, stack: seq<Scope>)
    requires stack != []
    ensures var first := AnalyzeStmt(s, stack);
            var second := AnalyzeStmt(t, first.1);
            AnalyzeList([s, t], stack) == (first.0 + second.0, second.1)
  {
    assert [s, t][1..] == [t];
    OneAnalyzed(t, AnalyzeStmt(s, stack).1);
  }

  lemma {:induction false} ExecTwo(s: Stmt, t: Stmt, held: set<string>, choices: seq<bool>)
    ensures var r := Exec(s, held, choices);
            ExecList([s, t], held, choices) == if r.out.Normal? then Then(r, Exec(t, r.held, r.choices)) else r
  {
    var r := Exec(s, held, choices);
    assert [s, t][1..] == [t];
    ExecSingle(t, r.held, r.choices);
  }

  /** A variable that owns what it is declared with, and the scope it is declared in. */
  lemma {:induction false} DeclaredFirst(x: string)
    ensures AnalyzeStmt(Decl(x, true), [Scope([], [], false)]) == ([Decl(x, true)], [Scope([x], [x], false)])
    ensures DropVar([Scope([x], [x], false)], x) == [Scope([], [x], false)]
  {
    var opening := [Scope([], [], false)];
    assert [] + [x] == [x] && [x][1..] == [];
    assert AddVar(opening, x) == [Scope([x], [], false)];
    assert AddDeclared([Scope([x], [], false)], x) == [Scope([x], [x], false)];
    assert Without([x], x) == [] + Without([], x);
  }

  /** An object released by hand in the scope that made it is released once. */
  lemma {:induction false} ReleasedOnce(x: string, choices: seq<bool>)
    ensures var body := [Decl(x, true), Release(x)];
            Rewritten(body) == body && ExecList(body, {}, choices) == Run(Normal, {}, false, false, choices)
  {
    var body := [Decl(x, true), Release(x)];
    DeclaredFirst(x);
    TwoAnalyzed(body[0], body[1], [Scope([], [], false)]);
    assert [] + [Scope([], [], false)] == [Scope([], [], false)];
    assert [body[0]] + [body[1]] == body && body[..2] + [] + body[2..] == body;
    ExecTwo(body[0], body[1], {}, choices);
    assert {} - {x} + {x} == {x} && {x} - {x} == {};
  }

  /** Overwritten with what it does not own, a variable is released all the same. */
  lemma {:induction false} OverwrittenThenReleased(x: string, choices: seq<bool>)
    ensures var body := [Decl(x, true), Assign(x, false)];
            && Rewritten(body) == [Decl(x, true), Assign(x, false), Release(x)]
            && ExecList(body, {}, choices) == Run(Normal, {}, false, true, choices)
            && ExecList(Rewritten(body), {}, choices).bad
  {
    var body := [Decl(x, true), Assign(x, false)];
    DeclaredFirst(x);
    TwoAnalyzed(body[0], body[1], [Scope([], [], false)]);
    assert [] + [Scope([], [], false)] == [Scope([], [], false)];
    assert [x][1..] == [] && ReleasesOf([x], None) == [] + [Release(x)];
    assert [body[0]] + [body[1]] == body && body[..2] + [Release(x)] + body[2..] == body + [Release(x)];
    assert body + [Release(x)] == [Decl(x, true), Assign(x, false), Release(x)];
    ExecTwo(body[0], body[1], {}, choices);
    assert {} - {x} + {x} == {x} && {x} - {x} == {};
    ExecConcat(body, [Release(x)], {}, choices);
    ExecSingle(Release(x), {}, choices);
  }

  /**
   A loop that may return first and releases x last. The release inserted in front of the return is bad in the
   second iteration, where the source has released x once.
   */
  lemma {:induction false} LoopReleasesAgain(x: string)
    ensures var exit := Return(None, None);
            var body := [Decl(x, true), While([If([exit], NoElse), Release(x)])];
            var choices := [true, false, true, true];
            && Rewritten(body) == [Decl(x, true), While([If([Release(x), exit], NoElse), Release(x)])]
            && !ExecList(body, {}, choices).bad && ExecList(Rewritten(body), {}, choices).bad
  {
    hide AnalyzeScope;
    var exit := Return(None, None);
    var choices := [true, false, true, true];
    LoopRewritten(x);
    assert {} - {x} + {x} == {x};
    ExecSingle(exit, {}, []);
    TwiceRound(x, [exit], choices);
    ExecTwo(Release(x), exit, {}, []);
    TwiceRound(x, [Release(x), exit], choices);
    ExecTwo(Decl(x, true), While([If([exit], NoElse), Release(x)]), {}, choices);
    ExecTwo(Decl(x, true), While([If([Release(x), exit], NoElse), Release(x)]), {}, choices);
  }

  /** The loop passes the branch by once, releases x, comes round and takes the branch. */
  lemma {:induction false} TwiceRound(x: string, branch: seq<Stmt>, choices: seq<bool>)
    requires choices == [true, false, true, true] && ExecList(branch, {}, []).out.Left?
    ensures ExecLoop([If(branch, NoElse), Release(x)], {x}, choices).bad == ExecList(branch, {}, []).bad
  {
    hide ExecList;
    var s := If(branch, NoElse);
    assert choices[1..] == [false, true, true] && [false, true, true][1..] == [true, true];
    ExecTwo(s, Release(x), {x}, choices[1..]);
    assert {x} - {x} == {};
    assert ExecList([s, Release(x)], {x}, choices[1..]) == Run(Normal, {}, false, false, [true, true]);
    assert [true, true][1..] == [true] && [true][1..] == [];
    ExecTwo(s, Release(x), {}, [true]);
    assert ExecList([s, Release(x)], {}, [true]) == ExecList(branch, {}, []);
  }

  lemma {:induction false} LoopRewritten(x: string)
    ensures var exit := Return(None, None);
            Rewritten([Decl(x, true), While([If([exit], NoElse), Release(x)])])
            == [Decl(x, true), While([If([Release(x), exit], NoElse), Release(x)])]
  {
    hide ReleasesOf, Collect, DropVar, AddVar, AddDeclared, ClearFrom;
    var exit := Return(None, None);
    var loop := While([If([exit], NoElse), Release(x)]);
    DeclaredFirst(x);
    RoundRewritten(x);
    TwoAnalyzed(Decl(x, true), loop, [Scope([], [], false)]);
    assert [] + [Scope([], [], false)] == [Scope([], [], false)];
    var out := [Decl(x, true), While([If([Release(x), exit], NoElse), Release(x)])];
    assert [out[0]] + [out[1]] == out;
    NothingLeft(out);
  }

  lemma {:induction false} NothingLeft(out: seq<Stmt>)
    ensures AtScopeEnd(out, []) == out
  {
    var pos := if out != [] && out[|out| - 1].Return? then |out| - 1 else |out|;
    assert out[..pos] + [] + out[pos..] == out;
  }

  lemma {:induction false} RoundRewritten(x: string)
    ensures var exit := Return(None, None);
            AnalyzeScope([If([exit], NoElse), Release(x)], [Scope([x], [x], false)], true)
            == ([If([Release(x), exit], NoElse), Release(x)], [Scope([], [x], false)])
  {
    hide ReleasesOf, Collect, AddVar, AddDeclared, ClearFrom;
    var exit := Return(None, None);
    var cleared, loop := Scope([], [x], false), Scope([], [], true);
    BranchRewritten(x);
    assert DropVar([cleared, loop], x) == [cleared, loop];
    var round := [If([Release(x), exit], NoElse), Release(x)];
    TwoAnalyzed(If([exit], NoElse), Release(x), [Scope([x], [x], false), loop]);
    assert [Scope([x], [x], false)] + [loop] == [Scope([x], [x], false), loop] && [cleared, loop][..1] == [cleared];
    assert [round[0]] + [round[1]] == round;
    NothingLeft(round);
  }

  lemma {:induction false} BranchRewritten(x: string)
    ensures var exit := Return(None, None);
            AnalyzeScope([exit], [Scope([x], [x], false), Scope([], [], true)], false)
            == ([Release(x), exit], [Scope([], [x], false), Scope([], [], true)])
  {
    var exit := Return(None, None);
    var outer, loop, branch := Scope([x], [x], false), Scope([], [], true), Scope([], [], false);
    assert [outer, loop] + [branch] == [outer, loop, branch];
    AllCollected(x, outer, loop, branch);
    var st := [Scope([], [x], false), loop, branch];
    assert ClearFrom([outer, loop, branch], 0) == st;
    OneAnalyzed(exit, [outer, loop, branch]);
    assert [Release(x)] + [exit] == [Release(x), exit] && st[..2] == [Scope([], [x], false), loop];
    NothingLeft([Release(x), exit]);
  }

  lemma {:induction false} AllCollected(x: string, outer: Scope, loop: Scope, branch: Scope)
    requires outer.vars == [x] && loop.vars == [] && branch.vars == []
    ensures ReleasesOf(Collect([outer, loop, branch]), None) == [Release(x)]
  {
    hide Collect;
    assert [] + [outer] == [outer] && [outer] + [loop] == [outer, loop];
    assert [outer, loop] + [branch] == [outer, loop, branch];
    CollectPush([], outer);
    CollectPush([outer], loop);
    CollectPush([outer, loop], branch);
    assert [x][1..] == [] && [] + [x] == [x];
    assert AddNew([], [x]) == [x];
    assert AddNew([x], []) == [x];
    assert ReleasesOf([x], None) == [] + [Release(x)];
  }

  lemma {:induction false} CollectPush(scopes: seq<Scope>, s: Scope)
    ensures Collect([]) == [] && Collect(scopes + [s]) == AddNew(Collect(scopes), s.vars)
  {
    assert (scopes + [s])[..|scopes|] == scopes;
  }
}
