/**
 What static ARC leaks (crates/arc/src/arc.rs:79-381), exactly, on bodies in which each owned local is acquired
 once: what is held at each point can then be read off the source, and some execution leaks if and only if some
 reachable exit or scope end leaves a held variable that it neither releases nor hands back.
 */
module ArcExact {
  import opened Wrappers
  import opened Arc
  import opened ArcForgets

  // ---------------------------------------------------------------- points of the source

  /**
   What is known at a point: the variables that hold an object, those that can be named, those of the innermost
   scope, and what was held when that scope and when the nearest loop's body was entered.
   */
  datatype Point = Point(held: set<string>, visible: set<string>, scope: set<string>, atScope: set<string>,
                         atLoop: set<string>)

  const START: Point := Point({}, {}, {}, {}, {})

  function Enter(p: Point, insideLoop: bool): Point {
    p.(scope := {}, atScope := p.held, atLoop := if insideLoop then p.held else p.atLoop)
  }

  function Acquire(p: Point, x: string, owned: bool): Point {
    if owned then p.(held := p.held + {x}) else p
  }

  function Declare(p: Point, x: string, owned: bool): Point {
    Acquire(p.(visible := p.visible + {x}, scope := p.scope + {x}), x, owned)
  }

  function Next(s: Stmt, p: Point): Point {
    match s
    case Decl(x, owned) => Declare(p, x, owned)
    case Assign(x, owned) => Acquire(p, x, owned)
    case For(Some(init), _) => Declare(p, init.0, init.1)
    case _ => p
  }

  function After(ss: seq<Stmt>, p: Point): Point {
    if ss == [] then p else After(ss[1..], Next(ss[0], p))
  }

  /**
   Each variable that ever owns an object is acquired once, in the scope that declares it: by its declaration or
   by one assignment after it. An exit hands back no such variable where it cannot be named.
   */
  predicate Once(ss: seq<Stmt>, p: Point, owners: set<string>)
    decreases ss
  {
    ss != [] ==> OnceStmt(ss[0], p, owners) && Once(ss[1..], Next(ss[0], p), owners)
  }

  predicate OnceStmt(s: Stmt, p: Point, owners: set<string>)
    decreases s
  {
    match s
    case Assign(x, owned) => owned ==> x in p.scope && x !in p.held
    case Block(b) => Once(b, Enter(p, false), owners)
    case NoArc(b) => Once(b, Enter(p, false), owners)
    case If(t, NoElse) => Once(t, Enter(p, false), owners)
    case If(t, Else(e)) => Once(t, Enter(p, false), owners) && Once(e, Enter(p, false), owners)
    case While(b) => Once(b, Enter(p, true), owners)
    case For(_, b) => Once(b, Enter(Next(s, p), true), owners)
    case Return(_, back) => back.Some? && back.value in owners ==> back.value in p.visible
    case Throw(_, back) => back.Some? && back.value in owners ==> back.value in p.visible
    case _ => true
  }

  function Optional(o: Option<string>): set<string> {
    if o.Some? then {o.value} else {}
  }

  /** What is held behind an exit although it should not be. */
  ghost function ExitLoses(s: Stmt, stack: seq<Scope>, p: Point): set<string> {
    match s
    case Break => p.held - AllVars(stack[LoopFrom(stack)..]) - p.atLoop
    case Continue => p.held - AllVars(stack[LoopFrom(stack)..]) - p.atLoop
    case Return(keep, back) => p.held - (AllVars(stack) - Optional(keep)) - Optional(back)
    case Throw(keep, back) => p.held - (AllVars(stack) - Optional(keep)) - Optional(back)
    case _ => {}
  }

  /** Some exit or scope end that can be reached leaves an acquired variable neither released nor handed back. */
  ghost predicate Leaky(ss: seq<Stmt>, stack: seq<Scope>, p: Point)
    requires stack != []
    decreases ss, 0
  {
    ss != [] &&
    (LeakyStmt(ss[0], stack, p)
     || (WayStmt(ss[0]).Some? && Leaky(ss[1..], AnalyzeStmt(ss[0], stack).1, Next(ss[0], p))))
  }

  ghost predicate LeakyScope(ss: seq<Stmt>, stack: seq<Scope>, p: Point, insideLoop: bool)
    decreases ss, 1
  {
    var inner, p' := stack + [Scope([], [], insideLoop)], Enter(p, insideLoop);
    || Leaky(ss, inner, p')
    || (Way(ss).Some? && After(ss, p').held - NameSet(AnalyzeList(ss, inner).1[|stack|].vars) - p.held != {})
  }

  ghost predicate LeakyStmt(s: Stmt, stack: seq<Scope>, p: Point)
    requires stack != []
    decreases s, 0
  {
    match s
    case Block(b) => LeakyScope(b, stack, p, false)
    case If(t, NoElse) => LeakyScope(t, stack, p, false)
    case If(t, Else(e)) => LeakyScope(t, stack, p, false) || LeakyScope(e, AnalyzeScope(t, stack, false).1, p, false)
    case While(b) => LeakyScope(b, stack, p, true)
    case For(None, b) => LeakyScope(b, stack, p, true)
    case For(Some(init), b) =>
      LeakyScope(b, if init.1 then AddVar(stack, init.0) else stack, Next(s, p), true)
    case _ => ExitLoses(s, stack, p) != {}
  }

  // ---------------------------------------------------------------- points and stacks

  /** The analysis lists only what is held, and around the nearest loop nothing that its body acquired. */
  ghost predicate Fits(p: Point, stack: seq<Scope>, owners: set<string>) {
    && AllVars(stack) <= p.held <= p.visible && p.held <= owners && p.atLoop <= p.held
    && AllVars(stack[LoopFrom(stack)..]) !! p.atLoop
  }

  ghost predicate FitsInside(p: Point, stack: seq<Scope>, owners: set<string>) {
    && stack != [] && Fits(p, stack, owners)
    && p.scope <= p.visible && p.atLoop <= p.atScope <= p.held && NameSet(stack[|stack| - 1].vars) !! p.atScope
  }

  lemma {:induction false} EnterFits(p: Point, stack: seq<Scope>, insideLoop: bool, owners: set<string>)
    requires Fits(p, stack, owners)
    ensures FitsInside(Enter(p, insideLoop), stack + [Scope([], [], insideLoop)], owners)
  {
    var last := Scope([], [], insideLoop);
    var inner := stack + [last];
    assert NameSet([]) == {};
    AllVarsPush(stack, last);
    assert inner[..|stack|] == stack;
    var from := if insideLoop then |stack| else LoopFrom(stack);
    assert LoopFrom(inner) == from;
    AllVarsPush(stack[from..], last);
    assert inner[from..] == stack[from..] + [last];
    assert stack[|stack|..] == [];
  }

  lemma {:induction false} WeakerFits(p: Point, before: seq<Scope>, after: seq<Scope>, owners: set<string>)
    requires Weaker(after, before) && Fits(p, before, owners)
    ensures Fits(p, after, owners)
    ensures FitsInside(p, before, owners) ==> FitsInside(p, after, owners)
  {
    hide AllVars, LoopFrom;
    WeakerVars(after, before);
    WeakerSlice(after, before, LoopFrom(before));
    WeakerVars(after[LoopFrom(before)..], before[LoopFrom(before)..]);
    if before != [] {
      assert ClearedOrSame(before[|before| - 1], after[|after| - 1]);
    }
  }

  /** The innermost scope replaced by `last`. */
  lemma {:induction false} TopReplaced(stack: seq<Scope>, last: Scope)
    requires stack != [] && last.insideLoop == stack[|stack| - 1].insideLoop
    ensures var (top, from) := (|stack| - 1, LoopFrom(stack));
            var after := stack[top := last];
            && LoopFrom(after) == from
            && AllVars(after) == AllVars(stack[..top]) + NameSet(last.vars)
            && AllVars(after[from..]) == AllVars(stack[from..top]) + NameSet(last.vars)
  {
    hide LoopFrom, AllVars;
    var (top, from) := (|stack| - 1, LoopFrom(stack));
    var after := stack[top := last];
    SameLoopFrom(stack, after);
    AllVarsPush(stack[..top], last);
    AllVarsPush(stack[from..top], last);
    assert after == stack[..top] + [last] && after[from..] == stack[from..top] + [last];
  }

  /** A new object in a variable, listed or not. */
  lemma {:induction false} AcquireFits(p: Point, stack: seq<Scope>, x: string, listed: bool, owners: set<string>)
    requires FitsInside(p, stack, owners) && x in owners && x in p.visible && x !in p.held
    ensures FitsInside(Acquire(p, x, true), if listed then AddVar(stack, x) else stack, owners)
  {
    hide LoopFrom, AllVars, NameSet;
    if listed {
      var top := |stack| - 1;
      var last := stack[top].(vars := stack[top].vars + [x]);
      NameSetPush(stack[top].vars, x);
      assert stack[top := stack[top]] == stack;
      TopReplaced(stack, stack[top]);
      TopReplaced(stack, last);
    }
  }

  lemma {:induction false} DeclaredFits(p: Point, stack: seq<Scope>, x: string, owners: set<string>)
    requires FitsInside(p, stack, owners)
    ensures FitsInside(p, AddDeclared(stack, x), owners)
  {
    hide LoopFrom, AllVars, NameSet;
    var top := |stack| - 1;
    assert stack[top := stack[top]] == stack;
    TopReplaced(stack, stack[top]);
    TopReplaced(stack, stack[top].(declared := stack[top].declared + [x]));
  }

  // ---------------------------------------------------------------- what the proofs go along

  ghost predicate SoundScope(ss: seq<Stmt>, stack: seq<Scope>, p: Point, insideLoop: bool, owners: set<string>,
                             inLoop: bool) {
    && Plausible(ss, owners, inLoop) && NoDuplicates(Names(ss)) && NameSet(Names(ss)) !! p.visible
    && Fits(p, stack, owners) && Once(ss, Enter(p, insideLoop), owners)
  }

  ghost predicate Sound(ss: seq<Stmt>, stack: seq<Scope>, p: Point, owners: set<string>, inLoop: bool) {
    && Plausible(ss, owners, inLoop) && NoDuplicates(Names(ss)) && NameSet(Names(ss)) !! p.visible
    && Ready(NameSet(Names(ss)), stack) && FitsInside(p, stack, owners) && Once(ss, p, owners)
  }

  ghost predicate SoundStmt(s: Stmt, stack: seq<Scope>, p: Point, owners: set<string>, inLoop: bool) {
    && PlausibleStmt(s, owners, inLoop) && NoDuplicates(NamesOf(s)) && NameSet(NamesOf(s)) !! p.visible
    && Ready(NameSet(NamesOf(s)), stack) && FitsInside(p, stack, owners) && OnceStmt(s, p, owners)
  }

  lemma {:induction false} SoundInside(ss: seq<Stmt>, stack: seq<Scope>, p: Point, insideLoop: bool,
                                       owners: set<string>, inLoop: bool)
    requires SoundScope(ss, stack, p, insideLoop, owners, inLoop)
    ensures Sound(ss, stack + [Scope([], [], insideLoop)], Enter(p, insideLoop), owners, inLoop)
  {
    hide Plausible, NoDuplicates, Names, Ready, Once, FitsInside, AllVars, AnalyzeScope;
    ScopeStack(ss, stack, insideLoop, owners, inLoop);
    EnterFits(p, stack, insideLoop, owners);
  }

  lemma {:induction false} SoundBody(s: Stmt, b: seq<Stmt>, stack: seq<Scope>, p: Point, owners: set<string>,
                                     inLoop: bool)
    requires SoundStmt(s, stack, p, owners, inLoop) && HasBody(s, b)
    ensures var loop := s.While? || s.For?; SoundScope(b, stack, p, loop, owners, inLoop || loop)
  {
    hide NoDuplicates, Names, Ready, Fits, Once, Plausible;
  }

  lemma {:induction false} SoundBranches(t: seq<Stmt>, e: seq<Stmt>, stack: seq<Scope>, p: Point, owners: set<string>,
                                         inLoop: bool)
    requires SoundStmt(If(t, Else(e)), stack, p, owners, inLoop)
    ensures SoundScope(t, stack, p, false, owners, inLoop)
    ensures SoundScope(e, AnalyzeScope(t, stack, false).1, p, false, owners, inLoop)
  {
    hide NoDuplicates, Names, AnalyzeScope, Weaker, Fits, Once, Plausible, AllVars;
    NamesApart(Names(t), Names(e));
    ReadySubset(NameSet(Names(t) + Names(e)), NameSet(Names(t)), stack);
    ScopeStack(t, stack, false, owners, inLoop);
    WeakerFits(p, stack, AnalyzeScope(t, stack, false).1, owners);
  }

  /** The scope of the loop body of a `for` with a declaration. */
  function ForScope(init: (string, bool), stack: seq<Scope>): seq<Scope>
    requires stack != []
  {
    if init.1 then AddVar(stack, init.0) else stack
  }

  lemma {:induction false} SoundFor(init: (string, bool), b: seq<Stmt>, stack: seq<Scope>, p: Point,
                                    owners: set<string>, inLoop: bool)
    requires SoundStmt(For(Some(init), b), stack, p, owners, inLoop)
    ensures init.0 !in p.visible && init.0 !in Names(b) && (init.1 ==> init.0 in owners)
    ensures SoundScope(b, ForScope(init, stack), Declare(p, init.0, init.1), true, owners, true)
    ensures FitsInside(Declare(p, init.0, init.1), ForScope(init, stack), owners)
  {
    hide NoDuplicates, Names, Once, Plausible, AllVars, Ready, AddVar, LoopFrom;
    NamesApart([init.0], Names(b));
    assert init.0 in [init.0];
    assert init.0 in NameSet([init.0]);
    var open := p.(visible := p.visible + {init.0}, scope := p.scope + {init.0});
    assert FitsInside(open, stack, owners);
    if init.1 {
      AcquireFits(open, stack, init.0, true, owners);
    }
  }

  /** One statement on: nothing that is still to be declared can be named yet. */
  lemma {:induction false} NextFits(s: Stmt, stack: seq<Scope>, p: Point, owners: set<string>, inLoop: bool)
    requires SoundStmt(s, stack, p, owners, inLoop)
    ensures FitsInside(Next(s, p), AnalyzeStmt(s, stack).1, owners)
    ensures Next(s, p).visible <= p.visible + NameSet(NamesOf(s)) && Next(s, p).held <= p.held + Next(s, p).scope
    ensures p.held <= Next(s, p).held && Next(s, p).atScope == p.atScope && Next(s, p).atLoop == p.atLoop
  {
    hide Ready, FitsInside, NoDuplicates, AnalyzeStmt, Once, Plausible, Names;
    match s
    case Decl(x, owned) => DeclFits(x, owned, stack, p, owners, inLoop);
    case Assign(x, owned) => AssignFits(x, owned, stack, p, owners, inLoop);
    case Block(b) => BodyFits(s, b, stack, p, owners, inLoop);
    case If(t, NoElse) => BodyFits(s, t, stack, p, owners, inLoop);
    case If(t, Else(e)) => BranchesFit(t, e, stack, p, owners, inLoop);
    case While(b) => BodyFits(s, b, stack, p, owners, inLoop);
    case For(None, b) => BodyFits(s, b, stack, p, owners, inLoop);
    case For(Some(init), b) => ForFits(init, b, stack, p, owners, inLoop);
    case Plain => PlainFits(stack, p, owners);
    case _ => ExitFits(s, stack, p, owners);
  }

  lemma {:induction false} PlainFits(stack: seq<Scope>, p: Point, owners: set<string>)
    requires FitsInside(p, stack, owners)
    ensures FitsInside(p, AnalyzeStmt(Plain, stack).1, owners)
  {
  }

  lemma {:induction false} ExitFits(s: Stmt, stack: seq<Scope>, p: Point, owners: set<string>)
    requires (s.Break? || s.Continue? || s.Return? || s.Throw?) && FitsInside(p, stack, owners)
    ensures FitsInside(p, AnalyzeStmt(s, stack).1, owners)
  {
    hide LoopFrom, Collect, ReleasesOf, AllVars, Weaker;
    var from := if s.Break? || s.Continue? then LoopFrom(stack) else 0;
    ClearFromFacts(stack, from);
    WeakerFits(p, stack, ClearFrom(stack, from), owners);
  }

  lemma {:induction false} DeclFits(x: string, owned: bool, stack: seq<Scope>, p: Point, owners: set<string>,
                                    inLoop: bool)
    requires SoundStmt(Decl(x, owned), stack, p, owners, inLoop)
    ensures x !in p.visible && x in NamesOf(Decl(x, owned))
    ensures FitsInside(Declare(p, x, owned), AnalyzeStmt(Decl(x, owned), stack).1, owners)
  {
    hide Ready, AllVars, LoopFrom, AddVar, AddDeclared;
    assert x in NameSet(NamesOf(Decl(x, owned)));
    var open := p.(visible := p.visible + {x}, scope := p.scope + {x});
    assert FitsInside(open, stack, owners);
    if owned {
      AcquireFits(open, stack, x, true, owners);
      DeclaredFits(Acquire(open, x, true), AddVar(stack, x), x, owners);
    } else {
      DeclaredFits(open, stack, x, owners);
    }
  }

  lemma {:induction false} AssignFits(x: string, owned: bool, stack: seq<Scope>, p: Point, owners: set<string>,
                                      inLoop: bool)
    requires SoundStmt(Assign(x, owned), stack, p, owners, inLoop)
    ensures FitsInside(Acquire(p, x, owned), AnalyzeStmt(Assign(x, owned), stack).1, owners)
  {
    hide Ready, AllVars, LoopFrom, AddVar;
    if owned {
      var top := stack[|stack| - 1];
      AcquireFits(p, stack, x, x in top.declared && x !in top.vars, owners);
    }
  }

  lemma {:induction false} BodyFits(s: Stmt, b: seq<Stmt>, stack: seq<Scope>, p: Point, owners: set<string>,
                                    inLoop: bool)
    requires SoundStmt(s, stack, p, owners, inLoop) && HasBody(s, b)
    ensures FitsInside(p, AnalyzeStmt(s, stack).1, owners)
  {
    hide Ready, AllVars, AnalyzeScope, FitsInside, Once, NoDuplicates, Weaker;
    var loop := s.While? || s.For?;
    SoundBody(s, b, stack, p, owners, inLoop);
    ScopeStack(b, stack, loop, owners, inLoop || loop);
    WeakerFits(p, stack, AnalyzeScope(b, stack, loop).1, owners);
  }

  lemma {:induction false} BranchesFit(t: seq<Stmt>, e: seq<Stmt>, stack: seq<Scope>, p: Point, owners: set<string>,
                                       inLoop: bool)
    requires SoundStmt(If(t, Else(e)), stack, p, owners, inLoop)
    ensures FitsInside(p, AnalyzeStmt(If(t, Else(e)), stack).1, owners)
  {
    hide Ready, AllVars, AnalyzeScope, FitsInside, Once, NoDuplicates, Weaker;
    SoundBranches(t, e, stack, p, owners, inLoop);
    ScopeStack(t, stack, false, owners, inLoop);
    var st := AnalyzeScope(t, stack, false).1;
    WeakerFits(p, stack, st, owners);
    ScopeStack(e, st, false, owners, inLoop);
    WeakerFits(p, st, AnalyzeScope(e, st, false).1, owners);
  }

  lemma {:induction false} ForFits(init: (string, bool), b: seq<Stmt>, stack: seq<Scope>, p: Point,
                                   owners: set<string>, inLoop: bool)
    requires var s := For(Some(init), b); SoundStmt(s, stack, p, owners, inLoop)
    ensures init.0 !in p.visible && init.0 in NamesOf(For(Some(init), b))
    ensures FitsInside(Declare(p, init.0, init.1), AnalyzeStmt(For(Some(init), b), stack).1, owners)
  {
    hide Ready, AllVars, AnalyzeScope, FitsInside, Once, NoDuplicates, Weaker, Names;
    SoundFor(init, b, stack, p, owners, inLoop);
    assert stack != [] by { ReadySubset(NameSet(NamesOf(For(Some(init), b))), {}, stack); }
    var mid := ForScope(init, stack);
    ScopeStack(b, mid, true, owners, true);
    WeakerFits(Declare(p, init.0, init.1), mid, AnalyzeScope(b, mid, true).1, owners);
  }

  lemma {:induction false} SoundSplit(ss: seq<Stmt>, stack: seq<Scope>, p: Point, owners: set<string>, inLoop: bool)
    requires ss != [] && Sound(ss, stack, p, owners, inLoop)
    ensures SoundStmt(ss[0], stack, p, owners, inLoop)
    ensures Sound(ss[1..], AnalyzeStmt(ss[0], stack).1, Next(ss[0], p), owners, inLoop)
    ensures NameSet(Names(ss)) == NameSet(NamesOf(ss[0])) + NameSet(Names(ss[1..]))
    ensures NameSet(NamesOf(ss[0])) !! NameSet(Names(ss[1..]))
  {
    hide Ready, FitsInside, NoDuplicates, AnalyzeStmt, NamesOf, PlausibleStmt, OnceStmt, Next;
    var n1, n2 := NameSet(NamesOf(ss[0])), NameSet(Names(ss[1..]));
    NamesApart(NamesOf(ss[0]), Names(ss[1..]));
    ReadySubset(n1 + n2, n1, stack);
    NextFits(ss[0], stack, p, owners, inLoop);
    StmtStack(ss[0], stack, owners, inLoop);
    EvolvedReady(stack, AnalyzeStmt(ss[0], stack).1, n1, n2);
  }

  /** What the whole list comes to. */
  lemma {:induction false} AfterFits(ss: seq<Stmt>, stack: seq<Scope>, p: Point, owners: set<string>, inLoop: bool)
    requires Sound(ss, stack, p, owners, inLoop)
    ensures var q := After(ss, p);
            && FitsInside(q, AnalyzeList(ss, stack).1, owners)
            && q.visible <= p.visible + NameSet(Names(ss))
            && q.held <= p.held + q.scope && q.scope <= p.scope + NameSet(Names(ss))
            && p.held <= q.held && p.scope <= q.scope && q.atScope == p.atScope && q.atLoop == p.atLoop
    decreases ss
  {
    hide FitsInside, AnalyzeStmt, Sound, NamesOf;
    if ss == [] {
      SoundFits(ss, stack, p, owners, inLoop);
    } else {
      SoundSplit(ss, stack, p, owners, inLoop);
      NextFits(ss[0], stack, p, owners, inLoop);
      NextScope(ss[0], p);
      AfterFits(ss[1..], AnalyzeStmt(ss[0], stack).1, Next(ss[0], p), owners, inLoop);
    }
  }

  lemma {:induction false} SoundFits(ss: seq<Stmt>, stack: seq<Scope>, p: Point, owners: set<string>, inLoop: bool)
    requires Sound(ss, stack, p, owners, inLoop)
    ensures FitsInside(p, stack, owners)
  {
  }

  lemma {:induction false} NextScope(s: Stmt, p: Point)
    ensures p.scope <= Next(s, p).scope <= p.scope + NameSet(NamesOf(s))
  {
  }

  // ---------------------------------------------------------------- nothing leaks

  /** Nothing was lost, and what is held is what the source says. */
  ghost predicate Exact(r: Run, held: set<string>, atLoop: set<string>) {
    && !r.leaked
    && (r.out.Normal? ==> r.held == held)
    && (r.out.Broke? || r.out.Continued? ==> r.held == atLoop)
    && (r.out.Left? ==> r.held <= Optional(r.out.back))
  }

  /** Where nothing can leak, every execution holds at each point what the source says. */
  lemma {:induction false} HeldList(ss: seq<Stmt>, stack: seq<Scope>, p: Point, choices: seq<bool>,
                                    owners: set<string>, inLoop: bool)
    requires Sound(ss, stack, p, owners, inLoop) && !Leaky(ss, stack, p)
    ensures Exact(ExecList(AnalyzeList(ss, stack).0, p.held, choices), After(ss, p).held, p.atLoop)
    ensures ExecList(AnalyzeList(ss, stack).0, p.held, choices).out.Normal? ==> Way(ss).Some?
    decreases |choices|, ss, 0
  {
    hide Sound, SoundStmt, AnalyzeStmt, LeakyStmt, NamesOf, WayStmt, Next, AllVars;
    if ss != [] {
      SoundSplit(ss, stack, p, owners, inLoop);
      NextFits(ss[0], stack, p, owners, inLoop);
      var (o1, st1) := AnalyzeStmt(ss[0], stack);
      var r := ExecList(o1, p.held, choices);
      HeldStmt(ss[0], stack, p, choices, owners, inLoop);
      ExecConcat(o1, AnalyzeList(ss[1..], st1).0, p.held, choices);
      if r.out.Normal? {
        PassedHasWay(ss[0], stack, p.held, choices);
        HeldList(ss[1..], st1, Next(ss[0], p), r.choices, owners, inLoop);
      }
    }
  }

  lemma {:induction false} PassedHasWay(s: Stmt, stack: seq<Scope>, held: set<string>, choices: seq<bool>)
    requires stack != [] && ExecList(AnalyzeStmt(s, stack).0, held, choices).out.Normal?
    ensures WayStmt(s).Some?
  {
    hide AnalyzeStmt, ExecList, Exec, WayStmt;
    AnalyzedControlStmt(s, stack, held, held, choices);
    if WayStmt(s).None? {
      NoWayNoEndStmt(s, held, choices);
    }
  }

  lemma {:induction false} HeldScope(ss: seq<Stmt>, stack: seq<Scope>, p: Point, insideLoop: bool, choices: seq<bool>,
                                     owners: set<string>, inLoop: bool)
    requires SoundScope(ss, stack, p, insideLoop, owners, inLoop) && !LeakyScope(ss, stack, p, insideLoop)
    ensures Exact(ExecList(AnalyzeScope(ss, stack, insideLoop).0, p.held, choices), p.held,
                  if insideLoop then p.held else p.atLoop)
    decreases |choices|, ss, 1
  {
    hide Sound, SoundScope, AllVars, AnalyzeList, Leaky, After, ExecList, AtScopeEnd, ReleasesOf, Way, NameSet,
    LoopFrom;
    var inner, p' := stack + [Scope([], [], insideLoop)], Enter(p, insideLoop);
    SoundInside(ss, stack, p, insideLoop, owners, inLoop);
    HeldList(ss, inner, p', choices, owners, inLoop);
    ExecScopeEnd(ss, inner, p.held, choices);
    AfterFits(ss, inner, p', owners, inLoop);
    SoundTop(ss, inner, p', owners, inLoop);
    var (out, st) := AnalyzeList(ss, inner);
    var r := ExecList(out, p.held, choices);
    if r.out.Normal? {
      AllVarsPush(st[..|stack|], st[|stack|]);
      assert st == st[..|stack|] + [st[|stack|]];
      ExecReleases(st[|stack|].vars, None, r.held, r.choices);
    }
  }

  lemma {:induction false} SoundTop(ss: seq<Stmt>, stack: seq<Scope>, p: Point, owners: set<string>, inLoop: bool)
    requires Sound(ss, stack, p, owners, inLoop)
    ensures NoDuplicates(AnalyzeList(ss, stack).1[|stack| - 1].vars)
  {
    hide Ready, FitsInside, AnalyzeList, Once, Plausible;
    ListStack(ss, stack, owners, inLoop);
  }

  lemma {:induction false} HeldLoop(ss: seq<Stmt>, stack: seq<Scope>, p: Point, choices: seq<bool>,
                                    owners: set<string>)
    requires SoundScope(ss, stack, p, true, owners, true) && !LeakyScope(ss, stack, p, true)
    ensures Exact(ExecLoop(AnalyzeScope(ss, stack, true).0, p.held, choices), p.held, {})
    decreases |choices|, ss, 2
  {
    hide SoundScope, LeakyScope, AnalyzeScope, ExecList;
    if choices != [] && choices[0] {
      HeldScope(ss, stack, p, true, choices[1..], owners, true);
      var r := ExecList(AnalyzeScope(ss, stack, true).0, p.held, choices[1..]);
      if r.out.Normal? || r.out.Continued? {
        HeldLoop(ss, stack, p, r.choices, owners);
      }
    }
  }

  lemma {:induction false} HeldStmt(s: Stmt, stack: seq<Scope>, p: Point, choices: seq<bool>, owners: set<string>,
                                    inLoop: bool)
    requires SoundStmt(s, stack, p, owners, inLoop) && stack != [] && !LeakyStmt(s, stack, p)
    ensures Exact(ExecList(AnalyzeStmt(s, stack).0, p.held, choices), Next(s, p).held, p.atLoop)
    decreases |choices|, s, 1
  {
    hide AnalyzeStmt, ExecList, Exec, Exact, LeakyScope, AllVars, Collect, LoopFrom, Way, FitsInside, Ready, Once,
    NoDuplicates, Plausible, Names;
    match s
    case Plain => HeldFlat(s, stack, p, choices, owners, inLoop);
    case Decl(_, _) => HeldFlat(s, stack, p, choices, owners, inLoop);
    case Assign(_, _) => HeldFlat(s, stack, p, choices, owners, inLoop);
    case Block(b) => HeldBody(s, b, stack, p, choices, owners, inLoop);
    case If(t, NoElse) => HeldBody(s, t, stack, p, choices, owners, inLoop);
    case If(t, Else(e)) => HeldBranches(t, e, stack, p, choices, owners, inLoop);
    case While(b) => HeldBody(s, b, stack, p, choices, owners, inLoop);
    case For(None, b) => HeldBody(s, b, stack, p, choices, owners, inLoop);
    case For(Some(init), b) => HeldFor(init, b, stack, p, choices, owners, inLoop);
    case _ => HeldExit(s, stack, p, choices, owners, inLoop);
  }

  lemma {:induction false} HeldFlat(s: Stmt, stack: seq<Scope>, p: Point, choices: seq<bool>, owners: set<string>,
                                    inLoop: bool)
    requires SoundStmt(s, stack, p, owners, inLoop) && stack != [] && (s.Plain? || s.Decl? || s.Assign?)
    ensures Exact(ExecList(AnalyzeStmt(s, stack).0, p.held, choices), Next(s, p).held, p.atLoop)
  {
    hide AllVars, LoopFrom, Ready, AddVar, AddDeclared;
    ExecSingle(s, p.held, choices);
    if s.Decl? {
      assert s.name in NamesOf(s);
      assert s.name in NameSet(NamesOf(s));
    }
  }

  lemma {:induction false} HeldBody(s: Stmt, b: seq<Stmt>, stack: seq<Scope>, p: Point, choices: seq<bool>,
                                    owners: set<string>, inLoop: bool)
    requires SoundStmt(s, stack, p, owners, inLoop) && HasBody(s, b) && stack != [] && !LeakyStmt(s, stack, p)
    ensures Exact(ExecList(AnalyzeStmt(s, stack).0, p.held, choices), p.held, p.atLoop)
    decreases |choices|, s, 0
  {
    hide SoundStmt, SoundScope, AnalyzeScope, LeakyScope, AllVars, ExecList;
    SoundBody(s, b, stack, p, owners, inLoop);
    ExecSingle(AnalyzeStmt(s, stack).0[0], p.held, choices);
    if s.While? || s.For? {
      HeldLoop(b, stack, p, choices, owners);
    } else if s.Block? {
      HeldScope(b, stack, p, false, choices, owners, inLoop);
    } else if choices != [] && choices[0] {
      HeldScope(b, stack, p, false, choices[1..], owners, inLoop);
    }
  }

  lemma {:induction false} HeldBranches(t: seq<Stmt>, e: seq<Stmt>, stack: seq<Scope>, p: Point, choices: seq<bool>,
                                        owners: set<string>, inLoop: bool)
    requires var s := If(t, Else(e));
             SoundStmt(s, stack, p, owners, inLoop) && stack != [] && !LeakyStmt(s, stack, p)
    ensures Exact(ExecList(AnalyzeStmt(If(t, Else(e)), stack).0, p.held, choices), p.held, p.atLoop)
    decreases |choices|, If(t, Else(e)), 0
  {
    hide SoundStmt, SoundScope, AnalyzeScope, LeakyScope, AllVars, ExecList;
    SoundBranches(t, e, stack, p, owners, inLoop);
    ExecSingle(AnalyzeStmt(If(t, Else(e)), stack).0[0], p.held, choices);
    if choices != [] {
      if choices[0] {
        HeldScope(t, stack, p, false, choices[1..], owners, inLoop);
      } else {
        HeldScope(e, AnalyzeScope(t, stack, false).1, p, false, choices[1..], owners, inLoop);
      }
    }
  }

  lemma {:induction false} HeldFor(init: (string, bool), b: seq<Stmt>, stack: seq<Scope>, p: Point,
                                   choices: seq<bool>, owners: set<string>, inLoop: bool)
    requires var s := For(Some(init), b);
             SoundStmt(s, stack, p, owners, inLoop) && stack != [] && !LeakyStmt(s, stack, p)
    ensures Exact(ExecList(AnalyzeStmt(For(Some(init), b), stack).0, p.held, choices),
                  Declare(p, init.0, init.1).held, p.atLoop)
    decreases |choices|, For(Some(init), b), 0
  {
    hide SoundScope, AnalyzeScope, LeakyScope, AllVars, ExecList, ExecLoop, AddVar, Ready, LoopFrom, Once, Names;
    SoundFor(init, b, stack, p, owners, inLoop);
    ExecSingle(AnalyzeStmt(For(Some(init), b), stack).0[0], p.held, choices);
    HeldLoop(b, ForScope(init, stack), Declare(p, init.0, init.1), choices, owners);
    assert ExecDecl(init.0, init.1, p.held, choices).held == Declare(p, init.0, init.1).held;
  }

  lemma {:induction false} NothingMore(a: set<string>, b: set<string>)
    requires a - b == {} && b <= a
    ensures a == b
  {
    forall x | x in a
      ensures x in b
    {
      assert x !in a - b;
    }
  }

  lemma {:induction false} HeldExit(s: Stmt, stack: seq<Scope>, p: Point, choices: seq<bool>, owners: set<string>,
                                    inLoop: bool)
    requires SoundStmt(s, stack, p, owners, inLoop) && (s.Break? || s.Continue? || s.Return? || s.Throw?)
    requires stack != [] && ExitLoses(s, stack, p) == {}
    ensures Exact(ExecList(AnalyzeStmt(s, stack).0, p.held, choices), p.held, p.atLoop)
  {
    hide AllVars, LoopFrom, Ready, Collect, ReleasesOf, ClearFrom;
    var from := if s.Break? || s.Continue? then LoopFrom(stack) else 0;
    var keep := if s.Return? || s.Throw? then s.keep else None;
    SafeExit(s, from, keep, stack, p.held, choices, owners, inLoop);
    assert stack[0..] == stack;
    var r := ExecList(AnalyzeStmt(s, stack).0, p.held, choices);
    assert r.held == p.held - (AllVars(stack[from..]) - Optional(keep));
    if s.Break? || s.Continue? {
      assert r.held == p.held - AllVars(stack[from..]);
      assert r.held - p.atLoop == ExitLoses(s, stack, p);
      assert AllVars(stack[from..]) !! p.atLoop;
      NothingMore(r.held, p.atLoop);
    } else {
      assert r.held <= Optional(s.back);
    }
  }

  // ---------------------------------------------------------------- an execution that ends

  /** Choices that end a list, without entering a loop, and how it ends: at the end where that can be reached. */
  function Finish(ss: seq<Stmt>): (seq<bool>, Outcome)
    decreases ss
  {
    if ss == [] then ([], Normal)
    else if WayStmt(ss[0]).Some? then
      var (rest, out) := Finish(ss[1..]);
      (WayStmt(ss[0]).value + rest, out)
    else FinishStmt(ss[0])
  }

  function FinishStmt(s: Stmt): (seq<bool>, Outcome)
    decreases s
  {
    match s
    case Block(b) => Finish(b)
    case NoArc(b) => Finish(b)
    case If(t, _) =>
      var (rest, out) := Finish(t);
      ([true] + rest, out)
    case Break => ([], Broke)
    case Continue => ([], Continued)
    case Return(_, back) => ([], Left(back))
    case Throw(_, back) => ([], Left(back))
    case _ => ([], Normal)
  }

  lemma {:induction false} FinishEnds(ss: seq<Stmt>, held: set<string>, more: seq<bool>)
    ensures var r := ExecList(ss, held, Finish(ss).0 + more); r.out == Finish(ss).1 && r.choices == more
    ensures Finish(ss).1 != OutOfChoices
    decreases ss, 0
  {
    hide WayStmt;
    if ss == [] {
      assert [] + more == more;
    } else if WayStmt(ss[0]).Some? {
      var (a, b) := (WayStmt(ss[0]).value, Finish(ss[1..]).0);
      assert Finish(ss).0 + more == a + (b + more);
      WayEndsStmt(ss[0], held, b + more);
      FinishEnds(ss[1..], Exec(ss[0], held, a + (b + more)).held, more);
    } else {
      FinishEndsStmt(ss[0], held, more);
    }
  }

  lemma {:induction false} FinishEndsStmt(s: Stmt, held: set<string>, more: seq<bool>)
    requires WayStmt(s).None?
    ensures var r := Exec(s, held, FinishStmt(s).0 + more); r.out == FinishStmt(s).1 && r.choices == more
    ensures FinishStmt(s).1 != OutOfChoices && FinishStmt(s).1 != Normal
    decreases s, 0
  {
    hide ExecList, Way, Finish;
    assert [] + more == more;
    match s
    case Block(b) => FinishBody(b, held, more);
    case NoArc(b) => FinishBody(b, held, more);
    case If(t, e) =>
      assert ([true] + Finish(t).0 + more)[1..] == Finish(t).0 + more;
      FinishBody(t, held, more);
    case _ =>
  }

  lemma {:induction false} FinishBody(b: seq<Stmt>, held: set<string>, more: seq<bool>)
    requires Way(b).None?
    ensures var r := ExecList(b, held, Finish(b).0 + more); r.out == Finish(b).1 && r.choices == more
    ensures Finish(b).1 != OutOfChoices && Finish(b).1 != Normal
    decreases b, 1
  {
    FinishEnds(b, held, more);
    NoWayNoEnd(b, held, Finish(b).0 + more);
  }

  /** What ends a list hands back nothing that can no longer be named. */
  lemma {:induction false} FinishNamed(ss: seq<Stmt>, p: Point, owners: set<string>, x: string)
    requires Once(ss, p, owners) && x in owners && x !in p.visible && x !in Names(ss)
    ensures Finish(ss).1 != Left(Some(x))
    decreases ss, 0
  {
    hide WayStmt, OnceStmt, NamesOf, FinishStmt;
    if ss != [] {
      NamesApart(NamesOf(ss[0]), Names(ss[1..]));
      if WayStmt(ss[0]).Some? {
        NextVisible(ss[0], p, x);
        FinishNamed(ss[1..], Next(ss[0], p), owners, x);
      } else {
        FinishNamedStmt(ss[0], p, owners, x);
      }
    }
  }

  lemma {:induction false} NextVisible(s: Stmt, p: Point, x: string)
    requires x !in NamesOf(s)
    ensures x in Next(s, p).visible <==> x in p.visible
    ensures x in Next(s, p).scope <==> x in p.scope
  {
  }

  lemma {:induction false} FinishNamedStmt(s: Stmt, p: Point, owners: set<string>, x: string)
    requires OnceStmt(s, p, owners) && x in owners && x !in p.visible && x !in NamesOf(s) && WayStmt(s).None?
    ensures FinishStmt(s).1 != Left(Some(x))
    decreases s, 0
  {
    match s
    case Block(b) => FinishNamed(b, Enter(p, false), owners, x);
    case If(t, e) => FinishNamed(t, Enter(p, false), owners, x);
    case NoArc(b) => FinishNamed(b, Enter(p, false), owners, x);
    case _ =>
  }

  // ---------------------------------------------------------------- what leaks

  /** A variable that is held, or cannot be assigned here, is not touched by what follows. */
  lemma {:induction false} OnceUntouched(ss: seq<Stmt>, p: Point, owners: set<string>, inLoop: bool, x: string)
    requires Plausible(ss, owners, inLoop) && Once(ss, p, owners) && x in owners && x !in Names(ss)
    requires x in p.held || x !in p.scope
    ensures !Touches(ss, x)
    decreases ss, 0
  {
    hide OnceStmt, NamesOf, TouchesStmt, PlausibleStmt;
    if ss != [] {
      NamesApart(NamesOf(ss[0]), Names(ss[1..]));
      OnceUntouchedStmt(ss[0], p, owners, inLoop, x);
      NextVisible(ss[0], p, x);
      NextHolds(ss[0], p);
      OnceUntouched(ss[1..], Next(ss[0], p), owners, inLoop, x);
    }
  }

  lemma {:induction false} NextHolds(s: Stmt, p: Point)
    ensures p.held <= Next(s, p).held
  {
  }

  lemma {:induction false} OnceUntouchedStmt(s: Stmt, p: Point, owners: set<string>, inLoop: bool, x: string)
    requires PlausibleStmt(s, owners, inLoop) && OnceStmt(s, p, owners) && x in owners && x !in NamesOf(s)
    requires x in p.held || x !in p.scope
    ensures !TouchesStmt(s, x)
    decreases s, 0
  {
    match s
    case Block(b) => OnceUntouched(b, Enter(p, false), owners, inLoop, x);
    case If(t, NoElse) => OnceUntouched(t, Enter(p, false), owners, inLoop, x);
    case If(t, Else(e)) =>
      NamesApart(Names(t), Names(e));
      OnceUntouched(t, Enter(p, false), owners, inLoop, x);
      OnceUntouched(e, Enter(p, false), owners, inLoop, x);
    case While(b) => OnceUntouched(b, Enter(p, true), owners, true, x);
    case For(None, b) => OnceUntouched(b, Enter(p, true), owners, true, x);
    case For(Some(init), b) =>
      assert init.0 == NamesOf(s)[0];
      NamesApart([init.0], Names(b));
      OnceUntouched(b, Enter(Next(s, p), true), owners, true, x);
    case Decl(y, _) => assert y in NamesOf(s);
    case _ =>
  }

  /** On the way past a statement, all that the source says is held is held. */
  lemma {:induction false} WayHoldsStmt(s: Stmt, stack: seq<Scope>, p: Point, owners: set<string>, inLoop: bool,
                                        held: set<string>, rest: seq<bool>)
    requires SoundStmt(s, stack, p, owners, inLoop) && stack != [] && WayStmt(s).Some? && p.held <= held <= owners
    ensures var r := ExecList(AnalyzeStmt(s, stack).0, held, WayStmt(s).value + rest);
            r.out == Normal && r.choices == rest && Next(s, p).held <= r.held <= owners
  {
    hide AnalyzeStmt, ExecList, Exec, WayStmt, AllVars, LoopFrom, NoDuplicates, Ready, PlausibleStmt, OnceStmt, NamesOf,
    TouchesStmt, Next;
    var choices := WayStmt(s).value + rest;
    var r := ExecList(AnalyzeStmt(s, stack).0, held, choices);
    WayEndsStmt(s, held, rest);
    AnalyzedControlStmt(s, stack, held, held, choices);
    SafeStmt(s, stack, held, choices, owners, inLoop);
    forall x | x in p.held
      ensures x in r.held
    {
      assert x !in NameSet(NamesOf(s));
      OnceUntouchedStmt(s, p, owners, inLoop, x);
      WayPassesStmt(s, stack, x, held, rest);
    }
    Acquired(s, stack, p, held, rest);
  }

  /** What a statement acquires itself is held behind it. */
  lemma {:induction false} Acquired(s: Stmt, stack: seq<Scope>, p: Point, held: set<string>, rest: seq<bool>)
    requires stack != [] && WayStmt(s).Some?
    ensures Next(s, p).held <= p.held + ExecList(AnalyzeStmt(s, stack).0, held, WayStmt(s).value + rest).held
  {
    hide AnalyzeScope, AddVar, AddDeclared, ExecList;
    var choices := WayStmt(s).value + rest;
    if s.Decl? || s.Assign? || s.For? {
      ExecSingle(AnalyzeStmt(s, stack).0[0], held, choices);
    }
  }

  lemma {:induction false} WayHolds(ss: seq<Stmt>, stack: seq<Scope>, p: Point, owners: set<string>, inLoop: bool,
                                    held: set<string>, rest: seq<bool>)
    requires Sound(ss, stack, p, owners, inLoop) && Way(ss).Some? && stack != [] && p.held <= held <= owners
    ensures var r := ExecList(AnalyzeList(ss, stack).0, held, Way(ss).value + rest);
            r.out == Normal && r.choices == rest && After(ss, p).held <= r.held
    decreases ss
  {
    hide Sound, SoundStmt, AnalyzeStmt, WayStmt, Next, NamesOf;
    if ss == [] {
      assert [] + rest == rest;
    } else {
      var (a, b) := (WayStmt(ss[0]).value, Way(ss[1..]).value);
      assert Way(ss).value + rest == a + (b + rest);
      SoundSplit(ss, stack, p, owners, inLoop);
      WayHoldsStmt(ss[0], stack, p, owners, inLoop, held, b + rest);
      var (o1, st1) := AnalyzeStmt(ss[0], stack);
      var r := ExecList(o1, held, a + (b + rest));
      WayHolds(ss[1..], st1, Next(ss[0], p), owners, inLoop, r.held, rest);
      ExecConcat(o1, AnalyzeList(ss[1..], st1).0, held, a + (b + rest));
    }
  }

  /** Choices that end a piece of source in `out` and lose the object in `x`. */
  datatype Loss = Loss(choices: seq<bool>, x: string, out: Outcome)

  /** Started with all that is held there and whatever else, `code` ends so, with `x` still held. */
  ghost predicate Loses(code: seq<Stmt>, loss: Loss, low: set<string>, owners: set<string>) {
    forall held, more :: low <= held <= owners ==> LosesFrom(code, loss, held, more)
  }

  ghost predicate LosesFrom(code: seq<Stmt>, loss: Loss, held: set<string>, more: seq<bool>) {
    var r := ExecList(code, held, loss.choices + more);
    r.out == loss.out && r.choices == more && loss.x in r.held
  }

  /**
   Where the run ends, `x` can no longer be named, or is left behind by the exit. `names` are declared inside,
   `known` were held or could be assigned before.
   */
  ghost predicate Final(loss: Loss, known: set<string>, names: set<string>, atLoop: set<string>, owners: set<string>) {
    && loss.x in owners && loss.out != OutOfChoices
    && (loss.out.Normal? ==> loss.x in names)
    && (loss.out.Broke? || loss.out.Continued? ==> loss.x in known + names && loss.x !in atLoop)
    && (loss.out.Left? ==> loss.out.back != Some(loss.x))
  }

  lemma {:induction false} LoseList(ss: seq<Stmt>, stack: seq<Scope>, p: Point, owners: set<string>, inLoop: bool)
    returns (loss: Loss)
    requires Sound(ss, stack, p, owners, inLoop) && stack != [] && Leaky(ss, stack, p)
    ensures Loses(AnalyzeList(ss, stack).0, loss, p.held, owners)
    ensures Final(loss, p.held + p.scope, NameSet(Names(ss)), p.atLoop, owners)
    ensures loss.out.Normal? ==> loss.x !in After(ss, p).visible
    decreases ss, 0
  {
    hide Sound, SoundStmt, AnalyzeStmt, LeakyStmt, NamesOf, WayStmt, Next, Loses, Finish, AllVars;
    SoundSplit(ss, stack, p, owners, inLoop);
    NextFits(ss[0], stack, p, owners, inLoop);
    NextScope(ss[0], p);
    var rest, st1, q := ss[1..], AnalyzeStmt(ss[0], stack).1, Next(ss[0], p);
    if LeakyStmt(ss[0], stack, p) {
      var first := LoseStmt(ss[0], stack, p, owners, inLoop);
      if first.out.Normal? {
        loss := LostThenFinished(ss, stack, p, owners, inLoop, first);
      } else {
        loss := first;
        LosesAtOnce(ss, stack, p, owners, loss);
      }
    } else {
      var later := LoseList(rest, st1, q, owners, inLoop);
      loss := Loss(WayStmt(ss[0]).value + later.choices, later.x, later.out);
      LosesLater(ss, stack, p, owners, inLoop, later);
    }
  }

  lemma {:induction false} LosesAtOnce(ss: seq<Stmt>, stack: seq<Scope>, p: Point, owners: set<string>, loss: Loss)
    requires ss != [] && stack != [] && !loss.out.Normal? && Loses(AnalyzeStmt(ss[0], stack).0, loss, p.held, owners)
    ensures Loses(AnalyzeList(ss, stack).0, loss, p.held, owners)
  {
    hide AnalyzeStmt, ExecList;
    var (o1, st1) := AnalyzeStmt(ss[0], stack);
    forall held, more | p.held <= held <= owners
      ensures LosesFrom(AnalyzeList(ss, stack).0, loss, held, more)
    {
      assert LosesFrom(o1, loss, held, more);
      ExecConcat(o1, AnalyzeList(ss[1..], st1).0, held, loss.choices + more);
    }
  }

  lemma {:induction false} LosesLater(ss: seq<Stmt>, stack: seq<Scope>, p: Point, owners: set<string>, inLoop: bool,
                                      later: Loss)
    requires ss != [] && stack != [] && SoundStmt(ss[0], stack, p, owners, inLoop) && WayStmt(ss[0]).Some?
    requires Loses(AnalyzeList(ss[1..], AnalyzeStmt(ss[0], stack).1).0, later, Next(ss[0], p).held, owners)
    ensures Loses(AnalyzeList(ss, stack).0, later.(choices := WayStmt(ss[0]).value + later.choices), p.held, owners)
  {
    hide AnalyzeStmt, ExecList, WayStmt, Next, SoundStmt;
    var (o1, st1) := AnalyzeStmt(ss[0], stack);
    var way := WayStmt(ss[0]).value;
    var loss := later.(choices := way + later.choices);
    forall held, more | p.held <= held <= owners
      ensures LosesFrom(AnalyzeList(ss, stack).0, loss, held, more)
    {
      assert loss.choices + more == way + (later.choices + more);
      WayHoldsStmt(ss[0], stack, p, owners, inLoop, held, later.choices + more);
      var r := ExecList(o1, held, way + (later.choices + more));
      assert LosesFrom(AnalyzeList(ss[1..], st1).0, later, r.held, more);
      ExecConcat(o1, AnalyzeList(ss[1..], st1).0, held, way + (later.choices + more));
    }
  }

  /** The first statement loses a variable of an inner scope; what follows knows nothing of it and ends somehow. */
  lemma {:induction false} LostThenFinished(ss: seq<Stmt>, stack: seq<Scope>, p: Point, owners: set<string>,
                                            inLoop: bool, first: Loss) returns (loss: Loss)
    requires ss != [] && stack != [] && Sound(ss, stack, p, owners, inLoop) && first.out.Normal?
    requires Loses(AnalyzeStmt(ss[0], stack).0, first, p.held, owners)
    requires Final(first, p.held + p.scope, NameSet(NamesOf(ss[0])), p.atLoop, owners)
    requires first.x !in Next(ss[0], p).visible
    ensures Loses(AnalyzeList(ss, stack).0, loss, p.held, owners)
    ensures Final(loss, p.held + p.scope, NameSet(Names(ss)), p.atLoop, owners)
    ensures loss.out.Normal? ==> loss.x !in After(ss, p).visible
  {
    hide Sound, SoundStmt, AnalyzeStmt, NamesOf, Next, Finish, AllVars, ExecList, Touches, Plausible, Once, Names,
    Ready, LoopFrom;
    SoundSplit(ss, stack, p, owners, inLoop);
    NextFits(ss[0], stack, p, owners, inLoop);
    var (o1, st1) := AnalyzeStmt(ss[0], stack);
    var rest, q, x := ss[1..], Next(ss[0], p), first.x;
    var o2 := AnalyzeList(rest, st1).0;
    AfterFits(rest, st1, q, owners, inLoop);
    RestForgets(rest, st1, q, owners, inLoop, x);
    var (finish, out) := Finish(rest);
    loss := Loss(first.choices + finish, x, out);
    FinishEnds(rest, {}, []);
    forall held, more | p.held <= held <= owners
      ensures LosesFrom(AnalyzeList(ss, stack).0, loss, held, more)
    {
      assert loss.choices + more == first.choices + (finish + more);
      assert LosesFrom(o1, first, held, finish + more);
      var r := ExecList(o1, held, first.choices + (finish + more));
      ExecConcat(o1, o2, held, first.choices + (finish + more));
      FinishEnds(rest, r.held, more);
      AnalyzedControl(rest, st1, r.held, r.held, finish + more);
      UntouchedKept(o2, x, r.held, finish + more);
    }
  }

  lemma {:induction false} RestForgets(rest: seq<Stmt>, stack: seq<Scope>, q: Point, owners: set<string>, inLoop: bool,
                                       x: string)
    requires Sound(rest, stack, q, owners, inLoop) && stack != [] && x in owners
    requires x !in q.visible && x !in NameSet(Names(rest))
    ensures !Touches(AnalyzeList(rest, stack).0, x) && Finish(rest).1 != Left(Some(x))
  {
    hide Finish, AllVars, Touches, Plausible, Once, Names, Ready, AnalyzeList, LoopFrom;
    OnceUntouched(rest, q, owners, inLoop, x);
    FinishNamed(rest, q, owners, x);
    AllVarsMember(stack, x);
    ForgottenList(rest, stack, x);
  }

  lemma {:induction false} LoseScope(ss: seq<Stmt>, stack: seq<Scope>, p: Point, insideLoop: bool, owners: set<string>,
                                     inLoop: bool) returns (loss: Loss)
    requires SoundScope(ss, stack, p, insideLoop, owners, inLoop) && LeakyScope(ss, stack, p, insideLoop)
    ensures Loses(AnalyzeScope(ss, stack, insideLoop).0, loss, p.held, owners)
    ensures Final(loss, p.held, NameSet(Names(ss)), if insideLoop then p.held else p.atLoop, owners)
    decreases ss, 1
  {
    hide Sound, SoundScope, AllVars, AnalyzeList, Leaky, After, Loses, Way, NameSet, LoopFrom, Names;
    var inner, p' := stack + [Scope([], [], insideLoop)], Enter(p, insideLoop);
    SoundInside(ss, stack, p, insideLoop, owners, inLoop);
    AfterFits(ss, inner, p', owners, inLoop);
    var (out, st) := AnalyzeList(ss, inner);
    AllVarsPush(st[..|stack|], st[|stack|]);
    assert st == st[..|stack|] + [st[|stack|]];
    if Leaky(ss, inner, p') {
      loss := LoseList(ss, inner, p', owners, inLoop);
      LosesThroughEnd(ss, inner, p.held, owners, loss);
    } else {
      var lost := After(ss, p').held - NameSet(st[|stack|].vars) - p.held;
      var x :| x in lost;
      loss := Loss(Way(ss).value, x, Normal);
      LosesOnWay(ss, inner, p', owners, inLoop, x);
      LosesThroughEnd(ss, inner, p.held, owners, loss);
    }
  }

  /** The way to the end of a list holds what the source says there. */
  lemma {:induction false} LosesOnWay(ss: seq<Stmt>, stack: seq<Scope>, p: Point, owners: set<string>, inLoop: bool,
                                      x: string)
    requires Sound(ss, stack, p, owners, inLoop) && stack != [] && Way(ss).Some? && x in After(ss, p).held
    ensures Loses(AnalyzeList(ss, stack).0, Loss(Way(ss).value, x, Normal), p.held, owners)
  {
    hide Sound, AnalyzeList, Way, After, ExecList;
    var loss := Loss(Way(ss).value, x, Normal);
    forall held, more | p.held <= held <= owners
      ensures LosesFrom(AnalyzeList(ss, stack).0, loss, held, more)
    {
      WayHolds(ss, stack, p, owners, inLoop, held, more);
    }
  }

  /** The releases at the end of the scope are of other variables. */
  lemma {:induction false} LosesThroughEnd(ss: seq<Stmt>, stack: seq<Scope>, low: set<string>, owners: set<string>,
                                           loss: Loss)
    requires stack != [] && Loses(AnalyzeList(ss, stack).0, loss, low, owners)
    requires loss.out.Normal? ==> loss.x !in NameSet(AnalyzeList(ss, stack).1[|stack| - 1].vars)
    ensures var (out, st) := AnalyzeList(ss, stack);
            Loses(AtScopeEnd(out, st[|stack| - 1].vars), loss, low, owners)
  {
    hide AnalyzeList, ExecList, AtScopeEnd, ReleasesOf;
    var (out, st) := AnalyzeList(ss, stack);
    var vars := st[|stack| - 1].vars;
    forall held, more | low <= held <= owners
      ensures LosesFrom(AtScopeEnd(out, vars), loss, held, more)
    {
      assert LosesFrom(out, loss, held, more);
      ExecScopeEnd(ss, stack, held, loss.choices + more);
      if loss.out.Normal? {
        var r := ExecList(out, held, loss.choices + more);
        ReleasesPass(vars, loss.x, r.held, r.choices);
      }
    }
  }

  /** Once round the loop with the lost object, and out. */
  function Around(loss: Loss): Loss {
    var last := if loss.out.Normal? || loss.out.Continued? then [false] else [];
    Loss([true] + loss.choices + last, loss.x, if loss.out.Left? then loss.out else Normal)
  }

  lemma {:induction false} LosesAround(code: seq<Stmt>, loss: Loss, held: set<string>, more: seq<bool>)
    requires LosesFrom(code, loss, held, more) && LosesFrom(code, loss, held, [false] + more)
    requires loss.out != OutOfChoices
    ensures var (around, r) := (Around(loss), ExecLoop(code, held, Around(loss).choices + more));
            r.out == around.out && r.choices == more && around.x == loss.x && loss.x in r.held
  {
    hide ExecList;
    var choices := Around(loss).choices + more;
    if loss.out.Normal? || loss.out.Continued? {
      assert choices[1..] == loss.choices + ([false] + more);
      assert ([false] + more)[1..] == more;
      var r := ExecList(code, held, choices[1..]);
      assert ExecLoop(code, r.held, [false] + more) == Run(Normal, r.held, false, false, more);
    } else {
      assert choices[1..] == loss.choices + more;
    }
  }

  lemma {:induction false} LoseStmt(s: Stmt, stack: seq<Scope>, p: Point, owners: set<string>, inLoop: bool)
    returns (loss: Loss)
    requires SoundStmt(s, stack, p, owners, inLoop) && stack != [] && LeakyStmt(s, stack, p)
    ensures Loses(AnalyzeStmt(s, stack).0, loss, p.held, owners)
    ensures Final(loss, p.held + p.scope, NameSet(NamesOf(s)), p.atLoop, owners)
    ensures loss.out.Normal? ==> loss.x !in Next(s, p).visible
    decreases s, 1
  {
    hide AnalyzeStmt, LeakyScope, AllVars, LoopFrom, Way, FitsInside, Ready, Once, NoDuplicates, Plausible, Names,
    Loses, ExitLoses;
    match s
    case Block(b) => loss := LoseBody(s, b, stack, p, owners, inLoop);
    case If(t, NoElse) => loss := LoseBody(s, t, stack, p, owners, inLoop);
    case If(t, Else(e)) => loss := LoseBranches(t, e, stack, p, owners, inLoop);
    case While(b) => loss := LoseBody(s, b, stack, p, owners, inLoop);
    case For(None, b) => loss := LoseBody(s, b, stack, p, owners, inLoop);
    case For(Some(init), b) => loss := LoseFor(init, b, stack, p, owners, inLoop);
    case _ =>
      ExitOnly(s, stack, p);
      loss := LoseExit(s, stack, p, owners, inLoop);
  }

  lemma {:induction false} ExitOnly(s: Stmt, stack: seq<Scope>, p: Point)
    requires ExitLoses(s, stack, p) != {}
    ensures s.Break? || s.Continue? || s.Return? || s.Throw?
  {
  }

  lemma {:induction false} LoseBody(s: Stmt, b: seq<Stmt>, stack: seq<Scope>, p: Point, owners: set<string>,
                                    inLoop: bool) returns (loss: Loss)
    requires SoundStmt(s, stack, p, owners, inLoop) && HasBody(s, b) && stack != [] && LeakyStmt(s, stack, p)
    ensures Loses(AnalyzeStmt(s, stack).0, loss, p.held, owners)
    ensures Final(loss, p.held + p.scope, NameSet(Names(b)), p.atLoop, owners)
    ensures loss.out.Normal? ==> loss.x !in Next(s, p).visible
    decreases s, 0
  {
    hide SoundScope, AnalyzeScope, LeakyScope, AllVars, ExecList, LoopFrom, Ready, Once, NoDuplicates, Plausible, Names,
    ExecLoop, Loses, LosesFrom, Around;
    SoundBody(s, b, stack, p, owners, inLoop);
    var loop := s.While? || s.For?;
    var inner := LoseScope(b, stack, p, loop, owners, inLoop || loop);
    var code := AnalyzeScope(b, stack, loop).0;
    loss := if loop then Around(inner) else if s.If? then inner.(choices := [true] + inner.choices) else inner;
    LosesInside(AnalyzeStmt(s, stack).0[0], code, p.held, owners, inner, loss);
    if loop {
      AroundFinal(inner, p.held, NameSet(Names(b)), owners);
    }
  }

  /** From a body to the statement around it. */
  lemma {:induction false} LosesInside(s: Stmt, code: seq<Stmt>, low: set<string>, owners: set<string>, inner: Loss,
                                       loss: Loss)
    requires HasBody(s, code) && Loses(code, inner, low, owners) && inner.out != OutOfChoices
    requires loss == if s.While? || s.For? then Around(inner)
                     else if s.If? then inner.(choices := [true] + inner.choices) else inner
    ensures Loses([s], loss, low, owners)
  {
    hide ExecList, ExecLoop, Around;
    forall held, more | low <= held <= owners
      ensures LosesFrom([s], loss, held, more)
    {
      ExecSingle(s, held, loss.choices + more);
      assert LosesFrom(code, inner, held, more);
      if s.While? || s.For? {
        assert LosesFrom(code, inner, held, [false] + more);
        LosesAround(code, inner, held, more);
      } else if s.If? {
        assert (loss.choices + more)[1..] == inner.choices + more;
      }
    }
  }

  lemma {:induction false} LoseBranches(t: seq<Stmt>, e: seq<Stmt>, stack: seq<Scope>, p: Point, owners: set<string>,
                                        inLoop: bool) returns (loss: Loss)
    requires var s := If(t, Else(e)); SoundStmt(s, stack, p, owners, inLoop) && stack != [] && LeakyStmt(s, stack, p)
    ensures Loses(AnalyzeStmt(If(t, Else(e)), stack).0, loss, p.held, owners)
    ensures Final(loss, p.held + p.scope, NameSet(NamesOf(If(t, Else(e)))), p.atLoop, owners)
    ensures loss.out.Normal? ==> loss.x !in p.visible
    decreases If(t, Else(e)), 0
  {
    hide SoundScope, AnalyzeScope, LeakyScope, AllVars, ExecList, LoopFrom, Ready, Once, NoDuplicates, Plausible, Names;
    SoundBranches(t, e, stack, p, owners, inLoop);
    NamesApart(Names(t), Names(e));
    var (t', st) := AnalyzeScope(t, stack, false);
    var e' := AnalyzeScope(e, st, false).0;
    var first := LeakyScope(t, stack, p, false);
    var inner: Loss;
    if first {
      inner := LoseScope(t, stack, p, false, owners, inLoop);
    } else {
      inner := LoseScope(e, st, p, false, owners, inLoop);
    }
    loss := inner.(choices := [first] + inner.choices);
    forall held, more | p.held <= held <= owners
      ensures LosesFrom([If(t', Else(e'))], loss, held, more)
    {
      ExecSingle(If(t', Else(e')), held, loss.choices + more);
      assert LosesFrom(if first then t' else e', inner, held, more);
      assert (loss.choices + more)[1..] == inner.choices + more;
    }
  }

  lemma {:induction false} LoseFor(init: (string, bool), b: seq<Stmt>, stack: seq<Scope>, p: Point,
                                   owners: set<string>, inLoop: bool) returns (loss: Loss)
    requires var s := For(Some(init), b);
             SoundStmt(s, stack, p, owners, inLoop) && stack != [] && LeakyStmt(s, stack, p)
    ensures Loses(AnalyzeStmt(For(Some(init), b), stack).0, loss, p.held, owners)
    ensures Final(loss, p.held + p.scope, NameSet(NamesOf(For(Some(init), b))), p.atLoop, owners)
    ensures loss.out.Normal? ==> loss.x !in Declare(p, init.0, init.1).visible
    decreases For(Some(init), b), 0
  {
    hide SoundScope, AnalyzeScope, LeakyScope, AllVars, ExecList, LoopFrom, Ready, Once, NoDuplicates, Plausible, Names,
    ExecLoop, AddVar, Around;
    SoundFor(init, b, stack, p, owners, inLoop);
    NamesApart([init.0], Names(b));
    var p' := Declare(p, init.0, init.1);
    var b' := AnalyzeScope(b, ForScope(init, stack), true).0;
    var inner := LoseScope(b, ForScope(init, stack), p', true, owners, true);
    loss := Around(inner);
    forall held, more | p.held <= held <= owners
      ensures LosesFrom([For(Some(init), b')], loss, held, more)
    {
      ExecSingle(For(Some(init), b'), held, loss.choices + more);
      var held' := ExecDecl(init.0, init.1, held, loss.choices + more).held;
      assert LosesFrom(b', inner, held', more) && LosesFrom(b', inner, held', [false] + more);
      LosesAround(b', inner, held', more);
    }
    AroundFinal(inner, p'.held, NameSet(Names(b)), owners);
  }

  lemma {:induction false} AroundFinal(inner: Loss, held: set<string>, names: set<string>, owners: set<string>)
    requires Final(inner, held, names, held, owners)
    ensures Around(inner).x == inner.x && inner.x in owners && Around(inner).out != OutOfChoices
    ensures Around(inner).out.Normal? ==> inner.x in names
    ensures Around(inner).out.Normal? || Around(inner).out.Left?
    ensures Around(inner).out.Left? ==> Around(inner).out.back != Some(inner.x)
  {
  }

  lemma {:induction false} LoseExit(s: Stmt, stack: seq<Scope>, p: Point, owners: set<string>, inLoop: bool)
    returns (loss: Loss)
    requires SoundStmt(s, stack, p, owners, inLoop) && (s.Break? || s.Continue? || s.Return? || s.Throw?)
    requires stack != [] && ExitLoses(s, stack, p) != {}
    ensures Loses(AnalyzeStmt(s, stack).0, loss, p.held, owners)
    ensures Final(loss, p.held, {}, p.atLoop, owners) && !loss.out.Normal?
  {
    hide AllVars, LoopFrom, Ready, Collect, ReleasesOf, ClearFrom;
    var from := if s.Break? || s.Continue? then LoopFrom(stack) else 0;
    var keep := if s.Return? || s.Throw? then s.keep else None;
    var x :| x in ExitLoses(s, stack, p);
    loss := Loss([], x, Exec(s, {}, []).out);
    assert stack[0..] == stack;
    forall held, more | p.held <= held <= owners
      ensures LosesFrom(AnalyzeStmt(s, stack).0, loss, held, more)
    {
      assert [] + more == more;
      LosesByExit(s, from, keep, stack, held, more, owners, inLoop, x);
    }
  }

  lemma {:induction false} LosesByExit(s: Stmt, from: nat, keep: Option<string>, stack: seq<Scope>, held: set<string>,
                                       more: seq<bool>, owners: set<string>, inLoop: bool, x: string)
    requires stack != [] && AllVars(stack) <= held <= owners && from <= |stack|
    requires Leaves(s, from, keep, stack, inLoop) && x in held && x !in AllVars(stack[from..]) - Optional(keep)
    ensures var r := ExecList(ReleasesOf(Collect(stack[from..]), keep) + [s], held, more);
            r.out == Exec(s, {}, []).out && r.choices == more && x in r.held
  {
    hide ReleasesOf, ExecList, Collect;
    AllVarsSplit(stack, from);
    CollectFacts(stack[from..]);
    ExecExit(Collect(stack[from..]), keep, s, held, more);
  }

  // ---------------------------------------------------------------- the two together

  /** The execution is over, and an object was neither released nor handed back. */
  ghost predicate Leaks(r: Run) {
    r.out != OutOfChoices && (r.leaked || r.held - (if r.out.Left? then Optional(r.out.back) else {}) != {})
  }

  /** Some execution of the rewritten body is over and has leaked. */
  ghost predicate CanLeak(body: seq<Stmt>) {
    exists choices :: Leaks(ExecList(Rewritten(body), {}, choices))
  }

  /**
   Some execution of the rewritten body leaks if and only if some exit or scope end that can be reached leaves an
   acquired variable neither released nor handed back.
   */
  lemma {:induction false} LeaksIff(body: seq<Stmt>, owners: set<string>)
    requires Plausible(body, owners, false) && NoDuplicates(Names(body)) && Once(body, Enter(START, false), owners)
    ensures CanLeak(body) <==> LeakyScope(body, [], START, false)
  {
    hide Plausible, NoDuplicates, Once, Names, AnalyzeScope, Leaky;
    assert SoundScope(body, [], START, false, owners, false);
    if LeakyScope(body, [], START, false) {
      var loss := LoseScope(body, [], START, false, owners, false);
      assert LosesFrom(Rewritten(body), loss, {}, []);
      var r := ExecList(Rewritten(body), {}, loss.choices + []);
      assert loss.x in r.held - if r.out.Left? then Optional(r.out.back) else {};
      assert Leaks(r);
    } else {
      forall choices
        ensures !Leaks(ExecList(Rewritten(body), {}, choices))
      {
        HeldScope(body, [], START, false, choices, owners, false);
        SafeScope(body, [], false, {}, choices, owners, false);
      }
    }
  }
}
