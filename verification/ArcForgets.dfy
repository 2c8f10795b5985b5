/**
 What static ARC loses (crates/arc/src/arc.rs:135-381): an exit in a branch or loop body makes the analysis
 forget the variables around it, on the paths that do not take the exit as well.
 */
module ArcForgets {
  import opened Wrappers
  import opened Arc

  // ---------------------------------------------------------------- what an early exit forgets

  /** Some statement of the list declares, assigns or releases `x`. */
  predicate Touches(ss: seq<Stmt>, x: string)
    decreases ss
  {
    ss != [] && (TouchesStmt(ss[0], x) || Touches(ss[1..], x))
  }

  predicate TouchesStmt(s: Stmt, x: string)
    decreases s
  {
    match s
    case Decl(y, _) => y == x
    case Assign(y, _) => y == x
    case Release(y) => y == x
    case Block(b) => Touches(b, x)
    case NoArc(b) => Touches(b, x)
    case If(t, NoElse) => Touches(t, x)
    case If(t, Else(e)) => Touches(t, x) || Touches(e, x)
    case While(b) => Touches(b, x)
    case For(None, b) => Touches(b, x)
    case For(Some(init), b) => init.0 == x || Touches(b, x)
    case _ => false
  }

  lemma {:induction false} TouchesConcat(a: seq<Stmt>, b: seq<Stmt>, x: string)
    ensures Touches(a + b, x) <==> Touches(a, x) || Touches(b, x)
    decreases a
  {
    if a == [] {
      assert a + b == b;
    } else {
      assert (a + b)[1..] == a[1..] + b;
      TouchesConcat(a[1..], b, x);
    }
  }

  lemma {:induction false} UntouchedKept(ss: seq<Stmt>, x: string, held: set<string>, choices: seq<bool>)
    requires !Touches(ss, x) && x in held
    ensures x in ExecList(ss, held, choices).held
    decreases |choices|, ss, 0
  {
    if ss != [] {
      UntouchedKeptStmt(ss[0], x, held, choices);
      var r := Exec(ss[0], held, choices);
      if r.out.Normal? {
        UntouchedKept(ss[1..], x, r.held, r.choices);
      }
    }
  }

  lemma {:induction false} UntouchedKeptStmt(s: Stmt, x: string, held: set<string>, choices: seq<bool>)
    requires !TouchesStmt(s, x) && x in held
    ensures x in Exec(s, held, choices).held
    decreases |choices|, s, 0
  {
    match s
    case Block(b) => UntouchedKept(b, x, held, choices);
    case NoArc(b) => UntouchedKept(b, x, held, choices);
    case If(t, e) =>
      if choices != [] {
        if choices[0] {
          UntouchedKept(t, x, held, choices[1..]);
        } else if e.Else? {
          UntouchedKept(e.body, x, held, choices[1..]);
        }
      }
    case While(b) => UntouchedKeptLoop(b, x, held, choices);
    case For(None, b) => UntouchedKeptLoop(b, x, held, choices);
    case For(Some(init), b) => UntouchedKeptLoop(b, x, ExecDecl(init.0, init.1, held, choices).held, choices);
    case _ =>
  }

  lemma {:induction false} UntouchedKeptLoop(b: seq<Stmt>, x: string, held: set<string>, choices: seq<bool>)
    requires !Touches(b, x) && x in held
    ensures x in ExecLoop(b, held, choices).held
    decreases |choices|, b, 1
  {
    if choices != [] && choices[0] {
      UntouchedKept(b, x, held, choices[1..]);
      var r := ExecList(b, held, choices[1..]);
      if r.out.Normal? || r.out.Continued? {
        UntouchedKeptLoop(b, x, r.held, r.choices);
      }
    }
  }

  lemma {:induction false} ReleasesTouch(vars: seq<string>, keep: Option<string>, x: string)
    requires x !in vars
    ensures !Touches(ReleasesOf(vars, keep), x)
  {
    if vars != [] {
      ReleasesTouch(vars[1..], keep, x);
      TouchesConcat(ReleasesOf(vars[1..], keep), if keep == Some(vars[0]) then [] else [Release(vars[0])], x);
    }
  }

  ghost predicate Forgotten(stack: seq<Scope>, x: string) {
    forall i :: 0 <= i < |stack| ==> x !in stack[i].vars
  }

  lemma {:induction false} WithoutMember(vars: seq<string>, y: string, x: string)
    requires x !in vars
    ensures x !in Without(vars, y)
  {
    if vars != [] {
      WithoutMember(vars[1..], y, x);
    }
  }

  lemma {:induction false} ForgottenExit(stack: seq<Scope>, from: nat, keep: Option<string>, s: Stmt, x: string)
    requires from <= |stack| && Forgotten(stack, x) && !TouchesStmt(s, x)
    ensures !Touches(ReleasesOf(Collect(stack[from..]), keep) + [s], x)
  {
    var vars := Collect(stack[from..]);
    CollectFacts(stack[from..]);
    AllVarsMember(stack[from..], x);
    assert x !in NameSet(vars);
    ReleasesTouch(vars, keep, x);
    TouchesConcat(ReleasesOf(vars, keep), [s], x);
    assert Touches([s], x) <==> TouchesStmt(s, x) || Touches([], x);
  }

  /** A variable that no scope of the analysis lists is not released by anything that follows. */
  lemma {:induction false} ForgottenList(ss: seq<Stmt>, stack: seq<Scope>, x: string)
    requires stack != [] && Forgotten(stack, x) && !Touches(ss, x)
    ensures var (out, st) := AnalyzeList(ss, stack); !Touches(out, x) && Forgotten(st, x)
    decreases ss, 0
  {
    if ss != [] {
      ForgottenStmt(ss[0], stack, x);
      var (o1, st1) := AnalyzeStmt(ss[0], stack);
      ForgottenList(ss[1..], st1, x);
      TouchesConcat(o1, AnalyzeList(ss[1..], st1).0, x);
    }
  }

  lemma {:induction false} ForgottenScope(ss: seq<Stmt>, stack: seq<Scope>, insideLoop: bool, x: string)
    requires Forgotten(stack, x) && !Touches(ss, x)
    ensures var (out, st) := AnalyzeScope(ss, stack, insideLoop); !Touches(out, x) && Forgotten(st, x)
    decreases ss, 1
  {
    var inner := stack + [Scope([], [], insideLoop)];
    ForgottenList(ss, inner, x);
    var (out, st) := AnalyzeList(ss, inner);
    var vars := st[|stack|].vars;
    var pos := if out != [] && out[|out| - 1].Return? then |out| - 1 else |out|;
    ReleasesTouch(vars, None, x);
    assert out == out[..pos] + out[pos..];
    TouchesConcat(out[..pos], out[pos..], x);
    TouchesConcat(out[..pos], ReleasesOf(vars, None), x);
    TouchesConcat(out[..pos] + ReleasesOf(vars, None), out[pos..], x);
  }

  lemma {:induction false} ForgottenStmt(s: Stmt, stack: seq<Scope>, x: string)
    requires stack != [] && Forgotten(stack, x) && !TouchesStmt(s, x)
    ensures var (out, st) := AnalyzeStmt(s, stack); !Touches(out, x) && Forgotten(st, x)
    decreases s, 0
  {
    hide AnalyzeScope, LoopFrom, Collect, ReleasesOf;
    var (out, st) := AnalyzeStmt(s, stack);
    if out == [out[0]] {
      assert Touches(out, x) <==> TouchesStmt(out[0], x) || Touches([], x);
    }
    match s
    case Block(b) => ForgottenScope(b, stack, false, x);
    case If(t, NoElse) => ForgottenScope(t, stack, false, x);
    case If(t, Else(e)) =>
      ForgottenScope(t, stack, false, x);
      ForgottenScope(e, AnalyzeScope(t, stack, false).1, false, x);
    case While(b) => ForgottenScope(b, stack, true, x);
    case For(None, b) => ForgottenScope(b, stack, true, x);
    case For(Some(init), b) => ForgottenScope(b, if init.1 then AddVar(stack, init.0) else stack, true, x);
    case Break => ForgottenExit(stack, LoopFrom(stack), None, s, x);
    case Continue => ForgottenExit(stack, LoopFrom(stack), None, s, x);
    case Return(keep, _) => ForgottenReturn(s, keep, stack, x);
    case Throw(keep, _) => ForgottenReturn(s, keep, stack, x);
    case Release(y) => DroppedElsewhere(stack, y, x);
    case _ =>
  }

  lemma {:induction false} ForgottenReturn(s: Stmt, keep: Option<string>, stack: seq<Scope>, x: string)
    requires stack != [] && Forgotten(stack, x) && (s.Return? || s.Throw?) && s.keep == keep
    ensures var (out, st) := AnalyzeStmt(s, stack); !Touches(out, x) && Forgotten(st, x)
  {
    ForgottenExit(stack, 0, keep, s, x);
    assert stack[0..] == stack;
  }

  lemma {:induction false} DroppedElsewhere(stack: seq<Scope>, y: string, x: string)
    requires Forgotten(stack, x)
    ensures Forgotten(DropVar(stack, y), x)
  {
    forall i | 0 <= i < |stack|
      ensures x !in DropVar(stack, y)[i].vars
    {
      WithoutMember(stack[i].vars, y, x);
    }
  }

  /**
   Why `NothingLeaks` needs its condition: after `if (c) return v;` the analysis has forgotten every
   owned variable, so an execution that does not return there never releases any of them. (One that
   ends in `return x` hands `x` back and leaks only the others.)
   */
  lemma {:induction false} EarlyReturnForgets(keep: Option<string>, back: Option<string>, rest: seq<Stmt>,
                                              stack: seq<Scope>, x: string,
                           held: set<string>, choices: seq<bool>)
    requires stack != [] && x in held && !Touches(rest, x) && choices != [] && !choices[0]
    ensures var out := AnalyzeList([If([Return(keep, back)], NoElse)] + rest, stack).0;
            x in ExecList(out, held, choices).held
  {
    var s := If([Return(keep, back)], NoElse);
    var ss := [s] + rest;
    assert ss[1..] == rest;
    var (o1, st1) := AnalyzeStmt(s, stack);
    var inner := stack + [Scope([], [], false)];
    var ret := [Return(keep, back)];
    assert ret[1..] == [];
    var cleared := ClearFrom(inner, 0);
    assert AnalyzeStmt(ret[0], inner).1 == cleared;
    assert AnalyzeList([], cleared).1 == cleared;
    assert AnalyzeList(ret, inner).1 == cleared;
    assert st1 == AnalyzeScope(ret, stack, false).1 == ClearFrom(inner, 0)[..|stack|];
    assert forall i :: 0 <= i < |stack| ==> st1[i].vars == [];
    ForgottenList(rest, st1, x);
    var o2 := AnalyzeList(rest, st1).0;
    ExecConcat(o1, o2, held, choices);
    ExecSingle(o1[0], held, choices);
    UntouchedKept(o2, x, held, choices[1..]);
  }

  // ---------------------------------------------------------------- exits at any depth

  /**
   Some exit of the list, at any depth, clears scope `k`: a `return` or `@throw`, or a `break` or `continue`
   whose loop is not inside that scope. `depth` scopes are open, the nearest loop's is number `loop`.
   */
  predicate Clears(ss: seq<Stmt>, depth: nat, loop: nat, k: nat)
    decreases ss
  {
    ss != [] && (ClearsStmt(ss[0], depth, loop, k) || Clears(ss[1..], depth, loop, k))
  }

  predicate ClearsStmt(s: Stmt, depth: nat, loop: nat, k: nat)
    decreases s
  {
    match s
    case Block(b) => Clears(b, depth + 1, loop, k)
    case If(t, NoElse) => Clears(t, depth + 1, loop, k)
    case If(t, Else(e)) => Clears(t, depth + 1, loop, k) || Clears(e, depth + 1, loop, k)
    case While(b) => Clears(b, depth + 1, depth, k)
    case For(_, b) => Clears(b, depth + 1, depth, k)
    case Break => loop <= k
    case Continue => loop <= k
    case Return(_, _) => true
    case Throw(_, _) => true
    case _ => false
  }

  ghost predicate SameLoops(a: seq<Scope>, b: seq<Scope>) {
    |a| == |b| && forall i :: 0 <= i < |a| ==> a[i].insideLoop == b[i].insideLoop
  }

  lemma {:induction false} SameLoopFrom(a: seq<Scope>, b: seq<Scope>)
    requires SameLoops(a, b)
    ensures LoopFrom(a) == LoopFrom(b)
    decreases |a|
  {
    if a != [] {
      SameLoopFrom(a[..|a| - 1], b[..|b| - 1]);
    }
  }

  lemma {:induction false} LoopFromInner(stack: seq<Scope>, insideLoop: bool)
    requires stack != []
    ensures LoopFrom(stack + [Scope([], [], insideLoop)]) == if insideLoop then |stack| else LoopFrom(stack)
  {
    assert (stack + [Scope([], [], insideLoop)])[..|stack|] == stack;
  }

  /** How the analysis of something that does not touch `x` changes scope `k`. */
  ghost predicate Changed(before: seq<Scope>, after: seq<Scope>, k: nat, x: string, cleared: bool) {
    SameLoops(before, after) && k < |before| && (x in after[k].vars <==> x in before[k].vars && !cleared)
  }

  /** A scope goes on listing a variable exactly if no exit, at whatever depth, clears it. */
  lemma {:induction false} ForgetsIff(ss: seq<Stmt>, stack: seq<Scope>, k: nat, x: string)
    requires k < |stack| && !Touches(ss, x)
    ensures Changed(stack, AnalyzeList(ss, stack).1, k, x, Clears(ss, |stack|, LoopFrom(stack), k))
    decreases ss, 0
  {
    if ss != [] {
      ForgetsIffStmt(ss[0], stack, k, x);
      var st1 := AnalyzeStmt(ss[0], stack).1;
      SameLoopFrom(stack, st1);
      ForgetsIff(ss[1..], st1, k, x);
    }
  }

  lemma {:induction false} ForgetsIffScope(ss: seq<Stmt>, stack: seq<Scope>, insideLoop: bool, k: nat, x: string)
    requires k < |stack| && !Touches(ss, x)
    ensures Changed(stack, AnalyzeScope(ss, stack, insideLoop).1, k, x,
                    Clears(ss, |stack| + 1, if insideLoop then |stack| else LoopFrom(stack), k))
    decreases ss, 1
  {
    hide AnalyzeList, LoopFrom;
    LoopFromInner(stack, insideLoop);
    ForgetsIff(ss, stack + [Scope([], [], insideLoop)], k, x);
  }

  lemma {:induction false} ForgetsIffStmt(s: Stmt, stack: seq<Scope>, k: nat, x: string)
    requires k < |stack| && !TouchesStmt(s, x)
    ensures Changed(stack, AnalyzeStmt(s, stack).1, k, x, ClearsStmt(s, |stack|, LoopFrom(stack), k))
    decreases s, 1
  {
    hide AnalyzeScope, LoopFrom, Clears, AddVar;
    match s
    case Block(b) => ForgetsIffScope(b, stack, false, k, x);
    case NoArc(_) =>
    case If(t, NoElse) => ForgetsIffScope(t, stack, false, k, x);
    case If(t, Else(e)) => ForgetsIffElse(t, e, stack, k, x);
    case While(b) => ForgetsIffScope(b, stack, true, k, x);
    case For(None, b) => ForgetsIffScope(b, stack, true, k, x);
    case For(Some(init), b) => ForgetsIffFor(init, b, stack, k, x);
    case _ => ForgetsIffFlat(s, stack, k, x);
  }

  lemma {:induction false} ForgetsIffFlat(s: Stmt, stack: seq<Scope>, k: nat, x: string)
    requires !s.Block? && !s.NoArc? && !s.If? && !s.While? && !s.For?
    requires k < |stack| && !TouchesStmt(s, x)
    ensures Changed(stack, AnalyzeStmt(s, stack).1, k, x, ClearsStmt(s, |stack|, LoopFrom(stack), k))
  {
    hide LoopFrom, Collect, ReleasesOf;
    if s.Release? {
      WithoutOther(stack[k].vars, s.name, x);
    }
  }

  lemma {:induction false} ForgetsIffFor(init: (string, bool), b: seq<Stmt>, stack: seq<Scope>, k: nat, x: string)
    requires k < |stack| && !Touches(b, x) && init.0 != x
    ensures var s := For(Some(init), b);
            Changed(stack, AnalyzeStmt(s, stack).1, k, x, ClearsStmt(s, |stack|, LoopFrom(stack), k))
    decreases For(Some(init), b), 0
  {
    hide AnalyzeScope, LoopFrom, Clears;
    var mid := if init.1 then AddVar(stack, init.0) else stack;
    SameLoopFrom(stack, mid);
    ForgetsIffScope(b, mid, true, k, x);
  }

  lemma {:induction false} ForgetsIffElse(t: seq<Stmt>, e: seq<Stmt>, stack: seq<Scope>, k: nat, x: string)
    requires k < |stack| && !Touches(t, x) && !Touches(e, x)
    ensures var s := If(t, Else(e));
            Changed(stack, AnalyzeStmt(s, stack).1, k, x, ClearsStmt(s, |stack|, LoopFrom(stack), k))
    decreases If(t, Else(e)), 0
  {
    hide AnalyzeScope, LoopFrom, Clears;
    ForgetsIffScope(t, stack, false, k, x);
    var st := AnalyzeScope(t, stack, false).1;
    SameLoopFrom(stack, st);
    ForgetsIffScope(e, st, false, k, x);
  }

  lemma {:induction false} WithoutOther(vars: seq<string>, y: string, x: string)
    requires x != y
    ensures x in Without(vars, y) <==> x in vars
  {
    if vars != [] {
      WithoutOther(vars[1..], y, x);
    }
  }

  // ---------------------------------------------------------------- a way past them

  /** Choices that lead to the end of the list without entering a loop, if any choices do. */
  function Way(ss: seq<Stmt>): Option<seq<bool>>
    decreases ss
  {
    if ss == [] then Some([])
    else
      var (a, b) := (WayStmt(ss[0]), Way(ss[1..]));
      if a.Some? && b.Some? then Some(a.value + b.value) else None
  }

  function WayStmt(s: Stmt): Option<seq<bool>>
    decreases s
  {
    match s
    case Block(b) => Way(b)
    case NoArc(b) => Way(b)
    case If(_, NoElse) => Some([false])
    case If(t, Else(e)) =>
      if Way(t).Some? then Some([true] + Way(t).value)
      else if Way(e).Some? then Some([false] + Way(e).value)
      else None
    case While(_) => Some([false])
    case For(_, _) => Some([false])
    case Break => None
    case Continue => None
    case Return(_, _) => None
    case Throw(_, _) => None
    case _ => Some([])
  }

  /** The way is one: it is used up at the end of the list. */
  lemma {:induction false} WayEnds(ss: seq<Stmt>, held: set<string>, rest: seq<bool>)
    requires Way(ss).Some?
    ensures var r := ExecList(ss, held, Way(ss).value + rest); r.out == Normal && r.choices == rest
    decreases ss, 0
  {
    if ss == [] {
      assert [] + rest == rest;
    } else {
      var (a, b) := (WayStmt(ss[0]).value, Way(ss[1..]).value);
      assert Way(ss).value + rest == a + (b + rest);
      WayEndsStmt(ss[0], held, b + rest);
      WayEnds(ss[1..], Exec(ss[0], held, a + (b + rest)).held, rest);
    }
  }

  lemma {:induction false} WayEndsStmt(s: Stmt, held: set<string>, rest: seq<bool>)
    requires WayStmt(s).Some?
    ensures var r := Exec(s, held, WayStmt(s).value + rest); r.out == Normal && r.choices == rest
    decreases s, 0
  {
    hide ExecList, Way;
    var way := WayStmt(s).value;
    assert [] + rest == rest;
    match s
    case Block(b) => WayEnds(b, held, rest);
    case NoArc(b) => WayEnds(b, held, rest);
    case If(t, els) =>
      assert (way + rest)[1..] == way[1..] + rest;
      if els.Else? {
        if Way(t).Some? {
          WayEnds(t, held, rest);
        } else {
          WayEnds(els.body, held, rest);
        }
      }
    case While(b) => assert ([false] + rest)[1..] == rest;
    case For(init, b) => assert ([false] + rest)[1..] == rest;
    case _ =>
  }

  /** Without such a way no execution gets to the end of the list at all. */
  lemma {:induction false} NoWayNoEnd(ss: seq<Stmt>, held: set<string>, choices: seq<bool>)
    requires Way(ss).None?
    ensures !ExecList(ss, held, choices).out.Normal?
    decreases ss
  {
    if WayStmt(ss[0]).None? {
      NoWayNoEndStmt(ss[0], held, choices);
    } else {
      var r := Exec(ss[0], held, choices);
      NoWayNoEnd(ss[1..], r.held, r.choices);
    }
  }

  lemma {:induction false} NoWayNoEndStmt(s: Stmt, held: set<string>, choices: seq<bool>)
    requires WayStmt(s).None?
    ensures !Exec(s, held, choices).out.Normal?
    decreases s
  {
    match s
    case Block(b) => NoWayNoEnd(b, held, choices);
    case NoArc(b) => NoWayNoEnd(b, held, choices);
    case If(t, Else(e)) =>
      if choices != [] {
        NoWayNoEnd(t, held, choices[1..]);
        NoWayNoEnd(e, held, choices[1..]);
      }
    case _ =>
  }

  /** The run ends normally, used the choices up to `rest`, and left `x` held if it was. */
  ghost predicate Passes(r: Run, x: string, held: set<string>, rest: seq<bool>) {
    r.out.Normal? && r.choices == rest && (x in held ==> x in r.held)
  }

  lemma {:induction false} ReleasesPass(vars: seq<string>, x: string, held: set<string>, choices: seq<bool>)
    requires x !in vars
    ensures Passes(ExecList(ReleasesOf(vars, None), held, choices), x, held, choices)
    decreases vars
  {
    if vars != [] {
      ReleasesPass(vars[1..], x, held, choices);
      var r := ExecList(ReleasesOf(vars[1..], None), held, choices);
      ExecConcat(ReleasesOf(vars[1..], None), [Release(vars[0])], held, choices);
      ExecSingle(Release(vars[0]), r.held, r.choices);
    }
  }

  /** On the way, the rewritten list runs like the source: no release of another scope's variable is met. */
  lemma {:induction false} WayPasses(ss: seq<Stmt>, stack: seq<Scope>, x: string, held: set<string>, rest: seq<bool>)
    requires stack != [] && Way(ss).Some? && !Touches(ss, x)
    ensures Passes(ExecList(AnalyzeList(ss, stack).0, held, Way(ss).value + rest), x, held, rest)
    decreases ss, 0
  {
    hide AnalyzeStmt, WayStmt, TouchesStmt;
    if ss == [] {
      assert [] + rest == rest;
    } else {
      var (a, b) := (WayStmt(ss[0]).value, Way(ss[1..]).value);
      assert Way(ss).value + rest == a + (b + rest);
      WayPassesStmt(ss[0], stack, x, held, b + rest);
      var (o1, st1) := AnalyzeStmt(ss[0], stack);
      var o2 := AnalyzeList(ss[1..], st1).0;
      var r := ExecList(o1, held, a + (b + rest));
      WayPasses(ss[1..], st1, x, r.held, rest);
      ExecConcat(o1, o2, held, a + (b + rest));
    }
  }

  lemma {:induction false} WayPassesScope(ss: seq<Stmt>, stack: seq<Scope>, insideLoop: bool, x: string,
                                          held: set<string>,
                                          rest: seq<bool>)
    requires Way(ss).Some? && !Touches(ss, x)
    ensures Passes(ExecList(AnalyzeScope(ss, stack, insideLoop).0, held, Way(ss).value + rest), x, held, rest)
    decreases ss, 1
  {
    hide AnalyzeList, Way, Touches, AtScopeEnd, ReleasesOf, ExecList;
    var inner := stack + [Scope([], [], insideLoop)];
    WayPasses(ss, inner, x, held, rest);
    ForgetsIff(ss, inner, |stack|, x);
    ExecScopeEnd(ss, inner, held, Way(ss).value + rest);
    var (out, st) := AnalyzeList(ss, inner);
    var r := ExecList(out, held, Way(ss).value + rest);
    ReleasesPass(st[|stack|].vars, x, r.held, r.choices);
  }

  lemma {:induction false} WayPassesStmt(s: Stmt, stack: seq<Scope>, x: string, held: set<string>, rest: seq<bool>)
    requires stack != [] && WayStmt(s).Some? && !TouchesStmt(s, x)
    ensures Passes(ExecList(AnalyzeStmt(s, stack).0, held, WayStmt(s).value + rest), x, held, rest)
    decreases s, 1
  {
    hide AnalyzeScope, LoopFrom, Collect, ReleasesOf, Way, Touches, ExecList, AddVar, AddDeclared, DropVar;
    var way := WayStmt(s).value;
    var s' := AnalyzeStmt(s, stack).0[0];
    ExecSingle(s', held, way + rest);
    assert [] + rest == rest;
    match s
    case Block(b) => WayPassesScope(b, stack, false, x, held, rest);
    case NoArc(b) =>
      WayEnds(b, held, rest);
      if x in held {
        UntouchedKept(b, x, held, way + rest);
      }
    case If(t, NoElse) => assert ([false] + rest)[1..] == rest;
    case If(t, Else(e)) => WayPassesElse(t, e, stack, x, held, rest);
    case While(b) => assert ([false] + rest)[1..] == rest;
    case For(init, b) => assert ([false] + rest)[1..] == rest;
    case _ =>
  }

  lemma {:induction false} WayPassesElse(t: seq<Stmt>, e: seq<Stmt>, stack: seq<Scope>, x: string, held: set<string>,
                                         rest: seq<bool>)
    requires var s := If(t, Else(e)); stack != [] && WayStmt(s).Some? && !TouchesStmt(s, x)
    ensures var s := If(t, Else(e));
            Passes(Exec(AnalyzeStmt(s, stack).0[0], held, WayStmt(s).value + rest), x, held, rest)
    decreases If(t, Else(e)), 0
  {
    hide AnalyzeScope, Way, Touches, ExecList;
    var way := WayStmt(If(t, Else(e))).value;
    assert (way + rest)[1..] == way[1..] + rest;
    if Way(t).Some? {
      WayPassesScope(t, stack, false, x, held, rest);
    } else {
      WayPassesScope(e, AnalyzeScope(t, stack, false).1, false, x, held, rest);
    }
  }

  // ---------------------------------------------------------------- the leak

  /** Two runs took the same branches to the same end; what they hold may differ. */
  ghost predicate SameControl(r: Run, q: Run) {
    r.out == q.out && r.choices == q.choices
  }

  /** Control does not depend on what is held. */
  lemma {:induction false} HeldIrrelevant(ss: seq<Stmt>, held: set<string>, held': set<string>, choices: seq<bool>)
    ensures SameControl(ExecList(ss, held, choices), ExecList(ss, held', choices))
    decreases |choices|, ss, 0
  {
    if ss != [] {
      HeldIrrelevantStmt(ss[0], held, held', choices);
      var r, r' := Exec(ss[0], held, choices), Exec(ss[0], held', choices);
      if r.out.Normal? {
        HeldIrrelevant(ss[1..], r.held, r'.held, r.choices);
      }
    }
  }

  lemma {:induction false} HeldIrrelevantStmt(s: Stmt, held: set<string>, held': set<string>, choices: seq<bool>)
    ensures SameControl(Exec(s, held, choices), Exec(s, held', choices))
    decreases |choices|, s, 0
  {
    match s
    case Block(b) => HeldIrrelevant(b, held, held', choices);
    case NoArc(b) => HeldIrrelevant(b, held, held', choices);
    case If(t, e) =>
      if choices != [] {
        HeldIrrelevant(t, held, held', choices[1..]);
        if e.Else? {
          HeldIrrelevant(e.body, held, held', choices[1..]);
        }
      }
    case While(b) => HeldIrrelevantLoop(b, held, held', choices);
    case For(None, b) => HeldIrrelevantLoop(b, held, held', choices);
    case For(Some(init), b) =>
      HeldIrrelevantLoop(b, ExecDecl(init.0, init.1, held, choices).held, ExecDecl(init.0, init.1, held', choices).held,
                         choices);
    case _ =>
  }

  lemma {:induction false} HeldIrrelevantLoop(b: seq<Stmt>, held: set<string>, held': set<string>, choices: seq<bool>)
    ensures SameControl(ExecLoop(b, held, choices), ExecLoop(b, held', choices))
    decreases |choices|, b, 1
  {
    if choices != [] && choices[0] {
      HeldIrrelevant(b, held, held', choices[1..]);
      var r, r' := ExecList(b, held, choices[1..]), ExecList(b, held', choices[1..]);
      if r.out.Normal? || r.out.Continued? {
        HeldIrrelevantLoop(b, r.held, r'.held, r.choices);
      }
    }
  }

  lemma {:induction false} ReleasesFallThrough(vars: seq<string>, keep: Option<string>, held: set<string>,
                                               choices: seq<bool>)
    ensures var r := ExecList(ReleasesOf(vars, keep), held, choices); r.out == Normal && r.choices == choices
    decreases vars
  {
    if vars != [] {
      ReleasesFallThrough(vars[1..], keep, held, choices);
      var r := ExecList(ReleasesOf(vars[1..], keep), held, choices);
      if keep != Some(vars[0]) {
        ExecConcat(ReleasesOf(vars[1..], keep), [Release(vars[0])], held, choices);
        ExecSingle(Release(vars[0]), r.held, r.choices);
      } else {
        assert ReleasesOf(vars, keep) == ReleasesOf(vars[1..], keep);
      }
    }
  }

  /** The rewritten statements take the branches of the source and end as it ends, whatever they release. */
  lemma {:induction false} AnalyzedControl(ss: seq<Stmt>, stack: seq<Scope>, held: set<string>, held': set<string>,
                                           choices: seq<bool>)
    requires stack != []
    ensures SameControl(ExecList(AnalyzeList(ss, stack).0, held, choices), ExecList(ss, held', choices))
    decreases |choices|, ss, 0
  {
    hide AnalyzeStmt;
    if ss != [] {
      AnalyzedControlStmt(ss[0], stack, held, held', choices);
      var (o1, st1) := AnalyzeStmt(ss[0], stack);
      var r, r' := ExecList(o1, held, choices), Exec(ss[0], held', choices);
      ExecConcat(o1, AnalyzeList(ss[1..], st1).0, held, choices);
      if r.out.Normal? {
        AnalyzedControl(ss[1..], st1, r.held, r'.held, r.choices);
      }
    }
  }

  lemma {:induction false} AnalyzedControlScope(ss: seq<Stmt>, stack: seq<Scope>, insideLoop: bool, held: set<string>,
                                                held': set<string>, choices: seq<bool>)
    ensures SameControl(ExecList(AnalyzeScope(ss, stack, insideLoop).0, held, choices), ExecList(ss, held', choices))
    decreases |choices|, ss, 1
  {
    hide AnalyzeList, AtScopeEnd, ReleasesOf, ExecList;
    var inner := stack + [Scope([], [], insideLoop)];
    AnalyzedControl(ss, inner, held, held', choices);
    ExecScopeEnd(ss, inner, held, choices);
    var (out, st) := AnalyzeList(ss, inner);
    var r := ExecList(out, held, choices);
    ReleasesFallThrough(st[|stack|].vars, None, r.held, r.choices);
  }

  lemma {:induction false} AnalyzedControlLoop(ss: seq<Stmt>, stack: seq<Scope>, held: set<string>,
                                               held': set<string>, choices: seq<bool>)
    ensures SameControl(ExecLoop(AnalyzeScope(ss, stack, true).0, held, choices), ExecLoop(ss, held', choices))
    decreases |choices|, ss, 2
  {
    hide AnalyzeScope, ExecList;
    if choices != [] && choices[0] {
      AnalyzedControlScope(ss, stack, true, held, held', choices[1..]);
      var r := ExecList(AnalyzeScope(ss, stack, true).0, held, choices[1..]);
      var r' := ExecList(ss, held', choices[1..]);
      if r.out.Normal? || r.out.Continued? {
        AnalyzedControlLoop(ss, stack, r.held, r'.held, r.choices);
      }
    }
  }

  lemma {:induction false} AnalyzedControlStmt(s: Stmt, stack: seq<Scope>, held: set<string>, held': set<string>,
                                               choices: seq<bool>)
    requires stack != []
    ensures SameControl(ExecList(AnalyzeStmt(s, stack).0, held, choices), Exec(s, held', choices))
    decreases |choices|, s, 1
  {
    hide AnalyzeScope, LoopFrom, Collect, ReleasesOf, AddVar, AddDeclared, DropVar, ExecList, ExecLoop;
    var out := AnalyzeStmt(s, stack).0;
    if s.Break? || s.Continue? || s.Return? || s.Throw? {
      var from := if s.Break? || s.Continue? then LoopFrom(stack) else 0;
      var keep := if s.Return? || s.Throw? then s.keep else None;
      assert stack[0..] == stack;
      var releases := ReleasesOf(Collect(stack[from..]), keep);
      ReleasesFallThrough(Collect(stack[from..]), keep, held, choices);
      var r := ExecList(releases, held, choices);
      ExecConcat(releases, [s], held, choices);
      ExecSingle(s, r.held, r.choices);
    } else {
      ExecSingle(out[0], held, choices);
      match s
      case Block(b) => AnalyzedControlScope(b, stack, false, held, held', choices);
      case NoArc(b) => HeldIrrelevant(b, held, held', choices);
      case If(t, e) =>
        if choices != [] {
          AnalyzedControlScope(t, stack, false, held, held', choices[1..]);
          if e.Else? {
            AnalyzedControlScope(e.body, AnalyzeScope(t, stack, false).1, false, held, held', choices[1..]);
          }
        }
      case While(b) => AnalyzedControlLoop(b, stack, held, held', choices);
      case For(None, b) => AnalyzedControlLoop(b, stack, held, held', choices);
      case For(Some(init), b) =>
        AnalyzedControlLoop(b, if init.1 then AddVar(stack, init.0) else stack,
                            ExecDecl(init.0, init.1, held, choices).held,
                            ExecDecl(init.0, init.1, held', choices).held, choices);
      case _ =>
    }
  }

  /**
   Every scope that lists `x` is cleared by some exit of `s`, at any depth, and `s` can be passed without
   taking it; nothing touches `x` from then on. Then the list ends as what follows `s` does, with the object in `x`
   unreleased, whatever is chosen there: each choice that does not hand `x` back loses it.
   */
  lemma {:induction false} ForgottenLeaks(s: Stmt, rest: seq<Stmt>, stack: seq<Scope>, x: string, held: set<string>)
    returns (way: seq<bool>)
    requires stack != [] && x in held && WayStmt(s).Some?
    requires forall k :: 0 <= k < |stack| && x in stack[k].vars ==> ClearsStmt(s, |stack|, LoopFrom(stack), k)
    requires !TouchesStmt(s, x) && !Touches(rest, x)
    ensures way == WayStmt(s).value && Forgotten(AnalyzeList([s] + rest, stack).1, x)
    ensures forall more :: var r := ExecList(AnalyzeList([s] + rest, stack).0, held, way + more);
                           x in r.held && SameControl(r, ExecList(rest, {}, more))
  {
    hide AnalyzeStmt, WayStmt, TouchesStmt, Touches, ExecList, ClearsStmt;
    way := WayStmt(s).value;
    var (o1, st1) := AnalyzeStmt(s, stack);
    var o2 := AnalyzeList(rest, st1).0;
    assert ([s] + rest)[1..] == rest;
    assert Forgotten(st1, x) by {
      forall k | 0 <= k < |st1|
        ensures x !in st1[k].vars
      {
        ForgetsIffStmt(s, stack, k, x);
      }
    }
    ForgottenList(rest, st1, x);
    forall more
      ensures var r := ExecList(o1 + o2, held, way + more); x in r.held && SameControl(r, ExecList(rest, {}, more))
    {
      WayPassesStmt(s, stack, x, held, more);
      ExecConcat(o1, o2, held, way + more);
      var r := ExecList(o1, held, way + more);
      UntouchedKept(o2, x, r.held, r.choices);
      AnalyzedControl(rest, st1, r.held, {}, more);
    }
  }

  lemma {:induction false} AnalyzeConcat(a: seq<Stmt>, b: seq<Stmt>, stack: seq<Scope>)
    requires stack != []
    ensures var (o1, st1) := AnalyzeList(a, stack);
            var (o2, st2) := AnalyzeList(b, st1);
            AnalyzeList(a + b, stack) == (o1 + o2, st2)
    decreases a
  {
    hide AnalyzeStmt;
    if a == [] {
      assert a + b == b;
      assert [] + AnalyzeList(b, stack).0 == AnalyzeList(b, stack).0;
    } else {
      assert (a + b)[1..] == a[1..] + b;
      var (o, st) := AnalyzeStmt(a[0], stack);
      AnalyzeConcat(a[1..], b, st);
      var (o1, st1) := AnalyzeList(a[1..], st);
      assert o + (o1 + AnalyzeList(b, st1).0) == o + o1 + AnalyzeList(b, st1).0;
    }
  }

  /**
   A whole body: a local that is declared with an object it owns, and then any statement with an exit in a
   branch or loop body that can be passed. On the way past it the rewritten body never releases the object, and
   ends as the source does: unless it hands the object back, it leaks.
   */
  lemma {:induction false} EarlyExitLeaks(before: seq<Stmt>, x: string, s: Stmt, rest: seq<Stmt>)
    returns (way: seq<bool>)
    requires Way(before).Some? && WayStmt(s).Some? && ClearsStmt(s, 1, 0, 0)
    requires !Touches(before, x) && !TouchesStmt(s, x) && !Touches(rest, x)
    ensures way == Way(before).value + WayStmt(s).value
    ensures forall more :: var r := ExecList(Rewritten(before + ([Decl(x, true)] + ([s] + rest))), {}, way + more);
                           x in r.held && SameControl(r, ExecList(rest, {}, more))
  {
    hide Way, WayStmt, TouchesStmt, Touches, ExecList, ClearsStmt, AtScopeEnd, ReleasesOf, AnalyzeList;
    var decl, tail := Decl(x, true), [s] + rest;
    var body := before + ([decl] + tail);
    var st0 := [] + [Scope([], [], false)];
    var (o0, st1) := AnalyzeList(before, st0);
    var (o1, st2) := AnalyzeStmt(decl, st1);
    var (o2, st3) := AnalyzeList(tail, st2);
    AnalyzeBody(before, decl, tail, st0);
    var w0, w1 := Way(before).value, WayStmt(s).value;
    way := w0 + w1;
    assert LoopFrom(st2) == 0;
    forall more
      ensures var r := ExecList(Rewritten(body), {}, way + more);
              x in r.held && SameControl(r, ExecList(rest, {}, more))
    {
      assert way + more == w0 + (w1 + more);
      WayPasses(before, st0, x, {}, w1 + more);
      var r0 := ExecList(o0, {}, w0 + (w1 + more));
      ExecConcat(o0, o1 + o2, {}, w0 + (w1 + more));
      ExecConcat(o1, o2, r0.held, w1 + more);
      ExecSingle(decl, r0.held, w1 + more);
      var r1 := ExecList(o1, r0.held, w1 + more);
      var w := ForgottenLeaks(s, rest, st2, x, r1.held);
      var r2 := ExecList(o2, r1.held, w + more);
      ExecScopeEnd(body, st0, {}, w0 + (w1 + more));
      ReleasesPass(st3[0].vars, x, r2.held, r2.choices);
    }
  }

  lemma {:induction false} AnalyzeBody(before: seq<Stmt>, decl: Stmt, tail: seq<Stmt>, stack: seq<Scope>)
    requires stack != []
    ensures var (o0, st1) := AnalyzeList(before, stack);
            var (o1, st2) := AnalyzeStmt(decl, st1);
            var (o2, st3) := AnalyzeList(tail, st2);
            AnalyzeList(before + ([decl] + tail), stack) == (o0 + (o1 + o2), st3)
  {
    hide AnalyzeStmt;
    AnalyzeConcat(before, [decl] + tail, stack);
    assert ([decl] + tail)[1..] == tail;
  }

  /**
   `T *x = [[T alloc] init]; if (a) return nil; if (b) return x;` Where neither return is taken the object is lost,
   although the second one would hand it back.
   */
  lemma {:induction false} LaterHandBackLeaks(x: string)
    ensures var body := [Decl(x, true), If([Return(None, None)], NoElse), If([Return(Some(x), Some(x))], NoElse)];
            var r := ExecList(Rewritten(body), {}, [false, false]);
            r.out == Normal && x in r.held
  {
    var s, rest := If([Return(None, None)], NoElse), [If([Return(Some(x), Some(x))], NoElse)];
    assert Return(None, None) == [Return(None, None)][0] && [Return(None, None)][1..] == [];
    assert [Return(Some(x), Some(x))][1..] == [] && rest[1..] == [];
    assert !TouchesStmt(Return(Some(x), Some(x)), x) && !Touches([], x);
    assert !Touches([Return(Some(x), Some(x))], x);
    assert !TouchesStmt(rest[0], x);
    var way := EarlyExitLeaks([], x, s, rest);
    var body := [] + ([Decl(x, true)] + ([s] + rest));
    assert body == [Decl(x, true), s, rest[0]];
    ExecSingle(rest[0], {}, [false]);
    var r := ExecList(Rewritten(body), {}, way + [false]);
    assert SameControl(r, ExecList(rest, {}, [false]));
    assert way + [false] == [false, false];
  }
}
