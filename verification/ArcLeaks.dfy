/**
 When static ARC releases everything (crates/arc/src/arc.rs): exactly once on bodies whose exits forget
 nothing, and what is lost otherwise.
 */
module ArcLeaks {
  import opened Wrappers
  import opened Arc

  // ---------------------------------------------------------------- completeness

  /** The variable an exit keeps is one the analysis would have released. */
  predicate Listed(keep: Option<string>, stack: seq<Scope>) {
    keep.Some? && keep.value in Collect(stack)
  }

  /**
   No exit inside a branch or loop body makes the analysis forget an owned variable of a scope around
   that branch, what an exit keeps it hands back, and every object assigned after its declaration is
   acquired in the scope of the declaration, once. `branch` is the index of the innermost scope that is a branch or a
   loop body.
   */
  predicate CleanStmt(s: Stmt, stack: seq<Scope>, branch: nat)
    requires stack != [] && branch < |stack|
    decreases s, 0
  {
    var top := |stack| - 1;
    match s
    case Assign(x, owned) => owned ==> x in stack[top].declared && x !in stack[top].vars
    case Block(b) => CleanScope(b, stack, false, branch)
    case If(t, NoElse) => CleanScope(t, stack, false, |stack|)
    case If(t, Else(e)) =>
      CleanScope(t, stack, false, |stack|) && CleanScope(e, AnalyzeScope(t, stack, false).1, false, |stack|)
    case While(b) => CleanScope(b, stack, true, |stack|)
    case For(init, b) =>
      CleanScope(b, if init.Some? && init.value.1 then AddVar(stack, init.value.0) else stack, true, |stack|)
    case Break => AllEmpty(stack, LoopFrom(stack), branch)
    case Continue => AllEmpty(stack, LoopFrom(stack), branch)
    case Return(keep, back) => AllEmpty(stack, 0, branch) && (Listed(keep, stack) ==> back == keep)
    case Throw(keep, back) => AllEmpty(stack, 0, branch) && (Listed(keep, stack) ==> back == keep)
    case Release(_) => false
    case NoArc(_) => false
    case Decl(_, _) => true
    case Plain => true
  }

  predicate AllEmpty(stack: seq<Scope>, from: nat, to: nat)
    requires to <= |stack|
  {
    forall i :: from <= i < to ==> stack[i].vars == []
  }

  predicate CleanList(ss: seq<Stmt>, stack: seq<Scope>, branch: nat)
    requires stack != [] && branch < |stack|
    decreases ss, 0
  {
    ss != [] ==> CleanStmt(ss[0], stack, branch) && CleanList(ss[1..], AnalyzeStmt(ss[0], stack).1, branch)
  }

  predicate CleanScope(ss: seq<Stmt>, stack: seq<Scope>, insideLoop: bool, branch: nat)
    requires branch <= |stack|
    decreases ss, 1
  {
    CleanList(ss, stack + [Scope([], [], insideLoop)], branch)
  }

  /** The scopes around the innermost branch come out of the analysis as they went in. */
  lemma {:induction false} CleanListStack(ss: seq<Stmt>, stack: seq<Scope>, branch: nat)
    requires stack != [] && branch < |stack| && CleanList(ss, stack, branch)
    ensures AnalyzeList(ss, stack).1[..branch] == stack[..branch]
    decreases ss, 0
  {
    if ss != [] {
      CleanStmtStack(ss[0], stack, branch);
      CleanListStack(ss[1..], AnalyzeStmt(ss[0], stack).1, branch);
    }
  }

  lemma {:induction false} CleanScopeStack(ss: seq<Stmt>, stack: seq<Scope>, insideLoop: bool, branch: nat)
    requires branch <= |stack| && CleanScope(ss, stack, insideLoop, branch)
    ensures AnalyzeScope(ss, stack, insideLoop).1[..branch] == stack[..branch]
    ensures branch == |stack| ==> AnalyzeScope(ss, stack, insideLoop).1 == stack
    decreases ss, 1
  {
    var inner := stack + [Scope([], [], insideLoop)];
    CleanListStack(ss, inner, branch);
    assert inner[..branch] == stack[..branch];
    var st := AnalyzeList(ss, inner).1;
    assert st[..|stack|][..branch] == st[..branch];
  }

  lemma {:induction false} CleanStmtStack(s: Stmt, stack: seq<Scope>, branch: nat)
    requires stack != [] && branch < |stack| && CleanStmt(s, stack, branch)
    ensures AnalyzeStmt(s, stack).1[..branch] == stack[..branch]
    decreases s, 0
  {
    match s
    case Plain =>
    case Decl(x, owned) =>
      assert AddVar(stack, x)[..branch] == stack[..branch];
    case Assign(x, owned) =>
    case Block(b) => CleanScopeStack(b, stack, false, branch);
    case If(t, NoElse) => CleanScopeStack(t, stack, false, |stack|);
    case If(t, Else(e)) =>
      CleanScopeStack(t, stack, false, |stack|);
      CleanScopeStack(e, stack, false, |stack|);
    case While(b) => CleanScopeStack(b, stack, true, |stack|);
    case For(init, b) =>
      CleanScopeStack(b, if init.Some? && init.value.1 then AddVar(stack, init.value.0) else stack, true, |stack|);
    case Break => EmptyUnchanged(stack, LoopFrom(stack), branch);
    case Continue => EmptyUnchanged(stack, LoopFrom(stack), branch);
    case Return(_, _) => EmptyUnchanged(stack, 0, branch);
    case Throw(_, _) => EmptyUnchanged(stack, 0, branch);
  }

  lemma {:induction false} EmptyUnchanged(stack: seq<Scope>, from: nat, to: nat)
    requires to <= |stack| && AllEmpty(stack, from, to)
    ensures ClearFrom(stack, from)[..to] == stack[..to]
  {
  }

  /** No variable is in two scopes. */
  ghost predicate Tidy(stack: seq<Scope>) {
    stack != [] ==>
      var top := |stack| - 1;
      Tidy(stack[..top]) && NameSet(stack[top].vars) !! AllVars(stack[..top])
  }

  lemma {:induction false} TidyPush(stack: seq<Scope>, scope: Scope)
    requires Tidy(stack) && scope.vars == []
    ensures Tidy(stack + [scope])
  {
    assert (stack + [scope])[..|stack|] == stack;
    assert NameSet([]) == {};
  }

  lemma {:induction false} TidySplit(stack: seq<Scope>, k: nat)
    requires Tidy(stack) && k <= |stack|
    ensures AllVars(stack[..k]) !! AllVars(stack[k..])
    decreases |stack| - k
  {
    if k < |stack| {
      var init := stack[..|stack| - 1];
      TidySplit(init, k);
      AllVarsSplit(init, k);
      assert init[..k] == stack[..k];
      assert init[k..] == stack[k..][..|stack[k..]| - 1];
    }
  }

  lemma {:induction false} WeakerTidy(after: seq<Scope>, before: seq<Scope>)
    requires Weaker(after, before) && Tidy(before)
    ensures Tidy(after)
    decreases |after|
  {
    if after != [] {
      var top := |after| - 1;
      assert ClearedOrSame(before[top], after[top]);
      WeakerTidy(after[..top], before[..top]);
      WeakerVars(after[..top], before[..top]);
    }
  }

  lemma {:induction false} EvolvedTidy(before: seq<Scope>, after: seq<Scope>, names: set<string>, more: set<string>)
    requires Ready(names + more, before) && Evolved(before, after, names) && names !! more && Tidy(before)
    ensures Tidy(after)
  {
    EvolvedReady(before, after, names, more);
    WeakerTidy(after[..|after| - 1], before[..|before| - 1]);
  }

  /** The run released exactly what it should: what is still to be released is what is held. */
  ghost predicate ExactRun(r: Run, stack: seq<Scope>, after: seq<Scope>) {
    && !r.leaked
    && (r.out.Normal? ==> r.held == AllVars(after))
    && (r.out.Broke? || r.out.Continued? ==> r.held == AllVars(stack[..LoopFrom(stack)]))
    && (r.out.Left? ==> r.held <= if r.out.back.Some? then {r.out.back.value} else {})
  }

  lemma {:induction false} ExactList(ss: seq<Stmt>, stack: seq<Scope>, choices: seq<bool>,
                                     owners: set<string>, inLoop: bool, branch: nat)
    requires Plausible(ss, owners, inLoop) && NoDuplicates(Names(ss)) && Ready(NameSet(Names(ss)), stack)
    requires LoopFrom(stack) <= branch < |stack| && CleanList(ss, stack, branch) && AllVars(stack) <= owners
        && Tidy(stack)
    ensures var (out, st) := AnalyzeList(ss, stack);
            ExactRun(ExecList(out, AllVars(stack), choices), stack, st)
    decreases |choices|, ss, 0
  {
    hide Ready, Evolved, AllVars, LoopVars, Tidy;
    if ss != [] {
      var n1, n2 := NameSet(NamesOf(ss[0])), NameSet(Names(ss[1..]));
      NamesApart(NamesOf(ss[0]), Names(ss[1..]));
      ReadySubset(n1 + n2, n1, stack);
      StmtStack(ss[0], stack, owners, inLoop);
      SafeStmt(ss[0], stack, AllVars(stack), choices, owners, inLoop);
      ExactStmt(ss[0], stack, choices, owners, inLoop, branch);
      CleanStmtStack(ss[0], stack, branch);
      var (o1, st1) := AnalyzeStmt(ss[0], stack);
      var (o2, st2) := AnalyzeList(ss[1..], st1);
      EvolvedReady(stack, st1, n1, n2);
      EvolvedTidy(stack, st1, n1, n2);
      ExecConcat(o1, o2, AllVars(stack), choices);
      var r1 := ExecList(o1, AllVars(stack), choices);
      if r1.out.Normal? {
        ExactList(ss[1..], st1, r1.choices, owners, inLoop, branch);
        var from := LoopFrom(stack);
        assert st1[..branch][..from] == st1[..from] && stack[..branch][..from] == stack[..from];
      }
    }
  }

  lemma {:induction false} ExactScope(ss: seq<Stmt>, stack: seq<Scope>, insideLoop: bool, choices: seq<bool>,
                                      owners: set<string>, inLoop: bool, branch: nat)
    requires Plausible(ss, owners, inLoop) && NoDuplicates(Names(ss)) && NameSet(Names(ss)) !! AllVars(stack)
    requires branch <= |stack| && CleanScope(ss, stack, insideLoop, branch) && AllVars(stack) <= owners && Tidy(stack)
    requires LoopFrom(stack + [Scope([], [], insideLoop)]) <= branch
    ensures var (out, st) := AnalyzeScope(ss, stack, insideLoop);
            var r := ExecList(out, AllVars(stack), choices);
            && !r.leaked
            && (r.out.Normal? ==> r.held == AllVars(st))
            && (r.out.Broke? || r.out.Continued? ==>
                  r.held == if insideLoop then AllVars(stack) else AllVars(stack[..LoopFrom(stack)]))
            && (r.out.Left? ==> r.held <= if r.out.back.Some? then {r.out.back.value} else {})
    decreases |choices|, ss, 1
  {
    hide AllVars, LoopVars, Tidy, AnalyzeList, AnalyzeStmt, ExecList, AtScopeEnd, ReleasesOf, LoopFrom, Names,
    Plausible;
    var inner := stack + [Scope([], [], insideLoop)];
    EmptyScope(stack, insideLoop);
    TidyPush(stack, Scope([], [], insideLoop));
    ScopeStack(ss, stack, insideLoop, owners, inLoop);
    ListStack(ss, inner, owners, inLoop);
    ExactList(ss, inner, choices, owners, inLoop, branch);
    ExecScopeEnd(ss, inner, AllVars(stack), choices);
    var (out, st) := AnalyzeList(ss, inner);
    var r := ExecList(out, AllVars(stack), choices);
    EvolvedReady(inner, st, NameSet(Names(ss)), {});
    if r.out.Normal? {
      assert st == st[..|stack|] + [st[|stack|]];
      AllVarsPush(st[..|stack|], st[|stack|]);
      ExecReleases(st[|stack|].vars, None, r.held, r.choices);
    }
  }

  lemma {:induction false} ExactLoop(ss: seq<Stmt>, stack: seq<Scope>, choices: seq<bool>, owners: set<string>)
    requires Plausible(ss, owners, true) && NoDuplicates(Names(ss)) && NameSet(Names(ss)) !! AllVars(stack)
    requires CleanScope(ss, stack, true, |stack|) && AllVars(stack) <= owners && Tidy(stack)
    ensures var r := ExecLoop(AnalyzeScope(ss, stack, true).0, AllVars(stack), choices);
            && !r.leaked && (r.out.Normal? ==> r.held == AllVars(stack))
            && (r.out.Left? ==> r.held <= if r.out.back.Some? then {r.out.back.value} else {})
    decreases |choices|, ss, 2
  {
    var body := AnalyzeScope(ss, stack, true).0;
    CleanScopeStack(ss, stack, true, |stack|);
    if choices != [] && choices[0] {
      ExactScope(ss, stack, true, choices[1..], owners, true, |stack|);
      var r := ExecList(body, AllVars(stack), choices[1..]);
      if r.out.Normal? || r.out.Continued? {
        ExactLoop(ss, stack, r.choices, owners);
      }
    }
  }

  lemma {:induction false} ExactStmt(s: Stmt, stack: seq<Scope>, choices: seq<bool>,
                                     owners: set<string>, inLoop: bool, branch: nat)
    requires PlausibleStmt(s, owners, inLoop) && NoDuplicates(NamesOf(s))
    requires stack != [] && Ready(NameSet(NamesOf(s)), stack)
    requires LoopFrom(stack) <= branch < |stack| && CleanStmt(s, stack, branch) && AllVars(stack) <= owners
        && Tidy(stack)
    ensures var (out, st) := AnalyzeStmt(s, stack);
            ExactRun(ExecList(out, AllVars(stack), choices), stack, st)
    decreases |choices|, s, 1
  {
    hide AllVars, LoopVars, Tidy, AnalyzeStmt, AnalyzeList, AnalyzeScope, AtScopeEnd, NoDuplicates, ExecList, ExactRun;
    match s
    case Plain => ExactPlain(stack, choices);
    case Decl(x, owned) =>
      assert NameSet([x]) == {x};
      ExactDecl(x, owned, stack, choices);
    case Assign(x, owned) =>
      assert NameSet([]) == {};
      ExactAssign(x, owned, stack, choices, owners, branch);
    case Block(b) => ExactBlock(b, stack, choices, owners, inLoop, branch);
    case If(t, els) => ExactIf(t, els, stack, choices, owners, inLoop, branch);
    case While(b) => ExactWhile(s, b, stack, choices, owners, branch);
    case For(None, b) => ExactWhile(s, b, stack, choices, owners, branch);
    case For(Some(init), b) => ExactFor(init, b, stack, choices, owners, branch);
    case Break => ExactExit(s, LoopFrom(stack), None, stack, choices, owners, inLoop);
    case Continue => ExactExit(s, LoopFrom(stack), None, stack, choices, owners, inLoop);
    case Return(keep, _) => ExactExit(s, 0, keep, stack, choices, owners, inLoop);
    case Throw(keep, _) => ExactExit(s, 0, keep, stack, choices, owners, inLoop);
  }

  lemma {:induction false} ExactPlain(stack: seq<Scope>, choices: seq<bool>)
    requires stack != []
    ensures var (out, st) := AnalyzeStmt(Plain, stack);
            ExactRun(ExecList(out, AllVars(stack), choices), stack, st)
  {
    ExecSingle(Plain, AllVars(stack), choices);
  }

  lemma {:induction false} ExactBlock(b: seq<Stmt>, stack: seq<Scope>, choices: seq<bool>,
                                      owners: set<string>, inLoop: bool, branch: nat)
    requires Plausible(b, owners, inLoop) && NoDuplicates(Names(b)) && NameSet(Names(b)) !! AllVars(stack)
    requires LoopFrom(stack) <= branch < |stack| && CleanScope(b, stack, false, branch)
    requires AllVars(stack) <= owners && Tidy(stack)
    ensures var (out, st) := AnalyzeStmt(Block(b), stack);
            ExactRun(ExecList(out, AllVars(stack), choices), stack, st)
    decreases |choices|, Block(b), 0
  {
    hide AllVars, Tidy, AnalyzeList, AnalyzeScope, AtScopeEnd;
    ExecSingle(Block(AnalyzeScope(b, stack, false).0), AllVars(stack), choices);
    ExactScope(b, stack, false, choices, owners, inLoop, branch);
  }

  lemma {:induction false} ExactIf(t: seq<Stmt>, els: Else, stack: seq<Scope>, choices: seq<bool>,
                                   owners: set<string>, inLoop: bool, branch: nat)
    requires var s := If(t, els);
             && PlausibleStmt(s, owners, inLoop) && NoDuplicates(NamesOf(s)) && NameSet(NamesOf(s)) !! AllVars(stack)
             && LoopFrom(stack) <= branch < |stack| && CleanStmt(s, stack, branch)
    requires AllVars(stack) <= owners && Tidy(stack)
    ensures var (out, st) := AnalyzeStmt(If(t, els), stack);
            ExactRun(ExecList(out, AllVars(stack), choices), stack, st)
    decreases |choices|, If(t, els), 0
  {
    hide AllVars, Tidy, AnalyzeList, AnalyzeScope, AtScopeEnd, NoDuplicates;
    if els.Else? {
      NamesApart(Names(t), Names(els.body));
    }
    CleanScopeStack(t, stack, false, |stack|);
    ExecSingle(AnalyzeStmt(If(t, els), stack).0[0], AllVars(stack), choices);
    if choices != [] && choices[0] {
      ExactScope(t, stack, false, choices[1..], owners, inLoop, |stack|);
    }
    if els.Else? {
      CleanScopeStack(els.body, stack, false, |stack|);
      if choices != [] && !choices[0] {
        ExactScope(els.body, stack, false, choices[1..], owners, inLoop, |stack|);
      }
    }
  }

  lemma {:induction false} ExactWhile(s: Stmt, b: seq<Stmt>, stack: seq<Scope>, choices: seq<bool>,
                                      owners: set<string>, branch: nat)
    requires s == While(b) || s == For(None, b)
    requires Plausible(b, owners, true) && NoDuplicates(Names(b)) && NameSet(Names(b)) !! AllVars(stack)
    requires branch < |stack| && CleanStmt(s, stack, branch) && AllVars(stack) <= owners && Tidy(stack)
    ensures var (out, st) := AnalyzeStmt(s, stack);
            ExactRun(ExecList(out, AllVars(stack), choices), stack, st)
    decreases |choices|, s, 0
  {
    hide AllVars, Tidy, AnalyzeList, AnalyzeScope, AtScopeEnd;
    ExecSingle(AnalyzeStmt(s, stack).0[0], AllVars(stack), choices);
    ExactLoop(b, stack, choices, owners);
    CleanScopeStack(b, stack, true, |stack|);
  }

  lemma {:induction false} ExactDecl(x: string, owned: bool, stack: seq<Scope>, choices: seq<bool>)
    requires Ready({x}, stack)
    ensures var (out, st) := AnalyzeStmt(Decl(x, owned), stack);
            ExactRun(ExecList(out, AllVars(stack), choices), stack, st)
  {
    ExecSingle(Decl(x, owned), AllVars(stack), choices);
    ReadyForName(stack, {x}, x);
    DeclEvolved(stack, x, owned, {x});
  }

  lemma {:induction false} ExactAssign(x: string, owned: bool, stack: seq<Scope>, choices: seq<bool>,
                                       owners: set<string>, branch: nat)
    requires Ready({}, stack) && branch < |stack| && CleanStmt(Assign(x, owned), stack, branch)
    requires AllVars(stack) <= owners && (owned <==> x in owners)
    ensures var (out, st) := AnalyzeStmt(Assign(x, owned), stack);
            ExactRun(ExecList(out, AllVars(stack), choices), stack, st)
  {
    ExecSingle(Assign(x, owned), AllVars(stack), choices);
    if owned {
      var top := |stack| - 1;
      assert x in ScopeNames(stack[top]);
      AddVarEvolved(stack, x, {});
    }
  }

  lemma {:induction false} ExactFor(init: (string, bool), b: seq<Stmt>, stack: seq<Scope>, choices: seq<bool>,
                                    owners: set<string>, branch: nat)
    requires Plausible(b, owners, true) && NoDuplicates([init.0] + Names(b)) && (init.1 ==> init.0 in owners)
    requires stack != [] && Ready(NameSet([init.0] + Names(b)), stack)
    requires branch < |stack| && CleanStmt(For(Some(init), b), stack, branch) && AllVars(stack) <= owners && Tidy(stack)
    ensures var (out, st) := AnalyzeStmt(For(Some(init), b), stack);
            ExactRun(ExecList(out, AllVars(stack), choices), stack, st)
    decreases |choices|, For(Some(init), b), 0
  {
    hide AllVars, LoopVars, Ready, Tidy, AnalyzeList, AnalyzeScope, AtScopeEnd;
    NamesApart([init.0], Names(b));
    assert NameSet([init.0]) == {init.0};
    ForStack(init, b, stack, owners);
    ReadyForName(stack, NameSet([init.0] + Names(b)), init.0);
    var mid := if init.1 then AddVar(stack, init.0) else stack;
    ReadySubset(NameSet(Names(b)), NameSet(Names(b)), mid);
    var r := ExecDecl(init.0, init.1, AllVars(stack), choices);
    EvolvedTidy(stack, mid, {init.0}, NameSet(Names(b)));
    ExactLoop(b, mid, choices, owners);
    CleanScopeStack(b, mid, true, |stack|);
    var (b', st) := AnalyzeScope(b, mid, true);
    ExecSingle(For(Some(init), b'), AllVars(stack), choices);
    assert r.held == AllVars(mid);
  }

  lemma {:induction false} ExactExit(s: Stmt, from: nat, keep: Option<string>, stack: seq<Scope>, choices: seq<bool>,
                                     owners: set<string>, inLoop: bool)
    requires stack != [] && AllVars(stack) <= owners && from <= |stack| && Tidy(stack)
    requires Leaves(s, from, keep, stack, inLoop)
    requires s.Return? || s.Throw? ==> Listed(keep, stack) ==> s.back == keep
    ensures var (out, st) := AnalyzeStmt(s, stack);
            ExactRun(ExecList(out, AllVars(stack), choices), stack, st)
  {
    SafeExit(s, from, keep, stack, AllVars(stack), choices, owners, inLoop);
    CollectFacts(stack);
    AllVarsSplit(stack, from);
    TidySplit(stack, from);
    assert stack[0..] == stack;
    assert AllVars([]) == {};
    assert keep.Some? ==> (keep.value in Collect(stack) <==> keep.value in NameSet(Collect(stack)));
  }

  /**
   What an exit keeps without handing it back is lost: the object is still held when the body has been
   left, and the caller gets another one, or none.
   */
  lemma {:induction false} KeptNotHandedBackLeaks(s: Stmt, stack: seq<Scope>, held: set<string>, choices: seq<bool>)
    requires s.Return? || s.Throw?
    requires stack != [] && AllVars(stack) <= held && Listed(s.keep, stack)
    ensures var r := ExecList(AnalyzeStmt(s, stack).0, held, choices);
            r.out == Left(s.back) && (s.keep.value in r.held)
  {
    CollectFacts(stack);
    ExecExit(Collect(stack), s.keep, s, held, choices);
  }

  /** `T *x = [[T alloc] init]; return [x length];` */
  lemma {:induction false} ReturnedMessageLeaks(x: string, choices: seq<bool>)
    ensures var body := [Decl(x, true), Return(Some(x), None)];
            ExecList(Rewritten(body), {}, choices) == Run(Left(None), {x}, false, false, choices)
  {
    var body := [Decl(x, true), Return(Some(x), None)];
    var st0 := [Scope([], [], false)];
    var (o1, st1) := AnalyzeStmt(body[0], st0);
    var (o2, st2) := AnalyzeStmt(body[1], st1);
    assert [] + st0 == st0 && body[1..] == [body[1]] && body[1..][1..] == [];
    assert AnalyzeList(body[1..], st1) == (o2 + [], st2);
    assert AnalyzeList(body, st0) == (o1 + (o2 + []), st2);
    var st := AddVar(st0, x);
    assert st[0].vars == [] + [x] == [x];
    assert AddDeclared(st, x)[0].declared == [] + [x] == [x];
    assert st1 == AddDeclared(st, x);
    assert st1 == [Scope([x], [x], false)] && st1[..0] == [];
    assert Collect(st1[..0]) == [];
    assert Collect(st1) == AddNew([], [x]) == [x];
    assert [x][1..] == [];
    assert ReleasesOf([x], Some(x)) == [];
    assert o2 == [body[1]] && o1 + (o2 + []) == body;
    assert st2[0].vars == [];
    assert AtScopeEnd(body, []) == body;
    assert Rewritten(body) == body;
    ExecSingle(body[1], {x}, choices);
    assert {} - {x} + {x} == {x};
    assert Exec(body[0], {}, choices) == Run(Normal, {x}, false, false, choices);
    assert ExecList(body, {}, choices) == Then(Exec(body[0], {}, choices), ExecList(body[1..], {x}, choices));
  }

  /**
   On a clean body, every finished execution releases each acquired object exactly once, except the
   one that `return` or `@throw` hands back to the caller.
   */
  lemma {:induction false} NothingLeaks(body: seq<Stmt>, owners: set<string>, choices: seq<bool>)
    requires Plausible(body, owners, false) && NoDuplicates(Names(body)) && CleanScope(body, [], false, 0)
    ensures var r := ExecList(Rewritten(body), {}, choices);
            && !r.bad && !r.leaked
            && (r.out.Normal? ==> r.held == {})
            && (r.out.Left? ==> r.held <= if r.out.back.Some? then {r.out.back.value} else {})
            && !r.out.Broke? && !r.out.Continued?
  {
    SafeScope(body, [], false, {}, choices, owners, false);
    ExactScope(body, [], false, choices, owners, false, 0);
  }
}
