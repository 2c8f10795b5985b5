/**
 Static ARC (crates/arc/src/arc.rs): the analysis that walks the scopes of a body and inserts
 `nupa_release` calls into it.
 */
module Arc {
  import opened Wrappers

  /**
   Statements as far as ownership goes. `owned` says that the initialiser or the assigned value is
   retained and of object type. Branches and loop bodies are compounds already. `keep` is the variable that
   the analysis does not release: the expression itself or the receiver of a message in it. `back` is the
   variable whose object the expression really hands to the caller: `return [x length];` keeps x and hands
   nothing back.
   */
  datatype Stmt =
    | Plain
    | Decl(name: string, owned: bool)
    | Assign(name: string, owned: bool)
    | Release(name: string)
    | Block(body: seq<Stmt>)                        // compound, @autoreleasepool, @synchronized
    | If(thn: seq<Stmt>, els: Else)
    | While(body: seq<Stmt>)
    | For(init: Option<(string, bool)>, body: seq<Stmt>)
    | Break
    | Continue
    | Return(keep: Option<string>, back: Option<string>)
    | Throw(keep: Option<string>, back: Option<string>)
    | NoArc(body: seq<Stmt>)

  datatype Else = NoElse | Else(body: seq<Stmt>)

  datatype Scope = Scope(vars: seq<string>, declared: seq<string>, insideLoop: bool)

  // ---------------------------------------------------------------- the analysis as a function

  /** Releases end up in reverse order: each is inserted in front of the previous one. */
  function ReleasesOf(vars: seq<string>, keep: Option<string>): seq<Stmt> {
    if vars == [] then []
    else
      ReleasesOf(vars[1..], keep) + if keep == Some(vars[0]) then [] else [Release(vars[0])]
  }

  /** Index of the nearest loop scope, or 0. */
  function LoopFrom(stack: seq<Scope>): (i: nat)
    ensures stack != [] ==> i < |stack|
    ensures i <= |stack|
  {
    if stack == [] then 0
    else if stack[|stack| - 1].insideLoop then |stack| - 1
    else LoopFrom(stack[..|stack| - 1])
  }

  function AddNew(acc: seq<string>, names: seq<string>): seq<string>
    decreases names
  {
    if names == [] then acc
    else AddNew(if names[0] in acc then acc else acc + [names[0]], names[1..])
  }

  /** All variables of the given scopes, without repetition. */
  function Collect(scopes: seq<Scope>): seq<string> {
    if scopes == [] then []
    else AddNew(Collect(scopes[..|scopes| - 1]), scopes[|scopes| - 1].vars)
  }

  function ClearFrom(stack: seq<Scope>, from: nat): (r: seq<Scope>)
    ensures |r| == |stack|
    ensures forall i :: 0 <= i < |stack| ==> r[i] == if i < from then stack[i] else stack[i].(vars := [])
  {
    seq(|stack|, i requires 0 <= i < |stack| => if i < from then stack[i] else stack[i].(vars := []))
  }

  function Without(vars: seq<string>, name: string): seq<string> {
    if vars == [] then []
    else (if vars[0] == name then [] else [vars[0]]) + Without(vars[1..], name)
  }

  function DropVar(stack: seq<Scope>, name: string): (r: seq<Scope>)
    ensures |r| == |stack|
  {
    seq(|stack|, i requires 0 <= i < |stack| => stack[i].(vars := Without(stack[i].vars, name)))
  }

  function AddVar(stack: seq<Scope>, name: string): (r: seq<Scope>)
    requires stack != []
    ensures |r| == |stack|
  {
    var top := |stack| - 1;
    stack[top := stack[top].(vars := stack[top].vars + [name])]
  }

  function AddDeclared(stack: seq<Scope>, name: string): (r: seq<Scope>)
    requires stack != []
    ensures |r| == |stack|
  {
    var top := |stack| - 1;
    stack[top := stack[top].(declared := stack[top].declared + [name])]
  }

  /** One statement: what it is replaced by, and the scope stack after it. */
  function AnalyzeStmt(s: Stmt, stack: seq<Scope>): (r: (seq<Stmt>, seq<Scope>))
    requires stack != []
    ensures |r.1| == |stack|
    decreases s, 0
  {
    var top := |stack| - 1;
    match s
    case Plain => ([s], stack)
    case NoArc(_) => ([s], stack)
    case Decl(x, owned) => ([s], AddDeclared(if owned then AddVar(stack, x) else stack, x))
    case Assign(x, owned) =>
      ([s], if owned && x in stack[top].declared && x !in stack[top].vars then AddVar(stack, x) else stack)
    case Release(x) => ([s], DropVar(stack, x))
    case Block(b) =>
      var (b', st) := AnalyzeScope(b, stack, false);
      ([Block(b')], st)
    case If(t, NoElse) =>
      var (t', st) := AnalyzeScope(t, stack, false);
      ([If(t', NoElse)], st)
    case If(t, Else(e)) =>
      var (t', st) := AnalyzeScope(t, stack, false);
      var (e', st') := AnalyzeScope(e, st, false);
      ([If(t', Else(e'))], st')
    case While(b) =>
      var (b', st) := AnalyzeScope(b, stack, true);
      ([While(b')], st)
    case For(init, b) =>
      var (b', st) := AnalyzeScope(b, if init.Some? && init.value.1 then AddVar(stack, init.value.0) else stack, true);
      ([For(init, b')], st)
    case Break => (ReleasesOf(Collect(stack[LoopFrom(stack)..]), None) + [s], ClearFrom(stack, LoopFrom(stack)))
    case Continue => (ReleasesOf(Collect(stack[LoopFrom(stack)..]), None) + [s], ClearFrom(stack, LoopFrom(stack)))
    case Return(keep, _) => (ReleasesOf(Collect(stack), keep) + [s], ClearFrom(stack, 0))
    case Throw(keep, _) => (ReleasesOf(Collect(stack), keep) + [s], ClearFrom(stack, 0))
  }

  function AnalyzeList(ss: seq<Stmt>, stack: seq<Scope>): (r: (seq<Stmt>, seq<Scope>))
    requires stack != []
    ensures |r.1| == |stack|
    decreases ss, 0
  {
    if ss == [] then ([], stack)
    else
      var (o1, st1) := AnalyzeStmt(ss[0], stack);
      var (o2, st2) := AnalyzeList(ss[1..], st1);
      (o1 + o2, st2)
  }

  function AtScopeEnd(out: seq<Stmt>, vars: seq<string>): seq<Stmt> {
    var pos := if out != [] && out[|out| - 1].Return? then |out| - 1 else |out|;
    out[..pos] + ReleasesOf(vars, None) + out[pos..]
  }

  function AnalyzeScope(ss: seq<Stmt>, stack: seq<Scope>, insideLoop: bool): (r: (seq<Stmt>, seq<Scope>))
    ensures |r.1| == |stack|
    decreases ss, 1
  {
    var (out, st) := AnalyzeList(ss, stack + [Scope([], [], insideLoop)]);
    (AtScopeEnd(out, st[|stack|].vars), st[..|stack|])
  }

  // ---------------------------------------------------------------- executions

  datatype Outcome = Normal | Broke | Continued | Left(back: Option<string>) | OutOfChoices

  /**
   `held`: variables that hold an object acquired and not yet released. `bad`: some release hit a
   variable that holds none. `leaked`: some variable lost the object it held without a release.
   */
  datatype Run = Run(out: Outcome, held: set<string>, bad: bool, leaked: bool, choices: seq<bool>)

  /**
   Every branch and every loop test consumes one element of `choices`, so each finite part of each
   execution is the run of some sequence of choices.
   */
  function Exec(s: Stmt, held: set<string>, choices: seq<bool>): (r: Run)
    ensures |r.choices| <= |choices|
    decreases |choices|, s
  {
    match s
    case Plain => Run(Normal, held, false, false, choices)
    case Decl(x, owned) => ExecDecl(x, owned, held, choices)
    case Assign(x, owned) =>
      Run(Normal, if owned then held + {x} else held - {x}, false, x in held, choices)
    case Release(x) => Run(Normal, held - {x}, x !in held, false, choices)
    case Block(b) => ExecList(b, held, choices)
    case NoArc(b) => ExecList(b, held, choices)
    case If(t, e) =>
      if choices == [] then Run(OutOfChoices, held, false, false, [])
      else if choices[0] then ExecList(t, held, choices[1..])
      else if e.Else? then ExecList(e.body, held, choices[1..])
      else Run(Normal, held, false, false, choices[1..])
    case While(b) => ExecLoop(b, held, choices)
    case For(init, b) =>
      if init.None? then ExecLoop(b, held, choices)
      else
        var r := ExecDecl(init.value.0, init.value.1, held, choices);
        Then(r, ExecLoop(b, r.held, choices))
    case Break => Run(Broke, held, false, false, choices)
    case Continue => Run(Continued, held, false, false, choices)
    case Return(_, back) => Run(Left(back), held, false, false, choices)
    case Throw(_, back) => Run(Left(back), held, false, false, choices)
  }

  /** A declaration starts a new variable; what an old one of that name held is lost. */
  function ExecDecl(x: string, owned: bool, held: set<string>, choices: seq<bool>): (r: Run) {
    Run(Normal, held - {x} + if owned then {x} else {}, false, x in held, choices)
  }

  function Then(r1: Run, r2: Run): Run {
    r2.(bad := r1.bad || r2.bad, leaked := r1.leaked || r2.leaked)
  }

  function ExecList(ss: seq<Stmt>, held: set<string>, choices: seq<bool>): (r: Run)
    ensures |r.choices| <= |choices|
    decreases |choices|, ss
  {
    if ss == [] then Run(Normal, held, false, false, choices)
    else
      var r := Exec(ss[0], held, choices);
      if r.out.Normal? then Then(r, ExecList(ss[1..], r.held, r.choices)) else r
  }

  function ExecLoop(b: seq<Stmt>, held: set<string>, choices: seq<bool>): (r: Run)
    ensures |r.choices| <= |choices|
    ensures !r.out.Broke? && !r.out.Continued?
    decreases |choices|, b
  {
    if choices == [] then Run(OutOfChoices, held, false, false, [])
    else if !choices[0] then Run(Normal, held, false, false, choices[1..])
    else
      var r := ExecList(b, held, choices[1..]);
      if r.out.Normal? || r.out.Continued? then Then(r, ExecLoop(b, r.held, r.choices))
      else if r.out.Broke? then r.(out := Normal)
      else r
  }

  lemma {:induction false} ExecConcat(a: seq<Stmt>, b: seq<Stmt>, held: set<string>, choices: seq<bool>)
    ensures var r := ExecList(a, held, choices);
            ExecList(a + b, held, choices)
            == if r.out.Normal? then Then(r, ExecList(b, r.held, r.choices)) else r
    decreases |a|
  {
    if a == [] {
      assert a + b == b;
    } else {
      var r := Exec(a[0], held, choices);
      assert (a + b)[1..] == a[1..] + b;
      ExecConcat(a[1..], b, r.held, r.choices);
    }
  }

  ghost function NameSet(names: seq<string>): set<string> {
    set x | x in names
  }

  ghost predicate NoDuplicates(names: seq<string>) {
    forall i, j :: 0 <= i < j < |names| ==> names[i] != names[j]
  }

  /** Releasing variables that all hold an object goes well, and they hold nothing afterwards. */
  lemma {:induction false} ExecReleases(vars: seq<string>, keep: Option<string>, held: set<string>, choices: seq<bool>)
    requires NoDuplicates(vars) && NameSet(vars) <= held
    ensures ExecList(ReleasesOf(vars, keep), held, choices)
         == Run(Normal, held - (NameSet(vars) - if keep.Some? then {keep.value} else {}), false, false, choices)
    decreases vars
  {
    if vars != [] {
      var last := if keep == Some(vars[0]) then [] else [Release(vars[0])];
      assert NameSet(vars) == {vars[0]} + NameSet(vars[1..]);
      assert vars[0] !in NameSet(vars[1..]);
      ExecReleases(vars[1..], keep, held, choices);
      ExecConcat(ReleasesOf(vars[1..], keep), last, held, choices);
      var mid := held - (NameSet(vars[1..]) - if keep.Some? then {keep.value} else {});
      if last != [] {
        assert ExecList(last, mid, choices)
            == Then(Exec(last[0], mid, choices), ExecList([], mid - {vars[0]}, choices));
      }
    } else {
      assert NameSet(vars) == {};
    }
  }

  lemma {:induction false} AddNewFacts(acc: seq<string>, names: seq<string>)
    requires NoDuplicates(acc)
    ensures NoDuplicates(AddNew(acc, names)) && NameSet(AddNew(acc, names)) == NameSet(acc) + NameSet(names)
    decreases names
  {
    if names != [] {
      assert NameSet(names) == {names[0]} + NameSet(names[1..]);
      var acc' := if names[0] in acc then acc else acc + [names[0]];
      assert NameSet(acc') == NameSet(acc) + {names[0]};
      AddNewFacts(acc', names[1..]);
    }
  }

  /** The variables that the analysis will release later. */
  ghost function AllVars(stack: seq<Scope>): set<string> {
    if stack == [] then {} else AllVars(stack[..|stack| - 1]) + NameSet(stack[|stack| - 1].vars)
  }

  lemma {:induction false} CollectFacts(stack: seq<Scope>)
    ensures NoDuplicates(Collect(stack)) && NameSet(Collect(stack)) == AllVars(stack)
    decreases |stack|
  {
    if stack != [] {
      CollectFacts(stack[..|stack| - 1]);
      AddNewFacts(Collect(stack[..|stack| - 1]), stack[|stack| - 1].vars);
    }
  }

  lemma {:induction false} AllVarsMember(stack: seq<Scope>, x: string)
    ensures x in AllVars(stack) <==> exists i :: 0 <= i < |stack| && x in stack[i].vars
    decreases |stack|
  {
    if stack != [] {
      var init := stack[..|stack| - 1];
      AllVarsMember(init, x);
      if i :| 0 <= i < |stack| && x in stack[i].vars {
        if i < |stack| - 1 {
          assert x in init[i].vars;
        }
      }
      if x in AllVars(init) {
        var i :| 0 <= i < |init| && x in init[i].vars;
        assert x in stack[i].vars;
      }
    }
  }

  lemma {:induction false} AllVarsSplit(stack: seq<Scope>, k: nat)
    requires k <= |stack|
    ensures AllVars(stack) == AllVars(stack[..k]) + AllVars(stack[k..])
    decreases |stack| - k
  {
    if k == |stack| {
      assert stack[..k] == stack;
    } else {
      var init := stack[..|stack| - 1];
      AllVarsSplit(init, k);
      assert init[..k] == stack[..k];
      assert init[k..] == stack[k..][..|stack[k..]| - 1];
    }
  }

  // ---------------------------------------------------------------- the fragment

  /** The names declared in a statement list, at any depth. */
  function Names(ss: seq<Stmt>): seq<string>
    decreases ss
  {
    if ss == [] then [] else NamesOf(ss[0]) + Names(ss[1..])
  }

  function NamesOf(s: Stmt): seq<string>
    decreases s
  {
    match s
    case Decl(x, _) => [x]
    case Block(b) => Names(b)
    case NoArc(b) => Names(b)
    case If(t, NoElse) => Names(t)
    case If(t, Else(e)) => Names(t) + Names(e)
    case While(b) => Names(b)
    case For(None, b) => Names(b)
    case For(Some(init), b) => [init.0] + Names(b)
    case _ => []
  }

  /**
   Source bodies: no hand-written releases and no @noarc, `break` and `continue` only in loops, and
   a variable that ever owns an object is never overwritten with one it does not own.
   */
  predicate Plausible(ss: seq<Stmt>, owners: set<string>, inLoop: bool)
    decreases ss
  {
    ss != [] ==> PlausibleStmt(ss[0], owners, inLoop) && Plausible(ss[1..], owners, inLoop)
  }

  predicate PlausibleStmt(s: Stmt, owners: set<string>, inLoop: bool)
    decreases s
  {
    match s
    case Plain => true
    case Decl(x, owned) => owned ==> x in owners
    case Assign(x, owned) => owned <==> x in owners
    case Release(_) => false
    case NoArc(_) => false
    case Block(b) => Plausible(b, owners, inLoop)
    case If(t, NoElse) => Plausible(t, owners, inLoop)
    case If(t, Else(e)) => Plausible(t, owners, inLoop) && Plausible(e, owners, inLoop)
    case While(b) => Plausible(b, owners, true)
    case For(init, b) => (init.Some? && init.value.1 ==> init.value.0 in owners) && Plausible(b, owners, true)
    case Break => inLoop
    case Continue => inLoop
    case Return(_, _) => true
    case Throw(_, _) => true
  }

  lemma {:induction false} NamesApart(a: seq<string>, b: seq<string>)
    ensures NameSet(a + b) == NameSet(a) + NameSet(b)
    ensures NoDuplicates(a + b) ==> NoDuplicates(a) && NoDuplicates(b) && NameSet(a) !! NameSet(b)
  {
    var c := a + b;
    forall x | x in NameSet(a) + NameSet(b)
      ensures x in c
    {
    }
    if NoDuplicates(c) {
      assert forall i :: 0 <= i < |a| ==> c[i] == a[i];
      assert forall i :: 0 <= i < |b| ==> c[|a| + i] == b[i];
      forall x | x in a
        ensures x !in b
      {
        var i :| 0 <= i < |a| && a[i] == x;
        forall j | 0 <= j < |b|
          ensures b[j] != x
        {
          assert c[i] != c[|a| + j];
        }
      }
    }
  }

  // ---------------------------------------------------------------- what the analysis does to the stack

  ghost function ScopeNames(s: Scope): set<string> {
    NameSet(s.vars) + NameSet(s.declared)
  }

  /** `names` are new here, and the innermost scope shares no name with the enclosing ones. */
  ghost predicate Ready(names: set<string>, stack: seq<Scope>) {
    && stack != []
    && var top := stack[|stack| - 1];
       && names !! AllVars(stack) && names !! ScopeNames(top)
       && NoDuplicates(top.vars) && ScopeNames(top) !! AllVars(stack[..|stack| - 1])
  }

  ghost predicate ClearedOrSame(before: Scope, after: Scope) {
    after == before || after == before.(vars := [])
  }

  /** Each scope kept its variables or lost all of them. */
  ghost predicate Weaker(after: seq<Scope>, before: seq<Scope>) {
    |after| == |before| && forall i :: 0 <= i < |before| ==> ClearedOrSame(before[i], after[i])
  }

  /** The analysis went over a list that declares `names`. */
  ghost predicate Evolved(before: seq<Scope>, after: seq<Scope>, names: set<string>) {
    && before != [] && |after| == |before|
    && var top := |before| - 1;
       && Weaker(after[..top], before[..top])
       && after[top].insideLoop == before[top].insideLoop
       && ScopeNames(after[top]) <= ScopeNames(before[top]) + names
       && NoDuplicates(after[top].vars)
  }

  lemma {:induction false} WeakerVars(after: seq<Scope>, before: seq<Scope>)
    requires Weaker(after, before)
    ensures AllVars(after) <= AllVars(before)
    ensures LoopFrom(after) == LoopFrom(before)
    decreases |after|
  {
    if after != [] {
      assert ClearedOrSame(before[|before| - 1], after[|after| - 1]);
      WeakerVars(after[..|after| - 1], before[..|before| - 1]);
    }
  }

  lemma {:induction false} EvolvedReady(before: seq<Scope>, after: seq<Scope>, names: set<string>, more: set<string>)
    requires Ready(names + more, before) && Evolved(before, after, names) && names !! more
    ensures Ready(more, after)
    ensures AllVars(after) <= AllVars(before) + ScopeNames(before[|before| - 1]) + names
    ensures LoopFrom(after) == LoopFrom(before)
  {
    var top := |before| - 1;
    WeakerVars(after[..top], before[..top]);
  }

  lemma {:induction false} EvolvedThen(a: seq<Scope>, b: seq<Scope>, c: seq<Scope>, n1: set<string>, n2: set<string>)
    requires Evolved(a, b, n1) && Evolved(b, c, n2)
    ensures Evolved(a, c, n1 + n2)
  {
    var top := |a| - 1;
    forall i | 0 <= i < top
      ensures ClearedOrSame(a[..top][i], c[..top][i])
    {
      assert ClearedOrSame(a[..top][i], b[..top][i]) && ClearedOrSame(b[..top][i], c[..top][i]);
    }
  }

  lemma {:induction false} WeakerEvolved(before: seq<Scope>, after: seq<Scope>, names: set<string>)
    requires before != [] && Weaker(after, before) && NoDuplicates(before[|before| - 1].vars)
    ensures Evolved(before, after, names)
  {
    var top := |before| - 1;
    assert ClearedOrSame(before[top], after[top]);
    forall i | 0 <= i < top
      ensures ClearedOrSame(before[..top][i], after[..top][i])
    {
      assert ClearedOrSame(before[i], after[i]);
    }
  }

  lemma {:induction false} NameSetPush(names: seq<string>, x: string)
    ensures NameSet(names + [x]) == NameSet(names) + {x}
    ensures NoDuplicates(names) && x !in names ==> NoDuplicates(names + [x])
  {
  }

  /** Replacing the innermost scope by one with more names. */
  lemma {:induction false} TopEvolved(stack: seq<Scope>, scope: Scope, names: set<string>)
    requires stack != [] && scope.insideLoop == stack[|stack| - 1].insideLoop && NoDuplicates(scope.vars)
    requires ScopeNames(scope) <= ScopeNames(stack[|stack| - 1]) + names
    ensures Evolved(stack, stack[|stack| - 1 := scope], names)
    ensures AllVars(stack[|stack| - 1 := scope]) == AllVars(stack[..|stack| - 1]) + NameSet(scope.vars)
  {
    assert stack[|stack| - 1 := scope][..|stack| - 1] == stack[..|stack| - 1];
  }

  lemma {:induction false} AddVarEvolved(stack: seq<Scope>, x: string, names: set<string>)
    requires stack != [] && x !in stack[|stack| - 1].vars && NoDuplicates(stack[|stack| - 1].vars)
    requires x in names || x in stack[|stack| - 1].declared
    ensures Evolved(stack, AddVar(stack, x), names)
    ensures AllVars(AddVar(stack, x)) == AllVars(stack) + {x}
  {
    hide Evolved, NameSet, NoDuplicates;
    var top := stack[|stack| - 1];
    NameSetPush(top.vars, x);
    assert x in top.declared ==> x in NameSet(top.declared) by { DeclaredName(top, x); }
    TopEvolved(stack, top.(vars := top.vars + [x]), names);
  }

  lemma {:induction false} DeclaredName(scope: Scope, x: string)
    ensures x in scope.declared ==> x in NameSet(scope.declared)
  {
  }

  lemma {:induction false} AddDeclaredEvolved(stack: seq<Scope>, x: string, names: set<string>)
    requires stack != [] && x in names && NoDuplicates(stack[|stack| - 1].vars)
    ensures Evolved(stack, AddDeclared(stack, x), names)
    ensures AllVars(AddDeclared(stack, x)) == AllVars(stack)
  {
    hide Evolved, NameSet, NoDuplicates;
    var top := stack[|stack| - 1];
    NameSetPush(top.declared, x);
    TopEvolved(stack, top.(declared := top.declared + [x]), names);
  }

  lemma {:induction false} DeclEvolved(stack: seq<Scope>, x: string, owned: bool, names: set<string>)
    requires stack != [] && x in names && NoDuplicates(stack[|stack| - 1].vars) && x !in stack[|stack| - 1].vars
    ensures Evolved(stack, AnalyzeStmt(Decl(x, owned), stack).1, names)
    ensures AllVars(AnalyzeStmt(Decl(x, owned), stack).1) == AllVars(stack) + if owned then {x} else {}
  {
    if owned {
      AddVarEvolved(stack, x, names);
      AddDeclaredEvolved(AddVar(stack, x), x, names);
      EvolvedThen(stack, AddVar(stack, x), AddDeclared(AddVar(stack, x), x), names, names);
      assert names + names == names;
    } else {
      AddDeclaredEvolved(stack, x, names);
    }
  }

  lemma {:induction false} ClearFromFacts(stack: seq<Scope>, from: nat)
    requires from <= |stack|
    ensures Weaker(ClearFrom(stack, from), stack)
    ensures AllVars(ClearFrom(stack, from)) == AllVars(stack[..from])
  {
    var after := ClearFrom(stack, from);
    AllVarsSplit(after, from);
    assert after[..from] == stack[..from];
    forall x ensures x !in AllVars(after[from..]) {
      AllVarsMember(after[from..], x);
    }
  }

  lemma {:induction false} ScopeStack(ss: seq<Stmt>, stack: seq<Scope>, insideLoop: bool, owners: set<string>,
                                      inLoop: bool)
    requires Plausible(ss, owners, inLoop) && NoDuplicates(Names(ss)) && NameSet(Names(ss)) !! AllVars(stack)
    ensures Weaker(AnalyzeScope(ss, stack, insideLoop).1, stack)
    ensures Ready(NameSet(Names(ss)), stack + [Scope([], [], insideLoop)])
    decreases ss, 1
  {
    var inner := stack + [Scope([], [], insideLoop)];
    assert inner[..|stack|] == stack;
    ListStack(ss, inner, owners, inLoop);
  }

  lemma {:induction false} ListStack(ss: seq<Stmt>, stack: seq<Scope>, owners: set<string>, inLoop: bool)
    requires Plausible(ss, owners, inLoop) && NoDuplicates(Names(ss)) && Ready(NameSet(Names(ss)), stack)
    ensures Evolved(stack, AnalyzeList(ss, stack).1, NameSet(Names(ss)))
    decreases ss, 0
  {
    if ss == [] {
      WeakerEvolved(stack, stack, {});
    } else {
      NamesApart(NamesOf(ss[0]), Names(ss[1..]));
      StmtStack(ss[0], stack, owners, inLoop);
      var st1 := AnalyzeStmt(ss[0], stack).1;
      EvolvedReady(stack, st1, NameSet(NamesOf(ss[0])), NameSet(Names(ss[1..])));
      ListStack(ss[1..], st1, owners, inLoop);
      EvolvedThen(stack, st1, AnalyzeList(ss[1..], st1).1, NameSet(NamesOf(ss[0])), NameSet(Names(ss[1..])));
    }
  }

  lemma {:induction false} ReadyForName(stack: seq<Scope>, names: set<string>, x: string)
    requires Ready(names, stack) && x in names
    ensures x !in stack[|stack| - 1].vars && x !in AllVars(stack)
  {
    assert x !in ScopeNames(stack[|stack| - 1]);
    assert x !in NameSet(stack[|stack| - 1].vars);
  }

  lemma {:induction false} ForStack(init: (string, bool), b: seq<Stmt>, stack: seq<Scope>, owners: set<string>)
    requires Plausible(b, owners, true) && NoDuplicates([init.0] + Names(b))
    requires Ready(NameSet([init.0] + Names(b)), stack)
    ensures var mid := if init.1 then AddVar(stack, init.0) else stack;
            && Evolved(stack, mid, {init.0}) && Ready(NameSet(Names(b)), mid)
            && NoDuplicates(mid[|stack| - 1].vars)
            && AllVars(mid) == AllVars(stack) + if init.1 then {init.0} else {}
  {
    var names := NameSet([init.0] + Names(b));
    NamesApart([init.0], Names(b));
    assert init.0 in [init.0];
    assert NameSet([init.0]) == {init.0};
    ReadyForName(stack, names, init.0);
    var mid := if init.1 then AddVar(stack, init.0) else stack;
    if init.1 {
      AddVarEvolved(stack, init.0, {init.0});
    } else {
      assert forall i :: 0 <= i < |stack| ==> ClearedOrSame(stack[i], stack[i]);
      WeakerEvolved(stack, stack, {init.0});
    }
    EvolvedReady(stack, mid, {init.0}, NameSet(Names(b)));
  }

  lemma {:induction false} SameEvolved(stack: seq<Scope>, names: set<string>)
    requires stack != [] && NoDuplicates(stack[|stack| - 1].vars)
    ensures Evolved(stack, stack, names)
  {
    forall i | 0 <= i < |stack|
      ensures ClearedOrSame(stack[i], stack[i])
    {
    }
    WeakerEvolved(stack, stack, names);
  }

  lemma {:induction false} IfElseStack(t: seq<Stmt>, e: seq<Stmt>, stack: seq<Scope>, owners: set<string>, inLoop: bool)
    requires Plausible(t, owners, inLoop) && Plausible(e, owners, inLoop) && NoDuplicates(Names(t) + Names(e))
    requires stack != [] && Ready(NameSet(Names(t) + Names(e)), stack)
    ensures Evolved(stack, AnalyzeStmt(If(t, Else(e)), stack).1, NameSet(Names(t) + Names(e)))
    decreases If(t, Else(e)), 0
  {
    hide AllVars, Weaker, Evolved, NoDuplicates, AnalyzeScope;
    NamesApart(Names(t), Names(e));
    ScopeStack(t, stack, false, owners, inLoop);
    var st1 := AnalyzeScope(t, stack, false).1;
    WeakerVars(st1, stack);
    ScopeStack(e, st1, false, owners, inLoop);
    var st2 := AnalyzeScope(e, st1, false).1;
    WeakerThen(st2, st1, stack);
    WeakerEvolved(stack, st2, NameSet(Names(t) + Names(e)));
  }

  lemma {:induction false} StmtStack(s: Stmt, stack: seq<Scope>, owners: set<string>, inLoop: bool)
    requires PlausibleStmt(s, owners, inLoop) && NoDuplicates(NamesOf(s))
    requires stack != [] && Ready(NameSet(NamesOf(s)), stack)
    ensures Evolved(stack, AnalyzeStmt(s, stack).1, NameSet(NamesOf(s)))
    decreases s, 1
  {
    hide AllVars, Evolved, Ready, NoDuplicates, AnalyzeStmt;
    var names := NameSet(NamesOf(s));
    match s
    case Plain => FlatStack(s, stack, names);
    case Decl(x, owned) =>
      assert x in NamesOf(s);
      FlatStack(s, stack, names);
    case Assign(_, _) => FlatStack(s, stack, names);
    case Block(b) => InnerStack(s, b, stack, owners, inLoop);
    case If(t, NoElse) => InnerStack(s, t, stack, owners, inLoop);
    case If(t, Else(e)) => IfElseStack(t, e, stack, owners, inLoop);
    case While(b) => InnerStack(s, b, stack, owners, inLoop);
    case For(None, b) => InnerStack(s, b, stack, owners, inLoop);
    case For(Some(init), b) => ForInitStack(init, b, stack, owners);
    case Break => LeaveStack(s, stack, names);
    case Continue => LeaveStack(s, stack, names);
    case Return(_, _) => LeaveStack(s, stack, names);
    case Throw(_, _) => LeaveStack(s, stack, names);
  }

  lemma {:induction false} FlatStack(s: Stmt, stack: seq<Scope>, names: set<string>)
    requires s.Plain? || s.Decl? || s.Assign?
    requires stack != [] && Ready(names, stack)
    requires s.Decl? ==> s.name in names
    ensures Evolved(stack, AnalyzeStmt(s, stack).1, names)
  {
    hide AllVars, Evolved, NoDuplicates;
    match s
    case Plain => SameEvolved(stack, names);
    case Decl(x, owned) =>
      ReadyForName(stack, names, x);
      DeclEvolved(stack, x, owned, names);
    case Assign(x, owned) =>
      if owned && x in stack[|stack| - 1].declared && x !in stack[|stack| - 1].vars {
        AddVarEvolved(stack, x, names);
      } else {
        SameEvolved(stack, names);
      }
  }

  /** Statements with one body, analysed in a scope of its own. */
  predicate HasBody(s: Stmt, b: seq<Stmt>) {
    s == Block(b) || s == If(b, NoElse) || s == While(b) || s == For(None, b)
  }

  lemma {:induction false} InnerStack(s: Stmt, b: seq<Stmt>, stack: seq<Scope>, owners: set<string>, inLoop: bool)
    requires HasBody(s, b) && PlausibleStmt(s, owners, inLoop) && NoDuplicates(Names(b))
    requires stack != [] && Ready(NameSet(Names(b)), stack)
    ensures Evolved(stack, AnalyzeStmt(s, stack).1, NameSet(Names(b)))
    decreases s, 0
  {
    hide AllVars, Evolved, Weaker, AnalyzeScope, NoDuplicates;
    var loop := s.While? || s.For?;
    ScopeStack(b, stack, loop, owners, inLoop || loop);
    WeakerEvolved(stack, AnalyzeScope(b, stack, loop).1, NameSet(Names(b)));
  }

  lemma {:induction false} ForInitStack(init: (string, bool), b: seq<Stmt>, stack: seq<Scope>, owners: set<string>)
    requires Plausible(b, owners, true) && NoDuplicates([init.0] + Names(b)) && (init.1 ==> init.0 in owners)
    requires stack != [] && Ready(NameSet([init.0] + Names(b)), stack)
    ensures Evolved(stack, AnalyzeStmt(For(Some(init), b), stack).1, NameSet([init.0] + Names(b)))
    decreases For(Some(init), b), 0
  {
    hide AllVars, Evolved, Weaker, AnalyzeScope, NoDuplicates;
    var names := NameSet([init.0] + Names(b));
    NamesApart([init.0], Names(b));
    ForStack(init, b, stack, owners);
    var mid := if init.1 then AddVar(stack, init.0) else stack;
    ScopeStack(b, mid, true, owners, true);
    var st1 := AnalyzeScope(b, mid, true).1;
    WeakerEvolved(mid, st1, names);
    EvolvedThen(stack, mid, st1, {init.0}, names);
    assert init.0 in [init.0] + Names(b);
    assert {init.0} + names == names;
  }

  lemma {:induction false} LeaveStack(s: Stmt, stack: seq<Scope>, names: set<string>)
    requires s.Break? || s.Continue? || s.Return? || s.Throw?
    requires stack != [] && Ready(names, stack)
    ensures Evolved(stack, AnalyzeStmt(s, stack).1, names)
  {
    hide Evolved, Weaker, LoopFrom, Collect, ReleasesOf, NoDuplicates;
    var from := if s.Break? || s.Continue? then LoopFrom(stack) else 0;
    ClearFromFacts(stack, from);
    WeakerEvolved(stack, ClearFrom(stack, from), names);
  }

  lemma {:induction false} WeakerThen(c: seq<Scope>, b: seq<Scope>, a: seq<Scope>)
    requires Weaker(c, b) && Weaker(b, a)
    ensures Weaker(c, a)
  {
    forall i | 0 <= i < |a|
      ensures ClearedOrSame(a[i], c[i])
    {
      assert ClearedOrSame(a[i], b[i]) && ClearedOrSame(b[i], c[i]);
    }
  }

  // ---------------------------------------------------------------- safety

  /**
   A run of the rewritten list: no release went wrong; if it falls through, the variables still to be
   released hold objects; only variables of the list itself, or of the loop it left, were released.
   */
  ghost predicate SafeRun(r: Run, held: set<string>, owners: set<string>, inLoop: bool, stack: seq<Scope>,
                          after: seq<Scope>, names: set<string>) {
    && !r.bad && r.held <= owners && (r.out.Broke? || r.out.Continued? ==> inLoop)
    && (r.out.Normal? ==> AllVars(after) <= r.held && held - names <= r.held)
    && (r.out.Broke? || r.out.Continued? ==> held - names - LoopVars(stack) <= r.held)
  }

  /** What an exit to the nearest loop may release: variables of the scopes it leaves. */
  ghost function LoopVars(stack: seq<Scope>): set<string> {
    AllVars(stack[LoopFrom(stack)..]) + if stack == [] then {} else ScopeNames(stack[|stack| - 1])
  }

  /** Releases in front of an exit. */
  lemma {:induction false} ExecExit(vars: seq<string>, keep: Option<string>, s: Stmt, held: set<string>,
                                    choices: seq<bool>)
    requires NoDuplicates(vars) && NameSet(vars) <= held
    requires s.Break? || s.Continue? || s.Return? || s.Throw?
    ensures ExecList(ReleasesOf(vars, keep) + [s], held, choices)
         == Exec(s, held - (NameSet(vars) - if keep.Some? then {keep.value} else {}), choices)
  {
    var held' := held - (NameSet(vars) - if keep.Some? then {keep.value} else {});
    ExecReleases(vars, keep, held, choices);
    ExecConcat(ReleasesOf(vars, keep), [s], held, choices);
    assert ExecList([s], held', choices) == Exec(s, held', choices);
  }

  lemma {:induction false} ExecSingle(s: Stmt, held: set<string>, choices: seq<bool>)
    ensures ExecList([s], held, choices) == Exec(s, held, choices)
  {
    var r := Exec(s, held, choices);
    assert ExecList([], r.held, r.choices) == Run(Normal, r.held, false, false, r.choices);
  }

  /** A list that ends in `return` leaves nothing to release at the end of its scope. */
  lemma {:induction false} LastReturnClears(ss: seq<Stmt>, stack: seq<Scope>)
    requires stack != []
    ensures var (out, st) := AnalyzeList(ss, stack);
            && (ss == [] <==> out == [])
            && (out != [] && out[|out| - 1].Return? ==> st[|st| - 1].vars == [])
    decreases ss
  {
    if ss != [] {
      var (o1, st1) := AnalyzeStmt(ss[0], stack);
      var (o2, st2) := AnalyzeList(ss[1..], st1);
      assert o1 != [] && (o1[|o1| - 1].Return? ==> st1[|st1| - 1].vars == []);
      LastReturnClears(ss[1..], st1);
    }
  }

  lemma {:induction false} ExecAtEnd(out: seq<Stmt>, vars: seq<string>, held: set<string>, choices: seq<bool>)
    requires out != [] && out[|out| - 1].Return? ==> vars == []
    ensures var r := ExecList(out, held, choices);
            ExecList(AtScopeEnd(out, vars), held, choices)
            == if r.out.Normal? then Then(r, ExecList(ReleasesOf(vars, None), r.held, r.choices)) else r
  {
    if vars == [] {
      assert AtScopeEnd(out, vars) == out;
    } else {
      assert AtScopeEnd(out, vars) == out + ReleasesOf(vars, None);
      ExecConcat(out, ReleasesOf(vars, None), held, choices);
    }
  }

  /** The end of a scope runs the rest of the list and then releases the variables of the scope. */
  lemma {:induction false} ExecScopeEnd(ss: seq<Stmt>, stack: seq<Scope>, held: set<string>, choices: seq<bool>)
    requires stack != []
    ensures var (out, st) := AnalyzeList(ss, stack);
            var vars := st[|st| - 1].vars;
            var r := ExecList(out, held, choices);
            ExecList(AtScopeEnd(out, vars), held, choices)
            == if r.out.Normal? then Then(r, ExecList(ReleasesOf(vars, None), r.held, r.choices)) else r
  {
    hide AnalyzeStmt, ExecList, AtScopeEnd, ReleasesOf;
    var (out, st) := AnalyzeList(ss, stack);
    LastReturnClears(ss, stack);
    ExecAtEnd(out, st[|st| - 1].vars, held, choices);
  }

  lemma {:induction false} SafeList(ss: seq<Stmt>, stack: seq<Scope>, held: set<string>, choices: seq<bool>,
                                    owners: set<string>, inLoop: bool)
    requires Plausible(ss, owners, inLoop) && NoDuplicates(Names(ss)) && Ready(NameSet(Names(ss)), stack)
    requires AllVars(stack) <= held <= owners
    ensures var (out, st) := AnalyzeList(ss, stack);
            SafeRun(ExecList(out, held, choices), held, owners, inLoop, stack, st, NameSet(Names(ss)))
    decreases |choices|, ss, 0
  {
    hide Ready, Evolved, AllVars, LoopVars;
    if ss != [] {
      var n1, n2 := NameSet(NamesOf(ss[0])), NameSet(Names(ss[1..]));
      NamesApart(NamesOf(ss[0]), Names(ss[1..]));
      ReadySubset(n1 + n2, n1, stack);
      StmtStack(ss[0], stack, owners, inLoop);
      SafeStmt(ss[0], stack, held, choices, owners, inLoop);
      var (o1, st1) := AnalyzeStmt(ss[0], stack);
      var (o2, st2) := AnalyzeList(ss[1..], st1);
      EvolvedReady(stack, st1, n1, n2);
      ExecConcat(o1, o2, held, choices);
      var r1 := ExecList(o1, held, choices);
      if r1.out.Normal? {
        SafeList(ss[1..], st1, r1.held, r1.choices, owners, inLoop);
        LoopVarsGrow(stack, st1, n1);
      }
    }
  }

  lemma {:induction false} ReadySubset(all: set<string>, names: set<string>, stack: seq<Scope>)
    requires Ready(all, stack) && names <= all
    ensures Ready(names, stack) && stack != [] && names !! AllVars(stack)
  {
  }

  lemma {:induction false} AllVarsPush(stack: seq<Scope>, scope: Scope)
    ensures AllVars(stack + [scope]) == AllVars(stack) + NameSet(scope.vars)
  {
    assert (stack + [scope])[..|stack|] == stack;
  }

  lemma {:induction false} WeakerSlice(after: seq<Scope>, before: seq<Scope>, from: nat)
    requires Weaker(after, before) && from <= |before|
    ensures Weaker(after[from..], before[from..])
  {
    forall i | 0 <= i < |before| - from
      ensures ClearedOrSame(before[from..][i], after[from..][i])
    {
      assert ClearedOrSame(before[from + i], after[from + i]);
    }
  }

  /** The scopes from the nearest loop inwards gained at most the names of the list. */
  lemma {:induction false} LoopVarsGrow(before: seq<Scope>, after: seq<Scope>, names: set<string>)
    requires Evolved(before, after, names) && LoopFrom(after) == LoopFrom(before)
    ensures LoopVars(after) <= LoopVars(before) + names
  {
    hide AllVars, LoopFrom, Weaker, NoDuplicates;
    var from, top := LoopFrom(before), |before| - 1;
    var inner, inner' := before[..top][from..], after[..top][from..];
    assert before[from..] == inner + [before[top]] && after[from..] == inner' + [after[top]];
    AllVarsPush(inner, before[top]);
    AllVarsPush(inner', after[top]);
    WeakerSlice(after[..top], before[..top], from);
    WeakerVars(inner', inner);
  }

  lemma {:induction false} EmptyScope(stack: seq<Scope>, insideLoop: bool)
    ensures var inner := stack + [Scope([], [], insideLoop)];
            && inner[..|stack|] == stack && AllVars(inner) == AllVars(stack)
            && inner[..LoopFrom(inner)] == (if insideLoop then stack else stack[..LoopFrom(stack)])
            && ScopeNames(Scope([], [], insideLoop)) == {}
  {
    var inner := stack + [Scope([], [], insideLoop)];
    assert inner[..|stack|] == stack;
    assert NameSet([]) == {};
    AllVarsPush(stack, Scope([], [], insideLoop));
  }

  lemma {:induction false} SafeScope(ss: seq<Stmt>, stack: seq<Scope>, insideLoop: bool, held: set<string>,
                                     choices: seq<bool>, owners: set<string>, inLoop: bool)
    requires Plausible(ss, owners, inLoop) && NoDuplicates(Names(ss)) && NameSet(Names(ss)) !! AllVars(stack)
    requires AllVars(stack) <= held <= owners
    ensures var r := ExecList(AnalyzeScope(ss, stack, insideLoop).0, held, choices);
            && !r.bad && r.held <= owners && (r.out.Broke? || r.out.Continued? ==> inLoop)
            && (r.out.Normal? ==> held - NameSet(Names(ss)) <= r.held)
            && (r.out.Broke? || r.out.Continued? ==>
                  held - NameSet(Names(ss)) - (if insideLoop then {} else AllVars(stack[LoopFrom(stack)..])) <= r.held)
    decreases |choices|, ss, 1
  {
    hide AllVars, LoopVars, AnalyzeList, AnalyzeStmt, ExecList, AtScopeEnd, ReleasesOf, LoopFrom, Names, Plausible;
    var inner := stack + [Scope([], [], insideLoop)];
    EmptyScope(stack, insideLoop);
    ScopeStack(ss, stack, insideLoop, owners, inLoop);
    ListStack(ss, inner, owners, inLoop);
    SafeList(ss, inner, held, choices, owners, inLoop);
    ExecScopeEnd(ss, inner, held, choices);
    var (out, st) := AnalyzeList(ss, inner);
    var r := ExecList(out, held, choices);
    if r.out.Normal? {
      assert st == st[..|stack|] + [st[|stack|]];
      AllVarsPush(st[..|stack|], st[|stack|]);
      ExecReleases(st[|stack|].vars, None, r.held, r.choices);
    }
    LoopVarsInner(stack, insideLoop);
  }

  lemma {:induction false} LoopVarsInner(stack: seq<Scope>, insideLoop: bool)
    ensures LoopVars(stack + [Scope([], [], insideLoop)])
         == if insideLoop then {} else AllVars(stack[LoopFrom(stack)..])
  {
    var inner := stack + [Scope([], [], insideLoop)];
    assert inner[..|stack|] == stack;
    assert NameSet([]) == {};
    if insideLoop {
      assert inner[|stack|..] == [Scope([], [], true)];
      assert AllVars([]) == {} && [Scope([], [], true)][..0] == [];
    } else {
      var from := LoopFrom(stack);
      assert LoopFrom(inner) == from;
      assert inner[from..][..|inner[from..]| - 1] == stack[from..];
    }
  }

  lemma {:induction false} SafeLoop(ss: seq<Stmt>, stack: seq<Scope>, held: set<string>, choices: seq<bool>,
                                    owners: set<string>)
    requires Plausible(ss, owners, true) && NoDuplicates(Names(ss)) && NameSet(Names(ss)) !! AllVars(stack)
    requires AllVars(stack) <= held <= owners
    ensures var r := ExecLoop(AnalyzeScope(ss, stack, true).0, held, choices);
            !r.bad && r.held <= owners && (r.out.Normal? ==> held - NameSet(Names(ss)) <= r.held)
    decreases |choices|, ss, 2
  {
    var body := AnalyzeScope(ss, stack, true).0;
    if choices != [] && choices[0] {
      SafeScope(ss, stack, true, held, choices[1..], owners, true);
      var r := ExecList(body, held, choices[1..]);
      if r.out.Normal? || r.out.Continued? {
        SafeLoop(ss, stack, r.held, r.choices, owners);
      }
    }
  }

  lemma {:induction false} SafeStmt(s: Stmt, stack: seq<Scope>, held: set<string>, choices: seq<bool>,
                                    owners: set<string>, inLoop: bool)
    requires PlausibleStmt(s, owners, inLoop) && NoDuplicates(NamesOf(s))
    requires stack != [] && Ready(NameSet(NamesOf(s)), stack)
    requires AllVars(stack) <= held <= owners
    ensures var (out, st) := AnalyzeStmt(s, stack);
            SafeRun(ExecList(out, held, choices), held, owners, inLoop, stack, st, NameSet(NamesOf(s)))
    decreases |choices|, s, 1
  {
    hide AllVars, LoopVars, Ready, AnalyzeStmt, AnalyzeList, AnalyzeScope, AtScopeEnd, NoDuplicates, SafeRun, ExecList;
    var names := NameSet(NamesOf(s));
    ReadySubset(names, names, stack);
    assert NameSet([]) == {};
    match s
    case Plain => SafePlain(stack, held, choices, owners, inLoop);
    case Decl(x, owned) =>
      assert NameSet([x]) == {x};
      SafeDecl(x, owned, stack, held, choices, owners, inLoop);
    case Assign(x, owned) => SafeAssign(x, owned, stack, held, choices, owners, inLoop);
    case Block(b) => SafeBlock(b, stack, held, choices, owners, inLoop);
    case If(t, NoElse) => SafeIf(t, stack, held, choices, owners, inLoop);
    case If(t, Else(e)) => SafeIfElse(t, e, stack, held, choices, owners, inLoop);
    case While(b) => SafeWhile(s, b, stack, held, choices, owners, inLoop);
    case For(None, b) => SafeWhile(s, b, stack, held, choices, owners, inLoop);
    case For(Some(init), b) => SafeFor(init, b, stack, held, choices, owners, inLoop);
    case Break => SafeLeave(s, LoopFrom(stack), None, stack, held, choices, owners, inLoop);
    case Continue => SafeLeave(s, LoopFrom(stack), None, stack, held, choices, owners, inLoop);
    case Return(keep, _) => SafeLeave(s, 0, keep, stack, held, choices, owners, inLoop);
    case Throw(keep, _) => SafeLeave(s, 0, keep, stack, held, choices, owners, inLoop);
  }

  lemma {:induction false} SafePlain(stack: seq<Scope>, held: set<string>, choices: seq<bool>,
                                     owners: set<string>, inLoop: bool)
    requires stack != [] && AllVars(stack) <= held <= owners
    ensures var (out, st) := AnalyzeStmt(Plain, stack);
            SafeRun(ExecList(out, held, choices), held, owners, inLoop, stack, st, {})
  {
    ExecSingle(Plain, held, choices);
  }

  lemma {:induction false} SafeBlock(b: seq<Stmt>, stack: seq<Scope>, held: set<string>, choices: seq<bool>,
                                     owners: set<string>, inLoop: bool)
    requires Plausible(b, owners, inLoop) && NoDuplicates(Names(b)) && NameSet(Names(b)) !! AllVars(stack)
    requires stack != [] && AllVars(stack) <= held <= owners
    ensures var (out, st) := AnalyzeStmt(Block(b), stack);
            SafeRun(ExecList(out, held, choices), held, owners, inLoop, stack, st, NameSet(Names(b)))
    decreases |choices|, Block(b), 0
  {
    hide AllVars, LoopVars, AnalyzeList, AnalyzeScope, AtScopeEnd;
    var (b', st) := AnalyzeScope(b, stack, false);
    ExecSingle(Block(b'), held, choices);
    SafeScope(b, stack, false, held, choices, owners, inLoop);
    ScopeStack(b, stack, false, owners, inLoop);
    WeakerVars(st, stack);
    LoopVarsAll(stack);
  }

  lemma {:induction false} SafeIf(t: seq<Stmt>, stack: seq<Scope>, held: set<string>, choices: seq<bool>,
                                  owners: set<string>, inLoop: bool)
    requires Plausible(t, owners, inLoop) && NoDuplicates(Names(t)) && NameSet(Names(t)) !! AllVars(stack)
    requires stack != [] && AllVars(stack) <= held <= owners
    ensures var (out, st) := AnalyzeStmt(If(t, NoElse), stack);
            SafeRun(ExecList(out, held, choices), held, owners, inLoop, stack, st, NameSet(Names(t)))
    decreases |choices|, If(t, NoElse), 0
  {
    hide AllVars, LoopVars, AnalyzeList, AnalyzeScope, AtScopeEnd;
    var (t', st) := AnalyzeScope(t, stack, false);
    ExecSingle(If(t', NoElse), held, choices);
    ScopeStack(t, stack, false, owners, inLoop);
    WeakerVars(st, stack);
    LoopVarsAll(stack);
    if choices != [] && choices[0] {
      SafeScope(t, stack, false, held, choices[1..], owners, inLoop);
    }
  }

  lemma {:induction false} SafeWhile(s: Stmt, b: seq<Stmt>, stack: seq<Scope>, held: set<string>, choices: seq<bool>,
                                     owners: set<string>, inLoop: bool)
    requires s == While(b) || s == For(None, b)
    requires Plausible(b, owners, true) && NoDuplicates(Names(b)) && NameSet(Names(b)) !! AllVars(stack)
    requires stack != [] && AllVars(stack) <= held <= owners
    ensures var (out, st) := AnalyzeStmt(s, stack);
            SafeRun(ExecList(out, held, choices), held, owners, inLoop, stack, st, NameSet(Names(b)))
    decreases |choices|, s, 0
  {
    hide AllVars, LoopVars, AnalyzeList, AnalyzeScope, AtScopeEnd;
    var (b', st) := AnalyzeScope(b, stack, true);
    var s' := if s.While? then While(b') else For(None, b');
    ExecSingle(s', held, choices);
    SafeLoop(b, stack, held, choices, owners);
    ScopeStack(b, stack, true, owners, true);
    WeakerVars(st, stack);
  }

  lemma {:induction false} SafeLeave(s: Stmt, from: nat, keep: Option<string>, stack: seq<Scope>, held: set<string>,
                                     choices: seq<bool>, owners: set<string>, inLoop: bool)
    requires stack != [] && AllVars(stack) <= held <= owners && from <= |stack| && Leaves(s, from, keep, stack, inLoop)
    ensures var (out, st) := AnalyzeStmt(s, stack);
            SafeRun(ExecList(out, held, choices), held, owners, inLoop, stack, st, {})
  {
    SafeExit(s, from, keep, stack, held, choices, owners, inLoop);
    assert stack[0..] == stack;
  }

  /** `s` leaves the scopes from `from` on, and its releases skip `keep`. */
  predicate Leaves(s: Stmt, from: nat, keep: Option<string>, stack: seq<Scope>, inLoop: bool) {
    match s
    case Break => inLoop && from == LoopFrom(stack) && keep.None?
    case Continue => inLoop && from == LoopFrom(stack) && keep.None?
    case Return(k, _) => from == 0 && k == keep
    case Throw(k, _) => from == 0 && k == keep
    case _ => false
  }

  lemma {:induction false} SafeDecl(x: string, owned: bool, stack: seq<Scope>, held: set<string>, choices: seq<bool>,
                                    owners: set<string>, inLoop: bool)
    requires (owned ==> x in owners) && Ready({x}, stack) && AllVars(stack) <= held <= owners
    ensures var (out, st) := AnalyzeStmt(Decl(x, owned), stack);
            SafeRun(ExecList(out, held, choices), held, owners, inLoop, stack, st, {x})
  {
    ExecSingle(Decl(x, owned), held, choices);
    ReadyForName(stack, {x}, x);
    DeclEvolved(stack, x, owned, {x});
  }

  lemma {:induction false} SafeAssign(x: string, owned: bool, stack: seq<Scope>, held: set<string>,
                                      choices: seq<bool>, owners: set<string>, inLoop: bool)
    requires (owned <==> x in owners) && Ready({}, stack) && AllVars(stack) <= held <= owners
    ensures var (out, st) := AnalyzeStmt(Assign(x, owned), stack);
            SafeRun(ExecList(out, held, choices), held, owners, inLoop, stack, st, {})
  {
    ExecSingle(Assign(x, owned), held, choices);
    if owned && x in stack[|stack| - 1].declared && x !in stack[|stack| - 1].vars {
      AddVarEvolved(stack, x, {});
    }
  }

  lemma {:induction false} SafeIfElse(t: seq<Stmt>, e: seq<Stmt>, stack: seq<Scope>, held: set<string>,
                                      choices: seq<bool>,
                   owners: set<string>, inLoop: bool)
    requires Plausible(t, owners, inLoop) && Plausible(e, owners, inLoop) && NoDuplicates(Names(t) + Names(e))
    requires stack != [] && NameSet(Names(t) + Names(e)) !! AllVars(stack)
    requires AllVars(stack) <= held <= owners
    ensures var (out, st) := AnalyzeStmt(If(t, Else(e)), stack);
            SafeRun(ExecList(out, held, choices), held, owners, inLoop, stack, st, NameSet(Names(t) + Names(e)))
    decreases |choices|, If(t, Else(e)), 0
  {
    hide AllVars, LoopVars, AnalyzeList, AnalyzeScope, AtScopeEnd;
    NamesApart(Names(t), Names(e));
    ScopeStack(t, stack, false, owners, inLoop);
    var (t', st1) := AnalyzeScope(t, stack, false);
    WeakerVars(st1, stack);
    ScopeStack(e, st1, false, owners, inLoop);
    var (e', st2) := AnalyzeScope(e, st1, false);
    WeakerVars(st2, st1);
    LoopVarsAll(stack);
    LoopVarsWeaker(stack, st1);
    ExecSingle(If(t', Else(e')), held, choices);
    if choices != [] {
      if choices[0] {
        SafeScope(t, stack, false, held, choices[1..], owners, inLoop);
      } else {
        SafeScope(e, st1, false, held, choices[1..], owners, inLoop);
      }
    }
  }

  lemma {:induction false} LoopVarsWeaker(before: seq<Scope>, after: seq<Scope>)
    requires Weaker(after, before) && LoopFrom(after) == LoopFrom(before)
    ensures AllVars(after[LoopFrom(before)..]) <= AllVars(before[LoopFrom(before)..])
  {
    WeakerSlice(after, before, LoopFrom(before));
    WeakerVars(after[LoopFrom(before)..], before[LoopFrom(before)..]);
  }

  lemma {:induction false} SafeFor(init: (string, bool), b: seq<Stmt>, stack: seq<Scope>, held: set<string>,
                                   choices: seq<bool>,
                owners: set<string>, inLoop: bool)
    requires Plausible(b, owners, true) && NoDuplicates([init.0] + Names(b)) && (init.1 ==> init.0 in owners)
    requires stack != [] && Ready(NameSet([init.0] + Names(b)), stack)
    requires AllVars(stack) <= held <= owners
    ensures var (out, st) := AnalyzeStmt(For(Some(init), b), stack);
            SafeRun(ExecList(out, held, choices), held, owners, inLoop, stack, st, NameSet([init.0] + Names(b)))
    decreases |choices|, For(Some(init), b), 0
  {
    hide AllVars, LoopVars, Ready, AnalyzeList, AnalyzeScope, AtScopeEnd;
    NamesApart([init.0], Names(b));
    assert NameSet([init.0]) == {init.0};
    ForStack(init, b, stack, owners);
    ReadyForName(stack, NameSet([init.0] + Names(b)), init.0);
    var mid := if init.1 then AddVar(stack, init.0) else stack;
    ReadySubset(NameSet(Names(b)), NameSet(Names(b)), mid);
    var r := ExecDecl(init.0, init.1, held, choices);
    SafeLoop(b, mid, r.held, choices, owners);
    ScopeStack(b, mid, true, owners, true);
    var (b', st) := AnalyzeScope(b, mid, true);
    WeakerVars(st, mid);
    ExecSingle(For(Some(init), b'), held, choices);
  }

  lemma {:induction false} LoopVarsAll(stack: seq<Scope>)
    ensures AllVars(stack[LoopFrom(stack)..]) <= LoopVars(stack)
  {
  }

  /** An exit clears the scopes it leaves and releases what was in them. */
  lemma {:induction false} SafeExit(s: Stmt, from: nat, keep: Option<string>, stack: seq<Scope>, held: set<string>,
                                    choices: seq<bool>, owners: set<string>, inLoop: bool)
    requires AllVars(stack) <= held <= owners && from <= |stack|
    requires Leaves(s, from, keep, stack, inLoop)
    ensures var r := ExecList(ReleasesOf(Collect(stack[from..]), keep) + [s], held, choices);
            && SafeRun(r, held, owners, inLoop, stack, ClearFrom(stack, from), {})
            && r.out == Exec(s, {}, []).out
            && !r.leaked && r.held == held - (AllVars(stack[from..]) - if keep.Some? then {keep.value} else {})
  {
    AllVarsSplit(stack, from);
    CollectFacts(stack[from..]);
    ExecExit(Collect(stack[from..]), keep, s, held, choices);
  }

  /** The rewritten body, as `arc_local_analyze` leaves it. */
  function Rewritten(body: seq<Stmt>): seq<Stmt> {
    AnalyzeScope(body, [], false).0
  }

  /**
   In no execution of the rewritten body is a variable released that holds no acquired object: nothing
   is released twice, and nothing before it is acquired.
   */
  lemma {:induction false} NoBadRelease(body: seq<Stmt>, owners: set<string>, choices: seq<bool>)
    requires Plausible(body, owners, false) && NoDuplicates(Names(body))
    ensures !ExecList(Rewritten(body), {}, choices).bad
  {
    SafeScope(body, [], false, {}, choices, owners, false);
  }
}
