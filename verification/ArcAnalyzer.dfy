/**
 `arc_local_analyze` as the program runs it (crates/arc/src/arc.rs:79-381): a scope stack that is
 pushed, cleared and popped, and a statement vector that grows under the index that walks it.
 Every method is proved against the functions of module `Arc`.
 */
module ArcAnalyzer {
  import opened Wrappers
  import opened Arc

  class Analyzer {
    var stack: seq<Scope>

    constructor ()
      ensures stack == []
    {
      stack := [];
    }

    /** `collect_vars` */
    method CollectVars(from: nat) returns (v: seq<string>)
      requires from <= |stack|
      ensures v == Collect(stack[from..])
    {
      v := [];
      for i := from to |stack|
        invariant v == Collect(stack[from..i])
      {
        ghost var before := v;
        var vars := stack[i].vars;
        for j := 0 to |vars|
          invariant AddNew(v, vars[j..]) == AddNew(before, vars)
        {
          assert vars[j..][1..] == vars[j + 1..];
          if vars[j] !in v {
            v := v + [vars[j]];
          }
        }
        assert stack[from..i + 1][..i - from] == stack[from..i];
      }
      assert stack[from..|stack|] == stack[from..];
    }

    /** `insert_releases_before`: every release goes in front of `pos`, so the last one ends up first. */
    static method InsertReleasesBefore(stmts: seq<Stmt>, pos: nat, vars: seq<string>, keep: Option<string>)
      returns (out: seq<Stmt>, count: nat)
      requires pos <= |stmts|
      ensures out == stmts[..pos] + ReleasesOf(vars, keep) + stmts[pos..]
      ensures count == |ReleasesOf(vars, keep)|
    {
      out, count := stmts, 0;
      var left := vars;
      ghost var done: seq<Stmt> := [];
      while left != []
        invariant out == stmts[..pos] + done + stmts[pos..] && count == |done|
        invariant ReleasesOf(left, keep) + done == ReleasesOf(vars, keep)
        decreases |left|
      {
        var name := left[0];
        left := left[1..];
        if keep != Some(name) {
          out := out[..pos] + [Release(name)] + out[pos..];
          count := count + 1;
          done := [Release(name)] + done;
        }
      }
    }

    method ClearVars(from: nat)
      requires from <= |stack|
      modifies this
      ensures stack == ClearFrom(old(stack), from)
    {
      for i := from to |stack|
        invariant |stack| == |old(stack)|
        invariant forall k :: 0 <= k < |stack| ==>
                    stack[k] == if from <= k < i then old(stack)[k].(vars := []) else old(stack)[k]
      {
        stack := stack[i := stack[i].(vars := [])];
      }
    }

    /** `drop_var`: `vars.retain(|v| v != name)` in every scope. */
    method Drop(name: string)
      modifies this
      ensures stack == DropVar(old(stack), name)
    {
      for i := 0 to |stack|
        invariant |stack| == |old(stack)|
        invariant forall k :: 0 <= k < |stack| ==>
                    stack[k] == if k < i then old(stack)[k].(vars := Without(old(stack)[k].vars, name))
                        else old(stack)[k]
      {
        stack := stack[i := stack[i].(vars := Without(stack[i].vars, name))];
      }
    }

    /** From which scope on `break` and `continue` release. */
    method NearestLoop() returns (from: nat)
      requires stack != []
      ensures from == LoopFrom(stack)
    {
      from := |stack|;
      assert stack[..from] == stack;
      while from > 0
        invariant from <= |stack|
        invariant from > 0 ==> LoopFrom(stack[..from]) == LoopFrom(stack)
        invariant from == |stack| || !stack[from].insideLoop
        invariant from == 0 ==> LoopFrom(stack) == 0
      {
        from := from - 1;
        assert stack[..from + 1][..from] == stack[..from];
        if stack[from].insideLoop {
          assert LoopFrom(stack[..from + 1]) == from;
          return;
        }
      }
    }

    /** `analyze_scope` */
    method Analyze(body: seq<Stmt>, insideLoop: bool) returns (stmts: seq<Stmt>)
      modifies this
      ensures (stmts, stack) == AnalyzeScope(body, old(stack), insideLoop)
      decreases body, 1
    {
      hide AnalyzeStmt, Resume, AnalyzeList, ReleasesOf;
      stmts := body;
      stack := stack + [Scope([], [], insideLoop)];
      var mine := |stack| - 1;
      ghost var entry := stack;
      var i := 0;
      ghost var k := 0;     // how much of `body` has been analysed
      ResumeStart(body, entry);
      while i < |stmts|
        invariant k <= |body| && i <= |stmts| && stmts[i..] == body[k..]
        invariant |stack| == mine + 1 == |entry|
        invariant AnalyzeList(body, entry) == Resume(stmts[..i], body[k..], stack)
        decreases |body| - k
      {
        ghost var before, prefix, rest := stack, stmts[..i], stmts[i + 1..];
        assert stmts[i] == body[k..][0] == body[k] && body[k..][1..] == body[k + 1..];
        var n;
        stmts, n := AnalyzeAt(stmts, i);
        i := i + 1 + n;
        k := k + 1;
        assert stmts[i..] == rest && stmts[..i] == prefix + AnalyzeStmt(body[k - 1], before).0;
        ResumeStep(prefix, body[k - 1..], before);
      }
      assert body[k..] == [] && stmts[..i] == stmts;
      ResumeEnd(stmts, stack);
      var own := stack[mine].vars;
      if own != [] {
        var pos := if stmts != [] && stmts[|stmts| - 1].Return? then |stmts| - 1 else |stmts|;
        var count;
        stmts, count := InsertReleasesBefore(stmts, pos, own, None);
      } else {
        NothingAtEnd(stmts);
      }
      stack := stack[..mine];
    }

    /** One round of the loop over the statements: `n` releases went in front of the statement. */
    method AnalyzeAt(stmts: seq<Stmt>, i: nat) returns (out: seq<Stmt>, n: nat)
      requires stack != [] && i < |stmts|
      modifies this
      ensures out == stmts[..i] + AnalyzeStmt(stmts[i], old(stack)).0 + stmts[i + 1..]
      ensures n + 1 == |AnalyzeStmt(stmts[i], old(stack)).0|
      ensures stack == AnalyzeStmt(stmts[i], old(stack)).1
      decreases stmts[i], 0
    {
      hide AnalyzeScope, LoopFrom, Collect, ReleasesOf, ClearFrom, DropVar;
      out, n := stmts, 0;
      var mine := |stack| - 1;
      match stmts[i] {
        case Plain =>
        case NoArc(_) =>
        case Decl(x, owned) =>
          if owned {
            stack := stack[mine := stack[mine].(vars := stack[mine].vars + [x])];
          }
          stack := stack[mine := stack[mine].(declared := stack[mine].declared + [x])];
        case Assign(x, owned) =>
          if owned && x in stack[mine].declared && x !in stack[mine].vars {
            stack := stack[mine := stack[mine].(vars := stack[mine].vars + [x])];
          }
        case Release(x) =>
          Drop(x);
        case Block(b) =>
          var b' := Analyze(b, false);
          out := stmts[i := Block(b')];
        case If(t, e) =>
          var t' := Analyze(t, false);
          var e' := e;
          if e.Else? {
            var els := Analyze(e.body, false);
            e' := Else(els);
          }
          out := stmts[i := If(t', e')];
        case While(b) =>
          var b' := Analyze(b, true);
          out := stmts[i := While(b')];
        case For(init, b) =>
          if init.Some? && init.value.1 {
            stack := stack[mine := stack[mine].(vars := stack[mine].vars + [init.value.0])];
          }
          var b' := Analyze(b, true);
          out := stmts[i := For(init, b')];
        case Break =>
          out, n := LeaveLoop(stmts, i);
        case Continue =>
          out, n := LeaveLoop(stmts, i);
        case Return(keep, _) =>
          out, n := LeaveBody(stmts, i, keep);
        case Throw(keep, _) =>
          out, n := LeaveBody(stmts, i, keep);
      }
      assert stmts[i..] == [stmts[i]] + stmts[i + 1..];
    }

    method LeaveLoop(stmts: seq<Stmt>, i: nat) returns (out: seq<Stmt>, n: nat)
      requires stack != [] && i < |stmts|
      modifies this
      ensures out == stmts[..i] + ReleasesOf(Collect(old(stack)[LoopFrom(old(stack))..]), None) + stmts[i..]
      ensures n == |ReleasesOf(Collect(old(stack)[LoopFrom(old(stack))..]), None)|
      ensures stack == ClearFrom(old(stack), LoopFrom(old(stack)))
    {
      var from := NearestLoop();
      var vars := CollectVars(from);
      out, n := InsertReleasesBefore(stmts, i, vars, None);
      ClearVars(from);
    }

    method LeaveBody(stmts: seq<Stmt>, i: nat, keep: Option<string>) returns (out: seq<Stmt>, n: nat)
      requires i < |stmts|
      modifies this
      ensures out == stmts[..i] + ReleasesOf(Collect(old(stack)), keep) + stmts[i..]
      ensures n == |ReleasesOf(Collect(old(stack)), keep)|
      ensures stack == ClearFrom(old(stack), 0)
    {
      var vars := CollectVars(0);
      assert stack[0..] == stack;
      out, n := InsertReleasesBefore(stmts, i, vars, keep);
      ClearVars(0);
    }
  }

  /** `arc_local_analyze`: the analysis of a whole body, with an empty stack. */
  method LocalAnalyze(body: seq<Stmt>, ghost owners: set<string>) returns (out: seq<Stmt>)
    ensures out == Rewritten(body)
    ensures Plausible(body, owners, false) && NoDuplicates(Names(body)) ==>
              forall choices :: !ExecList(out, {}, choices).bad
  {
    var analyzer := new Analyzer();
    out := analyzer.Analyze(body, false);
    if Plausible(body, owners, false) && NoDuplicates(Names(body)) {
      forall choices
        ensures !ExecList(out, {}, choices).bad
      {
        NoBadRelease(body, owners, choices);
      }
    }
  }

  /** The result of a list of which `done` is the part rewritten so far. */
  ghost function Resume(done: seq<Stmt>, rest: seq<Stmt>, stack: seq<Scope>): (seq<Stmt>, seq<Scope>)
    requires stack != []
  {
    var (out, st) := AnalyzeList(rest, stack);
    (done + out, st)
  }

  lemma {:induction false} ResumeStart(body: seq<Stmt>, stack: seq<Scope>)
    requires stack != []
    ensures Resume(body[..0], body[0..], stack) == AnalyzeList(body, stack)
  {
    assert body[0..] == body;
    assert body[..0] + AnalyzeList(body, stack).0 == AnalyzeList(body, stack).0;
  }

  lemma {:induction false} ResumeStep(done: seq<Stmt>, rest: seq<Stmt>, stack: seq<Scope>)
    requires stack != [] && rest != []
    ensures var (out, st) := AnalyzeStmt(rest[0], stack);
            Resume(done, rest, stack) == Resume(done + out, rest[1..], st)
  {
    var (o1, st1) := AnalyzeStmt(rest[0], stack);
    var (o2, st2) := AnalyzeList(rest[1..], st1);
    assert done + (o1 + o2) == done + o1 + o2;
  }

  lemma {:induction false} ResumeEnd(done: seq<Stmt>, stack: seq<Scope>)
    requires stack != []
    ensures Resume(done, [], stack) == (done, stack)
  {
    assert done + [] == done;
  }

  lemma {:induction false} NothingAtEnd(stmts: seq<Stmt>)
    ensures AtScopeEnd(stmts, []) == stmts
  {
  }
}
