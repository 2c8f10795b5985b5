/**
 What `@try`/`@catch`/`@finally`/`@throw` mean in the source language, and when the lowering
 (crates/codegen/src/codegen.rs:2060-2602) keeps that meaning.
 */
module TryMeaning {
  import opened Wrappers
  import opened TryLowering

  // ---------------------------------------------------------------- structured meaning

  datatype Ending = Completes | Raises(e: Pointer) | Faults | Unfinished

  datatype Meaning = Meaning(end: Ending, world: World)

  /**
   What the statements mean in the source language. `current` is the exception that `@throw;`
   raises again. Local variables keep their values; which of them a jump of the emitted C leaves indeterminate is
   noted on the way and has no influence (`StructuredIgnoresLost`). Three things are taken from the lowering,
   through `Select`: an isa check on nil faults, a typed catch takes objects of exactly its class and none of a
   subclass, and a catch of a class the unit does not know takes everything.
   */
  function Structured(s: Stmt, env: Env, current: Pointer, world: World, fuel: nat,
                      known: set<string>, cond: Conditions): Meaning
    decreases fuel, s
  {
    match s
    case Skip => Meaning(Completes, world)
    case Call(tag, arg) =>
      if !Assigned(arg, world) then Meaning(Faults, world)
      else Meaning(Completes, Emit(world, Event(tag, Eval(arg, env, world))))
    case Assign(name, e) =>
      if !Assigned(e, world) then Meaning(Faults, world)
      else Meaning(Completes, Write(world, name, Eval(e, env, world)))
    case Seq(a, b) =>
      var r := Structured(a, env, current, world, fuel, known, cond);
      if r.end.Completes? then Structured(b, env, current, r.world, fuel, known, cond) else r
    case If(n, on, a, b) =>
      if !Assigned(on, world) then Meaning(Faults, world)
      else Structured(if Decide(cond, n, on, env, world) then a else b, env, current, world, fuel, known, cond)
    case While(n, on, b) =>
      if fuel == 0 then Meaning(Unfinished, world)
      else if !Assigned(on, world) then Meaning(Faults, world)
      else if !Decide(cond, n, on, env, world) then Meaning(Completes, world)
      else
        var r := Structured(b, env, current, world, fuel, known, cond);
        if r.end.Completes? then Structured(s, env, current, r.world, fuel - 1, known, cond) else r
    case Throw(None) => Meaning(Raises(current), world)
    case Throw(Some(e)) =>
      if !Assigned(e, world) then Meaning(Faults, world) else Meaning(Raises(Eval(e, env, world)), world)
    case Try(b, cs, f) =>
      var r := Structured(b, env, current, world, fuel, known, cond);
      var w := Jump(world.clock, r.world);
      var h := if r.end.Raises? then StructuredCatch(cs, env, r.end.e, w, world.clock, fuel, known, cond) else r;
      if f.None? || h.end.Faults? || h.end.Unfinished? then h
      else
        var g := Structured(f.value, env, current, h.world, fuel, known, cond);
        if g.end.Completes? then Meaning(h.end, g.world) else g
  }

  /** At most one handler runs, and what it raises leaves the statement. The body began at `since`. */
  function StructuredCatch(cs: Catches, env: Env, e: Pointer, world: World, since: nat, fuel: nat,
                           known: set<string>, cond: Conditions): Meaning
    decreases fuel, cs
  {
    match Select(cs, e, known)
    case NoMatch => Meaning(Raises(e), world)
    case NilCrash => Meaning(Faults, world)
    case Handler(param, body) =>
      var r := Structured(body, env + [(param, e)], e, world, fuel, known, cond);
      if r.end.Raises? then r.(world := Jump(since, r.world)) else r
  }

  /** Alike but for what a jump has left indeterminate. */
  predicate Alike(w: World, v: World) {
    w.events == v.events && w.vars == v.vars && w.clock == v.clock
  }

  lemma {:induction false} StructuredIgnoresLost(s: Stmt, env: Env, current: Pointer, w: World, v: World, fuel: nat,
                                                 known: set<string>, cond: Conditions)
    requires Alike(w, v)
    ensures var (r, q) := (Structured(s, env, current, w, fuel, known, cond),
                           Structured(s, env, current, v, fuel, known, cond));
            r.end == q.end && Alike(r.world, q.world)
    decreases fuel, s
  {
    var r, q := Structured(s, env, current, w, fuel, known, cond), Structured(s, env, current, v, fuel, known, cond);
    match s
    case Seq(a, b) =>
      StructuredIgnoresLost(a, env, current, w, v, fuel, known, cond);
      var ra := Structured(a, env, current, w, fuel, known, cond);
      var qa := Structured(a, env, current, v, fuel, known, cond);
      StructuredIgnoresLost(b, env, current, ra.world, qa.world, fuel, known, cond);
    case If(n, on, a, b) =>
      StructuredIgnoresLost(if Decide(cond, n, on, env, w) then a else b, env, current, w, v, fuel, known, cond);
    case While(n, on, b) =>
      if fuel > 0 {
        StructuredIgnoresLost(b, env, current, w, v, fuel, known, cond);
        var rb := Structured(b, env, current, w, fuel, known, cond);
        var qb := Structured(b, env, current, v, fuel, known, cond);
        StructuredIgnoresLost(s, env, current, rb.world, qb.world, fuel - 1, known, cond);
      }
    case Try(b, cs, f) => TryIgnoresLost(b, cs, f, env, current, w, v, fuel, known, cond);
    case _ =>
  }

  lemma {:induction false} TryIgnoresLost(b: Stmt, cs: Catches, f: Option<Stmt>, env: Env, current: Pointer, w: World,
                                          v: World, fuel: nat, known: set<string>, cond: Conditions)
    requires Alike(w, v)
    ensures var s := Try(b, cs, f);
            var (r, q) := (Structured(s, env, current, w, fuel, known, cond),
                           Structured(s, env, current, v, fuel, known, cond));
            r.end == q.end && Alike(r.world, q.world)
    decreases fuel, Try(b, cs, f), 0
  {
    hide Select;
    StructuredIgnoresLost(b, env, current, w, v, fuel, known, cond);
    var rb, qb := Structured(b, env, current, w, fuel, known, cond), Structured(b, env, current, v, fuel, known, cond);
    var w', v' := Jump(w.clock, rb.world), Jump(v.clock, qb.world);
    var rh, qh := rb, qb;
    if rb.end.Raises? {
      CatchIgnoresLost(cs, env, rb.end.e, w', v', w.clock, fuel, known, cond);
      rh := StructuredCatch(cs, env, rb.end.e, w', w.clock, fuel, known, cond);
      qh := StructuredCatch(cs, env, rb.end.e, v', w.clock, fuel, known, cond);
    }
    if f.Some? {
      StructuredIgnoresLost(f.value, env, current, rh.world, qh.world, fuel, known, cond);
    }
  }

  lemma {:induction false} CatchIgnoresLost(cs: Catches, env: Env, e: Pointer, w: World, v: World, since: nat,
                                            fuel: nat, known: set<string>, cond: Conditions)
    requires Alike(w, v)
    ensures var (r, q) := (StructuredCatch(cs, env, e, w, since, fuel, known, cond),
                           StructuredCatch(cs, env, e, v, since, fuel, known, cond));
            r.end == q.end && Alike(r.world, q.world)
    decreases fuel, cs
  {
    var c := Select(cs, e, known);
    if c.Handler? {
      StructuredIgnoresLost(c.body, env + [(c.param, e)], e, w, v, fuel, known, cond);
    }
  }

  predicate Same(r: Effect, m: Meaning) {
    && r.world == m.world
    && match r.out
       case Normal => m.end.Completes?
       case Thrown => m.end == Raises(r.value)
       case Crash => m.end.Faults?
       case OutOfFuel => m.end.Unfinished?
  }

  // ---------------------------------------------------------------- the exception variable, from the source

  function Later(earlier: Option<Pointer>, later: Option<Pointer>): Option<Pointer> {
    if later.Some? then later else earlier
  }

  /** The operand of the last `@throw e;` that the structured run executes, if it executes one. */
  function LastThrown(s: Stmt, env: Env, current: Pointer, world: World, fuel: nat,
                      known: set<string>, cond: Conditions): Option<Pointer>
    decreases fuel, s
  {
    match s
    case Skip => None
    case Call(_, _) => None
    case Assign(_, _) => None
    case Seq(a, b) =>
      var r := Structured(a, env, current, world, fuel, known, cond);
      var l := LastThrown(a, env, current, world, fuel, known, cond);
      if r.end.Completes? then Later(l, LastThrown(b, env, current, r.world, fuel, known, cond)) else l
    case If(n, on, a, b) =>
      LastThrown(if Decide(cond, n, on, env, world) then a else b, env, current, world, fuel, known, cond)
    case While(n, on, b) =>
      if fuel == 0 || !Decide(cond, n, on, env, world) then None
      else
        var r := Structured(b, env, current, world, fuel, known, cond);
        var l := LastThrown(b, env, current, world, fuel, known, cond);
        if r.end.Completes? then Later(l, LastThrown(s, env, current, r.world, fuel - 1, known, cond)) else l
    case Throw(None) => None
    case Throw(Some(e)) => Some(Eval(e, env, world))
    case Try(b, cs, f) =>
      var r := Structured(b, env, current, world, fuel, known, cond);
      var l := LastThrown(b, env, current, world, fuel, known, cond);
      var w := Jump(world.clock, r.world);
      var h := if r.end.Raises? then StructuredCatch(cs, env, r.end.e, w, world.clock, fuel, known, cond) else r;
      var lh := if r.end.Raises? then Later(l, LastInCatch(cs, env, r.end.e, w, fuel, known, cond)) else l;
      if f.None? || h.end.Faults? || h.end.Unfinished? then lh
      else Later(lh, LastThrown(f.value, env, current, h.world, fuel, known, cond))
  }

  function LastInCatch(cs: Catches, env: Env, e: Pointer, world: World, fuel: nat,
                       known: set<string>, cond: Conditions): Option<Pointer>
    decreases fuel, cs
  {
    var c := Select(cs, e, known);
    if c.Handler? then LastThrown(c.body, env + [(c.param, e)], e, world, fuel, known, cond) else None
  }

  function After(value: Pointer, last: Option<Pointer>): Pointer {
    if last.Some? then last.value else value
  }

  /** Does not read one of these variables. */
  predicate Safe(e: Expr, lost: set<string>) {
    e.Var? ==> e.name !in lost
  }

  /**
   Where the emitted C could leave the source, it does not, in the structured run that starts with
   `value` as the last exception thrown: no handler raises what a catch of its own statement takes, no
   finally part that completes changes the exception in flight, `@throw;` finds the exception being handled, and no
   local variable is read that was assigned in a body or handler left by an exception and not assigned again since.
   */
  predicate Faithful(s: Stmt, env: Env, current: Pointer, value: Pointer, world: World, fuel: nat,
                     known: set<string>, cond: Conditions)
    decreases fuel, s
  {
    match s
    case Skip => true
    case Call(_, arg) => Safe(arg, world.lost)
    case Assign(_, e) => Safe(e, world.lost)
    case Seq(a, b) =>
      var r := Structured(a, env, current, world, fuel, known, cond);
      var v := After(value, LastThrown(a, env, current, world, fuel, known, cond));
      && Faithful(a, env, current, value, world, fuel, known, cond)
      && (r.end.Completes? ==> Faithful(b, env, current, v, r.world, fuel, known, cond))
    case If(n, on, a, b) =>
      && Safe(on, world.lost)
      && Faithful(if Decide(cond, n, on, env, world) then a else b, env, current, value, world, fuel, known, cond)
    case While(n, on, b) =>
      && (fuel > 0 ==> Safe(on, world.lost))
      && (fuel > 0 && Decide(cond, n, on, env, world) ==>
        var r := Structured(b, env, current, world, fuel, known, cond);
        var v := After(value, LastThrown(b, env, current, world, fuel, known, cond));
        && Faithful(b, env, current, value, world, fuel, known, cond)
        && (r.end.Completes? ==> Faithful(s, env, current, v, r.world, fuel - 1, known, cond)))
    case Throw(None) => value == current
    case Throw(Some(e)) => Safe(e, world.lost)
    case Try(b, cs, f) =>
      var r := Structured(b, env, current, world, fuel, known, cond);
      var l := LastThrown(b, env, current, world, fuel, known, cond);
      var w := Jump(world.clock, r.world);
      var h := if r.end.Raises? then StructuredCatch(cs, env, r.end.e, w, world.clock, fuel, known, cond) else r;
      var lh := if r.end.Raises? then Later(l, LastInCatch(cs, env, r.end.e, w, fuel, known, cond)) else l;
      && Faithful(b, env, current, value, world, fuel, known, cond)
      && (r.end.Raises? ==> FaithfulCatch(cs, env, r.end.e, w, fuel, known, cond))
      && (f.Some? && !h.end.Faults? && !h.end.Unfinished? ==>
            && Faithful(f.value, env, current, After(value, lh), h.world, fuel, known, cond)
            && (h.end.Raises? ==> FinallyKeeps(f.value, env, current, h.end.e, h.world, fuel, known, cond)))
  }

  predicate FaithfulCatch(cs: Catches, env: Env, e: Pointer, world: World, fuel: nat,
                          known: set<string>, cond: Conditions)
    decreases fuel, cs
  {
    var c := Select(cs, e, known);
    c.Handler? ==>
      var r := Structured(c.body, env + [(c.param, e)], e, world, fuel, known, cond);
      && Faithful(c.body, env + [(c.param, e)], e, e, world, fuel, known, cond)
      && (r.end.Raises? ==> Select(cs, r.end.e, known).NoMatch?)
  }

  /** If the finally part completes, it threw nothing, or last of all the exception in flight. */
  predicate FinallyKeeps(g: Stmt, env: Env, current: Pointer, e: Pointer, world: World, fuel: nat,
                         known: set<string>, cond: Conditions)
    decreases fuel, g, 1
  {
    var last := LastThrown(g, env, current, world, fuel, known, cond);
    Structured(g, env, current, world, fuel, known, cond).end.Completes? ==> last == None || last == Some(e)
  }

  /** What `__nupa_exception_value` holds when the run is over. */
  predicate Holds(r: Effect, value: Pointer, last: Option<Pointer>) {
    r.out.Normal? || r.out.Thrown? ==> r.value == After(value, last)
  }

  /**
   Such a run is the run of the emitted C, and `__nupa_exception_value` ends as the operand of the last
   `@throw e;` that the source executes.
   */
  lemma {:induction false} FaithfulMeansStructured(s: Stmt, env: Env, current: Pointer, value: Pointer,
                                                   world: World, fuel: nat, known: set<string>, cond: Conditions)
    requires Faithful(s, env, current, value, world, fuel, known, cond)
    ensures Same(Exec(s, env, value, world, fuel, known, cond), Structured(s, env, current, world, fuel, known, cond))
    ensures Holds(Exec(s, env, value, world, fuel, known, cond), value,
                  LastThrown(s, env, current, world, fuel, known, cond))
    decreases fuel, s
  {
    match s
    case Skip =>
    case Call(_, _) =>
    case Assign(_, _) =>
    case Seq(a, b) =>
      var r := Exec(a, env, value, world, fuel, known, cond);
      FaithfulMeansStructured(a, env, current, value, world, fuel, known, cond);
      if r.out.Normal? {
        FaithfulMeansStructured(b, env, current, r.value, r.world, fuel, known, cond);
      }
    case If(n, on, a, b) =>
      FaithfulMeansStructured(if Decide(cond, n, on, env, world) then a else b, env, current, value, world, fuel,
                              known, cond);
    case While(n, on, b) =>
      if fuel > 0 && Decide(cond, n, on, env, world) {
        var r := Exec(b, env, value, world, fuel, known, cond);
        FaithfulMeansStructured(b, env, current, value, world, fuel, known, cond);
        if r.out.Normal? {
          FaithfulMeansStructured(s, env, current, r.value, r.world, fuel - 1, known, cond);
        }
      }
    case Throw(operand) =>
    case Try(b, cs, f) =>
      FaithfulTry(b, cs, f, env, current, value, world, fuel, known, cond);
  }

  lemma {:induction false} FaithfulHandlers(cs: Catches, env: Env, e: Pointer, world: World, since: nat,
                                            fuel: nat,
                                            known: set<string>, cond: Conditions)
    requires FaithfulCatch(cs, env, e, world, fuel, known, cond)
    ensures Same(Handle(cs, env, e, world, since, fuel, known, cond),
                 StructuredCatch(cs, env, e, world, since, fuel, known, cond))
    ensures Holds(Handle(cs, env, e, world, since, fuel, known, cond), e,
                  LastInCatch(cs, env, e, world, fuel, known, cond))
    decreases fuel, cs
  {
    var c := Select(cs, e, known);
    if c.Handler? {
      FaithfulMeansStructured(c.body, env + [(c.param, e)], e, e, world, fuel, known, cond);
    }
  }

  lemma {:induction false} FaithfulTry(b: Stmt, cs: Catches, f: Option<Stmt>, env: Env, current: Pointer,
                                       value: Pointer,
                                       world: World, fuel: nat, known: set<string>, cond: Conditions)
    requires Faithful(Try(b, cs, f), env, current, value, world, fuel, known, cond)
    ensures var s := Try(b, cs, f);
            && Same(Exec(s, env, value, world, fuel, known, cond),
                Structured(s, env, current, world, fuel, known, cond))
            && Holds(Exec(s, env, value, world, fuel, known, cond), value,
                     LastThrown(s, env, current, world, fuel, known, cond))
    decreases fuel, Try(b, cs, f), 0
  {
    hide Select, Jump, FaithfulCatch, StructuredCatch, LastInCatch, Handle, Safe;
    var r := Exec(b, env, value, world, fuel, known, cond);
    FaithfulMeansStructured(b, env, current, value, world, fuel, known, cond);
    if r.out.Thrown? {
      FaithfulHandlers(cs, env, r.value, Jump(world.clock, r.world), world.clock, fuel, known, cond);
    }
    var w := Jump(world.clock, r.world);
    var h := if r.out.Thrown? then Handle(cs, env, r.value, w, world.clock, fuel, known, cond) else r;
    if f.Some? && (h.out.Normal? || h.out.Thrown?) {
      FaithfulMeansStructured(f.value, env, current, h.value, h.world, fuel, known, cond);
    }
  }

  // ---------------------------------------------------------------- where it leaves the source

  /** An exception that ends `Handle` is one that no catch of the list takes. */
  lemma {:induction false} HandleEndsUnmatched(cs: Catches, env: Env, value: Pointer, world: World, since: nat,
                                               fuel: nat,
                                               known: set<string>, cond: Conditions)
    ensures var h := Handle(cs, env, value, world, since, fuel, known, cond);
            h.out.Thrown? ==> Select(cs, h.value, known).NoMatch?
    decreases fuel
  {
    var c := Select(cs, value, known);
    if c.Handler? {
      var r := Exec(c.body, env + [(c.param, value)], value, world, fuel, known, cond);
      if r.out.Thrown? && !Select(cs, r.value, known).NoMatch? && fuel > 0 {
        HandleEndsUnmatched(cs, env, r.value, Jump(since, r.world), since, fuel - 1, known, cond);
      }
    }
  }

  /**
   When a handler runs, the lowered catches mean what the source says exactly when the handler
   does not raise an exception that some catch of its own statement takes.
   */
  lemma {:induction false} HandlersFaithfulIff(cs: Catches, env: Env, e: Pointer, world: World, since: nat,
                                               fuel: nat,
                            known: set<string>, cond: Conditions)
    requires var c := Select(cs, e, known);
             c.Handler? && Same(Exec(c.body, env + [(c.param, e)], e, world, fuel, known, cond),
                                Structured(c.body, env + [(c.param, e)], e, world, fuel, known, cond))
    ensures var c := Select(cs, e, known);
            var r := Structured(c.body, env + [(c.param, e)], e, world, fuel, known, cond);
            Same(Handle(cs, env, e, world, since, fuel, known, cond),
                 StructuredCatch(cs, env, e, world, since, fuel, known, cond))
            <==> (r.end.Raises? ==> Select(cs, r.end.e, known).NoMatch?)
  {
    HandleEndsUnmatched(cs, env, e, world, since, fuel, known, cond);
  }

  /**
   A finally part after an exception: the rethrow raises that exception exactly when the finally part
   does not complete, threw nothing, or threw that exception last.
   */
  lemma {:induction false} FinallyFaithfulIff(h: Effect, g: Stmt, s: Stmt, env: Env, current: Pointer, fuel: nat,
                                              known: set<string>, cond: Conditions)
    requires s.Try? && s.fin == Some(g) && h.out.Thrown?
    requires Faithful(g, env, current, h.value, h.world, fuel, known, cond)
    ensures var m := Structured(g, env, current, h.world, fuel, known, cond);
            Same(Finish(h, s.fin, env, fuel, known, cond, s),
                 if m.end.Completes? then Meaning(Raises(h.value), m.world) else m)
            <==> FinallyKeeps(g, env, current, h.value, h.world, fuel, known, cond)
  {
    FaithfulMeansStructured(g, env, current, h.value, h.world, fuel, known, cond);
  }

  /** `@try { @throw a; } @finally { @try { @throw b; } @catch (id param) {} }` */
  function ThrowingFinally(a: Object, b: Object, param: string): Stmt {
    Try(Throw(Some(Literal(Some(a)))), NoCatch,
        Some(Try(Throw(Some(Literal(Some(b)))), Catch(None, param, Skip, NoCatch), None)))
  }

  /** A finally part that throws and catches `b` itself: the source ends with `a`, the emitted C with `b`. */
  lemma {:induction false} FinallyReplacesException(a: Object, b: Object, param: string, current: Pointer, m: Machine,
                                                    next: Kont,
                                                    known: set<string>, cond: Conditions)
    returns (n: nat)
    requires m.Running? && m.k == Do(Lower(ThrowingFinally(a, b, param), known), next) && Alive(m.buf, m.locals)
    ensures Structured(ThrowingFinally(a, b, param), Bindings(m.locals), current, m.world, 1, known, cond)
            == Meaning(Raises(Some(a)), m.world)
    ensures Steps(n, m, cond).Running? && AtLongjmp(Steps(n, m, cond).k) && Steps(n, m, cond).value == Some(b)
  {
    var env, world := Bindings(m.locals), m.world;
    var throwA, throwB := Throw(Some(Literal(Some(a)))), Throw(Some(Literal(Some(b))));
    var cs := Catch(None, param, Skip, NoCatch);
    var own := Try(throwB, cs, None);
    var s := ThrowingFinally(a, b, param);
    JumpAtOnce(world);
    n := Simulate(s, m, next, 1, known, cond);
    assert Exec(throwA, env, m.value, world, 1, known, cond) == Effect(Thrown, Some(a), world);
    assert Exec(throwB, env, Some(a), world, 1, known, cond) == Effect(Thrown, Some(b), world);
    assert Exec(Skip, env + [(param, Some(b))], Some(b), world, 1, known, cond) == Effect(Normal, Some(b), world);
    assert Handle(cs, env, Some(b), world, world.clock, 1, known, cond) == Effect(Normal, Some(b), world);
    assert Exec(own, env, Some(a), world, 1, known, cond) == Effect(Normal, Some(b), world);
    assert Exec(s, env, m.value, world, 1, known, cond) == Effect(Thrown, Some(b), world);
    assert Structured(throwB, env, current, world, 1, known, cond) == Meaning(Raises(Some(b)), world);
    assert Structured(Skip, env + [(param, Some(b))], Some(b), world, 1, known, cond) == Meaning(Completes, world);
    assert StructuredCatch(cs, env, Some(b), world, world.clock, 1, known, cond) == Meaning(Completes, world);
    assert Structured(own, env, current, world, 1, known, cond) == Meaning(Completes, world);
    assert Structured(throwA, env, current, world, 1, known, cond) == Meaning(Raises(Some(a)), world);
  }

  // ---------------------------------------------------------------- the fragment

  /** Some exception may leave the statement. */
  predicate MayThrow(s: Stmt) {
    match s
    case Skip => false
    case Call(_, _) => false
    case Assign(_, _) => false
    case Seq(a, b) => MayThrow(a) || MayThrow(b)
    case If(_, _, a, b) => MayThrow(a) || MayThrow(b)
    case While(_, _, b) => MayThrow(b)
    case Throw(_) => true
    case Try(b, cs, f) =>
      || (f.Some? && MayThrow(f.value))
      || HandlersMayThrow(cs)
      || (MayThrow(b) && !TakesAll(cs))
  }

  predicate HandlersMayThrow(cs: Catches) {
    cs.Catch? && (MayThrow(cs.handler) || HandlersMayThrow(cs.rest))
  }

  predicate TakesAll(cs: Catches) {
    cs.Catch? && (cs.typ.None? || TakesAll(cs.rest))
  }

  /** If the statement completes, `__nupa_exception_value` is what it was before. */
  predicate KeepsValue(s: Stmt) {
    match s
    case Seq(a, b) => KeepsValue(a) && KeepsValue(b)
    case If(_, _, a, b) => KeepsValue(a) && KeepsValue(b)
    case While(_, _, b) => KeepsValue(b)
    case Try(b, cs, f) => KeepsValue(b) && !MayThrow(b) && (f.Some? ==> KeepsValue(f.value))
    case _ => true
  }

  /** The local variables that the statement assigns. */
  function Targets(s: Stmt): set<string> {
    match s
    case Assign(name, _) => {name}
    case Seq(a, b) => Targets(a) + Targets(b)
    case If(_, _, a, b) => Targets(a) + Targets(b)
    case While(_, _, b) => Targets(b)
    case Try(b, cs, f) => Targets(b) + TargetsIn(cs) + if f.Some? then Targets(f.value) else {}
    case _ => {}
  }

  function TargetsIn(cs: Catches): set<string> {
    if cs.Catch? then Targets(cs.handler) + TargetsIn(cs.rest) else {}
  }

  /** The local variables that some jump inside the statement may leave indeterminate. */
  function Shaken(s: Stmt): set<string>
    decreases s, 0
  {
    match s
    case Seq(a, b) => Shaken(a) + Shaken(b)
    case If(_, _, a, b) => Shaken(a) + Shaken(b)
    case While(_, _, b) => Shaken(b)
    case Try(b, cs, f) => Risky(b) + ShakenIn(cs) + if f.Some? then Shaken(f.value) else {}
    case _ => {}
  }

  function ShakenIn(cs: Catches): set<string>
    decreases cs, 0
  {
    if cs.Catch? then Risky(cs.handler) + ShakenIn(cs.rest) else {}
  }

  /** The same when what the statement throws is caught around it. */
  function Risky(s: Stmt): set<string>
    decreases s, 1
  {
    Shaken(s) + if MayThrow(s) then Targets(s) else {}
  }

  /** The variables that may be indeterminate behind a statement that completes. */
  function Doubtful(s: Stmt, lost: set<string>): set<string> {
    match s
    case Assign(name, _) => lost - {name}
    case Seq(a, b) => Doubtful(b, Doubtful(a, lost))
    case If(_, _, a, b) => Doubtful(a, lost) + Doubtful(b, lost)
    case _ => lost + Shaken(s)
  }

  /**
   Handlers let nothing escape, a finally block that can run with an exception in flight catches none of its own, and
   no variable is read that a jump may have left indeterminate. `current` says that the exception being handled is
   surely still the one in `__nupa_exception_value`; only then may a `@throw;` stand there. `lost` are the variables
   that may be indeterminate on entry.
   */
  predicate Contained(s: Stmt, current: bool, lost: set<string>) {
    match s
    case Skip => true
    case Call(_, arg) => Safe(arg, lost)
    case Assign(_, e) => Safe(e, lost)
    case Seq(a, b) => Contained(a, current, lost) && Contained(b, current && KeepsValue(a), Doubtful(a, lost))
    case If(_, on, a, b) => Safe(on, lost) && Contained(a, current, lost) && Contained(b, current, lost)
    case While(_, on, b) => Safe(on, lost + Shaken(b)) && Contained(b, current && KeepsValue(b), lost + Shaken(b))
    case Throw(None) => current
    case Throw(Some(e)) => Safe(e, lost)
    case Try(b, cs, f) =>
      && Contained(b, current, lost) && ContainedHandlers(cs, lost + Risky(b))
      && (f.Some? ==> Contained(f.value, current && KeepsValue(b) && !MayThrow(b), lost + Risky(b) + ShakenIn(cs)))
      && (f.Some? && MayThrow(b) && !TakesAll(cs) ==> KeepsValue(f.value))
  }

  predicate ContainedHandlers(cs: Catches, lost: set<string>) {
    cs.Catch? ==>
      Contained(cs.handler, true, lost) && !MayThrow(cs.handler) && ContainedHandlers(cs.rest, lost)
  }

  lemma {:induction false} SelectFacts(cs: Catches, e: Pointer, known: set<string>, lost: set<string>)
    ensures var c := Select(cs, e, known);
            && (TakesAll(cs) ==> !c.NoMatch?)
            && (c.Handler? && !HandlersMayThrow(cs) ==> !MayThrow(c.body))
            && (c.Handler? ==> Targets(c.body) <= TargetsIn(cs) && Risky(c.body) <= ShakenIn(cs))
            && (c.Handler? && ContainedHandlers(cs, lost) ==> Contained(c.body, true, lost) && !MayThrow(c.body))
    decreases cs
  {
    if cs.Catch? {
      SelectFacts(cs.rest, e, known, lost);
    }
  }

  lemma {:induction false} NothingThrown(s: Stmt, env: Env, value: Pointer, world: World, fuel: nat,
                                         known: set<string>, cond: Conditions)
    requires !MayThrow(s)
    ensures !Exec(s, env, value, world, fuel, known, cond).out.Thrown?
    decreases fuel, s
  {
    match s
    case Skip =>
    case Call(_, _) =>
    case Seq(a, b) =>
      var r := Exec(a, env, value, world, fuel, known, cond);
      NothingThrown(a, env, value, world, fuel, known, cond);
      NothingThrown(b, env, r.value, r.world, fuel, known, cond);
    case Assign(_, _) =>
    case If(n, on, a, b) =>
      NothingThrown(if Decide(cond, n, on, env, world) then a else b, env, value, world, fuel, known, cond);
    case While(n, on, b) =>
      if fuel > 0 {
        var r := Exec(b, env, value, world, fuel, known, cond);
        NothingThrown(b, env, value, world, fuel, known, cond);
        NothingThrown(s, env, r.value, r.world, fuel - 1, known, cond);
      }
    case Try(b, cs, f) =>
      var r := Exec(b, env, value, world, fuel, known, cond);
      if r.out.Thrown? {
        if MayThrow(b) {
          var c := Select(cs, r.value, known);
          SelectFacts(cs, r.value, known, {});
          if c.Handler? {
            NothingThrown(c.body, env + [(c.param, r.value)], r.value, Jump(world.clock, r.world), fuel, known, cond);
          }
        } else {
          NothingThrown(b, env, value, world, fuel, known, cond);
        }
      }
      var w := Jump(world.clock, r.world);
    var h := if r.out.Thrown? then Handle(cs, env, r.value, w, world.clock, fuel, known, cond) else r;
      if f.Some? {
        NothingThrown(f.value, env, h.value, h.world, fuel, known, cond);
      }
  }

  lemma {:induction false} ValueKept(s: Stmt, env: Env, value: Pointer, world: World, fuel: nat,
                                     known: set<string>, cond: Conditions)
    requires KeepsValue(s)
    ensures var r := Exec(s, env, value, world, fuel, known, cond);
            r.out.Normal? ==> r.value == value
    decreases fuel, s
  {
    match s
    case Seq(a, b) =>
      var r := Exec(a, env, value, world, fuel, known, cond);
      ValueKept(a, env, value, world, fuel, known, cond);
      ValueKept(b, env, r.value, r.world, fuel, known, cond);
    case If(n, on, a, b) =>
      ValueKept(if Decide(cond, n, on, env, world) then a else b, env, value, world, fuel, known, cond);
    case While(n, on, b) =>
      if fuel > 0 {
        var r := Exec(b, env, value, world, fuel, known, cond);
        ValueKept(b, env, value, world, fuel, known, cond);
        ValueKept(s, env, r.value, r.world, fuel - 1, known, cond);
      }
    case Try(b, cs, f) =>
      var r := Exec(b, env, value, world, fuel, known, cond);
      ValueKept(b, env, value, world, fuel, known, cond);
      NothingThrown(b, env, value, world, fuel, known, cond);
      if f.Some? {
        ValueKept(f.value, env, r.value, r.world, fuel, known, cond);
      }
    case _ =>
  }

  // ---------------------------------------------------------------- what becomes indeterminate

  /** From `before` to `after` only variables in `names` were assigned. */
  predicate Wrote(before: World, after: World, names: set<string>) {
    && before.clock <= after.clock && before.vars.Keys <= after.vars.Keys
    && forall x <- after.vars ::
         if after.vars[x].stamp < before.clock then x in before.vars && before.vars[x] == after.vars[x] else x in names
  }

  lemma {:induction false} WroteThen(a: World, b: World, c: World, m: set<string>, n: set<string>)
    requires Wrote(a, b, m) && Wrote(b, c, n)
    ensures Wrote(a, c, m + n)
  {
  }

  /** Each variable assigned since then is indeterminate. */
  predicate Jumped(since: nat, w: World) {
    forall x <- w.vars :: w.vars[x].stamp >= since ==> x in w.lost
  }

  /** What a run assigns, and what its jumps may leave indeterminate. */
  predicate Loses(before: World, after: World, targets: set<string>, shaken: set<string>) {
    Wrote(before, after, targets) && after.lost <= before.lost + shaken
  }

  lemma {:induction false} LosesNothing(w: World)
    ensures Loses(w, w, {}, {})
  {
  }

  lemma {:induction false} LosesThen(a: World, b: World, c: World, m: set<string>, n: set<string>, p: set<string>,
                                     q: set<string>)
    requires Loses(a, b, m, p) && Loses(b, c, n, q)
    ensures Loses(a, c, m + n, p + q)
  {
    WroteThen(a, b, c, m, n);
  }

  lemma {:induction false} LosesMore(before: World, after: World, m: set<string>, n: set<string>, p: set<string>,
                                     q: set<string>)
    requires Loses(before, after, m, p) && m <= n && p <= q
    ensures Loses(before, after, n, q)
  {
  }

  lemma {:induction false} JumpLoses(before: World, after: World, targets: set<string>, shaken: set<string>)
    requires Loses(before, after, targets, shaken)
    ensures Loses(before, Jump(before.clock, after), targets, shaken + targets)
    ensures Jumped(before.clock, Jump(before.clock, after))
  {
  }

  /** A later jump to the same place loses what was assigned in between. */
  lemma {:induction false} JumpsAgain(since: nat, before: World, after: World, targets: set<string>,
                                      shaken: set<string>)
    requires Loses(before, after, targets, shaken) && Jumped(since, before)
    ensures Loses(before, Jump(since, after), targets, shaken + targets) && Jumped(since, Jump(since, after))
  {
  }

  lemma {:induction false} RunLoses(s: Stmt, env: Env, value: Pointer, world: World, fuel: nat,
                                    known: set<string>, cond: Conditions)
    ensures Loses(world, Exec(s, env, value, world, fuel, known, cond).world, Targets(s), Shaken(s))
    decreases fuel, s
  {
    hide Loses, Wrote, Jump, Emit, Write, Select;
    LosesNothing(world);
    LosesMore(world, world, {}, Targets(s), {}, Shaken(s));
    match s
    case Skip =>
    case Call(tag, arg) => EmitLoses(world, Event(tag, Eval(arg, env, world)));
    case Assign(name, e) => WriteLoses(world, name, Eval(e, env, world));
    case Seq(a, b) =>
      var r := Exec(a, env, value, world, fuel, known, cond);
      RunLoses(a, env, value, world, fuel, known, cond);
      if r.out.Normal? {
        var r2 := Exec(b, env, r.value, r.world, fuel, known, cond);
        RunLoses(b, env, r.value, r.world, fuel, known, cond);
        LosesThen(world, r.world, r2.world, Targets(a), Targets(b), Shaken(a), Shaken(b));
      } else {
        LosesMore(world, r.world, Targets(a), Targets(s), Shaken(a), Shaken(s));
      }
    case If(n, on, a, b) =>
      if Determinate(on, world) {
        var t := if Decide(cond, n, on, env, world) then a else b;
        RunLoses(t, env, value, world, fuel, known, cond);
        LosesMore(world, Exec(t, env, value, world, fuel, known, cond).world, Targets(t), Targets(s), Shaken(t),
                  Shaken(s));
      }
    case While(n, on, b) =>
      if fuel > 0 && Determinate(on, world) && Decide(cond, n, on, env, world) {
        var r := Exec(b, env, value, world, fuel, known, cond);
        RunLoses(b, env, value, world, fuel, known, cond);
        if r.out.Normal? {
          var r2 := Exec(s, env, r.value, r.world, fuel - 1, known, cond);
          RunLoses(s, env, r.value, r.world, fuel - 1, known, cond);
          LosesThen(world, r.world, r2.world, Targets(b), Targets(b), Shaken(b), Shaken(b));
          LosesMore(world, r2.world, Targets(b) + Targets(b), Targets(b), Shaken(b) + Shaken(b), Shaken(b));
        }
      }
    case Throw(_) =>
    case Try(b, cs, f) => TryLoses(b, cs, f, env, value, world, fuel, known, cond);
  }

  lemma {:induction false} EmitLoses(w: World, e: Event)
    ensures Loses(w, Emit(w, e), {}, {})
  {
  }

  lemma {:induction false} WriteLoses(w: World, name: string, p: Pointer)
    ensures Loses(w, Write(w, name, p), {name}, {})
  {
  }

  lemma {:induction false} TryLoses(b: Stmt, cs: Catches, f: Option<Stmt>, env: Env, value: Pointer, world: World,
                                    fuel: nat, known: set<string>, cond: Conditions)
    ensures var s := Try(b, cs, f);
            Loses(world, Exec(s, env, value, world, fuel, known, cond).world, Targets(s), Shaken(s))
    decreases fuel, Try(b, cs, f), 0
  {
    hide Loses, Wrote, Jump, Select, Jumped;
    var s := Try(b, cs, f);
    var r := Exec(b, env, value, world, fuel, known, cond);
    var h :=
      if r.out.Thrown? then Handle(cs, env, r.value, Jump(world.clock, r.world), world.clock, fuel, known, cond)
      else r;
    RunLoses(b, env, value, world, fuel, known, cond);
    if r.out.Thrown? {
      if !MayThrow(b) {
        NothingThrown(b, env, value, world, fuel, known, cond);
      }
      var caught := Jump(world.clock, r.world);
      JumpLoses(world, r.world, Targets(b), Shaken(b));
      HandleLoses(cs, env, r.value, caught, world.clock, fuel, known, cond);
      LosesThen(world, caught, h.world, Targets(b), TargetsIn(cs), Risky(b), ShakenIn(cs));
    } else {
      LosesMore(world, r.world, Targets(b), Targets(b) + TargetsIn(cs), Shaken(b), Risky(b) + ShakenIn(cs));
    }
    assert Loses(world, h.world, Targets(b) + TargetsIn(cs), Risky(b) + ShakenIn(cs));
    if f.Some? && !h.out.Crash? && !h.out.OutOfFuel? {
      var g := Exec(f.value, env, h.value, h.world, fuel, known, cond);
      RunLoses(f.value, env, h.value, h.world, fuel, known, cond);
      LosesThen(world, h.world, g.world, Targets(b) + TargetsIn(cs), Targets(f.value), Risky(b) + ShakenIn(cs),
                Shaken(f.value));
    } else {
      LosesMore(world, h.world, Targets(b) + TargetsIn(cs), Targets(s), Risky(b) + ShakenIn(cs), Shaken(s));
    }
  }

  lemma {:induction false} HandleLoses(cs: Catches, env: Env, value: Pointer, world: World, since: nat, fuel: nat,
                                       known: set<string>, cond: Conditions)
    requires Jumped(since, world)
    ensures Loses(world, Handle(cs, env, value, world, since, fuel, known, cond).world, TargetsIn(cs), ShakenIn(cs))
    decreases fuel, cs
  {
    hide Loses, Wrote, Jump, Jumped, Targets, Shaken, TargetsIn, ShakenIn;
    LosesNothing(world);
    LosesMore(world, world, {}, TargetsIn(cs), {}, ShakenIn(cs));
    SelectFacts(cs, value, known, {});
    var c := Select(cs, value, known);
    if c.Handler? {
      var r := Exec(c.body, env + [(c.param, value)], value, world, fuel, known, cond);
      RunLoses(c.body, env + [(c.param, value)], value, world, fuel, known, cond);
      if !r.out.Thrown? {
        LosesMore(world, r.world, Targets(c.body), TargetsIn(cs), Shaken(c.body), ShakenIn(cs));
      } else {
        if !MayThrow(c.body) {
          NothingThrown(c.body, env + [(c.param, value)], value, world, fuel, known, cond);
        }
        var w := Jump(since, r.world);
        JumpsAgain(since, world, r.world, Targets(c.body), Shaken(c.body));
        LosesMore(world, w, Targets(c.body), TargetsIn(cs), Shaken(c.body) + Targets(c.body), ShakenIn(cs));
        if !Select(cs, r.value, known).NoMatch? && fuel > 0 {
          HandleLoses(cs, env, r.value, w, since, fuel - 1, known, cond);
          var h := Handle(cs, env, r.value, w, since, fuel - 1, known, cond);
          LosesThen(world, w, h.world, TargetsIn(cs), TargetsIn(cs), ShakenIn(cs), ShakenIn(cs));
          assert TargetsIn(cs) + TargetsIn(cs) == TargetsIn(cs) && ShakenIn(cs) + ShakenIn(cs) == ShakenIn(cs);
        }
      }
    }
  }

  /** Behind a statement that completes only the doubtful variables are indeterminate. */
  lemma {:induction false} CompletedLoses(s: Stmt, lost: set<string>, env: Env, value: Pointer, world: World,
                                          fuel: nat, known: set<string>, cond: Conditions)
    requires world.lost <= lost
    ensures var r := Exec(s, env, value, world, fuel, known, cond); r.out.Normal? ==> r.world.lost <= Doubtful(s, lost)
    decreases s
  {
    match s
    case Assign(_, _) =>
    case Seq(a, b) =>
      var r := Exec(a, env, value, world, fuel, known, cond);
      CompletedLoses(a, lost, env, value, world, fuel, known, cond);
      if r.out.Normal? {
        CompletedLoses(b, Doubtful(a, lost), env, r.value, r.world, fuel, known, cond);
      }
    case If(n, on, a, b) =>
      CompletedLoses(if Decide(cond, n, on, env, world) then a else b, lost, env, value, world, fuel, known, cond);
    case _ => RunLoses(s, env, value, world, fuel, known, cond);
  }

  /**
   A handler that uses a local variable of the function: the emitted C does what the source says exactly when the
   body did not assign the variable before it raised the exception, and no jump has left it indeterminate.
   */
  lemma {:induction false} HandlerReadsIff(b: Stmt, param: string, tag: nat, x: string, env: Env, current: Pointer,
                                           value: Pointer, world: World, fuel: nat, known: set<string>,
                                           cond: Conditions)
    requires Faithful(b, env, current, value, world, fuel, known, cond) && x in world.vars
    requires Structured(b, env, current, world, fuel, known, cond).end.Raises?
    ensures var s := Try(b, Catch(None, param, Call(tag, Var(x)), NoCatch), None);
            var after := Structured(b, env, current, world, fuel, known, cond).world;
            Same(Exec(s, env, value, world, fuel, known, cond), Structured(s, env, current, world, fuel, known, cond))
            <==> x in after.vars && after.vars[x] == world.vars[x] && x !in after.lost
  {
    hide Faithful, Shaken, Targets, LastThrown;
    var call := Call(tag, Var(x));
    var cs := Catch(None, param, call, NoCatch);
    var r := Exec(b, env, value, world, fuel, known, cond);
    FaithfulMeansStructured(b, env, current, value, world, fuel, known, cond);
    RunLoses(b, env, value, world, fuel, known, cond);
    var w := Jump(world.clock, r.world);
    assert Wrote(world, r.world, Targets(b));
    assert r.world.vars[x].stamp < world.clock <==> r.world.vars[x] == world.vars[x];
    assert x in w.lost <==> r.world.vars[x].stamp >= world.clock || x in r.world.lost;
    var use := Event(tag, Eval(Var(x), env + [(param, r.value)], w));
    assert Select(cs, r.value, known) == Handler(param, call);
    assert Handle(cs, env, r.value, w, world.clock, fuel, known, cond)
        == if x in w.lost then Effect(Crash, r.value, w) else Effect(Normal, r.value, Emit(w, use));
    assert StructuredCatch(cs, env, r.value, w, world.clock, fuel, known, cond) == Meaning(Completes, Emit(w, use));
  }

  /** `n = zero; @try { n = one; @throw e; } @catch (id param) { use(n); }` */
  function CountedTry(n: string, zero: Object, one: Object, e: Object, param: string, use: nat): Stmt {
    Seq(Assign(n, Literal(Some(zero))),
        Try(Seq(Assign(n, Literal(Some(one))), Throw(Some(Literal(Some(e))))),
            Catch(None, param, Call(use, Var(n)), NoCatch), None))
  }

  /** The source uses `one`; in the emitted C the use is undefined. */
  lemma {:induction false} LocalLostInHandler(n: string, zero: Object, one: Object, e: Object, param: string,
                                              use: nat, current: Pointer, m: Machine, next: Kont,
                                              known: set<string>, cond: Conditions)
    returns (steps: nat)
    requires m.Running? && m.k == Do(Lower(CountedTry(n, zero, one, e, param, use), known), next)
    requires Alive(m.buf, m.locals)
    ensures var r := Structured(CountedTry(n, zero, one, e, param, use), Bindings(m.locals), current, m.world, 1,
                                known, cond);
            r.end.Completes? && r.world.events == m.world.events + [Event(use, Some(one))]
    ensures Steps(steps, m, cond).Undefined?
  {
    hide Lower;
    var env := Bindings(m.locals);
    var s := CountedTry(n, zero, one, e, param, use);
    var body, cs := s.second.tryBody, s.second.catches;
    var w0 := Write(m.world, n, Some(zero));
    var w1 := Write(w0, n, Some(one));
    var w2 := Jump(w0.clock, w1);
    assert n in w2.lost;
    assert Exec(body.second, env, m.value, w1, 1, known, cond) == Effect(Thrown, Some(e), w1);
    assert Exec(body, env, m.value, w0, 1, known, cond) == Effect(Thrown, Some(e), w1);
    assert Handle(cs, env, Some(e), w2, w0.clock, 1, known, cond).out.Crash?;
    assert Exec(s.second, env, m.value, w0, 1, known, cond).out.Crash?;
    assert Exec(s, env, m.value, m.world, 1, known, cond).out.Crash?;
    steps := Simulate(s, m, next, 1, known, cond);
    assert Structured(body.second, env, current, w1, 1, known, cond) == Meaning(Raises(Some(e)), w1);
    assert Structured(body, env, current, w0, 1, known, cond) == Meaning(Raises(Some(e)), w1);
    assert StructuredCatch(cs, env, Some(e), w2, w0.clock, 1, known, cond)
        == Meaning(Completes, Emit(w2, Event(use, Some(one))));
    assert Structured(s.second, env, current, w0, 1, known, cond)
        == Meaning(Completes, Emit(w2, Event(use, Some(one))));
  }

  // ---------------------------------------------------------------- the fragment is faithful

  /** A statement of the fragment never leaves the source. */
  lemma {:induction false} ContainedIsFaithful(s: Stmt, same: bool, lost: set<string>, env: Env, current: Pointer,
                                               value: Pointer, world: World, fuel: nat, known: set<string>,
                                               cond: Conditions)
    requires Contained(s, same, lost) && (same ==> value == current) && world.lost <= lost
    ensures Faithful(s, env, current, value, world, fuel, known, cond)
    decreases fuel, s
  {
    hide Loses, Jump;
    match s
    case Skip =>
    case Call(_, _) =>
    case Assign(_, _) =>
    case Seq(a, b) =>
      var r := Exec(a, env, value, world, fuel, known, cond);
      var still := same && KeepsValue(a);
      ContainedIsFaithful(a, same, lost, env, current, value, world, fuel, known, cond);
      FaithfulMeansStructured(a, env, current, value, world, fuel, known, cond);
      CompletedLoses(a, lost, env, value, world, fuel, known, cond);
      if r.out.Normal? {
        if still {
          ValueKept(a, env, value, world, fuel, known, cond);
        }
        ContainedIsFaithful(b, still, Doubtful(a, lost), env, current, r.value, r.world, fuel, known, cond);
      }
    case If(n, on, a, b) =>
      ContainedIsFaithful(if Decide(cond, n, on, env, world) then a else b, same, lost, env, current, value, world,
                          fuel, known, cond);
    case While(n, on, b) =>
      ContainedWhile(n, on, b, same, lost, env, current, value, world, fuel, known, cond);
    case Throw(operand) =>
    case Try(b, cs, f) =>
      ContainedTry(b, cs, f, same, lost, env, current, value, world, fuel, known, cond);
  }

  lemma {:induction false} ContainedWhile(n: nat, on: Expr, b: Stmt, same: bool, lost: set<string>, env: Env,
                                          current: Pointer, value: Pointer, world: World, fuel: nat,
                                          known: set<string>, cond: Conditions)
    requires Contained(While(n, on, b), same, lost) && (same ==> value == current) && world.lost <= lost
    ensures Faithful(While(n, on, b), env, current, value, world, fuel, known, cond)
    decreases fuel, While(n, on, b), 0
  {
    hide Loses, Jump, Exec, Shaken;
    var s := While(n, on, b);
    if fuel > 0 && Decide(cond, n, on, env, world) {
      var r := Exec(b, env, value, world, fuel, known, cond);
      var still := same && KeepsValue(b);
      var more := lost + Shaken(b);
      ContainedIsFaithful(b, still, more, env, current, value, world, fuel, known, cond);
      FaithfulMeansStructured(b, env, current, value, world, fuel, known, cond);
      RunLost(b, env, value, world, fuel, known, cond);
      if r.out.Normal? {
        if still {
          ValueKept(b, env, value, world, fuel, known, cond);
        }
        ContainedAgain(n, on, b, same, lost);
        ContainedIsFaithful(s, still, more, env, current, r.value, r.world, fuel - 1, known, cond);
      }
    }
  }

  lemma {:induction false} RunLost(s: Stmt, env: Env, value: Pointer, world: World, fuel: nat,
                                   known: set<string>, cond: Conditions)
    ensures Exec(s, env, value, world, fuel, known, cond).world.lost <= world.lost + Shaken(s)
  {
    RunLoses(s, env, value, world, fuel, known, cond);
  }

  lemma {:induction false} ContainedAgain(n: nat, on: Expr, b: Stmt, same: bool, lost: set<string>)
    requires Contained(While(n, on, b), same, lost)
    ensures Contained(While(n, on, b), same && KeepsValue(b), lost + Shaken(b))
  {
    assert lost + Shaken(b) + Shaken(b) == lost + Shaken(b);
  }

  lemma {:induction false} ContainedCatch(cs: Catches, lost: set<string>, env: Env, e: Pointer, world: World,
                                          since: nat, fuel: nat, known: set<string>, cond: Conditions)
    requires ContainedHandlers(cs, lost) && world.lost <= lost
    ensures FaithfulCatch(cs, env, e, world, fuel, known, cond)
    ensures Handle(cs, env, e, world, since, fuel, known, cond).out.Thrown? ==> !TakesAll(cs)
    decreases fuel, cs
  {
    var c := Select(cs, e, known);
    SelectFacts(cs, e, known, lost);
    if c.Handler? {
      ContainedIsFaithful(c.body, true, lost, env + [(c.param, e)], e, e, world, fuel, known, cond);
      FaithfulMeansStructured(c.body, env + [(c.param, e)], e, e, world, fuel, known, cond);
      NothingThrown(c.body, env + [(c.param, e)], e, world, fuel, known, cond);
    }
  }

  lemma {:induction false} ContainedTry(b: Stmt, cs: Catches, f: Option<Stmt>, same: bool, lost: set<string>, env: Env,
                                        current: Pointer, value: Pointer, world: World, fuel: nat,
                                        known: set<string>, cond: Conditions)
    requires Contained(Try(b, cs, f), same, lost) && (same ==> value == current) && world.lost <= lost
    ensures Faithful(Try(b, cs, f), env, current, value, world, fuel, known, cond)
    decreases fuel, Try(b, cs, f), 0
  {
    hide Select, FaithfulCatch, Jump, Loses, Shaken, Targets, ShakenIn;
    var r := Exec(b, env, value, world, fuel, known, cond);
    var caught := Jump(world.clock, r.world);
    ContainedIsFaithful(b, same, lost, env, current, value, world, fuel, known, cond);
    FaithfulMeansStructured(b, env, current, value, world, fuel, known, cond);
    if !MayThrow(b) {
      NothingThrown(b, env, value, world, fuel, known, cond);
    }
    LostAround(b, cs, env, value, world, fuel, known, cond);
    if r.out.Thrown? {
      ContainedCatch(cs, lost + Risky(b), env, r.value, caught, world.clock, fuel, known, cond);
      FaithfulHandlers(cs, env, r.value, caught, world.clock, fuel, known, cond);
    }
    var h := if r.out.Thrown? then Handle(cs, env, r.value, caught, world.clock, fuel, known, cond) else r;
    if f.Some? && (h.out.Normal? || h.out.Thrown?) {
      var still := same && KeepsValue(b) && !MayThrow(b);
      if still {
        ValueKept(b, env, value, world, fuel, known, cond);
      }
      ContainedIsFaithful(f.value, still, lost + Risky(b) + ShakenIn(cs), env, current, h.value, h.world, fuel, known,
                          cond);
      if h.out.Thrown? {
        FaithfulMeansStructured(f.value, env, current, h.value, h.world, fuel, known, cond);
        ValueKept(f.value, env, h.value, h.world, fuel, known, cond);
      }
    }
  }

  /** What may be indeterminate when the catches begin and when they are done. */
  lemma {:induction false} LostAround(b: Stmt, cs: Catches, env: Env, value: Pointer, world: World, fuel: nat,
                                      known: set<string>, cond: Conditions)
    ensures var r := Exec(b, env, value, world, fuel, known, cond);
            var caught := Jump(world.clock, r.world);
            && r.world.lost <= world.lost + Shaken(b)
            && (r.out.Thrown? ==>
                  && caught.lost <= world.lost + Risky(b)
                  && Handle(cs, env, r.value, caught, world.clock, fuel, known, cond).world.lost
                     <= world.lost + Risky(b) + ShakenIn(cs))
  {
    hide Wrote, Jump, Jumped, Targets, Shaken, ShakenIn;
    var r := Exec(b, env, value, world, fuel, known, cond);
    RunLoses(b, env, value, world, fuel, known, cond);
    if r.out.Thrown? {
      if !MayThrow(b) {
        NothingThrown(b, env, value, world, fuel, known, cond);
      }
      JumpLoses(world, r.world, Targets(b), Shaken(b));
      HandleLoses(cs, env, r.value, Jump(world.clock, r.world), world.clock, fuel, known, cond);
    }
  }

  /** On the fragment the lowered statement has the structured meaning, for every fuel. */
  lemma {:induction false} ContainedMeansStructured(s: Stmt, same: bool, env: Env, current: Pointer, value: Pointer,
                                                    world: World, fuel: nat, known: set<string>, cond: Conditions)
    requires Contained(s, same, world.lost) && (same ==> value == current)
    ensures Same(Exec(s, env, value, world, fuel, known, cond), Structured(s, env, current, world, fuel, known, cond))
  {
    ContainedIsFaithful(s, same, world.lost, env, current, value, world, fuel, known, cond);
    FaithfulMeansStructured(s, env, current, value, world, fuel, known, cond);
  }

  // ---------------------------------------------------------------- main theorems

  /** The machine, after `n` steps, shows the structured meaning `c` to the code around the statement. */
  predicate Shows(locals: seq<Slot>, buf: Buffer, next: Kont, c: Meaning, fuel: nat, n: nat, m: Machine) {
    match c.end
    case Completes => m.Running? && m.k == next && m.locals == locals && m.buf == buf && m.world == c.world
    case Raises(e) =>
      && m.Running? && AtLongjmp(m.k) && locals <= m.locals
      && m.buf == buf && m.value == e && m.world == c.world
    case Faults => m == Undefined(c.world)
    case Unfinished => n >= fuel && !Stopped(m)
  }

  /**
   On every faithful run the emitted C runs the same events in the same order as the structured
   statement and ends the same way, with the jump buffer and live locals of its surroundings untouched.
   */
  lemma {:induction false} FaithfulRunsPreserved(s: Stmt, current: Pointer, m: Machine, next: Kont, fuel: nat,
                                                 known: set<string>, cond: Conditions)
    returns (n: nat)
    requires m.Running? && m.k == Do(Lower(s, known), next) && Alive(m.buf, m.locals)
    requires Faithful(s, Bindings(m.locals), current, m.value, m.world, fuel, known, cond)
    ensures Shows(m.locals, m.buf, next, Structured(s, Bindings(m.locals), current, m.world, fuel, known, cond),
                  fuel, n, Steps(n, m, cond))
  {
    n := Simulate(s, m, next, fuel, known, cond);
    FaithfulMeansStructured(s, Bindings(m.locals), current, m.value, m.world, fuel, known, cond);
  }

  /**
   On the fragment that is so for every run, whatever the conditions decide. `same` is for statements inside
   a handler, where `current` is the exception being handled.
   */
  lemma {:induction false} LoweringPreservesMeaning(s: Stmt, same: bool, current: Pointer, m: Machine, next: Kont,
                                                    fuel: nat, known: set<string>, cond: Conditions)
    returns (n: nat)
    requires m.Running? && Contained(s, same, m.world.lost) && (same ==> m.value == current)
    requires m.k == Do(Lower(s, known), next) && Alive(m.buf, m.locals)
    ensures Shows(m.locals, m.buf, next, Structured(s, Bindings(m.locals), current, m.world, fuel, known, cond),
                  fuel, n, Steps(n, m, cond))
  {
    ContainedIsFaithful(s, same, m.world.lost, Bindings(m.locals), current, m.value, m.world, fuel, known, cond);
    n := FaithfulRunsPreserved(s, current, m, next, fuel, known, cond);
  }

  lemma {:induction false} StoppedStays(m: Machine, n: nat, cond: Conditions)
    requires Stopped(m)
    ensures Steps(n, m, cond) == m
  {
    if n > 0 {
      StoppedStays(m, n - 1, cond);
    }
  }

  /** A statement that no fuel suffices for never stops on the machine. */
  lemma {:induction false} NeverStops(s: Stmt, m: Machine, next: Kont, known: set<string>, cond: Conditions, n: nat)
    requires m.Running? && m.k == Do(Lower(s, known), next) && Alive(m.buf, m.locals)
    requires Exec(s, Bindings(m.locals), m.value, m.world, n, known, cond).out.OutOfFuel?
    ensures var m2 := Steps(n, m, cond);
            m2.Running? && !m2.k.Done? && !(m2.k.Do? && m2.k.c.Longjmp? && m2.buf.Unset?)
  {
    var n' := Simulate(s, m, next, n, known, cond);
    StepsPlus(n, n' - n, m, cond);
    if Stopped(Steps(n, m, cond)) {
      StoppedStays(Steps(n, m, cond), n' - n, cond);
    }
  }

  lemma {:induction false} RethrowSpins(cs: Catches, env: Env, e: Pointer, world: World, since: nat, fuel: nat,
                                        known: set<string>, cond: Conditions)
    requires Select(cs, e, known).Handler? && Select(cs, e, known).body == Throw(None)
    ensures Handle(cs, env, e, world, since, fuel, known, cond).out.OutOfFuel?
    decreases fuel
  {
    if fuel > 0 {
      RethrowSpins(cs, env, e, Jump(since, world), since, fuel - 1, known, cond);
    }
  }

  /**
   `@throw;` in the handler that took the exception: the source raises it again to the enclosing
   statement, the emitted C catches it in the same handler for ever.
   */
  lemma {:induction false} RethrowInHandlerNeverEnds(e: Expr, cs: Catches, f: Option<Stmt>, current: Pointer,
                                                     m: Machine, next: Kont,
                                  known: set<string>, cond: Conditions, n: nat)
    requires m.Running? && m.k == Do(Lower(Try(Throw(Some(e)), cs, f), known), next) && Alive(m.buf, m.locals)
    requires Determinate(e, m.world)
    requires var c := Select(cs, Eval(e, Bindings(m.locals), m.world), known); c.Handler? && c.body == Throw(None)
    ensures var m2 := Steps(n, m, cond);
            m2.Running? && !m2.k.Done? && !(m2.k.Do? && m2.k.c.Longjmp? && m2.buf.Unset?)
    ensures f.None? ==>
              Structured(Try(Throw(Some(e)), cs, f), Bindings(m.locals), current, m.world, n, known, cond)
              == Meaning(Raises(Eval(e, Bindings(m.locals), m.world)), m.world)
  {
    var env := Bindings(m.locals);
    JumpAtOnce(m.world);
    RethrowSpins(cs, env, Eval(e, env, m.world), m.world, m.world.clock, n, known, cond);
    assert Exec(Throw(Some(e)), env, m.value, m.world, n, known, cond)
        == Effect(Thrown, Eval(e, env, m.world), m.world);
    NeverStops(Try(Throw(Some(e)), cs, f), m, next, known, cond, n);
    var c := Select(cs, Eval(e, env, m.world), known);
    assert Structured(c.body, env + [(c.param, Eval(e, env, m.world))], Eval(e, env, m.world), m.world, n, known, cond)
        == Meaning(Raises(Eval(e, env, m.world)), m.world);
    assert Structured(Throw(Some(e)), env, current, m.world, n, known, cond)
        == Meaning(Raises(Eval(e, env, m.world)), m.world);
  }
}
