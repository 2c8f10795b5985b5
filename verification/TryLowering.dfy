/**
 `@try`/`@catch`/`@finally`/`@throw` and their lowering to `setjmp`/`longjmp`
 (crates/codegen/src/codegen.rs:2060-2602).

 The module has a source language, the lowering, and a small-step machine for the C
 that the lowering emits, in which a jump buffer holds a code pointer and the block it
 was set in, and jumping to a block that has ended is undefined behaviour. So is reading a
 local variable that was changed between `setjmp` and `longjmp`, as the lowering adds no
 `volatile` to the user's variables (section 7.13.2.1 of ISO/IEC 9899:1999).
 */
module TryLowering {
  import opened Wrappers

  // ---------------------------------------------------------------- source language

  /** An object as far as exceptions see it: its class (the isa pointer) and its identity. */
  datatype Object = Object(cls: string, id: nat)

  /** A pointer to an object; `None` is nil. */
  type Pointer = Option<Object>

  /** A catch parameter is bound once; a local variable of the function may be assigned. */
  datatype Expr = Literal(p: Pointer) | Param(name: string) | Var(name: string)

  datatype Event = Event(tag: nat, arg: Pointer)

  datatype Stmt =
    | Skip
    | Call(tag: nat, arg: Expr)                // any observable action
    | Assign(name: string, expr: Expr)         // to a local variable
    | Seq(first: Stmt, second: Stmt)
    | If(cond: nat, on: Expr, thn: Stmt, els: Stmt)
    | While(cond: nat, on: Expr, body: Stmt)
    | Throw(operand: Option<Expr>)             // `@throw e;` or `@throw;`
    | Try(tryBody: Stmt, catches: Catches, fin: Option<Stmt>)

  /** A catch list. `typ` is the class the parameter points to; `None` stands for `id`. */
  datatype Catches = NoCatch | Catch(typ: Option<string>, param: string, handler: Stmt, rest: Catches)

  /** Parameter bindings, innermost last. */
  type Env = seq<(string, Pointer)>

  function Lookup(env: Env, name: string): Pointer {
    if env == [] then None
    else if env[|env| - 1].0 == name then env[|env| - 1].1
    else Lookup(env[..|env| - 1], name)
  }

  /** What a local variable was last assigned, and when. */
  datatype Local = Local(p: Pointer, stamp: nat)

  /**
   What has happened: the events, the local variables that have been assigned, those of them whose value the C
   standard leaves indeterminate, and a count of the assignments.
   */
  datatype Memory = Memory(events: seq<Event>, vars: map<string, Local>, lost: set<string>, clock: nat)

  type World = w: Memory | forall x <- w.vars :: w.vars[x].stamp < w.clock witness Memory([], map[], {}, 0)

  function Emit(w: World, e: Event): World {
    w.(events := w.events + [e])
  }

  function Write(w: World, name: string, p: Pointer): World {
    w.(vars := w.vars[name := Local(p, w.clock)], lost := w.lost - {name}, clock := w.clock + 1)
  }

  /** The variables assigned from `since` on: after `longjmp` they are indeterminate. */
  function Jump(since: nat, w: World): World {
    w.(lost := w.lost + set x | x in w.vars && w.vars[x].stamp >= since)
  }

  lemma {:induction false} JumpAtOnce(w: World)
    ensures Jump(w.clock, w) == w
  {
    assert (set x | x in w.vars && w.vars[x].stamp >= w.clock) == {};
  }

  function Eval(e: Expr, env: Env, w: World): Pointer {
    match e
    case Literal(p) => p
    case Param(name) => Lookup(env, name)
    case Var(name) => if name in w.vars then w.vars[name].p else None
  }

  /** A variable is read after it was assigned. */
  predicate Assigned(e: Expr, w: World) {
    e.Var? ==> e.name in w.vars
  }

  /** Reading it is not undefined in C. */
  predicate Determinate(e: Expr, w: World) {
    Assigned(e, w) && (e.Var? ==> e.name !in w.lost)
  }

  /** The value of a condition may depend on a variable and on everything observable so far. */
  type Conditions = (nat, Pointer, seq<Event>) -> bool

  function Decide(cond: Conditions, n: nat, on: Expr, env: Env, w: World): bool {
    cond(n, Eval(on, env, w), w.events)
  }

  // ---------------------------------------------------------------- target language

  datatype CStmt =
    | CSkip
    | CCall(tag: nat, arg: Expr)
    | CAssign(name: string, expr: Expr)
    | CSeq(first: CStmt, second: CStmt)
    | CBlock(body: CStmt)
    | CIf(cond: nat, on: Expr, thn: CStmt, els: CStmt)
    | CWhile(cond: nat, on: Expr, body: CStmt)
    | DeclSaved                                // jmp_buf __nupa_saved;
    | SaveBuf                                  // memcpy(__nupa_saved, __nupa_exception_buf, ..)
    | RestoreBuf                               // memcpy(__nupa_exception_buf, __nupa_saved, ..)
    | DeclState(init: int)                     // volatile int __nupa_state = init;
    | SetState(v: int)                         // __nupa_state = v;
    | IfState(v: int, thn: CStmt)              // if (__nupa_state == v) thn
    | IfSetjmp(thn: CStmt)                     // if (setjmp(__nupa_exception_buf) != 0) thn
    | IfIsa(cls: string, thn: CStmt)           // if (__nupa_exception_value->isa == &cls) thn
    | DeclParam(name: string)                  // T name = (T)__nupa_exception_value;
    | SetValue(value: Expr)                    // __nupa_exception_value = value;
    | Longjmp                                  // longjmp(__nupa_exception_buf, 1);

  // ---------------------------------------------------------------- the lowering

  /** `known` is the set of classes the unit has metadata for: other types get no isa check. */
  function Lower(s: Stmt, known: set<string>): CStmt {
    match s
    case Skip => CSkip
    case Call(tag, arg) => CCall(tag, arg)
    case Assign(name, e) => CAssign(name, e)
    case Seq(a, b) => CSeq(Lower(a, known), Lower(b, known))
    case If(c, on, a, b) => CIf(c, on, Lower(a, known), Lower(b, known))
    case While(c, on, b) => CWhile(c, on, Lower(b, known))
    case Throw(None) => CBlock(Longjmp)
    case Throw(Some(e)) => CBlock(CSeq(SetValue(e), Longjmp))
    case Try(b, cs, f) =>
      Opening(AfterSetjmp(Lower(b, known), LowerCatches(cs, known),
                          match f case None => CSkip case Some(g) => CBlock(Lower(g, known))))
  }

  /** The C statements in front of the point that both returns of `setjmp` run through. */
  function Opening(after: CStmt): CStmt {
    CBlock(CSeq(DeclSaved, CSeq(SaveBuf, OpenState(after))))
  }

  function OpenState(after: CStmt): CStmt {
    CSeq(DeclState(0), CSeq(IfSetjmp(SetState(1)), after))
  }

  /** The part of the emitted block that both returns of `setjmp` run through. */
  function AfterSetjmp(body: CStmt, catches: CStmt, fin: CStmt): CStmt {
    CSeq(IfState(0, CBlock(body)), CSeq(catches, Epilogue(fin)))
  }

  function Epilogue(fin: CStmt): CStmt {
    CSeq(RestoreBuf, CSeq(fin, IfState(1, Longjmp)))
  }

  function LowerCatches(cs: Catches, known: set<string>): CStmt {
    match cs
    case NoCatch => CSkip
    case Catch(typ, param, handler, rest) =>
      var block := CatchBlock(param, Lower(handler, known));
      CSeq(IfState(1, if Checked(typ, known) then IfIsa(typ.value, block) else block),
           LowerCatches(rest, known))
  }

  function CatchBlock(param: string, handler: CStmt): CStmt {
    CBlock(CSeq(SetState(2), CSeq(DeclParam(param), CBlock(handler))))
  }

  predicate Checked(typ: Option<string>, known: set<string>) {
    typ.Some? && typ.value in known
  }

  // ---------------------------------------------------------------- the C machine

  datatype Kont = Done | Do(c: CStmt, next: Kont) | EndBlock(depth: nat, next: Kont)

  /** A jmp_buf: where to continue, the declaration whose block must still be alive, and when `setjmp` filled it. */
  datatype Buffer = Unset | Point(k: Kont, depth: nat, id: nat, since: nat)

  datatype Value = Saved(buf: Buffer) | State(n: int) | Bound(name: string, p: Pointer)

  /** A live local variable; `id` is different for every executed declaration. */
  datatype Slot = Slot(id: nat, v: Value)

  datatype Machine =
    | Running(k: Kont, locals: seq<Slot>, buf: Buffer, value: Pointer, world: World, nextId: nat)
    | Undefined(world: World)

  function Bindings(locals: seq<Slot>): Env {
    if locals == [] then []
    else
      var last := locals[|locals| - 1].v;
      Bindings(locals[..|locals| - 1]) + (if last.Bound? then [(last.name, last.p)] else [])
  }

  /** Index of the innermost `__nupa_state`, or -1. */
  function StateIndex(locals: seq<Slot>): (i: int)
    ensures -1 <= i < |locals| && (i >= 0 ==> locals[i].v.State?)
  {
    if locals == [] then -1
    else if locals[|locals| - 1].v.State? then |locals| - 1
    else StateIndex(locals[..|locals| - 1])
  }

  /** Index of the innermost `__nupa_saved`, or -1. */
  function SavedIndex(locals: seq<Slot>): (i: int)
    ensures -1 <= i < |locals| && (i >= 0 ==> locals[i].v.Saved?)
  {
    if locals == [] then -1
    else if locals[|locals| - 1].v.Saved? then |locals| - 1
    else SavedIndex(locals[..|locals| - 1])
  }

  function Declare(m: Machine, v: Value): Machine
    requires m.Running?
  {
    m.(locals := m.locals + [Slot(m.nextId, v)], nextId := m.nextId + 1)
  }

  /** The block the buffer was filled in has not ended. */
  predicate Alive(buf: Buffer, locals: seq<Slot>) {
    buf.Point? ==> 0 < buf.depth <= |locals| && locals[buf.depth - 1].id == buf.id
  }

  function Step(m: Machine, cond: Conditions): Machine {
    if m.Undefined? then m else
    match m.k
    case Done => m
    case EndBlock(d, next) =>
      if d <= |m.locals| then m.(k := next, locals := m.locals[..d]) else Undefined(m.world)
    case Do(c, next) =>
      match c {
        case CSkip => m.(k := next)
        case CCall(tag, arg) =>
          if !Determinate(arg, m.world) then Undefined(m.world)
          else m.(k := next, world := Emit(m.world, Event(tag, Eval(arg, Bindings(m.locals), m.world))))
        case CAssign(name, e) =>
          if !Determinate(e, m.world) then Undefined(m.world)
          else m.(k := next, world := Write(m.world, name, Eval(e, Bindings(m.locals), m.world)))
        case CSeq(a, b) => m.(k := Do(a, Do(b, next)))
        case CBlock(b) => m.(k := Do(b, EndBlock(|m.locals|, next)))
        case CIf(n, on, a, b) =>
          if !Determinate(on, m.world) then Undefined(m.world)
          else m.(k := Do(if Decide(cond, n, on, Bindings(m.locals), m.world) then a else b, next))
        case CWhile(n, on, b) =>
          if !Determinate(on, m.world) then Undefined(m.world)
          else m.(k := if Decide(cond, n, on, Bindings(m.locals), m.world) then Do(b, m.k) else next)
        case DeclSaved => Declare(m.(k := next), Saved(Unset))
        case SaveBuf =>
          var i := SavedIndex(m.locals);
          if i < 0 then Undefined(m.world)
          else m.(k := next, locals := m.locals[i := m.locals[i].(v := Saved(m.buf))])
        case RestoreBuf =>
          var i := SavedIndex(m.locals);
          if i < 0 then Undefined(m.world) else m.(k := next, buf := m.locals[i].v.buf)
        case DeclState(n) => Declare(m.(k := next), State(n))
        case SetState(n) =>
          var i := StateIndex(m.locals);
          if i < 0 then Undefined(m.world)
          else m.(k := next, locals := m.locals[i := m.locals[i].(v := State(n))])
        case IfState(n, a) =>
          var i := StateIndex(m.locals);
          if i < 0 then Undefined(m.world)
          else m.(k := if m.locals[i].v.n == n then Do(a, next) else next)
        case IfSetjmp(a) =>
          if m.locals == [] then Undefined(m.world)
          else
            var id := m.locals[|m.locals| - 1].id;
            m.(k := next, buf := Point(Do(a, next), |m.locals|, id, m.world.clock))
        case IfIsa(cls, a) =>
          if m.value.None? then Undefined(m.world)
          else m.(k := if m.value.value.cls == cls then Do(a, next) else next)
        case DeclParam(name) => Declare(m.(k := next), Bound(name, m.value))
        case SetValue(e) =>
          if !Determinate(e, m.world) then Undefined(m.world)
          else m.(k := next, value := Eval(e, Bindings(m.locals), m.world))
        case Longjmp =>
          if m.buf.Unset? then m           // uncaught: nothing to jump to
          else if Alive(m.buf, m.locals) then
            m.(k := m.buf.k, locals := m.locals[..m.buf.depth], world := Jump(m.buf.since, m.world))
          else Undefined(m.world)
      }
  }

  function Steps(n: nat, m: Machine, cond: Conditions): Machine {
    if n == 0 then m else Steps(n - 1, Step(m, cond), cond)
  }

  /** Nothing further happens: the program ended, was left uncaught, or is undefined. */
  predicate Stopped(m: Machine) {
    m.Undefined? || m.k.Done? || AtUncaught(m)
  }

  predicate AtUncaught(m: Machine) {
    m.Running? && AtLongjmp(m.k) && m.buf.Unset?
  }

  predicate AtLongjmp(k: Kont) { k.Do? && k.c.Longjmp? }

  // ---------------------------------------------------------------- what the lowering computes

  datatype Outcome = Normal | Thrown | Crash | OutOfFuel

  datatype Effect = Effect(out: Outcome, value: Pointer, world: World)

  datatype Choice = NoMatch | NilCrash | Handler(param: string, body: Stmt)

  /** The first catch that takes `e`: exact class equality, or no check at all. */
  function Select(cs: Catches, e: Pointer, known: set<string>): (c: Choice)
    ensures c.Handler? ==> c.body < cs
  {
    match cs
    case NoCatch => NoMatch
    case Catch(typ, param, handler, rest) =>
      if !Checked(typ, known) then Handler(param, handler)
      else if e.None? then NilCrash
      else if e.value.cls == typ.value then Handler(param, handler)
      else Select(rest, e, known)
  }

  datatype Clause = Clause(typ: Option<string>, param: string, handler: Stmt)

  function Clauses(cs: Catches): seq<Clause> {
    if cs.NoCatch? then [] else [Clause(cs.typ, cs.param, cs.handler)] + Clauses(cs.rest)
  }

  /** A catch of a class that the unit knows and the object is not of; nil is of no class. */
  predicate Declines(typ: Option<string>, e: Object, known: set<string>) {
    typ.Some? && typ.value in known && typ.value != e.cls
  }

  /** The first `k` decline, and the next, if there is one, does not. */
  predicate FirstNotDeclining(all: seq<Clause>, e: Pointer, known: set<string>, k: nat) {
    && k <= |all|
    && (forall j :: 0 <= j < k ==> e.Some? && Declines(all[j].typ, e.value, known))
    && (k < |all| && e.Some? ==> !Declines(all[k].typ, e.value, known))
  }

  /**
   The catch that runs is the first that does not decline: it takes `id`, a class the unit does not know, or the
   object's own class. With nil, the first catch of a known class faults unless one that checks nothing stands
   before it.
   */
  lemma {:induction false} FirstCatchRuns(cs: Catches, e: Pointer, known: set<string>) returns (k: nat)
    ensures var all := Clauses(cs);
            && FirstNotDeclining(all, e, known, k)
            && Select(cs, e, known)
               == if k == |all| then NoMatch
                  else if e.None? && all[k].typ.Some? && all[k].typ.value in known then NilCrash
                  else Handler(all[k].param, all[k].handler)
    decreases cs
  {
    k := 0;
    if cs.Catch? && e.Some? && Declines(cs.typ, e.value, known) {
      var rest := FirstCatchRuns(cs.rest, e, known);
      k := rest + 1;
    }
  }

  /**
   The meaning of a statement as lowered. `value` is the global `__nupa_exception_value`.
   An exception that leaves a handler goes back to the catches of the same statement,
   because the buffer is restored only after them. `fuel` bounds loop iterations and such re-entries.
   */
  function Exec(s: Stmt, env: Env, value: Pointer, world: World, fuel: nat,
                known: set<string>, cond: Conditions): Effect
    decreases fuel, s
  {
    match s
    case Skip => Effect(Normal, value, world)
    case Call(tag, arg) =>
      if !Determinate(arg, world) then Effect(Crash, value, world)
      else Effect(Normal, value, Emit(world, Event(tag, Eval(arg, env, world))))
    case Assign(name, e) =>
      if !Determinate(e, world) then Effect(Crash, value, world)
      else Effect(Normal, value, Write(world, name, Eval(e, env, world)))
    case Seq(a, b) =>
      var r := Exec(a, env, value, world, fuel, known, cond);
      if r.out.Normal? then Exec(b, env, r.value, r.world, fuel, known, cond) else r
    case If(n, on, a, b) =>
      if !Determinate(on, world) then Effect(Crash, value, world)
      else Exec(if Decide(cond, n, on, env, world) then a else b, env, value, world, fuel, known, cond)
    case While(n, on, b) =>
      if fuel == 0 then Effect(OutOfFuel, value, world)
      else if !Determinate(on, world) then Effect(Crash, value, world)
      else if !Decide(cond, n, on, env, world) then Effect(Normal, value, world)
      else
        var r := Exec(b, env, value, world, fuel, known, cond);
        if r.out.Normal? then Exec(s, env, r.value, r.world, fuel - 1, known, cond) else r
    case Throw(None) => Effect(Thrown, value, world)
    case Throw(Some(e)) =>
      if !Determinate(e, world) then Effect(Crash, value, world) else Effect(Thrown, Eval(e, env, world), world)
    case Try(b, cs, f) =>
      var r := Exec(b, env, value, world, fuel, known, cond);
      var w := Jump(world.clock, r.world);
      var h := if r.out.Thrown? then Handle(cs, env, r.value, w, world.clock, fuel, known, cond) else r;
      Finish(h, f, env, fuel, known, cond, s)
  }

  /**
   The catches of one statement, run until one of their handlers ends normally or none matches. `since` is when
   the body began; each exception makes what was assigned from then on indeterminate.
   */
  function Handle(cs: Catches, env: Env, value: Pointer, world: World, since: nat, fuel: nat,
                  known: set<string>, cond: Conditions): Effect
    decreases fuel, cs
  {
    match Select(cs, value, known)
    case NoMatch => Effect(Thrown, value, world)
    case NilCrash => Effect(Crash, value, world)
    case Handler(param, body) =>
      var r := Exec(body, env + [(param, value)], value, world, fuel, known, cond);
      if !r.out.Thrown? then r
      else
        var w := Jump(since, r.world);
        if Select(cs, r.value, known).NoMatch? then Effect(Thrown, r.value, w)
        else if fuel == 0 then Effect(OutOfFuel, r.value, w)
        else Handle(cs, env, r.value, w, since, fuel - 1, known, cond)
  }

  /** The finally block, then the rethrow of whatever `__nupa_exception_value` holds by then. */
  function Finish(h: Effect, f: Option<Stmt>, env: Env, fuel: nat,
                  known: set<string>, cond: Conditions, ghost s: Stmt): Effect
    requires s.Try? && s.fin == f
    decreases fuel, s, 0
  {
    if f.None? || h.out.Crash? || h.out.OutOfFuel? then h
    else
      var r := Exec(f.value, env, h.value, h.world, fuel, known, cond);
      if r.out.Normal? then r.(out := h.out) else r
  }

  // ---------------------------------------------------------------- machine lemmas

  lemma {:induction false} StepsPlus(a: nat, b: nat, m: Machine, cond: Conditions)
    ensures Steps(a + b, m, cond) == Steps(b, Steps(a, m, cond), cond)
  {
    if a == 0 {
    } else {
      StepsPlus(a - 1, b, Step(m, cond), cond);
    }
  }

  lemma {:induction false} BindingsPush(locals: seq<Slot>, slot: Slot)
    ensures Bindings(locals + [slot])
         == Bindings(locals) + (if slot.v.Bound? then [(slot.v.name, slot.v.p)] else [])
  {
    assert (locals + [slot])[..|locals|] == locals;
  }

  /** The locals of a lowered `@try`, while its block is open over `outer`. */
  function Frame(outer: seq<Slot>, savedId: nat, saved: Buffer, stateId: nat, state: int): seq<Slot> {
    outer + [Slot(savedId, Saved(saved)), Slot(stateId, State(state))]
  }

  lemma {:induction false} FrameBindings(outer: seq<Slot>, savedId: nat, saved: Buffer, stateId: nat, state: int)
    ensures Bindings(Frame(outer, savedId, saved, stateId, state)) == Bindings(outer)
  {
    hide Bindings;
    var inner := outer + [Slot(savedId, Saved(saved))];
    assert Frame(outer, savedId, saved, stateId, state) == inner + [Slot(stateId, State(state))];
    BindingsPush(outer, Slot(savedId, Saved(saved)));
    BindingsPush(inner, Slot(stateId, State(state)));
  }

  lemma {:induction false} FrameFacts(outer: seq<Slot>, savedId: nat, saved: Buffer, stateId: nat, state: int)
    ensures var f := Frame(outer, savedId, saved, stateId, state);
            && StateIndex(f) == |outer| + 1 && SavedIndex(f) == |outer| && Bindings(f) == Bindings(outer)
            && f[..|outer|] == outer
            && forall v :: f[|outer| + 1 := Slot(stateId, State(v))] == Frame(outer, savedId, saved, stateId, v)
  {
    hide Bindings;
    var f := Frame(outer, savedId, saved, stateId, state);
    FrameBindings(outer, savedId, saved, stateId, state);
    assert f[..|f| - 1] == outer + [Slot(savedId, Saved(saved))];
  }

  /**
   Machine `m2`, reached in `n` steps, is where result `r` says a statement leaves off that was
   started with these locals and this buffer. Both are as they were on entry; an exception
   is about to jump to that same buffer.
   */
  predicate Agrees(locals: seq<Slot>, buf: Buffer, next: Kont, r: Effect, fuel: nat, n: nat, m2: Machine) {
    match r.out
    case Normal => m2.Running? && m2 == Running(next, locals, buf, r.value, r.world, m2.nextId)
    case Thrown =>
      && m2.Running? && AtLongjmp(m2.k) && locals <= m2.locals
      && m2.buf == buf && m2.value == r.value && m2.world == r.world
    case Crash => m2 == Undefined(r.world)
    case OutOfFuel => n >= fuel && !Stopped(m2)
  }

  /** The jump buffer that `setjmp` fills in a lowered `@try`. */
  function TryPoint(outer: seq<Slot>, stateId: nat, after: CStmt, next: Kont, since: nat): Buffer {
    Point(Do(SetState(1), Do(after, EndBlock(|outer|, next))), |outer| + 2, stateId, since)
  }

  lemma {:induction false} ThreeSteps(m: Machine, cond: Conditions)
    ensures Steps(3, m, cond) == Step(Step(Step(m, cond), cond), cond)
  {
    hide Step;
    var m1 := Step(m, cond);
    var m2 := Step(m1, cond);
    var m3 := Step(m2, cond);
    assert Steps(0, m3, cond) == m3;
    assert Steps(1, m2, cond) == Steps(0, m3, cond);
    assert Steps(2, m1, cond) == Steps(1, m2, cond);
  }

  function LowerFinally(f: Option<Stmt>, known: set<string>): CStmt {
    match f case None => CSkip case Some(g) => CBlock(Lower(g, known))
  }

  lemma {:induction false} DeclareSaved(m: Machine, after: CStmt, next: Kont, cond: Conditions)
    requires m.Running? && m.k == Do(Opening(after), next)
    ensures Steps(3, m, cond)
         == m.(k := Do(CSeq(SaveBuf, OpenState(after)), EndBlock(|m.locals|, next)),
               locals := m.locals + [Slot(m.nextId, Saved(Unset))], nextId := m.nextId + 1)
  {
    ThreeSteps(m, cond);
    var end := EndBlock(|m.locals|, next);
    var m1 := m.(k := Do(CSeq(DeclSaved, CSeq(SaveBuf, OpenState(after))), end));
    var m2 := m.(k := Do(DeclSaved, Do(CSeq(SaveBuf, OpenState(after)), end)));
    assert Step(m, cond) == m1;
    assert Step(m1, cond) == m2;
  }

  lemma {:induction false} StoreSaved(m: Machine, outer: seq<Slot>, id: nat, after: CStmt, next: Kont, cond: Conditions)
    requires m.Running? && m.k == Do(CSeq(SaveBuf, OpenState(after)), next)
    requires m.locals == outer + [Slot(id, Saved(Unset))]
    ensures Steps(3, m, cond)
         == m.(k := Do(DeclState(0), Do(CSeq(IfSetjmp(SetState(1)), after), next)),
               locals := outer + [Slot(id, Saved(m.buf))])
  {
    ThreeSteps(m, cond);
    assert SavedIndex(m.locals) == |outer|;
    assert m.locals[|outer| := Slot(id, Saved(m.buf))] == outer + [Slot(id, Saved(m.buf))];
  }

  lemma {:induction false} CallSetjmp(m: Machine, outer: seq<Slot>, id: nat, saved: Buffer, after: CStmt, next: Kont,
                                      cond: Conditions)
    requires m.Running? && m.k == Do(DeclState(0), Do(CSeq(IfSetjmp(SetState(1)), after), next))
    requires m.locals == outer + [Slot(id, Saved(saved))]
    ensures Steps(3, m, cond)
         == m.(k := Do(after, next), locals := Frame(outer, id, saved, m.nextId, 0), nextId := m.nextId + 1,
               buf := Point(Do(SetState(1), Do(after, next)), |outer| + 2, m.nextId, m.world.clock))
  {
    ThreeSteps(m, cond);
    assert m.locals + [Slot(m.nextId, State(0))] == Frame(outer, id, saved, m.nextId, 0);
  }

  /** From the start of the emitted block to the point after the first return of `setjmp`. */
  lemma {:induction false} Prologue(m: Machine, after: CStmt, next: Kont, cond: Conditions)
    requires m.Running? && m.k == Do(Opening(after), next)
    ensures Steps(9, m, cond)
         == Running(Do(after, EndBlock(|m.locals|, next)), Frame(m.locals, m.nextId, m.buf, m.nextId + 1, 0),
                    TryPoint(m.locals, m.nextId + 1, after, next, m.world.clock), m.value, m.world, m.nextId + 2)
  {
    hide Step;
    var k := EndBlock(|m.locals|, next);
    DeclareSaved(m, after, next, cond);
    var m3 := Steps(3, m, cond);
    StoreSaved(m3, m.locals, m.nextId, after, k, cond);
    var m6 := Steps(3, m3, cond);
    CallSetjmp(m6, m.locals, m.nextId, m.buf, after, k, cond);
    StepsPlus(3, 6, m, cond);
    StepsPlus(3, 3, m3, cond);
  }

  /** Unless the state is 1, no catch of the list runs. */
  lemma {:induction false} SkipCatches(cs: Catches, m: Machine, next: Kont, known: set<string>, cond: Conditions)
    returns (n: nat)
    requires m.Running? && m.k == Do(LowerCatches(cs, known), next)
    requires StateIndex(m.locals) >= 0 && m.locals[StateIndex(m.locals)].v != State(1)
    ensures Steps(n, m, cond) == m.(k := next)
    decreases cs
  {
    hide StateIndex, SavedIndex, Bindings, Lower, Frame;
    var m1 := Step(m, cond);
    if cs.NoCatch? {
      n := 1;
    } else {
      var m2 := Step(m1, cond);
      var n2 := SkipCatches(cs.rest, m2, next, known, cond);
      n := 2 + n2;
      assert Steps(n, m, cond) == Steps(n2 + 1, m1, cond) == Steps(n2, m2, cond);
    }
  }

  /** With the state at 1 the list is scanned up to the catch that `Select` names. */
  lemma {:induction false} ScanCatches(cs: Catches, m: Machine, next: Kont, known: set<string>, cond: Conditions,
                                       outer: seq<Slot>, savedId: nat, saved: Buffer, stateId: nat)
    returns (n: nat, rest: Catches)
    requires m.Running? && m.k == Do(LowerCatches(cs, known), next)
    requires m.locals == Frame(outer, savedId, saved, stateId, 1)
    ensures n > 0
    ensures match Select(cs, m.value, known)
            case NoMatch => Steps(n, m, cond) == m.(k := next)
            case NilCrash => Steps(n, m, cond) == Undefined(m.world)
            case Handler(param, body) =>
              Steps(n, m, cond)
              == m.(k := Do(CBlock(Lower(body, known)),
                            EndBlock(|m.locals|, Do(LowerCatches(rest, known), next))),
                    locals := Frame(outer, savedId, saved, stateId, 2) + [Slot(m.nextId, Bound(param, m.value))],
                    nextId := m.nextId + 1)
    decreases cs
  {
    hide StateIndex, SavedIndex, Bindings, Lower, Frame;
    FrameFacts(outer, savedId, saved, stateId, 1);
    rest := cs;
    var m1 := Step(m, cond);
    if cs.NoCatch? {
      n := 1;
    } else {
      var m2 := Step(m1, cond);
      assert Steps(2, m, cond) == Steps(1, m1, cond) == m2;
      rest := cs.rest;
      var after := Do(LowerCatches(cs.rest, known), next);
      var block := CatchBlock(cs.param, Lower(cs.handler, known));
      if !Checked(cs.typ, known) {
        var n2 := EnterHandler(cs.param, Lower(cs.handler, known), m2, after, cond, outer, savedId, saved, stateId);
        StepsPlus(2, n2, m, cond);
        n := 2 + n2;
      } else if m.value.None? {
        StepsPlus(2, 1, m, cond);
        n := 3;
      } else {
        var m3 := Step(m2, cond);
        StepsPlus(2, 1, m, cond);
        assert Steps(3, m, cond) == m3;
        if m.value.value.cls == cs.typ.value {
          var n2 := EnterHandler(cs.param, Lower(cs.handler, known), m3, after, cond, outer, savedId, saved, stateId);
          StepsPlus(3, n2, m, cond);
          n := 3 + n2;
        } else {
          var n2;
          n2, rest := ScanCatches(cs.rest, m3, next, known, cond, outer, savedId, saved, stateId);
          StepsPlus(3, n2, m, cond);
          n := 3 + n2;
        }
      }
    }
  }

  lemma {:induction false} EnterHandler(param: string, handler: CStmt, m: Machine, next: Kont, cond: Conditions,
                     outer: seq<Slot>, savedId: nat, saved: Buffer, stateId: nat) returns (n: nat)
    requires m.Running? && m.k == Do(CatchBlock(param, handler), next)
    requires m.locals == Frame(outer, savedId, saved, stateId, 1)
    ensures n > 0
    ensures Steps(n, m, cond)
         == m.(k := Do(CBlock(handler), EndBlock(|m.locals|, next)),
               locals := Frame(outer, savedId, saved, stateId, 2) + [Slot(m.nextId, Bound(param, m.value))],
               nextId := m.nextId + 1)
  {
    hide Step;
    var end := EndBlock(|m.locals|, next);
    StateTwo(m, CSeq(DeclParam(param), CBlock(handler)), next, cond, outer, savedId, saved, stateId);
    var m3 := Steps(3, m, cond);
    BindParam(m3, param, handler, end, cond);
    StepsPlus(3, 2, m, cond);
    n := 5;
  }

  /** The first statement of a handler: the exception counts as caught. */
  lemma {:induction false} StateTwo(m: Machine, rest: CStmt, next: Kont, cond: Conditions,
                                    outer: seq<Slot>, savedId: nat, saved: Buffer, stateId: nat)
    requires m.Running? && m.k == Do(CBlock(CSeq(SetState(2), rest)), next)
    requires m.locals == Frame(outer, savedId, saved, stateId, 1)
    ensures Steps(3, m, cond)
         == m.(k := Do(rest, EndBlock(|m.locals|, next)), locals := Frame(outer, savedId, saved, stateId, 2))
  {
    FrameFacts(outer, savedId, saved, stateId, 1);
    ThreeSteps(m, cond);
    var m2 := Step(Step(m, cond), cond);
    assert m2 == m.(k := Do(SetState(2), Do(rest, EndBlock(|m.locals|, next))));
  }

  lemma {:induction false} BindParam(m: Machine, param: string, handler: CStmt, next: Kont, cond: Conditions)
    requires m.Running? && m.k == Do(CSeq(DeclParam(param), CBlock(handler)), next)
    ensures Steps(2, m, cond)
         == m.(k := Do(CBlock(handler), next), locals := m.locals + [Slot(m.nextId, Bound(param, m.value))],
               nextId := m.nextId + 1)
  {
    var m1 := Step(m, cond);
    var m2 := Step(m1, cond);
    assert Steps(1, m1, cond) == Steps(0, m2, cond) == m2;
  }

  // ---------------------------------------------------------------- simulation

  /**
   The lowered statement does on the C machine what `Exec` says, whatever follows it, and
   leaves the jump buffer and the live locals as it found them. No jump goes to a dead block.
   */
  lemma {:induction false} Simulate(s: Stmt, m: Machine, next: Kont, fuel: nat, known: set<string>, cond: Conditions)
    returns (n: nat)
    requires m.Running? && m.k == Do(Lower(s, known), next) && Alive(m.buf, m.locals)
    ensures Agrees(m.locals, m.buf, next, Exec(s, Bindings(m.locals), m.value, m.world, fuel, known, cond),
                   fuel, n, Steps(n, m, cond))
    decreases fuel, s, 3
  {
    hide Bindings, Decide, Determinate, Emit, Write, Jump, Eval;
    var m1 := Step(m, cond);
    assert Steps(1, m, cond) == m1 by { assert Steps(0, m1, cond) == m1; }
    match s
    case Skip => n := 1;
    case Call(_, _) => n := 1;
    case Assign(_, _) => n := 1;
    case Seq(a, b) =>
      n := SimulateSeq(a, b, m, next, fuel, known, cond);
    case If(c, on, a, b) =>
      n := SimulateIf(c, on, a, b, m, next, fuel, known, cond);
    case While(c, on, b) =>
      n := SimulateWhile(c, on, b, m, next, fuel, known, cond);
    case Throw(operand) =>
      n := SimulateThrow(operand, m, next, fuel, known, cond);
    case Try(b, cs, f) =>
      n := SimulateTry(b, cs, f, m, next, fuel, known, cond);
  }

  lemma {:induction false} SimulateSeq(a: Stmt, b: Stmt, m: Machine, next: Kont, fuel: nat, known: set<string>,
                                       cond: Conditions)
    returns (n: nat)
    requires m.Running? && m.k == Do(Lower(Seq(a, b), known), next) && Alive(m.buf, m.locals)
    ensures Agrees(m.locals, m.buf, next, Exec(Seq(a, b), Bindings(m.locals), m.value, m.world, fuel, known, cond),
                   fuel, n, Steps(n, m, cond))
    decreases fuel, Seq(a, b), 2
  {
    hide Step, Bindings;
    EnterSeq(m, Lower(a, known), Lower(b, known), next, cond);
    var m1 := Steps(1, m, cond);
    var n1 := Simulate(a, m1, Do(Lower(b, known), next), fuel, known, cond);
    StepsPlus(1, n1, m, cond);
    n := 1 + n1;
    if Exec(a, Bindings(m.locals), m.value, m.world, fuel, known, cond).out.Normal? {
      var m2 := Steps(n, m, cond);
      var n2 := Simulate(b, m2, next, fuel, known, cond);
      StepsPlus(n, n2, m, cond);
      n := n + n2;
    }
  }

  lemma {:induction false} SimulateIf(c: nat, on: Expr, a: Stmt, b: Stmt, m: Machine, next: Kont, fuel: nat,
                                      known: set<string>, cond: Conditions)
    returns (n: nat)
    requires m.Running? && m.k == Do(Lower(If(c, on, a, b), known), next) && Alive(m.buf, m.locals)
    ensures Agrees(m.locals, m.buf, next,
                   Exec(If(c, on, a, b), Bindings(m.locals), m.value, m.world, fuel, known, cond),
                   fuel, n, Steps(n, m, cond))
    decreases fuel, If(c, on, a, b), 2
  {
    hide Bindings, Decide, Determinate;
    var env := Bindings(m.locals);
    var m1 := Step(m, cond);
    assert Steps(1, m, cond) == m1 by { assert Steps(0, m1, cond) == m1; }
    n := 1;
    if Determinate(on, m.world) {
      var n1 := Simulate(if Decide(cond, c, on, env, m.world) then a else b, m1, next, fuel, known, cond);
      StepsPlus(1, n1, m, cond);
      n := 1 + n1;
    }
  }

  lemma {:induction false} SimulateBlock(s: Stmt, m: Machine, next: Kont, fuel: nat, known: set<string>,
                                         cond: Conditions)
    returns (n: nat)
    requires m.Running? && m.k == Do(CBlock(Lower(s, known)), next) && Alive(m.buf, m.locals)
    ensures Agrees(m.locals, m.buf, next, Exec(s, Bindings(m.locals), m.value, m.world, fuel, known, cond),
                   fuel, n, Steps(n, m, cond))
    decreases fuel, s, 4
  {
    var r := Exec(s, Bindings(m.locals), m.value, m.world, fuel, known, cond);
    var m1 := Step(m, cond);
    assert Steps(1, m, cond) == m1 by { assert Steps(0, m1, cond) == m1; }
    var n1 := Simulate(s, m1, EndBlock(|m.locals|, next), fuel, known, cond);
    StepsPlus(1, n1, m, cond);
    n := 1 + n1;
    if r.out.Normal? {
      var m2 := Steps(n, m, cond);
      var m3 := Step(m2, cond);
      assert m2.locals[..|m.locals|] == m.locals;
      assert Steps(1, m2, cond) == m3 by { assert Steps(0, m3, cond) == m3; }
      StepsPlus(n, 1, m, cond);
      n := n + 1;
    }
  }

  lemma {:induction false} SimulateWhile(c: nat, on: Expr, b: Stmt, m: Machine, next: Kont, fuel: nat,
                                         known: set<string>, cond: Conditions)
    returns (n: nat)
    requires m.Running? && m.k == Do(Lower(While(c, on, b), known), next) && Alive(m.buf, m.locals)
    ensures Agrees(m.locals, m.buf, next,
                   Exec(While(c, on, b), Bindings(m.locals), m.value, m.world, fuel, known, cond),
                   fuel, n, Steps(n, m, cond))
    decreases fuel, While(c, on, b), 2
  {
    var s := While(c, on, b);
    var env := Bindings(m.locals);
    if fuel == 0 {
      n := 0;
    } else {
      var m1 := Step(m, cond);
      assert Steps(1, m, cond) == m1 by { assert Steps(0, m1, cond) == m1; }
      n := 1;
      if Determinate(on, m.world) && Decide(cond, c, on, env, m.world) {
        var n1 := Simulate(b, m1, m.k, fuel, known, cond);
        StepsPlus(1, n1, m, cond);
        n := 1 + n1;
        if Exec(b, env, m.value, m.world, fuel, known, cond).out.Normal? {
          var m2 := Steps(n, m, cond);
          var n2 := SimulateWhile(c, on, b, m2, next, fuel - 1, known, cond);
          StepsPlus(n, n2, m, cond);
          n := n + n2;
        }
      }
    }
  }

  lemma {:induction false} SimulateThrow(operand: Option<Expr>, m: Machine, next: Kont, fuel: nat, known: set<string>,
                                         cond: Conditions)
    returns (n: nat)
    requires m.Running? && m.k == Do(Lower(Throw(operand), known), next)
    ensures Agrees(m.locals, m.buf, next, Exec(Throw(operand), Bindings(m.locals), m.value, m.world, fuel, known, cond),
                   fuel, n, Steps(n, m, cond))
  {
    if operand.None? {
      var m1 := Step(m, cond);
      assert Steps(1, m, cond) == m1 by { assert Steps(0, m1, cond) == m1; }
      n := 1;
    } else {
      ThreeSteps(m, cond);
      n := 3;
    }
  }

  lemma {:induction false} SimulateTry(b: Stmt, cs: Catches, f: Option<Stmt>, m: Machine, next: Kont, fuel: nat,
                                       known: set<string>, cond: Conditions)
    returns (n: nat)
    requires m.Running? && m.k == Do(Lower(Try(b, cs, f), known), next) && Alive(m.buf, m.locals)
    ensures Agrees(m.locals, m.buf, next, Exec(Try(b, cs, f), Bindings(m.locals), m.value, m.world, fuel, known, cond),
                   fuel, n, Steps(n, m, cond))
    decreases fuel, Try(b, cs, f), 2
  {
    hide Step, Jump, Bindings, Epilogue, LowerCatches;
    var outer := m.locals;
    var env := Bindings(outer);
    var r := Exec(b, env, m.value, m.world, fuel, known, cond);
    var after := CSeq(LowerCatches(cs, known), Epilogue(LowerFinally(f, known)));
    var m11 := EnterTry(m, Lower(b, known), after, next, cond);
    var n1 := SimulateBlock(b, m11, Do(after, EndBlock(|outer|, next)), fuel, known, cond);
    StepsPlus(11, n1, m, cond);
    n := 11 + n1;
    var m2 := Steps(n, m, cond);
    if r.out.Normal? {
      var n2 := SkipToEpilogue(cs, LowerFinally(f, known), m2, EndBlock(|outer|, next), known, cond);
      StepsPlus(n, n2, m, cond);
      n := n + n2;
      var n4 := SimulateFinish(r, f, Try(b, cs, f), Steps(n, m, cond), next, fuel, known, cond,
                               outer, m.nextId, m.buf, m.nextId + 1, 0);
      StepsPlus(n, n4, m, cond);
      n := n + n4;
    } else if r.out.Thrown? {
      var n2 := SimulateCaught(r, b, cs, f, m2, next, fuel, known, cond, outer, m.nextId, m.buf, m.nextId + 1,
                               m.world.clock);
      StepsPlus(n, n2, m, cond);
      n := n + n2;
    }
  }

  /**
   An exception that the body of a lowered `@try` throws: the machine comes to the handler of the first catch that
   does not decline it, with the parameter bound to it, or past all of them.
   */
  lemma {:induction false} ThrowReachesCatch(b: Stmt, cs: Catches, f: Option<Stmt>, m: Machine, next: Kont, fuel: nat,
                                             known: set<string>, cond: Conditions)
    returns (n: nat, k: nat)
    requires m.Running? && m.k == Do(Lower(Try(b, cs, f), known), next) && Alive(m.buf, m.locals)
    requires Exec(b, Bindings(m.locals), m.value, m.world, fuel, known, cond).out.Thrown?
    ensures var e := Exec(b, Bindings(m.locals), m.value, m.world, fuel, known, cond).value;
            var (all, m2) := (Clauses(cs), Steps(n, m, cond));
            && FirstNotDeclining(all, e, known, k)
            && (if k == |all| then
                  m2.Running? && m2.k == Do(Epilogue(LowerFinally(f, known)), EndBlock(|m.locals|, next))
                else if e.None? && all[k].typ.Some? && all[k].typ.value in known then
                  m2.Undefined?
                else
                  && m2.Running? && m2.k.Do? && m2.k.c == CBlock(Lower(all[k].handler, known)) && m2.value == e
                  && Bindings(m2.locals) == Bindings(m.locals) + [(all[k].param, e)])
  {
    hide Step, Jump, Bindings, Epilogue, LowerCatches, Lower, Select, Declines;
    var outer, fin := m.locals, LowerFinally(f, known);
    var r := Exec(b, Bindings(outer), m.value, m.world, fuel, known, cond);
    var after := CSeq(LowerCatches(cs, known), Epilogue(fin));
    k := FirstCatchRuns(cs, r.value, known);
    LowersTo(b, cs, f, known);
    var m11 := EnterTry(m, Lower(b, known), after, next, cond);
    var n1 := SimulateBlock(b, m11, Do(after, EndBlock(|outer|, next)), fuel, known, cond);
    StepsPlus(11, n1, m, cond);
    var m2 := Steps(11 + n1, m, cond);
    var since, stateId := m.world.clock, m.nextId + 1;
    TakeJump(m2, outer, m.nextId, m.buf, stateId, 0,
             AfterSetjmp(Lower(b, known), LowerCatches(cs, known), fin), next, since, cond);
    StepsPlus(11 + n1, 1, m, cond);
    var m3 := Steps(1, m2, cond);
    var n2, rest := Redispatch(cs, Lower(b, known), fin, m3, EndBlock(|outer|, next), known, cond, outer, m.nextId,
                               m.buf, stateId, 0);
    n := 11 + n1 + 1 + n2;
    StepsPlus(11 + n1 + 1, n2, m, cond);
    FrameFacts(outer, m.nextId, m.buf, stateId, 2);
    var frame := Frame(outer, m.nextId, m.buf, stateId, 2);
    if k < |Clauses(cs)| {
      BindingsPush(frame, Slot(m3.nextId, Bound(Clauses(cs)[k].param, r.value)));
    }
  }

  /** In the handler the parameter is the exception, and what it does not hide is what it was outside. */
  lemma {:induction false} ParamRead(env: Env, param: string, e: Pointer, name: string, w: World)
    ensures Eval(Param(name), env + [(param, e)], w) == if name == param then e else Eval(Param(name), env, w)
  {
    var inner := env + [(param, e)];
    assert inner[|inner| - 1] == (param, e) && inner[..|inner| - 1] == env;
  }

  /**
   What `setjmp` fills can be jumped to from then on, and never again once the block around it has ended, whatever
   has been declared in its place.
   */
  lemma {:induction false} JumpUntilBlockEnds(m: Machine, a: CStmt, next: Kont, cond: Conditions, d: nat,
                                              more: seq<Slot>)
    requires m.Running? && m.k == Do(IfSetjmp(a), next) && m.locals != [] && d < |m.locals|
    requires forall i :: 0 <= i < |more| ==> more[i].id != m.locals[|m.locals| - 1].id
    ensures var m1 := Step(m, cond);
            && m1.Running? && Alive(m1.buf, m1.locals)
            && Step(m1.(k := Do(Longjmp, next)), cond) == m1.(k := Do(a, next))
            && Step(m1.(k := Do(Longjmp, next), locals := m1.locals[..d] + more), cond).Undefined?
  {
    var m1 := Step(m, cond);
    assert m1.locals[..|m1.locals|] == m1.locals;
    JumpAtOnce(m1.world);
    var later, top := m1.locals[..d] + more, |m1.locals| - 1;
    if top < |later| {
      assert later[top] == more[top - d];
    }
  }

  lemma {:induction false} LowersTo(b: Stmt, cs: Catches, f: Option<Stmt>, known: set<string>)
    ensures Lower(Try(b, cs, f), known)
         == Opening(CSeq(IfState(0, CBlock(Lower(b, known))),
                         CSeq(LowerCatches(cs, known), Epilogue(LowerFinally(f, known)))))
  {
  }

  lemma {:induction false} EnterTry(m: Machine, body: CStmt, rest: CStmt, next: Kont, cond: Conditions)
    returns (m11: Machine)
    requires m.Running? && m.k == Do(Opening(CSeq(IfState(0, CBlock(body)), rest)), next)
    ensures m11 == Steps(11, m, cond)
    ensures m11 == Running(Do(CBlock(body), Do(rest, EndBlock(|m.locals|, next))),
                           Frame(m.locals, m.nextId, m.buf, m.nextId + 1, 0),
                           TryPoint(m.locals, m.nextId + 1, CSeq(IfState(0, CBlock(body)), rest), next, m.world.clock),
                           m.value, m.world, m.nextId + 2)
    ensures Bindings(m11.locals) == Bindings(m.locals) && Alive(m11.buf, m11.locals)
    ensures StateIndex(m11.locals) >= 0 && m11.locals[StateIndex(m11.locals)].v == State(0)
  {
    hide Step;
    Prologue(m, CSeq(IfState(0, CBlock(body)), rest), next, cond);
    FrameFacts(m.locals, m.nextId, m.buf, m.nextId + 1, 0);
    TakeBody(Steps(9, m, cond), body, rest, EndBlock(|m.locals|, next), cond);
    StepsPlus(9, 2, m, cond);
    m11 := Steps(11, m, cond);
  }

  lemma {:induction false} SkipToEpilogue(cs: Catches, fin: CStmt, m: Machine, next: Kont, known: set<string>,
                                          cond: Conditions)
    returns (n: nat)
    requires m.Running? && m.k == Do(CSeq(LowerCatches(cs, known), Epilogue(fin)), next)
    requires StateIndex(m.locals) >= 0 && m.locals[StateIndex(m.locals)].v != State(1)
    ensures Steps(n, m, cond) == m.(k := Do(Epilogue(fin), next))
  {
    hide Step;
    EnterSeq(m, LowerCatches(cs, known), Epilogue(fin), next, cond);
    var n1 := SkipCatches(cs, Steps(1, m, cond), Do(Epilogue(fin), next), known, cond);
    StepsPlus(1, n1, m, cond);
    n := 1 + n1;
  }

  /** From the throw that left the body to the end of the statement. */
  lemma {:induction false} SimulateCaught(r: Effect, b: Stmt, cs: Catches, f: Option<Stmt>, m: Machine, next: Kont,
                                          fuel: nat,
                                          known: set<string>, cond: Conditions,
                                          outer: seq<Slot>, savedId: nat, saved: Buffer, stateId: nat, since: nat)
    returns (n: nat)
    requires r.out.Thrown? && Alive(saved, outer)
    requires Agrees(Frame(outer, savedId, saved, stateId, 0),
                    TryPoint(outer, stateId,
                        AfterSetjmp(Lower(b, known), LowerCatches(cs, known), LowerFinally(f, known)), next, since),
                    Done, r, fuel, 0, m)
    ensures var h := Handle(cs, Bindings(outer), r.value, Jump(since, r.world), since, fuel, known, cond);
            Agrees(outer, saved, next, Finish(h, f, Bindings(outer), fuel, known, cond, Try(b, cs, f)), fuel, n,
                Steps(n, m, cond))
    decreases fuel, Try(b, cs, f), 1
  {
    hide Step, Lower, LowerCatches, LowerFinally, AfterSetjmp, Jump, Bindings, Handle, Alive;
    var fin := LowerFinally(f, known);
    TakeJump(m, outer, savedId, saved, stateId, 0, AfterSetjmp(Lower(b, known), LowerCatches(cs, known), fin), next,
        since, cond);
    var m1 := Steps(1, m, cond);
    var h := Handle(cs, Bindings(outer), r.value, Jump(since, r.world), since, fuel, known, cond);
    var n1 := SimulateHandle(cs, Lower(b, known), fin, m1, next, fuel, known, cond, outer, savedId, saved, stateId,
                             since, 0);
    StepsPlus(1, n1, m, cond);
    n := 1 + n1;
    if h.out.Normal? || h.out.Thrown? {
      var n2 := SimulateFinish(h, f, Try(b, cs, f), Steps(n, m, cond), next, fuel, known, cond,
                               outer, savedId, saved, stateId, if h.out.Thrown? then 1 else 2);
      StepsPlus(n, n2, m, cond);
      n := n + n2;
    }
  }

  lemma {:induction false} EnterSeq(m: Machine, a: CStmt, b: CStmt, next: Kont, cond: Conditions)
    requires m.Running? && m.k == Do(CSeq(a, b), next)
    ensures Steps(1, m, cond) == m.(k := Do(a, Do(b, next)))
  {
    var m1 := Step(m, cond);
    assert Steps(0, m1, cond) == m1;
  }

  /** First return of `setjmp`: the state is 0 and the body runs. */
  lemma {:induction false} TakeBody(m: Machine, body: CStmt, rest: CStmt, next: Kont, cond: Conditions)
    requires m.Running? && m.k == Do(CSeq(IfState(0, CBlock(body)), rest), next)
    requires StateIndex(m.locals) >= 0 && m.locals[StateIndex(m.locals)].v == State(0)
    ensures Steps(2, m, cond) == m.(k := Do(CBlock(body), Do(rest, next)))
  {
    EnterSeq(m, IfState(0, CBlock(body)), rest, next, cond);
    var m1 := Steps(1, m, cond);
    var m2 := Step(m1, cond);
    assert Steps(1, m1, cond) == m2 by { assert Steps(0, m2, cond) == m2; }
    StepsPlus(1, 1, m, cond);
  }

  /** A throw out of the body or a handler: `setjmp` returns again, in the frame of its own block. */
  lemma {:induction false} TakeJump(m: Machine, outer: seq<Slot>, savedId: nat, saved: Buffer, stateId: nat, state: int,
                 after: CStmt, next: Kont, since: nat, cond: Conditions)
    requires m.Running? && AtLongjmp(m.k) && m.buf == TryPoint(outer, stateId, after, next, since)
    requires Frame(outer, savedId, saved, stateId, state) <= m.locals
    ensures Steps(1, m, cond)
         == m.(k := m.buf.k, locals := Frame(outer, savedId, saved, stateId, state), world := Jump(since, m.world))
  {
    var frame := Frame(outer, savedId, saved, stateId, state);
    assert m.locals[..|frame|] == frame;
    assert m.locals[|frame| - 1] == frame[|frame| - 1];
    var m1 := Step(m, cond);
    assert Steps(0, m1, cond) == m1;
  }

  /** Second return of `setjmp`: the state becomes 1, the body is skipped, the catches are next. */
  lemma {:induction false} BackToCatches(m: Machine, outer: seq<Slot>, savedId: nat, saved: Buffer, stateId: nat,
                                         state: int,
                      body: CStmt, catches: CStmt, fin: CStmt, next: Kont, cond: Conditions)
    requires m.Running? && m.k == Do(SetState(1), Do(AfterSetjmp(body, catches, fin), next))
    requires m.locals == Frame(outer, savedId, saved, stateId, state)
    ensures Steps(4, m, cond)
         == m.(k := Do(catches, Do(Epilogue(fin), next)), locals := Frame(outer, savedId, saved, stateId, 1))
  {
    FrameFacts(outer, savedId, saved, stateId, state);
    FrameFacts(outer, savedId, saved, stateId, 1);
    ThreeSteps(m, cond);
    var m3 := Steps(3, m, cond);
    assert m3 == m.(k := Do(CSeq(catches, Epilogue(fin)), next), locals := Frame(outer, savedId, saved, stateId, 1));
    EnterSeq(m3, catches, Epilogue(fin), next, cond);
    StepsPlus(3, 1, m, cond);
  }

  /** From a second return of `setjmp` to the catch that takes the exception, or past all of them. */
  lemma {:induction false} Redispatch(cs: Catches, body: CStmt, fin: CStmt, m: Machine, next: Kont,
                                      known: set<string>, cond: Conditions,
                   outer: seq<Slot>, savedId: nat, saved: Buffer, stateId: nat, state: int)
    returns (n: nat, rest: Catches)
    requires m.Running? && m.k == Do(SetState(1), Do(AfterSetjmp(body, LowerCatches(cs, known), fin), next))
    requires m.locals == Frame(outer, savedId, saved, stateId, state)
    ensures n > 0
    ensures match Select(cs, m.value, known)
            case NoMatch =>
              Steps(n, m, cond) == m.(k := Do(Epilogue(fin), next), locals := Frame(outer, savedId, saved, stateId, 1))
            case NilCrash => Steps(n, m, cond) == Undefined(m.world)
            case Handler(param, handler) =>
              Steps(n, m, cond)
              == m.(k := Do(CBlock(Lower(handler, known)),
                            EndBlock(|m.locals|, Do(LowerCatches(rest, known), Do(Epilogue(fin), next)))),
                    locals := Frame(outer, savedId, saved, stateId, 2) + [Slot(m.nextId, Bound(param, m.value))],
                    nextId := m.nextId + 1)
  {
    hide Step;
    BackToCatches(m, outer, savedId, saved, stateId, state, body, LowerCatches(cs, known), fin, next, cond);
    var m4 := Steps(4, m, cond);
    n, rest := ScanCatches(cs, m4, Do(Epilogue(fin), next), known, cond, outer, savedId, saved, stateId);
    StepsPlus(4, n, m, cond);
    n := 4 + n;
  }

  /** The catches are done with result `h`: the finally part is next, in the frame of the statement. */
  predicate AtEpilogue(h: Effect, epilogue: Kont, frame: seq<Slot>, fuel: nat, n: nat, m2: Machine) {
    match h.out
    case Crash => m2 == Undefined(h.world)
    case OutOfFuel => n >= fuel && !Stopped(m2)
    case _ => m2.Running? && m2 == Running(epilogue, frame, m2.buf, h.value, h.world, m2.nextId)
  }

  lemma {:induction false} SimulateHandle(cs: Catches, body: CStmt, fin: CStmt, m: Machine, next: Kont, fuel: nat,
                                          known: set<string>, cond: Conditions,
                                          outer: seq<Slot>, savedId: nat, saved: Buffer, stateId: nat, since: nat,
                                          state: int)
    returns (n: nat)
    requires m.Running?
    requires m.buf == TryPoint(outer, stateId, AfterSetjmp(body, LowerCatches(cs, known), fin), next, since)
    requires m.k == m.buf.k && m.locals == Frame(outer, savedId, saved, stateId, state)
    ensures var h := Handle(cs, Bindings(outer), m.value, m.world, since, fuel, known, cond);
            AtEpilogue(h, Do(Epilogue(fin), EndBlock(|outer|, next)),
                       Frame(outer, savedId, saved, stateId, if h.out.Thrown? then 1 else 2), fuel, n,
                           Steps(n, m, cond))
    decreases fuel, cs, 0
  {
    hide Step, Jump, Epilogue, AfterSetjmp, Lower, LowerCatches, Bindings, StateIndex, SavedIndex;
    var catches := LowerCatches(cs, known);
    var end := EndBlock(|outer|, next);
    var epilogue := Do(Epilogue(fin), end);
    var frame2 := Frame(outer, savedId, saved, stateId, 2);
    var rest;
    n, rest := Redispatch(cs, body, fin, m, end, known, cond, outer, savedId, saved, stateId, state);
    match Select(cs, m.value, known)
    case NoMatch =>
    case NilCrash =>
    case Handler(param, handler) =>
      var m5 := Steps(n, m, cond);
      FrameFacts(outer, savedId, saved, stateId, 2);
      BindingsPush(frame2, Slot(m.nextId, Bound(param, m.value)));
      assert m5.locals[|frame2| - 1] == frame2[|frame2| - 1];
      var tail := EndBlock(|frame2|, Do(LowerCatches(rest, known), epilogue));
      var n2 := SimulateBlock(handler, m5, tail, fuel, known, cond);
      StepsPlus(n, n2, m, cond);
      n := n + n2;
      var m6 := Steps(n, m, cond);
      var r := Exec(handler, Bindings(outer) + [(param, m.value)], m.value, m.world, fuel, known, cond);
      if r.out.Normal? {
        LeaveBlock(m6, frame2, Do(LowerCatches(rest, known), epilogue), cond);
        var m7 := Steps(1, m6, cond);
        var n3 := SkipCatches(rest, m7, epilogue, known, cond);
        StepsPlus(n, 1, m, cond);
        StepsPlus(n + 1, n3, m, cond);
        n := n + 1 + n3;
      } else if r.out.Thrown? && (fuel > 0 || Select(cs, r.value, known).NoMatch?) {
        assert frame2 <= m6.locals by { assert frame2 <= m5.locals <= m6.locals; }
        TakeJump(m6, outer, savedId, saved, stateId, 2, AfterSetjmp(body, catches, fin), next, since, cond);
        StepsPlus(n, 1, m, cond);
        n := n + 1;
        var m7 := Steps(n, m, cond);
        var n3;
        if Select(cs, r.value, known).NoMatch? {
          n3, rest := Redispatch(cs, body, fin, m7, end, known, cond, outer, savedId, saved, stateId, 2);
        } else {
          n3 := SimulateHandle(cs, body, fin, m7, next, fuel - 1, known, cond, outer, savedId, saved, stateId, since,
                               2);
        }
        StepsPlus(n, n3, m, cond);
        n := n + n3;
      }
  }

  lemma {:induction false} LeaveBlock(m: Machine, outer: seq<Slot>, next: Kont, cond: Conditions)
    requires m.Running? && m.k == EndBlock(|outer|, next) && outer <= m.locals
    ensures Steps(1, m, cond) == m.(k := next, locals := outer)
  {
    assert m.locals[..|outer|] == outer;
    var m1 := Step(m, cond);
    assert Steps(0, m1, cond) == m1;
  }

  lemma {:induction false} RestoreSaved(m: Machine, outer: seq<Slot>, savedId: nat, saved: Buffer, stateId: nat,
                                        state: int,
                     fin: CStmt, next: Kont, cond: Conditions)
    requires m.Running? && m.k == Do(Epilogue(fin), next)
    requires m.locals == Frame(outer, savedId, saved, stateId, state)
    ensures Steps(3, m, cond) == m.(k := Do(fin, Do(IfState(1, Longjmp), next)), buf := saved)
  {
    FrameFacts(outer, savedId, saved, stateId, state);
    ThreeSteps(m, cond);
  }

  lemma {:induction false} SimulateFinish(h: Effect, f: Option<Stmt>, s: Stmt, m: Machine, next: Kont, fuel: nat,
                                          known: set<string>, cond: Conditions,
                                          outer: seq<Slot>, savedId: nat, saved: Buffer, stateId: nat, state: int)
    returns (n: nat)
    requires s.Try? && s.fin == f
    requires h.out.Normal? || h.out.Thrown?
    requires state == 1 <==> h.out.Thrown?
    requires m.Running? && m.k == Do(Epilogue(LowerFinally(f, known)), EndBlock(|outer|, next))
    requires m.locals == Frame(outer, savedId, saved, stateId, state) && Alive(saved, outer)
    requires m.value == h.value && m.world == h.world
    ensures Agrees(outer, saved, next, Finish(h, f, Bindings(outer), fuel, known, cond, s), fuel, n, Steps(n, m, cond))
    decreases fuel, s, 0
  {
    hide Step;
    var fin := LowerFinally(f, known);
    var end := EndBlock(|outer|, next);
    var frame := Frame(outer, savedId, saved, stateId, state);
    FrameFacts(outer, savedId, saved, stateId, state);
    RestoreSaved(m, outer, savedId, saved, stateId, state, fin, end, cond);
    var m3 := Steps(3, m, cond);
    n := 3;
    if f.None? {
      var m4 := Steps(1, m3, cond);
      assert m4 == m3.(k := Do(IfState(1, Longjmp), end)) by { SkipStep(m3, Do(IfState(1, Longjmp), end), cond); }
      StepsPlus(3, 1, m, cond);
      n := 4;
      n := Rethrow(m, n, outer, state, next, cond);
    } else {
      assert Alive(saved, frame) by {
        if saved.Point? { assert frame[saved.depth - 1] == outer[saved.depth - 1]; }
      }
      var n1 := SimulateBlock(f.value, m3, Do(IfState(1, Longjmp), end), fuel, known, cond);
      StepsPlus(3, n1, m, cond);
      n := 3 + n1;
      if Exec(f.value, Bindings(outer), h.value, h.world, fuel, known, cond).out.Normal? {
        n := Rethrow(m, n, outer, state, next, cond);
      }
    }
  }

  lemma {:induction false} SkipStep(m: Machine, next: Kont, cond: Conditions)
    requires m.Running? && m.k == Do(CSkip, next)
    ensures Steps(1, m, cond) == m.(k := next)
  {
    var m1 := Step(m, cond);
    assert Steps(0, m1, cond) == m1;
  }

  /** The last statement of the emitted block: jump on iff the state is still 1. */
  lemma {:induction false} Rethrow(m0: Machine, n0: nat, outer: seq<Slot>, state: int, next: Kont, cond: Conditions)
    returns (n: nat)
    requires var m := Steps(n0, m0, cond);
             && m.Running? && m.k == Do(IfState(1, Longjmp), EndBlock(|outer|, next)) && outer <= m.locals
             && StateIndex(m.locals) >= 0 && m.locals[StateIndex(m.locals)].v == State(state)
    ensures n >= n0
    ensures var m := Steps(n0, m0, cond);
            Steps(n, m0, cond)
            == if state == 1 then m.(k := Do(Longjmp, EndBlock(|outer|, next)))
               else m.(k := next, locals := outer)
  {
    var m := Steps(n0, m0, cond);
    var m1 := Step(m, cond);
    assert Steps(1, m, cond) == m1 by { assert Steps(0, m1, cond) == m1; }
    StepsPlus(n0, 1, m0, cond);
    n := n0 + 1;
    if state != 1 {
      LeaveBlock(m1, outer, next, cond);
      StepsPlus(n, 1, m0, cond);
      n := n + 1;
    }
  }
}
