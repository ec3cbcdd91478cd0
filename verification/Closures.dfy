/** The compiler's tables for nested functions (`resolveUpvalue`, `addUpvalue`, `endScope` in
    cyarg/compiler.c), the code that they lead to, and that it uses, captures and closes exactly the
    variables that lexical scope says. */
module Closures {
  import opened Scoping
  import Language

  const UINT8_COUNT := 256

  datatype Local = Local(name: string, depth: int, isCaptured: bool)

  datatype Upvalue = Upvalue(index: nat, isLocal: bool)

  /** The functions being compiled, innermost first (`enclosing`). */
  datatype Fns = NoFn | Fn(locals: seq<Local>, upvalues: seq<Upvalue>, scopeDepth: nat, enclosing: Fns)

  type Compiling = f: Fns | f.Fn? witness Fn([], [], 0, NoFn)

  /** Code as far as it concerns variables; values that come and go between are left out. */
  datatype Instr =
    | Push                                            // the slot of a new variable
    | GetLocal(slot: nat)
    | GetUpvalue(index: nat)
    | GetGlobal(name: string)
    | DefineGlobal(name: string)
    | Closure(upvalues: seq<Upvalue>, arity: nat, body: Code)
    | Pop
    | CloseUpvalue

  datatype Code = Empty | Then(first: Instr, rest: Code)

  function Append(a: Code, b: Code): Code {
    match a
    case Empty => b
    case Then(i, rest) => Then(i, Append(rest, b))
  }

  function One(i: Instr): Code {
    Then(i, Empty)
  }

  // ---- resolving names ----

  /** `resolveLocal` */
  function FindLocal(locals: seq<Local>, name: string): (i: int)
    ensures -1 <= i < |locals|
    ensures i >= 0 ==> locals[i].name == name
    ensures forall j :: i < j < |locals| ==> locals[j].name != name
  {
    Language.Innermost(locals, (l: Local) => l.name, name)
  }

  function IndexOf(us: seq<Upvalue>, u: Upvalue): (i: nat)
    ensures i <= |us| && (i < |us| ==> us[i] == u) && (i == |us| ==> u !in us)
  {
    if us == [] || us[0] == u then 0 else 1 + IndexOf(us[1..], u)
  }

  datatype Resolution = Resolution(arg: int, fns: Fns, ok: bool)

  /** `addUpvalue`: the same capture is listed once. */
  function AddUpvalue(f: Compiling, u: Upvalue): (r: Resolution)
    ensures r.fns.Fn?
  {
    var i := IndexOf(f.upvalues, u);
    if i < |f.upvalues| then Resolution(i, f, true)
    else if i == UINT8_COUNT then Resolution(0, f, false)
    else Resolution(i, f.(upvalues := f.upvalues + [u]), true)
  }

  function Capture(f: Compiling, i: nat): (r: Fns)
    requires i < |f.locals|
    ensures r.Fn?
  {
    f.(locals := f.locals[i := f.locals[i].(isCaptured := true)])
  }

  /** `resolveUpvalue` */
  function ResolveUpvalue(f: Compiling, name: string): (r: Resolution)
    ensures r.fns.Fn?
    decreases f
  {
    if f.enclosing.NoFn? then Resolution(-1, f, true)
    else
      var i := FindLocal(f.enclosing.locals, name);
      if i >= 0 then
        var r := AddUpvalue(f.(enclosing := Capture(f.enclosing, i)), Upvalue(i, true));
        r.(ok := r.ok && f.enclosing.locals[i].depth != -1)
      else
        var o := ResolveUpvalue(f.enclosing, name);
        if o.arg < 0 then Resolution(-1, f, o.ok)
        else
          var r := AddUpvalue(f.(enclosing := o.fns), Upvalue(o.arg, false));
          r.(ok := r.ok && o.ok)
  }

  // ---- the compiler ----

  datatype Output = Output(code: Code, fns: Fns, ok: bool)

  function GetVariable(f: Compiling, name: string): (o: Output)
    ensures o.fns.Fn?
  {
    var i := FindLocal(f.locals, name);
    if name == "this" then Output(Empty, f, false)                  // not in a class
    else if i >= 0 then Output(One(GetLocal(i)), f, f.locals[i].depth != -1)
    else
      var r := ResolveUpvalue(f, name);
      Output(One(if r.arg >= 0 then GetUpvalue(r.arg) else GetGlobal(name)), r.fns, r.ok)
  }

  function GetVariables(f: Compiling, names: seq<string>): (o: Output)
    ensures o.fns.Fn?
    decreases |names|
  {
    if names == [] then Output(Empty, f, true)
    else
      var a := GetVariable(f, names[0]);
      var b := GetVariables(a.fns, names[1..]);
      Output(Append(a.code, b.code), b.fns, a.ok && b.ok)
  }

  /** `declareVariable` finds the name already in the scope. */
  predicate Redeclared(locals: seq<Local>, name: string, depth: int) {
    exists i ::
      && 0 <= i < |locals| && locals[i].name == name
      && forall j :: i <= j < |locals| ==> locals[j].depth == -1 || locals[j].depth >= depth
  }

  /** `declareVariable` and `addLocal`, and `markInitialized`. */
  function Declare(f: Compiling, name: string): (o: Output)
    ensures o.fns.Fn?
  {
    Output(One(Push), f.(locals := f.locals + [Local(name, -1, false)]),
           |f.locals| < UINT8_COUNT && !Redeclared(f.locals, name, f.scopeDepth))
  }

  function Initialised(f: Compiling): (r: Fns)
    requires |f.locals| > 0
    ensures r.Fn?
  {
    var n := |f.locals| - 1;
    f.(locals := f.locals[n := f.locals[n].(depth := f.scopeDepth)])
  }

  /** `endScope`: closes the captured variables of the scope and pops the others. */
  function EndScope(locals: seq<Local>, depth: int): (r: (Code, seq<Local>))
    ensures r.1 <= locals
  {
    if |locals| == 0 || locals[|locals| - 1].depth <= depth then (Empty, locals)
    else
      var rest := EndScope(locals[..|locals| - 1], depth);
      (Then(if locals[|locals| - 1].isCaptured then CloseUpvalue else Pop, rest.0), rest.1)
  }

  function CompileParams(f: Compiling, params: seq<string>): (o: Output)
    ensures o.fns.Fn?
    decreases |params|
  {
    if params == [] then Output(Empty, f, true)
    else
      var d := Declare(f, params[0]);
      var o := CompileParams(Initialised(d.fns), params[1..]);
      o.(ok := d.ok && o.ok)
  }

  function CompileItem(item: Item, f: Compiling): (o: Output)
    ensures o.fns.Fn?
    decreases item
  {
    match item
    case Variable(name, uses) =>
      if f.scopeDepth == 0 then
        var u := GetVariables(f, uses);
        Output(Then(Push, Append(u.code, One(DefineGlobal(name)))), u.fns, u.ok)
      else
        var d := Declare(f, name);
        var u := GetVariables(d.fns, uses);
        if |u.fns.locals| == 0 then Output(Empty, f, false)
        else Output(Then(Push, u.code), Initialised(u.fns), d.ok && u.ok)
    case Use(name) => GetVariable(f, name)
    case Block(items) =>
      var o := CompileItems(items, f.(scopeDepth := f.scopeDepth + 1));
      var e := EndScope(o.fns.locals, f.scopeDepth);
      Output(Append(o.code, e.0), o.fns.(locals := e.1, scopeDepth := f.scopeDepth), o.ok)
    case Function(name, params, body) =>
      var start := Enter(f, name, params);
      var b := CompileItems(body, start.fns);
      if b.fns.enclosing.NoFn? then Output(Empty, f, false)
      else Output(ClosureCode(f, name, |params|, b), b.fns.enclosing, start.ok && b.ok)
  }

  /** The function being compiled while one of its functions is: that one's name is declared. */
  function Around(f: Compiling, name: string): (r: Fns)
    ensures r.Fn?
  {
    if f.scopeDepth == 0 then f else Initialised(Declare(f, name).fns)
  }

  /** `initCompiler` and the parameters. */
  function Enter(f: Compiling, name: string, params: seq<string>): (o: Output)
    ensures o.fns.Fn?
  {
    var p := CompileParams(Fn([Local("", 0, false)], [], 1, Around(f, name)), params);
    p.(ok := p.ok && (f.scopeDepth == 0 || Declare(f, name).ok))
  }

  /** `OP_CLOSURE` with the upvalues of the function that has been compiled. */
  function ClosureCode(f: Compiling, name: string, arity: nat, b: Output): Code
    requires b.fns.Fn?
  {
    var c := One(Closure(b.fns.upvalues, arity, b.code));
    if f.scopeDepth == 0 then Append(c, One(DefineGlobal(name))) else c
  }

  function CompileItems(items: Items, f: Compiling): (o: Output)
    ensures o.fns.Fn?
    decreases items
  {
    match items
    case NoItems => Output(Empty, f, true)
    case Items(first, rest) =>
      var a := CompileItem(first, f);
      var b := CompileItems(rest, a.fns);
      Output(Append(a.code, b.code), b.fns, a.ok && b.ok)
  }

  const SCRIPT := Fn([Local("this", 0, false)], [], 0, NoFn)

  // ---- what the code does to variables ----

  datatype Trace = Trace(events: seq<Event>, slots: seq<nat>, next: nat)

  function UsedAt(s: seq<nat>, i: nat, level: nat): Event {
    if i < |s| then Used(s[i], level) else Wild
  }

  /** The variable that a new closure captures (`OP_CLOSURE`). */
  function Captures(u: Upvalue, slots: seq<nat>, upvalues: seq<nat>): nat {
    var from := if u.isLocal then slots else upvalues;
    if u.index < |from| then from[u.index] else 0
  }

  function Drop(slots: seq<nat>): seq<nat> {
    if |slots| == 0 then [] else slots[..|slots| - 1]
  }

  function Top(slots: seq<nat>, closed: bool): Event {
    if |slots| == 0 then Wild else Dropped(slots[|slots| - 1], closed)
  }

  /** The frame in which a function runs, and what its closure has captured. */
  function InnerSlots(arity: nat, next: nat): (s: seq<nat>)
    ensures |s| == 1 + arity
  {
    seq(1 + arity, k requires 0 <= k < 1 + arity => next + 1 + k)
  }

  function Captured(us: seq<Upvalue>, slots: seq<nat>, upvalues: seq<nat>): (s: seq<nat>)
    ensures |s| == |us|
  {
    seq(|us|, k requires 0 <= k < |us| => Captures(us[k], slots, upvalues))
  }

  /** One instruction on a frame of numbered variables; a closure's body is followed where it is made. */
  function Do(i: Instr, slots: seq<nat>, upvalues: seq<nat>, level: nat, next: nat): Trace
    decreases i
  {
    match i
    case Push => Trace([], slots + [next], next + 1)
    case GetLocal(k) => Trace([UsedAt(slots, k, level)], slots, next + 1)
    case GetUpvalue(k) => Trace([UsedAt(upvalues, k, level)], slots, next + 1)
    case GetGlobal(name) => Trace([UsedGlobal(name)], slots, next + 1)
    case DefineGlobal(name) => Trace([Defined(name)], Drop(slots), next)
    case Closure(us, arity, body) =>
      var slots' := slots + [next];
      var t := DoAll(body, InnerSlots(arity, next), Captured(us, slots', upvalues), level + 1, next + 2 + arity);
      Trace(t.events, slots', t.next + 2)
    case Pop => Trace([Top(slots, false)], Drop(slots), next)
    case CloseUpvalue => Trace([Top(slots, true)], Drop(slots), next)
  }

  function DoAll(code: Code, slots: seq<nat>, upvalues: seq<nat>, level: nat, next: nat): Trace
    decreases code
  {
    match code
    case Empty => Trace([], slots, next)
    case Then(i, rest) =>
      var a := Do(i, slots, upvalues, level, next);
      var b := DoAll(rest, a.slots, upvalues, level, a.next);
      Trace(a.events + b.events, b.slots, b.next)
  }

  lemma {:induction false} DoAppend(a: Code, b: Code, slots: seq<nat>, upvalues: seq<nat>, level: nat, next: nat)
    ensures var t := DoAll(a, slots, upvalues, level, next);
            var u := DoAll(b, t.slots, upvalues, level, t.next);
            DoAll(Append(a, b), slots, upvalues, level, next) == Trace(t.events + u.events, u.slots, u.next)
    decreases a
  {
    hide Do, DoAll;
    match a
    case Empty =>
      var u := DoAll(b, slots, upvalues, level, next);
      DoNothing(slots, upvalues, level, next);
      assert [] + u.events == u.events;
    case Then(i, rest) =>
      var t := Do(i, slots, upvalues, level, next);
      var s := DoAll(rest, t.slots, upvalues, level, t.next);
      var u := DoAll(b, s.slots, upvalues, level, s.next);
      DoThen(i, rest, slots, upvalues, level, next);
      DoThen(i, Append(rest, b), slots, upvalues, level, next);
      DoAppend(rest, b, t.slots, upvalues, level, t.next);
      assert t.events + (s.events + u.events) == (t.events + s.events) + u.events;
  }

  lemma DoNothing(slots: seq<nat>, upvalues: seq<nat>, level: nat, next: nat)
    ensures DoAll(Empty, slots, upvalues, level, next) == Trace([], slots, next)
  {
  }

  lemma DoThen(i: Instr, rest: Code, slots: seq<nat>, upvalues: seq<nat>, level: nat, next: nat)
    ensures var t := Do(i, slots, upvalues, level, next);
            var s := DoAll(rest, t.slots, upvalues, level, t.next);
            DoAll(Then(i, rest), slots, upvalues, level, next) == Trace(t.events + s.events, s.slots, s.next)
  {
    hide Do;
  }

  lemma DoOne(i: Instr, slots: seq<nat>, upvalues: seq<nat>, level: nat, next: nat)
    ensures DoAll(One(i), slots, upvalues, level, next) == Do(i, slots, upvalues, level, next)
  {
    hide Do;
    var t := Do(i, slots, upvalues, level, next);
    assert DoAll(Empty, t.slots, upvalues, level, t.next) == Trace([], t.slots, t.next);
    assert t.events + [] == t.events;
  }

  // ---- tables and frames side by side ----

  /** The frames around the one that runs: the variables in the slots and upvalues of the functions
      being compiled. */
  datatype Frames = NoFrame | Frame(slots: seq<nat>, upvalues: seq<nat>, outer: Frames)

  function Level(f: Compiling): nat
    decreases f
  {
    if f.enclosing.NoFn? then 0 else 1 + Level(f.enclosing)
  }

  predicate Shape(f: Fns, slots: seq<nat>, outer: Frames)
    decreases f
  {
    && f.Fn? && |f.locals| <= |slots|
    && if f.enclosing.NoFn? then outer.NoFrame? else outer.Frame? && Shape(f.enclosing, outer.slots, outer.outer)
  }

  function OuterEnv(f: Compiling, outer: Frames): seq<Binding>
    requires f.enclosing.Fn? ==> outer.Frame? && Shape(f.enclosing, outer.slots, outer.outer)
    decreases f, 0
  {
    if f.enclosing.NoFn? then [] else Env(f.enclosing, outer.slots, outer.outer)
  }

  /** The variables in scope: those of the functions around, then those of this one. */
  function Env(f: Compiling, slots: seq<nat>, outer: Frames): seq<Binding>
    requires Shape(f, slots, outer)
    decreases f, 1
  {
    OuterEnv(f, outer) + Own(f.locals, slots, Level(f))
  }

  function Own(locals: seq<Local>, slots: seq<nat>, level: nat): (s: seq<Binding>)
    requires |locals| <= |slots|
    ensures |s| == |locals|
  {
    seq(|locals|, i requires 0 <= i < |locals| <= |slots| => Binding(locals[i].name, slots[i], level))
  }

  /** What has been noted as captured, in the same order. */
  function Flags(f: Compiling): seq<bool>
    decreases f
  {
    (if f.enclosing.NoFn? then [] else Flags(f.enclosing)) + OwnFlags(f.locals)
  }

  function OwnFlags(locals: seq<Local>): (s: seq<bool>)
    ensures |s| == |locals|
  {
    seq(|locals|, i requires 0 <= i < |locals| => locals[i].isCaptured)
  }

  lemma {:induction false} EnvLength(f: Compiling, slots: seq<nat>, outer: Frames)
    requires Shape(f, slots, outer)
    ensures |Env(f, slots, outer)| == |Flags(f)|
    ensures forall i :: 0 <= i < |Env(f, slots, outer)| ==> Env(f, slots, outer)[i].level <= Level(f)
    ensures forall i :: 0 <= i < |OuterEnv(f, outer)| ==> OuterEnv(f, outer)[i].level < Level(f)
    decreases f
  {
    if f.enclosing.Fn? {
      EnvLength(f.enclosing, outer.slots, outer.outer);
    }
  }

  /** The upvalue stands for this variable in the frame around. */
  predicate Denotes(u: Upvalue, id: nat, outer: Frames) {
    && outer.Frame?
    && var from := if u.isLocal then outer.slots else outer.upvalues;
       u.index < |from| && from[u.index] == id
  }

  /** The variables that closures were made with are those that the tables describe. */
  predicate Made(f: Fns, upvalues: seq<nat>, outer: Frames)
    decreases f
  {
    && f.Fn? && |f.upvalues| <= |upvalues|
    && (forall k :: 0 <= k < |f.upvalues| ==> Denotes(f.upvalues[k], upvalues[k], outer))
    && (f.enclosing.Fn? ==> outer.Frame? && Made(f.enclosing, outer.upvalues, outer.outer))
  }

  /** The same variables, perhaps noted as captured, and perhaps more upvalues. */
  predicate SameLocals(a: seq<Local>, b: seq<Local>) {
    |a| == |b|
    && forall i :: 0 <= i < |a| ==>
         a[i].name == b[i].name && a[i].depth == b[i].depth && (a[i].isCaptured ==> b[i].isCaptured)
  }

  predicate Same(f: Fns, f': Fns)
    decreases f
  {
    && f.Fn? && f'.Fn? && SameLocals(f.locals, f'.locals) && f.scopeDepth == f'.scopeDepth && SameOutside(f, f')
  }

  predicate SameOutside(f: Compiling, f': Compiling)
    decreases f, 0
  {
    && f.upvalues <= f'.upvalues
    && if f.enclosing.NoFn? then f'.enclosing.NoFn? else f'.enclosing.Fn? && Same(f.enclosing, f'.enclosing)
  }

  lemma {:induction false} SameTransitive(f: Fns, g: Fns, h: Fns)
    requires Same(f, g) && Same(g, h)
    ensures Same(f, h)
    decreases f
  {
    if f.enclosing.Fn? {
      SameTransitive(f.enclosing, g.enclosing, h.enclosing);
    }
  }

  lemma OutsideTransitive(f: Compiling, g: Compiling, h: Compiling)
    requires SameOutside(f, g) && SameOutside(g, h)
    ensures SameOutside(f, h)
  {
    if f.enclosing.Fn? {
      SameTransitive(f.enclosing, g.enclosing, h.enclosing);
    }
  }

  lemma {:induction false} SameItself(f: Fns)
    requires f.Fn?
    ensures Same(f, f)
    decreases f
  {
    if f.enclosing.Fn? {
      SameItself(f.enclosing);
    }
  }

  lemma {:induction false} SameEnv(f: Compiling, f': Compiling, slots: seq<nat>, outer: Frames)
    requires Same(f, f') && Shape(f, slots, outer)
    ensures Shape(f', slots, outer) && Env(f', slots, outer) == Env(f, slots, outer) && Level(f') == Level(f)
    ensures OuterEnv(f', outer) == OuterEnv(f, outer)
    decreases f
  {
    if f.enclosing.Fn? {
      SameEnv(f.enclosing, f'.enclosing, outer.slots, outer.outer);
    }
    assert Own(f'.locals, slots, Level(f)) == Own(f.locals, slots, Level(f));
  }

  lemma OutsideEnv(f: Compiling, f': Compiling, outer: Frames)
    requires SameOutside(f, f') && (f.enclosing.Fn? ==> outer.Frame? && Shape(f.enclosing, outer.slots, outer.outer))
    ensures f'.enclosing.Fn? ==> Shape(f'.enclosing, outer.slots, outer.outer)
    ensures OuterEnv(f', outer) == OuterEnv(f, outer) && Level(f') == Level(f)
  {
    if f.enclosing.Fn? {
      SameEnv(f.enclosing, f'.enclosing, outer.slots, outer.outer);
    }
  }

  /** What later tables describe, earlier ones did. */
  lemma {:induction false} MadeBefore(f: Compiling, f': Compiling, upvalues: seq<nat>, outer: Frames)
    requires SameOutside(f, f') && Made(f', upvalues, outer)
    ensures Made(f, upvalues, outer)
    decreases f
  {
    if f.enclosing.Fn? {
      MadeBefore(f.enclosing, f'.enclosing, outer.upvalues, outer.outer);
    }
  }

  // ---- a mention across functions ----

  lemma LookupParts(a: seq<Binding>, b: seq<Binding>, name: string)
    ensures var j := Lookup(b, name);
            Lookup(a + b, name) == if j >= 0 then |a| + j else Lookup(a, name)
  {
    var i, j := Lookup(a + b, name), Lookup(b, name);
    forall k | 0 <= k < |b| ensures (a + b)[|a| + k] == b[k] {
    }
    forall k | 0 <= k < |a| ensures (a + b)[k] == a[k] {
    }
    if j >= 0 {
      assert (a + b)[|a| + j].name == name;
    } else {
      var k := Lookup(a, name);
      if k >= 0 {
        assert (a + b)[k].name == name;
      }
    }
  }

  lemma LookupOwn(locals: seq<Local>, slots: seq<nat>, level: nat, name: string)
    requires |locals| <= |slots|
    ensures Lookup(Own(locals, slots, level), name) == FindLocal(locals, name)
  {
    var own := Own(locals, slots, level);
    assert forall k :: 0 <= k < |locals| ==> own[k].name == locals[k].name;
  }

  /** The name in the functions around this one: the tables have it as an upvalue exactly when it is a
      variable there, and then it is the innermost one of the name, which is noted as captured. */
  lemma {:induction false} ResolvesUpvalue(f: Compiling, name: string, upvalues: seq<nat>, outer: Frames)
    requires f.enclosing.Fn? ==> outer.Frame? && Shape(f.enclosing, outer.slots, outer.outer)
    requires var r := ResolveUpvalue(f, name); r.ok && Made(r.fns, upvalues, outer)
    ensures var r, env := ResolveUpvalue(f, name), OuterEnv(f, outer);
            var i := Lookup(env, name);
            && r.fns.locals == f.locals && r.fns.scopeDepth == f.scopeDepth && SameOutside(f, r.fns)
            && (r.arg < 0 <==> i < 0)
            && (i < 0 ==> r.fns == f)
            && (i >= 0 ==>
                  && r.arg < |upvalues| && upvalues[r.arg] == env[i].id
                  && i < |Flags(f)| && Flags(r.fns) == Flags(f)[i := true])
    decreases f
  {
    hide Denotes, Shape, Env, Flags, AddUpvalue, Capture;
    var r := ResolveUpvalue(f, name);
    if f.enclosing.NoFn? {
      SameItself(f);
    } else {
      var e := f.enclosing;
      LookupAround(e, outer, name);
      if FindLocal(e.locals, name) >= 0 {
        ResolvesLocal(f, name, upvalues, outer);
      } else {
        var o := ResolveUpvalue(e, name);
        if o.arg >= 0 {
          AddsUpvalue(f.(enclosing := o.fns), Upvalue(o.arg, false));
          AroundMade(r.fns, upvalues, outer, r.arg);
        } else {
          NotFound(e, name);
          AroundMade(r.fns, upvalues, outer, -1);
          SameItself(f);
        }
        ResolvesUpvalue(e, name, outer.upvalues, outer.outer);
        if o.arg >= 0 {
          SameFlags(f, r.fns, Lookup(OuterEnv(e, outer.outer), name));
        }
      }
    }
  }

  lemma {:induction false} NotFound(f: Compiling, name: string)
    requires ResolveUpvalue(f, name).arg < 0
    ensures ResolveUpvalue(f, name).fns == f
    decreases f
  {
    if f.enclosing.Fn? {
      var o := ResolveUpvalue(f.enclosing, name);
      if FindLocal(f.enclosing.locals, name) < 0 && o.arg < 0 {
        NotFound(f.enclosing, name);
      }
    }
  }

  lemma AroundMade(f: Compiling, upvalues: seq<nat>, outer: Frames, k: int)
    requires f.enclosing.Fn? && Made(f, upvalues, outer) && k < |f.upvalues|
    ensures outer.Frame? && Made(f.enclosing, outer.upvalues, outer.outer)
    ensures 0 <= k ==> k < |upvalues| && Denotes(f.upvalues[k], upvalues[k], outer)
  {
  }

  /** A name of the functions around is one of the nearest of them, or of those around that. */
  lemma LookupAround(e: Compiling, outer: Frames, name: string)
    requires outer.Frame? && Shape(e, outer.slots, outer.outer)
    ensures e.enclosing.Fn? ==> outer.outer.Frame? && Shape(e.enclosing, outer.outer.slots, outer.outer.outer)
    ensures var i, n := FindLocal(e.locals, name), |OuterEnv(e, outer.outer)|;
            && |Env(e, outer.slots, outer.outer)| == |Flags(e)| == n + |e.locals|
            && Lookup(Env(e, outer.slots, outer.outer), name)
               == (if i >= 0 then n + i else Lookup(OuterEnv(e, outer.outer), name))
            && (i >= 0 ==> Env(e, outer.slots, outer.outer)[n + i].id == outer.slots[i])
            && OuterEnv(e, outer.outer) <= Env(e, outer.slots, outer.outer)
  {
    EnvLength(e, outer.slots, outer.outer);
    LookupOwn(e.locals, outer.slots, Level(e), name);
    LookupParts(OuterEnv(e, outer.outer), Own(e.locals, outer.slots, Level(e)), name);
  }

  /** A local variable of the function around is captured from its slot. */
  lemma ResolvesLocal(f: Compiling, name: string, upvalues: seq<nat>, outer: Frames)
    requires f.enclosing.Fn? && outer.Frame? && Shape(f.enclosing, outer.slots, outer.outer)
    requires FindLocal(f.enclosing.locals, name) >= 0
    requires var r := ResolveUpvalue(f, name); r.ok && Made(r.fns, upvalues, outer)
    ensures var r, i := ResolveUpvalue(f, name), FindLocal(f.enclosing.locals, name);
            var n := |Flags(f.enclosing)| - |f.enclosing.locals|;
            && r.fns.locals == f.locals && r.fns.scopeDepth == f.scopeDepth && SameOutside(f, r.fns)
            && 0 <= r.arg < |upvalues| && upvalues[r.arg] == outer.slots[i]
            && 0 <= n + i < |Flags(f)| && Flags(r.fns) == Flags(f)[n + i := true]
  {
    hide Capture, AddUpvalue;
    var r, e := ResolveUpvalue(f, name), f.enclosing;
    var i := FindLocal(e.locals, name);
    CaptureFlags(e, i);
    AddsUpvalue(f.(enclosing := Capture(e, i)), Upvalue(i, true));
    AroundMade(r.fns, upvalues, outer, r.arg);
    SameFlags(f, r.fns, |Flags(e)| - |e.locals| + i);
  }

  lemma AddsUpvalue(f: Compiling, u: Upvalue)
    requires AddUpvalue(f, u).ok
    ensures var r := AddUpvalue(f, u);
            && 0 <= r.arg < |r.fns.upvalues| && r.fns.upvalues[r.arg] == u
            && r.fns == f.(upvalues := r.fns.upvalues) && f.upvalues <= r.fns.upvalues
  {
  }

  lemma CaptureFlags(f: Compiling, i: nat)
    requires i < |f.locals|
    ensures Same(f, Capture(f, i))
    ensures var n := |Flags(f)| - |f.locals|; n >= 0 && Flags(Capture(f, i)) == Flags(f)[n + i := true]
  {
    if f.enclosing.Fn? {
      SameItself(f.enclosing);
    }
    assert OwnFlags(Capture(f, i).locals) == OwnFlags(f.locals)[i := true];
  }

  /** A flag set in the functions around is set in the whole list. */
  lemma SameFlags(f: Compiling, f': Compiling, i: nat)
    requires f.enclosing.Fn? && f'.enclosing.Fn? && f'.locals == f.locals && i < |Flags(f.enclosing)|
    requires Flags(f'.enclosing) == Flags(f.enclosing)[i := true]
    ensures i < |Flags(f)| && Flags(f') == Flags(f)[i := true]
  {
  }

  // ---- flags and events ----

  /** Every variable in scope has a number of its own. */
  predicate Numbered(env: seq<Binding>, next: nat) {
    && (forall i :: 0 <= i < |env| ==> env[i].id < next)
    && (forall i, j :: 0 <= i < j < |env| ==> env[i].id != env[j].id)
  }

  predicate Below(events: seq<Event>, next: nat) {
    forall e :: e in events && e.Used? ==> e.id < next
  }

  /** A variable is noted as captured if and only if it was before or a function inside has used it since. */
  ghost predicate Noted(before: seq<bool>, after: seq<bool>, env: seq<Binding>, events: seq<Event>) {
    && |after| == |env|
    && forall i :: 0 <= i < |env| ==>
         (after[i] <==> (i < |before| && before[i]) || UsedInside(events, env[i].id, env[i].level))
  }

  lemma UsedInsideParts(a: seq<Event>, b: seq<Event>, id: nat, level: nat)
    ensures UsedInside(a + b, id, level) <==> UsedInside(a, id, level) || UsedInside(b, id, level)
  {
    if e :| e in a && e.Used? && e.id == id && e.level > level {
      assert e in a + b;
    }
    if e :| e in b && e.Used? && e.id == id && e.level > level {
      assert e in a + b;
    }
  }

  lemma NotedTwice(f: seq<bool>, g: seq<bool>, h: seq<bool>, env: seq<Binding>, env': seq<Binding>,
                   a: seq<Event>, b: seq<Event>, next: nat)
    requires Noted(f, g, env, a) && Noted(g, h, env', b) && env <= env' && |f| <= |env|
    requires Below(a, next) && NumberedFrom(env', |env|, next)
    ensures Noted(f, h, env', a + b)
  {
    forall i | 0 <= i < |env'|
      ensures h[i] <==> (i < |f| && f[i]) || UsedInside(a + b, env'[i].id, env'[i].level)
    {
      UsedInsideParts(a, b, env'[i].id, env'[i].level);
      if i >= |env| {
        assert !UsedInside(a, env'[i].id, env'[i].level);
      }
    }
  }

  lemma NotedNothing(f: seq<bool>, env: seq<Binding>)
    requires |f| == |env|
    ensures Noted(f, f, env, [])
  {
  }

  lemma NotedMore(before: seq<bool>, after: seq<bool>, env: seq<Binding>, events: seq<Event>, more: seq<Event>)
    requires Noted(before, after, env, events) && forall e :: e in more ==> !e.Used?
    ensures Noted(before, after, env, events + more)
  {
    forall i | 0 <= i < |env|
      ensures UsedInside(events + more, env[i].id, env[i].level) <==> UsedInside(events, env[i].id, env[i].level)
    {
      UsedInsideParts(events, more, env[i].id, env[i].level);
    }
  }

  lemma BelowBoth(a: seq<Event>, b: seq<Event>, m: nat, n: nat)
    requires Below(a, m) && Below(b, n) && m <= n
    ensures Below(a + b, n)
  {
  }

  // ---- mentions ----

  /** What holds of a frame and the tables between two declarations. */
  predicate Ready(f: Compiling, slots: seq<nat>, outer: Frames, next: nat) {
    && Shape(f, slots, outer) && |slots| == |f.locals|
    && Numbered(Env(f, slots, outer), next)
    && forall i :: 0 <= i < |f.locals| ==> f.locals[i].depth <= f.scopeDepth
  }

  lemma {:induction false} MentionCorrect(f: Compiling, name: string, slots: seq<nat>, upvalues: seq<nat>,
                                          outer: Frames, next: nat)
    requires Shape(f, slots, outer) && Numbered(Env(f, slots, outer), next)
    requires var o := GetVariable(f, name); o.ok && Made(o.fns, upvalues, outer)
    ensures var o, env := GetVariable(f, name), Env(f, slots, outer);
            var e := Mention(name, env, Level(f));
            && DoAll(o.code, slots, upvalues, Level(f), next) == Trace([e], slots, next + 1)
            && o.fns.locals == f.locals && o.fns.scopeDepth == f.scopeDepth && SameOutside(f, o.fns)
            && Noted(Flags(f), Flags(o.fns), env, [e]) && Below([e], next)
  {
    hide DoAll, Made, Flags, Env, UsedInside, Noted, Level, SameOutside, OuterEnv;
    SameItself(f);
    OutsideItself(f);
    LookupMention(f, slots, outer, name);
    if FindLocal(f.locals, name) >= 0 {
      LocalMention(f, name, slots, upvalues, outer, next);
    } else {
      OuterMention(f, name, slots, upvalues, outer, next);
    }
  }

  lemma LookupMention(f: Compiling, slots: seq<nat>, outer: Frames, name: string)
    requires Shape(f, slots, outer)
    ensures var i, n, env := FindLocal(f.locals, name), |OuterEnv(f, outer)|, Env(f, slots, outer);
            && n + |f.locals| == |env| == |Flags(f)|
            && Lookup(env, name) == (if i >= 0 then n + i else Lookup(OuterEnv(f, outer), name))
            && (i >= 0 ==> env[n + i] == Binding(name, slots[i], Level(f)))
            && OuterEnv(f, outer) <= env
            && forall k :: 0 <= k < n ==> env[k].level < Level(f)
  {
    hide Env, OuterEnv, Own, Level, Flags;
    var own := Own(f.locals, slots, Level(f));
    EnvParts(f, slots, outer);
    LookupOwn(f.locals, slots, Level(f), name);
    LookupParts(OuterEnv(f, outer), own, name);
  }

  lemma LocalMention(f: Compiling, name: string, slots: seq<nat>, upvalues: seq<nat>, outer: Frames, next: nat)
    requires Shape(f, slots, outer) && Numbered(Env(f, slots, outer), next) && FindLocal(f.locals, name) >= 0
    requires GetVariable(f, name).ok
    ensures var o, env := GetVariable(f, name), Env(f, slots, outer);
            var e := Mention(name, env, Level(f));
            && DoAll(o.code, slots, upvalues, Level(f), next) == Trace([e], slots, next + 1)
            && Noted(Flags(f), Flags(o.fns), env, [e]) && Below([e], next) && o.fns == f
  {
    hide DoAll, Flags, Env, UsedInside, Noted, Level, OuterEnv;
    LookupMention(f, slots, outer, name);
    var i := FindLocal(f.locals, name);
    DoOne(GetLocal(i), slots, upvalues, Level(f), next);
    NotInside(Env(f, slots, outer), |OuterEnv(f, outer)| + i, Level(f), Flags(f));
  }

  lemma OuterMention(f: Compiling, name: string, slots: seq<nat>, upvalues: seq<nat>, outer: Frames, next: nat)
    requires Shape(f, slots, outer) && Numbered(Env(f, slots, outer), next) && FindLocal(f.locals, name) < 0
    requires var o := GetVariable(f, name); o.ok && Made(o.fns, upvalues, outer)
    ensures var o, env := GetVariable(f, name), Env(f, slots, outer);
            var e := Mention(name, env, Level(f));
            && DoAll(o.code, slots, upvalues, Level(f), next) == Trace([e], slots, next + 1)
            && o.fns.locals == f.locals && o.fns.scopeDepth == f.scopeDepth && SameOutside(f, o.fns)
            && Noted(Flags(f), Flags(o.fns), env, [e]) && Below([e], next)
  {
    hide DoAll, Made, Flags, Env, UsedInside, Noted, Level, OuterEnv, ResolveUpvalue, SameOutside;
    var env, around := Env(f, slots, outer), OuterEnv(f, outer);
    LookupMention(f, slots, outer, name);
    var r := ResolveUpvalue(f, name);
    ResolvesUpvalue(f, name, upvalues, outer);
    var k := Lookup(around, name);
    if k >= 0 {
      assert around[k] == env[k];
      DoOne(GetUpvalue(r.arg), slots, upvalues, Level(f), next);
      JustInside(env, k, Level(f), Flags(f), next);
    } else {
      DoOne(GetGlobal(name), slots, upvalues, Level(f), next);
      NotInsideGlobal(env, name, Flags(f));
    }
  }

  lemma EnvParts(f: Compiling, slots: seq<nat>, outer: Frames)
    requires Shape(f, slots, outer)
    ensures Env(f, slots, outer) == OuterEnv(f, outer) + Own(f.locals, slots, Level(f))
    ensures |Env(f, slots, outer)| == |Flags(f)|
    ensures forall i :: 0 <= i < |Env(f, slots, outer)| ==> Env(f, slots, outer)[i].level <= Level(f)
    ensures forall i :: 0 <= i < |OuterEnv(f, outer)| ==> Env(f, slots, outer)[i].level < Level(f)
    ensures forall i :: 0 <= i < |f.locals| ==>
              Env(f, slots, outer)[|OuterEnv(f, outer)| + i] == Binding(f.locals[i].name, slots[i], Level(f))
  {
    EnvLength(f, slots, outer);
  }

  lemma NotInside(env: seq<Binding>, i: nat, level: nat, flags: seq<bool>)
    requires |flags| == |env| && i < |env| && env[i].level == level
    requires forall k, j :: 0 <= k < j < |env| ==> env[k].id != env[j].id
    ensures Noted(flags, flags, env, [Used(env[i].id, level)])
  {
    var e := Used(env[i].id, level);
    forall k | 0 <= k < |env| ensures !UsedInside([e], env[k].id, env[k].level) {
    }
  }

  lemma NotInsideGlobal(env: seq<Binding>, name: string, flags: seq<bool>)
    requires |flags| == |env|
    ensures Noted(flags, flags, env, [UsedGlobal(name)])
  {
  }

  lemma JustInside(env: seq<Binding>, i: nat, level: nat, flags: seq<bool>, next: nat)
    requires |flags| == |env| && i < |env| && env[i].level < level && Numbered(env, next)
    ensures Noted(flags, flags[i := true], env, [Used(env[i].id, level)])
  {
    var e := Used(env[i].id, level);
    assert e in [e];
    assert UsedInside([e], env[i].id, env[i].level);
    forall k | 0 <= k < |env| && k != i ensures !UsedInside([e], env[k].id, env[k].level) {
      assert env[k].id != env[i].id;
    }
  }

  lemma {:induction false} MentionsCorrect(f: Compiling, names: seq<string>, slots: seq<nat>, upvalues: seq<nat>,
                                           outer: Frames, next: nat)
    requires Shape(f, slots, outer) && Numbered(Env(f, slots, outer), next) && InRange(f)
    requires var o := GetVariables(f, names); o.ok && Made(o.fns, upvalues, outer)
    ensures var o, env := GetVariables(f, names), Env(f, slots, outer);
            var es := Mentions(names, env, Level(f));
            && DoAll(o.code, slots, upvalues, Level(f), next) == Trace(es, slots, next + |names|)
            && o.fns.locals == f.locals && o.fns.scopeDepth == f.scopeDepth && SameOutside(f, o.fns)
            && Noted(Flags(f), Flags(o.fns), env, es) && Below(es, next + |names|)
    decreases |names|
  {
    hide Made, Flags, Shape, Env, UsedInside, GetVariable, Mention, Noted;
    var env := Env(f, slots, outer);
    EnvParts(f, slots, outer);
    if names == [] {
      SameItself(f);
      NotedNothing(Flags(f), env);
    } else {
      var a := GetVariable(f, names[0]);
      var b := GetVariables(a.fns, names[1..]);
      MentionKeeps(f, names[0]);
      MentionsKeep(a.fns, names[1..]);
      MadeBefore(a.fns, b.fns, upvalues, outer);
      MentionCorrect(f, names[0], slots, upvalues, outer, next);
      SameEnv(f, a.fns, slots, outer);
      MentionsCorrect(a.fns, names[1..], slots, upvalues, outer, next + 1);
      OutsideTransitive(f, a.fns, b.fns);
      DoAppend(a.code, b.code, slots, upvalues, Level(f), next);
      var e, es := [Mention(names[0], env, Level(f))], Mentions(names[1..], env, Level(f));
      NotedTwice(Flags(f), Flags(a.fns), Flags(b.fns), env, env, e, es, next);
      BelowBoth(e, es, next, next + |names|);
    }
  }

  // ---- the tables keep to the functions around ----

  /** Upvalues refer to slots and upvalues that the function around has, and those slots are noted as
      captured. */
  predicate InRange(f: Fns)
    decreases f
  {
    && f.Fn?
    && if f.enclosing.NoFn? then f.upvalues == []
       else
         && InRange(f.enclosing)
         && forall k :: 0 <= k < |f.upvalues| ==>
              var i := f.upvalues[k].index;
              if f.upvalues[k].isLocal then i < |f.enclosing.locals| && f.enclosing.locals[i].isCaptured
              else i < |f.enclosing.upvalues|
  }

  ghost predicate Keeps(f: Compiling, f': Fns) {
    f'.Fn? && SameOutside(f, f') && f'.scopeDepth == f.scopeDepth && InRange(f')
  }

  lemma {:induction false} ResolutionKeeps(f: Compiling, name: string)
    requires InRange(f) && ResolveUpvalue(f, name).ok
    ensures var r := ResolveUpvalue(f, name); Keeps(f, r.fns) && r.fns.locals == f.locals && r.arg < |r.fns.upvalues|
    decreases f
  {
    var r := ResolveUpvalue(f, name);
    SameItself(f);
    if f.enclosing.Fn? {
      var e := f.enclosing;
      var i := FindLocal(e.locals, name);
      if i >= 0 {
        CaptureFlags(e, i);
        AddsUpvalue(f.(enclosing := Capture(e, i)), Upvalue(i, true));
      } else {
        var o := ResolveUpvalue(e, name);
        ResolutionKeeps(e, name);
        if o.arg >= 0 {
          AddsUpvalue(f.(enclosing := o.fns), Upvalue(o.arg, false));
        }
      }
    }
  }

  lemma MentionKeeps(f: Compiling, name: string)
    requires InRange(f) && GetVariable(f, name).ok
    ensures var o := GetVariable(f, name); Keeps(f, o.fns) && o.fns.locals == f.locals
  {
    hide ResolveUpvalue, InRange, FindLocal;
    SameItself(f);
    if FindLocal(f.locals, name) < 0 {
      ResolutionKeeps(f, name);
    }
  }

  lemma {:induction false} MentionsKeep(f: Compiling, names: seq<string>)
    requires InRange(f) && GetVariables(f, names).ok
    ensures var o := GetVariables(f, names); Keeps(f, o.fns) && o.fns.locals == f.locals
    decreases |names|
  {
    hide GetVariable, InRange, SameOutside;
    if names == [] {
      SameItself(f);
      OutsideItself(f);
    } else {
      var a := GetVariable(f, names[0]);
      MentionKeeps(f, names[0]);
      MentionsKeep(a.fns, names[1..]);
      OutsideTransitive(f, a.fns, GetVariables(f, names).fns);
    }
  }

  lemma OutsideItself(f: Compiling)
    ensures SameOutside(f, f)
  {
    SameItself(f);
  }

  /** The locals that were there, and new ones of this scope. */
  predicate Kept(f: Compiling, f': Fns) {
    && f'.Fn? && |f.locals| <= |f'.locals| && SameLocals(f.locals, f'.locals[..|f.locals|])
    && forall i :: |f.locals| <= i < |f'.locals| ==> f'.locals[i].depth == f.scopeDepth
  }

  predicate InScope(f: Compiling) {
    forall i :: 0 <= i < |f.locals| ==> f.locals[i].depth <= f.scopeDepth
  }

  lemma OtherLocals(f: Compiling, f': Compiling)
    requires f'.upvalues == f.upvalues && f'.enclosing == f.enclosing
    ensures SameOutside(f, f') && (InRange(f) ==> InRange(f')) && Level(f') == Level(f)
    ensures forall g: Compiling :: SameOutside(g, f) ==> SameOutside(g, f')
  {
    SameItself(f);
  }

  function ParamLocals(params: seq<string>, depth: nat): seq<Local> {
    seq(|params|, i requires 0 <= i < |params| => Local(params[i], depth, false))
  }

  lemma {:induction false} ParamsDone(f: Compiling, params: seq<string>)
    ensures CompileParams(f, params).fns == f.(locals := f.locals + ParamLocals(params, f.scopeDepth))
    decreases |params|
  {
    if params == [] {
      assert f.locals + [] == f.locals;
    } else {
      var d := Declare(f, params[0]);
      var f' := Initialised(d.fns);
      assert f'.locals == f.locals + [Local(params[0], f.scopeDepth, false)];
      ParamsDone(f', params[1..]);
      assert f'.locals + ParamLocals(params[1..], f.scopeDepth) == f.locals + ParamLocals(params, f.scopeDepth);
    }
  }

  /** `endScope` leaves the locals that are not of the scope. */
  lemma {:induction false} EndScopeLeaves(locals: seq<Local>, n: nat, depth: int)
    requires n <= |locals|
    requires forall i :: 0 <= i < n ==> locals[i].depth <= depth
    requires forall i :: n <= i < |locals| ==> locals[i].depth > depth
    ensures EndScope(locals, depth).1 == locals[..n]
  {
    if |locals| > n {
      EndScopeLeaves(locals[..|locals| - 1], n, depth);
    }
  }

  lemma {:induction false} ItemKeeps(item: Item, f: Compiling)
    requires InRange(f) && InScope(f) && CompileItem(item, f).ok
    ensures var o := CompileItem(item, f); Keeps(f, o.fns) && Kept(f, o.fns)
    decreases item, 0
  {
    hide InRange, SameOutside, GetVariables, GetVariable, CompileItems, EndScope;
    match item
    case Use(name) => MentionKeeps(f, name);
    case Variable(name, uses) => VariableKeeps(name, uses, f);
    case Block(items) =>
      var f' := f.(scopeDepth := f.scopeDepth + 1);
      var o := CompileItems(items, f');
      OtherLocals(f, f');
      ItemsKeep(items, f');
      EndScopeLeaves(o.fns.locals, |f.locals|, f.scopeDepth);
      OtherLocals(o.fns, CompileItem(item, f).fns);
      OutsideTransitive(f, f', o.fns);
    case Function(name, params, body) => FunctionKeeps(name, params, body, f);
  }

  lemma VariableKeeps(name: string, uses: seq<string>, f: Compiling)
    requires InRange(f) && InScope(f) && CompileItem(Variable(name, uses), f).ok
    ensures var o := CompileItem(Variable(name, uses), f); Keeps(f, o.fns) && Kept(f, o.fns)
  {
    hide InRange, SameOutside, GetVariables;
    if f.scopeDepth == 0 {
      MentionsKeep(f, uses);
    } else {
      var d := Declare(f, name);
      OtherLocals(f, d.fns);
      MentionsKeep(d.fns, uses);
      var u := GetVariables(d.fns, uses);
      OtherLocals(u.fns, Initialised(u.fns));
      OutsideTransitive(f, d.fns, u.fns);
    }
  }

  lemma AroundLocals(f: Compiling, name: string)
    ensures Around(f, name) == f.(locals := f.locals + if f.scopeDepth == 0 then [] else [Local(name, f.scopeDepth, false)])
  {
  }

  function Inside(f: Compiling, name: string, params: seq<string>): (r: Fns)
    ensures r.Fn?
  {
    Fn([Local("", 0, false)] + ParamLocals(params, 1), [], 1, Around(f, name))
  }

  lemma EnterInside(name: string, params: seq<string>, f: Compiling)
    ensures Enter(f, name, params).fns == Inside(f, name, params)
  {
    ParamsDone(Fn([Local("", 0, false)], [], 1, Around(f, name)), params);
  }

  lemma {:induction false} FunctionKeeps(name: string, params: seq<string>, body: Items, f: Compiling)
    requires InRange(f) && InScope(f) && CompileItem(Function(name, params, body), f).ok
    ensures var o := CompileItem(Function(name, params, body), f); Keeps(f, o.fns) && Kept(f, o.fns)
    decreases body, 1
  {
    hide CompileItems, Around, Enter;
    EnterInside(name, params, f);
    var f', g := Around(f, name), Inside(f, name, params);
    AroundLocals(f, name);
    OtherLocals(f, f');
    ItemsKeep(body, g);
    var b := CompileItems(body, g);
    assert Same(f', b.fns.enclosing);
    OutsideTransitive(f, f', b.fns.enclosing);
  }

  lemma {:induction false} ItemsKeep(items: Items, f: Compiling)
    requires InRange(f) && InScope(f) && CompileItems(items, f).ok
    ensures var o := CompileItems(items, f); Keeps(f, o.fns) && Kept(f, o.fns)
    decreases items, 0
  {
    hide InRange, SameOutside, CompileItem;
    match items
    case NoItems => OutsideItself(f);
    case Items(first, rest) =>
      var a := CompileItem(first, f);
      ItemKeeps(first, f);
      ItemsKeep(rest, a.fns);
      OutsideTransitive(f, a.fns, CompileItems(rest, a.fns).fns);
  }

  // ---- the code does what lexical scope says ----

  ghost predicate Correct(f: Compiling, outer: Frames, o: Output, t: Trace, w: Walk) {
    && o.fns.Fn? && SameOutside(f, o.fns) && Kept(f, o.fns) && o.fns.scopeDepth == f.scopeDepth
    && t.events == w.events && t.next == w.next
    && Shape(o.fns, t.slots, outer) && |t.slots| == |o.fns.locals| && Env(o.fns, t.slots, outer) == w.env
    && Noted(Flags(f), Flags(o.fns), w.env, w.events)
    && Below(w.events, w.next) && Numbered(w.env, w.next)
  }

  ghost predicate ItemsCorrectAt(items: Items, f: Compiling, slots: seq<nat>, upvalues: seq<nat>, outer: Frames, next: nat)
    requires Shape(f, slots, outer)
  {
    var o := CompileItems(items, f);
    Correct(f, outer, o, DoAll(o.code, slots, upvalues, Level(f), next),
            WalkItems(items, Env(f, slots, outer), Level(f), f.scopeDepth, next))
  }

  ghost predicate ItemCorrectAt(item: Item, f: Compiling, slots: seq<nat>, upvalues: seq<nat>, outer: Frames, next: nat)
    requires Shape(f, slots, outer)
  {
    var o := CompileItem(item, f);
    Correct(f, outer, o, DoAll(o.code, slots, upvalues, Level(f), next),
            WalkItem(item, Env(f, slots, outer), Level(f), f.scopeDepth, next))
  }

  /** A new local variable in the next slot. */
  lemma OneMore(f: Compiling, g: Compiling, slots: seq<nat>, outer: Frames, next: nat, l: Local)
    requires Ready(f, slots, outer, next) && !l.isCaptured
    requires g == f.(locals := f.locals + [l])
    ensures Shape(g, slots + [next], outer) && Shape(f, slots + [next], outer)
    ensures Env(g, slots + [next], outer) == Env(f, slots, outer) + [Binding(l.name, next, Level(f))]
    ensures Env(f, slots + [next], outer) == Env(f, slots, outer)
    ensures Flags(g) == Flags(f) + [false] && |Flags(f)| == |Env(f, slots, outer)| && Level(g) == Level(f)
    ensures Numbered(Env(g, slots + [next], outer), next + 1)
  {
    EnvParts(f, slots, outer);
    assert Own(g.locals, slots + [next], Level(f)) == Own(f.locals, slots, Level(f)) + [Binding(l.name, next, Level(f))];
    assert Own(f.locals, slots + [next], Level(f)) == Own(f.locals, slots, Level(f));
    assert OwnFlags(g.locals) == OwnFlags(f.locals) + [false];
  }

  /** The end of the initialiser changes a depth and nothing else. */
  lemma DepthOnly(f: Compiling, slots: seq<nat>, outer: Frames)
    requires |f.locals| > 0 && Shape(f, slots, outer)
    ensures var g := Initialised(f);
            && Shape(g, slots, outer) && Env(g, slots, outer) == Env(f, slots, outer) && Flags(g) == Flags(f)
  {
    var g := Initialised(f);
    assert Own(g.locals, slots, Level(f)) == Own(f.locals, slots, Level(f));
    assert OwnFlags(g.locals) == OwnFlags(f.locals);
  }

  /** What was not noted before because it was not there. */
  lemma NotedFrom(f: seq<bool>, g: seq<bool>, env: seq<Binding>, events: seq<Event>)
    requires Noted(f + [false], g, env, events) && |f| < |env|
    ensures Noted(f, g, env, events)
  {
  }

  lemma PushFirst(code: Code, slots: seq<nat>, upvalues: seq<nat>, level: nat, next: nat)
    ensures DoAll(Then(Push, code), slots, upvalues, level, next) == DoAll(code, slots + [next], upvalues, level, next + 1)
  {
  }

  lemma GlobalCorrect(name: string, uses: seq<string>, f: Compiling, slots: seq<nat>, upvalues: seq<nat>,
                      outer: Frames, next: nat)
    requires Ready(f, slots, outer, next) && InRange(f) && f.scopeDepth == 0
    requires var o := CompileItem(Variable(name, uses), f); o.ok && Made(o.fns, upvalues, outer)
    ensures ItemCorrectAt(Variable(name, uses), f, slots, upvalues, outer, next)
  {
    hide DoAll, Made, Env, Flags, Noted, InRange, GetVariables, Mentions, UsedInside, SameOutside, Level;
    var u := GetVariables(f, uses);
    var slots', env := slots + [next], Env(f, slots, outer);
    OneMore(f, f.(locals := f.locals + [Local(name, 0, false)]), slots, outer, next, Local(name, 0, false));
    MentionsCorrect(f, uses, slots', upvalues, outer, next + 1);
    var es := Mentions(uses, env, Level(f));
    PushFirst(Append(u.code, One(DefineGlobal(name))), slots, upvalues, Level(f), next);
    DoAppend(u.code, One(DefineGlobal(name)), slots', upvalues, Level(f), next + 1);
    DoOne(DefineGlobal(name), slots', upvalues, Level(f), next + 1 + |uses|);
    assert Drop(slots') == slots;
    NotedMore(Flags(f), Flags(u.fns), env, es, [Defined(name)]);
    SameEnv(f, u.fns, slots, outer);
  }

  lemma LocalCorrect(name: string, uses: seq<string>, f: Compiling, slots: seq<nat>, upvalues: seq<nat>,
                     outer: Frames, next: nat)
    requires Ready(f, slots, outer, next) && InRange(f) && f.scopeDepth > 0
    requires var o := CompileItem(Variable(name, uses), f); o.ok && Made(o.fns, upvalues, outer)
    ensures ItemCorrectAt(Variable(name, uses), f, slots, upvalues, outer, next)
  {
    hide DoAll, Made, Env, Flags, Noted, InRange, GetVariables, Mentions, UsedInside, SameOutside, Level;
    var g := Declare(f, name).fns;
    var u := GetVariables(g, uses);
    var slots' := slots + [next];
    OneMore(f, g, slots, outer, next, Local(name, -1, false));
    OtherLocals(f, g);
    OtherLocals(u.fns, Initialised(u.fns));
    MadeBefore(u.fns, Initialised(u.fns), upvalues, outer);
    MentionsCorrect(g, uses, slots', upvalues, outer, next + 1);
    PushFirst(u.code, slots, upvalues, Level(f), next);
    SameEnv(g, u.fns, slots', outer);
    DepthOnly(u.fns, slots', outer);
    NotedFrom(Flags(f), Flags(u.fns), Env(g, slots', outer), Mentions(uses, Env(g, slots', outer), Level(f)));
    OutsideTransitive(f, g, u.fns);
    OutsideTransitive(f, u.fns, Initialised(u.fns));
  }

  /** `endScope` does what the end of a scope is. */
  lemma {:induction false} EndScopeDrops(locals: seq<Local>, n: nat, depth: int, slots: seq<nat>, upvalues: seq<nat>,
                                         level: nat, next: nat, events: seq<Event>)
    requires n <= |locals| == |slots|
    requires forall i :: 0 <= i < n ==> locals[i].depth <= depth
    requires forall i :: n <= i < |locals| ==> locals[i].depth > depth
    requires forall i :: n <= i < |locals| ==> (locals[i].isCaptured <==> UsedInside(events, slots[i], level))
    ensures DoAll(EndScope(locals, depth).0, slots, upvalues, level, next)
            == Trace(Drops(Own(locals, slots, level)[n..], events), slots[..n], next)
    decreases |locals|
  {
    hide UsedInside;
    var own := Own(locals, slots, level)[n..];
    if |locals| > n {
      var m := |locals| - 1;
      EndScopeDrops(locals[..m], n, depth, slots[..m], upvalues, level, next, events);
      assert own[..|own| - 1] == Own(locals[..m], slots[..m], level)[n..];
      assert slots[..m][..n] == slots[..n];
    } else {
      assert slots[..n] == slots && own == [];
    }
  }

  lemma DropsUseNothing(bs: seq<Binding>, events: seq<Event>)
    ensures forall e :: e in Drops(bs, events) ==> !e.Used?
  {
  }

  lemma NotedPrefix(before: seq<bool>, after: seq<bool>, env: seq<Binding>, events: seq<Event>, n: nat)
    requires Noted(before, after, env, events) && |before| <= n <= |env|
    ensures Noted(before, after[..n], env[..n], events)
  {
  }

  /** Taking locals off the end takes them off the variables in scope. */
  lemma FewerLocals(f: Compiling, g: Compiling, n: nat, slots: seq<nat>, outer: Frames)
    requires Shape(f, slots, outer) && |slots| == |f.locals| && n <= |f.locals|
    requires g.locals == f.locals[..n] && g.enclosing == f.enclosing
    ensures var around := |OuterEnv(f, outer)|;
            && Shape(g, slots[..n], outer) && Level(g) == Level(f)
            && |Env(f, slots, outer)| == |Flags(f)| == around + |f.locals|
            && Env(g, slots[..n], outer) == Env(f, slots, outer)[..around + n]
            && Flags(g) == Flags(f)[..around + n]
            && Env(f, slots, outer)[around + n..] == Own(f.locals, slots, Level(f))[n..]
  {
    hide Own, OwnFlags, Env, Flags, Level, OuterEnv;
    SameAround(f, g, outer);
    var around, own := OuterEnv(f, outer), Own(f.locals, slots, Level(f));
    var flags := if f.enclosing.NoFn? then [] else Flags(f.enclosing);
    OwnParts(f.locals, slots, Level(f), n);
    SideBySide(f, slots, outer);
    SideBySide(g, slots[..n], outer);
    TakeParts(around, own, n);
    TakeParts(flags, OwnFlags(f.locals), n);
  }

  /** A local and its flag in the whole lists. */
  lemma LocalAt(f: Compiling, slots: seq<nat>, outer: Frames, i: nat)
    requires Shape(f, slots, outer) && |slots| == |f.locals| && i < |f.locals|
    ensures var k := |OuterEnv(f, outer)| + i;
            && k < |Env(f, slots, outer)| == |Flags(f)|
            && Flags(f)[k] == f.locals[i].isCaptured
            && Env(f, slots, outer)[k] == Binding(f.locals[i].name, slots[i], Level(f))
  {
    hide Own, OwnFlags, Env, Flags, Level, OuterEnv;
    OwnParts(f.locals, slots, Level(f), 0);
    SideBySide(f, slots, outer);
  }

  lemma SameAround(f: Compiling, g: Compiling, outer: Frames)
    requires g.enclosing == f.enclosing
    requires f.enclosing.Fn? ==> outer.Frame? && Shape(f.enclosing, outer.slots, outer.outer)
    ensures Level(g) == Level(f) && OuterEnv(g, outer) == OuterEnv(f, outer)
  {
  }

  lemma OwnParts(locals: seq<Local>, slots: seq<nat>, level: nat, n: nat)
    requires n <= |locals| == |slots|
    ensures Own(locals[..n], slots[..n], level) == Own(locals, slots, level)[..n]
    ensures OwnFlags(locals[..n]) == OwnFlags(locals)[..n]
    ensures forall i :: 0 <= i < |locals| ==> OwnFlags(locals)[i] == locals[i].isCaptured
    ensures forall i :: 0 <= i < |locals| ==> Own(locals, slots, level)[i] == Binding(locals[i].name, slots[i], level)
  {
  }

  lemma SideBySide(f: Compiling, slots: seq<nat>, outer: Frames)
    requires Shape(f, slots, outer)
    ensures Env(f, slots, outer) == OuterEnv(f, outer) + Own(f.locals, slots, Level(f))
    ensures var flags := if f.enclosing.NoFn? then [] else Flags(f.enclosing);
            Flags(f) == flags + OwnFlags(f.locals) && |flags| == |OuterEnv(f, outer)|
  {
    EnvLength(f, slots, outer);
  }

  lemma TakeParts<T>(a: seq<T>, b: seq<T>, n: nat)
    requires n <= |b|
    ensures (a + b)[..|a| + n] == a + b[..n] && (a + b)[|a| + n..] == b[n..]
    ensures forall i :: 0 <= i < |b| ==> (a + b)[|a| + i] == b[i]
  {
  }

  lemma DeeperScope(f: Compiling, slots: seq<nat>, outer: Frames)
    requires Shape(f, slots, outer)
    ensures var g := f.(scopeDepth := f.scopeDepth + 1);
            && Shape(g, slots, outer) && Env(g, slots, outer) == Env(f, slots, outer)
            && Flags(g) == Flags(f) && Level(g) == Level(f)
  {
  }

  lemma BlockCorrect(items: Items, f: Compiling, slots: seq<nat>, upvalues: seq<nat>, outer: Frames, next: nat)
    requires Ready(f, slots, outer, next) && CompileItem(Block(items), f).ok
    requires var g := f.(scopeDepth := f.scopeDepth + 1);
             Shape(g, slots, outer) && ItemsCorrectAt(items, g, slots, upvalues, outer, next)
    ensures ItemCorrectAt(Block(items), f, slots, upvalues, outer, next)
  {
    hide DoAll, Made, Env, Flags, Noted, CompileItems, WalkItems, UsedInside, SameOutside, Level, EndScope, OuterEnv, Drops;
    var g := f.(scopeDepth := f.scopeDepth + 1);
    var n, env := |f.locals|, Env(f, slots, outer);
    DeeperScope(f, slots, outer);
    EnvParts(f, slots, outer);
    var o := CompileItems(items, g);
    var t := DoAll(o.code, slots, upvalues, Level(f), next);
    var w := WalkItems(items, env, Level(f), f.scopeDepth + 1, next);
    var h := CompileItem(Block(items), f).fns;
    EndScopeLeaves(o.fns.locals, n, f.scopeDepth);
    OtherLocals(f, g);
    OtherLocals(o.fns, h);
    OutsideTransitive(f, g, o.fns);
    OutsideTransitive(f, o.fns, h);
    OutsideEnv(f, o.fns, outer);
    FewerLocals(o.fns, h, n, t.slots, outer);
    ScopeFlags(f, g, o, t, w, outer, env);
    EndScopeDrops(o.fns.locals, n, f.scopeDepth, t.slots, upvalues, Level(f), t.next, w.events);
    DoAppend(o.code, EndScope(o.fns.locals, f.scopeDepth).0, slots, upvalues, Level(f), next);
    var drops := Drops(w.env[|env|..], w.events);
    DropsUseNothing(w.env[|env|..], w.events);
    NotedPrefix(Flags(f), Flags(o.fns), w.env, w.events, |env|);
    NotedMore(Flags(f), Flags(h), env, w.events, drops);
  }

  /** The locals of a scope that has ended are noted as captured exactly when functions inside used them. */
  lemma ScopeFlags(f: Compiling, g: Compiling, o: Output, t: Trace, w: Walk, outer: Frames, env: seq<Binding>)
    requires Correct(g, outer, o, t, w) && g == f.(scopeDepth := f.scopeDepth + 1)
    requires |Flags(g)| == |env| == |OuterEnv(o.fns, outer)| + |f.locals|
    ensures forall i :: |f.locals| <= i < |o.fns.locals| ==>
              (o.fns.locals[i].isCaptured <==> UsedInside(w.events, t.slots[i], Level(o.fns)))
  {
    hide Env, Flags, UsedInside, Level, OuterEnv, SameOutside;
    forall i | |f.locals| <= i < |o.fns.locals|
      ensures o.fns.locals[i].isCaptured <==> UsedInside(w.events, t.slots[i], Level(o.fns))
    {
      LocalAt(o.fns, t.slots, outer, i);
    }
  }

  // ---- functions ----

  /** The function's name, if it is local, and the frame around it. */
  lemma AroundReady(f: Compiling, name: string, slots: seq<nat>, outer: Frames, next: nat)
    requires Ready(f, slots, outer, next)
    ensures var f', slots', env := Around(f, name), slots + [next], Env(f, slots, outer);
            && Shape(f', slots', outer) && Level(f') == Level(f) && |slots'| == |f'.locals| + (if f.scopeDepth == 0 then 1 else 0)
            && Env(f', slots', outer) == env + (if f.scopeDepth == 0 then [] else [Binding(name, next, Level(f))])
            && Flags(f') == Flags(f) + (if f.scopeDepth == 0 then [] else [false]) && |Flags(f)| == |env|
            && Numbered(Env(f', slots', outer), next + 1)
  {
    hide Env, Flags, Shape, Level;
    AroundLocals(f, name);
    OneMore(f, f.(locals := f.locals + [Local(name, f.scopeDepth, false)]), slots, outer, next, Local(name, f.scopeDepth, false));
    if f.scopeDepth == 0 {
      assert f.locals + [] == f.locals;
      assert Around(f, name) == f;
    }
  }

  /** The variables in scope at the start of a function's body. */
  function BodyEnv(env: seq<Binding>, params: seq<string>, level: nat, next: nat): seq<Binding> {
    env + ([Binding("", next + 1, level + 1)] + Parameters(params, next + 2, level + 1))
  }

  lemma InsideReady(f: Compiling, name: string, params: seq<string>, slots: seq<nat>, upvalues: seq<nat>,
                    outer: Frames, next: nat)
    requires Ready(f, slots, outer, next)
    ensures var f', slots', g := Around(f, name), slots + [next], Inside(f, name, params);
            var frame, own := Frame(slots', upvalues, outer), InnerSlots(|params|, next);
            && Shape(f', slots', outer)
            && Ready(g, own, frame, next + 2 + |params|) && Level(g) == Level(f) + 1
            && Env(g, own, frame) == BodyEnv(Env(f', slots', outer), params, Level(f), next)
            && |Env(g, own, frame)| == |Flags(g)| && |Env(f', slots', outer)| == |Flags(f')| && Flags(f') <= Flags(g)
            && (forall i :: |Flags(f')| <= i < |Flags(g)| ==> !Flags(g)[i])
  {
    hide Env, Flags, Around, Own, OwnFlags, InnerSlots, ParamLocals, Parameters, Ready;
    AroundReady(f, name, slots, outer, next);
    var f', slots', g := Around(f, name), slots + [next], Inside(f, name, params);
    var frame, own := Frame(slots', upvalues, outer), InnerSlots(|params|, next);
    InnerOwn(params, Level(g), next);
    SideBySide(f', slots', outer);
    SideBySide(g, own, frame);
    NumberedMore(Env(f', slots', outer), Own(g.locals, own, Level(g)), next + 1);
    InsideIsReady(g, own, frame, next + 2 + |params|);
  }

  lemma InnerOwn(params: seq<string>, level: nat, next: nat)
    requires level > 0
    ensures var locals, own := [Local("", 0, false)] + ParamLocals(params, 1), InnerSlots(|params|, next);
            && |locals| == |own| == 1 + |params|
            && Own(locals, own, level) == [Binding("", next + 1, level)] + Parameters(params, next + 2, level)
            && (forall i :: 0 <= i < |own| ==> Own(locals, own, level)[i].id == next + 1 + i && !OwnFlags(locals)[i])
            && (forall i :: 0 <= i < |own| ==> locals[i].depth <= 1)
  {
  }

  lemma InsideIsReady(g: Compiling, own: seq<nat>, frame: Frames, next: nat)
    requires Shape(g, own, frame) && |own| == |g.locals| && g.scopeDepth == 1
    requires Numbered(Env(g, own, frame), next) && forall i :: 0 <= i < |g.locals| ==> g.locals[i].depth <= 1
    ensures Ready(g, own, frame, next)
  {
  }

  lemma NumberedMore(env: seq<Binding>, more: seq<Binding>, next: nat)
    requires Numbered(env, next) && forall i :: 0 <= i < |more| ==> more[i].id == next + i
    ensures Numbered(env + more, next + |more|)
  {
  }

  /** The closure holds the variables that the tables of its function describe. */
  lemma CapturesMade(f: Compiling, slots: seq<nat>, upvalues: seq<nat>, outer: Frames)
    requires InRange(f) && f.enclosing.Fn? && |f.enclosing.locals| <= |slots| && Made(f.enclosing, upvalues, outer)
    ensures Made(f, Captured(f.upvalues, slots, upvalues), Frame(slots, upvalues, outer))
  {
  }

  /** What must hold for the body. */
  lemma BodyReady(name: string, params: seq<string>, body: Items, f: Compiling, slots: seq<nat>, upvalues: seq<nat>,
                  outer: Frames, next: nat)
    requires Ready(f, slots, outer, next) && InRange(f)
    requires var o := CompileItem(Function(name, params, body), f); o.ok && Made(o.fns, upvalues, outer)
    ensures var g, frame := Inside(f, name, params), Frame(slots + [next], upvalues, outer);
            var b := CompileItems(body, g);
            && Ready(g, InnerSlots(|params|, next), frame, next + 2 + |params|) && InRange(g) && b.ok
            && Shape(g, InnerSlots(|params|, next), frame)
            && Made(b.fns, Captured(b.fns.upvalues, slots + [next], upvalues), frame)
            && b.fns.enclosing.Fn? && Same(Around(f, name), b.fns.enclosing)
  {
    hide Env, Flags, Made, Ready, CompileItems, Around, Enter, Level;
    EnterInside(name, params, f);
    InsideReady(f, name, params, slots, upvalues, outer, next);
    AroundReady(f, name, slots, outer, next);
    AroundLocals(f, name);
    OtherLocals(f, Around(f, name));
    var g := Inside(f, name, params);
    assert InScope(g);
    ItemsKeep(body, g);
    assert Same(Around(f, name), CompileItems(body, g).fns.enclosing);
    CapturesMade(CompileItems(body, g).fns, slots + [next], upvalues, outer);
  }

  lemma FunctionCorrect(name: string, params: seq<string>, body: Items, f: Compiling, slots: seq<nat>,
                        upvalues: seq<nat>, outer: Frames, next: nat)
    requires Ready(f, slots, outer, next) && CompileItem(Function(name, params, body), f).ok
    requires var g, frame := Inside(f, name, params), Frame(slots + [next], upvalues, outer);
             var b := CompileItems(body, g);
             && b.ok && b.fns.enclosing.Fn? && Same(Around(f, name), b.fns.enclosing)
             && Shape(g, InnerSlots(|params|, next), frame)
             && ItemsCorrectAt(body, g, InnerSlots(|params|, next), Captured(b.fns.upvalues, slots + [next], upvalues),
                               frame, next + 2 + |params|)
    ensures ItemCorrectAt(Function(name, params, body), f, slots, upvalues, outer, next)
  {
    hide DoAll, Env, Flags, Noted, CompileItems, WalkItems, UsedInside, SameOutside, Level, Around, Enter,
         ClosureCode, Shape, Numbered, Below;
    EnterInside(name, params, f);
    InsideReady(f, name, params, slots, upvalues, outer, next);
    AroundReady(f, name, slots, outer, next);
    AroundLocals(f, name);
    var f', g, slots' := Around(f, name), Inside(f, name, params), slots + [next];
    var frame, arity := Frame(slots', upvalues, outer), |params|;
    var env' := Env(f', slots', outer);
    var b := CompileItems(body, g);
    var t := DoAll(b.code, InnerSlots(arity, next), Captured(b.fns.upvalues, slots', upvalues), Level(f) + 1, next + 2 + arity);
    var w := WalkItems(body, BodyEnv(env', params, Level(f), next), Level(f) + 1, 1, next + 2 + arity);
    ClosureDoes(f, name, arity, b, slots, upvalues, next, t);
    AfterFunction(f, name, g, b, t, w, slots, outer, frame, next);
    WalkFunction(name, params, body, f, slots, outer, next);
    LaterStill(w.events, env', w.next, w.next + 2);
    if f.scopeDepth == 0 {
      FewerSlots(b.fns.enclosing, slots, next, outer);
      NotedMore(Flags(f), Flags(b.fns.enclosing), env', w.events, [Defined(name)]);
      BelowBoth(w.events, [Defined(name)], w.next, w.next + 2);
    }
  }

  lemma LaterStill(events: seq<Event>, env: seq<Binding>, m: nat, n: nat)
    requires Below(events, m) && Numbered(env, m) && m <= n
    ensures Below(events, n) && Numbered(env, n)
  {
  }

  lemma FewerSlots(f: Compiling, slots: seq<nat>, next: nat, outer: Frames)
    requires Shape(f, slots + [next], outer) && |f.locals| <= |slots|
    ensures Shape(f, slots, outer) && Env(f, slots, outer) == Env(f, slots + [next], outer)
  {
    assert Own(f.locals, slots, Level(f)) == Own(f.locals, slots + [next], Level(f));
  }

  lemma WalkFunction(name: string, params: seq<string>, body: Items, f: Compiling, slots: seq<nat>, outer: Frames, next: nat)
    requires Ready(f, slots, outer, next)
    ensures var env, L := Env(f, slots, outer), Level(f);
            var env' := env + if f.scopeDepth == 0 then [] else [Binding(name, next, L)];
            var w := WalkItems(body, BodyEnv(env', params, L, next), L + 1, 1, next + 2 + |params|);
            WalkItem(Function(name, params, body), env, L, f.scopeDepth, next)
            == Walk(w.events + (if f.scopeDepth == 0 then [Defined(name)] else []), env', w.next + 2)
  {
    hide WalkItems, Env, Level;
    assert Env(f, slots, outer) + [] == Env(f, slots, outer);
  }

  lemma ClosureDoes(f: Compiling, name: string, arity: nat, b: Output, slots: seq<nat>, upvalues: seq<nat>,
                    next: nat, t: Trace)
    requires b.fns.Fn?
    requires t == DoAll(b.code, InnerSlots(arity, next), Captured(b.fns.upvalues, slots + [next], upvalues),
                        Level(f) + 1, next + 2 + arity)
    ensures DoAll(ClosureCode(f, name, arity, b), slots, upvalues, Level(f), next)
            == if f.scopeDepth == 0 then Trace(t.events + [Defined(name)], slots, t.next + 2)
               else Trace(t.events, slots + [next], t.next + 2)
  {
    hide DoAll, Captures, Level;
    var c := Closure(b.fns.upvalues, arity, b.code);
    assert Do(c, slots, upvalues, Level(f), next) == Trace(t.events, slots + [next], t.next + 2);
    DoOne(c, slots, upvalues, Level(f), next);
    if f.scopeDepth == 0 {
      DoAppend(One(c), One(DefineGlobal(name)), slots, upvalues, Level(f), next);
      DoOne(DefineGlobal(name), slots + [next], upvalues, Level(f), t.next + 2);
      assert Drop(slots + [next]) == slots;
    }
  }

  /** What the body has done to the function around it. */
  lemma AfterFunction(f: Compiling, name: string, g: Compiling, b: Output, t: Trace, w: Walk, slots: seq<nat>,
                      outer: Frames, frame: Frames, next: nat)
    requires Ready(f, slots, outer, next) && Correct(g, frame, b, t, w) && g.enclosing == Around(f, name)
    requires frame == Frame(slots + [next], frame.upvalues, outer) && next <= w.next
    requires b.fns.enclosing.Fn? && Same(Around(f, name), b.fns.enclosing)
    requires Shape(Around(f, name), slots + [next], outer)
    requires var n := |Flags(Around(f, name))|; n <= |Flags(g)| && Flags(Around(f, name)) <= Flags(g)
    requires Env(Around(f, name), slots + [next], outer) <= w.env
    ensures var h, env' := b.fns.enclosing, Env(Around(f, name), slots + [next], outer);
            && Shape(h, slots + [next], outer) && Env(h, slots + [next], outer) == env'
            && SameOutside(f, h) && Kept(f, h) && h.scopeDepth == f.scopeDepth
            && Noted(Flags(f), Flags(h), env', w.events) && Numbered(env', w.next)
  {
    hide UsedInside, Level, Around, Shape, Env;
    var f', h, slots' := Around(f, name), b.fns.enclosing, slots + [next];
    AroundLocals(f, name);
    AroundReady(f, name, slots, outer, next);
    OtherLocals(f, f');
    OutsideTransitive(f, f', h);
    SameEnv(f', h, slots', outer);
    var n := |Flags(f')|;
    EnvParts(f', slots', outer);
    EnvParts(h, slots', outer);
    InnerPart(b.fns, h);
    assert Flags(h) == Flags(b.fns)[..n];
    NotedOuter(Flags(f), Flags(f'), Flags(g), Flags(b.fns), w.env, w.events, n);
  }

  lemma InnerPart(f: Compiling, e: Compiling)
    requires f.enclosing == e
    ensures Flags(e) <= Flags(f)
  {
  }

  lemma NotedOuter(f: seq<bool>, f': seq<bool>, g: seq<bool>, after: seq<bool>, env: seq<Binding>,
                   events: seq<Event>, n: nat)
    requires Noted(g, after, env, events) && n == |f'| <= |g| && f' <= g && n <= |env|
    requires f' == f || f' == f + [false]
    ensures Noted(f, after[..n], env[..n], events)
  {
    assert forall i :: 0 <= i < n ==> g[i] == f'[i];
  }

  // ---- every program ----

  lemma {:induction false} ItemCorrect(item: Item, f: Compiling, slots: seq<nat>, upvalues: seq<nat>, outer: Frames,
                                       next: nat)
    requires Ready(f, slots, outer, next) && InRange(f)
    requires var o := CompileItem(item, f); o.ok && Made(o.fns, upvalues, outer)
    ensures ItemCorrectAt(item, f, slots, upvalues, outer, next)
    decreases item, 0
  {
    hide DoAll, Env, Flags, Noted, CompileItems, WalkItems, UsedInside, SameOutside, Level, Made, InRange, Ready,
         ItemsCorrectAt, ItemCorrectAt, Inside;
    match item
    case Use(name) => UseCorrect(name, f, slots, upvalues, outer, next);
    case Variable(name, uses) =>
      if f.scopeDepth == 0 {
        GlobalCorrect(name, uses, f, slots, upvalues, outer, next);
      } else {
        LocalCorrect(name, uses, f, slots, upvalues, outer, next);
      }
    case Block(items) =>
      var g := f.(scopeDepth := f.scopeDepth + 1);
      ScopeReady(f, items, slots, upvalues, outer, next);
      ItemsCorrect(items, g, slots, upvalues, outer, next);
      BlockCorrect(items, f, slots, upvalues, outer, next);
    case Function(name, params, body) =>
      BodyReady(name, params, body, f, slots, upvalues, outer, next);
      var g, frame := Inside(f, name, params), Frame(slots + [next], upvalues, outer);
      var b := CompileItems(body, g);
      ItemsCorrect(body, g, InnerSlots(|params|, next), Captured(b.fns.upvalues, slots + [next], upvalues),
                   frame, next + 2 + |params|);
      FunctionCorrect(name, params, body, f, slots, upvalues, outer, next);
  }

  lemma UseCorrect(name: string, f: Compiling, slots: seq<nat>, upvalues: seq<nat>, outer: Frames, next: nat)
    requires Ready(f, slots, outer, next)
    requires var o := CompileItem(Use(name), f); o.ok && Made(o.fns, upvalues, outer)
    ensures ItemCorrectAt(Use(name), f, slots, upvalues, outer, next)
  {
    hide DoAll, Env, Flags, Noted, UsedInside, SameOutside, Level, Made;
    MentionCorrect(f, name, slots, upvalues, outer, next);
    SameEnv(f, GetVariable(f, name).fns, slots, outer);
  }

  lemma ScopeReady(f: Compiling, items: Items, slots: seq<nat>, upvalues: seq<nat>, outer: Frames, next: nat)
    requires Ready(f, slots, outer, next) && InRange(f)
    requires var o := CompileItem(Block(items), f); o.ok && Made(o.fns, upvalues, outer)
    ensures var g := f.(scopeDepth := f.scopeDepth + 1);
            && Ready(g, slots, outer, next) && InRange(g) && Shape(g, slots, outer)
            && CompileItems(items, g).ok && Made(CompileItems(items, g).fns, upvalues, outer)
  {
    hide CompileItems, EndScope, Env;
    DeeperScope(f, slots, outer);
  }

  lemma {:induction false} ItemsCorrect(items: Items, f: Compiling, slots: seq<nat>, upvalues: seq<nat>,
                                        outer: Frames, next: nat)
    requires Ready(f, slots, outer, next) && InRange(f)
    requires var o := CompileItems(items, f); o.ok && Made(o.fns, upvalues, outer)
    ensures ItemsCorrectAt(items, f, slots, upvalues, outer, next)
    decreases items, 0
  {
    hide DoAll, Env, Flags, Noted, CompileItem, WalkItem, UsedInside, SameOutside, Level, Made, InRange;
    match items
    case NoItems => NothingCorrect(f, slots, upvalues, outer, next);
    case Items(first, rest) =>
      var a := CompileItem(first, f);
      var b := CompileItems(rest, a.fns);
      ItemKeeps(first, f);
      ItemsKeep(rest, a.fns);
      MadeBefore(a.fns, b.fns, upvalues, outer);
      ItemCorrect(first, f, slots, upvalues, outer, next);
      var t := DoAll(a.code, slots, upvalues, Level(f), next);
      OutsideEnv(f, a.fns, outer);
      ItemsCorrect(rest, a.fns, t.slots, upvalues, outer, t.next);
      BothCorrect(first, rest, f, slots, upvalues, outer, next);
  }

  lemma NothingCorrect(f: Compiling, slots: seq<nat>, upvalues: seq<nat>, outer: Frames, next: nat)
    requires Ready(f, slots, outer, next)
    ensures ItemsCorrectAt(NoItems, f, slots, upvalues, outer, next)
  {
    hide Env, Flags;
    OutsideItself(f);
    EnvParts(f, slots, outer);
    NotedNothing(Flags(f), Env(f, slots, outer));
  }

  lemma BothCorrect(first: Item, rest: Items, f: Compiling, slots: seq<nat>, upvalues: seq<nat>, outer: Frames, next: nat)
    requires Ready(f, slots, outer, next) && ItemCorrectAt(first, f, slots, upvalues, outer, next)
    requires var a := CompileItem(first, f);
             var t := DoAll(a.code, slots, upvalues, Level(f), next);
             Shape(a.fns, t.slots, outer) && ItemsCorrectAt(rest, a.fns, t.slots, upvalues, outer, t.next)
    ensures ItemsCorrectAt(Items(first, rest), f, slots, upvalues, outer, next)
  {
    hide DoAll, Env, Flags, Noted, CompileItem, WalkItem, UsedInside, SameOutside, Level;
    var a := CompileItem(first, f);
    var b := CompileItems(rest, a.fns);
    var env := Env(f, slots, outer);
    var t := DoAll(a.code, slots, upvalues, Level(f), next);
    var w := WalkItem(first, env, Level(f), f.scopeDepth, next);
    OutsideEnv(f, a.fns, outer);
    OutsideTransitive(f, a.fns, b.fns);
    DoAppend(a.code, b.code, slots, upvalues, Level(f), next);
    var v := WalkItems(rest, w.env, Level(f), f.scopeDepth, w.next);
    EnvParts(f, slots, outer);
    LaterNumbers(rest, w.env, Level(f), f.scopeDepth, w.next);
    NotedTwice(Flags(f), Flags(a.fns), Flags(b.fns), w.env, v.env, w.events, v.events, w.next);
    BelowBoth(w.events, v.events, w.next, v.next);
  }

  predicate NumberedFrom(env: seq<Binding>, n: nat, next: nat) {
    forall i :: n <= i < |env| ==> next <= env[i].id
  }

  /** New variables get new numbers. */
  lemma {:induction false} LaterNumbers(items: Items, env: seq<Binding>, level: nat, depth: nat, next: nat)
    ensures NumberedFrom(WalkItems(items, env, level, depth, next).env, |env|, next)
    decreases items
  {
    hide WalkItem;
    if items.Items? {
      var a := WalkItem(items.first, env, level, depth, next);
      var b := WalkItems(items.rest, a.env, level, depth, a.next);
      LaterNumbers(items.rest, a.env, level, depth, a.next);
      ItemNumbers(items.first, env, level, depth, next);
      assert a.env <= b.env && WalkItems(items, env, level, depth, next).env == b.env;
      forall i | |env| <= i < |b.env| ensures next <= b.env[i].id {
        if i < |a.env| {
          assert b.env[i] == a.env[i];
        }
      }
    }
  }

  lemma ItemNumbers(item: Item, env: seq<Binding>, level: nat, depth: nat, next: nat)
    ensures var w := WalkItem(item, env, level, depth, next);
            w.env == env || (|w.env| == |env| + 1 && w.env[|env|].id == next)
  {
  }

  /** For every program with nested functions that compiles: each mention reaches the innermost variable
      of the name that is in scope there, however many functions are between, and at the end of its
      scope a variable is closed if a function inside has used it, and popped otherwise. */
  lemma ScriptCorrect(script: Items)
    requires CompileItems(script, SCRIPT).ok
    ensures var o := CompileItems(script, SCRIPT);
            && o.fns.Fn? && o.fns.upvalues == []
            && DoAll(o.code, [0], [], 0, 1).events == ScriptEvents(script)
  {
    hide CompileItems, DoAll, WalkItems;
    var o := CompileItems(script, SCRIPT);
    ItemsKeep(script, SCRIPT);
    assert Own(SCRIPT.locals, [0], 0) == SCRIPT_ENV;
    assert Env(SCRIPT, [0], NoFrame) == SCRIPT_ENV;
    ItemsCorrect(script, SCRIPT, [0], [], NoFrame, 1);
  }
}
