/** The code that the compiler makes of nested functions is in order, so that it runs: no slot or upvalue
    is missing, and no captured variable is popped without being closed. */
module ClosureOrder {
  import opened Scoping
  import opened Closures
  import opened ClosureRuns
  import Language
  import S = SharedVariables

  /** Locals that are not noted as captured are not. */
  predicate OwnClean(locals: seq<Local>, slots: seq<nat>, captured: set<nat>) {
    |locals| <= |slots| && forall i :: 0 <= i < |locals| && !locals[i].isCaptured ==> slots[i] !in captured
  }

  /** What code captures are variables of its frame, or made by it. */
  predicate FromFrame(captives: set<nat>, slots: seq<nat>, next: nat, next': nat) {
    forall x :: x in captives ==> x < next' && (x in slots || next <= x)
  }

  predicate AllBelow(captured: set<nat>, next: nat) {
    forall x :: x in captured ==> x < next
  }

  ghost predicate InOrder(f: Compiling, o: Output, slots: seq<nat>, upvalues: seq<nat>, next: nat, captured: set<nat>) {
    var t, k := DoAll(o.code, slots, upvalues, Level(f), next), AllCaptives(o.code, slots, upvalues, Level(f), next);
    && o.fns.Fn? && SafeAll(o.code, slots, upvalues, Level(f), next, captured)
    && OwnClean(o.fns.locals, t.slots, captured + k) && FromFrame(k, slots, next, t.next) && next <= t.next
  }

  // ---- code after code ----

  lemma {:induction false} SafeAppend(a: Code, b: Code, slots: seq<nat>, upvalues: seq<nat>, level: nat, next: nat,
                                      captured: set<nat>)
    ensures var t, k := DoAll(a, slots, upvalues, level, next), AllCaptives(a, slots, upvalues, level, next);
            && (SafeAll(Append(a, b), slots, upvalues, level, next, captured) <==>
                  && SafeAll(a, slots, upvalues, level, next, captured)
                  && SafeAll(b, t.slots, upvalues, level, t.next, captured + k))
            && AllCaptives(Append(a, b), slots, upvalues, level, next) == k + AllCaptives(b, t.slots, upvalues, level, t.next)
    decreases a
  {
    hide Safe, Captives, Do;
    match a
    case Empty =>
      var none: set<nat> := {};
      assert captured + none == captured;
    case Then(i, rest) =>
      var t := Do(i, slots, upvalues, level, next);
      var c := Captives(i, slots, upvalues, level, next);
      SafeAppend(rest, b, t.slots, upvalues, level, t.next, captured + c);
      var k := AllCaptives(rest, t.slots, upvalues, level, t.next);
      assert (captured + c) + k == captured + (c + k);
  }

  lemma SafeOne(i: Instr, slots: seq<nat>, upvalues: seq<nat>, level: nat, next: nat, captured: set<nat>)
    ensures SafeAll(One(i), slots, upvalues, level, next, captured) <==> Safe(i, slots, upvalues, level, next, captured)
    ensures AllCaptives(One(i), slots, upvalues, level, next) == Captives(i, slots, upvalues, level, next)
  {
    hide Safe, Captives, Do;
    var t := Do(i, slots, upvalues, level, next);
    assert AllCaptives(Empty, t.slots, upvalues, level, t.next) == {};
  }

  lemma SafeFirst(i: Instr, code: Code, slots: seq<nat>, upvalues: seq<nat>, level: nat, next: nat, captured: set<nat>)
    requires i == Push
    ensures SafeAll(Then(i, code), slots, upvalues, level, next, captured)
            <==> SafeAll(code, slots + [next], upvalues, level, next + 1, captured)
    ensures AllCaptives(Then(i, code), slots, upvalues, level, next) == AllCaptives(code, slots + [next], upvalues,
              level, next + 1)
  {
    var none: set<nat> := {};
    assert captured + none == captured;
  }

  /** The frame afterwards holds what it held and what was pushed since. */
  lemma {:induction false} SlotsAfter(code: Code, slots: seq<nat>, upvalues: seq<nat>, level: nat, next: nat)
    ensures var t := DoAll(code, slots, upvalues, level, next);
            next <= t.next && forall x :: x in t.slots ==> x in slots || next <= x
    decreases code
  {
    if code.Then? {
      var t := Do(code.first, slots, upvalues, level, next);
      if code.first.Closure? {
        var slots' := slots + [next];
        SlotsAfter(code.first.body, InnerSlots(code.first.arity, next), Captured(code.first.upvalues, slots', upvalues),
                   level + 1, next + 2 + code.first.arity);
      }
      SlotsAfter(code.rest, t.slots, upvalues, level, t.next);
    }
  }

  // ---- mentions ----

  predicate Plain(code: Code)
    decreases code
  {
    code.Empty? || ((code.first.GetLocal? || code.first.GetUpvalue? || code.first.GetGlobal?) && Plain(code.rest))
  }

  lemma {:induction false} PlainAppend(a: Code, b: Code)
    requires Plain(a) && Plain(b)
    ensures Plain(Append(a, b))
    decreases a
  {
    if a.Then? {
      PlainAppend(a.rest, b);
    }
  }

  lemma {:induction false} MentionsPlain(f: Compiling, names: seq<string>)
    ensures Plain(GetVariables(f, names).code)
    decreases |names|
  {
    hide FindLocal, ResolveUpvalue;
    if names != [] {
      var a := GetVariable(f, names[0]);
      MentionsPlain(a.fns, names[1..]);
      PlainAppend(a.code, GetVariables(a.fns, names[1..]).code);
    }
  }

  /** Mentions that all reach a variable are in order. */
  lemma {:induction false} PlainSafe(code: Code, slots: seq<nat>, upvalues: seq<nat>, level: nat, next: nat,
                                     captured: set<nat>)
    requires Plain(code) && Wild !in DoAll(code, slots, upvalues, level, next).events
    ensures SafeAll(code, slots, upvalues, level, next, captured) && AllCaptives(code, slots, upvalues, level, next) == {}
    decreases code
  {
    if code.Then? {
      var t := Do(code.first, slots, upvalues, level, next);
      var u := DoAll(code.rest, t.slots, upvalues, level, t.next);
      assert DoAll(code, slots, upvalues, level, next).events == t.events + u.events;
      assert t.events[0] in t.events + u.events;
      var none: set<nat> := {};
      assert captured + none == captured;
      PlainSafe(code.rest, t.slots, upvalues, level, t.next, captured);
    }
  }

  lemma NoneWild(names: seq<string>, env: seq<Binding>, level: nat)
    ensures Wild !in Mentions(names, env, level)
  {
  }

  lemma MentionsSafe(f: Compiling, names: seq<string>, slots: seq<nat>, upvalues: seq<nat>, outer: Frames, next: nat,
                     captured: set<nat>)
    requires Shape(f, slots, outer) && Numbered(Env(f, slots, outer), next) && InRange(f)
    requires var o := GetVariables(f, names); o.ok && Made(o.fns, upvalues, outer)
    ensures var o := GetVariables(f, names);
            && SafeAll(o.code, slots, upvalues, Level(f), next, captured)
            && AllCaptives(o.code, slots, upvalues, Level(f), next) == {}
            && DoAll(o.code, slots, upvalues, Level(f), next).slots == slots
            && DoAll(o.code, slots, upvalues, Level(f), next).next == next + |names|
            && o.fns.locals == f.locals
  {
    hide GetVariables, DoAll, Env, Made, Noted, Mentions, SafeAll, AllCaptives;
    MentionsCorrect(f, names, slots, upvalues, outer, next);
    NoneWild(names, Env(f, slots, outer), Level(f));
    MentionsPlain(f, names);
    PlainSafe(GetVariables(f, names).code, slots, upvalues, Level(f), next, captured);
  }

  /** Every slot of a frame has a number of its own. */
  lemma OwnNumbers(f: Compiling, slots: seq<nat>, outer: Frames, next: nat)
    requires Shape(f, slots, outer) && Numbered(Env(f, slots, outer), next)
    ensures forall i :: 0 <= i < |f.locals| ==> slots[i] < next
    ensures forall i, j :: 0 <= i < j < |f.locals| ==> slots[i] != slots[j]
  {
    hide OuterEnv, Level;
    var env, own, n := Env(f, slots, outer), Own(f.locals, slots, Level(f)), |OuterEnv(f, outer)|;
    SideBySide(f, slots, outer);
    forall i | 0 <= i < |f.locals| ensures env[n + i] == own[i] && own[i].id == slots[i] {
    }
    forall i, j | 0 <= i < j < |f.locals| ensures slots[i] != slots[j] {
      assert env[n + i].id != env[n + j].id;
    }
  }

  // ---- declarations ----

  lemma UseInOrder(name: string, f: Compiling, slots: seq<nat>, upvalues: seq<nat>, outer: Frames, next: nat,
                   captured: set<nat>)
    requires Ready(f, slots, outer, next) && InRange(f) && OwnClean(f.locals, slots, captured)
    requires var o := GetVariable(f, name); o.ok && Made(o.fns, upvalues, outer)
    ensures InOrder(f, CompileItem(Use(name), f), slots, upvalues, next, captured)
  {
    hide GetVariable, DoAll, Env, Made, Noted, SafeAll, AllCaptives;
    var o := GetVariable(f, name);
    MentionCorrect(f, name, slots, upvalues, outer, next);
    OnePlain(f, name);
    PlainSafe(o.code, slots, upvalues, Level(f), next, captured);
    var none: set<nat> := {};
    assert captured + none == captured;
  }

  lemma OnePlain(f: Compiling, name: string)
    ensures Plain(GetVariable(f, name).code)
  {
  }

  lemma GlobalInOrder(name: string, uses: seq<string>, f: Compiling, slots: seq<nat>, upvalues: seq<nat>, outer: Frames,
                      next: nat, captured: set<nat>)
    requires Ready(f, slots, outer, next) && InRange(f) && OwnClean(f.locals, slots, captured) && AllBelow(captured, next)
    requires f.scopeDepth == 0
    requires var o := CompileItem(Variable(name, uses), f); o.ok && Made(o.fns, upvalues, outer)
    ensures InOrder(f, CompileItem(Variable(name, uses), f), slots, upvalues, next, captured)
  {
    hide GetVariables, DoAll, Env, Made, Noted, SafeAll, AllCaptives, Flags, Level;
    var u := GetVariables(f, uses);
    var slots', last := slots + [next], One(DefineGlobal(name));
    var l := Local(name, 0, false);
    OneMore(f, f.(locals := f.locals + [l]), slots, outer, next, l);
    MentionsSafe(f, uses, slots', upvalues, outer, next + 1, captured);
    SafeFirst(Push, Append(u.code, last), slots, upvalues, Level(f), next, captured);
    SafeAppend(u.code, last, slots', upvalues, Level(f), next + 1, captured);
    var none: set<nat> := {};
    assert captured + none == captured && none + none == none;
    SafeOne(DefineGlobal(name), slots', upvalues, Level(f), next + 1 + |uses|, captured);
    PushFirst(Append(u.code, last), slots, upvalues, Level(f), next);
    DoAppend(u.code, last, slots', upvalues, Level(f), next + 1);
    DoOne(DefineGlobal(name), slots', upvalues, Level(f), next + 1 + |uses|);
  }

  lemma LocalInOrder(name: string, uses: seq<string>, f: Compiling, slots: seq<nat>, upvalues: seq<nat>, outer: Frames,
                     next: nat, captured: set<nat>)
    requires Ready(f, slots, outer, next) && InRange(f) && OwnClean(f.locals, slots, captured) && AllBelow(captured, next)
    requires f.scopeDepth > 0
    requires var o := CompileItem(Variable(name, uses), f); o.ok && Made(o.fns, upvalues, outer)
    ensures InOrder(f, CompileItem(Variable(name, uses), f), slots, upvalues, next, captured)
  {
    hide GetVariables, DoAll, Env, Made, Noted, SafeAll, AllCaptives, Flags, Level, InRange;
    var g := Declare(f, name).fns;
    var u := GetVariables(g, uses);
    var slots' := slots + [next];
    OneMore(f, g, slots, outer, next, Local(name, -1, false));
    OtherLocals(f, g);
    OtherLocals(u.fns, Initialised(u.fns));
    MadeBefore(u.fns, Initialised(u.fns), upvalues, outer);
    MentionsSafe(g, uses, slots', upvalues, outer, next + 1, captured);
    SafeFirst(Push, u.code, slots, upvalues, Level(f), next, captured);
    PushFirst(u.code, slots, upvalues, Level(f), next);
    var none: set<nat> := {};
    assert captured + none == captured;
  }

  lemma {:induction false} EndScopeSafe(locals: seq<Local>, n: nat, depth: int, slots: seq<nat>, upvalues: seq<nat>,
                                        level: nat, next: nat, captured: set<nat>)
    requires n <= |locals| == |slots| && OwnClean(locals, slots, captured)
    requires forall i :: 0 <= i < n ==> locals[i].depth <= depth
    requires forall i :: n <= i < |locals| ==> locals[i].depth > depth
    ensures SafeAll(EndScope(locals, depth).0, slots, upvalues, level, next, captured)
    ensures AllCaptives(EndScope(locals, depth).0, slots, upvalues, level, next) == {}
    ensures var t := DoAll(EndScope(locals, depth).0, slots, upvalues, level, next); t.slots == slots[..n] && t.next == next
    decreases |locals|
  {
    if |locals| > n {
      var m := |locals| - 1;
      var none: set<nat> := {};
      assert captured + none == captured && none + none == none;
      EndScopeSafe(locals[..m], n, depth, slots[..m], upvalues, level, next, captured);
      assert slots[..m][..n] == slots[..n];
    } else {
      assert slots[..n] == slots;
    }
  }

  lemma BlockInOrder(items: Items, f: Compiling, slots: seq<nat>, upvalues: seq<nat>, outer: Frames, next: nat,
                     captured: set<nat>)
    requires Ready(f, slots, outer, next) && InRange(f) && CompileItem(Block(items), f).ok
    requires var g := f.(scopeDepth := f.scopeDepth + 1);
             && Shape(g, slots, outer) && ItemsCorrectAt(items, g, slots, upvalues, outer, next)
             && InOrder(g, CompileItems(items, g), slots, upvalues, next, captured)
    ensures InOrder(f, CompileItem(Block(items), f), slots, upvalues, next, captured)
  {
    hide DoAll, Env, Noted, SafeAll, AllCaptives, Flags, Level, InRange, CompileItems, WalkItems, EndScope, SameOutside;
    var g := f.(scopeDepth := f.scopeDepth + 1);
    DeeperScope(f, slots, outer);
    var o := CompileItems(items, g);
    var t, k := DoAll(o.code, slots, upvalues, Level(f), next), AllCaptives(o.code, slots, upvalues, Level(f), next);
    var end := EndScope(o.fns.locals, f.scopeDepth);
    EndScopeSafe(o.fns.locals, |f.locals|, f.scopeDepth, t.slots, upvalues, Level(f), t.next, captured + k);
    EndScopeLeaves(o.fns.locals, |f.locals|, f.scopeDepth);
    SafeAppend(o.code, end.0, slots, upvalues, Level(f), next, captured);
    DoAppend(o.code, end.0, slots, upvalues, Level(f), next);
    var none: set<nat> := {};
    assert k + none == k;
  }

  /** A closure's captures are in order, and what its function captures is its own. */
  lemma FunctionInOrder(name: string, params: seq<string>, body: Items, f: Compiling, slots: seq<nat>, upvalues: seq<nat>,
                        outer: Frames, next: nat, captured: set<nat>)
    requires Ready(f, slots, outer, next) && InRange(f) && OwnClean(f.locals, slots, captured) && AllBelow(captured, next)
    requires var o := CompileItem(Function(name, params, body), f); o.ok && Made(o.fns, upvalues, outer)
    requires var g := Inside(f, name, params);
             var b := CompileItems(body, g);
             && b.ok && b.fns.Fn? && b.fns.enclosing.Fn? && Same(Around(f, name), b.fns.enclosing) && InRange(b.fns)
             && InOrder(g, b, InnerSlots(|params|, next), Captured(b.fns.upvalues, slots + [next], upvalues),
                        next + 2 + |params|, captured + CapturedSlots(b.fns.upvalues, slots + [next]))
    ensures InOrder(f, CompileItem(Function(name, params, body), f), slots, upvalues, next, captured)
  {
    hide DoAll, Env, SafeAll, AllCaptives, Flags, InRange, CompileItems, Around, Enter, CapturedSlots, ClosureCode, Made, Ready, Same;
    EnterInside(name, params, f);
    AroundReady(f, name, slots, outer, next);
    AroundLocals(f, name);
    var g, slots', arity := Inside(f, name, params), slots + [next], |params|;
    var b := CompileItems(body, g);
    var frame, ups := InnerSlots(arity, next), Captured(b.fns.upvalues, slots', upvalues);
    var c := Closure(b.fns.upvalues, arity, b.code);
    InnerLevel(f, name, params);
    var t := DoAll(b.code, frame, ups, Level(f) + 1, next + 2 + arity);
    var k := AllCaptives(b.code, frame, ups, Level(f) + 1, next + 2 + arity);
    var cs := CapturedSlots(b.fns.upvalues, slots');
    LengthsFit(f, name, slots, outer, next, b.fns.enclosing, upvalues);
    ClosureSafe(b, arity, slots, upvalues, Level(f), next, captured);
    ClosureDoes(f, name, arity, b, slots, upvalues, next, t);
    OwnNumbers(Around(f, name), slots', outer, next + 1);
    FrameNumbers(f, slots, outer, next);
    SlotsAfter(b.code, frame, ups, Level(f) + 1, next + 2 + arity);
    InnerCaptives(k, arity, next, t.next);
    StillClean(f, Around(f, name).locals, b.fns, slots, next, captured, k);
    CodeInOrder(f, name, arity, b, slots, upvalues, next, captured, k, t.next);
  }

  lemma LengthsFit(f: Compiling, name: string, slots: seq<nat>, outer: Frames, next: nat, e: Compiling, upvalues: seq<nat>)
    requires Ready(f, slots, outer, next) && Same(Around(f, name), e) && Made(e, upvalues, outer)
    ensures |e.locals| <= |slots| + 1 && |e.upvalues| <= |upvalues| && (f.scopeDepth == 0 ==> |e.locals| == |slots|)
    ensures SameLocals(Around(f, name).locals, e.locals) && e.scopeDepth == f.scopeDepth
    ensures |slots| == |f.locals|
  {
    hide Env;
    AroundLocals(f, name);
  }

  lemma FrameNumbers(f: Compiling, slots: seq<nat>, outer: Frames, next: nat)
    requires Ready(f, slots, outer, next)
    ensures forall i :: 0 <= i < |slots| ==> slots[i] < next
  {
    hide Env;
    OwnNumbers(f, slots, outer, next);
  }

  /** What the body captures comes after what was there. */
  lemma InnerCaptives(k: set<nat>, arity: nat, next: nat, next': nat)
    requires FromFrame(k, InnerSlots(arity, next), next + 2 + arity, next')
    ensures forall x :: x in k ==> next < x < next'
  {
  }

  lemma ClosureSafe(b: Output, arity: nat, slots: seq<nat>, upvalues: seq<nat>, level: nat, next: nat, captured: set<nat>)
    requires b.fns.Fn? && b.fns.enclosing.Fn? && InRange(b.fns)
    requires |b.fns.enclosing.locals| <= |slots| + 1 && |b.fns.enclosing.upvalues| <= |upvalues|
    requires SafeAll(b.code, InnerSlots(arity, next), Captured(b.fns.upvalues, slots + [next], upvalues), level + 1,
              next + 2 + arity,
                     captured + CapturedSlots(b.fns.upvalues, slots + [next]))
    ensures Safe(Closure(b.fns.upvalues, arity, b.code), slots, upvalues, level, next, captured)
  {
    hide SafeAll;
  }

  /** Captured slots are locals that are noted. */
  lemma CapturedAreNoted(f: Compiling, slots: seq<nat>, x: nat) returns (i: nat)
    requires f.enclosing.Fn? && InRange(f) && |f.enclosing.locals| <= |slots| && x in CapturedSlots(f.upvalues, slots)
    ensures i < |f.enclosing.locals| && f.enclosing.locals[i].isCaptured && slots[i] == x
  {
    var k :| 0 <= k < |f.upvalues| && f.upvalues[k].isLocal && f.upvalues[k].index < |slots| && slots[f.upvalues[k].index] == x;
    i := f.upvalues[k].index;
  }

  /** Locals that are not noted after a function inside are not captured by it. */
  lemma StillClean(f: Compiling, around: seq<Local>, b: Compiling, slots: seq<nat>, next: nat, captured: set<nat>,
                   k: set<nat>)
    requires OwnClean(f.locals, slots, captured) && AllBelow(captured, next) && |slots| == |f.locals|
    requires f.locals <= around && |around| <= |slots| + 1
    requires b.enclosing.Fn? && SameLocals(around, b.enclosing.locals) && InRange(b)
    requires forall i :: 0 <= i < |around| ==> (slots + [next])[i] <= next
    requires forall i, j :: 0 <= i < j < |around| ==> (slots + [next])[i] != (slots + [next])[j]
    requires forall x :: x in k ==> next < x
    ensures OwnClean(b.enclosing.locals, slots + [next], captured + (CapturedSlots(b.upvalues, slots + [next]) + k))
    ensures |around| == |slots| ==> OwnClean(b.enclosing.locals, slots, captured + (CapturedSlots(b.upvalues,
              slots + [next]) + k))
  {
    hide InRange, CapturedSlots;
    var slots', cs := slots + [next], CapturedSlots(b.upvalues, slots + [next]);
    forall i | 0 <= i < |around| && !b.enclosing.locals[i].isCaptured
      ensures slots'[i] !in captured && slots'[i] !in cs && slots'[i] !in k
    {
      if slots'[i] in cs {
        var j := CapturedAreNoted(b, slots', slots'[i]);
      }
      assert i < |slots| ==> f.locals[i] == around[i];
    }
  }

  lemma CodeInOrder(f: Compiling, name: string, arity: nat, b: Output, slots: seq<nat>, upvalues: seq<nat>, next: nat,
                    captured: set<nat>, k: set<nat>, next': nat)
    requires b.fns.Fn? && b.fns.enclosing.Fn? && InRange(b.fns) && AllBelow(captured, next)
    requires |b.fns.enclosing.locals| <= |slots| + 1 && (f.scopeDepth == 0 ==> |b.fns.enclosing.locals| == |slots|)
    requires forall i :: 0 <= i < |slots| && i < |b.fns.enclosing.locals| ==> slots[i] < next
    requires Safe(Closure(b.fns.upvalues, arity, b.code), slots, upvalues, Level(f), next, captured)
    requires k == AllCaptives(b.code, InnerSlots(arity, next), Captured(b.fns.upvalues, slots + [next], upvalues),
                              Level(f) + 1, next + 2 + arity)
    requires next <= next' == DoAll(b.code, InnerSlots(arity, next), Captured(b.fns.upvalues, slots + [next], upvalues),
                                    Level(f) + 1, next + 2 + arity).next
    requires forall x :: x in k ==> next < x < next'
    ensures var code, ks := ClosureCode(f, name, arity, b), CapturedSlots(b.fns.upvalues, slots + [next]) + k;
            && SafeAll(code, slots, upvalues, Level(f), next, captured)
            && AllCaptives(code, slots, upvalues, Level(f), next) == ks
            && FromFrame(ks, slots, next, next' + 2)
  {
    hide Safe, InRange, CapturedSlots, AllCaptives, DoAll, SafeAll, Level, Captured;
    var c := Closure(b.fns.upvalues, arity, b.code);
    var slots', cs := slots + [next], CapturedSlots(b.fns.upvalues, slots + [next]);
    forall x | x in cs ensures x <= next && (x in slots || x == next) && (f.scopeDepth == 0 ==> x < next) {
      var i := CapturedAreNoted(b.fns, slots', x);
      assert i < |slots| ==> slots'[i] == slots[i];
    }
    SafeOne(c, slots, upvalues, Level(f), next, captured);
    if f.scopeDepth == 0 {
      var d := DefineGlobal(name);
      var t := DoAll(One(c), slots, upvalues, Level(f), next);
      DoOne(c, slots, upvalues, Level(f), next);
      SafeAppend(One(c), One(d), slots, upvalues, Level(f), next, captured);
      SafeOne(d, t.slots, upvalues, Level(f), t.next, captured + (cs + k));
      GlobalSafe(name, slots, next, upvalues, Level(f), t.next, captured + (cs + k));
      var none: set<nat> := {};
      assert cs + k + none == cs + k;
    }
  }

  lemma GlobalSafe(name: string, slots: seq<nat>, top: nat, upvalues: seq<nat>, level: nat, next: nat, captured: set<nat>)
    requires top !in captured
    ensures Safe(DefineGlobal(name), slots + [top], upvalues, level, next, captured)
  {
  }

  lemma InnerLevel(f: Compiling, name: string, params: seq<string>)
    ensures Level(Inside(f, name, params)) == Level(f) + 1
  {
    AroundLocals(f, name);
  }

  // ---- every program ----

  lemma {:induction false} ItemInOrder(item: Item, f: Compiling, slots: seq<nat>, upvalues: seq<nat>, outer: Frames,
                                       next: nat,
                                       captured: set<nat>)
    requires Ready(f, slots, outer, next) && InRange(f) && OwnClean(f.locals, slots, captured) && AllBelow(captured, next)
    requires var o := CompileItem(item, f); o.ok && Made(o.fns, upvalues, outer)
    ensures InOrder(f, CompileItem(item, f), slots, upvalues, next, captured)
    decreases item, 0
  {
    hide DoAll, Env, Flags, Noted, CompileItems, SameOutside, Level, Made, InRange, Ready, SafeAll, AllCaptives, InOrder, Inside;
    match item
    case Use(name) => UseInOrder(name, f, slots, upvalues, outer, next, captured);
    case Variable(name, uses) =>
      if f.scopeDepth == 0 {
        GlobalInOrder(name, uses, f, slots, upvalues, outer, next, captured);
      } else {
        LocalInOrder(name, uses, f, slots, upvalues, outer, next, captured);
      }
    case Block(items) =>
      var g := f.(scopeDepth := f.scopeDepth + 1);
      ScopeReady(f, items, slots, upvalues, outer, next);
      ItemsCorrect(items, g, slots, upvalues, outer, next);
      ItemsInOrder(items, g, slots, upvalues, outer, next, captured);
      BlockInOrder(items, f, slots, upvalues, outer, next, captured);
    case Function(name, params, body) =>
      BodyReady(name, params, body, f, slots, upvalues, outer, next);
      var g, frame, own := Inside(f, name, params), Frame(slots + [next], upvalues, outer), InnerSlots(|params|, next);
      var b := CompileItems(body, g);
      BodyClean(f, name, params, body, slots, upvalues, outer, next, captured);
      ItemsInOrder(body, g, own, Captured(b.fns.upvalues, slots + [next], upvalues), frame, next + 2 + |params|,
                   captured + CapturedSlots(b.fns.upvalues, slots + [next]));
      FunctionInOrder(name, params, body, f, slots, upvalues, outer, next, captured);
  }

  /** Nothing in a new frame is captured yet. */
  lemma BodyClean(f: Compiling, name: string, params: seq<string>, body: Items, slots: seq<nat>, upvalues: seq<nat>,
                  outer: Frames, next: nat, captured: set<nat>)
    requires Ready(f, slots, outer, next) && InRange(f) && AllBelow(captured, next)
    requires var o := CompileItem(Function(name, params, body), f); o.ok && Made(o.fns, upvalues, outer)
    ensures var g := Inside(f, name, params);
            var b := CompileItems(body, g);
            && b.ok && b.fns.enclosing.Fn? && InRange(b.fns)
            && var c := captured + CapturedSlots(b.fns.upvalues, slots + [next]);
               OwnClean(g.locals, InnerSlots(|params|, next), c) && AllBelow(c, next + 2 + |params|)
  {
    hide CompileItem, CompileItems, CapturedSlots, Env, Made;
    BodyReady(name, params, body, f, slots, upvalues, outer, next);
    var g := Inside(f, name, params);
    var b := CompileItems(body, g);
    assert InScope(g);
    ItemsKeep(body, g);
    OwnNumbers(f, slots, outer, next);
    forall x | x in CapturedSlots(b.fns.upvalues, slots + [next]) ensures x <= next {
      SlotsUpTo(b.fns.upvalues, slots, next, x);
    }
  }

  lemma SlotsUpTo(us: seq<Upvalue>, slots: seq<nat>, next: nat, x: nat)
    requires x in CapturedSlots(us, slots + [next]) && forall i :: 0 <= i < |slots| ==> slots[i] < next
    ensures x <= next
  {
  }

  lemma {:induction false} ItemsInOrder(items: Items, f: Compiling, slots: seq<nat>, upvalues: seq<nat>,
                                        outer: Frames, next: nat,
                                        captured: set<nat>)
    requires Ready(f, slots, outer, next) && InRange(f) && OwnClean(f.locals, slots, captured) && AllBelow(captured, next)
    requires var o := CompileItems(items, f); o.ok && Made(o.fns, upvalues, outer)
    ensures InOrder(f, CompileItems(items, f), slots, upvalues, next, captured)
    decreases items, 0
  {
    hide DoAll, Env, Flags, Noted, CompileItem, WalkItem, SameOutside, Level, Made, InRange, SafeAll, AllCaptives;
    match items
    case NoItems => NothingInOrder(f, slots, upvalues, next, captured);
    case Items(first, rest) =>
      var a := CompileItem(first, f);
      var b := CompileItems(rest, a.fns);
      ItemKeeps(first, f);
      ItemsKeep(rest, a.fns);
      MadeBefore(a.fns, b.fns, upvalues, outer);
      ItemCorrect(first, f, slots, upvalues, outer, next);
      ItemInOrder(first, f, slots, upvalues, outer, next, captured);
      var t, k := DoAll(a.code, slots, upvalues, Level(f), next), AllCaptives(a.code, slots, upvalues, Level(f), next);
      OutsideEnv(f, a.fns, outer);
      ItemsInOrder(rest, a.fns, t.slots, upvalues, outer, t.next, captured + k);
      SlotsAfter(a.code, slots, upvalues, Level(f), next);
      SafeAppend(a.code, b.code, slots, upvalues, Level(f), next, captured);
      DoAppend(a.code, b.code, slots, upvalues, Level(f), next);
      var k' := AllCaptives(b.code, t.slots, upvalues, Level(f), t.next);
      assert (captured + k) + k' == captured + (k + k');
  }

  lemma NothingInOrder(f: Compiling, slots: seq<nat>, upvalues: seq<nat>, next: nat, captured: set<nat>)
    requires OwnClean(f.locals, slots, captured)
    ensures InOrder(f, CompileItems(NoItems, f), slots, upvalues, next, captured)
  {
    var none: set<nat> := {};
    assert captured + none == captured;
  }

  /** Declarations at depth 0 leave no locals behind. */
  lemma {:induction false} NoLocals(items: Items, env: seq<Binding>, level: nat, next: nat)
    ensures WalkItems(items, env, level, 0, next).env == env
    decreases items
  {
    if items.Items? {
      var a := WalkItem(items.first, env, level, 0, next);
      NoLocals(items.rest, a.env, level, a.next);
    }
  }

  lemma OnlyTheScript(script: Items, o: Output)
    requires o == CompileItems(script, SCRIPT)
    requires Shape(SCRIPT, [0], NoFrame) && ItemsCorrectAt(script, SCRIPT, [0], [], NoFrame, 1)
    requires Env(SCRIPT, [0], NoFrame) == SCRIPT_ENV
    ensures DoAll(o.code, [0], [], 0, 1).slots == [0]
  {
    hide CompileItems, DoAll, WalkItems, WalkItem;
    var slots := DoAll(o.code, [0], [], 0, 1).slots;
    NoLocals(script, SCRIPT_ENV, 0, 1);
    SideBySide(o.fns, slots, NoFrame);
    assert OuterEnv(o.fns, NoFrame) == [];
    var own := Own(o.fns.locals, slots, 0);
    assert own == SCRIPT_ENV;
    assert own[0].id == slots[0] == 0;
  }

  /** The operations of a script, its own function in slot 0. */
  function ScriptOps(script: Items): seq<S.Op> {
    [S.Push(Language.NilVal)] + AllOps(CompileItems(script, SCRIPT).code, 0, 1, [], 0).ops
  }

  const NOTHING := S.State([], [], [])

  /** For every program with nested functions that compiles, the operations of its code are a legal run,
      so that no captured variable is ever popped; and the variables that they read are, one by one,
      those of lexical scope. */
  lemma ScriptReplays(script: Items)
    requires CompileItems(script, SCRIPT).ok
    ensures S.LegalRun(ScriptOps(script), NOTHING)
    ensures ReadAll(ScriptOps(script), NOTHING) == UsedIds(ScriptEvents(script))
    ensures S.DoAll(ScriptOps(script), NOTHING).slots == [0]
  {
    hide CompileItems, DoAll, WalkItems, AllOps, SafeAll, AllCaptives, UsedIds, ScriptEvents, S.Do;
    var o := CompileItems(script, SCRIPT);
    ScriptCorrect(script);
    ItemsKeep(script, SCRIPT);
    assert Own(SCRIPT.locals, [0], 0) == SCRIPT_ENV;
    assert Env(SCRIPT, [0], NoFrame) == SCRIPT_ENV;
    ItemsCorrect(script, SCRIPT, [0], [], NoFrame, 1);
    ItemsInOrder(script, SCRIPT, [0], [], NoFrame, 1, {});
    OnlyTheScript(script, o);
    var s := PushRuns(NOTHING, [], [], 0);
    var s' := CodeRuns(o.code, [], [0], [], 0, 1, {}, [], s);
    RunThen([S.Push(Language.NilVal)], AllOps(o.code, 0, 1, [], 0).ops, NOTHING, s, s', [], UsedIds(ScriptEvents(script)));
    var none: seq<nat> := [];
    assert none + UsedIds(ScriptEvents(script)) == UsedIds(ScriptEvents(script));
  }

  /** The run on a routine, with its segmented stack and its sorted upvalues: at the end the script's
      function is alone on the stack, holding what sharing says. */
  method ReplayScript(script: Items) returns (stack: seq<Language.Value>)
    requires CompileItems(script, SCRIPT).ok
    ensures S.LegalRun(ScriptOps(script), NOTHING)
    ensures stack == S.StackOf(S.DoAll(ScriptOps(script), NOTHING)) && |stack| == 1
  {
    hide ScriptOps, CompileItems, S.DoAll, S.LegalRun;
    ScriptReplays(script);
    stack := S.Replay(ScriptOps(script));
  }
}
