/** The code of nested functions as operations of a routine on its stack and its upvalues: what is
    pushed, captured, closed, popped and returned from is in order, and every mention reaches the
    variable of lexical scope.  A closure is called where it is made. */
module ClosureRuns {
  import opened Language
  import opened Scoping
  import C = Closures
  import S = SharedVariables
  import Routines

  // ---- the operations of some code ----

  /** Operations, and the height of the frame and the number of captures after them. */
  datatype Emitted = Emitted(ops: seq<S.Op>, height: nat, captures: nat)

  function Held(held: seq<nat>, k: nat): nat {
    if k < |held| then held[k] else 0
  }

  function Less(n: nat): nat {
    if n == 0 then 0 else n - 1
  }

  /** `OP_CLOSURE`: slots of the frame are captured, upvalues of the running closure are passed on. */
  function CaptureOps(us: seq<C.Upvalue>, base: nat): seq<S.Op> {
    if us == [] then []
    else CaptureOps(us[..|us| - 1], base) + if us[|us| - 1].isLocal then [S.Capture(base + us[|us| - 1].index)] else []
  }

  /** Which of the captures, from the first of a run on, the new closure holds. */
  function NewHeld(us: seq<C.Upvalue>, base: nat, held: seq<nat>, captures: nat): (s: seq<nat>)
    ensures |s| == |us|
  {
    if us == [] then []
    else
      var before := us[..|us| - 1];
      NewHeld(before, base, held, captures)
      + [if us[|us| - 1].isLocal then captures + |CaptureOps(before, base)| else Held(held, us[|us| - 1].index)]
  }

  function Pushes(n: nat): seq<S.Op> {
    seq(n, _ => S.Push(NilVal))
  }

  /** A mention reads its variable and writes it back.  A frame begins at `base`; `held` are the captures
      that its closure holds. */
  function OpsOf(i: C.Instr, base: nat, height: nat, held: seq<nat>, captures: nat): Emitted
    decreases i
  {
    match i
    case Push => Emitted([S.Push(NilVal)], height + 1, captures)
    case GetLocal(k) => Emitted([S.GetLocal(base + k), S.SetLocal(base + k), S.Pop], height, captures)
    case GetUpvalue(k) =>
      Emitted([S.GetUpvalue(Held(held, k)), S.SetUpvalue(Held(held, k)), S.Pop], height, captures)
    case GetGlobal(_) => Emitted([S.Push(NilVal), S.Pop], height, captures)
    case DefineGlobal(_) => Emitted([S.Pop], Less(height), captures)
    case Closure(us, arity, body) =>
      var caps := CaptureOps(us, base);
      var inner := NewHeld(us, base, held, captures);
      var entry := base + height + 1;
      var b := AllOps(body, entry, 1 + arity, inner, captures + |caps|);
      Emitted([S.Push(NilVal)] + caps + Pushes(1 + arity) + b.ops + [S.Push(NilVal), S.Return(entry), S.Pop],
              height + 1, b.captures)
    case Pop => Emitted([S.Pop], Less(height), captures)
    case CloseUpvalue => Emitted([S.CloseUpvalue], Less(height), captures)
  }

  function AllOps(code: C.Code, base: nat, height: nat, held: seq<nat>, captures: nat): Emitted
    decreases code
  {
    match code
    case Empty => Emitted([], height, captures)
    case Then(i, rest) =>
      var a := OpsOf(i, base, height, held, captures);
      var b := AllOps(rest, base, a.height, held, a.captures);
      Emitted(a.ops + b.ops, b.height, b.captures)
  }

  /** The variables that operations read, in order. */
  ghost function Read(op: S.Op, s: S.State): seq<Routines.Var>
    requires S.WellFormed(s) && S.Legal(op, s)
  {
    match op
    case GetLocal(i) => [s.slots[i]]
    case GetUpvalue(k) => [s.captured[k]]
    case _ => []
  }

  ghost function ReadAll(ops: seq<S.Op>, s: S.State): seq<Routines.Var>
    requires S.WellFormed(s) && S.LegalRun(ops, s)
    decreases |ops|
  {
    if ops == [] then [] else Read(ops[0], s) + ReadAll(ops[1..], S.Do(ops[0], s))
  }

  function UsedIds(events: seq<Event>): seq<nat> {
    if events == [] then []
    else (if events[0].Used? then [events[0].id] else []) + UsedIds(events[1..])
  }

  lemma {:induction false} UsedAppend(a: seq<Event>, b: seq<Event>)
    ensures UsedIds(a + b) == UsedIds(a) + UsedIds(b)
    decreases |a|
  {
    if a == [] {
      assert a + b == b;
    } else {
      var x := if a[0].Used? then [a[0].id] else [];
      assert (a + b)[0] == a[0] && (a + b)[1..] == a[1..] + b;
      UsedAppend(a[1..], b);
      assert UsedIds(a + b) == x + UsedIds(a[1..] + b);
      assert x + (UsedIds(a[1..]) + UsedIds(b)) == (x + UsedIds(a[1..])) + UsedIds(b);
    }
  }

  // ---- runs ----

  /** A legal run, where it leads, and what it reads. */
  ghost predicate Runs(ops: seq<S.Op>, s: S.State, t: S.State, vars: seq<nat>) {
    S.WellFormed(s) && S.LegalRun(ops, s) && S.DoAll(ops, s) == t && ReadAll(ops, s) == vars
  }

  lemma RunNothing(s: S.State)
    requires S.WellFormed(s)
    ensures Runs([], s, s, [])
  {
  }

  lemma RunOne(op: S.Op, s: S.State)
    requires S.WellFormed(s) && S.Legal(op, s)
    ensures Runs([op], s, S.Do(op, s), Read(op, s))
  {
    hide S.Do, S.Legal;
    assert [op][1..] == [];
    RunNothing(S.Do(op, s));
    assert Read(op, s) + [] == Read(op, s);
  }

  lemma {:induction false} RunThen(a: seq<S.Op>, b: seq<S.Op>, s: S.State, t: S.State, u: S.State, x: seq<nat>, y: seq<nat>)
    requires Runs(a, s, t, x) && Runs(b, t, u, y)
    ensures Runs(a + b, s, u, x + y)
    decreases |a|
  {
    hide S.Do, S.Legal, Read;
    if a == [] {
      assert a + b == b && x + y == y;
    } else {
      var s' := S.Do(a[0], s);
      assert (a + b)[0] == a[0] && (a + b)[1..] == a[1..] + b;
      RunThen(a[1..], b, s', t, u, ReadAll(a[1..], s'), y);
      assert Read(a[0], s) + (ReadAll(a[1..], s') + y) == x + y;
    }
  }

  // ---- code that is in order ----

  /** The variables that an instruction, and what it calls, captures. */
  function CapturedSlots(us: seq<C.Upvalue>, slots: seq<nat>): set<nat> {
    set k | 0 <= k < |us| && us[k].isLocal && us[k].index < |slots| :: slots[us[k].index]
  }

  function Captives(i: C.Instr, slots: seq<nat>, upvalues: seq<nat>, level: nat, next: nat): set<nat>
    decreases i
  {
    if !i.Closure? then {}
    else
      var slots' := slots + [next];
      CapturedSlots(i.upvalues, slots')
      + AllCaptives(i.body, C.InnerSlots(i.arity, next), C.Captured(i.upvalues, slots', upvalues), level + 1, next + 2 + i.arity)
  }

  function AllCaptives(code: C.Code, slots: seq<nat>, upvalues: seq<nat>, level: nat, next: nat): set<nat>
    decreases code
  {
    match code
    case Empty => {}
    case Then(i, rest) =>
      var t := C.Do(i, slots, upvalues, level, next);
      Captives(i, slots, upvalues, level, next) + AllCaptives(rest, t.slots, upvalues, level, t.next)
  }

  /** Slots and upvalues are there, and no captured variable is popped. */
  predicate Safe(i: C.Instr, slots: seq<nat>, upvalues: seq<nat>, level: nat, next: nat, captured: set<nat>)
    decreases i
  {
    match i
    case Push => true
    case GetLocal(k) => k < |slots|
    case GetUpvalue(k) => k < |upvalues|
    case GetGlobal(_) => true
    case DefineGlobal(_) => |slots| > 0 && slots[|slots| - 1] !in captured
    case Closure(us, arity, body) =>
      var slots' := slots + [next];
      && (forall k :: 0 <= k < |us| ==> us[k].index < if us[k].isLocal then |slots'| else |upvalues|)
      && SafeAll(body, C.InnerSlots(arity, next), C.Captured(us, slots', upvalues), level + 1, next + 2 + arity,
                 captured + CapturedSlots(us, slots'))
    case Pop => |slots| > 0 && slots[|slots| - 1] !in captured
    case CloseUpvalue => |slots| > 0
  }

  predicate SafeAll(code: C.Code, slots: seq<nat>, upvalues: seq<nat>, level: nat, next: nat, captured: set<nat>)
    decreases code
  {
    match code
    case Empty => true
    case Then(i, rest) =>
      var t := C.Do(i, slots, upvalues, level, next);
      && Safe(i, slots, upvalues, level, next, captured)
      && SafeAll(rest, t.slots, upvalues, level, t.next, captured + Captives(i, slots, upvalues, level, next))
  }

  // ---- it runs ----

  /** The frame on the stack, above the others, and how many values have been pushed. */
  ghost predicate At(s: S.State, below: seq<nat>, slots: seq<nat>, next: nat) {
    S.WellFormed(s) && s.slots == below + slots && |s.store| == next
  }

  ghost predicate HeldBy(s: S.State, held: seq<nat>, upvalues: seq<nat>) {
    |held| == |upvalues| && forall k :: 0 <= k < |held| ==> held[k] < |s.captured| && s.captured[held[k]] == upvalues[k]
  }

  ghost predicate Within(s: S.State, captured: set<nat>) {
    forall k :: 0 <= k < |s.captured| ==> s.captured[k] in captured
  }

  /** What the operations of some code come to. */
  ghost predicate Done(e: Emitted, s: S.State, s': S.State, below: seq<nat>, t: C.Trace, captured: set<nat>) {
    && Runs(e.ops, s, s', UsedIds(t.events)) && At(s', below, t.slots, t.next)
    && e.height == |t.slots| && e.captures == |s'.captured|
    && s.captured <= s'.captured && Within(s', captured)
  }

  /** A value that is only there for a moment. */
  lemma PushPop(s: S.State)
    requires S.WellFormed(s)
    ensures var t := S.PushValue(s, NilVal).(slots := s.slots);
            Runs([S.Push(NilVal), S.Pop], s, t, []) && S.WellFormed(t)
  {
    var t := S.Do(S.Push(NilVal), s);
    RunOne(S.Push(NilVal), s);
    RunOne(S.Pop, t);
    RunThen([S.Push(NilVal)], [S.Pop], s, t, S.Do(S.Pop, t), [], []);
    assert t.slots[..|t.slots| - 1] == s.slots;
  }

  /** Reading a variable, writing it back, and the end of the value that was read. */
  lemma LocalRuns(s: S.State, i: nat) returns (s': S.State)
    requires S.WellFormed(s) && i < |s.slots|
    ensures Runs([S.GetLocal(i), S.SetLocal(i), S.Pop], s, s', [s.slots[i]])
    ensures S.WellFormed(s') && s'.slots == s.slots && s'.captured == s.captured && |s'.store| == |s.store| + 1
  {
    var a := S.Do(S.GetLocal(i), s);
    var b := S.Do(S.SetLocal(i), a);
    s' := S.Do(S.Pop, b);
    RunOne(S.GetLocal(i), s);
    RunOne(S.SetLocal(i), a);
    RunOne(S.Pop, b);
    RunThen([S.SetLocal(i)], [S.Pop], a, b, s', [], []);
    RunThen([S.GetLocal(i)], [S.SetLocal(i), S.Pop], s, a, s', [s.slots[i]], []);
  }

  lemma UpvalueRuns(s: S.State, k: nat) returns (s': S.State)
    requires S.WellFormed(s) && k < |s.captured|
    ensures Runs([S.GetUpvalue(k), S.SetUpvalue(k), S.Pop], s, s', [s.captured[k]])
    ensures S.WellFormed(s') && s'.slots == s.slots && s'.captured == s.captured && |s'.store| == |s.store| + 1
  {
    var a := S.Do(S.GetUpvalue(k), s);
    var b := S.Do(S.SetUpvalue(k), a);
    s' := S.Do(S.Pop, b);
    RunOne(S.GetUpvalue(k), s);
    RunOne(S.SetUpvalue(k), a);
    RunOne(S.Pop, b);
    RunThen([S.SetUpvalue(k)], [S.Pop], a, b, s', [], []);
    RunThen([S.GetUpvalue(k)], [S.SetUpvalue(k), S.Pop], s, a, s', [s.captured[k]], []);
  }

  /** What capturing comes to. */
  ghost predicate CapturesDone(us: seq<C.Upvalue>, below: seq<nat>, slots: seq<nat>, upvalues: seq<nat>, next: nat,
                               held: seq<nat>, s: S.State, s': S.State) {
    && Runs(CaptureOps(us, |below|), s, s', []) && At(s', below, slots, next)
    && HeldBy(s', NewHeld(us, |below|, held, |s.captured|), C.Captured(us, slots, upvalues))
    && s.captured <= s'.captured && |s'.captured| == |s.captured| + |CaptureOps(us, |below|)|
    && forall k :: |s.captured| <= k < |s'.captured| ==> s'.captured[k] in CapturedSlots(us, slots)
  }

  /** The captures of a new closure, and that it holds them. */
  lemma {:induction false} CapturesRun(us: seq<C.Upvalue>, below: seq<nat>, slots: seq<nat>, upvalues: seq<nat>,
                                       next: nat, held: seq<nat>, s: S.State)
    returns (s': S.State)
    requires At(s, below, slots, next) && HeldBy(s, held, upvalues)
    requires forall k :: 0 <= k < |us| ==> us[k].index < if us[k].isLocal then |slots| else |upvalues|
    ensures CapturesDone(us, below, slots, upvalues, next, held, s, s')
    decreases |us|
  {
    if us == [] {
      s' := s;
      RunNothing(s);
    } else {
      var n := |us| - 1;
      var a := CapturesRun(us[..n], below, slots, upvalues, next, held, s);
      if us[n].isLocal {
        s' := CaptureSlot(us, below, slots, upvalues, next, held, s, a);
      } else {
        s' := a;
        PassOn(us, below, slots, upvalues, next, held, s, a);
      }
    }
  }

  lemma LastCapture(us: seq<C.Upvalue>, base: nat, slots: seq<nat>, upvalues: seq<nat>, held: seq<nat>, captures: nat)
    requires us != []
    ensures var n := |us| - 1;
            && C.Captured(us, slots, upvalues) == C.Captured(us[..n], slots, upvalues) + [C.Captures(us[n], slots, upvalues)]
            && CaptureOps(us, base) == CaptureOps(us[..n], base) + (if us[n].isLocal then [S.Capture(base + us[n].index)] else [])
            && NewHeld(us, base, held, captures) == NewHeld(us[..n], base, held, captures)
                 + [if us[n].isLocal then captures + |CaptureOps(us[..n], base)| else Held(held, us[n].index)]
  {
  }

  lemma CaptureSlot(us: seq<C.Upvalue>, below: seq<nat>, slots: seq<nat>, upvalues: seq<nat>, next: nat,
                    held: seq<nat>, s: S.State, a: S.State)
    returns (s': S.State)
    requires us != [] && CapturesDone(us[..|us| - 1], below, slots, upvalues, next, held, s, a)
    requires us[|us| - 1].isLocal && us[|us| - 1].index < |slots|
    ensures CapturesDone(us, below, slots, upvalues, next, held, s, s')
  {
    hide CaptureOps, NewHeld, C.Captured, Runs, CapturedSlots;
    var u := us[|us| - 1];
    var op := S.Capture(|below| + u.index);
    LastCapture(us, |below|, slots, upvalues, held, |s.captured|);
    SlotsOfFewer(us, |us| - 1, slots);
    IsCaptured(us, |us| - 1, slots);
    s' := S.Do(op, a);
    RunOne(op, a);
    RunThen(CaptureOps(us[..|us| - 1], |below|), [op], s, a, s', [], []);
    assert s'.captured == a.captured + [slots[u.index]];
    var none: seq<nat> := [];
    assert none + none == none;
  }

  lemma PassOn(us: seq<C.Upvalue>, below: seq<nat>, slots: seq<nat>, upvalues: seq<nat>, next: nat,
               held: seq<nat>, s: S.State, a: S.State)
    requires us != [] && CapturesDone(us[..|us| - 1], below, slots, upvalues, next, held, s, a)
    requires !us[|us| - 1].isLocal && us[|us| - 1].index < |upvalues| && HeldBy(s, held, upvalues)
    ensures CapturesDone(us, below, slots, upvalues, next, held, s, a)
  {
    hide CaptureOps, NewHeld, C.Captured, Runs, CapturedSlots;
    LastCapture(us, |below|, slots, upvalues, held, |s.captured|);
    SlotsOfFewer(us, |us| - 1, slots);
    assert CaptureOps(us[..|us| - 1], |below|) + [] == CaptureOps(us[..|us| - 1], |below|);
  }

  lemma IsCaptured(us: seq<C.Upvalue>, k: nat, slots: seq<nat>)
    requires k < |us| && us[k].isLocal && us[k].index < |slots|
    ensures slots[us[k].index] in CapturedSlots(us, slots)
  {
  }

  lemma SlotsOfFewer(us: seq<C.Upvalue>, n: nat, slots: seq<nat>)
    requires n <= |us|
    ensures CapturedSlots(us[..n], slots) <= CapturedSlots(us, slots)
  {
    forall x | x in CapturedSlots(us[..n], slots) ensures x in CapturedSlots(us, slots) {
      var k :| 0 <= k < n && us[..n][k].isLocal && us[..n][k].index < |slots| && slots[us[..n][k].index] == x;
      assert us[k].isLocal;
    }
  }

  lemma {:induction false} PushesRun(n: nat, s: S.State) returns (s': S.State)
    requires S.WellFormed(s)
    ensures Runs(Pushes(n), s, s', []) && S.WellFormed(s') && s'.captured == s.captured
    ensures |s'.store| == |s.store| + n && s'.slots == s.slots + seq(n, k => |s.store| + k)
  {
    if n == 0 {
      s' := s;
      RunNothing(s);
    } else {
      var a := PushesRun(n - 1, s);
      s' := S.Do(S.Push(NilVal), a);
      RunOne(S.Push(NilVal), a);
      RunThen(Pushes(n - 1), [S.Push(NilVal)], s, a, s', [], []);
      assert Pushes(n) == Pushes(n - 1) + [S.Push(NilVal)];
    }
  }

  /** After the variable on top is gone. */
  lemma DropRuns(op: S.Op, s: S.State, below: seq<nat>, slots: seq<nat>, next: nat) returns (s': S.State)
    requires At(s, below, slots, next) && |slots| > 0 && (op == S.Pop || op == S.CloseUpvalue)
    requires op == S.Pop ==> slots[|slots| - 1] !in s.captured
    ensures Runs([op], s, s', []) && At(s', below, C.Drop(slots), next) && s'.captured == s.captured
  {
    s' := S.Do(op, s);
    assert s.slots[|s.slots| - 1] == slots[|slots| - 1];
    assert s.slots[..|s.slots| - 1] == below + slots[..|slots| - 1];
    RunOne(op, s);
  }

  lemma PushRuns(s: S.State, below: seq<nat>, slots: seq<nat>, next: nat) returns (s': S.State)
    requires At(s, below, slots, next)
    ensures Runs([S.Push(NilVal)], s, s', []) && At(s', below, slots + [next], next + 1) && s'.captured == s.captured
  {
    s' := S.Do(S.Push(NilVal), s);
    assert (below + slots) + [next] == below + (slots + [next]);
    RunOne(S.Push(NilVal), s);
  }

  /** A call returns: its frame goes, and so does the value that it gives. */
  lemma ReturnRuns(s: S.State, below: seq<nat>, slots: seq<nat>, frame: seq<nat>, next: nat) returns (s': S.State)
    requires At(s, below + slots, frame, next)
    ensures Runs([S.Push(NilVal), S.Return(|below| + |slots|), S.Pop], s, s', [])
    ensures At(s', below, slots, next + 2) && s'.captured == s.captured
  {
    var entry := |below| + |slots|;
    var a := PushRuns(s, below + slots, frame, next);
    var b := S.Do(S.Return(entry), a);
    assert a.slots[..entry] == below + slots;
    assert b.slots == (below + slots) + [next + 1];
    RunOne(S.Return(entry), a);
    s' := S.Do(S.Pop, b);
    RunOne(S.Pop, b);
    assert b.slots[..|b.slots| - 1] == below + slots;
    RunThen([S.Return(entry)], [S.Pop], a, b, s', [], []);
    RunThen([S.Push(NilVal)], [S.Return(entry), S.Pop], s, a, s', [], []);
  }

  lemma {:induction false} InstrRuns(i: C.Instr, below: seq<nat>, slots: seq<nat>, upvalues: seq<nat>, level: nat, next: nat,
                                     captured: set<nat>, held: seq<nat>, s: S.State)
    returns (s': S.State)
    requires Safe(i, slots, upvalues, level, next, captured)
    requires At(s, below, slots, next) && HeldBy(s, held, upvalues) && Within(s, captured)
    ensures Done(OpsOf(i, |below|, |slots|, held, |s.captured|), s, s', below, C.Do(i, slots, upvalues, level, next),
                 captured + Captives(i, slots, upvalues, level, next))
    decreases i
  {
    hide S.Do, Runs, C.DoAll, AllOps, AllCaptives, SafeAll;
    match i
    case Push =>
      s' := PushRuns(s, below, slots, next);
    case GetLocal(k) =>
      assert s.slots[|below| + k] == slots[k];
      s' := LocalRuns(s, |below| + k);
      UsedOne(Used(slots[k], level));
    case GetUpvalue(k) =>
      s' := UpvalueRuns(s, held[k]);
      UsedOne(Used(upvalues[k], level));
    case GetGlobal(name) =>
      PushPop(s);
      s' := S.PushValue(s, NilVal).(slots := s.slots);
      UsedOne(UsedGlobal(name));
    case DefineGlobal(name) =>
      s' := DropRuns(S.Pop, s, below, slots, next);
      UsedOne(Defined(name));
    case Pop =>
      s' := DropRuns(S.Pop, s, below, slots, next);
      UsedOne(C.Top(slots, false));
    case CloseUpvalue =>
      s' := DropRuns(S.CloseUpvalue, s, below, slots, next);
      UsedOne(C.Top(slots, true));
    case Closure(us, arity, body) =>
      s' := ClosureRun(us, arity, body, below, slots, upvalues, level, next, captured, held, s);
  }

  lemma UsedOne(e: Event)
    ensures UsedIds([e]) == if e.Used? then [e.id] else []
  {
    assert [e][1..] == [];
  }

  lemma {:induction false} ClosureRun(us: seq<C.Upvalue>, arity: nat, body: C.Code, below: seq<nat>, slots: seq<nat>,
                                      upvalues: seq<nat>, level: nat, next: nat, captured: set<nat>, held: seq<nat>, s: S.State)
    returns (s': S.State)
    requires Safe(C.Closure(us, arity, body), slots, upvalues, level, next, captured)
    requires At(s, below, slots, next) && HeldBy(s, held, upvalues) && Within(s, captured)
    ensures Done(OpsOf(C.Closure(us, arity, body), |below|, |slots|, held, |s.captured|), s, s', below,
                 C.Do(C.Closure(us, arity, body), slots, upvalues, level, next),
                 captured + Captives(C.Closure(us, arity, body), slots, upvalues, level, next))
    decreases body, 1
  {
    hide S.Do, Runs, C.DoAll, AllOps, AllCaptives, SafeAll, CaptureOps, NewHeld, CapturedSlots, C.Captured, UsedIds, S.WellFormed;
    var slots' := slots + [next];
    var a := PushRuns(s, below, slots, next);
    var b := CapturesRun(us, below, slots', upvalues, next + 1, held, a);
    var c := EnterRuns(b, below + slots', arity, next);
    var frame, ups := C.InnerSlots(arity, next), C.Captured(us, slots', upvalues);
    var inner := NewHeld(us, |below|, held, |a.captured|);
    var d := CodeRuns(body, below + slots', frame, ups, level + 1, next + 2 + arity, captured + CapturedSlots(us,
              slots'), inner, c);
    var t := C.DoAll(body, frame, ups, level + 1, next + 2 + arity);
    var e := AllOps(body, |below + slots'|, 1 + arity, inner, |c.captured|);
    s' := ReturnRuns(d, below, slots', t.slots, t.next);
    var back := [S.Push(NilVal), S.Return(|below| + |slots'|), S.Pop];
    CallRuns(CaptureOps(us, |below|), Pushes(1 + arity), e.ops, back, s, a, b, c, d, s', UsedIds(t.events));
    var r := OpsOf(C.Closure(us, arity, body), |below|, |slots|, held, |s.captured|);
    var whole := C.Do(C.Closure(us, arity, body), slots, upvalues, level, next);
    assert r.ops == [S.Push(NilVal)] + CaptureOps(us, |below|) + Pushes(1 + arity) + e.ops + back;
    assert whole.events == t.events && whole.next == t.next + 2;
  }

  /** The callee and its arguments. */
  lemma EnterRuns(s: S.State, below: seq<nat>, arity: nat, next: nat) returns (s': S.State)
    requires S.WellFormed(s) && s.slots == below && |s.store| == next + 1
    ensures Runs(Pushes(1 + arity), s, s', []) && At(s', below, C.InnerSlots(arity, next), next + 2 + arity)
    ensures s'.captured == s.captured
  {
    s' := PushesRun(1 + arity, s);
    assert seq(1 + arity, k => next + 1 + k) == C.InnerSlots(arity, next);
  }

  lemma CallRuns(caps: seq<S.Op>, enter: seq<S.Op>, body: seq<S.Op>, back: seq<S.Op>, s: S.State, a: S.State,
                 b: S.State, c: S.State, d: S.State, s': S.State, vars: seq<nat>)
    requires Runs([S.Push(NilVal)], s, a, []) && Runs(caps, a, b, []) && Runs(enter, b, c, [])
    requires Runs(body, c, d, vars) && Runs(back, d, s', [])
    ensures Runs([S.Push(NilVal)] + caps + enter + body + back, s, s', vars)
  {
    hide Runs;
    var none: seq<nat> := [];
    assert none + none == none;
    RunThen([S.Push(NilVal)], caps, s, a, b, [], []);
    RunThen([S.Push(NilVal)] + caps, enter, s, b, c, [], []);
    RunThen([S.Push(NilVal)] + caps + enter, body, s, c, d, [], vars);
    assert none + vars == vars && vars + none == vars;
    RunThen([S.Push(NilVal)] + caps + enter + body, back, s, d, s', vars, []);
  }

  /** Code that is in order runs, and reads what its trace says. */
  lemma {:induction false} CodeRuns(code: C.Code, below: seq<nat>, slots: seq<nat>, upvalues: seq<nat>, level: nat,
                                    next: nat,
                                    captured: set<nat>, held: seq<nat>, s: S.State)
    returns (s': S.State)
    requires SafeAll(code, slots, upvalues, level, next, captured)
    requires At(s, below, slots, next) && HeldBy(s, held, upvalues) && Within(s, captured)
    ensures Done(AllOps(code, |below|, |slots|, held, |s.captured|), s, s', below, C.DoAll(code, slots, upvalues,
              level, next),
                 captured + AllCaptives(code, slots, upvalues, level, next))
    decreases code, 0
  {
    hide S.Do, Runs, C.Do, OpsOf, Captives, Safe, UsedIds;
    match code
    case Empty =>
      s' := s;
      RunNothing(s);
      UsedNothing();
    case Then(i, rest) =>
      var a := InstrRuns(i, below, slots, upvalues, level, next, captured, held, s);
      var t := C.Do(i, slots, upvalues, level, next);
      var c := captured + Captives(i, slots, upvalues, level, next);
      s' := CodeRuns(rest, below, t.slots, upvalues, level, t.next, c, held, a);
      var u := C.DoAll(rest, t.slots, upvalues, level, t.next);
      UsedAppend(t.events, u.events);
      var e := OpsOf(i, |below|, |slots|, held, |s.captured|);
      RunThen(e.ops, AllOps(rest, |below|, e.height, held, e.captures).ops, s, a, s', UsedIds(t.events), UsedIds(u.events));
  }

  lemma UsedNothing()
    ensures UsedIds([]) == []
  {
  }
}
