/** Lexical scope and the code for it on small programs, in any surroundings: which variable a name is, and
    which variables are closed at the end of their scope. */
module ClosureLaws {
  import opened Scoping
  import Closures
  import Language

  function Only(a: Item): Items {
    Items(a, NoItems)
  }

  function Two(a: Item, b: Item): Items {
    Items(a, Only(b))
  }

  function Plain(name: string): Item {
    Variable(name, [])
  }

  // ---- one after the other ----

  lemma OnlyWalks(a: Item, env: seq<Binding>, level: nat, depth: nat, next: nat)
    ensures WalkItems(Only(a), env, level, depth, next) == WalkItem(a, env, level, depth, next)
  {
    hide WalkItem;
    var w := WalkItem(a, env, level, depth, next);
    assert WalkItems(NoItems, w.env, level, depth, w.next) == Walk([], w.env, w.next);
    assert w.events + [] == w.events;
  }

  lemma TwoWalk(a: Item, b: Item, env: seq<Binding>, level: nat, depth: nat, next: nat)
    ensures var v := WalkItem(a, env, level, depth, next);
            var w := WalkItem(b, v.env, level, depth, v.next);
            WalkItems(Two(a, b), env, level, depth, next) == Walk(v.events + w.events, w.env, w.next)
  {
    hide WalkItem;
    var v := WalkItem(a, env, level, depth, next);
    OnlyWalks(b, v.env, level, depth, v.next);
  }

  lemma PlainWalks(name: string, env: seq<Binding>, level: nat, depth: nat, next: nat)
    ensures WalkItem(Plain(name), env, level, depth, next)
            == if depth == 0 then Walk([Defined(name)], env, next + 1)
               else Walk([], env + [Binding(name, next, level)], next + 1)
  {
    assert [] + [Defined(name)] == [Defined(name)];
  }

  /** A name is the last binding of it. */
  lemma LastOne(name: string, env: seq<Binding>, b: Binding, more: seq<Binding>, level: nat)
    requires b.name == name && forall c :: c in more ==> c.name != name
    ensures Mention(name, env + [b] + more, level) == Used(b.id, level)
  {
    var all := env + [b] + more;
    assert all[|env|] == b;
    var i := Lookup(all, name);
    assert forall j :: |env| < j < |all| ==> all[j] in more;
    assert i == |env|;
  }

  /** The bindings of a scope go, the last one first. */
  lemma DropsTwo(a: Binding, b: Binding, events: seq<Event>)
    ensures Drops([a], events) == [Dropped(a.id, UsedInside(events, a.id, a.level))]
    ensures Drops([a, b], events)
            == [Dropped(b.id, UsedInside(events, b.id, b.level)), Dropped(a.id, UsedInside(events, a.id, a.level))]
  {
    assert Drops([], events) == [];
    assert [a][..0] == [] && [a, b][..1] == [a];
  }

  // ---- what a program does to its variables ----

  /** `{ var x; x; }`: a variable that only its own function uses is popped. */
  lemma OwnUse(x: string, env: seq<Binding>, level: nat, depth: nat, next: nat)
    ensures WalkItem(Block(Two(Plain(x), Use(x))), env, level, depth, next).events
            == [Used(next, level), Dropped(next, false)]
  {
    hide WalkItems, Drops, Lookup;
    var b := Binding(x, next, level);
    PlainWalks(x, env, level, depth + 1, next);
    TwoWalk(Plain(x), Use(x), env, level, depth + 1, next);
    LastOne(x, env, b, [], level);
    assert env + [b] + [] == env + [b];
    var events := [Used(next, level)];
    assert [] + events == events && (env + [b])[|env|..] == [b];
    DropsTwo(b, b, events);
    assert !UsedInside(events, next, level);
  }

  /** `{ var x; fun f() { x; } }`: one that a function inside uses is closed, the function itself is popped. */
  lemma UseInside(x: string, f: string, env: seq<Binding>, level: nat, depth: nat, next: nat)
    requires x != f && x != ""
    ensures WalkItem(Block(Two(Plain(x), Function(f, [], Only(Use(x))))), env, level, depth, next).events
            == [Used(next, level + 1), Dropped(next + 1, false), Dropped(next, true)]
  {
    hide WalkItems, Drops, Lookup;
    var b, c := Binding(x, next, level), Binding(f, next + 1, level);
    var fun := Function(f, [], Only(Use(x)));
    PlainWalks(x, env, level, depth + 1, next);
    FunctionUses(x, f, env, level, next, depth + 1);
    TwoWalk(Plain(x), fun, env, level, depth + 1, next);
    var events := [Used(next, level + 1)];
    assert [] + events == events && (env + [b] + [c])[|env|..] == [b, c];
    DropsTwo(b, c, events);
    assert events[0] in events && !UsedInside(events, next + 1, level) && UsedInside(events, next, level);
  }

  lemma FunctionUses(x: string, f: string, env: seq<Binding>, level: nat, next: nat, depth: nat)
    requires x != f && x != "" && depth > 0
    ensures var b, c := Binding(x, next, level), Binding(f, next + 1, level);
            var w := WalkItem(Function(f, [], Only(Use(x))), env + [b], level, depth, next + 1);
            w.events == [Used(next, level + 1)] && w.env == env + [b] + [c]
  {
    hide WalkItems, Lookup;
    var b, c, d := Binding(x, next, level), Binding(f, next + 1, level), Binding("", next + 2, level + 1);
    assert Parameters([], next + 3, level + 1) == [];
    var inner := env + [b] + [c] + ([d] + Parameters([], next + 3, level + 1));
    assert inner == env + [b] + [c, d];
    LastOne(x, env, b, [c, d], level + 1);
    OnlyWalks(Use(x), inner, level + 1, 1, next + 3);
    assert [Used(next, level + 1)] + [] == [Used(next, level + 1)];
  }

  /** `{ fun f() { f; } }`: a function may use itself, and then is closed. */
  lemma UseOfItself(f: string, env: seq<Binding>, level: nat, depth: nat, next: nat)
    requires f != ""
    ensures WalkItem(Block(Only(Function(f, [], Only(Use(f))))), env, level, depth, next).events
            == [Used(next, level + 1), Dropped(next, true)]
  {
    hide WalkItems, Drops, Lookup;
    var c, d := Binding(f, next, level), Binding("", next + 1, level + 1);
    var fun := Function(f, [], Only(Use(f)));
    assert Parameters([], next + 2, level + 1) == [];
    var inner := env + [c] + ([d] + Parameters([], next + 2, level + 1));
    assert inner == env + [c] + [d];
    LastOne(f, env, c, [d], level + 1);
    OnlyWalks(Use(f), inner, level + 1, 1, next + 2);
    var events := [Used(next, level + 1)];
    assert events + [] == events;
    OnlyWalks(fun, env, level, depth + 1, next);
    assert (env + [c])[|env|..] == [c];
    DropsTwo(c, c, events);
    assert events[0] in events && UsedInside(events, next, level);
  }

  /** `{ var x; { var x; x; } x; }`: the inner variable within its block, and the outer one behind it. */
  lemma Hidden(x: string, env: seq<Binding>, level: nat, depth: nat, next: nat)
    ensures WalkItem(Block(Items(Plain(x), Two(Block(Two(Plain(x), Use(x))), Use(x)))), env, level, depth, next).events
            == [Used(next + 1, level), Dropped(next + 1, false), Used(next, level), Dropped(next, false)]
  {
    hide WalkItems, Drops, Lookup, WalkItem;
    var b := Binding(x, next, level);
    var block := Block(Two(Plain(x), Use(x)));
    PlainWalks(x, env, level, depth + 1, next);
    OwnUse(x, env + [b], level, depth + 1, next + 1);
    BlockLeaves(Two(Plain(x), Use(x)), env + [b], level, depth + 1, next + 1);
    UseWalks(x, env + [b], level, depth + 1, WalkItem(block, env + [b], level, depth + 1, next + 1).next);
    TwoWalk(block, Use(x), env + [b], level, depth + 1, next + 1);
    LastOne(x, env, b, [], level);
    assert env + [b] + [] == env + [b] && (env + [b])[|env|..] == [b];
    var events := [Used(next + 1, level), Dropped(next + 1, false), Used(next, level)];
    assert [Used(next + 1, level), Dropped(next + 1, false)] + [Used(next, level)] == events && [] + events == events;
    DropsTwo(b, b, events);
    assert !UsedInside(events, next, level);
    ThreeWalk(Plain(x), Two(block, Use(x)), env, level, depth + 1, next);
    BlockEvents(Items(Plain(x), Two(block, Use(x))), env, level, depth, next);
    assert events + [Dropped(next, false)]
        == [Used(next + 1, level), Dropped(next + 1, false), Used(next, level), Dropped(next, false)];
  }

  lemma ThreeWalk(a: Item, rest: Items, env: seq<Binding>, level: nat, depth: nat, next: nat)
    ensures var v := WalkItem(a, env, level, depth, next);
            var w := WalkItems(rest, v.env, level, depth, v.next);
            WalkItems(Items(a, rest), env, level, depth, next) == Walk(v.events + w.events, w.env, w.next)
  {
    hide WalkItem;
  }

  lemma UseWalks(x: string, env: seq<Binding>, level: nat, depth: nat, next: nat)
    ensures WalkItem(Use(x), env, level, depth, next) == Walk([Mention(x, env, level)], env, next + 1)
  {
  }

  lemma BlockLeaves(items: Items, env: seq<Binding>, level: nat, depth: nat, next: nat)
    ensures WalkItem(Block(items), env, level, depth, next).env == env
  {
  }

  lemma BlockEvents(items: Items, env: seq<Binding>, level: nat, depth: nat, next: nat)
    ensures var w := WalkItems(items, env, level, depth + 1, next);
            WalkItem(Block(items), env, level, depth, next).events == w.events + Drops(w.env[|env|..], w.events)
  {
    hide WalkItems, Drops;
  }

  /** `fun f(x) { x; }` outside of all blocks: the parameter, whatever else has its name; `f` is a global. */
  lemma ParameterUse(x: string, f: string, env: seq<Binding>, level: nat, next: nat)
    ensures WalkItem(Function(f, [x], Only(Use(x))), env, level, 0, next).events == [Used(next + 2, level + 1), Defined(f)]
  {
    hide WalkItems, Lookup;
    var d, p := Binding("", next + 1, level + 1), Binding(x, next + 2, level + 1);
    assert Parameters([x], next + 2, level + 1) == [p];
    var inner := env + ([d] + Parameters([x], next + 2, level + 1));
    assert inner == env + [d] + [p] + [];
    LastOne(x, env + [d], p, [], level + 1);
    OnlyWalks(Use(x), inner, level + 1, 1, next + 3);
  }

  /** `var x; y;` outside of all blocks: a global is defined, and what nobody declared is taken for one. */
  lemma GlobalUse(x: string, y: string, env: seq<Binding>, level: nat, next: nat)
    requires forall i :: 0 <= i < |env| ==> env[i].name != y
    ensures WalkItems(Two(Plain(x), Use(y)), env, level, 0, next).events == [Defined(x), UsedGlobal(y)]
  {
    hide WalkItems, WalkItem;
    PlainWalks(x, env, level, 0, next);
    UseWalks(y, env, level, 0, next + 1);
    TwoWalk(Plain(x), Use(y), env, level, 0, next);
    assert Lookup(env, y) == -1;
  }

  // ---- the code ----

  lemma {:induction false} NothingMore(a: Closures.Code)
    ensures Closures.Append(a, Closures.Empty) == a
  {
    if a.Then? {
      NothingMore(a.rest);
    }
  }

  lemma OnlyCompiles(a: Item, f: Closures.Compiling)
    ensures Closures.CompileItems(Only(a), f) == Closures.CompileItem(a, f)
  {
    hide Closures.CompileItem;
    var o := Closures.CompileItem(a, f);
    NothingMore(o.code);
    assert Closures.CompileItems(NoItems, o.fns) == Closures.Output(Closures.Empty, o.fns, true);
  }

  lemma TwoCompile(a: Item, b: Item, f: Closures.Compiling)
    ensures var x := Closures.CompileItem(a, f);
            var y := Closures.CompileItem(b, x.fns);
            Closures.CompileItems(Two(a, b), f) == Closures.Output(Closures.Append(x.code, y.code), y.fns, x.ok && y.ok)
  {
    hide Closures.CompileItem;
    OnlyCompiles(b, Closures.CompileItem(a, f).fns);
  }

  /** The script with one variable in a block that has just begun. */
  function Begun(x: string): Closures.Compiling {
    Closures.Fn([Closures.Local("this", 0, false), Closures.Local(x, 1, false)], [], 1, Closures.NoFn)
  }

  lemma PlainCompiles(x: string)
    ensures Closures.CompileItem(Plain(x), Closures.SCRIPT.(scopeDepth := 1))
            == Closures.Output(Closures.One(Closures.Push), Begun(x), true)
  {
    var f := Closures.SCRIPT.(scopeDepth := 1);
    assert !Closures.Redeclared(f.locals, x, 1);
    assert f.locals + [Closures.Local(x, -1, false)] == [Closures.Local("this", 0, false), Closures.Local(x, -1, false)];
  }

  /** `{ var x; x; }` as a script: slot 1 is read and popped. */
  lemma OwnUseCode(x: string)
    requires x != "this"
    ensures var o := Closures.CompileItems(Only(Block(Two(Plain(x), Use(x)))), Closures.SCRIPT);
            && o.ok
            && o.code == Closures.Then(Closures.Push, Closures.Then(Closures.GetLocal(1), Closures.One(Closures.Pop)))
  {
    hide Closures.CompileItems, Closures.FindLocal;
    PlainCompiles(x);
    TwoCompile(Plain(x), Use(x), Closures.SCRIPT.(scopeDepth := 1));
    assert Begun(x).locals[1].name == x && Closures.FindLocal(Begun(x).locals, x) == 1;
    EndsWith(Begun(x).locals, []);
    OnlyCompiles(Block(Two(Plain(x), Use(x))), Closures.SCRIPT);
  }

  /** The end of a block with one or two variables. */
  lemma EndsWith(locals: seq<Closures.Local>, more: seq<Closures.Local>)
    requires |locals| == 2 && locals[0].depth == 0 && locals[1].depth == 1 && |more| <= 1
    requires forall l :: l in more ==> l.depth == 1 && !l.isCaptured
    ensures var last := Closures.One(if locals[1].isCaptured then Closures.CloseUpvalue else Closures.Pop);
            Closures.EndScope(locals + more, 0) == (if more == [] then last else Closures.Then(Closures.Pop, last), [locals[0]])
  {
    assert Closures.EndScope([locals[0]], 0) == (Closures.Empty, [locals[0]]);
    assert locals[..1] == [locals[0]];
    assert locals + [] == locals;
    if more != [] {
      assert (locals + more)[..2] == locals && (locals + more)[2] in more;
    }
  }

  /** `{ var x; fun f() { x; } }`: the closure captures slot 1 and reads its upvalue 0; at the end the function
      is popped, and the variable closed. */
  lemma UseInsideCode(x: string, f: string)
    requires x != f && x != "" && x != "this"
    ensures var o := Closures.CompileItems(Only(Block(Two(Plain(x), Function(f, [], Only(Use(x)))))), Closures.SCRIPT);
            && o.ok
            && o.code == Closures.Then(Closures.Push,
                           Closures.Then(Closures.Closure([Closures.Upvalue(1, true)], 0, Closures.One(Closures.GetUpvalue(0))),
                           Closures.Then(Closures.Pop, Closures.One(Closures.CloseUpvalue))))
  {
    hide Closures.CompileItems, Closures.CompileItem;
    var fun := Function(f, [], Only(Use(x)));
    PlainCompiles(x);
    FunctionCompiles(x, f);
    TwoCompile(Plain(x), fun, Closures.SCRIPT.(scopeDepth := 1));
    var locals := [Closures.Local("this", 0, false), Closures.Local(x, 1, true)];
    EndsWith(locals, [Closures.Local(f, 1, false)]);
    OnlyCompiles(Block(Two(Plain(x), fun)), Closures.SCRIPT);
    BlockCompiles(Two(Plain(x), fun));
  }

  lemma BlockCompiles(items: Items)
    ensures var o := Closures.CompileItems(items, Closures.SCRIPT.(scopeDepth := 1));
            var e := Closures.EndScope(o.fns.locals, 0);
            var b := Closures.CompileItem(Block(items), Closures.SCRIPT);
            b.code == Closures.Append(o.code, e.0) && b.ok == o.ok
  {
    hide Closures.CompileItems, Closures.EndScope;
  }

  lemma FunctionCompiles(x: string, f: string)
    requires x != f && x != "" && x != "this"
    ensures Closures.CompileItem(Function(f, [], Only(Use(x))), Begun(x))
            == Closures.Output(
                 Closures.One(Closures.Closure([Closures.Upvalue(1, true)], 0, Closures.One(Closures.GetUpvalue(0)))),
                 Begun(x).(locals := [Closures.Local("this", 0, false), Closures.Local(x, 1, true)]
                                     + [Closures.Local(f, 1, false)]),
                 true)
  {
    hide Closures.CompileItems, Closures.FindLocal, Closures.IndexOf;
    var around: Closures.Compiling := Closures.Fn(Begun(x).locals + [Closures.Local(f, 1, false)], [], 1, Closures.NoFn);
    assert !Closures.Redeclared(Begun(x).locals, f, 1) by {
      assert Begun(x).locals[0].name == "this" && Begun(x).locals[1].name == x;
    }
    assert Closures.Around(Begun(x), f) == around;
    var inner := Closures.Fn([Closures.Local("", 0, false)], [], 1, around);
    assert Closures.Enter(Begun(x), f, []) == Closures.Output(Closures.Empty, inner, true);
    assert Closures.FindLocal(inner.locals, x) == -1;
    assert around.locals[1].name == x && around.locals[2].name == f && Closures.FindLocal(around.locals, x) == 1;
    assert Closures.IndexOf([], Closures.Upvalue(1, true)) == 0;
    OnlyCompiles(Use(x), inner);
    assert [] + [Closures.Upvalue(1, true)] == [Closures.Upvalue(1, true)];
    assert around.locals[1 := Closures.Local(x, 1, true)]
        == [Closures.Local("this", 0, false), Closures.Local(x, 1, true)] + [Closures.Local(f, 1, false)];
  }

  /** A block may not declare a name twice, but one within it may declare it again. */
  lemma DeclaredTwice(x: string)
    ensures !Closures.CompileItems(Only(Block(Two(Plain(x), Plain(x)))), Closures.SCRIPT).ok
    ensures Closures.CompileItems(Only(Block(Two(Plain(x), Block(Only(Plain(x)))))), Closures.SCRIPT).ok
  {
    hide Closures.CompileItems, Closures.EndScope;
    var f := Closures.SCRIPT.(scopeDepth := 1);
    PlainCompiles(x);
    TwoCompile(Plain(x), Plain(x), f);
    TwoCompile(Plain(x), Block(Only(Plain(x))), f);
    OnlyCompiles(Block(Two(Plain(x), Plain(x))), Closures.SCRIPT);
    OnlyCompiles(Block(Two(Plain(x), Block(Only(Plain(x))))), Closures.SCRIPT);
    OnlyCompiles(Plain(x), Begun(x).(scopeDepth := 2));
    assert Begun(x).locals[1] == Closures.Local(x, 1, false);
    assert Closures.Redeclared(Begun(x).locals, x, 1) && !Closures.Redeclared(Begun(x).locals, x, 2);
  }

  /** A function has room for 256 locals, what is in slot 0 included, and for 256 upvalues. */
  lemma TableLimits(f: Closures.Compiling, name: string, u: Closures.Upvalue)
    ensures (forall i :: 0 <= i < |f.locals| ==> f.locals[i].name != name) ==>
              (Closures.Declare(f, name).ok <==> |f.locals| < 256)
    ensures |f.upvalues| <= 256 ==> (Closures.AddUpvalue(f, u).ok <==> u in f.upvalues || |f.upvalues| < 256)
  {
  }
}
