/** Names in nested functions: lexical scope, as what a program does to its variables from its first line
    to its last. */
module Scoping {
  import Language

  /** A program as far as its names go: declarations, mentions, blocks and functions. */
  datatype Item =
    | Variable(name: string, uses: seq<string>)       // the names in its initialiser
    | Use(name: string)
    | Block(items: Items)
    | Function(name: string, params: seq<string>, body: Items)

  datatype Items = NoItems | Items(first: Item, rest: Items)

  /** A local variable in scope, by a number of its own, and how many functions are around it. */
  datatype Binding = Binding(name: string, id: nat, level: nat)

  /** What happens to variables, in the order of the text. */
  datatype Event =
    | Used(id: nat, level: nat)
    | UsedGlobal(name: string)
    | Defined(name: string)
    | Dropped(id: nat, closed: bool)
    | Wild                                            // no such variable

  /** The innermost binding of a name, or -1. */
  function Lookup(env: seq<Binding>, name: string): (i: int)
    ensures -1 <= i < |env|
    ensures i >= 0 ==> env[i].name == name
    ensures forall j :: i < j < |env| ==> env[j].name != name
  {
    Language.Innermost(env, (b: Binding) => b.name, name)
  }

  function Mention(name: string, env: seq<Binding>, level: nat): Event {
    var i := Lookup(env, name);
    if i >= 0 then Used(env[i].id, level) else UsedGlobal(name)
  }

  function Mentions(names: seq<string>, env: seq<Binding>, level: nat): seq<Event> {
    if names == [] then [] else [Mention(names[0], env, level)] + Mentions(names[1..], env, level)
  }

  /** A variable of a function at this level is used by a function inside that one. */
  ghost predicate UsedInside(events: seq<Event>, id: nat, level: nat) {
    exists e :: e in events && e.Used? && e.id == id && e.level > level
  }

  /** The end of a scope: its variables go, the last one first, and those that functions inside have
      used are closed. */
  ghost function Drops(bs: seq<Binding>, events: seq<Event>): seq<Event> {
    if bs == [] then []
    else
      var b := bs[|bs| - 1];
      [Dropped(b.id, UsedInside(events, b.id, b.level))] + Drops(bs[..|bs| - 1], events)
  }

  datatype Walk = Walk(events: seq<Event>, env: seq<Binding>, next: nat)

  function Parameters(names: seq<string>, id: nat, level: nat): seq<Binding> {
    seq(|names|, i requires 0 <= i < |names| => Binding(names[i], id + i, level))
  }

  /** What the program means for its variables: lexical scope, as a walk through the text.  Variables
      at depth 0 are global.  `next` numbers what is pushed: variables, functions and what they are
      called with, the value of each mention, and what a function returns. */
  ghost function WalkItem(item: Item, env: seq<Binding>, level: nat, depth: nat, next: nat): (w: Walk)
    ensures env <= w.env && next <= w.next
    decreases item
  {
    match item
    case Variable(name, uses) =>
      if depth == 0 then Walk(Mentions(uses, env, level) + [Defined(name)], env, next + 1 + |uses|)
      else
        var env' := env + [Binding(name, next, level)];
        Walk(Mentions(uses, env', level), env', next + 1 + |uses|)
    case Use(name) => Walk([Mention(name, env, level)], env, next + 1)
    case Block(items) =>
      var w := WalkItems(items, env, level, depth + 1, next);
      Walk(w.events + Drops(w.env[|env|..], w.events), env, w.next)
    case Function(name, params, body) =>
      var env' := if depth == 0 then env else env + [Binding(name, next, level)];
      var inner := env' + ([Binding("", next + 1, level + 1)] + Parameters(params, next + 2, level + 1));
      var w := WalkItems(body, inner, level + 1, 1, next + 2 + |params|);
      Walk(w.events + (if depth == 0 then [Defined(name)] else []), env', w.next + 2)
  }

  ghost function WalkItems(items: Items, env: seq<Binding>, level: nat, depth: nat, next: nat): (w: Walk)
    ensures env <= w.env && next <= w.next
    decreases items
  {
    match items
    case NoItems => Walk([], env, next)
    case Items(first, rest) =>
      var a := WalkItem(first, env, level, depth, next);
      var b := WalkItems(rest, a.env, level, depth, a.next);
      Walk(a.events + b.events, b.env, b.next)
  }

  const SCRIPT_ENV: seq<Binding> := [Binding("this", 0, 0)]

  ghost function ScriptEvents(script: Items): seq<Event> {
    WalkItems(script, SCRIPT_ENV, 0, 0, 1).events
  }
}
