/** The compilers of nested functions as they work: each has its tables and knows the one around it. */
module FunctionCompilers {
  import opened Closures

  lemma {:induction false} AppendEmpty(a: Code)
    ensures Append(a, Empty) == a
  {
    if a.Then? {
      AppendEmpty(a.rest);
    }
  }

  lemma {:induction false} AppendAppend(a: Code, b: Code, c: Code)
    ensures Append(Append(a, b), c) == Append(a, Append(b, c))
  {
    if a.Then? {
      AppendAppend(a.rest, b, c);
    }
  }

  class FunctionCompiler {
    const enclosing: FunctionCompiler?
    ghost const chain: set<FunctionCompiler>       // this one and all around it
    var locals: seq<Local>
    var upvalues: seq<Upvalue>
    var scopeDepth: nat

    ghost predicate Linked()
      decreases |chain|
    {
      && this in chain
      && (enclosing != null ==> this !in enclosing.chain && chain == enclosing.chain + {this}
                                && |enclosing.chain| < |chain| && enclosing.Linked())
    }

    ghost function Tables(): (f: Fns)
      requires Linked()
      reads chain
      ensures f.Fn?
      decreases |chain|
    {
      Fn(locals, upvalues, scopeDepth, if enclosing == null then NoFn else enclosing.Tables())
    }

    /** `initCompiler`, with the first slot taken. */
    constructor (enclosing: FunctionCompiler?, name: string, depth: nat)
      requires enclosing != null ==> enclosing.Linked()
      ensures Linked() && fresh(chain - if enclosing == null then {} else enclosing.chain)
      ensures this.enclosing == enclosing
      ensures Tables() == Fn([Local(name, 0, false)], [], depth, if enclosing == null then NoFn else old(enclosing.Tables()))
    {
      this.enclosing := enclosing;
      chain := if enclosing == null then {this} else enclosing.chain + {this};
      locals, upvalues, scopeDepth := [Local(name, 0, false)], [], depth;
      new;
      if enclosing != null {
        InChain(enclosing);
      }
    }

    method ResolveLocal(name: string) returns (i: int, ok: bool)
      ensures i == FindLocal(locals, name)
      ensures ok <==> (i >= 0 ==> locals[i].depth != -1)
    {
      i := |locals| - 1;
      while i >= 0 && locals[i].name != name
        invariant -1 <= i < |locals|
        invariant forall j :: i < j < |locals| ==> locals[j].name != name
      {
        i := i - 1;
      }
      ok := i < 0 || locals[i].depth != -1;
    }

    method AddUpvalue(index: nat, isLocal: bool) returns (arg: int, ok: bool)
      requires Linked()
      modifies `upvalues
      ensures var r := Closures.AddUpvalue(old(Tables()), Upvalue(index, isLocal));
              Tables() == r.fns && arg == r.arg && ok == r.ok
    {
      var u := Upvalue(index, isLocal);
      var i := 0;
      while i < |upvalues| && upvalues[i] != u
        invariant i <= |upvalues|
        invariant forall j :: 0 <= j < i ==> upvalues[j] != u
      {
        i := i + 1;
      }
      FirstIndex(upvalues, u, i);
      AroundUntouched();
      if i < |upvalues| {
        return i, true;
      }
      if |upvalues| == UINT8_COUNT {
        return 0, false;
      }
      upvalues := upvalues + [u];
      return i, true;
    }

    lemma AroundUntouched()
      requires Linked()
      ensures enclosing != null ==> this !in enclosing.chain && enclosing.Linked()
    {
    }

    /** `resolveUpvalue`, up through the functions around. */
    method ResolveUpvalue(name: string) returns (arg: int, ok: bool)
      requires Linked()
      modifies chain
      ensures var r := Closures.ResolveUpvalue(old(Tables()), name);
              Tables() == r.fns && arg == r.arg && ok == r.ok
      decreases |chain|
    {
      hide Closures.AddUpvalue, FindLocal;
      if enclosing == null {
        return -1, true;
      }
      var local, initialised := enclosing.ResolveLocal(name);
      if local != -1 {
        enclosing.Mark(local);
        arg, ok := AddUpvalue(local, true);
        ok := ok && initialised;
        return;
      }
      ghost var around := enclosing.Tables();
      var upvalue, fine := enclosing.ResolveUpvalue(name);
      if upvalue < 0 {
        NotFound(around, name);
        return -1, fine;
      }
      arg, ok := AddUpvalue(upvalue, false);
      ok := ok && fine;
    }

    /** `isCaptured` is set. */
    method Mark(i: nat)
      requires Linked() && i < |locals|
      modifies `locals
      ensures Tables() == Capture(old(Tables()), i)
    {
      AroundUntouched();
      locals := locals[i := locals[i].(isCaptured := true)];
    }

    /** `endScope` */
    method EndScope() returns (emitted: Code)
      requires Linked() && scopeDepth > 0
      modifies `locals, `scopeDepth
      ensures var e := Closures.EndScope(old(locals), old(scopeDepth) - 1);
              emitted == e.0 && Tables() == old(Tables()).(locals := e.1, scopeDepth := old(scopeDepth) - 1)
    {
      AroundUntouched();
      scopeDepth := scopeDepth - 1;
      emitted := Empty;
      while |locals| > 0 && locals[|locals| - 1].depth > scopeDepth
        invariant scopeDepth == old(scopeDepth) - 1
        invariant var a, b := Closures.EndScope(old(locals), scopeDepth), Closures.EndScope(locals, scopeDepth);
                  a.0 == Append(emitted, b.0) && a.1 == b.1
      {
        var instr := if locals[|locals| - 1].isCaptured then CloseUpvalue else Pop;
        ghost var rest := Closures.EndScope(locals[..|locals| - 1], scopeDepth).0;
        AppendAppend(emitted, One(instr), rest);
        assert Append(One(instr), rest) == Then(instr, rest);
        emitted := Append(emitted, One(instr));
        locals := locals[..|locals| - 1];
      }
      AppendEmpty(emitted);
    }
  }

  lemma InChain(f: FunctionCompiler)
    requires f.Linked()
    ensures f in f.chain
  {
  }

  lemma {:induction false} FirstIndex(us: seq<Upvalue>, u: Upvalue, i: nat)
    requires i <= |us| && (i < |us| ==> us[i] == u) && forall j :: 0 <= j < i ==> us[j] != u
    ensures IndexOf(us, u) == i
  {
    if i > 0 {
      FirstIndex(us[1..], u, i - 1);
    }
  }
}
