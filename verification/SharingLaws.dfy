/** What sharing means for the stack that a run leaves, said of runs alone: a captured variable is read
    as its slot is while there is one, and keeps the value last written to it when there is none. */
module SharingLaws {
  import opened Language
  import opened SharedVariables

  const EMPTY := State([], [], [])

  /** The stack after a run from nothing. */
  ghost function After(ops: seq<Op>): seq<Value>
    requires LegalRun(ops, EMPTY)
  {
    StackOf(DoAll(ops, EMPTY))
  }

  /** How many captures there were; the next one has this number. */
  function Captures(ops: seq<Op>): nat {
    if ops == [] then 0 else Captures(ops[..|ops| - 1]) + if ops[|ops| - 1].Capture? then 1 else 0
  }

  /** Slots have variables of their own. */
  ghost predicate Reached(s: State) {
    WellFormed(s) && forall i, j :: 0 <= i < j < |s.slots| ==> s.slots[i] != s.slots[j]
  }

  lemma StepReached(op: Op, s: State)
    requires Reached(s) && Legal(op, s)
    ensures Reached(Do(op, s)) && |Do(op, s).captured| == |s.captured| + (if op.Capture? then 1 else 0)
    ensures s.captured <= Do(op, s).captured
  {
  }

  lemma {:induction false} RunAppend(a: seq<Op>, b: seq<Op>, s: State)
    requires WellFormed(s)
    ensures LegalRun(a + b, s) <==> LegalRun(a, s) && LegalRun(b, DoAll(a, s))
    ensures LegalRun(a + b, s) ==> DoAll(a + b, s) == DoAll(b, DoAll(a, s))
    decreases |a|
  {
    hide Do, Legal;
    if a == [] {
      assert a + b == b;
    } else {
      assert (a + b)[0] == a[0] && (a + b)[1..] == a[1..] + b;
      if Legal(a[0], s) {
        RunAppend(a[1..], b, Do(a[0], s));
      }
    }
  }

  lemma OneMore(ops: seq<Op>, op: Op, s: State)
    requires WellFormed(s)
    ensures LegalRun(ops + [op], s) <==> LegalRun(ops, s) && Legal(op, DoAll(ops, s))
    ensures LegalRun(ops + [op], s) ==> DoAll(ops + [op], s) == Do(op, DoAll(ops, s))
  {
    hide Do, Legal;
    RunAppend(ops, [op], s);
    assert [op][1..] == [];
  }

  lemma {:induction false} RunReached(ops: seq<Op>)
    requires LegalRun(ops, EMPTY)
    ensures Reached(DoAll(ops, EMPTY)) && |DoAll(ops, EMPTY).captured| == Captures(ops)
    decreases |ops|
  {
    hide Do, Legal;
    if ops != [] {
      var before := ops[..|ops| - 1];
      assert ops == before + [ops[|ops| - 1]];
      OneMore(before, ops[|ops| - 1], EMPTY);
      RunReached(before);
      StepReached(ops[|ops| - 1], DoAll(before, EMPTY));
    }
  }

  // ---- the stack alone ----

  lemma NothingYet()
    ensures LegalRun([], EMPTY) && DoAll([], EMPTY) == EMPTY && After([]) == []
  {
  }

  lemma PushLaw(ops: seq<Op>, v: Value)
    requires LegalRun(ops, EMPTY)
    ensures LegalRun(ops + [Push(v)], EMPTY) && After(ops + [Push(v)]) == After(ops) + [v]
  {
    hide LegalRun, DoAll;
    OneMore(ops, Push(v), EMPTY);
  }

  /** Popping and closing take the top away, and a return everything above its frame but the top. */
  lemma DropLaw(ops: seq<Op>, op: Op)
    requires op == Pop || op == CloseUpvalue
    requires LegalRun(ops + [op], EMPTY)
    ensures LegalRun(ops, EMPTY) && After(ops) != [] && After(ops + [op]) == After(ops)[..|After(ops)| - 1]
  {
    hide LegalRun, DoAll;
    OneMore(ops, op, EMPTY);
  }

  lemma ReturnLaw(ops: seq<Op>, entry: nat)
    requires LegalRun(ops + [Return(entry)], EMPTY)
    ensures LegalRun(ops, EMPTY) && entry < |After(ops)|
    ensures After(ops + [Return(entry)]) == After(ops)[..entry] + [After(ops)[|After(ops)| - 1]]
  {
    hide LegalRun, DoAll;
    OneMore(ops, Return(entry), EMPTY);
  }

  lemma ReadLaw(ops: seq<Op>, i: nat)
    requires LegalRun(ops, EMPTY) && i < |After(ops)|
    ensures LegalRun(ops + [GetLocal(i)], EMPTY) && After(ops + [GetLocal(i)]) == After(ops) + [After(ops)[i]]
  {
    hide LegalRun, DoAll;
    OneMore(ops, GetLocal(i), EMPTY);
  }

  lemma WriteLaw(ops: seq<Op>, i: nat)
    requires LegalRun(ops, EMPTY) && i < |After(ops)|
    ensures LegalRun(ops + [SetLocal(i)], EMPTY)
    ensures After(ops + [SetLocal(i)]) == After(ops)[i := After(ops)[|After(ops)| - 1]]
  {
    hide LegalRun, DoAll;
    RunReached(ops);
    OneMore(ops, SetLocal(i), EMPTY);
  }

  // ---- captured variables ----

  /** What `GetUpvalue(k)` pushes. */
  ghost predicate Reads(ops: seq<Op>, k: nat, v: Value) {
    && LegalRun(ops, EMPTY) && LegalRun(ops + [GetUpvalue(k)], EMPTY)
    && After(ops + [GetUpvalue(k)]) == After(ops) + [v]
  }

  /** Every capture can be read. */
  lemma ReadsSomething(ops: seq<Op>, k: nat) returns (v: Value)
    requires LegalRun(ops, EMPTY) && k < Captures(ops)
    ensures Reads(ops, k, v)
  {
    RunReached(ops);
    var s := DoAll(ops, EMPTY);
    v := s.store[s.captured[k]];
    ReadsStore(ops, k);
  }

  lemma ReadsStore(ops: seq<Op>, k: nat)
    requires LegalRun(ops, EMPTY) && k < |DoAll(ops, EMPTY).captured|
    ensures var s := DoAll(ops, EMPTY); Reads(ops, k, s.store[s.captured[k]])
  {
    OneMore(ops, GetUpvalue(k), EMPTY);
  }

  lemma ReadsOne(ops: seq<Op>, k: nat, v: Value, w: Value)
    requires Reads(ops, k, v) && Reads(ops, k, w)
    ensures v == w
  {
    assert (After(ops) + [v])[|After(ops)|] == (After(ops) + [w])[|After(ops)|];
  }

  /** The operation leaves slot `i`, on a stack of this height. */
  predicate Leaves(op: Op, height: nat, i: nat) {
    match op
    case Pop => i + 1 < height
    case CloseUpvalue => i + 1 < height
    case Return(entry) => i < entry
    case _ => true
  }

  /** Slot `i` is there, and no operation of the run takes it away. */
  ghost predicate Stays(ops: seq<Op>, more: seq<Op>, i: nat)
    requires LegalRun(ops + more, EMPTY)
    decreases |more|
  {
    RunAppend(ops, more, EMPTY);
    i < |After(ops)|
    && (more == [] ||
        (Prefix(ops, more);
         Leaves(more[0], |After(ops)|, i) && Stays(ops + [more[0]], more[1..], i)))
  }

  lemma Prefix(ops: seq<Op>, more: seq<Op>)
    requires LegalRun(ops + more, EMPTY) && more != []
    ensures LegalRun(ops + [more[0]], EMPTY) && ops + more == (ops + [more[0]]) + more[1..]
  {
    assert ops + more == (ops + [more[0]]) + more[1..];
    RunAppend(ops + [more[0]], more[1..], EMPTY);
  }

  lemma {:induction false} SlotStays(ops: seq<Op>, more: seq<Op>, i: nat)
    requires LegalRun(ops + more, EMPTY) && Stays(ops, more, i) && LegalRun(ops, EMPTY)
    ensures var s, t := DoAll(ops, EMPTY), DoAll(ops + more, EMPTY);
            i < |s.slots| && i < |t.slots| && t.slots[i] == s.slots[i] && s.captured <= t.captured
    decreases |more|
  {
    hide Do, Legal;
    if more == [] {
      assert ops + more == ops;
    } else {
      Prefix(ops, more);
      OneMore(ops, more[0], EMPTY);
      RunReached(ops);
      StepReached(more[0], DoAll(ops, EMPTY));
      StepLeaves(more[0], DoAll(ops, EMPTY), i);
      SlotStays(ops + [more[0]], more[1..], i);
    }
  }

  lemma StepLeaves(op: Op, s: State, i: nat)
    requires WellFormed(s) && Legal(op, s) && i < |s.slots| && Leaves(op, |s.slots|, i)
    ensures i < |Do(op, s).slots| && Do(op, s).slots[i] == s.slots[i]
  {
  }

  /** As long as its slot is there, a captured variable is read as the slot is, whatever has been written
      to either. */
  lemma OpenLaw(ops: seq<Op>, i: nat, more: seq<Op>)
    requires LegalRun(ops + [Capture(i)] + more, EMPTY) && Stays(ops + [Capture(i)], more, i)
    ensures LegalRun(ops, EMPTY)
    ensures var all := ops + [Capture(i)] + more; i < |After(all)| && Reads(all, Captures(ops), After(all)[i])
  {
    CapturedAt(ops, i, more);
    SlotStays(ops + [Capture(i)], more, i);
    ReadsStore(ops + [Capture(i)] + more, Captures(ops));
  }

  /** The capture's number and its variable, then and later. */
  lemma CapturedAt(ops: seq<Op>, i: nat, more: seq<Op>)
    requires LegalRun(ops + [Capture(i)] + more, EMPTY)
    ensures LegalRun(ops, EMPTY) && LegalRun(ops + [Capture(i)], EMPTY) && i < |DoAll(ops, EMPTY).slots|
    ensures var s, k := DoAll(ops + [Capture(i)], EMPTY), Captures(ops);
            k < |s.captured| && i < |s.slots| && s.captured[k] == s.slots[i] == DoAll(ops, EMPTY).slots[i]
            && s.captured <= DoAll(ops + [Capture(i)] + more, EMPTY).captured
  {
    RunAppend(ops + [Capture(i)], more, EMPTY);
    OneMore(ops, Capture(i), EMPTY);
    RunReached(ops);
    CapturedGrow(ops + [Capture(i)], more);
  }

  lemma {:induction false} CapturedGrow(ops: seq<Op>, more: seq<Op>)
    requires LegalRun(ops + more, EMPTY) && LegalRun(ops, EMPTY)
    ensures DoAll(ops, EMPTY).captured <= DoAll(ops + more, EMPTY).captured
    decreases |more|
  {
    hide Do, Legal;
    if more == [] {
      assert ops + more == ops;
    } else {
      Prefix(ops, more);
      OneMore(ops, more[0], EMPTY);
      RunReached(ops);
      StepReached(more[0], DoAll(ops, EMPTY));
      CapturedGrow(ops + [more[0]], more[1..]);
    }
  }

  /** What was written to an upvalue is read from it. */
  lemma WrittenLaw(ops: seq<Op>, k: nat)
    requires LegalRun(ops, EMPTY) && k < Captures(ops) && After(ops) != []
    ensures LegalRun(ops + [SetUpvalue(k)], EMPTY)
    ensures Reads(ops + [SetUpvalue(k)], k, After(ops)[|After(ops)| - 1])
  {
    hide LegalRun, DoAll;
    RunReached(ops);
    OneMore(ops, SetUpvalue(k), EMPTY);
    ReadsStore(ops + [SetUpvalue(k)], k);
  }

  /** Neither a slot nor an upvalue is written to. */
  predicate NoWrite(op: Op) {
    !op.SetLocal? && !op.SetUpvalue?
  }

  /** Without a write every captured variable keeps its value: however the stack shrinks, whatever is
      closed or returned from. */
  lemma {:induction false} KeepsLaw(ops: seq<Op>, more: seq<Op>, k: nat, v: Value)
    requires LegalRun(ops + more, EMPTY) && Reads(ops, k, v) && k < Captures(ops)
    requires forall op :: op in more ==> NoWrite(op)
    ensures Reads(ops + more, k, v)
    decreases |more|
  {
    hide Do, Legal;
    if more == [] {
      assert ops + more == ops;
    } else {
      Prefix(ops, more);
      OneMore(ops, more[0], EMPTY);
      RunReached(ops);
      var s := DoAll(ops, EMPTY);
      StepReached(more[0], s);
      StepKeeps(more[0], s, k);
      ReadsStore(ops, k);
      ReadsOne(ops, k, v, s.store[s.captured[k]]);
      ReadsStore(ops + [more[0]], k);
      RunReached(ops + [more[0]]);
      KeepsLaw(ops + [more[0]], more[1..], k, v);
    }
  }

  lemma StepKeeps(op: Op, s: State, k: nat)
    requires WellFormed(s) && Legal(op, s) && k < |s.captured| && NoWrite(op)
    ensures |Do(op, s).captured| > k && Do(op, s).captured[k] == s.captured[k]
    ensures Do(op, s).store[s.captured[k]] == s.store[s.captured[k]]
  {
  }

  /** Two captures of one slot are one variable from then on, also when the slot is long gone. */
  lemma SharedLaw(ops: seq<Op>, i: nat, more: seq<Op>, later: seq<Op>) returns (v: Value)
    requires LegalRun(ops + [Capture(i)] + more + [Capture(i)] + later, EMPTY)
    requires LegalRun(ops + [Capture(i)] + more, EMPTY) && Stays(ops + [Capture(i)], more, i)
    ensures LegalRun(ops, EMPTY)
    ensures var all := ops + [Capture(i)] + more + [Capture(i)] + later;
            Reads(all, Captures(ops), v) && Reads(all, Captures(ops + [Capture(i)] + more), v)
  {
    var first := ops + [Capture(i)] + more;
    var all := first + [Capture(i)] + later;
    CapturedAt(first, i, later);
    CapturedAt(ops, i, more);
    SlotStays(ops + [Capture(i)], more, i);
    CapturedGrow(first, [Capture(i)]);
    var k, j := Captures(ops), Captures(first);
    var t := DoAll(all, EMPTY);
    assert t.captured[k] == t.captured[j];
    v := t.store[t.captured[k]];
    ReadsStore(all, k);
    ReadsStore(all, j);
  }

  /** Captures of different slots are different variables: a write to one is not seen through the other. */
  lemma ApartLaw(ops: seq<Op>, i: nat, j: nat, more: seq<Op>, v: Value)
    requires i != j && LegalRun(ops + [Capture(i)] + [Capture(j)] + more + [SetUpvalue(Captures(ops) + 1)], EMPTY)
    requires Reads(ops + [Capture(i)] + [Capture(j)] + more, Captures(ops), v)
    ensures Reads(ops + [Capture(i)] + [Capture(j)] + more + [SetUpvalue(Captures(ops) + 1)], Captures(ops), v)
  {
    var one := ops + [Capture(i)];
    var all := one + [Capture(j)] + more;
    var k := Captures(ops);
    OneMore(all, SetUpvalue(k + 1), EMPTY);
    CapturedAt(one, j, more);
    TwoCaptures(ops, i, j);
    WriteApart(all, k, v);
  }

  lemma TwoCaptures(ops: seq<Op>, i: nat, j: nat)
    requires i != j && LegalRun(ops + [Capture(i)] + [Capture(j)], EMPTY)
    ensures LegalRun(ops, EMPTY)
    ensures var c, k := DoAll(ops + [Capture(i)] + [Capture(j)], EMPTY).captured, Captures(ops);
            k + 1 < |c| && c[k] != c[k + 1]
  {
    hide LegalRun, DoAll;
    OneMore(ops + [Capture(i)], Capture(j), EMPTY);
    OneMore(ops, Capture(i), EMPTY);
    RunReached(ops);
  }

  lemma WriteApart(ops: seq<Op>, k: nat, v: Value)
    requires LegalRun(ops + [SetUpvalue(k + 1)], EMPTY) && Reads(ops, k, v)
    requires var c := DoAll(ops, EMPTY).captured; k + 1 < |c| && c[k] != c[k + 1]
    ensures Reads(ops + [SetUpvalue(k + 1)], k, v)
  {
    OneMore(ops, SetUpvalue(k + 1), EMPTY);
    var s := DoAll(ops, EMPTY);
    ReadsStore(ops, k);
    ReadsOne(ops, k, v, s.store[s.captured[k]]);
    ReadsStore(ops + [SetUpvalue(k + 1)], k);
  }

  // ---- the last write is what is read ----

  /** A value written through an upvalue is read through it after any run without a write, closing and
      returning included. */
  lemma WriteThenRead(ops: seq<Op>, k: nat, v: Value, more: seq<Op>)
    requires LegalRun(ops, EMPTY) && k < Captures(ops)
    requires LegalRun(ops + [Push(v)] + [SetUpvalue(k)] + more, EMPTY) && forall op :: op in more ==> NoWrite(op)
    ensures Reads(ops + [Push(v)] + [SetUpvalue(k)] + more, k, v)
  {
    hide LegalRun, DoAll;
    PushLaw(ops, v);
    CapturesOfMore(ops, Push(v));
    WrittenLaw(ops + [Push(v)], k);
    CapturesOfMore(ops + [Push(v)], SetUpvalue(k));
    KeepsLaw(ops + [Push(v)] + [SetUpvalue(k)], more, k, v);
  }

  /** So is a value written to the slot while it is there. */
  lemma SlotThenRead(ops: seq<Op>, i: nat, more: seq<Op>, v: Value, later: seq<Op>)
    requires var all := ops + [Capture(i)] + more;
             && LegalRun(all, EMPTY) && Stays(ops + [Capture(i)], more, i)
             && LegalRun(all + [Push(v)] + [SetLocal(i)] + later, EMPTY) && forall op :: op in later ==> NoWrite(op)
    ensures LegalRun(ops, EMPTY)
    ensures Reads(ops + [Capture(i)] + more + [Push(v)] + [SetLocal(i)] + later, Captures(ops), v)
  {
    hide LegalRun, DoAll, Stays;
    var all, k := ops + [Capture(i)] + more, Captures(ops);
    OpenLaw(ops, i, more);
    CapturedAt(ops, i, more);
    SlotStays(ops + [Capture(i)], more, i);
    PushLaw(all, v);
    WriteLaw(all + [Push(v)], i);
    SlotWritten(all, i, k, v);
    RunReached(all);
    CapturesOfMore(all, Push(v));
    CapturesOfMore(all + [Push(v)], SetLocal(i));
    KeepsLaw(all + [Push(v)] + [SetLocal(i)], later, k, v);
  }

  lemma CapturesOfMore(ops: seq<Op>, op: Op)
    ensures Captures(ops + [op]) == Captures(ops) + if op.Capture? then 1 else 0
  {
    assert (ops + [op])[..|ops|] == ops;
  }

  lemma SlotWritten(ops: seq<Op>, i: nat, k: nat, v: Value)
    requires LegalRun(ops + [Push(v)] + [SetLocal(i)], EMPTY) && LegalRun(ops, EMPTY)
    requires var s := DoAll(ops, EMPTY); i < |s.slots| && k < |s.captured| && s.captured[k] == s.slots[i]
    ensures Reads(ops + [Push(v)] + [SetLocal(i)], k, v)
  {
    OneMore(ops + [Push(v)], SetLocal(i), EMPTY);
    OneMore(ops, Push(v), EMPTY);
    ReadsStore(ops + [Push(v)] + [SetLocal(i)], k);
  }

  /** A write through an upvalue changes its slot, while there is one, and no other. */
  lemma OpenWriteLaw(ops: seq<Op>, i: nat, more: seq<Op>)
    requires LegalRun(ops + [Capture(i)] + more + [SetUpvalue(Captures(ops))], EMPTY)
    requires LegalRun(ops + [Capture(i)] + more, EMPTY) && Stays(ops + [Capture(i)], more, i)
    ensures var all := ops + [Capture(i)] + more;
            && i < |After(all)|
            && After(all + [SetUpvalue(Captures(ops))]) == After(all)[i := After(all)[|After(all)| - 1]]
  {
    var all := ops + [Capture(i)] + more;
    CapturedAt(ops, i, more);
    SlotStays(ops + [Capture(i)], more, i);
    RunReached(all);
    WriteSlot(all, i, Captures(ops));
  }

  lemma WriteSlot(ops: seq<Op>, i: nat, k: nat)
    requires LegalRun(ops + [SetUpvalue(k)], EMPTY) && LegalRun(ops, EMPTY) && Reached(DoAll(ops, EMPTY))
    requires var s := DoAll(ops, EMPTY); i < |s.slots| && k < |s.captured| && s.captured[k] == s.slots[i]
    ensures After(ops + [SetUpvalue(k)]) == After(ops)[i := After(ops)[|After(ops)| - 1]]
  {
    hide Do, DoAll, StackOf, LegalRun, Reached;
    OneMore(ops, SetUpvalue(k), EMPTY);
    WrittenSlot(DoAll(ops, EMPTY), i, k);
  }

  lemma WrittenSlot(s: State, i: nat, k: nat)
    requires Reached(s) && Legal(SetUpvalue(k), s) && i < |s.slots| && k < |s.captured| && s.captured[k] == s.slots[i]
    ensures WellFormed(Do(SetUpvalue(k), s))
    ensures |StackOf(s)| == |s.slots| && StackOf(Do(SetUpvalue(k), s)) == StackOf(s)[i := StackOf(s)[|StackOf(s)| - 1]]
  {
  }

  /** A write to the variable of no slot changes nothing on the stack. */
  lemma ClosedWriteLaw(ops: seq<Op>, k: nat)
    requires LegalRun(ops + [SetUpvalue(k)], EMPTY) && LegalRun(ops, EMPTY)
    requires var s := DoAll(ops, EMPTY); k < |s.captured| && s.captured[k] !in s.slots
    ensures After(ops + [SetUpvalue(k)]) == After(ops)
  {
    OneMore(ops, SetUpvalue(k), EMPTY);
  }

  // ---- on a routine ----

  /** On a routine, reading through a capture of slot `i` pushes what slot `i` holds. */
  method ReadCapture(ops: seq<Op>, i: nat) returns (stack: seq<Value>)
    requires LegalRun(ops, EMPTY) && i < |After(ops)|
    ensures stack == After(ops) + [After(ops)[i]]
  {
    hide LegalRun, DoAll;
    var one := ops + [Capture(i)];
    CaptureLaw(ops, i);
    assert one + [] == one;
    NothingMore(one, i);
    OpenLaw(ops, i, []);
    stack := Replay(one + [GetUpvalue(Captures(ops))]);
  }

  lemma CaptureLaw(ops: seq<Op>, i: nat)
    requires LegalRun(ops, EMPTY) && i < |After(ops)|
    ensures LegalRun(ops + [Capture(i)], EMPTY) && After(ops + [Capture(i)]) == After(ops)
  {
    OneMore(ops, Capture(i), EMPTY);
  }

  lemma NothingMore(ops: seq<Op>, i: nat)
    requires LegalRun(ops + [], EMPTY) && i < |After(ops + [])|
    ensures LegalRun(ops, EMPTY) && Stays(ops, [], i)
  {
    assert ops + [] == ops;
  }
}
