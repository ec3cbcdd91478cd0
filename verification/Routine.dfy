/** A routine's stack of fixed slices and the upvalues that point into it (cyarg/routine.c, and
    captureUpvalue in cyarg/vm.c).

    The specification knows no upvalues: every slot holds a variable of its own, a closure holds
    the variables that it captured, and variables live on when their slot is gone.  `vars`, `store`
    and `varOf` are that view, and every operation is proved to be the plain one on it. */
module Routines {
  import opened Language

  const SLICE_MAX := 64

  class ValueCell {
    var value: Value

    constructor (v: Value)
      ensures value == v
    {
      value := v;
    }
  }

  /** `contents` is a slot of the stack while the upvalue is open and `closed` afterwards. */
  class Upvalue {
    const stackOffset: nat
    const closed: ValueCell
    var contents: ValueCell
    var next: Upvalue?

    constructor (slot: ValueCell, stackOffset: nat)
      ensures contents == slot && this.stackOffset == stackOffset && next == null && fresh(closed)
    {
      this.stackOffset := stackOffset;
      closed := new ValueCell(NilVal);
      contents := slot;
      next := null;
    }
  }

  type Var = nat

  ghost predicate Distinct<T>(s: seq<T>) {
    forall i, j :: 0 <= i < j < |s| ==> s[i] != s[j]
  }

  lemma DistinctAppend<T>(a: seq<T>, b: seq<T>)
    requires Distinct(a) && Distinct(b) && forall x :: x in b ==> x !in a
    ensures Distinct(a + b)
  {
    var s := a + b;
    forall i, j | 0 <= i < j < |s| ensures s[i] != s[j] {
      if i < |a| <= j {
        assert b[j - |a|] in b;
      }
    }
  }

  lemma DistinctPrefix<T>(a: seq<T>, n: nat)
    requires Distinct(a) && n <= |a|
    ensures Distinct(a[..n]) && forall i :: n <= i < |a| ==> a[i] !in a[..n]
  {
  }

  /** The element after `i - 1`, or the end of the list. */
  ghost function NodeAt(open: seq<Upvalue>, i: nat): Upvalue? {
    if i < |open| then open[i] else null
  }

  /** Each element is linked to the one after it. */
  ghost predicate Chained(open: seq<Upvalue>)
    reads open
  {
    forall i {:trigger open[i].next} :: 0 <= i < |open| ==> open[i].next == NodeAt(open, i + 1)
  }

  /** From the top of the stack down, one for each slot. */
  ghost predicate Descending(open: seq<Upvalue>) {
    forall i, j :: 0 <= i < j < |open| ==> open[i].stackOffset > open[j].stackOffset
  }

  lemma DescendingInsert(s: seq<Upvalue>, k: nat, u: Upvalue)
    requires Descending(s) && k <= |s|
    requires forall j :: 0 <= j < k ==> s[j].stackOffset > u.stackOffset
    requires forall j :: k <= j < |s| ==> s[j].stackOffset < u.stackOffset
    ensures Descending(s[..k] + [u] + s[k..])
  {
  }

  lemma DescendingDistinct(s: seq<Upvalue>)
    requires Descending(s)
    ensures Distinct(s)
  {
  }

  twostate lemma ChainedInsert(s: seq<Upvalue>, new k: nat, new u: Upvalue)
    requires old(Chained(s)) && k <= |s| && u !in s && u.next == NodeAt(s, k)
    requires forall i :: 0 <= i < |s| && i != k - 1 ==> s[i].next == old(s[i].next)
    requires k > 0 ==> s[k - 1].next == u
    ensures Chained(s[..k] + [u] + s[k..])
  {
    var l := s[..k] + [u] + s[k..];
    forall i {:trigger l[i].next} | 0 <= i < |l| ensures l[i].next == NodeAt(l, i + 1) {
      if i < k - 1 {
        assert s[i].next == old(s[i].next) == NodeAt(s, i + 1);
      } else if i > k {
        assert s[i - 1].next == old(s[i - 1].next) == NodeAt(s, i);
      }
    }
  }

  class Routine {
    var stackSlices: array<seq<ValueCell>>
    var sliceCount: nat
    var stackTopIndex: nat
    var openUpvalues: Upvalue?

    ghost var cells: seq<ValueCell>          // every slot there is, in order
    ghost var open: seq<Upvalue>             // the list
    ghost var upvalues: set<Upvalue>         // all that were ever captured
    ghost var closedCells: set<ValueCell>    // where they keep their values when closed
    ghost var vars: seq<Var>                 // the variable in each slot in use
    ghost var store: seq<Value>              // what each variable holds
    ghost var varOf: map<Upvalue, Var>       // the variable that was captured

    /** The slices hold 64 slots each, all different, and there is room for one more value. */
    ghost predicate SlicesOk()
      reads `stackSlices, `sliceCount, `cells, stackSlices
    {
      && 1 <= sliceCount <= stackSlices.Length
      && |cells| == sliceCount * SLICE_MAX && Distinct(cells)
      && (forall i :: 0 <= i < sliceCount ==> |stackSlices[i]| == SLICE_MAX)
      && (forall i, j :: 0 <= i < sliceCount && 0 <= j < SLICE_MAX ==> stackSlices[i][j] == cells[i * SLICE_MAX + j])
    }

    /** Each slot in use holds a variable of its own, with its value. */
    ghost predicate SlotsOk()
      reads `cells, `vars, `store, cells
    {
      && |vars| <= |cells| && Distinct(vars)
      && (forall i :: 0 <= i < |vars| ==> vars[i] < |store| && cells[i].value == store[vars[i]])
    }

    /** The list of open upvalues: linked, from the top of the stack down, one for each slot. */
    ghost predicate ListOk()
      reads `openUpvalues, `open, `vars, open
    {
      && openUpvalues == NodeAt(open, 0)
      && Chained(open) && Descending(open)
      && (forall i :: 0 <= i < |open| ==> open[i].stackOffset < |vars|)
    }

    /** An open upvalue is its slot; a closed one has the variable to itself. */
    ghost predicate UpvaluesOk()
      reads `open, `upvalues, `closedCells, `cells, `vars, `store, `varOf, upvalues, closedCells
    {
      && (forall u :: u in open ==> u in upvalues)
      && varOf.Keys == upvalues
      && (forall c :: c in closedCells ==> c !in cells)
      && (forall u :: u in upvalues ==> u.closed in closedCells && varOf[u] < |store|)
      && (forall u, w :: u in upvalues && w in upvalues && u != w ==> u.closed != w.closed && varOf[u] != varOf[w])
      && (forall u :: u in open ==>
            u.stackOffset < |vars| <= |cells| && u.contents == cells[u.stackOffset] && varOf[u] == vars[u.stackOffset])
      && (forall u :: u in upvalues && u !in open ==>
            u.contents == u.closed && u.closed.value == store[varOf[u]] && varOf[u] !in vars)
    }

    ghost predicate Linked()
      reads this, stackSlices, cells, open, upvalues, closedCells
    {
      SlicesOk() && SlotsOk() && ListOk() && UpvaluesOk()
    }

    ghost predicate Valid()
      reads this, stackSlices, cells, open, upvalues, closedCells
    {
      Linked() && |vars| == stackTopIndex < |cells|
    }

    /** The values on the stack. */
    ghost function Contents(): (s: seq<Value>)
      requires Valid()
      reads this, stackSlices, cells, open, upvalues, closedCells
      ensures |s| == stackTopIndex
    {
      var vs, st := vars, store;
      seq(|vs|, i requires 0 <= i < |vs| => st[vs[i]])
    }

    ghost predicate Captured(i: nat)
      reads `open
    {
      exists u :: u in open && u.stackOffset == i
    }

    constructor ()
      ensures Valid() && fresh(stackSlices) && (forall c :: c in cells ==> fresh(c))
      ensures vars == [] && store == [] && upvalues == {} && closedCells == {} && open == []
    {
      var s := NewSlice();
      stackSlices := new seq<ValueCell>[8](_ => s);
      sliceCount, stackTopIndex, openUpvalues := 1, 0, null;
      cells, open, upvalues, closedCells, vars, store, varOf := s, [], {}, {}, [], [], map[];
    }

    static method NewSlice() returns (s: seq<ValueCell>)
      ensures |s| == SLICE_MAX && Distinct(s) && forall c :: c in s ==> fresh(c)
    {
      s := [];
      while |s| < SLICE_MAX
        invariant |s| <= SLICE_MAX && Distinct(s) && forall c :: c in s ==> fresh(c)
      {
        var c := new ValueCell(NilVal);
        s := s + [c];
      }
    }

    function Slot(index: nat): (c: ValueCell)
      requires SlicesOk() && index < |cells|
      reads `stackSlices, `sliceCount, `cells, stackSlices
      ensures c == cells[index]
    {
      stackSlices[index / SLICE_MAX][index % SLICE_MAX]
    }

    /** A larger array for the slices; the slices stay where they are. */
    method GrowSlices()
      requires SlicesOk() && sliceCount == stackSlices.Length
      modifies `stackSlices
      ensures SlicesOk() && sliceCount < stackSlices.Length && fresh(stackSlices)
    {
      var capacity := if stackSlices.Length < 8 then 8 else stackSlices.Length * 2;
      var grown := new seq<ValueCell>[capacity](_ => []);
      var i := 0;
      while i < sliceCount
        modifies grown
        invariant 0 <= i <= sliceCount
        invariant forall k :: 0 <= k < i ==> grown[k] == stackSlices[k]
      {
        grown[i] := stackSlices[i];
        i := i + 1;
      }
      stackSlices := grown;
    }

    method AppendSlice(slice: seq<ValueCell>)
      requires SlicesOk() && sliceCount < stackSlices.Length && |slice| == SLICE_MAX && Distinct(slice)
      requires forall c :: c in slice ==> c !in cells
      modifies `sliceCount, `cells, stackSlices
      ensures SlicesOk() && cells == old(cells) + slice
    {
      stackSlices[sliceCount] := slice;
      sliceCount := sliceCount + 1;
      DistinctAppend(cells, slice);
      cells := cells + slice;
    }

    twostate lemma SlicesKeep()
      requires old(Linked()) && SlicesOk() && old(cells) <= cells
      requires forall c :: c in cells ==> c in old(cells) || c !in closedCells
      requires unchanged(`openUpvalues, `open, `upvalues, `closedCells, `vars, `store, `varOf)
      requires unchanged(old(cells)) && unchanged(upvalues) && unchanged(closedCells)
      ensures Linked()
    {
      hide SlicesOk;
      assert SlotsOk() && ListOk();
      assert forall c :: c in closedCells ==> c !in cells;
    }

    /** A new slice; no slot that there is already moves. */
    method AddSlice()
      requires Linked()
      modifies `stackSlices, `sliceCount, `cells, stackSlices
      ensures Linked() && |cells| == |old(cells)| + SLICE_MAX && old(cells) <= cells
      ensures forall c :: c in cells ==> c in old(cells) || fresh(c)
      ensures stackSlices == old(stackSlices) || fresh(stackSlices)
    {
      hide SlicesOk, SlotsOk, ListOk, UpvaluesOk;
      var slice := NewSlice();
      SlicesBound();
      if stackSlices.Length < sliceCount + 1 {
        GrowSlices();
      }
      AppendSlice(slice);
      SlicesBound();
      assert forall c :: c in cells ==> c in old(cells) || c in slice;
      SlicesKeep();
    }

    lemma SlicesBound()
      requires SlicesOk()
      ensures 1 <= sliceCount <= stackSlices.Length && |cells| == sliceCount * SLICE_MAX
    {
    }

    lemma ClosedApart()
      requires UpvaluesOk()
      ensures forall c :: c in closedCells ==> c !in cells
    {
    }

    // ---- the stack ----

    twostate lemma PushKeeps(value: Value)
      requires old(Valid())
      requires unchanged(`stackSlices, `sliceCount, `cells, `openUpvalues, `open, `upvalues, `closedCells, `varOf) && unchanged(stackSlices)
      requires vars == old(vars) + [|old(store)|] && store == old(store) + [value]
      requires cells[|old(vars)|].value == value
      requires forall c :: c in cells && c != cells[|old(vars)|] ==> c.value == old(c.value)
      requires unchanged(upvalues) && unchanged(closedCells)
      ensures Linked()
    {
      assert SlicesOk();
      hide SlicesOk;
      assert Distinct(cells);
    }

    method Push(value: Value)
      requires Valid()
      modifies this, stackSlices, {cells[stackTopIndex]}
      ensures Valid() && old(cells) <= cells
      ensures forall c :: c in cells ==> c in old(cells) || fresh(c)
      ensures stackSlices == old(stackSlices) || fresh(stackSlices)
      ensures vars == old(vars) + [|old(store)|] && store == old(store) + [value]
      ensures Contents() == old(Contents()) + [value]
      ensures unchanged(`openUpvalues, `open, `upvalues, `closedCells, `varOf)
    {
      hide SlicesOk, SlotsOk, ListOk, UpvaluesOk;
      SlicesBound();
      ClosedApart();
      VarsDistinct();
      var nextSlot := Slot(stackTopIndex);
      nextSlot.value := value;
      vars, store := vars + [|store|], store + [value];
      stackTopIndex := stackTopIndex + 1;
      PushKeeps(value);
      SlicesBound();
      if stackTopIndex / SLICE_MAX + 1 > sliceCount {
        AddSlice();
      }
    }

    method PeekCell(distance: nat) returns (c: ValueCell)
      requires Valid() && distance < stackTopIndex
      ensures c == cells[stackTopIndex - 1 - distance]
    {
      c := Slot(stackTopIndex - 1 - distance);
    }

    method Peek(distance: nat) returns (value: Value)
      requires Valid() && distance < stackTopIndex
      ensures value == store[vars[stackTopIndex - 1 - distance]] == Contents()[stackTopIndex - 1 - distance]
    {
      var c := PeekCell(distance);
      value := c.value;
    }

    /** Slots that nothing open points to can go. */
    twostate lemma TruncateKeeps(n: nat)
      requires old(Linked()) && n <= |old(vars)| && vars == old(vars)[..n]
      requires forall u :: u in open ==> u.stackOffset < n
      requires unchanged(`cells, `openUpvalues, `open, `upvalues, `closedCells, `store, `varOf)
      requires unchanged(cells) && unchanged(upvalues) && unchanged(closedCells)
      ensures SlotsOk() && ListOk() && UpvaluesOk()
    {
      hide SlicesOk;
      assert SlotsOk() by { DistinctPrefix(old(vars), n); }
      hide SlotsOk, Distinct;
      assert ListOk();
      hide ListOk;
    }

    lemma OpenBelow()
      requires ListOk() && 0 < |vars| && !Captured(|vars| - 1)
      ensures forall u :: u in open ==> u.stackOffset < |vars| - 1
    {
    }

    /** A slot that an upvalue points to is not popped but closed. */
    method Pop() returns (ret: Value)
      requires Valid() && 0 < stackTopIndex && !Captured(stackTopIndex - 1)
      modifies `stackTopIndex, `vars
      ensures Valid() && ret == old(store)[old(vars)[|old(vars)| - 1]]
      ensures vars == old(vars)[..|old(vars)| - 1]
      ensures Contents() == old(Contents())[..|old(vars)| - 1]
    {
      hide SlicesOk, SlotsOk, ListOk, UpvaluesOk;
      OpenBelow();
      ret := Peek(0);
      stackTopIndex := stackTopIndex - 1;
      vars := vars[..|vars| - 1];
      TruncateKeeps(|vars|);
    }

    method FrameSlot(stackEntryIndex: nat, index: nat) returns (c: ValueCell)
      requires Valid() && stackEntryIndex + index < stackTopIndex
      ensures c == cells[stackEntryIndex + index]
    {
      c := PeekCell(stackTopIndex - (stackEntryIndex + index + 1));
    }

    lemma VarsDistinct()
      requires SlotsOk()
      ensures Distinct(vars) && forall i :: 0 <= i < |vars| ==> vars[i] < |store|
    {
    }

    lemma SlotVar(i: nat)
      requires SlotsOk() && i < |vars|
      ensures vars[i] < |store| && |vars| <= |cells| && cells[i].value == store[vars[i]]
    {
    }

    /** Assignment to a local: to its variable, whoever else holds it. */
    method SetSlot(i: nat, value: Value)
      requires Valid() && i < stackTopIndex
      modifies `store, {cells[i]}
      ensures Valid() && store == old(store)[vars[i] := value]
      ensures Contents() == old(Contents())[i := value]
    {
      hide SlicesOk, ListOk, SlotsOk, UpvaluesOk;
      SlotVar(i);
      ClosedApart();
      var c := Slot(i);
      c.value := value;
      store := store[vars[i] := value];
      SlotWritten(i);
      VarsDistinct();
    }

    twostate lemma SlotWritten(k: nat)
      requires old(SlicesOk()) && old(SlotsOk()) && old(UpvaluesOk()) && k < |old(vars)|
      requires unchanged(`cells, `open, `upvalues, `closedCells, `vars, `varOf) && |store| == |old(store)|
      requires store == old(store)[vars[k] := cells[k].value] && forall c :: c in cells && c != cells[k] ==> c.value == old(c.value)
      requires unchanged(upvalues) && unchanged(closedCells)
      ensures SlotsOk() && UpvaluesOk()
    {
    }

    // ---- upvalues ----

    method GetUpvalue(u: Upvalue) returns (value: Value)
      requires Valid() && u in upvalues
      ensures value == store[varOf[u]]
    {
      value := u.contents.value;
    }

    twostate lemma ClosedWritten(u: Upvalue)
      requires old(SlotsOk()) && old(UpvaluesOk()) && u in upvalues && u !in open
      requires unchanged(`cells, `open, `upvalues, `closedCells, `vars, `varOf) && store == old(store)[varOf[u] := u.closed.value]
      requires unchanged(cells) && unchanged(upvalues)
      requires forall w :: w in upvalues && w != u ==> unchanged(w.closed)
      ensures SlotsOk() && UpvaluesOk()
    {
    }

    method SetUpvalue(u: Upvalue, value: Value)
      requires Valid() && u in upvalues
      modifies `store, {u.contents}
      ensures Valid() && store == old(store)[varOf[u] := value]
    {
      hide SlicesOk, ListOk, SlotsOk, UpvaluesOk;
      ClosedApart();
      WhereIs(u);
      var c := u.contents;
      c.value := value;
      store := store[varOf[u] := value];
      if u in open {
        SlotWritten(u.stackOffset);
      } else {
        ClosedWritten(u);
      }
    }

    lemma WhereIs(u: Upvalue)
      requires SlicesOk() && SlotsOk() && UpvaluesOk() && u in upvalues
      ensures u in varOf && varOf[u] < |store|
      ensures if u in open then u.stackOffset < |vars| <= |cells| && u.contents == cells[u.stackOffset] && varOf[u] == vars[u.stackOffset]
              else u.contents == u.closed
      ensures forall w :: w in upvalues && w != u ==> w.closed != u.closed
      ensures u.closed in closedCells
    {
    }

    /** Where the upvalue of a slot is in the list, or belongs. */
    method FindUpvalue(stackOffset: nat) returns (prevUpvalue: Upvalue?, upvalue: Upvalue?, ghost k: nat)
      requires ListOk()
      ensures k <= |open| && upvalue == NodeAt(open, k) && prevUpvalue == if k == 0 then null else open[k - 1]
      ensures forall j :: 0 <= j < k ==> open[j].stackOffset > stackOffset
      ensures forall j :: k <= j < |open| && !Captured(stackOffset) ==> open[j].stackOffset < stackOffset
      ensures Captured(stackOffset) <==> upvalue != null && upvalue.stackOffset == stackOffset
    {
      prevUpvalue, upvalue, k := null, openUpvalues, 0;
      while upvalue != null && upvalue.stackOffset > stackOffset
        invariant 0 <= k <= |open| && upvalue == NodeAt(open, k)
        invariant prevUpvalue == if k == 0 then null else open[k - 1]
        invariant forall j :: 0 <= j < k ==> open[j].stackOffset > stackOffset
        decreases |open| - k
      {
        prevUpvalue := upvalue;
        upvalue := upvalue.next;
        k := k + 1;
      }
      if upvalue != null && upvalue.stackOffset == stackOffset {
        assert upvalue in open;
      }
    }

    /** Links a new upvalue in after the first `k`. */
    method InsertUpvalue(u: Upvalue, prevUpvalue: Upvalue?, ghost k: nat)
      requires ListOk() && k <= |open| && u !in open && u.next == NodeAt(open, k) && u.stackOffset < |vars|
      requires prevUpvalue == if k == 0 then null else open[k - 1]
      requires forall j :: 0 <= j < k ==> open[j].stackOffset > u.stackOffset
      requires forall j :: k <= j < |open| ==> open[j].stackOffset < u.stackOffset
      modifies `openUpvalues, `open, open
      ensures ListOk() && open == old(open)[..k] + [u] + old(open)[k..]
      ensures forall w :: w in old(open) ==> w.contents == old(w.contents)
    {
      hide Chained, Descending;
      DescendingDistinct(open);
      if prevUpvalue == null {
        openUpvalues := u;
      } else {
        prevUpvalue.next := u;
      }
      DescendingInsert(open, k, u);
      ChainedInsert(open, k, u);
      open := open[..k] + [u] + open[k..];
    }

    twostate lemma CaptureKeeps(new u: Upvalue)
      requires old(SlicesOk()) && old(SlotsOk()) && old(UpvaluesOk()) && old(ListOk())
      requires u.stackOffset < |vars| && forall w :: w in old(open) ==> w.stackOffset != u.stackOffset
      requires unchanged(`cells, `vars, `store) && unchanged(cells) && unchanged(old(closedCells))
      requires u !in old(upvalues) && u.closed !in old(closedCells) && u.closed !in cells && u.contents == cells[u.stackOffset]
      requires upvalues == old(upvalues) + {u} && closedCells == old(closedCells) + {u.closed}
      requires varOf == old(varOf)[u := vars[u.stackOffset]]
      requires forall w :: w in open <==> w == u || w in old(open)
      requires forall w :: w in old(upvalues) ==> w.contents == old(w.contents)
      ensures SlotsOk() && UpvaluesOk()
    {
      hide SlicesOk;
      forall w | w in old(upvalues) ensures varOf[w] != varOf[u] {
        if w in old(open) {
          assert w.stackOffset != u.stackOffset;
        }
      }
    }

    /** A new upvalue, where it belongs in the list. */
    method AddUpvalue(local: ValueCell, stackOffset: nat, prevUpvalue: Upvalue?, upvalue: Upvalue?, ghost k: nat)
      returns (u: Upvalue)
      requires Linked() && stackOffset < |vars| <= |cells| && local == cells[stackOffset] && !Captured(stackOffset)
      requires k <= |open| && upvalue == NodeAt(open, k) && prevUpvalue == if k == 0 then null else open[k - 1]
      requires forall j :: 0 <= j < k ==> open[j].stackOffset > stackOffset
      requires forall j :: k <= j < |open| ==> open[j].stackOffset < stackOffset
      modifies `openUpvalues, `open, `upvalues, `closedCells, `varOf, open
      ensures Linked() && u in open && u.stackOffset == stackOffset
      ensures fresh(u) && upvalues == old(upvalues) + {u} && varOf == old(varOf)[u := vars[stackOffset]]
      ensures fresh(u.closed) && closedCells == old(closedCells) + {u.closed}
    {
      hide SlicesOk, SlotsOk, UpvaluesOk, ListOk, Captured;
      NotCaptured(stackOffset);
      ClosedApart();
      u := new Upvalue(local, stackOffset);
      u.next := upvalue;
      assert SlicesOk() && ListOk();
      InsertUpvalue(u, prevUpvalue, k);
      assert SlicesOk();
      upvalues, closedCells := upvalues + {u}, closedCells + {u.closed};
      varOf := varOf[u := vars[stackOffset]];
      assert SlicesOk() && ListOk();
      CaptureKeeps(u);
    }

    /** The open upvalue of a slot: the one there is, or a new one. */
    method CaptureUpvalue(local: ValueCell, stackOffset: nat) returns (u: Upvalue)
      requires Valid() && stackOffset < stackTopIndex && local == cells[stackOffset]
      modifies `openUpvalues, `open, `upvalues, `closedCells, `varOf, open
      ensures Valid() && u in open && u.stackOffset == stackOffset
      ensures u in upvalues && u in varOf && varOf[u] == vars[stackOffset]
      ensures old(Captured(stackOffset)) ==> upvalues == old(upvalues) && varOf == old(varOf)
      ensures !old(Captured(stackOffset)) ==>
                fresh(u) && upvalues == old(upvalues) + {u} && varOf == old(varOf)[u := vars[stackOffset]]
      ensures forall c :: c in closedCells ==> c in old(closedCells) || fresh(c)
    {
      hide SlicesOk, SlotsOk, UpvaluesOk, ListOk, Captured;
      SlotVar(stackOffset);
      var prevUpvalue, upvalue, k := FindUpvalue(stackOffset);
      if upvalue != null && upvalue.stackOffset == stackOffset {
        OpenUpvalue(k);
        u := upvalue;
      } else {
        u := AddUpvalue(local, stackOffset, prevUpvalue, upvalue, k);
      }
    }

    lemma OpenAreUpvalues()
      requires UpvaluesOk()
      ensures forall u :: u in open ==> u in upvalues
      ensures varOf.Keys == upvalues
    {
    }

    lemma NotCaptured(i: nat)
      requires !Captured(i)
      ensures forall u :: u in open ==> u.stackOffset != i
    {
    }

    lemma OpenUpvalue(k: nat)
      requires UpvaluesOk() && k < |open|
      ensures var u := open[k];
              u in upvalues && u in varOf && u.stackOffset < |vars| && varOf[u] == vars[u.stackOffset]
    {
    }

    twostate lemma CloseKeeps(u: Upvalue)
      requires old(SlotsOk()) && old(UpvaluesOk()) && |old(open)| > 0 && u == old(open)[0] && u !in open
      requires u.stackOffset < |old(vars)| && vars == old(vars)[..u.stackOffset]
      requires forall w :: w in open <==> w != u && w in old(open)
      requires forall w :: w in open ==> w.stackOffset < u.stackOffset
      requires unchanged(`cells, `upvalues, `closedCells, `store, `varOf) && unchanged(cells)
      requires u.contents == u.closed && u.closed.value == old(u.contents.value)
      requires forall w :: w in upvalues && w != u ==> w.contents == old(w.contents)
      requires forall c :: c in closedCells && c != u.closed ==> c.value == old(c.value)
      ensures SlotsOk() && UpvaluesOk()
    {
      DistinctPrefix(old(vars), u.stackOffset);
      hide Distinct;
    }

    lemma FirstOpen()
      requires ListOk() && openUpvalues != null
      ensures |open| > 0 && openUpvalues == open[0] && open[0] !in open[1..] && open[0].stackOffset < |vars|
      ensures open[0].next == NodeAt(open[1..], 0)
      ensures forall w :: w in open <==> w == open[0] || w in open[1..]
      ensures forall w :: w in open[1..] ==> w.stackOffset < open[0].stackOffset
    {
    }

    twostate lemma TailKeeps()
      requires old(ListOk()) && |old(open)| > 0 && open == old(open)[1..] && openUpvalues == NodeAt(open, 0)
      requires old(open)[0].stackOffset <= |old(vars)| && vars == old(vars)[..old(open)[0].stackOffset]
      requires forall w :: w in open ==> w.next == old(w.next)
      ensures ListOk()
    {
      forall i {:trigger open[i].next} | 0 <= i < |open| ensures open[i].next == NodeAt(open, i + 1) {
        assert open[i] == old(open)[i + 1];
        assert old(open[i + 1].next) == NodeAt(old(open), i + 2);
      }
    }

    /** Closes the upvalue of the highest captured slot. */
    method CloseFirst()
      requires Linked() && openUpvalues != null
      modifies `openUpvalues, `open, `vars, open, closedCells
      ensures Linked() && |old(open)| > 0 && open == old(open)[1..]
      ensures old(open)[0].stackOffset < |old(vars)| && vars == old(vars)[..old(open)[0].stackOffset]
    {
      hide SlicesOk, SlotsOk, UpvaluesOk, ListOk;
      FirstOpen();
      OpenUpvalue(0);
      ClosedApart();
      var upvalue := openUpvalues;
      WhereIs(upvalue);
      upvalue.closed.value := upvalue.contents.value;
      upvalue.contents := upvalue.closed;
      openUpvalues := upvalue.next;
      open := open[1..];
      vars := vars[..upvalue.stackOffset];
      assert SlicesOk();
      TailKeeps();
      CloseKeeps(upvalue);
    }

    /** Closes the upvalues of the slots from `last` on and no others; the values of those slots
        are then nobody else's. */
    method CloseUpvalues(last: nat)
      requires Linked() && last <= |vars|
      modifies `openUpvalues, `open, `vars, open, closedCells
      ensures Linked() && vars == old(vars)[..last]
      ensures forall u :: u in open <==> u in old(open) && u.stackOffset < last
    {
      hide SlicesOk, SlotsOk, UpvaluesOk, ListOk;
      ghost var n := 0;
      while openUpvalues != null && openUpvalues.stackOffset >= last
        invariant n <= |old(open)| && open == old(open)[n..]
        invariant closedCells == old(closedCells)
        invariant Linked() && last <= |vars| <= |old(vars)| && vars == old(vars)[..|vars|]
        invariant forall u :: u in old(open) && u.stackOffset < last ==> u in open
        decreases |open|
      {
        FirstOpen();
        assert forall i :: 0 <= i < |open| ==> open[i] == old(open)[n + i];
        CloseFirst();
        n := n + 1;
      }
      RestBelow(last);
      label Closed:
      vars := vars[..last];
      TruncateKeeps@Closed(last);
    }

    lemma RestBelow(last: nat)
      requires ListOk() && (openUpvalues != null ==> openUpvalues.stackOffset < last)
      ensures forall u :: u in open ==> u.stackOffset < last
    {
    }

    /** Leaving the scope of a captured variable, whose slot is the topmost. */
    method OpCloseUpvalues()
      requires Valid() && 0 < stackTopIndex
      modifies `stackTopIndex, `openUpvalues, `open, `vars, open, closedCells
      ensures Valid() && vars == old(vars)[..|old(vars)| - 1]
      ensures forall u :: u in open <==> u in old(open) && u.stackOffset < stackTopIndex
    {
      hide SlicesOk, SlotsOk, UpvaluesOk, ListOk;
      CloseUpvalues(stackTopIndex - 1);
      stackTopIndex := stackTopIndex - 1;
    }

    /** Returning: the frame's slots go, its captured variables stay, and the result is pushed. */
    method OpReturn(stackEntryIndex: nat)
      requires Valid() && stackEntryIndex < stackTopIndex
      modifies this, stackSlices, cells, open, closedCells
      ensures Valid() && old(cells) <= cells
      ensures vars == old(vars)[..stackEntryIndex] + [|old(store)|]
      ensures store == old(store) + [old(store)[old(vars)[|old(vars)| - 1]]]
      ensures upvalues == old(upvalues) && closedCells == old(closedCells) && varOf == old(varOf)
      ensures forall u :: u in open <==> u in old(open) && u.stackOffset < stackEntryIndex
      ensures forall c :: c in cells ==> c in old(cells) || fresh(c)
      ensures stackSlices == old(stackSlices) || fresh(stackSlices)
    {
      hide SlicesOk, SlotsOk, UpvaluesOk, ListOk;
      SlotVar(stackTopIndex - 1);
      var result := Peek(0);
      stackTopIndex := stackTopIndex - 1;
      CloseUpvalues(stackEntryIndex);
      stackTopIndex := stackEntryIndex;
      Push(result);
    }
  }
}
