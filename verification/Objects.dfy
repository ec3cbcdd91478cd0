/** Heap objects: what each kind of them holds, and which other objects that makes it refer to. */
module Objects {

  /** A heap object: its place in the list of all objects, its mark, what it holds, and, for a string,
      its contents and their hash. */
  class Obj {
    const isString: bool
    const chars: seq<bv8>
    const hash: nat
    var isMarked: bool
    var next: Obj?
    var body: Body

    /** `allocateObject`, at the front of the list that starts with `next`. */
    constructor (isString: bool, chars: seq<bv8>, hash: nat, next: Obj?)
      ensures this.isString == isString && this.chars == chars && this.hash == hash
      ensures !isMarked && this.next == next && body == Leaf
    {
      this.isString, this.chars, this.hash, this.next := isString, chars, hash, next;
      isMarked, body := false, Leaf;
    }
  }

  datatype Value = Nil | Bool(b: bool) | Num(n: int) | Ref(o: Obj)

  /** A value with the object that is its type. */
  datatype Typed = Typed(value: Value, kind: Obj?)

  datatype Cell = Cell(content: Typed, cellType: Obj?)

  /** An entry of a table inside an object; without a key it is free or a tombstone. */
  datatype Pair = Pair(key: Obj?, value: Typed)

  datatype ObjArray = ObjArray(stash: Obj?, objects: seq<Obj?>)

  /** What an object holds, by kind.  `Tree` stands for the syntax trees, types and packed storage. */
  datatype Body =
    | Leaf                                            // strings, integers, native functions, stack slices
    | BoundMethod(receiver: Typed, bound: Obj?)
    | Class(className: Obj?, methods: seq<Pair>)
    | Closure(callee: Obj?, upvalues: seq<Obj?>)
    | Function(functionName: Obj?, constants: seq<Typed>, constantStash: Typed)
    | Instance(klass: Obj?, fields: seq<Pair>)
    | Upvalue(closed: Cell)
    | Routine(stack: seq<Cell>, frames: seq<Obj?>, openUpvalues: seq<Obj?>, slices: ObjArray, errors: ObjArray,
              entryFunction: Obj?, entryArg: Typed, result: Typed, error: Typed)
    | Channel(buffer: seq<Typed>, readCursor: nat, occupied: nat)
    | SyncGroup(channels: Typed, results: Typed)
    | Map(mapType: Obj?, entries: seq<Pair>)
    | Tree(parts: seq<Obj?>)

  // ---- what an object refers to ----

  function Refs(xs: seq<Obj?>): set<Obj> {
    set x: Obj | x in xs
  }

  function TypedRefs(v: Typed): set<Obj> {
    Refs([if v.value.Ref? then v.value.o else null, v.kind])
  }

  function CellRefs(c: Cell): set<Obj> {
    TypedRefs(c.content) + Refs([c.cellType])
  }

  function ArrayRefs(a: ObjArray): set<Obj> {
    Refs([a.stash]) + Refs(a.objects)
  }

  function AllTyped(vs: seq<Typed>): set<Obj> {
    set i, o | 0 <= i < |vs| && o in TypedRefs(vs[i]) :: o
  }

  function AllCells(cs: seq<Cell>): set<Obj> {
    set i, o | 0 <= i < |cs| && o in CellRefs(cs[i]) :: o
  }

  function PairRefs(p: Pair): set<Obj> {
    if p.key == null then {} else {p.key} + TypedRefs(p.value)
  }

  function AllPairs(ps: seq<Pair>): set<Obj> {
    set i, o | 0 <= i < |ps| && o in PairRefs(ps[i]) :: o
  }

  /** The values that a channel holds, oldest first. */
  function Held(buffer: seq<Typed>, readCursor: nat, occupied: nat): (s: seq<Typed>)
    ensures buffer != [] ==> |s| == occupied
  {
    if buffer == [] then []
    else seq(occupied, k requires 0 <= k < occupied && buffer != [] => buffer[(readCursor + k) % |buffer|])
  }

  /** A routine's slots, frames and open upvalues. */
  function StackRefs(b: Body): set<Obj>
    requires b.Routine?
  {
    AllCells(b.stack) + Refs(b.frames) + Refs(b.openUpvalues)
  }

  /** What a routine starts from and ends with. */
  function EntryRefs(b: Body): set<Obj>
    requires b.Routine?
  {
    Refs([b.entryFunction]) + TypedRefs(b.entryArg) + TypedRefs(b.result) + TypedRefs(b.error)
  }

  /** Every object in a field of a body. */
  function References(b: Body): set<Obj> {
    match b
    case Leaf => {}
    case BoundMethod(receiver, bound) => TypedRefs(receiver) + Refs([bound])
    case Class(name, methods) => Refs([name]) + AllPairs(methods)
    case Closure(callee, upvalues) => Refs([callee]) + Refs(upvalues)
    case Function(name, constants, stash) => Refs([name]) + AllTyped(constants) + TypedRefs(stash)
    case Instance(klass, fields) => Refs([klass]) + AllPairs(fields)
    case Upvalue(closed) => CellRefs(closed)
    case Routine(_, _, _, slices, errors, _, _, _, _) => StackRefs(b) + ArrayRefs(slices) + ArrayRefs(errors) + EntryRefs(b)
    case Channel(buffer, readCursor, occupied) => AllTyped(Held(buffer, readCursor, occupied))
    case SyncGroup(channels, results) => TypedRefs(channels) + TypedRefs(results)
    case Map(mapType, entries) => Refs([mapType]) + AllPairs(entries)
    case Tree(parts) => Refs(parts)
  }
}
