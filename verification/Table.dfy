/** The open-addressing hash table keyed by interned strings (cyarg/table.c). */
module Table {
  import opened Objects

  datatype Entry = Entry(key: Obj?, value: Value) {
    predicate Empty() {
      key == null && value == Nil
    }

    predicate Tombstone() {
      key == null && value != Nil
    }
  }

  datatype Option<T> = None | Some(value: T)

  // ---- probe sequences ----

  /** The slot `j` steps after `home`, wrapping around. */
  function Slot(home: nat, j: nat, capacity: nat): (s: nat)
    requires home < capacity && j < capacity
    ensures s < capacity
  {
    if home + j < capacity then home + j else home + j - capacity
  }

  /** How many steps after `home` slot `i` comes. */
  function Dist(home: nat, i: nat, capacity: nat): (j: nat)
    requires home < capacity && i < capacity
    ensures j < capacity && Slot(home, j, capacity) == i
    ensures forall k :: 0 <= k < capacity && Slot(home, k, capacity) == i ==> k == j
  {
    if home <= i then i - home else i + capacity - home
  }

  /** `hash & (capacity - 1)`, the capacity being a power of two. */
  function Home(key: Obj, capacity: nat): (h: nat)
    requires 0 < capacity
    ensures h < capacity
  {
    key.hash % capacity
  }

  /** No empty slot lies on the probe path from `home` to slot `i`. */
  ghost predicate PathFull(es: seq<Entry>, home: nat, i: nat)
    requires home < |es| && i < |es|
  {
    forall j :: 0 <= j < Dist(home, i, |es|) ==> !es[Slot(home, j, |es|)].Empty()
  }

  /** Every key can be found: nothing on its probe path stops the search early. */
  ghost predicate Probing(es: seq<Entry>) {
    forall i {:trigger es[i]} :: 0 <= i < |es| && es[i].key != null ==> PathFull(es, Home(es[i].key, |es|), i)
  }

  ghost predicate Unique(es: seq<Entry>) {
    forall i, j :: 0 <= i < |es| && 0 <= j < |es| && es[i].key != null && es[i].key == es[j].key ==> i == j
  }

  /** The entries represent the map. */
  ghost predicate Represents(es: seq<Entry>, m: map<Obj, Value>) {
    && (forall i :: 0 <= i < |es| && es[i].key != null ==> es[i].key in m && m[es[i].key] == es[i].value)
    && (forall k :: k in m ==> exists i :: 0 <= i < |es| && es[i].key == k)
  }

  /** The value in a tombstone is `true`. */
  ghost predicate TombstonesMarked(es: seq<Entry>) {
    forall i :: 0 <= i < |es| && es[i].key == null ==> es[i].value == Nil || es[i].value == Bool(true)
  }

  /** Live keys and tombstones. */
  function Used(es: seq<Entry>): (n: nat) {
    if |es| == 0 then 0 else Used(es[..|es| - 1]) + if es[|es| - 1].Empty() then 0 else 1
  }

  lemma {:induction false} UsedBound(es: seq<Entry>)
    ensures Used(es) <= |es|
    ensures Used(es) < |es| ==> exists i :: 0 <= i < |es| && es[i].Empty()
    ensures (forall i :: 0 <= i < |es| ==> es[i].Empty()) <==> Used(es) == 0
  {
    if |es| > 0 {
      var n := |es| - 1;
      UsedBound(es[..n]);
      if Used(es[..n]) < n {
        var i :| 0 <= i < n && es[..n][i].Empty();
        assert es[i].Empty();
      }
      assert forall i :: 0 <= i < n ==> es[..n][i] == es[i];
    }
  }

  lemma {:induction false} UsedUpdate(es: seq<Entry>, i: nat, e: Entry)
    requires i < |es|
    ensures Used(es[i := e]) == Used(es) - (if es[i].Empty() then 0 else 1) + if e.Empty() then 0 else 1
  {
    var n := |es| - 1;
    if i == n {
      assert es[i := e][..n] == es[..n];
    } else {
      UsedUpdate(es[..n], i, e);
      assert es[i := e][..n] == es[..n][i := e];
    }
  }

  // ---- the shape of a table, and how the operations keep it ----

  ghost predicate Shape(es: seq<Entry>, m: map<Obj, Value>) {
    Probing(es) && Unique(es) && Represents(es, m) && TombstonesMarked(es)
  }

  /** Where `findEntry` may put a key that is not there. */
  ghost predicate FreeSlot(es: seq<Entry>, key: Obj, i: nat) {
    i < |es| && es[i].key == null && PathFull(es, Home(key, |es|), i)
  }

  lemma InsertShape(es: seq<Entry>, m: map<Obj, Value>, key: Obj, i: nat, v: Value)
    requires Shape(es, m)
    requires i < |es| && (es[i].key == key || (key !in m && FreeSlot(es, key, i)))
    ensures Shape(es[i := Entry(key, v)], m[key := v])
  {
    var es', m' := es[i := Entry(key, v)], m[key := v];
    forall k | 0 <= k < |es'| && es'[k].key != null
      ensures PathFull(es', Home(es'[k].key, |es|), k)
    {
      assert PathFull(es, Home(es'[k].key, |es|), k);
    }
    forall k | k in m'
      ensures exists j :: 0 <= j < |es'| && es'[j].key == k
    {
      if k == key {
        assert es'[i].key == k;
      } else {
        var j :| 0 <= j < |es| && es[j].key == k;
        assert es'[j].key == k;
      }
    }
  }

  /** A tombstone keeps every other key findable. */
  lemma DeleteShape(es: seq<Entry>, m: map<Obj, Value>, key: Obj, i: nat)
    requires Shape(es, m)
    requires i < |es| && es[i].key == key
    ensures Shape(es[i := Entry(null, Bool(true))], m - {key})
  {
    var es', m' := es[i := Entry(null, Bool(true))], m - {key};
    forall k | 0 <= k < |es'| && es'[k].key != null
      ensures PathFull(es', Home(es'[k].key, |es|), k)
    {
      assert PathFull(es, Home(es[k].key, |es|), k);
    }
    forall k | k in m'
      ensures exists j :: 0 <= j < |es'| && es'[j].key == k
    {
      var j :| 0 <= j < |es| && es[j].key == k;
      assert es'[j].key == k;
    }
  }

  /** A search that reaches an empty slot has seen everywhere the key could be. */
  lemma Absent(es: seq<Entry>, m: map<Obj, Value>, key: Obj, j: nat)
    requires Shape(es, m) && j < |es|
    requires es[Slot(Home(key, |es|), j, |es|)].Empty()
    requires forall t :: 0 <= t < j ==> es[Slot(Home(key, |es|), t, |es|)].key != key
    ensures key !in m
  {
  }

  /** A probe that has gone all the way round has seen every slot. */
  lemma AllSeen(es: seq<Entry>, home: nat)
    requires home < |es|
    requires forall t :: 0 <= t < |es| ==> !es[Slot(home, t, |es|)].Empty()
    ensures forall i :: 0 <= i < |es| ==> !es[i].Empty()
  {
    forall i | 0 <= i < |es|
      ensures !es[i].Empty()
    {
      assert Slot(home, Dist(home, i, |es|), |es|) == i;
    }
  }

  /** `findEntry`: the slot of the key, or where to put it: the first tombstone on the way, or
      the empty slot that ends the search. */
  method FindEntry(entries: array<Entry>, key: Obj, ghost m: map<Obj, Value>) returns (index: nat)
    requires 0 < entries.Length && Shape(entries[..], m) && Used(entries[..]) < entries.Length
    ensures index < entries.Length
    ensures key in m ==> entries[index].key == key && entries[index].value == m[key]
    ensures key !in m ==> FreeSlot(entries[..], key, index)
  {
    hide Used, Home, Probing;
    ghost var es := entries[..];
    UsedBound(es);
    var capacity := entries.Length;
    var home := Home(key, capacity);
    index := home;
    var tombstone: Option<nat> := None;
    ghost var j := 0;
    ghost var tj := 0;
    while true
      invariant 0 <= j < capacity && index == Slot(home, j, capacity)
      invariant forall t :: 0 <= t < j ==> !es[Slot(home, t, capacity)].Empty() && es[Slot(home, t, capacity)].key != key
      invariant tombstone.Some? ==>
                  && 0 <= tj < j && tombstone.value == Slot(home, tj, capacity)
                  && es[tombstone.value].Tombstone()
      decreases capacity - j
    {
      var entry := entries[index];
      if entry.key == null {
        if entry.value == Nil {
          Absent(es, m, key, j);
          if tombstone.Some? {
            index := tombstone.value;
            assert Dist(home, index, capacity) == tj;
          } else {
            assert Dist(home, index, capacity) == j;
          }
          return;
        } else {
          if tombstone == None {
            tombstone := Some(index);
            tj := j;
          }
        }
      } else if entry.key == key {
        return;
      }
      if j + 1 == capacity {
        AllSeen(es, home);
        assert false;
      }
      index := if index + 1 == capacity then 0 else index + 1;    // (index + 1) & (capacity - 1)
      j := j + 1;
    }
  }

  lemma NothingStored(es: seq<Entry>, m: map<Obj, Value>)
    requires Shape(es, m) && Used(es) == 0
    ensures m == map[]
  {
    UsedBound(es);
  }

  lemma EmptyShape(es: seq<Entry>)
    requires forall i :: 0 <= i < |es| ==> es[i].Empty()
    ensures Shape(es, map[]) && Used(es) == 0
  {
    UsedBound(es);
  }

  lemma UsedStep(es: seq<Entry>, i: nat)
    requires i < |es|
    ensures Used(es[..i + 1]) == Used(es[..i]) + if es[i].Empty() then 0 else 1
    ensures Used(es[..i]) <= i
  {
    assert es[..i + 1][..i] == es[..i];
    UsedBound(es[..i]);
  }

  function Tombstones(es: seq<Entry>): nat {
    if |es| == 0 then 0 else Tombstones(es[..|es| - 1]) + if es[|es| - 1].Tombstone() then 1 else 0
  }

  function LiveEntries(es: seq<Entry>): nat {
    if |es| == 0 then 0 else LiveEntries(es[..|es| - 1]) + if es[|es| - 1].key != null then 1 else 0
  }

  ghost function Keys(es: seq<Entry>): set<Obj> {
    set i | 0 <= i < |es| && es[i].key != null :: es[i].key
  }

  lemma {:induction false} CountsByKind(es: seq<Entry>)
    requires Unique(es)
    ensures LiveEntries(es) == |Keys(es)| && Used(es) == LiveEntries(es) + Tombstones(es)
  {
    if |es| > 0 {
      var n := |es| - 1;
      var es', key := es[..n], es[n].key;
      CountsByKind(es');
      assert forall i :: 0 <= i < n ==> es'[i] == es[i];
      if key != null {
        assert key !in Keys(es');
        assert Keys(es) == Keys(es') + {key};
      } else {
        assert Keys(es) == Keys(es');
      }
    }
  }

  /** The count of a table is that of its keys and of the tombstones that deleted ones left. */
  lemma CountsKeysAndTombstones(es: seq<Entry>, m: map<Obj, Value>)
    requires Shape(es, m)
    ensures LiveEntries(es) == |m|
    ensures Used(es) == |m| + Tombstones(es)
  {
    hide Probing, Used, LiveEntries, Tombstones;
    CountsByKind(es);
    assert Keys(es) == m.Keys;
  }

  lemma KindStep(es: seq<Entry>, i: nat)
    requires i < |es|
    ensures LiveEntries(es[..i + 1]) == LiveEntries(es[..i]) + if es[i].key != null then 1 else 0
    ensures Tombstones(es[..i + 1]) == Tombstones(es[..i]) + if es[i].Tombstone() then 1 else 0
  {
    assert es[..i + 1][..i] == es[..i];
  }

  /** Keys are stored once, with their value. */
  lemma StoredOnce(es: seq<Entry>, m: map<Obj, Value>)
    requires Shape(es, m)
    ensures forall i :: 0 <= i < |es| && es[i].key != null ==> es[i].key in m && m[es[i].key] == es[i].value
    ensures forall i, j :: 0 <= i < j < |es| && es[i].key != null ==> es[i].key != es[j].key
    ensures forall k :: k in m ==> exists i :: 0 <= i < |es| && es[i].key == k
  {
  }

  lemma OnlyTrue(es: seq<Entry>, m: map<Obj, Value>, i: nat)
    requires Shape(es, m) && i < |es|
    ensures es[i].Tombstone() <==> es[i].key == null && es[i].value == Bool(true)
  {
  }

  lemma CountedNothing(es: seq<Entry>)
    requires es == []
    ensures LiveEntries(es) == Tombstones(es) == Used(es) == 0
  {
  }

  // ---- the table ----

  ghost predicate PowerOfTwo(n: nat) {
    n == 1 || (1 < n && n % 2 == 0 && PowerOfTwo(n / 2))
  }

  function GrowCapacity(capacity: nat): nat {
    if capacity < 8 then 8 else capacity * 2
  }

  class ValueTable {
    var count: nat
    var capacity: nat
    var entries: array<Entry>
    ghost var M: map<Obj, Value>     // what the table means

    /** `tableInvariant`, the load bound, and that the entries represent `M`. */
    ghost predicate Valid()
      reads this, entries
    {
      && capacity == entries.Length
      && count == Used(entries[..])
      && 4 * count <= 3 * capacity
      && (capacity == 0 || (8 <= capacity && PowerOfTwo(capacity)))
      && Shape(entries[..], M)
    }

    /** `initTable` */
    constructor ()
      ensures Valid() && M == map[] && fresh(entries)
    {
      count, capacity := 0, 0;
      entries := new Entry[0];
      M := map[];
    }

    /** `tableInvariant`: the count, taken again.  It is that of the keys and tombstones. */
    method TableInvariant() returns (ok: bool)
      requires Valid()
      ensures ok && count == |M| + Tombstones(entries[..])
    {
      hide Used, Shape, PowerOfTwo, LiveEntries, Tombstones;
      ghost var es := entries[..];
      CountsKeysAndTombstones(es, M);
      if capacity == 0 {
        CountedNothing(es[..0]);
        assert es == es[..0];
        return count == 0;
      }
      var actualCount, tombCount := 0, 0;
      var i := 0;
      CountedNothing(es[..0]);
      while i < capacity
        invariant 0 <= i <= capacity
        invariant actualCount == LiveEntries(es[..i]) && tombCount == Tombstones(es[..i])
      {
        KindStep(es, i);
        OnlyTrue(es, M, i);
        if entries[i].key != null {
          actualCount := actualCount + 1;
        }
        if entries[i].key == null && entries[i].value == Bool(true) {
          tombCount := tombCount + 1;
        }
        i := i + 1;
      }
      assert es[..capacity] == es;
      ok := actualCount + tombCount == count;
    }

    /** `tableGet` */
    method Get(key: Obj) returns (found: bool, value: Value)
      requires Valid()
      ensures found <==> key in M
      ensures found ==> value == M[key]
    {
      hide Used, Probing, Unique;
      value := Nil;
      if count == 0 {
        NothingStored(entries[..], M);
        return false, value;
      }
      var i := FindEntry(entries, key, M);
      if entries[i].key == null {
        return false, value;
      }
      return true, entries[i].value;
    }

    /** `tableSet` */
    method Set(key: Obj, value: Value) returns (isNewKey: bool)
      requires Valid()
      modifies this, entries
      ensures Valid() && (entries == old(entries) || fresh(entries))
      ensures M == old(M)[key := value]
      ensures isNewKey <==> key !in old(M)
    {
      hide Used, Shape, PowerOfTwo;
      if 4 * (count + 1) > 3 * capacity {
        AdjustCapacity(GrowCapacity(capacity));
      }
      var i := FindEntry(entries, key, M);
      ghost var es := entries[..];
      isNewKey := entries[i].key == null;
      UsedUpdate(es, i, Entry(key, value));
      InsertShape(es, M, key, i, value);
      if isNewKey && entries[i].value == Nil {
        count := count + 1;
      }
      entries[i] := Entry(key, value);
      M := M[key := value];
      assert entries[..] == es[i := Entry(key, value)];
    }

    /** `tableDelete` */
    method Delete(key: Obj) returns (deleted: bool)
      requires Valid()
      modifies this, entries
      ensures Valid() && entries == old(entries) && count == old(count) && capacity == old(capacity)
      ensures M == old(M) - {key}
      ensures deleted <==> key in old(M)
      ensures forall i :: 0 <= i < capacity ==>
                entries[i] == if old(entries[i].key) == key then Entry(null, Bool(true)) else old(entries[i])
    {
      hide Used, PowerOfTwo, Probing;
      if count == 0 {
        NothingStored(entries[..], M);
        return false;
      }
      var i := FindEntry(entries, key, M);
      if entries[i].key == null {
        return false;
      }
      ghost var es := entries[..];
      DeleteShape(es, M, key, i);
      UsedUpdate(es, i, Entry(null, Bool(true)));
      entries[i] := Entry(null, Bool(true));
      M := M - {key};
      assert entries[..] == es[i := Entry(null, Bool(true))];
      return true;
    }

    /** A live key goes into the larger array, which has no tombstones. */
    method Reinsert(larger: array<Entry>, key: Obj, value: Value, ghost done: map<Obj, Value>)
      requires Shape(larger[..], done) && key !in done && Used(larger[..]) < larger.Length
      requires forall t :: 0 <= t < larger.Length && larger[t].key == null ==> larger[t].value == Nil
      modifies larger
      ensures Shape(larger[..], done[key := value]) && Used(larger[..]) == old(Used(larger[..])) + 1
      ensures forall t :: 0 <= t < larger.Length && larger[t].key == null ==> larger[t].value == Nil
    {
      hide Used, Shape;
      ghost var ls := larger[..];
      var dest := FindEntry(larger, key, done);
      UsedUpdate(ls, dest, Entry(key, value));
      InsertShape(ls, done, key, dest, value);
      larger[dest] := Entry(key, value);
      assert larger[..] == ls[dest := Entry(key, value)];
    }

    /** `adjustCapacity`: rehash the live keys into a larger array; tombstones are dropped. */
    method AdjustCapacity(newCapacity: nat)
      requires Valid() && newCapacity == GrowCapacity(capacity)
      modifies this, entries
      ensures Valid() && M == old(M) && fresh(entries)
      ensures 4 * (count + 1) <= 3 * capacity
    {
      hide Used, Shape, PowerOfTwo;
      var larger := new Entry[newCapacity](_ => Entry(null, Nil));
      ghost var es := entries[..];
      ghost var done: map<Obj, Value> := map[];
      EmptyShape(larger[..]);
      StoredOnce(es, M);
      count := 0;
      var i := 0;
      assert es[..0] == [];
      EmptyShape(es[..0]);
      while i < capacity
        invariant 0 <= i <= capacity == entries.Length && fresh(larger) && entries[..] == es
        invariant M == old(M) && capacity == old(capacity) && entries == old(entries)
        invariant Shape(larger[..], done) && count == Used(larger[..]) <= Used(es[..i])
        invariant forall t :: 0 <= t < newCapacity && larger[t].key == null ==> larger[t].value == Nil
        invariant forall k :: k in done ==> k in M && done[k] == M[k]
        invariant forall t :: 0 <= t < i && es[t].key != null ==> es[t].key in done
        invariant forall t :: i <= t < |es| && es[t].key != null ==> es[t].key !in done
      {
        UsedStep(es, i);
        var entry := entries[i];
        if entry.key != null {
          Reinsert(larger, entry.key, entry.value, done);
          done := done[entry.key := entry.value];
          count := count + 1;
        }
        i := i + 1;
      }
      assert es[..capacity] == es;
      assert done == M;
      PowerDoubles(capacity);
      entries := larger;
      capacity := newCapacity;
    }

    /** `tableAddAll` */
    method AddAll(from: ValueTable)
      requires Valid() && from.Valid() && from != this && from.entries != entries
      modifies this, entries
      ensures Valid() && M == old(M) + from.M
      ensures from.Valid() && from.M == old(from.M)
    {
      hide Used, Shape, PowerOfTwo;
      StoredOnce(from.entries[..], from.M);
      ghost var added: map<Obj, Value> := map[];
      var i := 0;
      while i < from.capacity
        invariant 0 <= i <= from.capacity && Valid() && (entries == old(entries) || fresh(entries))
        invariant M == old(M) + added
        invariant forall k :: k in added ==> k in from.M && added[k] == from.M[k]
        invariant forall t :: 0 <= t < i && from.entries[t].key != null ==> from.entries[t].key in added
      {
        var entry := from.entries[i];
        if entry.key != null {
          var _ := Set(entry.key, entry.value);
          added := added[entry.key := entry.value];
        }
        i := i + 1;
      }
      assert added == from.M;
    }

    /** `tableFindString`: the probe compares contents, not addresses. */
    method FindString(chars: seq<bv8>, hash: nat) returns (r: Obj?)
      requires Valid()
      requires forall k :: k in M && k.chars == chars ==> k.hash == hash
      ensures r != null ==> r in M && r.chars == chars
      ensures r == null ==> forall k :: k in M ==> k.chars != chars
    {
      hide Used, PowerOfTwo, Shape;
      ghost var es := entries[..];
      if count == 0 {
        NothingStored(es, M);
        return null;
      }
      UsedBound(es);
      StoredOnce(es, M);
      var home := hash % capacity;
      var index := home;
      ghost var j := 0;
      while true
        invariant 0 <= j < capacity && index == Slot(home, j, capacity)
        invariant forall t :: 0 <= t < j ==> !es[Slot(home, t, capacity)].Empty()
        invariant forall t :: 0 <= t < j ==> !Matches(es[Slot(home, t, capacity)], chars)
        decreases capacity - j
      {
        var entry := entries[index];
        if entry.key == null {
          if entry.value == Nil {
            NoMatch(es, M, chars, hash, j);
            return null;
          }
        } else if |entry.key.chars| == |chars| && entry.key.hash == hash && entry.key.chars == chars {
          return entry.key;
        }
        if j + 1 == capacity {
          AllSeen(es, home);
          assert false;
        }
        index := if index + 1 == capacity then 0 else index + 1;
        j := j + 1;
      }
    }

    /** `tableRemoveWhite`: drops exactly the unmarked keys. */
    method RemoveWhite()
      requires Valid()
      modifies this, entries
      ensures Valid() && entries == old(entries)
      ensures M == map k | k in old(M) && k.isMarked :: old(M)[k]
    {
      hide Used, PowerOfTwo, Shape;
      var i := 0;
      while i < capacity
        invariant 0 <= i <= capacity == entries.Length && Valid() && entries == old(entries) && capacity == old(capacity)
        invariant M.Keys <= old(M).Keys && forall k :: k in M ==> M[k] == old(M)[k]
        invariant forall k :: k in old(M) && k.isMarked ==> k in M
        invariant forall t :: 0 <= t < i && entries[t].key != null ==> entries[t].key.isMarked
      {
        StoredOnce(entries[..], M);
        var key := entries[i].key;
        if key != null && !key.isMarked {
          var _ := Delete(key);
        }
        i := i + 1;
      }
      StoredOnce(entries[..], M);
    }
  }

  predicate Matches(e: Entry, chars: seq<bv8>) {
    e.key != null && e.key.chars == chars
  }

  /** A probe by contents that reaches an empty slot has seen every string with those contents. */
  lemma NoMatch(es: seq<Entry>, m: map<Obj, Value>, chars: seq<bv8>, hash: nat, j: nat)
    requires Shape(es, m) && j < |es|
    requires forall k :: k in m && k.chars == chars ==> k.hash == hash
    requires es[Slot(hash % |es|, j, |es|)].Empty()
    requires forall t :: 0 <= t < j ==> !Matches(es[Slot(hash % |es|, t, |es|)], chars)
    ensures forall k :: k in m ==> k.chars != chars
  {
    hide Shape;
    forall k | k in m && k.hash == hash
      ensures k.chars != chars
    {
      if forall t :: 0 <= t < j ==> es[Slot(hash % |es|, t, |es|)].key != k {
        Absent(es, m, k, j);
      }
    }
  }

  lemma PowerDoubles(n: nat)
    ensures PowerOfTwo(8) && (PowerOfTwo(n) ==> PowerOfTwo(2 * n))
  {
    assert PowerOfTwo(1) && PowerOfTwo(2) && PowerOfTwo(4);
  }
}
