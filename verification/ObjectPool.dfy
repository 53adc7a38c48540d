/** The pool of objects of a slot as a value: a growing table of slots with a hint of
    where the first free one may be. */
module PoolTable {
  import opened Common

  const POOL_ALLOC_SIZE: nat := 32
  const POOL_MAX_SIZE: nat := 32 * 65536

  datatype Table<T> = Table(slots: seq<Option<T>>, num: int, firstFree: int)

  function Occupied<T>(s: seq<Option<T>>): nat {
    if s == [] then 0 else Occupied(s[..|s| - 1]) + if s[|s| - 1].Some? then 1 else 0
  }

  /** The lowest free index, or the size. */
  function LowestFree<T>(s: seq<Option<T>>): (n: nat)
    ensures n <= |s|
    ensures forall i :: 0 <= i < n ==> s[i].Some?
    ensures n < |s| ==> s[n].None?
  {
    if s == [] || s[0].None? then 0 else 1 + LowestFree(s[1..])
  }

  ghost predicate Consistent<T>(t: Table<T>) {
    && t.num == Occupied(t.slots)
    && 0 <= t.firstFree <= |t.slots|
    && forall i :: 0 <= i < t.firstFree ==> t.slots[i].Some?
  }

  // ----- counting

  lemma {:induction false} OccupiedBound<T>(s: seq<Option<T>>)
    ensures Occupied(s) <= |s|
    ensures Occupied(s) == |s| <==> forall i :: 0 <= i < |s| ==> s[i].Some?
    ensures Occupied(s) == 0 <==> forall i :: 0 <= i < |s| ==> s[i].None?
  {
    if s != [] { OccupiedBound(s[..|s| - 1]); }
  }

  lemma {:induction false} OccupiedConcat<T>(s: seq<Option<T>>, t: seq<Option<T>>)
    ensures Occupied(s + t) == Occupied(s) + Occupied(t)
  {
    if t == [] {
      assert s + t == s;
    } else {
      assert (s + t)[..|s + t| - 1] == s + t[..|t| - 1];
      OccupiedConcat(s, t[..|t| - 1]);
    }
  }

  lemma OccupiedUpdate<T>(s: seq<Option<T>>, i: nat, v: Option<T>)
    requires i < |s|
    ensures Occupied(s[i := v]) == Occupied(s) + (if v.Some? then 1 else 0) - (if s[i].Some? then 1 else 0)
  {
    assert s == s[..i] + [s[i]] + s[i + 1..];
    assert s[i := v] == s[..i] + [v] + s[i + 1..];
    OccupiedConcat(s[..i] + [s[i]], s[i + 1..]);
    OccupiedConcat(s[..i], [s[i]]);
    OccupiedConcat(s[..i] + [v], s[i + 1..]);
    OccupiedConcat(s[..i], [v]);
    assert [v][..0] == [] && [s[i]][..0] == [];
  }

  /** There are at least as many occupied slots as lie below the lowest free one. */
  lemma LowestFreeBound<T>(s: seq<Option<T>>)
    ensures LowestFree(s) <= Occupied(s)
    ensures Occupied(s) < |s| ==> LowestFree(s) < |s|
  {
    var n := LowestFree(s);
    assert s == s[..n] + s[n..];
    OccupiedConcat(s[..n], s[n..]);
    OccupiedBound(s[..n]);
    OccupiedBound(s);
  }

  // ----- adding and removing

  function Grown<T>(t: Table<T>): Table<T> {
    if t.num >= |t.slots| then t.(slots := t.slots + seq(POOL_ALLOC_SIZE, _ => None)) else t
  }

  /** First fit: the lowest free slot of the table, grown if it was full. */
  function Added<T>(t: Table<T>, x: T): (Table<T>, nat) {
    var g := Grown(t);
    var i := LowestFree(g.slots);
    if i < |g.slots| then (Table(g.slots[i := Some(x)], t.num + 1, i + 1), i) else (g, i)
  }

  function Removed<T>(t: Table<T>, i: nat): Table<T> {
    if i < |t.slots| && t.slots[i].Some?
    then Table(t.slots[i := None], t.num - 1, if t.firstFree > i then i else t.firstFree)
    else t
  }

  lemma GrownConsistent<T>(t: Table<T>)
    requires Consistent(t)
    ensures Consistent(Grown(t)) && Grown(t).num < |Grown(t).slots|
    ensures t.num <= |t.slots|
    ensures t.num >= |t.slots| ==> LowestFree(Grown(t).slots) == |t.slots| == t.num
  {
    var empty: seq<Option<T>> := seq(POOL_ALLOC_SIZE, _ => None);
    OccupiedConcat(t.slots, empty);
    OccupiedBound(empty);
    OccupiedBound(t.slots);
    if t.num >= |t.slots| {
      var g := t.slots + empty;
      assert g[|t.slots|].None?;
      assert forall i :: 0 <= i < |t.slots| ==> g[i].Some?;
    }
  }

  /** Adding keeps the table consistent, always finds a slot, and takes the lowest free
      index, which is at most the number of objects already there. */
  lemma AddedConsistent<T>(t: Table<T>, x: T)
    requires Consistent(t)
    ensures var (a, i) := Added(t, x);
      && Consistent(a) && i < |a.slots| && a.slots[i] == Some(x) && a.num == t.num + 1
      && i <= t.num
      && (i < |t.slots| ==> t.slots[i].None?)
      && (forall j :: 0 <= j < i ==> j < |t.slots| && a.slots[j] == t.slots[j] && t.slots[j].Some?)
  {
    var g := Grown(t);
    GrownConsistent(t);
    LowestFreeBound(g.slots);
    OccupiedUpdate(g.slots, LowestFree(g.slots), Some(x));
  }

  /** Nothing else changes: a full table grows by 32 free slots, and every object stays. */
  lemma AddedElsewhere<T>(t: Table<T>, x: T)
    requires Consistent(t)
    ensures var (a, i) := Added(t, x);
      && |a.slots| == (if t.num >= |t.slots| then |t.slots| + 32 else |t.slots|)
      && (forall j :: 0 <= j < |a.slots| && j != i ==> a.slots[j] == if j < |t.slots| then t.slots[j] else None)
  {
  }

  /** Removing empties the one slot, if there is an object in it, and the hint is the lower of
      the old one and this slot. */
  lemma RemovedConsistent<T>(t: Table<T>, i: nat)
    requires Consistent(t)
    ensures var r := Removed(t, i);
      && Consistent(r) && |r.slots| == |t.slots|
      && (forall j :: 0 <= j < |t.slots| ==> r.slots[j] == if j == i then None else t.slots[j])
      && (i < |t.slots| && t.slots[i].Some? ==>
            r.num == t.num - 1 && r.firstFree == if i < t.firstFree then i else t.firstFree)
      && (i >= |t.slots| || t.slots[i].None? ==> r == t)
  {
    if i < |t.slots| && t.slots[i].Some? { OccupiedUpdate(t.slots, i, None); }
  }

  // ----- runs

  datatype Change<T> = Add(x: T) | Remove(i: nat)

  /** A run with the peak occupancy so far and the indices assigned. */
  datatype History<T> = History(table: Table<T>, peak: nat, indices: seq<nat>)

  function Next<T>(h: History<T>, c: Change<T>): History<T> {
    match c
    case Add(x) =>
      var (a, i) := Added(h.table, x);
      History(a, if a.num > h.peak then a.num else h.peak, h.indices + [i])
    case Remove(i) => h.(table := Removed(h.table, i))
  }

  function Replay<T>(cs: seq<Change<T>>): History<T> {
    if cs == [] then History(Table([], 0, 0), 0, []) else Next(Replay(cs[..|cs| - 1]), cs[|cs| - 1])
  }

  function RoundUp(n: nat): nat { (n + POOL_ALLOC_SIZE - 1) / POOL_ALLOC_SIZE * POOL_ALLOC_SIZE }

  ghost predicate Bounded<T>(h: History<T>) {
    && Consistent(h.table)
    && h.table.num <= h.peak
    && |h.table.slots| == RoundUp(h.peak)
    && (forall k :: 0 <= k < |h.indices| ==> h.indices[k] < h.peak)
    && (forall i :: h.peak <= i < |h.table.slots| ==> h.table.slots[i].None?)
  }

  lemma AddBounded<T>(h: History<T>, x: T)
    requires Bounded(h)
    ensures Bounded(Next(h, Add(x)))
  {
    AddedConsistent(h.table, x);
    GrownConsistent(h.table);
    OccupiedBound(h.table.slots);
    var n := Next(h, Add(x));
    if h.table.num >= |h.table.slots| {
      assert h.table.num == |h.table.slots| == h.peak by { RoundUpAtLeast(h.peak); }
      RoundUpStep(h.peak);
    } else {
      RoundUpSame(h.table.num, h.peak);
    }
  }

  lemma RoundUpAtLeast(n: nat)
    ensures n <= RoundUp(n) < n + POOL_ALLOC_SIZE
  {
  }

  lemma RoundUpStep(n: nat)
    requires RoundUp(n) == n
    ensures RoundUp(n + 1) == n + POOL_ALLOC_SIZE
  {
  }

  lemma RoundUpSame(num: nat, peak: nat)
    requires num <= peak && num < RoundUp(peak)
    ensures RoundUp(if num + 1 > peak then num + 1 else peak) == RoundUp(peak)
  {
  }

  /** Over any run of adds and removes whose allocations succeed: every index ever
      assigned is below the peak occupancy, and the size is the peak rounded up to a
      multiple of 32. */
  lemma {:induction false} RunsStayBounded<T>(cs: seq<Change<T>>)
    ensures Bounded(Replay(cs))
  {
    if cs != [] {
      var h := Replay(cs[..|cs| - 1]);
      RunsStayBounded(cs[..|cs| - 1]);
      match cs[|cs| - 1]
      case Add(x) => AddBounded(h, x);
      case Remove(i) => RemovedConsistent(h.table, i); OccupiedBound(h.table.slots);
    }
  }

  // ----- searching the first num slots

  /** What a search can see of an object. */
  datatype Traits = Traits(kind: nat, keyType: nat, paramSet: nat, bitSize: nat, attrs: map<nat, seq<nat>>)

  /** A search: UNAVAILABLE stands for any type, parameter set or size; all attributes listed
      must be there with their values. */
  datatype Query = Query(kind: nat, keyType: nat, paramSet: nat, bitSize: nat, attrs: seq<(nat, seq<nat>)>)

  predicate HasAttr(x: Traits, a: (nat, seq<nat>)) { a.0 in x.attrs && x.attrs[a.0] == a.1 }

  predicate Matches(x: Traits, q: Query) {
    && x.kind == q.kind
    && (q.keyType == UNAVAILABLE || x.keyType == q.keyType)
    && (q.paramSet == UNAVAILABLE || x.paramSet == q.paramSet)
    && (q.bitSize == UNAVAILABLE || x.bitSize == q.bitSize)
    && forall i :: 0 <= i < |q.attrs| ==> HasAttr(x, q.attrs[i])
  }

  /** A search made from an object's own traits finds it, with any of type, parameter set and
      size left open and any selection of its attributes; a search that asks for anything else
      in one respect does not. */
  lemma QueryDiscriminates(x: Traits, q: Query)
    ensures q.kind != x.kind ==> !Matches(x, q)
    ensures q.keyType != UNAVAILABLE && q.keyType != x.keyType ==> !Matches(x, q)
    ensures q.paramSet != UNAVAILABLE && q.paramSet != x.paramSet ==> !Matches(x, q)
    ensures q.bitSize != UNAVAILABLE && q.bitSize != x.bitSize ==> !Matches(x, q)
    ensures (exists a :: a in q.attrs && (a.0 !in x.attrs || x.attrs[a.0] != a.1)) ==> !Matches(x, q)
    ensures (&& q.kind == x.kind && q.keyType in {UNAVAILABLE, x.keyType}
             && q.paramSet in {UNAVAILABLE, x.paramSet} && q.bitSize in {UNAVAILABLE, x.bitSize}
             && forall a :: a in q.attrs ==> a.0 in x.attrs && x.attrs[a.0] == a.1) ==> Matches(x, q)
  {
    if a :| a in q.attrs && (a.0 !in x.attrs || x.attrs[a.0] != a.1) {
      var i :| 0 <= i < |q.attrs| && q.attrs[i] == a;
      assert !HasAttr(x, q.attrs[i]);
    }
  }

  predicate Hit<T>(o: Option<T>, traits: T -> Traits, q: Query) { o.Some? && Matches(traits(o.value), q) }

  /** Two stretches with as many objects in all as the first has slots. */
  lemma Displaced<T>(a: seq<Option<T>>, b: seq<Option<T>>)
    requires Occupied(a) + Occupied(b) == |a|
    ensures (exists i :: 0 <= i < |b| && b[i].Some?) <==> (exists j :: 0 <= j < |a| && a[j].None?)
  {
    OccupiedBound(a);
    OccupiedBound(b);
  }

  /** Some object lies at or above num exactly when some slot below num is free. */
  lemma HolesHideObjects<T>(t: Table<T>)
    requires Consistent(t)
    ensures (exists i :: t.num <= i < |t.slots| && t.slots[i].Some?)
       <==> (exists j :: 0 <= j < t.num && j < |t.slots| && t.slots[j].None?)
  {
    OccupiedBound(t.slots);
    SplitDisplaced(t.slots, t.num);
  }

  lemma SplitDisplaced<T>(s: seq<Option<T>>, n: nat)
    requires n <= |s| && Occupied(s) == n
    ensures (exists i :: n <= i < |s| && s[i].Some?) <==> (exists j :: 0 <= j < n && s[j].None?)
  {
    var a, b := s[..n], s[n..];
    assert s == a + b;
    OccupiedConcat(a, b);
    Displaced(a, b);
    assert forall i :: 0 <= i < |b| ==> b[i] == s[n + i];
    assert forall i :: n <= i < |s| ==> s[i] == b[i - n];
  }

  /** The search of the first num slots finds a match if there is one anywhere. */
  ghost predicate Sees<T>(t: Table<T>, traits: T -> Traits, q: Query) {
    (exists i :: 0 <= i < |t.slots| && Hit(t.slots[i], traits, q))
    ==> (exists i :: 0 <= i < t.num && i < |t.slots| && Hit(t.slots[i], traits, q))
  }

  /** x answers every search that y answers. */
  predicate Covers(x: Traits, y: Traits) {
    && x.kind == y.kind
    && (y.keyType == UNAVAILABLE || x.keyType == y.keyType)
    && (y.paramSet == UNAVAILABLE || x.paramSet == y.paramSet)
    && (y.bitSize == UNAVAILABLE || x.bitSize == y.bitSize)
    && forall a :: a in y.attrs ==> HasAttr(x, (a, y.attrs[a]))
  }

  /** The attributes of an object as a search can list them. */
  lemma {:induction false} Listing(m: map<nat, seq<nat>>) returns (s: seq<(nat, seq<nat>)>)
    ensures forall i :: 0 <= i < |s| ==> s[i].0 in m && m[s[i].0] == s[i].1
    ensures forall a :: a in m ==> (a, m[a]) in s
    decreases |m|
  {
    if m == map[] {
      s := [];
    } else {
      var a :| a in m;
      assert |m - {a}| < |m| by { assert (m - {a}).Keys < m.Keys; ProperSubsetSize((m - {a}).Keys, m.Keys); }
      var rest := Listing(m - {a});
      s := [(a, m[a])] + rest;
      assert forall b :: b in m && b != a ==> (b, (m - {a})[b]) in rest;
    }
  }

  lemma ProperSubsetSize(a: set<nat>, b: set<nat>)
    requires a < b
    ensures |a| < |b|
  {
    assert b == a + (b - a);
  }

  predicate CoversSlot<T>(a: Option<T>, b: Option<T>, traits: T -> Traits) {
    a.Some? && b.Some? && Covers(traits(a.value), traits(b.value))
  }

  /** Every object at or above num is covered by one below. */
  ghost predicate CoveredBelow<T>(t: Table<T>, traits: T -> Traits) {
    forall i :: 0 <= i < |t.slots| && t.num <= i && t.slots[i].Some? ==>
      exists j :: 0 <= j < t.num && j < |t.slots| && CoversSlot(t.slots[j], t.slots[i], traits)
  }

  /** The query that only what covers an object answers. */
  lemma Specific(y: Traits) returns (q: Query)
    ensures forall x :: Matches(x, q) <==> Covers(x, y)
  {
    var attrs := Listing(y.attrs);
    q := Query(y.kind, y.keyType, y.paramSet, y.bitSize, attrs);
    forall x ensures Matches(x, q) <==> Covers(x, y) {
      if Covers(x, y) {
        assert forall i :: 0 <= i < |attrs| ==> HasAttr(x, (attrs[i].0, y.attrs[attrs[i].0]));
      }
    }
  }

  lemma CoversMeaning(x: Traits, y: Traits)
    ensures Covers(x, y) <==> forall q :: Matches(y, q) ==> Matches(x, q)
  {
    var q := Specific(y);
    assert Matches(y, q);
    if Covers(x, y) {
      forall q | Matches(y, q) ensures Matches(x, q) {
        forall i | 0 <= i < |q.attrs| ensures HasAttr(x, q.attrs[i]) {
          assert HasAttr(y, q.attrs[i]) && HasAttr(x, (q.attrs[i].0, y.attrs[q.attrs[i].0]));
        }
      }
    }
  }

  /** The search finds a match for every query that has one, exactly when every object out of
      its reach is covered by one within. */
  lemma SearchCompleteExactlyWhen<T>(t: Table<T>, traits: T -> Traits)
    requires Consistent(t)
    ensures (forall q :: Sees(t, traits, q)) <==> CoveredBelow(t, traits)
  {
    OccupiedBound(t.slots);
    if forall q :: Sees(t, traits, q) {
      forall i | 0 <= i < |t.slots| && t.num <= i && t.slots[i].Some?
        ensures exists j :: 0 <= j < t.num && j < |t.slots| && CoversSlot(t.slots[j], t.slots[i], traits)
      {
        SeenIsCovered(t, traits, i);
      }
    }
    forall q | CoveredBelow(t, traits) ensures Sees(t, traits, q) {
      if i :| 0 <= i < |t.slots| && Hit(t.slots[i], traits, q) {
        if i >= t.num {
          var j :| 0 <= j < t.num && j < |t.slots| && CoversSlot(t.slots[j], t.slots[i], traits);
          CoversMeaning(traits(t.slots[j].value), traits(t.slots[i].value));
          assert Hit(t.slots[j], traits, q);
        }
      }
    }
  }

  lemma SeenIsCovered<T>(t: Table<T>, traits: T -> Traits, i: nat)
    requires t.num <= i < |t.slots| && t.slots[i].Some? && forall q :: Sees(t, traits, q)
    ensures exists j :: 0 <= j < t.num && j < |t.slots| && CoversSlot(t.slots[j], t.slots[i], traits)
  {
    var q := Specific(traits(t.slots[i].value));
    assert Hit(t.slots[i], traits, q) && Sees(t, traits, q);
    var j :| 0 <= j < t.num && j < |t.slots| && Hit(t.slots[j], traits, q);
    assert CoversSlot(t.slots[j], t.slots[i], traits);
  }

  /** Over any run the table is one the condition speaks of. */
  lemma RunSearchComplete<T>(cs: seq<Change<T>>, traits: T -> Traits)
    ensures (forall q :: Sees(Replay(cs).table, traits, q)) <==> CoveredBelow(Replay(cs).table, traits)
  {
    RunsStayBounded(cs);
    SearchCompleteExactlyWhen(Replay(cs).table, traits);
  }

  /** Two objects are added and the first one removed: the other is not found any more,
      whatever is searched for. */
  lemma RemovalHidesObject<T>(x: T, y: T, traits: T -> Traits, q: Query)
    requires Matches(traits(y), q)
    ensures !Sees(Replay([Add(x), Add(y), Remove(0)]).table, traits, q)
  {
    var t := Replay([Add(x), Add(y), Remove(0)]).table;
    TwoAdded(x, y);
    assert [Change.Add(x), Change.Add(y), Change.Remove(0)][..2] == [Change.Add(x), Change.Add(y)];
    assert t.slots[0].None? && t.slots[1] == Some(y) && t.num == 1;
    assert Hit(t.slots[1], traits, q);
  }

  lemma OneAdded<T>(x: T)
    ensures var t := Replay([Add(x)]).table;
      |t.slots| == POOL_ALLOC_SIZE && t.num == 1 && t.slots[0] == Some(x)
      && forall i :: 1 <= i < POOL_ALLOC_SIZE ==> t.slots[i].None?
  {
    assert [Change.Add(x)][..0] == [];
    assert Replay<T>([]).table == Table([], 0, 0);
    var t: Table<T> := Table([], 0, 0);
    LowestFreeIs(Grown(t).slots, 0);
  }

  lemma TwoAdded<T>(x: T, y: T)
    ensures var t := Replay([Add(x), Add(y)]).table;
      |t.slots| == POOL_ALLOC_SIZE && t.num == 2 && t.slots[0] == Some(x) && t.slots[1] == Some(y)
  {
    assert [Change.Add(x), Change.Add(y)][..1] == [Change.Add(x)];
    OneAdded(x);
    LowestFreeIs(Replay([Change.Add(x)]).table.slots, 1);
  }

  lemma LowestFreeIs<T>(s: seq<Option<T>>, n: nat)
    requires n < |s| && s[n].None? && forall i :: 0 <= i < n ==> s[i].Some?
    ensures LowestFree(s) == n
  {
  }

  ghost predicate Unrelated<T>(t: Table<T>, traits: T -> Traits) {
    forall i, j :: 0 <= i < |t.slots| && 0 <= j < |t.slots| && i != j ==> !CoversSlot(t.slots[i], t.slots[j], traits)
  }

  /** Where no object covers another one, that means no hole below num. */
  lemma HolesHideUnrelated<T>(t: Table<T>, traits: T -> Traits)
    requires Consistent(t) && Unrelated(t, traits)
    ensures (forall q :: Sees(t, traits, q))
       <==> (forall j :: 0 <= j < t.num ==> j < |t.slots| && t.slots[j].Some?)
  {
    OccupiedBound(t.slots);
    HolesHideObjects(t);
    SearchCompleteExactlyWhen(t, traits);
  }
}

/** The pool object, with its array reallocated and its fields updated in place. */
module ObjectPool {
  import opened Common
  import opened PoolTable

  class Obj {
    var poolid: int
    var raf: bool
    var handle: nat
    var cached: nat
    const traits: Traits

    constructor (traits: Traits, handle: nat)
      ensures this.traits == traits && this.handle == handle && poolid == 0
    {
      this.traits, this.handle := traits, handle;
      poolid, raf, cached := 0, false, CK_INVALID_HANDLE;
    }
  }

  datatype AddResult = Stored | HostMemory | Inconsistent
  datatype RemoveResult = Mock | SmallPool | NotThere | Taken

  function Slot(o: Obj?): Option<Obj> { if o == null then None else Some(o) }

  class ObjPool {
    var objects: array<Obj?>
    var size: int
    var num: int
    var firstFree: int

    ghost function Abs(): Table<Obj>
      reads this, objects
    {
      Table(seq(objects.Length, i requires 0 <= i < objects.Length reads this, objects => Slot(objects[i])),
            num, firstFree)
    }

    ghost predicate Valid()
      reads this, objects, objects[..]
    {
      && size == objects.Length
      && Consistent(Abs())
      && forall i :: 0 <= i < objects.Length && objects[i] != null ==> objects[i].poolid == i
    }

    constructor ()
      ensures Valid() && fresh(objects) && Abs() == Table([], 0, 0)
    {
      objects := new Obj?[0];
      size, num, firstFree := 0, 0, 0;
    }

    /** Reallocates for 32 more slots. */
    method Grow()
      requires Valid() && num >= size
      modifies this`objects, this`size
      ensures Valid() && fresh(objects) && Abs() == Grown(old(Abs()))
      ensures forall i :: 0 <= i < objects.Length ==> objects[i] == null || objects[i] in old(objects[..])
    {
      GrownConsistent(Abs());
      var tmp := new Obj?[size + POOL_ALLOC_SIZE];
      forall i | 0 <= i < size + POOL_ALLOC_SIZE { tmp[i] := if i < size then objects[i] else null; }
      ghost var before := Abs();
      objects := tmp;
      size := size + POOL_ALLOC_SIZE;
      assert Abs().slots == before.slots + seq(POOL_ALLOC_SIZE, _ => None);
    }

    /** The scan for a free slot, from the hint on and wrapping at the end. */
    method FindFree() returns (idx: nat)
      requires Valid() && num < size && firstFree < size
      ensures idx < objects.Length && idx == LowestFree(Abs().slots)
      ensures objects[idx] == null
    {
      ghost var free := LowestFree(Abs().slots);
      HintInRange(Abs());
      var i := 0;
      while i < size
        invariant 0 <= i && firstFree + i <= free
      {
        SmallMod(i + firstFree, size);
        idx := (i + firstFree) % size;
        assert Abs().slots[idx] == Slot(objects[idx]);
        if objects[idx] == null { return; }
        i := i + 1;
      }
      assert false;
    }

    method Store(obj: Obj, idx: nat)
      requires Valid() && obj !in objects[..] && idx < objects.Length && objects[idx] == null
      requires idx == LowestFree(Abs().slots)
      modifies this`num, this`firstFree, objects, obj`poolid
      ensures Valid() && obj.poolid == idx
      ensures Abs() == Table(old(Abs()).slots[idx := Some(obj)], old(num) + 1, idx + 1)
    {
      ghost var before := Abs();
      OccupiedUpdate(before.slots, idx, Some(obj));
      objects[idx] := obj;
      num := num + 1;
      obj.poolid := idx;
      firstFree := idx + 1;
      assert Abs().slots == before.slots[idx := Some(obj)];
    }

    /** The hint is in range, so the source's reset of it to 0 is never reached. */
    method AddWithRoom(obj: Obj)
      requires Valid() && num < size && obj !in objects[..]
      modifies this`num, this`firstFree, objects, obj`poolid
      ensures Valid() && (Abs(), obj.poolid) == Added(old(Abs()), obj)
    {
      RoomFor(Abs(), obj);
      var idx := FindFree();
      Store(obj, idx);
    }

    /** obj_add_to_pool: the lowest free slot is taken; there is no way to find the pool
        inconsistent. */
    method Add(obj: Obj, allocOk: bool) returns (r: AddResult)
      requires Valid() && obj !in objects[..]
      modifies this, objects, obj`poolid
      ensures Valid()
      ensures r == HostMemory <==> old(num >= size && (size >= POOL_MAX_SIZE || !allocOk))
      ensures r == HostMemory ==> Abs() == old(Abs()) && obj.poolid == old(obj.poolid)
      ensures r != HostMemory ==> r == Stored && (Abs(), obj.poolid) == Added(old(Abs()), obj)
    {
      AddedGrown(Abs(), obj);
      if num >= size {
        if size >= POOL_MAX_SIZE || !allocOk { return HostMemory; }
        Grow();
        assert obj !in objects[..];
      }
      AddWithRoom(obj);
      r := Stored;
    }

    /** obj_rm_from_pool; an object that is not where it says is left alone. */
    method Remove(obj: Obj) returns (r: RemoveResult)
      requires Valid() && obj.poolid >= -1
      modifies this`num, this`firstFree, objects, obj`poolid
      ensures Valid()
      ensures r == Taken <==> old(obj in objects[..])
      ensures r == Taken ==> Abs() == Removed(old(Abs()), old(obj.poolid)) && obj.poolid == -1 && obj !in objects[..]
      ensures r != Taken ==> Abs() == old(Abs()) && obj.poolid == old(obj.poolid)
      ensures r == Mock <==> old(obj.poolid) == -1
      ensures r == SmallPool <==> old(obj.poolid) >= old(size)
    {
      if obj.poolid == -1 { return Mock; }
      if obj.poolid >= size { return SmallPool; }
      if objects[obj.poolid] != obj { return NotThere; }
      ghost var before, at := Abs(), obj.poolid;
      assert before.slots[at] == Some(obj);
      RemovedConsistent(before, at);
      objects[obj.poolid] := null;
      num := num - 1;
      if firstFree > obj.poolid { firstFree := obj.poolid; }
      obj.poolid := -1;
      assert Abs().slots == before.slots[at := None];
      r := Taken;
    }

    /** p11prov_obj_pool_find: the first match among the first num slots. */
    method FindObject(q: Query) returns (found: Obj?)
      requires Valid()
      ensures found != null ==> Matches(found.traits, q) && found in objects[..] && found.poolid < num
      ensures found != null ==>
        forall j :: 0 <= j < found.poolid && objects[j] != null ==> !Matches(objects[j].traits, q)
      ensures found == null ==>
        forall i :: 0 <= i < num && i < objects.Length && objects[i] != null ==> !Matches(objects[i].traits, q)
    {
      OccupiedBound(Abs().slots);
      var i := 0;
      while i < num
        invariant 0 <= i <= num <= objects.Length
        invariant forall j :: 0 <= j < i && objects[j] != null ==> !Matches(objects[j].traits, q)
      {
        var obj := objects[i];
        if obj != null {
          var all := MatchAttrs(obj.traits, q.attrs);
          if obj.traits.kind == q.kind
             && (q.keyType == UNAVAILABLE || obj.traits.keyType == q.keyType)
             && (q.paramSet == UNAVAILABLE || obj.traits.paramSet == q.paramSet)
             && (q.bitSize == UNAVAILABLE || obj.traits.bitSize == q.bitSize) && all {
            return obj;
          }
        }
        i := i + 1;
      }
      found := null;
    }

    /** After a fork every pooled object is marked for revalidation and loses its handles;
        the table itself is untouched. */
    method ForkReset()
      requires Valid()
      modifies set o | o in objects[..] && o != null
      ensures Valid() && Abs() == old(Abs())
      ensures forall i :: 0 <= i < objects.Length && objects[i] != null ==>
        objects[i].raf && objects[i].handle == objects[i].cached == CK_INVALID_HANDLE
    {
      ghost var table := Abs();
      var i := 0;
      while i < size
        invariant 0 <= i <= size == objects.Length
        invariant forall j :: 0 <= j < size && objects[j] != null ==> objects[j].poolid == j
        invariant forall j :: 0 <= j < i && objects[j] != null ==>
          objects[j].raf && objects[j].handle == objects[j].cached == CK_INVALID_HANDLE
        invariant Abs() == table
      {
        var obj := objects[i];
        if obj != null {
          assert obj in objects[..];
          obj.raf := true;
          obj.handle := CK_INVALID_HANDLE;
          obj.cached := CK_INVALID_HANDLE;
        }
        i := i + 1;
      }
    }
  }

  /** obj_match_attrs. */
  method MatchAttrs(x: Traits, attrs: seq<(nat, seq<nat>)>) returns (all: bool)
    ensures all <==> forall i :: 0 <= i < |attrs| ==> HasAttr(x, attrs[i])
  {
    for i := 0 to |attrs|
      invariant forall j :: 0 <= j < i ==> HasAttr(x, attrs[j])
    {
      if !HasAttr(x, attrs[i]) { return false; }
    }
    all := true;
  }

  lemma SmallMod(a: nat, n: nat)
    requires a < n
    ensures a % n == a
  {
  }

  /** What an addition to a table with room comes to. */
  lemma RoomFor<T>(t: Table<T>, x: T)
    requires Consistent(t) && t.num < |t.slots|
    ensures t.firstFree <= LowestFree(t.slots) < |t.slots|
    ensures var i := LowestFree(t.slots); Added(t, x) == (Table(t.slots[i := Some(x)], t.num + 1, i + 1), i)
  {
    HintInRange(t);
  }

  lemma AddedGrown<T>(t: Table<T>, x: T)
    requires Consistent(t)
    ensures Added(Grown(t), x) == Added(t, x)
    ensures Grown(t).num < |Grown(t).slots|
  {
    GrownConsistent(t);
  }

  lemma HintInRange<T>(t: Table<T>)
    requires Consistent(t) && t.num < |t.slots|
    ensures t.firstFree <= LowestFree(t.slots) < |t.slots|
  {
    LowestFreeBound(t.slots);
    var n := LowestFree(t.slots);
    assert t.slots[n].None?;
  }
}
