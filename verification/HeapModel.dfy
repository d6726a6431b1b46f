/**
 The collector of gc/gc.c as a state machine over values: what each operation of the virtual
 machine does to the stack, to the list of all objects and to the collection threshold.

 `T` is the type of object identities.  The class in Collector.dfy is proved against these
 functions, so what is proved here about every run holds of the pointers and mark bits there.
 */
module HeapModel {
  import opened Reachability

  const MAX_STACK: nat := 256
  const INITIAL_THRESHOLD: nat := 8

  datatype Option<+A> = None | Some(value: A)

  datatype Cell<T> = IntCell(value: int) | PairCell(first: T, second: T)

  /**
   `objs` is the intrusive list from its first object on, and `cells` the fields of the listed
   objects.  `visits` counts the objects that all sweeps so far have looked at, and `allocs` the
   objects allocated so far.
   */
  datatype Heap<T> = Heap(
    stack: seq<T>,
    objs: seq<T>,
    cells: map<T, Cell<T>>,
    maxObjects: nat,
    visits: nat,
    allocs: nat
  )

  ghost function Elements<T>(s: seq<T>): set<T> {
    set x | x in s
  }

  ghost predicate Distinct<T>(s: seq<T>) {
    s == [] || (s[0] !in Elements(s[1..]) && Distinct(s[1..]))
  }

  lemma {:induction false} DistinctElements<T>(s: seq<T>)
    ensures Distinct(s) <==> forall i, j | 0 <= i < j < |s| :: s[i] != s[j]
  {
    if s != [] {
      DistinctElements(s[1..]);
      assert forall k | 0 < k < |s| :: s[k] == s[1..][k - 1];
      if s[0] in s[1..] {
        var k :| 0 <= k < |s| - 1 && s[1..][k] == s[0];
        assert s[k + 1] == s[0];
      }
    }
  }

  function Targets<T>(c: Cell<T>): set<T> {
    match c
    case IntCell(_) => {}
    case PairCell(first, second) => {first, second}
  }

  ghost function Edges<T>(cells: map<T, Cell<T>>): Graph<T> {
    map x | x in cells :: Targets(cells[x])
  }

  /** No field of a listed object leads outside the list. */
  ghost predicate ClosedCells<T>(cells: map<T, Cell<T>>) {
    forall x | x in cells :: Targets(cells[x]) <= cells.Keys
  }

  /** Nothing dangles: every stack slot and every field of a listed object leads to the list. */
  ghost predicate Valid<T>(h: Heap<T>) {
    && |h.stack| <= MAX_STACK
    && Distinct(h.objs)
    && h.cells.Keys == Elements(h.objs)
    && Elements(h.stack) <= h.cells.Keys
    && ClosedCells(h.cells)
    && |h.objs| <= h.maxObjects
  }

  // ----- Collection -----

  /** The elements of `s` that are in `live`, in their order. */
  ghost function Keep<T>(s: seq<T>, live: set<T>): (r: seq<T>)
    ensures |r| <= |s|
  {
    if s == [] then []
    else (if s[0] in live then [s[0]] else []) + Keep(s[1..], live)
  }

  lemma ElementsConcat<T>(s: seq<T>, t: seq<T>)
    ensures Elements(s + t) == Elements(s) + Elements(t)
  {
  }

  lemma {:induction false} KeepMembers<T>(s: seq<T>, live: set<T>)
    ensures Elements(Keep(s, live)) == Elements(s) * live
  {
    if s != [] {
      var h := if s[0] in live then [s[0]] else [];
      KeepMembers(s[1..], live);
      ElementsConcat(h, Keep(s[1..], live));
      ElementsConcat([s[0]], s[1..]);
      assert s == [s[0]] + s[1..];
      assert Elements([s[0]]) == {s[0]} && Elements(h) == {s[0]} * live;
    }
  }

  lemma {:induction false} KeepDistinct<T>(s: seq<T>, live: set<T>)
    requires Distinct(s)
    ensures Distinct(Keep(s, live))
  {
    if s != [] {
      KeepDistinct(s[1..], live);
      KeepMembers(s[1..], live);
      if s[0] in live {
        var r := Keep(s[1..], live);
        assert Keep(s, live) == [s[0]] + r;
        assert ([s[0]] + r)[1..] == r;
      } else {
        assert Keep(s, live) == [] + Keep(s[1..], live) == Keep(s[1..], live);
      }
    }
  }

  ghost function Live<T>(h: Heap<T>): set<T>
    requires Valid(h)
  {
    Reach(Edges(h.cells), Elements(h.stack))
  }

  ghost function Collect<T>(h: Heap<T>): (h': Heap<T>)
    requires Valid(h)
  {
    var kept := Keep(h.objs, Live(h));
    h.(objs := kept,
       cells := map x | x in h.cells && x in Live(h) :: h.cells[x],
       maxObjects := if |kept| == 0 then INITIAL_THRESHOLD else |kept| * 2,
       visits := h.visits + |h.objs|)
  }

  // ----- Operations; None stands for a failed assertion, which ends the process -----

  ghost function EmptyHeap<T>(): Heap<T> {
    Heap([], [], map[], INITIAL_THRESHOLD, 0, 0)
  }

  /** The heap in which the next object is allocated: collected if the threshold is reached. */
  ghost function MakeRoom<T>(h: Heap<T>): Heap<T>
    requires Valid(h)
  {
    if |h.objs| == h.maxObjects then Collect(h) else h
  }

  ghost function Allocate<T>(h: Heap<T>, o: T, c: Cell<T>): Heap<T> {
    h.(objs := [o] + h.objs, cells := h.cells[o := c], allocs := h.allocs + 1)
  }

  ghost function Push<T>(h: Heap<T>, o: T): Option<Heap<T>> {
    if |h.stack| < MAX_STACK then Some(h.(stack := h.stack + [o])) else None
  }

  ghost function Pop<T>(h: Heap<T>): Option<Heap<T>> {
    if |h.stack| > 0 then Some(h.(stack := h.stack[..|h.stack| - 1])) else None
  }

  ghost function PushInt<T>(h: Heap<T>, o: T, value: int): Option<Heap<T>>
    requires Valid(h)
  {
    Push(Allocate(MakeRoom(h), o, IntCell(value)), o)
  }

  ghost function PushPair<T>(h: Heap<T>, o: T): Option<Heap<T>>
    requires Valid(h)
  {
    var n := |h.stack|;
    if n < 2 then None
    else Some(Allocate(MakeRoom(h), o, PairCell(h.stack[n - 2], h.stack[n - 1]))
              .(stack := h.stack[..n - 2] + [o]))
  }

  datatype Op<T> =
    | OpPushInt(o: T, value: int)
    | OpPushPair(o: T)
    | OpPush(o: T)
    | OpPop
    | OpGc
    | OpSetFirst(o: T, target: T)
    | OpSetSecond(o: T, target: T)

  /** What a client must respect: a new object is not a listed one, an old one is. */
  ghost predicate Legal<T>(h: Heap<T>, op: Op<T>)
    requires Valid(h)
  {
    match op
    case OpPushInt(o, _) => o !in MakeRoom(h).objs
    case OpPushPair(o) => o !in MakeRoom(h).objs
    case OpPush(o) => o in h.cells
    case OpPop => true
    case OpGc => true
    case OpSetFirst(o, target) => o in h.cells && h.cells[o].PairCell? && target in h.cells
    case OpSetSecond(o, target) => o in h.cells && h.cells[o].PairCell? && target in h.cells
  }

  ghost function Step<T>(h: Heap<T>, op: Op<T>): Option<Heap<T>>
    requires Valid(h) && Legal(h, op)
  {
    match op
    case OpPushInt(o, value) => PushInt(h, o, value)
    case OpPushPair(o) => PushPair(h, o)
    case OpPush(o) => Push(h, o)
    case OpPop => Pop(h)
    case OpGc => Some(Collect(h))
    case OpSetFirst(o, target) =>
      Some(h.(cells := h.cells[o := PairCell(target, h.cells[o].second)]))
    case OpSetSecond(o, target) =>
      Some(h.(cells := h.cells[o := PairCell(h.cells[o].first, target)]))
  }

  lemma CollectKeepsValid<T>(h: Heap<T>)
    requires Valid(h)
    ensures Valid(Collect(h))
    ensures Collect(h).cells.Keys == Live(h)
    ensures Elements(h.stack) <= Live(h)
  {
    var g := Edges(h.cells);
    var live := Live(h);
    var h' := Collect(h);
    FillIsClosed(g, {}, Elements(h.stack));
    KeepMembers(h.objs, live);
    KeepDistinct(h.objs, live);
    assert h'.cells.Keys == live;
    assert ClosedCells(h'.cells) by {
      forall x, y | x in h'.cells && y in Targets(h'.cells[x]) ensures y in live {
        assert y in g[x];
      }
    }
  }

  lemma AllocateKeepsValid<T>(h: Heap<T>, o: T, c: Cell<T>)
    requires Valid(h) && o !in h.objs && Targets(c) <= h.cells.Keys + {o} && |h.objs| < h.maxObjects
    ensures Valid(Allocate(h, o, c))
  {
    var h' := Allocate(h, o, c);
    assert h'.objs[1..] == h.objs;
    assert Elements(h'.objs) == {o} + Elements(h.objs);
  }

  lemma MakeRoomKeepsValid<T>(h: Heap<T>)
    requires Valid(h)
    ensures Valid(MakeRoom(h)) && |MakeRoom(h).objs| < MakeRoom(h).maxObjects
    ensures MakeRoom(h).stack == h.stack
    ensures MakeRoom(h).visits == h.visits + (if |h.objs| == h.maxObjects then |h.objs| else 0)
    ensures MakeRoom(h).allocs == h.allocs
  {
    CollectKeepsValid(h);
  }

  lemma PushPairKeepsValid<T>(h: Heap<T>, o: T)
    requires Valid(h) && o !in MakeRoom(h).objs && |h.stack| >= 2
    ensures Valid(PushPair(h, o).value)
  {
    hide MakeRoom, ClosedCells, Distinct;
    var room, n := MakeRoom(h), |h.stack|;
    var c := PairCell(h.stack[n - 2], h.stack[n - 1]);
    MakeRoomKeepsValid(h);
    assert h.stack[n - 2] in Elements(h.stack) && h.stack[n - 1] in Elements(h.stack);
    AllocateKeepsValid(room, o, c);
    StackKeepsValid(Allocate(room, o, c), h.stack[..n - 2] + [o]);
  }

  lemma StackKeepsValid<T>(h: Heap<T>, slots: seq<T>)
    requires Valid(h) && |slots| <= MAX_STACK && forall x | x in slots :: x in h.cells
    ensures Valid(h.(stack := slots))
  {
  }

  lemma SetCellKeepsValid<T>(h: Heap<T>, o: T, c: Cell<T>)
    requires Valid(h) && o in h.cells && Targets(c) <= h.cells.Keys
    ensures Valid(h.(cells := h.cells[o := c]))
  {
  }

  lemma StepKeepsValid<T>(h: Heap<T>, op: Op<T>)
    requires Valid(h) && Legal(h, op)
    ensures Step(h, op).Some? ==> Valid(Step(h, op).value)
  {
    match op
    case OpPushInt(o, value) =>
      MakeRoomKeepsValid(h);
      AllocateKeepsValid(MakeRoom(h), o, IntCell(value));
    case OpPushPair(o) =>
      if |h.stack| >= 2 { PushPairKeepsValid(h, o); }
    case OpPush(o) =>
    case OpPop =>
    case OpGc =>
      CollectKeepsValid(h);
    case OpSetFirst(o, target) =>
      assert h.cells[o].second in Targets(h.cells[o]);
      SetCellKeepsValid(h, o, PairCell(target, h.cells[o].second));
    case OpSetSecond(o, target) =>
      assert h.cells[o].first in Targets(h.cells[o]);
      SetCellKeepsValid(h, o, PairCell(h.cells[o].first, target));
  }
}
