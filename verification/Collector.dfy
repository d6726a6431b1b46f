/**
 The mark-sweep collector of gc/gc.c on mutable objects: mark bits, an intrusive list that the
 sweep unlinks in place, and the shadow stack of roots.

 The ghost field `VM.heap` is the abstract heap of HeapModel.dfy; `Valid()` ties it to the
 pointers.  Freeing an object is removing it from the list.
 */
module Collector {
  import opened Reachability
  import opened HeapModel
  import opened HeapRuns

  /** `cell` is the type tag and the union it selects from: an int, or two pointers. */
  class Object {
    var marked: bool
    var next: Object?
    var cell: Cell<Object>

    /** Fresh memory holds nothing of meaning: a new pair leads nowhere but to itself. */
    constructor (pair: bool, next: Object?)
      ensures this.next == next && !marked
      ensures cell == if pair then PairCell(this, this) else IntCell(0)
    {
      this.next, this.marked := next, false;
      new;
      cell := if pair then PairCell(this, this) else IntCell(0);
    }
  }

  ghost predicate Holds(cells: map<Object, Cell<Object>>)
    reads cells.Keys`cell
  {
    forall o | o in cells :: o.cell == cells[o]
  }

  lemma HoldsOnPart(cells: map<Object, Cell<Object>>, part: map<Object, Cell<Object>>)
    requires Holds(cells) && forall o | o in part :: o in cells && part[o] == cells[o]
    ensures Holds(part)
  {
  }

  ghost function Marked(objs: set<Object>): set<Object>
    reads objs`marked
  {
    set o | o in objs && o.marked
  }

  function Nth(objs: seq<Object>, i: nat): Object? {
    if i < |objs| then objs[i] else null
  }

  /** `head` starts a null-terminated list of exactly the objects `objs`, in that order. */
  ghost predicate Linked(head: Object?, objs: seq<Object>)
    reads Elements(objs)`next
  {
    && head == Nth(objs, 0)
    && forall i {:trigger objs[i].next} | 0 <= i < |objs| ::
         assert objs[i] in Elements(objs); objs[i].next == Nth(objs, i + 1)
  }

  /** Marks what paths of unmarked objects reach from `node`; a cycle ends at a mark already set. */
  method Mark(node: Object, ghost cells: map<Object, Cell<Object>>)
    requires node in cells && ClosedCells(cells) && Holds(cells)
    modifies cells.Keys`marked
    ensures var before := old(Marked(cells.Keys));
            Marked(cells.Keys) == Fill(Edges(cells), before, before + {node})
    decreases cells.Keys - Marked(cells.Keys)
  {
    ghost var g, before := Edges(cells), Marked(cells.Keys);
    if node.marked {
      FillMarked(g, before);
      assert before + {node} == before;
      return;
    }
    node.marked := true;
    assert Marked(cells.Keys) == before + {node};
    match node.cell
    case PairCell(first, second) =>
      FillPair(g, before, node, first, second);
      Mark(first, cells);
      Mark(second, cells);
    case IntCell(_) =>
      FillLeaf(g, before, node);
  }

  lemma FillNextRoot<T>(g: Graph<T>, roots: seq<T>, i: nat)
    requires IsGraph(g) && Elements(roots) <= g.Keys && i < |roots|
    ensures var done := Fill(g, {}, Elements(roots[..i]));
            Fill(g, done, done + {roots[i]}) == Fill(g, {}, Elements(roots[..i + 1]))
  {
    assert roots[i] in Elements(roots);
    var before := Elements(roots[..i]);
    assert Elements(roots[..i + 1]) == {} + before + {roots[i]};
    assert {} + before == before;
    FillTwice(g, {}, before, {roots[i]});
  }

  lemma KeepNext<T>(s: seq<T>, i: nat, live: set<T>)
    requires i < |s|
    ensures Keep(s[..i + 1], live) == Keep(s[..i], live) + if s[i] in live then [s[i]] else []
  {
    assert s[..i + 1] == s[..i] + [s[i]];
    KeepConcat(s[..i], [s[i]], live);
  }

  lemma AllocatedThenWritten<T>(h: Heap<T>, o: T, c: Cell<T>, d: Cell<T>)
    ensures var h' := Allocate(h, o, c); h'.(cells := h'.cells[o := d]) == Allocate(h, o, d)
  {
  }

  /** Allocating, popping the parts into the new pair and pushing it is what `PushPair` says. */
  lemma PairWritten<T>(h: Heap<T>, o: T)
    requires HeapModel.Valid(h)
    ensures MakeRoom(h).stack == h.stack
    ensures |h.stack| < 2 ==> HeapModel.PushPair(h, o) == None
    ensures |h.stack| >= 2 ==>
              var s, n, a := h.stack, |h.stack| - 2, Allocate(MakeRoom(h), o, PairCell(o, o));
              HeapModel.PushPair(h, o) ==
              HeapModel.Push(a.(stack := s[..n], cells := a.cells[o := PairCell(s[n], s[n + 1])]), o)
  {
    MakeRoomKeepsValid(h);
    hide MakeRoom;
    if |h.stack| >= 2 {
      var s, n := h.stack, |h.stack| - 2;
      var a, pair := Allocate(MakeRoom(h), o, PairCell(o, o)), PairCell(s[n], s[n + 1]);
      assert a.cells[o := pair] == MakeRoom(h).cells[o := pair];
    }
  }

  class VM {
    var stack: array<Object?>
    var stackSize: nat
    // the first object of the list of all objects
    var firstObject: Object?
    var numObjects: int
    // a collection takes place when numObjects reaches this
    var maxObjects: int
    ghost var heap: Heap<Object>

    ghost predicate Stacked(slots: seq<Object>)
      reads this`stack, this`stackSize, stack
    {
      && stack.Length == MAX_STACK
      && stackSize == |slots| <= MAX_STACK
      && forall i | 0 <= i < stackSize :: stack[i] == slots[i]
    }

    ghost predicate Listed(objs: seq<Object>)
      reads this`firstObject, this`numObjects, Elements(objs)`next
    {
      Linked(firstObject, objs) && Distinct(objs) && numObjects == |objs|
    }

    /** Stack, list and fields are those of `h`, and no mark bit is set. */
    ghost predicate Shows(h: Heap<Object>)
      reads this`stack, this`stackSize, this`firstObject, this`numObjects, stack
      reads Elements(h.objs), h.cells.Keys
    {
      Stacked(h.stack) && Listed(h.objs) && Holds(h.cells) && forall o | o in h.cells :: !o.marked
    }

    ghost predicate Valid()
      reads this, stack, Elements(heap.objs), heap.cells.Keys
    {
      HeapModel.Valid(heap) && Shows(heap) && maxObjects == heap.maxObjects
    }

    lemma HeapIsValid()
      requires Valid()
      ensures HeapModel.Valid(heap)
    {
    }

    constructor ()
      ensures Valid() && fresh(stack)
      ensures heap == EmptyHeap()
    {
      stack := new Object?[MAX_STACK];
      stackSize, firstObject, numObjects, maxObjects := 0, null, 0, INITIAL_THRESHOLD;
      heap := EmptyHeap();
    }

    /** Marks exactly the live objects. */
    method MarkAll()
      requires HeapModel.Valid(heap) && Stacked(heap.stack) && Holds(heap.cells)
      requires forall o | o in heap.cells :: !o.marked
      modifies heap.cells.Keys`marked
      ensures Marked(heap.cells.Keys) == Live(heap)
    {
      ghost var g, roots := Edges(heap.cells), heap.stack;
      FillMarked(g, {});
      for i := 0 to stackSize
        invariant Marked(heap.cells.Keys) == Fill(g, {}, Elements(roots[..i]))
      {
        assert roots[i] in Elements(roots);
        FillNextRoot(g, roots, i);
        Mark(stack[i], heap.cells);
      }
      assert roots[..stackSize] == roots;
    }

    /**
     The sweep before object `i` of the old list `all`: the list now runs through the kept objects,
     whose marks are clear, and on to the objects not yet visited.
     */
    ghost predicate Sweeping(all: seq<Object>, live: set<Object>, kept: seq<Object>, i: nat)
      requires i <= |all|
      reads this`firstObject, this`numObjects, Elements(all)`next, Elements(all)`marked, Elements(kept)
    {
      && (forall j, k | 0 <= j < k < |all| :: all[j] != all[k])
      && (forall j, k | 0 <= j < k < |kept| :: kept[j] != kept[k])
      && numObjects == |kept| + |all| - i
      && firstObject == (if kept == [] then Nth(all, i) else kept[0])
      && (forall k | 0 <= k < |kept| :: kept[k] in Elements(all))
      && (forall k, j | 0 <= k < |kept| && i <= j < |all| :: kept[k] != all[j])
      && (forall k {:trigger kept[k].marked} | 0 <= k < |kept| :: assert kept[k] in Elements(kept); !kept[k].marked)
      && (forall k {:trigger kept[k].next} | 0 <= k < |kept| - 1 ::
            assert kept[k] in Elements(kept); kept[k].next == kept[k + 1])
      && (kept != [] ==>
            assert kept[|kept| - 1] in Elements(kept);
            kept[|kept| - 1].next == Nth(all, i))
      && (forall j {:trigger all[j].next} | i <= j < |all| ::
            assert all[j] in Elements(all); all[j].next == Nth(all, j + 1))
      && (forall j {:trigger all[j].marked} | i <= j < |all| ::
            assert all[j] in Elements(all); all[j].marked <==> all[j] in live)
    }

    lemma Swept(all: seq<Object>, live: set<Object>, kept: seq<Object>)
      requires Sweeping(all, live, kept, |all|)
      ensures Listed(kept) && forall k | 0 <= k < |kept| :: !kept[k].marked
    {
      DistinctElements(kept);
    }

    lemma StartsSweeping(all: seq<Object>)
      requires Listed(all)
      ensures Sweeping(all, Marked(Elements(all)), [], 0)
    {
      DistinctElements(all);
    }

    /** The cursor points to the next object of the old list. */
    lemma Cursor(prev: Object?, all: seq<Object>, live: set<Object>, kept: seq<Object>, i: nat)
      requires i <= |all| && Sweeping(all, live, kept, i)
      requires prev == (if kept == [] then null else kept[|kept| - 1])
      ensures (if prev == null then firstObject else prev.next) == Nth(all, i)
      ensures i < |all| ==> (all[i].marked <==> all[i] in live)
    {
    }

    /** The branch of the sweep for an object that was not reached. */
    method Unlink(prev: Object?, current: Object,
                  ghost all: seq<Object>, ghost live: set<Object>, ghost kept: seq<Object>, ghost i: nat)
      requires i < |all| && current == all[i] && current !in live && Sweeping(all, live, kept, i)
      requires prev == (if kept == [] then null else kept[|kept| - 1])
      modifies this`firstObject, this`numObjects, Elements(all)`next
      ensures Sweeping(all, live, kept, i + 1)
    {
      if prev == null {
        firstObject := current.next;
      } else {
        prev.next := current.next;
      }
      numObjects := numObjects - 1;
    }

    /** The branch of the sweep for an object that was reached. */
    method Unmark(current: Object,
                  ghost all: seq<Object>, ghost live: set<Object>, ghost kept: seq<Object>, ghost i: nat)
      requires i < |all| && current == all[i] && current in live && Sweeping(all, live, kept, i)
      modifies current`marked
      ensures Sweeping(all, live, kept + [current], i + 1)
    {
      current.marked := false;
    }

    /**
     Unlinks the unmarked objects of the list `all` in place and clears the marks of the others.
     `prev` stands for the place the cursor points to: the `next` field of `prev`, or `firstObject`
     if `prev` is null.  `rounds` counts the objects that the loop has looked at.
     */
    method Sweep(ghost all: seq<Object>) returns (ghost rounds: nat)
      requires Listed(all)
      modifies this`firstObject, this`numObjects, Elements(all)`next, Elements(all)`marked
      ensures var kept := Keep(all, old(Marked(Elements(all))));
              Listed(kept) && forall k | 0 <= k < |kept| :: !kept[k].marked
      ensures rounds == |all|
    {
      hide Sweeping, Linked, Distinct;
      ghost var live, kept: seq<Object>, i: nat := Marked(Elements(all)), [], 0;
      rounds := 0;
      var prev: Object? := null;
      StartsSweeping(all);
      while (if prev == null then firstObject else prev.next) != null
        invariant rounds == i <= |all|
        invariant Sweeping(all, live, kept, i)
        invariant prev == (if kept == [] then null else kept[|kept| - 1])
        invariant kept == Keep(all[..i], live)
        decreases |all| - i
      {
        var current := if prev == null then firstObject else prev.next;
        Cursor(prev, all, live, kept, i);
        if !current.marked {
          Unlink(prev, current, all, live, kept, i);
        } else {
          Unmark(current, all, live, kept, i);
          prev := current;
          kept := kept + [current];
        }
        KeepNext(all, i, live);
        i, rounds := i + 1, rounds + 1;
      }
      Cursor(prev, all, live, kept, i);
      assert i == |all| && all[..i] == all;
      Swept(all, live, kept);
    }

    lemma SweptShows(c: Heap<Object>)
      requires HeapModel.Valid(heap) && c == Collect(heap)
      requires Stacked(heap.stack) && Listed(c.objs) && Holds(heap.cells) && forall o | o in c.objs :: !o.marked
      ensures HeapModel.Valid(c) && Shows(c)
    {
      CollectKeepsValid(heap);
      HoldsOnPart(heap.cells, c.cells);
    }

    /** The abstract heap counts the rounds of the sweep. */
    method MarkAndSweep() returns (ghost c: Heap<Object>, ghost rounds: nat)
      requires HeapModel.Valid(heap) && Shows(heap)
      modifies this`firstObject, this`numObjects, heap.cells.Keys`next, heap.cells.Keys`marked
      ensures c == Collect(heap) && HeapModel.Valid(c) && Shows(c)
      ensures c.visits == heap.visits + rounds
    {
      hide Linked, Distinct, ClosedCells, Edges, Reach;
      MarkAll();
      rounds := Sweep(heap.objs);
      assert Holds(heap.cells);
      c := Collect(heap);
      SweptShows(c);
    }

    /** A collection does to the heap what `Collect` says, whatever its graph. */
    method Gc()
      requires Valid()
      modifies this`firstObject, this`numObjects, this`maxObjects, this`heap
      modifies heap.cells.Keys`next, heap.cells.Keys`marked
      ensures Valid() && heap == Collect(old(heap))
    {
      hide Linked, Distinct, ClosedCells, HeapModel.Valid, Holds, Live;
      ghost var c, rounds := MarkAndSweep();
      maxObjects := if numObjects == 0 then INITIAL_THRESHOLD else numObjects * 2;
      heap := c;
      assert Shows(c);
    }

    /** Puts a new object in front of the list. */
    method Prepend(pair: bool) returns (o: Object)
      requires Valid() && |heap.objs| < heap.maxObjects
      modifies this`firstObject, this`numObjects, this`heap
      ensures Valid() && fresh(o)
      ensures heap == Allocate(old(heap), o, if pair then PairCell(o, o) else IntCell(0))
    {
      hide ClosedCells;
      o := new Object(pair, firstObject);
      assert o !in heap.objs && o !in heap.cells;
      AllocateKeepsValid(heap, o, o.cell);
      firstObject, numObjects, heap := o, numObjects + 1, Allocate(heap, o, o.cell);
    }

    /** Allocates in a heap with room, collecting first if the threshold is reached. */
    method NewObject(pair: bool) returns (o: Object)
      requires Valid()
      modifies this`firstObject, this`numObjects, this`maxObjects, this`heap
      modifies heap.cells.Keys`next, heap.cells.Keys`marked
      ensures Valid() && fresh(o)
      ensures heap == Allocate(MakeRoom(old(heap)), o, if pair then PairCell(o, o) else IntCell(0))
    {
      MakeRoomKeepsValid(heap);
      if numObjects == maxObjects {
        Gc();
      }
      o := Prepend(pair);
    }

    /** Writes the fields of a listed object; what it then leads to must be listed. */
    method SetCell(o: Object, cell: Cell<Object>)
      requires Valid() && o in heap.cells && Targets(cell) <= heap.cells.Keys
      modifies o`cell, this`heap
      ensures Valid() && heap == old(heap).(cells := old(heap).cells[o := cell])
    {
      SetCellKeepsValid(heap, o, cell);
      o.cell := cell;
      heap := heap.(cells := heap.cells[o := cell]);
    }

    /** A failed assertion ends the process: `ok` says that it did not. */
    method Push(o: Object) returns (ok: bool)
      requires Valid() && o in heap.cells
      modifies stack, this`stackSize, this`heap
      ensures HeapModel.Push(old(heap), o) == if ok then Some(heap) else None
      ensures Valid()
    {
      hide Linked, Distinct, ClosedCells;
      ok := stackSize < MAX_STACK;
      if ok {
        stack[stackSize] := o;
        stackSize := stackSize + 1;
        heap := heap.(stack := heap.stack + [o]);
      }
    }

    method Pop() returns (ok: bool, o: Object?)
      requires Valid()
      modifies this`stackSize, this`heap
      ensures HeapModel.Pop(old(heap)) == if ok then Some(heap) else None
      ensures Valid()
      ensures ok ==> o != null && old(heap).stack == heap.stack + [o]
    {
      ok, o := stackSize > 0, null;
      if ok {
        stackSize := stackSize - 1;
        o := stack[stackSize];
        heap := heap.(stack := heap.stack[..stackSize]);
      }
    }

    method PushInt(value: int) returns (ok: bool, o: Object)
      requires Valid()
      modifies this`firstObject, this`numObjects, this`maxObjects, this`heap, this`stackSize, stack
      modifies heap.cells.Keys`next, heap.cells.Keys`marked
      ensures fresh(o) && HeapModel.PushInt(old(heap), o, value) == if ok then Some(heap) else None
      ensures Valid()
    {
      ghost var room := MakeRoom(heap);
      o := NewObject(false);
      SetCell(o, IntCell(value));
      AllocatedThenWritten(room, o, IntCell(0), IntCell(value));
      ok := Push(o);
    }

    /** `object->second = pop(vm)`, and likewise for `first`. */
    method PopSecond(o: Object) returns (ok: bool)
      requires Valid() && o in heap.cells && heap.cells[o].PairCell?
      modifies this`heap, this`stackSize, o`cell
      ensures Valid() && ok == (|old(heap).stack| > 0)
      ensures ok ==> var h, n := old(heap), |old(heap).stack| - 1;
                     heap == h.(stack := h.stack[..n], cells := h.cells[o := PairCell(h.cells[o].first, h.stack[n])])
    {
      var second;
      ok, second := Pop();
      if ok {
        assert second in Elements(old(heap).stack) && heap.cells[o].first in Targets(heap.cells[o]);
        SetCell(o, PairCell(o.cell.first, second));
      }
    }

    method PopFirst(o: Object) returns (ok: bool)
      requires Valid() && o in heap.cells && heap.cells[o].PairCell?
      modifies this`heap, this`stackSize, o`cell
      ensures Valid() && ok == (|old(heap).stack| > 0)
      ensures ok ==> var h, n := old(heap), |old(heap).stack| - 1;
                     heap == h.(stack := h.stack[..n], cells := h.cells[o := PairCell(h.stack[n], h.cells[o].second)])
    {
      var first;
      ok, first := Pop();
      if ok {
        assert first in Elements(old(heap).stack) && heap.cells[o].second in Targets(heap.cells[o]);
        SetCell(o, PairCell(first, o.cell.second));
      }
    }

    /** Pops the second part of a new pair, then the first. */
    method PopParts(o: Object) returns (ok: bool)
      requires Valid() && o in heap.cells && heap.cells[o].PairCell?
      modifies this`heap, this`stackSize, o`cell
      ensures Valid() && ok == (|old(heap).stack| > 1)
      ensures ok ==> var h, n := old(heap), |old(heap).stack| - 2;
                     heap == h.(stack := h.stack[..n], cells := h.cells[o := PairCell(h.stack[n], h.stack[n + 1])])
    {
      hide Valid;
      ok := PopSecond(o);
      if !ok { return; }
      ok := PopFirst(o);
    }

    /** The object is allocated before its parts are popped, so a collection still finds them rooted. */
    method PushPair() returns (ok: bool, o: Object)
      requires Valid()
      modifies this`firstObject, this`numObjects, this`maxObjects, this`heap, this`stackSize, stack
      modifies heap.cells.Keys`next, heap.cells.Keys`marked
      ensures Valid() && fresh(o)
      ensures HeapModel.PushPair(old(heap), o) == if ok then Some(heap) else None
    {
      hide Valid, MakeRoom, HeapModel.Valid, HeapModel.PushPair, HeapModel.Push;
      ghost var h := heap;
      HeapIsValid();
      o := NewObject(true);
      PairWritten(h, o);
      ok := PopParts(o);
      if !ok { return; }
      ok := Push(o);
    }

    /** Shutting down leaves no object on the list. */
    method FreeVM()
      requires Valid()
      modifies this`firstObject, this`numObjects, this`maxObjects, this`heap, this`stackSize
      modifies heap.cells.Keys`next, heap.cells.Keys`marked
      ensures firstObject == null && numObjects == 0
    {
      stackSize := 0;
      heap := heap.(stack := []);
      RootlessHeapIsEmptied(heap);
      Gc();
    }
  }

  lemma {:induction false} KeepNone<T>(s: seq<T>)
    ensures Keep(s, {}) == []
  {
    if s != [] { KeepNone(s[1..]); }
  }

  lemma RootlessHeapIsEmptied<T>(h: Heap<T>)
    requires HeapModel.Valid(h) && h.stack == []
    ensures Collect(h).objs == []
  {
    CollectKeepsValid(h);
    FillIsLeast(Edges(h.cells), {}, Elements(h.stack), {});
    assert Live(h) == {};
    KeepNone(h.objs);
  }
}
