/**
 What holds over every run of the collector: exactness, order, closure, cost, and the fact that
 a client cannot tell whether collections take place.
 */
module HeapRuns {
  import opened Reachability
  import opened HeapModel

  // ----- What one collection keeps -----

  /** A collection keeps an object exactly if a path from a stack slot ends in it. */
  lemma CollectKeepsExactlyTheReachable<T>(h: Heap<T>)
    requires Valid(h)
    ensures forall o :: o in Collect(h).objs <==>
                        exists p: seq<T> :: IsPath(Edges(h.cells), {}, Elements(h.stack), p) && p[|p| - 1] == o
  {
    var g, roots := Edges(h.cells), Elements(h.stack);
    assert {} + roots == roots;
    KeepMembers(h.objs, Live(h));
    forall o ensures o in Collect(h).objs <==>
                     exists p: seq<T> :: IsPath(g, {}, roots, p) && p[|p| - 1] == o
    {
      assert o in Collect(h).objs <==> o in Elements(Collect(h).objs);
      if o in Live(h) {
        var p := FilledHasPath(g, {}, roots, o);
      }
      if exists p: seq<T> :: IsPath(g, {}, roots, p) && p[|p| - 1] == o {
        var p: seq<T> :| IsPath(g, {}, roots, p) && p[|p| - 1] == o;
        PathEndIsFilled(g, {}, roots, p);
      }
    }
  }

  /** The sweep is a stable filter: it can be done part by part, and the parts keep their order. */
  lemma {:induction false} KeepConcat<T>(s: seq<T>, t: seq<T>, live: set<T>)
    ensures Keep(s + t, live) == Keep(s, live) + Keep(t, live)
  {
    if s == [] {
      assert s + t == t;
    } else {
      var head := if s[0] in live then [s[0]] else [];
      assert (s + t)[0] == s[0] && (s + t)[1..] == s[1..] + t;
      assert Keep(s + t, live) == head + Keep(s[1..] + t, live) && Keep(s, live) == head + Keep(s[1..], live);
      hide Keep;
      KeepConcat(s[1..], t, live);
      AppendAssoc(head, Keep(s[1..], live), Keep(t, live));
    }
  }

  lemma AppendAssoc<T>(a: seq<T>, b: seq<T>, c: seq<T>)
    ensures a + b + c == a + (b + c)
  {
  }

  /** Two survivors stand in the order in which they stood, with the survivors between them. */
  lemma KeepOrder<T>(a: seq<T>, x: T, b: seq<T>, y: T, c: seq<T>, live: set<T>)
    requires x in live && y in live
    ensures Keep(a + [x] + b + [y] + c, live) ==
            Keep(a, live) + [x] + Keep(b, live) + [y] + Keep(c, live)
  {
    KeepConcat(a + [x] + b + [y], c, live);
    KeepConcat(a + [x] + b, [y], live);
    KeepConcat(a + [x], b, live);
    KeepConcat(a, [x], live);
  }

  lemma {:induction false} KeepAll<T>(s: seq<T>, live: set<T>)
    requires Elements(s) <= live
    ensures Keep(s, live) == s
  {
    if s != [] {
      assert Elements(s) == {s[0]} + Elements(s[1..]);
      KeepAll(s[1..], live);
    }
  }

  lemma LiveAfterCollect<T>(h: Heap<T>)
    requires Valid(h)
    ensures Valid(Collect(h))
    ensures Live(Collect(h)) == Live(h) == Collect(h).cells.Keys
  {
    CollectKeepsValid(h);
    var g, c := Edges(h.cells), Collect(h);
    var live, again := Live(h), Reach(Edges(c.cells), Elements(h.stack));
    assert Closed(g, {}, again) by {
      FillIsClosed(Edges(c.cells), {}, Elements(h.stack));
      forall x, y | x in again && x in g && y in g[x] ensures y in again {
        assert x in live && Edges(c.cells)[x] == g[x];
      }
    }
    FillIsLeast(g, {}, Elements(h.stack), again);
  }

  /** A second collection frees nothing: what the first one kept is still reachable. */
  lemma CollectTwiceFreesNothing<T>(h: Heap<T>)
    requires Valid(h)
    ensures Valid(Collect(h))
    ensures Collect(Collect(h)).objs == Collect(h).objs
    ensures Collect(Collect(h)).cells == Collect(h).cells
  {
    LiveAfterCollect(h);
    KeepAll(Collect(h).objs, Live(Collect(h)));
  }

  // ----- Runs -----

  ghost predicate LegalRun<T>(h: Heap<T>, ops: seq<Op<T>>)
    requires Valid(h)
    decreases |ops|
  {
    ops != [] ==>
      && Legal(h, ops[0])
      && (Step(h, ops[0]).Some? ==>
            (StepKeepsValid(h, ops[0]); LegalRun(Step(h, ops[0]).value, ops[1..])))
  }

  /** Any sequence of operations; every heap it passes through is valid. */
  ghost function Run<T>(h: Heap<T>, ops: seq<Op<T>>): (r: Option<Heap<T>>)
    requires Valid(h) && LegalRun(h, ops)
    ensures r.Some? ==> Valid(r.value)
    decreases |ops|
  {
    if ops == [] then Some(h)
    else if Step(h, ops[0]).None? then None
    else
      StepKeepsValid(h, ops[0]);
      Run(Step(h, ops[0]).value, ops[1..])
  }

  /** Twice the objects allocated since the threshold was set: enough to pay for the next sweep. */
  function Credit<T>(h: Heap<T>): nat {
    if 2 * |h.objs| > h.maxObjects then 2 * |h.objs| - h.maxObjects else 0
  }

  lemma StepIsPaidFor<T>(h: Heap<T>, op: Op<T>)
    requires Valid(h) && Legal(h, op) && !op.OpGc?
    ensures Step(h, op).Some? ==>
              var h' := Step(h, op).value;
              h'.visits + Credit(h') - 2 * h'.allocs <= h.visits + Credit(h) - 2 * h.allocs
  {
  }

  /**
   If collections are only those that allocation triggers, all sweeps together visit at most two
   objects for each object allocated.
   */
  lemma {:induction false} SweepsAreAmortised<T>(h: Heap<T>, ops: seq<Op<T>>)
    requires Valid(h) && LegalRun(h, ops)
    requires forall op | op in ops :: !op.OpGc?
    requires h.visits + Credit(h) <= 2 * h.allocs
    ensures Run(h, ops).Some? ==> Run(h, ops).value.visits <= 2 * Run(h, ops).value.allocs
    decreases |ops|
  {
    if ops != [] && Step(h, ops[0]).Some? {
      StepKeepsValid(h, ops[0]);
      StepIsPaidFor(h, ops[0]);
      SweepsAreAmortised(Step(h, ops[0]).value, ops[1..]);
    }
  }

  lemma NewVMIsAmortised<T>(ops: seq<Op<T>>)
    requires LegalRun(EmptyHeap(), ops)
    requires forall op | op in ops :: !op.OpGc?
    ensures var r := Run(EmptyHeap(), ops);
            r.Some? ==> r.value.visits <= 2 * r.value.allocs
  {
    SweepsAreAmortised(EmptyHeap(), ops);
  }

  // ----- The threshold -----

  ghost predicate Collects<T>(h: Heap<T>, op: Op<T>) {
    || op.OpGc?
    || ((op.OpPushInt? || (op.OpPushPair? && |h.stack| >= 2)) && |h.objs| == h.maxObjects)
  }

  /** How many objects the last collection of a run kept, if there was one. */
  ghost function LastSurvivors<T>(h: Heap<T>, ops: seq<Op<T>>): Option<nat>
    requires Valid(h) && LegalRun(h, ops)
    decreases |ops|
  {
    if ops == [] || Step(h, ops[0]).None? then None
    else
      StepKeepsValid(h, ops[0]);
      var later := LastSurvivors(Step(h, ops[0]).value, ops[1..]);
      if later.Some? then later
      else if Collects(h, ops[0]) then Some(|Collect(h).objs|)
      else None
  }

  lemma StepThreshold<T>(h: Heap<T>, op: Op<T>)
    requires Valid(h) && Legal(h, op) && Step(h, op).Some?
    ensures Step(h, op).value.maxObjects ==
            if !Collects(h, op) then h.maxObjects
            else if |Collect(h).objs| == 0 then INITIAL_THRESHOLD else 2 * |Collect(h).objs|
  {
  }

  /**
   After any run the threshold is the first one, or follows the last collection: 8, or twice what it
   kept.  The list is never longer.
   */
  lemma {:induction false} ThresholdFollowsSurvivors<T>(h: Heap<T>, ops: seq<Op<T>>)
    requires Valid(h) && LegalRun(h, ops)
    ensures Run(h, ops).Some? ==>
              var end, kept := Run(h, ops).value, LastSurvivors(h, ops);
              && |end.objs| <= end.maxObjects
              && end.maxObjects == if kept.None? then h.maxObjects
                                   else if kept.value == 0 then INITIAL_THRESHOLD else 2 * kept.value
    decreases |ops|
  {
    if ops != [] && Step(h, ops[0]).Some? {
      StepKeepsValid(h, ops[0]);
      StepThreshold(h, ops[0]);
      ThresholdFollowsSurvivors(Step(h, ops[0]).value, ops[1..]);
    }
  }

  // ----- A client cannot see collections -----

  /** The same step in a memory where no collection is ever triggered. */
  ghost function Roomy<T>(h: Heap<T>): Heap<T> {
    h.(maxObjects := |h.objs| + 1)
  }

  ghost predicate LegalUncollected<T>(k: Heap<T>, op: Op<T>)
    requires Valid(k)
  {
    op.OpGc? || Legal(Roomy(k), op)
  }

  ghost function StepUncollected<T>(k: Heap<T>, op: Op<T>): (r: Option<Heap<T>>)
    requires Valid(k) && LegalUncollected(k, op)
    ensures r.Some? ==> Valid(r.value)
  {
    if op.OpGc? then Some(k) else StepKeepsValid(Roomy(k), op); Step(Roomy(k), op)
  }

  ghost predicate LegalUncollectedRun<T>(k: Heap<T>, ops: seq<Op<T>>)
    requires Valid(k)
    decreases |ops|
  {
    ops != [] ==>
      && LegalUncollected(k, ops[0])
      && (StepUncollected(k, ops[0]).Some? ==> LegalUncollectedRun(StepUncollected(k, ops[0]).value, ops[1..]))
  }

  ghost function RunUncollected<T>(k: Heap<T>, ops: seq<Op<T>>): (r: Option<Heap<T>>)
    requires Valid(k) && LegalUncollectedRun(k, ops)
    decreases |ops|
  {
    if ops == [] then Some(k)
    else if StepUncollected(k, ops[0]).None? then None
    else RunUncollected(StepUncollected(k, ops[0]).value, ops[1..])
  }

  /** The collected heap `h` shows the same stack as `k`, and every object it still has is as in `k`. */
  ghost predicate Agree<T>(h: Heap<T>, k: Heap<T>) {
    && h.stack == k.stack
    && (forall o | o in h.cells :: o in k.cells && h.cells[o] == k.cells[o])
  }

  function NewIds<T>(ops: seq<Op<T>>): seq<T> {
    if ops == [] then []
    else match ops[0]
      case OpPushInt(o, _) => [o] + NewIds(ops[1..])
      case OpPushPair(o) => [o] + NewIds(ops[1..])
      case _ => NewIds(ops[1..])
  }

  /** What it means for one operation to do the same in both memories. */
  ghost predicate SameOutcome<T>(h: Heap<T>, k: Heap<T>, r: Option<Heap<T>>, q: Option<Heap<T>>, added: set<T>) {
    match (r, q)
    case (None, None) => true
    case (Some(h'), Some(k')) => Agree(h', k') && k'.cells.Keys == k.cells.Keys + added
    case _ => false
  }

  lemma AllocatingStepsAgree<T>(h: Heap<T>, k: Heap<T>, op: Op<T>, o: T)
    requires Valid(h) && Valid(k) && Agree(h, k) && Legal(h, op)
    requires (op.OpPushInt? || op.OpPushPair?) && o == op.o && o !in k.cells
    ensures LegalUncollected(k, op)
    ensures SameOutcome(h, k, Step(h, op), StepUncollected(k, op), {o})
  {
    assert o in k.objs ==> o in Elements(k.objs);
  }

  lemma OtherStepsAgree<T>(h: Heap<T>, k: Heap<T>, op: Op<T>)
    requires Valid(h) && Valid(k) && Agree(h, k) && Legal(h, op)
    requires !op.OpPushInt? && !op.OpPushPair?
    ensures LegalUncollected(k, op)
    ensures SameOutcome(h, k, Step(h, op), StepUncollected(k, op), {})
  {
  }

  lemma StepsAgree<T>(h: Heap<T>, k: Heap<T>, op: Op<T>)
    requires Valid(h) && Valid(k) && Agree(h, k) && Legal(h, op)
    requires Elements(NewIds([op])) !! k.cells.Keys
    ensures LegalUncollected(k, op)
    ensures SameOutcome(h, k, Step(h, op), StepUncollected(k, op), Elements(NewIds([op])))
  {
    if op.OpPushInt? || op.OpPushPair? {
      assert NewIds([op]) == [op.o];
      assert Elements(NewIds([op])) == {op.o};
      AllocatingStepsAgree(h, k, op, op.o);
    } else {
      assert NewIds([op]) == [];
      OtherStepsAgree(h, k, op);
    }
  }

  lemma NewIdsSplit<T>(ops: seq<Op<T>>)
    requires ops != []
    ensures NewIds(ops) == NewIds([ops[0]]) + NewIds(ops[1..])
  {
    var one, later := [ops[0]], NewIds(ops[1..]);
    assert one[1..] == [] && NewIds(one[1..]) == [];
    assert [] + later == later;
  }

  lemma {:induction false} DistinctParts<T>(a: seq<T>, b: seq<T>)
    requires Distinct(a + b)
    ensures Distinct(b) && Elements(a) !! Elements(b) && Elements(a + b) == Elements(a) + Elements(b)
  {
    if a == [] {
      assert a + b == b;
    } else {
      assert (a + b)[1..] == a[1..] + b;
      DistinctParts(a[1..], b);
      ElementsConcat([a[0]], a[1..]);
      ElementsConcat(a, b);
      assert a == [a[0]] + a[1..];
    }
  }

  /**
   With identities that are never reused, a run with collections and the same run without them
   end alike, and in the end the stack and every object on the list agree.
   */
  lemma {:induction false} CollectionIsTransparent<T>(h: Heap<T>, k: Heap<T>, ops: seq<Op<T>>)
    requires Valid(h) && Valid(k) && Agree(h, k) && LegalRun(h, ops)
    requires Distinct(NewIds(ops)) && Elements(NewIds(ops)) !! k.cells.Keys
    ensures LegalUncollectedRun(k, ops)
    ensures Run(h, ops).Some? <==> RunUncollected(k, ops).Some?
    ensures Run(h, ops).Some? ==> Agree(Run(h, ops).value, RunUncollected(k, ops).value)
    decreases |ops|
  {
    if ops != [] {
      var now, later := NewIds([ops[0]]), NewIds(ops[1..]);
      NewIdsSplit(ops);
      DistinctParts(now, later);
      StepsAgree(h, k, ops[0]);
      if Step(h, ops[0]).Some? {
        StepKeepsValid(h, ops[0]);
        CollectionIsTransparent(Step(h, ops[0]).value, StepUncollected(k, ops[0]).value, ops[1..]);
      }
    }
  }

  /** The cell a client reaches from `from` by a path of fields: true for first, false for second. */
  ghost function Follow<T>(cells: map<T, Cell<T>>, from: T, path: seq<bool>): Option<Cell<T>>
    decreases |path|
  {
    if from !in cells then None
    else if path == [] then Some(cells[from])
    else match cells[from]
      case IntCell(_) => None
      case PairCell(first, second) => Follow(cells, if path[0] then first else second, path[1..])
  }

  /** Agreement is all a client can observe: field paths from a stack slot end in equal cells. */
  lemma {:induction false} AgreeingHeapsLookAlike<T>(h: Heap<T>, k: Heap<T>, from: T, path: seq<bool>)
    requires Valid(h) && Agree(h, k) && from in h.cells
    ensures Follow(h.cells, from, path) == Follow(k.cells, from, path)
    decreases |path|
  {
    if path != [] && h.cells[from].PairCell? {
      var c := h.cells[from];
      assert c.first in Targets(c) && c.second in Targets(c);
      AgreeingHeapsLookAlike(h, k, if path[0] then c.first else c.second, path[1..]);
    }
  }

  // ----- What each operation does, in numbers and fields -----

  /** A new machine collects at 8 objects; a collection sets twice what it keeps, or 8 if that is nothing. */
  lemma Thresholds<T>(h: Heap<T>)
    requires Valid(h)
    ensures var e := EmptyHeap<T>(); e.maxObjects == 8 && e.stack == [] && e.objs == [] && e.cells == map[]
    ensures Collect(h).maxObjects == if |Collect(h).objs| == 0 then 8 else 2 * |Collect(h).objs|
    ensures Collect(h).stack == h.stack
    ensures forall o | o in Collect(h).cells :: o in h.cells && Collect(h).cells[o] == h.cells[o]
  {
    CollectKeepsValid(h);
  }

  /** The stack takes 256 slots. */
  lemma StackLimit<T>(h: Heap<T>, o: T, p: T, value: int)
    requires Valid(h)
    ensures Push(h, o) == if |h.stack| < 256 then Some(h.(stack := h.stack + [o])) else None
    ensures PushInt(h, p, value).None? <==> |h.stack| == 256
    ensures PushPair(h, p).None? <==> |h.stack| < 2
    ensures Pop(h).None? <==> h.stack == []
  {
    MakeRoomKeepsValid(h);
  }

  /** Making room for an object takes nothing away that the stack holds, and changes no field. */
  lemma RoomKeepsRoots<T>(h: Heap<T>)
    requires Valid(h)
    ensures var n := MakeRoom(h);
            && n.stack == h.stack && n.allocs == h.allocs
            && (forall x | x in h.stack :: x in n.cells && x in n.objs)
            && forall x | x in n.cells :: x in h.cells && n.cells[x] == h.cells[x]
  {
    CollectKeepsValid(h);
    var n := MakeRoom(h);
    forall x | x in h.stack ensures x in n.cells && x in n.objs {
      assert x in Elements(h.stack);
      assert n.cells.Keys == Elements(n.objs);
    }
  }

  /** A pushed int is on top of the stack and at the head of the list and holds the value; no field changes. */
  lemma PushedInt<T>(h: Heap<T>, o: T, value: int)
    requires Valid(h) && Legal(h, OpPushInt(o, value)) && |h.stack| < 256
    ensures var n := PushInt(h, o, value).value;
            && n.stack == h.stack + [o] && n.objs != [] && n.objs[0] == o && n.allocs == h.allocs + 1
            && o in n.cells && n.cells[o] == IntCell(value)
            && o !in h.stack && (forall x | x in h.stack :: x in n.cells)
            && forall x | x in n.cells && x != o :: x in h.cells && n.cells[x] == h.cells[x]
  {
    hide MakeRoom, Valid;
    RoomKeepsRoots(h);
  }

  /** A pushed pair takes the two upper slots off the stack and holds the lower one first. */
  lemma PushedPair<T>(h: Heap<T>, o: T, rest: seq<T>, a: T, b: T)
    requires Valid(h) && Legal(h, OpPushPair(o)) && h.stack == rest + [a, b]
    ensures PushPair(h, o).Some?
    ensures var n := PushPair(h, o).value;
            && n.stack == rest + [o] && n.objs != [] && n.objs[0] == o && n.allocs == h.allocs + 1
            && o in n.cells && n.cells[o] == PairCell(a, b)
            && o !in h.stack && (forall x | x in h.stack :: x in n.cells)
            && forall x | x in n.cells && x != o :: x in h.cells && n.cells[x] == h.cells[x]
  {
    hide MakeRoom, Valid;
    RoomKeepsRoots(h);
    assert h.stack[..|h.stack| - 2] == rest;
  }

  /** Two ints and a pair of them, from any heap: the pair leads to the two values in order. */
  lemma PairOfInts<T>(h: Heap<T>, x: T, i: int, y: T, j: int, o: T)
    requires Valid(h) && |h.stack| < 255
    requires LegalRun(h, [OpPushInt(x, i), OpPushInt(y, j), OpPushPair(o)])
    ensures var r := Run(h, [OpPushInt(x, i), OpPushInt(y, j), OpPushPair(o)]);
            && r.Some? && r.value.stack == h.stack + [o]
            && o in r.value.cells && r.value.cells[o] == PairCell(x, y)
            && x in r.value.cells && y in r.value.cells
            && r.value.cells[x] == IntCell(i) && r.value.cells[y] == IntCell(j)
  {
    hide PushInt, PushPair, Push, Pop, Collect, MakeRoom, Legal, LegalRun, Run, Valid;
    var last: seq<Op<T>> := [OpPushPair(o)];
    var later: seq<Op<T>> := [OpPushInt(y, j)] + last;
    var ops: seq<Op<T>> := [OpPushInt(x, i)] + later;
    assert ops == [OpPushInt(x, i), OpPushInt(y, j), OpPushPair(o)];
    assert ops[1..] == later && later[1..] == last && last[1..] == [];
    StackLimit(h, x, x, i);
    FirstIsLegal(h, ops);
    PushedInt(h, x, i);
    var h1 := FirstStep(h, ops);
    StackLimit(h1, y, y, j);
    FirstIsLegal(h1, later);
    PushedInt(h1, y, j);
    var h2 := FirstStep(h1, later);
    StackLimit(h2, o, o, 0);
    FirstIsLegal(h2, last);
    assert x in h1.stack && x in h2.stack && y in h2.stack;
    assert h2.stack == h.stack + [x, y];
    PushedPair(h2, o, h.stack, x, y);
    var h3 := FirstStep(h2, last);
    NoSteps(h3);
  }

  lemma FirstIsLegal<T>(h: Heap<T>, ops: seq<Op<T>>)
    requires Valid(h) && LegalRun(h, ops) && ops != []
    ensures Legal(h, ops[0])
  {
  }

  lemma FirstStep<T>(h: Heap<T>, ops: seq<Op<T>>) returns (n: Heap<T>)
    requires Valid(h) && LegalRun(h, ops) && ops != []
    requires Legal(h, ops[0]) && Step(h, ops[0]).Some?
    ensures n == Step(h, ops[0]).value && Valid(n) && LegalRun(n, ops[1..]) && Run(h, ops) == Run(n, ops[1..])
  {
    StepKeepsValid(h, ops[0]);
    n := Step(h, ops[0]).value;
  }

  lemma NoSteps<T>(h: Heap<T>)
    requires Valid(h)
    ensures LegalRun(h, []) && Run(h, []) == Some(h)
  {
  }

  /** Both parts of a listed pair are listed, before and after a collection. */
  lemma PartsAreListed<T>(h: Heap<T>, o: T, a: T, b: T)
    requires Valid(h) && o in h.cells && h.cells[o] == PairCell(a, b)
    ensures a in h.objs && b in h.objs
    ensures var c := Collect(h);
            o in c.objs ==> o in c.cells && c.cells[o] == PairCell(a, b) && a in c.objs && b in c.objs
  {
    CollectKeepsValid(h);
    PartsAreElements(h, o, a, b);
    if o in Collect(h).objs {
      assert o in Elements(Collect(h).objs);
      PartsAreElements(Collect(h), o, a, b);
    }
  }

  lemma PartsAreElements<T>(h: Heap<T>, o: T, a: T, b: T)
    requires Valid(h) && o in h.cells && h.cells[o] == PairCell(a, b)
    ensures a in h.objs && b in h.objs
  {
    assert Targets(h.cells[o]) == {a, b} && h.cells.Keys == Elements(h.objs);
    assert a in Elements(h.objs) && b in Elements(h.objs);
  }

  /** Writing a field of a pair leaves its other field, every other object and the stack as they are. */
  lemma WrittenFields<T>(h: Heap<T>, o: T, target: T)
    requires Valid(h) && Legal(h, OpSetFirst(o, target))
    ensures Step(h, OpSetFirst(o, target)).Some? && Step(h, OpSetSecond(o, target)).Some?
    ensures var f, s := Step(h, OpSetFirst(o, target)).value, Step(h, OpSetSecond(o, target)).value;
            && f.cells.Keys == s.cells.Keys == h.cells.Keys
            && f.cells[o].PairCell? && f.cells[o].first == target && f.cells[o].second == h.cells[o].second
            && s.cells[o].PairCell? && s.cells[o].second == target && s.cells[o].first == h.cells[o].first
            && (forall x | x in h.cells && x != o :: f.cells[x] == s.cells[x] == h.cells[x])
            && f.stack == s.stack == h.stack && f.objs == s.objs == h.objs
  {
  }
}
