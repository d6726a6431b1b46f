/**
 Reachability in a finite graph, the mathematics behind the mark phase.

 `Fill(g, marked, work)` is the least set that contains `work` and that contains every
 successor of each of its nodes not in `marked`.  Nodes of `marked` are not expanded: this is
 what a depth-first marker does with a node whose mark bit is already set.
 */
module Reachability {

  type Graph<T> = map<T, set<T>>

  ghost predicate IsGraph<T>(g: Graph<T>) {
    forall x, y :: x in g && y in g[x] ==> y in g
  }

  /** Every successor of an expanded node of `xs` is in `xs`. */
  ghost predicate Closed<T>(g: Graph<T>, marked: set<T>, xs: set<T>) {
    forall x, y :: x in xs && x !in marked && x in g && y in g[x] ==> y in xs
  }

  ghost function Frontier<T>(g: Graph<T>, marked: set<T>, work: set<T>): (f: set<T>)
  {
    set x, y | x in work && x !in marked && x in g && y in g[x] && y !in work :: y
  }

  ghost function Fill<T>(g: Graph<T>, marked: set<T>, work: set<T>): (xs: set<T>)
    requires IsGraph(g) && work <= g.Keys
    ensures work <= xs <= g.Keys
    decreases g.Keys - work
  {
    var f := Frontier(g, marked, work);
    if f == {} then work
    else
      assert f <= g.Keys;
      var n :| n in f;
      assert n in g.Keys - work && n !in g.Keys - (work + f);
      Fill(g, marked, work + f)
  }

  lemma {:induction false} FillIsClosed<T>(g: Graph<T>, marked: set<T>, work: set<T>)
    requires IsGraph(g) && work <= g.Keys
    ensures Closed(g, marked, Fill(g, marked, work))
    decreases g.Keys - work
  {
    var f := Frontier(g, marked, work);
    if f == {} {
      forall x, y | x in work && x !in marked && x in g && y in g[x] ensures y in work {
        assert y in work || y in f;
      }
    } else {
      var n :| n in f;
      assert n in g.Keys - work && n !in g.Keys - (work + f);
      FillIsClosed(g, marked, work + f);
    }
  }

  /** The nodes that some path from `roots` visits. */
  ghost function Reach<T>(g: Graph<T>, roots: set<T>): set<T>
    requires IsGraph(g) && roots <= g.Keys
  {
    Fill(g, {}, roots)
  }

  lemma {:induction false} FillIsLeast<T>(g: Graph<T>, marked: set<T>, work: set<T>, xs: set<T>)
    requires IsGraph(g) && work <= g.Keys
    requires work <= xs && Closed(g, marked, xs)
    ensures Fill(g, marked, work) <= xs
    decreases g.Keys - work
  {
    var f := Frontier(g, marked, work);
    if f != {} {
      var n :| n in f;
      assert n in g.Keys - work && n !in g.Keys - (work + f);
      FillIsLeast(g, marked, work + f, xs);
    }
  }

  /** Filling from `a` and then from `b` fills from both: the loop over the roots. */
  lemma FillTwice<T>(g: Graph<T>, marked: set<T>, a: set<T>, b: set<T>)
    requires IsGraph(g) && marked <= g.Keys && a <= g.Keys && b <= g.Keys
    ensures var once := Fill(g, marked, marked + a);
            Fill(g, once, once + b) == Fill(g, marked, marked + a + b)
  {
    var once := Fill(g, marked, marked + a);
    var twice := Fill(g, once, once + b);
    var both := Fill(g, marked, marked + a + b);
    FillIsClosed(g, marked, marked + a);
    FillIsClosed(g, once, once + b);
    FillIsClosed(g, marked, marked + a + b);
    FillIsLeast(g, marked, marked + a + b, twice);
    FillIsLeast(g, marked, marked + a, both);
    FillIsLeast(g, once, once + b, both);
  }

  /** Marking an unmarked node and then filling from its successors fills from the node. */
  lemma FillNode<T>(g: Graph<T>, marked: set<T>, n: T)
    requires IsGraph(g) && marked <= g.Keys && n in g && n !in marked
    ensures Fill(g, marked, marked + {n}) == Fill(g, marked + {n}, marked + {n} + g[n])
  {
    var lhs := Fill(g, marked, marked + {n});
    var rhs := Fill(g, marked + {n}, marked + {n} + g[n]);
    FillIsClosed(g, marked, marked + {n});
    FillIsClosed(g, marked + {n}, marked + {n} + g[n]);
    FillIsLeast(g, marked, marked + {n}, rhs);
    FillIsLeast(g, marked + {n}, marked + {n} + g[n], lhs);
  }

  /** Filling from nodes that are all marked adds nothing. */
  lemma FillMarked<T>(g: Graph<T>, marked: set<T>)
    requires IsGraph(g) && marked <= g.Keys
    ensures Fill(g, marked, marked) == marked
  {
    FillIsLeast(g, marked, marked, marked);
  }

  /** A node with two successors is filled from by marking it and filling from one after the other. */
  lemma FillPair<T>(g: Graph<T>, marked: set<T>, n: T, a: T, b: T)
    requires IsGraph(g) && marked <= g.Keys && n in g && n !in marked && g[n] == {a, b}
    ensures var entered := marked + {n};
            var once := Fill(g, entered, entered + {a});
            Fill(g, once, once + {b}) == Fill(g, marked, marked + {n})
  {
    var entered := marked + {n};
    assert a in g[n] && b in g[n];
    FillNode(g, marked, n);
    FillTwice(g, entered, {a}, {b});
    assert entered + {a} + {b} == entered + g[n];
  }

  /** A node without successors is filled from by marking it. */
  lemma FillLeaf<T>(g: Graph<T>, marked: set<T>, n: T)
    requires IsGraph(g) && marked <= g.Keys && n in g && n !in marked && g[n] == {}
    ensures Fill(g, marked, marked + {n}) == marked + {n}
  {
    FillNode(g, marked, n);
    FillMarked(g, marked + {n});
    assert marked + {n} + g[n] == marked + {n};
  }

  // ----- The same sets described by paths -----

  /** `p` starts in `roots`, follows edges, and meets no node of `marked`. */
  ghost predicate IsPath<T>(g: Graph<T>, marked: set<T>, roots: set<T>, p: seq<T>) {
    && p != []
    && p[0] in roots
    && (forall i | 0 <= i < |p| :: p[i] in g && p[i] !in marked)
    && (forall i | 0 < i < |p| :: p[i] in g[p[i - 1]])
  }

  lemma {:induction false} PathEndIsFilled<T>(g: Graph<T>, marked: set<T>, roots: set<T>, p: seq<T>)
    requires IsGraph(g) && marked <= g.Keys && roots <= g.Keys
    requires IsPath(g, marked, roots, p)
    ensures p[|p| - 1] in Fill(g, marked, marked + roots)
  {
    if |p| > 1 {
      var q := p[..|p| - 1];
      PathEndIsFilled(g, marked, roots, q);
      FillIsClosed(g, marked, marked + roots);
      assert p[|p| - 1] in g[p[|p| - 2]] && p[|p| - 2] == q[|q| - 1];
    }
  }

  lemma {:induction false} FilledHasPath<T>(g: Graph<T>, marked: set<T>, work: set<T>, x: T) returns (p: seq<T>)
    requires IsGraph(g) && work <= g.Keys
    requires x in Fill(g, marked, work) && x !in marked
    ensures IsPath(g, marked, work, p) && p[|p| - 1] == x
    decreases g.Keys - work
  {
    var f := Frontier(g, marked, work);
    if f == {} {
      p := [x];
    } else {
      var n :| n in f;
      assert n in g.Keys - work && n !in g.Keys - (work + f);
      p := FilledHasPath(g, marked, work + f, x);
      p := PathFromWork(g, marked, work, p);
    }
  }

  /** A path from the frontier is led to by a path from the nodes before it. */
  lemma PathFromWork<T>(g: Graph<T>, marked: set<T>, work: set<T>, p: seq<T>) returns (q: seq<T>)
    requires IsPath(g, marked, work + Frontier(g, marked, work), p)
    ensures IsPath(g, marked, work, q) && q[|q| - 1] == p[|p| - 1]
  {
    q := p;
    if p[0] !in work {
      var w :| w in work && w !in marked && w in g && p[0] in g[w];
      q := [w] + p;
    }
  }
}
