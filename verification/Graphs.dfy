/**
Finite directed graphs as adjacency maps, and the questions the walks over the type graph answer:
what can be reached without entering a set of nodes, and whether a walk comes back to itself.
 */
module Graphs {
  type Graph<!T> = map<T, seq<T>>

  ghost predicate Closed<T>(g: Graph<T>) {
    forall u, v :: u in g && v in g[u] ==> v in g
  }

  // A non-empty list of nodes, each an edge away from the one before.
  ghost predicate Walk<T>(g: Graph<T>, older w: seq<T>) {
    && w != []
    && (forall i :: 0 <= i < |w| ==> w[i] in g)
    && (forall i {:trigger w[i]} :: 0 < i < |w| ==> w[i] in g[w[i - 1]])
  }

  ghost predicate WalkFrom<T>(g: Graph<T>, t: T, older w: seq<T>) {
    Walk(g, w) && w[0] == t
  }

  ghost predicate Avoids<T>(w: seq<T>, avoid: set<T>) {
    forall i :: 0 <= i < |w| ==> w[i] !in avoid
  }

  function Last<T>(w: seq<T>): T
    requires w != []
  {
    w[|w| - 1]
  }

  ghost predicate WalkTo<T>(g: Graph<T>, t: T, u: T, avoid: set<T>, older w: seq<T>) {
    WalkFrom(g, t, w) && Last(w) == u && Avoids(w, avoid)
  }

  // Some walk leads from t to u without entering `avoid`, not even at its ends.
  ghost predicate Reaches<T>(g: Graph<T>, t: T, u: T, avoid: set<T>) {
    exists w :: WalkTo(g, t, u, avoid, w)
  }

  ghost function Reachable<T>(g: Graph<T>, t: T, avoid: set<T>): set<T> {
    set u | u in g && Reaches(g, t, u, avoid)
  }

  lemma WalkPrepend<T>(g: Graph<T>, t: T, w: seq<T>)
    requires t in g && Walk(g, w) && w[0] in g[t]
    ensures WalkFrom(g, t, [t] + w) && Last([t] + w) == Last(w)
  {
  }

  lemma WalkTail<T>(g: Graph<T>, w: seq<T>, k: nat)
    requires Walk(g, w) && k < |w|
    ensures WalkFrom(g, w[k], w[k..]) && Last(w[k..]) == Last(w)
  {
    forall i | 0 < i < |w[k..]|
      ensures w[k..][i] in g[w[k..][i - 1]]
    {
      assert w[k + i] in g[w[k + i - 1]];
    }
  }

  lemma WalkConcat<T>(g: Graph<T>, w: seq<T>, x: seq<T>)
    requires Walk(g, w) && Walk(g, x) && x[0] == Last(w)
    ensures WalkFrom(g, w[0], w + x[1..]) && Last(w + x[1..]) == Last(x)
  {
    var y := w + x[1..];
    forall i | 0 <= i < |y|
      ensures y[i] in g && (i > 0 ==> y[i] in g[y[i - 1]])
    {
      if i < |w| {
        assert y[i] == w[i];
      } else {
        assert y[i] == x[i - |w| + 1];
        assert y[i - 1] == x[i - |w|];
      }
    }
  }

  // On a cycle, what comes after a node leads back to it.
  lemma CycleComesBack<T>(g: Graph<T>, w: seq<T>, k: nat)
    requires Walk(g, w) && w[0] == Last(w) && k < |w| - 1
    ensures Reaches(g, w[k + 1], w[k], {})
  {
    WalkTail(g, w, k + 1);
    var first := w[..k + 1];
    forall i | 0 < i < |first|
      ensures first[i] in g[first[i - 1]]
    {
      assert w[i] in g[w[i - 1]];
    }
    WalkConcat(g, w[k + 1..], first);
    assert WalkTo(g, w[k + 1], w[k], {}, w[k + 1..] + first[1..]);
  }

  lemma ReachesSelf<T>(g: Graph<T>, t: T, avoid: set<T>)
    requires t in g && t !in avoid
    ensures Reaches(g, t, t, avoid)
  {
    assert WalkTo(g, t, t, avoid, [t]);
  }

  lemma ReachesPrepend<T>(g: Graph<T>, t: T, c: T, u: T, avoid: set<T>)
    requires t in g && c in g[t] && t !in avoid && Reaches(g, c, u, avoid)
    ensures Reaches(g, t, u, avoid)
  {
    var w :| WalkTo(g, c, u, avoid, w);
    WalkPrepend(g, t, w);
    assert WalkTo(g, t, u, avoid, [t] + w);
  }

  lemma ReachesAppend<T>(g: Graph<T>, t: T, u: T, v: T, avoid: set<T>)
    requires Closed(g) && Reaches(g, t, u, avoid) && v in g[u] && v !in avoid
    ensures Reaches(g, t, v, avoid)
  {
    var w :| WalkTo(g, t, u, avoid, w);
    var x := w + [v];
    forall i | 0 < i < |x|
      ensures x[i] in g[x[i - 1]]
    {
      assert i < |w| ==> w[i] in g[w[i - 1]];
    }
    assert WalkTo(g, t, v, avoid, x);
  }

  lemma ReachesWeaken<T>(g: Graph<T>, t: T, u: T, avoid: set<T>, less: set<T>)
    requires Reaches(g, t, u, avoid) && less <= avoid
    ensures Reaches(g, t, u, less)
  {
    var w :| WalkTo(g, t, u, avoid, w);
    assert WalkTo(g, t, u, less, w);
  }

  // The last visit of t cuts a walk so that what follows never comes back to t.
  lemma LastVisit<T>(w: seq<T>, t: T) returns (k: nat)
    requires t in w
    ensures k < |w| && w[k] == t && forall i :: k < i < |w| ==> w[i] != t
    decreases |w|
  {
    k := |w| - 1;
    if w[k] != t {
      k := LastVisit(w[..k], t);
    }
  }

  // Why a search may answer "no" on a node of its own path: whatever t reaches, it is t itself or
  // something a child reaches without coming back to t.
  lemma ReachesUnfold<T>(g: Graph<T>, t: T, u: T, avoid: set<T>)
    requires Closed(g) && t in g
    ensures Reaches(g, t, u, avoid) <==>
            t !in avoid && (u == t || exists c :: c in g[t] && Reaches(g, c, u, avoid + {t}))
  {
    if Reaches(g, t, u, avoid) {
      var w :| WalkTo(g, t, u, avoid, w);
      if u != t {
        var k := LastVisit(w, t);
        WalkTail(g, w, k + 1);
        assert w[k + 1] in g[w[k]];
        assert WalkTo(g, w[k + 1], u, avoid + {t}, w[k + 1..]);
      }
    }
    if t !in avoid {
      if u == t {
        ReachesSelf(g, t, avoid);
      } else if c :| c in g[t] && Reaches(g, c, u, avoid + {t}) {
        ReachesWeaken(g, c, u, avoid + {t}, avoid);
        ReachesPrepend(g, t, c, u, avoid);
      }
    }
  }

  // A set that holds t and every allowed child of its members holds all that t reaches.
  lemma {:induction false} WalkStaysIn<T>(g: Graph<T>, w: seq<T>, avoid: set<T>, x: set<T>)
    requires Walk(g, w) && Avoids(w, avoid) && w[0] in x
    requires forall u, v :: u in x && u in g && u !in avoid && v in g[u] ==> v in x || v in avoid
    ensures Last(w) in x
    decreases |w|
  {
    if |w| > 1 {
      assert w[1] in g[w[0]];
      WalkTail(g, w, 1);
      WalkStaysIn(g, w[1..], avoid, x);
    }
  }

  // ----- Marking from t, child by child -----

  // t was unmarked and is marked now; everything else newly marked is reached from t through
  // unmarked nodes and has its children marked, and so have the children already done.
  ghost predicate Spreading<T>(g: Graph<T>, t: T, before: set<T>, now: set<T>, done: seq<T>)
    requires t in g
  {
    && before + {t} <= now <= before + Reachable(g, t, before)
    && (forall u, v :: u in now && u !in before && u != t && u in g && v in g[u] ==> v in now)
    && forall c :: c in done ==> c in now
  }

  lemma SpreadStart<T>(g: Graph<T>, t: T, before: set<T>)
    requires t in g && t !in before
    ensures Spreading(g, t, before, before + {t}, [])
  {
    ReachesSelf(g, t, before);
  }

  lemma SpreadChild<T>(g: Graph<T>, t: T, before: set<T>, now: set<T>, done: seq<T>, c: T)
    requires Closed(g) && t in g && t !in before && c in g[t] && Spreading(g, t, before, now, done)
    ensures Spreading(g, t, before, now + Reachable(g, c, now), done + [c])
  {
    var added := Reachable(g, c, now);
    forall u | u in added
      ensures u in Reachable(g, t, before)
    {
      ReachesWeaken(g, c, u, now, before);
      ReachesPrepend(g, t, c, u, before);
    }
    forall u, v | u in added && v in g[u]
      ensures v in now + added
    {
      if v !in now {
        ReachesAppend(g, c, u, v, now);
      }
    }
    if c !in now {
      ReachesSelf(g, c, now);
    }
  }

  lemma SpreadDone<T>(g: Graph<T>, t: T, before: set<T>, now: set<T>)
    requires t in g && t !in before && Spreading(g, t, before, now, g[t])
    ensures now == before + Reachable(g, t, before)
  {
    forall u | u in Reachable(g, t, before)
      ensures u in now
    {
      var w :| WalkTo(g, t, u, before, w);
      WalkStaysIn(g, w, before, now);
    }
  }

  // Every child of a marked node is marked.
  ghost predicate Downward<T>(g: Graph<T>, marked: set<T>) {
    forall u, v :: u in marked && u in g && v in g[u] ==> v in marked
  }

  // Where marks already go all the way down, stopping at a marked node loses nothing.
  lemma SpreadReachesAll<T>(g: Graph<T>, t: T, before: set<T>)
    requires Closed(g) && t in g && Downward(g, before)
    ensures var now := before + Reachable(g, t, before);
            Downward(g, now) && Reachable(g, t, {}) <= now
  {
    var now := before + Reachable(g, t, before);
    forall u, v | u in now && u in g && v in g[u]
      ensures v in now
    {
      if u !in before && v !in before {
        ReachesAppend(g, t, u, v, before);
      }
    }
    if t !in before {
      ReachesSelf(g, t, before);
    }
    forall u | u in Reachable(g, t, {})
      ensures u in now
    {
      var w :| WalkTo(g, t, u, {}, w);
      WalkStaysIn(g, w, {}, now);
    }
  }

  // ----- Walks that come back -----

  // A walk that ends at a goal, or at a node already on the way or in `path`.
  ghost predicate Stops<T>(w: seq<T>, goal: set<T>, path: set<T>) {
    w != [] && (Last(w) in goal || Last(w) in path || Last(w) in w[..|w| - 1])
  }

  ghost predicate Hits<T>(g: Graph<T>, t: T, goal: set<T>, path: set<T>) {
    exists w :: WalkFrom(g, t, w) && Stops(w, goal, path)
  }

  lemma HitsUnfold<T>(g: Graph<T>, t: T, goal: set<T>, path: set<T>)
    requires Closed(g) && t in g
    ensures Hits(g, t, goal, path) <==>
            t in goal || t in path || exists c :: c in g[t] && Hits(g, c, goal, path + {t})
  {
    if Hits(g, t, goal, path) {
      var w :| WalkFrom(g, t, w) && Stops(w, goal, path);
      if |w| > 1 {
        assert w[1] in g[w[0]];
        WalkTail(g, w, 1);
        assert w[..|w| - 1] == [t] + w[1..][..|w[1..]| - 1];
        assert Stops(w[1..], goal, path + {t});
      }
    }
    if t in goal || t in path {
      assert WalkFrom(g, t, [t]) && Stops([t], goal, path);
    } else if c :| c in g[t] && Hits(g, c, goal, path + {t}) {
      var w :| WalkFrom(g, c, w) && Stops(w, goal, path + {t});
      WalkPrepend(g, t, w);
      assert ([t] + w)[..|w|] == [t] + w[..|w| - 1];
      assert Stops([t] + w, goal, path);
    }
  }

  // Fewer edges, and new nodes no old node leads to: what an old node reached, it may have lost, but
  // it gained nothing.
  ghost predicate Shrinks<T>(g: Graph<T>, h: Graph<T>) {
    && (forall u :: u in g ==> u in h)
    && forall u, v :: u in g && v in h[u] ==> v in g[u]
  }

  lemma ShrinksSelf<T>(g: Graph<T>)
    ensures Shrinks(g, g)
  {
  }

  lemma ShrinksTrans<T>(g: Graph<T>, h: Graph<T>, k: Graph<T>)
    requires Shrinks(g, h) && Shrinks(h, k)
    ensures Shrinks(g, k)
  {
  }

  lemma {:induction false} ShrinksWalk<T>(g: Graph<T>, h: Graph<T>, w: seq<T>)
    requires Closed(g) && Shrinks(g, h) && Walk(h, w) && w[0] in g
    ensures Walk(g, w)
    decreases |w|
  {
    if |w| > 1 {
      assert w[1] in h[w[0]];
      WalkTail(h, w, 1);
      ShrinksWalk(g, h, w[1..]);
      forall i | 0 < i < |w|
        ensures w[i] in g && w[i] in g[w[i - 1]]
      {
        assert w[i] == w[1..][i - 1];
        assert i > 1 ==> w[1..][i - 1] in g[w[1..][i - 2]];
      }
    }
  }
}
