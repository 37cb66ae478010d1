/** Depth-first search with two kinds of result caches, as a mathematical object.
  *
  * `sender_is_child` and `unblocked_path_to_root` (expand.c:815-880) are the same algorithm on two
  * graphs: colour the nodes met in this query, stop at a node whose answer is already cached, and
  * cache the answer of every node that is explored.  `Search` is that algorithm on values; module
  * GroupSearch ties the two heap-updating methods to it.  Here its answers are compared with plain
  * reachability.
  */
module CachedSearch {

  type Graph<N> = map<N, seq<N>>

  ghost predicate Closed<N>(g: Graph<N>) {
    forall n, m :: n in g && m in g[n] ==> m in g
  }

  ghost predicate Within<N>(g: Graph<N>, list: seq<N>) {
    forall n :: n in list ==> n in g
  }

  /** `colored`: nodes met in the current query; `yes`, `no`: nodes carrying a cached answer. */
  datatype Memo<N> = Memo(colored: set<N>, yes: set<N>, no: set<N>)
  datatype Answer<N> = Answer(memo: Memo<N>, found: bool)

  ghost function Search<N>(g: Graph<N>, blocked: set<N>, list: seq<N>, m: Memo<N>): (a: Answer<N>)
    requires Closed(g) && Within(g, list)
    ensures m.colored <= a.memo.colored
    decreases g.Keys - m.colored, |list|
  {
    if list == [] then Answer(m, false)
    else
      var e := list[0];
      if e in m.colored then Search(g, blocked, list[1..], m)
      else
        var m1 := m.(colored := m.colored + {e});
        assert g.Keys - m1.colored < g.Keys - m.colored by {
          assert e in g.Keys - m.colored && e !in g.Keys - m1.colored;
        }
        if e in m.yes && e !in blocked then Answer(m1, true)
        else if e in blocked + m.no then Search(g, blocked, list[1..], m1)
        else
          var a := Search(g, blocked, g[e], m1);
          assert g.Keys - a.memo.colored < g.Keys - m.colored;
          if a.found then Answer(a.memo.(yes := a.memo.yes + {e}), true)
          else Search(g, blocked, list[1..], a.memo.(no := a.memo.no + {e}))
  }

  /** Bits are only added, to nodes met in this query, and never both to one node. */
  lemma {:induction false} SearchFacts<N>(g: Graph<N>, blocked: set<N>, list: seq<N>, m: Memo<N>)
    requires Closed(g) && Within(g, list)
    ensures var a := Search(g, blocked, list, m);
            && m.yes <= a.memo.yes && m.no <= a.memo.no
            && (forall n :: n in a.memo.no && n !in m.no ==> n in a.memo.colored && n !in m.colored)
            && (forall n :: n in a.memo.yes && n !in m.yes ==> n in a.memo.colored && n !in m.colored)
            && (forall n :: n in a.memo.colored && n !in m.colored ==> n in g)
            && (!a.found ==> a.memo.yes == m.yes && forall n :: n in list ==> n in a.memo.colored)
            && (m.yes !! m.no ==> a.memo.yes !! a.memo.no)
    decreases g.Keys - m.colored, |list|
  {
    if list != [] {
      var e := list[0];
      var m1 := m.(colored := m.colored + {e});
      if e in m.colored {
        SearchFacts(g, blocked, list[1..], m);
      } else if e in m.yes && e !in blocked {
      } else if e in blocked + m.no {
        SearchFacts(g, blocked, list[1..], m1);
      } else {
        SearchFacts(g, blocked, g[e], m1);
        var a := Search(g, blocked, g[e], m1);
        assert e in a.memo.colored;
        if !a.found {
          SearchFacts(g, blocked, list[1..], a.memo.(no := a.memo.no + {e}));
        }
      }
    }
  }

  lemma SearchCons<N>(g: Graph<N>, blocked: set<N>, list: seq<N>, m: Memo<N>)
    requires Closed(g) && Within(g, list) && list != []
    ensures var a := Search(g, blocked, [list[0]], m);
            Search(g, blocked, list, m) == if a.found then a else Search(g, blocked, list[1..], a.memo)
  {}

  // ---------- Plain reachability: the reference the searches are measured against ----------

  /** A walk of at most `k` edges leads from `x` to `goal` through nodes outside `blocked`. */
  ghost predicate ReachIn<N>(g: Graph<N>, blocked: set<N>, goal: set<N>, x: N, k: nat)
    requires Closed(g) && x in g
    decreases k
  {
    x !in blocked && (x in goal || (k > 0 && exists y :: y in g[x] && ReachIn(g, blocked, goal, y, k - 1)))
  }

  ghost predicate Reach<N>(g: Graph<N>, blocked: set<N>, goal: set<N>, x: N)
    requires Closed(g) && x in g
  {
    exists k: nat :: ReachIn(g, blocked, goal, x, k)
  }

  ghost predicate AnyReach<N>(g: Graph<N>, blocked: set<N>, goal: set<N>, list: seq<N>)
    requires Closed(g) && Within(g, list)
  {
    exists x :: x in list && Reach(g, blocked, goal, x)
  }

  lemma ReachStep<N>(g: Graph<N>, blocked: set<N>, goal: set<N>, x: N, y: N)
    requires Closed(g) && x in g && y in g[x] && x !in blocked
    requires Reach(g, blocked, goal, y)
    ensures Reach(g, blocked, goal, x)
  {
    var k: nat :| ReachIn(g, blocked, goal, y, k);
    assert ReachIn(g, blocked, goal, x, k + 1);
  }

  /** Fewer blocked nodes, or goals that themselves reach the new goal, only help. */
  lemma {:induction false} ReachMono<N>(g: Graph<N>, b: set<N>, b': set<N>, goal: set<N>, goal': set<N>, x: N, k: nat)
    requires Closed(g) && x in g && ReachIn(g, b, goal, x, k)
    requires b' <= b
    requires forall y :: y in goal && y in g && y !in b ==> Reach(g, b', goal', y)
    ensures Reach(g, b', goal', x)
  {
    if x !in goal {
      var y :| y in g[x] && ReachIn(g, b, goal, y, k - 1);
      ReachMono(g, b, b', goal, goal', y, k - 1);
      ReachStep(g, b', goal', x, y);
    }
  }

  /** No walk leaves a set that avoids the goal and is closed up to blocked nodes. */
  lemma {:induction false} ClosedRegion<N>(g: Graph<N>, blocked: set<N>, goal: set<N>, region: set<N>, x: N, k: nat)
    requires Closed(g) && x in g && x in region
    requires forall n :: n in region && n in g && n !in blocked ==> n !in goal && forall y :: y in g[n] ==> y in region
    ensures !ReachIn(g, blocked, goal, x, k)
  {
    if k > 0 {
      forall y | y in g[x] && x !in blocked
        ensures !ReachIn(g, blocked, goal, y, k - 1)
      {
        ClosedRegion(g, blocked, goal, region, y, k - 1);
      }
    }
  }

  // ---------- What one query computes, on every graph ----------

  /** A positive answer comes from a walk that avoids every cached negative. */
  lemma {:induction false} FoundHasWalk<N>(g: Graph<N>, blocked: set<N>, list: seq<N>, m: Memo<N>)
    requires Closed(g) && Within(g, list) && m.yes !! m.no
    requires Search(g, blocked, list, m).found
    ensures AnyReach(g, blocked + m.no, m.yes, list)
    decreases g.Keys - m.colored, |list|
  {
    var e := list[0];
    var m1 := m.(colored := m.colored + {e});
    if e in m.colored {
      FoundHasWalk(g, blocked, list[1..], m);
    } else if e in m.yes && e !in blocked {
      assert ReachIn(g, blocked + m.no, m.yes, e, 0);
      assert e in list && Reach(g, blocked + m.no, m.yes, e);
    } else if e in blocked + m.no {
      FoundHasWalk(g, blocked, list[1..], m1);
    } else {
      var a := Search(g, blocked, g[e], m1);
      SearchFacts(g, blocked, g[e], m1);
      if a.found {
        FoundHasWalk(g, blocked, g[e], m1);
        var y :| y in g[e] && Reach(g, blocked + m.no, m.yes, y);
        ReachStep(g, blocked + m.no, m.yes, e, y);
        assert e in list && Reach(g, blocked + m.no, m.yes, e);
      } else {
        var m2 := a.memo.(no := a.memo.no + {e});
        FoundHasWalk(g, blocked, list[1..], m2);
        FewerNegatives(g, blocked, list, m, m2);
      }
    }
  }

  lemma FewerNegatives<N>(g: Graph<N>, blocked: set<N>, list: seq<N>, m: Memo<N>, m2: Memo<N>)
    requires Closed(g) && Within(g, list) && list != [] && m.yes !! m.no
    requires m2.yes == m.yes && m.no <= m2.no
    requires AnyReach(g, blocked + m2.no, m2.yes, list[1..])
    ensures AnyReach(g, blocked + m.no, m.yes, list)
  {
    var x :| x in list[1..] && Reach(g, blocked + m2.no, m2.yes, x);
    var k: nat :| ReachIn(g, blocked + m2.no, m2.yes, x, k);
    forall y | y in m2.yes && y in g && y !in blocked + m2.no
      ensures Reach(g, blocked + m.no, m.yes, y)
    {
      assert ReachIn(g, blocked + m.no, m.yes, y, 0);
    }
    ReachMono(g, blocked + m2.no, blocked + m.no, m2.yes, m.yes, x, k);
    assert x in list;
  }

  /** After a negative answer the nodes met form a closed region without a usable positive bit. */
  lemma {:induction false} NotFoundIsClosed<N>(g: Graph<N>, blocked: set<N>, list: seq<N>, m: Memo<N>, n: N, y: N)
    requires Closed(g) && Within(g, list)
    requires !Search(g, blocked, list, m).found
    requires n in Search(g, blocked, list, m).memo.colored - m.colored
    requires n !in blocked + m.no
    ensures n !in m.yes && n in Search(g, blocked, list, m).memo.no
    ensures n in g && (y in g[n] ==> y in Search(g, blocked, list, m).memo.colored)
    decreases g.Keys - m.colored, |list|
  {
    var e := list[0];
    var m1 := m.(colored := m.colored + {e});
    if e in m.colored {
      NotFoundIsClosed(g, blocked, list[1..], m, n, y);
    } else if e in blocked + m.no {
      NotFoundIsClosed(g, blocked, list[1..], m1, n, y);
    } else {
      var a := Search(g, blocked, g[e], m1);
      SearchFacts(g, blocked, g[e], m1);
      var m2 := a.memo.(no := a.memo.no + {e});
      if n == e {
        SearchFacts(g, blocked, list[1..], m2);
      } else if n in a.memo.colored {
        SearchFacts(g, blocked, list[1..], m2);
        NotFoundIsClosed(g, blocked, g[e], m1, n, y);
      } else {
        NotFoundIsClosed(g, blocked, list[1..], m2, n, y);
      }
    }
  }

  /** One query with a fresh colour, on any graph and any cache: the answer is reachability in the
    * graph from which the nodes carrying a negative bit have been removed.
    */
  lemma QueryExact<N>(g: Graph<N>, blocked: set<N>, list: seq<N>, m: Memo<N>)
    requires Closed(g) && Within(g, list) && m.yes !! m.no && m.colored == {}
    ensures Search(g, blocked, list, m).found <==> AnyReach(g, blocked + m.no, m.yes, list)
  {
    var a := Search(g, blocked, list, m);
    SearchFacts(g, blocked, list, m);
    if a.found {
      FoundHasWalk(g, blocked, list, m);
    } else {
      forall n, y | n in a.memo.colored && n in g && n !in blocked + m.no && y in g[n]
        ensures n !in m.yes && y in a.memo.colored
      {
        NotFoundIsClosed(g, blocked, list, m, n, y);
      }
      forall n | n in a.memo.colored && n in g && n !in blocked + m.no
        ensures n !in m.yes
      {
        NotFoundIsClosed(g, blocked, list, m, n, n);
      }
      forall x, k: nat | x in list
        ensures !ReachIn(g, blocked + m.no, m.yes, x, k)
      {
        ClosedRegion(g, blocked + m.no, m.yes, a.memo.colored, x, k);
      }
    }
  }

  // ---------- The caches over a sequence of queries ----------

  /** `goal` is what the positive bits stood for before the first query. */
  ghost predicate PositiveSound<N>(g: Graph<N>, blocked: set<N>, goal: set<N>, m: Memo<N>)
    requires Closed(g)
  {
    && goal <= m.yes && m.yes !! m.no && m.yes !! blocked
    && forall y :: y in m.yes && y in g ==> Reach(g, blocked, goal, y)
  }

  ghost predicate NegativeSound<N>(g: Graph<N>, blocked: set<N>, goal: set<N>, m: Memo<N>)
    requires Closed(g)
  {
    forall n :: n in m.no && n in g ==> !Reach(g, blocked, goal, n)
  }

  lemma {:induction false} NewPositiveReaches<N>(g: Graph<N>, blocked: set<N>, list: seq<N>, m: Memo<N>, y: N)
    requires Closed(g) && Within(g, list) && m.yes !! m.no
    requires y in Search(g, blocked, list, m).memo.yes - m.yes
    ensures y in g && y !in blocked && Reach(g, blocked, m.yes, y)
    decreases g.Keys - m.colored, |list|
  {
    var e := list[0];
    var m1 := m.(colored := m.colored + {e});
    if e in m.colored {
      NewPositiveReaches(g, blocked, list[1..], m, y);
    } else if e in blocked + m.no {
      NewPositiveReaches(g, blocked, list[1..], m1, y);
    } else {
      var a := Search(g, blocked, g[e], m1);
      SearchFacts(g, blocked, g[e], m1);
      if !a.found {
        NewPositiveReaches(g, blocked, list[1..], a.memo.(no := a.memo.no + {e}), y);
      } else if y != e {
        NewPositiveReaches(g, blocked, g[e], m1, y);
      } else {
        FoundHasWalk(g, blocked, g[e], m1);
        var z :| z in g[e] && Reach(g, blocked + m.no, m.yes, z);
        var k: nat :| ReachIn(g, blocked + m.no, m.yes, z, k);
        forall u | u in m.yes && u in g && u !in blocked + m.no
          ensures Reach(g, blocked, m.yes, u)
        {
          assert ReachIn(g, blocked, m.yes, u, 0);
        }
        ReachMono(g, blocked + m.no, blocked, m.yes, m.yes, z, k);
        ReachStep(g, blocked, m.yes, e, z);
      }
    }
  }

  /** Every cached positive has a real walk behind it, on every graph. */
  lemma PositiveBitsStaySound<N>(g: Graph<N>, blocked: set<N>, goal: set<N>, list: seq<N>, m: Memo<N>)
    requires Closed(g) && Within(g, list) && PositiveSound(g, blocked, goal, m)
    ensures PositiveSound(g, blocked, goal, Search(g, blocked, list, m).memo)
    ensures Search(g, blocked, list, m).found ==> AnyReach(g, blocked, goal, list)
  {
    var a := Search(g, blocked, list, m);
    SearchFacts(g, blocked, list, m);
    forall y | y in a.memo.yes - m.yes
      ensures y in g && y !in blocked && Reach(g, blocked, goal, y)
    {
      NewPositiveReaches(g, blocked, list, m, y);
      var k: nat :| ReachIn(g, blocked, m.yes, y, k);
      ReachMono(g, blocked, blocked, m.yes, goal, y, k);
    }
    if a.found {
      FoundHasWalk(g, blocked, list, m);
      var x :| x in list && Reach(g, blocked + m.no, m.yes, x);
      var k: nat :| ReachIn(g, blocked + m.no, m.yes, x, k);
      ReachMono(g, blocked + m.no, blocked, m.yes, goal, x, k);
    }
  }

  /** With sound caches a query answers plain reachability, on every graph. */
  lemma SoundCacheAnswers<N>(g: Graph<N>, blocked: set<N>, goal: set<N>, list: seq<N>, m: Memo<N>)
    requires Closed(g) && Within(g, list) && m.colored == {}
    requires PositiveSound(g, blocked, goal, m) && NegativeSound(g, blocked, goal, m)
    ensures Search(g, blocked, list, m).found <==> AnyReach(g, blocked, goal, list)
  {
    PositiveBitsStaySound(g, blocked, goal, list, m);
    if AnyReach(g, blocked, goal, list) {
      var x :| x in list && Reach(g, blocked, goal, x);
      var k: nat :| ReachIn(g, blocked, goal, x, k);
      AvoidsNegatives(g, blocked, goal, m, x, k);
      QueryExact(g, blocked, list, m);
    }
  }

  lemma {:induction false} AvoidsNegatives<N>(g: Graph<N>, blocked: set<N>, goal: set<N>, m: Memo<N>, x: N, k: nat)
    requires Closed(g) && x in g && goal <= m.yes
    requires NegativeSound(g, blocked, goal, m) && ReachIn(g, blocked, goal, x, k)
    ensures Reach(g, blocked + m.no, m.yes, x)
  {
    if x in goal {
      assert ReachIn(g, blocked + m.no, m.yes, x, 0);
    } else {
      var y :| y in g[x] && ReachIn(g, blocked, goal, y, k - 1);
      AvoidsNegatives(g, blocked, goal, m, y, k - 1);
      ReachStep(g, blocked + m.no, m.yes, x, y);
    }
  }

  // ---------- When the bits are right, on every graph ----------

  /** The links of every negative node have been followed: a neighbour has a bit, or is blocked or on the stack. */
  ghost predicate Explored<N>(g: Graph<N>, blocked: set<N>, m: Memo<N>, stack: set<N>) {
    forall n, y {:trigger y in g[n]} :: n in m.no && n in g && n !in blocked && y in g[n] ==>
        HasBit(blocked, m, stack, y)
  }

  ghost predicate HasBit<N>(blocked: set<N>, m: Memo<N>, stack: set<N>, y: N) {
    y in m.no || y in m.yes || y in blocked || y in stack
  }

  /** `n` is cached as negative, but one of its links leads to a node that is cached as positive. */
  ghost predicate OpenLink<N>(g: Graph<N>, blocked: set<N>, m: Memo<N>, n: N) {
    n in m.no && n in g && n !in blocked && exists y :: y in g[n] && y in m.yes
  }

  ghost predicate NoOpenLink<N>(g: Graph<N>, blocked: set<N>, m: Memo<N>) {
    forall n :: n in m.no ==> !OpenLink(g, blocked, m, n)
  }

  /** Every node that a search has met has a bit, or is blocked or still on the recursion stack. */
  lemma {:induction false} BitsCover<N>(g: Graph<N>, blocked: set<N>, list: seq<N>, m: Memo<N>, stack: set<N>)
    requires Closed(g) && Within(g, list) && m.yes !! blocked
    requires Explored(g, blocked, m, stack) && forall n :: n in m.colored ==> HasBit(blocked, m, stack, n)
    ensures var a := Search(g, blocked, list, m);
            && a.memo.yes !! blocked && Explored(g, blocked, a.memo, stack)
            && forall n :: n in a.memo.colored ==> HasBit(blocked, a.memo, stack, n)
    decreases g.Keys - m.colored, |list|
  {
    if list != [] {
      var e := list[0];
      var m1 := m.(colored := m.colored + {e});
      if e in m.colored {
        BitsCover(g, blocked, list[1..], m, stack);
      } else if e in m.yes && e !in blocked {
      } else if e in blocked + m.no {
        BitsCover(g, blocked, list[1..], m1, stack);
      } else {
        BitsCover(g, blocked, g[e], m1, stack + {e});
        var a := Search(g, blocked, g[e], m1);
        SearchFacts(g, blocked, g[e], m1);
        if !a.found {
          BitsCover(g, blocked, list[1..], a.memo.(no := a.memo.no + {e}), stack);
        }
      }
    }
  }

  /** What every query keeps on every graph, whatever it answers. */
  lemma QueryKeepsBits<N>(g: Graph<N>, blocked: set<N>, goal: set<N>, list: seq<N>, m: Memo<N>)
    requires Closed(g) && Within(g, list) && m.colored == {}
    requires PositiveSound(g, blocked, goal, m) && Explored(g, blocked, m, {})
    ensures var r := Search(g, blocked, list, m).memo.(colored := {});
            PositiveSound(g, blocked, goal, r) && Explored(g, blocked, r, {})
  {
    PositiveBitsStaySound(g, blocked, goal, list, m);
    BitsCover(g, blocked, list, m, {});
    RecolorSound(g, blocked, goal, Search(g, blocked, list, m).memo);
    RecolorExplored(g, blocked, Search(g, blocked, list, m).memo);
  }

  lemma RecolorSound<N>(g: Graph<N>, blocked: set<N>, goal: set<N>, m: Memo<N>)
    requires Closed(g) && PositiveSound(g, blocked, goal, m)
    ensures PositiveSound(g, blocked, goal, m.(colored := {}))
  {}

  lemma RecolorExplored<N>(g: Graph<N>, blocked: set<N>, m: Memo<N>)
    requires Explored(g, blocked, m, {})
    ensures Explored(g, blocked, m.(colored := {}), {})
  {}

  /** On every graph a negative answer opens no link: bits only go wrong in a query that is answered yes. */
  lemma NoAnswerOpensNothing<N>(g: Graph<N>, blocked: set<N>, list: seq<N>, m: Memo<N>, n: N)
    requires Closed(g) && Within(g, list) && m.colored == {} && m.yes !! m.no && m.yes !! blocked
    requires !Search(g, blocked, list, m).found
    requires OpenLink(g, blocked, Search(g, blocked, list, m).memo, n)
    ensures OpenLink(g, blocked, m, n)
  {
    SearchFacts(g, blocked, list, m);
    var y :| y in g[n] && y in m.yes;
    if n !in m.no {
      NotFoundIsClosed(g, blocked, list, m, n, y);
      NotFoundIsClosed(g, blocked, list, m, y, y);
    }
  }

  /** On every graph the negative bits are right if and only if none of them has a link to a positive one. */
  lemma RightIffNoOpenLink<N>(g: Graph<N>, blocked: set<N>, goal: set<N>, m: Memo<N>)
    requires Closed(g) && PositiveSound(g, blocked, goal, m) && Explored(g, blocked, m, {})
    ensures NegativeSound(g, blocked, goal, m) <==> NoOpenLink(g, blocked, m)
  {
    if n :| n in m.no && OpenLink(g, blocked, m, n) {
      var y :| y in g[n] && y in m.yes;
      ReachStep(g, blocked, goal, n, y);
    } else {
      forall n, k: nat | n in m.no && n in g
        ensures !ReachIn(g, blocked, goal, n, k)
      {
        assert forall x, y :: x in m.no && x in g && x !in blocked && y in g[x] ==>
            HasBit(blocked, m, {}, y) && !OpenLink(g, blocked, m, x);
        ClosedRegion(g, blocked, goal, m.no + blocked, n, k);
      }
    }
  }

  /** Such a link can be reached from the list. */
  ghost predicate OpenBelow<N>(g: Graph<N>, blocked: set<N>, m: Memo<N>, list: seq<N>)
    requires Closed(g) && Within(g, list)
  {
    exists n :: n in m.no && OpenLink(g, blocked, m, n) && AnyReach(g, blocked, {n}, list)
  }

  /** Every walk from the list to a positive node meets a negative one, and one of these has a positive neighbour. */
  ghost predicate Misled<N>(g: Graph<N>, blocked: set<N>, m: Memo<N>, list: seq<N>)
    requires Closed(g) && Within(g, list)
  {
    !AnyReach(g, blocked + m.no, m.yes, list) && OpenBelow(g, blocked, m, list)
  }

  /** A walk to the goal either avoids the negative bits or passes a negative node with a positive neighbour. */
  lemma {:induction false} WalkMeetsOpenLink<N>(g: Graph<N>, blocked: set<N>, goal: set<N>, m: Memo<N>, x: N, k: nat)
    requires Closed(g) && x in g && goal <= m.yes && m.yes !! m.no && Explored(g, blocked, m, {})
    requires ReachIn(g, blocked, goal, x, k)
    ensures Reach(g, blocked + m.no, m.yes, x)
        || exists n :: n in m.no && OpenLink(g, blocked, m, n) && Reach(g, blocked, {n}, x)
  {
    if x in goal {
      assert ReachIn(g, blocked + m.no, m.yes, x, 0);
      return;
    }
    var y :| y in g[x] && ReachIn(g, blocked, goal, y, k - 1);
    WalkMeetsOpenLink(g, blocked, goal, m, y, k - 1);
    if n :| n in m.no && OpenLink(g, blocked, m, n) && Reach(g, blocked, {n}, y) {
      ReachStep(g, blocked, {n}, x, y);
    } else if x in m.no {
      assert HasBit(blocked, m, {}, y);
      assert OpenLink(g, blocked, m, x) && ReachIn(g, blocked, {x}, x, 0);
      assert Reach(g, blocked, {x}, x);
    } else {
      ReachStep(g, blocked + m.no, m.yes, x, y);
    }
  }

  /** When one answer is right, on every graph, by the bits and the links in front of the query. */
  lemma AnswerRightIff<N>(g: Graph<N>, blocked: set<N>, goal: set<N>, list: seq<N>, m: Memo<N>)
    requires Closed(g) && Within(g, list) && m.colored == {}
    requires PositiveSound(g, blocked, goal, m) && Explored(g, blocked, m, {})
    ensures (Search(g, blocked, list, m).found <==> AnyReach(g, blocked, goal, list)) <==> !Misled(g, blocked, m, list)
  {
    PositiveBitsStaySound(g, blocked, goal, list, m);
    QueryExact(g, blocked, list, m);
    if AnyReach(g, blocked, goal, list) && !Search(g, blocked, list, m).found {
      var x :| x in list && Reach(g, blocked, goal, x);
      var k: nat :| ReachIn(g, blocked, goal, x, k);
      WalkMeetsOpenLink(g, blocked, goal, m, x, k);
    } else if OpenBelow(g, blocked, m, list) {
      var n :| n in m.no && OpenLink(g, blocked, m, n) && AnyReach(g, blocked, {n}, list);
      var y :| y in g[n] && y in m.yes;
      ReachStep(g, blocked, goal, n, y);
      var x :| x in list && Reach(g, blocked, {n}, x);
      var k: nat :| ReachIn(g, blocked, {n}, x, k);
      ReachMono(g, blocked, blocked, {n}, goal, x, k);
    }
  }

  /** On every graph all single-node queries from these bits are right if and only if there is no such link. */
  lemma ExactIffNoOpenLink<N>(g: Graph<N>, blocked: set<N>, goal: set<N>, m: Memo<N>)
    requires Closed(g) && m.colored == {} && PositiveSound(g, blocked, goal, m) && Explored(g, blocked, m, {})
    ensures NoOpenLink(g, blocked, m) <==>
            forall e :: e in g ==> (Search(g, blocked, [e], m).found <==> Reach(g, blocked, goal, e))
  {
    RightIffNoOpenLink(g, blocked, goal, m);
    if NoOpenLink(g, blocked, m) {
      forall e | e in g
        ensures Search(g, blocked, [e], m).found <==> Reach(g, blocked, goal, e)
      {
        SoundCacheAnswers(g, blocked, goal, [e], m);
        assert AnyReach(g, blocked, goal, [e]) <==> Reach(g, blocked, goal, e) by { assert e in [e]; }
      }
    } else {
      var n :| n in m.no && n in g && Reach(g, blocked, goal, n);
      QueryExact(g, blocked, [n], m);
      forall k: nat
        ensures !ReachIn(g, blocked + m.no, m.yes, n, k)
      {}
    }
  }

  // ---------- Sequences of queries ----------

  /** The answers of a sequence of queries that share their bits; each query has a fresh colour. */
  ghost function Queries<N>(g: Graph<N>, blocked: set<N>, qs: seq<seq<N>>, m: Memo<N>): (rs: seq<bool>)
    requires Closed(g) && forall q :: q in qs ==> Within(g, q)
    ensures |rs| == |qs|
  {
    if qs == [] then []
    else
      var a := Search(g, blocked, qs[0], m.(colored := {}));
      [a.found] + Queries(g, blocked, qs[1..], a.memo)
  }

  /** No query of the sequence is misled by the bits that those in front of it have left. */
  ghost predicate ClearQueries<N>(g: Graph<N>, blocked: set<N>, qs: seq<seq<N>>, m: Memo<N>)
    requires Closed(g) && forall q :: q in qs ==> Within(g, q)
  {
    qs == [] ||
    (var a := Search(g, blocked, qs[0], m.(colored := {}));
     !Misled(g, blocked, m.(colored := {}), qs[0]) && ClearQueries(g, blocked, qs[1..], a.memo))
  }

  /** On every graph all answers of a sequence equal plain reachability if and only if the sequence is clear. */
  lemma {:induction false} QueriesExactIffClear<N>(g: Graph<N>, blocked: set<N>, goal: set<N>, qs: seq<seq<N>>,
      m: Memo<N>)
    requires Closed(g) && forall q :: q in qs ==> Within(g, q)
    requires PositiveSound(g, blocked, goal, m.(colored := {})) && Explored(g, blocked, m.(colored := {}), {})
    ensures (forall i :: 0 <= i < |qs| ==> (Queries(g, blocked, qs, m)[i] <==> AnyReach(g, blocked, goal, qs[i])))
            <==> ClearQueries(g, blocked, qs, m)
  {
    if qs != [] {
      var m0 := m.(colored := {});
      var a := Search(g, blocked, qs[0], m0);
      AnswerRightIff(g, blocked, goal, qs[0], m0);
      QueryKeepsBits(g, blocked, goal, qs[0], m0);
      QueriesExactIffClear(g, blocked, goal, qs[1..], a.memo);
      var rs, rest := Queries(g, blocked, qs, m), Queries(g, blocked, qs[1..], a.memo);
      assert forall i :: 0 <= i < |rest| ==> rest[i] == rs[i + 1] && qs[1..][i] == qs[i + 1];
      assert forall i :: 0 < i < |qs| ==> rs[i] == rest[i - 1] && qs[i] == qs[1..][i - 1];
      assert rs[0] == a.found;
    }
  }

  // ---------- Acyclic graphs: negative bits stay sound as well ----------

  ghost predicate PathIn<N>(g: Graph<N>, x: N, y: N, k: nat)
    requires Closed(g) && x in g
    decreases k
  {
    if k == 0 then x == y else exists z :: z in g[x] && PathIn(g, z, y, k - 1)
  }

  ghost predicate Acyclic<N>(g: Graph<N>)
    requires Closed(g)
  {
    forall x, k: nat :: x in g && k > 0 ==> !PathIn(g, x, x, k)
  }

  lemma {:induction false} PathAppend<N>(g: Graph<N>, x: N, y: N, z: N, k: nat)
    requires Closed(g) && x in g && y in g && PathIn(g, x, y, k) && z in g[y]
    ensures PathIn(g, x, z, k + 1)
  {
    if k == 0 {
      assert PathIn(g, z, z, 0);
    } else {
      var u :| u in g[x] && PathIn(g, u, y, k - 1);
      PathAppend(g, u, y, z, k - 1);
    }
  }

  ghost predicate Descends<N>(g: Graph<N>, x: N, y: N)
    requires Closed(g) && x in g
  {
    exists k: nat :: k > 0 && PathIn(g, x, y, k)
  }

  /** Every node of `stack` has a nonempty path to every node of `list`. */
  ghost predicate Above<N>(g: Graph<N>, stack: set<N>, list: seq<N>)
    requires Closed(g)
  {
    forall s, l :: s in stack && s in g && l in list ==> Descends(g, s, l)
  }

  lemma AboveChildren<N>(g: Graph<N>, stack: set<N>, list: seq<N>, e: N)
    requires Closed(g) && Within(g, list) && Above(g, stack, list) && e in list
    ensures Above(g, stack + {e}, g[e])
  {
    forall s, l | s in stack + {e} && s in g && l in g[e]
      ensures Descends(g, s, l)
    {
      if s == e {
        assert PathIn(g, l, l, 0);
        assert PathIn(g, e, l, 1);
      } else {
        var k: nat :| k > 0 && PathIn(g, s, e, k);
        PathAppend(g, s, e, l, k);
      }
    }
  }

  /** While a search has found nothing, the nodes it has finished (coloured, no longer on the
    * recursion stack) and all negative bits are right.
    */
  lemma {:induction false} FinishedAreRight<N>(g: Graph<N>, blocked: set<N>, goal: set<N>, list: seq<N>,
      m: Memo<N>, stack: set<N>)
    requires Closed(g) && Within(g, list) && Acyclic(g)
    requires goal <= m.yes && NegativeSound(g, blocked, goal, m)
    requires forall c :: c in m.colored - stack && c in g ==> !Reach(g, blocked, goal, c)
    requires stack <= m.colored && Above(g, stack, list)
    ensures var a := Search(g, blocked, list, m);
            NegativeSound(g, blocked, goal, a.memo)
            && (!a.found ==> forall c :: c in a.memo.colored - stack && c in g ==> !Reach(g, blocked, goal, c))
    decreases g.Keys - m.colored, |list|
  {
    if list != [] {
      var e := list[0];
      var m1 := m.(colored := m.colored + {e});
      if e in m.colored {
        FinishedAreRight(g, blocked, goal, list[1..], m, stack);
      } else if e in m.yes && e !in blocked {
      } else if e in blocked + m.no {
        FinishedAreRight(g, blocked, goal, list[1..], m1, stack);
      } else {
        AboveChildren(g, stack, list, e);
        FinishedAreRight(g, blocked, goal, g[e], m1, stack + {e});
        var a := Search(g, blocked, g[e], m1);
        SearchFacts(g, blocked, g[e], m1);
        if !a.found {
          ChildrenFinished(g, blocked, goal, e, a.memo.colored, stack + {e});
          FinishedAreRight(g, blocked, goal, list[1..], a.memo.(no := a.memo.no + {e}), stack);
        }
      }
    }
  }

  lemma ChildrenFinished<N>(g: Graph<N>, blocked: set<N>, goal: set<N>, e: N, colored: set<N>, stack: set<N>)
    requires Closed(g) && Acyclic(g) && e in g && e !in goal
    requires forall y :: y in g[e] ==> y in colored
    requires Above(g, stack, g[e])
    requires forall c :: c in colored - stack && c in g ==> !Reach(g, blocked, goal, c)
    ensures !Reach(g, blocked, goal, e)
  {
    forall k: nat
      ensures !ReachIn(g, blocked, goal, e, k)
    {
      if k > 0 && exists y :: y in g[e] && ReachIn(g, blocked, goal, y, k - 1) {
        var y :| y in g[e] && ReachIn(g, blocked, goal, y, k - 1);
        assert Reach(g, blocked, goal, y);
        assert false;
      }
    }
  }

  /** On an acyclic graph every answer in every sequence of queries equals plain reachability. */
  lemma {:induction false} AcyclicQueriesExact<N>(g: Graph<N>, blocked: set<N>, goal: set<N>, qs: seq<seq<N>>,
      m: Memo<N>, i: nat)
    requires Closed(g) && Acyclic(g) && forall q :: q in qs ==> Within(g, q)
    requires PositiveSound(g, blocked, goal, m) && NegativeSound(g, blocked, goal, m)
    requires i < |qs|
    ensures Queries(g, blocked, qs, m)[i] <==> AnyReach(g, blocked, goal, qs[i])
  {
    var m0 := m.(colored := {});
    SoundCacheAnswers(g, blocked, goal, qs[0], m0);
    if i > 0 {
      PositiveBitsStaySound(g, blocked, goal, qs[0], m0);
      FinishedAreRight(g, blocked, goal, qs[0], m0, {});
      AcyclicQueriesExact(g, blocked, goal, qs[1..], Search(g, blocked, qs[0], m0).memo, i - 1);
    }
  }

  /** With no cached bits but the goal itself the first query is exact on every graph. */
  lemma FirstQueryExact<N>(g: Graph<N>, blocked: set<N>, goal: set<N>, list: seq<N>)
    requires Closed(g) && Within(g, list) && goal !! blocked
    ensures Search(g, blocked, list, Memo({}, goal, {})).found <==> AnyReach(g, blocked, goal, list)
  {
    var m := Memo({}, goal, {});
    forall y | y in goal && y in g
      ensures Reach(g, blocked, goal, y)
    {
      assert ReachIn(g, blocked, goal, y, 0);
    }
    SoundCacheAnswers(g, blocked, goal, list, m);
  }
}
