/** Members-only groups: which expanded addresses are released to an output envelope.
  *
  * `supress_addrs` (expand.c:788-812), the members-only loop and the release test of `expand`
  * (expand.c:218-266, expand.c:390-434), as mathematical objects over the link graph.
  */
module MembersOnly {
  import opened CachedSearch
  import opened Lists

  // ---------- Suppressing everything below a refused group ----------

  /** `ok` turns false when the assertion of expand.c:794 fails, which ends the process. */
  datatype Marks<N> = Marks(colored: set<N>, supressed: set<N>, ok: bool)

  ghost function Suppress<N>(g: Graph<N>, senders: set<N>, list: seq<N>, k: Marks<N>): (r: Marks<N>)
    requires Closed(g) && Within(g, list) && k.ok
    ensures k.colored <= r.colored && k.supressed <= r.supressed
    ensures k.colored <= k.supressed ==> r.colored <= r.supressed
    decreases g.Keys - k.colored, |list|
  {
    if list == [] then k
    else
      var e := list[0];
      if e in senders then k.(ok := false)
      else if e in k.colored then Suppress(g, senders, list[1..], k)
      else
        var k1 := k.(colored := k.colored + {e});
        assert g.Keys - k1.colored < g.Keys - k.colored by {
          assert e in g.Keys - k.colored && e !in g.Keys - k1.colored;
        }
        if e in k.supressed then Suppress(g, senders, list[1..], k1)
        else
          var r := Suppress(g, senders, g[e], k1.(supressed := k.supressed + {e}));
          assert g.Keys - r.colored < g.Keys - k.colored;
          if !r.ok then r else Suppress(g, senders, list[1..], r)
  }

  /** `s` is a set of nodes with all their members. */
  ghost predicate Hereditary<N>(g: Graph<N>, s: set<N>) {
    forall n, y :: n in s && n in g && y in g[n] ==> y in s
  }

  lemma {:induction false} SuppressTakesMembers<N>(g: Graph<N>, senders: set<N>, list: seq<N>, k: Marks<N>)
    requires Closed(g) && Within(g, list) && k.ok && k.colored <= k.supressed
    requires Suppress(g, senders, list, k).ok
    ensures var r := Suppress(g, senders, list, k);
            && (forall n :: n in list ==> n in r.supressed && n !in senders)
            && (forall n :: n in r.supressed - k.supressed ==> n in g && n !in senders)
            && (forall n, y :: n in r.supressed - k.supressed && n in g && y in g[n] ==> y in r.supressed)
    decreases g.Keys - k.colored, |list|
  {
    if list != [] {
      var e := list[0];
      var k1 := k.(colored := k.colored + {e});
      if e in k.colored {
        SuppressTakesMembers(g, senders, list[1..], k);
      } else if e in k.supressed {
        SuppressTakesMembers(g, senders, list[1..], k1);
      } else {
        var k2 := k1.(supressed := k.supressed + {e});
        SuppressTakesMembers(g, senders, g[e], k2);
        SuppressTakesMembers(g, senders, list[1..], Suppress(g, senders, g[e], k2));
      }
      assert forall n :: n in list ==> n == e || n in list[1..];
    }
  }

  /** Whatever is newly suppressed, or stops the process, lies below the list. */
  lemma {:induction false} SuppressStaysBelow<N>(g: Graph<N>, senders: set<N>, list: seq<N>, k: Marks<N>, n: N)
    requires Closed(g) && Within(g, list) && k.ok
    ensures n in Suppress(g, senders, list, k).supressed - k.supressed ==> AnyReach(g, {}, {n}, list)
    ensures !Suppress(g, senders, list, k).ok ==> AnyReach(g, {}, senders, list)
    decreases g.Keys - k.colored, |list|
  {
    if list != [] {
      var e := list[0];
      var k1 := k.(colored := k.colored + {e});
      if e in senders {
        assert ReachIn(g, {}, senders, e, 0);
        assert e in list && Reach(g, {}, senders, e);
      } else if e in k.colored {
        SuppressStaysBelow(g, senders, list[1..], k, n);
      } else if e in k.supressed {
        SuppressStaysBelow(g, senders, list[1..], k1, n);
      } else {
        var k2 := k1.(supressed := k.supressed + {e});
        var r := Suppress(g, senders, g[e], k2);
        SuppressStaysBelow(g, senders, g[e], k2, n);
        if n == e {
          assert ReachIn(g, {}, {n}, e, 0);
          assert e in list && Reach(g, {}, {n}, e);
        } else if n in r.supressed - k2.supressed {
          LiftToParent(g, {n}, list, e);
        }
        if r.ok {
          SuppressStaysBelow(g, senders, list[1..], r, n);
        } else {
          LiftToParent(g, senders, list, e);
        }
      }
    }
  }

  lemma LiftToParent<N>(g: Graph<N>, goal: set<N>, list: seq<N>, e: N)
    requires Closed(g) && Within(g, list) && e in list && AnyReach(g, {}, goal, g[e])
    ensures AnyReach(g, {}, goal, list)
  {
    var y :| y in g[e] && Reach(g, {}, goal, y);
    ReachStep(g, {}, goal, e, y);
  }

  lemma {:induction false} HereditaryKeepsWalks<N>(g: Graph<N>, s: set<N>, n: N, x: N, k: nat)
    requires Closed(g) && Hereditary(g, s) && x in g && x in s && ReachIn(g, {}, {n}, x, k)
    ensures n in s
  {
    if x != n {
      var y :| y in g[x] && ReachIn(g, {}, {n}, y, k - 1);
      HereditaryKeepsWalks(g, s, n, y, k - 1);
    }
  }

  /** With a fresh colour, over an already suppressed set that contains all its members: exactly the
    * addresses below the list are added, and the assertion fails exactly when a sender is among them.
    */
  lemma SuppressExact<N>(g: Graph<N>, senders: set<N>, list: seq<N>, supressed: set<N>)
    requires Closed(g) && Within(g, list) && Hereditary(g, supressed)
    ensures var r := Suppress(g, senders, list, Marks({}, supressed, true));
            && (r.ok ==> Hereditary(g, r.supressed))
            && (r.ok ==> forall n :: n in g ==> (n in r.supressed <==> n in supressed || AnyReach(g, {}, {n}, list)))
            && (!r.ok ==> AnyReach(g, {}, senders, list))
            && (supressed !! senders ==> (r.ok <==> !AnyReach(g, {}, senders, list)))
            && (r.ok && supressed !! senders ==> r.supressed !! senders)
  {
    var k := Marks({}, supressed, true);
    var r := Suppress(g, senders, list, k);
    if r.ok {
      SuppressTakesMembers(g, senders, list, k);
      forall n | n in g
        ensures n in r.supressed <==> n in supressed || AnyReach(g, {}, {n}, list)
      {
        SuppressStaysBelow(g, senders, list, k, n);
        if AnyReach(g, {}, {n}, list) {
          var x :| x in list && Reach(g, {}, {n}, x);
          var d: nat :| ReachIn(g, {}, {n}, x, d);
          HereditaryKeepsWalks(g, r.supressed, n, x, d);
        }
      }
      if supressed !! senders && AnyReach(g, {}, senders, list) {
        var x :| x in list && Reach(g, {}, senders, x);
        var d: nat :| ReachIn(g, {}, senders, x, d);
        ClosedRegion(g, {}, senders, r.supressed, x, d);
      }
    } else {
      SuppressStaysBelow(g, senders, list, k, list[0]);
    }
  }

  // ---------- The members-only loop ----------

  datatype State<N> = State(memonly: set<N>, supressor: set<N>, supressed: set<N>, sender: set<N>, noSender: set<N>)
  datatype Outcome<N> = Aborted | Done(s: State<N>)

  /** One members-only group; `permitted` holds the groups that some parent group may use. */
  ghost function ModerateOne<N>(g: Graph<N>, permitted: set<N>, m: N, s: State<N>): (o: Outcome<N>)
    requires Closed(g) && m in g
  {
    if m in permitted then Done(s.(memonly := s.memonly - {m}))
    else
      var a := Search(g, {}, g[m], Memo({}, s.sender, s.noSender));
      var s1 := s.(sender := a.memo.yes, noSender := a.memo.no);
      if a.found then Done(s1.(memonly := s.memonly - {m}))
      else
        var r := Suppress(g, s1.sender, g[m], Marks({}, s.supressed, true));
        if !r.ok then Aborted
        else Done(s1.(supressor := s.supressor + {m}, supressed := r.supressed))
  }

  /** The loop over `exp_memonly`. */
  ghost function Moderate<N>(g: Graph<N>, permitted: set<N>, queue: seq<N>, s: State<N>): (o: Outcome<N>)
    requires Closed(g) && Within(g, queue)
    ensures o.Done? ==> o.s.memonly <= s.memonly && s.supressed <= o.s.supressed && s.supressor <= o.s.supressor
    ensures o.Done? ==> forall m :: m in s.memonly && m !in queue ==> m in o.s.memonly
    ensures o.Done? ==> forall m :: m in o.s.supressor && m !in queue ==> m in s.supressor
    decreases |queue|
  {
    if queue == [] then Done(s)
    else
      assert queue == [queue[0]] + queue[1..];
      var o := ModerateOne(g, permitted, queue[0], s);
      if o.Aborted? then o else Moderate(g, permitted, queue[1..], o.s)
  }

  /** Every graph: a group that keeps the members-only mark is a suppressor with all members suppressed. */
  lemma {:induction false} RefusedGroupsAreSealed<N>(g: Graph<N>, permitted: set<N>, queue: seq<N>, s: State<N>, m: N)
    requires Closed(g) && Within(g, queue) && Distinct(queue) && Hereditary(g, s.supressed)
    requires Moderate(g, permitted, queue, s).Done?
    ensures var t := Moderate(g, permitted, queue, s).s;
            && Hereditary(g, t.supressed)
            && (m in queue && m in s.memonly && m !in s.supressor ==>
                  (m in t.memonly <==> m in t.supressor))
            && (m in queue && m in t.memonly ==> forall y :: y in g[m] ==> y in t.supressed)
    decreases |queue|
  {
    if queue != [] {
      var h := queue[0];
      assert m in queue <==> m == h || m in queue[1..];
      assert m == h ==> m !in queue[1..];
      var t := Moderate(g, permitted, queue, s).s;
      if h in permitted {
        RefusedGroupsAreSealed(g, permitted, queue[1..], s.(memonly := s.memonly - {h}), m);
      } else {
        var a := Search(g, {}, g[h], Memo({}, s.sender, s.noSender));
        var s1 := s.(sender := a.memo.yes, noSender := a.memo.no);
        if a.found {
          RefusedGroupsAreSealed(g, permitted, queue[1..], s1.(memonly := s.memonly - {h}), m);
        } else {
          var r := Suppress(g, s1.sender, g[h], Marks({}, s.supressed, true));
          SuppressExact(g, s1.sender, g[h], s.supressed);
          SuppressTakesMembers(g, s1.sender, g[h], Marks({}, s.supressed, true));
          var s2 := s1.(supressor := s.supressor + {h}, supressed := r.supressed);
          RefusedGroupsAreSealed(g, permitted, queue[1..], s2, m);
        }
      }
    }
  }

  /** No group is asked about while the bits are misleading for its members. */
  ghost predicate ClearModeration<N>(g: Graph<N>, permitted: set<N>, queue: seq<N>, s: State<N>)
    requires Closed(g) && Within(g, queue)
    decreases |queue|
  {
    queue == [] ||
    (var h, m := queue[0], Memo({}, s.sender, s.noSender);
     && (h in permitted || !Misled(g, {}, m, g[h]))
     && (ModerateOne(g, permitted, h, s).Done? ==>
         ClearModeration(g, permitted, queue[1..], ModerateOne(g, permitted, h, s).s)))
  }

  /** What the loop keeps on every graph: positive bits are sound, and no positive node is suppressed. */
  ghost predicate Moderating<N>(g: Graph<N>, senders: set<N>, s: State<N>)
    requires Closed(g)
  {
    && PositiveSound(g, {}, senders, Memo({}, s.sender, s.noSender))
        && Explored(g, {}, Memo({}, s.sender, s.noSender), {})
    && Hereditary(g, s.supressed) && s.supressed !! s.sender && s.supressed <= g.Keys
  }

  /** With the positive bits of any later query, the same lists have a sender below them. */
  lemma BitsReachSenders<N>(g: Graph<N>, senders: set<N>, bits: set<N>, list: seq<N>)
    requires Closed(g) && Within(g, list) && senders <= bits
    requires forall y :: y in bits && y in g ==> Reach(g, {}, senders, y)
    ensures AnyReach(g, {}, bits, list) <==> AnyReach(g, {}, senders, list)
  {
    if x :| x in list && Reach(g, {}, bits, x) {
      var k: nat :| ReachIn(g, {}, bits, x, k);
      ReachMono(g, {}, {}, bits, senders, x, k);
    }
    if x :| x in list && Reach(g, {}, senders, x) {
      var k: nat :| ReachIn(g, {}, senders, x, k);
      forall y | y in senders && y in g
        ensures Reach(g, {}, bits, y)
      {
        assert ReachIn(g, {}, bits, y, 0);
      }
      ReachMono(g, {}, {}, senders, bits, x, k);
    }
  }

  /** A suppressed set that holds its members holds no node with a sender below it. */
  lemma SupressedHasNoSender<N>(g: Graph<N>, senders: set<N>, supressed: set<N>, bits: set<N>)
    requires Closed(g) && Hereditary(g, supressed) && supressed !! senders && supressed <= g.Keys
    requires forall y :: y in bits && y in g ==> Reach(g, {}, senders, y)
    ensures supressed !! bits
  {
    forall y | y in supressed && y in bits
      ensures false
    {
      var k: nat :| ReachIn(g, {}, senders, y, k);
      ClosedRegion(g, {}, senders, supressed, y, k);
    }
  }

  /** One group on any graph: the process stops if and only if the group has a sender below it and is still refused,
    * which happens if and only if the bits are misleading for it.
    */
  lemma ModerateOneExact<N>(g: Graph<N>, permitted: set<N>, m: N, s: State<N>, senders: set<N>)
    requires Closed(g) && m in g && Moderating(g, senders, s)
    ensures var o := ModerateOne(g, permitted, m, s);
            var memo := Memo({}, s.sender, s.noSender);
            && (o.Aborted? <==> m !in permitted && Misled(g, {}, memo, g[m]))
            && (o.Done? ==> Moderating(g, senders, o.s))
            && (o.Done? && m in s.memonly ==>
                (m in o.s.memonly <==> m !in permitted && !AnyReach(g, {}, senders, g[m])))
  {
    var memo := Memo({}, s.sender, s.noSender);
    var a := Search(g, {}, g[m], memo);
    AnswerRightIff(g, {}, senders, g[m], memo);
    QueryExact(g, {}, g[m], memo);
    QueryKeepsBits(g, {}, senders, g[m], memo);
    SearchFacts(g, {}, g[m], memo);
    SupressedHasNoSender(g, senders, s.supressed, a.memo.yes);
    if m !in permitted && !a.found {
      SuppressExact(g, a.memo.yes, g[m], s.supressed);
      BitsReachSenders(g, senders, a.memo.yes, g[m]);
      var k := Marks({}, s.supressed, true);
      if Suppress(g, a.memo.yes, g[m], k).ok {
        SuppressTakesMembers(g, a.memo.yes, g[m], k);
      }
    }
  }

  /** The loop on any graph.  It completes if and only if it is clear; and if it completes, a group keeps the mark if
    * and only if no parent is permitted and the sender is not below it.
    */
  lemma {:induction false} ModerateExact<N>(g: Graph<N>, permitted: set<N>, queue: seq<N>, s: State<N>, senders: set<N>)
    requires Closed(g) && Within(g, queue) && Distinct(queue) && Moderating(g, senders, s)
    ensures var o := Moderate(g, permitted, queue, s);
            && (o.Done? <==> ClearModeration(g, permitted, queue, s))
            && (o.Done? ==> forall m :: m in queue && m in s.memonly ==>
                  (m in o.s.memonly <==> m !in permitted && !AnyReach(g, {}, senders, g[m])))
    decreases |queue|
  {
    if queue != [] {
      var h := queue[0];
      ModerateOneExact(g, permitted, h, s, senders);
      assert forall m :: m in queue <==> m == h || m in queue[1..];
      var one := ModerateOne(g, permitted, h, s);
      if one.Done? {
        ModerateExact(g, permitted, queue[1..], one.s, senders);
      }
    }
  }

  /** Acyclic graphs: the loop is clear, so the assertion never fails. */
  lemma {:induction false} AcyclicModerationIsClear<N>(g: Graph<N>, permitted: set<N>, queue: seq<N>,
      s: State<N>, senders: set<N>)
    requires Closed(g) && Acyclic(g) && Within(g, queue) && Moderating(g, senders, s)
    requires NegativeSound(g, {}, senders, Memo({}, s.sender, s.noSender))
    ensures ClearModeration(g, permitted, queue, s)
    decreases |queue|
  {
    if queue != [] {
      var h, memo := queue[0], Memo({}, s.sender, s.noSender);
      RightIffNoOpenLink(g, {}, senders, memo);
      FinishedAreRight(g, {}, senders, g[h], memo, {});
      ModerateOneExact(g, permitted, h, s, senders);
      var one := ModerateOne(g, permitted, h, s);
      if one.Done? {
        AcyclicModerationIsClear(g, permitted, queue[1..], one.s, senders);
      }
    }
  }

  // ---------- Release ----------

  /** One address of the output loop: the bits it leaves, and whether it joins an output envelope.
    * `plain` holds the terminal addresses without a forwarding or moderation envelope.
    */
  ghost function ReleaseOne<N>(up: Graph<N>, s: State<N>, plain: set<N>, e: N, m: Memo<N>): (a: Answer<N>)
    requires Closed(up) && e in up
  {
    var a := if e in s.supressed then Search(up, s.memonly, [e], m.(colored := {})) else Answer(m, true);
    a.(found := a.found && e in plain && e !in s.supressor)
  }

  ghost function Release<N>(up: Graph<N>, s: State<N>, plain: set<N>, list: seq<N>, m: Memo<N>): (out: seq<N>)
    requires Closed(up) && Within(up, list)
    ensures forall e :: e in out ==> e in list && e in plain && e !in s.supressor
    decreases |list|
  {
    if list == [] then []
    else
      var a := ReleaseOne(up, s, plain, list[0], m);
      (if a.found then [list[0]] else []) + Release(up, s, plain, list[1..], a.memo)
  }

  lemma ReleaseUnfolds<N>(up: Graph<N>, s: State<N>, plain: set<N>, order: seq<N>, i: nat, m: Memo<N>, out: seq<N>)
    requires Closed(up) && Within(up, order) && i < |order|
    ensures var a := ReleaseOne(up, s, plain, order[i], m);
            out + Release(up, s, plain, order[i..], m)
            == (if a.found then out + [order[i]] else out) + Release(up, s, plain, order[i + 1..], a.memo)
  {}

  /** `down` holds the members of every address; `up` its parents, with `root` for original recipients. */
  ghost predicate Links<N>(down: Graph<N>, up: Graph<N>, root: N) {
    && Closed(down) && Closed(up)
    && root in up && up[root] == [] && root !in down && up.Keys == down.Keys + {root}
    && (forall x, y {:trigger y in down[x]} {:trigger x in up[y]} :: x in down && y in down ==>
        (y in down[x] <==> x in up[y]))
  }

  lemma {:induction false} ReversePath<N>(down: Graph<N>, up: Graph<N>, root: N, y: N, x: N, k: nat)
    requires Links(down, up, root) && x in down && y in up && PathIn(up, y, x, k)
    ensures y in down && PathIn(down, x, y, k)
  {
    if k > 0 {
      var z :| z in up[y] && PathIn(up, z, x, k - 1);
      ReversePath(down, up, root, z, x, k - 1);
      PathAppend(down, x, z, y, k - 1);
    }
  }

  lemma AcyclicUpwards<N>(down: Graph<N>, up: Graph<N>, root: N)
    requires Links(down, up, root) && Acyclic(down)
    ensures Acyclic(up)
  {
    forall x, k: nat | x in up && k > 0
      ensures !PathIn(up, x, x, k)
    {
      if x != root && PathIn(up, x, x, k) {
        ReversePath(down, up, root, x, x, k);
        assert false;
      }
    }
  }

  /** An address that is neither suppressed nor refused has a chain to the root without refused groups. */
  lemma {:induction false} UnsuppressedHasChain<N>(down: Graph<N>, up: Graph<N>, root: N, s: State<N>, e: N, k: nat)
    requires Links(down, up, root) && e in up && root !in s.memonly
    requires ReachIn(up, {}, {root}, e, k)
    requires Hereditary(down, s.supressed)
    requires forall m, y :: m in s.memonly && m in down && y in down[m] ==> y in s.supressed
    requires e !in s.supressed && e !in s.memonly
    ensures Reach(up, s.memonly, {root}, e)
  {
    if e == root {
      assert ReachIn(up, s.memonly, {root}, root, 0);
    } else {
      var y :| y in up[e] && ReachIn(up, {}, {root}, y, k - 1);
      if y == root {
        assert ReachIn(up, s.memonly, {root}, root, 0);
      } else {
        assert e in down[y];
        UnsuppressedHasChain(down, up, root, s, y, k - 1);
      }
      ReachStep(up, s.memonly, {root}, e, y);
    }
  }

  /** Soundness of release on every graph, given that unsuppressed unrefused addresses have a chain. */
  lemma {:induction false} ReleasedHasChain<N>(up: Graph<N>, root: N, s: State<N>, plain: set<N>, list: seq<N>,
      m: Memo<N>, e: N)
    requires Closed(up) && Within(up, list)
    requires PositiveSound(up, s.memonly, {root}, m.(colored := {}))
    requires forall n :: n in list && n !in s.supressed && n !in s.supressor ==> Reach(up, s.memonly, {root}, n)
    requires e in Release(up, s, plain, list, m)
    ensures Reach(up, s.memonly, {root}, e)
    decreases |list|
  {
    var h := list[0];
    if h in s.supressed {
      var m0 := m.(colored := {});
      var a := Search(up, s.memonly, [h], m0);
      PositiveBitsStaySound(up, s.memonly, {root}, [h], m0);
      if e in Release(up, s, plain, list[1..], a.memo) {
        RecolorSound(up, s.memonly, {root}, a.memo);
        ReleasedHasChain(up, root, s, plain, list[1..], a.memo, e);
      } else {
        assert e == h && a.found;
      }
    } else if e in Release(up, s, plain, list[1..], m) {
      ReleasedHasChain(up, root, s, plain, list[1..], m, e);
    } else {
      assert e == h;
    }
  }

  /** No address that could be released is asked about while the bits are misleading for it. */
  ghost predicate ClearRelease<N>(up: Graph<N>, s: State<N>, plain: set<N>, list: seq<N>, m: Memo<N>)
    requires Closed(up) && Within(up, list)
    decreases |list|
  {
    list == [] ||
    (var h, m0 := list[0], m.(colored := {});
     && (h in s.supressed && h in plain && h !in s.supressor ==> !Misled(up, s.memonly, m0, [h]))
     && ClearRelease(up, s, plain, list[1..], ReleaseOne(up, s, plain, h, m).memo))
  }

  /** The output loop on any graph: exactly the plain addresses with an unrefused chain are released if and only if
    * the loop is clear.
    */
  lemma {:induction false} ReleaseExactIffClear<N>(up: Graph<N>, root: N, s: State<N>, plain: set<N>,
      list: seq<N>, m: Memo<N>)
    requires Closed(up) && Within(up, list) && Distinct(list) && s.supressor <= s.memonly
    requires PositiveSound(up, s.memonly, {root}, m.(colored := {})) && Explored(up, s.memonly, m.(colored := {}), {})
    requires forall n :: n in list && n !in s.supressed && n !in s.supressor ==> Reach(up, s.memonly, {root}, n)
    ensures (forall e :: e in list ==>
        (e in Release(up, s, plain, list, m) <==> e in plain && Reach(up, s.memonly, {root}, e)))
            <==> ClearRelease(up, s, plain, list, m)
    decreases |list|
  {
    if list != [] {
      var h, m0 := list[0], m.(colored := {});
      var a := ReleaseOne(up, s, plain, h, m);
      if h in s.supressed {
        AnswerRightIff(up, s.memonly, {root}, [h], m0);
        QueryKeepsBits(up, s.memonly, {root}, [h], m0);
        assert AnyReach(up, s.memonly, {root}, [h]) <==> Reach(up, s.memonly, {root}, h) by { assert h in [h]; }
      }
      ReleaseExactIffClear(up, root, s, plain, list[1..], a.memo);
      RefusedHasNoChain(up, root, s, h);
      assert forall e :: e in list <==> e == h || e in list[1..];
      assert h !in list[1..];
    }
  }

  lemma RefusedHasNoChain<N>(up: Graph<N>, root: N, s: State<N>, e: N)
    requires Closed(up) && e in up && s.supressor <= s.memonly
    ensures e in s.supressor ==> !Reach(up, s.memonly, {root}, e)
  {}

  /** Acyclic graphs: the output loop is clear. */
  lemma {:induction false} AcyclicReleaseIsClear<N>(up: Graph<N>, root: N, s: State<N>, plain: set<N>,
      list: seq<N>, m: Memo<N>)
    requires Closed(up) && Acyclic(up) && Within(up, list)
    requires PositiveSound(up, s.memonly, {root}, m.(colored := {})) && Explored(up, s.memonly, m.(colored := {}), {})
    requires NegativeSound(up, s.memonly, {root}, m.(colored := {}))
    ensures ClearRelease(up, s, plain, list, m)
    decreases |list|
  {
    if list != [] {
      var h, m0 := list[0], m.(colored := {});
      RightIffNoOpenLink(up, s.memonly, {root}, m0);
      FinishedAreRight(up, s.memonly, {root}, [h], m0, {});
      QueryKeepsBits(up, s.memonly, {root}, [h], m0);
      AcyclicReleaseIsClear(up, root, s, plain, list[1..], ReleaseOne(up, s, plain, h, m).memo);
    }
  }

  ghost function Start<N>(queue: seq<N>, senders: set<N>): State<N> {
    State(set m | m in queue, {}, {}, senders, {})
  }

  /** Which groups end up refused, on every graph.  The loop completes if and only if it is clear, as it is on acyclic
    * graphs; and then a group is refused if and only if no parent is permitted and the sender is not below it.
    */
  lemma RefusalPolicy<N>(down: Graph<N>, senders: set<N>, permitted: set<N>, queue: seq<N>)
    requires Closed(down) && Within(down, queue) && Distinct(queue)
    ensures var o := Moderate(down, permitted, queue, Start(queue, senders));
            && (o.Done? <==> ClearModeration(down, permitted, queue, Start(queue, senders)))
            && (Acyclic(down) ==> o.Done?)
            && (o.Done? ==> forall m :: m in queue ==>
                  (m in o.s.memonly <==> m !in permitted && !AnyReach(down, {}, senders, down[m])))
  {
    SendersReach(down, senders);
    ModerateExact(down, permitted, queue, Start(queue, senders), senders);
    if Acyclic(down) {
      AcyclicModerationIsClear(down, permitted, queue, Start(queue, senders), senders);
    }
  }

  /** The release policy of one expansion, once the members-only loop has completed.  `queue` lists the members-only
    * groups, `order` the addresses.  Whatever is released has a chain of groups to an original recipient in which no
    * group still carries the members-only mark.  All plain addresses with such a chain are released if and only if
    * the output loop is clear, as it is on acyclic graphs.
    */
  lemma ReleasePolicy<N>(down: Graph<N>, up: Graph<N>, root: N, senders: set<N>, permitted: set<N>,
                         queue: seq<N>, plain: set<N>, order: seq<N>)
    requires Links(down, up, root) && Within(down, queue) && Distinct(queue) && Within(down, order) && Distinct(order)
    requires forall n :: n in down ==> Reach(up, {}, {root}, n)
    requires Moderate(down, permitted, queue, Start(queue, senders)).Done?
    ensures var s := Moderate(down, permitted, queue, Start(queue, senders)).s;
            var out := Release(up, s, plain, order, Memo({}, {root}, {}));
            && (forall e :: e in out ==> e in order && e in plain && Reach(up, s.memonly, {root}, e))
            && ((forall e :: e in order ==> (e in out <==> e in plain && Reach(up, s.memonly, {root}, e)))
                <==> ClearRelease(up, s, plain, order, Memo({}, {root}, {})))
            && (Acyclic(down) ==> ClearRelease(up, s, plain, order, Memo({}, {root}, {})))
  {
    var s := Moderate(down, permitted, queue, Start(queue, senders)).s;
    var m0 := Memo({}, {root}, {});
    SettledState(down, permitted, queue, Start(queue, senders));
    assert ReachIn(up, s.memonly, {root}, root, 0);
    forall e | e in order && e !in s.supressed && e !in s.supressor
      ensures Reach(up, s.memonly, {root}, e)
    {
      var k: nat :| ReachIn(up, {}, {root}, e, k);
      UnsuppressedHasChain(down, up, root, s, e, k);
    }
    forall e | e in Release(up, s, plain, order, m0)
      ensures Reach(up, s.memonly, {root}, e)
    {
      ReleasedHasChain(up, root, s, plain, order, m0, e);
    }
    ReleaseExactIffClear(up, root, s, plain, order, m0);
    if Acyclic(down) {
      AcyclicUpwards(down, up, root);
      AcyclicReleaseIsClear(up, root, s, plain, order, m0);
    }
  }

  lemma SendersReach<N>(g: Graph<N>, senders: set<N>)
    requires Closed(g)
    ensures PositiveSound(g, {}, senders, Memo({}, senders, {}))
  {
    forall y | y in senders && y in g
      ensures Reach(g, {}, senders, y)
    {
      assert ReachIn(g, {}, senders, y, 0);
    }
  }

  lemma SettledState<N>(g: Graph<N>, permitted: set<N>, queue: seq<N>, s: State<N>)
    requires Closed(g) && Within(g, queue) && Distinct(queue)
    requires s.memonly == (set m | m in queue) && s.supressor == {} && s.supressed == {}
    requires Moderate(g, permitted, queue, s).Done?
    ensures var t := Moderate(g, permitted, queue, s).s;
            && t.supressor == t.memonly && Hereditary(g, t.supressed)
            && (forall m, y :: m in t.memonly && m in g && y in g[m] ==> y in t.supressed)
  {
    var t := Moderate(g, permitted, queue, s).s;
    forall m | m in queue
      ensures m in t.memonly <==> m in t.supressor
      ensures m in t.memonly ==> forall y :: y in g[m] ==> y in t.supressed
    {
      RefusedGroupsAreSealed(g, permitted, queue, s, m);
    }
    if queue != [] {
      RefusedGroupsAreSealed(g, permitted, queue, s, queue[0]);
    }
  }
}
