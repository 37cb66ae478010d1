/** Link graphs with a cycle on which the cached searches of expand.c go wrong.
  *
  * The negative bits are written while an ancestor is still on the recursion stack, so on a cycle they can
  * be premature.  Each lemma runs the searches on a small graph.
  */
module CyclicGroups {
  import opened CachedSearch
  import opened MembersOnly

  // ---------- On a cyclic graph a later query can be wrong ----------

  /** Groups 1 and 2 contain each other, 1 also contains the sender 3; 10 and 20 are members-only groups. */
  ghost function Mutual(): (g: Graph<int>) {
    map[1 := [2, 3], 2 := [1], 3 := [], 10 := [1], 20 := [2]]
  }

  lemma MutualFirst()
    ensures Closed(Mutual())
    ensures Search(Mutual(), {}, [1], Memo({}, {3}, {})) == Answer(Memo({1, 2, 3}, {1, 3}, {2}), true)
  {
    var g := Mutual();
    assert g[1][1..] == [3] && g[2][1..] == [];
    assert Search(g, {}, g[2], Memo({1, 2}, {3}, {})) == Answer(Memo({1, 2}, {3}, {}), false) by {
      assert Search(g, {}, [], Memo({1, 2}, {3}, {})) == Answer(Memo({1, 2}, {3}, {}), false);
    }
    var a := Search(g, {}, g[1], Memo({1}, {3}, {}));
    assert {1} + {2} == {1, 2} && {1, 2} + {3} == {1, 2, 3} && {} + {2} == {2};
    assert a == Search(g, {}, [3], Memo({1, 2}, {3}, {2}));
    assert a == Answer(Memo({1, 2, 3}, {3}, {2}), true);
    assert {3} + {1} == {1, 3} && {} + {1} == {1};
  }

  lemma MutualReaches()
    ensures Closed(Mutual()) && Reach(Mutual(), {}, {3}, 2)
  {
    var g := Mutual();
    assert g[1][1] == 3 && g[2][0] == 1;
    assert ReachIn(g, {}, {3}, 3, 0);
    ReachStep(g, {}, {3}, 1, 3);
    ReachStep(g, {}, {3}, 2, 1);
  }

  /** Asking about [1] marks 2 negative although 2 -> 1 -> 3, so asking about [2] then says no. */
  lemma CyclicSecondQueryWrong()
    ensures Closed(Mutual()) && Within(Mutual(), [1]) && Within(Mutual(), [2])
    ensures Queries(Mutual(), {}, [[1], [2]], Memo({}, {3}, {})) == [true, false]
    ensures AnyReach(Mutual(), {}, {3}, [2])
  {
    MutualFirst();
    var g := Mutual();
    var m := Memo({}, {1, 3}, {2});
    assert [2][1..] == [];
    assert Search(g, {}, [], Memo({2}, {1, 3}, {2})) == Answer(Memo({2}, {1, 3}, {2}), false);
    assert !Search(g, {}, [2], m).found;
    var rest: seq<seq<int>> := [];
    assert Queries(g, {}, rest, Search(g, {}, [2], m).memo) == [];
    assert [[2]][1..] == rest && [[1], [2]][1..] == [[2]];
    assert Queries(g, {}, [[2]], m) == [false];
    MutualReaches();
    assert [2][0] == 2;
  }

  // ---------- ... which makes the assertion of expand.c:794 fail ----------

  /** Group 10 is accepted because the sender is below it; that query leaves 2 marked negative, so group 20
    * is refused, and suppressing its members runs into 1, which carries the positive bit.
    */
  lemma CyclicModerateAborts()
    ensures Closed(Mutual()) && Within(Mutual(), [10, 20])
    ensures Moderate(Mutual(), {}, [10, 20], Start([10, 20], {3})) == Aborted
  {
    MutualFirst();
    var g := Mutual();
    var s0 := Start([10, 20], {3});
    var s1 := State(s0.memonly - {10}, {}, {}, {1, 3}, {2});
    assert ModerateOne(g, {}, 10, s0) == Done(s1);
    RefusedThenAborts(s1);
    assert [10, 20][1..] == [20];
    assert Moderate(g, {}, [20], s1) == Aborted;
  }

  lemma RefusedThenAborts(s1: State<int>)
    requires s1.sender == {1, 3} && s1.noSender == {2} && s1.supressed == {}
    ensures Closed(Mutual()) && ModerateOne(Mutual(), {}, 20, s1) == Aborted
  {
    MutualFirst();
    var g := Mutual();
    var m := Memo({}, {1, 3}, {2});
    assert g[20][1..] == [];
    assert Search(g, {}, [], Memo({2}, {1, 3}, {2})) == Answer(Memo({2}, {1, 3}, {2}), false);
    assert {} + {2} == {2};
    assert Search(g, {}, g[20], m) == Answer(Memo({2}, {1, 3}, {2}), false);
    assert !Suppress(g, {1, 3}, g[2], Marks({2}, {2}, true)).ok;
    assert !Suppress(g, {1, 3}, g[20], Marks({}, {}, true)).ok;
  }

  /** A query that is answered yes can open a link that nobody asks about again: 10 alone is moderated rightly. */
  lemma OpenLinkNotAsked()
    ensures Closed(Mutual()) && Within(Mutual(), [10])
    ensures var o := Moderate(Mutual(), {}, [10], Start([10], {3}));
            o.Done? && 10 !in o.s.memonly && OpenLink(Mutual(), {}, Memo({}, o.s.sender, o.s.noSender), 2)
  {
    MutualFirst();
    var g := Mutual();
    var s0 := Start([10], {3});
    assert g[2][0] == 1;
    assert [10][1..] == [];
    assert ModerateOne(g, {}, 10, s0) == Done(State(s0.memonly - {10}, {}, {}, {1, 3}, {2}));
  }

  // ---------- ... and which withholds mail that should be released ----------

  /** Original recipients are the refused group 1 and the group 2; 1 contains 2, 2 and 3 contain each other,
    * and 3 contains the plain address 4.  0 stands for the root.
    */
  ghost function Parents(): (up: Graph<int>) {
    map[0 := [], 1 := [0], 2 := [3, 1, 0], 3 := [2], 4 := [3]]
  }

  ghost function Members(): (down: Graph<int>) {
    map[1 := [2], 2 := [3], 3 := [4, 2], 4 := []]
  }

  ghost function Refused1(): State<int> {
    State({1}, {1}, {2, 3, 4}, {}, {2, 3, 4})
  }

  /** Nobody below group 1 is the sender. */
  lemma NoSenderBelow1()
    ensures Closed(Members())
    ensures Search(Members(), {}, [2], Memo({}, {}, {})) == Answer(Memo({2, 3, 4}, {}, {2, 3, 4}), false)
  {
    var g := Members();
    assert g[2][1..] == [] && g[3][1..] == [2] && [2][1..] == [];
    assert {} + {2} == {2} && {2} + {3} == {2, 3} && {2, 3} + {4} == {2, 3, 4} && {} + {4} == {4}
        && {4} + {3} == {3, 4};
    assert {3, 4} + {2} == {2, 3, 4};
    assert Search(g, {}, g[4], Memo({2, 3, 4}, {}, {})) == Answer(Memo({2, 3, 4}, {}, {}), false);
    var m4 := Memo({2, 3, 4}, {}, {4});
    assert Search(g, {}, [], m4) == Answer(m4, false);
    assert Search(g, {}, [2], m4) == Answer(m4, false);
    assert Search(g, {}, g[3], Memo({2, 3}, {}, {})) == Answer(m4, false);
    var m3 := Memo({2, 3, 4}, {}, {3, 4});
    assert Search(g, {}, [], m3) == Answer(m3, false);
    assert Search(g, {}, g[2], Memo({2}, {}, {})) == Answer(m3, false);
    var m2 := Memo({2, 3, 4}, {}, {2, 3, 4});
    assert Search(g, {}, [], m2) == Answer(m2, false);
  }

  lemma AllBelow1()
    ensures Closed(Members())
    ensures Suppress(Members(), {}, [2], Marks({}, {}, true)) == Marks({2, 3, 4}, {2, 3, 4}, true)
  {
    var g := Members();
    assert g[2][1..] == [] && g[3][1..] == [2] && [2][1..] == [];
    assert {} + {2} == {2} && {2} + {3} == {2, 3} && {2, 3} + {4} == {2, 3, 4};
    var k4 := Marks({2, 3, 4}, {2, 3, 4}, true);
    assert Suppress(g, {}, [], k4) == k4;
    assert Suppress(g, {}, g[4], k4) == k4;
    assert Suppress(g, {}, [2], k4) == k4;
    assert Suppress(g, {}, g[3], Marks({2, 3}, {2, 3}, true)) == k4;
    assert Suppress(g, {}, g[2], Marks({2}, {2}, true)) == k4;
  }

  lemma MembersLinked()
    ensures Links(Members(), Parents(), 0)
  {
    var g, up := Members(), Parents();
    assert g[1][0] == 2 && g[2][0] == 3 && g[3][0] == 4 && g[3][1] == 2;
    assert up[1][0] == 0 && up[2][0] == 3 && up[2][1] == 1 && up[3][0] == 2 && up[4][0] == 3;
  }

  /** The members-only loop refuses group 1 and suppresses everything below it. */
  lemma ModerationRefuses1()
    ensures Closed(Members()) && Within(Members(), [1])
    ensures Moderate(Members(), {}, [1], Start([1], {})) == Done(Refused1())
  {
    NoSenderBelow1();
    AllBelow1();
    var g, s0 := Members(), Start([1], {});
    assert ModerateOne(g, {}, 1, s0) == Done(Refused1());
    var none: seq<int> := [1][1..];
    assert none == [];
  }

  lemma FirstUp()
    ensures Closed(Parents())
    ensures ReleaseOne(Parents(), Refused1(), {4}, 2, Memo({}, {0}, {})) ==
        Answer(Memo({0, 1, 2, 3}, {0, 2}, {3}), false)
  {
    var up := Parents();
    assert up[3][1..] == [] && up[2][1..] == [1, 0] && [1, 0][1..] == [0];
    assert {} + {2} == {2} && {2} + {3} == {2, 3} && {} + {3} == {3};
    assert Search(up, {1}, [], Memo({2, 3}, {0}, {})) == Answer(Memo({2, 3}, {0}, {}), false);
    assert Search(up, {1}, up[3], Memo({2, 3}, {0}, {})) == Answer(Memo({2, 3}, {0}, {}), false);
    var m3 := Memo({2, 3}, {0}, {3});
    assert Search(up, {1}, up[2], Memo({2}, {0}, {})) == Search(up, {1}, [1, 0], m3);
    var m1 := m3.(colored := {2, 3} + {1});
    assert Search(up, {1}, [1, 0], m3) == Search(up, {1}, [0], m1);
    assert {2, 3} + {1} + {0} == {0, 1, 2, 3} && {0} + {2} == {0, 2};
  }

  lemma LaterUp()
    ensures Closed(Parents())
    ensures var m := Memo({0, 1, 2, 3}, {0, 2}, {3});
            var m3 := Memo({3}, {0, 2}, {3});
            && ReleaseOne(Parents(), Refused1(), {4}, 3, m) == Answer(m3, false)
            && ReleaseOne(Parents(), Refused1(), {4}, 4, m3) == Answer(Memo({3, 4}, {0, 2}, {3, 4}), false)
  {
    var up := Parents();
    assert [3][1..] == [] && [4][1..] == [] && up[4][1..] == [];
    assert {} + {3} == {3} && {} + {4} == {4} && {4} + {3} == {3, 4} && {3} + {4} == {3, 4};
    assert Search(up, {1}, [], Memo({3}, {0, 2}, {3})) == Answer(Memo({3}, {0, 2}, {3}), false);
    assert Search(up, {1}, [], Memo({3, 4}, {0, 2}, {3})) == Answer(Memo({3, 4}, {0, 2}, {3}), false);
    assert Search(up, {1}, up[4], Memo({4}, {0, 2}, {3})) == Answer(Memo({3, 4}, {0, 2}, {3}), false);
    assert Search(up, {1}, [], Memo({3, 4}, {0, 2}, {3, 4})) == Answer(Memo({3, 4}, {0, 2}, {3, 4}), false);
  }

  lemma FourHasChain()
    ensures Closed(Parents()) && Reach(Parents(), {1}, {0}, 4)
  {
    var up := Parents();
    assert up[2][2] == 0 && up[3][0] == 2 && up[4][0] == 3;
    assert ReachIn(up, {1}, {0}, 0, 0);
    ReachStep(up, {1}, {0}, 2, 0);
    ReachStep(up, {1}, {0}, 3, 2);
    ReachStep(up, {1}, {0}, 4, 3);
  }

  /** After moderation nothing is released, although 4 has the chain 4, 3, 2, root without a refused group. */
  lemma CyclicReleaseWithholds()
    ensures Links(Members(), Parents(), 0) && Within(Members(), [1])
    ensures Moderate(Members(), {}, [1], Start([1], {})) == Done(Refused1())
    ensures Closed(Parents()) && Within(Parents(), [1, 2, 3, 4])
    ensures Release(Parents(), Refused1(), {4}, [1, 2, 3, 4], Memo({}, {0}, {})) == []
    ensures Reach(Parents(), {1}, {0}, 4)
  {
    MembersLinked();
    ModerationRefuses1();
    FirstUp();
    LaterUp();
    FourHasChain();
    var up, s := Parents(), Refused1();
    var m, m3 := Memo({0, 1, 2, 3}, {0, 2}, {3}), Memo({3}, {0, 2}, {3});
    var none: seq<int> := [];
    assert ReleaseOne(up, s, {4}, 1, Memo({}, {0}, {})) == Answer(Memo({}, {0}, {}), false);
    assert [4][1..] == none && [3, 4][1..] == [4] && [2, 3, 4][1..] == [3, 4] && [1, 2, 3, 4][1..] == [2, 3, 4];
    assert Release(up, s, {4}, [4], m3) == none;
    assert Release(up, s, {4}, [3, 4], m) == none;
    assert Release(up, s, {4}, [2, 3, 4], Memo({}, {0}, {})) == none;
  }
}
