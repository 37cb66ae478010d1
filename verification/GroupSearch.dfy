/** The three searches of expand.c:788-880 on heap nodes, and the loops of `expand` that call them. */
module GroupSearch {
  import opened ExpAddrNode
  import opened CachedSearch
  import opened MembersOnly
  import opened Lists

  /** `down` and `up` are snapshots of the link lists of the addresses in `s`. */
  ghost predicate DownLinks(down: Graph<ExpAddr?>, s: set<ExpAddr>)
    reads s`children
  {
    Closed(down) && down.Keys == s && forall n :: n in s ==> down[n] == n.children
  }

  ghost predicate UpLinks(up: Graph<ExpAddr?>, s: set<ExpAddr>)
    reads s`parents
  {
    Closed(up) && up.Keys == s + {null} && up[null] == [] && forall n :: n in s ==> up[n] == n.parents
  }

  ghost predicate Fresh(s: set<ExpAddr>, color: int)
    reads s`antiLoop
  {
    forall n :: n in s ==> n.antiLoop < color
  }

  /** The nodes of `s` that carry each mark, as a memo; `color` is the colour of the current query. */
  ghost predicate SenderMarks(s: set<ExpAddr>, color: int, m: Memo<ExpAddr?>)
    reads s`antiLoop, s`emailSender, s`noEmailSender
  {
    && (forall n :: n in s ==> (n in m.colored <==> n.antiLoop == color))
    && SenderBits(s, m)
  }

  /** After a positive answer the colours no longer matter: the next query has another colour. */
  ghost predicate SenderBits(s: set<ExpAddr>, m: Memo<ExpAddr?>)
    reads s`emailSender, s`noEmailSender
  {
    forall n :: n in s ==> (n in m.yes <==> n.emailSender) && (n in m.no <==> n.noEmailSender)
  }

  method Paint(e: ExpAddr, color: int, ghost s: set<ExpAddr>, ghost m: Memo<ExpAddr?>)
    requires e in s && SenderMarks(s, color, m) && Fresh(s, color + 1)
    modifies e`antiLoop
    ensures SenderMarks(s, color, m.(colored := m.colored + {e})) && Fresh(s, color + 1)
  {
    e.antiLoop := color;
  }

  method CacheNoSender(e: ExpAddr, color: int, ghost s: set<ExpAddr>, ghost m: Memo<ExpAddr?>)
    requires e in s && SenderMarks(s, color, m)
    modifies e`noEmailSender
    ensures SenderMarks(s, color, m.(no := m.no + {e}))
  {
    e.noEmailSender := true;
  }

  method CacheSender(e: ExpAddr, ghost s: set<ExpAddr>, ghost m: Memo<ExpAddr?>)
    requires e in s && SenderBits(s, m)
    modifies e`emailSender
    ensures SenderBits(s, m.(yes := m.yes + {e}))
  {
    e.emailSender := true;
  }

  /** expand.c:815-845 */
  method SenderIsChild(list: seq<ExpAddr>, color: int, ghost down: Graph<ExpAddr?>, ghost s: set<ExpAddr>,
                       ghost m0: Memo<ExpAddr?>)
    returns (found: bool)
    requires DownLinks(down, s) && Within(down, list)
    requires SenderMarks(s, color, m0) && Fresh(s, color + 1)
    modifies s`antiLoop, s`emailSender, s`noEmailSender
    ensures found == Search(down, {}, list, m0).found
    ensures SenderBits(s, Search(down, {}, list, m0).memo)
    ensures !found ==> SenderMarks(s, color, Search(down, {}, list, m0).memo)
    ensures Fresh(s, color + 1)
    decreases down.Keys - m0.colored
  {
    ghost var m := m0;
    for i := 0 to |list|
      invariant Search(down, {}, list[i..], m) == Search(down, {}, list, m0)
      invariant SenderMarks(s, color, m) && m0.colored <= m.colored
      invariant Fresh(s, color + 1)
    {
      var e := list[i];
      assert list[i..][0] == e && list[i..][1..] == list[i + 1..];
      if e.antiLoop == color { continue; }
      Paint(e, color, s, m);
      m := m.(colored := m.colored + {e});
      if e.emailSender { return true; }
      if e.noEmailSender { continue; }
      ghost var a := Search(down, {}, down[e], m);
      var below := SenderIsChild(e.children, color, down, s, m);
      if below {
        CacheSender(e, s, a.memo);
        return true;
      }
      CacheNoSender(e, color, s, a.memo);
      m := a.memo.(no := a.memo.no + {e});
    }
    return false;
  }

  // ---------- The search towards the root ----------

  ghost predicate RootBits(s: set<ExpAddr>, m: Memo<ExpAddr?>)
    reads s`rootPath, s`noRootPath
  {
    && null in m.yes && null !in m.no
    && forall n :: n in s ==> (n in m.yes <==> n.rootPath) && (n in m.no <==> n.noRootPath)
  }

  ghost predicate RootMarks(s: set<ExpAddr>, color: int, m: Memo<ExpAddr?>)
    reads s`antiLoop, s`rootPath, s`noRootPath
  {
    && null !in m.colored && (forall n :: n in s ==> (n in m.colored <==> n.antiLoop == color))
    && RootBits(s, m)
  }

  ghost predicate Refused(s: set<ExpAddr>, blocked: set<ExpAddr?>)
    reads s`memonly
  {
    null !in blocked && forall n :: n in s ==> (n in blocked <==> n.memonly)
  }

  method PaintRoot(e: ExpAddr, color: int, ghost s: set<ExpAddr>, ghost m: Memo<ExpAddr?>)
    requires e in s && RootMarks(s, color, m) && Fresh(s, color + 1)
    modifies e`antiLoop
    ensures RootMarks(s, color, m.(colored := m.colored + {e})) && Fresh(s, color + 1)
  {
    e.antiLoop := color;
  }

  method CacheNoRootPath(e: ExpAddr, color: int, ghost s: set<ExpAddr>, ghost m: Memo<ExpAddr?>)
    requires e in s && RootMarks(s, color, m)
    modifies e`noRootPath
    ensures RootMarks(s, color, m.(no := m.no + {e}))
  {
    e.noRootPath := true;
  }

  method CacheRootPath(e: ExpAddr, ghost s: set<ExpAddr>, ghost m: Memo<ExpAddr?>)
    requires e in s && RootBits(s, m)
    modifies e`rootPath
    ensures RootBits(s, m.(yes := m.yes + {e}))
  {
    e.rootPath := true;
  }

  /** expand.c:848-880 */
  method UnblockedPathToRoot(e: ExpAddr, color: int, ghost up: Graph<ExpAddr?>, ghost blocked: set<ExpAddr?>,
                             ghost s: set<ExpAddr>, ghost m0: Memo<ExpAddr?>)
    returns (found: bool)
    requires e in s && UpLinks(up, s) && Refused(s, blocked)
    requires RootMarks(s, color, m0) && Fresh(s, color + 1) && m0.yes !! m0.no
    modifies s`antiLoop, s`rootPath, s`noRootPath
    ensures found == Search(up, blocked, [e], m0).found
    ensures RootBits(s, Search(up, blocked, [e], m0).memo)
    ensures !found ==> RootMarks(s, color, Search(up, blocked, [e], m0).memo)
    ensures Fresh(s, color + 1)
    decreases up.Keys - m0.colored
  {
    ghost var rest: seq<ExpAddr?> := [e][1..];
    assert rest == [];
    if e.antiLoop == color { return false; }
    PaintRoot(e, color, s, m0);
    ghost var m1 := m0.(colored := m0.colored + {e});
    if e.memonly { return false; }
    if e.noRootPath { return false; }
    if e.rootPath { return true; }
    ghost var m := m1;
    for i := 0 to |e.parents|
      invariant UpLinks(up, s) && Refused(s, blocked)
      invariant Search(up, blocked, e.parents[i..], m) == Search(up, blocked, up[e], m1)
      invariant RootMarks(s, color, m) && m1.colored <= m.colored && m.yes !! m.no
      invariant Fresh(s, color + 1)
    {
      var el := e.parents[i];
      ghost var a := Search(up, blocked, [el], m);
      SearchCons(up, blocked, e.parents[i..], m);
      SearchFacts(up, blocked, [el], m);
      assert e.parents[i..][1..] == e.parents[i + 1..];
      if el == null {
        CacheRootPath(e, s, m);
        return true;
      }
      var above := UnblockedPathToRoot(el, color, up, blocked, s, m);
      if above {
        CacheRootPath(e, s, a.memo);
        return true;
      }
      m := a.memo;
    }
    CacheNoRootPath(e, color, s, m);
    return false;
  }

  // ---------- Suppression ----------

  ghost predicate SupMarks(s: set<ExpAddr>, color: int, k: Marks<ExpAddr?>)
    reads s`antiLoop, s`supressed
  {
    forall n :: n in s ==> (n in k.colored <==> n.antiLoop == color) && (n in k.supressed <==> n.supressed)
  }

  ghost predicate Senders(s: set<ExpAddr>, senders: set<ExpAddr?>)
    reads s`emailSender
  {
    forall n :: n in s ==> (n in senders <==> n.emailSender)
  }

  method PaintSup(e: ExpAddr, color: int, ghost s: set<ExpAddr>, ghost k: Marks<ExpAddr?>)
    requires e in s && SupMarks(s, color, k) && Fresh(s, color + 1)
    modifies e`antiLoop
    ensures SupMarks(s, color, k.(colored := k.colored + {e})) && Fresh(s, color + 1)
  {
    e.antiLoop := color;
  }

  method MarkSupressed(e: ExpAddr, color: int, ghost s: set<ExpAddr>, ghost k: Marks<ExpAddr?>)
    requires e in s && SupMarks(s, color, k)
    modifies e`supressed
    ensures SupMarks(s, color, k.(supressed := k.supressed + {e}))
  {
    e.supressed := true;
  }

  /** expand.c:788-812; `ok` is false when the assertion fails. */
  method SupressAddrs(list: seq<ExpAddr>, color: int, ghost down: Graph<ExpAddr?>, ghost senders: set<ExpAddr?>,
                      ghost s: set<ExpAddr>, ghost k0: Marks<ExpAddr?>)
    returns (ok: bool)
    requires DownLinks(down, s) && Within(down, list) && Senders(s, senders)
    requires k0.ok && SupMarks(s, color, k0) && Fresh(s, color + 1)
    modifies s`antiLoop, s`supressed
    ensures ok == Suppress(down, senders, list, k0).ok
    ensures ok ==> SupMarks(s, color, Suppress(down, senders, list, k0))
    ensures Fresh(s, color + 1)
    decreases down.Keys - k0.colored
  {
    ghost var k := k0;
    for i := 0 to |list|
      invariant k.ok && k0.colored <= k.colored
      invariant Suppress(down, senders, list[i..], k) == Suppress(down, senders, list, k0)
      invariant SupMarks(s, color, k)
      invariant Fresh(s, color + 1)
    {
      var el := list[i];
      assert list[i..][0] == el && list[i..][1..] == list[i + 1..];
      if el.emailSender { return false; }
      if el.antiLoop == color { continue; }
      PaintSup(el, color, s, k);
      k := k.(colored := k.colored + {el});
      if el.supressed { continue; }
      MarkSupressed(el, color, s, k);
      k := k.(supressed := k.supressed + {el});
      var below := SupressAddrs(el.children, color, down, senders, s, k);
      if !below { return false; }
      k := Suppress(down, senders, down[el], k);
    }
    return true;
  }

  // ---------- The members-only loop ----------

  ghost predicate PermittedGroup(n: ExpAddr, s: set<ExpAddr>)
    reads n`okDns, n`parents, s`dn
  {
    exists p :: p in s && p in n.parents && p.dn in n.okDns
  }

  ghost predicate ParentsWithin(s: set<ExpAddr>)
    reads s`parents
  {
    forall n, p :: n in s && p in n.parents ==> p == null || p in s
  }

  /** expand.c:932-952 */
  method ParentPermitted(memonly: ExpAddr, ghost s: set<ExpAddr>) returns (found: bool)
    requires memonly in s && ParentsWithin(s)
    ensures found <==> PermittedGroup(memonly, s)
  {
    for i := 0 to |memonly.okDns|
      invariant forall p :: p in s && p in memonly.parents ==> p.dn !in memonly.okDns[..i]
    {
      for j := 0 to |memonly.parents|
        invariant forall q :: 0 <= q < j && memonly.parents[q] != null ==> memonly.parents[q].dn != memonly.okDns[i]
      {
        var parent := memonly.parents[j];
        if parent == null { continue; }
        if memonly.okDns[i] == parent.dn { return true; }
      }
    }
    return false;
  }

  ghost predicate PermittedSet(s: set<ExpAddr>, permitted: set<ExpAddr?>)
    reads s`okDns, s`parents, s`dn
  {
    forall n :: n in s ==> (n in permitted <==> PermittedGroup(n, s))
  }

  ghost predicate StateMarks(s: set<ExpAddr>, t: State<ExpAddr?>)
    reads s`memonly, s`supressor, s`supressed, s`emailSender, s`noEmailSender
  {
    forall n :: n in s ==>
      (n in t.memonly <==> n.memonly) && (n in t.supressor <==> n.supressor) && (n in t.supressed <==> n.supressed)
      && (n in t.sender <==> n.emailSender) && (n in t.noSender <==> n.noEmailSender)
  }

  ghost predicate Plain(n: ExpAddr)
    reads n`terminal, n`forwardEnv, n`moderatedEnv
  {
    n.terminal && !n.forwardEnv && !n.moderatedEnv
  }

  ghost function PlainNow(s: set<ExpAddr>): set<ExpAddr?>
    reads s`terminal, s`forwardEnv, s`moderatedEnv
  {
    set n | n in s && Plain(n)
  }

  method ClearGroup(m: ExpAddr, ghost s: set<ExpAddr>, ghost t: State<ExpAddr?>)
    requires m in s && StateMarks(s, t)
    modifies m`memonly, m`moderatedEnv
    ensures StateMarks(s, t.(memonly := t.memonly - {m})) && !m.moderatedEnv
  {
    m.memonly := false;
    m.moderatedEnv := false;
  }

  /** One query of `sender_is_child` as the loop sees it; every query uses a new colour. */
  method SenderBelow(m: ExpAddr, color: int, ghost down: Graph<ExpAddr?>, ghost s: set<ExpAddr>,
      ghost t: State<ExpAddr?>)
    returns (found: bool)
    requires m in s && DownLinks(down, s) && StateMarks(s, t) && Fresh(s, color)
    modifies s`antiLoop, s`emailSender, s`noEmailSender
    ensures var a := Search(down, {}, down[m], Memo({}, t.sender, t.noSender));
            found == a.found && StateMarks(s, t.(sender := a.memo.yes, noSender := a.memo.no))
    ensures Fresh(s, color + 1)
  {
    ghost var memo: Memo<ExpAddr?> := Memo({}, t.sender, t.noSender);
    found := SenderIsChild(m.children, color, down, s, memo);
    ghost var a := Search(down, {}, down[m], memo);
    assert SenderBits(s, a.memo);
  }

  method RefuseGroup(m: ExpAddr, color: int, ghost down: Graph<ExpAddr?>, ghost s: set<ExpAddr>,
      ghost t: State<ExpAddr?>)
    returns (ok: bool)
    requires m in s && DownLinks(down, s) && StateMarks(s, t) && Fresh(s, color)
    modifies m`supressor, s`antiLoop, s`supressed
    ensures var r := Suppress(down, t.sender, down[m], Marks({}, t.supressed, true));
            ok == r.ok && (ok ==> StateMarks(s, t.(supressor := t.supressor + {m}, supressed := r.supressed)))
    ensures Fresh(s, color + 1)
  {
    m.supressor := true;
    ghost var k: Marks<ExpAddr?> := Marks({}, t.supressed, true);
    ok := SupressAddrs(m.children, color, down, t.sender, s, k);
    ghost var r := Suppress(down, t.sender, down[m], k);
    assert ok ==> SupMarks(s, color, r);
  }

  /** expand.c:222-249: one members-only group. */
  method ModerateGroup(m: ExpAddr, color0: int, ghost down: Graph<ExpAddr?>, ghost permitted: set<ExpAddr?>,
                       ghost s: set<ExpAddr>, ghost t: State<ExpAddr?>)
    returns (ok: bool, color: int)
    requires m in s && DownLinks(down, s) && ParentsWithin(s) && PermittedSet(s, permitted)
    requires StateMarks(s, t) && Fresh(s, color0)
    modifies s`antiLoop, s`emailSender, s`noEmailSender, s`supressed, m`supressor, m`memonly, m`moderatedEnv
    ensures ok == ModerateOne(down, permitted, m, t).Done?
    ensures ok ==> StateMarks(s, ModerateOne(down, permitted, m, t).s)
    ensures Fresh(s, color)
    ensures ok && old(m.memonly) && !m.memonly ==> !m.moderatedEnv
    ensures m.memonly ==> old(m.memonly) && m.moderatedEnv == old(m.moderatedEnv)
    ensures m.moderatedEnv ==> old(m.moderatedEnv)
  {
    color := color0;
    var clear := ParentPermitted(m, s);
    ghost var t1 := t;
    if !clear {
      ghost var a := Search(down, {}, down[m], Memo({}, t.sender, t.noSender));
      clear := SenderBelow(m, color, down, s, t);
      t1 := t.(sender := a.memo.yes, noSender := a.memo.no);
      color := color + 1;
    }
    if clear {
      ClearGroup(m, s, t1);
      return true, color;
    }
    ok := RefuseGroup(m, color, down, s, t1);
    color := color + 1;
  }

  /** expand.c:218-250 */
  method ModerateGroups(queue: seq<ExpAddr>, color0: int, ghost down: Graph<ExpAddr?>, ghost permitted: set<ExpAddr?>,
                        ghost s: set<ExpAddr>, ghost t0: State<ExpAddr?>)
    returns (ok: bool, color: int)
    requires DownLinks(down, s) && Within(down, queue) && ParentsWithin(s) && PermittedSet(s, permitted)
    requires StateMarks(s, t0) && Fresh(s, color0)
    modifies s`antiLoop, s`emailSender, s`noEmailSender, s`supressed, s`supressor, s`memonly, s`moderatedEnv
    ensures ok == Moderate(down, permitted, queue, t0).Done?
    ensures ok ==> StateMarks(s, Moderate(down, permitted, queue, t0).s)
    ensures Fresh(s, color)
  {
    color := color0;
    ghost var t := t0;
    for i := 0 to |queue|
      invariant Moderate(down, permitted, queue[i..], t) == Moderate(down, permitted, queue, t0)
      invariant StateMarks(s, t) && Fresh(s, color)
    {
      var m := queue[i];
      assert queue[i..][0] == m && queue[i..][1..] == queue[i + 1..];
      ok, color := ModerateGroup(m, color, down, permitted, s, t);
      if !ok { return false, color; }
      t := ModerateOne(down, permitted, m, t).s;
    }
    return true, color;
  }

  // ---------- The output loop ----------

  /** expand.c:257-434 for one address: does it become a recipient of an output envelope? */
  method ReleaseAddress(e: ExpAddr, color0: int, ghost up: Graph<ExpAddr?>, ghost s: set<ExpAddr>,
                        ghost t: State<ExpAddr?>, ghost plain: set<ExpAddr?>, ghost m: Memo<ExpAddr?>)
    returns (out: bool, color: int)
    requires e in s && UpLinks(up, s) && Refused(s, t.memonly) && Fresh(s, color0)
    requires StateMarks(s, t) && plain == PlainNow(s)
    requires RootBits(s, m) && m.yes !! m.no
    modifies s`antiLoop, s`rootPath, s`noRootPath
    ensures out == ReleaseOne(up, t, plain, e, m).found
    ensures RootBits(s, ReleaseOne(up, t, plain, e, m).memo)
    ensures ReleaseOne(up, t, plain, e, m).memo.yes !! ReleaseOne(up, t, plain, e, m).memo.no
    ensures Fresh(s, color)
  {
    SearchFacts(up, t.memonly, [e], m.(colored := {}));
    color := color0;
    if e.supressed {
      var found := UnblockedPathToRoot(e, color, up, t.memonly, s, m.(colored := {}));
      color := color + 1;
      if !found { return false, color; }
    }
    if e.forwardEnv { return false, color; }
    if e.moderatedEnv { return false, color; }
    if e.supressor { return false, color; }
    return e.terminal, color;
  }

  /** expand.c:256-499, reduced to which addresses become recipients of an output envelope. */
  method ReleaseLoop(order: seq<ExpAddr>, color0: int, ghost up: Graph<ExpAddr?>, ghost s: set<ExpAddr>,
                     ghost t: State<ExpAddr?>, ghost plain: set<ExpAddr?>, ghost m0: Memo<ExpAddr?>)
    returns (out: seq<ExpAddr>)
    requires (forall e :: e in order ==> e in s) && UpLinks(up, s)
    requires Refused(s, t.memonly) && StateMarks(s, t) && plain == PlainNow(s)
    requires RootBits(s, m0) && m0.yes !! m0.no && Fresh(s, color0)
    modifies s`antiLoop, s`rootPath, s`noRootPath
    ensures out == Release(up, t, plain, order, m0)
  {
    out := [];
    var color := color0;
    ghost var m := m0;
    for i := 0 to |order|
      invariant out + Release(up, t, plain, order[i..], m) == Release(up, t, plain, order, m0)
      invariant RootBits(s, m) && m.yes !! m.no && Fresh(s, color)
    {
      var e := order[i];
      ReleaseUnfolds(up, t, plain, order, i, m, out);
      var released;
      released, color := ReleaseAddress(e, color, up, s, t, plain, m);
      m := ReleaseOne(up, t, plain, e, m).memo;
      if released {
        out := out + [e];
      }
    }
  }

  /** What the worklist hands over: all addresses with empty marks, linked both ways, each with a chain of
    * parents to the root; the members-only groups are queued once each and are not terminal.
    */
  ghost predicate Expanded(queue: seq<ExpAddr>, order: seq<ExpAddr>, s: set<ExpAddr>,
                           down: Graph<ExpAddr?>, up: Graph<ExpAddr?>)
    reads s
  {
    && DownLinks(down, s) && UpLinks(up, s) && Links(down, up, null)
    && (forall n :: n in s ==> Reach(up, {}, {null}, n))
    && s == (set n | n in order)
    && Distinct(order) && Distinct(queue) && (forall n :: n in s ==> (n in queue <==> n.memonly))
        && (forall n :: n in queue ==> n in s)
    && (forall n :: n in s ==>
        n.antiLoop == 0 && !n.supressor && !n.supressed && !n.noEmailSender && !n.rootPath && !n.noRootPath)
  }

  ghost function SenderSet(s: set<ExpAddr>): set<ExpAddr?>
    reads s`emailSender
  {
    set n | n in s && n.emailSender
  }

  /** The two loops one after the other, as functions of the state handed over. */
  method ModerateAndRelease(queue: seq<ExpAddr>, order: seq<ExpAddr>, ghost s: set<ExpAddr>,
                            ghost down: Graph<ExpAddr?>, ghost up: Graph<ExpAddr?>,
                            ghost permitted: set<ExpAddr?>, ghost t0: State<ExpAddr?>)
    returns (ok: bool, out: seq<ExpAddr>)
    requires DownLinks(down, s) && UpLinks(up, s) && Within(down, queue) && Within(down, order)
    requires PermittedSet(s, permitted) && StateMarks(s, t0) && null !in t0.memonly
    requires Fresh(s, 1) && RootBits(s, Memo({}, {null}, {}))
    modifies s`antiLoop, s`emailSender, s`noEmailSender, s`supressed, s`supressor, s`memonly, s`moderatedEnv
    modifies s`rootPath, s`noRootPath
    ensures ok == Moderate(down, permitted, queue, t0).Done?
    ensures ok ==> var t := Moderate(down, permitted, queue, t0).s;
                   StateMarks(s, t) && out == Release(up, t, PlainNow(s), order, Memo({}, {null}, {}))
  {
    var color;
    ok, color := ModerateGroups(queue, 1, down, permitted, s, t0);
    if !ok { return false, []; }
    ghost var t := Moderate(down, permitted, queue, t0).s;
    out := ReleaseLoop(order, color, up, s, t, PlainNow(s), Memo({}, {null}, {}));
  }

  /** The members-only groups that a parent permits. */
  ghost function PermittedNow(s: set<ExpAddr>): set<ExpAddr?>
    reads s`okDns, s`parents, s`dn
  {
    set n | n in s && PermittedGroup(n, s)
  }

  /** The refusal policy, read off the marks after the loop. */
  ghost predicate RefusedExactly(queue: seq<ExpAddr>, s: set<ExpAddr>, down: Graph<ExpAddr?>, senders: set<ExpAddr?>)
    requires Closed(down) && Within(down, queue)
    reads s`okDns, s`parents, s`dn, s`memonly, queue`memonly, queue`okDns, queue`parents
  {
    forall m :: m in queue ==> (m.memonly <==> !PermittedGroup(m, s) && !AnyReach(down, {}, senders, down[m]))
  }

  /** The chain that an address needs to be released: from an original recipient, without a refused group. */
  ghost predicate HasChain(e: ExpAddr, s: set<ExpAddr>, up: Graph<ExpAddr?>)
    requires Closed(up) && e in up
    reads s`memonly
  {
    Reach(up, set n | n in s && n.memonly, {null}, e)
  }

  ghost predicate ReleasedSoundly(out: seq<ExpAddr>, s: set<ExpAddr>, up: Graph<ExpAddr?>)
    requires Closed(up) && s <= up.Keys
    reads s`memonly, s`terminal, s`forwardEnv, s`moderatedEnv
  {
    forall e :: e in out ==> e in s && Plain(e) && HasChain(e, s, up)
  }

  ghost predicate ReleasedExactly(out: seq<ExpAddr>, s: set<ExpAddr>, up: Graph<ExpAddr?>)
    requires Closed(up) && s <= up.Keys
    reads s`memonly, s`terminal, s`forwardEnv, s`moderatedEnv
  {
    forall e :: e in s ==> (e in out <==> Plain(e) && HasChain(e, s, up))
  }

  /** What one expansion does with its members-only groups, on any graph.  The assertion holds if and only if the
    * members-only loop is clear, and then a group stays members-only if and only if no parent is permitted and the
    * sender is not below it.  A released address is plain and has a chain of groups from an original recipient in
    * which no group is still members-only; all such addresses are released if and only if the output loop is clear.
    * Without cyclic groups both loops are clear.
    */
  ghost predicate Policies(queue: seq<ExpAddr>, order: seq<ExpAddr>, s: set<ExpAddr>, down: Graph<ExpAddr?>,
      up: Graph<ExpAddr?>,
                           permitted: set<ExpAddr?>, senders: set<ExpAddr?>, ok: bool, out: seq<ExpAddr>)
    requires Closed(down) && Closed(up) && Within(down, queue) && Within(up, order) && s <= up.Keys
    reads s`okDns, s`parents, s`dn, s`memonly, s`terminal, s`forwardEnv, s`moderatedEnv, queue`memonly,
        queue`okDns, queue`parents
  {
    var o := Moderate(down, permitted, queue, Start(queue, senders));
    && (ok <==> o.Done?) && (ok <==> ClearModeration(down, permitted, queue, Start(queue, senders)))
    && (ok ==> RefusedExactly(queue, s, down, senders))
    && (ok ==> ReleasedSoundly(out, s, up))
    && (ok ==> (ReleasedExactly(out, s, up) <==> ClearRelease(up, o.s, PlainNow(s), order, Memo({}, {null}, {}))))
    && (Acyclic(down) ==> ok && ReleasedExactly(out, s, up))
  }

  lemma RefusalsHold(queue: seq<ExpAddr>, s: set<ExpAddr>, down: Graph<ExpAddr?>, permitted: set<ExpAddr?>,
      senders: set<ExpAddr?>)
    requires Closed(down) && down.Keys == s && Distinct(queue) && Within(down, queue) && PermittedSet(s, permitted)
    requires var o := Moderate(down, permitted, queue, Start(queue, senders)); o.Done? && StateMarks(s, o.s)
    ensures RefusedExactly(queue, s, down, senders)
  {
    RefusalPolicy<ExpAddr?>(down, senders, permitted, queue);
  }

  lemma ReleasesHold(queue: seq<ExpAddr>, order: seq<ExpAddr>, s: set<ExpAddr>, down: Graph<ExpAddr?>,
      up: Graph<ExpAddr?>,
                     permitted: set<ExpAddr?>, senders: set<ExpAddr?>, t: State<ExpAddr?>, out: seq<ExpAddr>)
    requires Links(down, up, null) && down.Keys == s && s == (set n | n in order) && Distinct(order)
    requires forall n :: n in s ==> Reach(up, {}, {null}, n)
    requires Distinct(queue) && Within(down, queue)
    requires Moderate(down, permitted, queue, Start(queue, senders)) == Done(t)
    requires StateMarks(s, t) && out == Release(up, t, PlainNow(s), order, Memo({}, {null}, {}))
    ensures ReleasedSoundly(out, s, up)
    ensures ReleasedExactly(out, s, up) <==> ClearRelease(up, t, PlainNow(s), order, Memo({}, {null}, {}))
    ensures Acyclic(down) ==> ReleasedExactly(out, s, up)
  {
    ReleasePolicy(down, up, null, senders, permitted, queue, PlainNow(s), order);
    assert t.memonly <= s;
    assert t.memonly == set n | n in s && n.memonly;
  }

  /** The policies of module MembersOnly, read off the marks after both loops. */
  lemma PoliciesHold(queue: seq<ExpAddr>, order: seq<ExpAddr>, s: set<ExpAddr>,
                     down: Graph<ExpAddr?>, up: Graph<ExpAddr?>,
                     permitted: set<ExpAddr?>, senders: set<ExpAddr?>, ok: bool, out: seq<ExpAddr>)
    requires Links(down, up, null) && down.Keys == s && s == (set n | n in order) && Distinct(order)
    requires forall n :: n in s ==> Reach(up, {}, {null}, n)
    requires Distinct(queue) && Within(down, queue) && PermittedSet(s, permitted)
    requires var o := Moderate(down, permitted, queue, Start(queue, senders));
             ok == o.Done? && (ok ==>
                 StateMarks(s, o.s) && out == Release(up, o.s, PlainNow(s), order, Memo({}, {null}, {})))
    ensures Policies(queue, order, s, down, up, permitted, senders, ok, out)
  {
    RefusalPolicy<ExpAddr?>(down, senders, permitted, queue);
    if ok {
      RefusalsHold(queue, s, down, permitted, senders);
      ReleasesHold(queue, order, s, down, up, permitted, senders,
          Moderate(down, permitted, queue, Start(queue, senders)).s, out);
    }
  }

  /** What the worklist hands over is what the two loops start from. */
  lemma ExpandedIsStart(queue: seq<ExpAddr>, order: seq<ExpAddr>, s: set<ExpAddr>, down: Graph<ExpAddr?>,
      up: Graph<ExpAddr?>)
    requires Expanded(queue, order, s, down, up)
    ensures Within(down, queue) && Within(down, order) && StateMarks(s, Start(queue, SenderSet(s)))
    ensures null !in Start(queue, SenderSet(s)).memonly
    ensures Fresh(s, 1) && RootBits(s, Memo({}, {null}, {})) && PermittedSet(s, PermittedNow(s))
  {}

  /** The members-only loop and the output loop of one expansion, on any graph. */
  method ReleaseAddresses(queue: seq<ExpAddr>, order: seq<ExpAddr>, ghost s: set<ExpAddr>,
                          ghost down: Graph<ExpAddr?>, ghost up: Graph<ExpAddr?>)
    returns (ok: bool, out: seq<ExpAddr>)
    requires Expanded(queue, order, s, down, up)
    modifies s`antiLoop, s`emailSender, s`noEmailSender, s`supressed, s`supressor, s`memonly, s`moderatedEnv
    modifies s`rootPath, s`noRootPath
    ensures Policies(queue, order, s, down, up, PermittedNow(s), old(SenderSet(s)), ok, out)
  {
    ghost var permitted, senders := PermittedNow(s), SenderSet(s);
    ExpandedIsStart(queue, order, s, down, up);
    ok, out := ModerateAndRelease(queue, order, s, down, up, permitted, Start(queue, senders));
    PoliciesHold(queue, order, s, down, up, permitted, senders, ok, out);
  }
}
