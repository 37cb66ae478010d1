/** The expansion worklist: `add_address` (address.c:191-345) and the expansion loop of `expand`
  * (expand.c:187-216).  Directory lookups are a parameter.
  */
module AddressWorklist {
  import opened ExpAddrNode
  import opened CachedSearch
  import opened MembersOnly
  import opened Lists
  import opened GroupSearch
  import opened LetterCase

  ghost function Keys(xs: seq<ExpAddr>): set<string> {
    set x | x in xs :: Fold(x.addr)
  }

  // ---------- The marks of one address ----------

  ghost predicate Unexpanded(n: ExpAddr)
    reads n`terminal, n`memonly, n`dn, n`okDns, n`moderatedEnv, n`forwardEnv
  {
    !n.terminal && !n.memonly && n.dn == "" && n.okDns == [] && !n.moderatedEnv && !n.forwardEnv
  }

  /** No search has met the address yet. */
  ghost predicate Unsearched(n: ExpAddr)
    reads n`antiLoop, n`supressor, n`supressed, n`noEmailSender, n`rootPath, n`noRootPath
  {
    n.antiLoop == 0 && !n.supressor && !n.supressed && !n.noEmailSender && !n.rootPath && !n.noRootPath
  }

  /** The mark that an address gets when it is created (address.c:277-284). */
  predicate SenderWritten(dir: Directory, n: ExpAddr) {
    !n.isDn && dir.isSender(n.addr)
  }

  /** The sender of the message: written so, or a person whose mail attribute is the sender (simta_ldap.c:1455-1462). */
  predicate IsSender(dir: Directory, n: ExpAddr) {
    SenderWritten(dir, n) || (dir.expand(Member(n.addr, n.isDn)).Exclude? && dir.expand(Member(n.addr, n.isDn)).sender)
  }

  ghost predicate New(dir: Directory, n: ExpAddr)
    reads n`terminal, n`memonly, n`dn, n`okDns, n`moderatedEnv, n`forwardEnv
    reads n`antiLoop, n`supressor, n`supressed, n`noEmailSender, n`rootPath, n`noRootPath, n`emailSender
  {
    Unexpanded(n) && Unsearched(n) && n.emailSender == SenderWritten(dir, n)
  }

  ghost predicate Unmarked(dir: Directory, s: set<ExpAddr>)
    reads s`terminal, s`memonly, s`dn, s`okDns, s`moderatedEnv, s`forwardEnv
    reads s`antiLoop, s`supressor, s`supressed, s`noEmailSender, s`rootPath, s`noRootPath, s`emailSender
  {
    forall n :: n in s ==> New(dir, n)
  }

  /** Not expanded yet, and not original recipients. */
  ghost predicate Childless(s: set<ExpAddr>)
    reads s`children, s`parents
  {
    forall n :: n in s ==> n.children == [] && null !in n.parents
  }

  // ---------- What the directories say ----------

  datatype Member = Member(addr: string, isDn: bool)

  /** What `address_expand` finds for one address. */
  datatype Step =
    | SysError
    | Final
    | Exclude(members: seq<Member>, memonly: bool, dn: string, okDns: seq<string>, moderated: bool,
        forward: bool, sender: bool)

  datatype Directory = Directory(
    expand: Member -> Step,
    headOfList: Member -> bool,
    wellFormed: string -> bool,
    isSender: string -> bool)

  function MembersOf(dir: Directory, e: ExpAddr): seq<Member> {
    var step := dir.expand(Member(e.addr, e.isDn));
    if step.Exclude? then step.members else []
  }

  ghost function MemberKeys(ms: seq<Member>): set<string> {
    set m | m in ms :: Fold(m.addr)
  }

  ghost function RcptKeys(rcpts: seq<string>): set<string> {
    set r | r in rcpts :: Fold(r)
  }

  lemma RcptKeysPrefix(rcpts: seq<string>, i: nat)
    requires i < |rcpts|
    ensures RcptKeys(rcpts[..i + 1]) == RcptKeys(rcpts[..i]) + {Fold(rcpts[i])}
    ensures RcptKeys(rcpts[..i + 1]) <= RcptKeys(rcpts)
  {}

  ghost function KeysOf(s: set<ExpAddr>): set<string> {
    set n | n in s :: Fold(n.addr)
  }

  /** The directories only ever lead to addresses in `universe`; this bounds the expansion. */
  ghost predicate ClosedUniverse(dir: Directory, universe: set<string>) {
    forall m: Member :: Fold(m.addr) in universe ==>
      (dir.expand(m).Exclude? ==> MemberKeys(dir.expand(m).members) <= universe)
  }

  // ---------- The links ----------

  /** The links are mutual and stay within `s`; every address keeps the parent it was created under, so
    * following those parents ends at an original recipient.
    */
  ghost predicate Linkage(s: set<ExpAddr>)
    reads s`children, s`parents
  {
    && (forall n, p {:trigger p in n.parents} :: n in s && p in n.parents ==> p == null || (p in s && n in p.children))
    && (forall n, c {:trigger c in n.children} :: n in s && c in n.children ==> c in s && n in c.parents)
    && (forall n :: n in s ==> n.anchor in n.parents && (n.anchor != null ==> n.anchor.depth < n.depth))
  }

  function Linked<N(==)>(links: seq<N>, n: N): seq<N> {
    if n in links then links else [n] + links
  }

  lemma KeysLinked(xs: seq<ExpAddr>, e: ExpAddr)
    ensures Keys(Linked(xs, e)) == Keys(xs) + {Fold(e.addr)}
  {}

  lemma MemberKeysPrefix(ms: seq<Member>, i: nat)
    requires i < |ms|
    ensures MemberKeys(ms[..i + 1]) == MemberKeys(ms[..i]) + {Fold(ms[i].addr)}
    ensures Fold(ms[i].addr) in MemberKeys(ms)
  {}

  // ---------- The worklist ----------

  class Expand {
    var list: seq<ExpAddr>
    var cursor: int
    var memonly: seq<ExpAddr>
    var entries: nat
    ghost var nodes: set<ExpAddr>

    ghost predicate ValidList()
      reads this
    {
      && nodes == (set n | n in list) && -1 <= cursor <= |list| && entries == |list|
      && (forall i, j :: 0 <= i < j < |list| ==> list[i] != list[j] && Fold(list[i].addr) != Fold(list[j].addr))
    }

    ghost predicate Valid()
      reads this, nodes`children, nodes`parents
    {
      ValidList() && Linkage(nodes)
    }

    function Cursor(): (c: ExpAddr?)
      reads this
      requires cursor < |list|
    {
      if cursor < 0 then null else list[cursor]
    }

    constructor ()
      ensures Valid() && list == [] && cursor == -1 && memonly == []
    {
      list, cursor, memonly, entries, nodes := [], -1, [], 0, {};
    }

    /** address.c:203-207 */
    method Lookup(addr: string) returns (e: ExpAddr?)
      ensures e == null ==> Fold(addr) !in Keys(list)
      ensures e != null ==> e in list && Fold(e.addr) == Fold(addr)
    {
      for i := 0 to |list|
        invariant forall j :: 0 <= j < i ==> Fold(list[j].addr) != Fold(addr)
      {
        if Fold(addr) == Fold(list[i].addr) { return list[i]; }
      }
      return null;
    }

    /** address.c:301-316: the tail, right after the cursor, or the head when nothing is being expanded. */
    method Insert(e: ExpAddr, atHead: bool)
      requires ValidList() && cursor < |list| && e !in list && Fold(e.addr) !in Keys(list)
      modifies `list, `nodes, `entries
      ensures ValidList() && nodes == old(nodes) + {e}
      ensures list == InsertedAt(old(list), if atHead then cursor + 1 else |old(list)|, e)
    {
      var at := if atHead then cursor + 1 else |list|;
      InsertedFacts(list, at, e);
      list := list[..at] + [e] + list[at..];
      nodes := nodes + {e};
      entries := entries + 1;
    }

    /** address.c:203-317: the entry for `m`, created and inserted if there is none. */
    method FindOrInsert(m: Member, dir: Directory) returns (e: ExpAddr?)
      requires ValidList() && cursor < |list|
      modifies `list, `nodes, `entries
      ensures ValidList()
      ensures |list| >= old(|list|) && forall i :: 0 <= i <= cursor ==> list[i] == old(list[i])
      ensures e == null ==> list == old(list) && nodes == old(nodes)
      ensures e != null ==>
          Fold(e.addr) == Fold(m.addr) && nodes == old(nodes) + {e} && Keys(list) == old(Keys(list)) + {Fold(m.addr)}
      ensures e != null && e !in old(nodes) ==>
          fresh(e) && New(dir, e) && e.children == [] && e.parents == [] && e.anchor == Cursor()
      ensures e != null && e !in old(nodes) && cursor >= 0 ==> list[cursor].depth < e.depth
      ensures e == null <==> Fold(m.addr) !in old(Keys(list)) && !m.isDn && !dir.wellFormed(m.addr)
    {
      e := Lookup(m.addr);
      if e != null { return; }
      if !m.isDn && !dir.wellFormed(m.addr) { return; }
      e := new ExpAddr(m.addr, m.isDn, Cursor());
      if !m.isDn && dir.isSender(m.addr) {
        e.emailSender := true;
      }
      Insert(e, dir.headOfList(m));
    }

    /** address.c:191-345 */
    method AddAddress(m: Member, dir: Directory) returns (e: ExpAddr?)
      requires Valid() && cursor < |list|
      modifies `list, `nodes, `entries, nodes`parents, nodes`children
      ensures Valid()
      ensures |list| >= old(|list|) && forall i :: 0 <= i <= cursor ==> list[i] == old(list[i])
      ensures e == null ==> list == old(list) && nodes == old(nodes)
      ensures e != null ==>
          Fold(e.addr) == Fold(m.addr) && nodes == old(nodes) + {e} && Keys(list) == old(Keys(list)) + {Fold(m.addr)}
      ensures e != null && e !in old(nodes) ==> fresh(e) && New(dir, e) && e.children == []
      ensures e != null && e !in old(nodes) ==> (null in e.parents <==> cursor < 0)
      ensures forall n :: n in old(nodes) ==> (null in n.parents <==> null in old(n.parents) || (n == e && cursor < 0))
      ensures e != null && cursor >= 0 ==> list[cursor].children == Linked(old(list[cursor].children), e)
      ensures forall n :: n in old(nodes) && n != Cursor() ==> n.children == old(n.children)
    {
      ghost var s := nodes;
      e := FindOrInsert(m, dir);
      if e == null { return; }
      LinkBoth(e, Cursor(), s);
    }

    /** One member of the address under the cursor; `before` holds the addresses known before its first member. */
    method AddMember(m: Member, dir: Directory, ghost before: set<ExpAddr>) returns (ok: bool)
      requires Valid() && 0 <= cursor < |list| && list[cursor] in before && before <= nodes
      requires Unmarked(dir, nodes - before) && Childless(nodes - before)
      modifies `list, `nodes, `entries, nodes`parents, nodes`children
      ensures Valid() && old(nodes) <= nodes && fresh(nodes - old(nodes))
      ensures |list| >= old(|list|) && forall i :: 0 <= i <= cursor ==> list[i] == old(list[i])
      ensures ok ==> Keys(list[cursor].children) == old(Keys(list[cursor].children)) + {Fold(m.addr)}
      ensures Keys(list) == old(Keys(list)) + if ok then {Fold(m.addr)} else {}
      ensures forall n :: n in before && n != list[cursor] ==> n.children == old(n.children)
      ensures forall n :: n in before ==> (null in n.parents <==> null in old(n.parents))
      ensures Unmarked(dir, nodes - before) && Childless(nodes - before)
    {
      ghost var linked, newcomers := list[cursor].children, nodes - before;
      var e := AddAddress(m, dir);
      assert Unmarked(dir, newcomers);
      if e == null { return false; }
      KeysLinked(linked, e);
      assert nodes - before <= newcomers + {e};
      return true;
    }

    /** The members found for the address under the cursor, added in order. */
    method AddMembers(ms: seq<Member>, dir: Directory) returns (ok: bool)
      requires Valid() && 0 <= cursor < |list| && list[cursor].children == []
      modifies `list, `nodes, `entries, nodes`parents, nodes`children
      ensures Valid() && old(nodes) <= nodes && fresh(nodes - old(nodes))
      ensures |list| >= old(|list|) && forall i :: 0 <= i <= cursor ==> list[i] == old(list[i])
      ensures ok ==> Keys(list[cursor].children) == MemberKeys(ms)
      ensures Keys(list) <= old(Keys(list)) + MemberKeys(ms)
      ensures forall n :: n in old(nodes) && n != list[cursor] ==> n.children == old(n.children)
      ensures forall n :: n in old(nodes) ==> (null in n.parents <==> null in old(n.parents))
      ensures Unmarked(dir, nodes - old(nodes)) && Childless(nodes - old(nodes))
    {
      ghost var before := nodes;
      for i := 0 to |ms|
        invariant Valid() && cursor == old(cursor) && before <= nodes && fresh(nodes - before)
        invariant |list| >= old(|list|) && forall i :: 0 <= i <= cursor ==> list[i] == old(list[i])
        invariant Keys(list[cursor].children) == MemberKeys(ms[..i])
        invariant Keys(list) <= old(Keys(list)) + MemberKeys(ms)
        invariant forall n :: n in before && n != list[cursor] ==> n.children == old(n.children)
        invariant forall n :: n in before ==> (null in n.parents <==> null in old(n.parents))
        invariant Unmarked(dir, nodes - before) && Childless(nodes - before)
      {
        MemberKeysPrefix(ms, i);
        ok := AddMember(ms[i], dir, before);
        if !ok { return; }
      }
      assert ms[..|ms|] == ms;
      return true;
    }

    /** The members-only groups are queued once each. */
    ghost predicate Queued()
      reads this, nodes`memonly
    {
      Distinct(memonly) && (forall n :: n in memonly ==> n in nodes) && forall n :: n in nodes ==>
          (n in memonly <==> n.memonly)
    }

    ghost predicate RootsAre(originals: set<ExpAddr>)
      reads this, nodes`parents
    {
      originals <= nodes && forall n :: n in nodes ==> (null in n.parents <==> n in originals)
    }

    /** simta_ldap.c:1290-1305 */
    method QueueGroup(n: ExpAddr)
      requires n in nodes && Queued() && !n.memonly
      modifies `memonly, n`memonly
      ensures Queued() && n.memonly
    {
      n.memonly := true;
      memonly := ExpAddrLink(memonly, n);
    }

    /** The flags `address_expand` sets on the address it looked up (simta_ldap.c:1143-1317 for groups, 1455-1462 for
      * persons).
      */
    method SetFlags(n: ExpAddr, step: Step, dir: Directory)
      requires n in nodes && Queued() && New(dir, n)
      requires step == dir.expand(Member(n.addr, n.isDn)) && !step.SysError?
      modifies `memonly, n`terminal, n`memonly, n`dn, n`okDns, n`moderatedEnv, n`forwardEnv, n`emailSender
      ensures Queued() && Flagged(dir, n)
    {
      match step
      case Final =>
        n.terminal := true;
      case Exclude(_, memonlyGroup, dn, okDns, moderated, forward, sender) =>
        n.dn, n.okDns, n.moderatedEnv, n.forwardEnv := dn, okDns, moderated, forward;
        if memonlyGroup {
          QueueGroup(n);
        }
        if sender {
          n.emailSender := true;
        }
        n.terminal := false;
    }

    /** The address under the cursor gets its marks; `done` holds the addresses before it. */
    method Record(n: ExpAddr, step: Step, dir: Directory, ghost originals: set<ExpAddr>, ghost done: set<ExpAddr>)
      requires Valid() && Queued() && RootsAre(originals) && step == dir.expand(Member(n.addr, n.isDn))
      requires !step.SysError?
      requires done <= nodes && n in nodes - done && SettledAll(dir, done) && PendingAll(dir, nodes - done)
      modifies `memonly, n`terminal, n`memonly, n`dn, n`okDns, n`moderatedEnv, n`forwardEnv, n`emailSender
      ensures Valid() && Queued() && RootsAre(originals)
      ensures Flagged(dir, n) && n.children == [] && SettledAll(dir, done) && PendingAll(dir, nodes - (done + {n}))
    {
      SetFlags(n, step, dir);
    }

    /** The newcomers are neither queued groups nor original recipients. */
    method AddGroup(ms: seq<Member>, dir: Directory, ghost originals: set<ExpAddr>) returns (ok: bool)
      requires Valid() && Queued() && RootsAre(originals) && 0 <= cursor < |list| && list[cursor].children == []
      modifies `list, `nodes, `entries, nodes`parents, nodes`children
      ensures Valid() && Queued() && RootsAre(originals) && old(nodes) <= nodes && fresh(nodes - old(nodes))
      ensures |list| >= old(|list|) && forall i :: 0 <= i <= cursor ==> list[i] == old(list[i])
      ensures ok ==> Keys(list[cursor].children) == MemberKeys(ms)
      ensures Keys(list) <= old(Keys(list)) + MemberKeys(ms)
      ensures forall n :: n in old(nodes) && n != list[cursor] ==> n.children == old(n.children)
      ensures PendingAll(dir, nodes - old(nodes))
    {
      ghost var before := nodes;
      ok := AddMembers(ms, dir);
      assert forall n :: n in nodes && n !in before ==> n in nodes - before && !n.memonly && n !in memonly;
    }

    /** Adding the members leaves all other addresses settled or pending as they were. */
    method ExpandGroup(ms: seq<Member>, dir: Directory, ghost originals: set<ExpAddr>, ghost done: set<ExpAddr>)
      returns (ok: bool)
      requires Valid() && Queued() && RootsAre(originals) && 0 <= cursor < |list|
      requires done <= nodes && list[cursor] !in done && list[cursor].children == []
      requires Flagged(dir, list[cursor]) && ms == MembersOf(dir, list[cursor])
      requires SettledAll(dir, done) && PendingAll(dir, nodes - (done + {list[cursor]}))
      modifies `list, `nodes, `entries, nodes`parents, nodes`children
      ensures Valid() && Queued() && RootsAre(originals) && old(nodes) <= nodes && fresh(nodes - old(nodes))
      ensures |list| >= old(|list|) && forall i :: 0 <= i <= cursor ==> list[i] == old(list[i])
      ensures ok ==> Settled(dir, list[cursor])
      ensures Keys(list) <= old(Keys(list)) + MemberKeys(ms)
      ensures SettledAll(dir, done) && PendingAll(dir, nodes - (done + {list[cursor]}))
    {
      ghost var rest, before := nodes - (done + {list[cursor]}), nodes;
      ok := AddGroup(ms, dir, originals);
      assert PendingAll(dir, rest);
      assert nodes - (done + {list[cursor]}) == rest + (nodes - before);
    }

    /** expand.c:200-215 for the address under the cursor; `done` holds the addresses before it. */
    method ExpandCursor(dir: Directory, ghost originals: set<ExpAddr>, ghost done: set<ExpAddr>) returns (ok: bool)
      requires Valid() && Queued() && RootsAre(originals) && 0 <= cursor < |list|
      requires done <= nodes && list[cursor] !in done
      requires SettledAll(dir, done) && PendingAll(dir, nodes - done)
      modifies `list, `nodes, `entries, `memonly, nodes`parents, nodes`children, nodes`terminal, nodes`memonly
      modifies nodes`dn, nodes`okDns, nodes`moderatedEnv, nodes`forwardEnv, nodes`emailSender
      ensures Valid() && Queued() && RootsAre(originals) && old(nodes) <= nodes && fresh(nodes - old(nodes))
      ensures |list| >= old(|list|) && forall i :: 0 <= i <= cursor ==> list[i] == old(list[i])
      ensures SettledAll(dir, done) && PendingAll(dir, nodes - (done + {list[cursor]}))
      ensures ok ==> Settled(dir, list[cursor])
      ensures Keys(list) <= old(Keys(list)) + MemberKeys(MembersOf(dir, list[cursor]))
    {
      var n := list[cursor];
      var step := dir.expand(Member(n.addr, n.isDn));
      if step.SysError? { return false; }
      Record(n, step, dir, originals, done);
      if step.Final? { return true; }
      ok := ExpandGroup(step.members, dir, originals, done);
    }

    /** expand.c:188-194 for one original recipient; no address is being expanded yet. */
    method AddRecipient(rcpt: string, dir: Directory) returns (ok: bool)
      requires Valid() && cursor == -1 && RootsAre(nodes) && PendingAll(dir, nodes)
      modifies `list, `nodes, `entries, nodes`parents, nodes`children
      ensures Valid() && RootsAre(nodes) && PendingAll(dir, nodes) && old(nodes) <= nodes && fresh(nodes - old(nodes))
      ensures Keys(list) == old(Keys(list)) + if ok then {Fold(rcpt)} else {}
    {
      ghost var before := nodes;
      var e := AddAddress(Member(rcpt, false), dir);
      assert PendingAll(dir, before);
      return e != null;
    }

    method AddRecipients(rcpts: seq<string>, dir: Directory) returns (ok: bool)
      requires Valid() && list == [] && cursor == -1
      modifies `list, `nodes, `entries
      ensures Valid() && RootsAre(nodes) && PendingAll(dir, nodes) && fresh(nodes)
      ensures ok ==> Keys(list) == RcptKeys(rcpts)
    {
      for i := 0 to |rcpts|
        invariant Valid() && RootsAre(nodes) && PendingAll(dir, nodes) && fresh(nodes)
        invariant Keys(list) == RcptKeys(rcpts[..i])
      {
        RcptKeysPrefix(rcpts, i);
        ok := AddRecipient(rcpts[i], dir);
        if !ok { return; }
      }
      assert rcpts[..|rcpts|] == rcpts;
      return true;
    }

    /** One round of the expansion loop; `visited` is the list up to the cursor. */
    method ExpandNext(dir: Directory, ghost originals: set<ExpAddr>, ghost visited: seq<ExpAddr>) returns (ok: bool)
      requires Valid() && Queued() && RootsAre(originals) && 0 <= cursor < |list| && visited == list[..cursor]
      requires SettledAll(dir, Elements(visited)) && PendingAll(dir, nodes - Elements(visited))
      modifies `list, `nodes, `entries, `memonly, nodes`parents, nodes`children, nodes`terminal, nodes`memonly
      modifies nodes`dn, nodes`okDns, nodes`moderatedEnv, nodes`forwardEnv, nodes`emailSender
      ensures Valid() && Queued() && RootsAre(originals) && old(nodes) <= nodes && fresh(nodes - old(nodes))
      ensures Keys(list) <= old(Keys(list)) + MemberKeys(MembersOf(dir, old(list[cursor])))
      ensures |list| >= old(|list|) && list[..cursor + 1] == visited + [old(list[cursor])]
      ensures ok ==>
          SettledAll(dir, Elements(list[..cursor + 1])) && PendingAll(dir, nodes - Elements(list[..cursor + 1]))
    {
      ghost var n, done := list[cursor], Elements(visited);
      ok := ExpandCursor(dir, originals, done);
      assert list[..cursor + 1] == visited + [n];
      assert Elements(visited + [n]) == done + {n};
    }

    method Advance(dir: Directory, ghost originals: set<ExpAddr>, ghost visited: seq<ExpAddr>) returns (ok: bool)
      requires Valid() && Queued() && RootsAre(originals) && 0 <= cursor < |list| && visited == list[..cursor]
      requires SettledAll(dir, Elements(visited)) && PendingAll(dir, nodes - Elements(visited))
      modifies this, nodes
      ensures Valid() && Queued() && RootsAre(originals) && old(nodes) <= nodes && fresh(nodes - old(nodes))
      ensures Keys(list) <= old(Keys(list)) + MemberKeys(MembersOf(dir, old(list[cursor])))
      ensures cursor == old(cursor) + 1 && |list| >= old(|list|) && list[..cursor] == visited + [old(list[cursor])]
      ensures ok ==> SettledAll(dir, Elements(list[..cursor])) && PendingAll(dir, nodes - Elements(list[..cursor]))
    {
      ok := ExpandNext(dir, originals, visited);
      cursor := cursor + 1;
    }

    /** expand.c:196-216: every address is visited exactly once, in list order. */
    method ExpandLoop(dir: Directory, ghost originals: set<ExpAddr>, ghost universe: set<string>)
      returns (ok: bool, ghost visited: seq<ExpAddr>)
      requires Valid() && Queued() && RootsAre(originals) && PendingAll(dir, nodes) && cursor == 0
      requires Keys(list) <= universe && ClosedUniverse(dir, universe)
      modifies this, nodes
      ensures Valid() && fresh(nodes - old(nodes))
      ensures ok ==> visited == list && Queued() && RootsAre(originals) && SettledAll(dir, nodes)
    {
      visited := [];
      while cursor < |list|
        invariant Valid() && Queued() && RootsAre(originals) && fresh(nodes - old(nodes)) && 0 <= cursor <= |list|
        invariant visited == list[..cursor]
        invariant SettledAll(dir, Elements(visited)) && PendingAll(dir, nodes - Elements(visited))
        invariant Keys(list) <= universe
        decreases |universe| - |list|, |list| - cursor
      {
        ghost var n := list[cursor];
        assert Fold(n.addr) in Keys(list);
        ok := Advance(dir, originals, visited);
        assert |list| <= |universe| by { ListBounded(list, universe); }
        if !ok { return; }
        visited := visited + [n];
      }
      ok := true;
    }

    /** expand.c:187-216: the worklist ends with the least set of addresses that contains the recipients and
      * is closed under expansion (lemmas ListIsClosed and ListIsLeast); every address is expanded once.
      */
    method ExpandAll(rcpts: seq<string>, dir: Directory, ghost universe: set<string>)
      returns (ok: bool, ghost originals: set<ExpAddr>, ghost visited: seq<ExpAddr>)
      requires Valid() && list == [] && cursor == -1 && memonly == []
      requires RcptKeys(rcpts) <= universe && ClosedUniverse(dir, universe)
      modifies this
      ensures Valid() && fresh(nodes)
      ensures ok ==> visited == list && Queued() && RootsAre(originals) && SettledAll(dir, nodes)
      ensures ok ==> KeysOf(originals) == RcptKeys(rcpts)
    {
      ok := AddRecipients(rcpts, dir);
      originals, visited := nodes, [];
      if !ok { return; }
      assert KeysOf(originals) == Keys(list);
      cursor := 0;
      ok, visited := ExpandLoop(dir, originals, universe);
    }
  }

  lemma {:induction false} ListBounded(list: seq<ExpAddr>, universe: set<string>)
    requires forall i, j :: 0 <= i < j < |list| ==> Fold(list[i].addr) != Fold(list[j].addr)
    requires Keys(list) <= universe
    ensures |list| <= |universe|
  {
    if list != [] {
      var last := |list| - 1;
      var k := Fold(list[last].addr);
      assert list[last] in list;
      assert Keys(list[..last]) <= universe - {k};
      ListBounded(list[..last], universe - {k});
    }
  }

  /** The flags that `dir` calls for are set on `n`, and no others. */
  ghost predicate Flagged(dir: Directory, n: ExpAddr)
    reads n`terminal, n`memonly, n`dn, n`okDns, n`moderatedEnv, n`forwardEnv
    reads n`antiLoop, n`supressor, n`supressed, n`noEmailSender, n`rootPath, n`noRootPath, n`emailSender
  {
    var step := dir.expand(Member(n.addr, n.isDn));
    && Unsearched(n) && n.emailSender == IsSender(dir, n) && !step.SysError? && n.terminal == step.Final?
    && n.memonly == (step.Exclude? && step.memonly)
    && (step.Exclude? ==>
        n.dn == step.dn && n.okDns == step.okDns && n.moderatedEnv == step.moderated && n.forwardEnv == step.forward)
  }

  /** What `dir` says about `n` is recorded: its flags and exactly its members. */
  ghost predicate Settled(dir: Directory, n: ExpAddr)
    reads n`terminal, n`memonly, n`dn, n`okDns, n`moderatedEnv, n`forwardEnv, n`children
    reads n`antiLoop, n`supressor, n`supressed, n`noEmailSender, n`rootPath, n`noRootPath, n`emailSender
  {
    Flagged(dir, n) && Keys(n.children) == MemberKeys(MembersOf(dir, n))
  }

  ghost predicate SettledAll(dir: Directory, s: set<ExpAddr>)
    reads s`terminal, s`memonly, s`dn, s`okDns, s`moderatedEnv, s`forwardEnv, s`children
    reads s`antiLoop, s`supressor, s`supressed, s`noEmailSender, s`rootPath, s`noRootPath, s`emailSender
  {
    forall n :: n in s ==> Settled(dir, n)
  }

  ghost predicate PendingAll(dir: Directory, s: set<ExpAddr>)
    reads s`terminal, s`memonly, s`dn, s`okDns, s`moderatedEnv, s`forwardEnv, s`children
    reads s`antiLoop, s`supressor, s`supressed, s`noEmailSender, s`rootPath, s`noRootPath, s`emailSender
  {
    Unmarked(dir, s) && forall n :: n in s ==> n.children == []
  }

  /** address.c:319-336: both directions of the link between `e` and `c`, the address being expanded or null.
    * `s` holds the addresses linked so far; `e` may be new.
    */
  method LinkBoth(e: ExpAddr, c: ExpAddr?, ghost s: set<ExpAddr>)
    requires Linkage(s) && (c == null || c in s)
    requires e !in s ==> e.children == [] && e.parents == [] && e.anchor == c && (c != null ==> c.depth < e.depth)
    modifies e`parents, s`children
    ensures Linkage(s + {e})
    ensures forall p :: p in e.parents <==> p in old(e.parents) || p == c
    ensures c != null ==> c.children == Linked(old(c.children), e)
    ensures forall n :: n in s && n != c ==> n.children == old(n.children)
  {
    e.parents := ExpAddrLink(e.parents, c);
    if c != null {
      c.children := ExpAddrLink(c.children, e);
    }
  }

  /** address.c:756-779 */
  method ExpAddrLink<N(==)>(links: seq<N>, add: N) returns (r: seq<N>)
    ensures r == Linked(links, add)
    ensures forall x :: x in r <==> x in links || x == add
  {
    for i := 0 to |links|
      invariant add !in links[..i]
    {
      if links[i] == add { return links; }
    }
    return [add] + links;
  }

  ghost function InsertedAt(list: seq<ExpAddr>, at: nat, e: ExpAddr): seq<ExpAddr>
    requires at <= |list|
  {
    list[..at] + [e] + list[at..]
  }

  lemma InsertedFacts(list: seq<ExpAddr>, at: nat, e: ExpAddr)
    requires at <= |list|
    ensures var r := InsertedAt(list, at, e);
            && (set n | n in r) == (set n | n in list) + {e} && Keys(r) == Keys(list) + {Fold(e.addr)}
            && forall i :: 0 <= i < |r| ==> r[i] == if i < at then list[i] else if i == at then e else list[i - 1]
  {}
}
