/** One expansion from recipients to output addresses: the worklist of module AddressWorklist followed by
  * the members-only loops of module GroupSearch (expand.c:187-499).
  */
module Expansion {
  import opened ExpAddrNode
  import opened CachedSearch
  import opened MembersOnly
  import opened GroupSearch
  import opened AddressWorklist
  import opened LetterCase

  /** Everything a listed address expands to is listed. */
  lemma ListIsClosed(x: Expand, dir: Directory, n: ExpAddr)
    requires x.Valid() && SettledAll(dir, x.nodes) && n in x.list
    ensures MemberKeys(MembersOf(dir, n)) <= Keys(x.list)
  {
    forall k | k in MemberKeys(MembersOf(dir, n))
      ensures k in Keys(x.list)
    {
      assert Settled(dir, n);
      var c :| c in n.children && Fold(c.addr) == k;
      assert c in x.list;
    }
  }

  /** Nothing else is listed: a set of keys that holds the recipients and is closed under expansion holds
    * every listed address.
    */
  lemma ListIsLeast(x: Expand, dir: Directory, originals: set<ExpAddr>, keys: set<string>)
    requires x.Valid() && SettledAll(dir, x.nodes) && x.RootsAre(originals)
    requires KeysOf(originals) <= keys
    requires forall n :: n in x.nodes && Fold(n.addr) in keys ==> MemberKeys(MembersOf(dir, n)) <= keys
    ensures Keys(x.list) <= keys
  {
    forall k | k in Keys(x.list)
      ensures k in keys
    {
      var n :| n in x.list && Fold(n.addr) == k;
      KeyIsNeeded(x, dir, originals, keys, n);
    }
  }

  lemma {:induction false} KeyIsNeeded(x: Expand, dir: Directory, originals: set<ExpAddr>, keys: set<string>,
      n: ExpAddr)
    requires x.Valid() && SettledAll(dir, x.nodes) && x.RootsAre(originals) && n in x.nodes
    requires KeysOf(originals) <= keys
    requires forall n :: n in x.nodes && Fold(n.addr) in keys ==> MemberKeys(MembersOf(dir, n)) <= keys
    ensures Fold(n.addr) in keys
    decreases n.depth
  {
    if n.anchor == null {
      assert Fold(n.addr) in KeysOf(originals);
    } else {
      KeyIsNeeded(x, dir, originals, keys, n.anchor);
      assert Settled(dir, n.anchor) && n in n.anchor.children;
      assert Fold(n.addr) in Keys(n.anchor.children);
    }
  }

  // ---------- The link graphs of the finished worklist ----------

  ghost function Down(s: set<ExpAddr>): Graph<ExpAddr?>
    reads s`children
  {
    map n: ExpAddr | n in s :: n.children
  }

  ghost function Up(s: set<ExpAddr>): Graph<ExpAddr?>
    reads s`parents
  {
    var root: Graph<ExpAddr?> := map[null := []];
    var parents: Graph<ExpAddr?> := map n: ExpAddr | n in s :: n.parents;
    root + parents
  }

  lemma GraphsOfLinkage(s: set<ExpAddr>)
    requires Linkage(s)
    ensures DownLinks(Down(s), s) && UpLinks(Up(s), s) && Links(Down(s), Up(s), null)
  {}

  lemma {:induction false} AnchorsLeadToRoot(s: set<ExpAddr>, n: ExpAddr)
    requires Linkage(s) && n in s && Closed(Up(s))
    ensures Reach(Up(s), {}, {null}, n)
    decreases n.depth
  {
    var up := Up(s);
    if n.anchor == null {
      assert ReachIn(up, {}, {null}, null, 0);
    } else {
      AnchorsLeadToRoot(s, n.anchor);
    }
    ReachStep(up, {}, {null}, n, n.anchor);
  }

  lemma WorklistIsExpanded(x: Expand, dir: Directory)
    requires x.Valid() && x.Queued() && SettledAll(dir, x.nodes)
    ensures Expanded(x.memonly, x.list, x.nodes, Down(x.nodes), Up(x.nodes))
    ensures SenderSet(x.nodes) == SenderAddresses(x.nodes, dir)
  {
    GraphsOfLinkage(x.nodes);
    assert forall n :: n in x.nodes ==> Settled(dir, n);
    forall n | n in x.nodes
      ensures Reach(Up(x.nodes), {}, {null}, n)
    {
      AnchorsLeadToRoot(x.nodes, n);
    }
  }

  ghost function SenderAddresses(s: set<ExpAddr>, dir: Directory): set<ExpAddr?> {
    set n | n in s && IsSender(dir, n)
  }

  method BuildWorklist(rcpts: seq<string>, dir: Directory, ghost universe: set<string>)
    returns (expanded: bool, x: Expand, ghost down: Graph<ExpAddr?>, ghost up: Graph<ExpAddr?>)
    requires RcptKeys(rcpts) <= universe && ClosedUniverse(dir, universe)
    ensures fresh(x) && fresh(x.nodes)
    ensures expanded ==> Expanded(x.memonly, x.list, x.nodes, down, up)
    ensures expanded ==> SenderSet(x.nodes) == SenderAddresses(x.nodes, dir)
  {
    ghost var originals, visited;
    x := new Expand();
    down, up := map[], map[];
    expanded, originals, visited := x.ExpandAll(rcpts, dir, universe);
    if !expanded { return; }
    WorklistIsExpanded(x, dir);
    down, up := Down(x.nodes), Up(x.nodes);
  }

  /** The whole expansion, on any graph: it fails only when a directory does, or when the members-only loop is not
    * clear; what happens to groups and addresses is what the policies say.
    */
  method ExpandEnvelope(rcpts: seq<string>, dir: Directory, ghost universe: set<string>)
    returns (expanded: bool, ok: bool, x: Expand, out: seq<ExpAddr>, ghost down: Graph<ExpAddr?>,
        ghost up: Graph<ExpAddr?>)
    requires RcptKeys(rcpts) <= universe && ClosedUniverse(dir, universe)
    ensures fresh(x) && fresh(x.nodes) && (ok ==> expanded)
    ensures expanded ==>
        DownLinks(down, x.nodes) && UpLinks(up, x.nodes) && Within(down, x.memonly) && Within(up, x.list)
    ensures expanded ==>
              Policies(x.memonly, x.list, x.nodes, down, up, PermittedNow(x.nodes),
                  SenderAddresses(x.nodes, dir), ok, out)
  {
    out, ok := [], false;
    expanded, x, down, up := BuildWorklist(rcpts, dir, universe);
    if !expanded { return; }
    ok, out := ReleaseAddresses(x.memonly, x.list, x.nodes, down, up);
  }
}
