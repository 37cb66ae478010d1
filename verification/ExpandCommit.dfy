/** The commit of an expansion: every child is linked and written, then the parent is removed
  * (expand.c:501-553, expand.c:665-728).
  */
module ExpandCommit {
  import opened Spool
  import opened SpoolOps
  import opened Lists

  ghost function Ids(es: seq<Envelope>): seq<string> {
    seq(|es|, i requires 0 <= i < |es| => es[i].id)
  }

  /** Nothing of this id is in the fast directory yet. */
  ghost predicate Unused(fs: Fs, id: string) {
    Name(Fast, DFile, id) !in fs && Name(Fast, EFile, id) !in fs && Name(Fast, TFile, id) !in fs
  }

  ghost predicate Written(fs: Fs, id: string) {
    Complete(fs, Fast, id) && Name(Fast, TFile, id) !in fs
  }

  ghost predicate OthersStay(before: Fs, after: Fs, id: string) {
    forall i {:trigger Unused(after, i)} {:trigger Written(after, i)} ::
      i != id ==> (Unused(after, i) <==> Unused(before, i)) && (Written(after, i) <==> Written(before, i))
  }

  lemma OthersStayAdd(fs: Fs, n: Name, f: File)
    ensures OthersStay(fs, fs[n := f], n.id) && OthersStay(fs, fs - {n}, n.id)
  {}

  lemma InFlightAdd(b: Fs, p: string, cs: seq<string>, s: Fs, n: Name, f: File)
    requires Expandable(b, p, cs) && InFlight(b, p, cs, s) && n.dir == Fast && n.id in cs
    requires ChildFile(b, p, n, s[n := f])
    ensures InFlight(b, p, cs, s[n := f])
  {}

  lemma InFlightDrop(b: Fs, p: string, cs: seq<string>, s: Fs, n: Name)
    requires Expandable(b, p, cs) && InFlight(b, p, cs, s) && n.dir == Fast && n.id in cs
    requires n.prefix == DFile ==> Name(Fast, EFile, n.id) !in s
    ensures InFlight(b, p, cs, s - {n})
  {}

  /** With all children written and the parent's Efile gone, the commit point is passed. */
  lemma CommitPoint(b: Fs, p: string, cs: seq<string>, s: Fs)
    requires Expandable(b, p, cs) && InFlight(b, p, cs, s)
    requires forall c :: c in cs ==> Written(s, c)
    ensures Committed(b, p, cs, s - {Name(Fast, EFile, p)})
    ensures Committed(b, p, cs, s - {Name(Fast, EFile, p)} - {Name(Fast, DFile, p)})
  {
    var t := s - {Name(Fast, EFile, p)} - {Name(Fast, DFile, p)};
    assert s - {Name(Fast, EFile, p)} - {Name(Fast, DFile, p)} == t - {Name(Fast, DFile, p)};
    forall n | n in t && n !in b
      ensures n.dir == Fast && n.id in cs && n.prefix != TFile && ChildFile(b, p, n, t)
    {
      assert ChildFile(b, p, n, s);
    }
    assert p !in cs;
  }

  /** The recorded states since `before` are all in flight. */
  ghost predicate Flying(d: Disk, before: seq<Fs>, b: Fs, p: string, cs: seq<string>)
    requires Expandable(b, p, cs)
    reads d`trace
  {
    before <= d.trace && forall k :: |before| <= k < |d.trace| ==> InFlight(b, p, cs, d.trace[k])
  }

  /** Every state of writing a child is in flight, and no other child is touched. */
  lemma NewChildInFlight(b: Fs, p: string, cs: seq<string>, s: Fs, c: string, t: Fs)
    requires Expandable(b, p, cs) && InFlight(b, p, cs, s) && c in cs && Unused(s, c)
    requires NewState(s, Name(Fast, DFile, p), Fast, c, Level(b, p) + 1, t)
    ensures InFlight(b, p, cs, t) && OthersStay(s, t, c)
  {
    var text, level := Name(Fast, DFile, p), Level(b, p) + 1;
    var d, e, u := Name(Fast, DFile, c), Name(Fast, EFile, c), Name(Fast, TFile, c);
    InFlightAdd(b, p, cs, s, d, s[text]);
    InFlightAdd(b, p, cs, s[d := s[text]], u, Env(level));
    InFlightAdd(b, p, cs, s[d := s[text]], e, Env(level));
    InFlightAdd(b, p, cs, s, u, Env(level));
    OthersStayAdd(s, d, s[text]);
    OthersStayAdd(s[d := s[text]], u, Env(level));
    OthersStayAdd(s[d := s[text]], e, Env(level));
    OthersStayAdd(s, u, Env(level));
  }

  /** expand.c:506-544 for one child. */
  method WriteChild(d: Disk, parent: Envelope, child: Envelope, ghost b: Fs, ghost cs: seq<string>) returns (ok: bool)
    requires Expandable(b, parent.id, cs) && parent.dir == Fast && InFlight(b, parent.id, cs, d.fs)
    requires child.dir == Fast && child.id in cs && child.level == Level(b, parent.id) + 1 && Unused(d.fs, child.id)
    requires !child.efile
    modifies d, child`efile
    ensures InFlight(b, parent.id, cs, d.fs) && Flying(d, old(d.trace), b, parent.id, cs)
    ensures ok ==> Written(d.fs, child.id)
    ensures child.efile == ok
    ensures OthersStay(old(d.fs), d.fs, child.id)
    ensures d.Faulty(old(d.faults), ok)
    ensures !ok && d.faults <= old(d.faults) + 1 ==> d.fs == old(d.fs)
    ensures d.Drift() == old(d.Drift())
  {
    forall t | NewState(d.fs, parent.D(), Fast, child.id, child.level, t)
      ensures InFlight(b, parent.id, cs, t) && OthersStay(d.fs, t, child.id)
    {
      NewChildInFlight(b, parent.id, cs, d.fs, child.id, t);
    }
    assert Complete(b, Fast, parent.id);
    ok := d.WriteNew(parent.D(), child);
  }

  /** A child whose flag says that it is written is; one whose flag does not has no file, unless several calls
    * failed.
    */
  ghost predicate Accounted(fs: Fs, id: string, efile: bool, single: bool) {
    if efile then Written(fs, id) else single ==> Unused(fs, id)
  }

  ghost predicate AllAccounted(fs: Fs, ids: seq<string>, flags: seq<bool>, from: nat, single: bool)
    requires |ids| == |flags|
  {
    forall j :: from <= j < |ids| ==> Accounted(fs, ids[j], flags[j], single)
  }

  /** The first `to` children are written and marked, no other child has a file. */
  ghost predicate WrittenUpTo(fs: Fs, ids: seq<string>, flags: seq<bool>, to: nat)
    requires to <= |ids| == |flags|
  {
    && (forall j :: 0 <= j < to ==> flags[j] && Written(fs, ids[j]))
    && (forall j :: to <= j < |ids| ==> !flags[j] && Unused(fs, ids[j]))
  }

  lemma OneMoreWritten(before: Fs, after: Fs, ids: seq<string>, flags: seq<bool>, now: seq<bool>, i: nat, single: bool)
    requires i < |ids| == |flags| && Distinct(ids) && OthersStay(before, after, ids[i])
    requires WrittenUpTo(before, ids, flags, i)
    requires |now| == |ids| && Accounted(after, ids[i], now[i], single)
    requires forall j :: 0 <= j < |ids| && j != i ==> now[j] == flags[j]
    ensures if now[i] then WrittenUpTo(after, ids, now, i + 1) else AllAccounted(after, ids, now, 0, single)
  {}

  ghost predicate NoneLeft(fs: Fs, ids: seq<string>, to: nat)
    requires to <= |ids|
  {
    forall j :: 0 <= j < to ==> Unused(fs, ids[j])
  }

  ghost function Flags(es: seq<Envelope>): seq<bool>
    reads es
  {
    seq(|es|, i requires 0 <= i < |es| reads es => es[i].efile)
  }

  lemma OthersAccounted(before: Fs, after: Fs, ids: seq<string>, flags: seq<bool>, i: nat, single: bool)
    requires i < |ids| == |flags| && Distinct(ids) && OthersStay(before, after, ids[i])
    requires AllAccounted(before, ids, flags, i, single)
    ensures AllAccounted(after, ids, flags, i + 1, single)
    ensures NoneLeft(before, ids, i) ==> NoneLeft(after, ids, i)
  {}

  lemma WrittenDropped(before: Fs, after: Fs, id: string)
    requires Written(before, id)
    requires after in {before, before - {Name(Fast, EFile, id)},
        before - {Name(Fast, EFile, id)} - {Name(Fast, DFile, id)}}
    ensures OthersStay(before, after, id)
    ensures Name(Fast, DFile, id) !in after && Name(Fast, EFile, id) !in after ==> Unused(after, id)
  {}

  method UnwindChild(d: Disk, c: Envelope, ghost b: Fs, ghost p: string, ghost cs: seq<string>, ghost single: bool)
    requires Expandable(b, p, cs) && InFlight(b, p, cs, d.fs)
    requires c.dir == Fast && c.id in cs && Accounted(d.fs, c.id, c.efile, single)
    modifies d, c`efile
    ensures InFlight(b, p, cs, d.fs) && Flying(d, old(d.trace), b, p, cs)
    ensures d.Faulty(old(d.faults), single ==> Unused(d.fs, c.id))
    ensures OthersStay(old(d.fs), d.fs, c.id)
    ensures d.Drift() == old(d.Drift())
  {
    if c.efile {
      InFlightDrop(b, p, cs, d.fs, c.E());
      InFlightDrop(b, p, cs, d.fs - {c.E()}, c.D());
      var _ := d.EnvUnlink(c);
      WrittenDropped(old(d.fs), d.fs, c.id);
    }
  }

  /** expand.c:697-714: the children written so far are taken back. */
  method Unwind(d: Disk, children: seq<Envelope>, ghost b: Fs, ghost p: string, ghost single: bool)
    requires Expandable(b, p, Ids(children)) && InFlight(b, p, Ids(children), d.fs)
    requires forall c :: c in children ==> c.dir == Fast
    requires Distinct(Ids(children)) && AllAccounted(d.fs, Ids(children), Flags(children), 0, single)
    modifies d, (set c | c in children)`efile
    ensures InFlight(b, p, Ids(children), d.fs) && Flying(d, old(d.trace), b, p, Ids(children))
    ensures d.Faulty(old(d.faults), single ==> NoneLeft(d.fs, Ids(children), |children|))
    ensures d.Drift() == old(d.Drift())
  {
    ghost var ids, flags := Ids(children), Flags(children);
    for i := 0 to |children|
      invariant InFlight(b, p, ids, d.fs) && Flying(d, old(d.trace), b, p, ids)
      invariant d.Faulty(old(d.faults), single ==> NoneLeft(d.fs, ids, i))
      invariant AllAccounted(d.fs, ids, flags, i, single)
      invariant forall j :: i <= j < |children| ==> children[j].efile == flags[j]
      invariant d.Drift() == old(d.Drift())
    {
      UnwindNext(d, children[i], b, p, ids, flags, i, single);
      OtherChildren(children, i);
    }
  }

  method UnwindNext(d: Disk, c: Envelope, ghost b: Fs, ghost p: string, ghost ids: seq<string>, ghost flags: seq<bool>,
                    ghost i: nat, ghost single: bool)
    requires Expandable(b, p, ids) && InFlight(b, p, ids, d.fs) && Distinct(ids) && i < |ids| == |flags|
    requires c.dir == Fast && c.id == ids[i] && c.efile == flags[i] && AllAccounted(d.fs, ids, flags, i, single)
    modifies d, c`efile
    ensures InFlight(b, p, ids, d.fs) && Flying(d, old(d.trace), b, p, ids)
    ensures AllAccounted(d.fs, ids, flags, i + 1, single)
    ensures d.Faulty(old(d.faults), single && NoneLeft(old(d.fs), ids, i) ==> NoneLeft(d.fs, ids, i + 1))
    ensures old(d.faults) <= d.faults && d.Drift() == old(d.Drift())
  {
    ghost var before := d.fs;
    UnwindChild(d, c, b, p, ids, single);
    OthersAccounted(before, d.fs, ids, flags, i, single);
  }

  /** Children with different ids are different. */
  lemma OtherChildren(children: seq<Envelope>, i: nat)
    requires i < |children| && Distinct(Ids(children))
    ensures forall j :: 0 <= j < |children| && j != i ==> children[j] != children[i]
  {
    var ids := Ids(children);
    assert forall j :: 0 <= j < |children| ==> ids[j] == children[j].id;
  }

  lemma ChildIds(b: Fs, p: string, children: seq<Envelope>)
    requires Expandable(b, p, Ids(children))
    ensures forall c :: c in children ==> c.id in Ids(children) && Unused(b, c.id)
  {
    forall c | c in children
      ensures c.id in Ids(children)
    {
      var i :| 0 <= i < |children| && children[i] == c;
      assert Ids(children)[i] == c.id;
    }
  }

  lemma NothingLeft(b: Fs, p: string, cs: seq<string>, s: Fs)
    requires Expandable(b, p, cs) && InFlight(b, p, cs, s)
    requires NoneLeft(s, cs, |cs|)
    ensures s == b
  {}

  method WriteNext(d: Disk, parent: Envelope, children: seq<Envelope>, ghost b: Fs, i: nat) returns (ok: bool)
    requires Expandable(b, parent.id, Ids(children)) && parent.dir == Fast
    requires InFlight(b, parent.id, Ids(children), d.fs)
    requires i < |children| && children[i].dir == Fast && children[i].level == Level(b, parent.id) + 1
    requires Distinct(Ids(children)) && WrittenUpTo(d.fs, Ids(children), Flags(children), i)
    modifies d, {children[i]}`efile
    ensures InFlight(b, parent.id, Ids(children), d.fs) && Flying(d, old(d.trace), b, parent.id, Ids(children))
    ensures d.Faulty(old(d.faults), ok)
    ensures if ok then WrittenUpTo(d.fs, Ids(children), Flags(children), i + 1)
            else AllAccounted(d.fs, Ids(children), Flags(children), 0, d.faults <= old(d.faults) + 1)
    ensures d.Drift() == old(d.Drift())
  {
    ghost var ids, before, flags := Ids(children), d.fs, Flags(children);
    assert children[i].id == ids[i] && children[i].efile == flags[i];
    ok := WriteChild(d, parent, children[i], b, ids);
    OtherChildren(children, i);
    OneMoreWritten(before, d.fs, ids, flags, Flags(children), i, d.faults <= old(d.faults) + 1);
  }

  /** expand.c:500-549: the children are written in order, up to the first failure. */
  method WriteChildren(d: Disk, parent: Envelope, children: seq<Envelope>, ghost b: Fs) returns (ok: bool)
    requires d.fs == b && Expandable(b, parent.id, Ids(children)) && parent.dir == Fast
    requires forall c :: c in children ==> c.dir == Fast && c.level == Level(b, parent.id) + 1 && !c.efile
    requires Distinct(Ids(children))
    modifies d, (set c | c in children)`efile
    ensures InFlight(b, parent.id, Ids(children), d.fs) && Flying(d, old(d.trace), b, parent.id, Ids(children))
    ensures d.Faulty(old(d.faults), ok)
    ensures AllAccounted(d.fs, Ids(children), Flags(children), 0, d.faults <= old(d.faults) + 1)
    ensures ok ==> forall c :: c in Ids(children) ==> Written(d.fs, c)
    ensures d.Drift() == old(d.Drift())
  {
    ChildIds(b, parent.id, children);
    for i := 0 to |children|
      invariant InFlight(b, parent.id, Ids(children), d.fs) && Flying(d, old(d.trace), b, parent.id, Ids(children))
      invariant WrittenUpTo(d.fs, Ids(children), Flags(children), i)
      invariant old(d.faults) <= d.faults
      invariant d.Drift() == old(d.Drift())
    {
      ok := WriteNext(d, parent, children, b, i);
      if !ok { return; }
    }
    ok := true;
  }

  /** A state that the spool can be in while the children of `p` are committed. */
  ghost predicate Committing(b: Fs, p: string, cs: seq<string>, s: Fs)
    requires Expandable(b, p, cs)
  {
    InFlight(b, p, cs, s) || Committed(b, p, cs, s)
  }

  /** Every state recorded since `before` is one of these. */
  ghost predicate Commits(d: Disk, before: seq<Fs>, b: Fs, p: string, cs: seq<string>)
    requires Expandable(b, p, cs)
    reads d`trace
  {
    before <= d.trace && forall k :: |before| <= k < |d.trace| ==> Committing(b, p, cs, d.trace[k])
  }

  /** Whatever state a crash leaves, recovery makes of it exactly the parent or exactly all the children, and
    * recovering once more changes nothing.
    */
  lemma CrashRecovery(b: Fs, p: string, cs: seq<string>, s: Fs)
    requires Expandable(b, p, cs) && Committing(b, p, cs, s)
    ensures Typed(s) && Paired(s) && Families(s) && Clean(Recover(s))
    ensures Recover(s) == b || Replaced(b, p, cs, Recover(s))
  {
    if InFlight(b, p, cs, s) {
      InFlightIsPaired(b, p, cs, s);
      InFlightFamilies(b, p, cs, s);
      InFlightRecovers(b, p, cs, s);
    } else {
      CommittedRecovers(b, p, cs, s);
    }
  }

  /** expand.c:679-683: the parent's Efile is the commit point; a failure is only logged. */
  method RemoveParent(d: Disk, parent: Envelope, ghost b: Fs, ghost cs: seq<string>)
    requires Expandable(b, parent.id, cs) && InFlight(b, parent.id, cs, d.fs) && parent.dir == Fast
    requires forall c :: c in cs ==> Written(d.fs, c)
    modifies d, parent`efile
    ensures Commits(d, old(d.trace), b, parent.id, cs)
    ensures Committing(b, parent.id, cs, d.fs)
    ensures forall c :: c in cs ==> Written(d.fs, c)
    ensures d.Faulty(old(d.faults), Replaced(b, parent.id, cs, d.fs))
    ensures d.Drift() == old(d.Drift())
  {
    CommitPoint(b, parent.id, cs, d.fs);
    assert parent.id !in cs;
    var _ := d.EnvUnlink(parent);
  }

  method UndoChildren(d: Disk, children: seq<Envelope>, ghost b: Fs, ghost p: string, ghost single: bool)
    requires Expandable(b, p, Ids(children)) && InFlight(b, p, Ids(children), d.fs)
    requires forall c :: c in children ==> c.dir == Fast
    requires Distinct(Ids(children)) && AllAccounted(d.fs, Ids(children), Flags(children), 0, single)
    modifies d, (set c | c in children)`efile
    ensures InFlight(b, p, Ids(children), d.fs) && Flying(d, old(d.trace), b, p, Ids(children))
    ensures d.Faulty(old(d.faults), single ==> d.fs == b)
    ensures d.Drift() == old(d.Drift())
  {
    Unwind(d, children, b, p, single);
    if NoneLeft(d.fs, Ids(children), |children|) {
      NothingLeft(b, p, Ids(children), d.fs);
    }
  }

  /** expand.c:501-553 and 665-728: a failure before the parent is removed takes the children back; a failure
    * to remove the parent is only logged.
    */
  method CommitExpansion(d: Disk, parent: Envelope, children: seq<Envelope>, ghost b: Fs) returns (ok: bool)
    requires d.fs == b && Expandable(b, parent.id, Ids(children)) && parent.dir == Fast
    requires forall c :: c in children ==> c.dir == Fast && c.level == Level(b, parent.id) + 1 && !c.efile
    requires Distinct(Ids(children))
    modifies d, parent`efile, set c | c in children
    ensures Commits(d, old(d.trace), b, parent.id, Ids(children))
    ensures Committing(b, parent.id, Ids(children), d.fs)
    ensures !ok ==> InFlight(b, parent.id, Ids(children), d.fs)
    ensures !ok && d.faults == old(d.faults) + 1 ==> d.fs == b
    ensures ok ==> forall c :: c in Ids(children) ==> Written(d.fs, c)
    ensures d.Faulty(old(d.faults), ok && Replaced(b, parent.id, Ids(children), d.fs))
    ensures d.Drift() == old(d.Drift())
  {
    ghost var cs := Ids(children);
    ok := WriteChildren(d, parent, children, b);
    if ok {
      ok := d.Other(); // utime
    }
    if !ok {
      UndoChildren(d, children, b, parent.id, d.faults <= old(d.faults) + 1);
      return false;
    }
    RemoveParent(d, parent, b, cs);
  }
}
