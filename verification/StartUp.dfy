/** The whole of `q_cleanup` (q_cleanup.c:66-106) with simta_filesystem_cleanup on: where each message is
  * afterwards, and what a restart makes of a move that was cut off.
  */
module StartUp {
  import opened Options
  import opened Spool
  import opened SpoolOps
  import opened DirStartup
  import opened ExpansionCleanup
  import opened MoveToSlow
  import C = SpoolCount
  import Q = QueueRun

  /** The directory whose copy of a message is kept. */
  ghost function Home(f: Fs, id: string): (r: Option<Dir>)
    requires Typed(f)
    ensures r.Some? ==> Complete(f, r.value, id)
  {
    if Complete(f, Slow, id) then Some(Slow)
    else if Complete(f, Fast, id) && !Interrupted(f, id) then Some(Fast)
    else if Complete(f, Local, id) then Some(Local)
    else None
  }

  /** What the name `n` holds afterwards: every message that is kept is in the slow directory, once.  Strays stay in the
    * local directory, and the dead directory is not touched.
    */
  ghost function FileAfter(f: Fs, n: Name): Option<File>
    requires Typed(f)
  {
    match n.dir
    case Slow =>
      (match Home(f, n.id)
       case Some(d) => if n.prefix == EFile || n.prefix == DFile then Some(f[Name(d, n.prefix, n.id)]) else None
       case None => None)
    case Fast => None
    case Local => if n in f && (n.prefix == TFile || !Complete(f, Local, n.id)) then Some(f[n]) else None
    case Dead => if n in f then Some(f[n]) else None
  }

  ghost predicate CleanedUp(f: Fs, s: Fs)
    requires Typed(f)
  {
    && (forall n :: n in s ==> FileAfter(f, n) == Some(s[n]))
    && (forall n :: n !in s ==> FileAfter(f, n) == None)
  }

  ghost predicate Kept(f: Fs, s: Fs, id: string)
    requires Typed(f)
  {
    && (Complete(s, Slow, id) <==>
          Complete(f, Slow, id) || (Complete(f, Fast, id) && !Interrupted(f, id)) || Complete(f, Local, id))
    && !Complete(s, Fast, id) && !Complete(s, Local, id)
  }

  /** No message is lost, and none is there twice. */
  lemma EachMessageOnce(f: Fs, s: Fs, id: string)
    requires Typed(f) && CleanedUp(f, s)
    ensures Kept(f, s, id)
  {}

  // ---------- A move that was cut off ----------

  ghost predicate Movement(f: Fs, id: string, from: Dir, to: Dir)
    requires Typed(f)
  {
    Paired(f) && from != to && from != Dead && to in {Slow, Fast} && Movable(f, id, from, to)
  }

  /** The fast message `w` is a parent of the message that is moved. */
  ghost predicate IsParent(f: Fs, from: Dir, id: string, w: string)
    requires Typed(f) && Complete(f, from, id)
  {
    && w != id && Complete(f, Fast, w) && Inode(f, w) == f[Name(from, DFile, id)].ino
    && Level(f, w) + 1 == f[Name(from, EFile, id)].level
  }

  /** The fast message `c` is a child of it. */
  ghost predicate IsChild(f: Fs, from: Dir, id: string, c: string)
    requires Typed(f) && Complete(f, from, id)
  {
    && c != id && Complete(f, Fast, c) && Inode(f, c) == f[Name(from, DFile, id)].ino
    && Level(f, c) == f[Name(from, EFile, id)].level + 1
  }

  ghost predicate HasParent(f: Fs, from: Dir, id: string)
    requires Typed(f) && Complete(f, from, id)
  {
    exists w :: IsParent(f, from, id, w)
  }

  ghost predicate HasOtherParent(f: Fs, c: string, id: string)
    requires Typed(f)
  {
    exists w :: w != id && ChildOf(f, c, w)
  }

  /** The local directory has the same files under this id. */
  ghost predicate Twin(f: Fs, dir: Dir, id: string)
    requires Complete(f, dir, id)
  {
    && Complete(f, Local, id) && f[Name(Local, EFile, id)] == f[Name(dir, EFile, id)]
    && f[Name(Local, DFile, id)] == f[Name(dir, DFile, id)]
  }

  /** What the next start does to this child does not depend on the message that is moved. */
  ghost predicate Independent(f: Fs, c: string, id: string)
    requires Typed(f) && Complete(f, Fast, c)
  {
    Complete(f, Slow, c) || Twin(f, Fast, c) || HasOtherParent(f, c, id)
  }

  /** What the next start does to a message is the same on both sides of the move, apart from its children. */
  ghost predicate Settled(f: Fs, id: string, from: Dir, to: Dir)
    requires Typed(f) && Complete(f, from, id)
  {
    if Fast in {from, to} then
      HasParent(f, from, id) ==> (from != Slow && Complete(f, Slow, id)) || (from != Local && Twin(f, from, id))
    else Complete(f, Fast, id) && !Interrupted(f, id) ==> Twin(f, Fast, id)
  }

  /** The condition on the spool in front of a move: the message has no relatives in the fast directory, or none that
    * matter, and a move from local to slow does not pass by another fast message with this id.
    */
  ghost predicate Steady(f: Fs, id: string, from: Dir, to: Dir)
    requires Typed(f) && Complete(f, from, id)
  {
    && Settled(f, id, from, to)
    && (Fast in {from, to} ==> forall c :: IsChild(f, from, id, c) ==> Independent(f, c, id))
  }

  /** A crash in the state `s` and a restart put every file where a restart in front of the move does.  Of a local
    * message the Dfile can stay behind.
    */
  ghost predicate SameStart(f: Fs, id: string, from: Dir, s: Fs)
    requires Typed(f) && Typed(s)
  {
    forall n: Name :: from != Local || n != Name(Local, DFile, id) ==> FileAfter(s, n) == FileAfter(f, n)
  }

  /** The files of a message, wherever a state of the move has them. */
  lemma MovedFiles(f: Fs, id: string, from: Dir, to: Dir, s: Fs, c: string)
    requires Typed(f) && Movement(f, id, from, to) && MoveState(f, id, from, to, s)
    ensures Typed(s) && Paired(s)
    ensures Complete(s, Fast, c) && c != id ==>
              Complete(f, Fast, c) && Inode(s, c) == Inode(f, c) && Level(s, c) == Level(f, c)
    ensures Complete(s, Fast, id) && Fast in {from, to} ==>
              Inode(s, id) == f[Name(from, DFile, id)].ino && Level(s, id) == f[Name(from, EFile, id)].level
    ensures Complete(f, Fast, c) && c != id ==> Complete(s, Fast, c)
  {
    MovingStaysComplete(f, id, from, to, s);
  }

  lemma ParentThen(f: Fs, id: string, from: Dir, to: Dir, s: Fs, c: string, w: string)
    requires Typed(f) && Movement(f, id, from, to) && Fast in {from, to} && MoveState(f, id, from, to, s)
    ensures Typed(s)
    ensures c != id && w != id ==> (ChildOf(s, c, w) <==> ChildOf(f, c, w))
    ensures c != id && w == id ==> (ChildOf(s, c, w) <==> Complete(s, Fast, id) && IsChild(f, from, id, c))
    ensures c == id ==> (ChildOf(s, c, w) <==> Complete(s, Fast, id) && IsParent(f, from, id, w))
  {
    MovedFiles(f, id, from, to, s, c);
    MovedFiles(f, id, from, to, s, w);
  }

  lemma InterruptedBy(s: Fs, c: string)
    requires Typed(s)
    ensures Interrupted(s, c) <==> exists w :: ChildOf(s, c, w)
  {
    if w :| ChildOf(s, c, w) {
      assert Name(Fast, EFile, w) in s;
    }
  }

  /** Which expansions count as interrupted in a state of the move to or from the fast directory. */
  lemma InterruptedThen(f: Fs, id: string, from: Dir, to: Dir, s: Fs, c: string)
    requires Typed(f) && Movement(f, id, from, to) && Fast in {from, to} && MoveState(f, id, from, to, s)
    ensures Typed(s)
    ensures c != id ==>
        (Interrupted(s, c) <==> HasOtherParent(f, c, id) || (Complete(s, Fast, id) && IsChild(f, from, id, c)))
    ensures c == id ==> (Interrupted(s, c) <==> Complete(s, Fast, id) && HasParent(f, from, id))
  {
    MovedFiles(f, id, from, to, s, c);
    forall w
      ensures c != id && w != id ==> (ChildOf(s, c, w) <==> ChildOf(f, c, w))
      ensures c != id && w == id ==> (ChildOf(s, c, w) <==> Complete(s, Fast, id) && IsChild(f, from, id, c))
      ensures c == id ==> (ChildOf(s, c, w) <==> Complete(s, Fast, id) && IsParent(f, from, id, w))
    {
      ParentThen(f, id, from, to, s, c, w);
    }
    InterruptedBy(s, c);
    assert c != id && Complete(s, Fast, id) && IsChild(f, from, id, c) ==> ChildOf(s, c, id);
  }

  ghost predicate SameFast(f: Fs, s: Fs) {
    forall n: Name :: n.dir == Fast ==> (n in s <==> n in f) && (n in f ==> s[n] == f[n])
  }

  lemma SameFastSameInterrupted(f: Fs, s: Fs, c: string)
    requires Typed(f) && Typed(s) && SameFast(f, s)
    ensures Complete(s, Fast, c) <==> Complete(f, Fast, c)
    ensures Complete(f, Fast, c) ==> (Interrupted(s, c) <==> Interrupted(f, c))
  {}

  /** A message none of whose files is touched. */
  ghost predicate Untouched(f: Fs, s: Fs, c: string) {
    forall n: Name :: n.id == c ==> (n in s <==> n in f) && (n in f ==> s[n] == f[n])
  }

  /** Everything but the files in slow, for which it matters which copy is kept. */
  lemma OutsideSlow(f: Fs, id: string, from: Dir, to: Dir, s: Fs, n: Name)
    requires Typed(f) && Movement(f, id, from, to) && MoveState(f, id, from, to, s)
    requires n.dir != Slow && (from != Local || n != Name(Local, DFile, id))
    ensures Typed(s) && FileAfter(s, n) == FileAfter(f, n)
  {
    MovedFiles(f, id, from, to, s, n.id);
  }

  ghost predicate SameCopy(f: Fs, s: Fs, c: string)
    requires Typed(f) && Typed(s)
  {
    && FileAfter(s, Name(Slow, EFile, c)) == FileAfter(f, Name(Slow, EFile, c))
    && FileAfter(s, Name(Slow, DFile, c)) == FileAfter(f, Name(Slow, DFile, c))
  }

  /** The copy that is kept is the same if the expansion counts as interrupted in both spools or in neither. */
  lemma UntouchedIsKept(f: Fs, s: Fs, c: string)
    requires Typed(f) && Typed(s) && Untouched(f, s, c)
    requires Complete(f, Fast, c) && !Complete(f, Slow, c) && !Twin(f, Fast, c) ==>
        (Interrupted(s, c) <==> Interrupted(f, c))
    ensures SameCopy(f, s, c)
  {}

  lemma OthersAreKept(f: Fs, id: string, from: Dir, to: Dir, s: Fs, c: string)
    requires Typed(f) && Movement(f, id, from, to) && MoveState(f, id, from, to, s) && c != id
    requires Fast in {from, to} && IsChild(f, from, id, c) ==> Independent(f, c, id)
    ensures Typed(s) && SameCopy(f, s, c)
  {
    MovedFiles(f, id, from, to, s, c);
    if Fast in {from, to} {
      InterruptedThen(f, id, from, to, s, c);
      InterruptedThen(f, id, from, to, f, c);
    } else {
      SameFastSameInterrupted(f, s, c);
    }
    UntouchedIsKept(f, s, c);
  }

  /** Two directories with the same message in them. */
  ghost predicate SameFiles(f: Fs, from: Dir, s: Fs, to: Dir, id: string)
    requires Complete(f, from, id) && Complete(s, to, id)
  {
    s[Name(to, EFile, id)] == f[Name(from, EFile, id)] && s[Name(to, DFile, id)] == f[Name(from, DFile, id)]
  }

  /** Where the files of the message are in a state of the move. */
  ghost predicate OnItsWay(f: Fs, id: string, from: Dir, to: Dir, s: Fs)
    requires Complete(f, from, id)
  {
    && (Complete(s, from, id) || Complete(s, to, id))
    && (Complete(s, from, id) ==> SameFiles(f, from, s, from, id))
        && (Complete(s, to, id) ==> SameFiles(f, from, s, to, id))
    && (forall d :: d != from && d != to ==> (Complete(s, d, id) <==> Complete(f, d, id)))
    && (forall d :: d != from && d != to && Complete(s, d, id) ==> SameFiles(f, d, s, d, id))
  }

  lemma StatesAreOnTheWay(f: Fs, id: string, from: Dir, to: Dir, s: Fs)
    requires Typed(f) && Movement(f, id, from, to) && MoveState(f, id, from, to, s)
    ensures OnItsWay(f, id, from, to, s)
  {}

  lemma KeptOnItsWay(f: Fs, id: string, from: Dir, to: Dir, s: Fs)
    requires Typed(f) && Typed(s) && Movement(f, id, from, to) && OnItsWay(f, id, from, to, s)
    requires Settled(f, id, from, to)
    requires if Fast in {from, to} then
               && (Complete(s, Fast, id) ==> (Interrupted(s, id) <==> HasParent(f, from, id)))
               && (Complete(f, Fast, id) ==> (Interrupted(f, id) <==> HasParent(f, from, id)))
             else Complete(f, Fast, id) ==> (Interrupted(s, id) <==> Interrupted(f, id))
    ensures SameCopy(f, s, id)
  {}

  lemma MovedIsKept(f: Fs, id: string, from: Dir, to: Dir, s: Fs)
    requires Typed(f) && Movement(f, id, from, to) && MoveState(f, id, from, to, s) && Settled(f, id, from, to)
    ensures Typed(s) && SameCopy(f, s, id)
  {
    MovedFiles(f, id, from, to, s, id);
    StatesAreOnTheWay(f, id, from, to, s);
    if Fast in {from, to} {
      InterruptedThen(f, id, from, to, s, id);
      InterruptedThen(f, id, from, to, f, id);
    } else {
      SameFastSameInterrupted(f, s, id);
    }
    KeptOnItsWay(f, id, from, to, s);
  }

  /** A crash anywhere in env_move, and a restart: with this condition every file is where it would be without the
    * move.
    */
  lemma RestartAfterMove(f: Fs, id: string, from: Dir, to: Dir, s: Fs)
    requires Typed(f) && Movement(f, id, from, to) && MoveState(f, id, from, to, s) && Steady(f, id, from, to)
    ensures Typed(s) && SameStart(f, id, from, s)
  {
    MovedFiles(f, id, from, to, s, id);
    forall n: Name | from != Local || n != Name(Local, DFile, id)
      ensures FileAfter(s, n) == FileAfter(f, n)
    {
      if n.dir != Slow {
        OutsideSlow(f, id, from, to, s, n);
      } else if n.id == id {
        MovedIsKept(f, id, from, to, s);
      } else {
        OthersAreKept(f, id, from, to, s, n.id);
      }
    }
  }

  /** The state in which the move is done. */
  ghost function Moved(f: Fs, id: string, from: Dir, to: Dir): Fs
    requires Complete(f, from, id)
  {
    Both(f, id, from, to) - {Name(from, EFile, id)} - {Name(from, DFile, id)}
  }

  lemma KeptOnlyIfSettled(f: Fs, id: string, from: Dir, to: Dir)
    requires Typed(f) && Movement(f, id, from, to)
    ensures MoveState(f, id, from, to, Moved(f, id, from, to)) && Typed(Moved(f, id, from, to))
    ensures SameCopy(f, Moved(f, id, from, to), id) ==> Settled(f, id, from, to)
  {
    var s := Moved(f, id, from, to);
    MovedFiles(f, id, from, to, s, id);
    if Fast in {from, to} {
      InterruptedThen(f, id, from, to, s, id);
      InterruptedThen(f, id, from, to, f, id);
    } else {
      SameFastSameInterrupted(f, s, id);
    }
  }

  lemma KeptOnlyIfIndependent(f: Fs, id: string, from: Dir, to: Dir, c: string)
    requires Typed(f) && Movement(f, id, from, to) && Fast in {from, to} && IsChild(f, from, id, c)
    ensures MoveState(f, id, from, to, Moved(f, id, from, to)) && Typed(Moved(f, id, from, to))
    ensures SameCopy(f, Moved(f, id, from, to), c) ==> Independent(f, c, id)
  {
    var s := Moved(f, id, from, to);
    MovedFiles(f, id, from, to, s, c);
    MovedFiles(f, id, from, to, s, id);
    assert Untouched(f, s, c);
    InterruptedThen(f, id, from, to, s, c);
    InterruptedThen(f, id, from, to, f, c);
  }

  /** The condition is exact: the next start does the same in every state of the move, and already in the last one,
    * if and only if the spool in front of the move meets it.
    */
  lemma RestartAfterMoveIff(f: Fs, id: string, from: Dir, to: Dir)
    requires Typed(f) && Movement(f, id, from, to)
    ensures var last := Moved(f, id, from, to);
            MoveState(f, id, from, to, last) && Typed(last)
                && (SameStart(f, id, from, last) <==> Steady(f, id, from, to))
    ensures Steady(f, id, from, to) ==> forall s :: MoveState(f, id, from, to, s) ==>
        Typed(s) && SameStart(f, id, from, s)
  {
    var last := Moved(f, id, from, to);
    KeptOnlyIfSettled(f, id, from, to);
    if SameStart(f, id, from, last) && Fast in {from, to} {
      forall c | IsChild(f, from, id, c)
        ensures Independent(f, c, id)
      {
        KeptOnlyIfIndependent(f, id, from, to, c);
      }
    }
    if Steady(f, id, from, to) {
      forall s | MoveState(f, id, from, to, s)
        ensures Typed(s) && SameStart(f, id, from, s)
      {
        RestartAfterMove(f, id, from, to, s);
      }
    }
  }

  /** The ids of the fast directory are not in use elsewhere. */
  ghost predicate OwnIds(f: Fs) {
    forall c :: Complete(f, Fast, c) ==> !Complete(f, Slow, c) && !Complete(f, Local, c)
  }

  /** Where every inode has a family and every id one place, this means that the message has no relatives. */
  lemma SteadyIsAlone(f: Fs, id: string, from: Dir, to: Dir)
    requires Typed(f) && OwnIds(f) && Movement(f, id, from, to) && Fast in {from, to}
    requires from == Fast || !Complete(f, Slow, id) || !Complete(f, Local, id)
    requires var both := Both(f, id, from, to); Typed(both) && Families(both)
    ensures Steady(f, id, from, to) <==> !HasParent(f, from, id) && forall c :: !IsChild(f, from, id, c)
  {
    var both := Both(f, id, from, to);
    forall c, w | IsChild(f, from, id, c) && w != id
      ensures !ChildOf(f, c, w)
    {
      ParentThen(f, id, from, to, both, c, w);
      ParentThen(f, id, from, to, both, c, id);
    }
  }

  /** A message and a child of it, in these directories. */
  ghost function Family(parent: Dir, child: Dir): Fs {
    map[Name(parent, EFile, "p") := Env(0), Name(parent, DFile, "p") := Data(7),
        Name(child, EFile, "c") := Env(1), Name(child, DFile, "c") := Data(7)]
  }

  /** A parent that leaves its child behind in the fast directory, or joins it there, changes what becomes of the
    * child.
    */
  lemma ParentMatters(from: Dir, to: Dir)
    requires {from, to} == {Fast, Slow}
    ensures var f := Family(from, Fast); Typed(f) && Movement(f, "p", from, to) && !Steady(f, "p", from, to)
  {
    var f := Family(from, Fast);
    assert "p"[0] != "c"[0];
    assert from != to;
    assert IsChild(f, from, "p", "c") && !Complete(f, Slow, "c") && !Complete(f, Local, "c");
  }

  /** So does a child that leaves its parent there, or joins it. */
  lemma ChildMatters(from: Dir, to: Dir)
    requires {from, to} == {Fast, Slow}
    ensures var f := Family(Fast, from); Typed(f) && Movement(f, "c", from, to) && !Steady(f, "c", from, to)
  {
    var f := Family(Fast, from);
    assert "p"[0] != "c"[0];
    assert from != to;
    assert IsParent(f, from, "c", "p") && !Complete(f, Local, "c");
  }

  // ---------- The steps of q_cleanup ----------

  /** What tidying slow and recovering fast keep of `f`. */
  ghost predicate Recovered(f: Fs, fast: Fs, id: string)
    requires Typed(f)
  {
    && (Complete(fast, Slow, id) <==> Complete(f, Slow, id))
    && (Complete(fast, Fast, id) <==> Complete(f, Fast, id) && !Interrupted(f, id))
    && (Complete(fast, Local, id) <==> Complete(f, Local, id))
    && (forall n :: n in fast ==> n in f && fast[n] == f[n])
    && (forall n :: n in f && n.id == id && n.dir in {Local, Dead} ==> n in fast)
  }

  lemma TidyAndRecovered(f: Fs, fast: Fs, id: string)
    requires Typed(f) && Paired(f) && Typed(Tidied(f, Slow)) && fast == Recover(Tidied(f, Slow))
    ensures Recovered(f, fast, id)
  {}

  ghost function CompleteIds(f: Fs, dir: Dir): set<string> {
    set n | n in f && n.dir == dir && Complete(f, dir, n.id) :: n.id
  }

  /** All messages of a directory have been merged into slow. */
  ghost predicate MergedAll(f: Fs, from: Dir, s: Fs) {
    Merged(f, from, true, CompleteIds(f, from), s)
  }

  lemma CleanUpSteps(f: Fs, fast: Fs, moved: Fs, s: Fs, n: Name)
    requires Typed(f) && Paired(f) && Typed(Tidied(f, Slow)) && fast == Recover(Tidied(f, Slow))
    requires SlowInOrder(fast) && InOrder(fast) && MergedAll(fast, Fast, moved) && MergedAll(moved, Local, s)
    ensures FileAfter(f, n) == if n in s then Some(s[n]) else None
  {
    TidyAndRecovered(f, fast, n.id);
    MergedCopies(fast, Fast, moved, n.id);
    MergedCopies(moved, Local, s, n.id);
    CleanUpCopies(f, fast, moved, s, n);
  }

  lemma CleanUpCopies(f: Fs, fast: Fs, moved: Fs, s: Fs, n: Name)
    requires Typed(f) && Recovered(f, fast, n.id) && Copied(fast, Fast, moved, n.id) && Copied(moved, Local, s, n.id)
    requires InOrder(fast) && Whole(fast, n.id)
    ensures FileAfter(f, n) == if n in s then Some(s[n]) else None
  {}

  /** In the slow directory the message is complete, or it has no file there. */
  ghost predicate Whole(fs: Fs, id: string) {
    forall p :: Name(Slow, p, id) in fs ==> p != TFile && Complete(fs, Slow, id)
  }

  /** After merging a directory into slow: which copies are there. */
  ghost predicate Copied(f: Fs, from: Dir, s: Fs, id: string) {
    && (Complete(s, Slow, id) <==> Complete(f, Slow, id) || Complete(f, from, id))
    && (forall p :: (p == EFile || p == DFile) && Complete(s, Slow, id) ==>
          s[Name(Slow, p, id)] == if Complete(f, Slow, id) then f[Name(Slow, p, id)] else f[Name(from, p, id)])
    && (Whole(f, id) ==> Whole(s, id))
    && (forall n: Name :: n.id == id && n.dir != Slow && n.dir != from ==>
        (n in s <==> n in f) && (n in s ==> s[n] == f[n]))
    && (forall p :: Name(from, p, id) in s <==> Name(from, p, id) in f && (p == TFile || !Complete(f, from, id)))
    && (forall p :: Name(from, p, id) in s ==> s[Name(from, p, id)] == f[Name(from, p, id)])
  }

  lemma MergedCopies(f: Fs, from: Dir, s: Fs, id: string)
    requires from != Slow && MergedAll(f, from, s)
    ensures Copied(f, from, s, id)
  {
    assert Complete(f, from, id) ==> Name(from, EFile, id) in f;
    assert id in CompleteIds(f, from) <==> Complete(f, from, id);
  }

  /** First the fast directory has been merged into slow, then the local one. */
  ghost predicate BothMerged(f: Fs, s: Fs) {
    exists moved :: MergedAll(f, Fast, moved) && MergedAll(moved, Local, s)
  }

  lemma CleanUpIsDone(f: Fs, fast: Fs, s: Fs)
    requires Typed(f) && Paired(f) && Typed(Tidied(f, Slow)) && fast == Recover(Tidied(f, Slow)) && SlowInOrder(fast)
    requires BothMerged(fast, s)
    ensures CleanedUp(f, s)
  {
    var moved :| MergedAll(fast, Fast, moved) && MergedAll(moved, Local, s);
    forall n
      ensures FileAfter(f, n) == if n in s then Some(s[n]) else None
    {
      CleanUpSteps(f, fast, moved, s, n);
    }
  }

  // ---------- q_cleanup ----------

  lemma IdsAreMessages(ms: seq<Envelope>, f: Fs, dir: Dir)
    requires AllComplete(ms, f, dir)
    ensures IdsUpTo(ms, |ms|) == CompleteIds(f, dir)
  {}

  /** The merged list is the list of the slow directory. */
  lemma MergedMessages(slow: seq<Envelope>, other: seq<Envelope>, merged: seq<Envelope>, f: Fs, from: Dir, s: Fs)
    requires from != Slow && AllComplete(slow, f, Slow) && AllComplete(other, f, from)
    requires Zipped(slow, other, |other|, merged, 0) && InSlow(f, from, IdsUpTo(other, |other|), s)
    ensures AllComplete(merged, s, Slow) && forall e :: e in merged ==> e in slow || e in other
  {}

  /** Only the slow directory and this one change. */
  ghost predicate OnlySlowAnd(from: Dir, f: Fs, s: Fs) {
    forall n: Name :: n.dir != from && n.dir != Slow ==> (n in s <==> n in f) && (n in f ==> s[n] == f[n])
  }

  /** Merging one directory into slow at start-up (q_cleanup.c:89-91 and 101-103). */
  method MergeIn(d: Disk, slow: seq<Envelope>, other: seq<Envelope>, from: Dir)
    returns (err: bool, merged: seq<Envelope>)
    requires from != Slow && SlowInOrder(d.fs) && Messages(slow, d.fs, Slow) && Messages(other, d.fs, from)
    modifies d, (set e | e in other)`efile, (set e | e in other)`dir
    ensures !err ==> Messages(merged, d.fs, Slow) && SlowInOrder(d.fs) && OnlySlowAnd(from, old(d.fs), d.fs)
    ensures !err ==> forall e :: e in merged ==> e in slow || e in other
    ensures d.Faulty(old(d.faults), !err && MergedAll(old(d.fs), from, d.fs))
    ensures d.Drift() == old(d.Drift())
  {
    var collisions;
    IdsAreMessages(other, d.fs, from);
    err, collisions, merged := QMoveToSlow(d, slow, other, from, true);
    if !err {
      MergedMessages(slow, other, merged, old(d.fs), from, d.fs);
    }
  }

  /** q_cleanup.c:77-79 */
  method TidySlow(d: Disk, listing: seq<Entry>, ghost others: seq<Entry>) returns (err: bool, slow: seq<Envelope>)
    requires Typed(d.fs) && Paired(d.fs) && ListingOf(d.fs, Slow, listing) && ListingOf(d.fs, Fast, others)
    modifies d
    ensures !err ==> d.fs == Tidied(old(d.fs), Slow) && Messages(slow, d.fs, Slow)
    ensures forall e :: e in slow ==> fresh(e)
    ensures OnlySlowAnd(Fast, old(d.fs), d.fs) && ListingOf(d.fs, Fast, others)
    ensures d.Faulty(old(d.faults), Unknown !in listing ==> !err)
    ensures d.Drift() == old(d.Drift())
  {
    ghost var f := d.fs;
    err, slow := QDirStartup(d, Slow, true, listing);
    assert forall n: Name :: n.dir != Slow ==> (n in d.fs <==> n in f) && (n in f ==> d.fs[n] == f[n]);
  }

  /** After the slow directory has been tidied and the fast one recovered. */
  method TidyAndRecover(d: Disk, slowList: seq<Entry>, fastList: seq<Entry>)
    returns (err: bool, aborted: bool, slow: seq<Envelope>, fast: seq<Envelope>)
    requires Typed(d.fs) && Paired(d.fs) && ListingOf(d.fs, Slow, slowList) && ListingOf(d.fs, Fast, fastList)
    modifies d
    ensures aborted ==> !Families(old(d.fs))
    ensures !err && !aborted ==> SlowInOrder(d.fs) && Messages(slow, d.fs, Slow) && Messages(fast, d.fs, Fast)
    ensures (forall e :: e in slow ==> fresh(e)) && (!err && !aborted ==> forall e :: e in fast ==> fresh(e))
    ensures OnlySlowAnd(Fast, old(d.fs), d.fs) && Typed(Tidied(old(d.fs), Slow))
    ensures d.Faulty(old(d.faults), !aborted && Unknown !in slowList && Unknown !in fastList ==>
              !err && d.fs == Recover(Tidied(old(d.fs), Slow)))
    ensures d.Drift() == old(d.Drift())
  {
    ghost var f := d.fs;
    aborted, fast := false, [];
    TidyingKeepsFamilies(f);
    err, slow := TidySlow(d, slowList, fastList);
    if err { return; }
    ghost var t := d.fs;
    err, aborted, fast := RecoverFast(d, fastList);
    OnlyFastKeepsSlow(t, d.fs, slow);
  }

  lemma OnlyFastKeepsSlow(t: Fs, s: Fs, slow: seq<Envelope>)
    requires OnlyFast(t, s) && AllComplete(slow, t, Slow)
    ensures AllComplete(slow, s, Slow) && (SlowInOrder(t) ==> SlowInOrder(s))
  {}

  lemma TidyingKeepsFamilies(f: Fs)
    requires Typed(f) && Paired(f)
    ensures var t := Tidied(f, Slow); Typed(t) && Paired(t) && SlowInOrder(t) && (Families(t) <==> Families(f))
  {
    var t := Tidied(f, Slow);
    forall a, b
      ensures ChildOf(t, a, b) <==> ChildOf(f, a, b)
      ensures SameInode(t, a, b) <==> SameInode(f, a, b)
      ensures SameInode(f, a, b) ==> Level(t, a) == Level(f, a) && Level(t, b) == Level(f, b)
    {}
  }

  /** There are no files with strange names. */
  ghost predicate AllKnown(slow: seq<Entry>, fast: seq<Entry>, local: seq<Entry>) {
    Unknown !in slow && Unknown !in fast && Unknown !in local
  }

  /** q_cleanup.c:66-106.  Unless a call fails, or the fast directory holds messages that are no families, or a name
    * that is not known, every message ends in the slow directory, once; interrupted expansions and strays are gone.
    */
  method QCleanup(d: Disk, slowList: seq<Entry>, fastList: seq<Entry>, localList: seq<Entry>)
    returns (err: bool, aborted: bool)
    requires Typed(d.fs) && Paired(d.fs)
    requires ListingOf(d.fs, Slow, slowList) && ListingOf(d.fs, Fast, fastList) && ListingOf(d.fs, Local, localList)
    modifies d
    ensures aborted ==> !Families(old(d.fs))
    ensures d.Faulty(old(d.faults), !aborted && AllKnown(slowList, fastList, localList) ==>
              !err && CleanedUp(old(d.fs), d.fs))
    ensures d.Drift() == old(d.Drift())
  {
    aborted := false;
    ghost var f := d.fs;
    var ok := d.Other(); // the dead directory can be opened
    if !ok { return true, aborted; }
    var slow, fast;
    err, aborted, slow, fast := TidyAndRecover(d, slowList, fastList);
    if err || aborted { return; }
    ghost var recovered := d.fs;
    StaysReady(f, recovered, localList);
    err := MergeBoth(d, slow, fast, localList);
    if d.faults == old(d.faults) && Unknown !in slowList && Unknown !in fastList && Unknown !in localList {
      CleanUpIsDone(f, recovered, d.fs);
    }
  }

  /** A crash at any call of a run over all queues, and the next start: every message that was complete, and is not the
    * child of an interrupted expansion, is complete in the slow directory, and no other is.
    */
  method RestartAfterRun(run: Q.Runner, k: nat, d: Disk, slowList: seq<Entry>, fastList: seq<Entry>,
      localList: seq<Entry>)
    returns (err: bool, aborted: bool)
    requires run.Inv({}) && run.start.states <= k < |run.disk.trace| && d.fs == run.disk.trace[k]
    requires ListingOf(d.fs, Slow, slowList) && ListingOf(d.fs, Fast, fastList) && ListingOf(d.fs, Local, localList)
    modifies d
    ensures aborted ==> !Families(old(d.fs))
    ensures d.Faulty(old(d.faults), !aborted && AllKnown(slowList, fastList, localList) ==>
              !err && forall id :: Kept(old(d.fs), d.fs, id))
  {
    ghost var f := d.fs;
    assert C.InShape(run.disk.trace[k]);
    err, aborted := QCleanup(d, slowList, fastList, localList);
    if CleanedUp(f, d.fs) {
      forall id
        ensures Kept(f, d.fs, id)
      {
        EachMessageOnce(f, d.fs, id);
      }
    }
  }

  /** q_cleanup.c:89-103 */
  method MergeBoth(d: Disk, slow: seq<Envelope>, fast: seq<Envelope>, listing: seq<Entry>) returns (err: bool)
    requires SlowInOrder(d.fs) && Messages(slow, d.fs, Slow) && Messages(fast, d.fs, Fast)
    requires ReadyToMerge(d.fs, listing)
    modifies d, (set e | e in fast)`efile, (set e | e in fast)`dir
    ensures d.Faulty(old(d.faults), (Unknown !in listing ==> !err) && (!err ==> BothMerged(old(d.fs), d.fs)))
    ensures d.Drift() == old(d.Drift())
  {
    ghost var f := d.fs;
    var merged;
    err, merged := MergeIn(d, slow, fast, Fast);
    if err { return; }
    StaysReady(f, d.fs, listing);
    err := MergeLocal(d, merged, listing);
  }

  /** The local directory as it was listed, with no Efile without a Dfile. */
  ghost predicate ReadyToMerge(fs: Fs, listing: seq<Entry>) {
    ListingOf(fs, Local, listing) && forall n :: n in fs && n.dir == Local && n.prefix == EFile ==>
        Name(Local, DFile, n.id) in fs
  }

  lemma StaysReady(f: Fs, s: Fs, listing: seq<Entry>)
    requires OnlySlowAnd(Fast, f, s) && ReadyToMerge(f, listing)
    ensures ReadyToMerge(s, listing)
  {}

  /** q_cleanup.c:97-103 */
  method MergeLocal(d: Disk, slow: seq<Envelope>, listing: seq<Entry>) returns (err: bool)
    requires SlowInOrder(d.fs) && Messages(slow, d.fs, Slow) && ReadyToMerge(d.fs, listing)
    modifies d
    ensures d.Faulty(old(d.faults), (Unknown !in listing ==> !err) && (!err ==> MergedAll(old(d.fs), Local, d.fs)))
    ensures d.Drift() == old(d.Drift())
  {
    ghost var f := d.fs;
    var local, merged;
    err, local := QDirStartup(d, Local, true, listing);
    assert d.fs == f;
    if err { return; }
    err, merged := MergeIn(d, slow, local, Local);
  }
}
