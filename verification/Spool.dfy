/** The message spool as a value, and what crash recovery makes of it.
  *
  * A message is a Dfile (a hard link to the message text) and an Efile (the envelope) with the same id in one
  * of four directories; an envelope being written is a tfile.  `Recover` is the combined effect of
  * `q_dir_startup` and `q_expansion_cleanup` (q_cleanup.c:167-460) on the fast directory.
  */
module Spool {

  datatype Dir = Fast | Slow | Local | Dead
  datatype Prefix = EFile | DFile | TFile
  datatype Name = Name(dir: Dir, prefix: Prefix, id: string)

  /** A Dfile names the inode of the message text; an Efile or tfile holds the expansion level. */
  datatype File = Data(ino: nat) | Env(level: int)

  type Fs = map<Name, File>

  ghost predicate Typed(fs: Fs) {
    forall n :: n in fs ==> (n.prefix == DFile <==> fs[n].Data?)
  }

  /** Every Efile has its Dfile. */
  ghost predicate Paired(fs: Fs) {
    forall n :: n in fs && n.prefix == EFile ==> Name(n.dir, DFile, n.id) in fs
  }

  ghost predicate Complete(fs: Fs, dir: Dir, id: string) {
    Name(dir, EFile, id) in fs && Name(dir, DFile, id) in fs
  }

  ghost function Level(fs: Fs, id: string): int
    requires Typed(fs) && Complete(fs, Fast, id)
  {
    fs[Name(Fast, EFile, id)].level
  }

  ghost function Inode(fs: Fs, id: string): nat
    requires Typed(fs) && Complete(fs, Fast, id)
  {
    fs[Name(Fast, DFile, id)].ino
  }

  /** `w` is the unexpanded message whose interrupted expansion produced `id`. */
  ghost predicate ChildOf(fs: Fs, id: string, w: string)
    requires Typed(fs)
  {
    Complete(fs, Fast, id) && Complete(fs, Fast, w)
    && Inode(fs, id) == Inode(fs, w) && Level(fs, id) == Level(fs, w) + 1
  }

  ghost predicate Interrupted(fs: Fs, id: string)
    requires Typed(fs)
  {
    exists n :: n in fs && n.dir == Fast && ChildOf(fs, id, n.id)
  }

  /** Per inode the complete fast messages are all on one level, or one message and its children. */
  ghost predicate Families(fs: Fs)
    requires Typed(fs)
  {
    && (forall a, b, c :: ChildOf(fs, c, a) && ChildOf(fs, c, b) ==> a == b)
    && (forall a, b :: SameInode(fs, a, b) ==> -1 <= Level(fs, a) - Level(fs, b) <= 1)
  }

  ghost predicate SameInode(fs: Fs, a: string, b: string)
    requires Typed(fs)
  {
    Complete(fs, Fast, a) && Complete(fs, Fast, b) && Inode(fs, a) == Inode(fs, b)
  }

  /** A message whose expansion was interrupted is not itself a child. */
  lemma NoChains(fs: Fs, id: string, w: string)
    requires Typed(fs) && Families(fs) && ChildOf(fs, id, w)
    ensures !Interrupted(fs, w)
  {}

  ghost predicate Kept(fs: Fs, n: Name)
    requires Typed(fs)
  {
    n.dir != Fast || (n.prefix != TFile && Complete(fs, Fast, n.id) && !Interrupted(fs, n.id))
  }

  /** Recovery of the fast directory: tfiles, Dfiles without an Efile and interrupted expansions go. */
  ghost function Recover(fs: Fs): Fs
    requires Typed(fs)
  {
    map n | n in fs && Kept(fs, n) :: fs[n]
  }

  lemma RecoverKeeps(fs: Fs, w: string)
    requires Typed(fs) && Complete(fs, Fast, w) && !Interrupted(fs, w)
    ensures Typed(Recover(fs)) && Complete(Recover(fs), Fast, w) && Inode(Recover(fs), w) == Inode(fs, w)
  {}

  /** No text is lost: every inode that a message had still has one. */
  lemma InodeKeepsMessage(fs: Fs, id: string) returns (w: string)
    requires Typed(fs) && Families(fs) && Complete(fs, Fast, id)
    ensures Typed(Recover(fs)) && Complete(Recover(fs), Fast, w) && Inode(Recover(fs), w) == Inode(fs, id)
    ensures !Interrupted(fs, id) ==> w == id
  {
    w := id;
    if n :| n in fs && n.dir == Fast && ChildOf(fs, id, n.id) {
      NoChains(fs, id, n.id);
      w := n.id;
    }
    RecoverKeeps(fs, w);
  }

  // ---------- Rerunning and interrupting recovery ----------

  lemma RecoverTwice(fs: Fs)
    requires Typed(fs) && Families(fs)
    ensures Typed(Recover(fs)) && Recover(Recover(fs)) == Recover(fs)
  {}

  /** `s` is what is left of `f` after some of the unlinks that recovery performs, Efiles before Dfiles. */
  ghost predicate PartlyRecovered(f: Fs, s: Fs)
    requires Typed(f)
  {
    && (forall n :: n in s ==> n in f && s[n] == f[n])
    && (forall n :: n in f && n !in s ==>
        n.dir == Fast && (n.prefix == EFile ==> Interrupted(f, n.id))
        && (n.prefix == DFile ==> Name(Fast, EFile, n.id) !in s))
  }

  lemma PartlyRecoveredChildOf(f: Fs, s: Fs, id: string, w: string)
    requires Typed(f) && Paired(f) && Families(f) && PartlyRecovered(f, s)
    ensures Typed(s) && Paired(s) && (Complete(s, Fast, id) <==> Complete(f, Fast, id) && Name(Fast, EFile, id) in s)
    ensures ChildOf(s, id, w) <==> ChildOf(f, id, w) && Complete(s, Fast, id)
  {
    if ChildOf(f, id, w) {
      NoChains(f, id, w);
    }
  }

  /** Wherever recovery is cut off, running it again gives the result of the uninterrupted run. */
  lemma RecoveryIsRestartable(f: Fs, s: Fs)
    requires Typed(f) && Paired(f) && Families(f) && PartlyRecovered(f, s)
    ensures Typed(s) && Paired(s) && Families(s) && Recover(s) == Recover(f)
  {
    forall a, b
      ensures Typed(s) && Paired(s) && (Complete(s, Fast, a) <==> Complete(f, Fast, a) && Name(Fast, EFile, a) in s)
      ensures ChildOf(s, a, b) <==> ChildOf(f, a, b) && Complete(s, Fast, a)
      ensures SameInode(s, a, b) ==> SameInode(f, a, b) && Level(s, a) == Level(f, a) && Level(s, b) == Level(f, b)
    {
      PartlyRecoveredChildOf(f, s, a, b);
    }
    forall n | n in f
      ensures n in s && Kept(s, n) <==> Kept(f, n)
    {
      assert Complete(s, Fast, n.id) ==> (Interrupted(s, n.id) <==> Interrupted(f, n.id)) by {
        if Complete(s, Fast, n.id) && Interrupted(f, n.id) {
          var w :| w in f && w.dir == Fast && ChildOf(f, n.id, w.id);
          assert ChildOf(s, n.id, w.id) && Name(Fast, EFile, w.id) in s;
        }
      }
    }
  }

  // ---------- The commit of an expansion ----------

  ghost predicate Clean(fs: Fs) {
    Typed(fs) && Paired(fs) && Families(fs) && Recover(fs) == fs
  }

  /** Message `p` is about to be expanded into the messages `cs`: their ids are new, and no other message
    * shares the text of `p`.
    */
  ghost predicate Expandable(b: Fs, p: string, cs: seq<string>) {
    && Clean(b) && Complete(b, Fast, p)
    && (forall n :: n in b && b[n] == Data(Inode(b, p)) ==> n == Name(Fast, DFile, p))
    && (forall n :: n in b && n.dir == Fast ==> n.id !in cs)
  }

  /** Before the commit point: the spool `b` with some files of the children added. */
  ghost predicate InFlight(b: Fs, p: string, cs: seq<string>, s: Fs)
    requires Expandable(b, p, cs)
  {
    && (forall n :: n in b ==> n in s && s[n] == b[n])
    && (forall n :: n in s && n !in b ==> n.dir == Fast && n.id in cs && ChildFile(b, p, n, s))
  }

  ghost predicate ChildFile(b: Fs, p: string, n: Name, s: Fs)
    requires Expandable(b, p, [])
    requires n in s
  {
    match n.prefix
    case DFile => s[n] == Data(Inode(b, p))
    case EFile => s[n] == Env(Level(b, p) + 1) && Name(Fast, DFile, n.id) in s
    case TFile => s[n].Env?
  }

  /** The spool with the parent replaced by all its children. */
  ghost predicate Replaced(b: Fs, p: string, cs: seq<string>, t: Fs)
    requires Expandable(b, p, cs)
  {
    && (forall n :: n in b && !(n.dir == Fast && n.id == p) ==> n in t && t[n] == b[n])
    && (forall n :: n in t && n !in b ==> n.dir == Fast && n.id in cs && n.prefix != TFile && ChildFile(b, p, n, t))
    && (forall c :: c in cs ==> Complete(t, Fast, c))
    && (forall n :: n in t && n.dir == Fast ==> n.id != p)
  }

  /** After the commit point the Dfile of the parent may still be there. */
  ghost predicate Committed(b: Fs, p: string, cs: seq<string>, s: Fs)
    requires Expandable(b, p, cs)
  {
    Name(Fast, EFile, p) !in s
    && Replaced(b, p, cs, s - {Name(Fast, DFile, p)})
    && (Name(Fast, DFile, p) in s ==> s[Name(Fast, DFile, p)] == b[Name(Fast, DFile, p)])
  }

  lemma InFlightMessage(b: Fs, p: string, cs: seq<string>, s: Fs, id: string)
    requires Expandable(b, p, cs) && InFlight(b, p, cs, s)
    ensures Typed(s)
    ensures Complete(s, Fast, id) ==>
              if id in cs then Inode(s, id) == Inode(b, p) && Level(s, id) == Level(b, p) + 1
              else Complete(b, Fast, id) && Inode(s, id) == Inode(b, id) && Level(s, id) == Level(b, id)
    ensures Complete(b, Fast, id) ==> Complete(s, Fast, id) && id !in cs && (Inode(b, id) == Inode(b, p) ==> id == p)
  {}

  lemma InFlightIsPaired(b: Fs, p: string, cs: seq<string>, s: Fs)
    requires Expandable(b, p, cs) && InFlight(b, p, cs, s)
    ensures Paired(s)
  {}

  lemma InFlightChildOf(b: Fs, p: string, cs: seq<string>, s: Fs, id: string, w: string)
    requires Expandable(b, p, cs) && InFlight(b, p, cs, s)
    ensures Typed(s) && (ChildOf(s, id, w) <==> id in cs && Complete(s, Fast, id) && w == p)
  {}

  lemma InFlightFamilies(b: Fs, p: string, cs: seq<string>, s: Fs)
    requires Expandable(b, p, cs) && InFlight(b, p, cs, s)
    ensures Typed(s) && Families(s)
  {
    InFlightMessage(b, p, cs, s, p);
    forall d, a
      ensures ChildOf(s, d, a) ==> a == p
    {
      InFlightChildOf(b, p, cs, s, d, a);
    }
    forall a, c | SameInode(s, a, c)
      ensures -1 <= Level(s, a) - Level(s, c) <= 1
    {
      InFlightMessage(b, p, cs, s, a);
      InFlightMessage(b, p, cs, s, c);
      assert a !in cs && c !in cs ==> SameInode(b, a, c);
    }
  }

  /** A crash before the commit point leaves exactly the parent. */
  lemma InFlightRecovers(b: Fs, p: string, cs: seq<string>, s: Fs)
    requires Expandable(b, p, cs) && InFlight(b, p, cs, s)
    ensures Typed(s) && Recover(s) == b
  {}

  lemma ReplacedMessage(b: Fs, p: string, cs: seq<string>, t: Fs, id: string)
    requires Expandable(b, p, cs) && Replaced(b, p, cs, t)
    ensures Typed(t) && Paired(t)
    ensures Complete(t, Fast, id) ==>
              if id in cs then Inode(t, id) == Inode(b, p) && Level(t, id) == Level(b, p) + 1
              else Complete(b, Fast, id) && Inode(t, id) == Inode(b, id) && Level(t, id) == Level(b, id)
                   && Inode(b, id) != Inode(b, p)
  {}

  lemma ReplacedHasNoChildren(b: Fs, p: string, cs: seq<string>, t: Fs, id: string, w: string)
    requires Expandable(b, p, cs) && Replaced(b, p, cs, t)
    ensures Typed(t) && !ChildOf(t, id, w)
  {}

  lemma ReplacedIsClean(b: Fs, p: string, cs: seq<string>, t: Fs)
    requires Expandable(b, p, cs) && Replaced(b, p, cs, t)
    ensures Clean(t)
  {
    ReplacedMessage(b, p, cs, t, p);
    forall d, a
      ensures !ChildOf(t, d, a)
    {
      ReplacedHasNoChildren(b, p, cs, t, d, a);
    }
    forall a, c | SameInode(t, a, c)
      ensures -1 <= Level(t, a) - Level(t, c) <= 1
    {
      ReplacedMessage(b, p, cs, t, a);
      ReplacedMessage(b, p, cs, t, c);
      assert a !in cs && c !in cs ==> SameInode(b, a, c);
    }
    forall n | n in t
      ensures Kept(t, n)
    {
      if n.dir == Fast && n.id !in cs {
        assert n in Recover(b);
      }
    }
  }

  /** A Dfile whose Efile is gone is the only thing that recovery still has to remove. */
  lemma StrandedRecovers(t: Fs, s: Fs, id: string)
    requires Clean(t) && Typed(s) && t == s - {Name(Fast, DFile, id)}
    requires Name(Fast, EFile, id) !in s
    ensures Paired(s) && Families(s) && Recover(s) == t
  {}

  /** A crash after the commit point leaves exactly the children, and recovering again changes nothing. */
  lemma CommittedRecovers(b: Fs, p: string, cs: seq<string>, s: Fs)
    requires Expandable(b, p, cs) && Committed(b, p, cs, s)
    ensures Typed(s) && Paired(s) && Families(s)
    ensures Recover(s) == s - {Name(Fast, DFile, p)} && Replaced(b, p, cs, Recover(s)) && Clean(Recover(s))
  {
    var t := s - {Name(Fast, DFile, p)};
    ReplacedIsClean(b, p, cs, t);
    forall n | n in s
      ensures n.prefix == DFile <==> s[n].Data?
    {
      assert n == Name(Fast, DFile, p) || n in t;
    }
    StrandedRecovers(t, s, p);
  }
}
