/** What the counter of fast files is good for: while no system call fails, the Efiles in the fast directory are
  * those of the messages that the process holds.  Every state that a run records can be started from.
  */
module SpoolCount {
  import opened Spool
  import opened SpoolOps

  /** How a message ends for the process, other than in the slow directory: it is settled and deleted, replaced by the
    * messages it expands to, or left in the local directory because it cannot be read.
    */
  datatype Fate = Settled | Expanded | Unread

  /** The ids of the messages that the process holds, in the fast directory and in the local one.  `safe` are those that
    * it has found complete or written, and has not deleted; `fate` says what became of the others.
    */
  datatype Held = Held(fast: set<string>, local: set<string>, safe: set<string>, fate: map<string, Fate>)
  {
    /** The message is in the fast directory. */
    function With(id: string): Held {
      this.(fast := fast + {id}, local := local - {id}, safe := safe + {id})
    }

    /** It is in the slow directory, and no concern of the process any more. */
    function Away(id: string): Held {
      this.(fast := fast - {id}, local := local - {id})
    }

    /** It is deleted. */
    function Gone(id: string): Held {
      this.(fast := fast - {id}, local := local - {id}, safe := safe - {id})
    }

    /** The same, and why. */
    function Ended(id: string, f: Fate): Held {
      Gone(id).(fate := fate[id := f])
    }

    /** Where a message that is safe has to be. */
    ghost function Where(id: string): Dir {
      if id in fast then Fast else if id in local then Local else Slow
    }

    /** No message is lost: what was safe is safe, or has met its fate. */
    ghost predicate Keeps(before: Held) {
      && (forall id :: id in before.safe ==> id in safe || id in fate)
      && (forall id :: id in before.fate ==> id in fate)
    }

    /** Of what was safe nothing is given up but the messages of the process itself in `own`, and nothing has met its
      * fate.
      */
    ghost predicate Spares(before: Held, own: set<string>) {
      before.safe <= safe + own && fate == before.fate
    }
  }

  /** Where a run begins: the calls that have failed, and the states that have been recorded. */
  datatype Start = Start(faults: nat, states: nat)

  /** Every message that is held has its Efile.  Without faults nothing else has one, nothing is in the way of moving a
    * held message to the slow directory, and what is safe is complete where it has to be.
    */
  ghost predicate Conserves(fs: Fs, held: Held, clean: bool) {
    && (forall id :: id in held.fast ==> Name(Fast, EFile, id) in fs && (clean ==> Movable(fs, id, Fast, Slow)))
    && (clean ==> forall n :: n in fs && n.dir == Fast && n.prefix == EFile ==> n.id in held.fast)
    && (forall n :: n in fs && n.dir == Slow ==> n.id !in held.local)
    && (clean ==> forall id :: id in held.safe ==> Complete(fs, held.Where(id), id))
  }

  /** Files have their types, and every Efile has its Dfile: a start-up can make sense of the spool. */
  ghost predicate InShape(fs: Fs) {
    Typed(fs) && Paired(fs)
  }

  ghost predicate Startable(trace: seq<Fs>, from: nat) {
    from <= |trace| && forall k :: from <= k < |trace| ==> InShape(trace[k])
  }

  ghost predicate Sound(d: Disk, held: Held, start: Start)
    reads d
  {
    && d.Drift() == 0 && start.faults <= d.faults && Conserves(d.fs, held, d.faults == start.faults)
    && InShape(d.fs) && Startable(d.trace, start.states)
  }

  /** Only files of this id differ. */
  ghost predicate Only(f: Fs, s: Fs, id: string) {
    forall n :: n in f || n in s ==> n.id == id || (n in f && n in s && f[n] == s[n])
  }

  lemma OnlyMoves(f: Fs, id: string, from: Dir, to: Dir, s: Fs)
    requires MoveState(f, id, from, to, s)
    ensures Only(f, s, id)
  {}

  lemma OthersConserved(f: Fs, s: Fs, id: string, held: Held, clean: bool)
    requires Conserves(f, held, clean) && Only(f, s, id)
    requires clean ==> Name(Fast, EFile, id) !in s
    ensures Conserves(s, held.Gone(id), clean)
  {}

  /** The message has moved to the slow directory. */
  lemma AwayConserved(f: Fs, s: Fs, id: string, held: Held, clean: bool)
    requires Conserves(f, held, clean) && Only(f, s, id)
    requires clean ==> Name(Fast, EFile, id) !in s && (id in held.safe ==> Complete(s, Slow, id))
    ensures Conserves(s, held.Away(id), clean)
  {
    OthersConserved(f, s, id, held, clean);
  }

  lemma OneConserved(f: Fs, s: Fs, id: string, held: Held, clean: bool)
    requires Conserves(f, held, clean) && Only(f, s, id)
    requires Name(Fast, EFile, id) in s && (clean ==> Movable(s, id, Fast, Slow))
    ensures Conserves(s, held.With(id), clean)
  {}

  lemma StillConserved(f: Fs, s: Fs, id: string, held: Held, clean: bool)
    requires Conserves(f, held, clean) && Only(f, s, id) && id in held.fast
    requires Name(Fast, EFile, id) in s && (clean ==> Movable(s, id, Fast, Slow))
    requires id in held.local ==> forall n :: n in s && n.dir == Slow && n.id == id ==> n in f
    ensures Conserves(s, held, clean)
  {}

  /** A message that is not in the fast directory is forgotten; its files stay. */
  lemma UnheldIsSound(d: Disk, held: Held, id: string, start: Start)
    requires Sound(d, held, start) && id !in held.fast
    ensures Sound(d, held.Gone(id), start)
    ensures id !in held.local ==> Sound(d, held.Away(id), start)
  {}

  /** The message was not in the fast directory, and is not now. */
  lemma RestConserved(f: Fs, s: Fs, id: string, held: Held, clean: bool)
    requires Conserves(f, held, clean) && Only(f, s, id) && id !in held.fast
    requires clean ==> Name(Fast, EFile, id) !in s
    requires id in held.local ==> forall n :: n in s && n.dir == Slow && n.id == id ==> n in f
    requires clean && id in held.safe ==> Complete(s, held.Where(id), id)
    ensures Conserves(s, held, clean)
  {}

  lemma RemovedInShape(f: Fs, e: Name, d: Name)
    requires InShape(f) && e.prefix == EFile && d == Name(e.dir, DFile, e.id)
    ensures InShape(f - {e}) && InShape(f - {e} - {d})
  {}

  lemma WrittenInShape(f: Fs, d: Name, level: int)
    requires InShape(f) && d in f && d.prefix == DFile
    ensures InShape(f[Name(d.dir, TFile, d.id) := Env(level)]) && InShape(f[Name(d.dir, EFile, d.id) := Env(level)])
  {}

  lemma MovedInShape(f: Fs, id: string, from: Dir, to: Dir, s: Fs)
    requires InShape(f) && from != to && MoveState(f, id, from, to, s)
    ensures InShape(s)
  {}

  lemma AddedInShape(f: Fs, text: Name, dir: Dir, id: string, level: int, s: Fs)
    requires InShape(f) && text.prefix == DFile && NoFiles(f, dir, id) && NewState(f, text, dir, id, level, s)
    ensures InShape(s)
  {}

  /** env_move to the slow directory: the message is not held any more, and if it stays behind, there is a fault. */
  method MoveOut(d: Disk, e: Envelope, ghost held: Held, ghost start: Start)
    requires Sound(d, held, start) && e.dir in {Fast, Local}
    requires (e.dir == Fast || (e.id in held.local && e.id !in held.fast))
    requires e.dir == Fast ==> e.id in held.fast || e.id !in held.safe
    modifies d`fs, d`trace, d`faults, d`fastFiles, e`efile, e`dir
    ensures Sound(d, held.Away(e.id), start) && e.dir in {old(e.dir), Slow} && d.faults >= old(d.faults)
  {
    ghost var f, dir := d.fs, e.dir;
    forall s | MoveState(f, e.id, dir, Slow, s)
      ensures InShape(s)
    {
      MovedInShape(f, e.id, dir, Slow, s);
    }
    var _ := d.EnvMove(e, Slow);
    OnlyMoves(f, e.id, dir, Slow, d.fs);
    ghost var now := d.faults == start.faults;
    assert Conserves(f, held, now);
    assert now && Movable(f, e.id, Fast, Slow) && dir == Fast ==> Name(Fast, EFile, e.id) !in d.fs;
    assert now && e.id !in held.fast ==> Name(Fast, EFile, e.id) !in f;
    AwayConserved(f, d.fs, e.id, held, now);
  }

  /** env_move to the fast directory (queue.c:417-420). */
  method MoveIn(d: Disk, e: Envelope, ghost held: Held, ghost start: Start) returns (ok: bool)
    requires Sound(d, held, start) && e.dir in {Slow, Local} && e.id !in held.fast
    requires (e.dir == Local <==> e.id in held.local)
    modifies d`fs, d`trace, d`faults, d`fastFiles, e`efile, e`dir
    ensures e.dir == if ok then Fast else old(e.dir)
    ensures Sound(d, if ok then held.With(e.id) else held, start)
    ensures d.Faulty(old(d.faults), Movable(old(d.fs), e.id, old(e.dir), Fast) ==> ok)
  {
    ghost var f, dir := d.fs, e.dir;
    forall s | MoveState(f, e.id, dir, Fast, s)
      ensures InShape(s)
    {
      MovedInShape(f, e.id, dir, Fast, s);
    }
    ok := d.EnvMove(e, Fast);
    OnlyMoves(f, e.id, dir, Fast, d.fs);
    ghost var now := d.faults == start.faults;
    assert Conserves(f, held, now);
    if ok {
      OneConserved(f, d.fs, e.id, held, now);
    } else {
      assert now ==> Name(Fast, EFile, e.id) !in f;
      RestConserved(f, d.fs, e.id, held, now);
    }
  }

  /** env_unlink (envelope.c:1218-1243). */
  method Discard(d: Disk, e: Envelope, ghost held: Held, ghost start: Start) returns (ok: bool)
    requires Sound(d, held, start) && (e.dir != Fast ==> e.id !in held.fast)
    modifies d`fs, d`trace, d`faults, d`fastFiles, e`efile
    ensures Sound(d, held.Gone(e.id), start) && (!ok ==> Sound(d, held, start)) && Only(old(d.fs), d.fs, e.id)
    ensures d.Faulty(old(d.faults), ok || e.E() !in old(d.fs))
  {
    ghost var f := d.fs;
    RemovedInShape(f, e.E(), e.D());
    ok := d.EnvUnlink(e);
    ghost var now := d.faults == start.faults;
    assert Conserves(f, held, now);
    assert Only(f, d.fs, e.id);
    if e.dir != Fast {
      assert now ==> Name(Fast, EFile, e.id) !in f;
    }
    OthersConserved(f, d.fs, e.id, held, now);
  }

  method DiscardDead(d: Disk, e: Envelope, ghost held: Held, ghost start: Start)
    requires Sound(d, held, start) && e.dir == Dead
    modifies d`fs, d`trace, d`faults, d`fastFiles, e`efile
    ensures Sound(d, held, start) && d.faults >= old(d.faults)
  {
    ghost var f := d.fs;
    RemovedInShape(f, e.E(), e.D());
    var _ := d.EnvUnlink(e);
    assert forall n: Name :: n.dir != Dead ==> (n in f <==> n in d.fs);
    assert Conserves(f, held, d.faults == start.faults);
  }

  /** queue.c:1344-1362, with the Dfile open. */
  method Replace(d: Disk, e: Envelope, ghost held: Held, ghost start: Start) returns (ok: bool)
    requires Sound(d, held, start) && (e.dir == Fast <==> e.id in held.fast) && (e.dir == Local <==> e.id in held.local)
    requires e.D() in d.fs
    modifies d`fs, d`trace, d`faults, d`fastFiles, e`efile
    ensures Sound(d, held, start) && Only(old(d.fs), d.fs, e.id) && d.faults >= old(d.faults)
  {
    ghost var f := d.fs;
    WrittenInShape(f, e.D(), e.level);
    ok := d.Rewrite(e);
    ghost var now := d.faults == start.faults;
    assert Conserves(f, held, now);
    assert Only(f, d.fs, e.id);
    if e.dir == Fast {
      StillConserved(f, d.fs, e.id, held, now);
    } else {
      assert now ==> Name(Fast, EFile, e.id) !in f;
      RestConserved(f, d.fs, e.id, held, now);
    }
  }

  /** Nothing has this id yet: ids are made of the time and the process number (envelope.c:178-192). */
  ghost predicate Vacant(fs: Fs, id: string) {
    forall n :: n in fs ==> n.id != id
  }

  lemma VacantIsFree(fs: Fs, id: string, held: Held, clean: bool)
    requires Conserves(fs, held, clean) && Vacant(fs, id)
    ensures id !in held.fast
  {}

  /** Of the message `e` only the Dfile is there; `f` is the spool without it. */
  ghost predicate Begun(d: Disk, e: Envelope, f: Fs, held: Held, start: Start)
    reads d, e
  {
    && d.Drift() == 0 && start.faults <= d.faults && Conserves(f, held, d.faults == start.faults)
    && InShape(d.fs) && Startable(d.trace, start.states) && e.id !in held.local
    && Only(f, d.fs, e.id) && Vacant(f, e.id) && e.D() in d.fs && e.dir in {Fast, Dead}
    && forall n :: n in d.fs && n.id == e.id ==> n == e.D()
  }

  method DropText(d: Disk, e: Envelope, ghost f: Fs, ghost held: Held, ghost start: Start)
    requires d.Drift() == 0 && start.faults <= d.faults && Conserves(f, held, d.faults == start.faults)
    requires InShape(d.fs) && Startable(d.trace, start.states) && e.id !in held.local
    requires Only(f, d.fs, e.id) && Vacant(f, e.id) && e.E() !in d.fs && e.dir in {Fast, Dead}
    requires forall n :: n in d.fs && n.id == e.id ==> n.dir == e.dir
    modifies d`fs, d`trace, d`faults, d`fastFiles
    ensures Sound(d, held, start) && Only(f, d.fs, e.id) && d.faults >= old(d.faults)
  {
    FastEfilesMinus(d.fs, e.D());
    VacantIsFree(f, e.id, held, d.faults == start.faults);
    var _ := d.Unlink(e.D());
    RestConserved(f, d.fs, e.id, held, d.faults == start.faults);
  }

  /** The Efile of a message whose Dfile is there (envelope.c:454-468), or the Dfile goes again. */
  method Finish(d: Disk, e: Envelope, ghost f: Fs, ghost held: Held, ghost start: Start) returns (ok: bool)
    requires Begun(d, e, f, held, start)
    modifies d`fs, d`trace, d`faults, d`fastFiles, e`efile
    ensures Sound(d, if ok && e.dir == Fast then held.With(e.id) else held, start) && Only(f, d.fs, e.id)
    ensures d.Faulty(old(d.faults), ok) && (ok ==> e.E() in d.fs)
  {
    WrittenInShape(d.fs, e.D(), e.level);
    ok := d.EnvOutfile(e);
    ghost var now := d.faults == start.faults;
    assert Conserves(f, held, now);
    if !ok {
      DropText(d, e, f, held, start);
    } else if e.dir == Fast {
      OneConserved(f, d.fs, e.id, held, now);
    } else {
      VacantIsFree(f, e.id, held, now);
      RestConserved(f, d.fs, e.id, held, now);
    }
  }

  /** The files of a bounce (bounce.c:373-520). */
  method WriteBounce(d: Disk, e: Envelope, ghost held: Held, ghost start: Start) returns (ok: bool)
    requires Sound(d, held, start) && Vacant(d.fs, e.id) && e.id !in held.local && e.dir in {Fast, Dead}
    modifies d`fs, d`trace, d`faults, d`fastFiles, e`efile
    ensures Sound(d, if ok && e.dir == Fast then held.With(e.id) else held, start) && Only(old(d.fs), d.fs, e.id)
    ensures d.Faulty(old(d.faults), ok) && (ok ==> e.E() in d.fs)
  {
    ghost var f := d.fs;
    var ino: nat :| true;
    FastEfilesPlus(f, e.D(), Data(ino));
    ok := d.Create(e.D(), Data(ino));
    if !ok { return; }
    ok := d.Other();
    if ok {
      ok := Finish(d, e, f, held, start);
    } else {
      DropText(d, e, f, held, start);
    }
  }

  /** The files of a child of an expansion (expand.c:506-544). */
  method WriteChild(d: Disk, parent: Envelope, e: Envelope, ghost held: Held, ghost start: Start) returns (ok: bool)
    requires Sound(d, held, start) && Vacant(d.fs, e.id) && e.id !in held.local && e.dir == Fast && parent != e
    modifies d`fs, d`trace, d`faults, d`fastFiles, e`efile
    ensures Sound(d, if ok then held.With(e.id) else held, start)
    ensures d.Faulty(old(d.faults), ok || parent.D() !in old(d.fs))
  {
    ghost var f := d.fs;
    forall s | NewState(f, parent.D(), Fast, e.id, e.level, s)
      ensures InShape(s)
    {
      AddedInShape(f, parent.D(), Fast, e.id, e.level, s);
    }
    ok := d.WriteNew(parent.D(), e);
    ghost var now := d.faults == start.faults;
    assert Conserves(f, held, now);
    if ok {
      OneConserved(f, d.fs, e.id, held, now);
    } else {
      VacantIsFree(f, e.id, held, now);
      RestConserved(f, d.fs, e.id, held, now);
    }
  }
}
