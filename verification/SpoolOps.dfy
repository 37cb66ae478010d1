/** The file operations of envelope.c and the commit of an expansion, one system call at a time.
  *
  * Any call can fail.  `trace` records the spool after every call that changed it: a crash leaves one of the
  * recorded states behind.
  */
module SpoolOps {
  import opened Spool

  /** The parts of `struct envelope` that the file operations read and write. */
  class Envelope {
    const id: string
    var dir: Dir
    var level: int
    var efile: bool
    var dfile: bool
    var doomed: bool // ENV_FLAG_DELETE
    var ino: nat     // e_dinode

    constructor (id: string, dir: Dir, level: int)
      ensures this.id == id && this.dir == dir && this.level == level && !efile && !dfile && !doomed
    {
      this.id, this.dir, this.level, this.ino := id, dir, level, 0;
      this.efile, this.dfile, this.doomed := false, false, false;
    }

    function E(): Name reads this { Name(dir, EFile, id) }
    function D(): Name reads this { Name(dir, DFile, id) }
    function T(): Name reads this { Name(dir, TFile, id) }
  }

  /** The Efiles in the fast directory, which `simta_fast_files` counts. */
  ghost function FastEfiles(fs: Fs): set<Name> {
    set n | n in fs && n.dir == Fast && n.prefix == EFile
  }

  class Disk {
    var fs: Fs
    var fastFiles: int
    ghost var trace: seq<Fs>
    ghost var faults: nat // system calls that failed although their arguments were right

    /** How far the counter is off; every operation below leaves this unchanged. */
    ghost function Drift(): int
      reads this
    {
      fastFiles - |FastEfiles(fs)|
    }

    /** A step that found `n` faults before it went as intended, or another fault explains why not. */
    ghost predicate Faulty(n: nat, intended: bool)
      reads `faults
    {
      n <= faults && (n < faults || intended)
    }

    /** A call that changes no name: a write, a close, utime. */
    method Other() returns (ok: bool)
      modifies `faults
      ensures Faulty(old(faults), ok)
    {
      var fault: bool := *;
      if fault {
        faults := faults + 1;
      }
      return !fault;
    }

    method Link(from: Name, to: Name) returns (ok: bool)
      modifies `fs, `trace, `faults
      ensures ok ==> from in old(fs) && to !in old(fs) && fs == old(fs)[to := old(fs)[from]]
      ensures !ok ==> fs == old(fs)
      ensures Faulty(old(faults), ok || !(from in old(fs) && to !in old(fs)))
      ensures trace == old(trace) + if ok then [fs] else []
    {
      var fault: bool := *;
      if from !in fs || to in fs { return false; }
      if fault {
        faults := faults + 1;
        return false;
      }
      fs := fs[to := fs[from]];
      trace := trace + [fs];
      return true;
    }

    method Unlink(n: Name) returns (ok: bool)
      modifies `fs, `trace, `faults
      ensures ok ==> n in old(fs)
      ensures fs == if ok then old(fs) - {n} else old(fs)
      ensures Faulty(old(faults), ok || !(n in old(fs)))
      ensures trace == old(trace) + if ok then [fs] else []
    {
      var fault: bool := *;
      if n !in fs { return false; }
      if fault {
        faults := faults + 1;
        return false;
      }
      fs := fs - {n};
      trace := trace + [fs];
      return true;
    }

    /** `linked` is st_nlink > 1: another name in the spool, or one outside it. */
    method Stat(n: Name) returns (ok: bool, ino: nat, linked: bool)
      requires n in fs ==> fs[n].Data?
      modifies `faults
      ensures Faulty(old(faults), ok || n !in fs)
      ensures ok ==> n in fs && ino == fs[n].ino
      ensures ok && !linked ==> forall m :: m in fs && fs[m] == fs[n] ==> m == n
    {
      ino, linked := 0, false;
      ok := Other();
      if !ok || n !in fs { return false, 0, false; }
      var elsewhere: bool := *;
      ino, linked := fs[n].ino, elsewhere || exists m :: m in fs && m != n && fs[m] == fs[n];
    }

    /** open with O_CREAT | O_EXCL; what is written afterwards is part of the file. */
    method Create(n: Name, content: File) returns (ok: bool)
      modifies `fs, `trace, `faults
      ensures ok ==> n !in old(fs)
      ensures fs == if ok then old(fs)[n := content] else old(fs)
      ensures Faulty(old(faults), ok || !(n !in old(fs)))
      ensures trace == old(trace) + if ok then [fs] else []
    {
      var fault: bool := *;
      if n in fs { return false; }
      if fault {
        faults := faults + 1;
        return false;
      }
      fs := fs[n := content];
      trace := trace + [fs];
      return true;
    }

    method Rename(from: Name, to: Name) returns (ok: bool)
      requires from != to
      modifies `fs, `trace, `faults
      ensures ok ==> from in old(fs) && fs == (old(fs) - {from})[to := old(fs)[from]]
      ensures !ok ==> fs == old(fs)
      ensures Faulty(old(faults), ok || !(from in old(fs)))
      ensures trace == old(trace) + if ok then [fs] else []
    {
      var fault: bool := *;
      if from !in fs { return false; }
      if fault {
        faults := faults + 1;
        return false;
      }
      fs := (fs - {from})[to := fs[from]];
      trace := trace + [fs];
      return true;
    }

    /** The states recorded since the trace was `before` all satisfy one of four descriptions. */
    ghost predicate Recorded(before: seq<Fs>, a: Fs, b: Fs, c: Fs)
      reads `trace
    {
      before <= trace && forall k :: |before| <= k < |trace| ==> trace[k] == a || trace[k] == b || trace[k] == c
    }

    /** envelope.c:510-642: the envelope is written to a tfile that must not exist yet. */
    method EnvTfile(e: Envelope) returns (ok: bool)
      modifies `fs, `trace, `faults
      ensures Faulty(old(faults), ok || e.T() in old(fs))
      ensures !ok && faults <= old(faults) + 1 ==> fs == old(fs)
      ensures ok ==> e.T() !in old(fs) && fs == old(fs)[e.T() := Env(e.level)]
      ensures fs == old(fs) || (e.T() !in old(fs) && fs == old(fs)[e.T() := Env(e.level)])
      ensures Recorded(old(trace), old(fs), old(fs)[e.T() := Env(e.level)], old(fs))
    {
      var t := e.T();
      ok := Create(t, Env(e.level));
      if !ok { return false; }
      ok := Other();
      if !ok {
        var _ := Unlink(t);
        assert fs != old(fs) ==> fs == old(fs)[t := Env(e.level)];
      }
    }

    /** envelope.c:695-722 */
    method EnvEfile(e: Envelope) returns (ok: bool)
      modifies `fs, `trace, `faults, `fastFiles, e`efile
      ensures Faulty(old(faults), ok || e.T() !in old(fs))
      ensures !ok && faults <= old(faults) + 1 ==> e.T() !in fs
      ensures ok ==> e.T() in old(fs) && fs == (old(fs) - {e.T()})[e.E() := old(fs)[e.T()]]
      ensures !ok ==> fs == old(fs) || fs == old(fs) - {e.T()}
      ensures e.efile == (old(e.efile) || ok)
      ensures Drift() == old(Drift()) + if ok && e.dir == Fast && e.E() in old(fs) then 1 else 0
      ensures trace == old(trace) + if fs == old(fs) then [] else [fs]
    {
      ok := Rename(e.T(), e.E());
      if !ok {
        var _ := Unlink(e.T());
        FastEfilesMinus(old(fs), e.T());
        return false;
      }
      FastEfilesMinus(old(fs), e.T());
      FastEfilesPlus(old(fs) - {e.T()}, e.E(), old(fs)[e.T()]);
      if e.dir == Fast {
        fastFiles := fastFiles + 1;
      }
      e.efile := true;
    }

    /** envelope.c:454-468; no tfile is left over from an earlier attempt of this process. */
    method EnvOutfile(e: Envelope) returns (ok: bool)
      modifies `fs, `trace, `faults, `fastFiles, e`efile
      ensures Faulty(old(faults), ok || e.T() in old(fs))
      ensures !ok && faults <= old(faults) + 1 ==> fs == old(fs)
      ensures ok ==> e.T() !in old(fs) && fs == old(fs)[e.E() := Env(e.level)]
      ensures !ok ==> fs == old(fs) || (e.T() !in old(fs) && fs == old(fs)[e.T() := Env(e.level)])
      ensures e.efile == (old(e.efile) || ok)
      ensures Drift() == old(Drift()) + if ok && e.dir == Fast && e.E() in old(fs) then 1 else 0
      ensures Recorded(old(trace), old(fs), old(fs)[e.T() := Env(e.level)], old(fs)[e.E() := Env(e.level)])
    {
      ghost var c := Env(e.level);
      FastEfilesPlus(old(fs), e.T(), c);
      ok := EnvTfile(e);
      if !ok { return false; }
      ok := EnvEfile(e);
      assert old(fs)[e.T() := c] - {e.T()} == old(fs);
    }

    /** The link is taken back when the envelope could not be written. */
    method DropLink(e: Envelope, ghost f: Fs, ghost text: Name)
      requires text in f && NoFiles(f, e.dir, e.id) && e.E() !in fs && e.D() in fs
      requires NewState(f, text, e.dir, e.id, e.level, fs)
      modifies `fs, `trace, `faults, `fastFiles
      ensures NewState(f, text, e.dir, e.id, e.level, fs) && e.E() !in fs
      ensures Faulty(old(faults), old(fs) == f[e.D() := f[text]] ==> fs == f)
      ensures Drift() == old(Drift())
      ensures old(trace) <= trace && forall k :: |old(trace)| <= k < |trace| ==>
          NewState(f, text, e.dir, e.id, e.level, trace[k])
    {
      FastEfilesMinus(fs, e.D());
      assert f[e.D() := f[text]] - {e.D()} == f;
      assert f[e.D() := f[text]][e.T() := Env(e.level)] - {e.D()} == f[e.T() := Env(e.level)];
      var _ := Unlink(e.D());
    }

    /** expand.c:506-544: a new message gets a link to the Dfile `text`, and its envelope is written; if that fails, the
      * link goes again.
      */
    method WriteNew(text: Name, e: Envelope) returns (ok: bool)
      requires NoFiles(fs, e.dir, e.id)
      modifies `fs, `trace, `faults, `fastFiles, e`efile
      ensures Faulty(old(faults), ok || text !in old(fs))
      ensures ok ==> text in old(fs) && fs == Added(old(fs), text, e.dir, e.id, e.level)
      ensures NewState(old(fs), text, e.dir, e.id, e.level, fs) && (!ok ==> e.E() !in fs)
      ensures !ok && faults <= old(faults) + 1 ==> fs == old(fs)
      ensures e.efile == (old(e.efile) || ok)
      ensures Drift() == old(Drift())
      ensures old(trace) <= trace && forall k :: |old(trace)| <= k < |trace| ==>
          NewState(old(fs), text, e.dir, e.id, e.level, trace[k])
    {
      ghost var f := fs;
      ok := Link(text, e.D());
      if !ok { return; }
      FastEfilesPlus(f, e.D(), f[text]);
      ok := EnvOutfile(e);
      if !ok {
        DropLink(e, f, text);
      }
    }

    /** queue.c:1344-1362: the Efile of a message is replaced; the counter is corrected for the file that went. */
    method Rewrite(e: Envelope) returns (ok: bool)
      requires e.dir == Fast ==> e.E() in fs
      modifies `fs, `trace, `faults, `fastFiles, e`efile
      ensures ok ==> fs == old(fs)[e.E() := Env(e.level)]
      ensures !ok ==> fs == old(fs) || (e.T() !in old(fs) && fs == old(fs)[e.T() := Env(e.level)])
      ensures Faulty(old(faults), ok || e.T() in old(fs))
      ensures Drift() == old(Drift())
      ensures Recorded(old(trace), old(fs), old(fs)[e.T() := Env(e.level)], old(fs)[e.E() := Env(e.level)])
    {
      ok := EnvOutfile(e);
      if ok && e.dir == Fast {
        fastFiles := fastFiles - 1;
      }
    }

    /** envelope.c:1218-1243: the Efile goes first; a Dfile that cannot be removed is only logged. */
    method EnvUnlink(e: Envelope) returns (ok: bool)
      modifies `fs, `trace, `faults, `fastFiles, e`efile
      ensures Faulty(old(faults), if ok then e.D() !in fs else e.E() !in old(fs))
      ensures ok ==> e.E() in old(fs) && (fs == old(fs) - {e.E()} || fs == old(fs) - {e.E()} - {e.D()})
      ensures !ok ==> fs == old(fs) && trace == old(trace)
      ensures e.efile == (old(e.efile) && !ok)
      ensures Drift() == old(Drift())
      ensures Recorded(old(trace), old(fs), old(fs) - {e.E()}, old(fs) - {e.E()} - {e.D()})
    {
      FastEfilesMinus(old(fs), e.E());
      FastEfilesMinus(old(fs) - {e.E()}, e.D());
      ok := Unlink(e.E());
      if !ok { return false; }
      e.efile := false;
      if e.dir == Fast {
        fastFiles := fastFiles - 1;
      }
      var _ := Unlink(e.D());
    }

    /** envelope.c:1265-1284: both files appear in the target directory, or neither stays if possible. */
    method LinkPair(e: Envelope, target: Dir) returns (ok: bool)
      requires e.dir != target
      modifies `fs, `trace, `faults, `fastFiles
      ensures Faulty(old(faults), ok || !Movable(old(fs), e.id, e.dir, target))
      ensures !ok && faults <= old(faults) + 1 && Movable(old(fs), e.id, e.dir, target) ==> fs == old(fs)
      ensures ok ==>
          Complete(old(fs), e.dir, e.id) && Name(target, DFile, e.id) !in old(fs)
          && Name(target, EFile, e.id) !in old(fs)
      ensures ok ==> fs == Both(old(fs), e.id, e.dir, target)
      ensures !ok ==> fs == old(fs) || OnlyDfile(old(fs), e.id, e.dir, target, fs)
      ensures Drift() == old(Drift())
      ensures old(trace) <= trace && forall k :: |old(trace)| <= k < |trace| ==>
          MoveState(old(fs), e.id, e.dir, target, trace[k])
    {
      ghost var f0 := fs;
      var eNew, dNew := Name(target, EFile, e.id), Name(target, DFile, e.id);
      ok := Link(e.D(), dNew);
      if !ok { return false; }
      ghost var f1 := fs;
      FastEfilesPlus(f0, dNew, f0[e.D()]);
      ok := Link(e.E(), eNew);
      if !ok {
        var _ := Unlink(dNew);
        assert f1 - {dNew} == f0;
        return false;
      }
      FastEfilesPlus(f1, eNew, f1[e.E()]);
      if target == Fast {
        fastFiles := fastFiles + 1;
      }
    }

    /** envelope.c:1286-1300: the links of LinkPair are taken back, as far as the calls succeed. */
    method UnlinkPair(e: Envelope, target: Dir, ghost f0: Fs)
      requires e.dir != target && Complete(f0, e.dir, e.id)
      requires Name(target, DFile, e.id) !in f0 && Name(target, EFile, e.id) !in f0
      requires fs == Both(f0, e.id, e.dir, target)
      modifies `fs, `trace, `faults, `fastFiles
      ensures Faulty(old(faults), fs == f0)
      ensures MoveState(f0, e.id, e.dir, target, fs) && e.E() in fs && e.D() in fs
      ensures Drift() == old(Drift())
      ensures old(trace) <= trace && forall k :: |old(trace)| <= k < |trace| ==>
          MoveState(f0, e.id, e.dir, target, trace[k])
    {
      var eNew, dNew := Name(target, EFile, e.id), Name(target, DFile, e.id);
      FastEfilesMinus(fs, eNew);
      FastEfilesMinus(fs - {eNew}, dNew);
      ghost var f1 := f0[dNew := f0[e.D()]];
      assert fs - {eNew} == f1 && f1 - {dNew} == f0;
      var undone := Unlink(eNew);
      if undone {
        if target == Fast {
          fastFiles := fastFiles - 1;
        }
        var _ := Unlink(dNew);
      }
    }

    /** envelope.c:1246-1310 */
    method EnvMove(e: Envelope, target: Dir) returns (ok: bool)
      modifies `fs, `trace, `faults, `fastFiles, e`efile, e`dir
      ensures Faulty(old(faults), Movable(old(fs), e.id, old(e.dir), target) ==>
                                    ok && fs == Both(old(fs), e.id, old(e.dir), target) - {old(e.E()), old(e.D())})
      ensures !ok && faults <= old(faults) + 1 && Movable(old(fs), e.id, old(e.dir), target) ==> fs == old(fs)
      ensures !Movable(old(fs), e.id, old(e.dir), target) ==>
          fs == old(fs) || OnlyDfile(old(fs), e.id, old(e.dir), target, fs)
      ensures e.dir == if ok then target else old(e.dir)
      ensures old(e.dir) == target ==> ok && fs == old(fs) && trace == old(trace)
      ensures old(e.dir) != target ==> MoveState(old(fs), e.id, old(e.dir), target, fs)
      ensures old(e.dir) != target && ok ==>
          Complete(old(fs), old(e.dir), e.id) && Complete(fs, target, e.id) && old(e.E()) !in fs
      ensures !ok && Complete(old(fs), old(e.dir), e.id) ==> Complete(fs, e.dir, e.id)
      ensures Drift() == old(Drift())
      ensures old(trace) <= trace && forall k :: |old(trace)| <= k < |trace| ==>
          MoveState(old(fs), e.id, old(e.dir), target, trace[k])
    {
      if e.dir == target { return true; }
      ok := LinkPair(e, target);
      if !ok { return false; }
      label Linked:
      ok := EnvUnlink(e);
      if !ok {
        assert e.E() in old@Linked(fs);
        UnlinkPair(e, target, old(fs));
        return false;
      }
      e.dir := target;
      e.efile := true;
    }
  }

  /** No file has this id yet. */
  ghost predicate NoFiles(f: Fs, dir: Dir, id: string) {
    Name(dir, DFile, id) !in f && Name(dir, EFile, id) !in f && Name(dir, TFile, id) !in f
  }

  /** A message with a link to the text and its envelope is added. */
  ghost function Added(f: Fs, text: Name, dir: Dir, id: string, level: int): Fs
    requires text in f
  {
    f[Name(dir, DFile, id) := f[text]][Name(dir, EFile, id) := Env(level)]
  }

  /** The states of writing a new message: nothing, the link, the link and the tfile, the tfile left alone, or all. */
  ghost predicate NewState(f: Fs, text: Name, dir: Dir, id: string, level: int, s: Fs) {
    var d, t := Name(dir, DFile, id), Name(dir, TFile, id);
    s == f || (text in f && (s == f[d := f[text]] || s == f[d := f[text]][t := Env(level)] || s == f[t := Env(level)]
                             || s == Added(f, text, dir, id, level)))
  }

  ghost predicate Movable(f: Fs, id: string, from: Dir, to: Dir) {
    Complete(f, from, id) && Name(to, DFile, id) !in f && Name(to, EFile, id) !in f
  }

  ghost function Both(f: Fs, id: string, from: Dir, to: Dir): Fs
    requires Complete(f, from, id)
  {
    f[Name(to, DFile, id) := f[Name(from, DFile, id)]][Name(to, EFile, id) := f[Name(from, EFile, id)]]
  }

  ghost predicate OnlyDfile(f: Fs, id: string, from: Dir, to: Dir, s: Fs) {
    Name(from, DFile, id) in f && Name(to, DFile, id) !in f && s == f[Name(to, DFile, id) := f[Name(from, DFile, id)]]
  }

  /** The states a move goes through: the new Dfile, the new Efile, the old Efile gone, the old Dfile gone. */
  ghost predicate MoveState(f: Fs, id: string, from: Dir, to: Dir, s: Fs) {
    var dOld, eOld := Name(from, DFile, id), Name(from, EFile, id);
    || s == f
    || OnlyDfile(f, id, from, to, s)
    || (Complete(f, from, id) && Name(to, DFile, id) !in f && Name(to, EFile, id) !in f
        && (var both := Both(f, id, from, to);
            s == both || s == both - {eOld} || s == both - {eOld} - {dOld}))
  }

  /** At every system call boundary of a move the message is complete in the old or the new directory, and
    * nothing but its own four names changes.
    */
  lemma MovingStaysComplete(f: Fs, id: string, from: Dir, to: Dir, s: Fs)
    requires from != to && Typed(f) && Paired(f) && Complete(f, from, id) && MoveState(f, id, from, to, s)
    ensures Typed(s) && Paired(s) && (Complete(s, from, id) || Complete(s, to, id))
    ensures forall n: Name :: n.id != id || (n.dir != from && n.dir != to) ==>
        (n in s <==> n in f) && (n in f ==> s[n] == f[n])
  {}

  lemma FastEfilesPlus(fs: Fs, n: Name, f: File)
    ensures |FastEfiles(fs[n := f])| == |FastEfiles(fs)| + if n.dir == Fast && n.prefix == EFile && n !in fs
        then 1 else 0
  {
    var a, b := FastEfiles(fs), FastEfiles(fs[n := f]);
    if n.dir == Fast && n.prefix == EFile && n !in fs {
      assert b == a + {n};
    } else {
      assert b == a;
    }
  }

  lemma FastEfilesMinus(fs: Fs, n: Name)
    ensures |FastEfiles(fs - {n})| == |FastEfiles(fs)| - if n.dir == Fast && n.prefix == EFile && n in fs then 1 else 0
  {
    var a, b := FastEfiles(fs), FastEfiles(fs - {n});
    if n.dir == Fast && n.prefix == EFile && n in fs {
      assert b == a - {n};
    } else {
      assert b == a;
    }
  }
}
