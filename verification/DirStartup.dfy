/** Reading a spool directory at startup (q_cleanup.c:167-342). */
module DirStartup {
  import opened Spool
  import opened SpoolOps
  import opened Lists

  // ---------- strcmp ----------

  function StrCmp(a: string, b: string): int {
    if |a| == 0 then if |b| == 0 then 0 else -1
    else if |b| == 0 then 1
    else if a[0] != b[0] then a[0] as int - b[0] as int
    else StrCmp(a[1..], b[1..])
  }

  lemma {:induction false} StrCmpOrders(a: string, b: string)
    ensures StrCmp(a, b) == 0 <==> a == b
    ensures StrCmp(a, b) < 0 <==> StrCmp(b, a) > 0
  {
    if |a| > 0 && |b| > 0 && a[0] == b[0] {
      StrCmpOrders(a[1..], b[1..]);
      assert a == [a[0]] + a[1..] && b == [b[0]] + b[1..];
    }
  }

  lemma {:induction false} StrCmpTransitive(a: string, b: string, c: string)
    requires StrCmp(a, b) < 0 && StrCmp(b, c) < 0
    ensures StrCmp(a, c) < 0
  {
    if |a| > 0 && |b| > 0 && |c| > 0 && a[0] == b[0] == c[0] {
      StrCmpTransitive(a[1..], b[1..], c[1..]);
    }
  }

  /** The first character in which two ids differ decides, and a prefix comes first. */
  lemma {:induction false} FirstDifference(p: string, a: string, b: string)
    requires |a| > 0 && (|b| > 0 ==> a[0] > b[0])
    ensures StrCmp(p + b, p + a) < 0
  {
    if p == "" {
      assert p + a == a && p + b == b;
    } else {
      FirstDifference(p[1..], a, b);
      assert (p + a)[1..] == p[1..] + a && (p + b)[1..] == p[1..] + b;
    }
  }

  // ---------- The sorted message list ----------

  ghost predicate Sorted(ms: seq<Envelope>) {
    forall i, j :: 0 <= i < j < |ms| ==> StrCmp(ms[i].id, ms[j].id) < 0
  }

  ghost predicate Listed(ms: seq<Envelope>, id: string) {
    exists e :: e in ms && e.id == id
  }

  lemma IdsTellApart(ms: seq<Envelope>)
    requires Sorted(ms)
    ensures forall a, b :: a in ms && b in ms && a.id == b.id ==> a == b
  {
    forall i, j | 0 <= i < j < |ms|
      ensures ms[i].id != ms[j].id
    {
      StrCmpOrders(ms[i].id, ms[j].id);
    }
  }

  lemma SortedRemove(ms: seq<Envelope>, k: nat)
    requires Sorted(ms) && k < |ms|
    ensures Sorted(ms[..k] + ms[k + 1..])
    ensures forall e :: e in ms[..k] + ms[k + 1..] <==> e in ms && e != ms[k]
  {
    var r := ms[..k] + ms[k + 1..];
    forall i | 0 <= i < |ms|
      ensures i != k ==> ms[i] != ms[k] && ms[i] in r
    {
      StrCmpOrders(ms[i].id, ms[k].id);
      StrCmpOrders(ms[k].id, ms[i].id);
      assert i < k ==> r[i] == ms[i];
      assert i > k ==> r[i - 1] == ms[i];
    }
  }

  lemma SortedInsert(ms: seq<Envelope>, k: nat, e: Envelope)
    requires Sorted(ms) && k <= |ms|
    requires forall i :: 0 <= i < k ==> StrCmp(ms[i].id, e.id) < 0
    requires k < |ms| ==> StrCmp(e.id, ms[k].id) < 0
    ensures Sorted(ms[..k] + [e] + ms[k..])
    ensures !Listed(ms, e.id)
  {
    forall j | k <= j < |ms|
      ensures StrCmp(e.id, ms[j].id) < 0
    {
      if k < j {
        StrCmpTransitive(e.id, ms[k].id, ms[j].id);
      }
    }
    forall j | 0 <= j < |ms|
      ensures ms[j].id != e.id
    {
      StrCmpOrders(ms[j].id, e.id);
      StrCmpOrders(e.id, ms[j].id);
    }
  }

  /** A directory entry: a spool file, or a name that is none. */
  datatype Entry = Spooled(prefix: Prefix, id: string) | Unknown

  ghost function Entries(listing: seq<Entry>): set<Entry> {
    set e | e in listing
  }

  ghost predicate ListingOf(fs: Fs, dir: Dir, listing: seq<Entry>) {
    && (forall p, id :: Spooled(p, id) in listing <==> Name(dir, p, id) in fs)
    && (forall i, j :: 0 <= i < j < |listing| && listing[i].Spooled? ==> listing[i] != listing[j])
  }

  ghost predicate Flagged(e: Envelope, seen: set<Entry>, dir: Dir)
    reads e
  {
    && e.dir == dir && (e.efile || e.dfile) && !e.doomed
    && (e.efile <==> Spooled(EFile, e.id) in seen)
    && (e.dfile <==> Spooled(DFile, e.id) in seen)
  }

  /** The messages are the ids of the E and D entries, flagged with the entries that are there. */
  ghost predicate Reads(ms: seq<Envelope>, seen: set<Entry>, dir: Dir)
    reads ms
  {
    && Sorted(ms)
    && (forall e :: e in ms ==> Flagged(e, seen, dir))
    && (forall p, id :: Spooled(p, id) in seen && p != TFile ==> Listed(ms, id))
  }

  /** q_cleanup.c:226-243 */
  method FindOrInsert(ms: seq<Envelope>, dir: Dir, id: string) returns (env: Envelope, r: seq<Envelope>)
    requires Sorted(ms)
    ensures Sorted(r) && env.id == id && forall e :: e in r <==> e in ms || e == env
    ensures forall e :: e in ms && e.id == id ==> e == env
    ensures env !in ms ==> fresh(env) && !Listed(ms, id) && env.dir == dir && !env.efile && !env.dfile && !env.doomed
  {
    var k := 0;
    while k < |ms| && StrCmp(id, ms[k].id) > 0
      invariant k <= |ms|
      invariant forall i :: 0 <= i < k ==> StrCmp(ms[i].id, id) < 0
    {
      StrCmpOrders(ms[k].id, id);
      k := k + 1;
    }
    if k == |ms| || StrCmp(id, ms[k].id) != 0 {
      env := new Envelope(id, dir, 0);
      SortedInsert(ms, k, env);
      r := ms[..k] + [env] + ms[k..];
      assert ms == ms[..k] + ms[k..];
    } else {
      env := ms[k];
      StrCmpOrders(id, env.id);
      IdsTellApart(ms);
      r := ms;
    }
  }

  /** q_cleanup.c:226-249: an E or D entry is found in or inserted into the list. */
  method NoteEntry(ms: seq<Envelope>, dir: Dir, prefix: Prefix, id: string, ghost seen: set<Entry>)
    returns (r: seq<Envelope>)
    requires Reads(ms, seen, dir) && prefix != TFile && Spooled(prefix, id) !in seen
    modifies set e | e in ms
    ensures Reads(r, seen + {Spooled(prefix, id)}, dir)
    ensures forall e :: e in r ==> e in ms || fresh(e)
  {
    var env;
    env, r := FindOrInsert(ms, dir, id);
    assert env !in ms ==> Spooled(EFile, id) !in seen && Spooled(DFile, id) !in seen;
    env.efile, env.dfile := env.efile || prefix == EFile, env.dfile || prefix == DFile;
    ghost var now := seen + {Spooled(prefix, id)};
    forall e | e in r
      ensures Flagged(e, now, dir)
    {}
    forall p, i | Spooled(p, i) in now && p != TFile
      ensures Listed(r, i)
    {
      assert Listed(ms, i) || i == env.id;
    }
  }

  // ---------- q_dir_startup ----------

  ghost predicate StrayTfile(fs: Fs, dir: Dir, n: Name) {
    n in fs && n.dir == dir && n.prefix == TFile
  }

  ghost predicate StrayDfile(fs: Fs, dir: Dir, n: Name) {
    n in fs && n.dir == dir && n.prefix == DFile && Name(dir, EFile, n.id) !in fs
  }

  ghost predicate Stray(fs: Fs, dir: Dir, n: Name) {
    StrayTfile(fs, dir, n) || StrayDfile(fs, dir, n)
  }

  /** A directory that startup refuses to touch: `cleanup` is `simta_filesystem_cleanup`. */
  ghost predicate BadDir(fs: Fs, dir: Dir, cleanup: bool, listing: seq<Entry>) {
    || Unknown in listing
    || (exists n :: n in fs && n.dir == dir && n.prefix == EFile && Name(dir, DFile, n.id) !in fs)
    || (!cleanup && dir != Local && ((exists n :: StrayTfile(fs, dir, n)) || exists n :: StrayDfile(fs, dir, n)))
  }

  /** The directory once its stray files are gone; strays in the local directory are only reported. */
  ghost function Tidied(fs: Fs, dir: Dir): Fs {
    map n | n in fs && (dir == Local || !Stray(fs, dir, n)) :: fs[n]
  }

  /** `s` is `f` without some of `names`. */
  ghost predicate Without(f: Fs, names: seq<Name>, s: Fs) {
    && (forall n :: n in s ==> n in f && s[n] == f[n])
    && (forall n :: n in f && n !in s ==> n in names)
  }

  lemma DistinctConcat(a: seq<Name>, b: seq<Name>)
    requires Distinct(a) && Distinct(b)
    requires forall n :: n in a ==> n !in b
    ensures Distinct(a + b)
  {
    forall i, j | 0 <= i < j < |a + b|
      ensures (a + b)[i] != (a + b)[j]
    {
      assert i < |a| ==> (a + b)[i] in a;
      assert j >= |a| ==> (a + b)[j] in b;
    }
  }

  lemma DistinctPrepend(n: Name, names: seq<Name>)
    requires Distinct(names) && n !in names
    ensures Distinct([n] + names)
  {}

  /** q_cleanup.c:325-339 */
  method UnlinkAll(d: Disk, names: seq<Name>) returns (ok: bool)
    requires Distinct(names) && forall n :: n in names ==> n in d.fs && n.prefix != EFile
    modifies d
    ensures Without(old(d.fs), names, d.fs)
    ensures ok ==> forall n :: n in names ==> n !in d.fs
    ensures d.Faulty(old(d.faults), ok)
    ensures d.Drift() == old(d.Drift())
    ensures old(d.trace) <= d.trace && forall k :: |old(d.trace)| <= k < |d.trace| ==>
        Without(old(d.fs), names, d.trace[k])
  {
    for i := 0 to |names|
      invariant Without(old(d.fs), names, d.fs)
      invariant forall j :: 0 <= j < i ==> names[j] !in d.fs
      invariant forall j :: i <= j < |names| ==> names[j] in d.fs
      invariant d.Faulty(old(d.faults), true)
      invariant d.Drift() == old(d.Drift())
      invariant old(d.trace) <= d.trace && forall k :: |old(d.trace)| <= k < |d.trace| ==>
          Without(old(d.fs), names, d.trace[k])
    {
      FastEfilesMinus(d.fs, names[i]);
      ok := d.Unlink(names[i]);
      if !ok { return; }
    }
    ok := true;
  }

  /** q_cleanup.c:199-270: the entries come in any order. */
  method ReadEntries(fs: Fs, dir: Dir, cleanup: bool, listing: seq<Entry>)
    returns (bad: bool, ms: seq<Envelope>, tfiles: seq<Name>)
    requires ListingOf(fs, dir, listing)
    ensures bad <==> Unknown in listing || (!cleanup && dir != Local && exists n :: StrayTfile(fs, dir, n))
    ensures Reads(ms, Entries(listing), dir) && forall e :: e in ms ==> fresh(e)
    ensures !bad && dir != Local ==> Distinct(tfiles) && forall n :: n in tfiles <==> StrayTfile(fs, dir, n)
    ensures dir == Local ==> tfiles == []
  {
    bad, ms, tfiles := false, [], [];
    ghost var seen: set<Entry> := {};
    for i := 0 to |listing|
      invariant seen == Entries(listing[..i])
      invariant Reads(ms, seen, dir) && forall e :: e in ms ==> fresh(e)
      invariant bad <==> Unknown in seen || (!cleanup && dir != Local && exists id :: Spooled(TFile, id) in seen)
      invariant dir == Local ==> tfiles == []
      invariant forall n :: n in tfiles ==> n.dir == dir && n.prefix == TFile && Spooled(TFile, n.id) in seen
      invariant !bad && dir != Local ==> forall id :: Spooled(TFile, id) in seen ==> Name(dir, TFile, id) in tfiles
      invariant Distinct(tfiles)
    {
      var e := listing[i];
      assert Entries(listing[..i + 1]) == seen + {e};
      match e {
      case Unknown =>
        bad := true;
      case Spooled(TFile, id) =>
        if dir != Local {
          if cleanup {
            if !bad {
              DistinctPrepend(Name(dir, TFile, id), tfiles);
              tfiles := [Name(dir, TFile, id)] + tfiles;
            }
          } else {
            bad := true;
          }
        }
      case Spooled(prefix, id) =>
        ms := NoteEntry(ms, dir, prefix, id, seen);
      }
      seen := seen + {e};
    }
    assert listing[..|listing|] == listing;
    assert forall n :: StrayTfile(fs, dir, n) ==> Spooled(TFile, n.id) in seen;
    assert forall id :: Spooled(TFile, id) in seen ==> StrayTfile(fs, dir, Name(dir, TFile, id));
  }

  /** Every message of the directory is listed once, flagged with the files that it has. */
  ghost predicate Inventory(ms: seq<Envelope>, fs: Fs, dir: Dir)
    reads ms
  {
    && Sorted(ms)
    && (forall e :: e in ms ==> e.dir == dir && (e.efile <==> e.E() in fs) && (e.dfile <==> e.D() in fs))
    && (forall e :: e in ms ==> (e.efile || e.dfile) && !e.doomed)
    && (forall n :: n in fs && n.dir == dir && n.prefix != TFile ==> Listed(ms, n.id))
  }

  /** The complete messages of a directory, each once, in the order of strcmp. */
  ghost predicate AllComplete(ms: seq<Envelope>, fs: Fs, dir: Dir) {
    && Sorted(ms)
    && (forall e :: e in ms ==> Complete(fs, dir, e.id))
    && (forall id :: Complete(fs, dir, id) ==> Listed(ms, id))
  }

  ghost predicate Messages(ms: seq<Envelope>, fs: Fs, dir: Dir)
    reads ms`dir
  {
    AllComplete(ms, fs, dir) && forall e :: e in ms ==> e.dir == dir
  }

  predicate Broken(e: Envelope)
    reads e
  {
    !e.efile || !e.dfile
  }

  /** What is missing cannot be repaired here. */
  ghost predicate Fatal(e: Envelope, dir: Dir, cleanup: bool)
    reads e
  {
    !e.dfile || (!e.efile && !cleanup && dir != Local)
  }

  ghost function Dnames(es: seq<Envelope>): seq<Name>
    reads es
  {
    seq(|es|, i requires 0 <= i < |es| reads es => es[i].D())
  }

  /** q_cleanup.c:285-323: what is not complete leaves the list. */
  method DropIncomplete(dir: Dir, cleanup: bool, all: seq<Envelope>)
    returns (bad: bool, ms: seq<Envelope>, dfiles: seq<Name>, ghost gone: seq<Envelope>)
    requires Sorted(all)
    ensures Sorted(ms) && forall e :: e in ms <==> e in all && !Broken(e)
    ensures forall e :: e in gone <==> e in all && Broken(e)
    ensures forall i, j :: 0 <= i < j < |gone| ==> gone[i] != gone[j]
    ensures bad <==> exists e :: e in gone && Fatal(e, dir, cleanup)
    ensures !bad ==> dfiles == if dir == Local then [] else Dnames(gone)
  {
    bad, ms, dfiles, gone := false, all, [], [];
    var k := 0;
    while k < |ms|
      invariant k <= |ms| && Sorted(ms)
      invariant forall e :: e in ms ==> e in all && e !in gone
      invariant forall e :: e in all ==> e in ms || e in gone
      invariant forall e :: e in gone ==> e in all && Broken(e)
      invariant forall j :: 0 <= j < k ==> !Broken(ms[j])
      invariant forall i, j :: 0 <= i < j < |gone| ==> gone[i] != gone[j]
      invariant bad <==> exists e :: e in gone && Fatal(e, dir, cleanup)
      invariant !bad ==> dfiles == if dir == Local then [] else Dnames(gone)
      decreases |ms| - k
    {
      var env := ms[k];
      if Broken(env) {
        SortedRemove(ms, k);
        assert Dnames([env] + gone) == [env.D()] + Dnames(gone);
        if !env.dfile {
          bad := true;
        } else if dir != Local {
          if cleanup && !bad {
            dfiles := [env.D()] + dfiles;
          } else {
            bad := true;
          }
        }
        ms, gone := ms[..k] + ms[k + 1..], [env] + gone;
      } else {
        k := k + 1;
      }
    }
  }

  /** `s` is `f` without some strays of the directory. */
  ghost predicate Tidying(f: Fs, dir: Dir, s: Fs) {
    && (forall n :: n in s ==> n in f && s[n] == f[n])
    && (forall n :: n in f && n !in s ==> dir != Local && Stray(f, dir, n))
  }

  ghost predicate TidyingTrace(d: Disk, before: seq<Fs>, f: Fs, dir: Dir)
    reads d`trace
  {
    before <= d.trace && forall k :: |before| <= k < |d.trace| ==> Tidying(f, dir, d.trace[k])
  }

  /** q_cleanup.c:199-323: what is in the directory, whether it is in order, and what has to be unlinked. */
  method ScanDir(fs: Fs, dir: Dir, cleanup: bool, listing: seq<Entry>)
    returns (bad: bool, ms: seq<Envelope>, strays: seq<Name>)
    requires ListingOf(fs, dir, listing)
    ensures forall e :: e in ms ==> fresh(e) && !e.doomed
    ensures bad <==> BadDir(fs, dir, cleanup, listing)
    ensures !bad ==> Messages(ms, Tidied(fs, dir), dir)
    ensures !bad ==> Distinct(strays) && forall n :: n in strays <==> dir != Local && Stray(fs, dir, n)
  {
    var tfiles, dfiles, all;
    bad, all, tfiles := ReadEntries(fs, dir, cleanup, listing);
    ms, strays := all, [];
    InventoryOf(fs, dir, listing, all);
    if !bad {
      ghost var gone;
      bad, ms, dfiles, gone := DropIncomplete(dir, cleanup, all);
      BadInventory(fs, dir, cleanup, all);
      if !bad {
        TidiedMessages(fs, dir, ms, all);
        StraysOf(fs, dir, all, gone);
        if dir != Local {
          DistinctConcat(dfiles, tfiles);
        }
        strays := dfiles + tfiles;
      }
    }
  }

  method UnlinkStrays(d: Disk, dir: Dir, strays: seq<Name>) returns (ok: bool)
    requires Distinct(strays) && forall n :: n in strays <==> dir != Local && Stray(d.fs, dir, n)
    modifies d
    ensures Tidying(old(d.fs), dir, d.fs) && TidyingTrace(d, old(d.trace), old(d.fs), dir)
    ensures ok ==> d.fs == Tidied(old(d.fs), dir)
    ensures d.Faulty(old(d.faults), ok)
    ensures d.Drift() == old(d.Drift())
  {
    ok := UnlinkAll(d, strays);
  }

  /** q_cleanup.c:167-342 for a directory that is to be cleaned. */
  method QDirStartup(d: Disk, dir: Dir, cleanup: bool, listing: seq<Entry>) returns (err: bool, ms: seq<Envelope>)
    requires ListingOf(d.fs, dir, listing)
    modifies d
    ensures forall e :: e in ms ==> fresh(e) && !e.doomed
    ensures !err ==> d.fs == Tidied(old(d.fs), dir) && Messages(ms, d.fs, dir)
    ensures BadDir(old(d.fs), dir, cleanup, listing) ==> err && d.fs == old(d.fs) && d.trace == old(d.trace)
    ensures Tidying(old(d.fs), dir, d.fs) && TidyingTrace(d, old(d.trace), old(d.fs), dir)
    ensures d.Faulty(old(d.faults), err ==> BadDir(old(d.fs), dir, cleanup, listing))
    ensures d.Drift() == old(d.Drift())
  {
    ms := [];
    var ok := d.Other(); // opendir
    if !ok { return true, ms; }
    var strays;
    err, ms, strays := ScanDir(d.fs, dir, cleanup, listing);
    ok := d.Other(); // readdir
    if !ok { return true, ms; }
    ok := d.Other(); // closedir
    if !ok || err { return true, ms; }
    ok := UnlinkStrays(d, dir, strays);
    err := !ok;
  }

  lemma InventoryOf(fs: Fs, dir: Dir, listing: seq<Entry>, ms: seq<Envelope>)
    requires ListingOf(fs, dir, listing) && Reads(ms, Entries(listing), dir)
    ensures Inventory(ms, fs, dir)
  {}

  /** What makes DropIncomplete refuse the directory, in terms of the names in it. */
  lemma BadInventory(fs: Fs, dir: Dir, cleanup: bool, all: seq<Envelope>)
    requires Inventory(all, fs, dir)
    ensures (exists e :: e in all && Broken(e) && Fatal(e, dir, cleanup)) <==>
              || (exists n :: n in fs && n.dir == dir && n.prefix == EFile && Name(dir, DFile, n.id) !in fs)
              || (!cleanup && dir != Local && exists n :: StrayDfile(fs, dir, n))
  {
    forall e | e in all
      ensures !e.dfile ==> e.E() in fs && e.D() !in fs
      ensures !e.efile ==> StrayDfile(fs, dir, e.D())
    {}
    forall n | n in fs && n.dir == dir && n.prefix != TFile
      ensures exists e :: e in all && e.id == n.id
    {}
  }

  lemma StraysOf(fs: Fs, dir: Dir, all: seq<Envelope>, gone: seq<Envelope>)
    requires Inventory(all, fs, dir) && forall e :: e in gone <==> e in all && Broken(e)
    requires forall e :: e in gone ==> e.dfile
    requires forall i, j :: 0 <= i < j < |gone| ==> gone[i] != gone[j]
    ensures Distinct(Dnames(gone)) && forall n :: n in Dnames(gone) <==> StrayDfile(fs, dir, n)
  {
    IdsTellApart(all);
    forall n | StrayDfile(fs, dir, n)
      ensures n in Dnames(gone)
    {
      var e :| e in all && e.id == n.id;
      var i :| 0 <= i < |gone| && gone[i] == e;
      assert Dnames(gone)[i] == n;
    }
  }

  lemma TidiedMessages(fs: Fs, dir: Dir, ms: seq<Envelope>, all: seq<Envelope>)
    requires Inventory(all, fs, dir) && Sorted(ms)
    requires forall e :: e in ms <==> e in all && !Broken(e)
    ensures Messages(ms, Tidied(fs, dir), dir)
  {
    forall id | Complete(fs, dir, id)
      ensures Listed(ms, id)
    {
      assert Name(dir, EFile, id) in fs;
      var e :| e in all && e.id == id;
    }
  }
}
