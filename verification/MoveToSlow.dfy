/** Merging a cleaned directory into the slow queue at startup (q_cleanup.c:110-164). */
module MoveToSlow {
  import opened Options
  import opened Spool
  import opened SpoolOps
  import opened DirStartup
  import Lists

  /** What `n` holds once the messages `ids` of the directory `from` have been merged into the slow queue. */
  ghost function MergedAt(f: Fs, from: Dir, cleanup: bool, ids: set<string>, n: Name): Option<File> {
    if n.prefix != TFile && n.id in ids && n.dir == from && (cleanup || !Complete(f, Slow, n.id)) then None
    else if n.prefix != TFile && n.id in ids && n.dir == Slow && !Complete(f, Slow, n.id)
        && Name(from, n.prefix, n.id) in f then
      Some(f[Name(from, n.prefix, n.id)])
    else if n in f then Some(f[n]) else None
  }

  ghost predicate Merged(f: Fs, from: Dir, cleanup: bool, ids: set<string>, s: Fs) {
    && (forall n :: n in s ==> MergedAt(f, from, cleanup, ids, n) == Some(s[n]))
    && (forall n :: n !in s ==> MergedAt(f, from, cleanup, ids, n) == None)
  }

  /** The slow directory holds complete messages only. */
  ghost predicate SlowInOrder(fs: Fs) {
    forall n :: n in fs && n.dir == Slow ==> n.prefix != TFile && Complete(fs, Slow, n.id)
  }

  /** No message of either directory is lost, and what is in the slow directory is not replaced. */
  ghost predicate Safe(f: Fs, from: Dir, s: Fs) {
    && (forall id :: Complete(f, from, id) ==> Complete(s, from, id) || Complete(s, Slow, id))
    && (forall n :: n in f && n.dir == Slow ==> n in s && s[n] == f[n])
  }

  lemma MovingIsSafe(f: Fs, from: Dir, s: Fs, id: string, t: Fs)
    requires from != Slow && Safe(f, from, s) && MoveState(s, id, from, Slow, t)
    ensures Safe(f, from, t)
  {}

  lemma CollisionIsSafe(f: Fs, from: Dir, s: Fs, id: string)
    requires from != Slow && Safe(f, from, s) && Complete(f, Slow, id) && SlowInOrder(f)
    ensures Safe(f, from, s - {Name(from, EFile, id)})
    ensures Safe(f, from, s - {Name(from, EFile, id)} - {Name(from, DFile, id)})
  {}

  /** The messages `ids` are in the slow directory, besides those that were there; no third directory is touched. */
  ghost predicate InSlow(f: Fs, from: Dir, ids: set<string>, s: Fs) {
    && SlowInOrder(s)
    && (forall id :: Complete(s, Slow, id) <==> Complete(f, Slow, id) || (id in ids && Complete(f, from, id)))
    && (forall n: Name :: n.dir != from && n.dir != Slow ==> (n in s <==> n in f) && (n in f ==> s[n] == f[n]))
  }

  /** The spool when the messages `ids` have been merged; `clean` says that no call has failed. */
  ghost predicate MergedState(f: Fs, from: Dir, cleanup: bool, ids: set<string>, s: Fs, clean: bool) {
    Safe(f, from, s) && InSlow(f, from, ids, s) && (clean ==> Merged(f, from, cleanup, ids, s))
  }

  lemma MovedIsMerged(f: Fs, from: Dir, cleanup: bool, ids: set<string>, s: Fs, id: string)
    requires from != Slow && SlowInOrder(f) && Complete(f, from, id) && !Complete(f, Slow, id) && id !in ids
    requires Merged(f, from, cleanup, ids, s)
    ensures Movable(s, id, from, Slow)
    ensures Merged(f, from, cleanup, ids + {id},
        Both(s, id, from, Slow) - {Name(from, EFile, id), Name(from, DFile, id)})
  {}

  lemma MovedIsInSlow(f: Fs, from: Dir, ids: set<string>, s: Fs, id: string, t: Fs)
    requires from != Slow && Complete(f, from, id) && InSlow(f, from, ids, s)
    requires MoveState(s, id, from, Slow, t) && Complete(s, from, id) && Complete(t, Slow, id)
    ensures InSlow(f, from, ids + {id}, t)
  {}

  lemma CollidedIsMerged(f: Fs, from: Dir, ids: set<string>, s: Fs, id: string)
    requires from != Slow && Complete(f, from, id) && Complete(f, Slow, id) && id !in ids
    requires Merged(f, from, true, ids, s)
    ensures Complete(s, from, id)
    ensures Merged(f, from, true, ids + {id}, s - {Name(from, EFile, id)} - {Name(from, DFile, id)})
  {}

  lemma CollisionIsInSlow(f: Fs, from: Dir, ids: set<string>, s: Fs, id: string)
    requires from != Slow && Complete(f, Slow, id) && InSlow(f, from, ids, s)
    ensures InSlow(f, from, ids + {id}, s) && InSlow(f, from, ids + {id}, s - {Name(from, EFile, id)})
    ensures InSlow(f, from, ids + {id}, s - {Name(from, EFile, id)} - {Name(from, DFile, id)})
  {}

  lemma CollisionIsLeft(f: Fs, from: Dir, ids: set<string>, s: Fs, id: string, clean: bool)
    requires from != Slow && Complete(f, Slow, id) && MergedState(f, from, false, ids, s, clean)
    ensures MergedState(f, from, false, ids + {id}, s, clean)
  {}

  ghost predicate SafeTrace(d: Disk, before: seq<Fs>, f: Fs, from: Dir)
    reads d`trace
  {
    before <= d.trace && forall k :: |before| <= k < |d.trace| ==> Safe(f, from, d.trace[k])
  }

  /** What holds of the disk when the messages `ids` have been merged. */
  ghost predicate MergedDisk(d: Disk, before: seq<Fs>, faults: nat, f: Fs, from: Dir, cleanup: bool, ids: set<string>)
    reads d`fs, d`trace, d`faults
  {
    SafeTrace(d, before, f, from) && faults <= d.faults && MergedState(f, from, cleanup, ids, d.fs, d.faults == faults)
  }

  // ---------- The lists ----------

  /** The first `i` messages of `other` have been merged into the slow list; the cursor is at `c`. */
  ghost predicate Zipped(slow: seq<Envelope>, other: seq<Envelope>, i: nat, merged: seq<Envelope>, c: nat)
    requires i <= |other| && c <= |merged|
  {
    && Sorted(merged)
    && (forall e :: e in merged ==> e in slow || (e in other[..i] && !Listed(slow, e.id)))
    && (forall e :: e in slow ==> e in merged)
    && (forall e :: e in other[..i] && !Listed(slow, e.id) ==> e in merged)
    && (i < |other| ==> forall j :: 0 <= j < c ==> StrCmp(merged[j].id, other[i].id) < 0)
  }

  /** Position `c` is where the next message of `other` belongs, or where its id is already listed. */
  ghost predicate Position(merged: seq<Envelope>, id: string, c: nat) {
    c <= |merged| && (forall j :: 0 <= j < c ==> StrCmp(merged[j].id, id) < 0)
        && (c < |merged| ==> StrCmp(id, merged[c].id) <= 0)
  }

  lemma CursorMoves(other: seq<Envelope>, i: nat, merged: seq<Envelope>, c: nat)
    requires Sorted(other) && Sorted(merged) && i < |other| && c < |merged| && merged[c].id == other[i].id
    ensures i + 1 < |other| ==> forall j :: 0 <= j < c + 1 ==> StrCmp(merged[j].id, other[i + 1].id) < 0
  {
    if i + 1 < |other| {
      forall j | 0 <= j < c
        ensures StrCmp(merged[j].id, other[i + 1].id) < 0
      {
        StrCmpTransitive(merged[j].id, merged[c].id, other[i + 1].id);
      }
    }
  }

  lemma ZipInserted(slow: seq<Envelope>, other: seq<Envelope>, i: nat, merged: seq<Envelope>, c0: nat, c: nat)
    requires Sorted(other) && i < |other| && c0 <= |merged| && Zipped(slow, other, i, merged, c0)
    requires Position(merged, other[i].id, c) && (c < |merged| ==> StrCmp(other[i].id, merged[c].id) != 0)
    ensures !Listed(slow, other[i].id)
    ensures Zipped(slow, other, i + 1, merged[..c] + [other[i]] + merged[c..], c + 1)
  {
    var r := merged[..c] + [other[i]] + merged[c..];
    SortedInsert(merged, c, other[i]);
    CursorMoves(other, i, r, c);
    assert other[..i + 1] == other[..i] + [other[i]];
    Lists.InsertedMembers(merged, c, other[i]);
  }

  lemma ZipCollided(slow: seq<Envelope>, other: seq<Envelope>, i: nat, merged: seq<Envelope>, c0: nat, c: nat)
    requires Sorted(other) && i < |other| && c0 <= |merged| && Zipped(slow, other, i, merged, c0)
    requires c < |merged| && StrCmp(other[i].id, merged[c].id) == 0
    ensures Listed(slow, other[i].id)
    ensures Zipped(slow, other, i + 1, merged, c + 1)
  {
    StrCmpOrders(other[i].id, merged[c].id);
    CursorMoves(other, i, merged, c);
    assert other[..i + 1] == other[..i] + [other[i]];
    IdsTellApart(other);
    DistinctFromPrefix(other, i);
    assert merged[c] in slow;
  }

  lemma DistinctFromPrefix(ms: seq<Envelope>, i: nat)
    requires Sorted(ms) && i < |ms|
    ensures forall e :: e in ms[..i] ==> e.id != ms[i].id
  {
    StrCmpOrders(ms[i].id, ms[i].id);
  }

  method Advance(merged: seq<Envelope>, id: string, c0: nat) returns (c: nat)
    requires c0 <= |merged| && Sorted(merged) && forall j :: 0 <= j < c0 ==> StrCmp(merged[j].id, id) < 0
    ensures Position(merged, id, c)
  {
    c := c0;
    while c < |merged| && StrCmp(id, merged[c].id) > 0
      invariant c <= |merged| && forall j :: 0 <= j < c ==> StrCmp(merged[j].id, id) < 0
    {
      StrCmpOrders(merged[c].id, id);
      c := c + 1;
    }
  }

  // ---------- q_move_to_slow ----------

  method MoveOne(d: Disk, move: Envelope, ghost cleanup: bool, ghost f: Fs, ghost before: seq<Fs>,
      ghost faults: nat, ghost ids: set<string>)
    returns (ok: bool)
    requires move.dir != Slow && SlowInOrder(f) && Complete(f, move.dir, move.id) && !Complete(f, Slow, move.id)
    requires move.id !in ids
    requires MergedDisk(d, before, faults, f, move.dir, cleanup, ids)
    modifies d`fs, d`trace, d`faults, d`fastFiles, move`efile, move`dir
    ensures SafeTrace(d, before, f, old(move.dir)) && Safe(f, old(move.dir), d.fs)
    ensures ok ==> move.dir == Slow && MergedDisk(d, before, faults, f, old(move.dir), cleanup, ids + {move.id})
    ensures d.Faulty(faults, ok)
    ensures d.Drift() == old(d.Drift())
  {
    ghost var s, from, id, clean := d.fs, move.dir, move.id, d.faults == faults;
    if clean {
      MovedIsMerged(f, from, cleanup, ids, s, id);
    }
    forall t | MoveState(s, id, from, Slow, t)
      ensures Safe(f, from, t)
    {
      MovingIsSafe(f, from, s, id, t);
    }
    ok := d.EnvMove(move, Slow);
    if ok {
      MovedIsInSlow(f, from, ids, s, id, d.fs);
    }
  }

  method DropOne(d: Disk, move: Envelope, ghost f: Fs, ghost before: seq<Fs>, ghost faults: nat,
      ghost ids: set<string>) returns (ok: bool)
    requires move.dir != Slow && SlowInOrder(f) && Complete(f, move.dir, move.id) && Complete(f, Slow, move.id)
    requires move.id !in ids
    requires MergedDisk(d, before, faults, f, move.dir, true, ids)
    modifies d`fs, d`trace, d`faults, d`fastFiles, move`efile
    ensures SafeTrace(d, before, f, move.dir) && Safe(f, move.dir, d.fs)
    ensures ok ==> MergedDisk(d, before, faults, f, move.dir, true, ids + {move.id})
    ensures d.Faulty(faults, ok)
    ensures d.Drift() == old(d.Drift())
  {
    ghost var s, from, id, clean := d.fs, move.dir, move.id, d.faults == faults;
    if clean {
      CollidedIsMerged(f, from, ids, s, id);
    }
    CollisionIsSafe(f, from, s, id);
    CollisionIsInSlow(f, from, ids, s, id);
    ok := d.EnvUnlink(move);
  }

  ghost function IdsUpTo(ms: seq<Envelope>, i: nat): set<string>
    requires i <= |ms|
  {
    set j | 0 <= j < i :: ms[j].id
  }

  /** The ids that are in both lists. */
  ghost function Shared(slow: seq<Envelope>, other: seq<Envelope>, i: nat): nat
    requires i <= |other|
  {
    if i == 0 then 0 else Shared(slow, other, i - 1) + if Listed(slow, other[i - 1].id) then 1 else 0
  }

  lemma NextMessage(f: Fs, from: Dir, slow: seq<Envelope>, other: seq<Envelope>, i: nat)
    requires AllComplete(slow, f, Slow) && AllComplete(other, f, from) && i < |other|
    ensures Complete(f, from, other[i].id)
    ensures Complete(f, Slow, other[i].id) <==> Listed(slow, other[i].id)
    ensures other[i].id !in IdsUpTo(other, i) && IdsUpTo(other, i + 1) == IdsUpTo(other, i) + {other[i].id}
  {
    StrCmpOrders(other[i].id, other[i].id);
  }

  method PlaceNext(slow: seq<Envelope>, other: seq<Envelope>, i: nat, list: seq<Envelope>, cursor: nat)
    returns (collided: bool, merged: seq<Envelope>, c: nat)
    requires Sorted(other) && i < |other| && cursor <= |list| && Zipped(slow, other, i, list, cursor)
    ensures collided <==> Listed(slow, other[i].id)
    ensures Shared(slow, other, i + 1) == Shared(slow, other, i) + if collided then 1 else 0
    ensures c <= |merged| && Zipped(slow, other, i + 1, merged, c)
    ensures forall e :: e in merged ==> e in list || (!collided && e == other[i])
  {
    c := Advance(list, other[i].id, cursor);
    DistinctFromPrefix(other, i);
    if c == |list| || StrCmp(other[i].id, list[c].id) < 0 {
      ZipInserted(slow, other, i, list, cursor, c);
      collided, merged := false, list[..c] + [other[i]] + list[c..];
    } else {
      ZipCollided(slow, other, i, list, cursor, c);
      collided, merged := true, list;
    }
    c := c + 1;
  }

  /** What is merged is in the slow directory, the rest of `other` still in its own. */
  ghost predicate Dirs(merged: seq<Envelope>, other: seq<Envelope>, i: nat, from: Dir)
    reads merged`dir, other`dir
  {
    (forall e :: e in merged ==> e.dir == Slow) && forall j :: i <= j < |other| ==> other[j].dir == from
  }

  method MergeFiles(d: Disk, move: Envelope, collided: bool, cleanup: bool, ghost f: Fs, ghost before: seq<Fs>,
      ghost faults: nat,
                    ghost ids: set<string>)
    returns (ok: bool)
    requires move.dir != Slow && SlowInOrder(f) && Complete(f, move.dir, move.id) && move.id !in ids
    requires collided <==> Complete(f, Slow, move.id)
    requires MergedDisk(d, before, faults, f, move.dir, cleanup, ids)
    modifies d`fs, d`trace, d`faults, d`fastFiles, move`efile, move`dir
    ensures SafeTrace(d, before, f, old(move.dir)) && Safe(f, old(move.dir), d.fs)
    ensures ok ==> MergedDisk(d, before, faults, f, old(move.dir), cleanup, ids + {move.id})
    ensures ok && !collided ==> move.dir == Slow
    ensures d.Faulty(faults, ok)
    ensures d.Drift() == old(d.Drift())
  {
    if !collided {
      ok := MoveOne(d, move, cleanup, f, before, faults, ids);
    } else if cleanup {
      ok := DropOne(d, move, f, before, faults, ids);
    } else {
      CollisionIsLeft(f, move.dir, ids, d.fs, move.id, d.faults == faults);
      ok := true;
    }
  }

  /** What holds when the first `i` messages of `other` have been merged into the list and into the slow directory. */
  ghost predicate MergedUpTo(d: Disk, slow: seq<Envelope>, other: seq<Envelope>, i: nat, merged: seq<Envelope>, c: nat,
                             before: seq<Fs>, faults: nat, f: Fs, from: Dir, cleanup: bool)
    requires i <= |other| && c <= |merged|
    reads d`fs, d`trace, d`faults, merged`dir, other`dir
  {
    && Zipped(slow, other, i, merged, c) && Dirs(merged, other, i, from)
    && MergedDisk(d, before, faults, f, from, cleanup, IdsUpTo(other, i))
  }

  /** Collisions are counted when they are left alone (q_cleanup.c:152-153). */
  ghost function Counted(slow: seq<Envelope>, other: seq<Envelope>, i: nat, cleanup: bool): nat
    requires i <= |other|
  {
    if cleanup then 0 else Shared(slow, other, i)
  }

  lemma NothingMerged(d: Disk, slow: seq<Envelope>, other: seq<Envelope>, from: Dir, cleanup: bool)
    requires from != Slow && SlowInOrder(d.fs) && Messages(slow, d.fs, Slow) && Messages(other, d.fs, from)
    ensures MergedUpTo(d, slow, other, 0, slow, 0, d.trace, d.faults, d.fs, from, cleanup)
  {}

  method MergeNext(d: Disk, slow: seq<Envelope>, other: seq<Envelope>, from: Dir, cleanup: bool, i: nat,
      list: seq<Envelope>, cursor: nat, collisions: nat,
                   ghost f: Fs, ghost before: seq<Fs>, ghost faults: nat)
    returns (ok: bool, merged: seq<Envelope>, c: nat, count: nat)
    requires from != Slow && SlowInOrder(f) && AllComplete(slow, f, Slow) && AllComplete(other, f, from) && i < |other|
    requires cursor <= |list| && MergedUpTo(d, slow, other, i, list, cursor, before, faults, f, from, cleanup)
    modifies d`fs, d`trace, d`faults, d`fastFiles, {other[i]}`efile, {other[i]}`dir
    ensures SafeTrace(d, before, f, from) && Safe(f, from, d.fs)
    ensures collisions == Counted(slow, other, i, cleanup) ==> count == Counted(slow, other, i + 1, cleanup)
    ensures ok ==> c <= |merged| && MergedUpTo(d, slow, other, i + 1, merged, c, before, faults, f, from, cleanup)
    ensures d.Faulty(faults, ok)
    ensures d.Drift() == old(d.Drift())
  {
    Apart(other, i);
    var collided;
    collided, merged, c := PlaceNext(slow, other, i, list, cursor);
    count := if collided && !cleanup then collisions + 1 else collisions;
    NextMessage(f, from, slow, other, i);
    ok := MergeFiles(d, other[i], collided, cleanup, f, before, faults, IdsUpTo(other, i));
  }

  /** q_cleanup.c:110-164: the sorted union; of two messages with one id the slow one stays, and the other one is
    * deleted, or with `cleanup` (simta_filesystem_cleanup) off left alone and counted.
    */
  method QMoveToSlow(d: Disk, slow: seq<Envelope>, other: seq<Envelope>, from: Dir, cleanup: bool)
    returns (err: bool, collisions: nat, merged: seq<Envelope>)
    requires from != Slow && SlowInOrder(d.fs)
    requires Messages(slow, d.fs, Slow) && Messages(other, d.fs, from)
    modifies d`fs, d`trace, d`faults, d`fastFiles, (set e | e in other)`efile, (set e | e in other)`dir
    ensures SafeTrace(d, old(d.trace), old(d.fs), from) && Safe(old(d.fs), from, d.fs)
    ensures !err ==>
        MergedUpTo(d, slow, other, |other|, merged, 0, old(d.trace), old(d.faults), old(d.fs), from, cleanup)
    ensures !err ==> collisions == Counted(slow, other, |other|, cleanup)
    ensures d.Faulty(old(d.faults), !err)
    ensures d.Drift() == old(d.Drift())
  {
    ghost var f, before, faults := d.fs, d.trace, d.faults;
    err, collisions, merged := false, 0, slow;
    var c: nat := 0;
    NothingMerged(d, slow, other, from, cleanup);
    for i := 0 to |other|
      invariant c <= |merged| && MergedUpTo(d, slow, other, i, merged, c, before, faults, f, from, cleanup)
      invariant collisions == Counted(slow, other, i, cleanup)
      invariant d.Drift() == old(d.Drift())
    {
      var ok;
      ok, merged, c, collisions := MergeNext(d, slow, other, from, cleanup, i, merged, c, collisions, f, before,
          faults);
      if !ok { return true, collisions, merged; }
    }
  }

  lemma Apart(ms: seq<Envelope>, i: nat)
    requires Sorted(ms) && i < |ms|
    ensures forall j :: 0 <= j < |ms| && j != i ==> ms[j] != ms[i]
  {
    StrCmpOrders(ms[i].id, ms[i].id);
  }
}
