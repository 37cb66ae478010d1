/** The buffered line reader of libsnet (libsnet/snet.c:891-1051). */
module LineReader {
  import opened Options
  import opened LineSplit

  const SNET_BUFLEN := 4096

  datatype Fetched = Data | Eof | Failed | TooLong

  /** SNET for reading.  `source` is what the peer has still to deliver; a read gives any part of it, or fails. */
  class Snet {
    var buf: array<char>
    var cur: int
    var end: int
    var state: State
    var source: string
    const maxlen: nat

    constructor (source: string, maxlen: nat)
      ensures Valid() && fresh(buf) && Unread() == source && state == Bol && this.maxlen == maxlen
    {
      buf := new char[SNET_BUFLEN];
      cur, end, state := 0, 0, Bol;
      this.source, this.maxlen := source, maxlen;
    }

    /** After an end of file that cut the last line, `cur` is one past `end`. */
    ghost predicate Valid()
      reads this
    {
      && buf.Length >= SNET_BUFLEN
      && 0 <= cur <= end + 1 && end <= buf.Length
      && (cur == end + 1 ==> source == "")
    }

    /** The bytes that no line has consumed yet, buffered or not. */
    ghost function Unread(): string
      requires Valid()
      reads this, buf
    {
      Buffered() + source
    }

    ghost function Buffered(): string
      requires Valid()
      reads this, buf
    {
      if cur <= end then buf[cur..end] else ""
    }

    lemma UnreadAt(i: int)
      requires Valid() && cur <= i < end
      ensures i - cur < |Unread()| && buf[i] == Unread()[i - cur]
    {}

    /** read(2), as seen through snet_read0: nothing is ever delivered after the end. */
    method Read(room: nat) returns (rc: int, data: string)
      requires room > 0
      modifies `source
      ensures rc < 0 ==> data == ""
      ensures rc >= 0 ==> rc == |data| <= room
      ensures old(source) == data + source
      ensures rc == 0 ==> source == ""
    {
      data := "";
      var fails: bool := *;
      if fails { return -1, ""; }
      assert |source| > 0 ==> 1 <= room && 1 <= |source|;
      var k: nat :| k <= room && k <= |source| && (|source| > 0 ==> k > 0);
      data, source := source[..k], source[k..];
      rc := k;
    }

    /** libsnet/snet.c:987-995: the buffered bytes move to the front. */
    method Pullup()
      requires Valid()
      modifies this`cur, this`end, buf
      ensures Valid() && cur == 0 && end == old(end) - old(cur)
      ensures Buffered() == old(Buffered())
    {
      if cur > 0 {
        var n := end - cur;
        ghost var was := Buffered();
        forall i | 0 <= i < n {
          buf[i] := buf[cur + i];
        }
        cur, end := 0, n;
        assert n >= 0 ==> buf[0..n] == was;
      }
    }

    /** libsnet/snet.c:998-1010: a full buffer grows. */
    method Expand() returns (ok: bool)
      requires Valid() && cur == 0
      modifies this`buf
      ensures Valid() && Buffered() == old(Buffered())
      ensures ok ==> end < buf.Length
      ensures !ok ==> old(end) == old(buf).Length >= maxlen > 0 && buf == old(buf)
      ensures buf != old(buf) ==> fresh(buf)
    {
      ok := true;
      if end == buf.Length {
        if maxlen != 0 && buf.Length >= maxlen { return false; }
        var bigger := new char[buf.Length + SNET_BUFLEN];
        forall i | 0 <= i < end {
          bigger[i] := buf[i];
        }
        assert bigger[0..end] == buf[0..end];
        buf := bigger;
      }
    }

    method Append(data: string)
      requires Valid() && cur == 0 <= end && end + |data| <= buf.Length
      modifies this`end, buf
      ensures Valid() && Buffered() == old(Buffered()) + data && end == old(end) + |data|
    {
      ghost var was := Buffered();
      forall i | 0 <= i < |data| {
        buf[end + i] := data[i];
      }
      end := end + |data|;
      assert buf[0..end] == was + data;
    }

    method ReadMore() returns (r: Fetched)
      requires Valid() && cur == 0 && end < buf.Length
      modifies this`end, this`source, buf
      ensures Valid() && Unread() == old(Unread()) && |source| <= |old(source)|
      ensures r.Data? ==> end > old(end) && end > 0 && |source| < |old(source)|
      ensures !r.Data? ==> end == old(end)
      ensures r.Eof? ==> source == ""
      ensures !r.TooLong?
    {
      ghost var was, src := Buffered(), source;
      var rc, data := Read(buf.Length - end);
      if rc <= 0 { return if rc < 0 then Failed else Eof; }
      Append(data);
      assert was + (data + source) == Unread();
      return Data;
    }

    /** libsnet/snet.c:985-1028: more bytes behind those that are buffered. */
    method Fetch() returns (r: Fetched)
      requires Valid()
      modifies this`cur, this`end, this`buf, this`source, buf
      ensures Valid() && Unread() == old(Unread()) && (buf == old(buf) || fresh(buf))
      ensures cur == 0 && |source| <= |old(source)|
      ensures r.Data? ==> end > 0 && end > old(end) - old(cur) && |source| < |old(source)|
      ensures !r.Data? ==> end == old(end) - old(cur)
      ensures r.Eof? ==> source == "" && end < buf.Length
      ensures r.TooLong? ==> end >= maxlen > 0
    {
      Pullup();
      var ok := Expand();
      if !ok { return TooLong; }
      r := ReadMore();
    }

    /** The search for the end of the line goes on behind what was buffered. */
    method FetchAt(eol: int) returns (r: Fetched, now: int)
      requires Valid() && At(eol) && eol >= end
      modifies this`cur, this`end, this`buf, this`source, buf
      ensures Valid() && Unread() == old(Unread()) && (buf == old(buf) || fresh(buf))
      ensures At(now) && now - cur == eol - old(cur) && |source| <= |old(source)|
      ensures r.Data? ==> now < end && |source| < |old(source)|
      ensures !r.Data? ==> now >= end
      ensures r.Eof? ==> source == "" && end < buf.Length
      ensures r.TooLong? ==> now - cur >= maxlen > 0
    {
      var n := eol - cur;
      r := Fetch();
      now := cur + n;
    }

    method FetchMore(eol: int, ghost u: string, ghost st: State) returns (r: Fetched, now: int)
      requires Searching(eol, u, st) && eol >= end
      modifies this`cur, this`end, this`buf, this`source, buf
      ensures Searching(now, u, st) && (buf == old(buf) || fresh(buf)) && |source| <= |old(source)|
      ensures r.Data? ==> now < end && |source| < |old(source)|
      ensures !r.Data? ==> now >= end
      ensures r.Eof? ==> source == "" && end < buf.Length
      ensures r.TooLong? ==> now - cur >= maxlen > 0
    {
      r, now := FetchAt(eol);
    }

    /** No terminator is in front of `eol`, and the line that comes next is still that of `u`. */
    ghost predicate Searching(eol: int, u: string, st: State)
      reads this, buf
    {
      Valid() && At(eol) && SameNext(Unread(), state, u, st) && Scanned(Unread(), state, eol - cur)
    }

    /** The search is at `eol`: inside the buffered bytes or right behind them. */
    ghost predicate At(eol: int)
      reads this`cur, this`end
    {
      if cur <= end then cur <= eol <= end else eol == cur
    }

    /** libsnet/snet.c:1035-1039: an LF that completes the previous terminator is passed over. */
    method SkipLf()
      requires Valid() && cur < end && buf[cur] == '\n' && state == Fuzzy
      modifies this`cur, this`state
      ensures Valid() && state == Bol && cur == old(cur) + 1 <= end
      ensures old(Unread())[0] == '\n' && Unread() == old(Unread())[1..]
    {
      assert Unread()[0] == '\n';
      ghost var t := Unread();
      state := Bol;
      cur := cur + 1;
      assert Unread() == t[1..];
    }

    /** libsnet/snet.c:1047-1050: the line up to `eol` is handed out. */
    method TakeLine(eol: int) returns (line: string)
      requires Valid() && cur <= eol <= end && eol < buf.Length && (eol == end ==> source == "" && cur < end)
      modifies this`cur, buf
      ensures Valid() && line == old(Unread())[..eol - old(cur)]
      ensures eol < end ==> Unread() == old(Unread())[eol - old(cur) + 1..]
      ensures eol == end ==> Unread() == "" && line == old(Unread())
    {
      ghost var t, n := Unread(), eol - cur;
      line := buf[cur..eol];
      assert t[..n] == line;
      buf[eol] := '\0';
      cur := eol + 1;
      assert eol < end ==> Unread() == t[n + 1..];
    }

    /** libsnet/snet.c:1031-1044: the byte at `eol` ends the line, completes an earlier terminator, or is part of
      * the line.
      */
    method Inspect(eol: int, ghost u: string, ghost st: State) returns (found: bool, now: int)
      requires Searching(eol, u, st) && eol < end
      modifies this`cur, this`state
      ensures Searching(now, u, st)
      ensures if found then now == eol && Terminator(buf[eol]) && !(buf[eol] == '\n' && state == Fuzzy)
          else now == eol + 1
    {
      ghost var t := Unread();
      UnreadAt(eol);
      if Terminator(buf[eol]) {
        if buf[eol] != '\n' || state != Fuzzy { return true, eol; }
        LfSkipped(t, u, st);
        SkipLf();
      } else {
        ScanOne(t, state, eol - cur, u, st);
        state := In;
      }
      return false, eol + 1;
    }

    /** One byte further, fetched if need be. */
    method SearchOn(eol: int, ghost u: string, ghost st: State) returns (found: bool, now: int, why: Fetched)
      requires Searching(eol, u, st)
      modifies this`cur, this`end, this`state, this`buf, this`source, buf
      ensures Searching(now, u, st) && (buf == old(buf) || fresh(buf))
      ensures found ==> why.Data? && now < end && Terminator(buf[now]) && !(buf[now] == '\n' && state == Fuzzy)
      ensures !found && why.Data? ==>
          |source| < |old(source)| || (|source| == |old(source)| && end - now < old(end) - eol)
      ensures why.Eof? ==> source == "" && end <= now && end < buf.Length
      ensures why.TooLong? ==> maxlen > 0 && now - cur >= maxlen
    {
      now, why := eol, Data;
      if eol >= end {
        why, now := FetchMore(eol, u, st);
        if !why.Data? { return false, now, why; }
      }
      found, now := Inspect(now, u, st);
    }

    /** libsnet/snet.c:984-1045: the end of the next line is searched for, fetching more bytes as needed. */
    method FindEol(ghost u: string, ghost st: State) returns (eol: int, why: Fetched)
      requires Valid() && u == Unread() && st == state
      modifies this`cur, this`end, this`state, this`buf, this`source, buf
      ensures Searching(eol, u, st) && (buf == old(buf) || fresh(buf))
      ensures why.Data? ==> eol < end && Terminator(buf[eol]) && !(buf[eol] == '\n' && state == Fuzzy)
      ensures why.Eof? ==> source == "" && end <= eol && end < buf.Length
      ensures why.TooLong? ==> maxlen > 0 && eol - cur >= maxlen
    {
      eol := cur;
      while true
        invariant Searching(eol, u, st) && (buf == old(buf) || fresh(buf))
        decreases |source|, end - eol
      {
        var found;
        found, eol, why := SearchOn(eol, u, st);
        if found || !why.Data? { return; }
      }
    }

    /** libsnet/snet.c:1031-1050: the line ends at a terminator, or at the end of the source. */
    method EndLine(eol: int, atEof: bool) returns (line: string)
      requires Valid() && cur <= eol <= end && cur < end && eol < buf.Length && Scanned(Unread(), state, eol - cur)
      requires if atEof then eol == end && source == ""
          else eol < end && Terminator(buf[eol]) && !(buf[eol] == '\n' && state == Fuzzy)
      modifies this`cur, this`state, buf
      ensures Valid() && NextLine(old(Unread()), old(state)) == Some(Split(line, Unread(), state))
    {
      ghost var t, n := Unread(), eol - cur;
      UnreadAt(cur);
      assert atEof ==> |t| == n;
      if atEof {
        LastLine(t, state);
      } else {
        UnreadAt(eol);
        LineEnds(t, state, n);
        state := if buf[eol] == '\n' then Bol else Fuzzy;
      }
      line := TakeLine(eol);
    }

    /** libsnet/snet.c:976-1051.  A line that is returned is the next one of the unread stream; when none is,
      * nothing is lost: the stream still has the same lines.
      */
    method GetLine() returns (line: Option<string>, why: Fetched)
      requires Valid()
      modifies this`cur, this`end, this`state, this`buf, this`source, buf
      ensures Valid() && (buf == old(buf) || fresh(buf))
      ensures line.Some? ==> NextLine(old(Unread()), old(state)) == Some(Split(line.value, Unread(), state))
      ensures line.None? ==> NextLine(Unread(), state) == NextLine(old(Unread()), old(state)) && !why.Data?
      ensures line.None? && why.Eof? ==> NextLine(old(Unread()), old(state)) == None
      ensures line.None? && why.TooLong? ==> maxlen > 0 && LineLength(Unread(), state) >= maxlen
    {
      var eol;
      eol, why := FindEol(Unread(), state);
      assert LineLength(Unread(), state) >= eol - cur by {
        AtLeast(Unread(), state, eol - cur);
      }
      if !why.Data? && !(why.Eof? && cur < end) { return None, why; }
      var l := EndLine(eol, why.Eof?);
      line := Some(l);
    }

    /** libsnet/snet.c:909-925 */
    method HasData() returns (some: bool)
      requires Valid()
      modifies this`cur, this`state
      ensures Valid() && SameNext(Unread(), state, old(Unread()), old(state))
      ensures some <==> cur < end
      ensures some ==> state != Fuzzy
    {
      if cur < end && state == Fuzzy {
        ghost var t := Unread();
        UnreadAt(cur);
        NotFuzzy(t);
        if buf[cur] == '\n' {
          SkipLf();
        } else {
          state := Bol;
        }
      }
      return cur < end;
    }
  }

  /** All lines that `sn` still has, however its reads deliver the bytes and wherever up to `patience` of them fail:
    * the result depends on the byte stream alone.
    */
  method CollectLines(sn: Snet, patience: nat) returns (lines: seq<string>, why: Fetched)
    requires sn.Valid()
    modifies sn, sn.buf
    ensures sn.Valid() && Lines(old(sn.Unread()), old(sn.state)) == lines + Lines(sn.Unread(), sn.state)
    ensures why.Eof? ==> lines == Lines(old(sn.Unread()), old(sn.state))
    ensures why.TooLong? ==> sn.maxlen > 0 && LineLength(sn.Unread(), sn.state) >= sn.maxlen
  {
    lines, why := [], Data;
    var left := patience;
    while true
      invariant sn.Valid() && (sn.buf == old(sn.buf) || fresh(sn.buf))
      invariant Lines(old(sn.Unread()), old(sn.state)) == lines + Lines(sn.Unread(), sn.state)
      decreases left, |sn.Unread()|
    {
      var line;
      ghost var u, st := sn.Unread(), sn.state;
      line, why := sn.GetLine();
      match line {
        case Some(l) =>
          MoreLines(u, st, Split(l, sn.Unread(), sn.state), lines);
          lines := lines + [l];
        case None =>
          SameLines(u, st, sn.Unread(), sn.state);
          if why.Eof? || why.TooLong? || left == 0 { return; }
          left := left - 1;
      }
    }
  }

  /** The length of the line that a stream begins with. */
  ghost function LineLength(s: string, st: State): nat {
    PlainLength(Skip(s, st))
  }

  /** `n` bytes of the stream `t` have been looked at, and no terminator was among them. */
  ghost predicate Scanned(t: string, st: State, n: int) {
    0 <= n <= |t| && (forall i :: 0 <= i < n ==> !Terminator(t[i])) && (n > 0 ==> st.In?)
  }

  /** The same line comes next. */
  ghost predicate SameNext(t: string, state: State, u: string, st: State) {
    NextLine(t, state) == NextLine(u, st) && LineLength(t, state) == LineLength(u, st)
  }

  lemma LfSkipped(t: string, u: string, st: State)
    requires t != "" && t[0] == '\n' && SameNext(t, Fuzzy, u, st)
    ensures SameNext(t[1..], Bol, u, st)
  {}

  lemma ScanOne(t: string, state: State, n: int, u: string, st: State)
    requires Scanned(t, state, n) && n < |t| && !Terminator(t[n]) && SameNext(t, state, u, st)
    ensures Scanned(t, In, n + 1) && SameNext(t, In, u, st)
  {}

  /** Once the next byte is known, it is known whether it belongs to the last line. */
  lemma NotFuzzy(t: string)
    requires t != ""
    ensures if t[0] == '\n' then SameNext(t[1..], Bol, t, Fuzzy) else SameNext(t, Bol, t, Fuzzy)
  {}

  lemma LineEnds(t: string, st: State, n: int)
    requires Scanned(t, st, n) && n < |t| && Terminator(t[n]) && !(t[n] == '\n' && st == Fuzzy)
    ensures NextLine(t, st) == Some(Split(t[..n], t[n + 1..], if t[n] == '\n' then Bol else Fuzzy))
  {}

  lemma LastLine(t: string, st: State)
    requires Scanned(t, st, |t|) && |t| > 0
    ensures NextLine(t, st) == Some(Split(t, "", st))
  {}

  lemma AtLeast(t: string, st: State, n: int)
    requires Scanned(t, st, n)
    ensures LineLength(t, st) >= n
  {}

  /** All lines are shorter than the longest one that a reader takes, if it has such a limit. */
  ghost predicate Short(lines: seq<string>, maxlen: nat) {
    maxlen == 0 || (maxlen > 1 && forall line :: line in lines ==> |line| + 1 < maxlen)
  }

  /** A reader that finds a line too long has one among its lines. */
  lemma TooLongIsListed(all: seq<string>, sent: seq<string>, s: string, st: State, maxlen: nat)
    requires all == sent + Lines(s, st) && 0 < maxlen <= LineLength(s, st)
    ensures !Short(all, maxlen)
  {}
}
