/** The message text on its way from one spool to the next: the data loops of smtp_send and f_data. */
module Relay {
  import opened Options
  import opened LineSplit
  import opened LineReader
  import opened Lists

  function SentLine(line: string): string {
    Stuff(line) + "\r\n"
  }

  function StoredLine(line: string): string {
    line + "\n"
  }

  /** The stuffed lines, without the final dot. */
  function Body(lines: seq<string>): string {
    if lines == [] then "" else SentLine(lines[0]) + Body(lines[1..])
  }

  lemma {:induction false} BodyAppend(lines: seq<string>, line: string)
    ensures Body(lines + [line]) == Body(lines) + SentLine(line)
  {
    if lines != [] {
      assert (lines + [line])[1..] == lines[1..] + [line];
      BodyAppend(lines[1..], line);
      Associative(SentLine(lines[0]), Body(lines[1..]), SentLine(line));
    }
  }

  lemma {:induction false} WireIsBody(lines: seq<string>)
    ensures Wire(lines) == Body(lines) + ".\r\n"
  {
    if lines != [] {
      WireIsBody(lines[1..]);
      Associative(SentLine(lines[0]), Body(lines[1..]), ".\r\n");
    }
  }

  lemma {:induction false} UnlinesAppend(lines: seq<string>, line: string)
    ensures Unlines(lines + [line], "\n") == Unlines(lines, "\n") + StoredLine(line)
  {
    if lines != [] {
      assert (lines + [line])[1..] == lines[1..] + [line];
      UnlinesAppend(lines[1..], line);
      Associative(StoredLine(lines[0]), Unlines(lines[1..], "\n"), StoredLine(line));
    }
  }

  /** smtp.c:732-742: the line that is put in front of a message that is only forwarded; it begins with the name of its
    * header field.
    */
  ghost predicate SeenBefore(extra: seq<string>) {
    |extra| <= 1 && forall line :: line in extra ==> Plain(line) && Stuff(line) == line
  }

  /** smtp.c:844-858: the extra line of a message that is only forwarded (ENV_ATTR_ARCHIVE_ONLY). */
  method SendSeenBefore(extra: seq<string>) returns (ok: bool, wire: string)
    requires SeenBefore(extra)
    ensures wire == if ok then Body(extra) else ""
  {
    if extra == [] { return true, ""; }
    ok := *;
    wire := if ok then extra[0] + "\r\n" else "";
    assert extra[1..] == [];
  }

  /** smtp.c:860-910: the lines of the Dfile are sent behind what is on the wire, until it gives no more.  A write can
    * fail.
    */
  method SendLines(dfile: Snet, start: string, ghost extra: seq<string>)
    returns (ok: bool, wire: string, why: Fetched, ghost sent: seq<string>)
    requires dfile.Valid() && start == Body(extra)
    modifies dfile, dfile.buf
    ensures dfile.Valid() && Lines(old(dfile.Unread()), old(dfile.state)) == sent + Lines(dfile.Unread(), dfile.state)
    ensures wire == Body(extra + sent) && (ok ==> !why.Data?)
    ensures ok && why.Eof? ==> sent == Lines(old(dfile.Unread()), old(dfile.state))
    ensures ok && why.TooLong? ==> 0 < dfile.maxlen <= LineLength(dfile.Unread(), dfile.state)
  {
    wire, sent, why := start, [], Data;
    assert extra + sent == extra;
    while true
      invariant dfile.Valid() && (dfile.buf == old(dfile.buf) || fresh(dfile.buf))
      invariant Lines(old(dfile.Unread()), old(dfile.state)) == sent + Lines(dfile.Unread(), dfile.state)
      invariant wire == Body(extra + sent)
      decreases |dfile.Unread()|
    {
      var line;
      ghost var u, st := dfile.Unread(), dfile.state;
      line, why := dfile.GetLine();
      if line.None? {
        SameLines(u, st, dfile.Unread(), dfile.state);
        return true, wire, why, sent;
      }
      MoreLines(u, st, Split(line.value, dfile.Unread(), dfile.state), sent);
      BodyAppend(extra + sent, line.value);
      Associative(extra, sent, [line.value]);
      wire, sent := wire + SentLine(line.value), sent + [line.value];
      ok := *;
      if !ok { return; }
    }
  }

  /** smtp.c:844-918: the extra line, the lines of the Dfile, and the final dot. */
  method SendData(dfile: Snet, extra: seq<string>)
    returns (ok: bool, wire: string, why: Fetched, ghost sent: seq<string>)
    requires dfile.Valid() && SeenBefore(extra)
    modifies dfile, dfile.buf
    ensures dfile.Valid() && Lines(old(dfile.Unread()), old(dfile.state)) == sent + Lines(dfile.Unread(), dfile.state)
    ensures ok ==> wire == Wire(extra + sent) && !why.Data?
    ensures ok && why.Eof? ==> sent == Lines(old(dfile.Unread()), old(dfile.state))
    ensures !ok ==> wire == Body(extra + sent) || (wire == "" && sent == [])
    ensures ok && why.TooLong? ==> !Short(Lines(old(dfile.Unread()), old(dfile.state)), dfile.maxlen)
  {
    ok, wire := SendSeenBefore(extra);
    if !ok { return false, wire, Data, []; }
    ok, wire, why, sent := SendLines(dfile, wire, extra);
    if !ok { return; }
    if why.TooLong? {
      TooLongIsListed(Lines(old(dfile.Unread()), old(dfile.state)), sent, dfile.Unread(), dfile.state, dfile.maxlen);
    }
    ok := *;
    if ok {
      WireIsBody(extra + sent);
      wire := wire + ".\r\n";
    }
  }

  /** `r` with `lines` in front of what it received. */
  ghost function After(lines: seq<string>, r: Option<Received>): Option<Received> {
    match r
    case None => None
    case Some(v) => Some(Received(lines + v.lines, v.rest, v.state))
  }

  lemma AfterNone(r: Option<Received>)
    ensures After([], r) == r
  {
    match r {
      case None =>
      case Some(v) =>
        assert [] + v.lines == v.lines;
    }
  }

  lemma AfterOne(lines: seq<string>, line: string, r: Option<Received>)
    ensures After(lines, After([line], r)) == After(lines + [line], r)
  {
    match r {
      case None =>
      case Some(v) =>
        assert lines + ([line] + v.lines) == lines + [line] + v.lines;
    }
  }

  lemma MoreReceived(s: string, st: State, p: Split, lines: seq<string>)
    requires NextLine(s, st) == Some(p)
    ensures p.line == "." ==> After(lines, Receive(s, st)) == Some(Received(lines, p.rest, p.state))
    ensures p.line != "." ==> After(lines, Receive(s, st)) == After(lines + [Unstuff(p.line)], Receive(p.rest, p.state))
    ensures |p.rest| < |s|
  {
    if p.line == "." {
      assert lines + [] == lines;
    } else {
      AfterOne(lines, Unstuff(p.line), Receive(p.rest, p.state));
    }
  }

  /** receive.c:1504-1612 for a message that is not refused: lines are stored until the single dot. */
  method ReceiveData(snet: Snet) returns (ok: bool, stored: string, why: Fetched, ghost lines: seq<string>)
    requires snet.Valid()
    modifies snet, snet.buf
    ensures snet.Valid() && stored == Unlines(lines, "\n")
    ensures ok ==> Receive(old(snet.Unread()), old(snet.state)) == Some(Received(lines, snet.Unread(), snet.state))
    ensures !ok ==> Receive(old(snet.Unread()), old(snet.state)) == After(lines, Receive(snet.Unread(), snet.state))
    ensures !ok && why.Eof? ==> Receive(old(snet.Unread()), old(snet.state)) == None
    ensures !ok ==>
        !why.Data? && (why.TooLong? ==> snet.maxlen > 0 && LineLength(snet.Unread(), snet.state) >= snet.maxlen)
  {
    stored, lines := "", [];
    AfterNone(Receive(snet.Unread(), snet.state));
    while true
      invariant snet.Valid() && (snet.buf == old(snet.buf) || fresh(snet.buf))
      invariant stored == Unlines(lines, "\n")
      invariant Receive(old(snet.Unread()), old(snet.state)) == After(lines, Receive(snet.Unread(), snet.state))
      decreases |snet.Unread()|
    {
      ghost var u, st := snet.Unread(), snet.state;
      var line;
      line, why := snet.GetLine();
      if line.None? {
        SameLines(u, st, snet.Unread(), snet.state);
        return false, stored, why, lines;
      }
      MoreReceived(u, st, Split(line.value, snet.Unread(), snet.state), lines);
      var text := line.value;
      if text != "" && text[0] == '.' {
        if text == "." { return true, stored, why, lines; }
        text := text[1..];
      }
      UnlinesAppend(lines, text);
      stored, lines := stored + StoredLine(text), lines + [text];
    }
  }

  /** A reader that finds a line too long has been sent one. */
  lemma TooLongWasSent(s: string, st: State, lines: seq<string>, sent: seq<string>, maxlen: nat)
    requires After(lines, Receive(s, st)).Some? && After(lines, Receive(s, st)).value.lines == sent
    requires 0 < maxlen <= LineLength(s, st)
    ensures !Short(sent, maxlen)
  {}

  /** What one host sends is what the next one stores, line for line, behind the extra line if there is one, and nothing
    * after it is touched.  With lines of moderate length this fails only if a write or a read does.
    */
  method Transfer(dfile: Snet, maxlen: nat, extra: seq<string>, tail: string)
    returns (ok: bool, stored: string, written: bool, why: Fetched)
    requires dfile.Valid() && dfile.state == Bol && SeenBefore(extra)
    modifies dfile, dfile.buf
    ensures ok ==> Lines(stored, Bol) == extra + Lines(old(dfile.Unread()), Bol)
    ensures !ok && written && !why.Failed? ==>
              !Short(Lines(old(dfile.Unread()), Bol), dfile.maxlen)
                  || !Short(extra + Lines(old(dfile.Unread()), Bol), maxlen)
  {
    var wire;
    ghost var sent, got;
    written, wire, why, sent := SendData(dfile, extra);
    if !written || !why.Eof? { return false, "", written, why; }
    var snet := new Snet(wire + tail, maxlen);
    LinesArePlain(old(dfile.Unread()), Bol);
    DotTransparency(extra + sent, tail, Bol);
    ok, stored, why, got := ReceiveData(snet);
    if ok {
      LinesOfUnlines(extra + sent);
    } else if why.TooLong? {
      TooLongWasSent(snet.Unread(), snet.state, got, extra + sent, maxlen);
    }
  }
}
