/** Writing and reading envelope files line by line (envelope.c:510-642 and 864-1143). */
module EfileIO {
  import opened Options
  import opened LineSplit
  import opened LineReader
  import opened Efile

  // ---------- env_tfile ----------

  lemma Put(text: string, line: string, rest: seq<string>)
    ensures text + Unlines([line] + rest, "\n") == (text + (line + "\n")) + Unlines(rest, "\n")
  {}

  /** fprintf of one line; `rest` is what is still to be written. */
  method Print(text: string, tag: char, value: string, ghost rest: seq<string>) returns (r: string)
    ensures r + Unlines(rest, "\n") == text + Unlines(Line(tag, value, rest), "\n")
  {
    Put(text, [tag] + value, rest);
    r := text + ([tag] + value + "\n");
  }

  /** envelope.c:614-626 */
  method PrintRcpts(text: string, rcpts: seq<string>) returns (r: string)
    ensures r == text + Unlines(Rlines(rcpts), "\n")
  {
    r := text;
    for k := 0 to |rcpts|
      invariant r + Unlines(Rlines(rcpts[k..]), "\n") == text + Unlines(Rlines(rcpts), "\n")
    {
      assert rcpts[k..][1..] == rcpts[k + 1..];
      r := Print(r, 'R', rcpts[k], Rlines(rcpts[k + 1..]));
    }
    assert r + "" == r;
  }

  /** envelope.c:510-642; the file is refused if the envelope has no recipient, and any write can fail. */
  method WriteEfile(e: Meta) returns (ok: bool, written: bool, text: string)
    requires e.dinode > 0
    ensures ok <==> written && e.rcpts != []
    ensures ok ==> text == Unlines(EfileLines(e), "\n")
  {
    ghost var a := AddressLines(e);
    ghost var j := Line('J', PrintInt(e.jail), a);
    ghost var x := Line('X', PrintInt(e.level), j);
    ghost var i := Line('I', PrintInt(e.dinode), x);
    ghost var f := Line('F', OrEmpty(e.mail), Rlines(e.rcpts));
    text := "";
    text := Print(text, 'V', PrintInt(SIMTA_EFILE_VERSION), Line('E', e.id, i));
    text := Print(text, 'E', e.id, i);
    text := Print(text, 'I', PrintInt(e.dinode), x);
    text := Print(text, 'X', PrintInt(e.level), j);
    text := Print(text, 'J', PrintInt(e.jail), a);
    text := Print(text, 'H', WrittenHost(e), Line('D', PrintInt(e.attributes), f));
    text := Print(text, 'D', PrintInt(e.attributes), f);
    text := Print(text, 'F', OrEmpty(e.mail), Rlines(e.rcpts));
    text := PrintRcpts(text, e.rcpts);
    written := *;
    ok := written && e.rcpts != [];
  }

  // ---------- env_read ----------

  /** What keeps a reader from going on, other than the end of the file. */
  datatype Fault = NoFault | ReadFailed | LineTooLong

  /** With short lines only a read can fail, and the lines that are left are short. */
  ghost predicate Bearable(snet: Snet, ls: seq<string>, fault: Fault)
    requires snet.Valid()
    reads snet, snet.buf
  {
    Short(ls, snet.maxlen) ==> !fault.LineTooLong? && Short(Lines(snet.Unread(), snet.state), snet.maxlen)
  }

  lemma TailIsShort(ls: seq<string>, maxlen: nat)
    requires ls != []
    ensures Short(ls, maxlen) ==> Short(ls[1..], maxlen)
  {}

  /** One line, if there is one and it can be read. */
  method ReadLine(snet: Snet, ghost ls: seq<string>) returns (line: Option<string>, fault: Fault)
    requires snet.Valid() && ls == Lines(snet.Unread(), snet.state)
    modifies snet, snet.buf
    ensures snet.Valid() && (snet.buf == old(snet.buf) || fresh(snet.buf)) && Bearable(snet, ls, fault)
    ensures line.Some? ==>
        ls != [] && line.value == ls[0] && Lines(snet.Unread(), snet.state) == ls[1..] && fault.NoFault?
    ensures line.None? && fault.NoFault? ==> ls == []
  {
    ghost var u, st := snet.Unread(), snet.state;
    var why;
    line, why := snet.GetLine();
    fault := if line.Some? || why.Eof? then NoFault else if why.TooLong? then LineTooLong else ReadFailed;
    if line.Some? {
      MoreLines(u, st, Split(line.value, snet.Unread(), snet.state), []);
      TailIsShort(ls, snet.maxlen);
    } else {
      SameLines(u, st, snet.Unread(), snet.state);
      if why.TooLong? {
        TooLongIsListed(ls, [], snet.Unread(), snet.state, snet.maxlen);
      }
    }
  }

  predicate HasTag(line: Option<string>, tag: char) {
    line.Some? && line.value != "" && line.value[0] == tag
  }

  method ReadTagged(snet: Snet, tag: char, ghost ls: seq<string>) returns (r: Scan<string>, fault: Fault)
    requires snet.Valid() && ls == Lines(snet.Unread(), snet.state)
    modifies snet, snet.buf
    ensures snet.Valid() && (snet.buf == old(snet.buf) || fresh(snet.buf)) && Bearable(snet, ls, fault)
    ensures r.Ok? ==> Tagged(ls, tag) == Ok(Item(r.value, Lines(snet.Unread(), snet.state))) && fault.NoFault?
    ensures r.Bad? && fault.NoFault? ==> Tagged(ls, tag) == Bad
  {
    var line;
    line, fault := ReadLine(snet, ls);
    r := if HasTag(line, tag) then Ok(line.value[1..]) else Bad;
  }

  method ReadInt(snet: Snet, tag: char, ghost ls: seq<string>) returns (r: Scan<int>, fault: Fault)
    requires snet.Valid() && ls == Lines(snet.Unread(), snet.state)
    modifies snet, snet.buf
    ensures snet.Valid() && (snet.buf == old(snet.buf) || fresh(snet.buf)) && Bearable(snet, ls, fault)
    ensures r.Ok? ==> TaggedInt(ls, tag) == Ok(Item(r.value, Lines(snet.Unread(), snet.state))) && fault.NoFault?
    ensures r.Bad? && fault.NoFault? ==> TaggedInt(ls, tag) == Bad
  {
    var text;
    text, fault := ReadTagged(snet, tag, ls);
    if text.Bad? { return Bad, fault; }
    r := ScanInt(text.value);
  }

  method ReadSince(snet: Snet, version: int, first: int, tag: char, known: int, ghost ls: seq<string>)
    returns (r: Scan<int>, fault: Fault)
    requires snet.Valid() && ls == Lines(snet.Unread(), snet.state)
    modifies snet, snet.buf
    ensures snet.Valid() && (snet.buf == old(snet.buf) || fresh(snet.buf)) && Bearable(snet, ls, fault)
    ensures r.Ok? ==>
        Since(version, first, ls, tag, known) == Ok(Item(r.value, Lines(snet.Unread(), snet.state))) && fault.NoFault?
    ensures r.Bad? && fault.NoFault? ==> Since(version, first, ls, tag, known) == Bad
  {
    if version < first { return Ok(known), NoFault; }
    r, fault := ReadInt(snet, tag, ls);
  }

  /** envelope.c:895-909: an M line may come before the inode. */
  method ReadPastMid(snet: Snet, ghost ls: seq<string>)
    returns (line: Option<string>, fault: Fault, ghost left: seq<string>)
    requires snet.Valid() && ls == Lines(snet.Unread(), snet.state)
    modifies snet, snet.buf
    ensures snet.Valid() && (snet.buf == old(snet.buf) || fresh(snet.buf)) && Bearable(snet, ls, fault)
    ensures line.Some? ==> SkipMid(ls) == Ok(left) && fault.NoFault?
    ensures line.Some? ==> left != [] && line.value == left[0] && Lines(snet.Unread(), snet.state) == left[1..]
    ensures line.None? && fault.NoFault? ==> SkipMid(ls) == Bad
  {
    left := ls;
    line, fault := ReadLine(snet, ls);
    if HasTag(line, 'M') {
      left := ls[1..];
      line, fault := ReadLine(snet, left);
    }
  }

  /** envelope.c:895-920 */
  method ReadInode(snet: Snet, ghost ls: seq<string>) returns (r: Scan<int>, fault: Fault)
    requires snet.Valid() && ls == Lines(snet.Unread(), snet.state)
    modifies snet, snet.buf
    ensures snet.Valid() && (snet.buf == old(snet.buf) || fresh(snet.buf)) && Bearable(snet, ls, fault)
    ensures r.Ok? ==>
        SkipMid(ls).Ok? && TaggedInt(SkipMid(ls).value, 'I') ==
        Ok(Item(r.value, Lines(snet.Unread(), snet.state))) && fault.NoFault?
    ensures r.Bad? && fault.NoFault? ==> SkipMid(ls).Bad? || TaggedInt(SkipMid(ls).value, 'I') == Bad
  {
    var line;
    ghost var left;
    line, fault, left := ReadPastMid(snet, ls);
    if !HasTag(line, 'I') { return Bad, fault; }
    r := ScanInt(line.value[1..]);
  }

  /** envelope.c:864-875 */
  method ReadVersionLine(snet: Snet, ghost ls: seq<string>) returns (r: Scan<int>, fault: Fault)
    requires snet.Valid() && ls == Lines(snet.Unread(), snet.state)
    modifies snet, snet.buf
    ensures snet.Valid() && (snet.buf == old(snet.buf) || fresh(snet.buf)) && Bearable(snet, ls, fault)
    ensures r.Ok? ==> ReadVersion(ls) == Ok(Item(r.value, Lines(snet.Unread(), snet.state))) && fault.NoFault?
    ensures r.Bad? && fault.NoFault? ==> ReadVersion(ls) == Bad
  {
    r, fault := ReadInt(snet, 'V', ls);
    if r.Ok? && !(1 <= r.value <= SIMTA_EFILE_VERSION) {
      r := Bad;
    }
  }

  /** envelope.c:877-893: from version 2 on, the queue id. */
  method ReadIdLine(snet: Snet, version: int, id: string, ghost ls: seq<string>) returns (ok: bool, fault: Fault)
    requires snet.Valid() && ls == Lines(snet.Unread(), snet.state)
    modifies snet, snet.buf
    ensures snet.Valid() && (snet.buf == old(snet.buf) || fresh(snet.buf)) && Bearable(snet, ls, fault)
    ensures ok ==> ReadId(ls, version, id) == Ok(Lines(snet.Unread(), snet.state)) && fault.NoFault?
    ensures !ok && fault.NoFault? ==> ReadId(ls, version, id) == Bad
  {
    if version < 2 { return true, NoFault; }
    var i;
    i, fault := ReadTagged(snet, 'E', ls);
    ok := i.Ok? && i.value == id;
  }

  /** envelope.c:864-893 */
  method ReadStart(snet: Snet, id: string, ghost ls: seq<string>) returns (r: Scan<int>, fault: Fault)
    requires snet.Valid() && ls == Lines(snet.Unread(), snet.state)
    modifies snet, snet.buf
    ensures snet.Valid() && (snet.buf == old(snet.buf) || fresh(snet.buf)) && Bearable(snet, ls, fault)
    ensures r.Ok? ==> ReadVersion(ls).Ok? && ReadVersion(ls).value.value == r.value && fault.NoFault?
                      && ReadId(ReadVersion(ls).value.rest, r.value, id) == Ok(Lines(snet.Unread(), snet.state))
    ensures r.Bad? && fault.NoFault? ==>
        ReadVersion(ls).Bad? || ReadId(ReadVersion(ls).value.rest, ReadVersion(ls).value.value, id).Bad?
  {
    r, fault := ReadVersionLine(snet, ls);
    if r.Ok? {
      var ok;
      ok, fault := ReadIdLine(snet, r.value, id, Lines(snet.Unread(), snet.state));
      if !ok {
        r := Bad;
      }
    }
  }

  /** envelope.c:864-1022 */
  method ReadNumberLines(snet: Snet, mode: Mode, e: Meta, ghost ls: seq<string>)
    returns (r: Scan<(int, Meta)>, fault: Fault)
    requires snet.Valid() && ls == Lines(snet.Unread(), snet.state)
    modifies snet, snet.buf
    ensures snet.Valid() && (snet.buf == old(snet.buf) || fresh(snet.buf)) && Bearable(snet, ls, fault)
    ensures r.Ok? ==> ReadNumbers(ls, mode, e) == Ok(Item(r.value, Lines(snet.Unread(), snet.state))) && fault.NoFault?
    ensures r.Bad? && fault.NoFault? ==> ReadNumbers(ls, mode, e) == Bad
  {
    var v, i, x, j;
    v, fault := ReadStart(snet, e.id, ls);
    if v.Bad? { return Bad, fault; }
    ghost var l := Lines(snet.Unread(), snet.state);
    i, fault := ReadInode(snet, l);
    if i.Bad? { return Bad, fault; }
    l := Lines(snet.Unread(), snet.state);
    x, fault := ReadSince(snet, v.value, 3, 'X', e.level, l);
    if x.Bad? { return Bad, fault; }
    l := Lines(snet.Unread(), snet.state);
    j, fault := ReadSince(snet, v.value, 5, 'J', e.jail, l);
    if j.Bad? || i.value < 0 { return Bad, fault; }
    r := Ok((v.value, if mode.Queue? then e.(dinode := i.value, level := x.value, jail := j.value) else e));
  }

  /** envelope.c:1123-1141 */
  method ReadRcptLines(snet: Snet, known: seq<string>, ghost ls: seq<string>)
    returns (r: Scan<seq<string>>, fault: Fault)
    requires snet.Valid() && ls == Lines(snet.Unread(), snet.state)
    modifies snet, snet.buf
    ensures fault.NoFault? ==> r == ReadRcpts(ls, known)
    ensures Short(ls, snet.maxlen) ==> !fault.LineTooLong?
    ensures !fault.NoFault? ==> r.Bad?
  {
    var rcpts := known;
    ghost var left := ls;
    while true
      invariant snet.Valid() && (snet.buf == old(snet.buf) || fresh(snet.buf))
      invariant left == Lines(snet.Unread(), snet.state) && ReadRcpts(left, rcpts) == ReadRcpts(ls, known)
      invariant Short(ls, snet.maxlen) ==> Short(left, snet.maxlen)
      decreases |left|
    {
      var line;
      line, fault := ReadLine(snet, left);
      if !fault.NoFault? { return Bad, fault; }
      if line.None? { return if rcpts == [] then Bad else Ok(rcpts), NoFault; }
      if !HasTag(line, 'R') { return Bad, NoFault; }
      rcpts := [line.value[1..]] + rcpts;
      left := left[1..];
    }
  }

  /** env_read, envelope.c:789-1143 */
  method EnvRead(snet: Snet, mode: Mode, e: Meta, ghost ls: seq<string>) returns (r: Scan<Meta>, fault: Fault)
    requires snet.Valid() && ls == Lines(snet.Unread(), snet.state)
    modifies snet, snet.buf
    ensures fault.NoFault? ==> r == ReadEnv(ls, mode, e)
    ensures Short(ls, snet.maxlen) ==> !fault.LineTooLong?
    ensures !fault.NoFault? ==> r.Bad?
  {
    var n, h, d, f;
    n, fault := ReadNumberLines(snet, mode, e, ls);
    if n.Bad? { return Bad, fault; }
    h, fault := ReadTagged(snet, 'H', Lines(snet.Unread(), snet.state));
    if h.Bad? { return Bad, fault; }
    var host := ReadHost(mode, e.hostname, h.value);
    if host.Bad? { return Bad, NoFault; }
    d, fault := ReadSince(snet, n.value.0, 4, 'D', e.attributes, Lines(snet.Unread(), snet.state));
    if d.Bad? { return Bad, fault; }
    f, fault := ReadTagged(snet, 'F', Lines(snet.Unread(), snet.state));
    if f.Bad? { return Bad, fault; }
    var mail := ReadMail(mode, e.mail, f.value);
    if mail.Bad? { return Bad, NoFault; }
    match mode {
      case Queue =>
        r := Ok(n.value.1.(hostname := host.value, attributes := d.value, mail := mail.value));
      case Deliver =>
        var rcpts;
        rcpts, fault := ReadRcptLines(snet, e.rcpts, Lines(snet.Unread(), snet.state));
        r := if rcpts.Bad? then Bad else Ok(n.value.1.(rcpts := rcpts.value));
    }
  }

  const EFILE_MAXLEN := 1024 * 1024

  /** A file is read for the first time, and then again. */
  method ReadTwice(text: string, known: Meta, ghost ls: seq<string>) returns (r: Scan<Meta>, fault: Fault)
    requires ls == Lines(text, Bol) && ReadEnv(ls, Queue, known).Ok?
    ensures fault.NoFault? ==> r == ReadEnv(ls, Deliver, ReadEnv(ls, Queue, known).value)
    ensures Short(ls, EFILE_MAXLEN) ==> !fault.LineTooLong?
  {
    var snet := new Snet(text, EFILE_MAXLEN);
    r, fault := EnvRead(snet, Queue, known, ls);
    if fault.NoFault? {
      snet := new Snet(text, EFILE_MAXLEN);
      r, fault := EnvRead(snet, Deliver, r.value, ls);
    }
  }

  /** The fields that two readings restore. */
  ghost predicate Reloaded(e: Meta, known: Meta, r: Meta) {
    && r.id == e.id && r.dead == known.dead && r.dinode == e.dinode && r.level == e.level
    && r.jail == e.jail && r.attributes == e.attributes
    && r.hostname == (if e.dead || e.hostname == Some("") then None else e.hostname)
    && r.mail == (if e.mail.Some? then e.mail else Some(""))
    && |r.rcpts| == |e.rcpts| && forall i :: 0 <= i < |e.rcpts| ==> r.rcpts[i] == e.rcpts[|e.rcpts| - 1 - i]
  }

  lemma RestoredIsReloaded(e: Meta, known: Meta)
    requires known.id == e.id && known.hostname == None
    ensures Reloaded(e, known, Restored(e, known).(rcpts := Reverse(e.rcpts)))
  {
    ReverseAt(e.rcpts);
  }

  /** A message is written by one process and read by another one, first in queue mode and then in deliver mode.
    * Without a failed write or read, this succeeds for every message that has a recipient and only short lines.
    */
  method StoreAndLoad(e: Meta, known: Meta) returns (ok: bool, written: bool, fault: Fault, r: Scan<Meta>)
    requires e.dinode > 0 && OneLine(e)
    requires known.id == e.id && known.hostname == None && known.mail == None && known.rcpts == []
    ensures ok ==> r.Ok? && r.value.id == e.id && r.value.dead == known.dead
    ensures ok ==> r.value.dinode == e.dinode && r.value.level == e.level
    ensures ok ==> r.value.jail == e.jail && r.value.attributes == e.attributes
    ensures ok ==> r.value.hostname == if e.dead || e.hostname == Some("") then None else e.hostname
    ensures ok ==> r.value.mail == if e.mail.Some? then e.mail else Some("")
    ensures ok ==> |r.value.rcpts| == |e.rcpts|
    ensures ok ==> forall i :: 0 <= i < |e.rcpts| ==> r.value.rcpts[i] == e.rcpts[|e.rcpts| - 1 - i]
    ensures ok <==> written && e.rcpts != [] && fault.NoFault?
    ensures fault.LineTooLong? ==> !Short(EfileLines(e), EFILE_MAXLEN)
  {
    var text;
    ok, written, text := WriteEfile(e);
    r, fault := Bad, NoFault;
    if ok {
      EfileIsLines(e);
      QueueRoundTrip(e, known);
      DeliverRoundTrip(e, known);
      RestoredIsReloaded(e, known);
      r, fault := ReadTwice(text, known, EfileLines(e));
      ok := fault.NoFault?;
    }
  }
}
