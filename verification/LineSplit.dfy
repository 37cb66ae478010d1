/** Splitting a byte stream into lines, and SMTP dot transparency on top of it.
  *
  * A line ends at CR, LF, CR LF, NUL or NUL LF.  `NextLine` and `Lines` say what `snet_getline`
  * (libsnet/snet.c:976-1051) returns for a whole stream; LineReader implements them over a buffer that is filled
  * chunk by chunk.
  */
module LineSplit {
  import opened Options

  /** `sn_rstate`: at the beginning of a line, after a CR or NUL that an LF may follow, or inside a line. */
  datatype State = Bol | Fuzzy | In

  datatype Split = Split(line: string, rest: string, state: State)

  predicate Terminator(c: char) {
    c == '\r' || c == '\n' || c == '\0'
  }

  predicate Plain(line: string) {
    forall i :: 0 <= i < |line| ==> !Terminator(line[i])
  }

  /** The length of the longest prefix without a terminator. */
  function PlainLength(s: string): (n: nat)
    ensures n <= |s| && (forall i :: 0 <= i < n ==> !Terminator(s[i])) && (n < |s| ==> Terminator(s[n]))
  {
    if s == "" || Terminator(s[0]) then 0 else 1 + PlainLength(s[1..])
  }

  /** An LF right after a CR or NUL belongs to the terminator before it. */
  function Skip(s: string, st: State): string {
    if st == Fuzzy && s != "" && s[0] == '\n' then s[1..] else s
  }

  /** The first line of the stream `s`; the last line needs no terminator. */
  function NextLine(s: string, st: State): Option<Split> {
    var t := Skip(s, st);
    var n := PlainLength(t);
    if n < |t| then Some(Split(t[..n], t[n + 1..], if t[n] == '\n' then Bol else Fuzzy))
    else if n > 0 then Some(Split(t, "", In))
    else None
  }

  /** All lines of the stream `s`. */
  function Lines(s: string, st: State): seq<string>
    decreases |s|
  {
    match NextLine(s, st)
    case None => []
    case Some(p) => [p.line] + Lines(p.rest, p.state)
  }

  /** What NextLine finds, in terms of the position of the terminator. */
  lemma NextLineAt(s: string, st: State, n: nat)
    requires n <= |s| && (forall i :: 0 <= i < n ==> !Terminator(s[i])) && !(st == Fuzzy && s != "" && s[0] == '\n')
    ensures n < |s| && Terminator(s[n]) ==>
        NextLine(s, st) == Some(Split(s[..n], s[n + 1..], if s[n] == '\n' then Bol else Fuzzy))
    ensures n == |s| > 0 ==> NextLine(s, st) == Some(Split(s, "", In))
    ensures s == "" ==> NextLine(s, st) == None
  {}

  /** CR, LF and NUL each end a line, and nothing else does. */
  lemma LineEndsHere(line: string, c: char, rest: string)
    requires c in {'\r', '\n', '\0'} && '\r' !in line && '\n' !in line && '\0' !in line
    ensures Lines(line + [c] + rest, Bol) == [line] + Lines(rest, if c == '\n' then Bol else Fuzzy)
  {
    var s := line + [c] + rest;
    assert s[|line|] == c && s[..|line|] == line && s[|line| + 1..] == rest;
    assert forall i :: 0 <= i < |line| ==> s[i] == line[i] && line[i] in line;
    NextLineAt(s, Bol, |line|);
  }

  /** The lines of a stream, one step further. */
  lemma MoreLines(s: string, st: State, p: Split, lines: seq<string>)
    requires NextLine(s, st) == Some(p)
    ensures lines + Lines(s, st) == (lines + [p.line]) + Lines(p.rest, p.state)
    ensures |p.rest| < |s|
  {}

  lemma SameLines(s: string, st: State, t: string, tt: State)
    requires NextLine(s, st) == NextLine(t, tt)
    ensures Lines(s, st) == Lines(t, tt) && Receive(s, st) == Receive(t, tt)
  {}

  /** Every line is plain. */
  lemma {:induction false} LinesArePlain(s: string, st: State)
    ensures forall line :: line in Lines(s, st) ==> Plain(line)
    decreases |s|
  {
    match NextLine(s, st) {
      case None =>
      case Some(p) =>
        LinesArePlain(p.rest, p.state);
    }
  }

  // ---------- Writing lines ----------

  function Unlines(lines: seq<string>, eol: string): string {
    if lines == [] then "" else lines[0] + eol + Unlines(lines[1..], eol)
  }

  /** One written line in front of `tail` is read back. */
  lemma WrittenLine(line: string, tail: string, st: State)
    requires Plain(line)
    ensures NextLine(line + "\r\n" + tail, st) == Some(Split(line, "\n" + tail, Fuzzy))
    ensures !(st == Fuzzy && line == "") ==> NextLine(line + "\n" + tail, st) == Some(Split(line, tail, Bol))
  {
    var s := line + "\r\n" + tail;
    assert s[..|line|] == line && s[|line| + 1..] == "\n" + tail;
    NextLineAt(s, st, |line|);
    var u := line + "\n" + tail;
    assert u[..|line|] == line && u[|line| + 1..] == tail;
    if !(st == Fuzzy && line == "") {
      NextLineAt(u, st, |line|);
    }
  }

  /** After a CR, the LF that follows it makes no difference. */
  lemma FuzzySkips(tail: string)
    ensures NextLine("\n" + tail, Fuzzy) == NextLine(tail, Bol)
    ensures Lines("\n" + tail, Fuzzy) == Lines(tail, Bol)
  {}

  /** Lines written with CR LF or LF are read back, each exactly once. */
  lemma {:induction false} LinesOfUnlines(lines: seq<string>)
    requires forall line :: line in lines ==> Plain(line)
    ensures Lines(Unlines(lines, "\r\n"), Bol) == lines
    ensures Lines(Unlines(lines, "\n"), Bol) == lines
  {
    if lines != [] {
      LinesOfUnlines(lines[1..]);
      var c, n := Unlines(lines[1..], "\r\n"), Unlines(lines[1..], "\n");
      WrittenLine(lines[0], c, Bol);
      WrittenLine(lines[0], n, Bol);
      FuzzySkips(c);
    }
  }

  // ---------- Dot transparency ----------

  /** smtp.c:893-908: a line that begins with a dot is sent with another one. */
  function Stuff(line: string): string {
    if line != "" && line[0] == '.' then "." + line else line
  }

  /** receive.c:1551-1556 */
  function Unstuff(line: string): string {
    if line != "" && line[0] == '.' then line[1..] else line
  }

  lemma StuffIsPlain(line: string)
    requires Plain(line)
    ensures Plain(Stuff(line)) && Stuff(line) != "." && Unstuff(Stuff(line)) == line
  {}

  /** Section 4.5.2 of RFC 2821: only lines that begin with a dot are touched, so that other programs read the same. */
  lemma OnlyDotsAreStuffed(line: string)
    ensures Stuff("." + line) == ".." + line && Unstuff("." + line) == line
    ensures !("." <= line) ==> Stuff(line) == line && Unstuff(line) == line
  {}

  /** What `smtp_send` writes for the lines of a message. */
  function Wire(lines: seq<string>): string {
    if lines == [] then ".\r\n" else Stuff(lines[0]) + "\r\n" + Wire(lines[1..])
  }

  datatype Received = Received(lines: seq<string>, rest: string, state: State)

  /** What `f_data` stores of the stream `s`, up to the line that is a single dot. */
  function Receive(s: string, st: State): Option<Received>
    decreases |s|
  {
    match NextLine(s, st)
    case None => None
    case Some(p) =>
      if p.line == "." then Some(Received([], p.rest, p.state))
      else
        match Receive(p.rest, p.state)
        case None => None
        case Some(r) => Some(Received([Unstuff(p.line)] + r.lines, r.rest, r.state))
  }

  lemma ReceiveAfterSkip(tail: string)
    ensures Receive("\n" + tail, Fuzzy) == Receive(tail, Bol)
  {
    FuzzySkips(tail);
  }

  /** A stuffed line is stored as the line it was made from. */
  lemma ReceiveStuffed(line: string, more: string, st: State)
    requires Plain(line)
    ensures Receive(Stuff(line) + "\r\n" + more, st) ==
              match Receive(more, Bol)
              case None => None
              case Some(r) => Some(Received([line] + r.lines, r.rest, r.state))
  {
    StuffIsPlain(line);
    WrittenLine(Stuff(line), more, st);
    ReceiveAfterSkip(more);
  }

  lemma ReceiveDot(tail: string, st: State)
    ensures Receive(".\r\n" + tail, st) == Some(Received([], "\n" + tail, Fuzzy))
  {
    WrittenLine(".", tail, st);
    assert ".\r\n" + tail == "." + "\r\n" + tail;
  }

  lemma WireTail(lines: seq<string>, tail: string)
    requires lines != []
    ensures Wire(lines) + tail == Stuff(lines[0]) + "\r\n" + (Wire(lines[1..]) + tail)
  {}

  /** Section 4.5.2 of RFC 2821: the receiver gets exactly the lines that were sent and stops at the final dot,
    * with the LF that completes it as the only thing left before `tail`.
    */
  lemma {:induction false} DotTransparency(lines: seq<string>, tail: string, st: State)
    requires forall line :: line in lines ==> Plain(line)
    ensures Receive(Wire(lines) + tail, st) == Some(Received(lines, "\n" + tail, Fuzzy))
  {
    if lines == [] {
      ReceiveDot(tail, st);
    } else {
      assert [lines[0]] + lines[1..] == lines;
      DotTransparency(lines[1..], tail, Bol);
      ReceiveStuffed(lines[0], Wire(lines[1..]) + tail, st);
      WireTail(lines, tail);
    }
  }

  /** A message keeps its lines on the way from one spool to the next. */
  lemma RelayKeepsLines(dfile: string, tail: string, st: State)
    ensures var r := Receive(Wire(Lines(dfile, Bol)) + tail, st);
            r.Some? && Lines(Unlines(r.value.lines, "\n"), Bol) == Lines(dfile, Bol)
  {
    LinesArePlain(dfile, Bol);
    DotTransparency(Lines(dfile, Bol), tail, st);
    LinesOfUnlines(Lines(dfile, Bol));
  }
}
