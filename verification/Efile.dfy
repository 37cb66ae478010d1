/** The envelope file: its text as `env_tfile` writes it and `env_read` reads it back (envelope.c:510-642 and
  * 789-1143).
  */
module Efile {
  import opened Options
  import opened LetterCase
  import opened LineSplit

  const SIMTA_EFILE_VERSION := 5

  datatype Scan<T> = Bad | Ok(value: T) {
    predicate IsFailure() { Bad? }

    function PropagateFailure<U>(): Scan<U>
      requires IsFailure()
    {
      Bad
    }

    function Extract(): T
      requires !IsFailure()
    {
      value
    }
  }

  // ---------- Numbers ----------

  function Digit(n: nat): char
    requires n < 10
  {
    '0' + n as char
  }

  predicate IsDigit(c: char) {
    '0' <= c <= '9'
  }

  /** fprintf %lu, and %d of a number that is not negative. */
  function PrintNat(n: nat): string {
    if n < 10 then [Digit(n)] else PrintNat(n / 10) + [Digit(n % 10)]
  }

  function PrintInt(n: int): string {
    if n < 0 then "-" + PrintNat(-n) else PrintNat(n)
  }

  function DigitCount(s: string): (n: nat)
    ensures n <= |s| && (forall i :: 0 <= i < n ==> IsDigit(s[i])) && (n < |s| ==> !IsDigit(s[n]))
  {
    if s == "" || !IsDigit(s[0]) then 0 else 1 + DigitCount(s[1..])
  }

  function DigitsValue(s: string): nat
    requires forall i :: 0 <= i < |s| ==> IsDigit(s[i])
  {
    if s == "" then 0
    else
      assert IsDigit(s[|s| - 1]);
      10 * DigitsValue(s[..|s| - 1]) + (s[|s| - 1] - '0') as nat
  }

  function ScanNat(s: string): Scan<nat> {
    var n := DigitCount(s);
    if n == 0 then Bad else Ok(DigitsValue(s[..n]))
  }

  /** sscanf %d: white space and a sign may come first, and what follows the digits is ignored. */
  function ScanInt(s: string): Scan<int> {
    if s == "" then Bad
    else if s[0] == ' ' || s[0] == '\t' then ScanInt(s[1..])
    else if s[0] == '-' then
      match ScanNat(s[1..])
      case Bad => Bad
      case Ok(n) => Ok(-(n as int))
    else
      match ScanNat(if s[0] == '+' then s[1..] else s)
      case Bad => Bad
      case Ok(n) => Ok(n as int)
  }

  lemma {:induction false} PrintedNat(n: nat)
    ensures |PrintNat(n)| > 0 && (forall i :: 0 <= i < |PrintNat(n)| ==> IsDigit(PrintNat(n)[i]))
    ensures DigitsValue(PrintNat(n)) == n
  {
    if n >= 10 {
      PrintedNat(n / 10);
      var p := PrintNat(n);
      assert p[..|p| - 1] == PrintNat(n / 10);
    }
  }

  /** Blanks in front of a number are passed over. */
  lemma {:induction false} ScanBlanks(pad: string, text: string)
    requires forall i :: 0 <= i < |pad| ==> pad[i] in " \t"
    ensures ScanInt(pad + text) == ScanInt(text)
  {
    if pad == "" {
      assert pad + text == text;
    } else {
      ScanBlanks(pad[1..], text);
      assert (pad + text)[1..] == pad[1..] + text;
    }
  }

  /** There may be a sign, and what follows the digits is ignored. */
  lemma ScanSigned(n: nat, more: string)
    requires more != "" ==> !IsDigit(more[0])
    ensures ScanInt(PrintNat(n) + more) == Ok(n as int)
    ensures ScanInt("+" + (PrintNat(n) + more)) == Ok(n as int)
    ensures ScanInt("-" + (PrintNat(n) + more)) == Ok(-(n as int))
  {
    PrintedNat(n);
    ScanDigits(PrintNat(n), more);
    Signed(PrintNat(n) + more, n);
  }

  lemma Signed(text: string, n: nat)
    requires text != "" && IsDigit(text[0]) && ScanNat(text) == Ok(n)
    ensures ScanInt(text) == Ok(n as int) && ScanInt("+" + text) == Ok(n as int)
    ensures ScanInt("-" + text) == Ok(-(n as int))
  {
    assert ("+" + text)[1..] == text && ("-" + text)[1..] == text;
  }

  lemma {:induction false} ScanDigits(p: string, more: string)
    requires p != "" && (forall i :: 0 <= i < |p| ==> IsDigit(p[i])) && (more != "" ==> !IsDigit(more[0]))
    ensures DigitCount(p + more) == |p| && ScanNat(p + more) == Ok(DigitsValue(p))
  {
    assert (p + more)[1..] == p[1..] + more && (p + more)[..|p|] == p;
    if |p| > 1 {
      ScanDigits(p[1..], more);
    } else {
      assert p[1..] + more == more;
    }
  }

  lemma ScanPrinted(n: int)
    ensures ScanInt(PrintInt(n)) == Ok(n) && Plain(PrintInt(n))
  {
    var k: nat := if n < 0 then -n else n;
    var p := PrintNat(k);
    PrintedNat(k);
    assert DigitCount(p) == |p| && p[..|p|] == p;
    if n < 0 {
      assert PrintInt(n)[1..] == p;
    }
  }

  // ---------- The envelope and its text ----------

  /** The fields of an envelope that its Efile holds; `rcpts` begins at e_rcpt.  `dead` says that it is in the dead
    * directory.
    */
  datatype Meta = Meta(id: string, dead: bool, dinode: nat, level: int, jail: int, hostname: Option<string>,
      attributes: int,
                       mail: Option<string>, rcpts: seq<string>)

  function OrEmpty(s: Option<string>): string {
    if s.Some? then s.value else ""
  }

  function WrittenHost(e: Meta): string {
    if e.dead then "" else OrEmpty(e.hostname)
  }

  function Rlines(rcpts: seq<string>): seq<string> {
    if rcpts == [] then [] else Line('R', rcpts[0], Rlines(rcpts[1..]))
  }

  function Line(tag: char, text: string, rest: seq<string>): seq<string> {
    [[tag] + text] + rest
  }

  function NumberLines(e: Meta, rest: seq<string>): seq<string> {
    Line('V', PrintInt(SIMTA_EFILE_VERSION),
        Line('E', e.id, Line('I', PrintInt(e.dinode), Line('X', PrintInt(e.level), Line('J', PrintInt(e.jail), rest)))))
  }

  function AddressLines(e: Meta): seq<string> {
    Line('H', WrittenHost(e), Line('D', PrintInt(e.attributes), Line('F', OrEmpty(e.mail), Rlines(e.rcpts))))
  }

  function EfileLines(e: Meta): seq<string> {
    NumberLines(e, AddressLines(e))
  }

  // ---------- env_read ----------

  datatype Item<T> = Item(value: T, rest: seq<string>)

  function Tagged(ls: seq<string>, tag: char): Scan<Item<string>> {
    if ls == [] || ls[0] == "" || ls[0][0] != tag then Bad else Ok(Item(ls[0][1..], ls[1..]))
  }

  function TaggedInt(ls: seq<string>, tag: char): Scan<Item<int>> {
    var t :- Tagged(ls, tag);
    var n :- ScanInt(t.value);
    Ok(Item(n, t.rest))
  }

  /** envelope.c:864-875 */
  function ReadVersion(ls: seq<string>): Scan<Item<int>> {
    var v :- TaggedInt(ls, 'V');
    if 1 <= v.value <= SIMTA_EFILE_VERSION then Ok(v) else Bad
  }

  /** envelope.c:877-893: from version 2 on, the queue id is repeated in the file. */
  function ReadId(ls: seq<string>, version: int, id: string): Scan<seq<string>> {
    if version < 2 then Ok(ls)
    else
      var t :- Tagged(ls, 'E');
      if t.value == id then Ok(t.rest) else Bad
  }

  /** envelope.c:896-913: an M line is passed over. */
  function SkipMid(ls: seq<string>): Scan<seq<string>> {
    if ls == [] then Bad
    else if ls[0] != "" && ls[0][0] == 'M' then if |ls| == 1 then Bad else Ok(ls[1..])
    else Ok(ls)
  }

  /** A number that the file has only from some version on. */
  function Since(version: int, first: int, ls: seq<string>, tag: char, known: int): Scan<Item<int>> {
    if version >= first then TaggedInt(ls, tag) else Ok(Item(known, ls))
  }

  datatype Mode = Queue | Deliver

  /** envelope.c:1035-1063 */
  function ReadHost(mode: Mode, known: Option<string>, h: string): Scan<Option<string>> {
    match mode
    case Queue => Ok(if known.Some? || h == "" then known else Some(h))
    case Deliver => if Fold(OrEmpty(known)) == Fold(h) then Ok(known) else Bad
  }

  /** envelope.c:1096-1121 */
  function ReadMail(mode: Mode, known: Option<string>, f: string): Scan<Option<string>> {
    match mode
    case Queue => if known.Some? then Bad else Ok(Some(f))
    case Deliver => if known == Some(f) then Ok(known) else Bad
  }

  /** envelope.c:1123-1141: every recipient goes to the head of the list. */
  function ReadRcpts(ls: seq<string>, rcpts: seq<string>): Scan<seq<string>>
    decreases |ls|
  {
    if ls == [] then if rcpts == [] then Bad else Ok(rcpts)
    else
      var t :- Tagged(ls, 'R');
      ReadRcpts(t.rest, [t.value] + rcpts)
  }

  /** The lines before the addresses: version, id, inode, expansion level and jail (envelope.c:864-1022). */
  function ReadNumbers(ls: seq<string>, mode: Mode, e: Meta): Scan<Item<(int, Meta)>> {
    var v :- ReadVersion(ls);
    var l :- ReadId(v.rest, v.value, e.id);
    var m :- SkipMid(l);
    var i :- TaggedInt(m, 'I');
    var x :- Since(v.value, 3, i.rest, 'X', e.level);
    var j :- Since(v.value, 5, x.rest, 'J', e.jail);
    if i.value < 0 then Bad
    else Ok(Item((v.value, if mode.Queue? then e.(dinode := i.value, level := x.value, jail := j.value) else e),
        j.rest))
  }

  /** env_read (envelope.c:789-1143): in queue mode the envelope is filled in, in deliver mode it is compared and
    * its recipients are read.
    */
  function ReadEnv(ls: seq<string>, mode: Mode, e: Meta): Scan<Meta> {
    var n :- ReadNumbers(ls, mode, e);
    var h :- Tagged(n.rest, 'H');
    var host :- ReadHost(mode, e.hostname, h.value);
    var d :- Since(n.value.0, 4, h.rest, 'D', e.attributes);
    var f :- Tagged(d.rest, 'F');
    var mail :- ReadMail(mode, e.mail, f.value);
    var e' := n.value.1;
    match mode
    case Queue => Ok(e'.(hostname := host, attributes := d.value, mail := mail))
    case Deliver =>
      var rcpts :- ReadRcpts(f.rest, e.rcpts);
      Ok(e'.(rcpts := rcpts))
  }

  // ---------- Round trip ----------

  function Reverse<T>(s: seq<T>): seq<T> {
    if s == [] then [] else Reverse(s[1..]) + [s[0]]
  }

  /** What queue mode makes of a written envelope: a null or empty host is null again, a null sender is empty. */
  function Restored(e: Meta, known: Meta): Meta {
    known.(dinode := e.dinode, level := e.level, jail := e.jail, attributes := e.attributes,
        mail := if e.mail.Some? then e.mail else Some(""),
        hostname := if known.hostname.Some? then known.hostname
                    else if e.dead || e.hostname == Some("") then None else e.hostname)
  }

  lemma {:induction false} ReverseAt<T>(s: seq<T>)
    ensures |Reverse(s)| == |s| && forall i :: 0 <= i < |s| ==> Reverse(s)[i] == s[|s| - 1 - i]
  {
    if s != [] {
      ReverseAt(s[1..]);
    }
  }

  lemma Peel(tag: char, text: string, rest: seq<string>)
    ensures Tagged(Line(tag, text, rest), tag) == Ok(Item(text, rest))
  {}

  lemma PeelInt(tag: char, n: int, rest: seq<string>)
    ensures TaggedInt(Line(tag, PrintInt(n), rest), tag) == Ok(Item(n, rest))
  {
    Peel(tag, PrintInt(n), rest);
    ScanPrinted(n);
  }

  lemma WrittenNumbers(e: Meta, rest: seq<string>, mode: Mode, known: Meta)
    requires known.id == e.id
    ensures var filled := if mode.Queue? then known.(dinode := e.dinode, level := e.level, jail := e.jail) else known;
            ReadNumbers(NumberLines(e, rest), mode, known) == Ok(Item((SIMTA_EFILE_VERSION, filled), rest))
  {
    var j := Line('J', PrintInt(e.jail), rest);
    var x := Line('X', PrintInt(e.level), j);
    var i := Line('I', PrintInt(e.dinode), x);
    PeelInt('V', SIMTA_EFILE_VERSION, Line('E', e.id, i));
    Peel('E', e.id, i);
    PeelInt('I', e.dinode, x);
    PeelInt('X', e.level, j);
    PeelInt('J', e.jail, rest);
  }

  lemma {:induction false} WrittenRcpts(rcpts: seq<string>, known: seq<string>)
    requires rcpts != [] || known != []
    ensures ReadRcpts(Rlines(rcpts), known) == Ok(Reverse(rcpts) + known)
  {
    if rcpts == [] {
      assert Reverse(rcpts) + known == known;
    } else {
      Peel('R', rcpts[0], Rlines(rcpts[1..]));
      WrittenRcpts(rcpts[1..], [rcpts[0]] + known);
      assert Reverse(rcpts[1..]) + ([rcpts[0]] + known) == Reverse(rcpts) + known;
    }
  }

  /** Reading a written envelope for the first time restores everything but the recipients.  A host that is known stays,
    * and a sender must not be known yet.
    */
  lemma QueueRoundTrip(e: Meta, known: Meta)
    requires known.id == e.id
    ensures ReadEnv(EfileLines(e), Queue, known) == if known.mail.Some? then Bad else Ok(Restored(e, known))
  {
    var d := Line('F', OrEmpty(e.mail), Rlines(e.rcpts));
    assert WrittenHost(e) != "" ==> Some(WrittenHost(e)) == e.hostname;
    WrittenNumbers(e, AddressLines(e), Queue, known);
    Peel('H', WrittenHost(e), Line('D', PrintInt(e.attributes), d));
    PeelInt('D', e.attributes, d);
    Peel('F', OrEmpty(e.mail), Rlines(e.rcpts));
  }

  /** Reading it again adds the recipients, in reversed order, and changes nothing else. */
  lemma DeliverRoundTrip(e: Meta, known: Meta)
    requires e.rcpts != [] && known.id == e.id && known.hostname == None && known.mail == None && known.rcpts == []
    ensures ReadEnv(EfileLines(e), Deliver, Restored(e, known)) == Ok(Restored(e, known).(rcpts := Reverse(e.rcpts)))
  {
    var k := Restored(e, known);
    var d := Line('F', OrEmpty(e.mail), Rlines(e.rcpts));
    WrittenNumbers(e, AddressLines(e), Deliver, k);
    Peel('H', WrittenHost(e), Line('D', PrintInt(e.attributes), d));
    PeelInt('D', e.attributes, d);
    Peel('F', OrEmpty(e.mail), Rlines(e.rcpts));
    WrittenRcpts(e.rcpts, []);
    assert Reverse(e.rcpts) + [] == Reverse(e.rcpts);
  }

  /** A second reading is refused if the file names another message, another host or another sender. */
  lemma OtherEnvelopeRefused(e: Meta, known: Meta)
    requires e.rcpts != []
    ensures ReadEnv(EfileLines(e), Deliver, known).Ok? <==>
              && known.id == e.id && known.mail == (if e.mail.Some? then e.mail else Some(""))
              && Fold(if known.hostname.Some? then known.hostname.value else "")
                 == Fold(if e.hostname.Some? && !e.dead then e.hostname.value else "")
  {
    var d := Line('F', OrEmpty(e.mail), Rlines(e.rcpts));
    var j := Line('J', PrintInt(e.jail), AddressLines(e));
    var i := Line('I', PrintInt(e.dinode), Line('X', PrintInt(e.level), j));
    PeelInt('V', SIMTA_EFILE_VERSION, Line('E', e.id, i));
    Peel('E', e.id, i);
    if known.id == e.id {
      WrittenNumbers(e, AddressLines(e), Deliver, known);
      Peel('H', WrittenHost(e), Line('D', PrintInt(e.attributes), d));
      PeelInt('D', e.attributes, d);
      Peel('F', OrEmpty(e.mail), Rlines(e.rcpts));
      WrittenRcpts(e.rcpts, known.rcpts);
    }
  }

  // ---------- Older files ----------

  /** The lines of a file of version `v`: the id came with version 2, the level with 3, the attributes with 4, and the
    * jail with 5.  Between id and inode there can be a line that is passed over.
    */
  function VersionLines(v: int, mid: bool, e: Meta): seq<string> {
    OldNumberLines(v, mid, e, Line('H', WrittenHost(e), OldAddressLines(v, e)))
  }

  function OldNumberLines(v: int, mid: bool, e: Meta, rest: seq<string>): seq<string> {
    var j := if v >= 5 then Line('J', PrintInt(e.jail), rest) else rest;
    var x := if v >= 3 then Line('X', PrintInt(e.level), j) else j;
    var i := Line('I', PrintInt(e.dinode), x);
    var m := if mid then Line('M', "", i) else i;
    Line('V', PrintInt(v), if v >= 2 then Line('E', e.id, m) else m)
  }

  function OldAddressLines(v: int, e: Meta): seq<string> {
    var a := Line('F', OrEmpty(e.mail), Rlines(e.rcpts));
    if v >= 4 then Line('D', PrintInt(e.attributes), a) else a
  }

  lemma OldNumbers(v: int, mid: bool, e: Meta, rest: seq<string>, known: Meta)
    requires 1 <= v <= SIMTA_EFILE_VERSION && known.id == e.id
    ensures var filled := known.(dinode := e.dinode, level := if v >= 3 then e.level else known.level,
                                 jail := if v >= 5 then e.jail else known.jail);
            ReadNumbers(OldNumberLines(v, mid, e, rest), Queue, known) == Ok(Item((v, filled), rest))
  {
    var j := if v >= 5 then Line('J', PrintInt(e.jail), rest) else rest;
    var x := if v >= 3 then Line('X', PrintInt(e.level), j) else j;
    var i := Line('I', PrintInt(e.dinode), x);
    OldStart(v, mid, e.id, i);
    OldRest(v, e, rest, known);
  }

  lemma OldStart(v: int, mid: bool, id: string, i: seq<string>)
    requires 1 <= v <= SIMTA_EFILE_VERSION && i != [] && i[0] != "" && i[0][0] == 'I'
    ensures var m := if mid then Line('M', "", i) else i;
            var t := if v >= 2 then Line('E', id, m) else m;
            && ReadVersion(Line('V', PrintInt(v), t)) == Ok(Item(v, t)) && ReadId(t, v, id) == Ok(m)
            && SkipMid(m) == Ok(i)
  {
    var m := if mid then Line('M', "", i) else i;
    PeelInt('V', v, if v >= 2 then Line('E', id, m) else m);
    Peel('E', id, m);
    MidIsSkipped(i, mid);
  }

  lemma OldRest(v: int, e: Meta, rest: seq<string>, known: Meta)
    ensures var j := if v >= 5 then Line('J', PrintInt(e.jail), rest) else rest;
            var x := if v >= 3 then Line('X', PrintInt(e.level), j) else j;
            && TaggedInt(Line('I', PrintInt(e.dinode), x), 'I') == Ok(Item(e.dinode, x))
            && Since(v, 3, x, 'X', known.level) == Ok(Item(if v >= 3 then e.level else known.level, j))
            && Since(v, 5, j, 'J', known.jail) == Ok(Item(if v >= 5 then e.jail else known.jail, rest))
  {
    var j := if v >= 5 then Line('J', PrintInt(e.jail), rest) else rest;
    PeelInt('I', e.dinode, if v >= 3 then Line('X', PrintInt(e.level), j) else j);
    PeelInt('X', e.level, j);
    PeelInt('J', e.jail, rest);
  }

  lemma MidIsSkipped(i: seq<string>, mid: bool)
    requires i != [] && i[0] != "" && i[0][0] == 'I'
    ensures SkipMid(if mid then Line('M', "", i) else i) == Ok(i)
  {}

  /** Files of every version are read; what an old one does not have stays as it is. */
  lemma OldFilesAreRead(v: int, mid: bool, e: Meta, known: Meta)
    requires 1 <= v <= SIMTA_EFILE_VERSION && known.id == e.id && known.hostname == None && known.mail == None
    ensures ReadEnv(VersionLines(v, mid, e), Queue, known) ==
              Ok(Restored(e, known).(level := if v >= 3 then e.level else known.level,
                                     attributes := if v >= 4 then e.attributes else known.attributes,
                                     jail := if v >= 5 then e.jail else known.jail))
  {
    var a := Line('F', OrEmpty(e.mail), Rlines(e.rcpts));
    OldNumbers(v, mid, e, Line('H', WrittenHost(e), OldAddressLines(v, e)), known);
    Peel('H', WrittenHost(e), OldAddressLines(v, e));
    PeelInt('D', e.attributes, a);
    Peel('F', OrEmpty(e.mail), Rlines(e.rcpts));
    assert WrittenHost(e) != "" ==> Some(WrittenHost(e)) == e.hostname;
  }

  /** A file of another version is refused. */
  lemma OtherVersionRefused(v: int, rest: seq<string>, mode: Mode, known: Meta)
    requires v < 1 || v > SIMTA_EFILE_VERSION
    ensures ReadEnv(Line('V', PrintInt(v), rest), mode, known) == Bad
  {
    PeelInt('V', v, rest);
  }

  ghost predicate OneLine(e: Meta) {
    && Plain(e.id) && (e.mail.Some? ==> Plain(e.mail.value)) && (forall r :: r in e.rcpts ==> Plain(r))
    && (e.hostname.Some? && !e.dead ==> Plain(e.hostname.value))
  }

  lemma {:induction false} RlinesArePlain(rcpts: seq<string>)
    requires forall r :: r in rcpts ==> Plain(r)
    ensures forall line :: line in Rlines(rcpts) ==> Plain(line)
  {
    if rcpts != [] {
      RlinesArePlain(rcpts[1..]);
      LineIsPlain('R', rcpts[0]);
    }
  }

  lemma LineIsPlain(tag: char, text: string)
    requires Plain(text) && !Terminator(tag)
    ensures Plain([tag] + text)
  {}

  ghost predicate AllPlain(ls: seq<string>) {
    forall line :: line in ls ==> Plain(line)
  }

  lemma LineJoins(tag: char, text: string, rest: seq<string>)
    requires Plain(text) && !Terminator(tag) && AllPlain(rest)
    ensures AllPlain(Line(tag, text, rest))
  {
    LineIsPlain(tag, text);
  }

  lemma NumberJoins(tag: char, n: int, rest: seq<string>)
    requires !Terminator(tag) && AllPlain(rest)
    ensures AllPlain(Line(tag, PrintInt(n), rest))
  {
    ScanPrinted(n);
    LineJoins(tag, PrintInt(n), rest);
  }

  /** Fields without line breaks are one line each in the file. */
  lemma EfileIsLines(e: Meta)
    requires OneLine(e)
    ensures Lines(Unlines(EfileLines(e), "\n"), Bol) == EfileLines(e)
  {
    RlinesArePlain(e.rcpts);
    var f := Line('F', OrEmpty(e.mail), Rlines(e.rcpts));
    var d := Line('D', PrintInt(e.attributes), f);
    var j := Line('J', PrintInt(e.jail), AddressLines(e));
    var x := Line('X', PrintInt(e.level), j);
    var i := Line('I', PrintInt(e.dinode), x);
    LineJoins('F', OrEmpty(e.mail), Rlines(e.rcpts));
    NumberJoins('D', e.attributes, f);
    LineJoins('H', WrittenHost(e), d);
    NumberJoins('J', e.jail, AddressLines(e));
    NumberJoins('X', e.level, j);
    NumberJoins('I', e.dinode, x);
    LineJoins('E', e.id, i);
    NumberJoins('V', SIMTA_EFILE_VERSION, Line('E', e.id, i));
    LinesOfUnlines(EfileLines(e));
  }
}
