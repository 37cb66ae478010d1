/** Domain names on the wire (denser/query.c:354-413 and denser/parse.c:668-747): sections 3.1 and 4.1.4 of RFC 1035. */
module DnsName {
  import opened Options
  import opened Lists

  const DNSR_MAX_LABEL := 63
  const DNSR_MAX_HOSTNAME := 253
  const DNSR_MAX_NAME := 255

  // ---------- Names and labels ----------

  predicate NoDot(s: string) {
    forall i :: 0 <= i < |s| ==> s[i] != '.'
  }

  function Join(labels: seq<string>): string {
    if labels == [] then "" else if |labels| == 1 then labels[0] else labels[0] + "." + Join(labels[1..])
  }

  /** The length of the first label of a name. */
  function LabelLength(s: string): (n: nat)
    ensures n <= |s| && NoDot(s[..n]) && (n < |s| ==> s[n] == '.')
  {
    if s == "" || s[0] == '.' then 0
    else
      var n := LabelLength(s[1..]);
      assert s[..n + 1] == [s[0]] + s[1..][..n];
      n + 1
  }

  function Labels(s: string): seq<string>
    decreases |s|
  {
    var n := LabelLength(s);
    if n == |s| then [s] else [s[..n]] + Labels(s[n + 1..])
  }

  lemma {:induction false} JoinedLabels(s: string)
    ensures Labels(s) != [] && Join(Labels(s)) == s && forall l :: l in Labels(s) ==> NoDot(l)
    decreases |s|
  {
    var n := LabelLength(s);
    if n == |s| {
      assert s[..n] == s;
    } else {
      JoinedLabels(s[n + 1..]);
      assert s == s[..n] + "." + s[n + 1..];
    }
  }

  /** A label behind its length. */
  function Octets(l: string): string
    requires |l| < 256
  {
    [|l| as char] + l
  }

  /** The labels and the root. */
  function Wire(labels: seq<string>): string
    requires forall l :: l in labels ==> |l| < 256
  {
    if labels == [] then "\0" else Octets(labels[0]) + Wire(labels[1..])
  }

  ghost predicate Sized(labels: seq<string>) {
    forall l :: l in labels ==> 0 < |l| <= DNSR_MAX_LABEL
  }

  lemma {:induction false} WireLength(labels: seq<string>)
    requires forall l :: l in labels ==> |l| < 256
    ensures |Wire(labels)| == if labels == [] then 1 else |Join(labels)| + 2
  {
    if |labels| > 1 {
      WireLength(labels[1..]);
    }
  }

  // ---------- Decoding ----------

  datatype Parsed = Name(labels: seq<string>, end: nat) | Malformed | Unbounded

  /** A length octet with one of its two high bits set begins a pointer. */
  predicate IsPointer(c: char) {
    c as int % 256 >= 64
  }

  function Octet(c: char): nat {
    c as int % 256
  }

  function Pointer(buf: string, pos: nat): nat
    requires pos + 1 < |buf|
  {
    Octet(buf[pos]) % 64 * 256 + Octet(buf[pos + 1])
  }

  /** The labels at `pos` of a response of `resplen` bytes.  `start` is where this run of labels begins: a pointer that
    * does not lead before it is called Unbounded.  The buffer is longer than the response.
    */
  function Parse(buf: string, resplen: nat, start: nat, pos: nat): Parsed
    requires resplen + 1 < |buf| && start <= pos <= resplen
    decreases start, resplen - pos
  {
    if IsPointer(buf[pos]) then
      var p := Pointer(buf, pos);
      if p > resplen then Malformed
      else if p >= start then Unbounded
      else
        match Parse(buf, resplen, p, p)
        case Name(labels, _) => Name(labels, pos + 2)
        case other => other
    else if pos >= resplen then Malformed
    else
      var len := Octet(buf[pos]);
      if len > DNSR_MAX_LABEL || pos + 1 + len > resplen then Malformed
      else if len == 0 then Name([], pos + 1)
      else
        match Parse(buf, resplen, start, pos + 1 + len)
        case Name(labels, end) => Name([buf[pos + 1..pos + 1 + len]] + labels, end)
        case other => other
  }

  lemma {:induction false} ParsedIsSized(buf: string, resplen: nat, start: nat, pos: nat)
    requires resplen + 1 < |buf| && start <= pos <= resplen
    ensures Parse(buf, resplen, start, pos).Name? ==> Sized(Parse(buf, resplen, start, pos).labels)
    decreases start, resplen - pos
  {
    if IsPointer(buf[pos]) {
      var p := Pointer(buf, pos);
      if p < start {
        ParsedIsSized(buf, resplen, p, p);
      }
    } else if pos < resplen && 0 < Octet(buf[pos]) <= DNSR_MAX_LABEL && pos + 1 + Octet(buf[pos]) <= resplen {
      ParsedIsSized(buf, resplen, start, pos + 1 + Octet(buf[pos]));
    }
  }

  ghost predicate Holds(buf: string, pos: nat, text: string) {
    pos + |text| <= |buf| && forall i :: 0 <= i < |text| ==> text[i] == buf[pos + i]
  }

  lemma HoldsConcat(buf: string, pos: nat, a: string, b: string)
    requires Holds(buf, pos, a + b)
    ensures Holds(buf, pos, a) && Holds(buf, pos + |a|, b)
  {
    forall i | 0 <= i < |b|
      ensures b[i] == buf[pos + |a| + i]
    {
      assert (a + b)[|a| + i] == b[i];
    }
    forall i | 0 <= i < |a|
      ensures a[i] == buf[pos + i]
    {
      assert (a + b)[i] == a[i];
    }
  }

  lemma HoldsLabel(buf: string, pos: nat, labels: seq<string>)
    requires labels != [] && Sized(labels) && Holds(buf, pos, Wire(labels))
    ensures |Wire(labels)| == 1 + |labels[0]| + |Wire(labels[1..])|
    ensures pos < |buf| && buf[pos] == |labels[0]| as char && Holds(buf, pos + 1, labels[0])
    ensures Holds(buf, pos + 1 + |labels[0]|, Wire(labels[1..]))
  {
    var l := labels[0];
    HoldsConcat(buf, pos, Octets(l), Wire(labels[1..]));
    HoldsOctets(buf, pos, l);
  }

  lemma HoldsOctets(buf: string, pos: nat, l: string)
    requires |l| < 256 && Holds(buf, pos, Octets(l))
    ensures pos < |buf| && buf[pos] == |l| as char && Holds(buf, pos + 1, l)
  {
    HoldsConcat(buf, pos, [|l| as char], l);
    assert buf[pos] == |l| as char by {
      assert [|l| as char][0] == buf[pos + 0];
    }
  }

  lemma ParseLabel(buf: string, resplen: nat, start: nat, pos: nat, labels: seq<string>, end: nat)
    requires labels != [] && 0 < |labels[0]| <= DNSR_MAX_LABEL && pos + 1 + |labels[0]| <= resplen
    requires resplen + 1 < |buf| && start <= pos && buf[pos] == |labels[0]| as char && Holds(buf, pos + 1, labels[0])
    requires Parse(buf, resplen, start, pos + 1 + |labels[0]|) == Name(labels[1..], end)
    ensures Parse(buf, resplen, start, pos) == Name(labels, end)
  {
    var l := labels[0];
    assert Octet(buf[pos]) == |l| && !IsPointer(buf[pos]);
    assert [l] + labels[1..] == labels;
    assert buf[pos + 1..pos + 1 + |l|] == l;
  }

  /** Decoding an encoded name gives its labels and stops behind it. */
  lemma {:induction false} ParseWire(buf: string, resplen: nat, start: nat, pos: nat, labels: seq<string>)
    requires resplen + 1 < |buf| && start <= pos && Sized(labels)
    requires Holds(buf, pos, Wire(labels)) && pos + |Wire(labels)| <= resplen
    ensures Parse(buf, resplen, start, pos) == Name(labels, pos + |Wire(labels)|)
    decreases |labels|
  {
    if labels == [] {
      assert buf[pos] == Wire(labels)[0];
    } else {
      HoldsLabel(buf, pos, labels);
      var next := pos + 1 + |labels[0]|;
      assert next + |Wire(labels[1..])| == pos + |Wire(labels)|;
      ParseWire(buf, resplen, start, next, labels[1..]);
      ParseLabel(buf, resplen, start, pos, labels, pos + |Wire(labels)|);
    }
  }

  /** The labels come back if and only if none of them is empty: an empty one is read as the root. */
  lemma RoundTripIffSized(buf: string, resplen: nat, pos: nat, labels: seq<string>)
    requires resplen + 1 < |buf| && Fits(labels)
    requires Holds(buf, pos, Wire(labels)) && pos + |Wire(labels)| <= resplen
    ensures (Parse(buf, resplen, pos, pos).Name? && Parse(buf, resplen, pos, pos).labels == labels) <==> Sized(labels)
  {
    ParsedIsSized(buf, resplen, pos, pos);
    if Sized(labels) {
      ParseWire(buf, resplen, pos, pos, labels);
    }
  }

  /** A compressed name means what its labels mean when they are written out. */
  lemma CompressionIsTransparent(buf: string, resplen: nat, pos: nat, plain: string, plainLen: nat)
    requires resplen + 1 < |buf| && pos <= resplen && Parse(buf, resplen, pos, pos).Name?
    requires plainLen + 1 < |plain| && forall l :: l in Parse(buf, resplen, pos, pos).labels ==> |l| < 256
    requires Holds(plain, 0, Wire(Parse(buf, resplen, pos, pos).labels))
    requires |Wire(Parse(buf, resplen, pos, pos).labels)| <= plainLen
    ensures Parse(plain, plainLen, 0, 0).Name?
    ensures Parse(plain, plainLen, 0, 0).labels == Parse(buf, resplen, pos, pos).labels
  {
    ParsedIsSized(buf, resplen, pos, pos);
    ParseWire(plain, plainLen, 0, 0, Parse(buf, resplen, pos, pos).labels);
  }

  /** The labels without the root. */
  function OpenWire(labels: seq<string>): string
    requires forall l :: l in labels ==> |l| < 256
  {
    if labels == [] then "" else Octets(labels[0]) + OpenWire(labels[1..])
  }

  /** The two octets of a pointer to `off`: the first one has one of its two high bits set, and with the other six bits
    * the first octet is the high part of the offset.
    */
  ghost predicate PointsTo(h: char, l: char, off: nat) {
    64 <= h as int < 256 && l as int < 256 && off / 256 == h as int % 64 && off % 256 == l as int
  }

  lemma HoldsOpenLabel(buf: string, pos: nat, labels: seq<string>, tail: string)
    requires labels != [] && Sized(labels) && Holds(buf, pos, OpenWire(labels) + tail)
    ensures |OpenWire(labels)| == 1 + |labels[0]| + |OpenWire(labels[1..])|
    ensures pos < |buf| && buf[pos] == |labels[0]| as char && Holds(buf, pos + 1, labels[0])
    ensures Holds(buf, pos + 1 + |labels[0]|, OpenWire(labels[1..]) + tail)
  {
    var l, rest := labels[0], OpenWire(labels[1..]);
    Associative(Octets(l), rest, tail);
    HoldsConcat(buf, pos, Octets(l), rest + tail);
    HoldsOctets(buf, pos, l);
  }

  lemma ParsePointer(buf: string, resplen: nat, start: nat, pos: nat, h: char, l: char, off: nat, rest: seq<string>)
    requires resplen + 1 < |buf| && off < start <= pos <= resplen && Sized(rest) && PointsTo(h, l, off)
    requires buf[pos] == h && buf[pos + 1] == l && Holds(buf, off, Wire(rest)) && off + |Wire(rest)| <= resplen
    ensures Parse(buf, resplen, start, pos) == Name(rest, pos + 2)
  {
    assert Pointer(buf, pos) == off;
    ParseWire(buf, resplen, off, off, rest);
  }

  /** Section 4.1.4 of RFC 1035, on the octets: labels and a pointer to the rest of the name, which stands in front of
    * them, are the name made of both, and it ends behind the two octets of the pointer.
    */
  lemma {:induction false} CompressedName(buf: string, resplen: nat, start: nat, pos: nat, labels: seq<string>,
      h: char, l: char, off: nat, rest: seq<string>)
    requires resplen + 1 < |buf| && off < start <= pos && Sized(labels) && Sized(rest) && PointsTo(h, l, off)
    requires Holds(buf, pos, OpenWire(labels) + [h, l]) && pos + |OpenWire(labels)| <= resplen
    requires Holds(buf, off, Wire(rest)) && off + |Wire(rest)| <= resplen
    ensures Parse(buf, resplen, start, pos) == Name(labels + rest, pos + |OpenWire(labels)| + 2)
    decreases |labels|
  {
    if labels == [] {
      HoldsPointer(buf, pos, h, l);
      ParsePointer(buf, resplen, start, pos, h, l, off, rest);
      assert labels + rest == rest;
    } else {
      HoldsOpenLabel(buf, pos, labels, [h, l]);
      var next, end := pos + 1 + |labels[0]|, pos + |OpenWire(labels)| + 2;
      assert next + |OpenWire(labels[1..])| + 2 == end;
      CompressedName(buf, resplen, start, next, labels[1..], h, l, off, rest);
      ParseOneMore(buf, resplen, start, pos, labels, rest, end);
    }
  }

  lemma ParseOneMore(buf: string, resplen: nat, start: nat, pos: nat, labels: seq<string>, rest: seq<string>, end: nat)
    requires labels != [] && 0 < |labels[0]| <= DNSR_MAX_LABEL && pos + 1 + |labels[0]| <= resplen
    requires resplen + 1 < |buf| && start <= pos && buf[pos] == |labels[0]| as char && Holds(buf, pos + 1, labels[0])
    requires Parse(buf, resplen, start, pos + 1 + |labels[0]|) == Name(labels[1..] + rest, end)
    ensures Parse(buf, resplen, start, pos) == Name(labels + rest, end)
  {
    var all := labels + rest;
    assert all[0] == labels[0] && all[1..] == labels[1..] + rest;
    ParseLabel(buf, resplen, start, pos, all, end);
  }

  lemma HoldsPointer(buf: string, pos: nat, h: char, l: char)
    requires Holds(buf, pos, OpenWire([]) + [h, l])
    ensures pos + 1 < |buf| && buf[pos] == h && buf[pos + 1] == l
  {
    var text := OpenWire([]) + [h, l];
    assert text[0] == h == buf[pos + 0] && text[1] == l;
  }

  // ---------- _dn_to_labels ----------

  /** The name without a trailing dot. */
  function Trimmed(dn: string): string {
    if dn != "" && dn[|dn| - 1] == '.' then dn[..|dn| - 1] else dn
  }

  ghost predicate Encodable(dn: string) {
    |dn| <= DNSR_MAX_HOSTNAME && forall l :: l in Labels(Trimmed(dn)) ==> |l| <= DNSR_MAX_LABEL
  }

  /** strchr */
  method FindDot(s: string, from: nat) returns (p: nat)
    requires from <= |s|
    ensures p == from + LabelLength(s[from..]) <= |s|
  {
    p := from;
    while p < |s| && s[p] != '.'
      invariant from <= p <= |s| && LabelLength(s[from..]) == p - from + LabelLength(s[p..])
    {
      assert s[p..][1..] == s[p + 1..];
      p := p + 1;
    }
  }

  /** The encoding of a name, label by label; one that is too long spoils it. */
  function Encoding(s: string): Option<string>
    decreases |s|
  {
    var n := LabelLength(s);
    if n > DNSR_MAX_LABEL then None
    else if n == |s| then Some(Octets(s) + "\0")
    else Prepend(Octets(s[..n]), Encoding(s[n + 1..]))
  }

  function Prepend(a: string, r: Option<string>): Option<string> {
    if r.Some? then Some(a + r.value) else None
  }

  lemma PrependTwice(a: string, b: string, r: Option<string>)
    ensures Prepend(a, Prepend(b, r)) == Prepend(a + b, r)
  {
    if r.Some? {
      Associative(a, b, r.value);
    }
  }

  lemma {:induction false} EncodingIsWire(s: string)
    ensures Encoding(s).Some? <==> Fits(Labels(s))
    ensures Encoding(s).Some? ==> Encoding(s).value == Wire(Labels(s))
    decreases |s|
  {
    var n := LabelLength(s);
    assert Labels(s)[0] == s[..n];
    if n == |s| {
      assert s[..n] == s;
    } else {
      EncodingIsWire(s[n + 1..]);
      assert forall l :: l in Labels(s) <==> l == s[..n] || l in Labels(s[n + 1..]);
      assert Labels(s)[1..] == Labels(s[n + 1..]);
    }
  }

  lemma EncodingStep(name: string, from: nat, p: nat, labels: string)
    requires from <= p < |name| && p == from + LabelLength(name[from..]) && p - from <= DNSR_MAX_LABEL
    ensures Prepend(labels, Encoding(name[from..])) == Prepend(labels + Octets(name[from..p]), Encoding(name[p + 1..]))
  {
    var s, n := name[from..], p - from;
    assert s[..n] == name[from..p] && s[n + 1..] == name[p + 1..];
    EncodingUnfolds(s, n);
    PrependTwice(labels, Octets(name[from..p]), Encoding(name[p + 1..]));
  }

  lemma EncodingUnfolds(s: string, n: nat)
    requires n == LabelLength(s) < |s| && n <= DNSR_MAX_LABEL
    ensures Encoding(s) == Prepend(Octets(s[..n]), Encoding(s[n + 1..]))
  {}

  lemma EncodingLast(name: string, from: nat, labels: string)
    requires from <= |name| && |name| == from + LabelLength(name[from..]) && |name| - from <= DNSR_MAX_LABEL
    ensures Prepend(labels, Encoding(name[from..])) == Some((labels + Octets(name[from..|name|])) + "\0")
  {
    assert name[from..|name|] == name[from..];
    Associative(labels, Octets(name[from..]), "\0");
  }

  /** denser/query.c:377-406: the labels of a name one after the other; empty ones are written like any other. */
  method EncodeLabels(name: string) returns (r: Option<string>)
    requires name != ""
    ensures r == Encoding(name)
  {
    var labels, from := "", 0;
    ghost var all := Encoding(name);
    assert Prepend("", Encoding(name[0..])) == all by {
      assert name[0..] == name;
      PrependNothing(all);
    }
    while true
      invariant from <= |name| && Prepend(labels, Encoding(name[from..])) == all
      decreases |name| - from
    {
      var p := FindDot(name, from);
      if p - from > DNSR_MAX_LABEL { return None; }
      var more := labels + Octets(name[from..p]);
      if p == |name| {
        assert Some(more + "\0") == all by {
          EncodingLast(name, from, labels);
        }
        return Some(more + "\0");
      }
      assert Prepend(more, Encoding(name[p + 1..])) == all by {
        EncodingStep(name, from, p, labels);
      }
      labels, from := more, p + 1;
    }
  }

  lemma PrependNothing(r: Option<string>)
    ensures Prepend("", r) == r
  {
    if r.Some? {
      assert "" + r.value == r.value;
    }
  }

  /** denser/query.c:354-413 */
  method DnToLabels(dn: string) returns (r: Option<string>)
    requires dn != ""
    ensures r.Some? <==> Encodable(dn)
    ensures r.Some? && Trimmed(dn) != "" ==> r.value == Wire(Labels(Trimmed(dn))) && |r.value| == |Trimmed(dn)| + 2
    ensures r.Some? && Trimmed(dn) == "" ==> r.value == Wire([])
    ensures r.Some? ==> |r.value| <= DNSR_MAX_NAME
  {
    if |dn| > DNSR_MAX_HOSTNAME { return None; }
    var name := if dn[|dn| - 1] == '.' then dn[..|dn| - 1] else dn;
    if name == "" { return Some("\0"); }
    r := EncodeLabels(name);
    EncodingIsWire(name);
    if Fits(Labels(name)) {
      WireLabelsLength(name);
    }
  }

  lemma WireLabelsLength(name: string)
    requires Fits(Labels(name))
    ensures |Wire(Labels(name))| == |name| + 2
  {}

  predicate Fits(labels: seq<string>) {
    forall l :: l in labels ==> |l| <= DNSR_MAX_LABEL
  }

  // ---------- _dnsr_labels_to_name ----------

  /** The text `prefix` with more labels behind it. */
  function Extend(prefix: string, labels: seq<string>): string
    decreases |labels|
  {
    if labels == [] then prefix else Extend((if prefix == "" then "" else prefix + ".") + labels[0], labels[1..])
  }

  lemma {:induction false} ExtendGrows(prefix: string, labels: seq<string>)
    ensures |Extend(prefix, labels)| >= |prefix|
    decreases |labels|
  {
    if labels != [] {
      ExtendGrows((if prefix == "" then "" else prefix + ".") + labels[0], labels[1..]);
    }
  }

  lemma {:induction false} ExtendIsJoin(prefix: string, labels: seq<string>)
    requires Sized(labels) && labels != []
    ensures Extend(prefix, labels) == if prefix == "" then Join(labels) else prefix + "." + Join(labels)
    decreases |labels|
  {
    var first := (if prefix == "" then "" else prefix + ".") + labels[0];
    if |labels| > 1 {
      ExtendIsJoin(first, labels[1..]);
      assert first + "." + Join(labels[1..]) ==
          (if prefix == "" then "" else prefix + ".") + (labels[0] + "." + Join(labels[1..]));
    }
  }

  /** What decoding `parsed` behind `prefix` gives: names of more than 255 characters are refused. */
  function Decoded(prefix: string, parsed: Parsed): Option<string> {
    match parsed
    case Name(labels, _) => if |Extend(prefix, labels)| <= DNSR_MAX_NAME then Some(Extend(prefix, labels)) else None
    case _ => None
  }

  lemma TooLong(prefix: string, parsed: Parsed)
    requires |prefix| > DNSR_MAX_NAME
    ensures Decoded(prefix, parsed) == None
  {
    if parsed.Name? {
      ExtendGrows(prefix, parsed.labels);
    }
  }

  // ---------- Where decoding ends ----------

  /** What the decoder makes of a name: a text and where it ends, an error, or no end at all. */
  datatype Text = Text(name: string, end: nat) | Refused | Endless

  /** The name behind `prefix` with one more label. */
  function Longer(prefix: string, buf: string, pos: nat, len: nat): string
    requires pos + len <= |buf|
  {
    (if prefix == "" then "" else prefix + ".") + buf[pos..pos + len]
  }

  ghost function Unseen(resplen: nat, seen: set<nat>): set<nat> {
    set n: nat | n <= resplen && n !in seen
  }

  /** Any pointer is followed.  `seen` are the pointers since the last label: when one of them comes again, the
    * decoder is in a circle.  A circle with a label in it ends, because the name gets too long.
    */
  ghost function Follow(buf: string, resplen: nat, pos: nat, prefix: string, seen: set<nat>): Text
    requires resplen + 1 < |buf| && pos <= resplen && |prefix| <= DNSR_MAX_NAME + 1 && pos !in seen
    decreases DNSR_MAX_NAME + 1 - |prefix|, Unseen(resplen, seen)
  {
    if IsPointer(buf[pos]) then
      var p := Pointer(buf, pos);
      if p > resplen then Refused
      else if p in seen + {pos} then Endless
      else
        assert pos in Unseen(resplen, seen) && pos !in Unseen(resplen, seen + {pos});
        match Follow(buf, resplen, p, prefix, seen + {pos})
        case Text(name, _) => Text(name, pos + 2)
        case other => other
    else if pos >= resplen then Refused
    else
      var len := Octet(buf[pos]);
      if pos + 1 + len > resplen || |prefix| + len > DNSR_MAX_NAME then Refused
      else if len == 0 then Text(prefix, pos + 1)
      else Follow(buf, resplen, pos + 1 + len, Longer(prefix, buf, pos + 1, len), {})
  }

  /** One step of the decoder: the next position and the name so far, unless it ends. */
  function Step(buf: string, resplen: nat, pos: nat, prefix: string): Option<(nat, string)>
    requires resplen + 1 < |buf| && pos <= resplen && |prefix| <= DNSR_MAX_NAME + 1
  {
    if IsPointer(buf[pos]) then
      if Pointer(buf, pos) > resplen then None else Some((Pointer(buf, pos), prefix))
    else
      var len := Octet(buf[pos]);
      if pos + 1 + len > resplen || |prefix| + len > DNSR_MAX_NAME || len == 0 then None
      else Some((pos + 1 + len, Longer(prefix, buf, pos + 1, len)))
  }

  /** The decoder makes `n` steps without an end. */
  ghost predicate Running(buf: string, resplen: nat, pos: nat, prefix: string, n: nat)
    requires resplen + 1 < |buf| && pos <= resplen && |prefix| <= DNSR_MAX_NAME + 1
    decreases n
  {
    n == 0 || (var s := Step(buf, resplen, pos, prefix); s.Some? && Running(buf, resplen, s.value.0, s.value.1, n - 1))
  }

  /** Without a circle the decoder ends. */
  lemma {:induction false} FollowEnds(buf: string, resplen: nat, pos: nat, prefix: string, seen: set<nat>)
    returns (n: nat)
    requires resplen + 1 < |buf| && pos <= resplen && |prefix| <= DNSR_MAX_NAME + 1 && pos !in seen
    requires !Follow(buf, resplen, pos, prefix, seen).Endless?
    ensures !Running(buf, resplen, pos, prefix, n)
    decreases DNSR_MAX_NAME + 1 - |prefix|, Unseen(resplen, seen)
  {
    var s := Step(buf, resplen, pos, prefix);
    n := 1;
    if s.Some? {
      if IsPointer(buf[pos]) {
        assert pos in Unseen(resplen, seen) && pos !in Unseen(resplen, seen + {pos});
        n := FollowEnds(buf, resplen, s.value.0, prefix, seen + {pos});
      } else {
        n := FollowEnds(buf, resplen, s.value.0, s.value.1, {});
      }
      n := n + 1;
    }
  }

  /** Pointers that lead to one another, or to `pos`. */
  ghost predicate Chain(buf: string, resplen: nat, seen: set<nat>, pos: nat)
    requires resplen + 1 < |buf|
  {
    forall q :: q in seen ==>
        q <= resplen && IsPointer(buf[q]) && Pointer(buf, q) <= resplen && Pointer(buf, q) in seen + {pos}
  }

  lemma {:induction false} CircleRuns(buf: string, resplen: nat, seen: set<nat>, pos: nat, prefix: string, n: nat)
    requires resplen + 1 < |buf| && |prefix| <= DNSR_MAX_NAME + 1 && pos in seen && Chain(buf, resplen, seen, pos)
    ensures forall q :: q in seen ==> Running(buf, resplen, q, prefix, n)
    decreases n
  {
    if n > 0 {
      CircleRuns(buf, resplen, seen, pos, prefix, n - 1);
    }
  }

  /** In a circle it runs forever. */
  lemma {:induction false} EndlessRuns(buf: string, resplen: nat, pos: nat, prefix: string, seen: set<nat>, n: nat)
    requires resplen + 1 < |buf| && pos <= resplen && |prefix| <= DNSR_MAX_NAME + 1 && pos !in seen
    requires Chain(buf, resplen, seen, pos) && Follow(buf, resplen, pos, prefix, seen).Endless?
    ensures Running(buf, resplen, pos, prefix, n)
    decreases n
  {
    if n > 0 {
      var s := Step(buf, resplen, pos, prefix).value;
      if !IsPointer(buf[pos]) {
        EndlessRuns(buf, resplen, s.0, s.1, {}, n - 1);
      } else if s.0 in seen + {pos} {
        CircleRuns(buf, resplen, seen + {pos}, pos, prefix, n);
      } else {
        EndlessRuns(buf, resplen, s.0, prefix, seen + {pos}, n - 1);
      }
    }
  }

  /** The decoder runs forever if and only if it comes to a pointer again without a label in between. */
  lemma EndlessIff(buf: string, resplen: nat, pos: nat)
    requires resplen + 1 < |buf| && pos <= resplen
    ensures Follow(buf, resplen, pos, "", {}).Endless? <==> forall n: nat :: Running(buf, resplen, pos, "", n)
  {
    if Follow(buf, resplen, pos, "", {}).Endless? {
      forall n: nat
        ensures Running(buf, resplen, pos, "", n)
      {
        EndlessRuns(buf, resplen, pos, "", {}, n);
      }
    } else {
      var n := FollowEnds(buf, resplen, pos, "", {});
    }
  }

  /** A response that keeps the decoder busy: a pointer to itself. */
  lemma PointerToItself()
    ensures var buf := [192 as char, 0 as char, 0 as char, 0 as char]; Follow(buf, 2, 0, "", {}).Endless?
  {}

  function EndOf(parsed: Parsed): nat {
    if parsed.Name? then parsed.end else 0
  }

  /** What follows from the labels, where all pointers lead backward. */
  function Meaning(prefix: string, parsed: Parsed): Text {
    var r := Decoded(prefix, parsed);
    if r.Some? then Text(r.value, EndOf(parsed)) else Refused
  }

  /** Where every pointer leads before the labels it follows (section 4.1.4 of RFC 1035), decoding ends, with the
    * text of the labels.
    */
  lemma {:induction false} BackwardEnds(buf: string, resplen: nat, start: nat, pos: nat, prefix: string, seen: set<nat>)
    requires resplen + 1 < |buf| && start <= pos <= resplen && |prefix| <= DNSR_MAX_NAME + 1 && pos !in seen
    requires !Parse(buf, resplen, start, pos).Unbounded? && forall q :: q in seen ==> start <= q
    ensures Follow(buf, resplen, pos, prefix, seen) == Meaning(prefix, Parse(buf, resplen, start, pos))
    decreases start, resplen - pos
  {
    if IsPointer(buf[pos]) {
      var p := Pointer(buf, pos);
      if p < start {
        BackwardEnds(buf, resplen, p, p, prefix, seen + {pos});
      }
    } else if pos < resplen {
      var len := Octet(buf[pos]);
      if 0 < len && pos + 1 + len <= resplen {
        var next := Parse(buf, resplen, start, pos + 1 + len);
        if |prefix| + len <= DNSR_MAX_NAME {
          BackwardEnds(buf, resplen, start, pos + 1 + len, Longer(prefix, buf, pos + 1, len), {});
        } else {
          TooLong(Longer(prefix, buf, pos + 1, len), next);
        }
      }
    }
  }

  /** The octets of a label are copied to position `k` of the name. */
  method CopyLabel(buf: string, pos: nat, len: nat, dn: array<char>, k: nat)
    requires pos + len <= |buf| && k + len <= dn.Length
    modifies dn
    ensures dn[..k + len] == old(dn[..k]) + buf[pos..pos + len]
  {
    for i := 0 to len
      invariant dn[..k + i] == old(dn[..k]) + buf[pos..pos + i]
    {
      dn[k + i] := buf[pos + i];
      assert dn[..k + i + 1] == dn[..k + i] + [buf[pos + i]];
      assert buf[pos..pos + i + 1] == buf[pos..pos + i] + [buf[pos + i]];
    }
  }

  /** denser/parse.c:716-740: a dot if the name has begun, and the label.  The limit is checked before the dot. */
  method AppendLabel(buf: string, pos: nat, len: nat, dn: array<char>, at: nat) returns (ok: bool, k: nat)
    requires pos + len <= |buf| && dn.Length == DNSR_MAX_NAME + 1 && at <= DNSR_MAX_NAME + 1 && len > 0
    modifies dn
    ensures var t := (if at == 0 then "" else old(dn[..at]) + ".") + buf[pos..pos + len];
            (ok <==> at + len <= DNSR_MAX_NAME) && (ok ==> k == |t| <= DNSR_MAX_NAME + 1 && dn[..k] == t)
  {
    k := at;
    if k + len > DNSR_MAX_NAME { return false, k; }
    ghost var before := dn[..at];
    if k != 0 {
      if k >= DNSR_MAX_NAME { return false, k; }
      dn[k] := '.';
      k := k + 1;
      assert dn[..k] == before + ".";
    }
    CopyLabel(buf, pos, len, dn, k);
    return true, k + len;
  }

  /** One label; the text that results stays the same, or there is none because it is too long. */
  method NextLabel(buf: string, resplen: nat, pos: nat, dn: array<char>, at: nat, ghost seen: set<nat>)
    returns (ok: bool, k: nat)
    requires resplen + 1 < |buf| && pos < resplen && !IsPointer(buf[pos]) && pos !in seen
    requires 0 < Octet(buf[pos]) && pos + 1 + Octet(buf[pos]) <= resplen
    requires dn.Length == DNSR_MAX_NAME + 1 && at <= DNSR_MAX_NAME + 1
    modifies dn
    ensures ok ==> at < k <= dn.Length && Follow(buf, resplen, pos + 1 + Octet(buf[pos]), dn[..k], {})
                                          == Follow(buf, resplen, pos, old(dn[..at]), seen)
    ensures !ok ==> Follow(buf, resplen, pos, old(dn[..at]), seen) == Refused
  {
    ok, k := AppendLabel(buf, pos + 1, Octet(buf[pos]), dn, at);
  }

  /** denser/parse.c:709-714: the root ends the name. */
  method FinishName(dn: array<char>, at: nat) returns (ok: bool, k: nat)
    requires dn.Length == DNSR_MAX_NAME + 1 && at <= DNSR_MAX_NAME + 1
    modifies dn
    ensures (ok <==> at <= DNSR_MAX_NAME) && (ok ==> k == at + 1 <= dn.Length && dn[..k] == old(dn[..at]) + "\0")
  {
    if at > DNSR_MAX_NAME { return false, at; }
    ghost var name := dn[..at];
    dn[at] := '\0';
    assert dn[..at + 1] == name + "\0";
    return true, at + 1;
  }

  /** denser/parse.c:668-747, for every response on which it ends. */
  method LabelsToName(buf: string, resplen: nat, start: nat, dn: array<char>, at: nat, ghost seen: set<nat>)
    returns (ok: bool, pos: nat, k: nat)
    requires resplen + 1 < |buf| && start <= resplen && dn.Length == DNSR_MAX_NAME + 1 && at <= DNSR_MAX_NAME + 1
    requires start !in seen
    requires !Follow(buf, resplen, start, dn[..at], seen).Endless?
    modifies dn
    decreases DNSR_MAX_NAME + 1 - at, Unseen(resplen, seen)
    ensures var r := Follow(buf, resplen, start, old(dn[..at]), seen);
            (ok <==> r.Text?) && (ok ==> 0 < k <= dn.Length && dn[..k] == r.name + "\0" && pos == r.end)
  {
    ghost var result, s := Follow(buf, resplen, start, dn[..at], seen), seen;
    pos, k := start, at;
    while true
      invariant start <= pos <= resplen && at <= k <= dn.Length && pos !in s && (k == at ==> s == seen && pos == start)
      invariant Follow(buf, resplen, pos, dn[..k], s) == result
      decreases resplen - pos
    {
      if IsPointer(buf[pos]) {
        var p := Pointer(buf, pos);
        if p > resplen { return false, pos, k; }
        assert pos in Unseen(resplen, s) && pos !in Unseen(resplen, s + {pos});
        var after;
        ok, after, k := LabelsToName(buf, resplen, p, dn, k, s + {pos});
        return ok, pos + 2, k;
      }
      if pos >= resplen { return false, pos, k; }
      var len := Octet(buf[pos]);
      if len > DNSR_MAX_LABEL || pos + 1 + len > resplen { return false, pos, k; }
      if len == 0 {
        ok, k := FinishName(dn, k);
        return ok, pos + 1, k;
      }
      ok, k := NextLabel(buf, resplen, pos, dn, k, s);
      if !ok { return; }
      pos := pos + 1 + len;
      s := {};
    }
  }

  /** The decoder of a whole name, for every response on which it ends. */
  method DecodeName(buf: string, resplen: nat, start: nat) returns (r: Option<string>, pos: nat)
    requires resplen + 1 < |buf| && start <= resplen && !Follow(buf, resplen, start, "", {}).Endless?
    ensures var t := Follow(buf, resplen, start, "", {});
            (r.Some? <==> t.Text?) && (r.Some? ==> r.value == t.name && pos == t.end)
  {
    var dn := new char[DNSR_MAX_NAME + 1];
    var ok, k;
    assert dn[..0] == "";
    ok, pos, k := LabelsToName(buf, resplen, start, dn, 0, {});
    if !ok { return None, pos; }
    assert dn[..k][..k - 1] == dn[..k - 1];
    return Some(dn[..k - 1]), pos;
  }

  /** With backward pointers the text is the labels with dots between them. */
  lemma BackwardName(buf: string, resplen: nat, start: nat)
    requires resplen + 1 < |buf| && start <= resplen && !Parse(buf, resplen, start, start).Unbounded?
    ensures var p := Parse(buf, resplen, start, start);
            Follow(buf, resplen, start, "", {}) ==
              if p.Name? && |Join(p.labels)| <= DNSR_MAX_NAME then Text(Join(p.labels), p.end) else Refused
  {
    BackwardEnds(buf, resplen, start, start, "", {});
    var p := Parse(buf, resplen, start, start);
    if p.Name? && p.labels != [] {
      ParsedIsSized(buf, resplen, start, start);
      ExtendIsJoin("", p.labels);
    }
  }

  /** A compressed name is decoded to the labels joined by dots. */
  method DecodeCompressed(buf: string, resplen: nat, pos: nat, ghost labels: seq<string>, ghost h: char, ghost l: char,
      ghost off: nat, ghost rest: seq<string>)
    returns (r: Option<string>, end: nat)
    requires resplen + 1 < |buf| && off < pos && Sized(labels) && Sized(rest) && PointsTo(h, l, off)
    requires Holds(buf, pos, OpenWire(labels) + [h, l]) && pos + |OpenWire(labels)| <= resplen
    requires Holds(buf, off, Wire(rest)) && off + |Wire(rest)| <= resplen
    ensures if |Join(labels + rest)| <= DNSR_MAX_NAME then
              r == Some(Join(labels + rest)) && end == pos + |OpenWire(labels)| + 2
            else r == None
  {
    CompressedName(buf, resplen, pos, pos, labels, h, l, off, rest);
    BackwardName(buf, resplen, pos);
    r, end := DecodeName(buf, resplen, pos);
  }

  /** Encoding a name and decoding it again: every name with labels of 1 to 63 characters comes back. */
  method EncodeAndDecode(dn: string, behind: string) returns (r: Option<string>)
    requires dn != "" && Trimmed(dn) != "" && |dn| <= DNSR_MAX_HOSTNAME && Sized(Labels(Trimmed(dn))) && |behind| >= 2
    ensures r == Some(Trimmed(dn))
  {
    var wire := DnToLabels(dn);
    var w := wire.value;
    ghost var labels := Labels(Trimmed(dn));
    assert (w + behind)[0..0 + |w|] == w;
    ParseWire(w + behind, |w|, 0, 0, labels);
    JoinedLabels(Trimmed(dn));
    BackwardName(w + behind, |w|, 0);
    var pos;
    r, pos := DecodeName(w + behind, |w|, 0);
  }
}
