/** Letter case as strcasecmp sees it: two strings are the same if their folded forms are. */
module LetterCase {

  function FoldChar(c: char): char {
    if 'A' <= c <= 'Z' then c - 'A' + 'a' else c
  }

  function Fold(s: string): (r: string)
    ensures |r| == |s| && forall i :: 0 <= i < |s| ==> r[i] == FoldChar(s[i])
  {
    seq(|s|, i requires 0 <= i < |s| => FoldChar(s[i]))
  }

  /** The same letter in two cases, or the same character. */
  predicate SameLetter(c: char, d: char) {
    || c == d
    || ('A' <= c <= 'Z' && d as int == c as int - 'A' as int + 'a' as int)
    || ('A' <= d <= 'Z' && c as int == d as int - 'A' as int + 'a' as int)
  }

  /** What strcasecmp calls equal: the same letters, in whatever case. */
  lemma FoldIgnoresCase(s: string, t: string)
    ensures Fold(s) == Fold(t) <==> |s| == |t| && forall i :: 0 <= i < |s| ==> SameLetter(s[i], t[i])
  {
    forall c, d
      ensures FoldChar(c) == FoldChar(d) <==> SameLetter(c, d)
    {}
    if |s| == |t| && forall i :: 0 <= i < |s| ==> SameLetter(s[i], t[i]) {
      assert forall i :: 0 <= i < |s| ==> Fold(s)[i] == Fold(t)[i];
    }
    if Fold(s) == Fold(t) {
      assert forall i :: 0 <= i < |s| ==> FoldChar(s[i]) == Fold(s)[i] == Fold(t)[i] == FoldChar(t[i]);
    }
  }
}
