/** The order of MX records: the exchange sort of `_dnsr_create_result` (denser/parse.c:249-274). */
module MxOrder {
  import opened Options
  import opened HostSearch

  /** A resource record: its owner name, and what HostSearch needs of it. */
  datatype Record = Record(name: string, answer: Answer)

  predicate SameOwnerMx(a: Record, b: Record) {
    a.answer.Mx? && b.answer.Mx? && a.name == b.name
  }

  /** MX records of one owner are in the order of their preferences. */
  ghost predicate OwnersSorted(rs: seq<Record>) {
    forall i, j :: 0 <= i < j < |rs| && SameOwnerMx(rs[i], rs[j]) ==> rs[i].answer.pref <= rs[j].answer.pref
  }

  /** Every position keeps its kind: no record moves except to the place of an MX record of the same owner. */
  ghost predicate KindsKept(before: seq<Record>, after: seq<Record>) {
    && |before| == |after|
    && forall i :: 0 <= i < |before| ==>
         after[i].name == before[i].name && after[i].answer.Mx? == before[i].answer.Mx?
             && (!before[i].answer.Mx? ==> after[i] == before[i])
  }

  /** The records before `i` are in place with respect to everything behind them. */
  ghost predicate SettledUpTo(rs: seq<Record>, i: nat) {
    forall k, j :: 0 <= k < i && k < j < |rs| && SameOwnerMx(rs[k], rs[j]) ==> rs[k].answer.pref <= rs[j].answer.pref
  }

  /** Position `i` holds the least preference among those before `j`. */
  ghost predicate LeastUpTo(rs: seq<Record>, i: nat, j: nat)
    requires i < |rs|
  {
    forall k :: i < k < j && k < |rs| && SameOwnerMx(rs[i], rs[k]) ==> rs[i].answer.pref <= rs[k].answer.pref
  }

  method Swap(a: array<Record>, i: nat, j: nat)
    requires i < j < a.Length
    modifies a
    ensures a[..] == old(a[..])[i := old(a[j])][j := old(a[i])]
    ensures multiset(a[..]) == multiset(old(a[..]))
  {
    a[i], a[j] := a[j], a[i];
  }

  /** One comparison of the inner loop keeps what the sort has reached. */
  lemma SwapKeeps(rs: seq<Record>, i: nat, j: nat)
    requires i < j < |rs| && SameOwnerMx(rs[i], rs[j]) && rs[i].answer.pref > rs[j].answer.pref
    requires SettledUpTo(rs, i) && LeastUpTo(rs, i, j)
    ensures var r := rs[i := rs[j]][j := rs[i]]; SettledUpTo(r, i) && LeastUpTo(r, i, j + 1) && KindsKept(rs, r)
  {}

  lemma KindsKeptTransitive(a: seq<Record>, b: seq<Record>, c: seq<Record>)
    requires KindsKept(a, b) && KindsKept(b, c)
    ensures KindsKept(a, c)
  {}

  /** denser/parse.c:255-271: the pass for position `i`. */
  method SortPosition(a: array<Record>, i: nat)
    requires i < a.Length && a[i].answer.Mx? && SettledUpTo(a[..], i)
    modifies a
    ensures SettledUpTo(a[..], i + 1)
    ensures multiset(a[..]) == multiset(old(a[..])) && KindsKept(old(a[..]), a[..])
  {
    for j := i + 1 to a.Length
      invariant a[i].answer.Mx? && SettledUpTo(a[..], i) && LeastUpTo(a[..], i, j)
      invariant multiset(a[..]) == multiset(old(a[..])) && KindsKept(old(a[..]), a[..])
    {
      if SameOwnerMx(a[i], a[j]) && a[i].answer.pref > a[j].answer.pref {
        ghost var before := a[..];
        SwapKeeps(before, i, j);
        Swap(a, i, j);
        KindsKeptTransitive(old(a[..]), before, a[..]);
      }
    }
  }

  /** denser/parse.c:249-274: the answers are permuted so that the MX records of every owner are sorted. */
  method SortAnswers(a: array<Record>)
    modifies a
    ensures OwnersSorted(a[..])
    ensures multiset(a[..]) == multiset(old(a[..])) && KindsKept(old(a[..]), a[..])
  {
    var i := 0;
    while i < a.Length - 1
      invariant 0 <= i && (i < a.Length || a.Length == 0 || i == 0)
      invariant SettledUpTo(a[..], i)
      invariant multiset(a[..]) == multiset(old(a[..])) && KindsKept(old(a[..]), a[..])
    {
      if a[i].answer.Mx? {
        ghost var before := a[..];
        SortPosition(a, i);
        KindsKeptTransitive(old(a[..]), before, a[..]);
      }
      i := i + 1;
    }
  }

  function Answers(rs: seq<Record>): seq<Answer> {
    seq(|rs|, i requires 0 <= i < |rs| => rs[i].answer)
  }

  ghost predicate OneOwner(rs: seq<Record>) {
    forall i, j :: 0 <= i < |rs| && 0 <= j < |rs| && rs[i].answer.Mx? && rs[j].answer.Mx? ==> rs[i].name == rs[j].name
  }

  /** If all MX records have one owner, the sorted answer is ordered as the search for a host needs it. */
  lemma OneOwnerIsOrdered(rs: seq<Record>)
    requires OwnersSorted(rs) && OneOwner(rs)
    ensures Ordered(Answers(rs))
  {}

  function TwoOwners(): seq<Record> {
    [Record("a", Mx(20, "them", Some("192.0.2.1"))), Record("b", Mx(10, "us", Some("192.0.2.2")))]
  }

  /** With several owners the sort does not give this order, nor the guard: here the record with preference 20 stays in
    * front of the one that sets the cutoff at 10.
    */
  lemma SeveralOwnersUnordered()
    ensures OwnersSorted(TwoOwners()) && !Ordered(Answers(TwoOwners()))
    ensures var rs := Answers(TwoOwners());
            var cutoff := Cutoff(rs, e => e == "us");
            && cutoff == Some(10) && !Guarded(rs, cutoff)
            && rs[0] == TwoOwners()[0].answer && InFront(rs, 10, 0)
  {
    var rs := TwoOwners();
    var answers := Answers(rs);
    assert answers[0] == rs[0].answer && answers[1] == rs[1].answer && answers[1..] == [rs[1].answer];
    assert !SameOwnerMx(rs[0], rs[1]);
    assert InFront(answers, 10, 0);
  }

  /** ... and its address is handed out. */
  method SeveralOwnersTried() returns (search: HostSearch)
    ensures search.host == "192.0.2.1" && search.hostPref == Some(20) && search.cutoff == Some(10)
  {
    SeveralOwnersUnordered();
    search := UnguardedIsTried(Answers(TwoOwners()), e => e == "us", 0);
  }
}
