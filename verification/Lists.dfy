/** Inserting into a list, and removing from it. */
module Lists {

  ghost predicate Distinct<T>(q: seq<T>) {
    forall i, j :: 0 <= i < j < |q| ==> q[i] != q[j]
  }

  ghost function Elements<T>(q: seq<T>): set<T> {
    set x | x in q
  }

  lemma ElementsRest<T>(q: seq<T>, i: nat)
    requires i < |q| && Distinct(q)
    ensures q[i] in Elements(q[i..]) && Elements(q[i..]) - {q[i]} == Elements(q[i + 1..])
  {}

  function Inserted<T>(q: seq<T>, k: nat, x: T): seq<T>
    requires k <= |q|
  {
    q[..k] + [x] + q[k..]
  }

  function Removed<T>(q: seq<T>, k: nat): seq<T>
    requires k < |q|
  {
    q[..k] + q[k + 1..]
  }

  lemma RemovedMembers<T>(q: seq<T>, k: nat)
    requires k < |q| && Distinct(q)
    ensures Distinct(Removed(q, k)) && forall x :: x in Removed(q, k) <==> x in q && x != q[k]
  {}

  lemma InsertedMembers<T>(q: seq<T>, k: nat, x: T)
    requires k <= |q|
    ensures forall y :: y in Inserted(q, k, x) <==> y in q || y == x
    ensures Distinct(q) && x !in q ==> Distinct(Inserted(q, k, x))
  {}

  lemma InsertedAgain<T>(q: seq<T>, k: nat)
    requires k < |q|
    ensures Inserted(Removed(q, k), k, q[k]) == q
  {}

  lemma NoMembers<T>(q: seq<T>)
    ensures q == [] <==> forall x :: x !in q
  {
    if q != [] {
      assert q[0] in q;
    }
  }

  lemma Associative<T>(a: seq<T>, b: seq<T>, c: seq<T>)
    ensures (a + b) + c == a + (b + c)
  {}
}
