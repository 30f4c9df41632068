/** What lists hold. */
module Lists {

  function Elements<T(==)>(l: seq<T>): set<T> { set x | x in l }

  predicate NoDuplicates<T(==)>(l: seq<T>) {
    forall i, j :: 0 <= i < j < |l| ==> l[i] != l[j]
  }
}
