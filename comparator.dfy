/** The three-way comparator handed to qsort (myio.c:13-16). */
module Comparator {

  /** The difference of the two latencies is computed and reduced to its sign. */
  function Compare(a: real, b: real): (r: int)
    ensures r == -1 || r == 0 || r == 1
    ensures r > 0 <==> a > b
    ensures r < 0 <==> a < b
    ensures r == 0 <==> a == b
  {
    var diff := a - b;
    (if diff > 0.0 then 1 else 0) - (if diff < 0.0 then 1 else 0)
  }

  /** Swapping the arguments negates the answer, as qsort requires of a comparator. */
  lemma CompareAntisymmetric(a: real, b: real)
    ensures Compare(a, b) == -Compare(b, a)
  {
  }

  /** "Not greater" is transitive, so the comparator induces a total preorder. */
  lemma CompareTransitive(a: real, b: real, c: real)
    requires Compare(a, b) <= 0 && Compare(b, c) <= 0
    ensures Compare(a, c) <= 0
  {
  }
}
