/** Types and predicates that several components share. */
module Common {

  datatype Option<+V> = None | Some(value: V)

  type Byte = x: int | 0 <= x < 256

  /** No element occurs twice. */
  ghost predicate NoDup<T>(s: seq<T>)
  {
    forall i, j :: 0 <= i < j < |s| ==> s[i] != s[j]
  }

  lemma TwoUpdates<K, V>(m: map<K, V>, k: K, a: V, b: V)
    ensures m[k := a][k := b] == m[k := b]
  {
  }
}
