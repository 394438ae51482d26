/** Definitions shared by the other modules. */
module Base {

  datatype Option<+T> = None | Some(value: T)

  ghost predicate NoDup<T>(s: seq<T>) {
    forall i, j :: 0 <= i < j < |s| ==> s[i] != s[j]
  }

  /** `s` without entry `i`. */
  ghost function Without<T>(s: seq<T>, i: nat): seq<T>
    requires i < |s|
  {
    seq(|s| - 1, k requires 0 <= k < |s| - 1 => s[Skip(i, k)])
  }

  /** Where entry `k` stood before entry `i` was removed. */
  function Skip(i: int, k: int): int {
    if k < i then k else k + 1
  }

  lemma WithoutKeeps<T>(c: seq<T>, i: nat, x: T)
    requires i < |c| && x in c && x != c[i]
    ensures x in Without(c, i)
  {
    var k :| 0 <= k < |c| && c[k] == x;
    assert Without(c, i)[if k < i then k else k - 1] == x;
  }
}
