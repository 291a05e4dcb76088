/** What several parts of the model share. */
module Common {
  /** The values of a 32-bit unsigned integer. */
  const TWO_32 := 0x1_0000_0000

  datatype Option<+T> = None | Some(value: T)

  ghost predicate Distinct<T>(s: seq<T>) {
    forall i, j :: 0 <= i < j < |s| ==> s[i] != s[j]
  }

  function Copies<T>(x: T, n: nat): (r: seq<T>)
    ensures |r| == n && forall i :: 0 <= i < n ==> r[i] == x
  {
    if n == 0 then [] else Copies(x, n - 1) + [x]
  }
}
