/** What several modules share. */
module Common {

  datatype Option<T> = None | Some(value: T)

  type Byte = bv8

  const PAGE_SIZE: nat := 4096

  function Min(a: int, b: int): int {
    if a < b then a else b
  }

  /** No element occurs twice. */
  ghost predicate Distinct<T>(s: seq<T>) {
    forall i, j :: 0 <= i < j < |s| ==> s[i] != s[j]
  }
}
