/** Notions that several components share. */
module Basics {

  datatype Option<T> = None | Some(value: T)

  const U64 := 0x1_0000_0000_0000_0000

  const EINVAL := 22

  /** First position from `i` on that holds `x`; the length when there is none. */
  function FirstFrom<T(==)>(s: seq<T>, x: T, i: nat): (j: nat)
    requires i <= |s|
    ensures i <= j <= |s|
    ensures j < |s| ==> s[j] == x
    ensures forall m | i <= m < j :: s[m] != x
    decreases |s| - i
  {
    if i == |s| || s[i] == x then i else FirstFrom(s, x, i + 1)
  }

  /** An unsigned 64-bit value read as a signed one. */
  function ToSigned(x: int): int {
    if x < U64 / 2 then x else x - U64
  }

  function One(b: bool): nat {
    if b then 1 else 0
  }

  ghost predicate Distinct<T>(s: seq<T>) {
    forall i, j | 0 <= i < j < |s| :: s[i] != s[j]
  }
}
