/** Small types shared by every component of the model. */
module Common {
  datatype Option<+T> = None | Some(value: T) {
    function GetOr(default: T): T {
      if Some? then value else default
    }
  }

  newtype Byte = x: int | 0 <= x < 256

  type Bytes = seq<Byte>

  /** `part` is an initial segment of `whole`: what a write that stopped early leaves on disk. */
  predicate IsPrefix<T(==)>(part: seq<T>, whole: seq<T>) {
    |part| <= |whole| && part == whole[..|part|]
  }

  /** The elements of a sequence. */
  function Elements<T>(s: seq<T>): set<T> {
    set x | x in s
  }

  predicate Distinct<T(==)>(s: seq<T>) {
    forall i, j :: 0 <= i < j < |s| ==> s[i] != s[j]
  }

  function Min(a: int, b: int): int {
    if a <= b then a else b
  }

  function Max(a: int, b: int): int {
    if a >= b then a else b
  }
}
