// Optional values and results, shared by every model in this project.
module Basics {
  datatype Option<+T> = None | Some(value: T)

  datatype Result<+T, +E> = Ok(value: T) | Err(error: E)

  // Bytes are opaque to every protocol here: only their length and identity matter.
  type Bytes = seq<nat>

  type Byte = x: nat | x < 256 witness 0

  // A collision-free digest: two digests are equal exactly when the contents are.
  datatype Digest = Digest(of: Bytes)

  function Max(a: int, b: int): int { if a < b then b else a }

  function Min(a: int, b: int): int { if a < b then a else b }

  function Abs(a: int): int { if a < 0 then -a else a }

  lemma SubsetCard<T>(a: set<T>, b: set<T>)
    requires a <= b
    ensures |a| <= |b|
  {
    if a != {} {
      var x :| x in a;
      SubsetCard(a - {x}, b - {x});
    }
  }

  // Whatever the clock, the disk, the network or another process yields.
  method Any<T(0)>() returns (x: T)
  {
    x := *;
  }
}
