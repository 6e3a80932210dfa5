/** Shared vocabulary: optional values and the time scale.
    An instant is a whole number of microseconds, the resolution of Python's datetime. */
module Basics {
  datatype Option<+T> = None | Some(value: T)

  type Time = int

  const SECOND: int := 1_000_000
  const MINUTE: int := 60 * SECOND
  const HOUR: int := 60 * MINUTE

  function Max(a: int, b: int): int { if a < b then b else a }

  function Min(a: int, b: int): int { if a < b then a else b }

  /** The place reached after x steps round a ring of n places: x modulo n. */
  function Ring(x: nat, n: nat): (place: nat)
    requires n > 0
    ensures place < n
    decreases x
  {
    if x < n then x else Ring(x - n, n)
  }

  lemma {:induction false} RingStep(x: nat, n: nat)
    requires n > 0
    ensures Ring(x + 1, n) == if Ring(x, n) + 1 == n then 0 else Ring(x, n) + 1
    decreases x
  {
    if x >= n {
      RingStep(x - n, n);
    }
  }

  /** Time taken by m levels of one length. */
  function Levels(m: nat, level: int): int { if m == 0 then 0 else Levels(m - 1, level) + level }

  lemma {:induction false} LevelsIsProduct(m: nat, level: int)
    ensures Levels(m, level) == m * level
  {
    if m > 0 {
      LevelsIsProduct(m - 1, level);
      assert m * level == (m - 1) * level + level;
    }
  }

  lemma {:induction false} LevelsGrow(m: nat, k: nat, level: int)
    requires m <= k && level >= 0
    ensures Levels(m, level) <= Levels(k, level)
  {
    if m < k {
      LevelsGrow(m, k - 1, level);
    }
  }

  lemma {:induction false} SubsetSize<T>(a: set<T>, b: set<T>)
    requires a <= b
    ensures |a| <= |b|
  {
    if a != {} {
      var x :| x in a;
      SubsetSize(a - {x}, b - {x});
    }
  }
}
