/** Small facts about numbers and sequences that several modules need. */
module Numbers {

  datatype Option<T> = None | Some(value: T)

  function Min(a: int, b: int): int { if a <= b then a else b }
  function Max(a: int, b: int): int { if a >= b then a else b }

  function Pow2(n: nat): (p: nat)
    ensures p > 0
  {
    if n == 0 then 1 else 2 * Pow2(n - 1)
  }

  lemma Product(a: int, b: int, m: int)
    requires a <= b && 0 <= m
    ensures a * m <= b * m
  {
  }

  /** Appending an element or putting it in front of what follows is the same. */
  lemma MoveBracket<T>(q: seq<T>, e: T, tail: seq<T>)
    ensures (q + [e]) + tail == q + ([e] + tail)
  {
  }
}
