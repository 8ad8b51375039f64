/** What several modules share. */
module Basics {

  datatype Option<T> = None | Some(value: T)

  /** A number converted to C's int. */
  function AsInt(n: nat): int {
    var w := n % 0x1_0000_0000;
    if w < 0x8000_0000 then w else w - 0x1_0000_0000
  }

  /** A long invariant is folded by a quantifier over k whose only trigger is this:
      proofs carry it as one fact and open it where they mention Unfold. */
  ghost predicate Unfold(k: int) {
    true
  }

  lemma Assoc<T>(a: seq<T>, b: seq<T>, c: seq<T>)
    ensures a + b + c == a + (b + c)
  {
  }
}
