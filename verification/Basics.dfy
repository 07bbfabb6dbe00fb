/** Small vocabulary shared by the models. */
module Basics {

  datatype Option<+T> = None | Some(value: T)

  /** Everything but the last element of a history. */
  function Front<T>(s: seq<T>): seq<T>
    requires s != []
  {
    s[..|s| - 1]
  }

  function Last<T>(s: seq<T>): T
    requires s != []
  {
    s[|s| - 1]
  }

  lemma Associative<T>(a: seq<T>, b: seq<T>, c: seq<T>)
    ensures a + b + c == a + (b + c)
  {
  }

  /** `n` times the same thing. */
  function Repeated<T>(x: T, n: nat): (s: seq<T>)
    ensures |s| == n
  {
    if n == 0 then [] else Repeated(x, n - 1) + [x]
  }

  lemma RepeatedEnd<T>(x: T, n: nat)
    requires n > 0
    ensures Front(Repeated(x, n)) == Repeated(x, n - 1) && Last(Repeated(x, n)) == x
  {
  }
}
