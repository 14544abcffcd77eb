/** Sequences that grow at the end. */
module Sequences {

  function Init<T>(s: seq<T>): seq<T>
    requires s != []
  {
    s[..|s| - 1]
  }

  function Last<T>(s: seq<T>): T
    requires s != []
  {
    s[|s| - 1]
  }

  lemma {:induction false} Snoc<T>(s: seq<T>, x: T)
    ensures Init(s + [x]) == s && Last(s + [x]) == x
  {
  }

  lemma {:induction false} UnSnoc<T>(s: seq<T>)
    requires s != []
    ensures s == Init(s) + [Last(s)]
  {
  }
}
