module Sequences {
  /** A sequence of messages put together. */
  function Concat<T>(v: seq<seq<T>>): seq<T> {
    if v == [] then [] else v[0] + Concat(v[1..])
  }

  lemma {:induction false} ConcatSnoc<T>(v: seq<seq<T>>, x: seq<T>)
    ensures Concat(v + [x]) == Concat(v) + x
  {
    if v == [] {
      assert v + [x] == [x] && [x][1..] == [];
    } else {
      ConcatSnoc(v[1..], x);
      assert (v + [x])[1..] == v[1..] + [x];
    }
  }

  lemma ConcatAssociative<T>(a: seq<T>, b: seq<T>, c: seq<T>)
    ensures (a + b) + c == a + (b + c)
  {
  }
}
