/** A queue gone through once by taking from the front and putting back at the end. */
module Rotation {

  /** After i steps: the part not looked at yet, then what was put back. */
  function Turned<T>(q: seq<T>, i: nat, back: seq<T>): (r: seq<T>)
    requires i <= |q|
    ensures |r| == |q| - i + |back|
  {
    q[i..] + back
  }

  lemma Front<T>(q: seq<T>, i: nat, back: seq<T>)
    requires i < |q|
    ensures Turned(q, i, back)[0] == q[i]
    ensures Turned(q, i, back)[1..] == Turned(q, i + 1, back)
  {
  }

  lemma PutBack<T>(q: seq<T>, i: nat, back: seq<T>, x: T)
    requires i <= |q|
    ensures Turned(q, i, back) + [x] == Turned(q, i, back + [x])
  {
  }

  lemma Start<T>(q: seq<T>)
    ensures Turned(q, 0, []) == q && q[..0] == []
  {
  }

  lemma End<T>(q: seq<T>, back: seq<T>)
    ensures Turned(q, |q|, back) == back && q[..|q|] == q
  {
  }

  lemma Next<T>(q: seq<T>, i: nat)
    requires i < |q|
    ensures q[..i + 1] == q[..i] + [q[i]]
  {
  }

  lemma TurnedIs<T>(q: seq<T>, i: nat, back: seq<T>)
    requires i <= |q|
    ensures Turned(q, i, back) == q[i..] + back
  {
  }

  lemma PutAllBack<T>(q: seq<T>, i: nat, back: seq<T>, xs: seq<T>)
    requires i <= |q|
    ensures Turned(q, i, back) + xs == Turned(q, i, back + xs)
  {
  }

  lemma Joins<T>(a: seq<T>, b: seq<T>, c: seq<T>)
    ensures a + (b + c) == a + b + c
  {
  }
}
