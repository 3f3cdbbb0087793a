// Notions that several parts share.

module Options {
  datatype Option<+T> = None | Some(value: T)
}

module Sequences {
  function Reverse<T>(s: seq<T>): (r: seq<T>)
    ensures |r| == |s|
  {
    if s == [] then [] else Reverse(s[1..]) + [s[0]]
  }

  lemma {:induction false} ReverseSnoc<T>(s: seq<T>, x: T)
    ensures Reverse(s + [x]) == [x] + Reverse(s)
  {
    if s == [] {
      assert s + [x] == [x];
    } else {
      ReverseSnoc(s[1..], x);
      assert (s + [x])[1..] == s[1..] + [x];
    }
  }
}

module Arithmetic {
  lemma MulMonotone(a: nat, b: nat, c: nat)
    requires a <= b
    ensures a * c <= b * c && c * a <= c * b
  {
  }
}
