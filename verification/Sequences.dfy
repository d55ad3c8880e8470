/** Sequence vocabulary shared by the model: reversal, minimum, and counting. */
module Sequences {

  datatype Option<+T> = None | Some(value: T)

  function Min(a: int, b: int): int {
    if a <= b then a else b
  }

  function Max(a: int, b: int): int {
    if a >= b then a else b
  }

  /** The elements of `s`, last one first. */
  function Reverse<T>(s: seq<T>): (r: seq<T>)
    ensures |r| == |s|
  {
    if s == [] then [] else [s[|s| - 1]] + Reverse(s[..|s| - 1])
  }

  lemma ReverseSnoc<T>(s: seq<T>, x: T)
    ensures Reverse(s + [x]) == [x] + Reverse(s)
  {
    assert (s + [x])[..|s|] == s;
  }

  lemma {:induction false} ReverseCons<T>(x: T, s: seq<T>)
    ensures Reverse([x] + s) == Reverse(s) + [x]
  {
    if s != [] {
      ReverseCons(x, s[..|s| - 1]);
      assert ([x] + s)[..|s|] == [x] + s[..|s| - 1];
    }
  }

  lemma {:induction false} ReverseMultiset<T>(s: seq<T>)
    ensures multiset(Reverse(s)) == multiset(s)
  {
    if s != [] {
      ReverseMultiset(s[..|s| - 1]);
      assert s == s[..|s| - 1] + [s[|s| - 1]];
    }
  }

  /** The first position from `from` on whose element is `wanted`, or the length. */
  function IndexOf<T>(s: seq<T>, wanted: T -> bool, from: nat): (i: nat)
    requires from <= |s|
    ensures from <= i <= |s|
    decreases |s| - from
  {
    if from == |s| || wanted(s[from]) then from else IndexOf(s, wanted, from + 1)
  }

  lemma {:induction false} IndexOfFirst<T>(s: seq<T>, wanted: T -> bool, from: nat)
    requires from <= |s|
    ensures var i := IndexOf(s, wanted, from); i < |s| ==> wanted(s[i])
    ensures forall j :: from <= j < IndexOf(s, wanted, from) ==> !wanted(s[j])
    decreases |s| - from
  {
    if from < |s| && !wanted(s[from]) {
      IndexOfFirst(s, wanted, from + 1);
    }
  }

  /** The state after `ops`, one step after the other. */
  function Fold<S, O>(step: (S, O) -> S, s: S, ops: seq<O>): S {
    if ops == [] then s else step(Fold(step, s, ops[..|ops| - 1]), ops[|ops| - 1])
  }

  lemma {:induction false} FoldConcat<S, O>(step: (S, O) -> S, s: S, a: seq<O>, b: seq<O>)
    ensures Fold(step, s, a + b) == Fold(step, Fold(step, s, a), b)
  {
    if b == [] {
      assert a + b == a;
    } else {
      var n := |b| - 1;
      FoldConcat(step, s, a, b[..n]);
      assert (a + b)[..|a| + n] == a + b[..n];
    }
  }

  lemma Regroup<T>(a: seq<T>, b: seq<T>, c: seq<T>)
    ensures (a + b) + c == a + (b + c)
  {
  }
}
