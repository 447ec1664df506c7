/** Laws of sequences and their multisets. */
module Sequences {
  lemma Without<T>(b: seq<T>, j: nat)
    requires j < |b|
    ensures multiset(b) == multiset(b[..j] + b[j + 1..]) + multiset{b[j]}
  {
    assert b == b[..j] + [b[j]] + b[j + 1..];
  }

  lemma Cancel<T>(a: multiset<T>, b: multiset<T>, c: multiset<T>)
    requires a + c == b + c
    ensures a == b
  {
    assert a == a + c - c;
  }

  /** Taking the same element out of two permutations of each other leaves two permutations of each other. */
  lemma TakeOut<T>(a: seq<T>, b: seq<T>, j: nat)
    requires a != [] && j < |b| && b[j] == a[0] && multiset(a) == multiset(b)
    ensures multiset(a[1..]) == multiset(b[..j] + b[j + 1..])
  {
    Without(b, j);
    Without(a, 0);
    assert a[..0] + a[1..] == a[1..];
    Cancel(multiset(a[1..]), multiset(b[..j] + b[j + 1..]), multiset{a[0]});
  }

  /** Where a value first stands. */
  function FirstIndex<T(==)>(b: seq<T>, c: T): (k: nat)
    requires c in b
    ensures k < |b| && b[k] == c && c !in b[..k]
  {
    if b[0] == c then 0 else
      assert b == [b[0]] + b[1..];
      var k := FirstIndex(b[1..], c) + 1;
      assert b[..k] == [b[0]] + b[1..][..k - 1];
      k
  }

  /** A sequence is a permutation of itself with two elements moved to its end. */
  lemma MoveTwoToEnd<T>(a: seq<T>, i: nat, j: nat)
    requires i < j < |a|
    ensures
      var rest := a[..i] + a[i + 1..j] + a[j + 1..];
      && multiset(rest + [a[i], a[j]]) == multiset(a) && multiset(rest + [a[j], a[i]]) == multiset(a)
  {
    var rest := a[..i] + a[i + 1..j] + a[j + 1..];
    assert a == a[..i] + [a[i]] + a[i + 1..j] + [a[j]] + a[j + 1..];
    assert multiset(a) == multiset(rest) + multiset{a[i], a[j]};
  }
}
