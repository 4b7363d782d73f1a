// Sequences without repetition, and without one of their elements.
module Seqs {
  predicate NoDup<T(==)>(s: seq<T>) {
    forall i, j :: 0 <= i < j < |s| ==> s[i] != s[j]
  }

  function Without<T>(s: seq<T>, i: nat): seq<T>
    requires i < |s|
  {
    s[..i] + s[i + 1..]
  }

  lemma NoDupFirst<T>(x: T, s: seq<T>)
    requires NoDup(s) && x !in s
    ensures NoDup([x] + s)
  {
    var t := [x] + s;
    forall j, k | 0 <= j < k < |t|
      ensures t[j] != t[k]
    {
      assert t[k] == s[k - 1] && (j > 0 ==> t[j] == s[j - 1]);
    }
  }

  lemma WithoutAt<T>(s: seq<T>, i: nat, j: nat)
    requires i < |s| && j < |s| - 1
    ensures Without(s, i)[j] == s[if j < i then j else j + 1]
  {
  }

  lemma WithoutIn<T>(s: seq<T>, i: nat)
    requires i < |s|
    ensures forall j :: 0 <= j < |Without(s, i)| ==> Without(s, i)[j] in s
  {
  }

  lemma NoDupWithout<T>(s: seq<T>, i: nat)
    requires NoDup(s) && i < |s|
    ensures NoDup(Without(s, i))
  {
    var t := Without(s, i);
    forall j, k | 0 <= j < k < |t|
      ensures t[j] != t[k]
    {
      assert t[j] == s[if j < i then j else j + 1] && t[k] == s[if k < i then k else k + 1];
    }
  }
}
