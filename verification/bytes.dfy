// Bytes and byte strings, shared by every protocol module.
module Bytes {
  // A uint8_t.
  type Byte = x: int | 0 <= x < 256

  // The bytes of an ASCII literal.
  function Ascii(s: string): seq<Byte>
    requires forall i :: 0 <= i < |s| ==> s[i] as int < 128
  {
    seq(|s|, i requires 0 <= i < |s| => s[i] as int)
  }

  // The concatenation of a list of byte strings.
  function Flatten(chunks: seq<seq<Byte>>): seq<Byte> {
    if chunks == [] then [] else chunks[0] + Flatten(chunks[1..])
  }

  lemma Associative<T>(a: seq<T>, b: seq<T>, c: seq<T>)
    ensures a + (b + c) == a + b + c
  {
  }

  lemma SliceOfPrefix<T>(s: seq<T>, i: nat, j: nat, n: nat)
    requires i <= j <= n <= |s|
    ensures s[..n][i..j] == s[i..j]
  {
  }

  lemma {:induction false} FlattenAppend(a: seq<seq<Byte>>, b: seq<seq<Byte>>)
    ensures Flatten(a + b) == Flatten(a) + Flatten(b)
  {
    if a == [] {
      assert a + b == b;
    } else {
      FlattenAppend(a[1..], b);
      assert (a + b)[1..] == a[1..] + b && (a + b)[0] == a[0];
      Associative(a[0], Flatten(a[1..]), Flatten(b));
    }
  }

  // memcpy(to + at, from, |from|)
  function Blit(to: seq<Byte>, at: nat, from: seq<Byte>): (r: seq<Byte>)
    requires at + |from| <= |to|
    ensures |r| == |to|
    ensures r[..at + |from|] == to[..at] + from
  {
    to[..at] + from + to[at + |from|..]
  }
}
