/** Bytes, and the few sequence operations that every component uses. */
module Bytes {
  newtype byte = x: int | 0 <= x < 256

  const NUL: byte := 0
  const NEWLINE: byte := 10

  datatype Option<+T> = None | Some(value: T)

  /** The concatenation of a list of byte strings. */
  function Flatten(ss: seq<seq<byte>>): seq<byte> {
    if ss == [] then [] else ss[0] + Flatten(ss[1..])
  }

  lemma {:induction false} FlattenAppend(a: seq<seq<byte>>, b: seq<seq<byte>>)
    ensures Flatten(a + b) == Flatten(a) + Flatten(b)
  {
    if a == [] {
      assert a + b == b;
    } else {
      assert (a + b)[1..] == a[1..] + b;
      FlattenAppend(a[1..], b);
    }
  }

  lemma FlattenSingle(s: seq<byte>)
    ensures Flatten([s]) == s
  {
    assert [s][1..] == [];
  }

  lemma FlattenSnoc(a: seq<seq<byte>>, s: seq<byte>)
    ensures Flatten(a + [s]) == Flatten(a) + s
  {
    FlattenAppend(a, [s]);
    FlattenSingle(s);
  }

  /** The last `n` elements, or all of them when there are fewer. */
  function LastN<T>(s: seq<T>, n: nat): seq<T> {
    if |s| <= n then s else s[|s| - n..]
  }

  /** `block` with `data` written over it from index `at` on, as `memcpy` does. */
  function Blit(block: seq<byte>, at: nat, data: seq<byte>): seq<byte>
    requires at + |data| <= |block|
  {
    block[..at] + data + block[at + |data|..]
  }

  function Zeros(n: nat): seq<byte> {
    seq(n, _ => NUL)
  }

  function Min(a: int, b: int): int {
    if a < b then a else b
  }

  /** The first position of `x`, or the length if it does not occur. */
  function IndexOf<T(==)>(s: seq<T>, x: T): (k: nat)
    ensures k <= |s| && x !in s[..k]
    ensures k < |s| <==> x in s
    ensures k < |s| ==> s[k] == x
  {
    if s == [] || s[0] == x then 0
    else
      var k := IndexOf(s[1..], x);
      assert s[..k + 1] == [s[0]] + s[1..][..k];
      assert s == [s[0]] + s[1..];
      k + 1
  }

  lemma SliceConcat<T>(s: seq<T>, i: nat, j: nat, k: nat)
    requires i <= j <= k <= |s|
    ensures s[i..j] + s[j..k] == s[i..k]
  {
  }

  lemma Associates<T>(a: seq<T>, b: seq<T>, c: seq<T>)
    ensures a + b + c == a + (b + c)
  {
  }
}
