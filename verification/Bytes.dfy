/** Bytes, machine sizes and the small sequence functions the other modules share. */
module Bytes {

  type Byte = x: int | 0 <= x < 256

  datatype Option<+T> = None | Some(value: T)

  // std::size_t and std::uint64_t are 64 bits wide: additions on them wrap at this value.
  const SIZE_MODULUS: nat := 0x1_0000_0000_0000_0000

  // Addition on std::size_t.
  function SizeAdd(a: nat, b: nat): (r: nat)
    ensures a + b < SIZE_MODULUS ==> r == a + b
    ensures r < SIZE_MODULUS
  {
    (a + b) % SIZE_MODULUS
  }

  function Min(a: nat, b: nat): (r: nat)
    ensures r <= a && r <= b && (r == a || r == b)
  {
    if a < b then a else b
  }

  function Concat<T>(parts: seq<seq<T>>): seq<T> {
    if parts == [] then [] else parts[0] + Concat(parts[1..])
  }

  lemma {:induction false} ConcatAppend<T>(a: seq<seq<T>>, b: seq<seq<T>>)
    ensures Concat(a + b) == Concat(a) + Concat(b)
  {
    if a == [] {
      assert a + b == b;
    } else {
      assert (a + b)[1..] == a[1..] + b;
      ConcatAppend(a[1..], b);
    }
  }

  lemma TakeConcat<T>(a: seq<T>, b: seq<T>, n: nat)
    requires n <= |a| + |b|
    ensures (a + b)[..n] == if n <= |a| then a[..n] else a + b[..n - |a|]
  {
  }

  lemma DropConcat<T>(a: seq<T>, b: seq<T>, n: nat)
    requires n <= |a| + |b|
    ensures (a + b)[n..] == if n <= |a| then a[n..] + b else b[n - |a|..]
  {
  }

  lemma ConcatAssociative<T>(a: seq<T>, b: seq<T>, c: seq<T>)
    ensures (a + b) + c == a + (b + c)
  {
  }

  lemma ThreeParts<T>(s: seq<T>, i: nat, j: nat)
    requires i <= j <= |s|
    ensures s[..i] + s[i..j] + s[j..] == s
  {
  }

  lemma SliceOfSlice<T>(s: seq<T>, a: nat, b: nat, part: seq<T>, from: nat, n: nat)
    requires a <= b <= |s| && s[a..b] == part && from + n <= |part|
    ensures s[a + from..a + from + n] == part[from..from + n]
  {
    var x, y := s[a + from..a + from + n], part[from..from + n];
    forall k | 0 <= k < n
      ensures x[k] == y[k]
    {
      assert y[k] == part[from + k] == s[a + from + k];
    }
  }
}
