/** Types and small helpers shared by every module. */
module Prelude {

  datatype Option<+T> = None | Some(value: T)

  type Byte = b: int | 0 <= b < 256

  type Bytes = seq<Byte>

  function Min(a: int, b: int): int {
    if a <= b then a else b
  }

  function Max(a: int, b: int): int {
    if a >= b then a else b
  }

  /** Bytes of a truncated hash, and so of addresses and link ids. */
  const TRUNCATED_HASHLENGTH: nat := 16

  /** The default packet size on the wire. */
  const MTU: nat := 500

  function Take(b: Bytes, n: nat): Bytes {
    if n <= |b| then b[..n] else b
  }

  function Drop(b: Bytes, n: nat): Bytes {
    if n <= |b| then b[n..] else []
  }

  function Slice(b: Bytes, from: nat, to: nat): Bytes
    requires from <= to
  {
    Drop(Take(b, to), from)
  }

  function Truncated(hash: Bytes): Bytes {
    Take(hash, TRUNCATED_HASHLENGTH)
  }

  function OrEmpty<T>(s: Option<seq<T>>): seq<T> {
    if s.Some? then s.value else []
  }

  function Map<T, R>(f: T -> R, s: seq<T>): (r: seq<R>)
    ensures |r| == |s| && forall i :: 0 <= i < |r| ==> r[i] == f(s[i])
  {
    seq(|s|, i requires 0 <= i < |s| => f(s[i]))
  }

  /** The indices below `n`. */
  function Range(n: nat): (r: set<int>)
    ensures forall i :: i in r <==> 0 <= i < n
  {
    if n == 0 then {} else Range(n - 1) + {n - 1}
  }

  lemma {:induction false} RangeSize(n: nat)
    ensures |Range(n)| == n
  {
    if n > 0 {
      RangeSize(n - 1);
    }
  }

  lemma {:induction false} SubsetSize<T>(a: set<T>, b: set<T>)
    requires a <= b
    ensures |a| <= |b|
    ensures |a| == |b| ==> a == b
  {
    if a != {} {
      var x :| x in a;
      SubsetSize(a - {x}, b - {x});
    }
  }

  /** Strictly ascending sequences are determined by their elements. */
  ghost predicate Ascending(s: seq<int>) {
    forall i, j :: 0 <= i < j < |s| ==> s[i] < s[j]
  }

  lemma AscendingUnique(s: seq<int>, t: seq<int>)
    requires Ascending(s) && Ascending(t)
    requires forall i :: 0 <= i < |s| ==> s[i] in t
    requires forall i :: 0 <= i < |t| ==> t[i] in s
    ensures s == t
  {
    var n := 0;
    while n < |s|
      invariant n <= |s| && n <= |t| && Agree(s, t, n)
    {
      NextAtMost(s, t, n);
      NextAtMost(t, s, n);
      n := n + 1;
    }
    if n < |t| {
      NextAtMost(t, s, n);
    }
  }

  ghost predicate Agree(s: seq<int>, t: seq<int>, n: nat)
    requires n <= |s| && n <= |t|
  {
    forall i :: 0 <= i < n ==> s[i] == t[i]
  }

  lemma NextAtMost(s: seq<int>, t: seq<int>, n: nat)
    requires Ascending(s) && Ascending(t) && n < |s| && n <= |t| && Agree(s, t, n) && s[n] in t
    ensures n < |t| && t[n] <= s[n]
  {
    var k :| 0 <= k < |t| && t[k] == s[n];
  }
}
