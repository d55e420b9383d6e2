/** Pieces laid end to end: the arithmetic of chunks and of concatenated buffers. */
module Sequences {

  /** A value n times. */
  ghost function Repeat<T>(v: T, n: nat): (s: seq<T>)
    ensures |s| == n && forall i :: 0 <= i < n ==> s[i] == v
  {
    if n == 0 then [] else Repeat(v, n - 1) + [v]
  }

  /** The first n pieces end to end. */
  ghost function FlatUpTo<T>(pieces: seq<seq<T>>, n: nat): seq<T>
    requires n <= |pieces|
  {
    if n == 0 then [] else FlatUpTo(pieces, n - 1) + pieces[n - 1]
  }

  ghost function Flat<T>(pieces: seq<seq<T>>): seq<T> {
    FlatUpTo(pieces, |pieces|)
  }

  /** Where piece m begins. */
  ghost function Start<T>(pieces: seq<seq<T>>, m: nat): nat
    requires m <= |pieces|
  {
    |FlatUpTo(pieces, m)|
  }

  /** The first m pieces stand in front. */
  lemma {:induction false} FlatStable<T>(pieces: seq<seq<T>>, m: nat, n: nat, i: nat)
    requires m <= n <= |pieces| && i < Start(pieces, m)
    ensures i < Start(pieces, n) && FlatUpTo(pieces, n)[i] == FlatUpTo(pieces, m)[i]
  {
    if m < n { FlatStable(pieces, m, n - 1, i); }
  }

  lemma {:induction false} StartMonotone<T>(pieces: seq<seq<T>>, m: nat, n: nat)
    requires m <= n <= |pieces|
    ensures Start(pieces, m) <= Start(pieces, n)
  {
    if m < n { StartMonotone(pieces, m, n - 1); }
  }

  /** Element j of piece m is found j behind the piece's start. */
  lemma {:induction false} FlatAt<T>(pieces: seq<seq<T>>, m: nat, j: nat)
    requires m < |pieces| && j < |pieces[m]|
    ensures Start(pieces, m) + j < |Flat(pieces)| && Flat(pieces)[Start(pieces, m) + j] == pieces[m][j]
  {
    FlatStable(pieces, m + 1, |pieces|, Start(pieces, m) + j);
  }

  /** Lays buffers end to end. */
  method ConcatBuffers<T>(pieces: seq<seq<T>>) returns (out: seq<T>)
    ensures out == Flat(pieces)
  {
    out := [];
    for i := 0 to |pieces|
      invariant out == FlatUpTo(pieces, i)
    {
      out := out + pieces[i];
    }
  }

  /** A part of piece m is found at the same distance from the piece's start. */
  lemma {:induction false} FlatPart<T>(pieces: seq<seq<T>>, m: nat, a: nat, b: nat)
    requires m < |pieces| && a <= b <= |pieces[m]|
    ensures Start(pieces, m) + b <= |Flat(pieces)|
    ensures Flat(pieces)[Start(pieces, m) + a..Start(pieces, m) + b] == pieces[m][a..b]
  {
    StartMonotone(pieces, m + 1, |pieces|);
    forall k: nat | a <= k < b ensures Flat(pieces)[Start(pieces, m) + k] == pieces[m][k] { FlatAt(pieces, m, k); }
  }

  lemma {:induction false} PartOfPart<T>(s: seq<T>, x: nat, y: nat, a: nat, b: nat)
    requires x <= y <= |s| && a <= b <= y - x
    ensures s[x..y][a..b] == s[x + a..x + b]
  {
    var part := s[x..y];
    forall k | 0 <= k < b - a ensures part[a..b][k] == s[x + a..x + b][k] {
      assert part[a..b][k] == part[a + k] == s[x + (a + k)];
    }
  }
}
