/** A message handed over in pieces. */
module Pieces {
  function Concat<T>(pieces: seq<seq<T>>): seq<T> {
    if pieces == [] then [] else Concat(pieces[..|pieces| - 1]) + pieces[|pieces| - 1]
  }

  lemma ConcatStep<T>(pieces: seq<seq<T>>, i: nat)
    requires i < |pieces|
    ensures Concat(pieces[..i + 1]) == Concat(pieces[..i]) + pieces[i]
  {
    assert pieces[..i + 1][..i] == pieces[..i];
  }

  /** (m + data)[k..] splits at the end of m. */
  lemma SliceOfSum<T>(m: seq<T>, data: seq<T>, k: nat, n: nat)
    requires k <= |m| && n <= |data|
    ensures (m + data)[k..|m| + n] == m[k..] + data[..n]
    ensures (m + data)[..k] == m[..k]
  {
  }

  /** memcpy to the end of what a buffer holds. */
  method Append<T>(a: array<T>, n: nat, d: seq<T>)
    requires n + |d| <= a.Length
    modifies a
    ensures a[..n + |d|] == old(a[..n]) + d
  {
    forall i | 0 <= i < |d| {
      a[n + i] := d[i];
    }
  }
}
