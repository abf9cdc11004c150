/** Indices of a ring of n slots. */
module RingIndex {
  import NatBits

  datatype Option<T> = None | Some(value: T)

  lemma ModuloOnce(x: nat, n: nat)
    requires n > 0 && x < 2 * n
    ensures x % n == if x < n then x else x - n
  {
    if x < n {
      NatBits.Unique(x, n, 0, x);
    } else {
      NatBits.Unique(x, n, 1, x - n);
    }
  }

  /** x modulo n, for an index at most one turn ahead. */
  function Wrap(x: nat, n: nat): (i: nat)
    requires n > 0 && x < 2 * n
    ensures i < n
  {
    x % n
  }

  lemma WrapIs(x: nat, n: nat)
    requires n > 0 && x < 2 * n
    ensures Wrap(x, n) == if x < n then x else x - n
  {
    ModuloOnce(x, n);
  }

  /** Different distances from c lead to different slots. */
  lemma WrapDiffers(c: nat, j: nat, k: nat, n: nat)
    requires c < n && j < n && k < n
    ensures Wrap(c + j, n) == Wrap(c + k, n) <==> j == k
  {
    hide Wrap;
    WrapIs(c + j, n);
    WrapIs(c + k, n);
  }

  lemma WrapAdds(c: nat, j: nat, k: nat, n: nat)
    requires c < n && j + k < n
    ensures Wrap(Wrap(c + j, n) + k, n) == Wrap(c + j + k, n)
  {
    hide Wrap;
    WrapIs(c + j, n);
    WrapIs(c + j + k, n);
    WrapIs(Wrap(c + j, n) + k, n);
  }

  lemma WrapNothing(c: nat, n: nat)
    requires c < n
    ensures Wrap(c + 0, n) == c
  {
    WrapIs(c, n);
  }

  /** The number of slots from cons up to prod. */
  function Distance(cons: nat, prod: nat, n: nat): (d: nat)
    requires cons < n && prod < n
    ensures d < n
    ensures Wrap(cons + d, n) == prod
  {
    WrapIs(cons + (if prod >= cons then prod - cons else prod + n - cons), n);
    if prod >= cons then prod - cons else prod + n - cons
  }

  /** mwx_dma_free_slots. */
  function FreeSlots(cons: nat, prod: nat, n: nat): (f: nat)
    requires cons < n && prod < n
  {
    Wrap(n - 1 + cons - prod, n)
  }

  /** One slot is always kept empty. */
  lemma FreeSlotsCount(cons: nat, prod: nat, n: nat)
    requires cons < n && prod < n
    ensures FreeSlots(cons, prod, n) == n - 1 - Distance(cons, prod, n)
  {
    WrapIs(n - 1 + cons - prod, n);
    hide Wrap;
  }

  /** Seen from the next slot, everything is one slot closer. */
  lemma StillAhead(c: nat, k: nat, n: nat)
    requires c < n && 0 < k < n
    ensures Wrap(Wrap(c + 1, n) + k - 1, n) == Wrap(c + k, n)
  {
    hide Wrap;
    WrapAdds(c, 1, k - 1, n);
  }

  /** The producer is as far from c as there are slots in use. */
  lemma DistanceIs(c: nat, j: nat, k: nat, n: nat)
    requires c < n && j <= k < n
    ensures Distance(Wrap(c + j, n), Wrap(c + k, n), n) == k - j
    ensures c == Wrap(c + j, n) <==> j == 0
  {
    hide Wrap;
    WrapIs(c + j, n);
    WrapIs(c + k, n);
  }

  /** The slot to stop at is the one before the consumer. */
  lemma BeforeLast(cons: nat, k: nat, n: nat)
    requires cons < n && k < n
    ensures Wrap(cons + k, n) == Wrap(n + cons - 1, n) <==> k == n - 1
  {
    hide Wrap;
    WrapDiffers(cons, k, n - 1, n);
  }

  lemma NextSlot(cons: nat, k: nat, n: nat)
    requires cons < n && k + 1 < n
    ensures Wrap(Wrap(cons + k, n) + 1, n) == Wrap(cons + k + 1, n) != cons
  {
    hide Wrap;
    WrapAdds(cons, k, 1, n);
    WrapDiffers(cons, k + 1, 0, n);
    WrapNothing(cons, n);
  }

  // ---------------------------------------------------------------------------------------------
  // The ring, seen from the consumer

  /** The slots in the order from the consumer on. */
  function View<T>(s: seq<T>, cons: nat): (v: seq<T>)
    requires cons < |s|
    ensures |v| == |s|
  {
    seq(|s|, i requires 0 <= i < |s| => s[Wrap(cons + i, |s|)])
  }

  lemma ViewUpdate<T>(s: seq<T>, cons: nat, k: nat, x: T)
    requires cons < |s| && k < |s|
    ensures View(s[Wrap(cons + k, |s|) := x], cons) == View(s, cons)[k := x]
  {
    var a, b := View(s[Wrap(cons + k, |s|) := x], cons), View(s, cons)[k := x];
    forall i | 0 <= i < |s|
      ensures a[i] == b[i]
    {
      WrapDiffers(cons, i, k, |s|);
    }
  }

  lemma ViewAt<T>(s: seq<T>, cons: nat, k: nat)
    requires cons < |s| && k < |s|
    ensures View(s, cons)[k] == s[Wrap(cons + k, |s|)]
  {
  }

  /** Moving the consumer on by k slots turns the view. */
  lemma ViewMoved<T>(s: seq<T>, cons: nat, k: nat)
    requires cons < |s| && k < |s|
    ensures View(s, Wrap(cons + k, |s|)) == View(s, cons)[k..] + View(s, cons)[..k]
  {
    var a, b := View(s, Wrap(cons + k, |s|)), View(s, cons)[k..] + View(s, cons)[..k];
    forall i | 0 <= i < |s|
      ensures a[i] == b[i]
    {
      if i < |s| - k {
        WrapAdds(cons, k, i, |s|);
      } else {
        WrapIs(cons + k, |s|);
        WrapIs(Wrap(cons + k, |s|) + i, |s|);
        WrapIs(cons + (k + i - |s|), |s|);
      }
    }
  }

  lemma ViewTurned<T>(s: seq<T>, cons: nat)
    requires cons < |s|
    ensures View(s, cons) == s[cons..] + s[..cons]
  {
    var a, b := View(s, cons), s[cons..] + s[..cons];
    forall i | 0 <= i < |s|
      ensures a[i] == b[i]
    {
      WrapIs(cons + i, |s|);
    }
  }
}
