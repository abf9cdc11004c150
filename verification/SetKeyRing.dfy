/** The ring of keys that wait to be installed (MtkMwx.cpp): mwx_set_key puts a request in, mwx_setkey_task
    takes them out one by one and sleeps while the firmware installs the key, and mwx_set_key may be called during
    that sleep. */
module SetKeyRing {
  import opened RingIndex

  /** The node and the key of a request. */
  datatype Request = Request(node: nat, key: nat)

  const SLOTS: nat := 8
  const ENOSPC: int := 28
  const EBUSY: int := 16

  // ---------------------------------------------------------------------------------------------
  // A first-in first-out queue of bounded capacity

  const CAPACITY: nat := 7

  /** The requests that a queue takes when they are made one after the other: those there is room for. */
  function Accepted(queue: seq<Request>, asked: seq<Request>): (a: seq<Request>)
    requires |queue| <= CAPACITY
    ensures |queue + a| <= CAPACITY
    ensures a <= asked
  {
    asked[..if |asked| <= CAPACITY - |queue| then |asked| else CAPACITY - |queue|]
  }

  /** The requests are made one after the other, or all but the first after the first. */
  lemma AcceptedOneByOne(queue: seq<Request>, asked: seq<Request>)
    requires |queue| <= CAPACITY && asked != []
    ensures |queue| == CAPACITY ==> Accepted(queue, asked) == [] == Accepted(queue, asked[1..])
    ensures |queue| < CAPACITY ==> Accepted(queue, asked) == [asked[0]] + Accepted(queue + [asked[0]], asked[1..])
  {
  }

  /** What mwx_setkey_task installs when it starts with a queue, asked[i] being the requests made while it
      installs its i-th key: the oldest, and then the rest of what is in the queue by that time. */
  function Served(queue: seq<Request>, asked: seq<seq<Request>>): seq<Request>
    requires |queue| <= CAPACITY
    decreases |asked|, |queue|
  {
    if queue == [] then []
    else if asked == [] then [queue[0]] + Served(queue[1..], [])
    else [queue[0]] + Served((queue + Accepted(queue, asked[0]))[1..], asked[1..])
  }

  /** What is accepted meanwhile. */
  function AcceptedMeanwhile(queue: seq<Request>, asked: seq<seq<Request>>): seq<Request>
    requires |queue| <= CAPACITY
    decreases |asked|
  {
    if queue == [] || asked == [] then []
    else
      var a := Accepted(queue, asked[0]);
      a + AcceptedMeanwhile((queue + a)[1..], asked[1..])
  }

  /** Everything is installed once, in the order in which it was accepted. */
  lemma {:induction false} ServedInOrder(queue: seq<Request>, asked: seq<seq<Request>>)
    requires |queue| <= CAPACITY
    ensures Served(queue, asked) == queue + AcceptedMeanwhile(queue, asked)
    decreases |asked|, |queue|
  {
    if queue == [] {
    } else if asked == [] {
      ServedInOrder(queue[1..], []);
      assert queue == [queue[0]] + queue[1..];
    } else {
      var a := Accepted(queue, asked[0]);
      ServedInOrder((queue + a)[1..], asked[1..]);
      assert queue + a == [queue[0]] + (queue + a)[1..];
      assert queue + (a + AcceptedMeanwhile((queue + a)[1..], asked[1..]))
          == (queue + a) + AcceptedMeanwhile((queue + a)[1..], asked[1..]);
    }
  }

  // ---------------------------------------------------------------------------------------------

  /** The slots from the tail on are the queue, and the others are empty. */
  ghost predicate Shows(v: seq<Option<Request>>, queue: seq<Request>) {
    && |queue| < |v|
    && (forall i :: 0 <= i < |queue| ==> v[i] == Some(queue[i]))
    && (forall i :: |queue| <= i < |v| ==> v[i] == None)
  }

  /** Storing a request behind the queue. */
  lemma ShowsMore(v: seq<Option<Request>>, queue: seq<Request>, a: Request)
    requires Shows(v, queue) && |queue| + 1 < |v|
    ensures Shows(v[|queue| := Some(a)], queue + [a])
  {
  }

  /** Clearing the oldest slot and moving on. */
  lemma ShowsRest(v: seq<Option<Request>>, queue: seq<Request>)
    requires Shows(v, queue) && queue != []
    ensures var w := v[0 := None]; Shows(w[1..] + w[..1], queue[1..])
  {
  }

  class Ring {
    const arg: array<Option<Request>>
    var cur: nat
    var tail: nat

    /** The occupied slots from the tail on; everything that was accepted, and everything whose installation was
        started, in order. */
    ghost var queue: seq<Request>
    ghost var accepted: seq<Request>
    ghost var installed: seq<Request>

    /** The slots are right; atWork tells whether the oldest request is being installed. */
    ghost predicate ValidAt(atWork: bool)
      reads this, arg
    {
      && arg.Length == SLOTS && tail < SLOTS && |queue| <= CAPACITY
      && cur == Wrap(tail + |queue|, SLOTS)
      && Shows(View(arg[..], tail), queue)
      && (atWork ==> queue != [])
      && accepted == installed + if atWork then queue[1..] else queue
    }

    ghost predicate Valid()
      reads this, arg
    {
      ValidAt(false)
    }

    constructor ()
      ensures Valid() && fresh(arg) && queue == accepted == installed == []
    {
      arg := new Option<Request>[SLOTS](_ => None);
      cur, tail := 0, 0;
      queue, accepted, installed := [], [], [];
      new;
      forall i | 0 <= i < SLOTS
        ensures View(arg[..], 0)[i] == None
      {
        ViewAt(arg[..], 0, i);
      }
    }

    /** mwx_set_key: a request is refused exactly when CAPACITY of them wait; otherwise it goes to a slot that
        was empty, behind the others. */
    method SetKey(a: Request, ghost atWork: bool) returns (rv: int)
      requires ValidAt(atWork)
      modifies this`cur, this`queue, this`accepted, arg
      ensures ValidAt(atWork) && |queue| <= 7
      ensures rv == ENOSPC <==> |old(queue)| == 7
      ensures |old(queue)| == CAPACITY ==>
        rv == ENOSPC && queue == old(queue) && accepted == old(accepted) && arg[..] == old(arg[..])
      ensures |old(queue)| < CAPACITY ==>
        rv == EBUSY && queue == old(queue) + [a] && accepted == old(accepted) + [a]
      ensures |old(queue)| < CAPACITY ==>
        old(cur) < SLOTS && old(arg[..])[old(cur)] == None && arg[..] == old(arg[..])[old(cur) := Some(a)]
    {
      hide Wrap, View;
      Full(tail, |queue|);
      if Wrap(cur + 1, SLOTS) == tail {
        return ENOSPC;
      }
      ghost var s := arg[..];
      ViewAt(s, tail, |queue|);
      assert arg[cur] == None by {
        assert View(s, tail)[|queue|] == None;
      }
      ViewUpdate(s, tail, |queue|, Some(a));
      ShowsMore(View(s, tail), queue, a);
      arg[cur] := Some(a);
      assert arg[..] == s[cur := Some(a)];
      cur := Wrap(cur + 1, SLOTS);
      assert accepted + [a] == installed + ((if atWork then queue[1..] else queue) + [a]);
      assert queue != [] ==> (queue + [a])[1..] == queue[1..] + [a];
      queue := queue + [a];
      accepted := accepted + [a];
      return EBUSY;
    }

    /** The calls of mwx_set_key while mwx_setkey_task sleeps: every slot in use keeps its request. */
    method Sleep(asked: seq<Request>)
      requires ValidAt(true)
      modifies this`cur, this`queue, this`accepted, arg
      ensures ValidAt(true)
      ensures queue == old(queue) + Accepted(old(queue), asked)
      ensures accepted == old(accepted) + Accepted(old(queue), asked)
    {
      ghost var q, all := queue, accepted;
      NothingAsked(q);
      hide ValidAt, Accepted;
      var i := 0;
      while i < |asked|
        invariant 0 <= i <= |asked| && ValidAt(true) && |q| <= CAPACITY
        invariant queue == q + Accepted(q, asked[..i])
        invariant accepted == all + Accepted(q, asked[..i])
      {
        AcceptedNext(q, asked, i);
        var _ := SetKey(asked[i], true);
        i := i + 1;
      }
      assert asked[..|asked|] == asked;
    }

    /** The body of the loop of mwx_setkey_task: the request in the tail slot is handed to the firmware, and its
        slot is cleared after the sleep. */
    method InstallOldest(asked: seq<Request>)
      requires Valid() && queue != []
      modifies this, arg
      ensures Valid()
      ensures installed == old(installed) + [old(queue)[0]]
      ensures queue == (old(queue) + Accepted(old(queue), asked))[1..]
      ensures accepted == old(accepted) + Accepted(old(queue), asked)
    {
      hide Wrap, View, Accepted;
      var slot := tail;
      WrapNothing(tail, SLOTS);
      ViewAt(arg[..], tail, 0);
      installed := installed + [arg[slot].value];
      assert queue == [queue[0]] + queue[1..];
      assert ValidAt(true);
      Sleep(asked);
      ghost var s := arg[..];
      ViewUpdate(s, tail, 0, None);
      ShowsRest(View(s, tail), queue);
      hide Shows;
      arg[slot] := None;
      assert arg[..] == s[slot := None];
      ViewMoved(arg[..], tail, 1);
      StillAhead(tail, |queue|, SLOTS);
      queue := queue[1..];
      tail := Wrap(tail + 1, SLOTS);
    }

    /** mwx_setkey_task: asked[i] are the requests made while the i-th key is being installed.  In the end
        everything that was ever accepted has been installed, once and in that order. */
    method Task(asked: seq<seq<Request>>)
      requires Valid()
      modifies this, arg
      ensures Valid() && queue == []
      ensures installed == old(installed) + Served(old(queue), asked)
      ensures accepted == old(accepted) + AcceptedMeanwhile(old(queue), asked)
      ensures installed == accepted
    {
      hide Wrap, View, Shows, Accepted, Served, AcceptedMeanwhile;
      ghost var served, taken := installed + Served(queue, asked), accepted + AcceptedMeanwhile(queue, asked);
      var n := 0;
      Waiting(tail, |queue|);
      while tail != cur
        invariant Valid() && n <= |asked| && (queue == [] <==> tail == cur)
        invariant installed + Served(queue, asked[n..]) == served
        invariant accepted + AcceptedMeanwhile(queue, asked[n..]) == taken
        decreases |asked| - n, |queue|
      {
        if n < |asked| {
          assert asked[n..][0] == asked[n] && asked[n..][1..] == asked[n + 1..];
          NextServed(queue, asked[n..], installed, accepted);
          InstallOldest(asked[n]);
          n := n + 1;
        } else {
          assert asked[n..] == [];
          NothingAsked(queue);
          LastServed(queue, installed);
          InstallOldest([]);
        }
        Waiting(tail, |queue|);
      }
      ServedNothing(asked[n..]);
    }
  }

  lemma ServedNothing(asked: seq<seq<Request>>)
    ensures Served([], asked) == [] == AcceptedMeanwhile([], asked)
  {
  }

  /** A turn of mwx_setkey_task during which requests are made. */
  lemma NextServed(q: seq<Request>, asked: seq<seq<Request>>, i: seq<Request>, a: seq<Request>)
    requires 0 < |q| <= CAPACITY && asked != []
    ensures i + Served(q, asked) == i + [q[0]] + Served((q + Accepted(q, asked[0]))[1..], asked[1..])
    ensures a + AcceptedMeanwhile(q, asked)
         == a + Accepted(q, asked[0]) + AcceptedMeanwhile((q + Accepted(q, asked[0]))[1..], asked[1..])
  {
    hide Accepted;
    var r := (q + Accepted(q, asked[0]))[1..];
    assert Served(q, asked) == [q[0]] + Served(r, asked[1..]);
    assert AcceptedMeanwhile(q, asked) == Accepted(q, asked[0]) + AcceptedMeanwhile(r, asked[1..]);
    Regroup(i, [q[0]], Served(r, asked[1..]));
    Regroup(a, Accepted(q, asked[0]), AcceptedMeanwhile(r, asked[1..]));
  }

  /** A turn during which none is made any more. */
  lemma LastServed(q: seq<Request>, i: seq<Request>)
    requires 0 < |q| <= CAPACITY
    ensures i + Served(q, []) == i + [q[0]] + Served(q[1..], [])
    ensures AcceptedMeanwhile(q, []) == [] == AcceptedMeanwhile(q[1..], [])
  {
    Regroup(i, [q[0]], Served(q[1..], []));
  }

  lemma Regroup(a: seq<Request>, b: seq<Request>, c: seq<Request>)
    ensures a + (b + c) == a + b + c
  {
  }

  lemma Waiting(tail: nat, k: nat)
    requires tail < SLOTS && k <= CAPACITY
    ensures Wrap(tail + k, SLOTS) == tail <==> k == 0
  {
    WrapDiffers(tail, k, 0, SLOTS);
    WrapNothing(tail, SLOTS);
  }

  /** The test of mwx_set_key for a full ring. */
  lemma Full(tail: nat, k: nat)
    requires tail < SLOTS && k <= CAPACITY
    ensures Wrap(Wrap(tail + k, SLOTS) + 1, SLOTS) == tail <==> k == CAPACITY
    ensures k < CAPACITY ==> Wrap(Wrap(tail + k, SLOTS) + 1, SLOTS) == Wrap(tail + k + 1, SLOTS)
  {
    WrapIs(tail + k, SLOTS);
    WrapIs(Wrap(tail + k, SLOTS) + 1, SLOTS);
    WrapIs(tail + k + 1, SLOTS);
  }

  lemma NothingAsked(queue: seq<Request>)
    requires |queue| <= CAPACITY
    ensures Accepted(queue, []) == [] && queue + [] == queue
  {
  }

  /** One more request after the first i. */
  lemma AcceptedNext(queue: seq<Request>, asked: seq<Request>, i: nat)
    requires |queue| <= CAPACITY && i < |asked|
    ensures |queue + Accepted(queue, asked[..i])| == CAPACITY ==>
      Accepted(queue, asked[..i + 1]) == Accepted(queue, asked[..i])
    ensures |queue + Accepted(queue, asked[..i])| < CAPACITY ==>
      Accepted(queue, asked[..i + 1]) == Accepted(queue, asked[..i]) + [asked[i]]
  {
    assert asked[..i + 1] == asked[..i] + [asked[i]];
  }
}
