/** A receive ring of the driver (MtkMwx.cpp): the driver puts empty buffers in at the producer index, the device
    fills them from the consumer index on, and dequeuing chains the filled buffers into frames. */
module RxRing {
  import opened RingIndex

  type Mbuf = nat

  /** The length of the data in a buffer, and whether a frame ends with it. */
  datatype Part = Part(len: nat, last: bool)

  /** A slot: its buffer, and the control word of its descriptor. */
  datatype Slot = Slot(mbuf: Option<Mbuf>, part: Part)

  /** A received frame: its buffers with the length of the data in each, and the length in the packet header. */
  datatype Frame = Frame(chain: seq<(Mbuf, nat)>, len: nat)

  const RX_BUF_SIZE: nat := 2048

  // ---------------------------------------------------------------------------------------------
  // Frames from buffers

  predicate Filled(s: seq<Slot>) {
    forall i :: 0 <= i < |s| ==> s[i].mbuf.Some?
  }

  /** The buffers of slots, each with the length of its data. */
  function Chain(s: seq<Slot>): (c: seq<(Mbuf, nat)>)
    requires Filled(s)
    ensures |c| == |s|
  {
    seq(|s|, i requires 0 <= i < |s| => (s[i].mbuf.value, s[i].part.len))
  }

  function TotalLength(c: seq<(Mbuf, nat)>): nat {
    if c == [] then 0 else TotalLength(c[..|c| - 1]) + c[|c| - 1].1
  }

  /** The slots end a frame, and only with the last of them. */
  predicate OneFrame(s: seq<Slot>) {
    |s| > 0 && forall i :: 0 <= i < |s| ==> (s[i].part.last <==> i == |s| - 1)
  }

  /** The slots neither end a frame nor contain the end of one. */
  predicate Unfinished(s: seq<Slot>) {
    forall i :: 0 <= i < |s| ==> !s[i].part.last
  }

  /** The frames are those of consecutive slots, in order; the header has the sum of the lengths. */
  ghost predicate Grouped(frames: seq<Frame>, s: seq<Slot>)
    requires Filled(s)
    decreases |frames|
  {
    if frames == [] then s == []
    else exists k: nat :: GroupedAt(frames, s, k)
  }

  /** The last frame takes the slots from k on. */
  ghost predicate GroupedAt(frames: seq<Frame>, s: seq<Slot>, k: nat)
    requires Filled(s) && frames != []
    decreases |frames|, 0
  {
    && k <= |s|
    && OneFrame(s[k..])
    && frames[|frames| - 1].chain == Chain(s[k..])
    && frames[|frames| - 1].len == TotalLength(Chain(s[k..]))
    && Grouped(frames[..|frames| - 1], s[..k])
  }

  lemma GroupedNothing()
    ensures Grouped([], [])
  {
  }

  lemma FilledSum(s: seq<Slot>, t: seq<Slot>)
    requires Filled(s) && Filled(t)
    ensures Filled(s + t)
  {
  }

  lemma GroupedByLast(frames: seq<Frame>, s: seq<Slot>, k: nat)
    requires Filled(s) && frames != [] && GroupedAt(frames, s, k)
    ensures Grouped(frames, s)
  {
  }

  /** One more frame. */
  lemma GroupedNext(frames: seq<Frame>, s: seq<Slot>, t: seq<Slot>, f: Frame)
    requires Filled(s) && Filled(t) && Grouped(frames, s) && OneFrame(t)
    requires f == Frame(Chain(t), TotalLength(Chain(t)))
    ensures Filled(s + t) && Grouped(frames + [f], s + t)
  {
    hide Chain, TotalLength, OneFrame, Filled, Grouped;
    FilledSum(s, t);
    var all := frames + [f];
    assert all[..|all| - 1] == frames;
    assert (s + t)[|s|..] == t && (s + t)[..|s|] == s;
    GroupedByLast(all, s + t, |s|);
  }

  /** The buffers of frames, one after the other. */
  function Buffers(frames: seq<Frame>): seq<(Mbuf, nat)> {
    if frames == [] then [] else Buffers(frames[..|frames| - 1]) + frames[|frames| - 1].chain
  }

  /** How many slots end a frame. */
  function Ends(s: seq<Slot>): nat {
    if s == [] then 0 else Ends(s[..|s| - 1]) + if s[|s| - 1].part.last then 1 else 0
  }

  /** No buffer is lost, repeated or moved: the chains of the frames, one after the other, are the buffers of the
      slots with the lengths that the device has written, and there are as many frames as slots that end one. */
  lemma {:induction false} GroupedBuffers(frames: seq<Frame>, s: seq<Slot>)
    requires Filled(s) && Grouped(frames, s)
    ensures |frames| == Ends(s) && |Buffers(frames)| == |s|
    ensures forall i :: 0 <= i < |s| ==> Buffers(frames)[i] == (s[i].mbuf.value, s[i].part.len)
    decreases |frames|
  {
    hide TotalLength;
    if frames != [] {
      var k: nat :| GroupedAt(frames, s, k);
      GroupedBuffers(frames[..|frames| - 1], s[..k]);
      OneEnd(s[k..]);
      EndsOfSum(s[..k], s[k..]);
      assert s == s[..k] + s[k..];
    }
  }

  lemma {:induction false} NoEnd(s: seq<Slot>)
    requires forall i :: 0 <= i < |s| ==> !s[i].part.last
    ensures Ends(s) == 0
  {
    if s != [] {
      NoEnd(s[..|s| - 1]);
    }
  }

  lemma OneEnd(s: seq<Slot>)
    requires OneFrame(s)
    ensures Ends(s) == 1
  {
    NoEnd(s[..|s| - 1]);
  }

  lemma {:induction false} EndsOfSum(s: seq<Slot>, t: seq<Slot>)
    ensures Ends(s + t) == Ends(s) + Ends(t)
  {
    if t == [] {
      assert s + t == s;
    } else {
      assert (s + t)[..|s + t| - 1] == s + t[..|t| - 1];
      EndsOfSum(s, t[..|t| - 1]);
    }
  }

  lemma ChainNext(s: seq<Slot>, x: Slot)
    requires Filled(s) && x.mbuf.Some?
    ensures Filled(s + [x]) && Chain(s + [x]) == Chain(s) + [(x.mbuf.value, x.part.len)]
    ensures TotalLength(Chain(s + [x])) == TotalLength(Chain(s)) + x.part.len
  {
    var c := Chain(s) + [(x.mbuf.value, x.part.len)];
    assert Chain(s + [x]) == c;
    assert c[..|c| - 1] == Chain(s);
  }

  // ---------------------------------------------------------------------------------------------

  /** The view starts with the pending slots, and those hold buffers. */
  ghost predicate Shows(v: seq<Slot>, pending: seq<Slot>) {
    |pending| <= |v| && v[..|pending|] == pending && Filled(pending)
  }

  /** The last of the slots, if there are any, ends a frame. */
  predicate EndsFrame(s: seq<Slot>) {
    s == [] || s[|s| - 1].part.last
  }

  /** The first n slots make up the frames, and the others the beginning of one more. */
  ghost predicate FramesAndRest(frames: seq<Frame>, s: seq<Slot>, n: nat)
    requires Filled(s)
  {
    n <= |s| && Grouped(frames, s[..n]) && Unfinished(s[n..])
  }

  /** What the device writes for the buffers it fills. */
  function Received(s: seq<Slot>, parts: seq<Part>): (t: seq<Slot>)
    requires |s| == |parts|
    ensures |t| == |s|
  {
    seq(|s|, i requires 0 <= i < |s| => s[i].(part := parts[i]))
  }

  class Ring {
    const count: nat
    const slots: array<Slot>
    var cons: nat
    var prod: nat
    /** The device's index register. */
    var dma: nat

    /** The slots from the consumer up to the producer, oldest first; the device has filled `done` of them. */
    ghost var pending: seq<Slot>
    ghost var done: nat

    /** The state of the ring when its oldest slot in use is at c. */
    ghost predicate ValidFrom(c: nat)
      reads this`prod, this`dma, this`pending, this`done, slots
    {
      && count >= 2 && slots.Length == count
      && c < count && |pending| < count && done <= |pending|
      && prod == Wrap(c + |pending|, count)
      && dma == Wrap(c + done, count)
      && Shows(View(slots[..], c), pending)
    }

    ghost predicate Valid()
      reads this, slots
    {
      ValidFrom(cons)
    }

    /** A queue as it is after mwx_queue_reset. */
    constructor (count: nat)
      requires count >= 2
      ensures Valid() && this.count == count && pending == [] && done == 0 && fresh(slots)
    {
      this.count := count;
      slots := new Slot[count](_ => Slot(None, Part(0, false)));
      cons, prod, dma := 0, 0, 0;
      pending, done := [], 0;
    }

    lemma Indices(c: nat)
      requires ValidFrom(c)
      ensures c < count && prod < count && dma < count && done <= |pending| < count
      ensures Distance(dma, prod, count) == |pending| - done
      ensures c == dma <==> done == 0
      ensures Distance(c, prod, count) == |pending|
      ensures forall k :: 0 <= k < |pending| ==> View(slots[..], c)[k] == pending[k] && pending[k].mbuf.Some?
    {
      forall k | 0 <= k < |pending|
        ensures View(slots[..], c)[k] == pending[k]
      {
        assert View(slots[..], c)[..|pending|][k] == pending[k];
      }
      hide Wrap, View, Shows, Filled;
      DistanceIs(c, 0, |pending|, count);
      DistanceIs(c, done, |pending|, count);
      WrapNothing(c, count);
    }

    /** Storing to the slot k after c. */
    method SetSlot(idx: nat, x: Slot, ghost c: nat, ghost k: nat)
      requires c < count == slots.Length && k < count && idx == Wrap(c + k, count)
      modifies slots
      ensures View(slots[..], c) == old(View(slots[..], c))[k := x]
    {
      hide Wrap, View;
      ViewUpdate(slots[..], c, k, x);
      ghost var s := slots[..];
      slots[idx] := x;
      assert slots[..] == s[idx := x];
    }

    /** The device fills as many buffers as there are parts, and may stop in the middle of a frame. */
    method DeviceStep(ghost c: nat, parts: seq<Part>)
      requires ValidFrom(c) && |parts| <= |pending| - done
      modifies this`dma, this`done, this`pending, slots
      ensures ValidFrom(c) && done == old(done) + |parts|
      ensures pending
           == old(pending)[..old(done)] + Received(old(pending)[old(done)..done], parts) + old(pending)[done..]
    {
      hide Wrap, View, Filled, Shows, Received, Delivered;
      ghost var d, v := done, View(slots[..], c);
      NothingDelivered(v, d, parts);
      for i := 0 to |parts|
        invariant dma == Wrap(c + d + i, count)
        invariant Delivered(v, View(slots[..], c), d, parts, i)
        modifies slots, this`dma
      {
        DeliveredNext(v, View(slots[..], c), d, parts, i);
        dma := FillOne(c, parts[i], d + i);
      }
      done := done + |parts|;
      ReceivedShown(v, View(slots[..], c), pending, d, parts);
      pending := pending[..d] + Received(pending[d..done], parts) + pending[done..];
    }

    /** The device writes the control word of the slot at its index. */
    method FillOne(ghost c: nat, part: Part, ghost k: nat) returns (next: nat)
      requires c < count == slots.Length && k + 1 < count && dma == Wrap(c + k, count)
      modifies slots
      ensures next == Wrap(c + k + 1, count)
      ensures var v := old(View(slots[..], c)); View(slots[..], c) == v[k := v[k].(part := part)]
    {
      hide Wrap, View;
      ViewAt(slots[..], c, k);
      SetSlot(dma, slots[dma].(part := part), c, k);
      NextSlot(c, k, count);
      next := Wrap(dma + 1, count);
    }

    /** mwx_read of the device's index, which may have filled more buffers since the last time. */
    method ReadIndex(ghost c: nat) returns (last: nat)
      requires ValidFrom(c)
      modifies this`dma, this`done, this`pending, slots
      ensures ValidFrom(c) && last == dma && old(done) <= done
      ensures |pending| == |old(pending)|
      ensures SameBuffers(old(pending), pending) && pending[..old(done)] == old(pending)[..old(done)]
      ensures pending[done..] == old(pending)[done..]
    {
      hide Wrap, View, Shows, Filled;
      Indices(c);
      var parts: seq<Part> :| |parts| <= Distance(dma, prod, count);
      ReceivedSame(pending, done, parts);
      DeviceStep(c, parts);
      last := dma;
    }

    /** The start of the loop of mwx_dma_rx_dequeue: the oldest slot in use, at idx, gives up its buffer. */
    method Take(idx: nat) returns (m: Option<Mbuf>, part: Part, next: nat)
      requires ValidFrom(idx) && done > 0
      modifies this`pending, this`done, slots
      ensures next == Wrap(idx + 1, count) && ValidFrom(next)
      ensures pending == old(pending)[1..] && done == old(done) - 1
      ensures m.Some? && Slot(m, part) == old(pending)[0]
    {
      hide Wrap, View, Shows, Filled;
      Indices(idx);
      OldestTaken(View(slots[..], idx), pending, done);
      WrapNothing(idx, count);
      ViewAt(slots[..], idx, 0);
      m, part := slots[idx].mbuf, slots[idx].part;
      SetSlot(idx, slots[idx].(mbuf := None), idx, 0);
      next := Wrap(idx + 1, count);
      ViewMoved(slots[..], idx, 1);
      StillAhead(idx, |pending|, count);
      StillAhead(idx, done, count);
      pending := pending[1..];
      done := done - 1;
    }

    /** The chaining in the loop of mwx_dma_rx_dequeue: the buffer joins the frame begun in m0, which is complete
        if the buffer is its last. */
    static method Link(frames: seq<Frame>, m0: Option<Frame>, m: Option<Mbuf>, part: Part,
      ghost whole: seq<Slot>, ghost cur: seq<Slot>)
      returns (frames': seq<Frame>, m0': Option<Frame>, ghost whole': seq<Slot>, ghost cur': seq<Slot>)
      requires Chained(frames, m0, whole, cur) && m.Some?
      ensures Chained(frames', m0', whole', cur')
      ensures whole' + cur' == whole + cur + [Slot(m, part)]
      ensures part.last <==> cur' == []
    {
      hide OneFrame, TotalLength, Chain, Grouped, Filled, Unfinished;
      ghost var x := Slot(m, part);
      ChainNext(cur, x);
      StillUnfinished(cur, x);
      if m0 == None {
        FirstOfChain(cur, x);
        m0' := Some(Frame([(m.value, part.len)], part.len));
      } else {
        m0' := Some(Frame(m0.value.chain + [(m.value, part.len)], m0.value.len + part.len));
      }
      frames', whole', cur' := frames, whole, cur + [x];
      if part.last {
        GroupedNext(frames, whole, cur', m0'.value);
        FilledSum(whole, cur');
        frames' := frames + [m0'.value];
        whole', cur' := whole + cur', [];
        m0' := None;
        NothingTaken();
      }
    }

    /** mwx_dma_rx_dequeue: the frames that the device has completed, also those it completes while the loop
        is at work; taken are the slots they come from.  Its last assertion, without which it does not return,
        holds exactly when the buffer before the last index read ends a frame. */
    method Dequeue() returns (frames: seq<Frame>, ok: bool, ghost taken: seq<Slot>)
      requires Valid()
      modifies this`cons, this`dma, this`pending, this`done, slots
      ensures Filled(taken) && done == 0
      ensures old(done) <= |taken| <= |old(pending)| && pending == old(pending)[|taken|..]
      ensures SameBuffers(old(pending)[..|taken|], taken) && taken[..old(done)] == old(pending)[..old(done)]
      ensures ok <==> EndsFrame(taken)
      ensures ok ==> Valid() && cons == dma && Grouped(frames, taken)
      ensures !ok ==> exists n: nat :: n < |taken| && FramesAndRest(frames, taken, n)
    {
      hide Wrap, View, Shows, ValidFrom, OneFrame, TotalLength, Chain, Grouped, Filled, Unfinished, Progress,
        SameBuffers, Chained, FramesAndRest;
      ghost var all, n := pending, done;
      frames, taken := [], [];
      GroupedNothing();
      NothingTaken();
      var idx := cons;
      var last := ReadIndex(idx);
      Indices(idx);
      ProgressStart(all, pending, n, done);
      if idx == last {
        assert taken[..n] == all[..n];
        ok := true;
        return;
      }
      var m0: Option<Frame> := None;
      ghost var whole, cur: seq<Slot> := [], [];
      NothingChained();
      while idx != last
        invariant ValidFrom(idx) && last == dma
        invariant Chained(frames, m0, whole, cur) && taken == whole + cur
        invariant EndsFrame(taken) <==> cur == []
        invariant Progress(all, n, taken, pending, done)
        decreases |pending|
      {
        Indices(idx);
        ghost var was := pending;
        var m, part;
        m, part, idx := Take(idx);
        frames, m0, whole, cur := Link(frames, m0, m, part, whole, cur);
        ProgressTaken(all, n, taken, was, done + 1);
        taken := taken + [was[0]];
        if idx == last {
          Indices(idx);
          ghost var before := pending;
          last := ReadIndex(idx);
          Indices(idx);
          ProgressRead(all, n, taken, before, pending, done);
        }
      }
      Indices(idx);
      ProgressEnd(all, n, taken, pending);
      AllChained(frames, m0, whole, cur);
      ok := m0 == None;
      if !ok {
        return;
      }
      cons := idx;
    }

    /** mwx_queue_fill: empty buffers up to the slot before the consumer.  bufs says for every slot in turn
        whether a buffer could be had; after a failure the producer index stays where it was. */
    method Fill(bufs: seq<Option<Mbuf>>) returns (ok: bool)
      requires Valid() && |bufs| == count - 1 - |pending|
      modifies this`prod, this`pending, slots
      ensures Valid()
      ensures ok <==> AllThere(bufs)
      ensures ok ==> |pending| == count - 1 && pending == old(pending) + Empty(bufs)
      ensures ok ==> pending[..|old(pending)|] == old(pending)
      ensures ok ==> forall i :: 0 <= i < |bufs| ==> pending[|old(pending)| + i] == Slot(bufs[i], Part(2048, true))
      ensures !ok ==> pending == old(pending) && prod == old(prod)
    {
      hide Wrap, View, Shows, Filled, Supplied, Empty, AllThere;
      Indices(cons);
      var last := Wrap(count + cons - 1, count);
      var idx := prod;
      ghost var v := View(slots[..], cons);
      NothingSupplied(v, pending, bufs);
      var k := 0;
      while idx != last
        invariant 0 <= k <= |bufs| && idx == Wrap(cons + |pending| + k, count)
        invariant Supplied(View(slots[..], cons), pending, bufs, k)
        modifies slots
        decreases |bufs| - k
      {
        BeforeLast(cons, |pending| + k, count);
        NextSlot(cons, |pending| + k, count);
        if bufs[k] == None {
          NotThere(bufs, k);
          StillShown(View(slots[..], cons), pending, bufs, k);
          return false;
        }
        SuppliedNext(View(slots[..], cons), pending, bufs, k);
        SetSlot(idx, Slot(bufs[k], Part(RX_BUF_SIZE, true)), cons, |pending| + k);
        idx := Wrap(idx + 1, count);
        k := k + 1;
      }
      BeforeLast(cons, |pending| + k, count);
      prod := idx;
      AllSupplied(View(slots[..], cons), pending, bufs);
      EmptyAre(pending, bufs);
      pending := pending + Empty(bufs);
      return true;
    }

    /** mwx_queue_reset. */
    method Reset()
      requires Valid()
      modifies this`cons, this`prod, this`dma, this`pending, this`done, slots
      ensures Valid() && pending == [] && cons == prod == dma == 0
      ensures forall j :: 0 <= j < count ==> slots[j].mbuf == None
    {
      hide Wrap, View, Shows;
      for i := 0 to count
        invariant forall j :: 0 <= j < i ==> slots[j].mbuf == None
        modifies slots
      {
        slots[i] := Slot(None, Part(0, false));
      }
      cons, prod, dma := 0, 0, 0;
      pending, done := [], 0;
      WrapNothing(0, count);
      NothingShown(View(slots[..], 0));
    }

    /** mwx_dma_rx_done: after frames have come in, the ring is filled again. */
    method RxDone(bufs: nat -> Option<Mbuf>) returns (frames: seq<Frame>, ok: bool, ghost taken: seq<Slot>)
      requires Valid()
      modifies this`cons, this`prod, this`dma, this`pending, this`done, slots
      ensures Filled(taken) && (ok <==> EndsFrame(taken))
      ensures ok ==> Valid() && Grouped(frames, taken)
      ensures old(done) <= |taken| <= |old(pending)| && SameBuffers(old(pending)[..|taken|], taken)
      ensures ok && frames != [] && (forall i :: bufs(i).Some?) ==> |pending| == count - 1
    {
      hide Wrap, View, Shows, Filled, Grouped, SameBuffers;
      frames, ok, taken := Dequeue();
      if !ok || frames == [] {
        return;
      }
      Indices(cons);
      var free := count - 1 - Distance(cons, prod, count);
      var filled := Fill(seq(free, i requires 0 <= i < free => bufs(i)));
    }
  }

  /** Slots as mwx_buf_fill leaves them. */
  function Empty(bufs: seq<Option<Mbuf>>): (s: seq<Slot>)
    ensures |s| == |bufs|
  {
    seq(|bufs|, i requires 0 <= i < |bufs| => Slot(bufs[i], Part(RX_BUF_SIZE, true)))
  }

  lemma EmptyAre(pending: seq<Slot>, bufs: seq<Option<Mbuf>>)
    ensures (pending + Empty(bufs))[..|pending|] == pending
    ensures forall i :: 0 <= i < |bufs| ==> (pending + Empty(bufs))[|pending| + i] == Slot(bufs[i], Part(2048, true))
  {
  }

  /** The first k of the buffers have been put behind the pending slots. */
  ghost predicate Supplied(w: seq<Slot>, pending: seq<Slot>, bufs: seq<Option<Mbuf>>, k: nat) {
    && Shows(w, pending) && k <= |bufs| && |pending| + |bufs| <= |w|
    && (forall i :: 0 <= i < k ==> bufs[i].Some?)
    && (forall i :: |pending| <= i < |pending| + k ==> w[i] == Slot(bufs[i - |pending|], Part(RX_BUF_SIZE, true)))
  }

  lemma NothingSupplied(v: seq<Slot>, pending: seq<Slot>, bufs: seq<Option<Mbuf>>)
    requires Shows(v, pending) && |pending| + |bufs| <= |v|
    ensures Supplied(v, pending, bufs, 0)
  {
  }

  lemma SuppliedNext(w: seq<Slot>, pending: seq<Slot>, bufs: seq<Option<Mbuf>>, k: nat)
    requires Supplied(w, pending, bufs, k) && k < |bufs| && bufs[k].Some?
    ensures Supplied(w[|pending| + k := Slot(bufs[k], Part(RX_BUF_SIZE, true))], pending, bufs, k + 1)
  {
    var x := w[|pending| + k := Slot(bufs[k], Part(RX_BUF_SIZE, true))];
    assert x[..|pending|] == w[..|pending|];
  }

  lemma StillShown(w: seq<Slot>, pending: seq<Slot>, bufs: seq<Option<Mbuf>>, k: nat)
    requires Supplied(w, pending, bufs, k)
    ensures Shows(w, pending)
  {
  }

  lemma AllSupplied(w: seq<Slot>, pending: seq<Slot>, bufs: seq<Option<Mbuf>>)
    requires Supplied(w, pending, bufs, |bufs|)
    ensures Shows(w, pending + Empty(bufs)) && AllThere(bufs)
  {
    var p := pending + Empty(bufs);
    forall i | 0 <= i < |p|
      ensures w[i] == p[i] && p[i].mbuf.Some?
    {
      assert i < |pending| ==> w[..|pending|][i] == pending[i];
    }
    SamePrefix(w, p);
  }

  lemma SamePrefix(w: seq<Slot>, p: seq<Slot>)
    requires |p| <= |w| && forall i :: 0 <= i < |p| ==> w[i] == p[i]
    ensures w[..|p|] == p
  {
  }

  /** Every buffer could be had. */
  predicate AllThere(bufs: seq<Option<Mbuf>>) {
    forall i :: 0 <= i < |bufs| ==> bufs[i].Some?
  }

  lemma NotThere(bufs: seq<Option<Mbuf>>, k: nat)
    requires k < |bufs| && bufs[k] == None
    ensures !AllThere(bufs)
  {
  }

  lemma NothingShown(v: seq<Slot>)
    ensures Shows(v, [])
  {
  }

  /** The slots hold the same buffers. */
  ghost predicate SameBuffers(s: seq<Slot>, t: seq<Slot>) {
    |s| == |t| && forall i :: 0 <= i < |s| ==> s[i].mbuf == t[i].mbuf
  }

  lemma ReceivedSame(pending: seq<Slot>, d: nat, parts: seq<Part>)
    requires d + |parts| <= |pending|
    ensures var p := pending[..d] + Received(pending[d..d + |parts|], parts) + pending[d + |parts|..];
      SameBuffers(pending, p) && p[..d] == pending[..d] && p[d + |parts|..] == pending[d + |parts|..]
  {
  }

  /** The oldest slot in use goes, and takes its buffer with it. */
  lemma OldestTaken(v: seq<Slot>, pending: seq<Slot>, done: nat)
    requires Shows(v, pending) && 0 < done <= |pending|
    ensures v[0] == pending[0] && v[0].mbuf.Some?
    ensures var w := v[0 := v[0].(mbuf := None)]; Shows(w[1..] + w[..1], pending[1..])
  {
    var w := v[0 := v[0].(mbuf := None)];
    var t := w[1..] + w[..1];
    assert t[..|pending| - 1] == pending[1..];
  }

  /** The frames are those of the slots whole, and m0 is the frame begun with the slots cur. */
  ghost predicate Chained(frames: seq<Frame>, m0: Option<Frame>, whole: seq<Slot>, cur: seq<Slot>) {
    && Filled(whole) && Filled(cur) && Unfinished(cur) && Grouped(frames, whole)
    && (cur == [] <==> m0 == None)
    && (m0.Some? ==> m0.value == Frame(Chain(cur), TotalLength(Chain(cur))))
  }

  lemma NothingChained()
    ensures Chained([], None, [], [])
  {
    GroupedNothing();
  }

  /** The end of the loop: either every slot belongs to a frame, or one is left unfinished in m0. */
  lemma AllChained(frames: seq<Frame>, m0: Option<Frame>, whole: seq<Slot>, cur: seq<Slot>)
    requires Chained(frames, m0, whole, cur)
    ensures Filled(whole + cur) && (m0 == None <==> cur == [])
    ensures cur == [] ==> Grouped(frames, whole + cur)
    ensures cur != [] ==> |whole| < |whole + cur| && FramesAndRest(frames, whole + cur, |whole|)
  {
    FilledSum(whole, cur);
    if cur == [] {
      assert whole + cur == whole;
    }
    assert (whole + cur)[..|whole|] == whole && (whole + cur)[|whole|..] == cur;
  }

  lemma NothingTaken()
    ensures Filled([]) && Unfinished([])
  {
  }

  lemma FirstOfChain(cur: seq<Slot>, x: Slot)
    requires cur == [] && x.mbuf.Some?
    ensures Filled(cur + [x]) && Chain(cur + [x]) == [(x.mbuf.value, x.part.len)]
    ensures TotalLength(Chain(cur + [x])) == x.part.len
  {
    assert Chain(cur + [x]) == [(x.mbuf.value, x.part.len)];
    assert TotalLength([]) == 0;
  }

  /** A buffer either leaves the frame unfinished or ends it. */
  lemma StillUnfinished(cur: seq<Slot>, x: Slot)
    requires Unfinished(cur)
    ensures if x.part.last then OneFrame(cur + [x]) else Unfinished(cur + [x])
  {
  }

  /** Of the slots all, of which the device had filled n, those in taken are gone and the rest is pending. */
  ghost predicate Progress(all: seq<Slot>, n: nat, taken: seq<Slot>, pending: seq<Slot>, done: nat) {
    && |all| == |taken| + |pending| && done <= |pending| && n <= |taken| + done
    && SameBuffers(all, taken + pending)
    && (taken + pending)[..n] == all[..n]
    && pending[done..] == all[|taken| + done..]
  }

  lemma ProgressStart(all: seq<Slot>, pending: seq<Slot>, n: nat, done: nat)
    requires SameBuffers(all, pending) && n <= done <= |all|
    requires pending[..n] == all[..n] && pending[done..] == all[done..]
    ensures Progress(all, n, [], pending, done)
    ensures done == 0 ==> n == 0 && pending == all[0..] && SameBuffers(all[..0], []) && all[..0] == []
  {
    assert [] + pending == pending;
    assert pending[0..] == pending && all[0..] == all;
  }

  lemma ProgressTaken(all: seq<Slot>, n: nat, taken: seq<Slot>, pending: seq<Slot>, done: nat)
    requires Progress(all, n, taken, pending, done) && done > 0
    ensures Progress(all, n, taken + [pending[0]], pending[1..], done - 1)
  {
    assert (taken + [pending[0]]) + pending[1..] == taken + pending;
  }

  lemma ProgressRead(all: seq<Slot>, n: nat, taken: seq<Slot>, p: seq<Slot>, q: seq<Slot>, done: nat)
    requires Progress(all, n, taken, p, 0) && SameBuffers(p, q) && done <= |q|
    requires q[done..] == p[done..]
    ensures Progress(all, n, taken, q, done)
  {
    assert (taken + q)[..n] == taken[..n] == (taken + p)[..n];
    assert p[0..] == all[|taken|..];
    assert p[done..] == p[0..][done..] == all[|taken|..][done..] == all[|taken| + done..];
  }

  lemma ProgressEnd(all: seq<Slot>, n: nat, taken: seq<Slot>, pending: seq<Slot>)
    requires Progress(all, n, taken, pending, 0)
    ensures n <= |taken| <= |all| && pending == all[|taken|..]
    ensures SameBuffers(all[..|taken|], taken) && taken[..n] == all[..n]
  {
    assert pending[0..] == pending;
    assert (taken + pending)[..n] == taken[..n];
    forall i | 0 <= i < |taken|
      ensures all[i].mbuf == taken[i].mbuf
    {
      assert (taken + pending)[i] == taken[i];
    }
  }

  /** w is v with the first i parts written to the slots from d on. */
  ghost predicate Delivered(v: seq<Slot>, w: seq<Slot>, d: nat, parts: seq<Part>, i: nat) {
    && |w| == |v| && i <= |parts| && d + |parts| <= |v|
    && (forall j :: 0 <= j < d || d + i <= j < |v| ==> w[j] == v[j])
    && (forall j :: d <= j < d + i ==> w[j] == v[j].(part := parts[j - d]))
  }

  lemma NothingDelivered(v: seq<Slot>, d: nat, parts: seq<Part>)
    requires d + |parts| <= |v|
    ensures Delivered(v, v, d, parts, 0)
  {
  }

  lemma DeliveredNext(v: seq<Slot>, w: seq<Slot>, d: nat, parts: seq<Part>, i: nat)
    requires Delivered(v, w, d, parts, i) && i < |parts|
    ensures Delivered(v, w[d + i := w[d + i].(part := parts[i])], d, parts, i + 1)
  {
  }

  lemma ReceivedShown(v: seq<Slot>, w: seq<Slot>, pending: seq<Slot>, d: nat, parts: seq<Part>)
    requires Shows(v, pending) && d + |parts| <= |pending| && Delivered(v, w, d, parts, |parts|)
    ensures Shows(w, pending[..d] + Received(pending[d..d + |parts|], parts) + pending[d + |parts|..])
  {
    var p := pending[..d] + Received(pending[d..d + |parts|], parts) + pending[d + |parts|..];
    forall j | 0 <= j < |p|
      ensures w[j] == p[j]
    {
      assert v[..|pending|][j] == pending[j];
    }
    SamePrefix(w, p);
    ReceivedFilled(pending, d, parts);
  }

  lemma ReceivedFilled(s: seq<Slot>, d: nat, parts: seq<Part>)
    requires Filled(s) && d + |parts| <= |s|
    ensures Filled(s[..d] + Received(s[d..d + |parts|], parts) + s[d + |parts|..])
  {
  }

  /** A device that has filled the only buffer with the beginning of a frame: the last assertion of
      mwx_dma_rx_dequeue fails. */
  method HalfFrame(m: Mbuf, len: nat) returns (ok: bool)
    ensures !ok
  {
    hide Wrap, View, Shows, Filled, Grouped, SameBuffers, FramesAndRest;
    var ring := new Ring(2);
    var filled := ring.Fill([Some(m)]);
    assert AllThere([Some(m)]);
    ghost var p := ring.pending;
    ring.DeviceStep(ring.cons, [Part(len, false)]);
    assert ring.pending == Received(p, [Part(len, false)]);
    ghost var q := ring.pending;
    var frames;
    ghost var taken;
    frames, ok, taken := ring.Dequeue();
    assert taken == q;
  }
}
