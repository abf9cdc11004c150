/** A transmit ring of the driver (MtkMwx.cpp): packets are put in at the producer index, the device works its
    way from the consumer index towards it, and cleanup releases what the device has passed.

    A packet is a token; taking it in is recorded in accepted, releasing it in freed.  The device may move
    its index forward at any time, but not past the producer index. */
module TxRing {
  import opened RingIndex

  type Mbuf = nat

  /** What fits into a 32-bit word of a descriptor; a packet with a segment elsewhere is copied before it is
      loaded. */
  type Word32 = x: nat | x < 0x1_0000_0000

  datatype Segment = Segment(addr: Word32, len: nat)

  /** The segments in a DMA map, dm_segs: those of the packet that was loaded last come first, and what earlier
      ones have left there follows. */
  const SCATTER: nat := 23

  type Map = s: seq<Segment> | |s| == SCATTER witness seq(SCATTER, _ => Segment(0, 0))

  /** A map after n = |segs| segments have been loaded. */
  function LoadedMap(dm: Map, segs: seq<Segment>): Map
    requires |segs| <= SCATTER
  {
    segs + dm[|segs|..]
  }

  /** A hardware descriptor: up to two segments, and which of them ends a packet. */
  datatype Desc = Desc(seg0: Option<Segment>, seg1: Option<Segment>, last0: bool, last1: bool, done: bool)

  const IDLE: Desc := Desc(None, None, false, false, true)

  /** A slot in use: the packet that ends its life here, if any, and the descriptor. */
  datatype Slot = Slot(mbuf: Option<Mbuf>, desc: Desc)

  /** What loading a packet for the device gives. */
  datatype Load = Loaded(segs: seq<Segment>) | Failed(error: int)

  const EFBIG: int := 27
  const EBUSY: int := 16

  /** The packets that slots hold. */
  function Mbufs(s: seq<Slot>): multiset<Mbuf> {
    if s == [] then multiset{}
    else Mbufs(s[..|s| - 1]) + match s[|s| - 1].mbuf case None => multiset{} case Some(m) => multiset{m}
  }

  // ---------------------------------------------------------------------------------------------
  // The descriptors of a packet

  /** The slots that n segments take. */
  function SlotCount(n: nat): (k: nat)
    ensures n <= 2 * k <= n + 1
  {
    (n + 1) / 2
  }

  /** Descriptor i of a packet of n segments, written from a map: entries 2i and 2i + 1. */
  function DescAt(dm: Map, n: nat, i: nat): Desc
    requires 2 * i < n <= SCATTER
  {
    if 2 * i == n - 1 then Desc(Some(dm[2 * i]), None, true, false, false)
    else Desc(Some(dm[2 * i]), Some(dm[2 * i + 1]), false, 2 * i == n - 2, false)
  }

  /** The slots of a packet of n segments; the first holds it, and each descriptor is written from the map of its
      own slot. */
  function PacketSlots(m: Mbuf, maps: seq<Map>, n: nat): (s: seq<Slot>)
    requires n <= SCATTER && SlotCount(n) <= |maps|
    ensures |s| == SlotCount(n)
  {
    seq(SlotCount(n), i requires 0 <= i < SlotCount(n) =>
      Slot(if i == 0 then Some(m) else None, DescAt(maps[i], n, i)))
  }

  /** The maps from a slot on, after a packet has been loaded into the map of that slot. */
  function MapsFrom(maps: seq<Map>, segs: seq<Segment>): (r: seq<Map>)
    requires maps != [] && |segs| <= SCATTER
    ensures |r| == |maps|
  {
    maps[0 := LoadedMap(maps[0], segs)]
  }

  /** The segments that a list of descriptors names. */
  function SegmentsOf(s: seq<Slot>): seq<Segment> {
    if s == [] then []
    else
      var d := s[|s| - 1].desc;
      SegmentsOf(s[..|s| - 1])
      + (if d.seg0.Some? then [d.seg0.value] else [])
      + (if d.seg1.Some? then [d.seg1.value] else [])
  }

  /** What a list of descriptors makes the device send: the segments that it names, each with the mark that says
      whether a packet ends there. */
  function Sent(s: seq<Slot>): seq<(Segment, bool)> {
    if s == [] then []
    else
      var d := s[|s| - 1].desc;
      Sent(s[..|s| - 1])
      + (if d.seg0.Some? then [(d.seg0.value, d.last0)] else [])
      + (if d.seg1.Some? then [(d.seg1.value, d.last1)] else [])
  }

  lemma {:induction false} SegmentsSent(s: seq<Slot>)
    ensures |SegmentsOf(s)| == |Sent(s)| && forall j :: 0 <= j < |Sent(s)| ==> SegmentsOf(s)[j] == Sent(s)[j].0
  {
    if s != [] {
      SegmentsSent(s[..|s| - 1]);
    }
  }

  /** The slots hold and describe one packet: the first holds it, all of them wait for the device, and of the n
      segments that they name the last one is marked as the end. */
  ghost predicate IsPacket(s: seq<Slot>, m: Mbuf, n: nat) {
    && (forall i :: 0 <= i < |s| ==> s[i].mbuf == if i == 0 then Some(m) else None)
    && (forall i :: 0 <= i < |s| ==> s[i].desc.seg0.Some? && !s[i].desc.done)
    && (forall i :: 0 <= i < |s| && s[i].desc.last1 ==> s[i].desc.seg1.Some?)
    && |Sent(s)| == n
    && forall j :: 0 <= j < n ==> (Sent(s)[j].1 <==> j == n - 1)
  }

  /** ... and the first two are those of the packet. */
  ghost predicate Describes(s: seq<Slot>, m: Mbuf, segs: seq<Segment>) {
    && IsPacket(s, m, |segs|)
    && forall j :: 0 <= j < |segs| && j < 2 ==> Sent(s)[j].0 == segs[j]
  }

  /** The descriptors name n segments; segment j comes from the map of slot j / 2. */
  lemma NamedSegments(m: Mbuf, maps: seq<Map>, n: nat)
    requires n <= SCATTER && SlotCount(n) <= |maps|
    ensures var named := SegmentsOf(PacketSlots(m, maps, n));
      |named| == n && forall j :: 0 <= j < n ==> named[j] == maps[j / 2][j]
  {
    var s := PacketSlots(m, maps, n);
    PrefixSent(m, maps, n, |s|);
    SegmentsSent(s);
    assert s[..|s|] == s;
  }

  lemma {:induction false} PrefixSent(m: Mbuf, maps: seq<Map>, n: nat, k: nat)
    requires n <= SCATTER && k <= SlotCount(n) <= |maps|
    ensures var sent := Sent(PacketSlots(m, maps, n)[..k]);
      && |sent| == (if 2 * k <= n then 2 * k else n)
      && forall j :: 0 <= j < |sent| ==> sent[j] == (maps[j / 2][j], j == n - 1)
  {
    if k > 0 {
      PrefixSent(m, maps, n, k - 1);
      assert PacketSlots(m, maps, n)[..k][..k - 1] == PacketSlots(m, maps, n)[..k - 1];
    }
  }

  /** The end of the packet is marked on its last segment and nowhere else. */
  lemma EndMarked(m: Mbuf, maps: seq<Map>, n: nat)
    requires n <= SCATTER && SlotCount(n) <= |maps|
    ensures IsPacket(PacketSlots(m, maps, n), m, n)
    ensures forall i :: 0 <= i < |PacketSlots(m, maps, n)| ==>
      (PacketSlots(m, maps, n)[i].desc.last0 || PacketSlots(m, maps, n)[i].desc.last1 <==> i == SlotCount(n) - 1)
  {
    var s := PacketSlots(m, maps, n);
    PrefixSent(m, maps, n, |s|);
    assert s[..|s|] == s;
  }

  lemma NewSlots(m: Mbuf, maps: seq<Map>, segs: seq<Segment>)
    requires 0 < |segs| <= SCATTER && SlotCount(|segs|) <= |maps|
    ensures Describes(PacketSlots(m, MapsFrom(maps, segs), |segs|), m, segs)
  {
    hide PacketSlots, IsPacket;
    var r, n := MapsFrom(maps, segs), |segs|;
    EndMarked(m, r, n);
    PrefixSent(m, r, n, |PacketSlots(m, r, n)|);
    assert PacketSlots(m, r, n)[..|PacketSlots(m, r, n)|] == PacketSlots(m, r, n);
    forall j | 0 <= j < n && j < 2
      ensures Sent(PacketSlots(m, r, n))[j].0 == segs[j]
    {
      assert r[j / 2][j] == segs[j];
    }
  }

  /** The packet is in the map of its first slot only: its descriptors name its segments exactly when the maps of
      the other slots happen to have the same segments at the same places. */
  lemma PacketNamed(m: Mbuf, maps: seq<Map>, segs: seq<Segment>)
    requires 0 < |segs| <= SCATTER && SlotCount(|segs|) <= |maps|
    ensures SegmentsOf(PacketSlots(m, MapsFrom(maps, segs), |segs|)) == segs
      <==> forall j :: 2 <= j < |segs| ==> maps[j / 2][j] == segs[j]
  {
    hide PacketSlots, SegmentsOf;
    var r := MapsFrom(maps, segs);
    NamedSegments(m, r, |segs|);
    var named := SegmentsOf(PacketSlots(m, r, |segs|));
    forall j | 0 <= j < |segs|
      ensures r[j / 2][j] == if j < 2 then segs[j] else maps[j / 2][j]
    {
    }
  }

  /** Whatever the other maps hold, the descriptors name the segments of the packet: true exactly of packets of at
      most two segments. */
  lemma PacketNamedAlways(segs: seq<Segment>)
    requires 0 < |segs| <= SCATTER
    ensures (forall m: Mbuf, maps: seq<Map> :: SlotCount(|segs|) <= |maps| ==>
               SegmentsOf(PacketSlots(m, MapsFrom(maps, segs), |segs|)) == segs)
      <==> |segs| <= 2
  {
    hide PacketSlots, SegmentsOf, MapsFrom;
    forall m: Mbuf, maps: seq<Map> | |segs| <= 2 && SlotCount(|segs|) <= |maps|
      ensures SegmentsOf(PacketSlots(m, MapsFrom(maps, segs), |segs|)) == segs
    {
      PacketNamed(m, maps, segs);
    }
    if |segs| > 2 {
      var other: Map := seq(SCATTER, _ => Segment(segs[2].addr, segs[2].len + 1));
      var maps := seq(SlotCount(|segs|), _ => other);
      PacketNamed(0, maps, segs);
      assert maps[2 / 2][2] != segs[2];
    }
  }

  /** Three segments in a ring whose maps have not been used: the third descriptor entry is that of an empty map. */
  lemma ThreeSegments(m: Mbuf, a: Segment, b: Segment, c: Segment, maps: seq<Map>)
    requires |maps| >= 2 && maps[1] == seq(SCATTER, _ => Segment(0, 0))
    ensures SegmentsOf(PacketSlots(m, MapsFrom(maps, [a, b, c]), 3)) == [a, b, Segment(0, 0)]
  {
    hide PacketSlots, SegmentsOf;
    NamedSegments(m, MapsFrom(maps, [a, b, c]), 3);
  }

  lemma {:induction false} MbufsOfSum(s: seq<Slot>, t: seq<Slot>)
    ensures Mbufs(s + t) == Mbufs(s) + Mbufs(t)
  {
    if t == [] {
      assert s + t == s;
    } else {
      assert (s + t)[..|s + t| - 1] == s + t[..|t| - 1];
      MbufsOfSum(s, t[..|t| - 1]);
    }
  }

  lemma {:induction false} MbufsOfPacket(m: Mbuf, maps: seq<Map>, n: nat, k: nat)
    requires n <= SCATTER && 0 < k <= SlotCount(n) <= |maps|
    ensures Mbufs(PacketSlots(m, maps, n)[..k]) == multiset{m}
  {
    var s := PacketSlots(m, maps, n)[..k];
    if k == 1 {
      assert s[..0] == [];
    } else {
      MbufsOfPacket(m, maps, n, k - 1);
      assert s[..k - 1] == PacketSlots(m, maps, n)[..k - 1];
    }
  }

  /** A packet is held by the first of its slots and goes with it: no slots but all of them release it, exactly when
      it has at most two segments. */
  lemma ReleasedWithAll(m: Mbuf, maps: seq<Map>, n: nat)
    requires 0 < n <= SCATTER && SlotCount(n) <= |maps|
    ensures (forall k :: 0 <= k < SlotCount(n) ==> m !in Mbufs(PacketSlots(m, maps, n)[..k])) <==> n <= 2
    ensures Mbufs(PacketSlots(m, maps, n)[..1]) == multiset{m}
  {
    hide PacketSlots;
    MbufsOfPacket(m, maps, n, 1);
    assert PacketSlots(m, maps, n)[..0] == [];
    if n > 2 {
      assert 1 < SlotCount(n);
    }
  }

  // ---------------------------------------------------------------------------------------------
  // The ring, seen from the consumer

  lemma IdleShows(s: seq<Slot>, cons: nat)
    requires cons < |s| && forall j :: 0 <= j < |s| ==> s[j] == Slot(None, IDLE)
    ensures Shows(View(s, cons), [])
  {
    forall i | 0 <= i < |s|
      ensures View(s, cons)[i] == Slot(None, IDLE)
    {
      ViewAt(s, cons, i);
    }
  }

  /** The view starts with the pending slots; the others hold no packet and are marked as done. */
  ghost predicate Shows(v: seq<Slot>, pending: seq<Slot>) {
    && |pending| <= |v|
    && v[..|pending|] == pending
    && forall i :: |pending| <= i < |v| ==> v[i] == Slot(None, IDLE)
  }

  // ---------------------------------------------------------------------------------------------

  class Ring {
    const count: nat
    /** md_mbuf and the descriptor of every slot, md_txwi, and the segments in md_map. */
    const slots: array<Slot>
    const txwis: array<Option<nat>>
    const maps: array<Map>
    var cons: nat
    var prod: nat
    /** The device's index register. */
    var dma: nat

    /** The slots from the consumer up to the producer, oldest first; the device is through with `done` of
        them. */
    ghost var pending: seq<Slot>
    ghost var done: nat
    ghost var accepted: multiset<Mbuf>
    ghost var freed: multiset<Mbuf>

    /** The state of the ring when its oldest slot in use is at c. */
    ghost predicate ValidFrom(c: nat)
      reads this`prod, this`dma, this`pending, this`done, this`accepted, this`freed, slots
    {
      && count >= 2 && slots.Length == count && txwis.Length == count && maps.Length == count
      && (slots as object) != txwis && (slots as object) != maps && (txwis as object) != maps
      && c < count && |pending| < count && done <= |pending|
      && prod == Wrap(c + |pending|, count)
      && dma == Wrap(c + done, count)
      && Shows(View(slots[..], c), pending)
      && accepted == freed + Mbufs(pending)
    }

    ghost predicate Valid()
      reads this, slots
    {
      ValidFrom(cons)
    }

    /** A queue as it is after mwx_queue_reset. */
    constructor (count: nat)
      requires count >= 2
      ensures Valid() && this.count == count && pending == [] && accepted == multiset{} == freed
      ensures fresh(slots) && fresh(txwis) && fresh(maps)
      ensures forall i :: 0 <= i < count ==> maps[i] == seq(SCATTER, _ => Segment(0, 0))
    {
      this.count := count;
      slots := new Slot[count](_ => Slot(None, IDLE));
      txwis := new Option<nat>[count](_ => None);
      maps := new Map[count](_ => seq(SCATTER, _ => Segment(0, 0)));
      cons, prod, dma := 0, 0, 0;
      pending, done := [], 0;
      accepted, freed := multiset{}, multiset{};
      new;
      IdleShows(slots[..], cons);
    }

    /** The indices stay in range, and the free slots are those not in use but one. */
    lemma Indices(c: nat)
      requires ValidFrom(c)
      ensures c < count && prod < count && dma < count && done <= |pending| < count
      ensures FreeSlots(c, prod, count) == count - 1 - |pending|
      ensures Distance(dma, prod, count) == |pending| - done
      ensures c == dma <==> done == 0
    {
      hide Wrap, View, Shows, Mbufs;
      FreeSlotsCount(c, prod, count);
      DistanceIs(c, 0, |pending|, count);
      DistanceIs(c, done, |pending|, count);
      WrapNothing(c, count);
    }

    /** A slot that is not in use names no segment and is marked as done, so that the device does not send it. */
    lemma NotInUse(c: nat, i: nat)
      requires ValidFrom(c) && |pending| <= i < count
      ensures var slot := slots[Wrap(c + i, count)];
        slot.mbuf == None && slot.desc.seg0 == None == slot.desc.seg1 && slot.desc.done
    {
      hide Wrap, View, Mbufs;
      ViewAt(slots[..], c, i);
    }

    /** The device moves on by any number of slots that keeps it within the producer's index. */
    method DeviceStep(ghost c: nat, steps: nat)
      requires ValidFrom(c) && done + steps <= |pending|
      modifies this`dma, this`done
      ensures ValidFrom(c) && done == old(done) + steps
    {
      hide Wrap, View, Shows, Mbufs;
      WrapAdds(c, done, steps, count);
      dma := Wrap(dma + steps, count);
      done := done + steps;
    }

    // -------------------------------------------------------------------------------------------
    // Putting packets in

    /** mwx_dma_tx_enqueue.  The outcome of loading the packet into the map of the producer's slot is given: the
        first attempt, whether defragmenting the packet worked, and the second attempt. */
    method Enqueue(m: Mbuf, first: Load, defragged: bool, second: Load) returns (rv: int)
      requires Valid()
      requires Possible(first) && Possible(second)
      modifies this`prod, this`pending, this`accepted, slots, txwis, maps
      ensures Valid()
      ensures var load := Effective(first, defragged, second);
        && (load.Failed? ==> rv == load.error && pending == old(pending) && accepted == old(accepted))
        && (load.Loaded? && SlotCount(|load.segs|) > count - 1 - |old(pending)| ==>
              rv == EBUSY && pending == old(pending) && accepted == old(accepted))
        && (load.Loaded? && SlotCount(|load.segs|) <= count - 1 - |old(pending)| ==>
              && rv == 0 && accepted == old(accepted) + multiset{m}
              && pending == old(pending)
                   + PacketSlots(m, MapsFrom(old(View<Map>(maps[..], cons))[|old(pending)|..], load.segs), |load.segs|))
      ensures var load := Effective(first, defragged, second);
        rv == 0 ==>
          && load.Loaded?
          && |old(pending)| < |pending| && pending[..|old(pending)|] == old(pending)
          && Describes(pending[|old(pending)|..], m, load.segs)
      ensures txwis[..] == if rv == 0 then old(txwis[..])[old(prod) := None] else old(txwis[..])
      ensures var load := Effective(first, defragged, second);
        && (load.Failed? ==> maps[..] == old(maps[..]))
        && (load.Loaded? ==>
              maps[..] == old(maps[..])[old(prod) := LoadedMap(old(maps[..])[old(prod)], load.segs)])
    {
      hide Wrap, Shows, Mbufs, View, SlotCount, PacketSlots, LoadedMap, Describes, MapsFrom;
      ghost var was := View<Map>(maps[..], cons)[|pending|..];
      var load := first;
      if load == Failed(EFBIG) && defragged {
        load := second;
      }
      if load.Failed? {
        return load.error;
      }
      Indices(cons);
      LoadInto(load.segs);
      var nsegs := |load.segs|;
      if SlotCount(nsegs) > FreeSlots(cons, prod, count) {
        return EBUSY;
      }
      TakeIn(m, nsegs);
      NewSlots(m, was, load.segs);
      assert pending[|old(pending)|..] == PacketSlots(m, MapsFrom(was, load.segs), nsegs);
      return 0;
    }

    /** bus_dmamap_load_mbuf, when it succeeds: only the map of the producer's slot changes. */
    method LoadInto(segs: seq<Segment>)
      requires Valid() && |segs| <= SCATTER
      modifies maps
      ensures Valid()
      ensures maps[..] == old(maps[..])[prod := LoadedMap(old(maps[..])[prod], segs)]
      ensures View<Map>(maps[..], cons)[|pending|..] == MapsFrom(old(View<Map>(maps[..], cons))[|pending|..], segs)
    {
      hide Wrap, View, Shows, Mbufs, LoadedMap;
      Indices(cons);
      ghost var was: seq<Map>, p := maps[..], |pending|;
      ViewAt<Map>(was, cons, p);
      ViewUpdate<Map>(was, cons, p, LoadedMap(was[prod], segs));
      maps[prod] := LoadedMap(maps[prod], segs);
      assert maps[..] == was[prod := LoadedMap(was[prod], segs)];
      LoadedFrom(View<Map>(was, cons), p, segs);
    }

    /** Storing to the slot k after c. */
    method SetSlot(idx: nat, x: Slot, ghost c: nat, ghost k: nat)
      requires c < count == slots.Length && k < count && idx == Wrap(c + k, count)
      modifies slots
      ensures View(slots[..], c) == old(View(slots[..], c))[k := x]
    {
      hide Wrap, View;
      ViewUpdate(slots[..], c, k, x);
      ghost var s := slots[..];
      slots[idx] := x;
      assert slots[..] == s[idx := x];
    }

    /** The body of the loop of mwx_dma_tx_enqueue: descriptor k of the packet, for segment i and the next, which
        are looked up in the map of the slot that the loop is at. */
    method WriteDesc(nsegs: nat, i: nat, idx: nat, ghost v: seq<Slot>, ghost p: nat, ghost m: Mbuf, ghost ms: seq<Map>,
                     ghost k: nat)
      returns (next: nat)
      requires cons < count == slots.Length == maps.Length && (slots as object) != maps
      requires i == 2 * k < nsegs <= SCATTER && p + k + 1 < count
      requires idx == Wrap(cons + p + k, count)
      requires ms == View<Map>(maps[..], cons)[p..] && SlotCount(nsegs) <= |ms|
      requires Written(v, View(slots[..], cons), p, m, ms, nsegs, k)
      modifies slots
      ensures next == Wrap(cons + p + k + 1, count) && next != cons
      ensures Written(v, View(slots[..], cons), p, m, ms, nsegs, k + 1)
    {
      hide Wrap, View, Written, PacketSlots, SlotCount;
      ghost var w := View(slots[..], cons);
      ViewAt<Map>(maps[..], cons, p + k);
      assert maps[idx] == ms[k];
      var d: Desc;
      if i == nsegs - 1 {
        d := Desc(Some(maps[idx][i]), None, true, false, false);
      } else {
        d := Desc(Some(maps[idx][i]), Some(maps[idx][i + 1]), false, i == nsegs - 2, false);
      }
      assert d == DescAt(ms[k], nsegs, k);
      ViewAt(slots[..], cons, p + k);
      SetSlot(idx, slots[idx].(desc := d), cons, p + k);
      WrittenMore(v, w, p, m, ms, nsegs, k);
      NextSlot(cons, p + k, count);
      next := Wrap(idx + 1, count);
    }

    /** The part of mwx_dma_tx_enqueue after the space check. */
    method WriteSlots(m: Mbuf, nsegs: nat)
      requires Valid() && nsegs <= SCATTER && 0 < SlotCount(nsegs) < count - |pending|
      modifies this`prod, slots, txwis
      ensures prod == Wrap(cons + |pending| + SlotCount(nsegs), count)
      ensures txwis[..] == old(txwis[..])[old(prod) := None]
      ensures Shows(View(slots[..], cons), pending + PacketSlots(m, View<Map>(maps[..], cons)[|pending|..], nsegs))
    {
      hide Wrap, Shows, View, Written, PacketSlots, Mbufs, SlotCount;
      var idx := prod;
      ghost var v, p, k := View(slots[..], cons), |pending|, 0;
      ghost var ms := View<Map>(maps[..], cons)[p..];
      ViewAt(slots[..], cons, p);
      SetSlot(idx, slots[idx].(mbuf := Some(m)), cons, p);
      txwis[idx] := None;
      WrittenStart(v, pending, m, ms, nsegs);
      var i := 0;
      while i < nsegs
        invariant 0 <= k <= SlotCount(nsegs) && i == 2 * k
        invariant idx == Wrap(cons + p + k, count)
        invariant Written(v, View(slots[..], cons), p, m, ms, nsegs, k)
        modifies slots
      {
        idx := WriteDesc(nsegs, i, idx, v, p, m, ms, k);
        assert idx != cons;
        i := i + 2;
        k := k + 1;
      }
      prod := idx;
      WrittenAll(v, View(slots[..], cons), pending, m, ms, nsegs);
    }

    /** The same, and what it means for the packets that the ring holds. */
    method TakeIn(m: Mbuf, nsegs: nat)
      requires Valid() && nsegs <= SCATTER && 0 < SlotCount(nsegs) < count - |pending|
      modifies this`prod, this`pending, this`accepted, slots, txwis
      ensures Valid() && accepted == old(accepted) + multiset{m}
      ensures pending == old(pending) + PacketSlots(m, View<Map>(maps[..], cons)[|old(pending)|..], nsegs)
      ensures txwis[..] == old(txwis[..])[old(prod) := None]
    {
      hide Wrap, Shows, Mbufs, View, SlotCount, PacketSlots;
      ghost var ms := View<Map>(maps[..], cons)[|pending|..];
      WriteSlots(m, nsegs);
      ghost var s := PacketSlots(m, ms, nsegs);
      MbufsOfPacket(m, ms, nsegs, |s|);
      assert s[..|s|] == s;
      MbufsOfSum(pending, s);
      assert freed + (Mbufs(pending) + multiset{m}) == accepted + multiset{m};
      accepted := accepted + multiset{m};
      pending := pending + s;
    }

    /** mwx_dma_txwi_enqueue: a transmit descriptor of len bytes at addr. */
    method EnqueueTxwi(mt: nat, addr: Word32, len: nat) returns (rv: int)
      requires Valid()
      modifies this`prod, this`pending, slots, txwis
      ensures Valid()
      ensures |old(pending)| == count - 1 ==> rv == EBUSY && pending == old(pending)
      ensures |old(pending)| < count - 1 ==> rv == 0 && pending == old(pending) + [TxwiSlot(addr, len)]
      ensures rv == 0 ==>
        && |pending| == |old(pending)| + 1 && pending[..|old(pending)|] == old(pending)
        && Sent(pending[|old(pending)|..]) == [(Segment(addr, len), true)]
        && var slot := pending[|old(pending)|];
          slot.mbuf == None && slot.desc.seg1 == None && !slot.desc.last1 && !slot.desc.done
      ensures txwis[..] == if rv == 0 then old(txwis[..])[old(prod) := Some(mt)] else old(txwis[..])
    {
      hide Wrap, View, Mbufs, Sent;
      Indices(cons);
      var idx := prod;
      if 1 > FreeSlots(cons, prod, count) {
        return EBUSY;
      }
      txwis[idx] := Some(mt);
      ghost var v := View(slots[..], cons);
      SetSlot(idx, TxwiSlot(addr, len), cons, |pending|);
      assert View(slots[..], cons)[..|pending| + 1] == pending + [TxwiSlot(addr, len)];
      NextSlot(cons, |pending|, count);
      idx := Wrap(idx + 1, count);
      assert idx != cons;
      prod := idx;
      MbufsOfOne(pending, TxwiSlot(addr, len));
      TxwiSent(addr, len);
      assert (pending + [TxwiSlot(addr, len)])[|pending|..] == [TxwiSlot(addr, len)];
      pending := pending + [TxwiSlot(addr, len)];
      return 0;
    }

    // -------------------------------------------------------------------------------------------
    // Releasing them

    /** mwx_read of the device's index, which may have moved since the last time. */
    method ReadIndex(ghost c: nat) returns (last: nat)
      requires ValidFrom(c)
      modifies this`dma, this`done
      ensures ValidFrom(c) && last == dma && old(done) <= done
    {
      hide Wrap, View, Shows, Mbufs;
      Indices(c);
      var steps: nat :| steps <= Distance(dma, prod, count);
      DeviceStep(c, steps);
      last := dma;
    }

    /** The body of the loop of mwx_dma_tx_cleanup: the oldest slot in use, at idx, is released. */
    method Release(idx: nat) returns (next: nat)
      requires ValidFrom(idx) && done > 0
      modifies this`pending, this`done, this`freed, slots, txwis
      ensures next == Wrap(idx + 1, count) && ValidFrom(next)
      ensures pending == old(pending)[1..] && done == old(done) - 1
      ensures freed == old(freed) + Mbufs(old(pending)[..1])
      ensures txwis[..] == old(txwis[..])[idx := None]
    {
      hide Wrap, View, Mbufs, Shows;
      ghost var v := View(slots[..], idx);
      Oldest(v, pending);
      WrapNothing(idx, count);
      ViewAt(slots[..], idx, 0);
      if slots[idx].mbuf.Some? {
        freed := freed + multiset{slots[idx].mbuf.value};
      }
      assert freed == old(freed) + Mbufs(pending[..1]);
      txwis[idx] := None;
      SetSlot(idx, Slot(None, IDLE), idx, 0);
      next := Wrap(idx + 1, count);
      ViewMoved(slots[..], idx, 1);
      assert Shows(View(slots[..], next), pending[1..]);
      StillAhead(idx, |pending|, count);
      StillAhead(idx, done, count);
      assert accepted == freed + Mbufs(pending[1..]);
      pending := pending[1..];
      done := done - 1;
    }

    /** mwx_dma_tx_cleanup: every slot that the device has passed is released, also those it passes while
        cleanup is at work; k of them in all. */
    method Cleanup() returns (ghost k: nat)
      requires Valid()
      modifies this`cons, this`dma, this`pending, this`done, this`freed, slots, txwis
      ensures Valid()
      ensures old(done) <= k <= |old(pending)| && pending == old(pending)[k..] && done == 0 && cons == dma
      ensures freed == old(freed) + Mbufs(old(pending)[..k])
    {
      hide Wrap, View, Shows, Mbufs, ValidFrom;
      k := 0;
      ghost var all, was := pending, freed;
      NoMbufs(all);
      var idx := cons;
      var last := ReadIndex(idx);
      Indices(idx);
      if idx == last {
        return;
      }
      while idx != last
        invariant ValidFrom(idx) && last == dma
        invariant k <= |all| && pending == all[k..] && freed == was + Mbufs(all[..k])
        invariant old(done) <= k + done
        decreases |all| - k
      {
        Indices(idx);
        MbufsNext(all, k);
        idx := Release(idx);
        k := k + 1;
        if idx == last {
          last := ReadIndex(idx);
        }
      }
      Indices(idx);
      cons := idx;
    }

    /** The first loop of mwx_queue_reset. */
    method ClearDescs()
      modifies slots
      ensures |slots[..]| == |old(slots[..])|
      ensures forall j :: 0 <= j < slots.Length ==> slots[j] == Slot(old(slots[j]).mbuf, IDLE)
    {
      for i := 0 to slots.Length
        invariant forall j :: 0 <= j < i ==> slots[j] == Slot(old(slots[j]).mbuf, IDLE)
        invariant forall j :: i <= j < slots.Length ==> slots[j] == old(slots[j])
      {
        slots[i] := Slot(slots[i].mbuf, IDLE);
      }
    }

    /** The second loop of mwx_queue_reset. */
    method FreeAll()
      modifies slots, this`freed
      ensures freed == old(freed) + Mbufs(old(slots[..]))
      ensures forall j :: 0 <= j < slots.Length ==> slots[j] == Slot(None, old(slots[j]).desc)
    {
      hide Mbufs;
      ghost var s := slots[..];
      NoMbufs(s);
      for i := 0 to slots.Length
        invariant forall j :: 0 <= j < i ==> slots[j] == Slot(None, s[j].desc)
        invariant forall j :: i <= j < slots.Length ==> slots[j] == s[j]
        invariant freed == old(freed) + Mbufs(s[..i])
      {
        MbufsOfOne(s[..i], s[i]);
        assert s[..i + 1] == s[..i] + [s[i]];
        if slots[i].mbuf.Some? {
          freed := freed + multiset{slots[i].mbuf.value};
          slots[i] := slots[i].(mbuf := None);
        }
      }
      assert s[..|s|] == s;
    }

    /** mwx_queue_reset: every packet still held is released, whatever the device has done. */
    method Reset()
      requires Valid()
      modifies this`cons, this`prod, this`dma, this`pending, this`done, this`freed, slots
      ensures Valid()
      ensures pending == [] && cons == prod == dma == 0 && freed == accepted
    {
      hide Wrap, View, Mbufs, Shows;
      ghost var s := slots[..];
      HeldInRing(s, cons, pending);
      ClearDescs();
      SameMbufs(s, slots[..]);
      cons, prod, dma := 0, 0, 0;
      WrapNothing(0, count);
      FreeAll();
      pending, done := [], 0;
      IdleShows(slots[..], 0);
      NoMbufs(pending);
    }
  }

  lemma {:induction false} SameMbufs(s: seq<Slot>, t: seq<Slot>)
    requires |s| == |t| && forall j :: 0 <= j < |s| ==> t[j].mbuf == s[j].mbuf
    ensures Mbufs(s) == Mbufs(t)
  {
    if s != [] {
      SameMbufs(s[..|s| - 1], t[..|t| - 1]);
    }
  }

  /** The oldest slot in use goes, and takes its packet with it. */
  lemma Oldest(v: seq<Slot>, pending: seq<Slot>)
    requires Shows(v, pending) && pending != []
    ensures v[0] == pending[0]
    ensures var w := v[0 := Slot(None, IDLE)]; Shows(w[1..] + w[..1], pending[1..])
    ensures Mbufs(pending[..1]) == match pending[0].mbuf case None => multiset{} case Some(m) => multiset{m}
    ensures Mbufs(pending) == Mbufs(pending[..1]) + Mbufs(pending[1..])
  {
    hide Mbufs;
    var w := v[0 := Slot(None, IDLE)];
    var t := w[1..] + w[..1];
    assert t[..|pending| - 1] == pending[1..];
    assert pending[..1] == [] + [pending[0]];
    NoMbufs(pending);
    MbufsOfOne([], pending[0]);
    MbufsOfSum(pending[..1], pending[1..]);
    assert pending == pending[..1] + pending[1..];
  }

  function TxwiSlot(addr: Word32, len: nat): Slot {
    Slot(None, Desc(Some(Segment(addr, len)), None, true, false, false))
  }

  lemma TxwiSent(addr: Word32, len: nat)
    ensures Sent([TxwiSlot(addr, len)]) == [(Segment(addr, len), true)]
  {
    assert [TxwiSlot(addr, len)][..0] == [];
  }

  lemma NoMbufs(s: seq<Slot>)
    ensures Mbufs([]) == multiset{} && s[..0] == []
  {
  }

  lemma MbufsOfOne(s: seq<Slot>, x: Slot)
    ensures Mbufs(s + [x]) == Mbufs(s) + match x.mbuf case None => multiset{} case Some(m) => multiset{m}
  {
    assert (s + [x])[..|s|] == s;
  }

  lemma MbufsNext(s: seq<Slot>, k: nat)
    requires k < |s|
    ensures Mbufs(s[..k + 1]) == Mbufs(s[..k]) + Mbufs(s[k..][..1])
    ensures Mbufs(s[..k + 1]) == Mbufs(s[..k]) + Mbufs(s[k..k + 1])
    ensures s[k..][1..] == s[k + 1..]
  {
    assert s[..k + 1] == s[..k] + s[k..k + 1] && s[k..][..1] == s[k..k + 1];
    MbufsOfSum(s[..k], s[k..k + 1]);
  }

  /** Turning the ring around does not change which packets it holds, and only the pending slots hold any. */
  lemma HeldInRing(s: seq<Slot>, cons: nat, pending: seq<Slot>)
    requires cons < |s| && Shows(View(s, cons), pending)
    ensures Mbufs(s) == Mbufs(pending)
  {
    hide Mbufs;
    var v := View(s, cons);
    ViewTurned(s, cons);
    MbufsOfSum(s[cons..], s[..cons]);
    MbufsOfSum(s[..cons], s[cons..]);
    assert s == s[..cons] + s[cons..];
    MbufsOfSum(v[..|pending|], v[|pending|..]);
    assert v == v[..|pending|] + v[|pending|..];
    EmptyMbufs(v[|pending|..]);
  }

  lemma {:induction false} EmptyMbufs(s: seq<Slot>)
    requires forall i :: 0 <= i < |s| ==> s[i].mbuf == None
    ensures Mbufs(s) == multiset{}
  {
    if s != [] {
      EmptyMbufs(s[..|s| - 1]);
    }
  }

  function Effective(first: Load, defragged: bool, second: Load): Load {
    if first == Failed(EFBIG) && defragged then second else first
  }

  lemma LoadedFrom(v: seq<Map>, p: nat, segs: seq<Segment>)
    requires p < |v| && |segs| <= SCATTER
    ensures MapsFrom(v[p..], segs) == v[p := LoadedMap(v[p], segs)][p..]
  {
    hide LoadedMap;
  }

  /** Loading gives at least one segment and no more than a map has room for, or an error. */
  predicate Possible(load: Load) {
    match load
    case Loaded(segs) => 0 < |segs| <= SCATTER
    case Failed(error) => error != 0
  }

  /** The first k descriptors of a packet have been written behind the p slots in use; w was v before, and the maps
      of the slots are ms. */
  ghost predicate Written(v: seq<Slot>, w: seq<Slot>, p: nat, m: Mbuf, ms: seq<Map>, n: nat, k: nat)
    requires n <= SCATTER && SlotCount(n) <= |ms|
  {
    && p + SlotCount(n) < |v| == |w| && k <= SlotCount(n)
    && w[..p] == v[..p]
    && (forall j :: p <= j < p + k ==> w[j] == PacketSlots(m, ms, n)[j - p])
    && (forall j :: p + k <= j < |v| ==> w[j] == Slot(if j == p then Some(m) else None, IDLE))
  }

  lemma WrittenStart(v: seq<Slot>, pending: seq<Slot>, m: Mbuf, ms: seq<Map>, n: nat)
    requires n <= SCATTER && SlotCount(n) <= |ms|
    requires Shows(v, pending) && |pending| + SlotCount(n) < |v|
    ensures Written(v, v[|pending| := v[|pending|].(mbuf := Some(m))], |pending|, m, ms, n, 0)
  {
  }

  lemma WrittenMore(v: seq<Slot>, w: seq<Slot>, p: nat, m: Mbuf, ms: seq<Map>, n: nat, k: nat)
    requires n <= SCATTER && SlotCount(n) <= |ms|
    requires Written(v, w, p, m, ms, n, k) && 2 * k < n
    ensures Written(v, w[p + k := w[p + k].(desc := DescAt(ms[k], n, k))], p, m, ms, n, k + 1)
  {
  }

  lemma WrittenAll(v: seq<Slot>, w: seq<Slot>, pending: seq<Slot>, m: Mbuf, ms: seq<Map>, n: nat)
    requires 0 < n <= SCATTER && SlotCount(n) <= |ms|
    requires Shows(v, pending) && Written(v, w, |pending|, m, ms, n, SlotCount(n))
    ensures Shows(w, pending + PacketSlots(m, ms, n))
  {
    var k := |pending| + SlotCount(n);
    assert w[..|pending|] == pending;
    assert w[..k] == pending + PacketSlots(m, ms, n);
  }

  /** A packet of three segments in a ring of four slots.  When the device has passed the first of its descriptors,
      cleanup releases the packet, although the second one is still pending. */
  method ReleasedEarly(m: Mbuf, a: Segment, b: Segment, c: Segment)
    returns (rv: int, ghost k: nat, ghost released: multiset<Mbuf>, ghost left: seq<Slot>)
    ensures rv == 0 && 1 <= k <= 2 && released == multiset{m}
    ensures k == 1 ==> |left| == 1 && left[0].desc.seg0.Some? && left[0].desc.last0
  {
    hide Wrap, View, Shows, Mbufs, PacketSlots, LoadedMap;
    var ring := new Ring(4);
    var load := Loaded([a, b, c]);
    ghost var ms := MapsFrom(View<Map>(ring.maps[..], ring.cons)[0..], [a, b, c]);
    rv := ring.Enqueue(m, load, false, load);
    ghost var s := PacketSlots(m, ms, 3);
    assert ring.pending == s;
    ring.DeviceStep(ring.cons, 1);
    k := ring.Cleanup();
    MbufsOfPacket(m, ms, 3, k);
    released, left := ring.freed, ring.pending;
    SecondOfThree(m, ms);
  }

  lemma SecondOfThree(m: Mbuf, maps: seq<Map>)
    requires |maps| >= 2
    ensures PacketSlots(m, maps, 3)[1..] == [Slot(None, DescAt(maps[1], 3, 1))]
    ensures DescAt(maps[1], 3, 1).seg0.Some? && DescAt(maps[1], 3, 1).last0
  {
  }
}
