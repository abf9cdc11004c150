/** The pool of transmit descriptors (MtkMwx.cpp): entries are taken from a free list to send a packet and come
    back when the firmware reports, by their index, that it is through with them. */
module TxwiPool {
  import opened NatBits
  import opened RingIndex
  import TxRing

  type Mbuf = TxRing.Mbuf

  /** Indices below this one have a meaning of their own to the firmware. */
  const FIRST: nat := 3

  datatype Entry = Entry(busy: bool, mbuf: Option<Mbuf>)

  const UNUSED: Entry := Entry(false, None)

  /** The entries and the free list, its head first. */
  datatype State = State(entries: seq<Entry>, free: seq<nat>)

  // ---------------------------------------------------------------------------------------------
  // What every state of the pool keeps

  ghost predicate Distinct(s: seq<nat>) {
    forall i, j :: 0 <= i < j < |s| ==> s[i] != s[j]
  }

  /** The free list holds exactly the entries from FIRST on that are not busy, once each; an entry that is not
      busy holds no packet. */
  ghost predicate Consistent(s: State) {
    && Distinct(s.free)
    && (forall k :: k in s.free <==> FIRST <= k < |s.entries| && !s.entries[k].busy)
    && (forall k :: 0 <= k < |s.entries| && !s.entries[k].busy ==> s.entries[k].mbuf == None)
  }

  /** The packets that entries hold. */
  function Held(s: seq<Entry>): multiset<Mbuf> {
    if s == [] then multiset{}
    else Held(s[..|s| - 1]) + HeldBy(s[|s| - 1])
  }

  function HeldBy(e: Entry): multiset<Mbuf> {
    match e.mbuf case None => multiset{} case Some(m) => multiset{m}
  }

  lemma {:induction false} HeldUpdate(s: seq<Entry>, k: nat, e: Entry)
    requires k < |s|
    ensures Held(s[k := e]) + HeldBy(s[k]) == Held(s) + HeldBy(e)
  {
    var t := s[k := e];
    var s1, t1 := s[..|s| - 1], t[..|s| - 1];
    assert Held(s) == Held(s1) + HeldBy(s[|s| - 1]) && Held(t) == Held(t1) + HeldBy(t[|s| - 1]);
    if k == |s| - 1 {
      assert t1 == s1;
    } else {
      HeldUpdate(s1, k, e);
      assert t1 == s1[k := e];
      BothWith(Held(t1), HeldBy(s[k]), Held(s1), HeldBy(e), HeldBy(s[|s| - 1]));
    }
  }

  lemma HeldAfter(s: seq<Entry>, k: nat, e: Entry)
    requires k < |s|
    ensures e.mbuf == s[k].mbuf ==> Held(s[k := e]) == Held(s)
    ensures s[k].mbuf == None ==> Held(s[k := e]) == Held(s) + HeldBy(e)
    ensures e.mbuf == None ==> Held(s) == HeldBy(s[k]) + Held(s[k := e])
  {
    hide Held;
    HeldUpdate(s, k, e);
    var a, b, x, y := Held(s[k := e]), Held(s), HeldBy(s[k]), HeldBy(e);
    assert a == (a + x) - x;
    assert b == (b + y) - y;
  }

  lemma BothWith(a: multiset<Mbuf>, b: multiset<Mbuf>, c: multiset<Mbuf>, d: multiset<Mbuf>, x: multiset<Mbuf>)
    requires a + b == c + d
    ensures a + x + b == c + x + d
  {
    assert a + x + b == (a + b) + x;
    assert c + x + d == (c + d) + x;
  }

  lemma {:induction false} NothingHeld(s: seq<Entry>)
    requires forall k :: 0 <= k < |s| ==> s[k].mbuf == None
    ensures Held(s) == multiset{}
  {
    if s != [] {
      NothingHeld(s[..|s| - 1]);
    }
  }

  // ---------------------------------------------------------------------------------------------
  // Taking an entry and giving it back

  function Taken(s: State): State
    requires s.free != [] && s.free[0] < |s.entries|
  {
    State(s.entries[s.free[0] := s.entries[s.free[0]].(busy := true)], s.free[1..])
  }

  /** Entry k comes back, if there is such an entry and it is out. */
  function Back(s: State, k: nat): State {
    if k < |s.entries| && s.entries[k].busy then
      State(s.entries[k := UNUSED], if k < FIRST then s.free else [k] + s.free)
    else
      s
  }

  function AllBack(s: State, ids: seq<nat>): State
    decreases |ids|
  {
    if ids == [] then s else AllBack(Back(s, ids[0]), ids[1..])
  }

  /** The entry handed out was free, it is not one of the first three, and it is busy from now on. */
  lemma TakenIsConsistent(s: State)
    requires Consistent(s) && s.free != []
    ensures s.free[0] < |s.entries| && Consistent(Taken(s))
    ensures s.free[0] >= 3 && !s.entries[s.free[0]].busy && Taken(s).entries[s.free[0]].busy
  {
    var k := s.free[0];
    assert k in s.free;
    var t := Taken(s);
    Popped(s.free);
    assert forall j :: j in t.free <==> j in s.free && j != k;
  }

  lemma Popped(s: seq<nat>)
    requires Distinct(s) && s != []
    ensures Distinct(s[1..])
    ensures forall k :: k in s[1..] <==> k in s && k != s[0]
  {
    assert s == [s[0]] + s[1..];
    forall k
      ensures k in s[1..] <==> k in s && k != s[0]
    {
      if k in s[1..] {
        var i :| 0 <= i < |s[1..]| && s[1..][i] == k;
        assert s[i + 1] == k != s[0];
      }
    }
  }

  lemma BackIsConsistent(s: State, k: nat)
    requires Consistent(s)
    ensures Consistent(Back(s, k))
  {
    var t := Back(s, k);
    if k < |s.entries| && s.entries[k].busy && k >= FIRST {
      assert k !in s.free;
      forall j
        ensures j in t.free <==> FIRST <= j < |t.entries| && !t.entries[j].busy
      {
        assert j in t.free <==> j == k || j in s.free;
      }
    } else if k < |s.entries| && s.entries[k].busy {
      forall j
        ensures j in t.free <==> FIRST <= j < |t.entries| && !t.entries[j].busy
      {
        assert j in t.free <==> j in s.free;
      }
    }
  }

  /** Whatever a list of indices names, repeated, stale or out of range: exactly the busy entries in it come back
      and lose their packets, everything else stays, and the free list stays right. */
  lemma {:induction false} AllBackFrees(s: State, ids: seq<nat>)
    requires Consistent(s)
    ensures var t := AllBack(s, ids);
      && Consistent(t) && |t.entries| == |s.entries|
      && forall k :: 0 <= k < |s.entries| ==>
           t.entries[k] == (if k in ids && s.entries[k].busy then UNUSED else s.entries[k])
    decreases |ids|
  {
    if ids != [] {
      hide Consistent;
      var b := Back(s, ids[0]);
      BackIsConsistent(s, ids[0]);
      AllBackFrees(b, ids[1..]);
      var t := AllBack(s, ids);
      forall k | 0 <= k < |s.entries|
        ensures t.entries[k] == if k in ids && s.entries[k].busy then UNUSED else s.entries[k]
      {
        assert ids == [ids[0]] + ids[1..];
        assert k in ids <==> k == ids[0] || k in ids[1..];
      }
    }
  }

  lemma {:induction false} NothingToFree(s: State, ids: seq<nat>)
    requires forall k :: k in ids && k < |s.entries| ==> !s.entries[k].busy
    ensures AllBack(s, ids) == s
    decreases |ids|
  {
    if ids != [] {
      assert ids[0] in ids;
      forall k | k in ids[1..]
        ensures k in ids
      {
      }
      NothingToFree(s, ids[1..]);
    }
  }

  /** An event that comes twice does nothing the second time. */
  lemma AgainDoesNothing(s: State, ids: seq<nat>)
    requires Consistent(s)
    ensures AllBack(AllBack(s, ids), ids) == AllBack(s, ids)
  {
    AllBackFrees(s, ids);
    NothingToFree(AllBack(s, ids), ids);
  }

  // ---------------------------------------------------------------------------------------------
  // The words of an event

  type Word = x: nat | x < 0x1_0000_0000

  /** The number of entries that an event announces. */
  function MsduCount(w: Word): (n: nat)
    ensures n == w / 0x1_0000 % 0x400
  {
    FieldIs(w, 10);
    assert Pow2(10) == 4 * Pow2(8);
    High(And(w, 0x03ff0000), 0x1_0000)
  }

  /** The index of an entry. */
  function MsduId(w: Word): (id: nat)
    ensures id == w / 0x1_0000 % 0x8000
  {
    FieldIs(w, 15);
    assert Pow2(15) == 2 * Pow2(14);
    High(And(w, 0x7fff0000), 0x1_0000)
  }

  predicate IsPair(w: Word): (p: bool)
    ensures p <==> w >= 0x8000_0000
  {
    TopBitIs(w);
    And(w, 0x80000000) != 0
  }

  /** Masking k bits from bit 16 on and shifting them down. */
  lemma FieldIs(w: Word, k: nat)
    ensures Pow2(8) == 0x100 && Pow2(14) == 0x4000
    ensures High(And(w, 0x1_0000 * (Pow2(k) - 1)), 0x1_0000) == w / 0x1_0000 % Pow2(k)
  {
    hide And, Pow2;
    var m := Pow2(k) - 1;
    Powers();
    Unique(0x1_0000 * m, 0x1_0000, m, 0);
    AndSplit(w, 0x1_0000 * m, 16);
    AndNone(Low(w, 0x1_0000));
    AndOnes(High(w, 0x1_0000), k);
    var x := Low(High(w, 0x1_0000), Pow2(k));
    Unique(0x1_0000 * x, 0x1_0000, x, 0);
  }

  lemma TopBitIs(w: Word)
    ensures And(w, 0x8000_0000) == if w >= 0x8000_0000 then 0x8000_0000 else 0
  {
    assert Pow2(1) == 2;
    hide And, Pow2;
    Powers();
    Pow2Adds(16, 14);
    Pow2Adds(30, 1);
    AndSplit(w, 0x8000_0000, 31);
    AndNone(Low(w, 0x8000_0000));
    AndOnes(High(w, 0x8000_0000), 1);
  }

  /** The indices in the first n words that are not pair words. */
  function Named(words: seq<Word>, n: nat): (ids: seq<nat>)
    ensures |ids| <= n
  {
    if words == [] || n == 0 then []
    else if IsPair(words[0]) then Named(words[1..], n)
    else [MsduId(words[0])] + Named(words[1..], n - 1)
  }

  /** The words that are not pair words. */
  function Entries(words: seq<Word>): seq<Word> {
    if words == [] then []
    else (if IsPair(words[0]) then [] else [words[0]]) + Entries(words[1..])
  }

  /** An event names what it announces, unless it runs out of words: pair words do not count, but the length
      check of the driver counts them. */
  lemma {:induction false} NamedAre(words: seq<Word>, n: nat)
    ensures |Named(words, n)| == if n <= |Entries(words)| then n else |Entries(words)|
    ensures forall i :: 0 <= i < |Named(words, n)| ==> Named(words, n)[i] == MsduId(Entries(words)[i])
  {
    hide MsduId, IsPair;
    if words == [] || n == 0 {
    } else if IsPair(words[0]) {
      NamedAre(words[1..], n);
      assert Entries(words) == Entries(words[1..]);
    } else {
      NamedAre(words[1..], n - 1);
      assert Entries(words) == [words[0]] + Entries(words[1..]);
    }
  }

  function Body(words: seq<Word>): seq<Word> {
    if |words| >= 2 then words[2..] else []
  }

  datatype Outcome = Processed | Ignored | Overrun

  /** What becomes of an event; a buffer shorter than one word, or with fewer words that are not pair words than
      it announces, is read past its end. */
  function OutcomeOf(words: seq<Word>): Outcome {
    if words == [] then Overrun
    else if MsduCount(words[0]) > |Body(words)| then Ignored
    else if |Entries(Body(words))| < MsduCount(words[0]) then Overrun
    else Processed
  }

  /** The length check lets this event through: it announces one entry and has one word, but a pair word. */
  lemma ShortEvent()
    ensures OutcomeOf([0x0001_0000, 0, 0x8000_0000]) == Overrun
  {
    hide MsduCount, IsPair;
    assert Body([0x0001_0000, 0, 0x8000_0000]) == [0x8000_0000];
    assert Entries([0x8000_0000]) == [];
  }

  // ---------------------------------------------------------------------------------------------
  // Events as the firmware builds them

  /** A word behind the first two: the index of an entry over sixteen bits that do not matter here, or a pair
      word. */
  datatype Item = Done(id: nat, low: nat) | Pair(rest: nat)

  predicate Fits(item: Item) {
    match item
    case Done(id, low) => id < 0x8000 && low < 0x1_0000
    case Pair(rest) => rest < 0x8000_0000
  }

  function Encoded(item: Item): Word
    requires Fits(item)
  {
    match item
    case Done(id, low) => id * 0x1_0000 + low
    case Pair(rest) => 0x8000_0000 + rest
  }

  function EncodedAll(items: seq<Item>): (words: seq<Word>)
    requires forall i :: 0 <= i < |items| ==> Fits(items[i])
    ensures |words| == |items|
  {
    if items == [] then [] else [Encoded(items[0])] + EncodedAll(items[1..])
  }

  function IdsOf(items: seq<Item>): (ids: seq<nat>)
    ensures |ids| <= |items|
  {
    if items == [] then []
    else (match items[0] case Done(id, _) => [id] case Pair(_) => []) + IdsOf(items[1..])
  }

  /** The event that announces as many entries as it names. */
  function Event(low: nat, second: Word, items: seq<Item>): seq<Word>
    requires low < 0x1_0000 && |IdsOf(items)| < 0x400
    requires forall i :: 0 <= i < |items| ==> Fits(items[i])
  {
    [|IdsOf(items)| * 0x1_0000 + low, second] + EncodedAll(items)
  }

  lemma ReadBack(item: Item)
    requires Fits(item)
    ensures IsPair(Encoded(item)) <==> item.Pair?
    ensures item.Done? ==> MsduId(Encoded(item)) == item.id
  {
    hide IsPair, MsduId;
  }

  lemma {:induction false} ItemsRead(items: seq<Item>, behind: seq<Word>)
    requires forall i :: 0 <= i < |items| ==> Fits(items[i])
    ensures Named(EncodedAll(items) + behind, |IdsOf(items)|) == IdsOf(items)
    ensures |Entries(EncodedAll(items))| == |IdsOf(items)|
  {
    hide IsPair, MsduId, Encoded;
    if items == [] {
    } else {
      var words := EncodedAll(items);
      ReadBack(items[0]);
      ItemsRead(items[1..], behind);
      assert words[1..] == EncodedAll(items[1..]);
      assert (words + behind)[0] == words[0] && (words + behind)[1..] == words[1..] + behind;
      if items[0].Pair? {
        assert IdsOf(items) == IdsOf(items[1..]);
        assert Entries(words) == Entries(words[1..]);
      }
    }
  }

  /** Such an event names its indices in order, whatever the bits that do not matter, the pair words and the words
      behind the buffer are. */
  lemma EventRead(low: nat, second: Word, items: seq<Item>, behind: seq<Word>)
    requires low < 0x1_0000 && |IdsOf(items)| < 0x400
    requires forall i :: 0 <= i < |items| ==> Fits(items[i])
    ensures OutcomeOf(Event(low, second, items)) == Processed
    ensures Freeing(Event(low, second, items), behind) == IdsOf(items)
  {
    hide MsduCount, Named, Entries, EncodedAll;
    assert Event(low, second, items)[2..] == EncodedAll(items);
    ItemsRead(items, behind);
  }

  /** ... so exactly the busy entries among them come back. */
  lemma EventFrees(s: State, low: nat, second: Word, items: seq<Item>, behind: seq<Word>)
    requires Consistent(s)
    requires low < 0x1_0000 && |IdsOf(items)| < 0x400
    requires forall i :: 0 <= i < |items| ==> Fits(items[i])
    ensures var t := AllBack(s, Freeing(Event(low, second, items), behind));
      && Consistent(t) && |t.entries| == |s.entries|
      && forall k :: 0 <= k < |s.entries| ==>
           t.entries[k] == (
             if s.entries[k].busy && (exists i :: 0 <= i < |items| && items[i].Done? && items[i].id == k) then UNUSED
             else s.entries[k])
  {
    hide Consistent, AllBack, Event, Freeing;
    EventRead(low, second, items, behind);
    AllBackFrees(s, IdsOf(items));
    forall k: nat
      ensures k in IdsOf(items) <==> exists i :: 0 <= i < |items| && items[i].Done? && items[i].id == k
    {
      IdsAre(items, k);
    }
  }

  lemma {:induction false} IdsAre(items: seq<Item>, k: nat)
    ensures k in IdsOf(items) <==> exists i :: 0 <= i < |items| && items[i].Done? && items[i].id == k
  {
    if items != [] {
      IdsAre(items[1..], k);
      assert items == [items[0]] + items[1..];
      if i :| 0 <= i < |items[1..]| && items[1..][i].Done? && items[1..][i].id == k {
        assert items[i + 1].id == k;
      }
    }
  }

  // ---------------------------------------------------------------------------------------------

  class Pool {
    const entries: array<Entry>
    var free: seq<nat>
    ghost var attached: multiset<Mbuf>
    ghost var freed: multiset<Mbuf>

    ghost function Contents(): State
      reads this, entries
    {
      State(entries[..], free)
    }

    ghost predicate Valid()
      reads this, entries
    {
      && Consistent(Contents())
      && attached == freed + Held(entries[..])
    }

    /** The end of mwx_txwi_alloc. */
    constructor (count: nat)
      ensures Valid() && fresh(entries) && entries.Length == count
      ensures attached == multiset{} == freed
      ensures forall k :: 0 <= k < count ==> entries[k] == Entry(false, None)
      ensures |free| == if count < 3 then 0 else count - 3
      ensures forall i :: 0 <= i < |free| ==> free[i] == i + 3
    {
      entries := new Entry[count](_ => UNUSED);
      free := [];
      attached, freed := multiset{}, multiset{};
      new;
      var i: int := count - 1;
      while i >= FIRST
        invariant i < count && (i >= FIRST - 1 || i == count - 1)
        invariant forall k :: 0 <= k < count ==> entries[k] == UNUSED
        invariant |free| == count - 1 - i && forall j :: 0 <= j < |free| ==> free[j] == i + 1 + j
        invariant Distinct(free)
        invariant forall k :: k in free <==> FIRST <= k && i < k < count
        invariant attached == multiset{} == freed
        modifies this`free
      {
        Pushed(free, i);
        free := [i] + free;
        i := i - 1;
      }
      NothingHeld(entries[..]);
    }

    /** mwx_txwi_get. */
    method Get() returns (r: Option<nat>)
      requires Valid()
      modifies this`free, entries
      ensures Valid()
      ensures old(free) == [] ==> r == None && Contents() == old(Contents())
      ensures old(free) != [] ==> r == Some(old(free)[0]) && old(free)[0] < entries.Length
      ensures old(free) != [] ==> Contents() == Taken(old(Contents()))
    {
      hide Held, Consistent;
      if free == [] {
        return None;
      }
      ghost var s := Contents();
      TakenIsConsistent(s);
      assert Contents() == s;
      var k := free[0];
      free := free[1..];
      HeldAfter(entries[..], k, entries[k].(busy := true));
      entries[k] := entries[k].(busy := true);
      assert entries[..] == s.entries[k := s.entries[k].(busy := true)];
      return Some(k);
    }

    /** mwx_txwi_enqueue, once the packet has been loaded: the entry holds it from now on. */
    method Attach(k: nat, m: Mbuf)
      requires Valid() && k < entries.Length && entries[k] == Entry(true, None)
      modifies this`attached, entries
      ensures Valid() && attached == old(attached) + multiset{m}
      ensures entries[..] == old(entries[..])[k := Entry(true, Some(m))]
    {
      hide Held, Consistent;
      ghost var s := entries[..];
      HeldAfter(s, k, Entry(true, Some(m)));
      KeepsPacket(Contents(), k, m);
      entries[k] := Entry(entries[k].busy, Some(m));
      assert entries[..] == s[k := Entry(true, Some(m))];
      assert attached + multiset{m} == freed + (Held(s) + multiset{m});
      attached := attached + multiset{m};
    }

    /** mwx_txwi_put. */
    method Put(k: nat)
      requires Valid() && k < entries.Length
      modifies this`free, this`freed, entries
      ensures Valid() && Contents() == Back(old(Contents()), k)
    {
      hide Held, Consistent;
      if !entries[k].busy {
        return;
      }
      ghost var s := Contents();
      BackIsConsistent(s, k);
      HeldAfter(s.entries, k, UNUSED);
      assert freed + Held(s.entries) == freed + HeldBy(s.entries[k]) + Held(s.entries[k := UNUSED]);
      if entries[k].mbuf.Some? {
        freed := freed + multiset{entries[k].mbuf.value};
        entries[k] := entries[k].(mbuf := None);
      }
      entries[k] := entries[k].(busy := false);
      assert entries[..] == s.entries[k := UNUSED];
      if k < FIRST {
        return;
      }
      free := [k] + free;
    }

    /** mwx_mac_tx_free: first the ring is cleaned up, then the entries that the event names come back.  The words
        are those of the buffer, and behind are the words that are found after its end; the call stops at the end of
        those. */
    method TxFree(ring: TxRing.Ring, words: seq<Word>, behind: seq<Word>) returns (outcome: Outcome)
      requires Valid() && ring.Valid()
      requires (ring.slots as object) != entries && (ring.txwis as object) != entries
      modifies this`free, this`freed, entries
      modifies ring`cons, ring`dma, ring`pending, ring`done, ring`freed, ring.slots, ring.txwis
      ensures Valid() && ring.Valid() && ring.done == 0
      ensures outcome == OutcomeOf(words)
      ensures Contents() == AllBack(old(Contents()), Freeing(words, behind))
    {
      hide *;
      ghost var k := ring.Cleanup();
      outcome := FreeNamed(words, behind);
    }

    /** The part of mwx_mac_tx_free after the clean-up. */
    method FreeNamed(words: seq<Word>, behind: seq<Word>) returns (outcome: Outcome)
      requires Valid()
      modifies this`free, this`freed, entries
      ensures Valid()
      ensures outcome == OutcomeOf(words)
      ensures Contents() == AllBack(old(Contents()), Freeing(words, behind))
    {
      hide MsduCount, Held, Consistent, Back, Entries, Named;
      if |words| == 0 {
        return Overrun;
      }
      var count := MsduCount(words[0]);
      var rest := if |words| >= 2 then words[2..] else [];
      if count > |rest| {
        return Ignored;
      }
      outcome := FreeEach(rest, behind, count);
    }

    /** The loop of mwx_mac_tx_free. */
    method FreeEach(rest: seq<Word>, behind: seq<Word>, announced: nat) returns (outcome: Outcome)
      requires Valid() && announced <= |rest|
      modifies this`free, this`freed, entries
      ensures Valid()
      ensures outcome == if |Entries(rest)| < announced then Overrun else Processed
      ensures Contents() == AllBack(old(Contents()), Named(rest + behind, announced))
    {
      hide MsduId, IsPair, Held, Consistent, Back, Entries, Named, AllBack;
      NamedAre(rest, announced);
      var txfree := rest + behind;
      ghost var result := AllBack(Contents(), Named(txfree, announced));
      ghost var missing := announced - |Named(rest, announced)|;
      outcome := Processed;
      var i, count := 0, announced;
      while i < count
        invariant 0 <= i <= count && i <= |txfree|
        invariant Valid()
        invariant AllBack(Contents(), Named(txfree[i..], count - i)) == result
        invariant i <= |rest| ==> outcome == Processed && count - i - |Named(rest[i..], count - i)| == missing
        invariant i > |rest| ==> outcome == Overrun && missing > 0
        decreases |txfree| - i
      {
        if i == |rest| {
          NoWords(Contents(), count - i);
          outcome := Overrun;
        }
        if i == |txfree| {
          NoWords(Contents(), count - i);
          return;
        }
        var val := txfree[i];
        NextWord(Contents(), txfree[i..], count - i);
        assert txfree[i..][1..] == txfree[i + 1..];
        if i < |rest| {
          NextWord(Contents(), rest[i..], count - i);
          assert rest[i..][1..] == rest[i + 1..];
        }
        i := i + 1;
        if IsPair(val) {
          count := count + 1;
          continue;
        }
        var msdu := MsduId(val);
        BackNothing(Contents(), msdu);
        if msdu >= entries.Length {
          continue;
        }
        if !entries[msdu].busy {
          continue;
        }
        Put(msdu);
      }
      NoneLeft(Contents(), txfree[i..]);
      if i <= |rest| {
        NoneLeft(Contents(), rest[i..]);
      }
    }
  }

  lemma NoWords(s: State, n: nat)
    ensures Named([], n) == [] && AllBack(s, []) == s
  {
  }

  lemma NoneLeft(s: State, words: seq<Word>)
    ensures Named(words, 0) == [] && AllBack(s, []) == s
  {
  }

  /** The first word of what is left of an event. */
  lemma NextWord(s: State, words: seq<Word>, n: nat)
    requires words != [] && n > 0
    ensures IsPair(words[0]) ==> Named(words, n) == Named(words[1..], n)
    ensures !IsPair(words[0]) ==> |Named(words, n)| == 1 + |Named(words[1..], n - 1)|
    ensures !IsPair(words[0]) ==>
      AllBack(s, Named(words, n)) == AllBack(Back(s, MsduId(words[0])), Named(words[1..], n - 1))
  {
    hide Back, IsPair, MsduId;
    if !IsPair(words[0]) {
      var ids := Named(words, n);
      assert ids[0] == MsduId(words[0]) && ids[1..] == Named(words[1..], n - 1);
    }
  }

  lemma KeepsPacket(s: State, k: nat, m: Mbuf)
    requires Consistent(s) && k < |s.entries| && s.entries[k].busy
    ensures Consistent(s.(entries := s.entries[k := Entry(true, Some(m))]))
  {
    var t := s.(entries := s.entries[k := Entry(true, Some(m))]);
    assert forall j :: 0 <= j < |s.entries| ==> t.entries[j].busy == s.entries[j].busy;
  }

  lemma BackNothing(s: State, k: nat)
    ensures k >= |s.entries| || !s.entries[k].busy ==> Back(s, k) == s
  {
  }

  lemma Pushed(s: seq<nat>, x: nat)
    requires Distinct(s) && x !in s
    ensures Distinct([x] + s)
    ensures forall k :: k in [x] + s <==> k == x || k in s
  {
    var t := [x] + s;
    forall i, j | 0 <= i < j < |t|
      ensures t[i] != t[j]
    {
      assert t[j] == s[j - 1];
      assert s[j - 1] in s;
    }
  }

  /** The indices that an event makes the driver look at, in the buffer and behind it. */
  function Freeing(words: seq<Word>, behind: seq<Word>): seq<nat> {
    if words == [] || MsduCount(words[0]) > |Body(words)| then []
    else Named(Body(words) + behind, MsduCount(words[0]))
  }

  /** Words behind the buffer are looked at only after all those in it, and only as many as these leave missing. */
  lemma {:induction false} NamedSum(words: seq<Word>, behind: seq<Word>, n: nat)
    ensures Named(words + behind, n) == Named(words, n) + Named(behind, n - |Named(words, n)|)
  {
    hide MsduId, IsPair;
    if words == [] || n == 0 {
      assert [] + behind == behind;
    } else {
      assert (words + behind)[0] == words[0] && (words + behind)[1..] == words[1..] + behind;
      NamedSum(words[1..], behind, if IsPair(words[0]) then n else n - 1);
    }
  }

  /** An event that is not read past its end frees the same whatever is behind it. */
  lemma NothingBehind(words: seq<Word>, behind: seq<Word>)
    ensures OutcomeOf(words) != Overrun ==> Freeing(words, behind) == Freeing(words, [])
  {
    hide Named, Entries, MsduCount;
    if words != [] {
      var n := MsduCount(words[0]);
      NamedAre(Body(words), n);
      NamedSum(Body(words), behind, n);
      NamedSum(Body(words), [], n);
      NoneLeft(State([], []), behind);
      NoneLeft(State([], []), []);
    }
  }
}
