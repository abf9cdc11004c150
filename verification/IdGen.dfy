/** The ID generator (idgen.c): a keyed permutation of 31-bit values, walked with a counter and rekeyed in
    epochs.  Randomness and the clock are parameters. */
module IdGen {
  import opened Feistel

  const ROUNDS: nat := 31
  const KEYLEN: nat := 32
  const REKEY_LIMIT: bv32 := 0x6000_0000
  const REKEY_TIME: int := 600

  /** A key together with the table of the round function; both may have any contents. */
  datatype Key = Key(key: seq<bv8>, table: seq<bv8>) {
    predicate Sized() {
      |key| == KEYLEN && |table| == 256
    }
  }

  function Lookup(c: Key, x: bv8, o: nat): bv8
    requires c.Sized()
  {
    c.table[(x ^ c.key[o % KEYLEN]) as int]
  }

  /** idgen32_g. */
  function G(c: Key, k: nat, w: bv16): bv16
    requires c.Sized()
  {
    var g1 := (w >> 8) as bv8;
    var g2 := (w & 0xff) as bv8;
    var g3 := Lookup(c, g2, 4 * k) ^ g1;
    var g4 := Lookup(c, g3, 4 * k + 1) ^ g2;
    var g5 := Lookup(c, g4, 4 * k + 2) ^ g3;
    var g6 := Lookup(c, g5, 4 * k + 3) ^ g4;
    ((g5 as bv16) << 8) | (g6 as bv16)
  }

  function Xor(a: bv16, b: bv16): bv16 {
    a ^ b
  }

  lemma XorCancels()
    ensures Cancels(Xor)
  {
  }

  // ---------------------------------------------------------------------------------------------
  // idgen32_permute as a Feistel network of 31 steps: step k uses round k - 1

  function RoundValue(c: Key, r: nat, v: bv16): bv16
    requires c.Sized() && r < 31
  {
    Xor(G(c, r, v), r as bv16)
  }

  function StepFunction(c: Key): (nat, bv16) -> bv16
    requires c.Sized()
  {
    (k: nat, v: bv16) =>
      if k % 2 == 1 && k <= ROUNDS then RoundValue(c, k - 1, v)
      else if 0 < k <= ROUNDS then Low15(RoundValue(c, k - 1, v))
      else 0
  }

  function Low15(x: bv16): bv16 {
    x & 0x7fff
  }

  /** The left half has 15 bits. */
  predicate Narrow(s: Halves<bv16>) {
    s.l < 0x8000
  }

  function Split(x: bv32): Halves<bv16> {
    Halves(((x >> 16) & 0x7fff) as bv16, (x & 0xffff) as bv16)
  }

  function Joined(s: Halves<bv16>): bv32 {
    ((s.l as bv32) << 16) | (s.r as bv32)
  }

  predicate Is31Bit(x: bv32) {
    x < 0x8000_0000
  }

  function Permuted(c: Key, x: bv32): bv32
    requires c.Sized()
  {
    Joined(Steps(Xor, StepFunction(c), Split(x), ROUNDS))
  }

  function Unpermuted(c: Key, y: bv32): bv32
    requires c.Sized()
  {
    Joined(StepsBack(Xor, StepFunction(c), Split(y), ROUNDS))
  }

  lemma SplitNarrow(x: bv32)
    ensures Narrow(Split(x))
  {
  }

  lemma JoinedIs31Bit(s: Halves<bv16>)
    requires Narrow(s)
    ensures Is31Bit(Joined(s))
  {
  }

  lemma SplitJoined(s: Halves<bv16>)
    requires Narrow(s)
    ensures Split(Joined(s)) == s
  {
  }

  lemma JoinedSplit(x: bv32)
    requires Is31Bit(x)
    ensures Joined(Split(x)) == x
  {
  }

  lemma XorNarrow(a: bv16, b: bv16)
    requires a < 0x8000
    ensures Xor(a, Low15(b)) < 0x8000
  {
  }

  lemma StepNarrow(c: Key, s: Halves<bv16>, k: nat)
    requires c.Sized() && Narrow(s) && 0 < k <= ROUNDS
    ensures Narrow(Step(Xor, StepFunction(c), s, k))
  {
    hide Xor, Low15, RoundValue;
    if k % 2 == 0 {
      XorNarrow(s.l, RoundValue(c, k - 1, s.r));
    }
  }

  lemma {:induction false} StepsNarrow(c: Key, s: Halves<bv16>, k: nat)
    requires c.Sized() && Narrow(s) && k <= ROUNDS
    ensures Narrow(Steps(Xor, StepFunction(c), s, k))
  {
    hide Narrow, Step, StepFunction;
    if k > 0 {
      StepsNarrow(c, s, k - 1);
      StepNarrow(c, Steps(Xor, StepFunction(c), s, k - 1), k);
    }
  }

  lemma {:induction false} StepsBackNarrow(c: Key, s: Halves<bv16>, k: nat)
    requires c.Sized() && Narrow(s) && k <= ROUNDS
    ensures Narrow(StepsBack(Xor, StepFunction(c), s, k))
    decreases k
  {
    hide Narrow, Step, StepFunction;
    if k > 0 {
      StepNarrow(c, s, k);
      StepsBackNarrow(c, Step(Xor, StepFunction(c), s, k), k - 1);
    }
  }

  /** For any key and any table, idgen32_permute is a bijection on 31-bit values. */
  lemma PermutedIsBijection(c: Key, x: bv32)
    requires c.Sized() && Is31Bit(x)
    ensures Is31Bit(Permuted(c, x)) && Is31Bit(Unpermuted(c, x))
    ensures Unpermuted(c, Permuted(c, x)) == x
    ensures Permuted(c, Unpermuted(c, x)) == x
  {
    hide Split, Joined, Narrow, Is31Bit, StepFunction, Xor;
    XorCancels();
    SplitNarrow(x);
    var f := StepFunction(c);
    var s, t := Steps(Xor, f, Split(x), ROUNDS), StepsBack(Xor, f, Split(x), ROUNDS);
    StepsNarrow(c, Split(x), ROUNDS);
    StepsBackNarrow(c, Split(x), ROUNDS);
    JoinedIs31Bit(s);
    JoinedIs31Bit(t);
    SplitJoined(s);
    SplitJoined(t);
    StepsUndone(Xor, f, Split(x), ROUNDS);
    StepsBackUndone(Xor, f, Split(x), ROUNDS);
    JoinedSplit(x);
  }

  lemma PermutedIsInjective(c: Key, x: bv32, y: bv32)
    requires c.Sized() && Is31Bit(x) && Is31Bit(y) && Permuted(c, x) == Permuted(c, y)
    ensures x == y
  {
    hide Permuted, Unpermuted;
    PermutedIsBijection(c, x);
    PermutedIsBijection(c, y);
  }

  /** The loop of idgen32_permute. */
  method Permute(c: Key, x: bv32) returns (y: bv32)
    requires c.Sized()
    ensures y == Permuted(c, x)
  {
    hide Xor, Low15, RoundValue, Joined;
    var wl, wr := ((x >> 16) & 0x7fff) as bv16, (x & 0xffff) as bv16;
    ghost var s, f := Halves(wl, wr), StepFunction(c);
    var r: nat := 0;
    for i := 0 to ROUNDS / 2
      invariant r == 2 * i
      invariant Halves(wl, wr) == Steps(Xor, f, s, r)
    {
      ghost var t := Halves(wl, wr);
      wr := Xor(wr, RoundValue(c, r, wl));
      r := r + 1;
      assert Halves(wl, wr) == Step(Xor, f, t, r) == Steps(Xor, f, s, r);
      wl := Xor(wl, Low15(RoundValue(c, r, wr)));
      r := r + 1;
    }
    wr := Xor(wr, RoundValue(c, r, wl));
    assert Halves(wl, wr) == Steps(Xor, f, s, ROUNDS);
    y := Joined(Halves(wl, wr));
  }

  // ---------------------------------------------------------------------------------------------
  // The generator

  const HIGH: bv32 := 0x8000_0000

  /** The value that the permutation is applied to. */
  function Input(offset: bv32, counter: bv32): bv32 {
    (offset + counter) & 0x7fff_ffff
  }

  lemma InputIs31Bit(offset: bv32, counter: bv32)
    ensures Is31Bit(Input(offset, counter))
  {
  }

  lemma SumsCancel(offset: bv32, c: bv32)
    requires c <= 0x6000_0000
    ensures (((offset + c) & 0x7fff_ffff) - offset) & 0x7fff_ffff == c
  {
  }

  /** The value of the counter that an input came from. */
  function CounterOf(offset: bv32, x: bv32): bv32 {
    (x - offset) & 0x7fff_ffff
  }

  lemma CounterOfSum(offset: bv32, c: bv32)
    requires c <= 0x6000_0000
    ensures CounterOf(offset, (offset + c) & 0x7fff_ffff) == c
  {
    SumsCancel(offset, c);
  }

  lemma InputIs(offset: bv32, c: bv32)
    ensures Input(offset, c) == (offset + c) & 0x7fff_ffff
  {
  }

  lemma CounterOfBoth(offset: bv32, c: bv32)
    ensures CounterOf(offset, Input(offset, c)) == CounterOf(offset, (offset + c) & 0x7fff_ffff)
  {
    hide CounterOf, Input;
    InputIs(offset, c);
  }

  lemma CounterOfInput(offset: bv32, c: bv32)
    requires c <= 0x6000_0000
    ensures CounterOf(offset, Input(offset, c)) == c
  {
    hide CounterOf, Input;
    CounterOfBoth(offset, c);
    CounterOfSum(offset, c);
  }

  predicate Below(c: bv32, d: bv32) {
    c < d
  }

  /** counter++. */
  function Inc(c: bv32): bv32 {
    c + 1
  }

  /** The counter has reached the point of rekeying. */
  predicate Spent(c: bv32) {
    c > REKEY_LIMIT
  }

  /** The condition of idgen32 for rekeying. */
  predicate RekeyDue(counter: bv32, rekeyTime: int, now: int) {
    Spent(counter) || rekeyTime < now
  }

  lemma BelowNext(c: bv32)
    requires !Spent(c)
    ensures Below(c, Inc(c))
  {
  }

  lemma BelowFurther(b: bv32, c: bv32)
    requires Below(b, c) && !Spent(c)
    ensures Below(b, Inc(c))
  {
  }

  lemma InputsDiffer(offset: bv32, c: bv32, d: bv32)
    requires Below(c, d) && !Spent(d)
    ensures Input(offset, c) != Input(offset, d)
  {
    hide Input, CounterOf;
    CounterOfInput(offset, c);
    CounterOfInput(offset, d);
  }

  /** The ID for one value of the counter. */
  function Id(hibit: bv32, c: Key, offset: bv32, counter: bv32): bv32
    requires c.Sized()
  {
    WithHigh(hibit, Permuted(c, Input(offset, counter)))
  }

  function WithHigh(hibit: bv32, p: bv32): bv32 {
    hibit | p
  }

  predicate HasHigh(x: bv32) {
    x & HIGH == HIGH
  }

  lemma WithHighBits(hibit: bv32, p: bv32)
    requires (hibit == 0 || hibit == HIGH) && Is31Bit(p)
    ensures HasHigh(WithHigh(hibit, p)) == (hibit == HIGH)
  {
  }

  lemma WithHighInjective(hibit: bv32, p: bv32, q: bv32)
    requires (hibit == 0 || hibit == HIGH) && Is31Bit(p) && Is31Bit(q)
    requires WithHigh(hibit, p) == WithHigh(hibit, q)
    ensures p == q
  {
  }

  lemma ZeroHasNoHigh()
    ensures !HasHigh(0)
  {
  }

  /** Two values of the counter within an epoch give different IDs. */
  lemma IdsDiffer(hibit: bv32, k: Key, offset: bv32, c: bv32, d: bv32)
    requires k.Sized() && (hibit == 0 || hibit == HIGH) && Below(c, d) && !Spent(d)
    ensures Id(hibit, k, offset, c) != Id(hibit, k, offset, d)
  {
    hide Permuted, WithHigh, Is31Bit, Input;
    InputIs31Bit(offset, c);
    InputIs31Bit(offset, d);
    PermutedIsBijection(k, Input(offset, c));
    PermutedIsBijection(k, Input(offset, d));
    if Id(hibit, k, offset, c) == Id(hibit, k, offset, d) {
      WithHighInjective(hibit, Permuted(k, Input(offset, c)), Permuted(k, Input(offset, d)));
      PermutedIsInjective(k, Input(offset, c), Input(offset, d));
      InputsDiffer(offset, c, d);
    }
  }

  lemma IdHigh(hibit: bv32, k: Key, offset: bv32, c: bv32)
    requires k.Sized() && (hibit == 0 || hibit == HIGH)
    ensures HasHigh(Id(hibit, k, offset, c)) == (hibit == HIGH)
  {
    hide Permuted, WithHigh, Is31Bit, Input, HasHigh;
    InputIs31Bit(offset, c);
    PermutedIsBijection(k, Input(offset, c));
    WithHighBits(hibit, Permuted(k, Input(offset, c)));
  }

  /** An ID that was returned: in which epoch, for which value of the counter. */
  datatype Issue = Issue(epoch: nat, count: bv32, id: bv32)

  /** What arc4random gives to a rekeying. */
  datatype Seed = Seed(offset: bv32, key: seq<bv8>)

  /** No ID is zero, none repeats within an epoch, and adjacent epochs share none. */
  ghost predicate NonRepeating(log: seq<Issue>) {
    && (forall i :: 0 <= i < |log| ==> log[i].id != 0)
    && (forall i, j :: 0 <= i < j < |log| && log[i].epoch == log[j].epoch ==> log[i].id != log[j].id)
    && (forall i, j :: 0 <= i < |log| && 0 <= j < |log| && log[j].epoch == log[i].epoch + 1 ==> log[i].id != log[j].id)
  }

  /** The log of a generator that is in the given epoch: the high bit of every ID tells the parity of its
      epoch. */
  ghost predicate Logged(log: seq<Issue>, epoch: nat, high: bool) {
    && NonRepeating(log)
    && (forall i :: 0 <= i < |log| ==> log[i].epoch <= epoch)
    && (forall i :: 0 <= i < |log| ==> HasHigh(log[i].id) == (high == (log[i].epoch % 2 == epoch % 2)))
  }

  /** The IDs of the current epoch come from values of the counter below the given one. */
  ghost predicate Drawn(log: seq<Issue>, epoch: nat, hibit: bv32, k: Key, offset: bv32, counter: bv32)
    requires k.Sized()
  {
    forall i :: 0 <= i < |log| && log[i].epoch == epoch ==>
      Below(log[i].count, counter) && log[i].id == Id(hibit, k, offset, log[i].count)
  }

  lemma NextEpoch(log: seq<Issue>, epoch: nat, high: bool)
    requires Logged(log, epoch, high)
    ensures Logged(log, epoch + 1, !high)
    ensures forall i :: 0 <= i < |log| ==> log[i].epoch != epoch + 1
    ensures forall i, id: bv32 :: 0 <= i < |log| && log[i].epoch == epoch && HasHigh(id) == !high ==> log[i].id != id
  {
    hide HasHigh;
  }

  /** Recording a new ID of the current epoch keeps the log free of repeats. */
  lemma OneMore(log: seq<Issue>, epoch: nat, hibit: bv32, k: Key, offset: bv32, counter: bv32)
    requires k.Sized() && (hibit == 0 || hibit == HIGH) && !Spent(counter)
    requires Logged(log, epoch, hibit == HIGH) && Drawn(log, epoch, hibit, k, offset, counter)
    requires Id(hibit, k, offset, counter) != 0
    ensures Logged(log + [Issue(epoch, counter, Id(hibit, k, offset, counter))], epoch, hibit == HIGH)
  {
    hide Id, HasHigh;
    var id := Id(hibit, k, offset, counter);
    IdHigh(hibit, k, offset, counter);
    forall i | 0 <= i < |log|
      ensures log[i].epoch == epoch || log[i].epoch + 1 == epoch ==> log[i].id != id
    {
      if log[i].epoch == epoch {
        IdsDiffer(hibit, k, offset, log[i].count, counter);
      }
    }
  }

  class Generator {
    const table: seq<bv8>
    var counter: bv32
    var offset: bv32
    var hibit: bv32
    var key: seq<bv8>
    var rekeyTime: int
    ghost var epoch: nat
    ghost var log: seq<Issue>

    ghost predicate Valid()
      reads this
    {
      && Key(key, table).Sized()
      && (hibit == 0 || hibit == HIGH)
      && Logged(log, epoch, hibit == HIGH)
      && Drawn(log, epoch, hibit, Key(key, table), offset, counter)
    }

    /** idgen32_init. */
    constructor (table: seq<bv8>, high: bv32, seed: Seed, now: int)
      requires |table| == 256 && |seed.key| == KEYLEN
      ensures Valid() && log == [] && rekeyTime == now + REKEY_TIME
    {
      this.table := table;
      counter := 0;
      hibit := ToggledHigh(high & HIGH);
      offset := seed.offset;
      key := seed.key;
      rekeyTime := now + REKEY_TIME;
      epoch := 0;
      log := [];
      new;
      MaskedHigh(high);
    }

    /** idgen32_rekey. */
    method Rekey(seed: Seed, now: int)
      requires Valid() && |seed.key| == KEYLEN
      modifies this
      ensures Valid() && log == old(log) && epoch == old(epoch) + 1
      ensures counter == 0 && hibit == ToggledHigh(old(hibit)) && hibit != old(hibit)
      ensures rekeyTime == now + REKEY_TIME
    {
      hide Id, Logged, ToggledHigh;
      NextEpoch(log, epoch, hibit == HIGH);
      Toggled(hibit);
      counter := 0;
      hibit := ToggledHigh(hibit);
      offset := seed.offset;
      key := seed.key;
      rekeyTime := now + REKEY_TIME;
      epoch := epoch + 1;
    }

    /** The last turn of the loop of idgen32 drew zero, for the given value of the counter. */
    ghost predicate DrewZero(count: bv32)
      requires Key(key, table).Sized()
      reads this
    {
      && hibit == 0 && Id(hibit, Key(key, table), offset, count) == 0
      && !Spent(count) && counter == Inc(count)
    }

    /** One turn of the loop of idgen32, the first or the one after a zero; count is the value of the counter
        it used. */
    method Draw(seed: Seed, now: int, ghost again: bool, ghost last: bv32) returns (ret: bv32, ghost count: bv32)
      requires Valid() && |seed.key| == KEYLEN
      requires again ==> DrewZero(last)
      modifies this
      ensures Key(key, table).Sized() && (hibit == 0 || hibit == HIGH) && log == old(log)
      ensures !Spent(count) && counter == Inc(count)
      ensures Logged(log, epoch, hibit == HIGH)
      ensures Drawn(log, epoch, hibit, Key(key, table), offset, count)
      ensures ret == Id(hibit, Key(key, table), offset, count)
      ensures again ==> ret != 0
      ensures ret == 0 ==> DrewZero(count) && Valid()
      ensures RekeyDue(old(counter), old(rekeyTime), now) ==>
        epoch == old(epoch) + 1 && count == 0 && rekeyTime == now + REKEY_TIME
      ensures !RekeyDue(old(counter), old(rekeyTime), now) ==>
        epoch == old(epoch) && count == old(counter) && rekeyTime == old(rekeyTime)
    {
      hide Permuted, WithHigh, HasHigh, Input, Logged, Drawn, ToggledHigh, Inc, Below;
      if RekeyDue(counter, rekeyTime, now) {
        Rekey(seed, now);
      } else if again {
        BelowNext(last);
        IdsDiffer(hibit, Key(key, table), offset, last, counter);
      }
      IdHigh(hibit, Key(key, table), offset, counter);
      ZeroHasNoHigh();
      count := counter;
      var x := Input(offset, counter);
      counter := Inc(counter);
      var p := Permute(Key(key, table), x);
      ret := WithHigh(hibit, p);
      DrawnFurther(log, epoch, hibit, Key(key, table), offset, count);
    }

    /** The ID that idgen32 returns is the newest in the log. */
    ghost method Record(ret: bv32, count: bv32)
      requires Key(key, table).Sized() && (hibit == 0 || hibit == HIGH) && !Spent(count) && counter == Inc(count)
      requires Logged(log, epoch, hibit == HIGH) && Drawn(log, epoch, hibit, Key(key, table), offset, count)
      requires ret == Id(hibit, Key(key, table), offset, count) && ret != 0
      modifies this`log
      ensures Valid() && log == old(log) + [Issue(epoch, count, ret)]
    {
      hide Logged, Drawn, Id, Inc, Spent;
      OneMore(log, epoch, hibit, Key(key, table), offset, count);
      NewestDrawn(log, epoch, hibit, Key(key, table), offset, count);
      log := log + [Issue(epoch, count, ret)];
    }

    /** idgen32: the ID is not zero, the log of all IDs returned stays free of repeats, and a new epoch starts
        only when the counter or the clock asks for it.  tries counts the turns of the loop; each reads the clock
        and, if it has to, draws random numbers anew. */
    method Next(seeds: seq<Seed>, clock: seq<int>) returns (ret: bv32, ghost tries: nat)
      requires Valid() && |seeds| == |clock| == 2 && |seeds[0].key| == |seeds[1].key| == KEYLEN
      modifies this
      ensures Valid()
      ensures ret != 0 && 1 <= tries <= 2
      ensures exists count :: log == old(log) + [Issue(epoch, count, ret)]
      ensures var first := RekeyDue(old(counter), old(rekeyTime), clock[0]);
        var second := if first then RekeyDue(Inc(0), clock[0] + REKEY_TIME, clock[1])
                      else RekeyDue(Inc(old(counter)), old(rekeyTime), clock[1]);
        epoch == old(epoch) + (if first then 1 else 0) + (if tries == 2 && second then 1 else 0)
    {
      hide Logged, Drawn, Id, Inc, Spent, DrewZero, RekeyDue, REKEY_TIME;
      ghost var count := 0;
      ghost var first := RekeyDue(counter, rekeyTime, clock[0]);
      var turn := 0;
      tries := 0;
      while true
        invariant Valid() && log == old(log) && turn == tries <= 1
        invariant tries == 0 ==> counter == old(counter) && rekeyTime == old(rekeyTime) && epoch == old(epoch)
        invariant tries == 1 ==> DrewZero(count) && counter == Inc(if first then 0 else old(counter))
        invariant tries == 1 && first ==> epoch == old(epoch) + 1 && rekeyTime == clock[0] + REKEY_TIME
        invariant tries == 1 && !first ==> epoch == old(epoch) && rekeyTime == old(rekeyTime)
        decreases 2 - tries
      {
        ret, count := Draw(seeds[turn], clock[turn], tries == 1, count);
        tries := tries + 1;
        turn := turn + 1;
        if ret != 0 {
          break;
        }
      }
      Record(ret, count);
    }
  }

  lemma NewestDrawn(log: seq<Issue>, epoch: nat, hibit: bv32, k: Key, offset: bv32, counter: bv32)
    requires k.Sized() && !Spent(counter) && Drawn(log, epoch, hibit, k, offset, counter)
    ensures Drawn(log + [Issue(epoch, counter, Id(hibit, k, offset, counter))], epoch, hibit, k, offset, Inc(counter))
  {
    hide Id, Below, Inc, Spent;
    DrawnFurther(log, epoch, hibit, k, offset, counter);
    BelowNext(counter);
  }

  lemma DrawnFurther(log: seq<Issue>, epoch: nat, hibit: bv32, k: Key, offset: bv32, counter: bv32)
    requires k.Sized() && !Spent(counter) && Drawn(log, epoch, hibit, k, offset, counter)
    ensures Drawn(log, epoch, hibit, k, offset, Inc(counter))
  {
    hide Id, Below, Inc, Spent;
    forall i | 0 <= i < |log| && log[i].epoch == epoch
      ensures Below(log[i].count, Inc(counter))
    {
      BelowFurther(log[i].count, counter);
    }
  }

  function ToggledHigh(h: bv32): bv32 {
    h ^ HIGH
  }

  lemma MaskedHigh(h: bv32)
    ensures ToggledHigh(h & HIGH) == 0 || ToggledHigh(h & HIGH) == HIGH
  {
  }

  lemma Toggled(h: bv32)
    requires h == 0 || h == HIGH
    ensures ToggledHigh(h) == if h == 0 then HIGH else 0
  {
  }
}
