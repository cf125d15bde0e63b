/**
The millisecond clock of src/tick.rs: a 64-bit count kept as two 32-bit words,
bumped by an interrupt handler and read by a loop that retries when the high
word moved underneath it.
*/
module Tick {

  const WORD := 0x1_0000_0000

  /** The high word after `count` interrupts. */
  function High(count: nat): nat {
    count / WORD % WORD
  }

  /** The low word after `count` interrupts. */
  function Low(count: nat): nat {
    count % WORD
  }

  /** One interrupt in terms of the two words: bump the low one, carry when it wraps. */
  lemma Carry(count: nat)
    ensures Low(count + 1) == (Low(count) + 1) % WORD
    ensures High(count + 1) == if Low(count + 1) == 0 then (High(count) + 1) % WORD else High(count)
  {
    assert count == count / WORD * WORD + Low(count);
    if Low(count) == WORD - 1 {
      assert count + 1 == (count / WORD + 1) * WORD;
    } else {
      assert (count + 1) / WORD == count / WORD;
    }
  }

  /** The high word is loaded when the count is `first`, the low word when it is `middle`, the high
      word again when it is `last`. When the two high words agree the pair is exactly the count at
      the middle load, however many interrupts ran in between. */
  lemma UntornRead(first: nat, middle: nat, last: nat)
    requires first <= middle <= last < WORD * WORD
    requires High(first) == High(last)
    ensures High(first) * WORD + Low(middle) == middle
  {
    assert first / WORD <= middle / WORD <= last / WORD < WORD;
  }

  /** Between the carry and the store of the wrapped low word, the two words are one whole low-word period
      ahead. */
  lemma HalfDoneCarry(count: nat)
    requires Low(count) == WORD - 1 && count + 1 < WORD * WORD
    ensures High(count) + 1 == High(count + 1) < WORD && High(count + 1) * WORD + Low(count) == count + WORD
  {
    Carry(count);
    assert count / WORD < WORD && count == count / WORD * WORD + (WORD - 1);
    assert (count + 1) / WORD == count / WORD + 1 < WORD;
  }

  class Clock {
    var low: nat
    var high: nat
    /** How many interrupts have really run. */
    ghost var ticks: nat

    ghost predicate Valid()
      reads this
    {
      low == Low(ticks) && high == High(ticks)
    }

    constructor ()
      ensures Valid() && ticks == 0
    {
      low, high, ticks := 0, 0, 0;
    }

    /** The interrupt handler. */
    method HandleInterrupt()
      requires Valid()
      modifies this
      ensures Valid() && ticks == old(ticks) + 1
    {
      Carry(ticks);
      var next := (low + 1) % WORD;
      if next == 0 {
        high := (high + 1) % WORD;
      }
      low := next;
      ticks := ticks + 1;
    }

    /** Any number of interrupts, up to the last count 64 bits can hold. */
    method Elapse()
      requires Valid() && ticks < WORD * WORD
      modifies this
      ensures Valid() && old(ticks) <= ticks < WORD * WORD
    {
      var pending: int := *;
      while pending > 0
        invariant Valid() && old(ticks) <= ticks < WORD * WORD
        decreases pending
      {
        if high == WORD - 1 && low == WORD - 1 {
          return;
        }
        assert ticks / WORD < WORD && ticks == ticks / WORD * WORD + ticks % WORD;
        HandleInterrupt();
        pending := pending - 1;
      }
    }

    /** The reader. Interrupts may run before each of the three loads; the value returned is the
        true count at one instant during the call. */
    method NowMs() returns (now: nat)
      requires Valid() && ticks < WORD * WORD
      modifies this
      ensures Valid() && ticks < WORD * WORD
      ensures old(ticks) <= now <= ticks
    {
      while true
        invariant Valid() && old(ticks) <= ticks < WORD * WORD
        decreases WORD * WORD - ticks
      {
        Elapse();
        var highBefore := high;
        ghost var first := ticks;
        Elapse();
        var lowRead := low;
        ghost var middle := ticks;
        Elapse();
        if highBefore == high {
          UntornRead(first, middle, ticks);
          return highBefore * WORD + lowRead;
        }
      }
    }

    /** The boundary the reader relies on: the handler runs as a whole. A reader let in between the carry
        and the store of the wrapped low word sees the same high word twice, is content, and returns a time
        2^32 ms in the future. */
    method ReadBetweenHalves() returns (now: nat)
      requires Valid() && low == WORD - 1 && ticks + 1 < WORD * WORD
      modifies this
      ensures Valid() && ticks == old(ticks) + 1 && now == old(ticks) + WORD
    {
      HalfDoneCarry(ticks);
      Carry(ticks);
      var next := (low + 1) % WORD;
      high := (high + 1) % WORD;
      var highBefore := high;
      var lowRead := low;
      assert highBefore == high;
      now := highBefore * WORD + lowRead;
      low := next;
      ticks := ticks + 1;
    }

    /** Successive calls never go backwards. */
    method NowTwice() returns (earlier: nat, later: nat)
      requires Valid() && ticks < WORD * WORD
      modifies this
      ensures Valid() && ticks < WORD * WORD
      ensures old(ticks) <= earlier <= later <= ticks
    {
      earlier := NowMs();
      Elapse();
      later := NowMs();
    }
  }
}
