/**
  The table that maps a file descriptor to its channel (utils/channel_map.c).

  The table doubles from 32 slots until the wanted slot fits. Capacities are modelled as unbounded
  integers; FitsInt says exactly for which slots the C `int` byte count does not overflow.
*/
module Capacities {
  import opened Basics

  const FIRST_CAPACITY := 32
  const ENTRY_SIZE := 8
  const INT_LIMIT := 0x8000_0000
  const SLOT_LIMIT := 0x800_0000

  function Pow2(k: nat): (p: nat)
    ensures p > 0
  {
    if k == 0 then 1 else 2 * Pow2(k - 1)
  }

  /** The doubling loop, started at `n`. */
  function Doubled(n: nat, slot: int): nat
    requires n > 0
    decreases slot - n
  {
    if n > slot then n else Doubled(2 * n, slot)
  }

  /** The number of slots after a request for `slot` on a table with `number` slots. */
  function Grown(number: nat, slot: int): nat {
    if slot < number then number else Doubled(if number == 0 then FIRST_CAPACITY else number, slot)
  }

  ghost predicate IsCapacity(n: nat) {
    exists k: nat :: n == FIRST_CAPACITY * Pow2(k)
  }

  /** The smallest capacity with a slot numbered `slot`. */
  ghost predicate IsLeastCapacity(n: nat, slot: int) {
    && IsCapacity(n)
    && slot < n
    && forall k: nat :: slot < FIRST_CAPACITY * Pow2(k) ==> n <= FIRST_CAPACITY * Pow2(k)
  }

  lemma {:induction false} Pow2Monotone(j: nat, k: nat)
    requires j < k
    ensures 2 * Pow2(j) <= Pow2(k)
    decreases k
  {
    if j < k - 1 {
      Pow2Monotone(j, k - 1);
    }
  }

  /** Starting from a capacity that is too small or already the least one, doubling ends at the least capacity. */
  lemma {:induction false} DoubledIsLeast(j: nat, slot: int)
    requires forall k: nat :: slot < FIRST_CAPACITY * Pow2(k) ==> Pow2(j) <= Pow2(k)
    ensures IsLeastCapacity(Doubled(FIRST_CAPACITY * Pow2(j), slot), slot)
    ensures Doubled(FIRST_CAPACITY * Pow2(j), slot) >= FIRST_CAPACITY * Pow2(j)
    decreases slot - FIRST_CAPACITY * Pow2(j)
  {
    var n := FIRST_CAPACITY * Pow2(j);
    if n <= slot {
      forall k: nat | slot < FIRST_CAPACITY * Pow2(k) ensures Pow2(j + 1) <= Pow2(k) {
        if k < j { Pow2Monotone(k, j); } else if k > j { Pow2Monotone(j, k); }
      }
      assert 2 * n == FIRST_CAPACITY * Pow2(j + 1);
      DoubledIsLeast(j + 1, slot);
    }
  }

  /** The largest slot of a sequence of requests; -1 when there is none (or none is non-negative). */
  function MaxSlot(slots: seq<int>): int {
    if slots == [] then -1 else Max(MaxSlot(slots[..|slots| - 1]), slots[|slots| - 1])
  }

  /** What a whole sequence of requests does to the slot count, and how many old entries `realloc` moves. */
  function NumberAfter(slots: seq<int>): nat {
    if slots == [] then 0 else Grown(NumberAfter(slots[..|slots| - 1]), slots[|slots| - 1])
  }

  function CopiedAfter(slots: seq<int>): nat {
    if slots == [] then 0
    else
      var before := slots[..|slots| - 1];
      CopiedAfter(before) + if slots[|slots| - 1] < NumberAfter(before) then 0 else NumberAfter(before)
  }

  lemma {:induction false} GrownIsLeast(number: nat, slot: int, top: int)
    requires if number == 0 then top < 0 else top >= 0 && IsLeastCapacity(number, top)
    ensures slot < 0 ==> Grown(number, slot) == number
    ensures slot >= 0 ==> IsLeastCapacity(Grown(number, slot), Max(top, slot))
    ensures number <= slot ==> Grown(number, slot) >= 2 * number && Grown(number, slot) >= FIRST_CAPACITY
  {
    if number == 0 && slot >= 0 {
      forall k: nat ensures Pow2(0) <= Pow2(k) {}
      DoubledIsLeast(0, slot);
      assert FIRST_CAPACITY == FIRST_CAPACITY * Pow2(0);
    } else if number <= slot {
      var j: nat :| number == FIRST_CAPACITY * Pow2(j);
      forall k: nat | slot < FIRST_CAPACITY * Pow2(k) ensures Pow2(j + 1) <= Pow2(k) {
        if k < j { Pow2Monotone(k, j); } else if k > j { Pow2Monotone(j, k); }
      }
      assert 2 * number == FIRST_CAPACITY * Pow2(j + 1);
      DoubledIsLeast(j + 1, slot);
    }
  }

  /**
    Over every sequence of requests the table stays empty, or has exactly the least capacity above the
    largest slot ever asked for.
  */
  lemma {:induction false} NumberIsLeastCapacity(slots: seq<int>)
    ensures MaxSlot(slots) < 0 ==> NumberAfter(slots) == 0
    ensures MaxSlot(slots) >= 0 ==> IsLeastCapacity(NumberAfter(slots), MaxSlot(slots))
  {
    if slots != [] {
      var before, slot := slots[..|slots| - 1], slots[|slots| - 1];
      NumberIsLeastCapacity(before);
      GrownIsLeast(NumberAfter(before), slot, MaxSlot(before));
    }
  }

  /** All the copying ever done costs less than the final table: growth is amortised constant. */
  lemma {:induction false} CopyingIsAmortized(slots: seq<int>)
    requires MaxSlot(slots) >= 0
    ensures CopiedAfter(slots) <= NumberAfter(slots) - FIRST_CAPACITY
  {
    var before, slot := slots[..|slots| - 1], slots[|slots| - 1];
    NumberIsLeastCapacity(before);
    GrownIsLeast(NumberAfter(before), slot, MaxSlot(before));
    if MaxSlot(before) >= 0 {
      CopyingIsAmortized(before);
    } else {
      NothingCopied(before);
    }
  }

  lemma {:induction false} NothingCopied(slots: seq<int>)
    requires MaxSlot(slots) < 0
    ensures CopiedAfter(slots) == 0
  {
    if slots != [] {
      NothingCopied(slots[..|slots| - 1]);
      NumberIsLeastCapacity(slots[..|slots| - 1]);
    }
  }

  /** The byte count handed to `realloc` fits a 32-bit `int` exactly when the slot is below 2^27. */
  lemma FitsInt(n: nat, slot: int)
    requires IsLeastCapacity(n, slot)
    ensures n * ENTRY_SIZE < INT_LIMIT <==> slot < SLOT_LIMIT
  {
    assert Pow2(4) == 16 && Pow2(8) == 16 * Pow2(4) && Pow2(12) == 16 * Pow2(8);
    assert Pow2(16) == 16 * Pow2(12) && Pow2(20) == 16 * Pow2(16) && Pow2(22) == 4 * Pow2(20);
    assert SLOT_LIMIT == FIRST_CAPACITY * Pow2(22);
    if slot >= SLOT_LIMIT {
      var k: nat :| n == FIRST_CAPACITY * Pow2(k);
      if k < 22 { Pow2Monotone(k, 22); } else if k > 22 { Pow2Monotone(22, k); }
    }
  }
}
