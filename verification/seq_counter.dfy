/**
 * The encoding of the `unsigned int sequence` counter in `struct shared`
 * (include/IAndroitShmem.h): bit 0 selects the active payload slot, bit 1
 * means "an RT write is in progress", and the higher bits are an epoch that
 * only serves to tell two observations apart. The counter is unsigned and
 * wraps modulo 2^32.
 */
module SeqCounter {

  const MOD: int := 0x1_0000_0000

  /** An `unsigned int`. */
  type uint32 = x: int | 0 <= x < MOD

  /** `x + k` on an `unsigned int`: wraps around modulo 2^32. */
  function Add(x: uint32, k: nat): uint32 {
    (x + k) % MOD
  }

  /** `x & 1`: the index of the payload slot readers use. */
  function ActiveSlot(x: uint32): (i: nat)
    ensures i < 2
  {
    x % 2
  }

  /** `(x & 2) != 0`: an RT writer is between `begin_rt_write` and `end_rt_write`. */
  predicate RtInProgress(x: uint32) {
    (x / 2) % 2 == 1
  }

  /** `x ^ 1`: flips bit 0 and keeps every other bit. */
  function FlipSlot(x: uint32): (r: uint32)
    ensures ActiveSlot(r) == 1 - ActiveSlot(x)
    ensures r / 2 == x / 2
  {
    if x % 2 == 0 then x + 1 else x - 1
  }

  /** The value the non-RT writer's compare-and-swap installs: `(start + 4) ^ 1`. */
  function CommitValue(start: uint32): (r: uint32)
    ensures ActiveSlot(r) == 1 - ActiveSlot(start)
    ensures RtInProgress(r) == RtInProgress(start)
    ensures r != start
  {
    FlipSlot(Add(start, 4))
  }

  /** Adding 2 (one half of an RT write) toggles bit 1 and keeps bit 0. */
  lemma AddTwo(x: uint32)
    ensures ActiveSlot(Add(x, 2)) == ActiveSlot(x)
    ensures RtInProgress(Add(x, 2)) == !RtInProgress(x)
  {
    if x + 2 >= MOD {
      assert Add(x, 2) == x + 2 - MOD;
    }
  }

  /** A complete RT write (`begin_rt_write` then `end_rt_write`) adds 4 modulo 2^32,
      so it leaves both bit 0 and bit 1 as they were. */
  lemma RtPairAddsFour(x: uint32)
    ensures Add(Add(x, 2), 2) == Add(x, 4)
    ensures ActiveSlot(Add(x, 4)) == ActiveSlot(x)
    ensures RtInProgress(Add(x, 4)) == RtInProgress(x)
  {
    AddTwo(x);
    AddTwo(Add(x, 2));
    if x + 2 >= MOD {
      assert Add(x, 2) == x + 2 - MOD;
      assert Add(x, 4) == x + 4 - MOD;
    } else if x + 4 >= MOD {
      assert Add(x, 2) == x + 2;
      assert Add(x, 4) == x + 4 - MOD;
    }
  }

  /** The non-RT commit moves the counter forward by 5 from an even value and
      by 3 from an odd one, modulo 2^32. */
  lemma CommitAdvances(x: uint32)
    ensures CommitValue(x) == Add(x, if ActiveSlot(x) == 0 then 5 else 3)
  {
    if x + 4 >= MOD {
      assert Add(x, 4) == x + 4 - MOD;
    }
    if x + 5 >= MOD {
      assert Add(x, 5) == x + 5 - MOD;
    }
    if x + 3 >= MOD {
      assert Add(x, 3) == x + 3 - MOD;
    }
  }

  /** The two bit tests agree with the C expressions `sequence & 1` and
      `sequence & 2` on a 32-bit `unsigned int`. */
  lemma MatchesBitTests(x: uint32)
    ensures ActiveSlot(x) == ((x as bv32) & 1) as int
    ensures RtInProgress(x) <==> (x as bv32) & 2 != 0
  {
  }
}
