/**
 * `struct shared` and the protocol primitives of include/IAndroitShmem.h:
 * `init_shared`, `begin_rt_write`, `end_rt_write`, `begin_nonrt_write`,
 * `end_nonrt_write`, `seq_begin`, `seq_doretry`, and the compare-and-swap the
 * non-RT writer commits with.
 *
 * The region is an object whose fields the procedures update in place. Other
 * processes act on the same object at the points where the source waits
 * (the spin in `seq_begin`, the `sleep` calls): a schedule `env` lists the
 * steps they take there, one chunk per such point, and `OthersRun` performs
 * the next chunk.
 */
module Shmem {
  import opened SeqCounter
  import opened Protocol

  /** What the model has `pthread_mutex_unlock` report for a mutex that is
      not locked. The lock flags have no owner: an unlock clears the flag,
      whoever set it, and reports this only when it was not set. For the
      default mutex type `init_shared` creates, an unlock by a thread that
      does not own the mutex is undefined. */
  const EPERM: int32 := 1

  /** The initial value of every element of a zero-filled slot array. */
  function ZeroSlot(): (s: Slot)
    ensures |s.arbitrary| == ARBITRARY_LEN
  {
    Slot(0, Fp(0), seq(ARBITRARY_LEN, _ => 0))
  }

  /** The sample array `init_shared` writes: element `j` is `1024 - j`. */
  function SeedArray(): (a: seq<int64>)
    ensures |a| == ARBITRARY_LEN
    ensures forall j | 0 <= j < ARBITRARY_LEN :: a[j] == ARBITRARY_LEN - j
  {
    seq(ARBITRARY_LEN, j requires 0 <= j < ARBITRARY_LEN => ARBITRARY_LEN - j)
  }

  /** The sample slot `init_shared` writes; its `fp` (23.42) is a parameter. */
  function SeedSlot(seedFp: Fp): Slot {
    Slot(42, seedFp, SeedArray())
  }

  /** The region right after `init_shared`. */
  function InitialRegion(seedFp: Fp): (r: Region)
    ensures Consistent(r)
  {
    Region(false, false, 0, [SeedSlot(seedFp), SeedSlot(seedFp)])
  }

  class Shared {
    var rtWlock: bool      // `protect.rt_wlock` is held
    var nonrtWlock: bool   // `protect.nonrt_wlock` is held
    var sequence: uint32   // `protect.sequence`
    const data: array<Slot>

    ghost function State(): Region
      reads this, data
    {
      Region(rtWlock, nonrtWlock, sequence, data[..])
    }

    ghost predicate Valid()
      reads this, data
    {
      WellFormed(State())
    }

    /** A freshly mapped region. Its contents are whatever the mapped file
        held; the model takes zeros, and nothing depends on that, since
        `InitShared` overwrites every field. */
    constructor Map()
      ensures Valid() && fresh(data)
      ensures State() == Region(false, false, 0, [ZeroSlot(), ZeroSlot()])
    {
      rtWlock, nonrtWlock, sequence := false, false, 0;
      data := new Slot[2](_ => ZeroSlot());
      new;
      assert data[..] == [ZeroSlot(), ZeroSlot()];
    }

    /** `init_shared`: zero the counter, initialise both mutexes (their
        `pthread_mutex_init` results are the parameters and are summed) and seed
        both slots with the same sample values. */
    method InitShared(rtInit: int32, nonrtInit: int32, seedFp: Fp) returns (result: int)
      requires Valid()
      modifies this, data
      ensures Valid() && Consistent(State())
      ensures State() == InitialRegion(seedFp)
      ensures sequence == 0
      ensures forall i | 0 <= i < 2 :: data[i].integer == 42 && data[i].fp == seedFp
      ensures forall i, j | 0 <= i < 2 && 0 <= j < ARBITRARY_LEN :: data[i].arbitrary[j] == ARBITRARY_LEN - j
      ensures result == rtInit + nonrtInit
    {
      sequence := 0;
      rtWlock := false;
      result := rtInit;
      nonrtWlock := false;
      result := result + nonrtInit;
      for i := 0 to 2
        invariant Valid() && sequence == 0 && !rtWlock && !nonrtWlock
        invariant forall k | 0 <= k < i :: data[k] == SeedSlot(seedFp)
      {
        data[i] := data[i].(integer := 42);
        data[i] := data[i].(fp := seedFp);
        for j := 0 to ARBITRARY_LEN
          invariant Valid() && sequence == 0 && !rtWlock && !nonrtWlock
          invariant data[i].integer == 42 && data[i].fp == seedFp
          invariant forall m | 0 <= m < j :: data[i].arbitrary[m] == ARBITRARY_LEN - m
          invariant forall k | 0 <= k < i :: data[k] == SeedSlot(seedFp)
        {
          data[i] := data[i].(arbitrary := data[i].arbitrary[j := ARBITRARY_LEN - j]);
        }
        assert data[i].arbitrary == SeedArray();
      }
      assert data[..] == [SeedSlot(seedFp), SeedSlot(seedFp)];
    }

    /** `begin_rt_write`: take `rt_wlock` (the lock call's result is
        `lockResult`; a lock that succeeds was free), return its error if it
        failed, otherwise add 2 to the counter. */
    method BeginRtWrite(lockResult: int32) returns (ret: int32)
      requires Valid()
      requires lockResult == 0 ==> !rtWlock
      modifies this
      ensures Valid()
      ensures ret == lockResult
      ensures ret != 0 ==> State() == old(State())
      ensures ret == 0 ==> State() == old(State()).(rtHeld := true, sequence := Add(old(sequence), 2))
    {
      ret := lockResult;
      if ret != 0 {
        return;
      }
      rtWlock := true;
      sequence := Add(sequence, 2);
    }

    /** `end_rt_write`: add 2 to the counter, then release `rt_wlock` and
        return what the unlock returns. */
    method EndRtWrite() returns (ret: int32)
      requires Valid()
      modifies this
      ensures Valid()
      ensures State() == old(State()).(rtHeld := false, sequence := Add(old(sequence), 2))
      ensures ret == if old(rtWlock) then 0 else EPERM
    {
      sequence := Add(sequence, 2);
      ret := if rtWlock then 0 else EPERM;
      rtWlock := false;
    }

    /** `begin_nonrt_write`: take `nonrt_wlock`; nothing else changes. */
    method BeginNonrtWrite(lockResult: int32) returns (ret: int32)
      requires Valid()
      requires lockResult == 0 ==> !nonrtWlock
      modifies this
      ensures Valid()
      ensures ret == lockResult
      ensures State() == old(State()).(nonrtHeld := old(nonrtWlock) || ret == 0)
    {
      ret := lockResult;
      if ret == 0 {
        nonrtWlock := true;
      }
    }

    /** `end_nonrt_write`: release `nonrt_wlock`; nothing else changes. */
    method EndNonrtWrite() returns (ret: int32)
      requires Valid()
      modifies this
      ensures Valid()
      ensures State() == old(State()).(nonrtHeld := false)
      ensures ret == if old(nonrtWlock) then 0 else EPERM
    {
      ret := if nonrtWlock then 0 else EPERM;
      nonrtWlock := false;
    }

    /** `seq_doretry`: true exactly when the counter moved away from `start`. */
    method SeqDoretry(start: uint32) returns (inconsistent: bool)
      ensures inconsistent <==> sequence != start
    {
      var current := sequence;
      inconsistent := false;
      if current != start {
        inconsistent := true;
      }
    }

    /** `__sync_bool_compare_and_swap` on the counter. */
    method CompareAndSwap(expected: uint32, desired: uint32) returns (swapped: bool)
      requires Valid()
      modifies this
      ensures Valid()
      ensures swapped <==> old(sequence) == expected
      ensures State() == if swapped then old(State()).(sequence := desired) else old(State())
    {
      swapped := sequence == expected;
      if swapped {
        sequence := desired;
      }
    }

    /** One step of another process, performed with the same primitives. */
    method Perform(s: Step)
      requires Valid() && Enabled(State(), s)
      modifies this, data
      ensures Valid()
      ensures State() == Apply(old(State()), s)
    {
      match s
      case RtBegin =>
        var _ := BeginRtWrite(0);
      case RtStore(i, f) =>
        var a := ActiveSlot(sequence);
        data[a] := data[a].(integer := i, fp := f);
      case RtEnd =>
        var _ := EndRtWrite();
      case NonRtCommit(i, f) =>
        var _ := BeginNonrtWrite(0);
        var update := 1 - ActiveSlot(sequence);
        data[update] := Slot(i, f, data[1 - update].arbitrary);
        var start := sequence;
        var _ := CompareAndSwap(start, CommitValue(start));
        var _ := EndNonrtWrite();
    }

    /** The steps `w` of other processes, in order. */
    method Interleave(w: seq<Step>)
      requires Valid() && Feasible(State(), w)
      modifies this, data
      ensures Valid()
      ensures State() == Run(old(State()), w)
    {
      for i := 0 to |w|
        invariant Valid() && Feasible(State(), w[i..])
        invariant Run(State(), w[i..]) == Run(old(State()), w)
      {
        assert w[i..][0] == w[i] && w[i..][1..] == w[i + 1..];
        Perform(w[i]);
      }
      assert w[|w|..] == [];
    }

    /** A point where this process waits and the others run: the chunk `k` of
        the schedule, if any is left, happens now. */
    method OthersRun(env: seq<seq<Step>>, k: nat) returns (next: nat, ghost chunk: seq<Step>)
      requires Valid() && Consistent(State())
      requires k <= |env| && Quiesces(State(), Flatten(env[k..]))
      modifies this, data
      ensures Valid() && Consistent(State())
      ensures k < |env| ==> next == k + 1 && chunk == env[k]
      ensures k == |env| ==> next == k && chunk == []
      ensures Feasible(old(State()), chunk) && State() == Run(old(State()), chunk)
      ensures Quiesces(State(), Flatten(env[next..]))
      ensures Flatten(env[..next]) == Flatten(env[..k]) + chunk
      ensures Flatten(env[k..]) == chunk + Flatten(env[next..])
    {
      if k == |env| {
        next, chunk := k, [];
        assert env[k..] == [];
        assert Flatten(env[..next]) == Flatten(env[..k]) + chunk;
        return;
      }
      next, chunk := k + 1, env[k];
      assert env[k..][0] == env[k] && env[k..][1..] == env[k + 1..];
      assert Flatten(env[k..]) == chunk + Flatten(env[next..]);
      RunAppend(State(), chunk, Flatten(env[next..]));
      RunConsistent(State(), chunk);
      FlattenSnoc(env, k);
      Interleave(env[k]);
    }

    /** `seq_begin`: read the counter and, while bit 1 is set, relax (the
        others run) and read it again; return the first value with bit 1
        clear. */
    method SeqBegin(env: seq<seq<Step>>, k: nat) returns (start: uint32, next: nat, ghost waited: seq<Step>)
      requires Valid() && Consistent(State())
      requires k <= |env| && Quiesces(State(), Flatten(env[k..]))
      modifies this, data
      ensures Valid() && Consistent(State())
      ensures !RtInProgress(start) && start == sequence
      ensures k <= next <= |env|
      ensures !RtInProgress(old(sequence)) ==> next == k && waited == []
      ensures RtInProgress(old(sequence)) ==> k < next
      ensures Feasible(old(State()), waited) && State() == Run(old(State()), waited)
      ensures Quiesces(State(), Flatten(env[next..]))
      ensures Flatten(env[..next]) == Flatten(env[..k]) + waited
    {
      start := sequence;
      next, waited := k, [];
      assert Flatten(env[..next]) == Flatten(env[..k]) + waited;
      while RtInProgress(start)
        invariant Valid() && Consistent(State()) && start == sequence
        invariant k <= next <= |env| && Quiesces(State(), Flatten(env[next..]))
        invariant RtInProgress(old(sequence)) && next == k ==> RtInProgress(start)
        invariant !RtInProgress(old(sequence)) ==> next == k && waited == []
        invariant Feasible(old(State()), waited) && State() == Run(old(State()), waited)
        invariant Flatten(env[..next]) == Flatten(env[..k]) + waited
        decreases |env| - next
      {
        WaitEnds(State(), env, next);
        ghost var chunk;
        next, chunk := OthersRun(env, next);
        RunAppend(old(State()), waited, chunk);
        ConcatAssoc(Flatten(env[..k]), waited, chunk);
        waited := waited + chunk;
        start := sequence;
      }
    }
  }
}
