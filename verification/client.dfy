/**
 * The test client of AndroitShmemClient.cc: `doWrite`, an RT writer that
 * bumps the active slot in place, and `doRead`, a reader that retries until
 * its read was not overlapped by any write.
 */
module ShmemClient {
  import opened SeqCounter
  import opened Protocol
  import opened Shmem

  datatype Option<T> = None | Some(value: T)

  /** What `doWrite` does to the active slot: `integer + 1` and `fp * 1.234`
      (the floating-point product is the parameter `scale`). */
  function Bumped(s: Slot, scale: Fp -> Fp): (s': Slot)
    ensures s'.arbitrary == s.arbitrary
  {
    s.(integer := WrapInt32(s.integer + 1), fp := scale(s.fp))
  }

  /** The region after `doWrite`: the slot that was active is bumped, the
      counter went up by 2 at `end_rt_write` and, if `begin_rt_write` got the
      lock, by 2 before; `rt_wlock` is released. */
  function RtWriteEffect(r: Region, locked: bool, scale: Fp -> Fp): (r': Region)
    requires WellFormed(r)
    ensures WellFormed(r')
  {
    var a := ActiveSlot(r.sequence);
    r.(rtHeld := false,
       sequence := Add(r.sequence, if locked then 4 else 2),
       data := r.data[a := Bumped(r.data[a], scale)])
  }

  /** A complete RT write with the lock keeps the protocol invariant and the
      slot choice, raises the counter by 4, increments the integer of the
      active slot and leaves the inactive slot alone. */
  lemma RtWriteKeepsProtocol(r: Region, scale: Fp -> Fp)
    requires Consistent(r) && !r.rtHeld
    ensures var r' := RtWriteEffect(r, true, scale);
            Consistent(r') && !RtInProgress(r'.sequence) &&
            r'.sequence == Add(r.sequence, 4) &&
            ActiveSlot(r'.sequence) == ActiveSlot(r.sequence) &&
            (r.data[ActiveSlot(r.sequence)].integer < 0x7fff_ffff ==>
               r'.data[ActiveSlot(r.sequence)].integer == r.data[ActiveSlot(r.sequence)].integer + 1) &&
            r'.data[1 - ActiveSlot(r.sequence)] == r.data[1 - ActiveSlot(r.sequence)]
  {
    RtPairAddsFour(r.sequence);
  }

  /** `doWrite` ignores the result of `begin_rt_write`. If taking the lock
      fails, `end_rt_write` still adds 2: bit 1 is left set with nobody
      holding `rt_wlock`. Readers then wait until the next RT writer begins,
      and that writer's `begin_rt_write` clears bit 1, so readers go ahead
      while it writes. */
  lemma FailedLockInvertsRtBit(r: Region, scale: Fp -> Fp)
    requires Consistent(r) && !r.rtHeld
    ensures var r' := RtWriteEffect(r, false, scale);
            RtInProgress(r'.sequence) && !r'.rtHeld && !Consistent(r') &&
            Enabled(r', RtBegin) &&
            Apply(r', RtBegin).rtHeld && !RtInProgress(Apply(r', RtBegin).sequence)
  {
    var r' := RtWriteEffect(r, false, scale);
    AddTwo(r.sequence);
    AddTwo(r'.sequence);
  }

  /** Once inverted, bit 1 stays inverted: an RT write that gets the lock on
      a region with bit 1 set and `rt_wlock` free clears bit 1 while it
      writes and leaves it set again, with the lock free. Readers then stall
      between RT writes and read during them (`InvertedReadMissesStore`). */
  lemma InvertedRtBitPersists(r: Region, scale: Fp -> Fp)
    requires WellFormed(r) && RtInProgress(r.sequence) && !r.rtHeld
    ensures !RtInProgress(Apply(r, RtBegin).sequence) && Apply(r, RtBegin).rtHeld
    ensures var r' := RtWriteEffect(r, true, scale);
            RtInProgress(r'.sequence) && !r'.rtHeld && r'.sequence == Add(r.sequence, 4)
  {
    RtPairAddsFour(r.sequence);
    AddTwo(r.sequence);
  }

  /** What readers see once bit 1 is inverted: after the failed-lock write,
      the next RT writer's `begin_rt_write` leaves bit 1 clear, so a reader's
      `seq_begin` takes that counter as its snapshot; the writer's store then
      changes the active slot without moving the counter, so a read that
      straddles the store passes `seq_doretry`. */
  lemma InvertedReadMissesStore(r: Region, scale: Fp -> Fp, integer: int32, fp: Fp)
    requires Consistent(r) && !r.rtHeld
    ensures var inv := RtWriteEffect(r, false, scale);
            var snap := Apply(inv, RtBegin);
            var a := ActiveSlot(snap.sequence);
            !RtInProgress(snap.sequence) && snap.rtHeld &&
            Feasible(snap, [RtStore(integer, fp)]) &&
            Run(snap, [RtStore(integer, fp)]).sequence == snap.sequence &&
            Run(snap, [RtStore(integer, fp)]).data[a] == snap.data[a].(integer := integer, fp := fp)
  {
    var inv := RtWriteEffect(r, false, scale);
    AddTwo(r.sequence);
    AddTwo(inv.sequence);
    var snap := Apply(inv, RtBegin);
    assert [RtStore(integer, fp)][1..] == [];
    assert Run(snap, [RtStore(integer, fp)]) == Apply(snap, RtStore(integer, fp));
  }

  /** `doWrite` as written: `begin_rt_write` (its lock result is
      `lockResult`, and its return value is ignored), select the active slot
      from bit 0, `sleep(3)`, bump the slot, `end_rt_write`. With a NULL
      region nothing happens. While `rt_wlock` is held no other writer can
      act: RT writers wait for the lock and a non-RT commit needs bit 1
      clear. */
  method DoWrite(container: Shared?, lockResult: int32, scale: Fp -> Fp)
    requires container != null ==> container.Valid()
    requires container != null ==> (lockResult == 0 ==> !container.rtWlock)
    modifies if container == null then {} else {container, container.data}
    ensures container != null ==> container.Valid()
    ensures container != null ==>
      container.State() == RtWriteEffect(old(container.State()), lockResult == 0, scale)
  {
    if container == null {
      return;
    }
    ghost var r := container.State();
    var _ := container.BeginRtWrite(lockResult);
    var activeData := ActiveSlot(container.sequence);
    AddTwo(r.sequence);
    // sleep(3)
    container.data[activeData] := container.data[activeData].(integer := WrapInt32(container.data[activeData].integer + 1));
    container.data[activeData] := container.data[activeData].(fp := scale(container.data[activeData].fp));
    var _ := container.EndRtWrite();
    RtPairAddsFour(r.sequence);
    assert container.data[..] == r.data[activeData := Bumped(r.data[activeData], scale)];
  }

  /** `doWrite` with the result of `begin_rt_write` checked: when the lock
      was not taken it writes nothing and leaves the counter alone, so the
      protocol invariant always holds afterwards. */
  method DoWriteChecked(container: Shared?, lockResult: int32, scale: Fp -> Fp)
    requires container != null ==> container.Valid() && Consistent(container.State())
    requires container != null ==> (lockResult == 0 ==> !container.rtWlock)
    modifies if container == null then {} else {container, container.data}
    ensures container != null ==> container.Valid() && Consistent(container.State())
    ensures container != null && lockResult != 0 ==> container.State() == old(container.State())
    ensures container != null && lockResult == 0 ==>
      container.State() == RtWriteEffect(old(container.State()), true, scale)
  {
    if container == null {
      return;
    }
    ghost var r := container.State();
    var ret := container.BeginRtWrite(lockResult);
    if ret != 0 {
      return;
    }
    var activeData := ActiveSlot(container.sequence);
    AddTwo(r.sequence);
    // sleep(3)
    container.data[activeData] := container.data[activeData].(integer := WrapInt32(container.data[activeData].integer + 1));
    container.data[activeData] := container.data[activeData].(fp := scale(container.data[activeData].fp));
    var _ := container.EndRtWrite();
    RtPairAddsFour(r.sequence);
    assert container.State() == RtWriteEffect(r, true, scale);
    RtWriteKeepsProtocol(r, scale);
  }

  /** What `doRead` reads: the active slot's `integer` and `fp`, and the
      snapshot `start_seq` it validated them against. */
  datatype ReadResult = ReadResult(integer: int32, fp: Fp, startSeq: uint32)

  /** A point of `doRead` where the others run, accounted from the snapshot
      `snap`: the steps since the snapshot, `after`, grow by the next chunk of
      the schedule, which follows `base`. */
  method Pause(container: Shared, env: seq<seq<Step>>, k: nat, ghost snap: Region,
               ghost base: seq<Step>, ghost after: seq<Step>)
    returns (next: nat, ghost after': seq<Step>)
    requires container.Valid() && Consistent(container.State())
    requires k <= |env| && Quiesces(container.State(), Flatten(env[k..]))
    requires WellFormed(snap) && Feasible(snap, after) && container.State() == Run(snap, after)
    requires Flatten(env[..k]) == base + after
    modifies container, container.data
    ensures container.Valid() && Consistent(container.State())
    ensures k <= next <= |env| && Quiesces(container.State(), Flatten(env[next..]))
    ensures k < |env| ==> k < next
    ensures next == k ==> after' == after
    ensures |after| <= |after'|
    ensures Feasible(snap, after') && container.State() == Run(snap, after')
    ensures Flatten(env[..next]) == base + after'
  {
    ghost var chunk;
    next, chunk := container.OthersRun(env, k);
    RunAppend(snap, after, chunk);
    after' := after + chunk;
    ConcatAssoc(base, after, chunk);
  }

  /** The reads of one pass of `doRead` (AndroitShmemClient.cc:103-109):
      `sleep(3)`, bit 0 of the counter, then the `integer` and the `fp` of
      that slot, with the others acting before each read. If they did
      nothing, the values are those of the active slot of the snapshot
      `snap`. */
  method ReadActive(container: Shared, env: seq<seq<Step>>, k: nat, ghost snap: Region, ghost base: seq<Step>)
    returns (integer: int32, fp: Fp, next: nat, ghost after: seq<Step>)
    requires container.Valid() && Consistent(container.State()) && container.State() == snap
    requires k <= |env| && Quiesces(container.State(), Flatten(env[k..]))
    requires Flatten(env[..k]) == base
    modifies container, container.data
    ensures container.Valid() && Consistent(container.State())
    ensures k <= next <= |env| && Quiesces(container.State(), Flatten(env[next..]))
    ensures k < |env| ==> k < next
    ensures next == k ==> after == []
    ensures Feasible(snap, after) && container.State() == Run(snap, after)
    ensures Flatten(env[..next]) == base + after
    ensures after == [] ==>
      integer == snap.data[ActiveSlot(snap.sequence)].integer && fp == snap.data[ActiveSlot(snap.sequence)].fp
  {
    assert snap == Run(snap, []) && Flatten(env[..k]) == base + [];
    // sleep(3)
    var k1;
    k1, after := Pause(container, env, k, snap, base, []);
    ghost var seenBit := after;
    var activeData := ActiveSlot(container.sequence);

    var k2;
    k2, after := Pause(container, env, k1, snap, base, after);
    ghost var seenInteger := after;
    integer := container.data[activeData].integer;

    next, after := Pause(container, env, k2, snap, base, after);
    fp := container.data[activeData].fp;
    if after == [] {
      assert seenBit == [] && seenInteger == [];
    }
  }

  /** One pass of the loop of `doRead` (AndroitShmemClient.cc:100-114):
      `seq_begin`, the reads, then `seq_doretry`, the others acting before
      each. The pass is inconsistent exactly when the counter moved since the
      snapshot; a consistent pass, unless more than 2^32 / 5 steps of the
      others could have happened, saw no step of the others at all and so read
      the active slot of the region as it is. */
  method TryRead(container: Shared, env: seq<seq<Step>>, k: nat)
    returns (integer: int32, fp: Fp, start: uint32, inconsistent: bool, next: nat, ghost seen: seq<Step>)
    requires container.Valid() && Consistent(container.State())
    requires k <= |env| && Quiesces(container.State(), Flatten(env[k..]))
    modifies container, container.data
    ensures container.Valid() && Consistent(container.State())
    ensures k <= next <= |env| && Quiesces(container.State(), Flatten(env[next..]))
    ensures Feasible(old(container.State()), seen) && container.State() == Run(old(container.State()), seen)
    ensures Flatten(env[..next]) == Flatten(env[..k]) + seen
    ensures !RtInProgress(start)
    ensures inconsistent <==> container.sequence != start
    ensures k < |env| ==> k < next
    ensures next == k ==> !inconsistent
    ensures !inconsistent && 5 * |Flatten(env)| < MOD ==>
      integer == container.data[ActiveSlot(container.sequence)].integer &&
      fp == container.data[ActiveSlot(container.sequence)].fp
  {
    ghost var s0 := container.State();
    var k1;
    ghost var waited;
    start, k1, waited := container.SeqBegin(env, k);
    ghost var snap := container.State();
    ghost var base := Flatten(env[..k]) + waited;

    var k2;
    ghost var seenReads;
    integer, fp, k2, seenReads := ReadActive(container, env, k1, snap, base);

    ghost var after;
    next, after := Pause(container, env, k2, snap, base, seenReads);
    inconsistent := container.SeqDoretry(start);

    RunAppend(s0, waited, after);
    seen := waited + after;
    ConcatAssoc(Flatten(env[..k]), waited, after);
    if !inconsistent && 5 * |Flatten(env)| < MOD {
      FlattenSplit(env, next);
      ShortRunUnchangedCounter(snap, after);
      assert seenReads == [];
    }
  }

  /** `doRead`: retry `TryRead` until a pass is consistent (with a NULL
      region, read nothing). The result is the last pass's read, validated
      against a snapshot with bit 1 clear that equals the counter at return;
      unless the others took more than 2^32 / 5 steps, it is exactly the
      active slot of the region at return. */
  method DoRead(container: Shared?, env: seq<seq<Step>>) returns (result: Option<ReadResult>, ghost used: nat)
    requires container != null ==> container.Valid() && Consistent(container.State())
    requires container != null ==> Quiesces(container.State(), Flatten(env))
    modifies if container == null then {} else {container, container.data}
    ensures container == null ==> result == None
    ensures container != null ==> used <= |env| && container.Valid() && Consistent(container.State())
    ensures container != null ==> (|env| > 0 ==> used > 0)
    ensures container != null ==>
      Feasible(old(container.State()), Flatten(env[..used])) &&
      container.State() == Run(old(container.State()), Flatten(env[..used]))
    ensures container != null ==>
      result.Some? && result.value.startSeq == container.sequence && !RtInProgress(result.value.startSeq)
    ensures container != null && 5 * |Flatten(env)| < MOD ==>
      result.Some? &&
      result.value.integer == container.data[ActiveSlot(container.sequence)].integer &&
      result.value.fp == container.data[ActiveSlot(container.sequence)].fp
  {
    used := 0;
    if container == null {
      return None, 0;
    }
    var k := 0;
    ghost var seen: seq<Step> := [];
    var integer, fp, start := 0, Fp(0), 0;
    var retry := true;
    assert env[..0] == [] && env[0..] == env;
    while retry
      invariant container.Valid() && Consistent(container.State())
      invariant k <= |env| && Quiesces(container.State(), Flatten(env[k..]))
      invariant seen == Flatten(env[..k])
      invariant Feasible(old(container.State()), seen) && container.State() == Run(old(container.State()), seen)
      invariant !retry ==> (|env| > 0 ==> k > 0)
      invariant !retry ==> start == container.sequence && !RtInProgress(start)
      invariant !retry && 5 * |Flatten(env)| < MOD ==>
        integer == container.data[ActiveSlot(container.sequence)].integer &&
        fp == container.data[ActiveSlot(container.sequence)].fp
      decreases |env| - k, if retry then 1 else 0
    {
      ghost var s := container.State();
      var next;
      ghost var w;
      integer, fp, start, retry, next, w := TryRead(container, env, k);
      RunAppend(old(container.State()), seen, w);
      k, seen := next, seen + w;
    }
    used := k;
    result := Some(ReadResult(integer, fp, start));
  }
}
