/**
 * Runs of the protocol on a fresh region, with the other processes' steps
 * written out.
 */
module Scenarios {
  import opened SeqCounter
  import opened Protocol
  import opened Shmem
  import opened ShmemLib
  import opened ShmemClient

  /** A freshly mapped and initialised region. */
  method NewRegion(seedFp: Fp) returns (c: Shared)
    ensures fresh(c) && fresh(c.data) && c.Valid() && c.State() == InitialRegion(seedFp)
  {
    c := new Shared.Map();
    var _ := c.InitShared(0, 0, seedFp);
  }

  /** `init_shared` then one `doWrite`: slot 0 goes from 42 to 43, slot 1
      keeps 42, and the counter is 4 with bit 1 clear. */
  method InitThenRtWrite(seedFp: Fp, scale: Fp -> Fp) returns (active: int32, inactive: int32, sequence: uint32)
    ensures active == 43 && inactive == 42
    ensures sequence == 4 && !RtInProgress(sequence) && ActiveSlot(sequence) == 0
  {
    var c := NewRegion(seedFp);
    DoWrite(c, 0, scale);
    active, inactive, sequence := c.data[0].integer, c.data[1].integer, c.sequence;
  }

  /** A `doWrite` whose `begin_rt_write` fails: the counter ends at 2, bit 1
      is set and nobody holds `rt_wlock`. The checked variant leaves the
      region as it was. */
  method FailedLockWrite(seedFp: Fp, scale: Fp -> Fp) returns (asWritten: uint32, held: bool, checked: uint32)
    ensures asWritten == 2 && RtInProgress(asWritten) && !held
    ensures checked == 0 && !RtInProgress(checked)
  {
    var c := NewRegion(seedFp);
    DoWrite(c, 1, scale);
    asWritten, held := c.sequence, c.rtWlock;
    var d := NewRegion(seedFp);
    DoWriteChecked(d, 1, scale);
    checked := d.sequence;
  }

  /** A failed lock, then a `doWrite` that gets the lock: the counter ends
      at 6 with bit 1 still set and nobody holding `rt_wlock`. */
  method FailedLockThenWrite(seedFp: Fp, scale: Fp -> Fp) returns (sequence: uint32, held: bool)
    ensures sequence == 6 && RtInProgress(sequence) && !held
  {
    var c := NewRegion(seedFp);
    DoWrite(c, 1, scale);
    DoWrite(c, 0, scale);
    sequence, held := c.sequence, c.rtWlock;
  }

  /** `updateByteBuffer` as written when `begin_nonrt_write` fails, so that
      nothing keeps a second non-RT writer out (shlib/shmem-lib.cc:109-134,
      the retry loop unrolled): writer A picks slot 1 and fills it; during
      A's sleep writer B takes the lock that A failed to take and commits its
      own update through slot 1, so A's swap fails. A retries with the slot
      fixed before the loop: slot 1 is now the active one, and A stores into
      it in place with bit 1 clear. A's second swap succeeds and makes slot 0 active again,
      which still holds the initial values: both updates are lost. */
  method UnlockedWritersLoseUpdates(seedFp: Fp, aFloat: Fp, aInt: int32, bFloat: Fp, bInt: int32)
    returns (firstSwap: bool, writesActive: bool, secondSwap: bool, sequence: uint32, visible: Slot)
    ensures !firstSwap && secondSwap
    ensures writesActive
    ensures sequence == 8 && !RtInProgress(sequence)
    ensures visible == SeedSlot(seedFp)
  {
    var c := NewRegion(seedFp);
    var _ := c.BeginNonrtWrite(1);
    var update := 1 - ActiveSlot(c.sequence);
    // first attempt
    var start, k;
    ghost var waited;
    start, k, waited := c.SeqBegin([], 0);
    WriteShadow(c, update, aInt, aFloat);
    // sleep(3): writer B runs a whole transaction
    c.Perform(NonRtCommit(bInt, bFloat));
    assert c.sequence == 5;
    firstSwap := c.CompareAndSwap(start, CommitValue(start));
    // second attempt
    start, k, waited := c.SeqBegin([], 0);
    writesActive := update == ActiveSlot(c.sequence) && !RtInProgress(c.sequence);
    WriteShadow(c, update, aInt, aFloat);
    secondSwap := c.CompareAndSwap(start, CommitValue(start));
    var _ := c.EndNonrtWrite();
    sequence := c.sequence;
    assert CommitValue(5) == 8;
    visible := c.data[ActiveSlot(sequence)];
  }

  /** A reader's `seq_begin` during an RT write waits for its `end_rt_write`
      and returns the counter after it. */
  method ReaderWaitsForRtWriter(seedFp: Fp) returns (start: uint32)
    ensures start == 4
  {
    var c := NewRegion(seedFp);
    var _ := c.BeginRtWrite(0);
    var next;
    ghost var waited;
    start, next, waited := c.SeqBegin([[RtEnd]], 0);
    assert next == 1;
    assert waited == [RtEnd];
  }

  /** A non-RT update from the initial region with nobody else acting: it
      writes slot 1, flips the active slot and leaves the counter at 5; a
      reader then reads exactly the update, validated against 5. */
  method UpdateThenRead(seedFp: Fp, updateFloat: Fp, updateInt: int32)
    returns (read: Option<ReadResult>, copied: bool)
    ensures read == Some(ReadResult(updateInt, updateFloat, 5))
    ensures copied
  {
    var c := NewRegion(seedFp);
    ghost var used := UpdateByteBuffer(c, updateFloat, updateInt, []);
    assert c.sequence == CommitValue(0) == 5;
    copied := c.data[1].arbitrary == c.data[0].arbitrary;
    ghost var readUsed;
    read, readUsed := DoRead(c, []);
  }

  /** An RT write lands between the non-RT writer's `seq_begin` and its
      compare-and-swap: the swap fails and the region is as the RT writer left
      it; the next pass starts from the new counter 4 and commits, leaving 9. */
  method RtWriteDefeatsCommit(seedFp: Fp, updateFloat: Fp, updateInt: int32)
    returns (first: bool, second: bool, sequence: uint32, update: int32)
    ensures !first && second
    ensures sequence == 9 && ActiveSlot(sequence) == 1 && update == updateInt
  {
    var c := NewRegion(seedFp);
    var env := [[RtBegin, RtEnd]];
    assert Flatten(env) == [RtBegin, RtEnd] by {
      assert env[1..] == [];
    }
    var _ := c.BeginNonrtWrite(0);
    ghost var s0 := c.State();
    assert Run(s0, Flatten(env)) == s0.(sequence := 4);
    assert env[..0] == [] && env[0..] == env && env[..1] == env;
    var start1, start2, k;
    ghost var done, r;
    first, start1, k, done, r := TryCommit(c, 1, updateInt, updateFloat, env, 0, s0, [], s0);
    assert r == s0.(sequence := 4);
    second, start2, k, done, r := TryCommit(c, 1, updateInt, updateFloat, env, k, s0, done, r);
    sequence, update := c.sequence, c.data[1].integer;
  }

  /** A reader whose first pass is overlapped by an RT write retries and
      reads what that write stored, validated against the counter 4. */
  method ReaderRetriesAfterRtWrite(seedFp: Fp, integer: int32, fp: Fp) returns (read: Option<ReadResult>)
    ensures read == Some(ReadResult(integer, fp, 4))
  {
    var c := NewRegion(seedFp);
    var env := [[RtBegin, RtStore(integer, fp), RtEnd]];
    assert Flatten(env) == [RtBegin, RtStore(integer, fp), RtEnd] by {
      assert env[1..] == [];
    }
    assert env[..1] == env;
    ghost var w := Flatten(env);
    ghost var s1 := Apply(c.State(), RtBegin);
    ghost var s2 := Apply(s1, RtStore(integer, fp));
    assert w[1..] == [RtStore(integer, fp), RtEnd] && w[1..][1..] == [RtEnd] && w[1..][1..][1..] == [];
    assert Run(s2, [RtEnd]) == Apply(s2, RtEnd);
    assert Run(c.State(), w) == Apply(s2, RtEnd);
    ghost var used;
    read, used := DoRead(c, env);
  }
}
