/**
 * The JNI side of the region (shlib/shmem-lib.cc): the non-RT writer's
 * transaction `updateByteBuffer` and the slot offset `getActiveDataOffset`
 * the Java code reads through.
 */
module ShmemLib {
  import opened SeqCounter
  import opened Protocol
  import opened Shmem

  /** Only RT writers in a sequence means only RT writers in both halves. */
  lemma RtOnlyAppend(a: seq<Step>, b: seq<Step>)
    ensures RtOnly(a + b) <==> RtOnly(a) && RtOnly(b)
  {
    if RtOnly(a + b) {
      forall i | 0 <= i < |a| ensures !a[i].NonRtCommit? {
        assert a[i] == (a + b)[i];
      }
      forall i | 0 <= i < |b| ensures !b[i].NonRtCommit? {
        assert b[i] == (a + b)[|a| + i];
      }
    }
    if RtOnly(a) && RtOnly(b) {
      forall i | 0 <= i < |a + b| ensures !(a + b)[i].NonRtCommit? {
        if i < |a| {
          assert (a + b)[i] == a[i];
        } else {
          assert (a + b)[i] == b[i - |a|];
        }
      }
    }
  }

  /** `s` is `r` except for the non-RT lock and the contents of slot
      `update`, which is inactive. */
  ghost predicate ShadowOf(s: Region, r: Region, update: nat) {
    WellFormed(r) && WellFormed(s) && update < 2 && ActiveSlot(r.sequence) == 1 - update &&
    s == r.(nonrtHeld := s.nonrtHeld, data := r.data[update := s.data[update]])
  }

  /** RT writers never touch the inactive slot and do not look at it: running
      them on a region and on its shadowed copy keeps the two apart only in
      that slot, whose content stays put. */
  lemma ShadowRun(s: Region, r: Region, update: nat, w: seq<Step>)
    requires ShadowOf(s, r, update) && RtOnly(w) && (Feasible(s, w) || Feasible(r, w))
    ensures Feasible(s, w) && Feasible(r, w)
    ensures ShadowOf(Run(s, w), Run(r, w), update)
    ensures Run(s, w).data[update] == s.data[update] && Run(r, w).data[update] == r.data[update]
    ensures Run(s, w).nonrtHeld == s.nonrtHeld
    ensures Run(r, w).data[1 - update].arbitrary == r.data[1 - update].arbitrary
    ensures Run(r, w).nonrtHeld == r.nonrtHeld
    ensures Quiesces(s, w) <==> Quiesces(r, w)
  {
    assert r == s.(nonrtHeld := r.nonrtHeld, data := s.data[update := r.data[update]]);
    if Feasible(s, w) {
      RtRunFrame(s, r, w);
    }
    RtRunFrame(r, s, w);
    RtRunKeepsSlots(r, w);
    RtRunKeepsSlots(s, w);
  }

  /** The bookkeeping of one wait of the non-RT writer: the others perform
      `w`, the next part of the schedule after `done`, on the writer's view `s`
      of the region; the region the RT writers alone would have left follows
      them, and `s` stays its shadowed copy. */
  lemma OthersAdvance(s0: Region, env: seq<seq<Step>>, k: nat, k1: nat, done: seq<Step>,
                      w: seq<Step>, r: Region, update: nat, s: Region)
    requires k <= k1 <= |env| && RtOnly(Flatten(env))
    requires done == Flatten(env[..k]) && Flatten(env[..k1]) == done + w
    requires WellFormed(s0) && Feasible(s0, done) && r == Run(s0, done)
    requires ShadowOf(s, r, update) && Feasible(s, w)
    ensures RtOnly(Flatten(env[k1..])) && RtOnly(w)
    ensures Feasible(r, w) && Feasible(s0, done + w) && Run(s0, done + w) == Run(r, w)
    ensures ShadowOf(Run(s, w), Run(r, w), update)
    ensures Run(s, w).data[update] == s.data[update] && Run(s, w).nonrtHeld == s.nonrtHeld
    ensures Run(r, w).data[1 - update].arbitrary == r.data[1 - update].arbitrary
    ensures Run(r, w).nonrtHeld == r.nonrtHeld
  {
    FlattenSplit(env, k1);
    RtOnlyAppend(Flatten(env[..k1]), Flatten(env[k1..]));
    RtOnlyAppend(done, w);
    ShadowRun(s, r, update, w);
    RunAppend(s0, done, w);
  }

  /** The shadow slot holds the update and a copy of the active array. */
  ghost predicate Prepared(s: Region, r: Region, update: nat, integer: int32, fp: Fp) {
    ShadowOf(s, r, update) && s.data[update] == Slot(integer, fp, r.data[1 - update].arbitrary)
  }

  /** Writing the update and the active array into the shadow slot prepares
      the commit and changes nothing the others depend on. */
  lemma PrepareShadow(s: Region, r: Region, update: nat, integer: int32, fp: Fp, w: seq<Step>)
    requires ShadowOf(s, r, update) && RtOnly(w) && Quiesces(s, w)
    ensures var s' := s.(data := s.data[update := Slot(integer, fp, s.data[1 - update].arbitrary)]);
            Prepared(s', r, update, integer, fp) && Quiesces(s', w) &&
            (Consistent(s) ==> Consistent(s'))
  {
    var s' := s.(data := s.data[update := Slot(integer, fp, s.data[1 - update].arbitrary)]);
    ShadowRun(s, r, update, w);
    assert ShadowOf(s', r, update);
    ShadowRun(s', r, update, w);
  }

  /** RT writers keep the commit prepared. */
  lemma PreparedRun(s: Region, r: Region, update: nat, integer: int32, fp: Fp, w: seq<Step>)
    requires Prepared(s, r, update, integer, fp) && RtOnly(w) && Feasible(s, w)
    ensures Feasible(r, w) && Prepared(Run(s, w), Run(r, w), update, integer, fp)
  {
    ShadowRun(s, r, update, w);
  }

  /** Once the shadow slot holds the update and a copy of the active array,
      swinging the counter to `(start + 4) ^ 1` is the transaction. */
  lemma ShadowCommit(s: Region, r: Region, update: nat, integer: int32, fp: Fp)
    requires Prepared(s, r, update, integer, fp) && s.nonrtHeld == r.nonrtHeld
    ensures s.(sequence := CommitValue(s.sequence)) == Transaction(r, integer, fp)
  {
  }

  /** Taking the non-RT lock first does not change what the others do or the
      transaction built on what they leave. */
  lemma LockedRunAgrees(r0: Region, s0: Region, env: seq<seq<Step>>, k: nat, update: nat,
                        integer: int32, fp: Fp)
    requires WellFormed(r0) && s0 == r0.(nonrtHeld := s0.nonrtHeld) && update == 1 - ActiveSlot(r0.sequence)
    requires k <= |env| && RtOnly(Flatten(env)) && Feasible(s0, Flatten(env[..k]))
    ensures Feasible(r0, Flatten(env[..k]))
    ensures Transaction(Run(r0, Flatten(env[..k])), integer, fp).(nonrtHeld := false) ==
            Transaction(Run(s0, Flatten(env[..k])), integer, fp).(nonrtHeld := false)
  {
    var done := Flatten(env[..k]);
    FlattenSplit(env, k);
    RtOnlyAppend(done, Flatten(env[k..]));
    ShadowRun(s0, r0, update, done);
    var a, b := Run(r0, done), Run(s0, done);
    assert b.data == a.data by {
      assert b.data == a.data[update := b.data[update]];
    }
    assert b == a.(nonrtHeld := b.nonrtHeld);
  }

  /** The stores and the copy loop of one attempt (shmem-lib.cc:118-122): the
      slot `update` gets the new `fp` and `integer` and, element by element,
      the other slot's array; nothing else changes. */
  method WriteShadow(container: Shared, update: nat, updateInt: int32, updateFloat: Fp)
    requires container.Valid() && update < 2
    modifies container.data
    ensures container.Valid()
    ensures container.State() == old(container.State()).(data :=
      old(container.State()).data[update := Slot(updateInt, updateFloat, old(container.data[1 - update]).arbitrary)])
  {
    container.data[update] := container.data[update].(fp := updateFloat);
    container.data[update] := container.data[update].(integer := updateInt);
    for i := 0 to ARBITRARY_LEN
      invariant container.Valid()
      invariant container.data[update].integer == updateInt && container.data[update].fp == updateFloat
      invariant container.data[1 - update] == old(container.data[1 - update])
      invariant container.data[update].arbitrary[..i] == container.data[1 - update].arbitrary[..i]
    {
      container.data[update] := container.data[update].(arbitrary :=
        container.data[update].arbitrary[i := container.data[1 - update].arbitrary[i]]);
    }
    assert container.data[update].arbitrary == container.data[update].arbitrary[..ARBITRARY_LEN];
    assert container.data[1 - update].arbitrary == container.data[1 - update].arbitrary[..ARBITRARY_LEN];
    assert container.data[..] == old(container.data[..])[update := container.data[update]];
  }

  /** The writer's state between two passes of the retry loop of
      `updateByteBuffer`: the others have performed `done`, the first `k`
      chunks of the schedule, and `r` is the region they alone would have left
      from `s0`; the writer's `s` differs from `r` only in its lock and in the
      slot `update` it writes to, which is the inactive one. */
  ghost predicate Pending(s: Region, s0: Region, env: seq<seq<Step>>, k: nat,
                          done: seq<Step>, r: Region, update: nat) {
    k <= |env| && RtOnly(Flatten(env)) && done == Flatten(env[..k]) &&
    WellFormed(s0) && Feasible(s0, done) && r == Run(s0, done) &&
    Consistent(s) && ShadowOf(s, r, update) && s.nonrtHeld == r.nonrtHeld &&
    Quiesces(s, Flatten(env[k..]))
  }

  /** One pass of the retry loop of `updateByteBuffer` (shmem-lib.cc:112-131):
      `seq_begin`, the stores and the copy into slot `update`, `sleep(3)` (the
      others run), then the compare-and-swap from the snapshot to
      `(snapshot + 4) ^ 1`. It commits exactly the transaction on the region
      the others have left, taken from a snapshot with bit 1 clear; if it
      does not commit, it has consumed part of the schedule. */
  method TryCommit(container: Shared, update: nat, updateInt: int32, updateFloat: Fp,
                   env: seq<seq<Step>>, k: nat, ghost s0: Region, ghost done: seq<Step>, ghost r: Region)
    returns (committed: bool, start: uint32, next: nat, ghost done': seq<Step>, ghost r': Region)
    requires container.Valid() && Pending(container.State(), s0, env, k, done, r, update)
    modifies container, container.data
    ensures container.Valid() && Consistent(container.State())
    ensures k <= next <= |env| && done' == Flatten(env[..next])
    ensures k < |env| ==> k < next
    ensures Feasible(s0, done') && r' == Run(s0, done') && r'.nonrtHeld == r.nonrtHeld
    ensures ActiveSlot(r'.sequence) == 1 - update
    ensures !RtInProgress(start) && (!RtInProgress(r.sequence) ==> start == r.sequence)
    ensures committed <==> r'.sequence == start
    ensures !committed ==> k < next && Pending(container.State(), s0, env, next, done', r', update)
    ensures committed ==> !RtInProgress(r'.sequence)
    ensures committed ==> container.State() == Transaction(r', updateInt, updateFloat)
  {
    ghost var s1 := container.State();
    var k1;
    ghost var waited;
    start, k1, waited := container.SeqBegin(env, k);
    OthersAdvance(s0, env, k, k1, done, waited, r, update, s1);
    done', r' := done + waited, Run(r, waited);

    ghost var s2 := container.State();
    PrepareShadow(s2, r', update, updateInt, updateFloat, Flatten(env[k1..]));
    WriteShadow(container, update, updateInt, updateFloat);
    ghost var s3 := container.State();

    // sleep(3): the other processes run
    ghost var chunk;
    next, chunk := container.OthersRun(env, k1);
    OthersAdvance(s0, env, k1, next, done', chunk, r', update, s3);
    PreparedRun(s3, r', update, updateInt, updateFloat, chunk);
    done', r' := done' + chunk, Run(r', chunk);

    ghost var s4 := container.State();
    committed := container.CompareAndSwap(start, CommitValue(start));
    if committed {
      ShadowCommit(s4, r', update, updateInt, updateFloat);
    }
  }

  /** `Java_com_androit_SharedMem_updateByteBuffer`: the non-RT write, on the
      path where `begin_nonrt_write` takes the lock (its failure is
      `UpdateByteBufferChecked` below). Under `nonrt_wlock`, pick the slot
      that is inactive now and retry `TryCommit` until its compare-and-swap
      succeeds; then release the lock. A NULL region changes nothing. With
      the lock held, RT writers are the only other actors. The update lands
      on the region exactly as the others left it at the moment of the
      commit, which was taken with no RT write in flight, and the other slot
      becomes the active one. */
  method UpdateByteBuffer(container: Shared?, updateFloat: Fp, updateInt: int32, env: seq<seq<Step>>)
    returns (ghost used: nat)
    requires container != null ==> container.Valid() && Consistent(container.State()) && !container.nonrtWlock
    requires container != null ==> RtOnly(Flatten(env)) && Quiesces(container.State(), Flatten(env))
    modifies if container == null then {} else {container, container.data}
    ensures container != null ==> used <= |env| && container.Valid() && Consistent(container.State())
    ensures container != null ==> (|env| > 0 ==> used > 0)
    ensures container != null ==> Feasible(old(container.State()), Flatten(env[..used]))
    ensures container != null ==>
      var before := Run(old(container.State()), Flatten(env[..used]));
      !RtInProgress(before.sequence) &&
      container.State() == Transaction(before, updateInt, updateFloat).(nonrtHeld := false)
    ensures container != null ==> ActiveSlot(container.sequence) == 1 - ActiveSlot(old(container.sequence))
  {
    used := 0;
    if container == null {
      return;
    }
    var _ := container.BeginNonrtWrite(0);
    ghost var s0 := container.State();
    ShadowRun(old(container.State()), s0, 1 - ActiveSlot(s0.sequence), Flatten(env));
    var update := 1 - ActiveSlot(container.sequence);

    var k := 0;
    var committed := false;
    ghost var done: seq<Step> := [];
    ghost var r := s0;   // the region as the RT writers alone would have left it
    assert env[..0] == [] && env[0..] == env;
    while !committed
      invariant container.Valid() && Consistent(container.State())
      invariant k <= |env| && done == Flatten(env[..k])
      invariant Feasible(s0, done) && r == Run(s0, done) && r.nonrtHeld == s0.nonrtHeld
      invariant ActiveSlot(r.sequence) == 1 - update
      invariant !committed ==> Pending(container.State(), s0, env, k, done, r, update)
      invariant committed ==> (|env| > 0 ==> k > 0) && !RtInProgress(r.sequence)
      invariant committed ==> container.State() == Transaction(r, updateInt, updateFloat)
      decreases |env| - k, if committed then 0 else 1
    {
      var start;
      committed, start, k, done, r := TryCommit(container, update, updateInt, updateFloat, env, k, s0, done, r);
    }
    var _ := container.EndNonrtWrite();
    used := k;
    LockedRunAgrees(old(container.State()), s0, env, k, update, updateInt, updateFloat);
    FlattenSplit(env, k);
    RtOnlyAppend(Flatten(env[..k]), Flatten(env[k..]));
    RtRunKeepsSlots(old(container.State()), Flatten(env[..k]));
  }

  /** `updateByteBuffer` with the result of `begin_nonrt_write` checked (the
      lock call's result is `lockResult`): when the lock was not taken it
      gives up and the region is as it was; otherwise it is the transaction
      of `UpdateByteBuffer`. Only with the lock taken are RT writers the only
      other actors, so only then is the schedule required to be RT-only. */
  method UpdateByteBufferChecked(container: Shared?, updateFloat: Fp, updateInt: int32,
                                 lockResult: int32, env: seq<seq<Step>>)
    returns (ghost used: nat)
    requires container != null ==> container.Valid() && Consistent(container.State())
    requires container != null && lockResult == 0 ==>
      !container.nonrtWlock && RtOnly(Flatten(env)) && Quiesces(container.State(), Flatten(env))
    modifies if container == null then {} else {container, container.data}
    ensures container != null ==> used <= |env| && container.Valid() && Consistent(container.State())
    ensures container != null && lockResult != 0 ==> container.State() == old(container.State())
    ensures container != null && lockResult == 0 ==>
      Feasible(old(container.State()), Flatten(env[..used])) &&
      var before := Run(old(container.State()), Flatten(env[..used]));
      !RtInProgress(before.sequence) &&
      container.State() == Transaction(before, updateInt, updateFloat).(nonrtHeld := false)
  {
    used := 0;
    if container == null {
      return;
    }
    if lockResult != 0 {
      var _ := container.BeginNonrtWrite(lockResult);
      return;
    }
    used := UpdateByteBuffer(container, updateFloat, updateInt, env);
  }

  /** `offsetof(struct shared, data)` and `sizeof(struct data_struct)`, which
      depend on the compiler and the target. */
  datatype Layout = Layout(dataOffset: nat, slotSize: nat)

  /** A layout where both slots fit and the whole region is addressable with a
      `jint`. */
  predicate ValidLayout(layout: Layout) {
    layout.slotSize > 0 && layout.dataOffset + 2 * layout.slotSize < 0x8000_0000
  }

  /** The byte offset of slot `i` in the region. */
  function SlotOffset(layout: Layout, i: nat): nat {
    layout.dataOffset + i * layout.slotSize
  }

  /** `Java_com_androit_SharedMem_getActiveDataOffset` for a counter value:
      the `size_t` offset of the active slot, converted to a `jint`. */
  function ActiveDataOffset(layout: Layout, sequence: uint32): (offset: int32)
    ensures ValidLayout(layout) && ActiveSlot(sequence) == 0 ==> offset == layout.dataOffset
    ensures ValidLayout(layout) && ActiveSlot(sequence) == 1 ==> offset == layout.dataOffset + layout.slotSize
  {
    WrapInt32(layout.dataOffset + ActiveSlot(sequence) * layout.slotSize)
  }

  /** The offset points at the start of the active slot, the slot lies inside
      the region, and it does not overlap the inactive slot; reading the slot
      index back from the offset gives the active slot. */
  lemma ActiveDataOffsetSelectsActiveSlot(layout: Layout, sequence: uint32)
    requires ValidLayout(layout)
    ensures ActiveDataOffset(layout, sequence) == SlotOffset(layout, ActiveSlot(sequence))
    ensures ActiveDataOffset(layout, sequence) + layout.slotSize <= SlotOffset(layout, 2)
    ensures var other := SlotOffset(layout, 1 - ActiveSlot(sequence));
            other + layout.slotSize <= ActiveDataOffset(layout, sequence) ||
            ActiveDataOffset(layout, sequence) + layout.slotSize <= other
    ensures (ActiveDataOffset(layout, sequence) - layout.dataOffset) / layout.slotSize == ActiveSlot(sequence)
  {
    var a := ActiveSlot(sequence);
    assert (a * layout.slotSize) / layout.slotSize == a by {
      if a == 1 {
        assert a * layout.slotSize == layout.slotSize;
      } else {
        assert a * layout.slotSize == 0;
      }
    }
  }
}
