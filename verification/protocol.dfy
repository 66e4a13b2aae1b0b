/**
 * The contents of `struct shared` (include/IAndroitShmem.h:48-69) as a value,
 * the atomic steps that other processes take on it, and what the protocol
 * guarantees about sequences of such steps.
 *
 * The two mutexes are modelled by whether they are held. Each step is one
 * indivisible action of another process: the halves of an RT write
 * (`begin_rt_write`, the in-place store into the active slot, `end_rt_write`)
 * and a whole uncontended non-RT transaction.
 */
module Protocol {
  import opened SeqCounter

  /** `int`. */
  type int32 = x: int | -0x8000_0000 <= x < 0x8000_0000
  /** `x` converted to an `int` on a two's-complement target. */
  function WrapInt32(x: int): (r: int32)
    ensures (r - x) % 0x1_0000_0000 == 0
    ensures -0x8000_0000 <= x < 0x8000_0000 ==> r == x
  {
    (x + 0x8000_0000) % 0x1_0000_0000 - 0x8000_0000
  }

  /** `long`. */
  type int64 = x: int | -0x8000_0000_0000_0000 <= x < 0x8000_0000_0000_0000

  /** A `float`, kept as its bit pattern: the protocol only copies it. */
  datatype Fp = Fp(bits: bv32)

  /** Length of `data_struct.arbitrary`. */
  const ARBITRARY_LEN: nat := 1024

  /** `struct data_struct`: one payload slot. */
  datatype Slot = Slot(integer: int32, fp: Fp, arbitrary: seq<int64>)

  /** `struct shared`: `protect.rt_wlock`, `protect.nonrt_wlock` (held or not),
      `protect.sequence` and the two slots `data[2]`. */
  datatype Region = Region(rtHeld: bool, nonrtHeld: bool, sequence: uint32, data: seq<Slot>)

  /** The fixed shape: two slots, each with a 1024-element array. */
  predicate WellFormed(r: Region) {
    |r.data| == 2 && |r.data[0].arbitrary| == ARBITRARY_LEN && |r.data[1].arbitrary| == ARBITRARY_LEN
  }

  /** The protocol invariant: bit 1 of the counter is set exactly while an RT
      writer holds `rt_wlock`. */
  predicate Consistent(r: Region) {
    WellFormed(r) && (RtInProgress(r.sequence) <==> r.rtHeld)
  }

  /** A successful non-RT transaction: the slot that is inactive receives the new
      `integer` and `fp` and a copy of the active slot's array, and the counter
      becomes `(start + 4) ^ 1` (shlib/shmem-lib.cc:112-131). */
  function Transaction(r: Region, integer: int32, fp: Fp): (r': Region)
    requires WellFormed(r)
    ensures WellFormed(r')
    ensures ActiveSlot(r'.sequence) == 1 - ActiveSlot(r.sequence)
    ensures RtInProgress(r'.sequence) == RtInProgress(r.sequence)
    ensures r'.data[ActiveSlot(r'.sequence)] == Slot(integer, fp, r.data[ActiveSlot(r.sequence)].arbitrary)
    ensures r'.data[ActiveSlot(r.sequence)] == r.data[ActiveSlot(r.sequence)]
    ensures r'.rtHeld == r.rtHeld && r'.nonrtHeld == r.nonrtHeld
  {
    var target := 1 - ActiveSlot(r.sequence);
    r.(sequence := CommitValue(r.sequence),
       data := r.data[target := Slot(integer, fp, r.data[1 - target].arbitrary)])
  }

  /** One indivisible action of another process. */
  datatype Step =
    | RtBegin                           // `begin_rt_write` that obtained the lock
    | RtStore(integer: int32, fp: Fp)   // that RT writer's store into the active slot
    | RtEnd                             // its `end_rt_write`
    | NonRtCommit(integer: int32, fp: Fp)  // a whole non-RT transaction of another writer

  /** Whether a step can happen now: a lock is taken only when free, only the
      holder of `rt_wlock` stores or ends, and a non-RT transaction commits
      only from a snapshot with bit 1 clear (its `seq_begin` waits for that). */
  predicate Enabled(r: Region, s: Step) {
    match s
    case RtBegin => !r.rtHeld
    case RtStore(_, _) => r.rtHeld
    case RtEnd => r.rtHeld
    case NonRtCommit(_, _) => !r.nonrtHeld && !RtInProgress(r.sequence)
  }

  function Apply(r: Region, s: Step): (r': Region)
    requires WellFormed(r) && Enabled(r, s)
    ensures WellFormed(r')
  {
    match s
    case RtBegin => r.(rtHeld := true, sequence := Add(r.sequence, 2))
    case RtStore(i, f) =>
      var a := ActiveSlot(r.sequence);
      r.(data := r.data[a := r.data[a].(integer := i, fp := f)])
    case RtEnd => r.(rtHeld := false, sequence := Add(r.sequence, 2))
    case NonRtCommit(i, f) => Transaction(r, i, f)
  }

  /** Every step of `w` is enabled when its turn comes. */
  predicate Feasible(r: Region, w: seq<Step>)
    requires WellFormed(r)
    decreases |w|
  {
    w == [] || (Enabled(r, w[0]) && Feasible(Apply(r, w[0]), w[1..]))
  }

  /** The region after the steps `w`, in order. */
  function Run(r: Region, w: seq<Step>): (r': Region)
    requires WellFormed(r) && Feasible(r, w)
    ensures WellFormed(r')
    decreases |w|
  {
    if w == [] then r else Run(Apply(r, w[0]), w[1..])
  }

  /** The steps `w` can happen and leave no RT write in flight: the other
      writers eventually stop. */
  predicate Quiesces(r: Region, w: seq<Step>)
    requires WellFormed(r)
  {
    Feasible(r, w) && !Run(r, w).rtHeld
  }

  /** Only RT writers act (the non-RT lock is held by the observer). */
  predicate RtOnly(w: seq<Step>) {
    forall i | 0 <= i < |w| :: !w[i].NonRtCommit?
  }

  /** By how much a step advances the counter before wrapping. */
  function Tick(r: Region, s: Step): nat {
    match s
    case RtBegin => 2
    case RtStore(_, _) => 0
    case RtEnd => 2
    case NonRtCommit(_, _) => if ActiveSlot(r.sequence) == 0 then 5 else 3
  }

  /** By how much the steps `w` advance the counter before wrapping. */
  function Ticks(r: Region, w: seq<Step>): nat
    requires WellFormed(r) && Feasible(r, w)
    decreases |w|
  {
    if w == [] then 0 else Tick(r, w[0]) + Ticks(Apply(r, w[0]), w[1..])
  }

  /** The schedule of other processes, cut into the chunks that run at
      successive yield points, as one sequence of steps. */
  function Flatten(env: seq<seq<Step>>): seq<Step> {
    if env == [] then [] else env[0] + Flatten(env[1..])
  }

  // ---------------------------------------------------------------------
  // Lemmas

  /** Every enabled step keeps the protocol invariant. */
  lemma ApplyConsistent(r: Region, s: Step)
    requires Consistent(r) && Enabled(r, s)
    ensures Consistent(Apply(r, s))
  {
    AddTwo(r.sequence);
  }

  /** Every feasible run keeps the protocol invariant. */
  lemma {:induction false} RunConsistent(r: Region, w: seq<Step>)
    requires Consistent(r) && Feasible(r, w)
    ensures Consistent(Run(r, w))
    decreases |w|
  {
    if w != [] {
      ApplyConsistent(r, w[0]);
      RunConsistent(Apply(r, w[0]), w[1..]);
    }
  }

  /** Running `a` then `b` is running `a + b`. */
  lemma {:induction false} RunAppend(r: Region, a: seq<Step>, b: seq<Step>)
    requires WellFormed(r)
    ensures Feasible(r, a + b) <==> Feasible(r, a) && Feasible(Run(r, a), b)
    ensures Feasible(r, a + b) ==> Run(r, a + b) == Run(Run(r, a), b)
    decreases |a|
  {
    if a == [] {
      assert a + b == b;
    } else {
      assert (a + b)[0] == a[0];
      assert (a + b)[1..] == a[1..] + b;
      if Enabled(r, a[0]) {
        RunAppend(Apply(r, a[0]), a[1..], b);
      }
    }
  }

  /** An RT write in flight means the schedule is not used up: the writer
      still has to end it. */
  lemma WaitEnds(r: Region, env: seq<seq<Step>>, k: nat)
    requires Consistent(r) && RtInProgress(r.sequence)
    requires k <= |env| && Quiesces(r, Flatten(env[k..]))
    ensures k < |env|
  {
  }

  lemma ConcatAssoc(a: seq<Step>, b: seq<Step>, c: seq<Step>)
    ensures (a + b) + c == a + (b + c)
  {
  }

  /** Flattening distributes over cutting the schedule at `k`. */
  lemma {:induction false} FlattenSplit(env: seq<seq<Step>>, k: nat)
    requires k <= |env|
    ensures Flatten(env) == Flatten(env[..k]) + Flatten(env[k..])
    decreases k
  {
    if k == 0 {
      assert env[..0] == [];
      assert env[0..] == env;
    } else {
      FlattenSplit(env[1..], k - 1);
      assert env[1..][..k - 1] == env[..k][1..];
      assert env[1..][k - 1..] == env[k..];
    }
  }

  /** The chunk at `k` follows the chunks before it. */
  lemma FlattenSnoc(env: seq<seq<Step>>, k: nat)
    requires k < |env|
    ensures Flatten(env[..k + 1]) == Flatten(env[..k]) + env[k]
  {
    FlattenSplit(env[..k + 1], k);
    assert env[..k + 1][..k] == env[..k];
    assert env[..k + 1][k..] == [env[k]];
    assert Flatten([env[k]]) == env[k] + Flatten([]);
  }

  /** The counter after a run is the counter before it plus the run's ticks,
      modulo 2^32. */
  lemma {:induction false} RunAdvancesCounter(r: Region, w: seq<Step>)
    requires WellFormed(r) && Feasible(r, w)
    ensures Run(r, w).sequence == (r.sequence + Ticks(r, w)) % MOD
    decreases |w|
  {
    if w != [] {
      var r1 := Apply(r, w[0]);
      var t, rest := Tick(r, w[0]), Ticks(r1, w[1..]);
      assert Ticks(r, w) == t + rest;
      ApplyAdvancesCounter(r, w[0]);
      RunAdvancesCounter(r1, w[1..]);
      assert Run(r, w) == Run(r1, w[1..]);
      WrapAdd(r.sequence + t, rest);
    }
  }

  /** One step advances the counter by its tick, modulo 2^32. */
  lemma ApplyAdvancesCounter(r: Region, s: Step)
    requires WellFormed(r) && Enabled(r, s)
    ensures Apply(r, s).sequence == (r.sequence + Tick(r, s)) % MOD
  {
    if s.NonRtCommit? {
      CommitAdvances(r.sequence);
    }
  }

  /** Adding after wrapping is wrapping after adding. */
  lemma WrapAdd(x: nat, t: nat)
    ensures (x % MOD + t) % MOD == (x + t) % MOD
  {
    var q := x / MOD;
    assert x == q * MOD + x % MOD;
    assert x + t == q * MOD + (x % MOD + t);
    ModShift(x % MOD + t, q);
  }

  lemma ModShift(y: nat, q: nat)
    ensures (q * MOD + y) % MOD == y % MOD
  {
    if q > 0 {
      ModShift(y, q - 1);
      assert q * MOD + y == (q - 1) * MOD + y + MOD;
    }
  }

  /** No step advances the counter by more than 5. */
  lemma {:induction false} TicksBound(r: Region, w: seq<Step>)
    requires WellFormed(r) && Feasible(r, w)
    ensures Ticks(r, w) <= 5 * |w|
    decreases |w|
  {
    if w != [] {
      TicksBound(Apply(r, w[0]), w[1..]);
    }
  }

  /** From a snapshot with no RT write in flight, every non-empty run moves the
      counter: its first step is a lock-taking begin or a commit. */
  lemma QuietRunIsEmpty(r: Region, w: seq<Step>)
    requires Consistent(r) && !RtInProgress(r.sequence) && Feasible(r, w)
    requires Ticks(r, w) == 0
    ensures w == []
  {
  }

  /** The seqlock guarantee: if a reader's snapshot had bit 1 clear and the
      counter reads the same value after the steps `w`, then (unless the counter
      wrapped all the way round) no other process acted at all, so whatever the
      reader read in between belongs to the snapshot. */
  lemma UnchangedCounterMeansNoStep(r: Region, w: seq<Step>)
    requires Consistent(r) && !RtInProgress(r.sequence) && Feasible(r, w)
    requires Run(r, w).sequence == r.sequence
    requires Ticks(r, w) < MOD
    ensures w == [] && Run(r, w) == r
  {
    RunAdvancesCounter(r, w);
    QuietRunIsEmpty(r, w);
  }

  /** RT writers keep the slot choice, both arrays, the inactive slot and the
      non-RT lock as they were. */
  lemma {:induction false} RtRunKeepsSlots(r: Region, w: seq<Step>)
    requires WellFormed(r) && RtOnly(w) && Feasible(r, w)
    ensures ActiveSlot(Run(r, w).sequence) == ActiveSlot(r.sequence)
    ensures Run(r, w).data[1 - ActiveSlot(r.sequence)] == r.data[1 - ActiveSlot(r.sequence)]
    ensures Run(r, w).data[0].arbitrary == r.data[0].arbitrary
    ensures Run(r, w).data[1].arbitrary == r.data[1].arbitrary
    ensures Run(r, w).nonrtHeld == r.nonrtHeld
    decreases |w|
  {
    if w != [] {
      AddTwo(r.sequence);
      assert !w[0].NonRtCommit?;
      var r1 := Apply(r, w[0]);
      assert RtOnly(w[1..]) by {
        forall i | 0 <= i < |w[1..]| ensures !w[1..][i].NonRtCommit? {
          assert w[1..][i] == w[i + 1];
        }
      }
      RtRunKeepsSlots(r1, w[1..]);
    }
  }

  /** What RT writers do does not depend on the inactive slot or the non-RT
      lock: running them from a region that differs only there gives the same
      result, with that slot and that lock carried through. */
  lemma {:induction false} RtRunFrame(r: Region, r2: Region, w: seq<Step>)
    requires WellFormed(r) && WellFormed(r2) && RtOnly(w) && Feasible(r, w)
    requires r2.rtHeld == r.rtHeld && r2.sequence == r.sequence
    requires r2.data[ActiveSlot(r.sequence)] == r.data[ActiveSlot(r.sequence)]
    ensures Feasible(r2, w)
    ensures Run(r2, w) == Run(r, w).(nonrtHeld := r2.nonrtHeld,
                                      data := Run(r, w).data[1 - ActiveSlot(r.sequence) := r2.data[1 - ActiveSlot(r.sequence)]])
    decreases |w|
  {
    var j := 1 - ActiveSlot(r.sequence);
    if w == [] {
      assert r2.data == r.data[j := r2.data[j]];
    } else {
      AddTwo(r.sequence);
      assert !w[0].NonRtCommit?;
      var r1, r21 := Apply(r, w[0]), Apply(r2, w[0]);
      assert ActiveSlot(r1.sequence) == ActiveSlot(r.sequence);
      assert RtOnly(w[1..]) by {
        forall i | 0 <= i < |w[1..]| ensures !w[1..][i].NonRtCommit? {
          assert w[1..][i] == w[i + 1];
        }
      }
      RtRunFrame(r1, r21, w[1..]);
    }
  }

  /** The seqlock guarantee with a bound on how much can happen: fewer than
      2^32 / 5 steps cannot bring the counter back to the same value. */
  lemma ShortRunUnchangedCounter(r: Region, w: seq<Step>)
    requires Consistent(r) && !RtInProgress(r.sequence) && Feasible(r, w)
    requires Run(r, w).sequence == r.sequence
    requires 5 * |w| < MOD
    ensures w == [] && Run(r, w) == r
  {
    TicksBound(r, w);
    UnchangedCounterMeansNoStep(r, w);
  }
}
