/**
 * The buffered hc2hc plan object (rdft/hc2hc-ditbuf.c): the fields `finish`
 * fills in and the loop structure of `apply`.
 */
module Plans {
  import opened BatchDriver
  import opened StepApplier
  import opened OpCounts

  /** What the codelet descriptor contributes to the plan's cost: its count and vector length. */
  datatype CodeletDesc = CodeletDesc(ops: Ops, genusVl: nat)

  /** A child plan: its effect on memory and its operation count. */
  datatype ChildPlan<!T(!new)> = ChildPlan(effect: ChildEffect<T>, ops: Ops) {
    /** The child writes within memory: its effect keeps the length. */
    ghost predicate Sound() {
      LengthPreserving(effect)
    }
  }

  /**
   * A buffered hc2hc plan.  The constant fields are those the planner sets;
   * `iios`, `vs` and `ops` are the fields `finish` computes.
   */
  class Plan<T(0,!new)> {
    const r: nat
    const m: nat
    const vl: nat
    const os: int
    const ovs: int
    /** The twiddle table position `apply` starts every instance from. */
    const W: int
    const k: Codelet<T>
    const desc: CodeletDesc
    const cld: ChildPlan<T>
    const cld0: ChildPlan<T>
    const cldm: ChildPlan<T>
    var iios: int
    var vs: Stride
    var ops: Ops

    constructor (r: nat, m: nat, vl: nat, os: int, ovs: int, W: int, k: Codelet<T>,
                 desc: CodeletDesc, cld: ChildPlan<T>, cld0: ChildPlan<T>, cldm: ChildPlan<T>)
      ensures this.r == r && this.m == m && this.vl == vl && this.os == os && this.ovs == ovs
      ensures this.W == W && this.k == k && this.desc == desc
      ensures this.cld == cld && this.cld0 == cld0 && this.cldm == cldm
    {
      this.r, this.m, this.vl, this.os, this.ovs, this.W := r, m, vl, os, ovs, W;
      this.k, this.desc := k, desc;
      this.cld, this.cld0, this.cldm := cld, cld0, cldm;
      iios := 0;
      vs := Stride(0, 0);
      ops := Ops(0, 0, 0, 0);
    }

    /** The fields `apply` reads, as the trace specification takes them. */
    function Params(): StepParams
      reads this
    {
      StepParams(r, m, vl, os, ovs, iios, W, k.advance)
    }

    /** What the calls of `apply` do to memory with this plan's children and codelet. */
    function Machine(): Machine<T>
      reads this
    {
      StepApplier.Machine(k, cld.effect, cld0.effect, cldm.effect, r, vs)
    }

    /**
     * `finish`: the stride between batch rows is `m*os`, the buffer stride
     * descriptor is `mkstride(r, 1)`, and the cost is the child plans' costs,
     * the load/store term and the codelet's cost times its call count.
     */
    method Finish()
      requires m >= 1 && desc.genusVl > 0
      modifies this
      ensures iios == m * os && vs == Stride(r, 1)
      ensures ops == FinishOps(cld.ops, cld0.ops, cldm.ops, r, m, vl, desc.genusVl, desc.ops)
    {
      iios := m * os;
      vs := Stride(r, 1);
      ops := FinishOps(cld.ops, cld0.ops, cldm.ops, r, m, vl, desc.genusVl, desc.ops);
    }

    /**
     * `apply(I, O)`: applies `cld` once, then runs the vl transform instances,
     * the i-th at `O + i*ovs`, with one scratch buffer of `r * BATCHSZ * 2`
     * elements.  The calls made are the trace the specification gives, and
     * memory ends as replaying that trace leaves it.  The caller guarantees
     * that every batch addresses distinct locations within memory.
     */
    method Apply(mem: array<T>, I: int, O: int) returns (ghost trace: seq<Event>)
      requires m >= 1 && k.InPlace() && cld.Sound() && cld0.Sound() && cldm.Sound()
      requires InstancesFit(Params(), O, vl, mem.Length)
      modifies mem
      ensures trace == StepTrace(Params(), I, O)
      ensures mem[..] == Replay(Machine(), trace, old(mem[..]))
    {
      var p := Params();
      var M := Machine();
      ghost var mem0 := mem[..];
      ApplyEffect(cld.effect, mem, I, O);
      ChildStep(M, mem0, Cld, I, O);
      ReplaySnoc(M, [], ChildApply(Cld, I, O), mem0);
      var buf := new T[ScratchSize(r)];
      ghost var rest := ApplyInstances(mem, buf, O, p, M);
      ReplayConcat(M, [ChildApply(Cld, I, O)], rest, mem0);
      trace := [ChildApply(Cld, I, O)] + rest;
    }
  }

  /** A child effect that keeps the length of memory. */
  ghost predicate LengthPreserving<T(!new)>(f: ChildEffect<T>) {
    forall s, i, o :: |f(s, i, o)| == |s|
  }

  /**
   * The parameters and the machine describe the same plan (same radix,
   * same codelet), whose cofactor is positive and whose codelet keeps the
   * length of the buffer it is handed.
   */
  ghost predicate Agree<T(!new)>(p: StepParams, M: Machine<T>) {
    p.m >= 1 && p.r == M.r && p.advance == M.k.advance && M.k.InPlace()
  }

  /** `Agree`, and both per-instance child plans keep the length of memory. */
  ghost predicate Ready<T(!new)>(p: StepParams, M: Machine<T>) {
    Agree(p, M) && LengthPreserving(M.cld0) && LengthPreserving(M.cldm)
  }

  /** A child plan's `apply` on memory. */
  method ApplyEffect<T(!new)>(f: ChildEffect<T>, mem: array<T>, input: int, output: int)
    requires LengthPreserving(f)
    modifies mem
    ensures mem[..] == f(old(mem[..]), input, output)
  {
    var res := f(mem[..], input, output);
    OverwritePrefix(mem, res);
    assert mem[..] == mem[..|res|];
  }

  /** The vector loop of `apply`: the vl instances, the i-th at `O + i*ovs`. */
  method ApplyInstances<T(!new)>(mem: array<T>, buf: array<T>, O: int, p: StepParams, M: Machine<T>)
    returns (ghost calls: seq<Event>)
    requires Ready(p, M)
    requires mem != buf && buf.Length == ScratchSize(p.r)
    requires InstancesFit(p, O, p.vl, mem.Length)
    modifies mem, buf
    ensures calls == Instances(p, O, p.vl)
    ensures mem[..] == Replay(M, calls, old(mem[..]))
  {
    ghost var mem0 := mem[..];
    var o := O;
    var i := 0;
    while i < p.vl
      invariant 0 <= i <= p.vl && o == InstanceBase(p, O, i)
      invariant mem[..] == Replay(M, Instances(p, O, i), mem0)
    {
      NextInstance(mem, buf, O, i, o, p, M, mem0);
      i := i + 1;
      o := o + p.ovs;
    }
    calls := Instances(p, O, p.vl);
  }

  /** Instance i of the vector loop, at `o`, carries memory from the first i instances to the first i + 1. */
  method NextInstance<T(!new)>(mem: array<T>, buf: array<T>, ghost O: int, ghost i: nat, o: int, p: StepParams,
                               M: Machine<T>, ghost mem0: seq<T>)
    requires Ready(p, M) && mem != buf && buf.Length == ScratchSize(p.r)
    requires i < p.vl && InstancesFit(p, O, p.vl, mem.Length) && o == InstanceBase(p, O, i)
    requires mem[..] == Replay(M, Instances(p, O, i), mem0)
    modifies mem, buf
    ensures mem[..] == Replay(M, Instances(p, O, i + 1), mem0)
  {
    InstancesFitAt(p, O, p.vl, mem.Length, i);
    var more := ApplyInstance(mem, buf, o, p, M);
    assert Instances(p, O, i + 1) == Instances(p, O, i) + more;
    ReplayConcat(M, Instances(p, O, i), more, mem0);
  }

  /**
   * The body of `apply`'s vector loop for the instance at `o`: applies
   * `cld0` in place, runs the batches over the middle columns, then
   * applies `cldm` in place at column m/2.
   */
  method ApplyInstance<T(!new)>(mem: array<T>, buf: array<T>, o: int, p: StepParams, M: Machine<T>)
    returns (ghost calls: seq<Event>)
    requires Ready(p, M)
    requires mem != buf && buf.Length == ScratchSize(p.r)
    requires InstanceFits(p, o, mem.Length)
    modifies mem, buf
    ensures calls == Instance(p, o)
    ensures mem[..] == Replay(M, calls, old(mem[..]))
  {
    ghost var mem0 := mem[..];
    ApplyEffect(M.cld0, mem, o, o);
    ChildStep(M, mem0, Cld0, o, o);
    ReplaySnoc(M, [], ChildApply(Cld0, o, o), mem0);
    ghost var first := [ChildApply(Cld0, o, o)];

    ghost var batches := RunBatches(mem, buf, o, p, M);
    ReplayConcat(M, first, batches, mem0);
    ghost var mem2 := mem[..];

    var middle := o + p.os * (p.m / 2);
    ghost var last := ChildApply(Cldm, middle, middle);
    ApplyEffect(M.cldm, mem, middle, middle);
    ChildStep(M, mem2, Cldm, middle, middle);
    ReplaySnoc(M, first + batches, last, mem0);
    calls := first + batches + [last];
  }

  /**
   * The batch loops of `apply` for the instance at `o`: hands the
   * `(m-1)/2` middle columns to `doit` in batches of BATCHSZ and the rest
   * in one smaller batch, the real cursor moving forward and the imaginary
   * cursor backward from the mirrored end, the twiddle position threading
   * through the full batches.
   */
  method RunBatches<T(!new)>(mem: array<T>, buf: array<T>, o: int, p: StepParams, M: Machine<T>)
    returns (ghost calls: seq<Event>)
    requires Agree(p, M)
    requires mem != buf && buf.Length == ScratchSize(p.r)
    requires InstanceFits(p, o, mem.Length)
    modifies mem, buf
    ensures calls == BatchCalls(p, o)
    ensures mem[..] == Replay(M, calls, old(mem[..]))
  {
    ghost var mem0 := mem[..];
    var r, m, os, ios := p.r, p.m, p.os, p.iios;
    var rA := o + os;
    var iA := o + (r * m - 1) * os;
    var w := p.w;
    var j := (m - 1) / 2;
    ghost var done: nat := 0;
    while j >= BatchSize
      invariant 0 <= j && j + BatchSize * done == Pairs(m)
      invariant rA == o + os + done * os * BatchSize
      invariant iA == o + (r * m - 1) * os - done * os * BatchSize
      invariant w == TwiddleAfter(p, done)
      invariant done <= |BatchCalls(p, o)|
      invariant mem[..] == Replay(M, BatchCalls(p, o)[..done], mem0)
    {
      FullBatch(p, o, done, j);
      CursorStep(os, done);
      assert BatchCalls(p, o)[done] == Batch(rA, iA, w, ios, os, BatchSize);
      w := BatchCall(mem, buf, o, p, M, done, rA, iA, w, BatchSize, mem0);
      rA := rA + os * BatchSize;
      iA := iA - os * BatchSize;
      j := j - BatchSize;
      done := done + 1;
    }
    LastBatch(p, o, done, j);
    if j > 0 {
      assert BatchCalls(p, o)[done] == Batch(rA, iA, w, ios, os, j);
      var _ := BatchCall(mem, buf, o, p, M, done, rA, iA, w, j, mem0);
      assert BatchCalls(p, o)[..done + 1] == BatchCalls(p, o);
    } else {
      assert BatchCalls(p, o)[..done] == BatchCalls(p, o);
    }
    calls := BatchCalls(p, o);
  }

  /** A child call applies that child's effect. */
  lemma ChildStep<T(!new)>(M: Machine<T>, mem: seq<T>, c: Child, input: int, output: int)
    ensures c == Cld ==> Step(M, mem, ChildApply(c, input, output)) == M.cld(mem, input, output)
    ensures c == Cld0 ==> Step(M, mem, ChildApply(c, input, output)) == M.cld0(mem, input, output)
    ensures c == Cldm ==> Step(M, mem, ChildApply(c, input, output)) == M.cldm(mem, input, output)
  {
  }

  /** What `Doit` leaves in memory is the effect of its batch call. */
  lemma DoitStep<T(!new)>(M: Machine<T>, before: seq<T>, e: Event, after: seq<T>, out: seq<T>)
    requires e.Batch? && BlockOf(e).Fits(M.r, e.size, |before|)
    requires out == M.k.run(Gather(before, BlockOf(e), M.r, e.size), e.w, M.vs, Width(e.size), M.r)
    requires |out| == 2 * e.size * M.r && after == Scatter(before, BlockOf(e), M.r, e.size, out)
    ensures after == Step(M, before, e)
  {
  }

  /**
   * One `doit` call of the instance at `o`, the batch call after `done`
   * others: memory goes from where the first `done` batch calls leave it
   * to where the first `done + 1` leave it, and the twiddle position
   * returned is the codelet's next one.
   */
  method BatchCall<T(!new)>(mem: array<T>, buf: array<T>, ghost o: int, p: StepParams, M: Machine<T>, ghost done: nat,
                            rA: int, iA: int, w: int, size: nat, ghost mem0: seq<T>)
    returns (next: int)
    requires Agree(p, M)
    requires mem != buf && buf.Length == ScratchSize(p.r) && size <= BatchSize
    requires InstanceFits(p, o, mem.Length)
    requires done < |BatchCalls(p, o)| && BatchCalls(p, o)[done] == Batch(rA, iA, w, p.iios, p.os, size)
    requires mem[..] == Replay(M, BatchCalls(p, o)[..done], mem0)
    modifies mem, buf
    ensures mem[..] == Replay(M, BatchCalls(p, o)[..done + 1], mem0)
    ensures next == p.advance(w, Width(size), p.r)
  {
    ghost var e := Batch(rA, iA, w, p.iios, p.os, size);
    CallsFitAt(BatchCalls(p, o), p.r, mem.Length, done);
    ghost var before := mem[..];
    next := Doit(M.k, mem, rA, iA, w, p.iios, p.os, p.r, size, buf, M.vs);
    DoitStep(M, before, e, mem[..], buf[..2 * size * p.r]);
    assert BatchCalls(p, o)[..done + 1] == BatchCalls(p, o)[..done] + [e];
    ReplaySnoc(M, BatchCalls(p, o)[..done], e, mem0);
  }

  /** A full batch extends the prefix of the batch calls by one call of BATCHSZ columns. */
  lemma FullBatch(p: StepParams, o: int, done: nat, j: int)
    requires p.m >= 1 && j >= BatchSize && j + BatchSize * done == Pairs(p.m)
    ensures done < |BatchCalls(p, o)| && BatchCalls(p, o)[done] == BatchAt(p, o, done, BatchSize)
    ensures BatchCalls(p, o)[..done + 1] == BatchCalls(p, o)[..done] + [BatchAt(p, o, done, BatchSize)]
  {
    PartitionFacts(Pairs(p.m));
    assert done < Pairs(p.m) / BatchSize;
    assert BatchCalls(p, o)[..done + 1] == BatchCalls(p, o)[..done] + [BatchCalls(p, o)[done]];
  }

  lemma CursorStep(os: int, done: nat)
    ensures (done + 1) * os * BatchSize == done * os * BatchSize + os * BatchSize
  {
  }

  /**
   * After the full batches, the batch calls end with one batch of the `j`
   * columns left when `j > 0`, and with nothing more otherwise.
   */
  lemma LastBatch(p: StepParams, o: int, done: nat, j: nat)
    requires p.m >= 1 && j < BatchSize && j + BatchSize * done == Pairs(p.m)
    ensures j > 0 ==> done < |BatchCalls(p, o)| && BatchCalls(p, o)[done] == BatchAt(p, o, done, j)
    ensures j > 0 ==> BatchCalls(p, o) == BatchCalls(p, o)[..done] + [BatchAt(p, o, done, j)]
    ensures j == 0 ==> BatchCalls(p, o) == BatchCalls(p, o)[..done]
  {
    PartitionFacts(Pairs(p.m));
    assert done == Pairs(p.m) / BatchSize && j == Pairs(p.m) % BatchSize;
    if j > 0 {
      assert BatchCalls(p, o) == BatchCalls(p, o)[..done] + [BatchCalls(p, o)[done]];
    }
  }
}
