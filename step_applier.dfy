/**
 * The step applier (`apply` in rdft/hc2hc-ditbuf.c) as the sequence of calls
 * it makes: child-plan applications and buffered batch calls (`doit`), each
 * with the pointers and twiddle position it receives.  This module gives the
 * closed-form trace and proves the partition, cursor, twiddle and child-call
 * properties about it; `Plans.Plan.Apply` is the loop proved to produce it.
 */
module StepApplier {
  import opened BlockCopy
  import opened BatchDriver

  /** The three child plans of a buffered hc2hc plan. */
  datatype Child = Cld | Cld0 | Cldm

  /** One call made by `apply`. */
  datatype Event =
    | ChildApply(child: Child, input: int, output: int)
    | Batch(rA: int, iA: int, w: int, ios: int, dist: int, size: nat)

  /**
   * The plan fields `apply` reads: radix, cofactor, vector length, output
   * stride, output vector stride, the inner stride `iios`, the base twiddle
   * position, and the twiddle position the codelet returns for a given
   * position, width and radix.
   */
  datatype StepParams = StepParams(r: nat, m: nat, vl: nat, os: int, ovs: int, iios: int, w: int,
                                   advance: (int, int, nat) -> int)

  /** The number of middle columns an instance hands to the codelet, `(m - 1) / 2`. */
  function Pairs(m: nat): nat
    requires m >= 1
  {
    (m - 1) / 2
  }

  /** The twiddle position after k full batches of one instance. */
  function TwiddleAfter(p: StepParams, k: nat): int {
    if k == 0 then p.w else p.advance(TwiddleAfter(p, k - 1), Width(BatchSize), p.r)
  }

  /** The batch call made after k full batches of the instance at `base`. */
  function BatchAt(p: StepParams, base: int, k: nat, size: nat): Event {
    Batch(base + p.os + k * p.os * BatchSize,
          base + (p.r * p.m - 1) * p.os - k * p.os * BatchSize,
          TwiddleAfter(p, k), p.iios, p.os, size)
  }

  /**
   * The batch calls of the instance at `base`: one per element of the
   * partition of the `(m-1)/2` middle columns, in order.
   */
  function BatchCalls(p: StepParams, base: int): seq<Event>
    requires p.m >= 1
  {
    var P := Partition(Pairs(p.m));
    seq(|P|, k requires 0 <= k < |P| => BatchAt(p, base, k, P[k]))
  }

  /**
   * The calls of one transform instance at `base`: `cld0` in place, the
   * batches, `cldm` in place at column m/2.
   */
  function Instance(p: StepParams, base: int): seq<Event>
    requires p.m >= 1
  {
    [ChildApply(Cld0, base, base)] + BatchCalls(p, base)
    + [ChildApply(Cldm, base + p.os * (p.m / 2), base + p.os * (p.m / 2))]
  }

  /** The calls of the first n instances, the i-th at `O + i*ovs`. */
  function Instances(p: StepParams, O: int, n: nat): seq<Event>
    requires p.m >= 1
  {
    if n == 0 then [] else Instances(p, O, n - 1) + Instance(p, InstanceBase(p, O, n - 1))
  }

  /** All calls of `apply(I, O)`: `cld` once, then the vl instances. */
  function StepTrace(p: StepParams, I: int, O: int): seq<Event>
    requires p.m >= 1
  {
    [ChildApply(Cld, I, O)] + Instances(p, O, p.vl)
  }

  /** The layout of the block a batch call stages. */
  function BlockOf(e: Event): Layout
    requires e.Batch?
  {
    Layout(e.rA, e.iA, e.ios, e.dist)
  }

  /**
   * A batch call addresses in-bounds locations of a memory of length `len`,
   * no two of them the same.
   */
  ghost predicate BatchFits(e: Event, r: nat, len: nat) {
    e.Batch? ==> BlockOf(e).Fits(r, e.size, len) && BlockOf(e).Disjoint(r, e.size)
  }

  /** Every batch call of `calls` fits a memory of length `len`. */
  ghost predicate CallsFit(calls: seq<Event>, r: nat, len: nat)
    decreases |calls|
  {
    |calls| == 0 || (BatchFits(calls[0], r, len) && CallsFit(calls[1..], r, len))
  }

  lemma {:induction false} CallsFitAt(calls: seq<Event>, r: nat, len: nat, k: nat)
    requires CallsFit(calls, r, len) && k < |calls|
    ensures BatchFits(calls[k], r, len)
    decreases k
  {
    if k > 0 {
      CallsFitAt(calls[1..], r, len, k - 1);
    }
  }

  /** Every batch call of the instance at `base` fits a memory of length `len`. */
  ghost predicate InstanceFits(p: StepParams, base: int, len: nat)
    requires p.m >= 1
  {
    CallsFit(BatchCalls(p, base), p.r, len)
  }

  /** Where the i-th instance starts: `O` advanced by `ovs` i times. */
  function InstanceBase(p: StepParams, O: int, i: nat): int
    decreases i
  {
    if i == 0 then O else InstanceBase(p, O, i - 1) + p.ovs
  }

  /** The i-th instance starts at `O + i*ovs`. */
  lemma {:induction false} InstanceBaseIs(p: StepParams, O: int, i: nat)
    ensures InstanceBase(p, O, i) == O + i * p.ovs
  {
    if i > 0 {
      InstanceBaseIs(p, O, i - 1);
    }
  }

  /** Every one of the first n instances from `O` fits a memory of length `len`. */
  ghost predicate InstancesFit(p: StepParams, O: int, n: nat, len: nat)
    requires p.m >= 1
    decreases n
  {
    n == 0 || (InstancesFit(p, O, n - 1, len) && InstanceFits(p, InstanceBase(p, O, n - 1), len))
  }

  lemma {:induction false} InstancesFitAt(p: StepParams, O: int, n: nat, len: nat, i: nat)
    requires p.m >= 1 && InstancesFit(p, O, n, len) && i < n
    ensures InstanceFits(p, InstanceBase(p, O, i), len)
    decreases n
  {
    if i < n - 1 {
      InstancesFitAt(p, O, n - 1, len, i);
    }
  }

  // ---------------------------------------------------------------------
  // What a trace does to memory

  /** A child plan's effect on memory, given the input and output positions it is applied at. */
  type ChildEffect<!T> = (seq<T>, int, int) -> seq<T>

  /**
   * What the calls of a trace do: the effects of the three child plans, the
   * codelet, the radix and the buffer stride descriptor `doit` passes on.
   */
  datatype Machine<!T(!new)> = Machine(k: Codelet<T>, cld: ChildEffect<T>, cld0: ChildEffect<T>,
                                       cldm: ChildEffect<T>, r: nat, vs: Stride)
  {
    function Effect(c: Child): ChildEffect<T> {
      match c
      case Cld => cld
      case Cld0 => cld0
      case Cldm => cldm
    }
  }

  /**
   * Memory after one call: a child plan applies its effect; a batch call
   * stages its block, runs the codelet on the staged buffer and writes the
   * result back.  A batch whose block does not fit memory, or a codelet
   * result of the wrong length, leaves memory as it is; `apply`'s callers
   * exclude both.
   */
  ghost function Step<T(!new)>(M: Machine<T>, mem: seq<T>, e: Event): seq<T> {
    match e
    case ChildApply(c, i, o) => M.Effect(c)(mem, i, o)
    case Batch(rA, iA, w, ios, dist, size) =>
      var L := Layout(rA, iA, ios, dist);
      if L.Fits(M.r, size, |mem|) then
        var out := M.k.run(Gather(mem, L, M.r, size), w, M.vs, Width(size), M.r);
        if |out| == 2 * size * M.r then Scatter(mem, L, M.r, size, out) else mem
      else mem
  }

  /** Memory after the calls of a trace, in order. */
  ghost function Replay<T(!new)>(M: Machine<T>, t: seq<Event>, mem: seq<T>): seq<T>
    decreases |t|
  {
    if t == [] then mem else Step(M, Replay(M, t[..|t| - 1], mem), t[|t| - 1])
  }

  /** Replaying one more call applies it to where the trace left memory. */
  lemma {:induction false} ReplaySnoc<T(!new)>(M: Machine<T>, t: seq<Event>, e: Event, mem: seq<T>)
    ensures Replay(M, t + [e], mem) == Step(M, Replay(M, t, mem), e)
  {
    assert (t + [e])[..|t + [e]| - 1] == t;
  }

  /** Replaying two traces one after the other is replaying their concatenation. */
  lemma {:induction false} ReplayConcat<T(!new)>(M: Machine<T>, a: seq<Event>, b: seq<Event>, mem: seq<T>)
    ensures Replay(M, a + b, mem) == Replay(M, b, Replay(M, a, mem))
    decreases |b|
  {
    if b == [] {
      assert a + b == a;
    } else {
      var b' := b[..|b| - 1];
      var e := b[|b| - 1];
      assert b == b' + [e];
      assert a + b == (a + b') + [e];
      ReplaySnoc(M, a + b', e, mem);
      ReplayConcat(M, a, b', mem);
      ReplaySnoc(M, b', e, Replay(M, a, mem));
    }
  }

  /** A batch call changes only locations of its block. */
  lemma {:induction false} BatchFrame<T(!new)>(M: Machine<T>, mem: seq<T>, e: Event)
    requires e.Batch?
    ensures |Step(M, mem, e)| == |mem|
    ensures forall x :: 0 <= x < |mem| && !BlockOf(e).Covers(M.r, e.size, x) ==> Step(M, mem, e)[x] == mem[x]
  {
  }

  /**
   * After a batch call that fits memory, its block holds, slot by slot,
   * what the codelet made of the block as it was staged.
   */
  lemma {:induction false} BatchResult<T(!new)>(M: Machine<T>, mem: seq<T>, e: Event)
    requires e.Batch? && BatchFits(e, M.r, |mem|) && M.k.InPlace()
    ensures Gather(Step(M, mem, e), BlockOf(e), M.r, e.size)
         == M.k.run(Gather(mem, BlockOf(e), M.r, e.size), e.w, M.vs, Width(e.size), M.r)
  {
    var out := M.k.run(Gather(mem, BlockOf(e), M.r, e.size), e.w, M.vs, Width(e.size), M.r);
    GatherScatter(mem, BlockOf(e), M.r, e.size, out);
  }

  /**
   * With a codelet that leaves the staged buffer as it found it, a batch
   * call leaves memory unchanged: staging and writing back lose nothing.
   */
  lemma {:induction false} BatchIdentity<T(!new)>(M: Machine<T>, mem: seq<T>, e: Event)
    requires e.Batch?
    requires forall s, w, vs, width, radix :: M.k.run(s, w, vs, width, radix) == s
    ensures Step(M, mem, e) == mem
  {
    if BlockOf(e).Fits(M.r, e.size, |mem|) {
      ScatterGather(mem, BlockOf(e), M.r, e.size);
    }
  }

  // ---------------------------------------------------------------------
  // Observations on traces

  /** The batch calls of a trace, in order. */
  function Batches(t: seq<Event>): seq<Event> {
    if t == [] then [] else (if t[0].Batch? then [t[0]] else []) + Batches(t[1..])
  }

  /** The number of applications of child plan c in a trace. */
  function Calls(t: seq<Event>, c: Child): nat {
    if t == [] then 0 else (if t[0].ChildApply? && t[0].child == c then 1 else 0) + Calls(t[1..], c)
  }

  /** The sizes of a sequence of batch calls. */
  function Sizes(bs: seq<Event>): seq<nat> {
    seq(|bs|, k requires 0 <= k < |bs| => if bs[k].Batch? then bs[k].size else 0)
  }

  function Sum(s: seq<nat>): nat {
    if s == [] then 0 else s[0] + Sum(s[1..])
  }

  /**
   * The reference partition of j columns: j / BATCHSZ batches of BATCHSZ
   * columns, then one batch of the j % BATCHSZ columns left, if any.
   */
  function Partition(j: nat): seq<nat> {
    seq(j / BatchSize, _ => BatchSize) + (if j % BatchSize > 0 then [j % BatchSize] else [])
  }

  // ---------------------------------------------------------------------
  // Helper lemmas

  lemma {:induction false} BatchesConcat(a: seq<Event>, b: seq<Event>)
    ensures Batches(a + b) == Batches(a) + Batches(b)
  {
    if a != [] {
      assert (a + b)[1..] == a[1..] + b;
      BatchesConcat(a[1..], b);
    } else {
      assert a + b == b;
    }
  }

  lemma {:induction false} BatchesOfBatches(s: seq<Event>)
    requires forall k :: 0 <= k < |s| ==> s[k].Batch?
    ensures Batches(s) == s
  {
    if s != [] {
      BatchesOfBatches(s[1..]);
    }
  }

  lemma {:induction false} CallsConcat(a: seq<Event>, b: seq<Event>, c: Child)
    ensures Calls(a + b, c) == Calls(a, c) + Calls(b, c)
  {
    if a != [] {
      assert (a + b)[1..] == a[1..] + b;
      CallsConcat(a[1..], b, c);
    } else {
      assert a + b == b;
    }
  }

  lemma {:induction false} CallsOfBatches(s: seq<Event>, c: Child)
    requires forall k :: 0 <= k < |s| ==> s[k].Batch?
    ensures Calls(s, c) == 0
  {
    if s != [] {
      CallsOfBatches(s[1..], c);
    }
  }

  lemma {:induction false} SumConcat(a: seq<nat>, b: seq<nat>)
    ensures Sum(a + b) == Sum(a) + Sum(b)
  {
    if a != [] {
      assert (a + b)[1..] == a[1..] + b;
      SumConcat(a[1..], b);
    } else {
      assert a + b == b;
    }
  }

  lemma {:induction false} SumFull(q: nat)
    ensures Sum(seq(q, _ => BatchSize)) == BatchSize * q
  {
    if q > 0 {
      assert seq(q, _ => BatchSize) == seq(q - 1, _ => BatchSize) + [BatchSize];
      SumFull(q - 1);
      SumConcat(seq(q - 1, _ => BatchSize), [BatchSize]);
    }
  }

  lemma MulLeft(a: nat, b: nat, c: nat)
    requires a <= b
    ensures c * a <= c * b
  {
  }

  // ---------------------------------------------------------------------
  // Properties

  /**
   * The partition of j middle columns: the batch sizes add up to j; every
   * batch has between 1 and BATCHSZ columns and only the last may have
   * fewer than BATCHSZ; there are j / BATCHSZ full batches and a remainder
   * batch exactly when j % BATCHSZ is not zero; the k-th batch starts after
   * BATCHSZ * k columns.
   */
  lemma {:induction false} PartitionFacts(j: nat)
    ensures Sum(Partition(j)) == j
    ensures |Partition(j)| == j / BatchSize + (if j % BatchSize > 0 then 1 else 0)
    ensures forall k :: 0 <= k < |Partition(j)| ==> 0 < Partition(j)[k] <= BatchSize
    ensures forall k :: 0 <= k < |Partition(j)| && Partition(j)[k] < BatchSize ==> k == |Partition(j)| - 1
    ensures forall k :: 0 <= k < j / BatchSize ==> Partition(j)[k] == BatchSize
    ensures j % BatchSize > 0 <==> |Partition(j)| > j / BatchSize
    ensures forall k :: 0 <= k < |Partition(j)| ==> Sum(Partition(j)[..k]) == BatchSize * k
  {
    var q := j / BatchSize;
    var full := seq(q, _ => BatchSize);
    var rest: seq<nat> := if j % BatchSize > 0 then [j % BatchSize] else [];
    assert Partition(j) == full + rest;
    SumFull(q);
    SumConcat(full, rest);
    forall k | 0 <= k < |Partition(j)|
      ensures Sum(Partition(j)[..k]) == BatchSize * k
    {
      PrefixSum(j, k);
    }
  }

  /** The batches before the k-th one cover BATCHSZ * k columns. */
  lemma {:induction false} PrefixSum(j: nat, k: nat)
    requires k < |Partition(j)|
    ensures Sum(Partition(j)[..k]) == BatchSize * k
  {
    assert k <= j / BatchSize;
    assert Partition(j)[..k] == seq(k, _ => BatchSize);
    SumFull(k);
  }

  /**
   * One instance applies `cld0` in place at `base` first and `cldm` in place
   * at `base + os*(m/2)` last, and makes only batch calls in between, whose
   * sizes are the partition of the `(m-1)/2` middle columns.
   */
  lemma {:induction false} InstanceShape(p: StepParams, base: int)
    requires p.m >= 1
    ensures Batches(Instance(p, base)) == BatchCalls(p, base)
    ensures Sizes(BatchCalls(p, base)) == Partition(Pairs(p.m))
    ensures forall k :: 0 <= k < |BatchCalls(p, base)| ==> BatchCalls(p, base)[k].Batch?
  {
    var first := [ChildApply(Cld0, base, base)];
    var last := [ChildApply(Cldm, base + p.os * (p.m / 2), base + p.os * (p.m / 2))];
    var bs := BatchCalls(p, base);
    assert Instance(p, base) == first + bs + last;
    BatchesConcat(first + bs, last);
    BatchesConcat(first, bs);
    assert forall k :: 0 <= k < |bs| ==> bs[k].Batch?;
    BatchesOfBatches(bs);
    assert Batches(first) == [] && Batches(last) == [];
    var P := Partition(Pairs(p.m));
    assert forall k :: 0 <= k < |P| ==> Sizes(bs)[k] == P[k];
  }

  /**
   * The k-th batch of an instance starts at real column `1 + (columns of the
   * batches before it)` and at the mirrored imaginary column, counted from
   * the end `r*m - 1`; every batch uses inner stride `iios` and column
   * stride `os`.  So consecutive batches are adjacent and the real cursor
   * advances, the imaginary one retreats, by `os * BATCHSZ` per full batch.
   */
  lemma {:induction false} BatchCursors(p: StepParams, base: int, k: nat)
    requires p.m >= 1 && k < |BatchCalls(p, base)|
    ensures BatchCalls(p, base)[k].rA == base + p.os * (1 + Sum(Partition(Pairs(p.m))[..k]))
    ensures BatchCalls(p, base)[k].iA == base + p.os * (p.r * p.m - 1 - Sum(Partition(Pairs(p.m))[..k]))
    ensures BatchCalls(p, base)[k].ios == p.iios && BatchCalls(p, base)[k].dist == p.os
  {
    PrefixSum(Pairs(p.m), k);
    CursorOffset(p.os, k);
  }

  lemma CursorOffset(os: int, k: nat)
    ensures k * os * BatchSize == os * (BatchSize * k)
  {
  }

  /**
   * Twiddle threading within an instance: the first batch receives the
   * plan's base twiddle position, and every later batch, the remainder
   * included, receives what the codelet returned for the batch before it
   * (a full batch, so at width `2*BATCHSZ + 1`).
   */
  lemma {:induction false} TwiddleChain(p: StepParams, base: int)
    requires p.m >= 1
    ensures |BatchCalls(p, base)| > 0 ==> BatchCalls(p, base)[0].w == p.w
    ensures forall k :: 0 < k < |BatchCalls(p, base)| ==>
      BatchCalls(p, base)[k].w == p.advance(BatchCalls(p, base)[k - 1].w, Width(BatchSize), p.r)
  {
  }

  /** With m at most 2 there are no middle columns, so an instance makes no batch call. */
  lemma SmallCofactor(p: StepParams, base: int)
    requires 1 <= p.m <= 2
    ensures Instance(p, base) == [ChildApply(Cld0, base, base),
                                  ChildApply(Cldm, base + p.os * (p.m / 2), base + p.os * (p.m / 2))]
    ensures p.m == 1 ==> Instance(p, base) == [ChildApply(Cld0, base, base), ChildApply(Cldm, base, base)]
  {
  }

  /** Every instance makes the same number of calls, whatever its base. */
  lemma {:induction false} InstanceLength(p: StepParams, base: int)
    requires p.m >= 1
    ensures |Instance(p, base)| == 2 + |Partition(Pairs(p.m))|
  {
  }

  /** Indexing the n-th block of length L appended to n - 1 such blocks. */
  lemma BlockIndex(before: seq<Event>, last: seq<Event>, L: nat, n: nat, i: nat, t: nat)
    requires n >= 1 && |before| == (n - 1) * L && |last| == L && i < n && t < L
    ensures |before + last| == n * L && i * L + t < n * L
    ensures i < n - 1 ==> i * L + t < |before| && (before + last)[i * L + t] == before[i * L + t]
    ensures i == n - 1 ==> (before + last)[i * L + t] == last[t]
  {
    MulSucc(n, L);
    MulSucc(i + 1, L);
    MulLeft(i + 1, n, L);
    if i < n - 1 {
      MulLeft(i + 1, n - 1, L);
    }
  }

  lemma MulSucc(n: nat, a: nat)
    requires n >= 1
    ensures n * a == (n - 1) * a + a
  {
  }

  /**
   * The i-th instance occupies positions [i*L, (i+1)*L) of the instances'
   * calls, L being the length of one instance, and sits at `O + i*ovs`.
   */
  lemma {:induction false} InstanceAt(p: StepParams, O: int, n: nat, i: nat, t: nat)
    requires p.m >= 1 && i < n && t < 2 + |Partition(Pairs(p.m))|
    ensures |Instances(p, O, n)| == n * (2 + |Partition(Pairs(p.m))|)
    ensures i * (2 + |Partition(Pairs(p.m))|) + t < n * (2 + |Partition(Pairs(p.m))|)
    ensures Instances(p, O, n)[i * (2 + |Partition(Pairs(p.m))|) + t] == Instance(p, InstanceBase(p, O, i))[t]
  {
    var L := 2 + |Partition(Pairs(p.m))|;
    var before := Instances(p, O, n - 1);
    var inst := Instance(p, InstanceBase(p, O, n - 1));
    assert Instances(p, O, n) == before + inst;
    InstanceLength(p, InstanceBase(p, O, n - 1));
    if n > 1 {
      InstanceAt(p, O, n - 1, if i < n - 1 then i else 0, t);
    }
    BlockIndex(before, inst, L, n, i, t);
  }

  /**
   * Over a whole `apply`: the trace starts with the single `cld` call on
   * (I, O); `cld0` and `cldm` are each applied once per instance; the batch
   * calls cover `vl * ((m-1)/2)` columns in all.
   */
  lemma {:induction false} TraceTotals(p: StepParams, I: int, O: int)
    requires p.m >= 1
    ensures StepTrace(p, I, O)[0] == ChildApply(Cld, I, O)
    ensures Calls(StepTrace(p, I, O), Cld) == 1
    ensures Calls(StepTrace(p, I, O), Cld0) == p.vl
    ensures Calls(StepTrace(p, I, O), Cldm) == p.vl
    ensures Sum(Sizes(Batches(StepTrace(p, I, O)))) == p.vl * Pairs(p.m)
  {
    InstancesTotals(p, O, p.vl);
    TotalsAppend([ChildApply(Cld, I, O)], Instances(p, O, p.vl));
    assert Batches([ChildApply(Cld, I, O)]) == [];
  }

  /** One instance applies `cld0` and `cldm` once each and never `cld`. */
  lemma {:induction false} InstanceCalls(p: StepParams, base: int, c: Child)
    requires p.m >= 1
    ensures Calls(Instance(p, base), c) == if c == Cld then 0 else 1
  {
    var first := [ChildApply(Cld0, base, base)];
    var last := [ChildApply(Cldm, base + p.os * (p.m / 2), base + p.os * (p.m / 2))];
    var bs := BatchCalls(p, base);
    InstanceShape(p, base);
    CallsConcat(first + bs, last, c);
    CallsConcat(first, bs, c);
    CallsOfBatches(bs, c);
  }

  /** The batches of one instance cover its `(m-1)/2` middle columns. */
  lemma {:induction false} InstanceColumns(p: StepParams, base: int)
    requires p.m >= 1
    ensures Sum(Sizes(Batches(Instance(p, base)))) == Pairs(p.m)
  {
    InstanceShape(p, base);
    PartitionFacts(Pairs(p.m));
  }

  /** Appending a trace adds up the child calls and the batch columns. */
  lemma {:induction false} TotalsAppend(a: seq<Event>, b: seq<Event>)
    ensures forall c :: Calls(a + b, c) == Calls(a, c) + Calls(b, c)
    ensures Sum(Sizes(Batches(a + b))) == Sum(Sizes(Batches(a))) + Sum(Sizes(Batches(b)))
  {
    forall c {
      CallsConcat(a, b, c);
    }
    BatchesConcat(a, b);
    assert Sizes(Batches(a) + Batches(b)) == Sizes(Batches(a)) + Sizes(Batches(b));
    SumConcat(Sizes(Batches(a)), Sizes(Batches(b)));
  }

  lemma {:induction false} InstancesTotals(p: StepParams, O: int, n: nat)
    requires p.m >= 1
    ensures Calls(Instances(p, O, n), Cld) == 0
    ensures Calls(Instances(p, O, n), Cld0) == n
    ensures Calls(Instances(p, O, n), Cldm) == n
    ensures Sum(Sizes(Batches(Instances(p, O, n)))) == n * Pairs(p.m)
  {
    if n > 0 {
      var before := Instances(p, O, n - 1);
      var base := InstanceBase(p, O, n - 1);
      var inst := Instance(p, base);
      InstancesTotals(p, O, n - 1);
      InstanceCalls(p, base, Cld);
      InstanceCalls(p, base, Cld0);
      InstanceCalls(p, base, Cldm);
      InstanceColumns(p, base);
      assert Instances(p, O, n) == before + inst;
      TotalsAppend(before, inst);
      MulSucc(n, Pairs(p.m));
    }
  }

  /** A batch call at position t of an instance is its (t-1)-th batch. */
  lemma {:induction false} InstanceBatchSize(p: StepParams, base: int, t: nat)
    requires p.m >= 1 && t < |Instance(p, base)| && Instance(p, base)[t].Batch?
    ensures 1 <= t <= |Partition(Pairs(p.m))|
    ensures Instance(p, base)[t].size == Partition(Pairs(p.m))[t - 1]
  {
    assert Instance(p, base)[t] == BatchCalls(p, base)[t - 1];
  }

  /** Every batch call among the first n instances has the size of an element of the partition. */
  lemma {:induction false} InstancesBatchSize(p: StepParams, O: int, n: nat, x: nat) returns (k: nat)
    requires p.m >= 1 && x < |Instances(p, O, n)| && Instances(p, O, n)[x].Batch?
    ensures k < |Partition(Pairs(p.m))| && Instances(p, O, n)[x].size == Partition(Pairs(p.m))[k]
  {
    var before := Instances(p, O, n - 1);
    var last := Instance(p, InstanceBase(p, O, n - 1));
    assert Instances(p, O, n) == before + last;
    if x < |before| {
      assert Instances(p, O, n)[x] == before[x];
      k := InstancesBatchSize(p, O, n - 1, x);
    } else {
      assert Instances(p, O, n)[x] == last[x - |before|];
      InstanceBatchSize(p, InstanceBase(p, O, n - 1), x - |before|);
      k := x - |before| - 1;
    }
  }

  /**
   * Every batch call of the trace has the size of some element k of the
   * partition of the middle columns.
   */
  lemma {:induction false} TraceBatchSize(p: StepParams, I: int, O: int, q: nat) returns (k: nat)
    requires p.m >= 1 && q < |StepTrace(p, I, O)| && StepTrace(p, I, O)[q].Batch?
    ensures k < |Partition(Pairs(p.m))| && StepTrace(p, I, O)[q].size == Partition(Pairs(p.m))[k]
  {
    assert q >= 1 && StepTrace(p, I, O)[q] == Instances(p, O, p.vl)[q - 1];
    k := InstancesBatchSize(p, O, p.vl, q - 1);
  }
}
