# Buffered hc2hc DIT step (FFTW `rdft/hc2hc-ditbuf.c`)

This project models the buffered decimation-in-time Cooley-Tukey step that
FFTW uses for half-complex (Hermitian-packed) real transforms of size
`n = r * m`: a radix-r step whose twiddle codelet works on a small scratch
buffer instead of on the output array directly.

The file does no arithmetic on samples. It moves them and keeps index and
stride bookkeeping, so the sample type is an opaque type parameter `T`:

- `cpy` copies an `n0 x n1` grid of (real, imaginary) pairs between two
  strided layouts. The imaginary parts are walked backwards from a mirrored
  base.
- `doit` stages `batchsz` columns in the scratch buffer, runs the codelet on
  it and copies the block back.
- `apply` makes one `cld` call. Then, for each of the `vl` transform
  instances, it applies `cld0`, hands the `(m-1)/2` middle columns to `doit`
  in batches of `BATCHSZ = 4` plus one smaller remainder batch, and applies
  `cldm` at column `m/2`.
- `applicable`, `score` and `finish` are the planner's integer and Boolean
  logic.

Modules:

- `BlockCopy` (`block_copy.dfy`): the `Layout` of a strided grid and the
  imperative `Cpy`.
- `BatchDriver` (`batch_driver.dfy`):
  - the scratch layout;
  - `Gather` and `Scatter`, which stage a block and write it back;
  - the imperative `Doit`.
- `StepApplier` (`step_applier.dfy`):
  - the calls `apply` makes, as a closed-form trace (`StepTrace`);
  - what a trace does to memory (`Step`, `Replay`);
  - the partition, cursor, twiddle and child-call properties of the trace.
- `Plans` (`plan.dfy`): the plan object as a class.
  - `Finish` writes the fields `finish` computes.
  - `Apply` runs the loops on an array. It is proved to leave memory, for
    every codelet and child plan, as replaying the calls of `StepTrace`
    leaves it.
- `BatchGeometry` (`batch_geometry.dfy`): the half-complex geometry of a
  batch. With `iios = m*os` and `os != 0`, no two locations of a batch
  coincide, and every batch fits once each instance's columns lie in memory.
- `OpCounts` (`op_counts.dfy`): the cost `finish` stores, and its
  agreement with the trace.
- `Planning` (`planning.dfy`): `applicable` and `score`, including the
  32-bit `uint` wrap-around of the remainder query.

The codelet and the child plans are not part of this model. They are
parameters:

- a codelet is a function from the staged buffer to the buffer it leaves,
  plus a function giving the twiddle position it returns;
- a child plan is a function from memory to memory;
- the capability query `okp` and the generic applicability test are a
  predicate and a boolean.

## Model

| member | source | states |
|---|---|---|
| BlockCopy.Cpy | rdft/hc2hc-ditbuf.c:32-54 | afterwards every cell (i0, i1) of the grid holds, at `rB + i0*sb0 + i1*sb1` and at the mirrored `iB - (i0*sb0 + i1*sb1)`, the source's real and imaginary parts at the corresponding source offsets; every destination location outside the grid keeps its old value |
| BlockCopy.CopyRow | rdft/hc2hc-ditbuf.c:46-52 | the inner loop: starting from cursors at the head of row i0, it extends the copied prefix from row i0 to row i0 + 1 and leaves all unvisited locations untouched |
| BatchDriver.BufferSlots | rdft/hc2hc-ditbuf.c:59 | in the scratch layout `(buf, buf + 2*b*r - 1, 1, r)` every real part lies in `[0, b*r)` and every imaginary part in `[b*r, 2*b*r)` |
| BatchDriver.BufferLayoutSound | rdft/hc2hc-ditbuf.c:59-61 | for `b <= BATCHSZ` the scratch layout fits the `r*BATCHSZ*2` buffer `apply` allocates, and no two of its locations coincide |
| BatchDriver.BufferFilled | rdft/hc2hc-ditbuf.c:59 | every slot of `[0, 2*b*r)` is a location of some cell, so the two halves fill the staged range exactly |
| BatchDriver.SlotCell | rdft/hc2hc-ditbuf.c:59 | the inverse of the scratch layout: the cell whose real part (below `b*r`) or imaginary part (from `b*r` on) sits in slot p |
| BatchDriver.SlotCellOf | rdft/hc2hc-ditbuf.c:59 | `SlotCell` recovers a cell from both of its slots |
| BatchDriver.ScatterGather | rdft/hc2hc-ditbuf.c:59-61 | copying back a staged block that the codelet left unchanged restores memory exactly |
| BatchDriver.GatherScatter | rdft/hc2hc-ditbuf.c:59-61 | for a block with distinct locations, staging the block just written back gives back the buffer that was written |
| BatchDriver.OverwritePrefix | rdft/hc2hc-ditbuf.c:60 | the codelet's output replaces the staged prefix of the buffer in place; the rest of the buffer is unchanged |
| BatchDriver.Doit | rdft/hc2hc-ditbuf.c:56-63 | afterwards the staged prefix of the buffer is the codelet's output on the gathered block, the rest of the buffer is unchanged, memory is that output scattered back, and the result is the codelet's twiddle position |
| StepApplier.BatchFrame | rdft/hc2hc-ditbuf.c:56-63 | a batch call keeps the length of memory and changes no location outside its block |
| StepApplier.BatchResult | rdft/hc2hc-ditbuf.c:56-63 | after a batch call that fits, staging its block again yields exactly what the codelet made of the block |
| StepApplier.BatchIdentity | rdft/hc2hc-ditbuf.c:59-61 | with a codelet that leaves the buffer as it found it, a batch call leaves memory unchanged |
| StepApplier.InstanceBaseIs | rdft/hc2hc-ditbuf.c:86 | the i-th instance starts at `O + i*ovs` |
| StepApplier.PartitionFacts | rdft/hc2hc-ditbuf.c:94-102 | the batch sizes for j middle columns sum to j; there are `j / BATCHSZ` full batches, then one remainder batch iff `j % BATCHSZ > 0`; every size is in `1..BATCHSZ`, and only the last one may be smaller; the k-th batch starts after `BATCHSZ*k` columns |
| StepApplier.SmallCofactor | rdft/hc2hc-ditbuf.c:94-102 | for `m <= 2` an instance makes no batch call: only `cld0` at base and `cldm` at `base + os*(m/2)` (both at base when m = 1) |
| StepApplier.InstanceShape | rdft/hc2hc-ditbuf.c:90-104 | an instance's batch calls are exactly its calls between `cld0` and `cldm`, and their sizes are the partition of `(m-1)/2` |
| StepApplier.BatchCursors | rdft/hc2hc-ditbuf.c:92-98 | the k-th batch starts at real `base + os*(1 + columns before it)` and imaginary `base + os*(r*m - 1 - columns before it)`, with inner stride `iios` and column stride `os` |
| StepApplier.TwiddleChain | rdft/hc2hc-ditbuf.c:93-102 | the first batch of every instance gets the plan's `W`; each later batch, the remainder included, gets the position the previous full batch returned |
| StepApplier.InstanceCalls | rdft/hc2hc-ditbuf.c:90-104 | one instance applies `cld0` once, `cldm` once and `cld` never |
| StepApplier.InstanceColumns | rdft/hc2hc-ditbuf.c:94-102 | the batches of one instance cover `(m-1)/2` columns |
| StepApplier.InstanceAt | rdft/hc2hc-ditbuf.c:86-105 | the calls of instance i occupy positions `[i*L, (i+1)*L)` of the instance calls and are those of one instance at `O + i*ovs` |
| StepApplier.InstancesTotals | rdft/hc2hc-ditbuf.c:86-105 | n instances make `n` calls each of `cld0` and `cldm`, none of `cld`, and batches covering `n*((m-1)/2)` columns |
| StepApplier.TraceTotals | rdft/hc2hc-ditbuf.c:72-105 | the whole trace starts with the single `cld(I, O)` call, applies `cld0` and `cldm` vl times each, and its batches cover `vl*((m-1)/2)` columns |
| StepApplier.TraceBatchSize | rdft/hc2hc-ditbuf.c:94-102 | every batch call of the trace has the size of some element of the partition |
| Plans.Plan.Finish | rdft/hc2hc-ditbuf.c:132-146 | sets `iios = m*os` and `vs = mkstride(r, 1)`; `ops` is the child costs plus the load/store term plus the codelet count times its multiplier |
| Plans.Plan.Apply | rdft/hc2hc-ditbuf.c:67-109 | for every codelet and child plan, memory ends as replaying `StepTrace` (`cld` once, then the vl instances) from the initial memory leaves it, whatever the scratch buffer held |
| Plans.ApplyEffect | rdft/hc2hc-ditbuf.c:74 | a child plan's `apply` leaves memory as its effect gives it |
| Plans.ApplyInstances | rdft/hc2hc-ditbuf.c:86-105 | after the vector loop, memory is the replay of the calls of the vl instances at `O + i*ovs` |
| Plans.NextInstance | rdft/hc2hc-ditbuf.c:86-105 | one pass of the vector loop takes memory from the replay of the first i instances to that of the first i + 1 |
| Plans.ApplyInstance | rdft/hc2hc-ditbuf.c:90-104 | after one instance, memory is the replay of `Instance(p, o)`: `cld0` in place, the batches, `cldm` in place at `o + os*(m/2)` |
| Plans.RunBatches | rdft/hc2hc-ditbuf.c:92-102 | after the batch loop and the remainder call, memory is the replay of the instance's batch calls, with the cursors and twiddle positions of the closed form |
| Plans.BatchCall | rdft/hc2hc-ditbuf.c:95-96 | one `doit` call extends the replayed prefix of the batch calls by one, and returns the codelet's next twiddle position |
| Plans.FullBatch | rdft/hc2hc-ditbuf.c:94-99 | while at least BATCHSZ columns remain, the next batch call is a full one at the current cursors and twiddle |
| Plans.LastBatch | rdft/hc2hc-ditbuf.c:100-102 | after the full batches, exactly one remainder call of the j columns left follows iff `j > 0`, and nothing else |
| BatchGeometry.CellColumns | rdft/hc2hc-ditbuf.c:92-98 | with `iios = m*os`, cell (i0, i1) of the batch after `BATCHSZ*k` columns has its real part at `base + os*(1 + BATCHSZ*k + i1 + i0*m)` and its imaginary part at `base + os*(r*m - 1 - BATCHSZ*k - i1 - i0*m)` |
| BatchGeometry.RealNotImaginary | rdft/hc2hc-ditbuf.c:92 | a real column `1 + c + i0*m` with c below `(m-1)/2` is never a mirrored imaginary column |
| BatchGeometry.RealUnique | rdft/hc2hc-ditbuf.c:92 | a real column determines its radix row and middle column |
| BatchGeometry.ImaginaryUnique | rdft/hc2hc-ditbuf.c:92 | an imaginary column determines its radix row and middle column |
| BatchGeometry.ColumnBounds | rdft/hc2hc-ditbuf.c:92 | the real and the imaginary column of every cell lie between 1 and `r*m - 1` |
| BatchGeometry.PartitionWithin | rdft/hc2hc-ditbuf.c:94-102 | the k-th batch of the partition ends within the `(m-1)/2` middle columns |
| BatchGeometry.BatchInRange | rdft/hc2hc-ditbuf.c:92-102 | with `os != 0` and `iios = m*os`, a batch within the middle columns of an instance whose columns 1 and `r*m - 1` lie in memory has all its locations in memory, pairwise distinct |
| BatchGeometry.InstanceInRange | rdft/hc2hc-ditbuf.c:90-104 | every batch call of such an instance fits memory |
| BatchGeometry.InstancesInRange | rdft/hc2hc-ditbuf.c:86-105 | the fit requirement of `Apply` holds for the first n instances once each of them spans columns inside memory |
| OpCounts.CostMatchesTrace | rdft/hc2hc-ditbuf.c:137-145 | the load/store term `4*r*((m-1)/2)*vl` is four touches per radix row of every column the trace's batches cover; the codelet multiplier is that column count over the codelet's vector length; `cld` is counted once and `cld0`, `cldm` vl times, as often as the trace calls them |
| Planning.Uint | rdft/hc2hc-ditbuf.c:121-126 | a `uint` expression's value is its mathematical value modulo 2^32; values in `[-2^32, 0)` wrap to `value + 2^32` |
| Planning.Applicable | rdft/hc2hc-ditbuf.c:111-130 | false whenever the generic test fails; equal to it when `m < BATCHSZ`; otherwise it also needs `okp` to accept the full batch and the remainder batch queries |
| Planning.CheckedSizes | rdft/hc2hc-ditbuf.c:120-126 | with `m >= BATCHSZ`, an applicable plan's `okp` accepted every batch size of the partition |
| Planning.AppliedBatchesChecked | rdft/hc2hc-ditbuf.c:120-126 | with `m >= BATCHSZ`, every batch call in the trace of an applicable plan has a size `okp` accepted |
| Planning.SmallCofactorUnchecked | rdft/hc2hc-ditbuf.c:120-126 | with m = 3, `applicable` holds whatever `okp` answers, yet each instance hands the codelet a one-column batch |
| Planning.EmptyRemainderQuery | rdft/hc2hc-ditbuf.c:123-126 | when the middle columns split into full batches only, the remainder query has imaginary offset `2^32 - 1` and width 1, a call `apply` never makes |
| Planning.ScoreOf | rdft/hc2hc-ditbuf.c:148-171 | BAD iff not applicable or (vector rank > 0 and NO_VRECURSE); GOOD iff applicable, not that case, `n > 512` and `n/radix > 4`; UGLY otherwise |
| Planning.GoodPlansChecked | rdft/hc2hc-ditbuf.c:148-171 | a GOOD plan has `m > BATCHSZ`, and every batch call it makes has a size `okp` accepted |
| Planning.ScoreMonotone | rdft/hc2hc-ditbuf.c:164-170 | with applicability and the vector flags fixed, a larger n never scores lower |

## Left out

- The codelet `k` and `okp` are generated foreign code and are parameters of the model.
  - The codelet is a function of the staged buffer, the twiddle position, the stride descriptor, the width and the radix.
  - The twiddle position it returns depends on the position, width and radix only, not on the data.
- The child plans `cld`, `cld0`, `cldm` are foreign recursive plans and are modelled as functions on memory.
- Plans.Plan.Apply, Plans.ApplyInstances, Plans.ApplyInstance and Plans.RunBatches require:
  - `m >= 1`, which every plan the planner builds meets; with m = 0 the C code's unsigned `(m-1)/2` would wrap;
  - a codelet and child plans that keep the length of memory;
  - that every batch addresses distinct in-range locations. The C code performs no such check. BatchGeometry.InstancesInRange derives this requirement from `os != 0`, the `iios = m*os` that `Finish` sets, and the first and last output column of each instance lying in memory.
- BlockCopy.Cpy and BatchDriver.Doit require distinct source and destination arrays and a destination block with distinct locations. The copy-in is then order-independent, and so is the copy-out.
- Pointers are integer offsets into one array per memory block, computed in unbounded integers.
  - The C code computes `(r*m - 1)*os` (line 92) and `os*(m/2)` (line 104) in 32-bit `uint`, because `r` and `m` are `uint`.
  - For `os >= 0` the model agrees with the C code while these products stay below 2^32.
  - For `os < 0` the products always wrap. The C address then agrees with the model's only under 32-bit address arithmetic; on a 64-bit target the C adds a large unsigned offset instead.
  - The model gives the mathematically intended addresses in both cases.
- `Step`: a batch whose block does not fit memory, or a codelet output of the wrong length, leaves memory unchanged. Callers of `Apply` exclude both, and the C code has undefined behaviour in both cases.
- `STACK_MALLOC`/`STACK_FREE` are modelled as a fresh array of `r*BATCHSZ*2` elements. `T` needs a default value to allocate it.
- `X(mkstride)` and the operation-count record are not part of this model.
  - A stride descriptor is a plain pair.
  - `ops_add`, `ops_add3`, `ops_mul`, `ops_other` are componentwise arithmetic on four natural-number counters.
- `mkplan` and `mksolver` (rdft/hc2hc-ditbuf.c:174-189) only register the solver and are not modelled. The class constructor stands in for the planner filling in the plan.
- Plans.Plan.Finish: computes `iios = m*os`, the load/store term `4*r*((m-1)/2)*vl` and the codelet multiplier `vl*((m-1)/2)/genus->vl` in unbounded integers.
  - The C code computes them in 32-bit `uint` (lines 135 and 143-144), so they wrap once a product reaches 2^32. For example, r = 2, m = 2^20 + 1, vl = 2^11 gives a load/store term of 2^33, which the C code turns into 0.
  - The `iios` product is also converted back to `int` when it is stored.
  - Finish requires `m >= 1`, as `Apply` does; with m = 0 the C code's `(m-1)/2` would be 2^31 - 1.
- `Apply` is specified on a plan whose `Finish` has run; the model does not enforce that order.
- Floating-point values and the numerical correctness of the transform are out of scope. Samples are only moved.
