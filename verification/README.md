# rlink, modelled and proved in Dafny

rlink is a stream engine: programs are graphs of operators, compiled to tasks that run on
workers and exchange records, watermarks and barriers over channels. This project models its
five hardest parts and proves what they promise over every input, every interleaving and every
reachable state.

1. **Event-time windows.** Watermark generators and assigners, key-by, the watermark minimum over
   parents, sliding windows, the late check, keyed window state, drop and emission. One reduce task
   is a machine over its events (`WindowReduce`), refined by objects that update maps in place
   (`KeyedState`, `ReduceRunnables`). The whole system, N assigners and M reduce tasks over FIFO
   channels, is a machine over arbitrary interleavings (`Aggregation`); its main theorem is
   `BatchGroupBy.EqualsBatchGroupBy`.
2. **Barriers and checkpoints.** Alignment over N parents, the cut it makes through any task graph
   and which snapshots are taken (`BarrierSnapshots`), the reduce operator's completed checkpoints,
   alone and behind alignment in the distributed aggregation (`AggregationCheckpoints`), and the
   coordinator's collection. Alignment does not block fast channels, so the cut is an at-least-once
   one.
3. **The DAG compiler.** Stream graph, jobs, the parallelism fixpoint, job edges, tasks, channels,
   sender tables, chains and workers, each as an object or loop like the source's, and
   `DagCompiler.Compile` as all of them in a row. `StreamLaws` says on the graph alone what each
   call of a program puts where.
4. **Wire format and pull protocol.** Byte-exact encoders and decoders on buffers, frames, the
   server's batches and the client's loop, and lossless FIFO delivery over whole runs.
5. **Percentile histogram.** Big-endian counters in a byte array, binary search, and a scan that
   returns an order statistic.

Where the source walks a hash map, the model takes the entries in an arbitrary order and the result
is proved for all of them. `panic!`, `unwrap` on nothing, `unreachable!` and `unimplemented!` are a
`Panic` outcome where they can occur and an `assert false` where they are proved not to. The reduce
function, the key selector and the hash are parameters; clock readings are inputs. Watermarks and
timestamps are natural numbers.

Some promises hold only under a condition, which is then stated exactly, with an input that fails it:
the running maximum of a parent's watermarks (`LatestIsRunningMax`, `UncomparedMarkersGoBack`), the
order of an assigner's output after the end flag (`OrderedIffNothingFallsBehind`,
`EndFlagDoesNotMoveTheWatermark`), the end of the parallelism loop (`BuildParallelism` and
`PassesNeverEnd`, `OpenProgramHasUnsetRoot`), a search that visits nothing twice
(`VisitedOnceIffTree`, `DiamondIsVisitedTwice`), tasks that get a chain (`EveryTaskIsChained`,
`LoneJobIsLost`), the batch size of a request (`PullIsLossless`, `LargestBatchIsUnreachable`).

`dafny verify dfyconfig.toml` checks the project.

## Model

| member | source | states |
|---|---|---|
| `Windows.NewSlidingWindows` | rlink/src/functions/window/mod.rs:34-50 | an assigner exists exactly for a positive size and an offset smaller than the slide, which is all that the other statements require of it; other parameters are the panic |
| `Windows.AssignWindows` | rlink/src/functions/window/mod.rs:53-77 | the loop that steps `start` down, clamps the last start at 0, skips negative starts and sorts, computes `Assigned`; it terminates |
| `Windows.CollectWindows` | rlink/src/functions/window/mod.rs:61-72 | the loop before the sort: exactly the windows of `Assigned`, with distinct starts |
| `Windows.AssignedExact` | rlink/src/functions/window/mod.rs:53-77 | the assigned windows are, in increasing order and without repeats, all and only the windows of the right size with a non-negative start congruent to the offset modulo the slide that contain the timestamp; when the aligned start is negative, only [0, size), exactly if it contains the timestamp |
| `Windows.AlignedStart` | rlink/src/core/window.rs:42-46 | the start computed with a truncating remainder is the last one at or before the timestamp that is congruent to the offset |
| `Windows.FirstStartMonotone` | rlink/src/functions/window/mod.rs:53-77 | the first window start of a timestamp is monotone in the timestamp |
| `Windows.EveryTimestampHasAWindow` | rlink/src/functions/window/mod.rs:34-77 | with a slide of at most the size every timestamp has a window |
| `Windows.OnTimeIsAccepted` | rlink/src/runtime/worker/runnable/reduce_runnable.rs:83-98 | a record at or after a watermark passes the expiry check against that watermark's first window |
| `Windows.AcceptedWindowOutlivesLimit` | rlink/src/functions/system/window_base_reduce.rs:100-108 | no window of an accepted record is one that the watermark drops: the late check and the drop rule agree |
| `Windows.FirstStartIsWithinOneSize` | rlink/src/functions/window/mod.rs:53-77 | a timestamp's first window starts less than one size before it |
| `WatermarkGenerators.EventMovesCore` | rlink/src/functions/watermark/bounded_out_of_orderness_watermarks.rs:24-38 | an event raises the largest timestamp of the wrapped bounded generator and an emitted watermark is that timestamp minus the bound and one, or the idle marker, through any nesting of wrappers |
| `WatermarkGenerators.EmitKeepsCore` | rlink/src/functions/watermark/watermarks_with_idleness.rs:33-80 | a periodic emission never changes the wrapped bounded generator, and what is emitted is its watermark or the idle marker |
| `WatermarkGenerators.IdleMarkerIff` | rlink/src/functions/watermark/watermarks_with_idleness.rs:27-81 | at any depth of any nest, over any run of calls, the idle marker is emitted if and only if an emission has noticed the last event and more than the timeout has passed, in 64 bits, since the first emission after that; otherwise the answer is that of the generator inside |
| `WatermarkGenerators.EarlyWatermarkIff` | rlink/src/functions/watermark/time_periodic_watermarks.rs:40-68 | at any depth of any nest, over any run of calls, an event is answered if and only if the generator inside answers it, or the event period has passed since the last marked event and the processing period has not |
| `WatermarkGenerators.WatermarkGenerator.PeriodicEmit` | rlink/src/functions/watermark/watermarks_with_idleness.rs:33-80 | the boxed generator objects, updated in place through the nesting, compute the value-level emission and its new state |
| `WatermarkGenerators.WatermarkGenerator.Event` | rlink/src/functions/watermark/time_periodic_watermarks.rs:40-68 | the same for an event: counters, period marks and the largest timestamp are updated in place |
| `WatermarkAssigner.WatermarkAssignerRunnable.UpdateProgress` | rlink/src/runtime/worker/runnable/watermark_assigner_runnable.rs:55-62 | takes over a watermark that stands for a time; the idle marker leaves its own in place |
| `WatermarkAssigner.WatermarkAssignerRunnable.RunElement` | rlink/src/runtime/worker/runnable/watermark_assigner_runnable.rs:88-136 | one element through the assigner object: dropped, forwarded with its timestamp set, or answered with a watermark, as the machine `Process` says |
| `WatermarkAssigner.ProcessKeepsLag` | rlink/src/runtime/worker/runnable/watermark_assigner_runnable.rs:88-136 | whatever the element, the assigner's watermark stays at most the largest timestamp minus the bound until the end of the stream |
| `WatermarkAssigner.RunKeepsLag` | rlink/src/runtime/worker/runnable/watermark_assigner_runnable.rs:88-136 | the same over every run and every nesting of generators |
| `WatermarkAssigner.WatermarkIsLastSent` | rlink/src/runtime/worker/runnable/watermark_assigner_runnable.rs:55-136 | until the end of the stream the assigner's watermark is the last one it has sent |
| `WatermarkAssigner.SendsExactly` | rlink/src/runtime/worker/runnable/watermark_assigner_runnable.rs:88-136 | what the next input makes the assigner send, before the end and for every nesting: an open status is preceded by the largest timestamp minus the bound and one, a record that the generator answers is followed by it, with the idle marker it is the last watermark again, and a record behind the last watermark is dropped |
| `WatermarkAssigner.GeneratorFollowsRun` | rlink/src/runtime/worker/runnable/watermark_assigner_runnable.rs:88-136 | the generator has been called once for each record and once for each open status, in order, so its laws over calls are laws about the assigner's run |
| `WatermarkAssigner.IdleSourceRepeats` | rlink/src/runtime/worker/runnable/watermark_assigner_runnable.rs:119-136 | an idle source, by the clock readings of the run, sends its last watermark again |
| `WatermarkAssigner.OutputIsOrdered` | rlink/src/runtime/worker/runnable/watermark_assigner_runnable.rs:55-136 | for every nesting of the built-in generators, watermarks sent before the end of a stream never decrease and no forwarded record is older than an earlier watermark |
| `WatermarkAssigner.OrderedIffNothingFallsBehind` | rlink/src/runtime/worker/runnable/watermark_assigner_runnable.rs:88-136 | for every nesting and every input without watermarks the output is in order if and only if, after an end flag, no record at or above the assigner's own watermark is older than the largest watermark and no record or open status makes the assigner send a smaller one |
| `WatermarkAssigner.TimelyRecordIsForwarded` | rlink/src/runtime/worker/runnable/watermark_assigner_runnable.rs:88-118 | a record at most the bound behind the largest earlier timestamp is never dropped |
| `WatermarkAssigner.EndFlagDoesNotMoveTheWatermark` | rlink/src/runtime/worker/runnable/watermark_assigner_runnable.rs:119-123 | an input that fails it: the largest watermark sent at the end of the stream is not recorded, so a record after the end is forwarded behind it |
| `WatermarkManager.Manager.Apply` | rlink/src/runtime/worker/runnable/source_runnable.rs:472-500 | updates the parent task's entry and emits the minimum over the dependent tasks once all have an entry; without parents it passes the watermark on, and an unknown parent is the panic |
| `WatermarkManager.Manager.MinWatermark` | rlink/src/runtime/worker/runnable/source_runnable.rs:502-529 | the nested loops compute the least entry, or nothing while one is missing |
| `WatermarkManager.Manager.JobCheck` | rlink/src/runtime/worker/runnable/source_runnable.rs:531-556 | a stream status from a task that has sent no watermark removes its job from the table; a task number out of range is the panic |
| `WatermarkManager.LatestIsRunningMax` | rlink/src/runtime/worker/runnable/source_runnable.rs:430-447 | an entry is the running maximum of what its task has sent, at every point, if and only if the markers above the largest watermark come in order |
| `WatermarkManager.UncomparedMarkersGoBack` | rlink/src/runtime/worker/runnable/source_runnable.rs:430-447 | a run in which they do not, and the entry goes back |
| `WatermarkManager.TableFollowsHistory` | rlink/src/runtime/worker/runnable/source_runnable.rs:472-556 | after any run of watermarks and job removals each entry is determined by what its own task has sent |
| `WatermarkManager.JobRemainsIff` | rlink/src/runtime/worker/runnable/source_runnable.rs:531-556 | after any run a job is in the table if and only if it was there and none of its tasks has sent a status before its first watermark |
| `WatermarkManager.OutputIsLeastRunningMax` | rlink/src/runtime/worker/runnable/source_runnable.rs:472-529 | the output is the minimum, over the dependent tasks of the jobs that remain by that condition on the run, of the running maximum each has sent, and there is none until all have sent one |
| `WatermarkManager.OutputNeverDecreases` | rlink/src/runtime/worker/runnable/source_runnable.rs:430-556 | the output never decreases over a run, also when jobs are removed, if removed jobs send nothing more |
| `KeyedState.MergeAllPointwise` | rlink/src/storage/keyed_state/mem_window_state.rs:72-89 | merging a record touches its key in its windows and nothing else |
| `KeyedState.MemoryWindowState.MergeValue` | rlink/src/storage/keyed_state/mem_window_state.rs:30-61 | one window: the reduce function is applied to the old value, or to none for a new key or window |
| `KeyedState.MemoryWindowState.Merge` | rlink/src/storage/keyed_state/mem_window_state.rs:72-89 | the loop over the location windows computes `MergeAll` |
| `KeyedState.MemoryWindowState.DropWindow` | rlink/src/storage/keyed_state/mem_window_state.rs:91-100 | takes the window out of the live map and parks it; every other window stays |
| `KeyedState.DropWindowStorage.AppendDropWindow` | rlink/src/storage/keyed_state/mem_storage.rs:27-39 | parks one window's state and leaves the rest of the global map alone |
| `KeyedState.DropWindowStorage.RemoveDropWindow` | rlink/src/storage/keyed_state/mem_storage.rs:41-54 | takes a parked state out once; a missing one is reported |
| `KeyedState.Iterate` | rlink/src/storage/keyed_state/mod.rs:36-49 | the iterator yields every pair of the map once, in the order of the key bytes |
| `ReduceRunnables.WindowBaseReduceFunction.Reduce` | rlink/src/functions/system/window_base_reduce.rs:81-98 | filters the recovered windows and merges, as the machine `Arrive` says |
| `ReduceRunnables.WindowBaseReduceFunction.DropStateTo` | rlink/src/functions/system/window_base_reduce.rs:100-141 | drops the windows that end by the watermark, parks them, marks them in every tracked checkpoint and returns triggers in the order of their ends |
| `ReduceRunnables.WindowBaseReduceFunction.DropEnded` | rlink/src/functions/system/window_base_reduce.rs:100-141 | the loop over the ended windows |
| `ReduceRunnables.WindowBaseReduceFunction.Snapshot` | rlink/src/functions/system/window_base_reduce.rs:183-230 | records the live windows, reports the greatest completed checkpoint, forgets completed ones and the oldest above one hundred |
| `ReduceRunnables.ReduceRunnable.OnRecord` | rlink/src/runtime/worker/runnable/reduce_runnable.rs:81-109 | an accepted record is reduced; an expired one adds one to the expired counter and changes nothing else |
| `ReduceRunnables.ReduceRunnable.OnWatermark` | rlink/src/runtime/worker/runnable/reduce_runnable.rs:110-132 | the limit becomes the watermark's first window, ended windows are dropped and a trigger is sent on for each |
| `ReduceRunnables.ReduceRunnable.OnBarrier` | rlink/src/runtime/worker/runnable/reduce_runnable.rs:133-190 | takes the snapshot, remembers the completed checkpoint, and passes the barrier on with the greater of the completed id it carries and the one just found |
| `ReduceRunnables.KeyedStateFlatMap.FlatMapElement` | rlink/src/functions/system/keyed_state_flat_map.rs:47-68 | a record with values, one without a trigger window and any other element are the panics; a trigger takes its parked state out and emits exactly its pairs, by key; a second one for the same window emits nothing; other owners' state stays |
| `WindowReduce.AlwaysPlaced` | rlink/src/functions/system/window_base_reduce.rs:81-141 | every run keeps live, parked and emitted windows apart, on the right sides of the limit, with the trigger queue naming exactly the parked ones |
| `WindowReduce.NeverReopened` | rlink/src/runtime/worker/runnable/reduce_runnable.rs:83-98 | in every run with non-decreasing watermarks no accepted record is in a window already dropped, a window is dropped at most once, parking overwrites nothing and every trigger finds its state |
| `WindowReduce.StepFolds` | rlink/src/storage/keyed_state/mem_window_state.rs:30-100 | every step keeps the value of every window and key at the fold of its records |
| `WindowReduce.HoldsFold` | rlink/src/storage/keyed_state/mem_window_state.rs:30-100 | over every run the value of a window and key, wherever it is, is the fold of the accepted, non-skipped records in arrival order |
| `WindowReduce.StateRefinesFold` | rlink/src/functions/system/keyed_state_flat_map.rs:47-68 | live state, parked state and output are disjoint by window and together hold exactly those folds, and nothing else |
| `ReduceCheckpoints.CompletionIsDownwardClosed` | rlink/src/functions/system/window_base_reduce.rs:183-230 | among tracked checkpoints, if one is complete so is every earlier one |
| `ReduceCheckpoints.AlwaysNested` | rlink/src/functions/system/window_base_reduce.rs:120-126 | in every run a later tracked checkpoint waits for at least the windows that an earlier one waits for |
| `ReduceCheckpoints.TrackedAreBounded` | rlink/src/functions/system/window_base_reduce.rs:212-221 | at most one hundred uncompleted checkpoints are kept |
| `ReduceCheckpoints.TrackedAreTruthful` | rlink/src/functions/system/window_base_reduce.rs:120-126 | in every run a window of a tracked checkpoint is marked if and only if it was live at its snapshot and has been dropped since |
| `ReduceCheckpoints.TrackedAreWaiting` | rlink/src/functions/system/window_base_reduce.rs:183-230 | in every run the tracked checkpoints are, from the run alone, those not yet over at the last barrier, less the oldest at every barrier that found more than a hundred |
| `ReduceCheckpoints.ReportedIsTruthful` | rlink/src/functions/system/window_base_reduce.rs:183-230 | a checkpoint is reported completed only when every window live at its snapshot has since been dropped |
| `ReduceCheckpoints.ReportedStrictlyIncrease` | rlink/src/functions/system/window_base_reduce.rs:183-230 | the reported ids strictly increase over the run |
| `ReduceCheckpoints.ReportIsGreatest` | rlink/src/functions/system/window_base_reduce.rs:183-230 | a barrier reports the greatest of the checkpoints waited for, its own included, all of whose windows have been dropped; nothing if there is none |
| `ReduceCheckpoints.CompletedIsReported` | rlink/src/functions/system/window_base_reduce.rs:183-230 | conversely, once every window live at a checkpoint's barrier has been dropped, the next barrier reports it or a later one, unless one before has or the bound of a hundred gave it up as the oldest |
| `AggregationResults.Reachable` | rlink/src/runtime/worker/runnable/reduce_runnable.rs:79-129 | the invariant of the whole system, N assigners and M reduce tasks over FIFO channels, in every state that any interleaving reaches |
| `AggregationResults.NoForwardedRecordExpires` | rlink/src/runtime/worker/runnable/reduce_runnable.rs:83-88 | every record that passed an assigner is accepted at its reduce task, for any interleaving of the channels |
| `AggregationResults.EmittedIsFoldOfForwarded` | rlink/src/functions/system/window_base_reduce.rs:81-141 | every result is the fold of all records of its key and window that the assigners forwarded, each source's in order, and comes from the owner of the key |
| `AggregationResults.EmittedAtMostOnce` | rlink/src/runtime/worker/runnable/key_by_runnable.rs:67-89 | a window and key are emitted at most once in the whole system |
| `BatchGroupBy.EverythingIsEmitted` | rlink/src/runtime/worker/runnable/reduce_runnable.rs:110-132 | after the end of the stream every window up to the last watermark's first window that holds a record has been emitted |
| `BatchGroupBy.FoldBySource` | rlink/src/functions/system/window_base_reduce.rs:81-98 | with an order-insensitive reduce function the interleaving of the sources does not matter: the fold is that of one source after the other |
| `BatchGroupBy.EqualsBatchGroupBy` | rlink/src/functions/system/window_base_reduce.rs:81-141 | with an order-insensitive reduce function, at the end of any run a reduce task has emitted a value for a window and key if and only if it owns the key and the value is that of the batch group-by |
| `BatchGroupBy.CoversAllButTheLastSize` | rlink/src/runtime/worker/runnable/reduce_runnable.rs:110-132 | this covers every window that ends at least one size before the largest watermark |
| `BarrierAlignment.AlignManager.ApplyBarrier` | rlink/src/runtime/worker/runnable/source_runnable.rs:388-413 | counts arrivals per id as `Apply` does; a stale id is answered no, and one arrival too many is the panic |
| `BarrierAlignment.AlignmentIsExact` | rlink/src/runtime/worker/runnable/source_runnable.rs:378-414 | with increasing ids per parent `unreachable!` is never reached, and an arrival aligns its id if and only if every parent has sent that id and none a greater one |
| `BarrierAlignment.FiresInOrder` | rlink/src/runtime/worker/runnable/source_runnable.rs:388-413 | alignment fires at most once per id and in strictly increasing order |
| `AggregationCheckpoints.TaskIsRun` | rlink/src/runtime/worker/runnable/reduce_runnable.rs:79-190 | a reduce task of the distributed system is the machine `WindowReduce` run on the events the system hands it |
| `AggregationCheckpoints.PassedBarriersAreAligned` | rlink/src/runtime/worker/runnable/source_runnable.rs:276-292 | with an alignment manager in front of every reduce task and sources that inject barriers with increasing ids, in every interleaving no manager reaches `unreachable!`, and a barrier is let through only after it has been read from every source and after all smaller ones |
| `AggregationCheckpoints.SystemReportsIncrease` | rlink/src/functions/system/window_base_reduce.rs:183-230 | so the checkpoints that a reduce task of the system reports as completed strictly increase |
| `AggregationCheckpoints.SystemReportsAreTruthful` | rlink/src/functions/system/window_base_reduce.rs:183-230 | and a reported checkpoint is over: its barrier has been read from every source, and every window live in the task at that barrier has been dropped since |
| `AggregationCheckpoints.SystemReportsAreComplete` | rlink/src/functions/system/window_base_reduce.rs:183-230 | and every checkpoint of the system that is over is reported, unless the bound gave it up |
| `BarrierCut.Reachable` | rlink/src/runtime/worker/runnable/source_runnable.rs:276-292 | in every run of every task graph no task panics, and every channel holds exactly the barriers its parent fired |
| `BarrierCut.AtLeastOnceCut` | rlink/src/runtime/worker/runnable/sink_runnable.rs:85-118 | if a task has taken its snapshot for a checkpoint, so has every task on every path to it, and on each channel all that was sent before the sender's snapshot was read before the receiver's |
| `BarrierCut.SnapshotsInOrder` | rlink/src/runtime/worker/runnable/source_runnable.rs:276-292 | every task takes its snapshots once per id, in strictly increasing order |
| `BarrierSnapshots.SnapshotIffAligned` | rlink/src/runtime/worker/runnable/source_runnable.rs:276-292 | in every run a task with parents takes a snapshot exactly for the ids that were aligned: at the arrival of one of its barriers every parent had sent the id and none a greater one |
| `BarrierSnapshots.SnapshotIffTicked` | rlink/src/runtime/worker/runnable/source_runnable.rs:147-166 | and a task without parents exactly for the ids of its timer |
| `BarrierSnapshots.TakenWhenArrived` | rlink/src/runtime/worker/runnable/source_runnable.rs:276-292 | so a task has taken the snapshot of a checkpoint whose barrier it has read from every parent, if none has sent a greater one |
| `BarrierSnapshots.TakenEverywhere` | rlink/src/runtime/worker/runnable/sink_runnable.rs:85-118 | and once the sources have taken a checkpoint, none a later one, and every channel of an acyclic graph has been read, every task has taken it |
| `CheckpointCoordinator.CheckpointAlignManager.ApplyReport` | rlink/src/runtime/coordinator/checkpoint_manager.rs:134-205 | stale, current and newer reports, an unknown operator and the save when all operators are aligned |
| `CheckpointCoordinator.CheckpointAlignManager.NextCheckpoint` | rlink/src/runtime/coordinator/checkpoint_manager.rs:222-239 | a newer id clears every operator's reports |
| `CheckpointCoordinator.AlwaysRefines` | rlink/src/runtime/coordinator/checkpoint_manager.rs:40-56 | after any sequence of distinct reports for known operators the current id is the greatest seen and the stored reports are exactly those with that id |
| `CheckpointCoordinator.OrderIndependent` | rlink/src/runtime/coordinator/checkpoint_manager.rs:134-239 | two orders of the same reports leave the same id and the same reports |
| `CheckpointCoordinator.SavedExactlyWhenComplete` | rlink/src/runtime/coordinator/checkpoint_manager.rs:160-205 | a report saves a checkpoint if and only if it completes the greatest id seen, and what is saved has one id and exactly one report for each task of each operator |
| `CheckpointCoordinator.SavedIdsIncrease` | rlink/src/runtime/coordinator/checkpoint_manager.rs:134-205 | saved ids strictly increase, so nothing is saved twice |
| `StreamGraph.RawStreamGraph.AddOperator0` | rlink/src/dag/stream_graph.rs:136-206 | appends a node with the next id, inserts an edge from each parent, in order, none of which the graph library refuses, and keeps the list of sources |
| `StreamGraph.RawStreamGraph.AddOperator` | rlink/src/dag/stream_graph.rs:208-332 | an operator joins its parent's pipeline, is split off behind a virtual sink and source, or connects several parents; a refused one leaves the graph unchanged, and the call panics if and only if a parent's id that is looked up has not been handed out |
| `StreamGraph.RawStreamGraph.AddConnect` | rlink/src/dag/stream_graph.rs:256-331 | virtual sinks below all parents and, below a reduce, a job of its own before the connect; an id not handed out when its turn comes is the panic |
| `StreamGraph.SourceIdsExact` | rlink/src/dag/stream_graph.rs:197-202 | the list of sources holds exactly the sources, by increasing id |
| `StreamGraph.AddedKeepsGood` | rlink/src/dag/stream_graph.rs:208-332 | every call keeps the shape: edges go up, a source hangs below sinks only, any other operator below one operator that is no sink, a sink feeds at most one operator, a source with several parents is followed by its connect |
| `StreamGraph.EveryProgramIsGood` | rlink/src/dag/stream_graph.rs:136-332 | so every sequence of calls that do not panic, with non-sink parents of a connect, builds a graph of that shape |
| `StreamLaws.CallAddsItsOperator` | rlink/src/dag/stream_graph.rs:208-332 | a call of a program is accepted exactly for a first source, for an operator that is no source below one that is no sink, and for a connect; then what is there stays and the operator asked for comes last; a refused call changes nothing |
| `StreamLaws.JoinsParentIff` | rlink/src/dag/stream_graph.rs:218-255 | below one parent the operator is in its parent's job if and only if the table of pipelines and the parallelisms allow it, with the greater parallelism; otherwise exactly a sink of the parent's parallelism, a source and, below a reduce, a flat map come before it, in a job of its own parallelism |
| `StreamLaws.ConnectReadsParents` | rlink/src/dag/stream_graph.rs:256-331 | the source of a connect reads from a sink below each parent that is no reduce and last from the relay job of the last reduce, and from nothing else; the parallelism is that asked for, or that of the last parent if there is a reduce |
| `StreamLaws.ReducesAreDrained` | rlink/src/dag/stream_graph.rs:247-252 | in the graph of every program each source that reads from a sink below a reduce is followed by a flat map of its own, which takes the parked state out |
| `StreamGraph.PathsGoUp` | rlink/src/dag/stream_graph.rs:189-192 | every path of stream edges goes to larger ids, so the library does not refuse the edge from any operator to a new one |
| `JobNodeBuilders.BuildJobNode` | rlink/src/dag/job_graph.rs:179-228 | the walk from a source to its sink: its operators, their greatest parallelism, the job id and the children, or which error |
| `JobNodeBuilders.JobNodeBuilder.BuildJobNodes` | rlink/src/dag/job_graph.rs:150-177 | fails if and only if some source does not reach a sink; otherwise one job per source, each with its parents in order |
| `JobGraph.JobsPartition` | rlink/src/dag/job_graph.rs:179-228 | an operator is in the job of its root and in no other, and once |
| `JobGraph.JobRunsFromSourceToSink` | rlink/src/dag/job_graph.rs:187-219 | a job has one source, its first operator, and one sink, its last |
| `JobGraph.JobEdgesGoUp` | rlink/src/dag/job_graph.rs:199-206 | a job feeds at most one job, which has a larger id |
| `JobGraph.JobEdgeOfSink` | rlink/src/dag/job_graph.rs:320-328 | the sink a source hangs below is the last operator of exactly one job, which feeds the source's job |
| `JobGraph.SeveralParentsMeanConnect` | rlink/src/dag/job_graph.rs:278-299 | a job with several parents holds the connect operator |
| `JobNodeBuilders.BuiltIsWired` | rlink/src/dag/job_graph.rs:261-318 | what the walk builds is what the fixpoint needs: `unimplemented!` is unreachable and the left parent is the job of the sink listed last |
| `JobNodeBuilders.JobNodeBuilder.GetJobIdBySink` | rlink/src/dag/job_graph.rs:320-328 | finds the job that ends in the sink, in whatever order the map is walked |
| `JobNodeBuilders.JobNodeBuilder.GetParentJobId` | rlink/src/dag/job_graph.rs:312-318 | the left parent: its `unwrap` never fails |
| `JobNodeBuilders.JobNodeBuilder.GetParentParallelism0` | rlink/src/dag/job_graph.rs:261-310 | returns 0 always, changes no set job and none with a larger id, and sets the job if its left parent was set |
| `JobNodeBuilders.JobNodeBuilder.GetParentParallelism` | rlink/src/dag/job_graph.rs:234-259 | a pass keeps set jobs and, when every parentless job has a parallelism, strictly reduces the number of unset ones |
| `JobNodeBuilders.JobNodeBuilder.BuildParallelism` | rlink/src/dag/job_graph.rs:230-232 | then the loop ends, and every job has its own parallelism or else that of its left parent |
| `JobNodeBuilders.UnsetRootStaysUnset` | rlink/src/dag/job_graph.rs:234-310 | a parentless job that begins without parallelism has none in any state of the loop |
| `JobNodeBuilders.JobNodeBuilder.RunPasses` | rlink/src/dag/job_graph.rs:230-259 | with such a job each of any number of passes finds unset jobs |
| `JobNodeBuilders.PassesNeverEnd` | rlink/src/dag/job_graph.rs:230-259 | so the condition of `BuildParallelism` is exact: on any graph with a parentless source job of parallelism 0 no number of passes ends the loop |
| `JobNodeBuilders.OpenProgramHasUnsetRoot` | rlink/src/dag/stream_graph.rs:208-233 | and such a graph is built by the program of one source and one sink that both leave their parallelism open |
| `JobNodeBuilders.ResolvedOfBuilt` | rlink/src/dag/job_graph.rs:230-310 | the result read off the stream graph: own parallelism, or that of the job of the sink listed last |
| `JobNodeBuilders.OwnParallelismIsGreatest` | rlink/src/dag/job_graph.rs:179-228 | a job's own parallelism is the greatest among its operators |
| `JobNodeBuilders.Build` | rlink/src/dag/job_graph.rs:144-148 | both phases: succeeds if and only if every source reaches a sink, and yields every job with its operators, children and positive parallelism |
| `JobEdges.JobDag.BuildJobEdge` | rlink/src/dag/job_graph.rs:90-125 | one job's edges, each with its kind; `JobNotFound` cannot occur |
| `JobEdges.JobDag.BuildJobEdges` | rlink/src/dag/job_graph.rs:81-88 | fails if and only if a reduce job feeds a job of another parallelism; otherwise there is exactly one edge per child |
| `JobEdges.JobDag.AddFitting` | rlink/src/dag/job_graph.rs:119-121 | no job edge closes a cycle: `WouldCycle` is unreachable |
| `JobEdges.ForwardMeansEqual` | rlink/src/dag/job_graph.rs:103-117 | a `Forward` edge joins jobs of equal parallelism and never leads to a reduce job |
| `Dags.ClimbingNeverCycles` | rlink/src/dag/execution_graph.rs:144-159 | an edge that climbs in a graph whose edges all climb is never refused |
| `ExecutionGraph.ExecutionDag.BuildNodes` | rlink/src/dag/execution_graph.rs:52-113 | one task per job and number; fails if and only if a parallelism is 0 or a source makes the wrong number of splits |
| `ExecutionGraph.ExecutionDag.BuildEdges` | rlink/src/dag/execution_graph.rs:115-168 | two tasks are joined if and only if their jobs are, and across `Forward` their numbers are equal; the kind is that of the job edge; indexing stays in bounds and no edge closes a cycle |
| `ExecutionGraph.ParentCount` | rlink/src/dag/execution_graph.rs:138-163 | a task has one parent in a job that forwards to its own, and as many as the parallelism of one that rebalances |
| `ExecutionGraph.ChildrenOfTask` | rlink/src/dag/execution_graph.rs:138-163 | a task's child across `Forward` has its own number; across `ReBalance` all tasks of the job are its children |
| `Routing.OpenNetwork` | rlink/src/functions/system/system_output_format.rs:106-146 | panics if and only if totals differ or a job's targets are not all there; otherwise each job's senders are its tasks in order |
| `Routing.OpenMemory` | rlink/src/functions/system/system_output_format.rs:74-104 | panics if and only if a number differs or a job has several targets |
| `Routing.SystemOutputFormat.Open` | rlink/src/functions/system/system_output_format.rs:31-148 | the sender table for any set of children, and exactly when there is none |
| `Routing.OpenTask` | rlink/src/functions/system/system_output_format.rs:31-148 | for the children of a task in the execution graph opening never panics, `lost task` included |
| `Routing.SystemOutputFormat.WriteElement` | rlink/src/functions/system/system_output_format.rs:152-192 | panics if and only if the partition, or 0 through memory, has no sender in some child job; otherwise sends each child job's sender at that index a copy of the element with all its fields, through memory with the channel's key |
| `Routing.SenderExistsIff` | rlink/src/functions/system/system_output_format.rs:177-190 | a partition selects a sender if and only if it is below the child's parallelism |
| `Routing.KeyedRecordHasASender` | rlink/src/runtime/worker/runnable/key_by_runnable.rs:76-84 | so after key-by every record has one, whether the child job is joined by `Forward` or `ReBalance`: the task of its own number, or the one that its hash names |
| `Routing.KeyByRunnable.Run` | rlink/src/runtime/worker/runnable/key_by_runnable.rs:67-89 | sets a record's partition to its hash modulo the parallelism of the child job, or to 0 without a hash, and keeps every other field; other elements pass; a size of 0 is the panic |
| `Routing.SendKeyed` | rlink/src/functions/system/system_output_format.rs:152-192 | key-by and sink together: a record reaches exactly one task, that of its own number or that named by hash modulo parallelism, with all its fields and its partition set |
| `Routing.OwnerIsSelected` | rlink/src/runtime/worker/runnable/key_by_runnable.rs:67-89 | the owner of a key in the distributed aggregation is the task that key-by and sink select |
| `Routing.Broadcast` | rlink/src/runtime/worker/runnable/sink_runnable.rs:101-118 | a watermark, status or barrier reaches every task of the child job exactly once, in order, with all its fields and that task's partition; across `Forward` the one counterpart |
| `PhysicGraph.Dag.GetParents` | rlink/src/dag/physic_graph.rs:167-190 | removes the memory edges into a task and returns one parent for each |
| `PhysicGraph.Dag.GetChildren` | rlink/src/dag/physic_graph.rs:192-215 | the same for children |
| `PhysicGraph.Dag.Search` | rlink/src/dag/physic_graph.rs:144-165 | on any graph the search ends, removes edges among visited tasks only, leaves none at them, visits one task more than it removes edges, and only tasks connected to the start |
| `PhysicGraph.FoundIsComponent` | rlink/src/dag/physic_graph.rs:144-165 | the visited tasks are the connected component of the start |
| `PhysicGraph.VisitedOnceIffTree` | rlink/src/dag/physic_graph.rs:144-165 | no task is visited twice if and only if the connected component of the start has one task more than edges; this holds when every task has at most one memory child |
| `PhysicGraph.DiamondIsVisitedTwice` | rlink/src/dag/physic_graph.rs:144-165 | a graph that fails it: in a diamond of four tasks every search visits some task twice |
| `PhysicGraph.MergeForwardTask` | rlink/src/dag/physic_graph.rs:78-142 | the chains are disjoint components and hold all tasks if there are no edges, else exactly the tasks with an edge |
| `TaskAllocation.FirstJobIsLeast` | rlink/src/dag/physic_graph.rs:16-24 | a chain is named by its smallest job id |
| `TaskAllocation.PhysicalGraph.Build` | rlink/src/dag/physic_graph.rs:69-76 | chains are grouped by that id, in order |
| `TaskAllocation.PhysicalGraph.AllocByInstance` | rlink/src/dag/physic_graph.rs:39-67 | whatever the order of the groups, the chains are dealt round robin |
| `TaskAllocation.LinkedOnSameWorker` | rlink/src/dag/physic_graph.rs:48-64 | both ends of a memory edge are on the same worker |
| `TaskAllocation.Balanced` | rlink/src/dag/physic_graph.rs:48-53 | the numbers of chains of two workers differ by at most one |
| `TaskAllocation.Allocate` | rlink/src/dag/physic_graph.rs:39-142 | every chained task is on exactly one worker, once when each task has at most one memory child |
| `DagCompiler.MemoryEdgesAreForest` | rlink/src/dag/execution_graph.rs:138-148 | which is the case for every execution graph built from a program |
| `DagCompiler.EveryTaskIsChained` | rlink/src/dag/physic_graph.rs:92-116 | if there is no edge or every job has one, every task is chained |
| `DagCompiler.LoneJobIsLost` | rlink/src/dag/physic_graph.rs:92-116 | a job without an edge beside joined ones gets no chain |
| `DagCompiler.CompileJobs` | rlink/src/dag/job_graph.rs:69-125 | from the program to joined jobs: succeeds if and only if every source reaches a sink and no reduce job feeds a job of another parallelism; then every job has its resolved parallelism, there is exactly one edge per job and child job of the program, and its kind is `Forward` or `ReBalance` as the two jobs say |
| `DagCompiler.CompileTasks` | rlink/src/dag/execution_graph.rs:43-50 | from the joined jobs to the workers, with exactly when it fails |
| `DagCompiler.Compile` | rlink/src/dag/physic_graph.rs:69-76 | the whole compiler: succeeds if and only if every source reaches a sink, no reduce job feeds a job of another parallelism and every source makes as many splits as its job has tasks; then the job edges are exactly those of the program, tasks are joined as the job edges say, and every task is placed on exactly one worker, once, with memory neighbours together, unless a job stands alone beside joined ones |
| `WireBuffers.SerializeElement` | rlink/src/core/element.rs:651-658 | appends `Serialize` to the buffer, whatever the element |
| `WireBuffers.DeserializeElement` | rlink/src/core/element.rs:660-681 | consumes the buffer as `Deserialize` says; short or mislabelled input is the panic, and so is input left after a record's values; bytes after a watermark, status or barrier are accepted |
| `WireBuffers.WriteRequest` | rlink/src/pub_sub/network/mod.rs:29-42 | the request frame; the length assertion holds |
| `WireBuffers.ReadRequest` | rlink/src/pub_sub/network/mod.rs:44-69 | the request, the error for an illegal length, or the panic |
| `WireBuffers.WriteResponse` | rlink/src/pub_sub/network/mod.rs:132-164 | the response frame, or the panic for a missing element |
| `WireBuffers.ReadResponse` | rlink/src/pub_sub/network/mod.rs:166-186 | the response, the error for an unknown code, or the panic |
| `Codec.ElementRoundTrip` | rlink/src/core/element.rs:225-266 | an element decodes to itself but for the fields that are not sent (a status also loses its partition), and `capacity` is the encoded length |
| `Codec.TaskRoundTrip` | rlink/src/core/runtime.rs:67-88 | a task id decodes to itself |
| `Codec.RequestRoundTrip` | rlink/src/pub_sub/network/mod.rs:29-69 | a request is 24 bytes and decodes to itself |
| `Codec.OkRoundTrip` | rlink/src/pub_sub/network/mod.rs:132-186 | a response with an element decodes to it, as it arrives |
| `Codec.EndRoundTrip` | rlink/src/pub_sub/network/mod.rs:151-186 | so does the response that ends a batch |
| `Codec.ReadFrameOfFrame` | rlink/src/pub_sub/network/mod.rs:188-197 | the length-delimited reader cuts off exactly the first frame, and refuses one above 3 MiB |
| `BigEndian.MostSignificantFirst` | rlink/src/functions/percentile/mod.rs:41-52 | an integer is written with its most significant byte first |
| `NetworkPull.BatchReceive` | rlink/src/pub_sub/network/server.rs:281-305 | takes the front of the queue, up to the batch size, and leaves the rest |
| `NetworkPull.BatchGet` | rlink/src/pub_sub/network/server.rs:265-279 | an unknown channel yields an empty batch |
| `NetworkPull.BatchSend` | rlink/src/pub_sub/network/server.rs:307-328 | one frame per element, then one terminator, which tells a full batch from one that emptied the queue |
| `NetworkPull.RecvElement` | rlink/src/pub_sub/network/client.rs:281-343 | the client's loop over `batch + 1` turns in 16 bits, as `Recv` |
| `NetworkPull.RecvBatch` | rlink/src/pub_sub/network/client.rs:281-343 | on the server's bytes the loop returns a copy of every element of the batch, field by field and with the channel's key, if all of them fit a frame, and fails otherwise; it never runs out of turns |
| `NetworkPull.PullDelivers` | rlink/src/pub_sub/network/client.rs:220-279 | one request over the wire takes the next batch, or all that is left, and delivers a copy of each element, field by field; it fails if and only if one of them is too long |
| `NetworkPull.PullIsLossless` | rlink/src/pub_sub/network/client.rs:220-343 | over every run of puts and requests, with one terminator per request and `unreachable!` never reached, the client holds a copy of exactly the dequeued prefix of what was put, in order: constructor, partition, timestamp, values, end flag and both ids survive, and the channel's key is set |
| `NetworkPull.EverythingArrives` | rlink/src/pub_sub/network/client.rs:220-343 | and after enough requests it holds a copy of everything that was put |
| `NetworkPull.LargestBatchIsUnreachable` | rlink/src/pub_sub/network/client.rs:281-300 | except for a batch size of 65535, where the number of turns wraps to 0 |
| `Percentile.PercentileWriter.Read` | rlink/src/functions/percentile/mod.rs:25-39 | eight bytes as a big-endian number |
| `Percentile.PercentileWriter.Write` | rlink/src/functions/percentile/mod.rs:41-52 | writes eight bytes in place and nothing else |
| `Percentile.PercentileWriter.Search` | rlink/src/functions/percentile/mod.rs:90-122 | the binary search stays in bounds and finds the least bucket whose boundary is at least the value |
| `Percentile.PercentileWriter.PositionInValueArray` | rlink/src/functions/percentile/mod.rs:78-88 | so does the lookup with its two shortcuts: the last bucket for larger values |
| `Percentile.PercentileWriter.Accumulate` | rlink/src/functions/percentile/mod.rs:54-76 | counts the value in its bucket and in the total; no other counter changes |
| `Percentile.CountersSum` | rlink/src/functions/percentile/mod.rs:54-76 | the bucket counters sum to the number of values |
| `Percentile.ScanStopsAtOrderStatistic` | rlink/src/functions/percentile/mod.rs:185-208 | the bucket in which a scan from the top reaches p is that of the p-th largest value |
| `Percentile.SortIsPermutation` | rlink/src/functions/percentile/mod.rs:171-210 | the reference order: the same values, the largest first |
| `Percentile.GetResult` | rlink/src/functions/percentile/mod.rs:171-222 | for any position from 1 to the number of values the result is the boundary of the bucket of the value at that position from the top; for position 0 that of the largest value, for a larger one that of the smallest; an empty histogram and a water line above 100 are told apart |

## Left out

- Timestamps of 2^63 and above, for which the source's 64-bit window arithmetic wraps: timestamps are natural numbers without a bound.
- A slide larger than the size at a reduce: a watermark may then have no window, which the source treats as unreachable; the machine assumes a slide of at most the size.
- The reduce function is a pure function of the old value and the record; the source hands it a mutable record.
- A result record is a key and a value; the source joins the two byte buffers into one, whose field layout belongs to another library.
- WindowAssignerRunnable::run and SourceRunnable::run update or pass on the element in place; they are modelled on values inside `Aggregation.Handle` and `BarrierCut.Step`, so aliasing of an element is not captured.
- End-of-stream counting at system sources, which counts end messages rather than distinct parents; end-of-stream results are about assigners chained to a user source.
- The recovery skip list is part of the reduce task (`WindowReduce.StateRefinesFold`) but empty in the aggregation theorem; recovery from a checkpoint is not modelled.
- Exactly-once is not claimed: records after a barrier on a fast channel are processed before the slow channel's barrier.
- Stored checkpoints are a log of saved sets; MySQL and memory storage, time to live, heartbeats and the coordinator's restart loop are not modelled.
- Left and right order of a connect with several reduce parents, or one that is not the last parent: the model follows the code, but no claim is made about which input is which.
- A virtual sink that feeds nothing, which a connect of several reduces leaves behind, panics when its output is opened (`Routing.SystemOutputFormat.Open` says so); `Routing.OpenTask` is about tasks that have a child job.
- Operator names, schemas, daemon flags and the user or system origin of a function, which no modelled decision reads.
- Renumbering of edges inside the graph library: edges are removed by identity. Its `add_edge` is a method whose precondition is that no cycle arises, so the error branches are shown unreachable at the call.
- DagCompiler.Compile: requires that every parentless source job of a program that builds has a parallelism, as `JobNodeBuilders.Build` does; without it the source's parallelism loop does not end (`PassesNeverEnd`), so there is no result to state.
- Connection failures, reconnects, back-pressure, channel capacity and logging of the network layer.
- NetworkPull.PullIsLossless: elements too long for a 3 MiB frame and batch sizes of 65535 are excluded; the first makes the request fail (`PullDelivers`), the second is `LargestBatchIsUnreachable`.
- Percentile.GetResult: the position comes from a floating-point product, which is an input; boundaries and values are reals, so NaN is not modelled, and the largest float for an empty histogram is the value None.
- Percentile.PercentileWriter.Accumulate: fewer than 2^64 - 1 values, so that no counter wraps.
- `PercentileWriter::merge`, which adds byte by byte without carry and so does not add histograms.
- Kafka, ClickHouse, Elasticsearch and Parquet connectors, HTTP, metrics, deployment, the Java client: input and output around the modelled core.
