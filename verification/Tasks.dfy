/** Names of tasks and of the channels between them: `rlink/src/core/runtime.rs`. */
module Tasks {
  datatype TaskId = TaskId(jobId: nat, taskNumber: nat, numTasks: nat) {
    ghost predicate Valid() {
      jobId < 0x1_0000_0000 && taskNumber < 0x1_0000 && numTasks < 0x1_0000
    }
  }

  datatype ChannelKey = ChannelKey(source: TaskId, target: TaskId) {
    ghost predicate Valid() {
      source.Valid() && target.Valid()
    }
  }
}
