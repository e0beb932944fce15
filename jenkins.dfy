/**
  The values Jenkins hands to the containers: the job, its build history, a
  queue item id and the outcome of asking the queue to schedule the job.
 */
module Jenkins {
  import opened JavaLang
  import opened Fluent
  import opened Service

  /** `Queue.Item.getId()`, a Java `long` assigned by the queue. */
  type QueueItemId = int

  /** A `hudson.model.Run`: its id string and, to tell equal ids apart, its build number. */
  datatype Run = Run(id: string, number: int)

  /**
    `job.getBuilds()`: the runs in iteration order, and what the list reports
    from `getLastBuild()` (`None` stands for `null`).
   */
  datatype RunList = RunList(runs: seq<Run>, lastBuild: Option<Run>)

  /**
    A `hudson.model.Job`. `isTask` is "implements `Queue.Task`" and `isBuildable`
    is "implements `BuildableItem`"; the two are independent here.
   */
  datatype Job = Job(
    name: string,
    isTask: bool,
    isBuildable: bool,
    nextBuildNumber: int32,
    builds: RunList)

  /** `Queue.schedule2`'s `ScheduleResult`: accepted with the item it created or merged into, or refused. */
  datatype ScheduleResult = Accepted(item: QueueItemId) | Rejected

  /**
    What a queue-facing operation returns, with the calls into the Jenkins queue it made:
    `scheduled` for `Queue.schedule`/`schedule2`, `listed` for `Queue.getItems`.
   */
  datatype Reply<T> = Reply(result: Result<T>, scheduled: bool, listed: bool)
}
