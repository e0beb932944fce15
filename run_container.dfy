/**
  `RunContainerImpl`: a job's runs looked up by id (or the last build), and the
  queue item created when a user asks for a new run.
 */
module RunContainer {
  import opened Service
  import opened Fluent
  import opened Jenkins
  import opened QueueContainer

  const NotAcceptedMessage := "Queue item request was not accepted"

  /** The text `String.format` builds for a run that is not found. */
  function RunNotFoundMessage(name: string, organization: string, pipeline: string): (message: string)
    ensures |message| == 4 + |name| + 27 + |organization| + 14 + |pipeline|
    ensures message[..4] == "Run " && message[4..4 + |name|] == name
    ensures message[|message| - |pipeline|..] == pipeline
  {
    "Run " + name + " not found in organization " + organization + " and pipeline " + pipeline
  }

  predicate ContainsAt(s: string, part: string, at: nat)
  {
    at + |part| <= |s| && s[at..at + |part|] == part
  }

  /** The not-found message names the run, the organization and the job, in that order. */
  lemma RunNotFoundMessageNamesAll(name: string, organization: string, pipeline: string)
    ensures var m := RunNotFoundMessage(name, organization, pipeline);
            && ContainsAt(m, name, 4)
            && ContainsAt(m, organization, 4 + |name| + 27)
            && ContainsAt(m, pipeline, |m| - |pipeline|)
  {
    var m := RunNotFoundMessage(name, organization, pipeline);
    var head := "Run " + name + " not found in organization ";
    assert m == head + organization + " and pipeline " + pipeline;
    assert |head| == 4 + |name| + 27;
    assert m[4..4 + |name|] == name;
    assert m[|head|..|head| + |organization|] == organization;
  }

  /**
    `get(name)`: with a name, the first run of the job's build list whose id is
    exactly `name`, or NotFound naming the run, the organization and the job;
    without one (`None`, Java's `null`), whatever the build list reports as its
    last build. The job's builds are only read: nothing is modified.
   */
  method Get(job: Job, organization: string, name: Option<string>) returns (r: Result<Option<Run>>)
    ensures name.None? ==> r == Ok(job.builds.lastBuild)
    ensures var runs := job.builds.runs;
            name.Some? ==> (r.Ok? <==> exists k :: 0 <= k < |runs| && runs[k].id == name.value)
    ensures var runs := job.builds.runs;
            name.Some? && r.Ok? ==>
              exists k :: 0 <= k < |runs| && r.value == Some(runs[k]) && runs[k].id == name.value
                          && forall j :: 0 <= j < k ==> runs[j].id != name.value
    ensures r.Err? ==> name.Some? && r.error == NotFound(RunNotFoundMessage(name.value, organization, job.name))
  {
    var runList := job.builds;
    var run: Option<Run> := None;
    if name.Some? {
      var i := 0;
      while i < |runList.runs|
        invariant 0 <= i <= |runList.runs|
        invariant run.None?
        invariant forall j :: 0 <= j < i ==> runList.runs[j].id != name.value
      {
        if runList.runs[i].id == name.value {
          run := Some(runList.runs[i]);
          break;
        }
        i := i + 1;
      }
      if run.None? {
        return Err(NotFound(RunNotFoundMessage(name.value, organization, job.name)));
      }
    } else {
      run := runList.lastBuild;
    }
    return Ok(run);
  }

  /**
    `create()`: a job that is not a task is refused; otherwise the job is
    scheduled, a refusal is reported, and an accepted item is looked up in the
    queue listing `items` taken afterwards.
   */
  function Create(job: Job, schedule: ScheduleResult, items: seq<QueueItemId>): (r: Reply<QueueItem>)
    ensures r.scheduled <==> job.isTask
    ensures r.listed ==> job.isTask && schedule.Accepted? && job.isBuildable
    ensures r.result.Ok? ==> r.listed
  {
    if !job.isTask then Reply(Err(NotImplemented(NotQueueableMessage)), false, false)
    else match schedule
      case Rejected => Reply(Err(UnexpectedError(NotAcceptedMessage)), true, false)
      case Accepted(item) => Resolve(job, item, items)
  }

  /**
    Everything `create` can do: nothing is scheduled for a job that is not a
    task; a refused schedule is reported without looking at the queue; an
    accepted one yields the listed entry for the item the queue reported, or the
    "does not exist in the queue" error, which differs from the refusal.
   */
  lemma CreateOutcomes(job: Job, schedule: ScheduleResult, items: seq<QueueItemId>)
    ensures var r := Create(job, schedule, items);
            && (r.scheduled <==> job.isTask)
            && (r.listed <==> job.isTask && schedule.Accepted? && job.isBuildable)
            && (!job.isTask ==> r.result == Err(NotImplemented(NotQueueableMessage)))
            && (job.isTask && schedule.Rejected? ==> r.result == Err(UnexpectedError(NotAcceptedMessage)))
            && (r.listed && schedule.item !in items ==> r.result == Err(UnexpectedError(NotInQueueMessage)))
            && (r.result.Ok? <==> job.isTask && schedule.Accepted? && job.isBuildable && schedule.item in items)
            && (r.result.Ok? ==> r.result.value.queueId == schedule.item
                                 && r.result.value in Listing(job.nextBuildNumber, items))
    ensures NotInQueueMessage != NotAcceptedMessage
  {
    assert NotInQueueMessage[0] != NotAcceptedMessage[0];
    if job.isTask && schedule.Accepted? {
      NewItemOutcomes(job, schedule.item, items);
    }
  }

  /** Once the schedule is accepted, `create` and `newItem` agree. */
  lemma CreateAgreesWithNewItem(job: Job, item: QueueItemId, items: seq<QueueItemId>)
    ensures Create(job, Accepted(item), items) == NewItem(job, item, items)
  {
  }

  /**
    A scenario: job `pipeline-A` with an empty history and next build number 1;
    the queue accepts the request as item 7. While item 7 is queued `create`
    returns it with projected number 1; once it has left the queue the lookup
    fails with the "does not exist in the queue" error.
   */
  lemma ExampleScheduleThenDrain()
    ensures var job := Job("pipeline-A", true, true, 1, RunList([], None));
            && Create(job, Accepted(7), [7]) == Reply(Ok(QueueItem(7, 1)), true, true)
            && Create(job, Accepted(7), []) == Reply(Err(UnexpectedError(NotInQueueMessage)), true, true)
  {
    var job := Job("pipeline-A", true, true, 1, RunList([], None));
    ResolveFindsItem(job, 7, [7], 0);
    ResolveMissesDrainedItem(job, 7, []);
  }
}
