# Blue Ocean queue and run containers, modelled in Dafny

This project models the part of the Blue Ocean REST layer that turns a Jenkins
job's build queue and build history into REST resources:

- `QueueContainerImpl` lists a job's queue items newest first. Each item gets a
  projected build number. The container looks an item up by id (`get`). It
  schedules a new build and hands back the queue item it created (`newItem`).
- `RunContainerImpl` finds a run by id, or the last build when no id is given
  (`get`). It also schedules a build through `Queue.schedule2` and resolves the
  accepted item in the queue (`create`).

Jenkins itself is not modelled. Its answers are inputs:
- the job record (`Jenkins.Job`): whether it is a `Queue.Task`, whether it is a
  `BuildableItem`, its next build number and its build list;
- the queue's items for the job, oldest first, as a sequence of queue ids;
- the id the queue reports for a scheduled item, or the `ScheduleResult`
  (`Accepted(id)` or `Rejected`).

Thrown `ServiceException`s become `Err` values of `Service.Result` with three kinds:
`NotImplemented`, `UnexpectedError` and `NotFound`. Each carries the source's message text.
`newItem` and `create` return a `Jenkins.Reply`. It records whether the queue was asked to
schedule the job and whether the queue was listed. This makes "nothing is scheduled" and
"no queue lookup is done" provable statements.

The code's loops are kept as loops:
- `getQueuedItems` is a method that inserts each item at the front of the result;
- `QueueContainerImpl.get` is a loop with an early return;
- `RunContainerImpl.get` is a loop that stops with `break`.

Each method is proved against a specification. `newItem` and `create` are decision trees
around Guava's `firstMatch`, so they are modelled as functions. Lemmas state their outcomes.

Modules: `JavaLang` (Java `int` wrap-around, `Long.toString`, `equalsIgnoreCase`),
`Service`, `Fluent` (`Optional`, `firstMatch`, reversal), `Jenkins`, `QueueContainer`,
`RunContainer`.

Points where the code behaves differently from what one might expect:
- The queue listing of a job that is not a `BuildableItem` fails with an
  UnexpectedError, not with a "not supported" kind of error.
- The task check and the buildable check are two independent flags. A job that
  is a task but not buildable is scheduled by `newItem`/`create`. Then the
  listing fails with the "not buildable" error.
- `get` without a name returns whatever `getLastBuild()` reports. The code
  has no separate "no runs yet" result.

## Model

| member | source | states |
|---|---|---|
| JavaLang.WrapInt32 | blueocean-rest-impl/src/main/java/io/jenkins/blueocean/service/embedded/rest/QueueContainerImpl.java:94 | Java `int` addition: equals the mathematical sum when that fits in 32 bits, and is always congruent to it modulo 2^32 |
| JavaLang.LongToString | blueocean-rest-impl/src/main/java/io/jenkins/blueocean/service/embedded/rest/QueueContainerImpl.java:58 | `Long.toString`: non-empty, only digits and a leading minus sign, starts with '-' exactly for negative ids, and has no leading zero except for 0 itself |
| JavaLang.ExampleLongToString | blueocean-rest-impl/src/main/java/io/jenkins/blueocean/service/embedded/rest/QueueContainerImpl.java:58 | 42, -7 and 0 are written "42", "-7" and "0" |
| JavaLang.LongToStringRoundTrip | blueocean-rest-impl/src/main/java/io/jenkins/blueocean/service/embedded/rest/QueueContainerImpl.java:58 | `Long.toString(n)` read back as an optional minus sign followed by decimal digits, most significant first, is `n` again |
| JavaLang.LongToStringInjective | blueocean-rest-impl/src/main/java/io/jenkins/blueocean/service/embedded/rest/QueueContainerImpl.java:58 | two ids with the same `Long.toString` form are equal |
| JavaLang.EqualsIgnoreCase | blueocean-rest-impl/src/main/java/io/jenkins/blueocean/service/embedded/rest/QueueContainerImpl.java:58 | `equalsIgnoreCase`: only strings of equal length match, and every string matches itself; see EqualsIgnoreCaseIffSameLowered for the full characterisation |
| JavaLang.EqualsIgnoreCaseIffSameLowered | blueocean-rest-impl/src/main/java/io/jenkins/blueocean/service/embedded/rest/QueueContainerImpl.java:58 | `equalsIgnoreCase` holds exactly when both strings are equal after lower-casing every ASCII letter |
| JavaLang.ExampleEqualsIgnoreCase | blueocean-rest-impl/src/main/java/io/jenkins/blueocean/service/embedded/rest/QueueContainerImpl.java:58 | "Abc" matches "aBC", and "abc" does not match "abd" |
| JavaLang.EqualsIgnoreCaseWithoutLetters | blueocean-rest-impl/src/main/java/io/jenkins/blueocean/service/embedded/rest/QueueContainerImpl.java:58 | against a string without letters, `equalsIgnoreCase` holds exactly when the strings are equal |
| JavaLang.IdStringsMatchIgnoringCase | blueocean-rest-impl/src/main/java/io/jenkins/blueocean/service/embedded/rest/RunContainerImpl.java:95 | comparing two ids' decimal forms ignoring case holds exactly when the ids are equal |
| Fluent.FirstIndex | blueocean-rest-impl/src/main/java/io/jenkins/blueocean/service/embedded/rest/QueueContainerImpl.java:54-60 | the index found satisfies the predicate and no earlier element does; none found means no element does |
| Fluent.FirstMatch | blueocean-rest-impl/src/main/java/io/jenkins/blueocean/service/embedded/rest/RunContainerImpl.java:91-97 | `firstMatch(...).orNull()`: absent exactly when no element matches, otherwise the first matching element |
| Fluent.ReverseIndex | blueocean-rest-impl/src/main/java/io/jenkins/blueocean/service/embedded/rest/QueueContainerImpl.java:90-91 | position k of the reversal holds element n-1-k |
| QueueContainer.QueuedItems | blueocean-rest-impl/src/main/java/io/jenkins/blueocean/service/embedded/rest/QueueContainerImpl.java:85-101 | succeeds exactly for a buildable job, with one entry per queued item; otherwise the "not buildable" UnexpectedError; see ListingIsNewestFirst and ListingNumbers for the order and the numbers |
| QueueContainer.GetQueuedItems | blueocean-rest-impl/src/main/java/io/jenkins/blueocean/service/embedded/rest/QueueContainerImpl.java:85-101 | the front-inserting loop yields exactly the newest-first listing for a buildable job, and the "not buildable" UnexpectedError otherwise |
| QueueContainer.Iterator | blueocean-rest-impl/src/main/java/io/jenkins/blueocean/service/embedded/rest/QueueContainerImpl.java:73-75 | yields exactly what `getQueuedItems()` returns, projected build numbers included: fails exactly for a job that is not buildable, otherwise one element per queued item, ids in reverse queue order |
| QueueContainer.Get | blueocean-rest-impl/src/main/java/io/jenkins/blueocean/service/embedded/rest/QueueContainerImpl.java:38-45 | the first newest-first item whose id equals the name exactly, None when none does, and the "not buildable" error for a job that is not buildable |
| QueueContainer.ListingIsNewestFirst | blueocean-rest-impl/src/main/java/io/jenkins/blueocean/service/embedded/rest/QueueContainerImpl.java:83-95 | the listing has as many entries as the queue, and its ids are the queue's ids reversed |
| QueueContainer.Projected | blueocean-rest-impl/src/main/java/io/jenkins/blueocean/service/embedded/rest/QueueContainerImpl.java:94 | the projected number of the item at oldest-first position i < n is the Java `int` sum `nextBuildNumber + i`, including for the one-item branch, which returns `nextBuildNumber` alone |
| QueueContainer.SingleItemListing | blueocean-rest-impl/src/main/java/io/jenkins/blueocean/service/embedded/rest/QueueContainerImpl.java:94 | one queued item is listed with `nextBuildNumber` as its projected number |
| QueueContainer.ListingNumbers | blueocean-rest-impl/src/main/java/io/jenkins/blueocean/service/embedded/rest/QueueContainerImpl.java:90-94 | without overflow the numbers run from nextBuildNumber+n-1 down to nextBuildNumber, decreasing by one, the oldest item getting nextBuildNumber |
| QueueContainer.ListingNumbersWrap | blueocean-rest-impl/src/main/java/io/jenkins/blueocean/service/embedded/rest/QueueContainerImpl.java:94 | with overflow the numbers are still nextBuildNumber + i modulo 2^32 |
| QueueContainer.MatchesScheduledIffSameId | blueocean-rest-impl/src/main/java/io/jenkins/blueocean/service/embedded/rest/QueueContainerImpl.java:58 | the case-insensitive id comparison used after scheduling holds exactly for the scheduled queue id |
| QueueContainer.ResolveFindsItem | blueocean-rest-impl/src/main/java/io/jenkins/blueocean/service/embedded/rest/QueueContainerImpl.java:54-66 | when the scheduled id is queued, the lookup returns the newest entry with that id and its projected number, having scheduled and listed |
| QueueContainer.ResolveMissesDrainedItem | blueocean-rest-impl/src/main/java/io/jenkins/blueocean/service/embedded/rest/QueueContainerImpl.java:62-63 | when the scheduled id is no longer queued, the lookup fails with "The queue item does not exist in the queue" |
| QueueContainer.NewItem | blueocean-rest-impl/src/main/java/io/jenkins/blueocean/service/embedded/rest/QueueContainerImpl.java:48-70 | schedules exactly for a task, lists the queue only for a buildable task, and succeeds only after listing; see NewItemOutcomes and ResolveFindsItem for the full outcome |
| QueueContainer.NewItemOutcomes | blueocean-rest-impl/src/main/java/io/jenkins/blueocean/service/embedded/rest/QueueContainerImpl.java:48-70 | a non-task gets NotImplemented and nothing is scheduled; a task that is not buildable gets the "not buildable" error after scheduling; otherwise the result is the listed entry for the scheduled id, or the "does not exist" error exactly when that id is not queued |
| QueueContainer.ExampleThreeQueued | blueocean-rest-impl/src/main/java/io/jenkins/blueocean/service/embedded/rest/QueueContainerImpl.java:90-94 | next build number 10 and three queued items give 12, 11, 10 newest first |
| QueueContainer.ExampleOneQueued | blueocean-rest-impl/src/main/java/io/jenkins/blueocean/service/embedded/rest/QueueContainerImpl.java:94 | next build number 5 and one queued item give exactly 5 |
| RunContainer.RunNotFoundMessage | blueocean-rest-impl/src/main/java/io/jenkins/blueocean/service/embedded/rest/RunContainerImpl.java:55-56 | the not-found text: starts with "Run " and the run name, ends with the job name, and its length is the three names' plus the fixed words'; see RunNotFoundMessageNamesAll |
| RunContainer.RunNotFoundMessageNamesAll | blueocean-rest-impl/src/main/java/io/jenkins/blueocean/service/embedded/rest/RunContainerImpl.java:55-56 | the not-found message contains the run name, the organization and the job name |
| RunContainer.Get | blueocean-rest-impl/src/main/java/io/jenkins/blueocean/service/embedded/rest/RunContainerImpl.java:42-62 | with a name: the first run whose id equals it exactly, or NotFound with that message exactly when none does; without a name: the list's last build; nothing is modified |
| RunContainer.Create | blueocean-rest-impl/src/main/java/io/jenkins/blueocean/service/embedded/rest/RunContainerImpl.java:82-110 | schedules exactly for a task, lists the queue only for a buildable task whose schedule was accepted, and succeeds only after listing; see CreateOutcomes for the full outcome |
| RunContainer.CreateOutcomes | blueocean-rest-impl/src/main/java/io/jenkins/blueocean/service/embedded/rest/RunContainerImpl.java:82-110 | a non-task gets NotImplemented and nothing is scheduled; a refused schedule gets "not accepted" and the queue is not listed; an accepted one yields the listed entry for the reported id, or "does not exist in the queue" exactly when it is absent; the two UnexpectedError messages differ |
| RunContainer.CreateAgreesWithNewItem | blueocean-rest-impl/src/main/java/io/jenkins/blueocean/service/embedded/rest/RunContainerImpl.java:88-102 | once the schedule is accepted, `create` gives the same reply as `newItem` |
| RunContainer.ExampleScheduleThenDrain | blueocean-rest-impl/src/main/java/io/jenkins/blueocean/service/embedded/rest/RunContainerImpl.java:88-102 | item 7 accepted: returned with projected number 1 while queued, "does not exist in the queue" once drained |

## Left out

- The Jenkins queue (`Queue.schedule`, `schedule2`, `getItems`) is not modelled. Its answers are inputs. The race in which an item leaves the queue between scheduling and lookup is only an id absent from the listing passed in. There is no concurrency model.
- The causes and the delay passed to `schedule` are not modelled. They do not affect what the containers return.
- QueueContainer.NewItem: the queue item returned by `Queue.schedule` is taken to be non-null. The code does not guard against `null`, and that case is not modelled.
- QueueContainer.Get: the name is taken to be non-null. A `null` name throws a NullPointerException at `name.equals` once the listing is non-empty; with an empty listing Java returns `null`. Neither case is modelled.
- `QueueItemImpl` is not part of this model. A queue item is its queue id plus its projected number. Its REST id is taken to be `Long.toString` of the queue id.
- The two-argument static `QueueContainerImpl.getQueuedItems(job, pipeline)` used by `create` is not part of this model. It is taken to behave like the private one shown.
- `AbstractRunImpl.getBlueRun` is not part of this model. `get` returns the Jenkins run itself. What `getBlueRun` does with a `null` last build is not modelled.
- `RunList.getLastBuild` is not part of this model. The build list carries the run it reports (possibly none) as an input.
- `RunContainerImpl.iterator` (`RunSearch.findRuns`), `getLink` and `getPipeline` are HAL and search plumbing outside this model.
- `BlueOceanUI.java` and `RunDetails.jsx` are not part of this model. They are HTTP and UI plumbing.
- JavaLang.EqualsIgnoreCase: case mapping is modelled for ASCII letters only, not Java's full Unicode tables. Both sides compared in the source are decimal ids, so ASCII suffices.
- Queue ids (Java `long`) are unbounded integers. Only equality and decimal form are used, and these agree for every `long`.
