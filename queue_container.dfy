/**
  `QueueContainerImpl`: the queue items of one job, listed newest first with a
  projected build number each, looked up by id, and the item created when a
  user asks for a new build.
 */
module QueueContainer {
  import opened JavaLang
  import opened Service
  import opened Fluent
  import opened Jenkins

  const NotBuildableMessage := "This pipeline is not buildable and therefore does not have a queue."
  const NotQueueableMessage := "This pipeline type does not support being queued."
  const NotInQueueMessage := "The queue item does not exist in the queue"

  /**
    A `BlueQueueItem` as `QueueItemImpl` builds it: the Jenkins queue item's id
    and the build number it is expected to get. Its REST id is the decimal form
    of the queue id.
   */
  datatype QueueItem = QueueItem(queueId: QueueItemId, expectedBuildNumber: int32)
  {
    function Id(): (id: string) { LongToString(queueId) }
  }

  /**
    The build number projected for the item at oldest-first position `i` of `n`
    queued items: `nextBuildNumber` alone when one item is queued, otherwise the
    Java `int` sum `nextBuildNumber + i`. The one-item branch agrees with that
    sum at its only position, 0, so one formula describes every queue length.
   */
  function Projected(next: int32, n: nat, i: nat): (number: int32)
    ensures i < n ==> number == WrapInt32(next as int + i)
  {
    if n == 1 then next else WrapInt32(next as int + i)
  }

  /**
    The newest-first listing of the queue's items `items` (oldest first, as
    `Queue.getItems` returns them): position `k` holds the item from oldest-first
    position `n - 1 - k`.
   */
  function Listing(next: int32, items: seq<QueueItemId>): (list: seq<QueueItem>)
  {
    seq(|items|, k requires 0 <= k < |items| =>
      QueueItem(items[|items| - 1 - k], Projected(next, |items|, |items| - 1 - k)))
  }

  /** What `getQueuedItems()` returns or throws. */
  function QueuedItems(job: Job, items: seq<QueueItemId>): (r: Result<seq<QueueItem>>)
    ensures r.Ok? <==> job.isBuildable
    ensures r.Ok? ==> |r.value| == |items|
    ensures r.Err? ==> r.error == UnexpectedError(NotBuildableMessage)
  {
    if job.isBuildable then Ok(Listing(job.nextBuildNumber, items))
    else Err(UnexpectedError(NotBuildableMessage))
  }

  /**
    `getQueuedItems()`: for a buildable job, walks the queue's items oldest first
    and inserts each at the front of the result.
   */
  method GetQueuedItems(job: Job, items: seq<QueueItemId>) returns (r: Result<seq<QueueItem>>)
    ensures r == QueuedItems(job, items)
  {
    if !job.isBuildable {
      return Err(UnexpectedError(NotBuildableMessage));
    }
    var n := |items|;
    var items2: seq<QueueItem> := [];
    for i := 0 to n
      invariant |items2| == i
      invariant forall k :: 0 <= k < i ==>
                  items2[k] == QueueItem(items[i - 1 - k], Projected(job.nextBuildNumber, n, i - 1 - k))
    {
      var number := if n == 1 then job.nextBuildNumber else WrapInt32(job.nextBuildNumber as int + i);
      items2 := [QueueItem(items[i], number)] + items2;
    }
    assert items2 == Listing(job.nextBuildNumber, items);
    return Ok(items2);
  }

  /** `iterator()`: the elements `getQueuedItems()` lists, or its failure. */
  method Iterator(job: Job, items: seq<QueueItemId>) returns (r: Result<seq<QueueItem>>)
    ensures r == QueuedItems(job, items)
    ensures job.isBuildable <==> r.Ok?
    ensures r.Ok? ==> |r.value| == |items|
    ensures r.Ok? ==> forall k :: 0 <= k < |items| ==> r.value[k].queueId == items[|items| - 1 - k]
    ensures r.Err? ==> r.error == UnexpectedError(NotBuildableMessage)
  {
    r := GetQueuedItems(job, items);
  }

  /**
    `get(name)`: the first item, newest first, whose id is exactly `name`, or
    `None` (Java's `null`) when there is none.
   */
  method Get(job: Job, items: seq<QueueItemId>, name: string) returns (r: Result<Option<QueueItem>>)
    ensures !job.isBuildable ==> r == Err(UnexpectedError(NotBuildableMessage))
    ensures job.isBuildable ==> r.Ok?
    ensures var list := Listing(job.nextBuildNumber, items);
            r.Ok? ==> (r.value.None? <==> forall k :: 0 <= k < |list| ==> list[k].Id() != name)
    ensures var list := Listing(job.nextBuildNumber, items);
            r.Ok? && r.value.Some? ==>
              exists k :: 0 <= k < |list| && list[k] == r.value.value && list[k].Id() == name
                          && forall j :: 0 <= j < k ==> list[j].Id() != name
  {
    var queued := GetQueuedItems(job, items);
    if queued.Err? {
      return Err(queued.error);
    }
    var list := queued.value;
    for i := 0 to |list|
      invariant forall j :: 0 <= j < i ==> list[j].Id() != name
    {
      if name == list[i].Id() {
        return Ok(Some(list[i]));
      }
    }
    return Ok(None);
  }

  /** Whether a listed item is the one the queue reported, compared as `newItem`/`create` do. */
  predicate MatchesScheduled(q: QueueItem, item: QueueItemId)
  {
    EqualsIgnoreCase(q.Id(), LongToString(item))
  }

  /**
    The lookup `newItem` and `create` share once the queue has reported `item`:
    list the job's queue and take the first entry whose id matches, ignoring case.
   */
  function Resolve(job: Job, item: QueueItemId, items: seq<QueueItemId>): (r: Reply<QueueItem>)
  {
    match QueuedItems(job, items)
    case Err(e) => Reply(Err(e), true, false)
    case Ok(list) =>
      match FirstMatch(list, (q: QueueItem) => MatchesScheduled(q, item))
      case None => Reply(Err(UnexpectedError(NotInQueueMessage)), true, true)
      case Some(q) => Reply(Ok(q), true, true)
  }

  /**
    `newItem()`: schedule the job (the queue reports `item`) and return its entry
    from the queue listing `items` taken afterwards.
   */
  function NewItem(job: Job, item: QueueItemId, items: seq<QueueItemId>): (r: Reply<QueueItem>)
    ensures r.scheduled <==> job.isTask
    ensures r.listed ==> job.isTask && job.isBuildable
    ensures r.result.Ok? ==> r.listed
  {
    if job.isTask then Resolve(job, item, items)
    else Reply(Err(NotImplemented(NotQueueableMessage)), false, false)
  }

  // ---------------------------------------------------------------------------
  // Properties of the listing

  /** The listing has one entry per queued item, and its ids are the queue's ids reversed. */
  lemma ListingIsNewestFirst(next: int32, items: seq<QueueItemId>)
    ensures |Listing(next, items)| == |items|
    ensures forall k :: 0 <= k < |items| ==> Listing(next, items)[k].queueId == Reverse(items)[k]
  {
    forall k | 0 <= k < |items| ensures Listing(next, items)[k].queueId == Reverse(items)[k] {
      ReverseIndex(items, k);
    }
  }

  /** With one queued item, its projected number is `nextBuildNumber`. */
  lemma SingleItemListing(next: int32, items: seq<QueueItemId>)
    requires |items| == 1
    ensures Listing(next, items) == [QueueItem(items[0], next)]
  {
    var list := Listing(next, items);
    assert list[0].expectedBuildNumber == Projected(next, 1, 0) == next;
  }

  /**
    Unless `nextBuildNumber + n - 1` overflows, the newest entry gets
    `nextBuildNumber + n - 1`, each later entry one less, and the oldest
    `nextBuildNumber`.
   */
  lemma ListingNumbers(next: int32, items: seq<QueueItemId>)
    requires next as int + |items| - 1 <= INT_MAX
    ensures forall k :: 0 <= k < |items| ==>
              Listing(next, items)[k].expectedBuildNumber as int == next as int + |items| - 1 - k
    ensures forall k :: 0 <= k < |items| - 1 ==>
              Listing(next, items)[k].expectedBuildNumber == Listing(next, items)[k + 1].expectedBuildNumber + 1
    ensures |items| > 0 ==> Listing(next, items)[|items| - 1].expectedBuildNumber == next
  {
    var n := |items|;
    forall k | 0 <= k < n
      ensures Listing(next, items)[k].expectedBuildNumber as int == next as int + n - 1 - k
    {
      assert Listing(next, items)[k].expectedBuildNumber == Projected(next, n, n - 1 - k);
    }
  }

  /** Without the no-overflow bound the numbers are still `nextBuildNumber + i` modulo 2^32. */
  lemma ListingNumbersWrap(next: int32, items: seq<QueueItemId>, k: nat)
    requires k < |items|
    ensures (next as int + |items| - 1 - k - Listing(next, items)[k].expectedBuildNumber as int) % 0x1_0000_0000 == 0
  {
    assert Listing(next, items)[k].expectedBuildNumber == Projected(next, |items|, |items| - 1 - k);
  }

  // ---------------------------------------------------------------------------
  // Properties of the lookup after scheduling

  /** Comparing ids as case-insensitive decimal strings is comparing the queue ids. */
  lemma MatchesScheduledIffSameId(q: QueueItem, item: QueueItemId)
    ensures MatchesScheduled(q, item) <==> q.queueId == item
  {
    IdStringsMatchIgnoringCase(q.queueId, item);
  }

  /**
    When the queue still holds `item` (its newest occurrence at oldest-first
    position `i`), the lookup returns that entry with its projected number.
   */
  lemma {:induction false} ResolveFindsItem(job: Job, item: QueueItemId, items: seq<QueueItemId>, i: nat)
    requires job.isBuildable
    requires i < |items| && items[i] == item
    requires forall j :: i < j < |items| ==> items[j] != item
    ensures Resolve(job, item, items)
            == Reply(Ok(QueueItem(item, Projected(job.nextBuildNumber, |items|, i))), true, true)
  {
    var n := |items|;
    var list := Listing(job.nextBuildNumber, items);
    var p := (q: QueueItem) => MatchesScheduled(q, item);
    var k := n - 1 - i;
    MatchesScheduledIffSameId(list[k], item);
    forall j | 0 <= j < k ensures !p(list[j]) {
      MatchesScheduledIffSameId(list[j], item);
    }
    FirstIndexIsUnique(list, p, k);
  }

  /**
    When the item already left the queue (it is not in the listing taken after
    scheduling), the lookup fails with the "does not exist in the queue" error.
   */
  lemma ResolveMissesDrainedItem(job: Job, item: QueueItemId, items: seq<QueueItemId>)
    requires job.isBuildable
    requires item !in items
    ensures Resolve(job, item, items) == Reply(Err(UnexpectedError(NotInQueueMessage)), true, true)
  {
    var list := Listing(job.nextBuildNumber, items);
    forall j | 0 <= j < |list| ensures !MatchesScheduled(list[j], item) {
      MatchesScheduledIffSameId(list[j], item);
    }
  }

  /**
    Everything `newItem` can do: a job that is not a task is refused before
    anything is scheduled; a task that is not buildable is scheduled and then
    fails listing its queue; otherwise the result is the listed entry for the
    scheduled item, or the "does not exist" error when there is none.
   */
  lemma NewItemOutcomes(job: Job, item: QueueItemId, items: seq<QueueItemId>)
    ensures var r := NewItem(job, item, items);
            && (r.scheduled <==> job.isTask)
            && (r.listed <==> job.isTask && job.isBuildable)
            && (!job.isTask ==> r.result == Err(NotImplemented(NotQueueableMessage)))
            && (job.isTask && !job.isBuildable ==> r.result == Err(UnexpectedError(NotBuildableMessage)))
            && (r.listed && item !in items ==> r.result == Err(UnexpectedError(NotInQueueMessage)))
            && (r.result.Ok? <==> job.isTask && job.isBuildable && item in items)
            && (r.result.Ok? ==> r.result.value.queueId == item
                                 && r.result.value in Listing(job.nextBuildNumber, items))
  {
    if job.isTask && job.isBuildable {
      if item in items {
        var i := LastIndexOf(items, item);
        ResolveFindsItem(job, item, items, i);
        ListingIsNewestFirst(job.nextBuildNumber, items);
        assert Listing(job.nextBuildNumber, items)[|items| - 1 - i] == NewItem(job, item, items).result.value;
      } else {
        ResolveMissesDrainedItem(job, item, items);
      }
    }
  }

  /** The oldest-first position of the newest occurrence of `x` in `s`. */
  function LastIndexOf(s: seq<QueueItemId>, x: QueueItemId): (i: nat)
    requires x in s
    ensures i < |s| && s[i] == x
    ensures forall j :: i < j < |s| ==> s[j] != x
  {
    if s[|s| - 1] == x then |s| - 1 else LastIndexOf(s[..|s| - 1], x)
  }

  // ---------------------------------------------------------------------------
  // Worked examples

  /** Ten as the next build number and three queued items give 12, 11, 10 newest first. */
  lemma ExampleThreeQueued()
    ensures Listing(10, [101, 102, 103])
            == [QueueItem(103, 12), QueueItem(102, 11), QueueItem(101, 10)]
  {
    var list := Listing(10, [101, 102, 103]);
    assert list[0].expectedBuildNumber == Projected(10, 3, 2) == 12;
    assert list[1].expectedBuildNumber == Projected(10, 3, 1) == 11;
    assert list[2].expectedBuildNumber == Projected(10, 3, 0) == 10;
  }

  /** Five as the next build number and one queued item give exactly 5. */
  lemma ExampleOneQueued()
    ensures Listing(5, [42]) == [QueueItem(42, 5)]
  {
    SingleItemListing(5, [42]);
  }
}
