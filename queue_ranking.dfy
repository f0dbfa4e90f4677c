/**
 * The read side of src/server-actions/queue-actions.ts: `getQueue`
 * (lines 101-116) and `getHighestUpvotedVideo` (lines 118-133), as
 * projections of the queue table ordered by upvotes descending, then by
 * `addedAt` ascending.
 */
module QueueRanking {
  import opened Results
  import opened Types

  type QueueTable = map<QueueId, QueueItem>

  /** Every row is stored under its own id, as a primary key is. */
  predicate WellKeyed(queue: QueueTable) {
    forall k :: k in queue ==> queue[k].id == k
  }

  /**
   * The `orderBy` of both queries: `a` may come before `b` when it has more
   * upvotes, or as many and was added no later.
   */
  predicate RanksNoLater(a: QueueItem, b: QueueItem) {
    a.upvotes > b.upvotes || (a.upvotes == b.upvotes && a.addedAt <= b.addedAt)
  }

  /**
   * RanksNoLater, with rows that tie on both keys taken by id. The database
   * leaves the order of such rows open; this model has to pick one, and no
   * contract below promises which.
   */
  predicate Precedes(a: QueueItem, b: QueueItem) {
    a.upvotes > b.upvotes
    || (a.upvotes == b.upvotes && (a.addedAt < b.addedAt || (a.addedAt == b.addedAt && a.id <= b.id)))
  }

  /**
   * `r` lists every row of `queue` exactly once, by upvotes descending and
   * then by `addedAt` ascending.
   */
  predicate IsRankedListing(queue: QueueTable, r: seq<QueueItem>) {
    && |r| == |queue|
    && (forall i :: 0 <= i < |r| ==> r[i].id in queue && queue[r[i].id] == r[i])
    && (forall k :: k in queue ==> queue[k] in r)
    && (forall i, j :: 0 <= i < j < |r| ==> r[i].id != r[j].id)
    && (forall i, j :: 0 <= i < j < |r| ==> RanksNoLater(r[i], r[j]))
  }

  /** A non-empty table has a key. */
  lemma SomeKey(queue: QueueTable)
    requires queue != map[]
    ensures exists k :: k in queue
  {
    assert (forall k :: k !in queue) ==> queue == map[];
  }

  /** A non-empty table has a row that precedes every row. */
  lemma {:induction false} FirstExists(queue: QueueTable)
    requires queue != map[]
    ensures exists k :: k in queue && forall k' :: k' in queue ==> Precedes(queue[k], queue[k'])
    decreases |queue|
  {
    SomeKey(queue);
    var k0 :| k0 in queue;
    var rest := queue - {k0};
    if rest == map[] {
      forall k' | k' in queue
        ensures Precedes(queue[k0], queue[k'])
      {
        assert k' !in rest;
      }
    } else {
      assert rest.Keys == queue.Keys - {k0};
      FirstExists(rest);
      var k1 :| k1 in rest && forall k' :: k' in rest ==> Precedes(rest[k1], rest[k']);
      var best := if Precedes(queue[k0], queue[k1]) then k0 else k1;
      forall k' | k' in queue
        ensures Precedes(queue[best], queue[k'])
      {
        if k' != k0 {
          assert k' in rest;
        }
      }
    }
  }

  /** The key of the row the ordered queries return first. */
  function FirstKey(queue: QueueTable): (k: QueueId)
    requires queue != map[] && WellKeyed(queue)
    ensures k in queue
    ensures forall k' :: k' in queue ==> Precedes(queue[k], queue[k'])
  {
    FirstExists(queue);
    var k :| k in queue && forall k' :: k' in queue ==> Precedes(queue[k], queue[k']);
    k
  }

  /**
   * `getQueue`: every row of the table exactly once, upvotes descending,
   * ties by `addedAt` ascending.
   */
  function GetQueue(queue: QueueTable): (r: seq<QueueItem>)
    requires WellKeyed(queue)
    ensures IsRankedListing(queue, r)
    decreases |queue|
  {
    if queue == map[] then []
    else
      var k := FirstKey(queue);
      var rest := queue - {k};
      assert rest.Keys == queue.Keys - {k};
      var tail := GetQueue(rest);
      PrependFirst(queue, k, tail);
      [queue[k]] + tail
  }

  /** Putting the first row before a listing of the other rows lists them all. */
  lemma PrependFirst(queue: QueueTable, k: QueueId, tail: seq<QueueItem>)
    requires WellKeyed(queue) && k in queue
    requires forall k' :: k' in queue ==> Precedes(queue[k], queue[k'])
    requires IsRankedListing(queue - {k}, tail)
    ensures IsRankedListing(queue, [queue[k]] + tail)
  {
    PrependFirstCovers(queue, k, tail);
    PrependFirstOrdered(queue, k, tail);
  }

  /** The rows of the longer listing are the rows of the table, each once by count. */
  lemma PrependFirstCovers(queue: QueueTable, k: QueueId, tail: seq<QueueItem>)
    requires WellKeyed(queue) && k in queue
    requires IsRankedListing(queue - {k}, tail)
    ensures var r := [queue[k]] + tail;
            && |r| == |queue|
            && (forall i :: 0 <= i < |r| ==> r[i].id in queue && queue[r[i].id] == r[i])
            && (forall k' :: k' in queue ==> queue[k'] in r)
  {
    var rest := queue - {k};
    var r := [queue[k]] + tail;
    assert rest.Keys == queue.Keys - {k};
    forall i | 0 <= i < |r|
      ensures r[i].id in queue && queue[r[i].id] == r[i]
    {
      if i > 0 {
        assert r[i] == tail[i - 1];
      }
    }
    forall k' | k' in queue
      ensures queue[k'] in r
    {
      if k' != k {
        assert rest[k'] in tail;
      }
    }
  }

  /** The longer listing has distinct ids and keeps the order. */
  lemma PrependFirstOrdered(queue: QueueTable, k: QueueId, tail: seq<QueueItem>)
    requires WellKeyed(queue) && k in queue
    requires forall k' :: k' in queue ==> Precedes(queue[k], queue[k'])
    requires IsRankedListing(queue - {k}, tail)
    ensures var r := [queue[k]] + tail;
            && (forall i, j :: 0 <= i < j < |r| ==> r[i].id != r[j].id)
            && (forall i, j :: 0 <= i < j < |r| ==> RanksNoLater(r[i], r[j]))
  {
    var rest := queue - {k};
    var r := [queue[k]] + tail;
    forall i, j | 0 <= i < j < |r|
      ensures r[i].id != r[j].id && RanksNoLater(r[i], r[j])
    {
      assert r[j] == tail[j - 1];
      if i > 0 {
        assert r[i] == tail[i - 1];
      } else {
        assert r[j].id in rest && queue[r[j].id] == r[j];
      }
    }
  }

  /**
   * `getHighestUpvotedVideo`: null exactly when the table is empty, and
   * otherwise a row no other row ranks before.
   */
  function GetHighestUpvotedVideo(queue: QueueTable): (r: Option<QueueItem>)
    requires WellKeyed(queue)
    ensures r.None? <==> queue == map[]
    ensures r.Some? ==> r.value.id in queue && queue[r.value.id] == r.value
    ensures r.Some? ==> forall k :: k in queue ==> RanksNoLater(r.value, queue[k])
  {
    if queue == map[] then None else Some(queue[FirstKey(queue)])
  }

  /** Both queries use one order: the highest-upvoted video heads `getQueue`. */
  lemma HighestHeadsQueue(queue: QueueTable)
    requires WellKeyed(queue) && queue != map[]
    ensures GetHighestUpvotedVideo(queue) == Some(GetQueue(queue)[0])
  {
  }

  /**
   * When the playing video is removed, the next video is the one after it
   * in the previous order, and the rest of the order is kept.
   */
  lemma RemovingHighestAdvances(queue: QueueTable)
    requires WellKeyed(queue) && queue != map[]
    ensures var head := GetHighestUpvotedVideo(queue).value;
            GetQueue(queue - {head.id}) == GetQueue(queue)[1..]
  {
  }
}
