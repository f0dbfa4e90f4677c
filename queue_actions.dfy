/**
 * The server actions of src/server-actions/queue-actions.ts that change the
 * database: `addToQueue`, `vote` and `removeVideoFromQueue`. The three
 * tables they touch are fields of a store object; the signed-in session,
 * the oEmbed endpoint, the new row's id and its `addedAt` time are
 * parameters.
 */
module QueueActions {
  import opened Results
  import opened Types
  import opened YouTube
  import opened VoteLedger
  import opened QueueRanking

  /** The errors the three actions throw. */
  datatype ActionError =
    | NotSignedIn                   // 'You must be signed in to ...'
    | UserNotFound                  // 'User not found'
    | VideoLookup(cause: VideoError) // thrown by getVideoInfo
    | RecordNotFound                // the data layer finds no row to update or delete

  /** The user, queue and vote tables. */
  class QueueStore {
    /** The user table, by its unique email. */
    var users: map<Email, UserId>
    /** The queue table, by id. */
    var queue: QueueTable
    /** The vote table, by its unique (userId, queueId) pair. */
    var votes: Ledger
    /** The schema's defaults for the tallies of a new row, which `addToQueue` does not set. */
    const defaultUpvotes: int
    const defaultDownvotes: int

    ghost predicate Valid()
      reads this
    {
      WellKeyed(queue)
    }

    /** Every item's stored counts are the counts of its votes. */
    ghost predicate TalliesMatchLedger()
      reads this
    {
      forall q :: q in queue ==> queue[q].upvotes == Tally(votes, q).upvotes
                                 && queue[q].downvotes == Tally(votes, q).downvotes
    }

    constructor (users: map<Email, UserId>, defaultUpvotes: int, defaultDownvotes: int)
      ensures Valid() && TalliesMatchLedger()
      ensures this.users == users && queue == map[] && votes == map[]
      ensures this.defaultUpvotes == defaultUpvotes && this.defaultDownvotes == defaultDownvotes
    {
      this.users := users;
      queue := map[];
      votes := map[];
      this.defaultUpvotes := defaultUpvotes;
      this.defaultDownvotes := defaultDownvotes;
    }

    /**
     * `addToQueue`: checks the session, resolves the link into its title
     * and thumbnail, finds the signed-in user and adds one row. `newId` is
     * the id the database assigns, which no row has yet.
     */
    method AddToQueue(session: Option<Email>, youtubeUrl: string, oembed: string -> OEmbedResponse,
                      newId: QueueId, addedAt: Timestamp)
      returns (r: Result<QueueItem, ActionError>)
      requires Valid()
      requires newId !in queue
      modifies this
      ensures Valid()
      ensures users == old(users) && votes == old(votes)
      ensures var info := GetVideoInfo(youtubeUrl, oembed);
              && (session.None? ==> r == Err(NotSignedIn))
              && (session.Some? && info.Err? ==> r == Err(VideoLookup(info.error)))
              && (session.Some? && info.Ok? && session.value !in users ==> r == Err(UserNotFound))
              && (session.Some? && info.Ok? && session.value in users ==>
                    r == Ok(QueueItem(newId, youtubeUrl, info.value.title, info.value.thumbnailUrl,
                                      users[session.value], defaultUpvotes, defaultDownvotes, addedAt)))
      ensures r.Err? ==> queue == old(queue)
      ensures r.Ok? ==> queue == old(queue)[newId := r.value]
      ensures (old(TalliesMatchLedger()) && defaultUpvotes == 0 && defaultDownvotes == 0
               && Tally(votes, newId) == VoteResult(0, 0)) ==> TalliesMatchLedger()
    {
      if session.None? {
        return Err(NotSignedIn);
      }
      var info := GetVideoInfo(youtubeUrl, oembed);
      if info.Err? {
        return Err(VideoLookup(info.error));
      }
      var email := session.value;
      if email !in users {
        return Err(UserNotFound);
      }
      var item := QueueItem(newId, youtubeUrl, info.value.title, info.value.thumbnailUrl,
                            users[email], defaultUpvotes, defaultDownvotes, addedAt);
      queue := queue[newId := item];
      r := Ok(item);
    }

    /**
     * `vote`: toggles the signed-in user's vote on item `queueId`, counts
     * the item's votes again and stores and returns the counts. The vote
     * table is written before the item is looked up, so a missing item
     * fails after the vote has been recorded.
     */
    method Vote(session: Option<Email>, queueId: QueueId, voteType: bool)
      returns (r: Result<VoteResult, ActionError>)
      requires Valid()
      modifies this
      ensures Valid()
      ensures users == old(users)
      ensures session.None? ==> r == Err(NotSignedIn) && votes == old(votes) && queue == old(queue)
      ensures session.Some? && session.value !in users ==>
                r == Err(UserNotFound) && votes == old(votes) && queue == old(queue)
      ensures session.Some? && session.value in users ==>
                votes == Toggled(old(votes), (users[session.value], queueId), voteType)
      ensures session.Some? && session.value in users && queueId !in old(queue) ==>
                r == Err(RecordNotFound) && queue == old(queue)
      ensures session.Some? && session.value in users && queueId in old(queue) ==>
                && r == Ok(Tally(votes, queueId))
                && queue == old(queue)[queueId := old(queue)[queueId].(upvotes := r.value.upvotes,
                                                                       downvotes := r.value.downvotes)]
      ensures old(TalliesMatchLedger()) ==> TalliesMatchLedger()
    {
      if session.None? {
        return Err(NotSignedIn);
      }
      var email := session.value;
      if email !in users {
        return Err(UserNotFound);
      }
      var key := (users[email], queueId);
      ghost var before := votes;
      if key in votes {
        if votes[key] == voteType {
          votes := votes - {key};          // same type: retract
        } else {
          votes := votes[key := voteType]; // other type: switch
        }
      } else {
        votes := votes[key := voteType];   // no vote yet: create
      }
      assert votes == Toggled(before, key, voteType);
      forall q | q != queueId
        ensures Tally(votes, q) == Tally(before, q)
      {
        TallyOfOtherItem(before, key, voteType, q);
      }

      var tally := Tally(votes, queueId);
      if queueId !in queue {
        return Err(RecordNotFound);
      }
      queue := queue[queueId := queue[queueId].(upvotes := tally.upvotes, downvotes := tally.downvotes)];
      r := Ok(tally);
    }

    /**
     * `removeVideoFromQueue`: deletes row `id`. The action checks no
     * session, and deleting a missing row is an error.
     */
    method RemoveVideoFromQueue(id: QueueId) returns (r: Result<(), ActionError>)
      requires Valid()
      modifies this
      ensures Valid()
      ensures users == old(users) && votes == old(votes)
      ensures id in old(queue) ==> r == Ok(()) && queue == old(queue) - {id}
      ensures id !in old(queue) ==> r == Err(RecordNotFound) && queue == old(queue)
      ensures old(TalliesMatchLedger()) ==> TalliesMatchLedger()
    {
      if id !in queue {
        return Err(RecordNotFound);
      }
      queue := queue - {id};
      r := Ok(());
    }
  }

  /**
   * Two identical `vote` calls by one user in a row leave the vote table
   * and the queue table as they were, when the user had no vote on the
   * item or one of the same type and every stored count matched the votes.
   */
  method VoteTwiceRestores(store: QueueStore, session: Option<Email>, queueId: QueueId, voteType: bool)
    returns (first: Result<VoteResult, ActionError>, second: Result<VoteResult, ActionError>)
    requires store.Valid() && store.TalliesMatchLedger()
    requires session.Some? && session.value in store.users && queueId in store.queue
    requires var key := (store.users[session.value], queueId);
             !(key in store.votes && store.votes[key] != voteType)
    modifies store
    ensures store.votes == old(store.votes) && store.queue == old(store.queue)
    ensures first.Ok? && second.Ok?
    ensures second.value.upvotes == old(store.queue)[queueId].upvotes
    ensures second.value.downvotes == old(store.queue)[queueId].downvotes
  {
    ghost var key := (store.users[session.value], queueId);
    ToggleTwiceRestores(store.votes, key, voteType);
    first := store.Vote(session, queueId, voteType);
    second := store.Vote(session, queueId, voteType);
    assert store.queue[queueId] == old(store.queue)[queueId];
  }
}
