/** The record shapes of src/types/index.ts. */
module Types {
  import opened Results

  type Email = string
  type UserId = int
  type QueueId = int

  /** A point in time (`addedAt: Date`), as an integer timestamp. */
  type Timestamp = int

  /**
   * A row of the queue table. `title` is null when the oEmbed response had
   * no title. `thumbnailUrl` is nullable in the schema too, but every item
   * this core creates carries one.
   */
  datatype QueueItem = QueueItem(
    id: QueueId,
    youtubeUrl: string,
    title: Option<string>,
    thumbnailUrl: string,
    addedById: UserId,
    upvotes: int,
    downvotes: int,
    addedAt: Timestamp)

  /** The pair of counts `vote` writes onto an item and returns. */
  datatype VoteResult = VoteResult(upvotes: nat, downvotes: nat)
}
