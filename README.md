# Track queue: vote engine and YouTube link parsing

This project models the core of a shared playback queue. Signed-in users add
YouTube links to one queue and upvote or downvote its entries.
`getHighestUpvotedVideo` returns the entry with the most upvotes, the
earliest-added first among equals, and `removeVideoFromQueue` deletes an
entry by id.

The model covers two source files.

- `src/server-actions/queue-actions.ts` holds the server actions over three
  database tables: users (by email), queue items (by id) and votes (by the
  unique pair of user id and queue id).
  - `addToQueue`, `vote` and `removeVideoFromQueue` change those tables. They
    are methods of the class `QueueActions.QueueStore`, which holds the tables
    as maps.
  - `getQueue` and `getHighestUpvotedVideo` only read the queue table. They
    are the functions `QueueRanking.GetQueue` and
    `QueueRanking.GetHighestUpvotedVideo`.
  - The toggle and the recount inside `vote` are the functions
    `VoteLedger.Toggled` and `VoteLedger.Tally`. `vote` is proved against
    them.
- `src/lib/youtube.ts` becomes pure functions in module `YouTube`.
  - `extractVideoId` is written out as an explicit scan for what its regular
    expression does.
  - `getThumbnailUrl` is the address template.
  - `getVideoInfo` takes the oEmbed endpoint as a function parameter.

External inputs are parameters:

- the signed-in session is an `Option` of an email;
- the oEmbed endpoint is a function from a request address to either a failed
  request or a response whose title may be missing (`OEmbedResponse`);
- the id and `addedAt` time of a new row are supplied by the caller.

Modules, one per file: `Results` (Option and Result), `Types` (the records of
`src/types/index.ts`), `YouTube`, `VoteLedger`, `QueueRanking`,
`QueueActions`.

### How the regular expression is read

`/^.*(youtu.be\/|v\/|u\/\w\/|embed\/|watch\?v=|\&v=)([^#\&\?]*).*/`

- The six alternatives of the marker group start with six different
  characters, so at most one of them can match at any position
  (`MarkerLength`).
- The leading `^.*` is greedy and backtracks one character at a time. The
  match therefore uses the largest position where a marker starts
  (`GreedyMarker`).
- `.` does not match a line terminator, so the marker has to start in the
  first line (`LineEnd`). In `youtu.be` the `.` cannot be a line terminator
  either.
- The capture `[^#\&\?]*` is greedy: it takes the maximal run of characters
  other than `#`, `&` and `?` (`IsMaximalRun`). This run may contain line
  terminators.
- The trailing `.*` always matches, so it never causes a failure.
- The result is null unless the captured run is exactly 11 code units long.
  This holds even when an earlier marker is followed by 11 good characters
  (`RightmostMarkerDecides`).

### Behaviour worth knowing

- Items have no status field. `removeVideoFromQueue` deletes the row
  outright, and deleting a missing row is an error, not a no-op.
- `removeVideoFromQueue` checks no session.
- `vote` does not check that the item exists before it writes the vote.
  Whether the database then refuses the write depends on a schema that is
  not part of this model. The model's choice is that the vote is recorded
  and only the later update of the item fails.
- Tallies are recounted from the vote table after each vote. They are not
  incremented.
- An oEmbed response without a `title` still succeeds: the new row's title is
  null.
- Voting the same way twice restores the earlier state only when the user
  had no vote on the item or a vote of the same type. From a vote of the
  other type, the first call switches it and the second retracts it
  (`ToggleTwiceFromOpposite`).

## Model

| member | source | states |
|---|---|---|
| `YouTube.MarkerLength` | src/lib/youtube.ts:4 | a marker match has the length of one of the six alternatives and lies inside the URL |
| `YouTube.MarkerShape` | src/lib/youtube.ts:4 | every marker starts with one of `y v u e w &` and ends with `/` or `=`, and it ends with `=` exactly when it starts with `w` or `&` |
| `YouTube.LineEnd` | src/lib/youtube.ts:4 | `^.*` reaches every position up to the first line terminator and no further |
| `YouTube.MatchesAtIffFirstLine` | src/lib/youtube.ts:4 | a marker can match exactly at the positions the scan visits: those in the first line |
| `YouTube.IdRun` | src/lib/youtube.ts:4 | the capture is a prefix of what follows the marker, has no `#`, `&` or `?`, and stops only at one of them or at the end |
| `YouTube.MaximalRunUnique` | src/lib/youtube.ts:4 | the greedy capture is determined by where it starts |
| `YouTube.LastMarkerAtOrBefore` | src/lib/youtube.ts:4-5 | the backtracking of `^.*` finds the largest marker position, and no marker lies after it; none is found only when no position has a marker |
| `YouTube.ExtractVideoId` | src/lib/youtube.ts:3-7 | a non-null result is 11 code units long and contains none of `#`, `&`, `?` |
| `YouTube.ExtractVideoIdAtGreedyMarker` | src/lib/youtube.ts:4-6 | given the rightmost reachable marker and its maximal run, the result is that run if it has 11 code units and null otherwise |
| `YouTube.ExtractVideoIdWithoutMarker` | src/lib/youtube.ts:5-6 | a URL with no marker in its first line yields null |
| `YouTube.ExtractVideoIdFound` | src/lib/youtube.ts:4-6 | a non-null result is the maximal run after the rightmost reachable marker |
| `YouTube.SingleMarkerExample` | src/lib/youtube.ts:3-7 | `v/ABCDEFGHIJK` yields `ABCDEFGHIJK` |
| `YouTube.RightmostMarkerDecides` | src/lib/youtube.ts:4-6 | `v/ABCDEFGHIJK&v/x` yields null: the later marker's one-character run wins over the earlier 11-character one |
| `YouTube.WatchUrlRoundTrip` | src/lib/youtube.ts:3-7 | the watch-page link built for an 11-character id of `\w` and `-` characters parses back to that id |
| `YouTube.GetThumbnailUrl` | src/lib/youtube.ts:9-11 | the address is the fixed prefix, then the id, then `/0.jpg` |
| `YouTube.ThumbnailVideoId` | src/lib/youtube.ts:9-11 | reading an id back from a thumbnail address accounts for all of its characters |
| `YouTube.ThumbnailRoundTrip` | src/lib/youtube.ts:9-11 | the id can be read back from its thumbnail address |
| `YouTube.ThumbnailVideoIdSound` | src/lib/youtube.ts:9-11 | every address the reader accepts is the thumbnail address of the id it reads |
| `YouTube.ThumbnailInjective` | src/lib/youtube.ts:9-11 | different ids get different thumbnail addresses |
| `YouTube.GetVideoInfo` | src/lib/youtube.ts:19-32 | invalid link: 'Invalid YouTube URL'; failed request: fetch error; any response: success, with the extracted id, the response's title (null when missing), and the thumbnail address of the id, which reads back to the id |
| `YouTube.InvalidUrlNeverFetches` | src/lib/youtube.ts:20-21 | for an invalid link the outcome does not depend on the endpoint: it fails before any request |
| `VoteLedger.Toggled` | src/server-actions/queue-actions.ts:59-81 | a vote of the same type is deleted, a vote of the other type or no vote becomes the new type, and every other entry is unchanged |
| `VoteLedger.Tally` | src/server-actions/queue-actions.ts:84-91 | upvotes plus downvotes is the number of users with a vote on the item |
| `VoteLedger.VotersDisjoint` | src/server-actions/queue-actions.ts:84-91 | no vote is counted both as an upvote and as a downvote |
| `VoteLedger.VotersAfterToggle` | src/server-actions/queue-actions.ts:59-91 | after the toggle the voter is added to its side when the vote is created or switched, and removed from every other voter set |
| `VoteLedger.TallyAfterToggle` | src/server-actions/queue-actions.ts:59-91 | a new vote adds one to its side, a retraction removes one, and a switch moves one from the other side |
| `VoteLedger.TallyOfOtherItem` | src/server-actions/queue-actions.ts:84-96 | a vote on one item leaves every other item's tally unchanged |
| `VoteLedger.ToggleTwiceRestores` | src/server-actions/queue-actions.ts:59-81 | voting the same way twice restores the vote table when the user had no vote or one of that type |
| `VoteLedger.ToggleTwiceFromOpposite` | src/server-actions/queue-actions.ts:59-81 | from a vote of the other type, voting the same way twice leaves the user with no vote |
| `VoteLedger.TallyAfterTwoVotes` | src/server-actions/queue-actions.ts:59-91 | after two identical votes every tally is as before, except that a vote of the other type the user started from is gone |
| `QueueRanking.FirstExists` | src/server-actions/queue-actions.ts:118-123 | a non-empty queue has an item that ranks no later than every item |
| `QueueRanking.FirstKey` | src/server-actions/queue-actions.ts:118-123 | picks a stored item that ranks no later than every item |
| `QueueRanking.PrependFirst` | src/server-actions/queue-actions.ts:101-106 | the first item followed by an ordered listing of the rest is an ordered listing of the whole queue |
| `QueueRanking.PrependFirstCovers` | src/server-actions/queue-actions.ts:101-106 | the first row followed by a listing of the other rows has one entry per row and holds every stored row |
| `QueueRanking.PrependFirstOrdered` | src/server-actions/queue-actions.ts:101-106 | the first row followed by an ordered listing of the other rows repeats no id and keeps the order |
| `QueueRanking.GetQueue` | src/server-actions/queue-actions.ts:101-106 | every stored item exactly once, ordered by upvotes descending and then by `addedAt` ascending |
| `QueueRanking.GetHighestUpvotedVideo` | src/server-actions/queue-actions.ts:118-123 | null exactly when the queue is empty; otherwise a stored item that ranks no later than any other |
| `QueueRanking.HighestHeadsQueue` | src/server-actions/queue-actions.ts:101-123 | the highest-upvoted video is the first item `getQueue` lists |
| `QueueRanking.RemovingHighestAdvances` | src/server-actions/queue-actions.ts:118-139 | deleting the highest-upvoted video leaves the rest of the listing unchanged, so the next video moves up; for rows tied on both `upvotes` and `addedAt` this holds for the model's id order, while the database's order among them is open |
| `QueueActions.QueueStore.AddToQueue` | src/server-actions/queue-actions.ts:9-39 | no session, a failed video lookup or an unknown user returns that error and changes nothing; otherwise exactly one row is added, with the link, the looked-up title (null when the response has none) and thumbnail, and the user's id; other rows, users and votes are unchanged |
| `QueueActions.QueueStore.Vote` | src/server-actions/queue-actions.ts:41-99 | no session or an unknown user changes nothing; otherwise the user's entry is toggled; an existing item then gets its recounted tally, which is returned; other items and other users' votes are unchanged; stored counts stay equal to vote counts |
| `QueueActions.QueueStore.RemoveVideoFromQueue` | src/server-actions/queue-actions.ts:135-139 | removes exactly the given row, or fails on a missing id; users, votes and other rows are unchanged |
| `QueueActions.VoteTwiceRestores` | src/server-actions/queue-actions.ts:59-96 | two identical votes in a row restore the vote table and the item's counts, when the user had no vote or one of that type |

## Left out

- The oEmbed request and its error wrapping (src/lib/youtube.ts:24, 29-31). The endpoint is a function parameter.
- `console.log` and `console.error` output.
- The `addedBy { name, email }` join that `addToQueue`, `getQueue` and `getHighestUpvotedVideo` attach to each row.
- NextAuth: the session is an optional email. A session whose user has no email (`session.user.email!`) is not modelled. The sign-in upsert that fills the user table is not modelled either: the table is given to the constructor.
- Database mechanics: transactions, `groupBy`, foreign keys and cascades.
  - A removed item's votes stay in the vote table.
  - A vote on a missing item is written without a foreign-key check.
- Concurrency. `vote` runs separate queries without a transaction. The model is sequential, so interleaved votes are not covered.
- QueueActions.QueueStore.AddToQueue: row ids and `addedAt` times are inputs, and the method requires an id that no row has yet, which is what the database's id sequence gives.
- The schema's default tallies for a new row are not shown in the source. They are the store's constants `defaultUpvotes` and `defaultDownvotes`.
- QueueRanking.GetQueue: when rows tie on both upvotes and `addedAt`, the database's order is left open. The model orders such rows by id, and the contract promises nothing about their order.
- QueueRanking.GetHighestUpvotedVideo: among rows tied on both keys, which one is returned is likewise left open.
- YouTube.ExtractVideoId: each `char` stands for one UTF-16 code unit. Characters outside the Basic Multilingual Plane (two code units in JavaScript) are not modelled as pairs.
- The React components, including the `split('v=')` in the player component. That is not `extractVideoId`.
