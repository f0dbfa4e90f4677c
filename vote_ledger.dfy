/**
 * The vote table and the tally `vote` derives from it
 * (src/server-actions/queue-actions.ts, lines 50-98).
 *
 * The table is keyed by the unique pair (userId, queueId), so a user holds
 * at most one vote per item by construction; the value is `voteType`
 * (true for an upvote, false for a downvote).
 */
module VoteLedger {
  import opened Types

  type VoteKey = (UserId, QueueId)
  type Ledger = map<VoteKey, bool>

  /**
   * The three-way toggle of `vote` on the entry `key`: a vote of the same
   * type is deleted, a vote of the other type is overwritten, and a missing
   * vote is created. No other entry changes.
   */
  function Toggled(ledger: Ledger, key: VoteKey, voteType: bool): (r: Ledger)
    ensures key in ledger && ledger[key] == voteType ==> key !in r
    ensures !(key in ledger && ledger[key] == voteType) ==> key in r && r[key] == voteType
    ensures forall k :: k != key ==> (k in r <==> k in ledger) && (k in r ==> r[k] == ledger[k])
  {
    if key in ledger && ledger[key] == voteType then ledger - {key}
    else ledger[key := voteType]
  }

  /** The entries of the ledger for item `queueId` whose type is `voteType`. */
  function Voters(ledger: Ledger, queueId: QueueId, voteType: bool): set<VoteKey> {
    set k | k in ledger && k.1 == queueId && ledger[k] == voteType
  }

  /** Every user who has a vote, of either type, on item `queueId`. */
  function AllVoters(ledger: Ledger, queueId: QueueId): set<VoteKey> {
    set k | k in ledger && k.1 == queueId
  }

  /**
   * The counts of lines 84-91: how many entries for `queueId` are upvotes
   * and how many are downvotes (0 when a group is absent).
   */
  function Tally(ledger: Ledger, queueId: QueueId): (r: VoteResult)
    ensures r.upvotes + r.downvotes == |AllVoters(ledger, queueId)|
  {
    var up, down := Voters(ledger, queueId, true), Voters(ledger, queueId, false);
    assert AllVoters(ledger, queueId) == up + down;
    assert up * down == {};
    VoteResult(|up|, |down|)
  }

  /** No voter is counted on both sides of an item's tally. */
  lemma VotersDisjoint(ledger: Ledger, queueId: QueueId)
    ensures Voters(ledger, queueId, true) !! Voters(ledger, queueId, false)
  {
  }

  /** How the toggle changes the set of one type of voters of the toggled item. */
  lemma {:induction false} VotersAfterToggle(ledger: Ledger, key: VoteKey, voteType: bool, side: bool)
    ensures var before, after := Voters(ledger, key.1, side), Voters(Toggled(ledger, key, voteType), key.1, side);
            if side == voteType && !(key in ledger && ledger[key] == voteType)
            then after == before + {key} else after == before - {key}
  {
    var after := Toggled(ledger, key, voteType);
    var before := Voters(ledger, key.1, side);
    if side == voteType && !(key in ledger && ledger[key] == voteType) {
      assert Voters(after, key.1, side) == before + {key};
    } else {
      assert Voters(after, key.1, side) == before - {key};
    }
  }

  /**
   * The tally of the toggled item after `vote`: a new vote adds one on its
   * side, a retracted vote removes one, and a switched vote moves one from
   * the other side to its side.
   */
  lemma {:induction false} TallyAfterToggle(ledger: Ledger, key: VoteKey, voteType: bool)
    ensures var before, after := Tally(ledger, key.1), Tally(Toggled(ledger, key, voteType), key.1);
            var up, down := (if voteType then 1 else 0), (if voteType then 0 else 1);
            && (key !in ledger ==>
                  after.upvotes == before.upvotes + up && after.downvotes == before.downvotes + down)
            && (key in ledger && ledger[key] == voteType ==>
                  after.upvotes == before.upvotes - up && after.downvotes == before.downvotes - down)
            && (key in ledger && ledger[key] != voteType ==>
                  after.upvotes == before.upvotes + up - down && after.downvotes == before.downvotes + down - up)
  {
    VotersAfterToggle(ledger, key, voteType, true);
    VotersAfterToggle(ledger, key, voteType, false);
  }

  /** `vote` on one item leaves the tally of every other item as it was. */
  lemma {:induction false} TallyOfOtherItem(ledger: Ledger, key: VoteKey, voteType: bool, queueId: QueueId)
    requires queueId != key.1
    ensures Tally(Toggled(ledger, key, voteType), queueId) == Tally(ledger, queueId)
  {
    var after := Toggled(ledger, key, voteType);
    assert Voters(after, queueId, true) == Voters(ledger, queueId, true);
    assert Voters(after, queueId, false) == Voters(ledger, queueId, false);
  }

  /**
   * Voting the same way twice restores the user's entry when the first vote
   * created or retracted it.
   */
  lemma ToggleTwiceRestores(ledger: Ledger, key: VoteKey, voteType: bool)
    requires !(key in ledger && ledger[key] != voteType)
    ensures Toggled(Toggled(ledger, key, voteType), key, voteType) == ledger
  {
  }

  /**
   * From a vote of the other type, voting the same way twice does not
   * restore it: the first vote switches it and the second retracts it.
   */
  lemma ToggleTwiceFromOpposite(ledger: Ledger, key: VoteKey, voteType: bool)
    requires key in ledger && ledger[key] != voteType
    ensures Toggled(Toggled(ledger, key, voteType), key, voteType) == ledger - {key}
  {
  }

  /**
   * Two identical votes in a row leave every item's tally as it was, unless
   * the user started from a vote of the other type, in which case the
   * item's tally loses that vote.
   */
  lemma {:induction false} TallyAfterTwoVotes(ledger: Ledger, key: VoteKey, voteType: bool, queueId: QueueId)
    ensures var twice := Toggled(Toggled(ledger, key, voteType), key, voteType);
            var before, after := Tally(ledger, queueId), Tally(twice, queueId);
            if queueId == key.1 && key in ledger && ledger[key] != voteType
            then after.upvotes == before.upvotes - (if voteType then 0 else 1)
                 && after.downvotes == before.downvotes - (if voteType then 1 else 0)
            else after == before
  {
    var once := Toggled(ledger, key, voteType);
    if queueId != key.1 {
      TallyOfOtherItem(ledger, key, voteType, queueId);
      TallyOfOtherItem(once, key, voteType, queueId);
    } else if key in ledger && ledger[key] != voteType {
      TallyAfterToggle(ledger, key, voteType);
      TallyAfterToggle(once, key, voteType);
    } else {
      ToggleTwiceRestores(ledger, key, voteType);
    }
  }
}
