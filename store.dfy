/**
 * The database behind the votes app: the user identities of the
 * authentication framework and the four tables of the app, with the
 * auto-increment counters that hand out ids. `Valid()` is the set of
 * constraints the schema declares (unique_together, one-to-one, foreign
 * keys). Each method is one ORM call of the app: a `create` that fails with
 * an integrity error when it would break a constraint, `get_or_create`, a
 * `save` of one field, or a cascading delete.
 */
module Store {
  import opened Tables
  import opened Models
  import opened Ratings

  class Database {
    var users: seq<UserId>
    var assignments: seq<Assignment>
    var votes: seq<Vote>
    var ratings: seq<Rating>
    var profiles: seq<Profile>
    var nextUserId: nat
    var nextAssignmentId: nat
    var nextVoteId: nat
    var nextRatingId: nat
    var nextProfileId: nat

    ghost predicate Valid()
      reads this
    {
      && Distinct(users)
      && (forall u :: u in users ==> u < nextUserId)
      && AssignmentsValid(users, assignments, nextAssignmentId)
      && VotesValid(users, assignments, votes, nextVoteId)
      && RatingsValid(users, votes, ratings, nextRatingId)
      && ProfilesValid(users, profiles, nextProfileId)
    }

    /** An empty database; ids start at 1. */
    constructor ()
      ensures Valid()
      ensures users == [] && assignments == [] && votes == [] && ratings == [] && profiles == []
    {
      users, assignments, votes, ratings, profiles := [], [], [], [], [];
      nextUserId, nextAssignmentId, nextVoteId, nextRatingId, nextProfileId := 1, 1, 1, 1, 1;
    }

    /** Registering a user. The `create_profile` post-save receiver then
        creates its profile, and `save_profile` saves it unchanged. */
    method CreateUser(now: int) returns (u: UserId)
      requires Valid()
      modifies this
      ensures Valid()
      ensures u !in old(users) && users == old(users) + [u]
      ensures profiles == old(profiles) + [Profile(old(nextProfileId), u, true, "", now)]
      ensures HasProfile(profiles, u)
      ensures old(AllHaveProfiles(users, profiles)) ==> AllHaveProfiles(users, profiles)
      ensures assignments == old(assignments) && votes == old(votes) && ratings == old(ratings)
    {
      u := nextUserId;
      AppendDistinct(users, u);
      users := users + [u];
      nextUserId := nextUserId + 1;
      var p := Profile(nextProfileId, u, true, "", now);
      AppendUnique(profiles, p, ProfileId);
      AppendUnique(profiles, p, ProfileUser);
      if AllHaveProfiles(old(users), profiles) {
        RegisteringKeepsProfilesComplete(old(users), profiles, p);
      }
      profiles := profiles + [p];
      nextProfileId := nextProfileId + 1;
      assert p in profiles;
    }

    /** A later save of an existing user: the `save_profile` receiver calls
        `instance.profile.save()`, which fails when the user has no profile.
        It cannot fail once every user has a profile, which `CreateUser`
        keeps and the profile backfill of the index view establishes. */
    method SaveExistingUser(u: UserId) returns (ok: bool)
      requires Valid() && u in users
      ensures ok <==> HasProfile(profiles, u)
      ensures AllHaveProfiles(users, profiles) ==> ok
    {
      ok := HasProfile(profiles, u);
    }

    /** `Profile.objects.create(user=u)`; the one-to-one link rejects a second
        profile. */
    method CreateProfile(u: UserId, now: int) returns (ok: bool)
      requires Valid() && u in users
      modifies this
      ensures Valid()
      ensures ok <==> !old(HasProfile(profiles, u))
      ensures ok ==> profiles == old(profiles) + [Profile(old(nextProfileId), u, true, "", now)]
      ensures !ok ==> profiles == old(profiles)
      ensures users == old(users) && assignments == old(assignments) && votes == old(votes) && ratings == old(ratings)
      ensures nextAssignmentId == old(nextAssignmentId) && nextVoteId == old(nextVoteId) && nextRatingId == old(nextRatingId)
    {
      if HasProfile(profiles, u) {
        return false;
      }
      var p := Profile(nextProfileId, u, true, "", now);
      AppendUnique(profiles, p, ProfileId);
      AppendUnique(profiles, p, ProfileUser);
      profiles := profiles + [p];
      nextProfileId := nextProfileId + 1;
      ok := true;
    }

    /** `Assignment.objects.create(...)`; fails when `user` already has an
        assignment for `week`, active or not. */
    method CreateAssignment(user: UserId, assignedTo: UserId, week: int, isActive: bool) returns (r: Option<Assignment>)
      requires Valid() && user in users && assignedTo in users
      modifies this
      ensures Valid()
      ensures r.None? <==> old(HasAssignmentKey(assignments, user, week))
      ensures r.Some? ==> r.value == Assignment(old(nextAssignmentId), user, assignedTo, week, isActive)
                          && assignments == old(assignments) + [r.value]
      ensures r.None? ==> assignments == old(assignments)
      ensures nextAssignmentId == old(nextAssignmentId) + (if r.Some? then 1 else 0)
      ensures users == old(users) && votes == old(votes) && ratings == old(ratings) && profiles == old(profiles)
      ensures nextVoteId == old(nextVoteId) && nextRatingId == old(nextRatingId) && nextProfileId == old(nextProfileId)
    {
      if HasAssignmentKey(assignments, user, week) {
        return None;
      }
      var a := Assignment(nextAssignmentId, user, assignedTo, week, isActive);
      AppendUnique(assignments, a, AssignmentId);
      AppendUnique(assignments, a, AssignmentKey);
      assert AssignmentIds(assignments + [a]) == AssignmentIds(assignments) + {a.id};
      assignments := assignments + [a];
      nextAssignmentId := nextAssignmentId + 1;
      r := Some(a);
    }

    /** `Vote.objects.create(...)`; fails when `voter` already voted in `week`
        or the assignment already has its vote. */
    method CreateVote(voter: UserId, recipient: UserId, assignmentId: nat, week: int, now: int) returns (r: Option<Vote>)
      requires Valid() && voter in users && recipient in users
      requires assignmentId in AssignmentIds(assignments)
      modifies this
      ensures Valid()
      ensures r.None? <==> old(HasVoteKey(votes, voter, week) || HasVoteFor(votes, assignmentId))
      ensures r.Some? ==> r.value == Vote(old(nextVoteId), voter, recipient, assignmentId, week, now)
                          && votes == old(votes) + [r.value]
      ensures r.None? ==> votes == old(votes)
      ensures nextVoteId == old(nextVoteId) + (if r.Some? then 1 else 0)
      ensures users == old(users) && assignments == old(assignments) && ratings == old(ratings) && profiles == old(profiles)
      ensures nextAssignmentId == old(nextAssignmentId) && nextRatingId == old(nextRatingId) && nextProfileId == old(nextProfileId)
    {
      if HasVoteKey(votes, voter, week) || HasVoteFor(votes, assignmentId) {
        return None;
      }
      var v := Vote(nextVoteId, voter, recipient, assignmentId, week, now);
      AppendUnique(votes, v, VoteId);
      AppendUnique(votes, v, VoteKey);
      AppendUnique(votes, v, VoteAssignment);
      assert VoteIds(votes + [v]) == VoteIds(votes) + {v.id};
      votes := votes + [v];
      nextVoteId := nextVoteId + 1;
      r := Some(v);
    }

    /** `Rating.objects.get_or_create(rater=rater, vote=vote, defaults=...)`:
        the position of the rating of `rater` on `vote`, created with the
        voter as rated user and the given score when there was none. */
    method GetOrCreateRating(rater: UserId, vote: Vote, score: int, now: int) returns (i: nat, created: bool)
      requires Valid() && rater in users && vote in votes
      modifies this
      ensures Valid()
      ensures created <==> old(FindRating(ratings, rater, vote.id)).None?
      ensures !created ==> ratings == old(ratings) && old(FindRating(ratings, rater, vote.id)) == Some(i)
      ensures created ==> ratings == old(ratings) + [NewRating(rater, vote, score, old(nextRatingId), now)]
                          && i == |old(ratings)|
      ensures i < |ratings| && RatingKey(ratings[i]) == (rater, vote.id)
      ensures users == old(users) && assignments == old(assignments) && votes == old(votes) && profiles == old(profiles)
    {
      match FindRating(ratings, rater, vote.id)
      case Some(j) =>
        i, created := j, false;
      case None =>
        var r := NewRating(rater, vote, score, nextRatingId, now);
        AppendUnique(ratings, r, RatingId);
        AppendUnique(ratings, r, RatingKey);
        i, created := |ratings|, true;
        ratings := ratings + [r];
        nextRatingId := nextRatingId + 1;
    }

    /** `rating.score = score; rating.save()`: only the score changes. */
    method SetRatingScore(i: nat, score: int)
      requires Valid() && i < |ratings|
      modifies this
      ensures Valid()
      ensures ratings == old(ratings)[i := old(ratings)[i].(score := score)]
      ensures users == old(users) && assignments == old(assignments) && votes == old(votes) && profiles == old(profiles)
    {
      var r := ratings[i].(score := score);
      UpdateUnique(ratings, i, r, RatingId);
      UpdateUnique(ratings, i, r, RatingKey);
      ratings := ratings[i := r];
    }

    /** The ratings of the given votes are deleted (first step of a cascade). */
    method DeleteRatingsOf(gone: set<nat>)
      requires Valid()
      modifies this
      ensures Valid()
      ensures ratings == Filter(old(ratings), KeepRatingOfOtherVotes(gone))
      ensures users == old(users) && assignments == old(assignments) && votes == old(votes) && profiles == old(profiles)
    {
      DeleteRatingsKeepsConstraints(users, votes, ratings, nextRatingId, gone);
      ratings := Filter(ratings, KeepRatingOfOtherVotes(gone));
    }

    /** Deleting a vote; its ratings go with it. */
    method DeleteVote(id: nat)
      requires Valid()
      modifies this
      ensures Valid()
      ensures votes == Filter(old(votes), KeepVote(id))
      ensures ratings == Filter(old(ratings), KeepRatingOfOtherVotes({id}))
      ensures users == old(users) && assignments == old(assignments) && profiles == old(profiles)
    {
      DeleteRatingsOf({id});
      DeleteVotesKeepsConstraints(users, assignments, votes, ratings, nextVoteId, nextRatingId, KeepVote(id));
      votes := Filter(votes, KeepVote(id));
    }

    /** Deleting an assignment; its vote and that vote's ratings go with it. */
    method DeleteAssignment(id: nat)
      requires Valid()
      modifies this
      ensures Valid()
      ensures assignments == Filter(old(assignments), KeepAssignment(id))
      ensures votes == Filter(old(votes), KeepVoteOfOtherAssignment(id))
      ensures ratings == Filter(old(ratings), KeepRatingOfOtherVotes(VoteIdsOf(old(votes), id)))
      ensures users == old(users) && profiles == old(profiles)
    {
      var gone := VoteIdsOf(votes, id);
      DeleteRatingsOf(gone);
      DeleteVotesKeepsConstraints(users, assignments, votes, ratings, nextVoteId, nextRatingId, KeepVoteOfOtherAssignment(id));
      votes := Filter(votes, KeepVoteOfOtherAssignment(id));
      DeleteAssignmentKeepsConstraints(users, assignments, votes, nextAssignmentId, nextVoteId, id);
      assignments := Filter(assignments, KeepAssignment(id));
    }
  }
}
