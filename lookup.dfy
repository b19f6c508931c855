/**
 * The unrated-vote query of the `index` view: among the votes the user
 * received in earlier weeks and has not rated yet, the one of the latest week
 * (`order_by('-hour_interval').first()`).
 */
module Lookup {
  import opened Tables
  import opened Models
  import opened Ratings

  /** `ratings__rater=user`: some rating of the vote is by `user`. */
  predicate RatedBy(ratings: seq<Rating>, voteId: nat, user: UserId) {
    exists r :: r in ratings && r.vote == voteId && r.rater == user
  }

  /** The filter and exclusion of the query. The exclusion agrees with the
      key `submit_rating` looks up: a vote is excluded exactly when the rating
      table has a row keyed (user, vote). */
  predicate AwaitsRating(v: Vote, ratings: seq<Rating>, user: UserId, currentWeek: int)
    ensures AwaitsRating(v, ratings, user, currentWeek) <==>
              v.recipient == user && v.week < currentWeek && FindRating(ratings, user, v.id).None?
  {
    v.recipient == user && v.week < currentWeek && !RatedBy(ratings, v.id, user)
  }

  /** The query result. Among votes of the same week the first in table order
      is returned. */
  function LatestUnrated(votes: seq<Vote>, ratings: seq<Rating>, user: UserId, currentWeek: int): (r: Option<Vote>)
    ensures r.Some? ==> r.value in votes && AwaitsRating(r.value, ratings, user, currentWeek)
    ensures r.Some? ==> forall v :: v in votes && AwaitsRating(v, ratings, user, currentWeek) ==> v.week <= r.value.week
    ensures r.None? <==> forall v :: v in votes ==> !AwaitsRating(v, ratings, user, currentWeek)
  {
    if votes == [] then None
    else
      var rest := LatestUnrated(votes[1..], ratings, user, currentWeek);
      if AwaitsRating(votes[0], ratings, user, currentWeek) && (rest.None? || rest.value.week <= votes[0].week)
      then Some(votes[0])
      else rest
  }

  /** Once the user rates the vote the query returned, the query no longer
      returns it. */
  lemma RatingRemovesVoteFromQuery(votes: seq<Vote>, ratings: seq<Rating>, user: UserId, currentWeek: int,
                                   score: int, newId: nat, now: int)
    requires LatestUnrated(votes, ratings, user, currentWeek).Some?
    ensures var v := LatestUnrated(votes, ratings, user, currentWeek).value;
            LatestUnrated(votes, Upsert(ratings, user, v, score, newId, now), user, currentWeek) != Some(v)
  {
    var v := LatestUnrated(votes, ratings, user, currentWeek).value;
    var after := Upsert(ratings, user, v, score, newId, now);
    assert FindRating(ratings, user, v.id).None?;
    assert after[|ratings|] in after;
  }
}
