/**
 * The rating table update done by the `submit_rating` view:
 * `Rating.objects.get_or_create(rater, vote, defaults=...)`, then, for a
 * rating that already existed, `rating.score = score; rating.save()`.
 */
module Ratings {
  import opened Tables
  import opened Models

  /** The position of the rating of `rater` on vote `voteId`, if any. */
  function FindRating(ratings: seq<Rating>, rater: UserId, voteId: nat): (r: Option<nat>)
    ensures r.Some? ==> r.value < |ratings| && RatingKey(ratings[r.value]) == (rater, voteId)
    ensures r.None? <==> forall x :: x in ratings ==> RatingKey(x) != (rater, voteId)
  {
    if ratings == [] then None
    else if RatingKey(ratings[0]) == (rater, voteId) then Some(0)
    else match FindRating(ratings[1..], rater, voteId)
      case None => None
      case Some(i) => Some(i + 1)
  }

  /** The rating row created when none exists: the rated user is the voter. */
  function NewRating(rater: UserId, vote: Vote, score: int, id: nat, now: int): Rating {
    Rating(id, rater, vote.voter, vote.id, score, now)
  }

  /** The rating table after get-or-create-then-overwrite: one row is added
      only when (rater, vote) had none, the rows already there keep their
      keys, and a row for (rater, vote) holds the new score. */
  function Upsert(ratings: seq<Rating>, rater: UserId, vote: Vote, score: int, newId: nat, now: int): (u: seq<Rating>)
    ensures |u| == |ratings| + (if FindRating(ratings, rater, vote.id).None? then 1 else 0)
    ensures forall j :: 0 <= j < |ratings| ==> RatingKey(u[j]) == RatingKey(ratings[j])
    ensures exists i :: 0 <= i < |u| && RatingKey(u[i]) == (rater, vote.id) && u[i].score == score
  {
    match FindRating(ratings, rater, vote.id)
    case Some(i) =>
      var u := ratings[i := ratings[i].(score := score)];
      assert RatingKey(u[i]) == (rater, vote.id) && u[i].score == score;
      u
    case None =>
      var u := ratings + [NewRating(rater, vote, score, newId, now)];
      assert RatingKey(u[|ratings|]) == (rater, vote.id) && u[|ratings|].score == score;
      u
  }

  /** The ids of the table lie below the next auto-increment value. */
  ghost predicate IdsBelow(ratings: seq<Rating>, nextId: nat) {
    forall r :: r in ratings ==> r.id < nextId
  }

  /** After a submission exactly one rating exists for (rater, vote) and it
      holds the submitted score. A new one names the voter as rated user; an
      existing one keeps every field but the score; no other row changes. */
  lemma UpsertLeavesOneRating(ratings: seq<Rating>, rater: UserId, vote: Vote, score: int, newId: nat, now: int)
    requires Unique(ratings, RatingKey) && Unique(ratings, RatingId)
    requires IdsBelow(ratings, newId)
    ensures var u := Upsert(ratings, rater, vote, score, newId, now);
      && Unique(u, RatingKey) && Unique(u, RatingId)
      && (exists i :: 0 <= i < |u| && RatingKey(u[i]) == (rater, vote.id) && u[i].score == score)
      && (FindRating(ratings, rater, vote.id).None? ==>
            u == ratings + [Rating(newId, rater, vote.voter, vote.id, score, now)])
      && (FindRating(ratings, rater, vote.id).Some? ==>
            |u| == |ratings|
            && forall j :: 0 <= j < |u| ==>
                 if RatingKey(ratings[j]) == (rater, vote.id) then u[j] == ratings[j].(score := score)
                 else u[j] == ratings[j])
  {
    var u := Upsert(ratings, rater, vote, score, newId, now);
    match FindRating(ratings, rater, vote.id)
    case Some(i) =>
      assert u[i].score == score;
      forall j, k | 0 <= j < k < |u| ensures RatingKey(u[j]) != RatingKey(u[k]) && RatingId(u[j]) != RatingId(u[k]) {
        assert RatingKey(u[j]) == RatingKey(ratings[j]) && RatingKey(u[k]) == RatingKey(ratings[k]);
      }
    case None =>
      var x := NewRating(rater, vote, score, newId, now);
      AppendUnique(ratings, x, RatingKey);
      AppendUnique(ratings, x, RatingId);
      assert u[|ratings|] == x;
  }

  /** Submitting twice for the same (rater, vote) leaves one rating, holding
      the latest score; the second submission adds no row. */
  lemma UpsertTwiceKeepsLatest(ratings: seq<Rating>, rater: UserId, vote: Vote, first: int, second: int, newId: nat, now: int, later: int)
    requires Unique(ratings, RatingKey) && Unique(ratings, RatingId)
    requires IdsBelow(ratings, newId)
    ensures var once := Upsert(ratings, rater, vote, first, newId, now);
            var twice := Upsert(once, rater, vote, second, newId + 1, later);
      && |twice| == |once| <= |ratings| + 1
      && Unique(twice, RatingKey)
      && exists i :: 0 <= i < |twice| && RatingKey(twice[i]) == (rater, vote.id) && twice[i].score == second
  {
    var once := Upsert(ratings, rater, vote, first, newId, now);
    UpsertLeavesOneRating(ratings, rater, vote, first, newId, now);
    assert IdsBelow(once, newId + 1);
    UpsertLeavesOneRating(once, rater, vote, second, newId + 1, later);
    var i :| 0 <= i < |once| && RatingKey(once[i]) == (rater, vote.id) && once[i].score == first;
    assert FindRating(once, rater, vote.id).Some?;
  }

  lemma {:induction false} TotalRatingsAppend(ratings: seq<Rating>, x: Rating, user: UserId)
    ensures TotalRatings(ratings + [x], user) == TotalRatings(ratings, user) + (if x.ratedUser == user then 1 else 0)
  {
    if ratings == [] {
      assert [x][1..] == [];
    } else {
      assert (ratings + [x])[1..] == ratings[1..] + [x];
      TotalRatingsAppend(ratings[1..], x, user);
    }
  }

  lemma {:induction false} TotalRatingsRescore(ratings: seq<Rating>, i: nat, score: int, user: UserId)
    requires i < |ratings|
    ensures TotalRatings(ratings[i := ratings[i].(score := score)], user) == TotalRatings(ratings, user)
  {
    if i > 0 {
      var u := ratings[i := ratings[i].(score := score)];
      assert u[1..] == ratings[1..][i - 1 := ratings[i].(score := score)];
      TotalRatingsRescore(ratings[1..], i - 1, score, user);
    }
  }

  /** `total_ratings` after a submission: the voter gains one rating when it
      is new; overwriting a score changes nobody's count. */
  lemma UpsertTotalRatings(ratings: seq<Rating>, rater: UserId, vote: Vote, score: int, newId: nat, now: int, user: UserId)
    ensures TotalRatings(Upsert(ratings, rater, vote, score, newId, now), user)
            == TotalRatings(ratings, user)
               + (if FindRating(ratings, rater, vote.id).None? && user == vote.voter then 1 else 0)
  {
    match FindRating(ratings, rater, vote.id)
    case Some(i) => TotalRatingsRescore(ratings, i, score, user);
    case None => TotalRatingsAppend(ratings, NewRating(rater, vote, score, newId, now), user);
  }
}
