/**
 * The records of the votes app (`Assignment`, `Vote`, `Rating`, `Profile`),
 * the database constraints declared on them, and the two derived profile
 * figures computed on read.
 *
 * Users are identified by a natural number; the user table itself belongs to
 * the authentication framework and the model keeps only the identities.
 * Date-time fields are integer microseconds (see module Week).
 */
module Models {
  import opened Tables

  type UserId = nat

  /** Weekly buddy target of `user`; `week` is the `hour_interval` field. */
  datatype Assignment = Assignment(id: nat, user: UserId, assignedTo: UserId, week: int, isActive: bool)

  /** The vote mirroring an assignment; `assignment` is the one-to-one link. */
  datatype Vote = Vote(id: nat, voter: UserId, recipient: UserId, assignment: nat, week: int, timestamp: int)

  /** A recipient's rating of the user who voted for them. */
  datatype Rating = Rating(id: nat, rater: UserId, ratedUser: UserId, vote: nat, score: int, ratedAt: int)

  /** The one-to-one side record of a user. */
  datatype Profile = Profile(id: nat, user: UserId, isBestie: bool, bio: string, dateJoined: int)

  // Column projections used as keys of the constraints below.
  function AssignmentId(a: Assignment): nat { a.id }
  function AssignmentKey(a: Assignment): (UserId, int) { (a.user, a.week) }
  function VoteId(v: Vote): nat { v.id }
  function VoteKey(v: Vote): (UserId, int) { (v.voter, v.week) }
  function VoteAssignment(v: Vote): nat { v.assignment }
  function RatingId(r: Rating): nat { r.id }
  function RatingKey(r: Rating): (UserId, nat) { (r.rater, r.vote) }
  function ProfileId(p: Profile): nat { p.id }
  function ProfileUser(p: Profile): UserId { p.user }

  function AssignmentIds(assignments: seq<Assignment>): set<nat> {
    set a | a in assignments :: a.id
  }

  function VoteIds(votes: seq<Vote>): set<nat> {
    set v | v in votes :: v.id
  }

  /** The score choices declared on `Rating.score`: one to five stars. The
      database does not enforce them and neither does the rating view. */
  const ScoreChoices: seq<int> := [1, 2, 3, 4, 5]

  predicate ValidScore(score: int) {
    score in ScoreChoices
  }

  /** Assignment table: ids below the next auto-increment value, at most one
      row per (user, hour_interval), both users existing. */
  ghost predicate AssignmentsValid(users: seq<UserId>, assignments: seq<Assignment>, nextId: nat) {
    && Unique(assignments, AssignmentId)
    && Unique(assignments, AssignmentKey)
    && forall a :: a in assignments ==> a.id < nextId && a.user in users && a.assignedTo in users
  }

  /** Vote table: at most one row per (voter, hour_interval), at most one vote
      per assignment, and the assignment it points to exists. */
  ghost predicate VotesValid(users: seq<UserId>, assignments: seq<Assignment>, votes: seq<Vote>, nextId: nat) {
    && Unique(votes, VoteId)
    && Unique(votes, VoteKey)
    && Unique(votes, VoteAssignment)
    && forall v :: v in votes ==>
         v.id < nextId && v.assignment in AssignmentIds(assignments) && v.voter in users && v.recipient in users
  }

  /** Rating table: at most one row per (rater, vote), and the vote exists. */
  ghost predicate RatingsValid(users: seq<UserId>, votes: seq<Vote>, ratings: seq<Rating>, nextId: nat) {
    && Unique(ratings, RatingId)
    && Unique(ratings, RatingKey)
    && forall r :: r in ratings ==> r.id < nextId && r.vote in VoteIds(votes) && r.rater in users && r.ratedUser in users
  }

  /** Profile table: one-to-one with users. */
  ghost predicate ProfilesValid(users: seq<UserId>, profiles: seq<Profile>, nextId: nat) {
    && Unique(profiles, ProfileId)
    && Unique(profiles, ProfileUser)
    && forall p :: p in profiles ==> p.id < nextId && p.user in users
  }

  // Existence queries (`.filter(...).exists()`).

  predicate HasAssignmentKey(assignments: seq<Assignment>, user: UserId, week: int) {
    exists a :: a in assignments && a.user == user && a.week == week
  }

  predicate HasActiveAssignment(assignments: seq<Assignment>, week: int) {
    exists a :: a in assignments && a.week == week && a.isActive
  }

  predicate HasVoteKey(votes: seq<Vote>, voter: UserId, week: int) {
    exists v :: v in votes && v.voter == voter && v.week == week
  }

  predicate HasVoteFor(votes: seq<Vote>, assignmentId: nat) {
    exists v :: v in votes && v.assignment == assignmentId
  }

  predicate HasProfile(profiles: seq<Profile>, user: UserId) {
    exists p :: p in profiles && p.user == user
  }

  /** `user.profile` resolves for every user. */
  predicate AllHaveProfiles(users: seq<UserId>, profiles: seq<Profile>) {
    forall u :: u in users ==> HasProfile(profiles, u)
  }

  /** Registering a user together with its profile keeps every user
      provided with a profile. */
  lemma RegisteringKeepsProfilesComplete(users: seq<UserId>, profiles: seq<Profile>, p: Profile)
    requires AllHaveProfiles(users, profiles)
    ensures AllHaveProfiles(users + [p.user], profiles + [p])
  {
    assert p in profiles + [p];
    forall u | u in users ensures HasProfile(profiles + [p], u) {
      var q :| q in profiles && q.user == u;
      assert q in profiles + [p];
    }
  }

  /** The row filter `hour_interval=week, is_active=True`. */
  function ActiveIn(week: int): Assignment -> bool { (a: Assignment) => a.week == week && a.isActive }

  /** The active assignments of `week`, in table order. */
  function ActiveFor(assignments: seq<Assignment>, week: int): (r: seq<Assignment>)
    ensures forall a :: a in r <==> a in assignments && a.week == week && a.isActive
  {
    Filter(assignments, ActiveIn(week))
  }

  // Deletion with `on_delete=CASCADE`: an assignment takes its vote with it,
  // and a vote takes its ratings with it.

  function KeepAssignment(id: nat): Assignment -> bool { (a: Assignment) => a.id != id }
  function KeepVoteOfOtherAssignment(assignmentId: nat): Vote -> bool { (v: Vote) => v.assignment != assignmentId }
  function KeepVote(id: nat): Vote -> bool { (v: Vote) => v.id != id }
  function KeepRatingOfOtherVotes(voteIds: set<nat>): Rating -> bool { (r: Rating) => r.vote !in voteIds }

  /** The ids of the votes that point to assignment `assignmentId`. */
  function VoteIdsOf(votes: seq<Vote>, assignmentId: nat): set<nat> {
    set v | v in votes && v.assignment == assignmentId :: v.id
  }

  /** An assignment has at most one vote, so its deletion removes at most
      one vote. */
  lemma AssignmentHasAtMostOneVote(votes: seq<Vote>, assignmentId: nat)
    requires Unique(votes, VoteAssignment)
    ensures |VoteIdsOf(votes, assignmentId)| <= 1
  {
    var gone := VoteIdsOf(votes, assignmentId);
    forall x, y | x in gone && y in gone ensures x == y {
      var vx :| vx in votes && vx.assignment == assignmentId && vx.id == x;
      var vy :| vy in votes && vy.assignment == assignmentId && vy.id == y;
      var i :| 0 <= i < |votes| && votes[i] == vx;
      var j :| 0 <= j < |votes| && votes[j] == vy;
      assert VoteAssignment(votes[i]) == VoteAssignment(votes[j]);
    }
    if gone != {} {
      var x :| x in gone;
      assert gone == {x};
    }
  }

  // The cascade runs as the ORM runs it: first the ratings of the doomed
  // votes, then the votes, then the assignment. Each step keeps every
  // constraint.

  /** Deleting the ratings of some votes keeps the rating constraints. */
  lemma DeleteRatingsKeepsConstraints(users: seq<UserId>, votes: seq<Vote>, ratings: seq<Rating>, nextRatingId: nat, gone: set<nat>)
    requires RatingsValid(users, votes, ratings, nextRatingId)
    ensures RatingsValid(users, votes, Filter(ratings, KeepRatingOfOtherVotes(gone)), nextRatingId)
    ensures forall r :: r in Filter(ratings, KeepRatingOfOtherVotes(gone)) ==> r.vote !in gone
  {
    FilterUnique(ratings, KeepRatingOfOtherVotes(gone), RatingId);
    FilterUnique(ratings, KeepRatingOfOtherVotes(gone), RatingKey);
  }

  /** Deleting votes that no rating points to keeps the vote and rating
      constraints. */
  lemma DeleteVotesKeepsConstraints(users: seq<UserId>, assignments: seq<Assignment>, votes: seq<Vote>, ratings: seq<Rating>,
                                    nextVoteId: nat, nextRatingId: nat, keep: Vote -> bool)
    requires VotesValid(users, assignments, votes, nextVoteId)
    requires RatingsValid(users, votes, ratings, nextRatingId)
    requires forall r, v :: r in ratings && v in votes && v.id == r.vote ==> keep(v)
    ensures VotesValid(users, assignments, Filter(votes, keep), nextVoteId)
    ensures RatingsValid(users, Filter(votes, keep), ratings, nextRatingId)
  {
    var kept := Filter(votes, keep);
    FilterUnique(votes, keep, VoteId);
    FilterUnique(votes, keep, VoteKey);
    FilterUnique(votes, keep, VoteAssignment);
    forall r | r in ratings ensures r.vote in VoteIds(kept) {
      var v :| v in votes && v.id == r.vote;
      assert v in kept;
    }
  }

  /** Deleting an assignment that no vote points to keeps the assignment
      and vote constraints. */
  lemma DeleteAssignmentKeepsConstraints(users: seq<UserId>, assignments: seq<Assignment>, votes: seq<Vote>,
                                         nextAssignmentId: nat, nextVoteId: nat, id: nat)
    requires AssignmentsValid(users, assignments, nextAssignmentId)
    requires VotesValid(users, assignments, votes, nextVoteId)
    requires forall v :: v in votes ==> v.assignment != id
    ensures AssignmentsValid(users, Filter(assignments, KeepAssignment(id)), nextAssignmentId)
    ensures VotesValid(users, Filter(assignments, KeepAssignment(id)), votes, nextVoteId)
  {
    var kept := Filter(assignments, KeepAssignment(id));
    FilterUnique(assignments, KeepAssignment(id), AssignmentId);
    FilterUnique(assignments, KeepAssignment(id), AssignmentKey);
    forall v | v in votes ensures v.assignment in AssignmentIds(kept) {
      var a :| a in assignments && a.id == v.assignment;
      assert a in kept;
    }
  }

  /** `Profile.total_ratings`: how many ratings name `user` as the rated user. */
  function TotalRatings(ratings: seq<Rating>, user: UserId): (n: nat)
    ensures n <= |ratings|
    ensures n == 0 <==> forall r :: r in ratings ==> r.ratedUser != user
  {
    if ratings == [] then 0
    else (if ratings[0].ratedUser == user then 1 else 0) + TotalRatings(ratings[1..], user)
  }

  /** Sum of the scores of the ratings `user` received. */
  function ScoreSum(ratings: seq<Rating>, user: UserId): int {
    if ratings == [] then 0
    else (if ratings[0].ratedUser == user then ratings[0].score else 0) + ScoreSum(ratings[1..], user)
  }

  /** With every received score among the choices, the sum lies between one
      and five stars per rating. */
  lemma {:induction false} ScoreSumBounds(ratings: seq<Rating>, user: UserId)
    requires forall r :: r in ratings && r.ratedUser == user ==> ValidScore(r.score)
    ensures TotalRatings(ratings, user) <= ScoreSum(ratings, user) <= 5 * TotalRatings(ratings, user)
  {
    if ratings != [] {
      assert ratings[0] in ratings;
      assert forall r :: r in ratings[1..] ==> r in ratings;
      ScoreSumBounds(ratings[1..], user);
    }
  }

  /** `Profile.average_rating`: 0 when the user received no rating, otherwise
      the mean score (the rounding to one decimal is not modelled). */
  function AverageRating(ratings: seq<Rating>, user: UserId): (avg: real)
    ensures TotalRatings(ratings, user) == 0 ==> avg == 0.0
  {
    var n := TotalRatings(ratings, user);
    if n == 0 then 0.0 else ScoreSum(ratings, user) as real / n as real
  }

  /** When every received score is one of the declared choices, the average
      of a rated user lies between one and five stars. */
  lemma AverageRatingInRange(ratings: seq<Rating>, user: UserId)
    requires forall r :: r in ratings && r.ratedUser == user ==> ValidScore(r.score)
    requires TotalRatings(ratings, user) > 0
    ensures 1.0 <= AverageRating(ratings, user) <= 5.0
  {
    ScoreSumBounds(ratings, user);
    var s, n := ScoreSum(ratings, user), TotalRatings(ratings, user);
    QuotientBounds(s as real, n as real);
  }

  lemma QuotientBounds(s: real, n: real)
    requires 0.0 < n <= s <= 5.0 * n
    ensures 1.0 <= s / n <= 5.0
  {
  }
}
