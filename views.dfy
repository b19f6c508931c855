/**
 * The three views of the votes app that touch the database: `index` (profile
 * backfill, the weekly rotation, and the page it renders), `submit_rating`
 * and `get_assignments`. The clock reading and the shuffled user order are
 * parameters; a request is reduced to the fields the views read.
 *
 * The views run in autocommit mode: every `create` is committed on its own,
 * so an integrity error in the middle of the rotation leaves the rows created
 * before it in place and the request fails.
 */
module Views {
  import opened Tables
  import opened Models
  import opened Week
  import opened Rotation
  import opened Ratings
  import opened Lookup
  import opened Store

  /** `random.shuffle(users_list)`: some reordering of all users. */
  ghost predicate IsShuffleOf(order: seq<UserId>, users: seq<UserId>) {
    |order| == |users| && Distinct(order) && forall u :: u in order <==> u in users
  }

  /** A row that makes the creation for `u` in `week` fail: an assignment for
      (u, week), active or not, or a vote for (u, week). */
  predicate Blocks(assignments: seq<Assignment>, votes: seq<Vote>, u: UserId, week: int) {
    HasAssignmentKey(assignments, u, week) || HasVoteKey(votes, u, week)
  }

  /** What the rotation step of `index` did. `Conflict(p, onVote)`: the
      creation for position `p` raised an integrity error, at the vote when
      `onVote` (its assignment was created), else at the assignment. */
  datatype RotationOutcome = AlreadyActive | TooFewUsers | Built | Conflict(position: nat, onVote: bool)

  /** The assignments the rotation step has created, by outcome. */
  function AssignmentsMade(out: RotationOutcome, n: nat): nat {
    match out
    case Built => n
    case Conflict(p, onVote) => if onVote then p + 1 else p
    case _ => 0
  }

  /** The votes the rotation step has created, by outcome. */
  function VotesMade(out: RotationOutcome, n: nat): nat {
    match out
    case Built => n
    case Conflict(p, _) => p
    case _ => 0
  }

  /** The profile backfill of `index`: every user without a profile gets one. */
  method BackfillProfiles(db: Database, now: int)
    requires db.Valid()
    modifies db
    ensures db.Valid()
    ensures AllHaveProfiles(db.users, db.profiles)
    ensures old(db.profiles) <= db.profiles
    ensures forall p :: p in db.profiles[|old(db.profiles)|..] ==>
              !old(HasProfile(db.profiles, p.user)) && p.isBestie && p.bio == "" && p.dateJoined == now
    ensures db.users == old(db.users) && db.assignments == old(db.assignments)
    ensures db.votes == old(db.votes) && db.ratings == old(db.ratings)
    ensures db.nextAssignmentId == old(db.nextAssignmentId) && db.nextVoteId == old(db.nextVoteId)
    ensures db.nextRatingId == old(db.nextRatingId)
  {
    var i := 0;
    while i < |db.users|
      invariant 0 <= i <= |db.users|
      invariant db.Valid()
      invariant forall j :: 0 <= j < i ==> HasProfile(db.profiles, db.users[j])
      invariant old(db.profiles) <= db.profiles
      invariant forall p :: p in db.profiles[|old(db.profiles)|..] ==>
                  !old(HasProfile(db.profiles, p.user)) && p.isBestie && p.bio == "" && p.dateJoined == now
      invariant db.users == old(db.users) && db.assignments == old(db.assignments)
      invariant db.votes == old(db.votes) && db.ratings == old(db.ratings)
      invariant db.nextAssignmentId == old(db.nextAssignmentId) && db.nextVoteId == old(db.nextVoteId)
      invariant db.nextRatingId == old(db.nextRatingId)
    {
      var u := db.users[i];
      if !HasProfile(db.profiles, u) {
        ghost var before := db.profiles;
        var ok := db.CreateProfile(u, now);
        assert db.profiles[|old(db.profiles)|..] == before[|old(db.profiles)|..] + [db.profiles[|before|]];
      }
      i := i + 1;
    }
  }

  /** Within a rotation, the rows created for earlier positions never clash
      with the creation for a later position. */
  lemma EarlierPositionsDoNotBlock(assignments: seq<Assignment>, votes: seq<Vote>, order: seq<UserId>, week: int,
                                    firstAssignmentId: nat, firstVoteId: nat, now: int, i: nat)
    requires Distinct(order) && i < |order|
    ensures !HasAssignmentKey(CycleAssignments(order, week, firstAssignmentId)[..i], order[i], week)
    ensures !HasVoteKey(CycleVotes(order, week, firstAssignmentId, firstVoteId, now)[..i], order[i], week)
    ensures var tables := assignments + CycleAssignments(order, week, firstAssignmentId)[..i];
      HasAssignmentKey(tables, order[i], week) <==> HasAssignmentKey(assignments, order[i], week)
    ensures Blocks(assignments + CycleAssignments(order, week, firstAssignmentId)[..i],
                   votes + CycleVotes(order, week, firstAssignmentId, firstVoteId, now)[..i], order[i], week)
        <==> Blocks(assignments, votes, order[i], week)
  {
    var c := CycleAssignments(order, week, firstAssignmentId)[..i];
    var cv := CycleVotes(order, week, firstAssignmentId, firstVoteId, now)[..i];
    forall a | a in c ensures a.user != order[i] {
      var j :| 0 <= j < i && c[j] == a;
      assert a.user == order[j] && Identity(order[j]) != Identity(order[i]);
    }
    forall v | v in cv ensures v.voter != order[i] {
      var j :| 0 <= j < i && cv[j] == v;
      assert v.voter == order[j] && Identity(order[j]) != Identity(order[i]);
    }
    if HasAssignmentKey(assignments + c, order[i], week) {
      var a :| a in assignments + c && a.user == order[i] && a.week == week;
      assert a in assignments;
    }
    if HasVoteKey(votes + cv, order[i], week) {
      var v :| v in votes + cv && v.voter == order[i] && v.week == week;
      assert v in votes;
    }
  }

  /** One iteration of the rotation loop: the assignment of position `i` to
      its successor, then the vote mirroring it. `None` when both were
      created; `Some(onVote)` when a creation raised an integrity error. */
  method CreatePair(db: Database, order: seq<UserId>, week: int, i: nat, now: int,
                    ghost firstAssignmentId: nat, ghost firstVoteId: nat) returns (failed: Option<bool>)
    requires db.Valid() && Distinct(order) && |order| >= 2 && i < |order|
    requires forall u :: u in order ==> u in db.users
    requires db.nextAssignmentId == firstAssignmentId + i && db.nextVoteId == firstVoteId + i
    modifies db
    ensures db.Valid()
    ensures failed.None? <==> !old(Blocks(db.assignments, db.votes, order[i], week))
    ensures failed.Some? ==> (failed.value <==> !old(HasAssignmentKey(db.assignments, order[i], week)))
    ensures var made := failed.None? || failed.value;
      && db.assignments == old(db.assignments) + (if made then [CycleAssignment(order, week, firstAssignmentId, i)] else [])
      && db.nextAssignmentId == old(db.nextAssignmentId) + (if made then 1 else 0)
    ensures db.votes == old(db.votes)
              + (if failed.None? then [CycleVote(order, week, firstAssignmentId, firstVoteId, now, i)] else [])
    ensures db.nextVoteId == old(db.nextVoteId) + (if failed.None? then 1 else 0)
    ensures db.users == old(db.users) && db.ratings == old(db.ratings) && db.profiles == old(db.profiles)
  {
    var n := |order|;
    NextPosIsMod(n, i);
    var assigner := order[i];
    var assignee := order[(i + 1) % n];
    NoSelfAssignment(order, i);
    if assignee != assigner {
      assert forall v :: v in db.votes ==> v.assignment < db.nextAssignmentId;
      var a := db.CreateAssignment(assigner, assignee, week, true);
      if a.None? {
        return Some(false);
      }
      var v := db.CreateVote(assigner, assignee, a.value.id, week, now);
      if v.None? {
        return Some(true);
      }
    }
    return None;
  }

  /** The loop of the rotation step, entered when no active assignment
      exists for the week and there are at least two users: the user at
      position i is assigned the user at position (i + 1) mod n, and a vote
      mirroring the assignment is created with it. It stops at the first
      integrity error, keeping what it created before. */
  method CreateRotation(db: Database, week: int, order: seq<UserId>, now: int) returns (out: RotationOutcome)
    requires db.Valid() && IsShuffleOf(order, db.users) && |order| >= 2
    modifies db
    ensures db.Valid()
    ensures out.Built? || out.Conflict?
    ensures out == Built <==> forall i :: 0 <= i < |order| ==> !old(Blocks(db.assignments, db.votes, order[i], week))
    ensures out.Conflict? ==>
              && out.position < |order|
              && (forall i :: 0 <= i < out.position ==> !old(Blocks(db.assignments, db.votes, order[i], week)))
              && old(Blocks(db.assignments, db.votes, order[out.position], week))
              && (out.onVote <==> !old(HasAssignmentKey(db.assignments, order[out.position], week)))
    ensures AssignmentsMade(out, |order|) <= |order| && VotesMade(out, |order|) <= |order|
    ensures db.assignments == old(db.assignments)
              + CycleAssignments(order, week, old(db.nextAssignmentId))[..AssignmentsMade(out, |order|)]
    ensures db.votes == old(db.votes)
              + CycleVotes(order, week, old(db.nextAssignmentId), old(db.nextVoteId), now)[..VotesMade(out, |order|)]
    ensures db.users == old(db.users) && db.ratings == old(db.ratings) && db.profiles == old(db.profiles)
  {
    var n := |order|;
    ghost var oldA, oldV := db.assignments, db.votes;
    ghost var c := CycleAssignments(order, week, db.nextAssignmentId);
    ghost var cv := CycleVotes(order, week, db.nextAssignmentId, db.nextVoteId, now);
    ghost var firstA, firstV := db.nextAssignmentId, db.nextVoteId;
    var i := 0;
    while i < n
      invariant 0 <= i <= n
      invariant db.Valid()
      invariant db.assignments == oldA + c[..i] && db.votes == oldV + cv[..i]
      invariant db.nextAssignmentId == firstA + i && db.nextVoteId == firstV + i
      invariant forall j :: 0 <= j < i ==> !Blocks(oldA, oldV, order[j], week)
      invariant db.users == old(db.users) && db.ratings == old(db.ratings) && db.profiles == old(db.profiles)
    {
      EarlierPositionsDoNotBlock(oldA, oldV, order, week, firstA, firstV, now, i);
      var failed := CreatePair(db, order, week, i, now, firstA, firstV);
      if failed.Some? {
        out := Conflict(i, failed.value);
        if failed.value {
          PrefixExtends(oldA, c, i);
        }
        return;
      }
      PrefixExtends(oldA, c, i);
      PrefixExtends(oldV, cv, i);
      i := i + 1;
    }
    assert c[..n] == c && cv[..n] == cv;
    return Built;
  }

  /** The rotation step of `index` for the week starting at `week`, with
      `order` the shuffled user list: nothing happens when an active
      assignment exists for the week or there are fewer than two users. */
  method BuildRotation(db: Database, week: int, order: seq<UserId>, now: int) returns (out: RotationOutcome)
    requires db.Valid() && IsShuffleOf(order, db.users)
    modifies db
    ensures db.Valid()
    ensures out == AlreadyActive <==> old(HasActiveAssignment(db.assignments, week))
    ensures out == TooFewUsers <==> !old(HasActiveAssignment(db.assignments, week)) && |order| <= 1
    ensures out == Built <==>
              && !old(HasActiveAssignment(db.assignments, week)) && |order| >= 2
              && forall i :: 0 <= i < |order| ==> !old(Blocks(db.assignments, db.votes, order[i], week))
    ensures out.Conflict? ==>
              && out.position < |order|
              && (forall i :: 0 <= i < out.position ==> !old(Blocks(db.assignments, db.votes, order[i], week)))
              && old(Blocks(db.assignments, db.votes, order[out.position], week))
              && (out.onVote <==> !old(HasAssignmentKey(db.assignments, order[out.position], week)))
    ensures AssignmentsMade(out, |order|) <= |order| && VotesMade(out, |order|) <= |order|
    ensures db.assignments == old(db.assignments)
              + CycleAssignments(order, week, old(db.nextAssignmentId))[..AssignmentsMade(out, |order|)]
    ensures db.votes == old(db.votes)
              + CycleVotes(order, week, old(db.nextAssignmentId), old(db.nextVoteId), now)[..VotesMade(out, |order|)]
    ensures db.users == old(db.users) && db.ratings == old(db.ratings) && db.profiles == old(db.profiles)
  {
    if HasActiveAssignment(db.assignments, week) {
      return AlreadyActive;
    }
    if |order| <= 1 {
      return TooFewUsers;
    }
    out := CreateRotation(db, week, order, now);
  }

  /** After a built rotation, the week's active assignments are exactly the
      rotation (the table held none for the week before), so the next page
      load finds them and creates nothing. */
  lemma BuiltRotationIsTheWeek(assignments: seq<Assignment>, order: seq<UserId>, week: int, firstId: nat)
    requires !HasActiveAssignment(assignments, week) && |order| >= 1
    ensures ActiveFor(assignments + CycleAssignments(order, week, firstId), week) == CycleAssignments(order, week, firstId)
    ensures HasActiveAssignment(assignments + CycleAssignments(order, week, firstId), week)
  {
    var c := CycleAssignments(order, week, firstId);
    FilterConcat(assignments, c, ActiveIn(week));
    FilterKeepsAll(c, ActiveIn(week));
    FilterDropsAll(assignments, ActiveIn(week));
    assert c[0] in assignments + c;
  }

  /** What the `index` page shows. */
  datatype IndexPage = IndexPage(
    currentInterval: int,
    allAssignments: seq<Assignment>,
    userAssignment: Option<Assignment>,
    unratedVote: Option<Vote>,
    daysRemaining: int,
    hoursRemaining: int,
    nextWeek: int)

  /** `ServerError`: the integrity error of a failed rotation escapes the view. */
  datatype IndexResponse = Page(page: IndexPage) | ServerError

  /** The `index` view for `user` at time `now`, with `order` the outcome of
      the shuffle. `rotation` reports what the rotation step did; the view
      itself returns only the page or the error. */
  method Index(db: Database, user: UserId, now: int, order: seq<UserId>)
    returns (resp: IndexResponse, ghost rotation: RotationOutcome)
    requires db.Valid() && IsShuffleOf(order, db.users)
    modifies db
    ensures db.Valid()
    // Profile backfill.
    ensures AllHaveProfiles(db.users, db.profiles)
    ensures old(db.profiles) <= db.profiles
    ensures forall p :: p in db.profiles[|old(db.profiles)|..] ==>
              !old(HasProfile(db.profiles, p.user)) && p.isBestie && p.bio == "" && p.dateJoined == now
    // Rotation step.
    ensures rotation == AlreadyActive <==> old(HasActiveAssignment(db.assignments, WeekStart(now)))
    ensures rotation == TooFewUsers <==> !old(HasActiveAssignment(db.assignments, WeekStart(now))) && |order| <= 1
    ensures rotation == Built <==>
              && !old(HasActiveAssignment(db.assignments, WeekStart(now))) && |order| >= 2
              && forall i :: 0 <= i < |order| ==> !old(Blocks(db.assignments, db.votes, order[i], WeekStart(now)))
    ensures rotation.Conflict? ==>
              && rotation.position < |order|
              && (forall i :: 0 <= i < rotation.position ==> !old(Blocks(db.assignments, db.votes, order[i], WeekStart(now))))
              && old(Blocks(db.assignments, db.votes, order[rotation.position], WeekStart(now)))
              && (rotation.onVote <==> !old(HasAssignmentKey(db.assignments, order[rotation.position], WeekStart(now))))
    ensures AssignmentsMade(rotation, |order|) <= |order| && VotesMade(rotation, |order|) <= |order|
    ensures db.assignments == old(db.assignments)
              + CycleAssignments(order, WeekStart(now), old(db.nextAssignmentId))[..AssignmentsMade(rotation, |order|)]
    ensures db.votes == old(db.votes)
              + CycleVotes(order, WeekStart(now), old(db.nextAssignmentId), old(db.nextVoteId), now)[..VotesMade(rotation, |order|)]
    ensures rotation == Built ==>
              ActiveFor(db.assignments, WeekStart(now)) == CycleAssignments(order, WeekStart(now), old(db.nextAssignmentId))
    // Response.
    ensures resp.ServerError? <==> rotation.Conflict?
    ensures resp.ServerError? <==>
              && !old(HasActiveAssignment(db.assignments, WeekStart(now))) && |order| >= 2
              && exists i :: 0 <= i < |order| && old(Blocks(db.assignments, db.votes, order[i], WeekStart(now)))
    ensures resp.Page? ==>
              var week := WeekStart(now);
              var table := ActiveFor(db.assignments, week);
              resp.page == IndexPage(week, table, AssignmentOf(table, user),
                                     LatestUnrated(db.votes, db.ratings, user, week),
                                     DaysRemaining(now), HoursRemaining(now), NextWeek(now))
    ensures db.users == old(db.users) && db.ratings == old(db.ratings)
  {
    var week := WeekStart(now);
    BackfillProfiles(db, now);
    ghost var before := db.assignments;
    var out := BuildRotation(db, week, order, now);
    rotation := out;
    if out.Conflict? {
      assert old(Blocks(db.assignments, db.votes, order[out.position], week));
      return ServerError, rotation;
    }
    if out == Built {
      ghost var c := CycleAssignments(order, week, old(db.nextAssignmentId));
      assert c[..|order|] == c;
      assert db.assignments == before + c;
      BuiltRotationIsTheWeek(before, order, week, old(db.nextAssignmentId));
    }
    assert !exists i :: 0 <= i < |order| && old(Blocks(db.assignments, db.votes, order[i], week))
                        && !old(HasActiveAssignment(db.assignments, week)) && |order| >= 2;
    var table := ActiveFor(db.assignments, week);
    var page := IndexPage(week, table, AssignmentOf(table, user),
                          LatestUnrated(db.votes, db.ratings, user, week),
                          DaysRemaining(now), HoursRemaining(now), NextWeek(now));
    return Page(page), rotation;
  }

  /** `Vote.objects.get(id=id)`. */
  function FindVote(votes: seq<Vote>, id: nat): (r: Option<Vote>)
    ensures r.Some? ==> r.value in votes && r.value.id == id
    ensures r.None? <==> forall v :: v in votes ==> v.id != id
  {
    if votes == [] then None
    else if votes[0].id == id then Some(votes[0])
    else FindVote(votes[1..], id)
  }

  /** The JSON answers of `submit_rating`. */
  datatype RatingResponse = Submitted | InvalidRating | VoteNotFound | InvalidRequest

  /** The `submit_rating` view: `isPost` is the request method test,
      `voteId` the posted vote id (`None` when absent) and `score` the posted
      score, stored as given. */
  method SubmitRating(db: Database, rater: UserId, isPost: bool, voteId: Option<nat>, score: int, now: int)
    returns (resp: RatingResponse)
    requires db.Valid() && rater in db.users
    modifies db
    ensures db.Valid()
    ensures !isPost <==> resp == InvalidRequest
    ensures resp == VoteNotFound <==> isPost && (voteId.None? || FindVote(db.votes, voteId.value).None?)
    ensures resp == InvalidRating <==>
              isPost && voteId.Some? && FindVote(db.votes, voteId.value).Some?
              && FindVote(db.votes, voteId.value).value.recipient != rater
    ensures resp == Submitted ==>
              && voteId.Some? && FindVote(db.votes, voteId.value).Some?
              && db.ratings == Upsert(old(db.ratings), rater, FindVote(db.votes, voteId.value).value, score,
                                      old(db.nextRatingId), now)
              && exists i :: 0 <= i < |db.ratings| && RatingKey(db.ratings[i]) == (rater, voteId.value)
                             && db.ratings[i].score == score
    ensures resp != Submitted ==> db.ratings == old(db.ratings)
    ensures db.users == old(db.users) && db.assignments == old(db.assignments)
    ensures db.votes == old(db.votes) && db.profiles == old(db.profiles)
  {
    if !isPost {
      return InvalidRequest;
    }
    if voteId.None? {
      return VoteNotFound;
    }
    var found := FindVote(db.votes, voteId.value);
    if found.None? {
      return VoteNotFound;
    }
    var vote := found.value;
    if vote.recipient != rater {
      return InvalidRating;
    }
    UpsertLeavesOneRating(db.ratings, rater, vote, score, db.nextRatingId, now);
    var i, created := db.GetOrCreateRating(rater, vote, score, now);
    if !created {
      db.SetRatingScore(i, score);
    }
    return Submitted;
  }

  /** The JSON of `get_assignments`: the (assigner, assignee) pairs of the
      week's active assignments, the week start and the remaining time. */
  datatype Roster = Roster(pairs: seq<(UserId, UserId)>, interval: int, daysRemaining: int, hoursRemaining: int)

  /** The `get_assignments` view; it only reads. */
  function GetAssignments(db: Database, now: int): (r: Roster)
    reads db
    ensures IsWeekStart(r.interval) && r.interval <= now < r.interval + MicrosPerWeek
    ensures |r.pairs| == |ActiveFor(db.assignments, r.interval)|
    ensures forall i :: 0 <= i < |r.pairs| ==>
              var a := ActiveFor(db.assignments, r.interval)[i];
              r.pairs[i] == (a.user, a.assignedTo) && a.week == r.interval && a.isActive && a in db.assignments
    ensures r.interval == WeekStart(now)
    ensures r.daysRemaining == DaysRemaining(now) && r.hoursRemaining == HoursRemaining(now)
    ensures 0 <= r.daysRemaining <= 7 && 0 <= r.hoursRemaining <= 23
    ensures r.daysRemaining * MicrosPerDay + r.hoursRemaining * MicrosPerHour <= TimeRemaining(now)
            < r.daysRemaining * MicrosPerDay + (r.hoursRemaining + 1) * MicrosPerHour
  {
    RemainingSplitsIntoDaysAndHours(now);
    var week := WeekStart(now);
    var table := ActiveFor(db.assignments, week);
    Roster(seq(|table|, i requires 0 <= i < |table| => (table[i].user, table[i].assignedTo)),
           week, DaysRemaining(now), HoursRemaining(now))
  }

  /** Once the rotation of the week is built, the roster lists every user
      exactly once as assigner, each followed by their successor in the
      shuffled order. */
  lemma RosterAfterRotation(db: Database, now: int, order: seq<UserId>, firstId: nat)
    requires Distinct(order)
    requires ActiveFor(db.assignments, WeekStart(now)) == CycleAssignments(order, WeekStart(now), firstId)
    ensures var r := GetAssignments(db, now);
      && |r.pairs| == |order|
      && (forall i :: 0 <= i < |order| ==> r.pairs[i] == (order[i], Successor(order, i)))
      && (forall p :: p in r.pairs <==> exists i :: 0 <= i < |order| && p == (order[i], Successor(order, i)))
      && (forall i, j :: 0 <= i < j < |r.pairs| ==> r.pairs[i].0 != r.pairs[j].0 && r.pairs[i].1 != r.pairs[j].1)
  {
    var r := GetAssignments(db, now);
    OneIncomingPerUser(order, WeekStart(now), firstId);
    forall i, j | 0 <= i < j < |r.pairs| ensures r.pairs[i].1 != r.pairs[j].1 {
      assert Assignee(CycleAssignments(order, WeekStart(now), firstId)[i]) == r.pairs[i].1;
      assert Assignee(CycleAssignments(order, WeekStart(now), firstId)[j]) == r.pairs[j].1;
    }
  }
}
