/**
 * The weekly rotation built by the `index` view: in the shuffled user order,
 * the user at position i is assigned the user at position (i + 1) mod n, and
 * each assignment is mirrored by one vote. This module describes the rows the
 * view creates, as functions of the order, and proves what they form: a single
 * directed cycle through every user, with no self-assignment.
 */
module Rotation {
  import opened Tables
  import opened Models

  /** The assignee of position `i`: the next user in the order, and the first
      user for the last position (the view writes `(i + 1) % n`, see
      `NextPosIsMod`). */
  function Successor(order: seq<UserId>, i: nat): (s: UserId)
    requires i < |order|
    ensures i + 1 < |order| ==> s == order[i + 1]
    ensures i + 1 == |order| ==> s == order[0]
  {
    order[NextPos(|order|, i)]
  }

  /** The assignment created for position `i` of the order. */
  function CycleAssignment(order: seq<UserId>, week: int, firstId: nat, i: nat): Assignment
    requires i < |order|
  {
    Assignment(firstId + i, order[i], Successor(order, i), week, true)
  }

  /** The vote created together with the assignment of position `i`. */
  function CycleVote(order: seq<UserId>, week: int, firstAssignmentId: nat, firstVoteId: nat, now: int, i: nat): Vote
    requires i < |order|
  {
    Vote(firstVoteId + i, order[i], Successor(order, i), firstAssignmentId + i, week, now)
  }

  /** All assignments of a rotation, in creation order. */
  function CycleAssignments(order: seq<UserId>, week: int, firstId: nat): (c: seq<Assignment>)
    ensures |c| == |order|
  {
    seq(|order|, i requires 0 <= i < |order| => CycleAssignment(order, week, firstId, i))
  }

  /** All votes of a rotation, in creation order. */
  function CycleVotes(order: seq<UserId>, week: int, firstAssignmentId: nat, firstVoteId: nat, now: int): (vs: seq<Vote>)
    ensures |vs| == |order|
  {
    seq(|order|, i requires 0 <= i < |order| => CycleVote(order, week, firstAssignmentId, firstVoteId, now, i))
  }

  /** Row i of a rotation assigns the user at position i to its successor,
      active, for the week, and the vote of row i mirrors it; the ids are
      consecutive from the first free ones. */
  lemma CycleRows(order: seq<UserId>, week: int, firstAssignmentId: nat, firstVoteId: nat, now: int, i: nat)
    requires i < |order|
    ensures var a := CycleAssignments(order, week, firstAssignmentId)[i];
      && a.id == firstAssignmentId + i && a.user == order[i] && a.assignedTo == Successor(order, i)
      && a.week == week && a.isActive
    ensures var v := CycleVotes(order, week, firstAssignmentId, firstVoteId, now)[i];
      && v.id == firstVoteId + i && v.voter == order[i] && v.recipient == Successor(order, i)
      && v.assignment == firstAssignmentId + i && v.week == week && v.timestamp == now
  {
  }

  function Assignee(a: Assignment): UserId { a.assignedTo }

  /** The position after `i`, wrapping from the last position to the first. */
  function NextPos(n: nat, i: nat): nat
    requires i < n
  {
    if i + 1 < n then i + 1 else 0
  }

  /** The view's `(i + 1) % len(users_list)` is that wrapping step. */
  lemma NextPosIsMod(n: nat, i: nat)
    requires i < n
    ensures (i + 1) % n == NextPos(n, i)
  {
    if i + 1 < n {
      assert (i + 1) / n == 0;
    } else {
      assert (i + 1) / n == 1;
    }
  }

  /** The `assignee != assigner` guard of the view always holds: with at
      least two distinct users nobody is assigned to themselves. */
  lemma NoSelfAssignment(order: seq<UserId>, i: nat)
    requires Distinct(order) && |order| >= 2
    requires i < |order|
    ensures Successor(order, i) != order[i]
  {
  }

  /** Every user of the order is somebody's assignee: the user before them. */
  lemma SuccessorOnto(order: seq<UserId>, k: nat)
    requires k < |order|
    ensures var i := if k == 0 then |order| - 1 else k - 1; Successor(order, i) == order[k]
  {
  }

  /** Every created assignment is active, for the week, between users of
      the order, and never from a user to themselves. */
  lemma CycleEdgesProper(order: seq<UserId>, week: int, firstId: nat)
    requires Distinct(order) && |order| >= 2
    ensures var c := CycleAssignments(order, week, firstId);
      && |c| == |order|
      && forall a :: a in c ==>
           a.user in order && a.assignedTo in order && a.user != a.assignedTo && a.week == week && a.isActive
  {
    var c := CycleAssignments(order, week, firstId);
    forall a | a in c
      ensures a.user in order && a.assignedTo in order && a.user != a.assignedTo
    {
      var i :| 0 <= i < |c| && c[i] == a;
      NoSelfAssignment(order, i);
    }
  }

  /** Exactly one outgoing assignment per user of the order. */
  lemma OneOutgoingPerUser(order: seq<UserId>, week: int, firstId: nat)
    requires Distinct(order)
    ensures var c := CycleAssignments(order, week, firstId);
      && Unique(c, AssignmentKey)
      && forall u :: u in order ==> exists a :: a in c && a.user == u
  {
    var c := CycleAssignments(order, week, firstId);
    forall u | u in order ensures exists a :: a in c && a.user == u {
      var k :| 0 <= k < |order| && order[k] == u;
      assert c[k] in c;
    }
  }

  /** Exactly one incoming assignment per user of the order. */
  lemma OneIncomingPerUser(order: seq<UserId>, week: int, firstId: nat)
    requires Distinct(order)
    ensures var c := CycleAssignments(order, week, firstId);
      && Unique(c, Assignee)
      && forall u :: u in order ==> exists a :: a in c && a.assignedTo == u
  {
    var c := CycleAssignments(order, week, firstId);
    var n := |order|;
    forall i, j | 0 <= i < j < n ensures Assignee(c[i]) != Assignee(c[j]) {
      assert NextPos(n, i) != NextPos(n, j);
    }
    forall u | u in order ensures exists a :: a in c && a.assignedTo == u {
      var k :| 0 <= k < n && order[k] == u;
      SuccessorOnto(order, k);
      assert c[if k == 0 then n - 1 else k - 1] in c;
    }
  }

  /** Each vote mirrors the assignment created with it, and the votes keep
      the vote table's constraints among themselves. */
  lemma CycleVotesMirrorAssignments(order: seq<UserId>, week: int, firstAssignmentId: nat, firstVoteId: nat, now: int)
    requires Distinct(order)
    ensures var c, vs := CycleAssignments(order, week, firstAssignmentId),
                         CycleVotes(order, week, firstAssignmentId, firstVoteId, now);
      && |vs| == |c| == |order|
      && (forall i :: 0 <= i < |vs| ==>
            vs[i].voter == c[i].user && vs[i].recipient == c[i].assignedTo
            && vs[i].assignment == c[i].id && vs[i].week == c[i].week)
      && Unique(vs, VoteId) && Unique(vs, VoteKey) && Unique(vs, VoteAssignment)
  {
  }

  /** Following assignees `k` times from `start`, looking each user's
      assignment up in `table`. */
  function Follow(table: seq<Assignment>, start: UserId, k: nat): Option<UserId> {
    if k == 0 then Some(start)
    else match Follow(table, start, k - 1)
      case None => None
      case Some(u) =>
        match AssignmentOf(table, u)
        case None => None
        case Some(a) => Some(a.assignedTo)
  }

  /** The first assignment of `user` in `table` (`filter(user=user).first()`). */
  function AssignmentOf(table: seq<Assignment>, user: UserId): (r: Option<Assignment>)
    ensures r.Some? ==> r.value in table && r.value.user == user
    ensures r.None? <==> forall a :: a in table ==> a.user != user
  {
    if table == [] then None
    else if table[0].user == user then Some(table[0])
    else AssignmentOf(table[1..], user)
  }

  lemma CycleAssignmentOf(order: seq<UserId>, week: int, firstId: nat, i: nat)
    requires Distinct(order)
    requires i < |order|
    ensures AssignmentOf(CycleAssignments(order, week, firstId), order[i])
            == Some(CycleAssignment(order, week, firstId, i))
  {
    var c := CycleAssignments(order, week, firstId);
    assert c[i] in c;
    var r := AssignmentOf(c, order[i]);
    var j :| 0 <= j < |c| && c[j] == r.value;
  }

  /** The position reached from `p` after `k` wrapping steps. */
  function Advance(n: nat, p: nat, k: nat): (r: nat)
    requires p < n
    ensures r < n
  {
    if k == 0 then p else NextPos(n, Advance(n, p, k - 1))
  }

  /** Within one round, `k` steps from `p` wrap at most once. */
  lemma {:induction false} AdvanceWithinRound(n: nat, p: nat, k: nat)
    requires p < n && k <= n
    ensures Advance(n, p, k) == if p + k < n then p + k else p + k - n
  {
    if k > 0 {
      AdvanceWithinRound(n, p, k - 1);
    }
  }

  /** Following assignees `k` times from the user at position `p` reaches the
      user at position `Advance(n, p, k)`. */
  lemma {:induction false} FollowAlongCycle(order: seq<UserId>, week: int, firstId: nat, p: nat, k: nat)
    requires Distinct(order)
    requires p < |order|
    ensures Follow(CycleAssignments(order, week, firstId), order[p], k) == Some(order[Advance(|order|, p, k)])
  {
    if k > 0 {
      FollowAlongCycle(order, week, firstId, p, k - 1);
      var i := Advance(|order|, p, k - 1);
      CycleAssignmentOf(order, week, firstId, i);
    }
  }

  /** Following the assignees n times from any user returns to that user. */
  lemma RotationClosesAfterN(order: seq<UserId>, week: int, firstId: nat, p: nat)
    requires Distinct(order)
    requires p < |order|
    ensures Follow(CycleAssignments(order, week, firstId), order[p], |order|) == Some(order[p])
  {
    FollowAlongCycle(order, week, firstId, p, |order|);
    AdvanceWithinRound(|order|, p, |order|);
  }

  /** No shorter walk returns: the cycle has length exactly n. */
  lemma RotationHasNoShorterCycle(order: seq<UserId>, week: int, firstId: nat, p: nat, k: nat)
    requires Distinct(order)
    requires p < |order| && 0 < k < |order|
    ensures Follow(CycleAssignments(order, week, firstId), order[p], k) != Some(order[p])
  {
    FollowAlongCycle(order, week, firstId, p, k);
    AdvanceWithinRound(|order|, p, k);
  }

  /** Every user is reached from every other within n steps. */
  lemma RotationReachesEveryone(order: seq<UserId>, week: int, firstId: nat, p: nat, q: nat)
    requires Distinct(order)
    requires p < |order| && q < |order|
    ensures exists k :: 0 <= k < |order| && Follow(CycleAssignments(order, week, firstId), order[p], k) == Some(order[q])
  {
    var n := |order|;
    var k := if q >= p then q - p else q + n - p;
    FollowAlongCycle(order, week, firstId, p, k);
    AdvanceWithinRound(n, p, k);
  }
}
