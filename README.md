# Weekly secret-buddy rotation of the amiga votes app

This project models the core of the `votes` app, a Django site where friends are paired each week. On every page load, the `index` view backfills missing profiles. At a load that finds no active assignment for the week (normally the week's first load) it also:

1. shuffles the users;
2. assigns each user to the next one in the shuffled order, wrapping around;
3. creates one vote mirroring each assignment.

In later weeks, each recipient rates the user who voted for them.

The model covers:

- the week arithmetic;
- the four tables (assignments, votes, ratings, profiles), with their declared constraints and cascades;
- each ORM call the views make;
- the three views `index`, `submit_rating` and `get_assignments`.

It also proves what the rotation forms: a single cycle through all users, with no self-assignment.

Modules:

- `Week`: timestamps are integer microseconds from an epoch that is a Monday midnight UTC (the site runs in UTC). It holds the week start, the next week, and the remaining days and hours.
- `Tables`: row filtering, plus uniqueness of a key over a table.
- `Models`: the records, the constraints as predicates, the cascade steps, `total_ratings` and `average_rating`.
- `Store`: class `Database`. Its fields are the tables and the auto-increment counters, and `Valid()` holds every declared constraint. Each method is one ORM call. A `create` that would break a constraint fails with `None`, standing for the integrity error.
- `Rotation`: the rows a rotation creates, as functions of the shuffled order, with the cycle lemmas.
- `Ratings`: `get_or_create` followed by a score overwrite, as a table function `Upsert`.
- `Lookup`: the unrated-vote query of `index`.
- `Views`: the profile backfill loop, the rotation loop, and the `index`, `submit_rating` and `get_assignments` views.

What the code does, and so what the model does:

- The week is anchored on Monday 00:00 UTC.
- The only check before building a rotation is that no active assignment exists for the week.
- With fewer than two users nothing is created.
- The rating view stores the posted score without checking it.

Requests run in autocommit mode: no `ATOMIC_REQUESTS` setting is made. An integrity error in the middle of the rotation therefore keeps the rows created before it, and the view fails. The model's outcome for this is `Conflict`.

The integrity error happens when the week already has an inactive assignment for a user, or a vote keyed on (user, week). The check at `votes/views.py:42` filters on `is_active=True`, but the unique key (user, hour_interval) ignores `is_active`.

## Model

| member | source | states |
|---|---|---|
| Week.Weekday | votes/views.py:32 | the weekday lies in 0..6, Monday being 0 |
| Week.WeekStart | votes/views.py:30-33 | the computed week start is a Monday at 00:00:00.000, at most `now` and less than seven days before it |
| Week.WeekStartUnique | votes/views.py:31-33 | any Monday midnight within seven days before `now` is the computed week start |
| Week.SameWeekSameStart | votes/views.py:31-33 | every instant of one Monday-to-Monday week gets the same week start |
| Week.WeekStartMonotonic | votes/views.py:31-33 | a later instant never gets an earlier week start |
| Week.WeekStartAdvancesAtBoundary | votes/views.py:31-33 | the week start of a Monday midnight is itself; one microsecond earlier gives the previous week |
| Week.WeekStartIsMultipleOfWeek | amiga/settings.py:127 | in UTC, the week starts are exactly the multiples of seven days from the Monday epoch |
| Week.NextWeek | votes/views.py:80 | `next_week` is a week start, strictly after `now` and at most seven days later |
| Week.TimeRemaining | votes/views.py:81 | the remaining time lies in (0, 7 days] |
| Week.DaysRemaining | votes/views.py:88 | `days_remaining` lies in 0..7 |
| Week.HoursRemaining | votes/views.py:89 | `hours_remaining` lies in 0..23 |
| Week.RemainingSplitsIntoDaysAndHours | votes/views.py:88-89 | days and hours together are the remaining time truncated to the whole hour |
| Week.SevenDaysOnlyAtWeekStart | votes/views.py:80-89 | seven whole days remain exactly when `now` is a week start |
| Tables.Filter | votes/views.py:64 | a filtered table holds exactly the rows of the table that pass the filter |
| Tables.FilterUnique | votes/models.py:14-15 | deleting rows never breaks a uniqueness constraint |
| Tables.FilterConcat | votes/views.py:64 | filtering a table with appended rows filters both parts |
| Models.RegisteringKeepsProfilesComplete | votes/models.py:68-71 | when every user has a profile, adding a user together with its profile keeps it so |
| Models.ActiveFor | votes/views.py:64 | the week's active assignments are exactly the table rows with that week that are active |
| Models.AssignmentHasAtMostOneVote | votes/models.py:24 | the one-to-one link leaves at most one vote per assignment |
| Models.DeleteRatingsKeepsConstraints | votes/models.py:38 | deleting the ratings of some votes keeps the rating constraints and leaves no rating of those votes |
| Models.DeleteVotesKeepsConstraints | votes/models.py:24 | deleting votes that no remaining rating points to keeps the vote and rating constraints |
| Models.DeleteAssignmentKeepsConstraints | votes/models.py:14-24 | deleting an assignment that no vote points to keeps the assignment and vote constraints |
| Models.TotalRatings | votes/models.py:64-66 | `total_ratings` is at most the table size, and is zero exactly when no rating names the user as rated user |
| Models.ScoreSumBounds | votes/models.py:39 | with scores among the choices, the score sum lies between one and five per rating |
| Models.AverageRating | votes/models.py:57-62 | `average_rating` is 0 when the user has received no rating |
| Models.AverageRatingInRange | votes/models.py:39 | with scores among the choices 1..5, the average of a rated user lies in [1, 5] |
| Store.Database.constructor | votes/models.py:7-55 | an empty database satisfies every constraint |
| Store.Database.CreateUser | votes/models.py:68-75 | registering a user appends it and exactly one fresh profile for it, keeps every constraint, and keeps every user provided with a profile |
| Store.Database.SaveExistingUser | votes/models.py:73-75 | saving an existing user fails exactly when `user.profile` does not resolve, and cannot fail once every user has a profile (which `CreateUser` keeps and `BackfillProfiles` establishes) |
| Store.Database.CreateProfile | votes/models.py:48-49 | a profile is created exactly when the user has none; the one-to-one link holds after |
| Store.Database.CreateAssignment | votes/models.py:14-15 | creating an assignment fails exactly when (user, week) is taken, active or not; otherwise the row is appended with the next id |
| Store.Database.CreateVote | votes/models.py:24-29 | creating a vote fails exactly when (voter, week) is taken or the assignment has its vote; otherwise the row is appended |
| Store.Database.GetOrCreateRating | votes/views.py:106-110 | returns the existing rating of (rater, vote), or appends one naming the voter as rated user; the key stays unique |
| Store.Database.SetRatingScore | votes/views.py:112-114 | saving a new score changes that field only and keeps every constraint |
| Store.Database.DeleteRatingsOf | votes/models.py:38 | removes exactly the ratings of the given votes and keeps every constraint |
| Store.Database.DeleteVote | votes/models.py:38 | deleting a vote removes it and its ratings and keeps every constraint |
| Store.Database.DeleteAssignment | votes/models.py:24 | deleting an assignment removes it, its vote and that vote's ratings, and keeps every constraint |
| Rotation.Successor | votes/views.py:48 | the assignee of position i is the user at i + 1, and the first user for the last position |
| Rotation.CycleAssignments | votes/views.py:47-55 | a rotation creates one assignment per position of the order |
| Rotation.CycleVotes | votes/views.py:56-61 | a rotation creates one vote per position of the order |
| Rotation.CycleRows | votes/views.py:47-61 | assignment i is the active row of the week from the user at position i to its successor; vote i has the same voter, recipient and week and points to assignment i; ids are consecutive from the next free ones |
| Rotation.NextPosIsMod | votes/views.py:48 | `(i + 1) % n` is the next position, wrapping from the last to the first |
| Rotation.NoSelfAssignment | votes/views.py:49 | with two or more distinct users the `assignee != assigner` guard always holds |
| Rotation.SuccessorOnto | votes/views.py:47-48 | every user is the assignee of the user before them in the order |
| Rotation.CycleEdgesProper | votes/views.py:50-55 | n assignments are made, all active, for the week, between users of the order, none to oneself |
| Rotation.OneOutgoingPerUser | votes/views.py:47-55 | every user has exactly one outgoing assignment |
| Rotation.OneIncomingPerUser | votes/views.py:47-55 | every user has exactly one incoming assignment |
| Rotation.CycleVotesMirrorAssignments | votes/views.py:56-61 | n votes are made; vote i has the voter, recipient and week of assignment i and points to it; the vote keys stay unique |
| Rotation.AssignmentOf | votes/views.py:67 | `filter(user=user).first()` returns a row of that user, and none exactly when the user has no row |
| Rotation.FollowAlongCycle | votes/views.py:47-55 | following assignees k times from position p reaches the user k positions further on, wrapping |
| Rotation.RotationClosesAfterN | votes/views.py:47-55 | following the assignees n times returns to the start |
| Rotation.RotationHasNoShorterCycle | votes/views.py:47-55 | no walk of fewer than n steps returns to the start, so the rotation is one cycle |
| Rotation.RotationReachesEveryone | votes/views.py:47-55 | every user is reached from every other in fewer than n steps |
| Ratings.FindRating | votes/views.py:106-110 | finds the row keyed (rater, vote), and none exactly when no row has that key |
| Ratings.Upsert | votes/views.py:106-114 | the table after a submission has one more row only when (rater, vote) had none, keeps the key of every existing row, and has a row for (rater, vote) holding the new score |
| Ratings.UpsertLeavesOneRating | votes/views.py:106-114 | after a submission exactly one rating exists for (rater, vote), with the submitted score; a new one names the voter as rated user; an existing one keeps its other fields; no other row changes |
| Ratings.UpsertTwiceKeepsLatest | votes/views.py:106-114 | submitting twice adds at most one row and leaves the latest score |
| Ratings.UpsertTotalRatings | votes/models.py:64-66 | a submission raises the voter's `total_ratings` by one only when it creates the rating |
| Lookup.AwaitsRating | votes/views.py:70-75 | a vote is offered exactly when the user received it in an earlier week and the rating table has no row keyed (user, vote), the key `submit_rating` writes |
| Lookup.LatestUnrated | votes/views.py:69-77 | the user received the unrated vote in an earlier week and has no rating by the user; its week is the latest among such votes; it is absent exactly when no such vote exists |
| Lookup.RatingRemovesVoteFromQuery | votes/views.py:69-77 | once the user rates the vote the query returned, the query no longer returns it |
| Views.BackfillProfiles | votes/views.py:35-39 | after the loop every user has a profile; only users without one get a new, default profile; no other table changes |
| Views.EarlierPositionsDoNotBlock | votes/views.py:47-61 | rows created for earlier positions never clash with the creation for a later one, so a position is blocked mid-loop exactly when it was blocked before the loop |
| Views.CreatePair | votes/views.py:48-61 | one iteration creates the assignment to the successor and its vote, and fails exactly when an existing row blocks that user for the week |
| Views.CreateRotation | votes/views.py:47-61 | the loop creates the whole rotation exactly when no user is blocked; otherwise it stops at the first blocked position and keeps the rows created before |
| Views.BuildRotation | votes/views.py:42-61 | nothing is created when the week has an active assignment or there are fewer than two users; otherwise as `CreateRotation` |
| Views.BuiltRotationIsTheWeek | votes/views.py:42-64 | after a built rotation the week's active assignments are exactly the rotation, so the next load creates nothing |
| Views.Index | votes/views.py:28-93 | every user has a profile, and only users without one got a new default profile; the rotation outcome is classified as in `BuildRotation`; assignments and votes are the old tables plus the prefix of the rotation that was created (all n rows when built, the rows before the failing one on an error), so rows of other weeks are kept; the request fails exactly when the rotation meets a blocking row; the page shows the week's active assignments, the user's own, the latest unrated vote and the remaining time; a freshly built rotation is exactly the week's table |
| Views.FindVote | votes/views.py:102 | finds the vote with the id, and none exactly when no vote has it |
| Views.SubmitRating | votes/views.py:95-121 | a non-POST request, a missing vote, or a vote for somebody else gives the matching error and leaves the ratings unchanged; otherwise the ratings are upserted for (rater, vote) with the posted score |
| Views.GetAssignments | votes/views.py:123-141 | the roster lists (assigner, assignee) of each active assignment of the week, one pair per row; the interval is the week start; days and hours are `DaysRemaining(now)` and `HoursRemaining(now)`, the time to next Monday 00:00 truncated to the hour |
| Views.RosterAfterRotation | votes/views.py:129-131 | once the rotation is built, the roster holds exactly the pairs (user, successor) over the shuffled order, each user once as assigner and once as assignee |

## Left out

- The random shuffle is an input: any reordering of all users (`IsShuffleOf`).
- Concurrent page loads and transaction races are not modelled; each view runs alone.
- Usernames, the `register` view, templates, `JsonResponse` bodies, `strftime` formatting and `login_required` are not modelled. Users are numbers.
- `refresh_assignments` is named at `votes/urls.py:18` but not defined in `votes/views.py`. Importing the URL module therefore raises an attribute error, and since `amiga/urls.py` includes `votes.urls`, no URL of the site resolves as the files stand. The model takes the views as they would run once that line is removed.
- Time is integer microseconds. The Python code uses `timedelta.total_seconds()` as a float; for whole-hour figures the integer division gives the same results.
- Models.AverageRating: the exact mean is computed without the rounding to one decimal, because the rounding works on floating point.
- Views.SubmitRating: a score that is not an integer, an integer score outside the range of the database's integer column (32-bit on PostgreSQL, 64-bit on SQLite), a missing score, and a vote id that is not a number are not modelled. Scores are unbounded integers here, so the model answers `Submitted` where the source's save raises a database error.
- Views.GetAssignments, Views.Index and Views.RosterAfterRotation: the querysets of the week's assignments have no ordering and the model has rows in insertion order. The source leaves that order to the database. The positional clause of `RosterAfterRotation` holds only under this choice; its membership and uniqueness clauses hold in any order.
- Lookup.LatestUnrated: among unrated votes of the same week, the first in table order is chosen. The source leaves that order to the database.
- Deleting a user, with its cascades into every table, is not modelled. No view deletes users.
- Timestamps set by `auto_now_add` are the `now` argument of the call.
