# Team capacity and automatic task reassignment

This project models the team controller of the smart-task-manager server
(`src/controllers/teamController.ts`).

## The membership checks

- `createTeam` and `addMember` coerce a requested capacity with `Number(x) || 0`. Any value outside
  0..5 is rejected with "capacity must be between 0 and 5".
- `removeMember` looks a member up with `findIndex` and deletes the first match with `splice`. It
  reports "Member not found" when there is no match.

## The reassignment engine, `reassignTasks`

1. It takes a snapshot of the team:
   - `memberTasks`: every member id mapped to the tasks assigned to it, in fetch order;
   - `memberInfo`: one record per member `{capacity, assigned, available = max(0, capacity - assigned)}`.
2. It lists the over-capacity members, those with `assigned > capacity`, in member order.
3. For each over-capacity member it drains its overflow:
   - its Low and Medium tasks are the candidates, Low before Medium and oldest first (a stable sort);
   - it takes them from the front while the overflow is positive;
   - it gives each one to `findTarget()`'s member, which is the earliest among those with the largest
     positive `available`;
   - it unassigns the task when no member has room;
   - after every step it updates the records and appends one activity.
4. It answers `{ moved: activities.length, details: activities }`.

Tasks are referred to by their position in the fetched task list. Object ids are natural numbers.

## How the engine is modelled

- The engine is written twice:
  - as reference functions (`Engine.Step`, `Drain`, `DrainOver`, `ProcessOver`, `Run`, `Rebalance`);
  - as the loop program (`Engine.ReassignTasks` with `DrainMember` and `DrainOverMembers`), proved
    equal to the reference.
- What a run guarantees is proved about `Rebalance` in `RunTheorems`; `TeamTotals` adds the
  per-member move count over the Low and Medium tasks and the team-wide conservation of tasks.
- Those proofs go through the run invariant of `EngineProofs` (`Between`):
  - shape;
  - counters against activities;
  - which tasks moved;
  - the log;
  - the trace, one activity per changed task;
  - pending and done over-capacity members.
- The team's members are modelled as a class `Teams.Team` whose methods update `members` in place.

### Premise of the run theorems

Most theorems about a run require `Fresh`: member ids are distinct and task ids are distinct, as the
store's object ids are. The theorems about idle runs do not need it. `ReassignTasks` itself has no
precondition.

### The smoke-test data

`tmp/smokeTest.js:47-64` creates Alice (capacity 3), Bob (capacity 1) and Charlie (capacity 2), then
the tasks "Alice task 1" to "Alice task 6" with priorities High, Medium, Low, High, Medium, Low, all
assigned to Alice, and "Bob task 1" (Low), assigned to Bob. For that data the code gives `moved = 3`:

1. Alice is three tasks over capacity. Bob is at capacity, and Charlie has two free slots.
2. Alice's candidates are her two Low tasks and then her two Medium tasks, oldest first.
3. "Alice task 3" and "Alice task 6" (the Low tasks) go to Charlie, who has the most room.
4. Nobody has room left for "Alice task 2" (the older Medium task), so it is unassigned. That clears
   her overflow; "Alice task 5" and both High tasks stay with her.

`TeamTotals.MovesPerMemberHeld` states the general rule behind this count: an over-capacity member
gives up `min(assigned - capacity, number of its Low and Medium tasks)` tasks. The scenario itself is
not evaluated in the model.

## Model

| member | source | states |
|---|---|---|
| Model.UniqueIdsDistinct | src/models/Team.ts:22 | an id list is duplicate-free exactly when any two positions hold different ids |
| Model.SameTaskId | src/controllers/teamController.ts:81-84 | under distinct task ids, two positions with the same id are the same position |
| Model.UniqueListsDistinct | src/models/Team.ts:22 | duplicate-free id lists are exactly pairwise-distinct member ids and task ids |
| Teams.CheckCapacity | src/controllers/teamController.ts:15-16 | accepted exactly when the coerced capacity lies in 0..5, returning it; otherwise the capacity error; a non-numeric value is accepted as 0 |
| Teams.ToMembers | src/controllers/teamController.ts:14-17 | one stored member per request member, in order, with the coerced capacity |
| Teams.FindMemberIndex | src/controllers/teamController.ts:56 | -1 exactly when no member has the id; otherwise the first position with that id |
| Teams.RemoveFirstMatch | src/controllers/teamController.ts:56-58 | removing the found position keeps length minus one and the others in order; with distinct ids no member with that id remains |
| Teams.Team.constructor | src/controllers/teamController.ts:12 | a new team with the name and no members |
| Teams.Team.AddMember | src/controllers/teamController.ts:40-46 | name error for an empty name; otherwise success exactly when the capacity check passes, appending the member; on error the members are unchanged; capacities stay in 0..5 |
| Teams.Team.RemoveMember | src/controllers/teamController.ts:56-58 | not-found and unchanged members when no id matches; otherwise the first match is cut out and the rest keep their order |
| Teams.CreateTeam | src/controllers/teamController.ts:11-19 | name error for an empty name; success exactly when every member's capacity passes; otherwise the capacity error; a new team holding the coerced members in order |
| CapacitySnapshot.AssignedIndices | src/controllers/teamController.ts:81-84 | the task list of a member holds exactly the positions of the tasks assigned to it |
| CapacitySnapshot.AssignedIndicesIncreasing | src/controllers/teamController.ts:81-84 | a member's task list is in fetch order, each task once |
| CapacitySnapshot.LoadIsLength | src/controllers/teamController.ts:89 | `assigned` is the number of tasks assigned to the member |
| CapacitySnapshot.LoadUpdate | src/controllers/teamController.ts:126-145 | reassigning one task changes a member's load by exactly what that task contributes before and after |
| CapacitySnapshot.AssignedIndicesAgree | src/controllers/teamController.ts:81-84 | two task lists that assign the same positions to a member give it the same task list |
| CapacitySnapshot.Snapshot | src/controllers/teamController.ts:87-91 | one record per member; `SnapshotRecords` states each record |
| CapacitySnapshot.MemberTasksPositions | src/controllers/teamController.ts:79-84 | every position in `memberTasks` is a position of the fetched list |
| CapacitySnapshot.SnapshotRecords | src/controllers/teamController.ts:87-91 | each record has the member's id, name and capacity, `assigned` equal to its load, `available = max(0, capacity - assigned)` non-negative and positive exactly when under capacity, and 0 assigned for a member without tasks |
| CapacitySnapshot.NonMemberTasksIgnored | src/controllers/teamController.ts:83 | a task assigned to nobody in the team does not affect `memberTasks` or the records |
| CapacitySnapshot.BuildSnapshot | src/controllers/teamController.ts:79-91 | the two loops and the map build exactly `MemberTasks` and `Snapshot` |
| TargetSelector.FindTarget | src/controllers/teamController.ts:99-104 | none exactly when no record has positive `available`; otherwise a record with positive and maximal `available`, the earliest among ties |
| TargetSelector.FindTargetDependsOnAvailable | src/controllers/teamController.ts:100-102 | the target depends only on the `available` fields |
| CandidateSelector.FilterMovable | src/controllers/teamController.ts:110-111 | keeps exactly the Low and Medium tasks of the list |
| CandidateSelector.FilterMovableNone | src/controllers/teamController.ts:110-111 | a list without Low or Medium tasks filters to nothing |
| CandidateSelector.FilterMovableIncreasing | src/controllers/teamController.ts:110-111 | filtering keeps fetch order |
| CandidateSelector.Insert | src/controllers/teamController.ts:112-116 | one step of the sort grows the list by one position; `InsertPerm` and `InsertSorted` state its contents and order |
| CandidateSelector.InsertPerm | src/controllers/teamController.ts:112-116 | that step adds exactly the inserted task |
| CandidateSelector.SortStable | src/controllers/teamController.ts:112-116 | the sort keeps the length; `SortStablePerm`, `SortStableSorted` and `SortedUnique` state its contents and order |
| CandidateSelector.SortStablePerm | src/controllers/teamController.ts:112-116 | the sort is a permutation |
| CandidateSelector.Candidates | src/controllers/teamController.ts:110-116 | the candidates are exactly the member's Low and Medium tasks |
| CandidateSelector.BeforeTransitive | src/controllers/teamController.ts:113-115 | the comparator's order is transitive |
| CandidateSelector.InsertSorted | src/controllers/teamController.ts:112-116 | inserting into a sorted list keeps it sorted, and ties stay in fetch order |
| CandidateSelector.SortStableSorted | src/controllers/teamController.ts:112-116 | the stable sort of a list in fetch order is sorted by (priority, createdAt, fetch order) |
| CandidateSelector.SortedDistinct | src/controllers/teamController.ts:112-116 | a sorted candidate list names each task once |
| CandidateSelector.CandidatesOrder | src/controllers/teamController.ts:110-116 | candidates are the Low and Medium tasks, each once, every Low before every Medium, oldest first within a priority, fetch order on equal timestamps |
| CandidateSelector.HeadBefore | src/controllers/teamController.ts:120 | the task taken from the front comes before every other candidate |
| CandidateSelector.SortedUnique | src/controllers/teamController.ts:112-116 | two sorted lists with the same tasks are equal: the candidate order is unique |
| Engine.IndexOfId | src/controllers/teamController.ts:138-157 | `find` by id: none exactly when no record has the id; otherwise the first record with it |
| Engine.Release | src/controllers/teamController.ts:138-158 | the records keep their number; `EngineProofs.ReleaseAt` states which record changes |
| Engine.OverMembers | src/controllers/teamController.ts:94 | the positions of exactly the records with `assigned > capacity`, in member order |
| Engine.Step | src/controllers/teamController.ts:120-160 | one step keeps the number of records and tasks; its effect is stated by `EngineProofs.StepShape` and `StepAt` |
| Engine.Drain | src/controllers/teamController.ts:118-161 | the drain keeps the number of records and tasks; `EngineProofs.DrainKeeps` and `DrainLogs` state what it does |
| Engine.CandidatesOf | src/controllers/teamController.ts:108-116 | the candidates of a member are positions of the fetched list |
| Engine.DrainOver | src/controllers/teamController.ts:107-162 | one turn of the outer loop keeps the number of records and tasks; `EngineProofs.DrainOverSnapshot` ties it to the snapshot |
| Engine.ProcessOver | src/controllers/teamController.ts:107-162 | the outer loop keeps the number of records and tasks; `EngineProofs.ProcessOverKeeps` states what it achieves |
| Engine.ProcessOverStep | src/controllers/teamController.ts:107 | the loop over the remaining members is one drain followed by the loop over the rest |
| Engine.DrainMember | src/controllers/teamController.ts:118-161 | the while loop, with `shift`, the records, the task update and `push`, computes exactly `Drain` |
| Engine.DrainOverMembers | src/controllers/teamController.ts:107-162 | the for loop over the over-capacity members computes exactly `ProcessOver` |
| Engine.ReassignTasks | src/controllers/teamController.ts:79-170 | the whole run equals `Rebalance`; `moved` is the length of `details`; the task list keeps its length |
| EngineProofs.TaskIdsIndex | src/controllers/teamController.ts:131-150 | a task id in the log's id list has an activity |
| EngineProofs.AppendCounts | src/controllers/teamController.ts:128-154 | appending an activity adds one to the counts of its from and to members, and its task id to the id list |
| EngineProofs.AppendNewTask | src/controllers/teamController.ts:128-154 | appending an activity for a new task keeps task ids distinct in the log |
| EngineProofs.DistinctInfoAt | src/controllers/teamController.ts:138-157 | under distinct ids, no other record has the id of record `o` |
| EngineProofs.Cands | src/controllers/teamController.ts:108-116 | the candidates computed from the snapshot are positions of the fetched list |
| EngineProofs.OverIsNoTarget | src/controllers/teamController.ts:90-104 | an over-capacity member starts with `available` 0 and is never a target |
| EngineProofs.ReleaseAt | src/controllers/teamController.ts:138-158 | with distinct ids, `find` then `assigned -= 1` decrements exactly that member's record |
| EngineProofs.StepShape | src/controllers/teamController.ts:120-160 | a step changes only the taken task's assignee, the source's `assigned` and the target's `available`, and appends one activity |
| EngineProofs.TargetFacts | src/controllers/teamController.ts:99-121 | the target is a member with room at the start, other than the over-capacity member being drained |
| EngineProofs.StepKeepsShape | src/controllers/teamController.ts:120-160 | a step keeps ids, capacities and every task field but the assignee |
| EngineProofs.StepAt | src/controllers/teamController.ts:136-160 | a step's effect on each record: the source's `assigned` and the target's `available` drop by one |
| EngineProofs.StepKeepsAccounts | src/controllers/teamController.ts:136-160 | a step keeps `available` non-negative and equal to the initial room less what was received, and loads equal to initial less given plus received |
| EngineProofs.StepKeepsMoves | src/controllers/teamController.ts:126-145 | after a step only Low and Medium tasks have changed hands, to nobody or to a member with room |
| EngineProofs.StepTaskUnlogged | src/controllers/teamController.ts:120 | the task a step takes has no activity yet |
| EngineProofs.AppendLog | src/controllers/teamController.ts:128-154 | appending a well-formed activity keeps the log well-formed and unassignments last |
| EngineProofs.StepKeepsLog | src/controllers/teamController.ts:123-154 | a step keeps every activity by the owner for the team, from an over-capacity member, to nobody or a member with room, and unassigns only when no member has room |
| EngineProofs.StepTraceAt | src/controllers/teamController.ts:144-154 | the new activity records the task's previous and new assignee |
| EngineProofs.StepTraceFields | src/controllers/teamController.ts:125-154 | the new activity's fields and message agree with the step's move |
| EngineProofs.StepKeepsTrace | src/controllers/teamController.ts:120-154 | a step keeps one activity per changed task, with its original and current assignee |
| EngineProofs.StepKeepsCore | src/controllers/teamController.ts:120-160 | a step keeps the whole run invariant |
| EngineProofs.StepKeepsPending | src/controllers/teamController.ts:107-160 | a step leaves an over-capacity member whose turn has not come untouched |
| EngineProofs.StepKeepsDone | src/controllers/teamController.ts:107-160 | a step keeps a drained member drained |
| EngineProofs.PoolAfterTake | src/controllers/teamController.ts:120 | after `shift`, the remaining candidates are the untouched Low and Medium tasks still to take |
| EngineProofs.StepKeepsDraining | src/controllers/teamController.ts:119-160 | a step keeps the drain invariant with one candidate fewer and the overflow one lower |
| EngineProofs.Planned | src/controllers/teamController.ts:118-120 | a drain logs the first min(overflow, #candidates) candidates, in order |
| EngineProofs.StartDraining | src/controllers/teamController.ts:108-118 | a member whose turn comes starts with all its candidates and its whole overflow |
| EngineProofs.DrainEnds | src/controllers/teamController.ts:119 | when the loop stops, the member gave up its quota and is within capacity or holds only High tasks |
| EngineProofs.StepLogs | src/controllers/teamController.ts:131-150 | a step logs the taken task's id |
| EngineProofs.DrainLogs | src/controllers/teamController.ts:119-160 | a drain logs exactly its planned task ids |
| EngineProofs.DrainStep | src/controllers/teamController.ts:119-160 | one turn of the while loop keeps the invariant |
| EngineProofs.DrainKeeps | src/controllers/teamController.ts:118-161 | a whole drain keeps the run invariant and moves its member from pending to done |
| EngineProofs.StartHead | src/controllers/teamController.ts:107-118 | the next over-capacity member is ready to drain |
| EngineProofs.ProcessOverUnroll | src/controllers/teamController.ts:107 | the outer loop is the head's drain followed by the rest |
| EngineProofs.CandidatesOfSnapshot | src/controllers/teamController.ts:108-116 | `memberTasks.get(om.id)` filtered and sorted gives the member's candidates |
| EngineProofs.DrainOverSnapshot | src/controllers/teamController.ts:107-118 | the loop reads the member's id, overflow and candidates from values unchanged since the snapshot |
| EngineProofs.ProcessOverHead | src/controllers/teamController.ts:107-118 | the outer loop's first turn is the drain described by the snapshot |
| EngineProofs.OverListHead | src/controllers/teamController.ts:94-107 | the head of the over-capacity list is pending, and appears nowhere else |
| EngineProofs.NextReady | src/controllers/teamController.ts:107-118 | between two turns the next member is ready to drain |
| EngineProofs.NextKeeps | src/controllers/teamController.ts:107-162 | the next turn keeps the invariant and marks its member done |
| EngineProofs.HeadRecord | src/controllers/teamController.ts:108-118 | the head member's record still has its snapshot id, capacity and count |
| EngineProofs.OverListTail | src/controllers/teamController.ts:107 | the rest of the list stays duplicate-free and disjoint from the done members |
| EngineProofs.NextUnroll | src/controllers/teamController.ts:107-118 | the outer loop is the next drain followed by the rest |
| EngineProofs.NextLogs | src/controllers/teamController.ts:128-154 | the next turn logs the head member's planned task ids |
| EngineProofs.PlanAllCons | src/controllers/teamController.ts:107 | the run's plan is the head member's plan followed by the rest's |
| EngineProofs.ProcessOverKeeps | src/controllers/teamController.ts:107-162 | the outer loop ends with every over-capacity member done and the log equal to the plan |
| EngineProofs.BetweenSameIds | src/controllers/teamController.ts:126-145 | the tasks keep their ids during the run |
| RunTheorems.FreshDistinct | src/models/Team.ts:22 | the premise is exactly distinct member ids and distinct task ids |
| RunTheorems.SnapshotOrigin | src/controllers/teamController.ts:87-91 | the snapshot has distinct ids, loads as counts and `available = max(0, capacity - assigned)` |
| RunTheorems.SnapshotTaskMap | src/controllers/teamController.ts:79-91 | `memberTasks` holds each record's member's task list |
| RunTheorems.OverMembersList | src/controllers/teamController.ts:94 | the over-capacity list is duplicate-free positions of records |
| RunTheorems.StartCore | src/controllers/teamController.ts:96 | the run invariant holds at the start, with no activities |
| RunTheorems.StartBetween | src/controllers/teamController.ts:94-96 | at the start every over-capacity member is pending |
| RunTheorems.RunFrom | src/controllers/teamController.ts:107-162 | the loop ends with the invariant, all over-capacity members done, and the log equal to the plan |
| RunTheorems.FinalMoves | src/controllers/teamController.ts:107-162 | at the end only Low and Medium tasks of over-capacity members moved, to nobody or a member with room |
| RunTheorems.FinalCounts | src/controllers/teamController.ts:118-160 | at the end each member gave up its quota, received no more than its room, and its load balances |
| RunTheorems.FinalCapacity | src/controllers/teamController.ts:118-161 | at the end each member is within capacity or holds only High tasks |
| RunTheorems.FinalLog | src/controllers/teamController.ts:123-170 | at the end the log records the moves |
| RunTheorems.OverInElems | src/controllers/teamController.ts:94 | every over-capacity record is in the list |
| RunTheorems.RunEnd | src/controllers/teamController.ts:107-162 | for a run on the snapshot: the log equals the plan, and the invariant holds with every over-capacity member done |
| RunTheorems.RunMoves | src/controllers/teamController.ts:107-162 | what moved in a run |
| RunTheorems.RunCounts | src/controllers/teamController.ts:118-160 | the per-member counts of a run |
| RunTheorems.RunCountsAt | src/controllers/teamController.ts:118-160 | a member's given-up count, received bound and load equation, in terms of the members and the tasks |
| RunTheorems.OwedFrom | src/controllers/teamController.ts:118-160 | a member gives up min(overflow, #candidates) tasks when over capacity, otherwise none |
| RunTheorems.OwedTo | src/controllers/teamController.ts:100-159 | a member receives no more than its initial room |
| RunTheorems.OwedLoad | src/controllers/teamController.ts:126-145 | a member's final load is its initial load, less what it gave up, plus what it received |
| RunTheorems.RecordAt | src/controllers/teamController.ts:87-91 | the snapshot record of member `k` |
| RunTheorems.CountsOwedAt | src/controllers/teamController.ts:118-160 | the per-member counts read at one record |
| RunTheorems.RunCapacity | src/controllers/teamController.ts:118-161 | after a run each member is within capacity or holds only High tasks |
| RunTheorems.RunLog | src/controllers/teamController.ts:123-170 | the activities of a run record its moves |
| RunTheorems.SnapshotMembers | src/controllers/teamController.ts:87-94 | records in terms of members and loads; "over capacity" and "has room" in terms of members and tasks |
| RunTheorems.HighTasksStay | src/controllers/teamController.ts:110-111 | a run changes only assignments, and never a High task |
| RunTheorems.OnlyOverflowMoves | src/controllers/teamController.ts:107-160 | only a Low or Medium task of an over-capacity member changes hands, to a member that had room at the start, or to nobody |
| RunTheorems.MovesPerMember | src/controllers/teamController.ts:118-170 | an over-capacity member gives up min(assigned - capacity, number of its candidates) tasks, any other member none; `moved` equals the length of `details` |
| RunTheorems.ReceiveBound | src/controllers/teamController.ts:90-159 | a member receives at most `max(0, capacity - assigned)` tasks; its final load is initial load less given up plus received |
| RunTheorems.CapacityRestored | src/controllers/teamController.ts:118-161 | after a run each member is within capacity or holds only High tasks |
| RunTheorems.ActivitiesRecordMoves | src/controllers/teamController.ts:128-154 | each activity is by the owner for the team, from the task's previous assignee, an over-capacity member, to its new assignee or null; its message names the same task and members; one activity per task, and one for every changed task |
| RunTheorems.LoggedMoves | src/controllers/teamController.ts:128-154 | the log facts in terms of the members and the tasks |
| RunTheorems.UnassignOnlyWhenFull | src/controllers/teamController.ts:121-140 | once `findTarget` gives null it does so for the rest of the run; a run unassigns only after every member has received exactly its initial room |
| RunTheorems.DetailsOrder | src/controllers/teamController.ts:107-170 | `details` lists the over-capacity members in member order, each with its first candidates in candidate order |
| RunTheorems.ProcessOverIdle | src/controllers/teamController.ts:107-119 | draining members without candidates changes nothing |
| RunTheorems.NoCandidates | src/controllers/teamController.ts:110-111 | an over-capacity member without Low or Medium tasks has no candidates |
| RunTheorems.IdleRun | src/controllers/teamController.ts:94-170 | when no over-capacity member holds a Low or Medium task, the tasks come back unchanged with `moved = 0` and empty `details` |
| RunTheorems.BalancedTeamIsUnchanged | src/controllers/teamController.ts:94-170 | when no member is over capacity, the run changes nothing and moves 0 |
| RunTheorems.HeldCandidateMoves | src/controllers/teamController.ts:118-119 | an over-capacity member holding a Low or Medium task makes `moved` positive |
| RunTheorems.HeldIsCandidate | src/controllers/teamController.ts:110-111 | a Low or Medium task of a member is one of its candidates |
| RunTheorems.MovedZeroIff | src/controllers/teamController.ts:94-170 | `moved` is 0 exactly when no over-capacity member holds a Low or Medium task |
| RunTheorems.SecondRunIsIdle | src/controllers/teamController.ts:64-171 | running the reassignment again on its result moves nothing |
| TeamTotals.CandidateCount | src/controllers/teamController.ts:107-116 | a member's candidates, filtered and sorted, are exactly as many as its Low and Medium tasks |
| TeamTotals.MovesPerMemberHeld | src/controllers/teamController.ts:107-160 | an over-capacity member gives up min(assigned - capacity, number of its Low and Medium tasks) tasks, counted over the filter of its `memberTasks` list; a member within capacity gives up none |
| TeamTotals.TeamLoadConserved | src/controllers/teamController.ts:118-161 | the tasks held by the team's members after a run plus the tasks the run unassigned equal the tasks they held before it |

## Left out

- The HTTP layer is not modelled: the request body, `req.user`, the status codes and the JSON
  responses. An error result stands for a 400 or 404 answer, and the owner and team ids are
  parameters.
- The ObjectId validity check of line 67 is not modelled.
- The team look-up by id and owner (lines 43-44, 54-55, 68-69), with its 404 answers, is left out;
  it is a database query.
- The fetch of the team's projects and of their assigned tasks (lines 72-76) is left out; the
  fetched tasks are an input.
- `task.save()`, `team.save()` and `Activity.insertMany` (lines 20, 47, 59, 127, 146, 165-168) are
  left out. They are I/O; the model's result holds the updated tasks and the activity list that
  would be saved.
- Partial persistence when a save fails midway is not modelled.
- Concurrent requests are not modelled.
- Fractional capacities are left out. `Number(x)` is modelled as an integer or NaN, so `Number(x) || 0`
  maps NaN to 0. A fractional capacity such as 2.5 would pass the check in the source.
- Message text is not modelled: each message is one of two templates holding the task and member
  ids.
- The `role` field is carried but never checked.
- Tasks are identified by their position in the fetched list, not by object reference. A task that
  two members' lists share cannot arise, because a task has one assignee.
- Most run theorems require `RunTheorems.Fresh`, which says member ids and task ids are distinct.
  The store guarantees this for `_id`. The method and the reference functions are defined without
  it.
- `Array.prototype.sort` is modelled by a stable insertion sort, `CandidateSelector.SortStable`. Its
  result is proved to be the only sorted permutation, so any stable sort gives the same list.
- `findTarget`'s filter-then-stable-sort is modelled by `TargetSelector.FindTarget`, a direct scan.
  Its contract is exactly the earliest record with the largest positive `available`, which is what
  the stable sort yields.
- The smoke-test scenario is not evaluated on concrete data. The general theorems give its outcome
  (3 moves, as described above).
- The other controllers (`listTeams`, `getTeam`, tasks, projects, auth) are not part of this model.
- The mongoose schemas are left out, except for the capacity range 0..5 and the priority values.
