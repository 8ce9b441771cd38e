/**
 * The reassignment engine, `reassignTasks` (src/controllers/teamController.ts:64-171), on an
 * in-memory snapshot: the team's members and the fetched tasks go in; the updated tasks and the
 * activity list come out. `Rebalance` is the reference definition of a run, written as recursive
 * functions that follow the loops step by step; `ReassignTasks` is the loop program itself,
 * proved equal to `Rebalance`.
 */
module Engine {
  import opened Basics
  import opened Model
  import opened CapacitySnapshot
  import opened CandidateSelector
  import opened TargetSelector

  /** What the loops update: the member records, the tasks and the activity list. */
  datatype RunState = RunState(info: seq<MemberInfo>, tasks: seq<Task>, acts: seq<Activity>)

  /** The answer of the endpoint, `{ moved, details }`, with the updated tasks. */
  datatype Reassignment = Reassignment(tasks: seq<Task>, moved: nat, details: seq<Activity>)

  /** `memberInfo.find((x) => x.id === id)`: the first record with that id. */
  function IndexOfId(info: seq<MemberInfo>, id: MemberId): (r: Option<nat>)
    ensures r.None? <==> forall k :: 0 <= k < |info| ==> info[k].id != id
    ensures r.Some? ==> r.value < |info| && info[r.value].id == id
    ensures r.Some? ==> forall k :: 0 <= k < r.value ==> info[k].id != id
    decreases |info|
  {
    if |info| == 0 then None
    else
      var n := |info| - 1;
      var r := IndexOfId(info[..n], id);
      if r.None? && info[n].id == id then Some(n) else r
  }

  /** `const mi = memberInfo.find(...); if (mi) mi.assigned -= 1;` */
  function Release(info: seq<MemberInfo>, fromId: MemberId): (r: seq<MemberInfo>)
    ensures |r| == |info|
  {
    match IndexOfId(info, fromId)
    case None => info
    case Some(i) => info[i := info[i].(assignedCount := info[i].assignedCount - 1)]
  }

  /** `memberInfo.filter((mi) => mi.assigned > mi.capacity)`, as positions in `memberInfo`. */
  function OverMembers(info: seq<MemberInfo>): (r: seq<nat>)
    ensures forall i :: 0 <= i < |r| ==> r[i] < |info| && info[r[i]].assignedCount > info[r[i]].capacity
    ensures forall k {:trigger k in r} :: 0 <= k < |info| && info[k].assignedCount > info[k].capacity ==> k in r
    ensures Increasing(r)
    decreases |info|
  {
    if |info| == 0 then []
    else
      var n := |info| - 1;
      OverMembers(info[..n]) + (if info[n].assignedCount > info[n].capacity then [n] else [])
  }

  /**
   * One turn of the drain loop (lines 120-160) on the task at position `t`, taken from the
   * member `fromId`: give it to `findTarget()`'s member, or unassign it when there is none.
   */
  function Step(team: TeamId, user: UserId, st: RunState, fromId: MemberId, t: nat): (r: RunState)
    requires t < |st.tasks|
    ensures |r.info| == |st.info| && |r.tasks| == |st.tasks|
  {
    var task := st.tasks[t];
    var prev := task.assignedMember;
    match FindTarget(st.info)
    case None =>
      RunState(
        Release(st.info, fromId),
        st.tasks[t := task.(assignedMember := None)],
        st.acts + [Activity(team, user, task.id, prev, None, AutoUnassigned(task.id))])
    case Some(k) =>
      var target := st.info[k];
      var released := Release(st.info, fromId);
      RunState(
        released[k := released[k].(available := released[k].available - 1)],
        st.tasks[t := task.(assignedMember := Some(target.id))],
        st.acts + [Activity(team, user, task.id, prev, Some(target.id), AutoReassigned(task.id, fromId, target.id))])
  }

  /** `while (overflow > 0 && candidates.length > 0)`: one `Step` per candidate taken from the front. */
  function Drain(team: TeamId, user: UserId, st: RunState, fromId: MemberId, candidates: seq<nat>, overflow: int): (r: RunState)
    requires forall i :: 0 <= i < |candidates| ==> candidates[i] < |st.tasks|
    ensures |r.info| == |st.info| && |r.tasks| == |st.tasks|
    decreases |candidates|
  {
    if overflow > 0 && |candidates| > 0 then
      Drain(team, user, Step(team, user, st, fromId, candidates[0]), fromId, candidates[1..], overflow - 1)
    else
      st
  }

  /** The candidates of the member `om` (lines 108-116). */
  function CandidatesOf(memberTasks: map<MemberId, seq<nat>>, tasks: seq<Task>, om: MemberInfo): (r: seq<nat>)
    requires PositionsIn(memberTasks, |tasks|)
    ensures InRange(tasks, r)
  {
    var assignedList := if om.id in memberTasks then memberTasks[om.id] else [];
    Candidates(tasks, assignedList)
  }

  /** One turn of `for (const om of overMembers)` (lines 108-161), on the member at position `k` of `memberInfo`. */
  function DrainOver(team: TeamId, user: UserId, memberTasks: map<MemberId, seq<nat>>, tasks: seq<Task>,
                     st: RunState, k: nat): (r: RunState)
    requires PositionsIn(memberTasks, |tasks|) && |st.tasks| == |tasks| && k < |st.info|
    ensures |r.info| == |st.info| && |r.tasks| == |st.tasks|
  {
    var om := st.info[k];
    var candidates := CandidatesOf(memberTasks, tasks, om);
    var overflow := om.assignedCount - om.capacity;
    Drain(team, user, st, om.id, candidates, overflow)
  }

  /** `for (const om of overMembers)` (lines 107-162); `over` holds positions in `memberInfo`. */
  function ProcessOver(team: TeamId, user: UserId, memberTasks: map<MemberId, seq<nat>>, tasks: seq<Task>,
                       st: RunState, over: seq<nat>): (r: RunState)
    requires PositionsIn(memberTasks, |tasks|) && |st.tasks| == |tasks|
    requires forall i :: 0 <= i < |over| ==> over[i] < |st.info|
    ensures |r.info| == |st.info| && |r.tasks| == |st.tasks|
    decreases |over|
  {
    if |over| == 0 then st
    else ProcessOver(team, user, memberTasks, tasks, DrainOver(team, user, memberTasks, tasks, st, over[0]), over[1..])
  }

  /** The loop over `over[i..]` is the drain of `over[i]` followed by the loop over `over[i + 1..]`. */
  lemma {:induction false} ProcessOverStep(team: TeamId, user: UserId, memberTasks: map<MemberId, seq<nat>>, tasks: seq<Task>,
                        st: RunState, over: seq<nat>, i: nat)
    requires PositionsIn(memberTasks, |tasks|) && |st.tasks| == |tasks|
    requires forall j :: 0 <= j < |over| ==> over[j] < |st.info|
    requires i < |over|
    ensures ProcessOver(team, user, memberTasks, tasks, st, over[i..])
            == ProcessOver(team, user, memberTasks, tasks, DrainOver(team, user, memberTasks, tasks, st, over[i]), over[i + 1..])
  {
    assert over[i..][0] == over[i];
    assert over[i..][1..] == over[i + 1..];
  }

  /** The run started on the snapshot of `members` and `tasks`. */
  function Run(team: TeamId, user: UserId, members: seq<Member>, tasks: seq<Task>): RunState {
    var info := Snapshot(members, tasks);
    MemberTasksPositions(members, tasks);
    ProcessOver(team, user, MemberTasks(members, tasks), tasks, RunState(info, tasks, []), OverMembers(info))
  }

  /** The reference definition of one run of `reassignTasks`. */
  function Rebalance(team: TeamId, user: UserId, members: seq<Member>, tasks: seq<Task>): Reassignment {
    var st := Run(team, user, members, tasks);
    Reassignment(st.tasks, |st.acts|, st.acts)
  }

  /**
   * The drain loop of lines 118-161 for the over-capacity member `om`: takes candidates from the
   * front while the overflow is positive, updating the records, the tasks and the activity list.
   */
  method DrainMember(team: TeamId, user: UserId, om: MemberInfo, candidates0: seq<nat>,
                     memberInfo0: seq<MemberInfo>, tasks0: seq<Task>, activities0: seq<Activity>)
    returns (memberInfo: seq<MemberInfo>, tasks: seq<Task>, activities: seq<Activity>)
    requires forall i :: 0 <= i < |candidates0| ==> candidates0[i] < |tasks0|
    ensures RunState(memberInfo, tasks, activities)
            == Drain(team, user, RunState(memberInfo0, tasks0, activities0), om.id, candidates0, om.assignedCount - om.capacity)
  {
    memberInfo, tasks, activities := memberInfo0, tasks0, activities0;
    var candidates: seq<nat> := candidates0;
    var overflow := om.assignedCount - om.capacity;
    while overflow > 0 && |candidates| > 0
      invariant |tasks| == |tasks0|
      invariant forall i :: 0 <= i < |candidates| ==> candidates[i] < |tasks|
      invariant Drain(team, user, RunState(memberInfo, tasks, activities), om.id, candidates, overflow)
                == Drain(team, user, RunState(memberInfo0, tasks0, activities0), om.id, candidates0, om.assignedCount - om.capacity)
      decreases |candidates|
    {
      ghost var before := RunState(memberInfo, tasks, activities);
      var task := candidates[0];
      candidates := candidates[1..];
      var target := FindTarget(memberInfo);
      var fromId := om.id;
      var prev := tasks[task].assignedMember;
      if target.None? {
        tasks := tasks[task := tasks[task].(assignedMember := None)];
        activities := activities + [Activity(team, user, tasks[task].id, prev, None, AutoUnassigned(tasks[task].id))];
        overflow := overflow - 1;
        var mi := IndexOfId(memberInfo, fromId);
        if mi.Some? {
          memberInfo := memberInfo[mi.value := memberInfo[mi.value].(assignedCount := memberInfo[mi.value].assignedCount - 1)];
        }
        assert memberInfo == Release(before.info, fromId);
      } else {
        var targetId := memberInfo[target.value].id;
        tasks := tasks[task := tasks[task].(assignedMember := Some(targetId))];
        activities := activities + [Activity(team, user, tasks[task].id, prev, Some(targetId),
                                             AutoReassigned(tasks[task].id, fromId, targetId))];
        var mi := IndexOfId(memberInfo, fromId);
        if mi.Some? {
          memberInfo := memberInfo[mi.value := memberInfo[mi.value].(assignedCount := memberInfo[mi.value].assignedCount - 1)];
        }
        assert memberInfo == Release(before.info, fromId);
        memberInfo := memberInfo[target.value := memberInfo[target.value].(available := memberInfo[target.value].available - 1)];
        overflow := overflow - 1;
      }
      assert RunState(memberInfo, tasks, activities) == Step(team, user, before, fromId, task);
    }
  }

  /**
   * `for (const om of overMembers)` (lines 107-162): drains the over-capacity members in turn,
   * starting from the records `memberInfo0`, the fetched `tasks0` and no activity.
   */
  method DrainOverMembers(team: TeamId, user: UserId, memberTasks: map<MemberId, seq<nat>>, tasks0: seq<Task>,
                          memberInfo0: seq<MemberInfo>, overMembers: seq<nat>)
    returns (memberInfo: seq<MemberInfo>, tasks: seq<Task>, activities: seq<Activity>)
    requires PositionsIn(memberTasks, |tasks0|)
    requires forall i :: 0 <= i < |overMembers| ==> overMembers[i] < |memberInfo0|
    ensures RunState(memberInfo, tasks, activities)
            == ProcessOver(team, user, memberTasks, tasks0, RunState(memberInfo0, tasks0, []), overMembers)
  {
    ghost var final := ProcessOver(team, user, memberTasks, tasks0, RunState(memberInfo0, tasks0, []), overMembers);
    memberInfo, tasks, activities := memberInfo0, tasks0, [];
    for i := 0 to |overMembers|
      invariant |memberInfo| == |memberInfo0| && |tasks| == |tasks0|
      invariant ProcessOver(team, user, memberTasks, tasks0, RunState(memberInfo, tasks, activities), overMembers[i..]) == final
    {
      var om := memberInfo[overMembers[i]];
      var assignedList := if om.id in memberTasks then memberTasks[om.id] else [];
      var candidates := Candidates(tasks0, assignedList);
      ghost var st := RunState(memberInfo, tasks, activities);
      memberInfo, tasks, activities := DrainMember(team, user, om, candidates, memberInfo, tasks, activities);
      ProcessOverStep(team, user, memberTasks, tasks0, st, overMembers, i);
      assert DrainOver(team, user, memberTasks, tasks0, st, overMembers[i]) == RunState(memberInfo, tasks, activities);
    }
    assert overMembers[|overMembers|..] == [];
  }

  /**
   * `reassignTasks` after the team, project and task look-ups: `tasks` is what `Task.find`
   * returned, `team` the team's id and `user` the caller. Saving the tasks and inserting the
   * activities is left to the caller of this method.
   */
  method ReassignTasks(team: TeamId, user: UserId, members: seq<Member>, tasks: seq<Task>) returns (r: Reassignment)
    ensures r == Rebalance(team, user, members, tasks)
    ensures r.moved == |r.details| && |r.tasks| == |tasks|
  {
    var memberTasks, memberInfo := BuildSnapshot(members, tasks);
    MemberTasksPositions(members, tasks);
    var overMembers := OverMembers(memberInfo);
    var _, updated, activities := DrainOverMembers(team, user, memberTasks, tasks, memberInfo, overMembers);
    r := Reassignment(updated, |activities|, activities);
  }
}
