/**
 * The capacity snapshot of a reassignment run (src/controllers/teamController.ts:78-91):
 * for every team member, in member order, the positions of the fetched tasks assigned to that
 * member, and a record {capacity, assignedCount, available = max(0, capacity - assignedCount)} (the source calls the count `assigned`).
 * Tasks are referred to by their position in the fetched task list.
 */
module CapacitySnapshot {
  import opened Basics
  import opened Model

  /** Positions, in fetch order, of the tasks assigned to member `id`. */
  function AssignedIndices(tasks: seq<Task>, id: MemberId): (r: seq<nat>)
    ensures forall i :: 0 <= i < |r| ==> r[i] < |tasks| && tasks[r[i]].assignedMember == Some(id)
    ensures forall t :: 0 <= t < |tasks| && tasks[t].assignedMember == Some(id) ==> t in r
    decreases |tasks|
  {
    if |tasks| == 0 then []
    else
      var n := |tasks| - 1;
      AssignedIndices(tasks[..n], id) + (if tasks[n].assignedMember == Some(id) then [n] else [])
  }

  /** A member's task list is in fetch order, each position once. */
  lemma {:induction false} AssignedIndicesIncreasing(tasks: seq<Task>, id: MemberId)
    ensures Increasing(AssignedIndices(tasks, id))
    decreases |tasks|
  {
    if |tasks| > 0 {
      var n := |tasks| - 1;
      var l := AssignedIndices(tasks[..n], id);
      AssignedIndicesIncreasing(tasks[..n], id);
      var r := AssignedIndices(tasks, id);
      assert r == l + (if tasks[n].assignedMember == Some(id) then [n] else []);
      forall i, j | 0 <= i < j < |r| ensures r[i] < r[j] {
        if j >= |l| {
          assert r[j] == n && r[i] == l[i] && l[i] < n;
        } else {
          assert r[i] == l[i] && r[j] == l[j];
        }
      }
    }
  }

  /** The number of tasks assigned to member `id`. */
  function Load(tasks: seq<Task>, id: MemberId): nat
    decreases |tasks|
  {
    if |tasks| == 0 then 0
    else
      var n := |tasks| - 1;
      Load(tasks[..n], id) + (if tasks[n].assignedMember == Some(id) then 1 else 0)
  }

  /** The load of a member is the length of its task list. */
  lemma {:induction false} LoadIsLength(tasks: seq<Task>, id: MemberId)
    ensures Load(tasks, id) == |AssignedIndices(tasks, id)|
    decreases |tasks|
  {
    if |tasks| > 0 {
      LoadIsLength(tasks[..|tasks| - 1], id);
    }
  }

  /** Changing one task changes the load of `id` by what that task contributes before and after. */
  lemma {:induction false} LoadUpdate(tasks: seq<Task>, t: nat, v: Task, id: MemberId)
    requires t < |tasks|
    ensures Load(tasks[t := v], id)
            == Load(tasks, id) - (if tasks[t].assignedMember == Some(id) then 1 else 0)
               + (if v.assignedMember == Some(id) then 1 else 0)
    decreases |tasks|
  {
    var n := |tasks| - 1;
    var u := tasks[t := v];
    if t == n {
      assert u[..n] == tasks[..n];
    } else {
      assert u[..n] == tasks[..n][t := v];
      LoadUpdate(tasks[..n], t, v, id);
    }
  }

  /** Two task lists that assign the same positions to `id` give `id` the same task list. */
  lemma {:induction false} AssignedIndicesAgree(s: seq<Task>, u: seq<Task>, id: MemberId)
    requires |s| == |u|
    requires forall t :: 0 <= t < |s| ==> (s[t].assignedMember == Some(id) <==> u[t].assignedMember == Some(id))
    ensures AssignedIndices(s, id) == AssignedIndices(u, id)
    decreases |s|
  {
    if |s| > 0 {
      var n := |s| - 1;
      AssignedIndicesAgree(s[..n], u[..n], id);
    }
  }

  /** A member's record; `assignedCount` and `available` are updated during the run. */
  datatype MemberInfo = MemberInfo(id: MemberId, name: string, capacity: int, assignedCount: int, available: int)

  /** `Math.max(0, x)`. */
  function Max0(x: int): int {
    if x < 0 then 0 else x
  }

  /** The set of ids of the team's members. */
  function IdSet(members: seq<Member>): set<MemberId> {
    set m | m in members :: m.id
  }

  /** `memberTasks`: every member id mapped to the positions, in fetch order, of its tasks. */
  function MemberTasks(members: seq<Member>, tasks: seq<Task>): map<MemberId, seq<nat>> {
    map id | id in IdSet(members) :: AssignedIndices(tasks, id)
  }

  /** The record built for one member from the length of its task list. */
  function Record(m: Member, assignedList: seq<nat>): MemberInfo {
    MemberInfo(m.id, m.name, m.capacity, |assignedList|, Max0(m.capacity - |assignedList|))
  }

  /** `memberInfo`: one record per member, in member order. */
  function Snapshot(members: seq<Member>, tasks: seq<Task>): (info: seq<MemberInfo>)
    ensures |info| == |members|
  {
    seq(|members|, k requires 0 <= k < |members| => Record(members[k], AssignedIndices(tasks, members[k].id)))
  }

  /** Every position in a task list of `memberTasks` is a position of the fetched list. */
  ghost predicate PositionsIn(memberTasks: map<MemberId, seq<nat>>, n: nat) {
    forall id, i :: id in memberTasks && 0 <= i < |memberTasks[id]| ==> memberTasks[id][i] < n
  }

  lemma {:induction false} MemberTasksPositions(members: seq<Member>, tasks: seq<Task>)
    ensures PositionsIn(MemberTasks(members, tasks), |tasks|)
  {
  }

  /**
   * What the snapshot holds: one record per member, in member order, including members without
   * tasks; `assignedCount` counts exactly the tasks assigned to that member, and `available` is the
   * non-negative spare capacity, positive exactly when the member is under capacity.
   */
  lemma {:induction false} SnapshotRecords(members: seq<Member>, tasks: seq<Task>, k: nat)
    requires k < |members|
    ensures var r := Snapshot(members, tasks)[k];
      && r.id == members[k].id && r.name == members[k].name && r.capacity == members[k].capacity
      && r.assignedCount == Load(tasks, members[k].id)
      && r.available >= 0
      && r.available == (if r.capacity > r.assignedCount then r.capacity - r.assignedCount else 0)
      && (r.available > 0 <==> r.assignedCount < r.capacity)
      && ((forall t :: 0 <= t < |tasks| ==> tasks[t].assignedMember != Some(members[k].id)) ==> r.assignedCount == 0)
  {
    var l := AssignedIndices(tasks, members[k].id);
    LoadIsLength(tasks, members[k].id);
    assert |l| > 0 ==> tasks[l[0]].assignedMember == Some(members[k].id);
  }

  /** A task assigned to nobody in the team, or to someone outside it, does not affect the snapshot. */
  lemma {:induction false} NonMemberTasksIgnored(members: seq<Member>, tasks: seq<Task>, t: nat, v: Task)
    requires t < |tasks|
    requires forall m :: m in members ==> tasks[t].assignedMember != Some(m.id) && v.assignedMember != Some(m.id)
    ensures Snapshot(members, tasks[t := v]) == Snapshot(members, tasks)
    ensures MemberTasks(members, tasks[t := v]) == MemberTasks(members, tasks)
  {
    var u := tasks[t := v];
    forall m | m in members
      ensures AssignedIndices(u, m.id) == AssignedIndices(tasks, m.id)
    {
      AssignedIndicesAgree(u, tasks, m.id);
    }
    forall k | 0 <= k < |members|
      ensures Snapshot(members, u)[k] == Snapshot(members, tasks)[k]
    {
      assert members[k] in members;
    }
  }

  /**
   * The loops of lines 79-84 build `memberTasks`, and the `map` of lines 87-91 builds `memberInfo`.
   */
  method BuildSnapshot(members: seq<Member>, tasks: seq<Task>)
    returns (memberTasks: map<MemberId, seq<nat>>, info: seq<MemberInfo>)
    ensures memberTasks == MemberTasks(members, tasks)
    ensures info == Snapshot(members, tasks)
  {
    memberTasks := map[];
    for i := 0 to |members|
      invariant memberTasks.Keys == IdSet(members[..i])
      invariant forall id :: id in memberTasks ==> memberTasks[id] == []
    {
      assert members[..i + 1] == members[..i] + [members[i]];
      memberTasks := memberTasks[members[i].id := []];
    }
    assert members[..|members|] == members;
    for t := 0 to |tasks|
      invariant memberTasks.Keys == IdSet(members)
      invariant forall id :: id in memberTasks ==> memberTasks[id] == AssignedIndices(tasks[..t], id)
    {
      assert tasks[..t + 1][..t] == tasks[..t];
      var mid := tasks[t].assignedMember;
      if mid.Some? && mid.value in memberTasks {
        memberTasks := memberTasks[mid.value := memberTasks[mid.value] + [t]];
      }
    }
    assert tasks[..|tasks|] == tasks;
    info := seq(|members|, k requires 0 <= k < |members| =>
      var assignedList := if members[k].id in memberTasks then memberTasks[members[k].id] else [];
      Record(members[k], assignedList));
    forall k | 0 <= k < |members| ensures members[k].id in memberTasks {
      assert members[k] in members;
    }
  }
}
