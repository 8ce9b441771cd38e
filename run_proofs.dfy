/**
 * What one run of `reassignTasks` (src/controllers/teamController.ts:64-171) guarantees, stated on
 * `Engine.Rebalance`, the reference definition that `Engine.ReassignTasks` is proved equal to.
 * The run starts from the snapshot of the team's members and the fetched tasks; member and task
 * ids are distinct, as the store makes them.
 */
module RunTheorems {
  import opened Basics
  import opened Model
  import opened CapacitySnapshot
  import opened CandidateSelector
  import opened TargetSelector
  import opened Engine
  import opened EngineProofs

  /**
   * The members and tasks a run starts from carry distinct ids, as the store gives them
   * (`FreshDistinct` connects this form to `DistinctMemberIds` and `DistinctTaskIds`).
   */
  ghost predicate Fresh(members: seq<Member>, tasks: seq<Task>) {
    UniqueIds(MemberIdList(members)) && UniqueIds(TaskIdList(tasks))
  }

  lemma {:induction false} FreshDistinct(members: seq<Member>, tasks: seq<Task>)
    ensures Fresh(members, tasks) <==> DistinctMemberIds(members) && DistinctTaskIds(tasks)
  {
    UniqueListsDistinct(members, tasks);
  }

  /** The snapshot agrees with the tasks it counts, and its ids are distinct. */
  lemma {:induction false} SnapshotOrigin(members: seq<Member>, tasks: seq<Task>)
    requires Fresh(members, tasks)
    ensures Origin(Snapshot(members, tasks), tasks)
  {
    FreshDistinct(members, tasks);
    var info := Snapshot(members, tasks);
    forall i, j | 0 <= i < |info| && 0 <= j < |info| && i != j
      ensures InfoIdAt(info, i) != InfoIdAt(info, j)
    {
      assert info[i].id == members[i].id && info[j].id == members[j].id;
    }
    forall k | 0 <= k < |info|
      ensures info[k].assignedCount == Load(tasks, info[k].id)
      ensures info[k].available == Max0(info[k].capacity - info[k].assignedCount)
    {
      SnapshotRecords(members, tasks, k);
    }
  }

  /** `memberTasks` holds the task list of every member of the snapshot. */
  lemma {:induction false} SnapshotTaskMap(members: seq<Member>, tasks: seq<Task>)
    ensures TaskMap(MemberTasks(members, tasks), Snapshot(members, tasks), tasks)
  {
    MemberTasksPositions(members, tasks);
    forall k | 0 <= k < |members| ensures members[k].id in IdSet(members) {
      assert members[k] in members;
    }
  }

  /** The over-capacity members of the snapshot, in member order, each once. */
  lemma {:induction false} OverMembersList(info: seq<MemberInfo>)
    ensures OverList(info, OverMembers(info), {}) == true
  {
  }

  /** Before the first drain nothing has changed and no activity is logged: the invariant holds. */
  lemma {:induction false} StartCore(team: TeamId, user: UserId, info0: seq<MemberInfo>, tasks0: seq<Task>)
    requires Origin(info0, tasks0)
    ensures Core(team, user, info0, tasks0, RunState(info0, tasks0, []))
  {
  }

  /** Before the first drain every over-capacity member is pending. */
  lemma {:induction false} StartBetween(team: TeamId, user: UserId, info0: seq<MemberInfo>, tasks0: seq<Task>)
    requires Origin(info0, tasks0)
    ensures Between(team, user, info0, tasks0, RunState(info0, tasks0, []), Elems(OverMembers(info0)), {}) == true
  {
    var st := RunState(info0, tasks0, []);
    StartCore(team, user, info0, tasks0);
    forall k | k in Elems(OverMembers(info0)) ensures Pending(info0, tasks0, st, k) {
      var i :| 0 <= i < |OverMembers(info0)| && OverMembers(info0)[i] == k;
    }
  }

  /** Proof plumbing: the empty set is a left unit of union. */
  lemma {:induction false} EmptyUnion(s: set<nat>)
    ensures {} + s == s
  {
  }

  /**
   * What the loop over the over-capacity members `OverMembers(info0)` ends in: the invariant with
   * every one of them done, and the task ids of the activities in plan order.
   */
  ghost predicate Finished(team: TeamId, user: UserId, memberTasks: map<MemberId, seq<nat>>, info0: seq<MemberInfo>, tasks0: seq<Task>)
    requires PositionsIn(memberTasks, |tasks0|)
  {
    var r := ProcessOver(team, user, memberTasks, tasks0, RunState(info0, tasks0, []), OverMembers(info0));
    && TaskIds(r.acts) == PlanAll(info0, tasks0, OverMembers(info0))
    && Between(team, user, info0, tasks0, r, {}, Elems(OverMembers(info0)))
  }

  /** The loop over the over-capacity members leaves each of them done and keeps the invariant. */
  lemma {:induction false} RunFrom(team: TeamId, user: UserId, memberTasks: map<MemberId, seq<nat>>, info0: seq<MemberInfo>, tasks0: seq<Task>)
    requires Origin(info0, tasks0) && TaskMap(memberTasks, info0, tasks0)
    ensures Finished(team, user, memberTasks, info0, tasks0) == true
  {
    var over := OverMembers(info0);
    EmptyUnion(Elems(over));
    StartBetween(team, user, info0, tasks0);
    OverMembersList(info0);
    ProcessOverKeeps(team, user, memberTasks, info0, tasks0, RunState(info0, tasks0, []), over, {},
                     ProcessOver(team, user, memberTasks, tasks0, RunState(info0, tasks0, []), over));
  }

  // ---------------------------------------------------------------------------------------
  // The state a run ends in

  /** Tasks keep everything but their assignee; only Low and Medium tasks of over-capacity members move, to nobody or to a member that had room. */
  ghost predicate MovesFromOver(info0: seq<MemberInfo>, tasks0: seq<Task>, r: RunState) {
    && |r.tasks| == |tasks0|
    && (forall t :: 0 <= t < |tasks0| ==> r.tasks[t] == tasks0[t].(assignedMember := r.tasks[t].assignedMember))
    && forall t :: 0 <= t < |tasks0| && r.tasks[t].assignedMember != tasks0[t].assignedMember ==>
         && Movable(tasks0[t])
         && tasks0[t].assignedMember.Some? && OverId(info0, tasks0[t].assignedMember.value)
         && (r.tasks[t].assignedMember.None? || TargetId(info0, r.tasks[t].assignedMember.value))
  }

  /**
   * What the activities owe each member: an over-capacity member gave up its quota, nobody else
   * gave up anything, nobody received more than its initial spare capacity, and each load moved by
   * what was given and received.
   */
  ghost predicate CountsOwed(info0: seq<MemberInfo>, tasks0: seq<Task>, r: RunState) {
    forall k :: 0 <= k < |info0| ==> OwedAt(info0, tasks0, r, k)
  }

  /** What the activities owe the member at `k` of the snapshot. */
  ghost predicate OwedAt(info0: seq<MemberInfo>, tasks0: seq<Task>, r: RunState, k: nat)
    requires k < |info0|
  {
    && CountFrom(r.acts, info0[k].id) == (if Over(info0[k]) then Quota(info0, tasks0, k) else 0)
    && CountTo(r.acts, info0[k].id) <= info0[k].available
    && Load(r.tasks, info0[k].id) + CountFrom(r.acts, info0[k].id) == Load(tasks0, info0[k].id) + CountTo(r.acts, info0[k].id)
  }

  /** Each member is within its capacity or holds only High tasks. */
  ghost predicate WithinCapacity(info0: seq<MemberInfo>, r: RunState) {
    forall k :: 0 <= k < |info0| ==>
      || Load(r.tasks, info0[k].id) <= info0[k].capacity
      || forall t :: 0 <= t < |r.tasks| && r.tasks[t].assignedMember == Some(info0[k].id) ==> r.tasks[t].priority == High
  }

  /**
   * The activity list: well-formed entries that record each moved task's old and new assignee, one
   * per moved task; unassignments come last, and only once every member's spare capacity is used up.
   */
  ghost predicate LogRecords(team: TeamId, user: UserId, info0: seq<MemberInfo>, tasks0: seq<Task>, r: RunState) {
    && |r.tasks| == |tasks0|
    && (forall a :: 0 <= a < |r.acts| ==> WellFormed(team, user, info0, r.acts[a]))
    && (forall a, t :: 0 <= a < |r.acts| && 0 <= t < |tasks0| && tasks0[t].id == r.acts[a].task ==>
          && tasks0[t].assignedMember == r.acts[a].fromMember
          && r.tasks[t].assignedMember == r.acts[a].toMember
          && Movable(tasks0[t]))
    && (forall a, b :: 0 <= a < b < |r.acts| ==> r.acts[a].task != r.acts[b].task)
    && (forall t :: 0 <= t < |tasks0| && r.tasks[t].assignedMember != tasks0[t].assignedMember ==>
          exists a :: 0 <= a < |r.acts| && r.acts[a].task == tasks0[t].id)
    && (forall a, b :: 0 <= a < b < |r.acts| && r.acts[a].toMember.None? ==> r.acts[b].toMember.None?)
    && ((exists a :: 0 <= a < |r.acts| && r.acts[a].toMember.None?) ==>
          forall k :: 0 <= k < |info0| ==> CountTo(r.acts, info0[k].id) == info0[k].available)
  }

  lemma {:induction false} FinalMoves(team: TeamId, user: UserId, info0: seq<MemberInfo>, tasks0: seq<Task>, r: RunState, done: set<nat>)
    requires Between(team, user, info0, tasks0, r, {}, done) == true
    ensures MovesFromOver(info0, tasks0, r)
  {
    forall t | 0 <= t < |tasks0| && r.tasks[t].assignedMember != tasks0[t].assignedMember
      ensures tasks0[t].assignedMember.Some? && OverId(info0, tasks0[t].assignedMember.value)
    {
      TaskIdsIndex(r.acts, tasks0[t].id);
      var a :| 0 <= a < |r.acts| && r.acts[a].task == tasks0[t].id;
      assert WellFormed(team, user, info0, r.acts[a]);
    }
  }

  lemma {:induction false} FinalCounts(team: TeamId, user: UserId, info0: seq<MemberInfo>, tasks0: seq<Task>, r: RunState, done: set<nat>)
    requires Between(team, user, info0, tasks0, r, {}, done) == true
    requires forall k :: 0 <= k < |info0| && Over(info0[k]) ==> k in done
    ensures CountsOwed(info0, tasks0, r)
  {
    forall k | 0 <= k < |info0|
      ensures OwedAt(info0, tasks0, r, k)
    {
      assert 0 <= r.info[k].available && r.info[k].available + CountTo(r.acts, info0[k].id) == info0[k].available;
      if Over(info0[k]) {
        assert Done(info0, tasks0, r, k);
      }
    }
  }

  lemma {:induction false} FinalCapacity(team: TeamId, user: UserId, info0: seq<MemberInfo>, tasks0: seq<Task>, r: RunState, done: set<nat>)
    requires Between(team, user, info0, tasks0, r, {}, done) == true
    requires forall k :: 0 <= k < |info0| && Over(info0[k]) ==> k in done
    ensures WithinCapacity(info0, r)
  {
    forall k | 0 <= k < |info0|
      ensures || Load(r.tasks, info0[k].id) <= info0[k].capacity
              || forall t :: 0 <= t < |r.tasks| && r.tasks[t].assignedMember == Some(info0[k].id) ==> r.tasks[t].priority == High
    {
      if Over(info0[k]) {
        assert Done(info0, tasks0, r, k);
      } else {
        assert CountFrom(r.acts, info0[k].id) == 0;
        assert r.info[k].available + CountTo(r.acts, info0[k].id) == info0[k].available;
      }
    }
  }

  lemma {:induction false} FinalLog(team: TeamId, user: UserId, info0: seq<MemberInfo>, tasks0: seq<Task>, r: RunState, done: set<nat>)
    requires Between(team, user, info0, tasks0, r, {}, done) == true
    ensures LogRecords(team, user, info0, tasks0, r)
  {
    forall t | 0 <= t < |tasks0| && r.tasks[t].assignedMember != tasks0[t].assignedMember
      ensures exists a :: 0 <= a < |r.acts| && r.acts[a].task == tasks0[t].id
    {
      TaskIdsIndex(r.acts, tasks0[t].id);
    }
    if a :| 0 <= a < |r.acts| && r.acts[a].toMember.None? {
      var n := |r.acts| - 1;
      assert r.acts[n].toMember.None?;
      forall k | 0 <= k < |info0| ensures CountTo(r.acts, info0[k].id) == info0[k].available {
        assert r.info[k].available == 0;
      }
    }
  }

  /** Every over-capacity member of the snapshot is among the members the loop drains. */
  lemma {:induction false} OverInElems(info: seq<MemberInfo>)
    ensures forall k :: 0 <= k < |info| && Over(info[k]) ==> k in Elems(OverMembers(info))
  {
    forall k | 0 <= k < |info| && Over(info[k]) ensures k in Elems(OverMembers(info)) {
      assert k in OverMembers(info);
      var i :| 0 <= i < |OverMembers(info)| && OverMembers(info)[i] == k;
    }
  }

  /** The invariant at the end of a run on a fresh snapshot, and the task ids its activities list. */
  lemma {:induction false} RunEnd(team: TeamId, user: UserId, members: seq<Member>, tasks: seq<Task>)
    requires Fresh(members, tasks)
    ensures var info := Snapshot(members, tasks);
      TaskIds(Run(team, user, members, tasks).acts) == PlanAll(info, tasks, OverMembers(info))
    ensures var info := Snapshot(members, tasks);
      Between(team, user, info, tasks, Run(team, user, members, tasks), {}, Elems(OverMembers(info))) == true
    ensures var info := Snapshot(members, tasks);
      forall k :: 0 <= k < |info| && Over(info[k]) ==> k in Elems(OverMembers(info))
  {
    SnapshotOrigin(members, tasks);
    SnapshotTaskMap(members, tasks);
    RunFrom(team, user, MemberTasks(members, tasks), Snapshot(members, tasks), tasks);
    OverInElems(Snapshot(members, tasks));
  }

  lemma {:induction false} RunMoves(team: TeamId, user: UserId, members: seq<Member>, tasks: seq<Task>)
    requires Fresh(members, tasks)
    ensures MovesFromOver(Snapshot(members, tasks), tasks, Run(team, user, members, tasks))
  {
    var info := Snapshot(members, tasks);
    RunEnd(team, user, members, tasks);
    FinalMoves(team, user, info, tasks, Run(team, user, members, tasks), Elems(OverMembers(info)));
  }

  lemma {:induction false} RunCounts(team: TeamId, user: UserId, members: seq<Member>, tasks: seq<Task>)
    requires Fresh(members, tasks)
    ensures CountsOwed(Snapshot(members, tasks), tasks, Run(team, user, members, tasks))
  {
    var info := Snapshot(members, tasks);
    RunEnd(team, user, members, tasks);
    FinalCounts(team, user, info, tasks, Run(team, user, members, tasks), Elems(OverMembers(info)));
  }

  /** The counts of `RunCounts` for the one member `members[k]`, in terms of the members and the tasks. */
  lemma {:induction false} RunCountsAt(team: TeamId, user: UserId, members: seq<Member>, tasks: seq<Task>, k: nat)
    requires Fresh(members, tasks) && k < |members|
    ensures CountFrom(Run(team, user, members, tasks).acts, members[k].id)
            == Owed(Load(tasks, members[k].id), members[k].capacity, |Cands(tasks, members[k].id)|)
    ensures CountTo(Run(team, user, members, tasks).acts, members[k].id) <= Max0(members[k].capacity - Load(tasks, members[k].id))
    ensures Load(Run(team, user, members, tasks).tasks, members[k].id) + CountFrom(Run(team, user, members, tasks).acts, members[k].id)
            == Load(tasks, members[k].id) + CountTo(Run(team, user, members, tasks).acts, members[k].id)
  {
    RunCounts(team, user, members, tasks);
    OwedFrom(members, tasks, Run(team, user, members, tasks), k);
    OwedTo(members, tasks, Run(team, user, members, tasks), k);
    OwedLoad(members, tasks, Run(team, user, members, tasks), k);
  }

  /** `CountsOwed` of the snapshot, for the one member `members[k]`: the tasks it gives up. */
  lemma {:induction false} OwedFrom(members: seq<Member>, tasks: seq<Task>, r: RunState, k: nat)
    requires CountsOwed(Snapshot(members, tasks), tasks, r) == true && k < |members|
    ensures CountFrom(r.acts, members[k].id)
            == Owed(Load(tasks, members[k].id), members[k].capacity, |Cands(tasks, members[k].id)|)
  {
    RecordAt(members, tasks, k);
    CountsOwedAt(Snapshot(members, tasks), tasks, r, k, members[k].id, members[k].capacity, Load(tasks, members[k].id));
  }

  /** `CountsOwed` of the snapshot, for the one member `members[k]`: the tasks it receives. */
  lemma {:induction false} OwedTo(members: seq<Member>, tasks: seq<Task>, r: RunState, k: nat)
    requires CountsOwed(Snapshot(members, tasks), tasks, r) == true && k < |members|
    ensures CountTo(r.acts, members[k].id) <= Max0(members[k].capacity - Load(tasks, members[k].id))
  {
    RecordAt(members, tasks, k);
    CountsOwedAt(Snapshot(members, tasks), tasks, r, k, members[k].id, members[k].capacity, Load(tasks, members[k].id));
  }

  /** `CountsOwed` of the snapshot, for the one member `members[k]`: the tasks it ends with. */
  lemma {:induction false} OwedLoad(members: seq<Member>, tasks: seq<Task>, r: RunState, k: nat)
    requires CountsOwed(Snapshot(members, tasks), tasks, r) == true && k < |members|
    ensures Load(r.tasks, members[k].id) + CountFrom(r.acts, members[k].id)
            == Load(tasks, members[k].id) + CountTo(r.acts, members[k].id)
  {
    RecordAt(members, tasks, k);
    CountsOwedAt(Snapshot(members, tasks), tasks, r, k, members[k].id, members[k].capacity, Load(tasks, members[k].id));
  }

  /** The number of tasks a member holding `load` tasks with capacity `cap` gives up, when it has `candidates` Low and Medium ones. */
  function Owed(load: int, cap: int, candidates: int): int {
    if load > cap then Min(load - cap, candidates) else 0
  }

  /** `m` is the record of a member with id `id` and capacity `cap` that holds `load` tasks. */
  predicate RecordIs(m: MemberInfo, id: MemberId, cap: int, load: int) {
    && m.id == id && m.capacity == cap && m.assignedCount == load
    && m.available == (if cap > load then cap - load else 0)
  }

  /** The fields of the record `k` of the snapshot. */
  lemma {:induction false} RecordAt(members: seq<Member>, tasks: seq<Task>, k: nat)
    requires k < |members|
    ensures k < |Snapshot(members, tasks)|
    ensures RecordIs(Snapshot(members, tasks)[k], members[k].id, members[k].capacity, Load(tasks, members[k].id)) == true
  {
    LoadIsLength(tasks, members[k].id);
  }

  /** `CountsOwed` for the record `k`, whose id, capacity and count are `id`, `cap` and `load`. */
  lemma {:induction false} CountsOwedAt(info0: seq<MemberInfo>, tasks0: seq<Task>, r: RunState, k: nat, id: MemberId, cap: int, load: int)
    requires CountsOwed(info0, tasks0, r) == true && k < |info0|
    requires RecordIs(info0[k], id, cap, load) == true
    ensures CountFrom(r.acts, id) == Owed(load, cap, |Cands(tasks0, id)|)
    ensures CountTo(r.acts, id) <= Max0(cap - load)
    ensures Load(r.tasks, id) + CountFrom(r.acts, id) == Load(tasks0, id) + CountTo(r.acts, id)
  {
    assert OwedAt(info0, tasks0, r, k);
  }

  lemma {:induction false} RunCapacity(team: TeamId, user: UserId, members: seq<Member>, tasks: seq<Task>)
    requires Fresh(members, tasks)
    ensures WithinCapacity(Snapshot(members, tasks), Run(team, user, members, tasks))
  {
    var info := Snapshot(members, tasks);
    RunEnd(team, user, members, tasks);
    FinalCapacity(team, user, info, tasks, Run(team, user, members, tasks), Elems(OverMembers(info)));
  }

  lemma {:induction false} RunLog(team: TeamId, user: UserId, members: seq<Member>, tasks: seq<Task>)
    requires Fresh(members, tasks)
    ensures LogRecords(team, user, Snapshot(members, tasks), tasks, Run(team, user, members, tasks))
  {
    var info := Snapshot(members, tasks);
    RunEnd(team, user, members, tasks);
    FinalLog(team, user, info, tasks, Run(team, user, members, tasks), Elems(OverMembers(info)));
  }

  // ---------------------------------------------------------------------------------------
  // What a run guarantees

  /** `x` is the id of a member that held more tasks than its capacity when the run started. */
  ghost predicate OverMember(members: seq<Member>, tasks: seq<Task>, x: MemberId) {
    exists k :: 0 <= k < |members| && members[k].id == x && Load(tasks, x) > members[k].capacity
  }

  /** `x` is the id of a member that held fewer tasks than its capacity when the run started. */
  ghost predicate RoomMember(members: seq<Member>, tasks: seq<Task>, x: MemberId) {
    exists k :: 0 <= k < |members| && members[k].id == x && Load(tasks, x) < members[k].capacity
  }

  /** The snapshot's records and its over-capacity and spare-capacity members, in terms of the members and the tasks. */
  lemma {:induction false} SnapshotMembers(members: seq<Member>, tasks: seq<Task>)
    ensures var info := Snapshot(members, tasks);
      && (forall k :: 0 <= k < |members| ==>
            && info[k].id == members[k].id && info[k].capacity == members[k].capacity
            && info[k].assignedCount == Load(tasks, members[k].id)
            && info[k].available == Max0(members[k].capacity - Load(tasks, members[k].id)))
      && (forall x :: OverId(info, x) <==> OverMember(members, tasks, x))
      && (forall x :: TargetId(info, x) <==> RoomMember(members, tasks, x))
  {
    var info := Snapshot(members, tasks);
    forall k | 0 <= k < |members|
      ensures info[k].assignedCount == Load(tasks, members[k].id)
    {
      LoadIsLength(tasks, members[k].id);
    }
  }

  /**
   * A run changes nothing but assignments, and never the assignment of a High task: High tasks are
   * never candidates (lines 110-111).
   */
  lemma {:induction false} HighTasksStay(team: TeamId, user: UserId, members: seq<Member>, tasks: seq<Task>)
    requires Fresh(members, tasks)
    ensures var res := Rebalance(team, user, members, tasks);
      && |res.tasks| == |tasks|
      && (forall t :: 0 <= t < |tasks| ==> res.tasks[t] == tasks[t].(assignedMember := res.tasks[t].assignedMember))
      && (forall t :: 0 <= t < |tasks| && tasks[t].priority == High ==> res.tasks[t] == tasks[t])
  {
    RunMoves(team, user, members, tasks);
  }

  /**
   * Only a Low or Medium task of an over-capacity member changes hands, and it goes to a member
   * that had spare capacity when the run started, or to nobody.
   */
  lemma {:induction false} OnlyOverflowMoves(team: TeamId, user: UserId, members: seq<Member>, tasks: seq<Task>)
    requires Fresh(members, tasks)
    ensures var res := Rebalance(team, user, members, tasks);
      forall t :: 0 <= t < |tasks| && res.tasks[t].assignedMember != tasks[t].assignedMember ==>
        && Movable(tasks[t])
        && tasks[t].assignedMember.Some? && OverMember(members, tasks, tasks[t].assignedMember.value)
        && (res.tasks[t].assignedMember.None? || RoomMember(members, tasks, res.tasks[t].assignedMember.value))
  {
    var info := Snapshot(members, tasks);
    RunMoves(team, user, members, tasks);
    var r, res := Run(team, user, members, tasks), Rebalance(team, user, members, tasks);
    assert res.details == r.acts && res.tasks == r.tasks;
    SnapshotMembers(members, tasks);
  }

  /**
   * For each member `members[k]`: an over-capacity member gives up min(overflow, number of its Low
   * and Medium tasks) tasks (lines 118-119, 136, 160), any other member gives up none; `moved` is
   * the length of `details` (line 170).
   */
  lemma {:induction false} MovesPerMember(team: TeamId, user: UserId, members: seq<Member>, tasks: seq<Task>, k: nat)
    requires Fresh(members, tasks) && k < |members|
    ensures var res := Rebalance(team, user, members, tasks);
      res.moved == |res.details|
    ensures var res, load := Rebalance(team, user, members, tasks), Load(tasks, members[k].id);
      CountFrom(res.details, members[k].id)
      == (if load > members[k].capacity then Min(load - members[k].capacity, |Cands(tasks, members[k].id)|) else 0)
  {
    RunCountsAt(team, user, members, tasks, k);
    assert Rebalance(team, user, members, tasks).details == Run(team, user, members, tasks).acts;
  }

  /**
   * Member `members[k]` receives no more tasks than its spare capacity at the start,
   * `max(0, capacity - assigned)`, and ends with its initial tasks, less those it gave up, plus
   * those it received.
   */
  lemma {:induction false} ReceiveBound(team: TeamId, user: UserId, members: seq<Member>, tasks: seq<Task>, k: nat)
    requires Fresh(members, tasks) && k < |members|
    ensures var res := Rebalance(team, user, members, tasks);
      CountTo(res.details, members[k].id) <= Max0(members[k].capacity - Load(tasks, members[k].id))
    ensures var res := Rebalance(team, user, members, tasks);
      Load(res.tasks, members[k].id) == Load(tasks, members[k].id) - CountFrom(res.details, members[k].id) + CountTo(res.details, members[k].id)
  {
    RunCountsAt(team, user, members, tasks, k);
    var r := Run(team, user, members, tasks);
    assert Rebalance(team, user, members, tasks).details == r.acts && Rebalance(team, user, members, tasks).tasks == r.tasks;
  }

  /** After a run every member is within its capacity, or holds only High tasks. */
  lemma {:induction false} CapacityRestored(team: TeamId, user: UserId, members: seq<Member>, tasks: seq<Task>)
    requires Fresh(members, tasks)
    ensures var res := Rebalance(team, user, members, tasks);
      forall k :: 0 <= k < |members| ==>
        || Load(res.tasks, members[k].id) <= members[k].capacity
        || forall t :: 0 <= t < |res.tasks| && res.tasks[t].assignedMember == Some(members[k].id) ==> res.tasks[t].priority == High
  {
    var info := Snapshot(members, tasks);
    RunCapacity(team, user, members, tasks);
    var r, res := Run(team, user, members, tasks), Rebalance(team, user, members, tasks);
    assert res.details == r.acts && res.tasks == r.tasks;
    SnapshotMembers(members, tasks);
  }

  /**
   * Each activity (lines 128-154) is by `user` for `team`, takes its task from an over-capacity
   * member, its previous assignee, and gives it to the member now holding it, one with spare
   * capacity at the start, or to nobody; its message names the same task and members. No task has
   * two activities, and every task whose assignment changed has one.
   */
  lemma {:induction false} ActivitiesRecordMoves(team: TeamId, user: UserId, members: seq<Member>, tasks: seq<Task>)
    requires Fresh(members, tasks)
    ensures var res := Rebalance(team, user, members, tasks);
      var d := res.details;
      && (forall a :: 0 <= a < |d| ==>
            && d[a].team == team && d[a].performedBy == user && MessageAgrees(d[a])
            && d[a].fromMember.Some? && OverMember(members, tasks, d[a].fromMember.value)
            && (d[a].toMember.None? || RoomMember(members, tasks, d[a].toMember.value)))
      && (forall a, t :: 0 <= a < |d| && 0 <= t < |tasks| && tasks[t].id == d[a].task ==>
            && tasks[t].assignedMember == d[a].fromMember
            && res.tasks[t].assignedMember == d[a].toMember
            && Movable(tasks[t]))
      && (forall a, b :: 0 <= a < b < |d| ==> d[a].task != d[b].task)
      && (forall t :: 0 <= t < |tasks| && res.tasks[t].assignedMember != tasks[t].assignedMember ==>
            exists a :: 0 <= a < |d| && d[a].task == tasks[t].id)
  {
    RunLog(team, user, members, tasks);
    var r, res := Run(team, user, members, tasks), Rebalance(team, user, members, tasks);
    LoggedMoves(team, user, members, tasks, r);
    assert res.details == r.acts && res.tasks == r.tasks;
  }

  /** `LogRecords` of the snapshot, in terms of the members and the tasks, for a final state `r`. */
  lemma {:induction false} LoggedMoves(team: TeamId, user: UserId, members: seq<Member>, tasks: seq<Task>, r: RunState)
    requires LogRecords(team, user, Snapshot(members, tasks), tasks, r) == true
    ensures forall a :: 0 <= a < |r.acts| ==>
      && r.acts[a].team == team && r.acts[a].performedBy == user && MessageAgrees(r.acts[a])
      && r.acts[a].fromMember.Some? && OverMember(members, tasks, r.acts[a].fromMember.value)
      && (r.acts[a].toMember.None? || RoomMember(members, tasks, r.acts[a].toMember.value))
    ensures forall a, t :: 0 <= a < |r.acts| && 0 <= t < |tasks| && tasks[t].id == r.acts[a].task ==>
      && tasks[t].assignedMember == r.acts[a].fromMember
      && r.tasks[t].assignedMember == r.acts[a].toMember
      && Movable(tasks[t])
    ensures forall a, b :: 0 <= a < b < |r.acts| ==> r.acts[a].task != r.acts[b].task
    ensures forall t :: 0 <= t < |tasks| && r.tasks[t].assignedMember != tasks[t].assignedMember ==>
      exists a :: 0 <= a < |r.acts| && r.acts[a].task == tasks[t].id
  {
    SnapshotMembers(members, tasks);
  }

  /**
   * Once `findTarget` finds nobody it finds nobody for the rest of the run: unassignments come
   * after every reassignment, and a run unassigns a task only once every member has received as
   * many tasks as it had spare capacity.
   */
  lemma {:induction false} UnassignOnlyWhenFull(team: TeamId, user: UserId, members: seq<Member>, tasks: seq<Task>)
    requires Fresh(members, tasks)
    ensures var d := Rebalance(team, user, members, tasks).details;
      && (forall a, b :: 0 <= a < b < |d| && d[a].toMember.None? ==> d[b].toMember.None?)
      && ((exists a :: 0 <= a < |d| && d[a].toMember.None?) ==>
            forall k :: 0 <= k < |members| ==>
              CountTo(d, members[k].id) == Max0(members[k].capacity - Load(tasks, members[k].id)))
  {
    var info := Snapshot(members, tasks);
    RunLog(team, user, members, tasks);
    var r, res := Run(team, user, members, tasks), Rebalance(team, user, members, tasks);
    assert res.details == r.acts && res.tasks == r.tasks;
    SnapshotMembers(members, tasks);
  }

  /**
   * The order of `details`: the over-capacity members in member order and, for each, its first
   * candidates in candidate order, as many as it gives up.
   */
  lemma {:induction false} DetailsOrder(team: TeamId, user: UserId, members: seq<Member>, tasks: seq<Task>)
    requires Fresh(members, tasks)
    ensures var info := Snapshot(members, tasks);
      TaskIds(Rebalance(team, user, members, tasks).details) == PlanAll(info, tasks, OverMembers(info))
  {
    RunEnd(team, user, members, tasks);
  }

  // ---------------------------------------------------------------------------------------
  // Runs that move nothing

  /** No member above its capacity holds a Low or Medium task: the drain loop has nothing to take. */
  ghost predicate Idle(members: seq<Member>, tasks: seq<Task>) {
    forall k, t :: 0 <= k < |members| && 0 <= t < |tasks| && tasks[t].assignedMember == Some(members[k].id) && Movable(tasks[t]) ==>
      Load(tasks, members[k].id) <= members[k].capacity
  }

  /** Draining members without candidates changes nothing. */
  lemma {:induction false} ProcessOverIdle(team: TeamId, user: UserId, memberTasks: map<MemberId, seq<nat>>, tasks: seq<Task>,
                                           st: RunState, over: seq<nat>)
    requires PositionsIn(memberTasks, |tasks|) && |st.tasks| == |tasks|
    requires forall i :: 0 <= i < |over| ==> over[i] < |st.info|
    requires forall i :: 0 <= i < |over| ==> CandidatesOf(memberTasks, tasks, st.info[over[i]]) == []
    ensures ProcessOver(team, user, memberTasks, tasks, st, over) == st
    decreases |over|
  {
    if |over| > 0 {
      assert DrainOver(team, user, memberTasks, tasks, st, over[0]) == st;
      ProcessOverIdle(team, user, memberTasks, tasks, st, over[1..]);
    }
  }

  /** A member above its capacity with no Low or Medium task has no candidates. */
  lemma {:induction false} NoCandidates(members: seq<Member>, tasks: seq<Task>, k: nat)
    requires Idle(members, tasks) && k < |members|
    requires Over(Snapshot(members, tasks)[k])
    ensures CandidatesOf(MemberTasks(members, tasks), tasks, Snapshot(members, tasks)[k]) == []
  {
    var id := members[k].id;
    var l := AssignedIndices(tasks, id);
    assert members[k] in members;
    assert MemberTasks(members, tasks)[id] == l;
    LoadIsLength(tasks, id);
    assert Load(tasks, id) > members[k].capacity;
    forall i | 0 <= i < |l| ensures !Movable(tasks[l[i]]) {
      assert l[i] in l;
    }
    FilterMovableNone(tasks, l);
  }

  /**
   * When no over-capacity member holds a Low or Medium task, a run moves nothing: the tasks come
   * back unchanged, `moved` is 0 and `details` is empty. Duplicate ids are allowed here.
   */
  lemma {:induction false} IdleRun(team: TeamId, user: UserId, members: seq<Member>, tasks: seq<Task>)
    requires Idle(members, tasks)
    ensures Rebalance(team, user, members, tasks) == Reassignment(tasks, 0, [])
  {
    var info := Snapshot(members, tasks);
    var over := OverMembers(info);
    MemberTasksPositions(members, tasks);
    forall i | 0 <= i < |over| ensures CandidatesOf(MemberTasks(members, tasks), tasks, info[over[i]]) == [] {
      NoCandidates(members, tasks, over[i]);
    }
    ProcessOverIdle(team, user, MemberTasks(members, tasks), tasks, RunState(info, tasks, []), over);
  }

  /** A team whose members are all within capacity is left as it is (the smoke-test scenario's "nothing to move"). */
  lemma {:induction false} BalancedTeamIsUnchanged(team: TeamId, user: UserId, members: seq<Member>, tasks: seq<Task>)
    requires forall k :: 0 <= k < |members| ==> Load(tasks, members[k].id) <= members[k].capacity
    ensures Rebalance(team, user, members, tasks) == Reassignment(tasks, 0, [])
  {
    IdleRun(team, user, members, tasks);
  }

  /** A Low or Medium task held by an over-capacity member makes the run move something. */
  lemma {:induction false} HeldCandidateMoves(team: TeamId, user: UserId, members: seq<Member>, tasks: seq<Task>, k: nat, t: nat)
    requires Fresh(members, tasks) && k < |members| && t < |tasks|
    requires tasks[t].assignedMember == Some(members[k].id) && Movable(tasks[t])
    requires Load(tasks, members[k].id) > members[k].capacity
    ensures Rebalance(team, user, members, tasks).moved > 0
  {
    RunCountsAt(team, user, members, tasks, k);
    HeldIsCandidate(tasks, members[k].id, t);
    assert Rebalance(team, user, members, tasks).moved == |Run(team, user, members, tasks).acts|;
  }

  /** A Low or Medium task of member `id` is one of its candidates. */
  lemma {:induction false} HeldIsCandidate(tasks: seq<Task>, id: MemberId, t: nat)
    requires t < |tasks| && tasks[t].assignedMember == Some(id) && Movable(tasks[t])
    ensures t in Cands(tasks, id)
  {
    assert t in AssignedIndices(tasks, id);
  }

  /** A run moves nothing exactly when no over-capacity member holds a Low or Medium task. */
  lemma {:induction false} MovedZeroIff(team: TeamId, user: UserId, members: seq<Member>, tasks: seq<Task>)
    requires Fresh(members, tasks)
    ensures Rebalance(team, user, members, tasks).moved == 0 <==> Idle(members, tasks)
  {
    if Idle(members, tasks) {
      IdleRun(team, user, members, tasks);
    } else {
      var k, t :| && 0 <= k < |members| && 0 <= t < |tasks|
                  && tasks[t].assignedMember == Some(members[k].id) && Movable(tasks[t])
                  && Load(tasks, members[k].id) > members[k].capacity;
      HeldCandidateMoves(team, user, members, tasks, k, t);
    }
  }

  /** Running the reassignment again on its own result moves nothing: one run is enough. */
  lemma {:induction false} SecondRunIsIdle(team: TeamId, user: UserId, members: seq<Member>, tasks: seq<Task>)
    requires Fresh(members, tasks)
    ensures var res := Rebalance(team, user, members, tasks);
      Rebalance(team, user, members, res.tasks) == Reassignment(res.tasks, 0, [])
  {
    var res := Rebalance(team, user, members, tasks);
    CapacityRestored(team, user, members, tasks);
    assert Idle(members, res.tasks);
    IdleRun(team, user, members, res.tasks);
  }
}
