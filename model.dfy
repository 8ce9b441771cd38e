/**
 * The entities the reassignment engine reads and writes: tasks (src/models/Task.ts),
 * team members (src/models/Team.ts) and activity records (src/models/Activity.ts).
 * Object ids are modelled as natural numbers that are only compared for equality.
 */
module Model {
  import opened Basics

  type MemberId = nat
  type TaskId = nat
  type TeamId = nat
  type UserId = nat

  /** `'Low' | 'Medium' | 'High'`. */
  datatype Priority = Low | Medium | High

  /** The fields of a task the engine looks at; `createdAt` is the timestamp in milliseconds. */
  datatype Task = Task(id: TaskId, priority: Priority, createdAt: int, assignedMember: Option<MemberId>)

  /** A member sub-document of a team. */
  datatype Member = Member(id: MemberId, name: string, role: Option<string>, capacity: int)

  /** The two message templates of an activity, with the values they interpolate. */
  datatype Message =
    | AutoUnassigned(task: TaskId)
    | AutoReassigned(task: TaskId, from: MemberId, to: MemberId)

  /** One audit entry of a reassignment run. */
  datatype Activity = Activity(
    team: TeamId,
    performedBy: UserId,
    task: TaskId,
    fromMember: Option<MemberId>,
    toMember: Option<MemberId>,
    message: Message)

  /** The capacity range of the member schema. */
  const MinCapacity: int := 0
  const MaxCapacity: int := 5

  /** Low and Medium tasks may be moved; High tasks never are. */
  predicate Movable(t: Task) {
    t.priority == Low || t.priority == Medium
  }

  /** Member sub-documents get distinct ObjectIds from the store. */
  ghost predicate DistinctMemberIds(members: seq<Member>) {
    forall i, j :: 0 <= i < |members| && 0 <= j < |members| && i != j ==> members[i].id != members[j].id
  }

  /** The id of the task at position `i`. */
  function TaskIdAt(tasks: seq<Task>, i: nat): TaskId
    requires i < |tasks|
  {
    tasks[i].id
  }

  /**
   * Task documents get distinct ObjectIds from the store. The fact is stated on `TaskIdAt`, so that
   * a proof uses it only for the positions it names.
   */
  ghost predicate DistinctTaskIds(tasks: seq<Task>) {
    forall i, j {:trigger TaskIdAt(tasks, i), TaskIdAt(tasks, j)} ::
      0 <= i < |tasks| && 0 <= j < |tasks| && i != j ==> TaskIdAt(tasks, i) != TaskIdAt(tasks, j)
  }

  /** The ids of the members, in member order. */
  function MemberIdList(members: seq<Member>): seq<MemberId> {
    seq(|members|, i requires 0 <= i < |members| => members[i].id)
  }

  /** The ids of the tasks, in fetch order. */
  function TaskIdList(tasks: seq<Task>): seq<TaskId> {
    seq(|tasks|, i requires 0 <= i < |tasks| => tasks[i].id)
  }

  /** The last position of `x` in `ids`, or -1 when `x` does not occur. */
  function LastPosition(ids: seq<nat>, x: nat): (r: int)
    ensures -1 <= r < |ids|
    decreases |ids|
  {
    if |ids| == 0 then -1
    else if ids[|ids| - 1] == x then |ids| - 1
    else LastPosition(ids[..|ids| - 1], x)
  }

  lemma {:induction false} LastPositionHolds(ids: seq<nat>, x: nat)
    ensures LastPosition(ids, x) >= 0 ==> ids[LastPosition(ids, x)] == x
    ensures forall k :: LastPosition(ids, x) < k < |ids| ==> ids[k] != x
    decreases |ids|
  {
    if |ids| > 0 && ids[|ids| - 1] != x {
      LastPositionHolds(ids[..|ids| - 1], x);
    }
  }

  /** Each id is found at its own position: a form of distinctness with one index per fact. */
  ghost predicate UniqueIds(ids: seq<nat>) {
    forall i :: 0 <= i < |ids| ==> LastPosition(ids, ids[i]) == i
  }

  /** `UniqueIds` holds exactly when no id occurs at two positions. */
  lemma {:induction false} UniqueIdsDistinct(ids: seq<nat>)
    ensures UniqueIds(ids) <==> forall i, j :: 0 <= i < |ids| && 0 <= j < |ids| && i != j ==> ids[i] != ids[j]
  {
    if UniqueIds(ids) {
      forall i, j | 0 <= i < |ids| && 0 <= j < |ids| && i != j ensures ids[i] != ids[j] {
        assert LastPosition(ids, ids[i]) == i && LastPosition(ids, ids[j]) == j;
      }
    }
    if forall i, j :: 0 <= i < |ids| && 0 <= j < |ids| && i != j ==> ids[i] != ids[j] {
      forall i | 0 <= i < |ids| ensures LastPosition(ids, ids[i]) == i {
        LastPositionHolds(ids, ids[i]);
      }
    }
  }

  /** With distinct task ids, two tasks with the same id are at the same position. */
  lemma {:induction false} SameTaskId(tasks: seq<Task>, u: nat, t: nat)
    requires DistinctTaskIds(tasks) && u < |tasks| && t < |tasks| && tasks[u].id == tasks[t].id
    ensures u == t
  {
    assert TaskIdAt(tasks, u) == TaskIdAt(tasks, t);
  }

  /** The distinctness of the member and task ids in the form `UniqueIds` states it. */
  lemma {:induction false} UniqueListsDistinct(members: seq<Member>, tasks: seq<Task>)
    ensures UniqueIds(MemberIdList(members)) <==> DistinctMemberIds(members)
    ensures UniqueIds(TaskIdList(tasks)) <==> DistinctTaskIds(tasks)
  {
    var mi, ti := MemberIdList(members), TaskIdList(tasks);
    UniqueIdsDistinct(mi);
    UniqueIdsDistinct(ti);
    if DistinctMemberIds(members) {
      forall i, j | 0 <= i < |mi| && 0 <= j < |mi| && i != j ensures mi[i] != mi[j] {
        assert mi[i] == members[i].id && mi[j] == members[j].id;
      }
    }
    if UniqueIds(mi) {
      forall i, j | 0 <= i < |members| && 0 <= j < |members| && i != j ensures members[i].id != members[j].id {
        assert mi[i] == members[i].id && mi[j] == members[j].id;
      }
    }
    if DistinctTaskIds(tasks) {
      forall i, j | 0 <= i < |ti| && 0 <= j < |ti| && i != j ensures ti[i] != ti[j] {
        assert ti[i] == TaskIdAt(tasks, i) && ti[j] == TaskIdAt(tasks, j);
      }
    }
    if UniqueIds(ti) {
      forall i, j | 0 <= i < |tasks| && 0 <= j < |tasks| && i != j ensures TaskIdAt(tasks, i) != TaskIdAt(tasks, j) {
        assert ti[i] == tasks[i].id && ti[j] == tasks[j].id;
      }
    }
  }
}
