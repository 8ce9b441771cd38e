/**
 * Properties of a reassignment run (`Engine.Run` / `Engine.Rebalance`), proved from one
 * invariant of the run state that each `Step` keeps: the member records, the tasks and the
 * activity list stay in step with the snapshot the run started from.
 */
module EngineProofs {
  import opened Basics
  import opened Model
  import opened CapacitySnapshot
  import opened CandidateSelector
  import opened TargetSelector
  import opened Engine

  // ---------------------------------------------------------------------------------------
  // Counting activities

  /** The number of activities that give a task to member `id`. */
  function CountTo(acts: seq<Activity>, id: MemberId): nat {
    if |acts| == 0 then 0
    else CountTo(acts[..|acts| - 1], id) + (if acts[|acts| - 1].toMember == Some(id) then 1 else 0)
  }

  /** The number of activities that take a task from member `id`. */
  function CountFrom(acts: seq<Activity>, id: MemberId): nat {
    if |acts| == 0 then 0
    else CountFrom(acts[..|acts| - 1], id) + (if acts[|acts| - 1].fromMember == Some(id) then 1 else 0)
  }

  /** The task ids of the activities, in order. */
  function TaskIds(acts: seq<Activity>): seq<TaskId> {
    if |acts| == 0 then [] else TaskIds(acts[..|acts| - 1]) + [acts[|acts| - 1].task]
  }

  /** A task id the log lists is the task of one of its activities. */
  lemma {:induction false} TaskIdsIndex(acts: seq<Activity>, x: TaskId)
    requires x in TaskIds(acts)
    ensures exists a :: 0 <= a < |acts| && acts[a].task == x
  {
    var n := |acts| - 1;
    if x != acts[n].task {
      TaskIdsIndex(acts[..n], x);
      var a :| 0 <= a < n && acts[..n][a].task == x;
      assert acts[a].task == x;
    }
  }

  lemma {:induction false} AppendCounts(acts: seq<Activity>, a: Activity, id: MemberId)
    ensures CountTo(acts + [a], id) == CountTo(acts, id) + (if a.toMember == Some(id) then 1 else 0)
    ensures CountFrom(acts + [a], id) == CountFrom(acts, id) + (if a.fromMember == Some(id) then 1 else 0)
    ensures TaskIds(acts + [a]) == TaskIds(acts) + [a.task]
  {
    assert (acts + [a])[..|acts|] == acts;
  }

  /** Appending an activity for a task not yet logged keeps the tasks of the log distinct. */
  lemma {:induction false} AppendNewTask(acts: seq<Activity>, a: Activity)
    requires forall b, c :: 0 <= b < c < |acts| ==> acts[b].task != acts[c].task
    requires forall b :: 0 <= b < |acts| ==> acts[b].task != a.task
    ensures var r := acts + [a];
      forall b, c :: 0 <= b < c < |r| ==> r[b].task != r[c].task
  {
  }

  /** Proof plumbing: concatenation is associative. */
  lemma {:induction false} Associative<T>(a: seq<T>, b: seq<T>, c: seq<T>)
    ensures (a + b) + c == a + (b + c)
  {
  }

  /** Proof plumbing: a list that extends `y` by `q`, where `y` extends `a` by `p`, extends `a` by `pq`, which is `p + q`. */
  lemma {:induction false} Associative2<T>(x: seq<T>, y: seq<T>, a: seq<T>, p: seq<T>, q: seq<T>, pq: seq<T>)
    requires y == a + p && x == y + q && pq == p + q
    ensures x == a + pq
  {
  }

  function Min(a: int, b: int): int {
    if a < b then a else b
  }

  // ---------------------------------------------------------------------------------------
  // The snapshot a run starts from

  predicate Over(m: MemberInfo) {
    m.assignedCount > m.capacity
  }

  /** The id of the record at position `k`. */
  function InfoIdAt(info: seq<MemberInfo>, k: nat): MemberId
    requires k < |info|
  {
    info[k].id
  }

  /** No two records carry the same id; stated on `InfoIdAt`, so that a proof uses it only where it names the positions. */
  ghost predicate DistinctInfoIds(info: seq<MemberInfo>) {
    forall i, j {:trigger InfoIdAt(info, i), InfoIdAt(info, j)} ::
      0 <= i < |info| && 0 <= j < |info| && i != j ==> InfoIdAt(info, i) != InfoIdAt(info, j)
  }

  /** No record other than the one at `o` carries its id. */
  lemma {:induction false} DistinctInfoAt(info: seq<MemberInfo>, o: nat)
    requires DistinctInfoIds(info) && o < |info|
    ensures forall k :: 0 <= k < |info| && k != o ==> info[k].id != info[o].id
  {
    forall k | 0 <= k < |info| && k != o
      ensures info[k].id != info[o].id
    {
      assert InfoIdAt(info, k) != InfoIdAt(info, o);
    }
  }

  /** `info0` is the snapshot of `tasks0`, and ids are distinct as the store makes them. */
  ghost predicate Origin(info0: seq<MemberInfo>, tasks0: seq<Task>) {
    && DistinctInfoIds(info0)
    && DistinctTaskIds(tasks0)
    && forall k :: 0 <= k < |info0| ==>
         && info0[k].assignedCount == Load(tasks0, info0[k].id)
         && info0[k].available == Max0(info0[k].capacity - info0[k].assignedCount)
  }

  /** `memberTasks` holds, for each member of `info0`, that member's tasks in fetch order. */
  ghost predicate TaskMap(memberTasks: map<MemberId, seq<nat>>, info0: seq<MemberInfo>, tasks0: seq<Task>) {
    && PositionsIn(memberTasks, |tasks0|)
    && forall k :: 0 <= k < |info0| ==>
         info0[k].id in memberTasks && memberTasks[info0[k].id] == AssignedIndices(tasks0, info0[k].id)
  }

  /** The candidates of member `id` in the snapshot. */
  function Cands(tasks0: seq<Task>, id: MemberId): (r: seq<nat>)
    ensures InRange(tasks0, r)
  {
    Candidates(tasks0, AssignedIndices(tasks0, id))
  }

  /** How many tasks the drain of over-capacity member `k` takes: min(overflow, candidates). */
  function Quota(info0: seq<MemberInfo>, tasks0: seq<Task>, k: nat): int
    requires k < |info0|
  {
    Min(info0[k].assignedCount - info0[k].capacity, |Cands(tasks0, info0[k].id)|)
  }

  /** `x` is the id of a member that had spare capacity in the snapshot. */
  ghost predicate TargetId(info0: seq<MemberInfo>, x: MemberId) {
    exists j :: 0 <= j < |info0| && info0[j].available > 0 && info0[j].id == x
  }

  /** `x` is the id of a member that was over capacity in the snapshot. */
  ghost predicate OverId(info0: seq<MemberInfo>, x: MemberId) {
    exists j :: 0 <= j < |info0| && Over(info0[j]) && info0[j].id == x
  }

  /** An over-capacity member has no spare capacity, so it is never a target. */
  lemma {:induction false} OverIsNoTarget(info0: seq<MemberInfo>, tasks0: seq<Task>, k: nat)
    requires Origin(info0, tasks0) && k < |info0| && Over(info0[k])
    ensures info0[k].available == 0 && !TargetId(info0, info0[k].id)
  {
    DistinctInfoAt(info0, k);
  }

  // ---------------------------------------------------------------------------------------
  // The invariant of a run

  /** Records and tasks keep their identity; only counters and assignments change. */
  ghost predicate Shape(info0: seq<MemberInfo>, tasks0: seq<Task>, st: RunState) {
    && |st.info| == |info0| && |st.tasks| == |tasks0|
    && (forall k {:trigger st.info[k]} :: 0 <= k < |info0| ==>
          st.info[k].id == info0[k].id && st.info[k].capacity == info0[k].capacity)
    && (forall t {:trigger st.tasks[t]} :: 0 <= t < |tasks0| ==>
          st.tasks[t] == tasks0[t].(assignedMember := st.tasks[t].assignedMember))
  }

  /** What the counters and the loads owe to the activities recorded so far. */
  ghost predicate Accounts(info0: seq<MemberInfo>, tasks0: seq<Task>, st: RunState)
    requires Shape(info0, tasks0, st)
  {
    && (forall k {:trigger st.info[k]} :: 0 <= k < |info0| ==>
          && 0 <= st.info[k].available
          && st.info[k].available + CountTo(st.acts, info0[k].id) == info0[k].available)
    && (forall k {:trigger Load(st.tasks, info0[k].id)} :: 0 <= k < |info0| ==>
          Load(st.tasks, info0[k].id) + CountFrom(st.acts, info0[k].id)
          == Load(tasks0, info0[k].id) + CountTo(st.acts, info0[k].id))
    && (forall k {:trigger CountFrom(st.acts, info0[k].id)} :: 0 <= k < |info0| && !Over(info0[k]) ==> CountFrom(st.acts, info0[k].id) == 0)
  }

  /** Only Low and Medium tasks change hands, and only to nobody or to a member that had room. */
  ghost predicate Moves(info0: seq<MemberInfo>, tasks0: seq<Task>, st: RunState)
    requires Shape(info0, tasks0, st)
  {
    forall t {:trigger st.tasks[t]} :: 0 <= t < |tasks0| && st.tasks[t].assignedMember != tasks0[t].assignedMember ==>
      && Movable(tasks0[t])
      && (st.tasks[t].assignedMember.None? || TargetId(info0, st.tasks[t].assignedMember.value))
  }

  /** The message of an activity agrees with its fields. */
  predicate MessageAgrees(a: Activity) {
    match a.message
    case AutoUnassigned(t) => t == a.task && a.toMember == None
    case AutoReassigned(t, f, to) => t == a.task && a.fromMember == Some(f) && a.toMember == Some(to)
  }

  /** An activity of this run: taken from an over-capacity member, given to nobody or to a member with room. */
  ghost predicate WellFormed(team: TeamId, user: UserId, info0: seq<MemberInfo>, a: Activity) {
    && a.team == team && a.performedBy == user
    && a.fromMember.Some? && OverId(info0, a.fromMember.value)
    && (a.toMember.None? || TargetId(info0, a.toMember.value))
    && MessageAgrees(a)
  }

  /** The activity list: well-formed entries, and unassignments only once no member has room left. */
  ghost predicate Log(team: TeamId, user: UserId, info0: seq<MemberInfo>, tasks0: seq<Task>, st: RunState)
    requires Shape(info0, tasks0, st)
  {
    var acts := st.acts;
    && (forall a :: 0 <= a < |acts| ==> WellFormed(team, user, info0, acts[a]))
    && (forall a, b :: 0 <= a < b < |acts| && acts[a].toMember.None? ==> acts[b].toMember.None?)
    && (|acts| > 0 && acts[|acts| - 1].toMember.None? ==> forall k :: 0 <= k < |info0| ==> st.info[k].available == 0)
  }

  /** Each activity records its task's original and current assignee; one activity per changed task. */
  ghost predicate Trace(info0: seq<MemberInfo>, tasks0: seq<Task>, st: RunState)
    requires Shape(info0, tasks0, st)
  {
    var acts := st.acts;
    && (forall a, t :: 0 <= a < |acts| && 0 <= t < |tasks0| && tasks0[t].id == acts[a].task ==>
          && tasks0[t].assignedMember == acts[a].fromMember
          && st.tasks[t].assignedMember == acts[a].toMember
          && Movable(tasks0[t]))
    && (forall a, b :: 0 <= a < b < |acts| ==> acts[a].task != acts[b].task)
    && (forall t {:trigger st.tasks[t]} :: 0 <= t < |tasks0| && st.tasks[t].assignedMember != tasks0[t].assignedMember ==>
          tasks0[t].id in TaskIds(acts))
  }

  ghost predicate Core(team: TeamId, user: UserId, info0: seq<MemberInfo>, tasks0: seq<Task>, st: RunState) {
    && Shape(info0, tasks0, st)
    && Accounts(info0, tasks0, st)
    && Moves(info0, tasks0, st)
    && Log(team, user, info0, tasks0, st)
    && Trace(info0, tasks0, st)
  }

  /** An over-capacity member whose turn has not come: nothing of it has changed. */
  ghost predicate Pending(info0: seq<MemberInfo>, tasks0: seq<Task>, st: RunState, k: nat)
    requires Shape(info0, tasks0, st)
  {
    && k < |info0| && Over(info0[k])
    && st.info[k].assignedCount == info0[k].assignedCount
    && CountFrom(st.acts, info0[k].id) == 0
    && forall t {:trigger st.tasks[t]} :: 0 <= t < |tasks0| && tasks0[t].assignedMember == Some(info0[k].id) ==>
         st.tasks[t].assignedMember == Some(info0[k].id)
  }

  /** An over-capacity member whose drain is over: it gave up its quota and is within capacity or holds only High tasks. */
  ghost predicate Done(info0: seq<MemberInfo>, tasks0: seq<Task>, st: RunState, k: nat)
    requires Shape(info0, tasks0, st)
  {
    && k < |info0| && Over(info0[k])
    && CountFrom(st.acts, info0[k].id) == Quota(info0, tasks0, k)
    && (|| Load(st.tasks, info0[k].id) <= info0[k].capacity
        || forall t {:trigger st.tasks[t]} :: 0 <= t < |tasks0| && st.tasks[t].assignedMember == Some(info0[k].id) ==>
             tasks0[t].priority == High)
  }

  /** `t` is the position of a Low or Medium task that member `id` held in the snapshot. */
  predicate Mine(tasks0: seq<Task>, id: MemberId, t: int) {
    0 <= t < |tasks0| && Movable(tasks0[t]) && tasks0[t].assignedMember == Some(id)
  }

  /**
   * The candidates `c` still to take from member `id`: untouched Low or Medium tasks of it, each
   * once; every other Low or Medium task it held has already left it.
   */
  ghost predicate Pool(tasks0: seq<Task>, tasks: seq<Task>, id: MemberId, c: seq<nat>) {
    && |tasks| == |tasks0|
    && (forall i :: 0 <= i < |c| ==>
          && c[i] < |tasks0| && tasks0[c[i]].assignedMember == Some(id) && Movable(tasks0[c[i]])
          && tasks[c[i]] == tasks0[c[i]])
    && (forall i, j :: 0 <= i < j < |c| ==> c[i] != c[j])
    && (forall t :: Mine(tasks0, id, t) ==> t in c || tasks[t].assignedMember != Some(id))
  }

  /** The member `o` being drained, with the candidates `c` still to take and the overflow `f`. */
  ghost predicate Draining(info0: seq<MemberInfo>, tasks0: seq<Task>, st: RunState, o: nat, c: seq<nat>, f: int)
    requires Shape(info0, tasks0, st) && o < |info0|
  {
    var id := info0[o].id;
    && Over(info0[o])
    && st.info[o].assignedCount == info0[o].assignedCount - CountFrom(st.acts, id)
    && 0 <= f == info0[o].assignedCount - info0[o].capacity - CountFrom(st.acts, id)
    && CountFrom(st.acts, id) + Min(f, |c|) == Quota(info0, tasks0, o)
    && Pool(tasks0, st.tasks, id, c)
  }

  // ---------------------------------------------------------------------------------------
  // One step

  /** What a step needs: the member `o` is over capacity and `t` is one of its Low or Medium tasks, untouched so far. */
  ghost predicate StepReady(info0: seq<MemberInfo>, tasks0: seq<Task>, st: RunState, o: nat, t: nat) {
    && Origin(info0, tasks0) && Takes(info0, tasks0, st, o, t)
    && Over(info0[o]) && Movable(tasks0[t])
  }

  /** The task at `t` is an untouched task of member `o`. */
  ghost predicate Takes(info0: seq<MemberInfo>, tasks0: seq<Task>, st: RunState, o: nat, t: nat) {
    && DistinctInfoIds(info0) && Shape(info0, tasks0, st)
    && o < |info0| && t < |tasks0| && tasks0[t].assignedMember == Some(info0[o].id)
    && st.tasks[t] == tasks0[t]
  }

  /** The member a step gives the task to, as an assignment. */
  function Receiver(st: RunState): Option<MemberId> {
    match FindTarget(st.info)
    case None => None
    case Some(j) => Some(st.info[j].id)
  }

  /** `Release` on a member whose id no other record carries. */
  lemma {:induction false} ReleaseAt(info: seq<MemberInfo>, fromId: MemberId, o: nat)
    requires o < |info| && info[o].id == fromId
    requires forall k :: 0 <= k < |info| && k != o ==> info[k].id != fromId
    ensures Release(info, fromId) == info[o := info[o].(assignedCount := info[o].assignedCount - 1)]
  {
    var r := IndexOfId(info, fromId);
    if r.Some? {
      assert r.value == o;
    }
  }

  /** A step written out: the task moves to `Receiver`, `o` loses one task, the target one unit of room, and one activity is added. */
  lemma {:induction false} StepShape(team: TeamId, user: UserId, info0: seq<MemberInfo>, tasks0: seq<Task>, st: RunState, o: nat, t: nat)
    requires Takes(info0, tasks0, st, o, t)
    ensures var r := Step(team, user, st, info0[o].id, t);
      var x := Receiver(st);
      var tgt := FindTarget(st.info);
      && r.tasks == st.tasks[t := tasks0[t].(assignedMember := x)]
      && r.acts == st.acts + [Activity(team, user, tasks0[t].id, Some(info0[o].id), x,
                                       if tgt.None? then AutoUnassigned(tasks0[t].id)
                                       else AutoReassigned(tasks0[t].id, info0[o].id, st.info[tgt.value].id))]
      && |r.info| == |st.info|
      && forall k :: 0 <= k < |st.info| ==>
           r.info[k] == st.info[k].(assignedCount := if k == o then st.info[k].assignedCount - 1 else st.info[k].assignedCount,
                                    available := if tgt == Some(k) then st.info[k].available - 1 else st.info[k].available)
  {
    var fromId := info0[o].id;
    DistinctInfoAt(info0, o);
    forall k | 0 <= k < |st.info| && k != o
      ensures st.info[k].id != fromId
    {
      assert st.info[k].id == info0[k].id;
    }
    ReleaseAt(st.info, fromId, o);
    var released := st.info[o := st.info[o].(assignedCount := st.info[o].assignedCount - 1)];
    var r := Step(team, user, st, fromId, t);
    match FindTarget(st.info)
    case None =>
      assert r.info == released;
    case Some(j) =>
      assert r.info == released[j := released[j].(available := released[j].available - 1)];
  }

  /** The target of a step had room in the snapshot, so it is not the member being drained. */
  lemma {:induction false} TargetFacts(info0: seq<MemberInfo>, tasks0: seq<Task>, st: RunState, o: nat)
    requires Origin(info0, tasks0) && Shape(info0, tasks0, st) && Accounts(info0, tasks0, st)
    requires o < |info0| && Over(info0[o])
    ensures var tgt := FindTarget(st.info);
      && (tgt.Some? ==> && tgt.value != o && info0[tgt.value].available > 0 && !Over(info0[tgt.value])
                        && TargetId(info0, info0[tgt.value].id))
      && (tgt.None? ==> forall k :: 0 <= k < |info0| ==> st.info[k].available == 0)
      && Receiver(st) != Some(info0[o].id)
      && (Receiver(st).None? || TargetId(info0, Receiver(st).value))
  {
    var tgt := FindTarget(st.info);
    if tgt.Some? {
      var j := tgt.value;
      assert st.info[j].available + CountTo(st.acts, info0[j].id) == info0[j].available;
      assert info0[j].available > 0;
      OverIsNoTarget(info0, tasks0, o);
    }
  }

  /** Ids and capacities stay; among the tasks only `t`'s assignment changes. */
  lemma {:induction false} StepKeepsShape(team: TeamId, user: UserId, info0: seq<MemberInfo>, tasks0: seq<Task>, st: RunState, o: nat, t: nat)
    requires Takes(info0, tasks0, st, o, t)
    ensures Shape(info0, tasks0, Step(team, user, st, info0[o].id, t))
  {
    StepShape(team, user, info0, tasks0, st, o, t);
  }

  /** What a step does to the record, the counts and the load of member `k`. */
  lemma {:induction false} StepAt(team: TeamId, user: UserId, info0: seq<MemberInfo>, tasks0: seq<Task>, st: RunState, o: nat, t: nat, k: nat)
    requires Takes(info0, tasks0, st, o, t) && k < |info0|
    ensures var r := Step(team, user, st, info0[o].id, t);
      var tgt := FindTarget(st.info);
      var id := info0[k].id;
      && r.info[k].assignedCount == st.info[k].assignedCount - (if k == o then 1 else 0)
      && r.info[k].available == st.info[k].available - (if tgt == Some(k) then 1 else 0)
      && CountFrom(r.acts, id) == CountFrom(st.acts, id) + (if k == o then 1 else 0)
      && CountTo(r.acts, id) == CountTo(st.acts, id) + (if tgt == Some(k) then 1 else 0)
      && Load(r.tasks, id) == Load(st.tasks, id) - (if k == o then 1 else 0) + (if tgt == Some(k) then 1 else 0)
  {
    var fromId := info0[o].id;
    var r := Step(team, user, st, fromId, t);
    StepShape(team, user, info0, tasks0, st, o, t);
    var x := Receiver(st);
    var tgt := FindTarget(st.info);
    var a := r.acts[|st.acts|];
    assert r.acts == st.acts + [a];
    assert a.fromMember == Some(fromId) && a.toMember == x;
    AppendCounts(st.acts, a, info0[k].id);
    LoadUpdate(st.tasks, t, tasks0[t].(assignedMember := x), info0[k].id);
    DistinctInfoAt(info0, k);
    if tgt.Some? {
      assert st.info[tgt.value].id == info0[tgt.value].id;
    }
  }

  /** After a step the drained member has shed one task and the target received it. */
  lemma {:induction false} StepKeepsAccounts(team: TeamId, user: UserId, info0: seq<MemberInfo>, tasks0: seq<Task>, st: RunState, o: nat, t: nat)
    requires StepReady(info0, tasks0, st, o, t) && Accounts(info0, tasks0, st)
    ensures var r := Step(team, user, st, info0[o].id, t);
      && Shape(info0, tasks0, r) && Accounts(info0, tasks0, r)
      && (forall k :: 0 <= k < |info0| ==>
            CountFrom(r.acts, info0[k].id) == CountFrom(st.acts, info0[k].id) + (if k == o then 1 else 0))
      && (forall k :: 0 <= k < |info0| ==>
            r.info[k].assignedCount == st.info[k].assignedCount - (if k == o then 1 else 0))
  {
    var r := Step(team, user, st, info0[o].id, t);
    StepKeepsShape(team, user, info0, tasks0, st, o, t);
    TargetFacts(info0, tasks0, st, o);
    forall k | 0 <= k < |info0|
      ensures CountFrom(r.acts, info0[k].id) == CountFrom(st.acts, info0[k].id) + (if k == o then 1 else 0)
      ensures r.info[k].assignedCount == st.info[k].assignedCount - (if k == o then 1 else 0)
      ensures 0 <= r.info[k].available && r.info[k].available + CountTo(r.acts, info0[k].id) == info0[k].available
      ensures Load(r.tasks, info0[k].id) + CountFrom(r.acts, info0[k].id)
              == Load(tasks0, info0[k].id) + CountTo(r.acts, info0[k].id)
      ensures !Over(info0[k]) ==> CountFrom(r.acts, info0[k].id) == 0
    {
      StepAt(team, user, info0, tasks0, st, o, t, k);
    }
  }

  /** A step moves a Low or Medium task, to nobody or to a member that had room. */
  lemma {:induction false} StepKeepsMoves(team: TeamId, user: UserId, info0: seq<MemberInfo>, tasks0: seq<Task>, st: RunState, o: nat, t: nat)
    requires StepReady(info0, tasks0, st, o, t) && Accounts(info0, tasks0, st) && Moves(info0, tasks0, st)
    ensures var r := Step(team, user, st, info0[o].id, t);
      Shape(info0, tasks0, r) && Moves(info0, tasks0, r)
  {
    StepShape(team, user, info0, tasks0, st, o, t);
    StepKeepsShape(team, user, info0, tasks0, st, o, t);
    TargetFacts(info0, tasks0, st, o);
  }

  /** The task of a step has no activity yet: an activity would have moved it away from `o`. */
  lemma {:induction false} StepTaskUnlogged(team: TeamId, user: UserId, info0: seq<MemberInfo>, tasks0: seq<Task>, st: RunState, o: nat, t: nat)
    requires StepReady(info0, tasks0, st, o, t) && Log(team, user, info0, tasks0, st) && Trace(info0, tasks0, st)
    ensures forall a :: 0 <= a < |st.acts| ==> st.acts[a].task != tasks0[t].id
  {
    OverIsNoTarget(info0, tasks0, o);
    forall a | 0 <= a < |st.acts|
      ensures st.acts[a].task != tasks0[t].id
    {
      assert WellFormed(team, user, info0, st.acts[a]);
      if st.acts[a].task == tasks0[t].id {
        assert false;
      }
    }
  }

  /** Appending a well-formed activity, and an unassignment after an unassignment, keeps the log's shape. */
  lemma {:induction false} AppendLog(team: TeamId, user: UserId, info0: seq<MemberInfo>, acts: seq<Activity>, a: Activity)
    requires forall b :: 0 <= b < |acts| ==> WellFormed(team, user, info0, acts[b])
    requires forall b, c :: 0 <= b < c < |acts| && acts[b].toMember.None? ==> acts[c].toMember.None?
    requires WellFormed(team, user, info0, a)
    requires |acts| > 0 && acts[|acts| - 1].toMember.None? ==> a.toMember.None?
    ensures var r := acts + [a];
      && (forall b :: 0 <= b < |r| ==> WellFormed(team, user, info0, r[b]))
      && (forall b, c :: 0 <= b < c < |r| && r[b].toMember.None? ==> r[c].toMember.None?)
  {
    var r := acts + [a];
    forall b, c | 0 <= b < c < |r| && r[b].toMember.None?
      ensures r[c].toMember.None?
    {
      if c == |acts| && b < |acts| - 1 {
        assert acts[b].toMember.None?;
      }
    }
  }

  /** A step adds one well-formed activity, and one that unassigns only once nobody has room. */
  lemma {:induction false} StepKeepsLog(team: TeamId, user: UserId, info0: seq<MemberInfo>, tasks0: seq<Task>, st: RunState, o: nat, t: nat)
    requires StepReady(info0, tasks0, st, o, t) && Accounts(info0, tasks0, st) && Log(team, user, info0, tasks0, st)
    ensures var r := Step(team, user, st, info0[o].id, t);
      Shape(info0, tasks0, r) && Log(team, user, info0, tasks0, r)
  {
    var r := Step(team, user, st, info0[o].id, t);
    StepShape(team, user, info0, tasks0, st, o, t);
    StepKeepsShape(team, user, info0, tasks0, st, o, t);
    TargetFacts(info0, tasks0, st, o);
    var n := |st.acts|;
    assert r.acts == st.acts + [r.acts[n]];
    assert r.acts[n].toMember == Receiver(st);
    assert WellFormed(team, user, info0, r.acts[n]);
    if n > 0 && st.acts[n - 1].toMember.None? {
      assert forall k :: 0 <= k < |st.info| ==> st.info[k].available <= 0;
    }
    AppendLog(team, user, info0, st.acts, r.acts[n]);
    if Receiver(st).None? {
      forall k | 0 <= k < |info0|
        ensures r.info[k].available == 0
      {
        assert st.info[k].available <= 0;
        StepAt(team, user, info0, tasks0, st, o, t, k);
      }
    }
  }

  /** The activity at position `b` after a step names the original and the current assignee of its task `u`. */
  lemma {:induction false} StepTraceAt(team: TeamId, user: UserId, info0: seq<MemberInfo>, tasks0: seq<Task>, st: RunState, o: nat, t: nat,
                    b: nat, u: nat)
    requires StepReady(info0, tasks0, st, o, t) && Trace(info0, tasks0, st)
    requires forall a :: 0 <= a < |st.acts| ==> st.acts[a].task != tasks0[t].id
    requires b <= |st.acts| && u < |tasks0|
    requires tasks0[u].id == Step(team, user, st, info0[o].id, t).acts[b].task
    ensures var r := Step(team, user, st, info0[o].id, t);
      && tasks0[u].assignedMember == r.acts[b].fromMember
      && r.tasks[u].assignedMember == r.acts[b].toMember
      && Movable(tasks0[u])
  {
    var r := Step(team, user, st, info0[o].id, t);
    StepShape(team, user, info0, tasks0, st, o, t);
    if b == |st.acts| {
      assert tasks0[u].id == tasks0[t].id;
      SameTaskId(tasks0, u, t);
    } else {
      assert r.acts[b] == st.acts[b];
      assert u != t;
      assert r.tasks[u] == st.tasks[u];
    }
  }

  /** The activity of a step names its task's original assignee and its new one. */
  lemma {:induction false} StepTraceFields(team: TeamId, user: UserId, info0: seq<MemberInfo>, tasks0: seq<Task>, st: RunState, o: nat, t: nat)
    requires StepReady(info0, tasks0, st, o, t) && Trace(info0, tasks0, st)
    requires forall a :: 0 <= a < |st.acts| ==> st.acts[a].task != tasks0[t].id
    ensures var r := Step(team, user, st, info0[o].id, t);
      forall b, u :: 0 <= b < |r.acts| && 0 <= u < |tasks0| && tasks0[u].id == r.acts[b].task ==>
        && tasks0[u].assignedMember == r.acts[b].fromMember
        && r.tasks[u].assignedMember == r.acts[b].toMember
        && Movable(tasks0[u])
  {
    var r := Step(team, user, st, info0[o].id, t);
    assert |r.acts| == |st.acts| + 1;
    forall b, u | 0 <= b < |r.acts| && 0 <= u < |tasks0| && tasks0[u].id == r.acts[b].task
      ensures tasks0[u].assignedMember == r.acts[b].fromMember
      ensures r.tasks[u].assignedMember == r.acts[b].toMember
      ensures Movable(tasks0[u])
    {
      StepTraceAt(team, user, info0, tasks0, st, o, t, b, u);
    }
  }

  /** A step logs its task with the old and the new assignee, and no task is logged twice. */
  lemma {:induction false} StepKeepsTrace(team: TeamId, user: UserId, info0: seq<MemberInfo>, tasks0: seq<Task>, st: RunState, o: nat, t: nat)
    requires StepReady(info0, tasks0, st, o, t) && Log(team, user, info0, tasks0, st) && Trace(info0, tasks0, st)
    ensures var r := Step(team, user, st, info0[o].id, t);
      && Shape(info0, tasks0, r) && Trace(info0, tasks0, r)
      && TaskIds(r.acts) == TaskIds(st.acts) + [tasks0[t].id]
  {
    var r := Step(team, user, st, info0[o].id, t);
    StepShape(team, user, info0, tasks0, st, o, t);
    StepKeepsShape(team, user, info0, tasks0, st, o, t);
    StepTaskUnlogged(team, user, info0, tasks0, st, o, t);
    StepTraceFields(team, user, info0, tasks0, st, o, t);
    var n := |st.acts|;
    var a := r.acts[n];
    assert r.acts == st.acts + [a];
    AppendCounts(st.acts, a, 0);
    AppendNewTask(st.acts, a);
    forall u | 0 <= u < |tasks0| && r.tasks[u].assignedMember != tasks0[u].assignedMember
      ensures tasks0[u].id in TaskIds(r.acts)
    {
      if u != t {
        assert r.tasks[u] == st.tasks[u];
        assert tasks0[u].id in TaskIds(st.acts);
      }
    }
  }

  /** A step keeps the whole invariant. */
  lemma {:induction false} StepKeepsCore(team: TeamId, user: UserId, info0: seq<MemberInfo>, tasks0: seq<Task>, st: RunState, o: nat, t: nat)
    requires StepReady(info0, tasks0, st, o, t) && Core(team, user, info0, tasks0, st)
    ensures var r := Step(team, user, st, info0[o].id, t);
      && Core(team, user, info0, tasks0, r)
      && TaskIds(r.acts) == TaskIds(st.acts) + [tasks0[t].id]
  {
    StepKeepsAccounts(team, user, info0, tasks0, st, o, t);
    StepKeepsMoves(team, user, info0, tasks0, st, o, t);
    StepKeepsLog(team, user, info0, tasks0, st, o, t);
    StepKeepsTrace(team, user, info0, tasks0, st, o, t);
  }

  /** A step on `o` leaves another pending member untouched. */
  lemma {:induction false} StepKeepsPending(team: TeamId, user: UserId, info0: seq<MemberInfo>, tasks0: seq<Task>, st: RunState, o: nat, t: nat, k: nat)
    requires StepReady(info0, tasks0, st, o, t) && Pending(info0, tasks0, st, k) && k != o
    ensures var r := Step(team, user, st, info0[o].id, t);
      Shape(info0, tasks0, r) && Pending(info0, tasks0, r, k)
  {
    var r := Step(team, user, st, info0[o].id, t);
    StepShape(team, user, info0, tasks0, st, o, t);
    StepKeepsShape(team, user, info0, tasks0, st, o, t);
    StepAt(team, user, info0, tasks0, st, o, t, k);
    assert info0[k].id != info0[o].id;
    forall u | 0 <= u < |tasks0| && tasks0[u].assignedMember == Some(info0[k].id)
      ensures r.tasks[u].assignedMember == Some(info0[k].id)
    {
      assert u != t;
      assert r.tasks[u] == st.tasks[u];
    }
  }

  /** A step on `o` leaves a member whose drain is over as it was. */
  lemma {:induction false} StepKeepsDone(team: TeamId, user: UserId, info0: seq<MemberInfo>, tasks0: seq<Task>, st: RunState, o: nat, t: nat, k: nat)
    requires StepReady(info0, tasks0, st, o, t) && Accounts(info0, tasks0, st) && Done(info0, tasks0, st, k) && k != o
    ensures var r := Step(team, user, st, info0[o].id, t);
      Shape(info0, tasks0, r) && Done(info0, tasks0, r, k)
  {
    var r := Step(team, user, st, info0[o].id, t);
    StepShape(team, user, info0, tasks0, st, o, t);
    StepKeepsShape(team, user, info0, tasks0, st, o, t);
    StepAt(team, user, info0, tasks0, st, o, t, k);
    TargetFacts(info0, tasks0, st, o);
    var tgt := FindTarget(st.info);
    assert tgt != Some(k);
    assert Receiver(st) != Some(info0[k].id) by {
      if tgt.Some? {
        assert st.info[tgt.value].id == info0[tgt.value].id;
      }
    }
    forall u | 0 <= u < |tasks0| && r.tasks[u].assignedMember == Some(info0[k].id)
      ensures r.tasks[u] == st.tasks[u]
    {
      assert u != t;
    }
  }

  /** Taking the first candidate away from member `id` leaves the rest of the candidates as its pool. */
  lemma {:induction false} PoolAfterTake(tasks0: seq<Task>, before: seq<Task>, after: seq<Task>, id: MemberId, c: seq<nat>)
    requires Pool(tasks0, before, id, c) && |c| > 0 && |after| == |before|
    requires after == before[c[0] := after[c[0]]] && after[c[0]].assignedMember != Some(id)
    ensures Pool(tasks0, after, id, c[1..])
  {
    var c' := c[1..];
    forall i | 0 <= i < |c'|
      ensures && c'[i] < |tasks0| && tasks0[c'[i]].assignedMember == Some(id) && Movable(tasks0[c'[i]])
              && after[c'[i]] == tasks0[c'[i]]
    {
      assert c'[i] == c[i + 1] != c[0];
    }
    assert forall i, j :: 0 <= i < j < |c'| ==> c'[i] == c[i + 1] && c'[j] == c[j + 1];
    forall u | Mine(tasks0, id, u)
      ensures u in c' || after[u].assignedMember != Some(id)
    {
      if u != c[0] && u in c {
        var i :| 0 <= i < |c| && c[i] == u;
        assert c'[i - 1] == u;
      }
    }
  }

  /** A step on the first candidate of `o` moves the drain on by one candidate and one unit of overflow. */
  lemma {:induction false} StepKeepsDraining(team: TeamId, user: UserId, info0: seq<MemberInfo>, tasks0: seq<Task>, st: RunState,
                          o: nat, c: seq<nat>, f: int)
    requires |c| > 0 && f > 0 && Takes(info0, tasks0, st, o, c[0]) && Receiver(st) != Some(info0[o].id)
    requires Draining(info0, tasks0, st, o, c, f)
    ensures var r := Step(team, user, st, info0[o].id, c[0]);
      Shape(info0, tasks0, r) && Draining(info0, tasks0, r, o, c[1..], f - 1)
  {
    var t := c[0];
    var id := info0[o].id;
    var r := Step(team, user, st, id, t);
    StepShape(team, user, info0, tasks0, st, o, t);
    StepKeepsShape(team, user, info0, tasks0, st, o, t);
    StepAt(team, user, info0, tasks0, st, o, t, o);
    assert r.info[o].assignedCount == info0[o].assignedCount - CountFrom(r.acts, id);
    assert f - 1 == info0[o].assignedCount - info0[o].capacity - CountFrom(r.acts, id);
    assert CountFrom(r.acts, id) + Min(f - 1, |c[1..]|) == Quota(info0, tasks0, o);
    PoolAfterTake(tasks0, st.tasks, r.tasks, id, c);
  }

  // ---------------------------------------------------------------------------------------
  // One member's drain, and the whole run

  /** The task ids a drain of candidates `c` with overflow `f` logs: those of the first `f` candidates. */
  function Planned(tasks0: seq<Task>, c: seq<nat>, f: int): (r: seq<TaskId>)
    requires InRange(tasks0, c)
    ensures |r| == (if f <= 0 then 0 else Min(f, |c|))
    ensures forall i :: 0 <= i < |r| ==> r[i] == tasks0[c[i]].id
    decreases |c|
  {
    if f > 0 && |c| > 0 then [tasks0[c[0]].id] + Planned(tasks0, c[1..], f - 1) else []
  }

  /** The task ids the drains of the over-capacity members `over` log, member after member. */
  function PlanAll(info0: seq<MemberInfo>, tasks0: seq<Task>, over: seq<nat>): seq<TaskId>
    requires forall i :: 0 <= i < |over| ==> over[i] < |info0|
    decreases |over|
  {
    if |over| == 0 then []
    else
      var k := over[0];
      Planned(tasks0, Cands(tasks0, info0[k].id), info0[k].assignedCount - info0[k].capacity)
      + PlanAll(info0, tasks0, over[1..])
  }

  /** A pending member starts its drain with all its candidates and its whole overflow. */
  lemma {:induction false} StartDraining(info0: seq<MemberInfo>, tasks0: seq<Task>, st: RunState, o: nat)
    requires Origin(info0, tasks0) && Shape(info0, tasks0, st) && Pending(info0, tasks0, st, o)
    ensures Draining(info0, tasks0, st, o, Cands(tasks0, info0[o].id), info0[o].assignedCount - info0[o].capacity)
  {
    var id := info0[o].id;
    var l := AssignedIndices(tasks0, id);
    AssignedIndicesIncreasing(tasks0, id);
    CandidatesOrder(tasks0, l);
    var c := Cands(tasks0, id);
    forall i | 0 <= i < |c|
      ensures && c[i] < |tasks0| && tasks0[c[i]].assignedMember == Some(id) && Movable(tasks0[c[i]])
              && st.tasks[c[i]] == tasks0[c[i]]
    {
      assert c[i] in c;
      assert c[i] in l;
    }
    forall u | Mine(tasks0, id, u)
      ensures u in c
    {
      assert u in l;
    }
  }

  /** When a drain stops, the member gave up its quota and is within capacity or holds only High tasks. */
  lemma {:induction false} DrainEnds(team: TeamId, user: UserId, info0: seq<MemberInfo>, tasks0: seq<Task>, st: RunState, o: nat, c: seq<nat>, f: int)
    requires Origin(info0, tasks0) && Core(team, user, info0, tasks0, st)
    requires o < |info0| && Draining(info0, tasks0, st, o, c, f) && !(f > 0 && |c| > 0)
    ensures Done(info0, tasks0, st, o)
  {
    var id := info0[o].id;
    OverIsNoTarget(info0, tasks0, o);
    assert CountTo(st.acts, id) == 0;
    if f != 0 {
      forall u | 0 <= u < |tasks0| && st.tasks[u].assignedMember == Some(id)
        ensures tasks0[u].priority == High
      {
        assert st.tasks[u].assignedMember == tasks0[u].assignedMember;
        assert u !in c;
        assert !Mine(tasks0, id, u);
      }
    }
  }

  /** Task ids never change in a run. */
  ghost predicate SameIds(tasks0: seq<Task>, tasks: seq<Task>) {
    |tasks| == |tasks0| && forall t :: 0 <= t < |tasks0| ==> tasks[t].id == tasks0[t].id
  }

  /** A step logs the id of its task and keeps the task ids. */
  lemma {:induction false} StepLogs(team: TeamId, user: UserId, tasks0: seq<Task>, st: RunState, fromId: MemberId, t: nat)
    requires SameIds(tasks0, st.tasks) && t < |tasks0|
    ensures var r := Step(team, user, st, fromId, t);
      SameIds(tasks0, r.tasks) && TaskIds(r.acts) == TaskIds(st.acts) + [tasks0[t].id]
  {
    var r := Step(team, user, st, fromId, t);
    assert r.acts == st.acts + [r.acts[|st.acts|]];
    AppendCounts(st.acts, r.acts[|st.acts|], fromId);
  }

  /** A drain logs the ids of the first `f` candidates, in candidate order. */
  lemma {:induction false} DrainLogs(team: TeamId, user: UserId, tasks0: seq<Task>, st: RunState, fromId: MemberId,
                                     c: seq<nat>, f: int)
    requires SameIds(tasks0, st.tasks) && InRange(tasks0, c)
    ensures TaskIds(Drain(team, user, st, fromId, c, f).acts) == TaskIds(st.acts) + Planned(tasks0, c, f)
    decreases |c|
  {
    if f > 0 && |c| > 0 {
      StepLogs(team, user, tasks0, st, fromId, c[0]);
      var r1 := Step(team, user, st, fromId, c[0]);
      DrainLogs(team, user, tasks0, r1, fromId, c[1..], f - 1);
      var r := Drain(team, user, r1, fromId, c[1..], f - 1);
      assert Drain(team, user, st, fromId, c, f) == r;
      var a, x, p := TaskIds(st.acts), tasks0[c[0]].id, Planned(tasks0, c[1..], f - 1);
      assert Planned(tasks0, c, f) == [x] + p;
      Associative(a, [x], p);
      assert TaskIds(r.acts) == (a + [x]) + p;
    }
  }

  /** What a drain needs to go on: the invariant, the drained member `o`, the pending and the done members. */
  ghost predicate DrainReady(team: TeamId, user: UserId, info0: seq<MemberInfo>, tasks0: seq<Task>, st: RunState,
                             o: nat, c: seq<nat>, f: int, pend: set<nat>, done: set<nat>) {
    && Between(team, user, info0, tasks0, st, pend, done)
    && o < |info0| && Draining(info0, tasks0, st, o, c, f)
    && o !in pend && o !in done
  }

  /** The invariant, with the members in `pend` still pending and those in `done` done. */
  ghost predicate Between(team: TeamId, user: UserId, info0: seq<MemberInfo>, tasks0: seq<Task>, st: RunState,
                          pend: set<nat>, done: set<nat>) {
    && Origin(info0, tasks0) && Core(team, user, info0, tasks0, st)
    && (forall k {:trigger Pending(info0, tasks0, st, k)} :: k in pend ==> Pending(info0, tasks0, st, k))
    && (forall k {:trigger Done(info0, tasks0, st, k)} :: k in done ==> Done(info0, tasks0, st, k))
  }

  /** One turn of the drain loop keeps what the drain needs, one candidate and one unit of overflow on. */
  lemma {:induction false} DrainStep(team: TeamId, user: UserId, info0: seq<MemberInfo>, tasks0: seq<Task>, st: RunState,
                  o: nat, c: seq<nat>, f: int, pend: set<nat>, done: set<nat>)
    requires DrainReady(team, user, info0, tasks0, st, o, c, f, pend, done) == true && f > 0 && |c| > 0
    ensures c[0] < |st.tasks|
    ensures var r := Step(team, user, st, info0[o].id, c[0]);
      DrainReady(team, user, info0, tasks0, r, o, c[1..], f - 1, pend, done) == true
  {
    var t := c[0];
    assert StepReady(info0, tasks0, st, o, t);
    var r := Step(team, user, st, info0[o].id, t);
    StepKeepsCore(team, user, info0, tasks0, st, o, t);
    forall k | k in pend
      ensures Pending(info0, tasks0, r, k)
    {
      StepKeepsPending(team, user, info0, tasks0, st, o, t, k);
    }
    forall k | k in done
      ensures Done(info0, tasks0, r, k)
    {
      StepKeepsDone(team, user, info0, tasks0, st, o, t, k);
    }
    TargetFacts(info0, tasks0, st, o);
    StepKeepsDraining(team, user, info0, tasks0, st, o, c, f);
  }

  /** A drain keeps the invariant, leaves the other members as they were and ends with `o` done; `r` is its result. */
  lemma {:induction false} DrainKeeps(team: TeamId, user: UserId, info0: seq<MemberInfo>, tasks0: seq<Task>, st: RunState,
                                      o: nat, c: seq<nat>, f: int, pend: set<nat>, done: set<nat>, r: RunState)
    requires DrainReady(team, user, info0, tasks0, st, o, c, f, pend, done) == true
    requires forall i :: 0 <= i < |c| ==> c[i] < |st.tasks|
    requires r == Drain(team, user, st, info0[o].id, c, f)
    ensures Between(team, user, info0, tasks0, r, pend, done + {o}) == true
    decreases |c|
  {
    if f > 0 && |c| > 0 {
      DrainStep(team, user, info0, tasks0, st, o, c, f, pend, done);
      var r1 := Step(team, user, st, info0[o].id, c[0]);
      DrainKeeps(team, user, info0, tasks0, r1, o, c[1..], f - 1, pend, done, r);
    } else {
      DrainEnds(team, user, info0, tasks0, st, o, c, f);
    }
  }

  /** The members listed in `over`. */
  function Elems(over: seq<nat>): set<nat> {
    set i | 0 <= i < |over| :: over[i]
  }

  /** The first member of `over` is ready to be drained, with the others pending. */
  lemma {:induction false} StartHead(team: TeamId, user: UserId, info0: seq<MemberInfo>, tasks0: seq<Task>, st: RunState,
                  over: seq<nat>, done: set<nat>)
    requires Between(team, user, info0, tasks0, st, Elems(over), done) == true
    requires |over| > 0 && over[0] < |info0|
    requires over[0] !in Elems(over[1..]) && over[0] !in done
    ensures DrainReady(team, user, info0, tasks0, st, over[0], Cands(tasks0, info0[over[0]].id),
                       info0[over[0]].assignedCount - info0[over[0]].capacity, Elems(over[1..]), done) == true
  {
    var o := over[0];
    assert o in Elems(over);
    StartDraining(info0, tasks0, st, o);
    assert Elems(over[1..]) <= Elems(over);
  }

  /** `for (const om of overMembers)` unrolled once: the first turn `d`, then the loop over the rest. */
  lemma {:induction false} ProcessOverUnroll(team: TeamId, user: UserId, memberTasks: map<MemberId, seq<nat>>,
                          tasks0: seq<Task>, st: RunState, over: seq<nat>, d: RunState)
    requires PositionsIn(memberTasks, |tasks0|) && |st.tasks| == |tasks0|
    requires forall i :: 0 <= i < |over| ==> over[i] < |st.info|
    requires |over| > 0 && d == DrainOver(team, user, memberTasks, tasks0, st, over[0])
    ensures ProcessOver(team, user, memberTasks, tasks0, st, over) == ProcessOver(team, user, memberTasks, tasks0, d, over[1..])
  {
  }

  /** The candidates the loop computes for a member with the snapshot's id are its snapshot candidates. */
  lemma {:induction false} CandidatesOfSnapshot(memberTasks: map<MemberId, seq<nat>>, info0: seq<MemberInfo>, tasks0: seq<Task>, om: MemberInfo, o: nat)
    requires TaskMap(memberTasks, info0, tasks0) && o < |info0| && om.id == info0[o].id
    ensures CandidatesOf(memberTasks, tasks0, om) == Cands(tasks0, info0[o].id)
  {
    assert info0[o].id in memberTasks;
  }

  /** A turn of the loop on a member whose record still has its snapshot values drains its snapshot candidates. */
  lemma {:induction false} DrainOverSnapshot(team: TeamId, user: UserId, memberTasks: map<MemberId, seq<nat>>,
                          info0: seq<MemberInfo>, tasks0: seq<Task>, st: RunState, o: nat)
    requires TaskMap(memberTasks, info0, tasks0) && |st.tasks| == |tasks0| && |st.info| == |info0| && o < |info0|
    requires st.info[o].id == info0[o].id && st.info[o].capacity == info0[o].capacity
    requires st.info[o].assignedCount == info0[o].assignedCount
    ensures DrainOver(team, user, memberTasks, tasks0, st, o)
            == Drain(team, user, st, info0[o].id, Cands(tasks0, info0[o].id), info0[o].assignedCount - info0[o].capacity)
  {
    var om := st.info[o];
    CandidatesOfSnapshot(memberTasks, info0, tasks0, om, o);
    assert DrainOver(team, user, memberTasks, tasks0, st, o)
           == Drain(team, user, st, om.id, CandidatesOf(memberTasks, tasks0, om), om.assignedCount - om.capacity);
    DrainCongruent(team, user, st, om.id, info0[o].id, CandidatesOf(memberTasks, tasks0, om), Cands(tasks0, info0[o].id),
                   om.assignedCount - om.capacity, info0[o].assignedCount - info0[o].capacity);
  }

  /** Proof plumbing: drains with equal arguments are equal. */
  lemma {:induction false} DrainCongruent(team: TeamId, user: UserId, st: RunState, id: MemberId, id': MemberId,
                       c: seq<nat>, c': seq<nat>, f: int, f': int)
    requires forall i :: 0 <= i < |c| ==> c[i] < |st.tasks|
    requires id == id' && c == c' && f == f'
    ensures Drain(team, user, st, id, c, f) == Drain(team, user, st, id', c', f')
  {
  }

  /** The loop over `over` after its first drain `d` goes on from `d` with the rest of `over`. */
  lemma {:induction false} ProcessOverHead(team: TeamId, user: UserId, memberTasks: map<MemberId, seq<nat>>,
                        info0: seq<MemberInfo>, tasks0: seq<Task>, st: RunState, over: seq<nat>, d: RunState)
    requires TaskMap(memberTasks, info0, tasks0) && |st.tasks| == |tasks0| && |st.info| == |info0|
    requires forall i :: 0 <= i < |over| ==> over[i] < |info0|
    requires |over| > 0 && st.info[over[0]].id == info0[over[0]].id && st.info[over[0]].capacity == info0[over[0]].capacity
    requires st.info[over[0]].assignedCount == info0[over[0]].assignedCount
    requires d == Drain(team, user, st, info0[over[0]].id, Cands(tasks0, info0[over[0]].id),
                        info0[over[0]].assignedCount - info0[over[0]].capacity)
    ensures ProcessOver(team, user, memberTasks, tasks0, st, over) == ProcessOver(team, user, memberTasks, tasks0, d, over[1..])
  {
    assert d == DrainOver(team, user, memberTasks, tasks0, st, over[0]) by {
      DrainOverSnapshot(team, user, memberTasks, info0, tasks0, st, over[0]);
    }
    ProcessOverUnroll(team, user, memberTasks, tasks0, st, over, d);
  }

  /** Proof plumbing: the members of `over` are its first and those of the rest. */
  lemma {:induction false} ElemsCons(over: seq<nat>)
    requires |over| > 0
    ensures Elems(over) == {over[0]} + Elems(over[1..])
  {
    forall k | k in Elems(over) ensures k in {over[0]} + Elems(over[1..]) {
      var i :| 0 <= i < |over| && over[i] == k;
      if i > 0 { assert over[1..][i - 1] == k; }
    }
  }

  /** Proof plumbing: the same invariant under other names for the same sets. */
  lemma {:induction false} BetweenSets(team: TeamId, user: UserId, info0: seq<MemberInfo>, tasks0: seq<Task>, st: RunState,
                    pend: set<nat>, done: set<nat>, pend': set<nat>, done': set<nat>)
    requires Between(team, user, info0, tasks0, st, pend, done) == true && pend == pend' && done == done'
    ensures Between(team, user, info0, tasks0, st, pend', done') == true
  {
  }

  /** The member at position `i` of `over`; distinctness is stated on it, so that a proof uses it only for the positions it names. */
  function MemberAt(over: seq<nat>, i: nat): nat requires i < |over| { over[i] }

  /** `over` lists members of `info0`, each once, none of them in `done`. */
  ghost predicate OverList(info0: seq<MemberInfo>, over: seq<nat>, done: set<nat>) {
    && (forall i :: 0 <= i < |over| ==> over[i] < |info0|)
    && (forall i, j {:trigger MemberAt(over, i), MemberAt(over, j)} ::
          0 <= i < j < |over| ==> MemberAt(over, i) != MemberAt(over, j))
    && done !! Elems(over)
  }

  /** The first member of `over` is a member of `info0`, in neither the rest of `over` nor `done`. */
  lemma {:induction false} OverListHead(info0: seq<MemberInfo>, over: seq<nat>, done: set<nat>)
    requires OverList(info0, over, done) == true && |over| > 0
    ensures over[0] < |info0| && over[0] in Elems(over)
    ensures over[0] !in Elems(over[1..]) && over[0] !in done
  {
    assert over[0] in Elems(over);
    forall i | 0 <= i < |over| - 1 ensures over[1..][i] != over[0] {
      assert MemberAt(over, 0) != MemberAt(over, i + 1);
    }
  }

  /** The first member of `over` is ready to be drained. */
  lemma {:induction false} NextReady(team: TeamId, user: UserId, info0: seq<MemberInfo>, tasks0: seq<Task>, st: RunState,
                  over: seq<nat>, done: set<nat>)
    requires Between(team, user, info0, tasks0, st, Elems(over), done) == true
    requires OverList(info0, over, done) == true && |over| > 0
    ensures over[0] < |info0|
    ensures DrainReady(team, user, info0, tasks0, st, over[0], Cands(tasks0, info0[over[0]].id),
                       info0[over[0]].assignedCount - info0[over[0]].capacity, Elems(over[1..]), done) == true
    ensures forall i :: 0 <= i < |Cands(tasks0, info0[over[0]].id)| ==> Cands(tasks0, info0[over[0]].id)[i] < |st.tasks|
  {
    OverListHead(info0, over, done);
    StartHead(team, user, info0, tasks0, st, over, done);
  }

  /** The first drain `d` of the loop over `over` keeps the invariant and leaves its member done. */
  lemma {:induction false} NextKeeps(team: TeamId, user: UserId, info0: seq<MemberInfo>, tasks0: seq<Task>, st: RunState,
                                     over: seq<nat>, done: set<nat>, d: RunState)
    requires Between(team, user, info0, tasks0, st, Elems(over), done) == true
    requires OverList(info0, over, done) == true && |over| > 0 && over[0] < |info0|
    requires d == Drain(team, user, st, info0[over[0]].id, Cands(tasks0, info0[over[0]].id),
                        info0[over[0]].assignedCount - info0[over[0]].capacity)
    ensures Between(team, user, info0, tasks0, d, Elems(over[1..]), done + {over[0]}) == true
  {
    var o := over[0];
    var c, f := Cands(tasks0, info0[o].id), info0[o].assignedCount - info0[o].capacity;
    assert DrainReady(team, user, info0, tasks0, st, o, c, f, Elems(over[1..]), done) == true
        && forall i :: 0 <= i < |c| ==> c[i] < |st.tasks| by {
      NextReady(team, user, info0, tasks0, st, over, done);
    }
    DrainKeeps(team, user, info0, tasks0, st, o, c, f, Elems(over[1..]), done, d);
  }

  /** The record of a pending member still holds its snapshot values. */
  lemma {:induction false} HeadRecord(team: TeamId, user: UserId, info0: seq<MemberInfo>, tasks0: seq<Task>, st: RunState,
                   over: seq<nat>, done: set<nat>)
    requires Between(team, user, info0, tasks0, st, Elems(over), done) == true
    requires |over| > 0 && over[0] < |info0|
    ensures |st.tasks| == |tasks0| && |st.info| == |info0|
    ensures st.info[over[0]].id == info0[over[0]].id && st.info[over[0]].capacity == info0[over[0]].capacity
    ensures st.info[over[0]].assignedCount == info0[over[0]].assignedCount
  {
    assert over[0] in Elems(over);
    assert Pending(info0, tasks0, st, over[0]);
  }

  /** The rest of `over` is a list of the same kind, with the first member added to `done`. */
  lemma {:induction false} OverListTail(info0: seq<MemberInfo>, over: seq<nat>, done: set<nat>)
    requires OverList(info0, over, done) == true && |over| > 0
    ensures OverList(info0, over[1..], done + {over[0]}) == true
    ensures done + Elems(over) == done + {over[0]} + Elems(over[1..])
  {
    ElemsCons(over);
    OverListHead(info0, over, done);
    var rest := over[1..];
    forall i, j | 0 <= i < j < |rest| ensures MemberAt(rest, i) != MemberAt(rest, j) {
      assert MemberAt(over, i + 1) != MemberAt(over, j + 1);
    }
  }

  /** The loop over `over` goes on, after its first drain `d`, with the rest of `over`. */
  lemma {:induction false} NextUnroll(team: TeamId, user: UserId, memberTasks: map<MemberId, seq<nat>>,
                                      info0: seq<MemberInfo>, tasks0: seq<Task>, st: RunState, over: seq<nat>, done: set<nat>, d: RunState)
    requires Between(team, user, info0, tasks0, st, Elems(over), done) == true && TaskMap(memberTasks, info0, tasks0)
    requires OverList(info0, over, done) == true && |over| > 0
    requires d == Drain(team, user, st, info0[over[0]].id, Cands(tasks0, info0[over[0]].id),
                        info0[over[0]].assignedCount - info0[over[0]].capacity)
    ensures forall i :: 0 <= i < |over| ==> over[i] < |st.info|
    ensures ProcessOver(team, user, memberTasks, tasks0, st, over) == ProcessOver(team, user, memberTasks, tasks0, d, over[1..])
  {
    HeadRecord(team, user, info0, tasks0, st, over, done);
    ProcessOverHead(team, user, memberTasks, info0, tasks0, st, over, d);
  }

  /** The first drain of the loop over `over` logs the tasks planned for its member. */
  lemma {:induction false} NextLogs(team: TeamId, user: UserId, info0: seq<MemberInfo>, tasks0: seq<Task>, st: RunState,
                                    over: seq<nat>, done: set<nat>)
    requires Between(team, user, info0, tasks0, st, Elems(over), done) == true
    requires |over| > 0 && over[0] < |info0|
    ensures TaskIds(Drain(team, user, st, info0[over[0]].id, Cands(tasks0, info0[over[0]].id),
                          info0[over[0]].assignedCount - info0[over[0]].capacity).acts)
            == TaskIds(st.acts) + Planned(tasks0, Cands(tasks0, info0[over[0]].id),
                                          info0[over[0]].assignedCount - info0[over[0]].capacity)
  {
    BetweenSameIds(team, user, info0, tasks0, st, Elems(over), done);
    DrainLogs(team, user, tasks0, st, info0[over[0]].id, Cands(tasks0, info0[over[0]].id),
              info0[over[0]].assignedCount - info0[over[0]].capacity);
  }

  /** The plan of `over` is the plan of its first member followed by the plan of the rest. */
  lemma {:induction false} PlanAllCons(info0: seq<MemberInfo>, tasks0: seq<Task>, over: seq<nat>)
    requires forall i :: 0 <= i < |over| ==> over[i] < |info0|
    requires |over| > 0
    ensures PlanAll(info0, tasks0, over)
            == Planned(tasks0, Cands(tasks0, info0[over[0]].id), info0[over[0]].assignedCount - info0[over[0]].capacity)
               + PlanAll(info0, tasks0, over[1..])
  {
  }

  /** The drains of `over`, one after the other, keep the invariant and leave each of them done; `r` is their result. */
  lemma {:induction false} ProcessOverKeeps(team: TeamId, user: UserId, memberTasks: map<MemberId, seq<nat>>,
                                            info0: seq<MemberInfo>, tasks0: seq<Task>, st: RunState,
                                            over: seq<nat>, done: set<nat>, r: RunState)
    requires Between(team, user, info0, tasks0, st, Elems(over), done) == true && TaskMap(memberTasks, info0, tasks0)
    requires OverList(info0, over, done) == true
    requires r == ProcessOver(team, user, memberTasks, tasks0, st, over)
    ensures Between(team, user, info0, tasks0, r, {}, done + Elems(over)) == true
    ensures TaskIds(r.acts) == TaskIds(st.acts) + PlanAll(info0, tasks0, over)
    decreases |over|
  {
    if |over| == 0 {
      BetweenSets(team, user, info0, tasks0, r, {}, done, {}, done + Elems(over));
    } else {
      var d := Drain(team, user, st, info0[over[0]].id, Cands(tasks0, info0[over[0]].id),
                     info0[over[0]].assignedCount - info0[over[0]].capacity);
      NextUnroll(team, user, memberTasks, info0, tasks0, st, over, done, d);
      NextKeeps(team, user, info0, tasks0, st, over, done, d);
      NextLogs(team, user, info0, tasks0, st, over, done);
      OverListTail(info0, over, done);
      ProcessOverKeeps(team, user, memberTasks, info0, tasks0, d, over[1..], done + {over[0]}, r);
      BetweenSets(team, user, info0, tasks0, r, {}, done + {over[0]} + Elems(over[1..]), {}, done + Elems(over));
      PlanAllCons(info0, tasks0, over);
      Associative2(TaskIds(r.acts), TaskIds(d.acts), TaskIds(st.acts),
                   Planned(tasks0, Cands(tasks0, info0[over[0]].id), info0[over[0]].assignedCount - info0[over[0]].capacity),
                   PlanAll(info0, tasks0, over[1..]), PlanAll(info0, tasks0, over));
    }
  }

  /** Task ids stay as fetched. */
  lemma {:induction false} BetweenSameIds(team: TeamId, user: UserId, info0: seq<MemberInfo>, tasks0: seq<Task>, st: RunState,
                       pend: set<nat>, done: set<nat>)
    requires Between(team, user, info0, tasks0, st, pend, done) == true
    ensures SameIds(tasks0, st.tasks)
  {
  }
}
