/**
 * Team-wide consequences of a run of `reassignTasks` (src/controllers/teamController.ts:64-171):
 * how many tasks each over-capacity member gives up, counted directly over its Low and Medium
 * tasks, and the conservation of tasks across the whole team.
 */
module TeamTotals {
  import opened Basics
  import opened Model
  import opened CapacitySnapshot
  import opened CandidateSelector
  import opened Engine
  import opened EngineProofs
  import opened RunTheorems

  // ---------------------------------------------------------------------------------------
  // Moves per member, over the member's Low and Medium tasks

  /** The number of Low and Medium tasks assigned to member `id`. */
  function MovableLoad(tasks: seq<Task>, id: MemberId): (r: nat)
    ensures r <= Load(tasks, id)
    decreases |tasks|
  {
    if |tasks| == 0 then 0
    else
      var n := |tasks| - 1;
      MovableLoad(tasks[..n], id) + (if tasks[n].assignedMember == Some(id) && Movable(tasks[n]) then 1 else 0)
  }

  /** The `filter` of lines 110-111 applied to the member's `memberTasks` list keeps `MovableLoad` tasks. */
  lemma {:induction false} FilterMovableCount(tasks: seq<Task>, id: MemberId, m: nat)
    requires m <= |tasks|
    ensures InRange(tasks, AssignedIndices(tasks[..m], id))
    ensures |FilterMovable(tasks, AssignedIndices(tasks[..m], id))| == MovableLoad(tasks[..m], id)
    decreases m
  {
    var p := tasks[..m];
    var s := AssignedIndices(p, id);
    assert InRange(tasks, s);
    if m > 0 {
      var n := m - 1;
      assert p[..n] == tasks[..n];
      FilterMovableCount(tasks, id, n);
      var s' := AssignedIndices(tasks[..n], id);
      if p[n].assignedMember == Some(id) {
        assert s == s' + [n];
        assert s[..|s| - 1] == s';
      } else {
        assert s == s';
      }
    }
  }

  /** The candidates of member `id` are as many as its Low and Medium tasks. */
  lemma {:induction false} CandidateCount(tasks: seq<Task>, id: MemberId)
    ensures |FilterMovable(tasks, AssignedIndices(tasks, id))| == MovableLoad(tasks, id)
    ensures |Cands(tasks, id)| == MovableLoad(tasks, id)
  {
    FilterMovableCount(tasks, id, |tasks|);
    assert tasks[..|tasks|] == tasks;
    var f := FilterMovable(tasks, AssignedIndices(tasks, id));
    SortStablePerm(tasks, f);
    assert |multiset(SortStable(tasks, f))| == |multiset(f)|;
  }

  /**
   * Member `members[k]`, when over capacity, gives up min(assigned - capacity, its number of Low and
   * Medium tasks) tasks (lines 110-111, 118-119, 136, 160); a member within capacity gives up none.
   */
  lemma {:induction false} MovesPerMemberHeld(team: TeamId, user: UserId, members: seq<Member>, tasks: seq<Task>, k: nat)
    requires Fresh(members, tasks) && k < |members|
    ensures var res, id := Rebalance(team, user, members, tasks), members[k].id;
      var load, cap := Load(tasks, id), members[k].capacity;
      CountFrom(res.details, id)
      == (if load > cap then Min(load - cap, |FilterMovable(tasks, AssignedIndices(tasks, id))|) else 0)
    ensures var res, id := Rebalance(team, user, members, tasks), members[k].id;
      var load, cap := Load(tasks, id), members[k].capacity;
      CountFrom(res.details, id) == (if load > cap then Min(load - cap, MovableLoad(tasks, id)) else 0)
  {
    MovesPerMember(team, user, members, tasks, k);
    CandidateCount(tasks, members[k].id);
  }

  // ---------------------------------------------------------------------------------------
  // Conservation over the whole team

  /** The number of tasks assigned to the members of `ms`, summed member by member. */
  function TotalLoad(tasks: seq<Task>, ms: seq<Member>): nat
    decreases |ms|
  {
    if |ms| == 0 then 0 else TotalLoad(tasks, ms[..|ms| - 1]) + Load(tasks, ms[|ms| - 1].id)
  }

  /** The number of activities that unassign their task (the `toMember: null` entries of line 132). */
  function Unassigned(acts: seq<Activity>): (r: nat)
    ensures r <= |acts|
  {
    if |acts| == 0 then 0
    else Unassigned(acts[..|acts| - 1]) + (if acts[|acts| - 1].toMember.None? then 1 else 0)
  }

  /** How many members of `ms` carry the id `x`. */
  function Hits(ms: seq<Member>, x: Option<MemberId>): (r: nat)
    ensures x.None? ==> r == 0
    decreases |ms|
  {
    if |ms| == 0 then 0 else Hits(ms[..|ms| - 1], x) + (if x == Some(ms[|ms| - 1].id) then 1 else 0)
  }

  /** Proof plumbing: the from-counts of `acts`, summed over the members of `ms`. */
  function SumFrom(acts: seq<Activity>, ms: seq<Member>): nat
    decreases |ms|
  {
    if |ms| == 0 then 0 else SumFrom(acts, ms[..|ms| - 1]) + CountFrom(acts, ms[|ms| - 1].id)
  }

  /** Proof plumbing: the to-counts of `acts`, summed over the members of `ms`. */
  function SumTo(acts: seq<Activity>, ms: seq<Member>): nat
    decreases |ms|
  {
    if |ms| == 0 then 0 else SumTo(acts, ms[..|ms| - 1]) + CountTo(acts, ms[|ms| - 1].id)
  }

  /** With distinct ids, a member's id is carried by exactly one member. */
  lemma {:induction false} HitsOne(ms: seq<Member>, k: nat)
    requires DistinctMemberIds(ms) && k < |ms|
    ensures Hits(ms, Some(ms[k].id)) == 1
    decreases |ms|
  {
    var n := |ms| - 1;
    var x := ms[k].id;
    assert DistinctMemberIds(ms[..n]) by {
      forall i, j | 0 <= i < n && 0 <= j < n && i != j ensures ms[..n][i].id != ms[..n][j].id {
        assert ms[..n][i] == ms[i] && ms[..n][j] == ms[j];
      }
    }
    if k == n {
      HitsAbsent(ms[..n], x);
    } else {
      assert ms[..n][k] == ms[k];
      HitsOne(ms[..n], k);
      assert ms[n].id != x;
    }
  }

  lemma {:induction false} HitsAbsent(ms: seq<Member>, x: MemberId)
    requires forall i :: 0 <= i < |ms| ==> ms[i].id != x
    ensures Hits(ms, Some(x)) == 0
    decreases |ms|
  {
    if |ms| > 0 {
      var n := |ms| - 1;
      assert forall i :: 0 <= i < n ==> ms[..n][i] == ms[i];
      HitsAbsent(ms[..n], x);
    }
  }

  /** Counts of an empty activity list sum to nothing. */
  lemma {:induction false} SumsEmpty(ms: seq<Member>)
    ensures SumFrom([], ms) == 0 && SumTo([], ms) == 0
    decreases |ms|
  {
    if |ms| > 0 {
      SumsEmpty(ms[..|ms| - 1]);
    }
  }

  /** Appending activity `a` adds, to the member sums, one per member it takes from or gives to. */
  lemma {:induction false} SumsAppend(acts: seq<Activity>, a: Activity, ms: seq<Member>)
    ensures SumFrom(acts + [a], ms) == SumFrom(acts, ms) + Hits(ms, a.fromMember)
    ensures SumTo(acts + [a], ms) == SumTo(acts, ms) + Hits(ms, a.toMember)
    decreases |ms|
  {
    assert (acts + [a])[..|acts|] == acts;
    if |ms| > 0 {
      SumsAppend(acts, a, ms[..|ms| - 1]);
    }
  }

  /**
   * When every activity takes its task from exactly one member of `ms` and gives it to one member
   * of `ms` or to nobody, the from-counts sum to the number of activities and the to-counts to the
   * number that do not unassign.
   */
  lemma {:induction false} SumsOfActivities(acts: seq<Activity>, ms: seq<Member>)
    requires forall a :: 0 <= a < |acts| ==> Hits(ms, acts[a].fromMember) == 1
    requires forall a :: 0 <= a < |acts| ==> Hits(ms, acts[a].toMember) == if acts[a].toMember.None? then 0 else 1
    ensures SumFrom(acts, ms) == |acts|
    ensures SumTo(acts, ms) == |acts| - Unassigned(acts)
    decreases |acts|
  {
    if |acts| == 0 {
      SumsEmpty(ms);
    } else {
      var n := |acts| - 1;
      var front := acts[..n];
      assert acts == front + [acts[n]];
      assert forall a :: 0 <= a < n ==> front[a] == acts[a];
      SumsOfActivities(front, ms);
      SumsAppend(front, acts[n], ms);
    }
  }

  /** Member-by-member load changes add up to the change of the total. */
  lemma {:induction false} TotalsMove(t0: seq<Task>, t1: seq<Task>, acts: seq<Activity>, ms: seq<Member>)
    requires forall k :: 0 <= k < |ms| ==>
      Load(t1, ms[k].id) == Load(t0, ms[k].id) - CountFrom(acts, ms[k].id) + CountTo(acts, ms[k].id)
    ensures TotalLoad(t1, ms) == TotalLoad(t0, ms) - SumFrom(acts, ms) + SumTo(acts, ms)
    decreases |ms|
  {
    if |ms| > 0 {
      var n := |ms| - 1;
      assert forall k :: 0 <= k < n ==> ms[..n][k] == ms[k];
      TotalsMove(t0, t1, acts, ms[..n]);
    }
  }

  /**
   * No task is lost or duplicated: the tasks the team's members hold after a run, plus the tasks the
   * run unassigned, are the tasks they held before it.
   */
  lemma {:induction false} TeamLoadConserved(team: TeamId, user: UserId, members: seq<Member>, tasks: seq<Task>)
    requires Fresh(members, tasks)
    ensures var res := Rebalance(team, user, members, tasks);
      TotalLoad(res.tasks, members) + Unassigned(res.details) == TotalLoad(tasks, members)
  {
    var res := Rebalance(team, user, members, tasks);
    var d := res.details;
    FreshDistinct(members, tasks);
    forall k | 0 <= k < |members|
      ensures Load(res.tasks, members[k].id)
        == Load(tasks, members[k].id) - CountFrom(d, members[k].id) + CountTo(d, members[k].id)
    {
      ReceiveBound(team, user, members, tasks, k);
    }
    TotalsMove(tasks, res.tasks, d, members);
    ActivitiesRecordMoves(team, user, members, tasks);
    forall a | 0 <= a < |d|
      ensures Hits(members, d[a].fromMember) == 1
      ensures Hits(members, d[a].toMember) == if d[a].toMember.None? then 0 else 1
    {
      assert OverMember(members, tasks, d[a].fromMember.value);
      var k :| 0 <= k < |members| && members[k].id == d[a].fromMember.value;
      HitsOne(members, k);
      if d[a].toMember.Some? {
        assert RoomMember(members, tasks, d[a].toMember.value);
        var j :| 0 <= j < |members| && members[j].id == d[a].toMember.value;
        HitsOne(members, j);
      }
    }
    SumsOfActivities(d, members);
  }
}
