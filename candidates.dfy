/**
 * The candidate list of an over-capacity member (src/controllers/teamController.ts:110-116):
 * its Low and Medium tasks, sorted Low before Medium and then by ascending `createdAt`.
 * `Array.prototype.sort` is stable, so tasks with equal keys keep their fetch order; the model
 * sorts with a stable insertion sort.
 */
module CandidateSelector {
  import opened Basics
  import opened Model
  import opened CapacitySnapshot

  /** The `pri` table of the comparator: Low is 0, Medium is 1 (High tasks never reach the sort). */
  function Rank(p: Priority): nat {
    match p
    case Low => 0
    case Medium => 1
    case High => 2
  }

  /** The comparator of lines 112-116 returns a value <= 0 for `a, b`. */
  predicate KeyLe(a: Task, b: Task) {
    Rank(a.priority) < Rank(b.priority) || (Rank(a.priority) == Rank(b.priority) && a.createdAt <= b.createdAt)
  }

  /** Every position in `s` is a position of `tasks`. */
  predicate InRange(tasks: seq<Task>, s: seq<nat>) {
    forall i :: 0 <= i < |s| ==> s[i] < |tasks|
  }

  /**
   * The order in which candidates are taken: by priority, then by creation time, then by position
   * in the fetched list (what a stable sort of a list in fetch order yields).
   */
  predicate Before(tasks: seq<Task>, a: nat, b: nat) {
    && a < |tasks| && b < |tasks|
    && var x, y := tasks[a], tasks[b];
    || Rank(x.priority) < Rank(y.priority)
    || (Rank(x.priority) == Rank(y.priority) && x.createdAt < y.createdAt)
    || (Rank(x.priority) == Rank(y.priority) && x.createdAt == y.createdAt && a < b)
  }

  predicate SortedBefore(tasks: seq<Task>, s: seq<nat>) {
    forall i, j :: 0 <= i < j < |s| ==> Before(tasks, s[i], s[j])
  }

  /** The `filter` of line 111: the Low and Medium tasks, in their order. */
  function FilterMovable(tasks: seq<Task>, s: seq<nat>): (r: seq<nat>)
    requires InRange(tasks, s)
    ensures InRange(tasks, r)
    ensures forall t :: t in r <==> t in s && t < |tasks| && Movable(tasks[t])
    decreases |s|
  {
    if |s| == 0 then []
    else
      var n := |s| - 1;
      var rest := FilterMovable(tasks, s[..n]);
      assert forall t :: t in s <==> t in s[..n] || t == s[n];
      rest + (if Movable(tasks[s[n]]) then [s[n]] else [])
  }

  /** A list without Low and Medium tasks filters to nothing. */
  lemma {:induction false} FilterMovableNone(tasks: seq<Task>, s: seq<nat>)
    requires InRange(tasks, s)
    requires forall i :: 0 <= i < |s| ==> !Movable(tasks[s[i]])
    ensures FilterMovable(tasks, s) == []
    decreases |s|
  {
    if |s| > 0 {
      FilterMovableNone(tasks, s[..|s| - 1]);
    }
  }

  /** The filter keeps the order of its input. */
  lemma {:induction false} FilterMovableIncreasing(tasks: seq<Task>, s: seq<nat>)
    requires InRange(tasks, s) && Increasing(s)
    ensures Increasing(FilterMovable(tasks, s))
    decreases |s|
  {
    if |s| > 0 {
      var n := |s| - 1;
      var rest := FilterMovable(tasks, s[..n]);
      FilterMovableIncreasing(tasks, s[..n]);
      forall i | 0 <= i < |rest| ensures rest[i] < s[n] {
        assert rest[i] in rest;
        var m :| 0 <= m < n && s[m] == rest[i];
      }
    }
  }

  /** Inserts `x` after the last element whose key is not larger than its own. */
  function Insert(tasks: seq<Task>, x: nat, s: seq<nat>): (r: seq<nat>)
    requires x < |tasks| && InRange(tasks, s)
    ensures InRange(tasks, r) && |r| == |s| + 1
    decreases |s|
  {
    if |s| == 0 then [x]
    else
      var n := |s| - 1;
      if KeyLe(tasks[s[n]], tasks[x]) then s + [x]
      else Insert(tasks, x, s[..n]) + [s[n]]
  }

  /** Inserting adds `x` and keeps every other element. */
  lemma {:induction false} InsertPerm(tasks: seq<Task>, x: nat, s: seq<nat>)
    requires x < |tasks| && InRange(tasks, s)
    ensures multiset(Insert(tasks, x, s)) == multiset(s) + multiset{x}
    decreases |s|
  {
    if |s| > 0 {
      var n := |s| - 1;
      assert s == s[..n] + [s[n]];
      if !KeyLe(tasks[s[n]], tasks[x]) {
        InsertPerm(tasks, x, s[..n]);
      }
    }
  }

  /** The stable sort of lines 112-116: each task in turn is inserted after the tasks before it with a key not larger. */
  function SortStable(tasks: seq<Task>, s: seq<nat>): (r: seq<nat>)
    requires InRange(tasks, s)
    ensures InRange(tasks, r) && |r| == |s|
    decreases |s|
  {
    if |s| == 0 then []
    else
      var n := |s| - 1;
      Insert(tasks, s[n], SortStable(tasks, s[..n]))
  }

  /** The sort is a permutation of its input. */
  lemma {:induction false} SortStablePerm(tasks: seq<Task>, s: seq<nat>)
    requires InRange(tasks, s)
    ensures multiset(SortStable(tasks, s)) == multiset(s)
    decreases |s|
  {
    if |s| > 0 {
      var n := |s| - 1;
      assert s == s[..n] + [s[n]];
      SortStablePerm(tasks, s[..n]);
      InsertPerm(tasks, s[n], SortStable(tasks, s[..n]));
    }
  }

  /** `candidates` for a member whose task list (in fetch order) is `assignedList`. */
  function Candidates(tasks: seq<Task>, assignedList: seq<nat>): (r: seq<nat>)
    requires InRange(tasks, assignedList)
    ensures InRange(tasks, r)
    ensures forall t :: t in r <==> t in assignedList && t < |tasks| && Movable(tasks[t])
  {
    var f := FilterMovable(tasks, assignedList);
    var r := SortStable(tasks, f);
    SortStablePerm(tasks, f);
    assert forall t :: t in r <==> t in multiset(r);
    r
  }

  /** `Before` is transitive. */
  lemma {:induction false} BeforeTransitive(tasks: seq<Task>, a: nat, b: nat, c: nat)
    requires Before(tasks, a, b) && Before(tasks, b, c)
    ensures Before(tasks, a, c)
  {
  }

  /** Inserting a task that comes later in fetch order than every element keeps a list sorted by `Before`. */
  lemma {:induction false} InsertSorted(tasks: seq<Task>, x: nat, s: seq<nat>)
    requires x < |tasks| && InRange(tasks, s)
    requires SortedBefore(tasks, s)
    requires forall i :: 0 <= i < |s| ==> s[i] < x
    ensures SortedBefore(tasks, Insert(tasks, x, s))
    decreases |s|
  {
    if |s| > 0 {
      var n := |s| - 1;
      if KeyLe(tasks[s[n]], tasks[x]) {
        var r := s + [x];
        assert Before(tasks, s[n], x);
        forall i, j | 0 <= i < j < |r| ensures Before(tasks, r[i], r[j]) {
          if j == n + 1 && i < n {
            BeforeTransitive(tasks, s[i], s[n], x);
          }
        }
      } else {
        var rest := Insert(tasks, x, s[..n]);
        InsertSorted(tasks, x, s[..n]);
        InsertPerm(tasks, x, s[..n]);
        var r := rest + [s[n]];
        forall i, j | 0 <= i < j < |r| ensures Before(tasks, r[i], r[j]) {
          if j == |rest| {
            var y := r[i];
            assert y == rest[i];
            assert y in multiset(rest);
            assert y == x || y in multiset(s[..n]);
            if y != x {
              var m :| 0 <= m < n && s[m] == y;
              assert Before(tasks, s[m], s[n]);
            }
          } else {
            assert r[i] == rest[i] && r[j] == rest[j];
          }
        }
      }
    }
  }

  /**
   * Sorting a list in fetch order yields the candidates in the order `Before`: the stable sort
   * breaks ties of the comparator by fetch position.
   */
  lemma {:induction false} SortStableSorted(tasks: seq<Task>, s: seq<nat>)
    requires InRange(tasks, s)
    requires Increasing(s)
    ensures SortedBefore(tasks, SortStable(tasks, s))
    decreases |s|
  {
    if |s| > 0 {
      var n := |s| - 1;
      var rest := SortStable(tasks, s[..n]);
      SortStableSorted(tasks, s[..n]);
      SortStablePerm(tasks, s[..n]);
      forall i | 0 <= i < |rest| ensures rest[i] < s[n] {
        assert rest[i] in multiset(rest);
        assert rest[i] in s[..n];
      }
      InsertSorted(tasks, s[n], rest);
    }
  }

  /** No position occurs twice in a list sorted by `Before`. */
  lemma {:induction false} SortedDistinct(tasks: seq<Task>, s: seq<nat>)
    requires SortedBefore(tasks, s)
    ensures forall i, j :: 0 <= i < j < |s| ==> s[i] != s[j]
  {
  }

  /**
   * The candidates of the member whose tasks are `assignedList`: exactly the Low and Medium ones,
   * each once, every Low task before every Medium task, oldest first within a priority, and fetch
   * order among tasks created at the same time.
   */
  lemma {:induction false} CandidatesOrder(tasks: seq<Task>, assignedList: seq<nat>)
    requires InRange(tasks, assignedList) && Increasing(assignedList)
    ensures var r := Candidates(tasks, assignedList);
      && (forall t :: t in r <==> t in assignedList && t < |tasks| && Movable(tasks[t]))
      && (forall i :: 0 <= i < |r| ==> r[i] < |tasks| && Movable(tasks[r[i]]))
      && (forall i, j :: 0 <= i < j < |r| ==> r[i] != r[j])
      && (forall i, j :: 0 <= i < j < |r| ==> !(tasks[r[i]].priority == Medium && tasks[r[j]].priority == Low))
      && (forall i, j :: 0 <= i < j < |r| && tasks[r[i]].priority == tasks[r[j]].priority ==>
            tasks[r[i]].createdAt <= tasks[r[j]].createdAt)
      && (forall i, j :: (0 <= i < j < |r| && tasks[r[i]].priority == tasks[r[j]].priority
            && tasks[r[i]].createdAt == tasks[r[j]].createdAt) ==> r[i] < r[j])
  {
    var f := FilterMovable(tasks, assignedList);
    FilterMovableIncreasing(tasks, assignedList);
    SortStableSorted(tasks, f);
    var r := Candidates(tasks, assignedList);
    assert SortedBefore(tasks, r);
    forall i | 0 <= i < |r| ensures r[i] < |tasks| && Movable(tasks[r[i]]) {
      assert r[i] in r;
    }
  }

  /** The head of a list sorted by `Before` comes before every other element. */
  lemma {:induction false} HeadBefore(tasks: seq<Task>, s: seq<nat>, x: nat)
    requires SortedBefore(tasks, s)
    requires x in s && x != s[0]
    ensures Before(tasks, s[0], x)
  {
    var m :| 0 <= m < |s| && s[m] == x;
  }

  /** Two lists sorted by `Before` with the same elements are equal: the candidate order is unique. */
  lemma {:induction false} SortedUnique(tasks: seq<Task>, s: seq<nat>, u: seq<nat>)
    requires SortedBefore(tasks, s) && SortedBefore(tasks, u)
    requires multiset(s) == multiset(u)
    ensures s == u
  {
    if |s| == 0 {
      assert |u| == |multiset(u)| == 0;
    } else {
      assert |u| == |multiset(u)| == |multiset(s)| == |s| > 0;
      assert s[0] in multiset(u) && u[0] in multiset(s);
      assert u[0] == s[0] by {
        if u[0] != s[0] {
          HeadBefore(tasks, s, u[0]);
          HeadBefore(tasks, u, s[0]);
        }
      }
      assert s == [s[0]] + s[1..] && u == [u[0]] + u[1..];
      assert multiset(s[1..]) == multiset(s) - multiset{s[0]};
      assert multiset(u[1..]) == multiset(u) - multiset{s[0]};
      SortedUnique(tasks, s[1..], u[1..]);
    }
  }
}
