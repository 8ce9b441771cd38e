/**
 * `findTarget` (src/controllers/teamController.ts:99-104): keep the records with spare capacity,
 * sort them by decreasing `available` with a stable sort, and take the first, or `null` when
 * none is left. The result is the earliest member, in team order, among those of largest
 * positive `available`.
 */
module TargetSelector {
  import opened Basics
  import opened CapacitySnapshot

  function FindTarget(info: seq<MemberInfo>): (r: Option<nat>)
    ensures r.None? <==> forall k :: 0 <= k < |info| ==> info[k].available <= 0
    ensures r.Some? ==> r.value < |info| && info[r.value].available > 0
    ensures r.Some? ==> forall k :: 0 <= k < |info| ==> info[k].available <= info[r.value].available
    ensures r.Some? ==> forall k :: 0 <= k < r.value ==> info[k].available < info[r.value].available
    decreases |info|
  {
    if |info| == 0 then None
    else
      var n := |info| - 1;
      var best := FindTarget(info[..n]);
      if info[n].available > 0 && (best.None? || info[best.value].available < info[n].available)
      then Some(n)
      else best
  }

  /** Records that agree on `available` have the same target. */
  lemma {:induction false} FindTargetDependsOnAvailable(info: seq<MemberInfo>, other: seq<MemberInfo>)
    requires |info| == |other|
    requires forall k :: 0 <= k < |info| ==> info[k].available == other[k].available
    ensures FindTarget(info) == FindTarget(other)
    decreases |info|
  {
    if |info| > 0 {
      var n := |info| - 1;
      FindTargetDependsOnAvailable(info[..n], other[..n]);
    }
  }
}
