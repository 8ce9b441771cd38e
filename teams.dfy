/**
 * Team membership in src/controllers/teamController.ts: the capacity check of `createTeam`
 * (lines 8-22) and `addMember` (lines 37-49), and the removal of `removeMember` (lines 51-61).
 * The look-up of the team by id and owner, `team.save()` and the HTTP answers are left to the
 * caller; an error result stands for the 400 / 404 answer.
 */
module Teams {
  import opened Basics
  import opened Model

  /** What `Number(x)` gives for a request's capacity: an integer, or NaN for a non-numeric value. */
  datatype RawCapacity = Numeric(value: int) | NotANumber

  /** A member as sent in a request; `id` is the ObjectId the store gives the new sub-document. */
  datatype MemberInput = MemberInput(id: MemberId, name: string, role: Option<string>, capacity: RawCapacity)

  datatype TeamError = NameRequired | CapacityOutOfRange | MemberNotFound

  /** `Number(capacity) || 0`: NaN becomes 0. */
  function Coerce(raw: RawCapacity): int {
    match raw
    case Numeric(n) => n
    case NotANumber => 0
  }

  /** `if (cap < 0 || cap > 5)` answers 'capacity must be between 0 and 5'. */
  function CheckCapacity(raw: RawCapacity): (r: Result<int, TeamError>)
    ensures r.Ok? <==> MinCapacity <= Coerce(raw) <= MaxCapacity
    ensures r.Ok? ==> r.value == Coerce(raw) && 0 <= r.value <= 5
    ensures r.Err? ==> r.error == CapacityOutOfRange
    ensures raw.NotANumber? ==> r == Ok(0)
  {
    var cap := Coerce(raw);
    if cap < MinCapacity || cap > MaxCapacity then Err(CapacityOutOfRange) else Ok(cap)
  }

  /** The member pushed for an accepted input. */
  function ToMember(m: MemberInput): Member {
    Member(m.id, m.name, m.role, Coerce(m.capacity))
  }

  /** The members `createTeam` pushes for accepted inputs, in request order. */
  function ToMembers(inputs: seq<MemberInput>): (r: seq<Member>)
    ensures |r| == |inputs|
    ensures forall i :: 0 <= i < |inputs| ==> r[i] == ToMember(inputs[i])
  {
    if |inputs| == 0 then [] else ToMembers(inputs[..|inputs| - 1]) + [ToMember(inputs[|inputs| - 1])]
  }

  predicate AllCapacitiesValid(inputs: seq<MemberInput>) {
    forall i :: 0 <= i < |inputs| ==> CheckCapacity(inputs[i].capacity).Ok?
  }

  /** `team.members.findIndex((m) => m._id?.toString() === memberId)`. */
  function FindMemberIndex(members: seq<Member>, id: MemberId): (idx: int)
    ensures -1 <= idx < |members|
    ensures idx == -1 <==> forall k :: 0 <= k < |members| ==> members[k].id != id
    ensures idx >= 0 ==> members[idx].id == id && forall k :: 0 <= k < idx ==> members[k].id != id
    decreases |members|
  {
    if |members| == 0 then -1
    else
      var n := |members| - 1;
      var i := FindMemberIndex(members[..n], id);
      if i == -1 && members[n].id == id then n else i
  }

  /**
   * `team.members.splice(idx, 1)` at the index `findIndex` found: the first member with that id
   * is gone, the others stay in order, and with distinct ids no member with that id remains.
   */
  lemma {:induction false} RemoveFirstMatch(members: seq<Member>, id: MemberId)
    requires FindMemberIndex(members, id) >= 0
    ensures var idx := FindMemberIndex(members, id);
      var rest := members[..idx] + members[idx + 1..];
      && |rest| == |members| - 1
      && (forall k :: 0 <= k < idx ==> rest[k] == members[k])
      && (forall k :: idx <= k < |rest| ==> rest[k] == members[k + 1])
      && (DistinctMemberIds(members) ==> DistinctMemberIds(rest) && forall m :: m in rest ==> m.id != id)
  {
    var idx := FindMemberIndex(members, id);
    var rest := members[..idx] + members[idx + 1..];
    assert |rest| == |members| - 1;
    assert forall k :: 0 <= k < idx ==> rest[k] == members[k];
    assert forall k :: idx <= k < |rest| ==> rest[k] == members[k + 1];
    if DistinctMemberIds(members) {
      forall i, j | 0 <= i < |rest| && 0 <= j < |rest| && i != j ensures rest[i].id != rest[j].id {
        var i' := if i < idx then i else i + 1;
        var j' := if j < idx then j else j + 1;
        assert rest[i] == members[i'] && rest[j] == members[j'];
      }
      forall m | m in rest ensures m.id != id {
        var k :| 0 <= k < |rest| && rest[k] == m;
        var k' := if k < idx then k else k + 1;
        assert m == members[k'] && k' != idx;
      }
    }
  }

  class Team {
    var name: string
    var members: seq<Member>

    /** Every stored capacity lies in the schema's range 0..5. */
    predicate Valid()
      reads this
    {
      forall m :: m in members ==> MinCapacity <= m.capacity <= MaxCapacity
    }

    constructor (name: string)
      ensures this.name == name && members == [] && Valid()
    {
      this.name := name;
      members := [];
    }

    /** `addMember` after the request was read: name check, capacity check, then `push`. */
    method AddMember(m: MemberInput) returns (r: Option<TeamError>)
      requires Valid()
      modifies this
      ensures Valid() && name == old(name)
      ensures m.name == "" ==> r == Some(NameRequired)
      ensures m.name != "" ==> (r == None <==> CheckCapacity(m.capacity).Ok?)
      ensures r.Some? && m.name != "" ==> r == Some(CapacityOutOfRange)
      ensures r == None ==> members == old(members) + [ToMember(m)]
      ensures r.Some? ==> members == old(members)
    {
      if m.name == "" {
        return Some(NameRequired);
      }
      var checked := CheckCapacity(m.capacity);
      if checked.Err? {
        return Some(checked.error);
      }
      members := members + [Member(m.id, m.name, m.role, checked.value)];
      r := None;
    }

    /** `removeMember` after the team look-up: 'Member not found', or `splice` at the first match. */
    method RemoveMember(memberId: MemberId) returns (r: Option<TeamError>)
      requires Valid()
      modifies this
      ensures Valid() && name == old(name)
      ensures var idx := FindMemberIndex(old(members), memberId);
        && (idx == -1 ==> r == Some(MemberNotFound) && members == old(members))
        && (idx >= 0 ==> r == None && members == old(members)[..idx] + old(members)[idx + 1..])
    {
      var idx := FindMemberIndex(members, memberId);
      if idx == -1 {
        return Some(MemberNotFound);
      }
      members := members[..idx] + members[idx + 1..];
      r := None;
    }
  }

  /**
   * `createTeam`: 'Team name required' for an empty name; otherwise a new team whose members are
   * pushed one by one, stopping with 'capacity must be between 0 and 5' at the first member whose
   * coerced capacity is out of range. `inputs` is `None` when `members` is not an array.
   */
  method CreateTeam(name: string, inputs: Option<seq<MemberInput>>) returns (r: Result<Team, TeamError>)
    ensures name == "" ==> r == Err(NameRequired)
    ensures r.Ok? <==> name != "" && (inputs.Some? ==> AllCapacitiesValid(inputs.value))
    ensures r.Err? && name != "" ==> r == Err(CapacityOutOfRange)
    ensures r.Ok? ==> fresh(r.value) && r.value.Valid() && r.value.name == name
    ensures r.Ok? ==> r.value.members == if inputs.Some? then ToMembers(inputs.value) else []
  {
    if name == "" {
      return Err(NameRequired);
    }
    var team := new Team(name);
    if inputs.Some? {
      var ms := inputs.value;
      for i := 0 to |ms|
        invariant team.name == name && team.Valid()
        invariant team.members == ToMembers(ms[..i])
        invariant AllCapacitiesValid(ms[..i])
      {
        var checked := CheckCapacity(ms[i].capacity);
        if checked.Err? {
          return Err(checked.error);
        }
        assert ms[..i + 1][..i] == ms[..i];
        team.members := team.members + [Member(ms[i].id, ms[i].name, ms[i].role, checked.value)];
      }
      assert ms[..|ms|] == ms;
    }
    r := Ok(team);
  }
}
