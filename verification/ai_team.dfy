// A team of agents: its members keyed by identifier, its leader, and the
// formation and movement status the leader's orders put it in.

module AITeams {
  import opened Wrappers
  import opened AIObjects
  import AIContainers

  datatype TeamType = Alpha | Bravo | Charlie | NoTeam
  datatype Formation = Row | Arrow | Spread
  datatype Objective = SeekAndDestroy | Capture | Hold

  /**
   * The parts of an `AIObject` a team touches. `ref` stands for the
   * object's identity, so that the leader can be told apart from another
   * object carrying the same identifier; `speed` is the factor of the
   * base movement speed its status sets.
   */
  datatype Member = Member(ref: nat, id: string, isLeader: bool, status: Movement, speed: real,
                           team: Option<TeamType>)

  /** The fields of `AITeam`; `members` holds the dictionary's values in insertion order. */
  datatype Team = Team(
    teamType: TeamType,
    leader: Option<Member>,
    operateAsAUnit: bool,
    formation: Formation,
    objective: Objective,
    keepFormation: bool,
    members: seq<Member>)

  datatype TeamError =
    | DuplicateKey(id: string)   // `Dictionary.Add` with a key already present
    | NoLeader                   // dereferencing a missing leader

  function Keys(members: seq<Member>): set<string> {
    set i | 0 <= i < |members| :: members[i].id
  }

  /** A dictionary holds each key once. */
  predicate KeysDistinct(members: seq<Member>) {
    forall i, j :: 0 <= i < j < |members| ==> members[i].id != members[j].id
  }

  /** `AITeam(type, color)`: no members, no leader, in a row, holding. */
  function NewTeam(teamType: TeamType): (t: Team)
    ensures t.teamType == teamType && t.leader == None && !t.operateAsAUnit && !t.keepFormation
    ensures t.formation == Row && t.objective == Hold && t.members == []
  {
    NewTeamWith(teamType, Row, Hold)
  }

  /** `AITeam(type, color, formation, objective)`. */
  function NewTeamWith(teamType: TeamType, formation: Formation, objective: Objective): (t: Team)
    ensures t.teamType == teamType && t.leader == None && !t.operateAsAUnit && !t.keepFormation
    ensures t.formation == formation && t.objective == objective && t.members == [] && KeysDistinct(t.members)
  {
    Team(teamType, None, false, formation, objective, false, [])
  }

  // ---------------------------------------------------------------------
  // Registration
  // ---------------------------------------------------------------------

  /**
   * The outcome of `Add`: the team, the identifiers of the container's
   * object list, the member as registered, and the exception if the key
   * was taken. The steps before the dictionary insertion have happened
   * either way.
   */
  datatype Added = Added(team: Team, objects: seq<string>, item: Member, error: Option<TeamError>)

  /**
   * `Add(item)`: an unnamed item is given the container's next free
   * identifier; the item joins the team, becomes its leader if it is one,
   * and is appended to the container's objects before the dictionary
   * insertion, which throws on a key already present.
   */
  function Add(team: Team, item: Member, objects: seq<string>): (r: Added)
    ensures r.item == item.(id := r.item.id, team := Some(team.teamType))
    ensures item.id != "" ==> r.item.id == item.id
    ensures item.id == "" ==> r.item.id != "" && r.item.id !in objects
    ensures r.objects == objects + [r.item.id]
    ensures r.team.leader == if item.isLeader then Some(r.item) else team.leader
    ensures r.error.None? <==> r.item.id !in Keys(team.members)
    ensures r.error.Some? ==> r.error == Some(DuplicateKey(r.item.id)) && r.team.members == team.members
    ensures r.error.None? ==> r.team.members == team.members + [r.item]
    ensures r.team == team.(leader := r.team.leader, members := r.team.members)
    ensures KeysDistinct(team.members) ==> KeysDistinct(r.team.members)
  {
    var id := if item.id == "" then AIContainers.GetUniqueIdentifier(objects) else item.id;
    assert item.id == "" ==> id != "" by {
      if item.id == "" {
        var n :| 1 <= n <= |objects| + 1 && id == AIContainers.ObjectName(n);
        assert id[0] == 'A';
      }
    }
    var m := item.(id := id, team := Some(team.teamType));
    var t := if m.isLeader then team.(leader := Some(m)) else team;
    if id in Keys(team.members) then Added(t, objects + [id], m, Some(DuplicateKey(id)))
    else Added(t.(members := team.members + [m]), objects + [id], m, None)
  }

  /** Every member of the team is among the container's objects. */
  predicate Registered(team: Team, objects: seq<string>) {
    forall i :: 0 <= i < |team.members| ==> team.members[i].id in objects
  }

  /**
   * A team whose members are all registered with the container takes any
   * unnamed item without a clash, and stays registered whatever it is given.
   */
  lemma AddKeepsRegistered(team: Team, item: Member, objects: seq<string>)
    requires Registered(team, objects)
    ensures Registered(Add(team, item, objects).team, Add(team, item, objects).objects)
    ensures item.id == "" ==> Add(team, item, objects).error == None
  {
    var r := Add(team, item, objects);
    forall i | 0 <= i < |r.team.members|
      ensures r.team.members[i].id in r.objects
    {
      if i < |team.members| {
        assert r.team.members[i] == team.members[i];
      }
    }
  }

  // ---------------------------------------------------------------------
  // Formation
  // ---------------------------------------------------------------------

  /** The `KeepFormation` setter: a spread team never keeps formation. */
  function SetKeepFormation(team: Team, keep: bool): (r: Team)
    ensures r.keepFormation <==> keep && team.formation != Spread
    ensures r == team.(keepFormation := r.keepFormation)
  {
    if team.formation == Spread then team.(keepFormation := false) else team.(keepFormation := keep)
  }

  /** A team keeps formation only in a row or an arrow. */
  predicate KeepConsistent(team: Team) {
    team.keepFormation ==> team.formation != Spread
  }

  /**
   * `ToFormation(formation)`: the formation is set first; a team without a
   * leader stops there, keeping its flag, and a led team keeps formation
   * exactly when the new one is a row or an arrow.
   */
  function ToFormation(team: Team, formation: Formation): (r: Team)
    ensures r.formation == formation
    ensures team.leader.None? ==> r.keepFormation == team.keepFormation
    ensures team.leader.Some? ==> (r.keepFormation <==> formation != Spread)
    ensures team.leader.Some? ==> KeepConsistent(r)
    ensures r == team.(formation := formation, keepFormation := r.keepFormation)
  {
    var t := team.(formation := formation);
    if t.leader.None? then t
    else
      match formation
      case Row => t.(keepFormation := true)
      case Arrow => t.(keepFormation := true)
      case Spread => t.(keepFormation := false)
  }

  /** Without a leader a team can end up spread yet keeping formation. */
  lemma SpreadKeepsWithoutLeader()
    ensures var t := ToFormation(SetKeepFormation(NewTeam(Alpha), true), Spread);
            t.formation == Spread && t.keepFormation && !KeepConsistent(t)
  {
  }

  function NextFormation(f: Formation): Formation {
    match f
    case Row => Arrow
    case Arrow => Spread
    case Spread => Row
  }

  /** `ToggleFormation()`: row, arrow, spread, and round again. */
  function ToggleFormation(team: Team): (r: Team)
    ensures r.formation == NextFormation(team.formation) && r.formation != team.formation
    ensures r.members == team.members && r.leader == team.leader
  {
    ToFormation(team, NextFormation(team.formation))
  }

  /** Three toggles bring a team back to its formation, consistently kept once it has a leader. */
  lemma ToggleFormationCycles(team: Team)
    ensures ToggleFormation(ToggleFormation(ToggleFormation(team))).formation == team.formation
    ensures team.leader.Some? ==> KeepConsistent(ToggleFormation(ToggleFormation(ToggleFormation(team))))
  {
  }

  // ---------------------------------------------------------------------
  // Movement status
  // ---------------------------------------------------------------------

  /** The factor of the base movement speed the `Status` setter applies. */
  function SpeedFactor(s: Movement): (f: real)
    ensures 0.0 < f <= 1.0
    ensures f == 1.0 <==> s == Run
  {
    match s
    case Walk => 0.5
    case Run => 1.0
    case Crawl => 0.25
    case Cover => 0.4
  }

  function NextStatus(s: Movement): Movement {
    match s
    case Walk => Run
    case Run => Crawl
    case Crawl => Cover
    case Cover => Walk
  }

  function WithStatus(m: Member, s: Movement): Member {
    m.(status := s, speed := SpeedFactor(s))
  }

  predicate LeaderIsMember(team: Team) {
    team.leader.Some? && exists i :: 0 <= i < |team.members| && team.members[i].ref == team.leader.value.ref
  }

  /** `ToStatus(status)`: every member takes the status, the leader too when it is one of them. */
  function ToStatus(team: Team, s: Movement): (r: Team)
    ensures |r.members| == |team.members|
    ensures forall i :: 0 <= i < |r.members| ==> r.members[i] == WithStatus(team.members[i], s)
    ensures LeaderIsMember(team) ==> LeaderIsMember(r) && r.leader == Some(WithStatus(team.leader.value, s))
    ensures !LeaderIsMember(team) ==> r.leader == team.leader
    ensures r == team.(members := r.members, leader := r.leader)
  {
    var members := seq(|team.members|, i requires 0 <= i < |team.members| => WithStatus(team.members[i], s));
    var r := team.(members := members,
                   leader := if LeaderIsMember(team) then Some(WithStatus(team.leader.value, s)) else team.leader);
    assert LeaderIsMember(team) ==> LeaderIsMember(r) by {
      if LeaderIsMember(team) {
        var i :| 0 <= i < |team.members| && team.members[i].ref == team.leader.value.ref;
        assert r.members[i].ref == r.leader.value.ref;
      }
    }
    r
  }

  /** `ToggleStatus()`: the whole team moves to the status after the leader's; without a leader it throws. */
  function ToggleStatus(team: Team): (r: Result<Team, TeamError>)
    ensures r.Failure? <==> team.leader.None?
    ensures r.Failure? ==> r.error == NoLeader
    ensures r.Success? ==> r.value.members == ToStatus(team, NextStatus(team.leader.value.status)).members
    ensures r.Success? && LeaderIsMember(team) ==> r.value.leader.Some? && r.value.leader.value.status == NextStatus(team.leader.value.status)
  {
    if team.leader.None? then Failure(NoLeader) else Success(ToStatus(team, NextStatus(team.leader.value.status)))
  }

  /**
   * Four toggles of a team led by one of its members bring the leader back
   * to its status and put every member in it.
   */
  lemma ToggleStatusCycles(team: Team)
    requires LeaderIsMember(team)
    ensures var t1 := ToggleStatus(team).value;
            var t2 := ToggleStatus(t1).value;
            var t3 := ToggleStatus(t2).value;
            var t4 := ToggleStatus(t3).value;
            && t4.leader.value.status == team.leader.value.status
            && forall i :: 0 <= i < |t4.members| ==> t4.members[i].status == team.leader.value.status
  {
    var s := team.leader.value.status;
    var t1 := ToggleStatus(team).value;
    assert LeaderIsMember(t1) && t1.leader.value.status == NextStatus(s);
    var t2 := ToggleStatus(t1).value;
    assert LeaderIsMember(t2) && t2.leader.value.status == NextStatus(NextStatus(s));
    var t3 := ToggleStatus(t2).value;
    assert LeaderIsMember(t3) && t3.leader.value.status == NextStatus(NextStatus(NextStatus(s)));
    var t4 := ToggleStatus(t3).value;
    assert NextStatus(NextStatus(NextStatus(NextStatus(s)))) == s;
  }

  // ---------------------------------------------------------------------
  // Formation slots
  // ---------------------------------------------------------------------

  /**
   * Where a member stands relative to its leader: `distance` multiples of
   * its bounding radius, on the leader's right (`side` 1, in an arrow the
   * 3π/4 wing) or left (`side` -1, the π/4 wing).
   */
  datatype Slot = Slot(distance: int, side: int)

  /** The slot of the `k`-th member that is not the leader: pairs of members at growing distance. */
  function SlotOf(k: nat): Slot {
    Slot(1 + k / 2, if k % 2 == 0 then 1 else -1)
  }

  function NonLeaders(members: seq<Member>): nat
    decreases |members|
  {
    if |members| == 0 then 0 else (if members[0].isLeader then 0 else 1) + NonLeaders(members[1..])
  }

  lemma HalfFloor(k: nat)
    ensures (1.0 + (k as real) / 2.0).Floor == 1 + k / 2
  {
    var q := k / 2;
    assert k == 2 * q + k % 2;
    assert 1.0 + (k as real) / 2.0 == (1 + q) as real + ((k % 2) as real) / 2.0;
  }

  /**
   * The loop of `FormRow` and `FormArrow` over the members: each member
   * that is not the leader takes the slot at `Floor(rowNum)` on `side`,
   * after which the side flips and the row number grows by a half.
   */
  function FormationSlots(members: seq<Member>, side: int, rowNum: real, ghost k: nat): (r: seq<Slot>)
    requires rowNum == 1.0 + (k as real) / 2.0 && side == (if k % 2 == 0 then 1 else -1)
    ensures |r| == NonLeaders(members)
    ensures forall j :: 0 <= j < |r| ==> r[j] == SlotOf(k + j)
    decreases |members|
  {
    if |members| == 0 then []
    else if members[0].isLeader then FormationSlots(members[1..], side, rowNum, k)
    else
      HalfFloor(k);
      assert (k + 1) % 2 == 0 <==> k % 2 != 0;
      [Slot(rowNum.Floor, side)] + FormationSlots(members[1..], -side, rowNum + 0.5, k + 1)
  }

  /** The slots a row or an arrow assigns, the loop started at side 1, row number 1. */
  function Slots(members: seq<Member>): (r: seq<Slot>)
    ensures |r| == NonLeaders(members)
    ensures forall j :: 0 <= j < |r| ==> r[j] == SlotOf(j)
  {
    FormationSlots(members, 1, 1.0, 0)
  }

  /** No two members share a slot, and the two members of each pair stand at one distance on opposite sides. */
  lemma SlotsDistinct(members: seq<Member>)
    ensures forall i, j :: 0 <= i < j < |Slots(members)| ==> Slots(members)[i] != Slots(members)[j]
    ensures forall i :: 0 <= i < |Slots(members)| && i % 2 == 0 && i + 1 < |Slots(members)| ==>
              Slots(members)[i].distance == Slots(members)[i + 1].distance
              && Slots(members)[i].side == 1 && Slots(members)[i + 1].side == -1
  {
    var s := Slots(members);
    forall i, j | 0 <= i < j < |s|
      ensures s[i] != s[j]
    {
      SlotOfInjective(i, j);
    }
    forall i | 0 <= i < |s| && i % 2 == 0 && i + 1 < |s|
      ensures s[i].distance == s[i + 1].distance && s[i].side == 1 && s[i + 1].side == -1
    {
      SlotOfPair(i);
    }
  }

  lemma SlotOfInjective(i: nat, j: nat)
    requires i != j
    ensures SlotOf(i) != SlotOf(j)
  {
  }

  lemma SlotOfPair(i: nat)
    requires i % 2 == 0
    ensures SlotOf(i).distance == SlotOf(i + 1).distance && SlotOf(i).side == 1 && SlotOf(i + 1).side == -1
  {
  }
}
