/** Who may do what on a server, and how squad roles are handed out. */
module Squads {
  import opened Bytes
  import opened Capabilities

  // ---------------- Resolving a grant ----------------

  /** `most_permissive`: a superset wins, incomparable sets are joined. */
  function MostPermissive(a: Grant, b: Grant): (r: Grant)
    ensures r.caps == a.caps + b.caps
    ensures r == a || r == b || (r.role == Custom && !(r.caps <= a.caps) && !(r.caps <= b.caps))
  {
    if b.caps <= a.caps then a
    else if a.caps <= b.caps then b
    else Grant(Custom, a.caps + b.caps)
  }

  ghost predicate Grants(roles: seq<Role>, c: Capability) {
    exists i :: 0 <= i < |roles| && c in Preset(roles[i])
  }

  /** The loop shared by `squad_grant` and `squad_authority`. */
  method FoldRoles(roles: seq<Role>) returns (grant: Option<Grant>)
    ensures grant.None? <==> roles == []
    ensures grant.Some? ==> forall c :: c in grant.value.caps <==> Grants(roles, c)
  {
    hide Preset;
    grant := None;
    for i := 0 to |roles|
      invariant grant.None? <==> i == 0
      invariant grant.Some? ==> forall c :: c in grant.value.caps <==> Grants(roles[..i], c)
    {
      var g := New(roles[i], {});
      assert roles[..i + 1] == roles[..i] + [roles[i]];
      GrantsSnoc(roles[..i], roles[i]);
      grant := Some(if grant.None? then g else MostPermissive(grant.value, g));
    }
    assert roles[..|roles|] == roles;
  }

  lemma GrantsSnoc(roles: seq<Role>, r: Role)
    ensures forall c :: Grants(roles + [r], c) <==> Grants(roles, c) || c in Preset(r)
  {
    hide Preset;
    var all := roles + [r];
    forall c ensures Grants(all, c) <==> Grants(roles, c) || c in Preset(r) {
      if c in Preset(r) { assert c in Preset(all[|roles|]); }
      if Grants(roles, c) {
        var i :| 0 <= i < |roles| && c in Preset(roles[i]);
        assert c in Preset(all[i]);
      }
    }
  }

  lemma OneRole(r: Role)
    ensures forall c :: Grants([r], c) <==> c in Preset(r)
  {
    hide Preset;
    var one := [r];
    forall c ensures Grants(one, c) <==> c in Preset(r) {
      if c in Preset(r) { assert c in Preset(one[0]); }
    }
  }

  /** What the tables say about one user and one server: the subuser row if any, and the
      user's role in each squad that holds the server, in row order. */
  datatype Standing = Standing(root: bool, owner: bool, subuser: Option<(string, Cell)>, squadRoles: seq<Role>)

  ghost predicate Holds(s: Standing, c: Capability) {
    || s.root || s.owner
    || (s.subuser.Some? && c in FromStored(s.subuser.value.0, s.subuser.value.1).caps)
    || Grants(s.squadRoles, c)
  }

  /** `raw_server_grant` */
  method RawServerGrant(s: Standing) returns (grant: Option<Grant>)
    ensures grant.None? <==> !s.root && !s.owner && s.subuser.None? && s.squadRoles == []
    ensures grant.Some? ==> forall c :: c in grant.value.caps <==> Holds(s, c)
  {
    hide FromStored, Grants;
    if s.root || s.owner {
      forall c: Capability ensures c in ALL { InOrder(c); }
      return Some(OWNER);
    }
    var squad := FoldRoles(s.squadRoles);
    if s.squadRoles == [] { NoRoles(); }
    if s.subuser.None? { return squad; }
    var subuser := FromStored(s.subuser.value.0, s.subuser.value.1);
    if squad.None? { return Some(subuser); }
    return Some(MostPermissive(subuser, squad.value));
  }

  lemma NoRoles()
    ensures forall c :: !Grants([], c)
  {
  }

  /** The order of the squad rows does not matter, and neither do repetitions. */
  lemma OrderIrrelevant(s: Standing, squadRoles: seq<Role>, c: Capability)
    requires forall r :: r in s.squadRoles <==> r in squadRoles
    ensures Holds(s, c) <==> Holds(s.(squadRoles := squadRoles), c)
  {
    hide Preset, FromStored;
    SameRoles(s.squadRoles, squadRoles, c);
    SameRoles(squadRoles, s.squadRoles, c);
  }

  lemma SameRoles(roles: seq<Role>, others: seq<Role>, c: Capability)
    requires forall r :: r in roles ==> r in others
    ensures Grants(roles, c) ==> Grants(others, c)
  {
    hide Preset;
    if Grants(roles, c) {
      var i :| 0 <= i < |roles| && c in Preset(roles[i]);
      assert roles[i] in others;
      var j :| 0 <= j < |others| && others[j] == roles[i];
    }
  }

  /** Another squad row anywhere never takes a capability away. */
  lemma MoreRowsGrantMore(s: Standing, before: seq<Role>, r: Role, after: seq<Role>, c: Capability)
    ensures Holds(s.(squadRoles := before + after), c) ==> Holds(s.(squadRoles := before + [r] + after), c)
  {
    hide Preset, FromStored;
    SameRoles(before + after, before + [r] + after, c);
  }

  // ---------------- Handing out roles ----------------

  type Members = map<(int, int), Role>

  /** Root admins, who made which squad, and everyone there is. */
  datatype Directory = Directory(users: set<int>, roots: set<int>, creators: map<int, int>)

  /** `squad_authority`; a member row is keyed by squad and user, so there is at most one. */
  function Authority(d: Directory, members: Members, squad: int, actor: int): Option<Caps> {
    if actor in d.roots || (squad in d.creators && d.creators[squad] == actor) then Some(ALL)
    else if (squad, actor) in members then Some(Preset(members[(squad, actor)]))
    else None
  }

  datatype Op =
    | Add(squad: int, actor: int, user: int, role: Role)
    | Update(squad: int, actor: int, user: int, role: Role)
    | Remove(squad: int, actor: int, user: int)

  /** The actor could have minted that role. */
  predicate May(d: Directory, members: Members, squad: int, actor: int, role: Role) {
    var authority := Authority(d, members, squad, actor);
    authority.Some? && Preset(role) <= authority.value
  }

  function Apply(d: Directory, members: Members, op: Op): Members {
    var key := (op.squad, op.user);
    match op
    case Add(squad, actor, user, role) =>
      if squad in d.creators && user in d.users && key !in members && May(d, members, squad, actor, role)
      then members[key := role] else members
    case Update(squad, actor, user, role) =>
      if key in members && May(d, members, squad, actor, role) then members[key := role] else members
    case Remove(squad, actor, user) =>
      if key in members && May(d, members, squad, actor, members[key]) then members - {key} else members
  }

  class Roster {
    const directory: Directory
    var members: Members

    constructor (directory: Directory)
      ensures this.directory == directory && members == map[]
    {
      this.directory, members := directory, map[];
    }

    method ResolveAuthority(squad: int, actor: int) returns (caps: Option<Caps>)
      ensures caps == Authority(directory, members, squad, actor)
      ensures actor in directory.roots || (squad in directory.creators && directory.creators[squad] == actor) ==> caps == Some(ALL)
      ensures actor !in directory.roots && !(squad in directory.creators && directory.creators[squad] == actor) ==>
                caps == if (squad, actor) in members then Some(Preset(members[(squad, actor)])) else None
    {
      hide Preset;
      if actor in directory.roots { return Some(ALL); }
      if squad in directory.creators && directory.creators[squad] == actor { return Some(ALL); }
      var roles := if (squad, actor) in members then [members[(squad, actor)]] else [];
      var grant := FoldRoles(roles);
      if grant.None? { return None; }
      OneRole(members[(squad, actor)]);
      assert grant.value.caps == Preset(members[(squad, actor)]);
      return Some(grant.value.caps);
    }

    /** `add_squad_member` */
    method AddSquadMember(squad: int, user: int, role: Role, actor: int) returns (ok: bool)
      modifies this`members
      ensures members == Apply(directory, old(members), Add(squad, actor, user, role))
      ensures ok ==> members == old(members)[(squad, user) := role]
      ensures !ok ==> members == old(members)
      ensures ok <==> squad in directory.creators && user in directory.users && (squad, user) !in old(members)
                      && May(directory, old(members), squad, actor, role)
    {
      hide Preset, Authority;
      if squad !in directory.creators || user !in directory.users || (squad, user) in members { return false; }
      var authority := ResolveAuthority(squad, actor);
      if authority.None? || !(Preset(role) <= authority.value) { return false; }
      members := members[(squad, user) := role];
      return true;
    }

    /** `update_squad_member_role` */
    method UpdateSquadMemberRole(squad: int, user: int, role: Role, actor: int) returns (ok: bool)
      modifies this`members
      ensures members == Apply(directory, old(members), Update(squad, actor, user, role))
      ensures ok ==> members == old(members)[(squad, user) := role]
      ensures !ok ==> members == old(members)
      ensures ok <==> (squad, user) in old(members) && May(directory, old(members), squad, actor, role)
    {
      hide Preset, Authority;
      if (squad, user) !in members { return false; }
      var authority := ResolveAuthority(squad, actor);
      if authority.None? || !(Preset(role) <= authority.value) { return false; }
      members := members[(squad, user) := role];
      return true;
    }

    /** `remove_squad_member` */
    method RemoveSquadMember(squad: int, user: int, actor: int) returns (ok: bool)
      modifies this`members
      ensures members == Apply(directory, old(members), Remove(squad, actor, user))
      ensures ok ==> members == old(members) - {(squad, user)}
      ensures !ok ==> members == old(members)
      ensures ok <==> (squad, user) in old(members) && May(directory, old(members), squad, actor, old(members)[(squad, user)])
    {
      hide Preset, Authority;
      var authority := ResolveAuthority(squad, actor);
      if authority.None? || (squad, user) !in members { return false; }
      if !(Preset(members[(squad, user)]) <= authority.value) { return false; }
      members := members - {(squad, user)};
      return true;
    }
  }

  // ---------------- No escalation ----------------

  ghost predicate StepAt(d: Directory, ms: seq<Members>, ops: seq<Op>, i: nat)
    requires |ms| == |ops| + 1 && i < |ops|
  {
    ms[i + 1] == Apply(d, ms[i], ops[i])
  }

  ghost predicate IsRun(d: Directory, ms: seq<Members>, ops: seq<Op>) {
    |ms| == |ops| + 1 && forall i :: 0 <= i < |ops| ==> StepAt(d, ms, ops, i)
  }

  /** Neither root nor the squad's creator. */
  ghost predicate Ordinary(d: Directory, squad: int, actors: set<int>) {
    && actors !! d.roots
    && (squad in d.creators ==> d.creators[squad] !in actors)
  }

  /** Everyone acting stays within `bound`; whoever exceeds it already did, with the very
      same role, at the start. */
  ghost predicate Bounded(first: Members, members: Members, squad: int, actors: set<int>, bound: Caps) {
    && (forall u :: u in actors && (squad, u) in members ==> Preset(members[(squad, u)]) <= bound)
    && (forall u :: (squad, u) in members ==>
          || Preset(members[(squad, u)]) <= bound
          || ((squad, u) in first && first[(squad, u)] == members[(squad, u)]))
  }

  lemma StepBounded(d: Directory, first: Members, members: Members, op: Op, squad: int, actors: set<int>, bound: Caps)
    requires Ordinary(d, squad, actors) && op.actor in actors
    requires Bounded(first, members, squad, actors, bound)
    ensures Bounded(first, Apply(d, members, op), squad, actors, bound)
  {
    hide Preset;
    var r := Apply(d, members, op);
    var key := (op.squad, op.user);
    if op.squad == squad && key in r && r != members && !op.Remove? {
      assert Preset(r[key]) <= bound;
    }
    assert forall u :: (squad, u) in r && (squad, u) != key ==> (squad, u) in members && r[(squad, u)] == members[(squad, u)];
  }

  /** Over any run by users who are neither root nor the squad's creator and whose roles
      there lie within `bound`, no role they assign exceeds `bound`. */
  lemma {:induction false} NoEscalation(
    d: Directory, ms: seq<Members>, ops: seq<Op>, squad: int, actors: set<int>, bound: Caps, i: nat)
    requires IsRun(d, ms, ops) && i < |ms| && Ordinary(d, squad, actors)
    requires forall j :: 0 <= j < |ops| ==> ops[j].actor in actors
    requires forall u :: u in actors && (squad, u) in ms[0] ==> Preset(ms[0][(squad, u)]) <= bound
    ensures Bounded(ms[0], ms[i], squad, actors, bound)
  {
    hide Preset, Apply;
    if i > 0 {
      NoEscalation(d, ms, ops, squad, actors, bound, i - 1);
      assert StepAt(d, ms, ops, i - 1);
      StepBounded(d, ms[0], ms[i - 1], ops[i - 1], squad, actors, bound);
    }
  }

  /** What the guard on removal does by itself: as long as nobody changes the role of a
      member who outranks them all, nobody removes that member. */
  lemma {:induction false} NoEviction(
    d: Directory, ms: seq<Members>, ops: seq<Op>, squad: int, actors: set<int>, bound: Caps, user: int, i: nat)
    requires IsRun(d, ms, ops) && i < |ms| && Ordinary(d, squad, actors)
    requires forall j :: 0 <= j < |ops| ==> ops[j].actor in actors && !(ops[j].Update? && ops[j].user == user)
    requires forall u :: u in actors && (squad, u) in ms[0] ==> Preset(ms[0][(squad, u)]) <= bound
    requires (squad, user) in ms[0] && !(Preset(ms[0][(squad, user)]) <= bound)
    ensures (squad, user) in ms[i] && ms[i][(squad, user)] == ms[0][(squad, user)]
  {
    hide Preset;
    if i > 0 {
      NoEviction(d, ms, ops, squad, actors, bound, user, i - 1);
      NoEscalation(d, ms, ops, squad, actors, bound, i - 1);
      assert StepAt(d, ms, ops, i - 1);
      assert ops[i - 1].actor in actors;
    }
  }

  // ---------------- Eviction ----------------

  /** The endpoints in front of the member operations let managers through only, and refuse
      the role `Custom`. */
  predicate Passes(d: Directory, members: Members, op: Op) {
    && May(d, members, op.squad, op.actor, Manager)
    && (op.Remove? || op.role != Custom)
  }

  /** An operation called directly, or through its endpoint. */
  function Submit(d: Directory, members: Members, op: Op, endpoint: bool): Members {
    if endpoint && !Passes(d, members, op) then members else Apply(d, members, op)
  }

  function Play(d: Directory, members: Members, ops: seq<Op>, endpoint: bool): Members
    decreases |ops|
  {
    if ops == [] then members else Play(d, Submit(d, members, ops[0], endpoint), ops[1..], endpoint)
  }

  ghost predicate By(ops: seq<Op>, actors: set<int>) {
    forall i :: 0 <= i < |ops| ==> ops[i].actor in actors
  }

  /** Somebody among them can act on the squad at all. */
  ghost predicate CanAct(members: Members, squad: int, actors: set<int>, endpoint: bool) {
    exists a :: a in actors && HoldsRow(members, squad, a, endpoint)
  }

  predicate HoldsRow(members: Members, squad: int, actor: int, endpoint: bool) {
    (squad, actor) in members && (endpoint ==> members[(squad, actor)] == Manager)
  }

  ghost predicate SameSquad(a: Members, b: Members, squad: int) {
    forall u :: ((squad, u) in a <==> (squad, u) in b) && ((squad, u) in a ==> a[(squad, u)] == b[(squad, u)])
  }

  lemma ManagerAlone(r: Role)
    ensures Preset(Manager) <= Preset(r) <==> r == Manager
  {
    assert ControlKill in Preset(Manager);
  }

  lemma IdleStep(d: Directory, members: Members, op: Op, squad: int, actors: set<int>, endpoint: bool)
    requires Ordinary(d, squad, actors) && op.actor in actors && !CanAct(members, squad, actors, endpoint)
    ensures SameSquad(members, Submit(d, members, op, endpoint), squad)
  {
    hide Preset;
    if op.squad == squad {
      assert !HoldsRow(members, squad, op.actor, endpoint);
      if (squad, op.actor) in members { ManagerAlone(members[(squad, op.actor)]); }
    }
  }

  lemma SameCanAct(a: Members, b: Members, squad: int, actors: set<int>, endpoint: bool)
    requires SameSquad(a, b, squad) && !CanAct(a, squad, actors, endpoint)
    ensures !CanAct(b, squad, actors, endpoint)
  {
    forall u | u in actors ensures !HoldsRow(b, squad, u, endpoint) {
      assert !HoldsRow(a, squad, u, endpoint);
    }
  }

  /** Where nobody can act, nothing they do changes a row of the squad. */
  lemma {:induction false} IdlePlay(d: Directory, members: Members, ops: seq<Op>, squad: int, actors: set<int>, endpoint: bool)
    requires Ordinary(d, squad, actors) && By(ops, actors) && !CanAct(members, squad, actors, endpoint)
    ensures SameSquad(members, Play(d, members, ops, endpoint), squad)
    decreases |ops|
  {
    hide Submit, CanAct, Ordinary;
    if ops != [] {
      var next := Submit(d, members, ops[0], endpoint);
      IdleStep(d, members, ops[0], squad, actors, endpoint);
      SameCanAct(members, next, squad, actors, endpoint);
      IdlePlay(d, next, ops[1..], squad, actors, endpoint);
    }
  }

  /** A role change looks at the new role only. So whoever holds a row can bring any member
      down to that row's own role, and then remove the member. */
  lemma DemotionOpensRemoval(d: Directory, members: Members, squad: int, actor: int, user: int, endpoint: bool)
    requires HoldsRow(members, squad, actor, endpoint) && (squad, user) in members
    ensures var own := members[(squad, actor)];
            var demoted := Submit(d, members, Update(squad, actor, user, own), endpoint);
            && demoted == members[(squad, user) := own]
            && Submit(d, demoted, Remove(squad, actor, user), endpoint) == members - {(squad, user)}
  {
    hide Preset;
    var own := members[(squad, actor)];
    PresetsWithin(own);
    PresetsWithin(Manager);
    var demoted := members[(squad, user) := own];
    assert May(d, members, squad, actor, own) && May(d, demoted, squad, actor, own);
    assert endpoint ==> own == Manager;
  }

  lemma PresetsWithin(r: Role)
    ensures Preset(r) <= ALL
  {
    forall c | c in Preset(r) ensures c in ALL { InOrder(c); }
  }

  ghost predicate Evicts(d: Directory, members: Members, ops: seq<Op>, squad: int, actors: set<int>, user: int, endpoint: bool) {
    By(ops, actors) && (squad, user) !in Play(d, members, ops, endpoint)
  }

  /** Users who are neither root nor the squad's creator can get a member out of the squad,
      whatever that member's role, if and only if one of them holds a row there; through the
      endpoints, if and only if one of them is a manager there. */
  lemma EvictableExactly(d: Directory, members: Members, squad: int, actors: set<int>, user: int, endpoint: bool)
    requires Ordinary(d, squad, actors) && (squad, user) in members
    ensures (exists ops :: Evicts(d, members, ops, squad, actors, user, endpoint)) <==> CanAct(members, squad, actors, endpoint)
  {
    hide Preset, Submit, Ordinary;
    if CanAct(members, squad, actors, endpoint) {
      var a :| a in actors && HoldsRow(members, squad, a, endpoint);
      DemotionOpensRemoval(d, members, squad, a, user, endpoint);
      var down, out := Update(squad, a, user, members[(squad, a)]), Remove(squad, a, user);
      PlayTwo(d, members, down, out, endpoint);
      var ops := [down, out];
      assert Evicts(d, members, ops, squad, actors, user, endpoint);
    } else {
      forall ops ensures !Evicts(d, members, ops, squad, actors, user, endpoint) {
        if By(ops, actors) { IdlePlay(d, members, ops, squad, actors, endpoint); }
      }
    }
  }

  lemma PlayTwo(d: Directory, members: Members, a: Op, b: Op, endpoint: bool)
    ensures Play(d, members, [a, b], endpoint) == Submit(d, Submit(d, members, a, endpoint), b, endpoint)
  {
    hide Submit;
    var none: seq<Op>, one: seq<Op>, two: seq<Op> := [], [b], [a, b];
    var first := Submit(d, members, a, endpoint);
    var second := Submit(d, first, b, endpoint);
    assert two[1..] == one && one[1..] == none;
    assert Play(d, second, none, endpoint) == second;
    assert Play(d, first, one, endpoint) == second;
  }

  /** Through the endpoints only someone with full authority over the squad changes it, so
      nobody is demoted or removed by someone who could not have given them their role. */
  lemma EndpointNeedsManager(d: Directory, members: Members, op: Op, role: Role)
    ensures Submit(d, members, op, true) != members ==> May(d, members, op.squad, op.actor, role)
    ensures Submit(d, members, op, true) != members && !op.Remove? ==>
              Submit(d, members, op, true) == members[(op.squad, op.user) := op.role] && op.role != Custom
  {
    hide Preset;
    ManagerIsAll();
    PresetsWithin(role);
  }
}
