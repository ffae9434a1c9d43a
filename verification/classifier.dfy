/** The object classifier of MyHeuristic's constructor: every object id that
    appears at a role's parameter position of a recognised action is recorded in
    that role's ascending id set (classical_planning/src/MyHeuristic.java:94-217),
    and the role sets are queried by size and by ordinal (MyHeuristic.java lines 325-386). */
module Classifier {
  import opened Results
  import opened Planning
  import opened Schemas
  import opened OrderedSets

  /** The runtime exceptions of the role lookups. */
  datatype Fault = NullRole(role: Role) | IndexOutOfRange(index: int)

  /** Role name -> ascending id set; a role is a key only once an id was added. */
  type Mapping = map<Role, seq<int>>

  predicate MappingOk(m: Mapping) {
    forall r :: r in m ==> Sorted(m[r])
  }

  /** The ids recorded for role r (none when the role was never created). */
  function Ids(m: Mapping, r: Role): set<int> {
    if r in m then Elems(m[r]) else {}
  }

  /** A recognised action carries at least the parameters the code reads. */
  predicate ParamsOk(a: Action) {
    KindOf(a.name).Some? ==> |a.params| >= MinParams(KindOf(a.name).value)
  }

  /** Creates role r's set if it is missing, then adds id. */
  function AddTo(m: Mapping, r: Role, id: int): (m': Mapping)
    requires MappingOk(m)
    ensures MappingOk(m')
    ensures m'.Keys == m.Keys + {r}
    ensures Ids(m', r) == Ids(m, r) + {id}
    ensures forall r' :: r' != r && r' in m ==> m'[r'] == m[r']
  {
    var prev := if r in m then m[r] else [];
    m[r := Insert(prev, id)]
  }

  /** Registers the ids at the given (position, role) pairs. */
  function RegisterAt(m: Mapping, params: seq<int>, pos: seq<(nat, Role)>): (m': Mapping)
    requires MappingOk(m)
    requires forall j :: 0 <= j < |pos| ==> pos[j].0 < |params|
    ensures MappingOk(m')
    decreases |pos|
  {
    if pos == [] then m
    else RegisterAt(AddTo(m, pos[0].1, params[pos[0].0]), params, pos[1..])
  }

  /** The ids one action contributes to role r. */
  function ActionIds(a: Action, r: Role): set<int>
    requires ParamsOk(a)
  {
    match KindOf(a.name)
    case None => {}
    case Some(k) =>
      PosIds(a.params, Positions(k), r)
  }

  /** Registers one action's objects by its schema; other names add nothing. */
  function Register(m: Mapping, a: Action): (m': Mapping)
    requires MappingOk(m) && ParamsOk(a)
    ensures MappingOk(m')
  {
    match KindOf(a.name)
    case None => m
    case Some(k) => RegisterAt(m, a.params, Positions(k))
  }

  /** The mapping built from the problem's actions, in order. */
  function Classify(actions: seq<Action>): (m: Mapping)
    requires forall i :: 0 <= i < |actions| ==> ParamsOk(actions[i])
    ensures MappingOk(m)
    decreases |actions|
  {
    if actions == [] then map[]
    else
      Register(Classify(actions[..|actions| - 1]), actions[|actions| - 1])
  }

  /** Reference definition of a role's members: every id at that role's position
      in some recognised action. */
  function Members(actions: seq<Action>, r: Role): set<int>
    requires forall i :: 0 <= i < |actions| ==> ParamsOk(actions[i])
  {
    set i, x | 0 <= i < |actions| && x in ActionIds(actions[i], r) :: x
  }

  /** The ids listed at role r's entries of a position table. */
  function PosIds(params: seq<int>, pos: seq<(nat, Role)>, r: Role): set<int>
    requires forall j :: 0 <= j < |pos| ==> pos[j].0 < |params|
    decreases |pos|
  {
    if pos == [] then {}
    else (if pos[0].1 == r then {params[pos[0].0]} else {}) + PosIds(params, pos[1..], r)
  }

  /** PosIds collects exactly the ids at the positions tagged with r. */
  lemma {:induction false} PosIdsMembers(params: seq<int>, pos: seq<(nat, Role)>, r: Role)
    requires forall j :: 0 <= j < |pos| ==> pos[j].0 < |params|
    ensures PosIds(params, pos, r) == set j | 0 <= j < |pos| && pos[j].1 == r :: params[pos[j].0]
    decreases |pos|
  {
    if pos != [] {
      PosIdsMembers(params, pos[1..], r);
      var all := set j | 0 <= j < |pos| && pos[j].1 == r :: params[pos[j].0];
      var rest := set j | 0 <= j < |pos[1..]| && pos[1..][j].1 == r :: params[pos[1..][j].0];
      forall x | x in all ensures x in PosIds(params, pos, r) {
        var j :| 0 <= j < |pos| && pos[j].1 == r && x == params[pos[j].0];
        if j > 0 { assert pos[1..][j - 1] == pos[j]; assert x in rest; }
      }
      forall x | x in rest ensures x in all {
        var j :| 0 <= j < |pos[1..]| && pos[1..][j].1 == r && x == params[pos[1..][j].0];
        assert pos[j + 1] == pos[1..][j];
      }
    }
  }

  /** RegisterAt adds exactly the ids at the listed positions to role r, and
      creates r iff some position is tagged with it. */
  lemma {:induction false} RegisterAtLemma(m: Mapping, params: seq<int>, pos: seq<(nat, Role)>, r: Role)
    requires MappingOk(m)
    requires forall j :: 0 <= j < |pos| ==> pos[j].0 < |params|
    ensures r in RegisterAt(m, params, pos) <==> r in m || PosIds(params, pos, r) != {}
    ensures Ids(RegisterAt(m, params, pos), r) == Ids(m, r) + PosIds(params, pos, r)
  {
    RegisterAtKeys(m, params, pos, r);
    RegisterAtIds(m, params, pos, r);
  }

  lemma {:induction false} RegisterAtKeys(m: Mapping, params: seq<int>, pos: seq<(nat, Role)>, r: Role)
    requires MappingOk(m)
    requires forall j :: 0 <= j < |pos| ==> pos[j].0 < |params|
    ensures r in RegisterAt(m, params, pos) <==> r in m || PosIds(params, pos, r) != {}
    decreases |pos|
  {
    if pos != [] {
      var m1 := AddTo(m, pos[0].1, params[pos[0].0]);
      AddToIds(m, pos[0].1, params[pos[0].0], r);
      RegisterAtKeys(m1, params, pos[1..], r);
    }
  }

  lemma {:induction false} RegisterAtIds(m: Mapping, params: seq<int>, pos: seq<(nat, Role)>, r: Role)
    requires MappingOk(m)
    requires forall j :: 0 <= j < |pos| ==> pos[j].0 < |params|
    ensures Ids(RegisterAt(m, params, pos), r) == Ids(m, r) + PosIds(params, pos, r)
    decreases |pos|
  {
    if pos != [] {
      var m1 := AddTo(m, pos[0].1, params[pos[0].0]);
      AddToIds(m, pos[0].1, params[pos[0].0], r);
      RegisterAtIds(m1, params, pos[1..], r);
    }
  }

  /** AddTo changes role r only when r is the role added to. */
  lemma {:induction false} AddToIds(m: Mapping, r0: Role, id: int, r: Role)
    requires MappingOk(m)
    ensures r in AddTo(m, r0, id) <==> r in m || r == r0
    ensures Ids(AddTo(m, r0, id), r) == Ids(m, r) + if r == r0 then {id} else {}
  {
    if r != r0 && r in m {
      assert AddTo(m, r0, id)[r] == m[r];
    }
  }

  /** Register adds exactly the action's ids, creating the roles they belong to. */
  lemma {:induction false} RegisterLemma(m: Mapping, a: Action, r: Role)
    requires MappingOk(m) && ParamsOk(a)
    ensures r in Register(m, a) <==> r in m || ActionIds(a, r) != {}
    ensures Ids(Register(m, a), r) == Ids(m, r) + ActionIds(a, r)
  {
    match KindOf(a.name)
    case None =>
    case Some(k) => RegisterAtLemma(m, a.params, Positions(k), r);
  }

  /** The members over a list of actions split into the members of all but
      the last and the last's own ids. */
  lemma {:induction false} MembersSnoc(actions: seq<Action>, r: Role)
    requires |actions| > 0
    requires forall i :: 0 <= i < |actions| ==> ParamsOk(actions[i])
    ensures Members(actions, r) ==
              Members(actions[..|actions| - 1], r) + ActionIds(actions[|actions| - 1], r)
  {
    MembersSnocWithin(actions, r);
    MembersSnocCovers(actions, r);
  }

  lemma {:induction false} MembersSnocWithin(actions: seq<Action>, r: Role)
    requires |actions| > 0
    requires forall i :: 0 <= i < |actions| ==> ParamsOk(actions[i])
    ensures Members(actions, r) <=
              Members(actions[..|actions| - 1], r) + ActionIds(actions[|actions| - 1], r)
  {
    var init := actions[..|actions| - 1];
    forall x | x in Members(actions, r) ensures x in Members(init, r) + ActionIds(actions[|actions| - 1], r) {
      var i := MemberWitness(actions, r, x);
      if i < |actions| - 1 {
        assert init[i] == actions[i];
        MemberAt(init, r, i, x);
      }
    }
  }

  /** The position of an action that contributes x. */
  lemma {:induction false} MemberWitness(actions: seq<Action>, r: Role, x: int) returns (i: nat)
    requires forall i :: 0 <= i < |actions| ==> ParamsOk(actions[i])
    requires x in Members(actions, r)
    ensures i < |actions| && x in ActionIds(actions[i], r)
  {
    i :| 0 <= i < |actions| && x in ActionIds(actions[i], r);
  }

  lemma {:induction false} MembersSnocCovers(actions: seq<Action>, r: Role)
    requires |actions| > 0
    requires forall i :: 0 <= i < |actions| ==> ParamsOk(actions[i])
    ensures Members(actions[..|actions| - 1], r) + ActionIds(actions[|actions| - 1], r) <=
              Members(actions, r)
  {
    var init := actions[..|actions| - 1];
    forall x | x in Members(init, r) ensures x in Members(actions, r) {
      var i :| 0 <= i < |init| && x in ActionIds(init[i], r);
      MemberAt(actions, r, i, x);
    }
    var last := |actions| - 1;
    forall x | x in ActionIds(actions[last], r) ensures x in Members(actions, r) {
      MemberAt(actions, r, last, x);
    }
  }

  /** An id of one of the actions is a member. */
  lemma {:induction false} MemberAt(actions: seq<Action>, r: Role, i: nat, x: int)
    requires forall i :: 0 <= i < |actions| ==> ParamsOk(actions[i])
    requires i < |actions| && x in ActionIds(actions[i], r)
    ensures x in Members(actions, r)
  {
  }

  /** Classifier contents: each role's set holds exactly the distinct ids found
      at that role's positions in recognised actions, and a role exists iff it
      has at least one such id. */
  lemma {:induction false} ClassifyContents(actions: seq<Action>, r: Role)
    requires forall i :: 0 <= i < |actions| ==> ParamsOk(actions[i])
    ensures Ids(Classify(actions), r) == Members(actions, r)
    ensures r in Classify(actions) <==> Members(actions, r) != {}
    decreases |actions|
  {
    if actions != [] {
      var init := actions[..|actions| - 1];
      var last := actions[|actions| - 1];
      ClassifyContents(init, r);
      RegisterLemma(Classify(init), last, r);
      MembersSnoc(actions, r);
      RoleHasIds(Classify(actions), r);
      RoleHasIds(Classify(init), r);
    }
  }

  /** Every role set the classifier creates gets an id, so a role is present
      iff it has ids. */
  lemma {:induction false} RoleHasIds(m: Mapping, r: Role)
    requires r in m ==> m[r] != []
    ensures r in m <==> Ids(m, r) != {}
  {
    if r in m { assert m[r][0] in Ids(m, r); }
  }

  /** A role that exists in the classifier's mapping has at least one id. */
  lemma {:induction false} ClassifyRolesNonEmpty(actions: seq<Action>, r: Role)
    requires forall i :: 0 <= i < |actions| ==> ParamsOk(actions[i])
    requires r in Classify(actions)
    ensures |Classify(actions)[r]| >= 1
  {
    ClassifyContents(actions, r);
    SortedSize(Classify(actions)[r]);
  }

  /** getNum<Role>: the size of the role's set; a role that was never created
      is dereferenced as null. */
  function NumOf(m: Mapping, r: Role): (res: Result<nat, Fault>)
    requires MappingOk(m)
    ensures r in m ==> res.Ok? && res.value == |Ids(m, r)|
    ensures r !in m ==> res == Err(NullRole(r))
  {
    if r in m then
      SortedSize(m[r]);
      Ok(|m[r]|)
    else Err(NullRole(r))
  }

  /** get<Role>AtIndex(i): the i-th smallest id of the role; a missing role is a
      null dereference, an ordinal outside 0 .. size-1 an array index fault. */
  function AtIndex(m: Mapping, r: Role, i: int): (res: Result<int, Fault>)
    requires MappingOk(m)
    ensures r !in m ==> res == Err(NullRole(r))
    ensures r in m && !(0 <= i < |Ids(m, r)|) ==> res == Err(IndexOutOfRange(i))
    ensures r in m && 0 <= i < |Ids(m, r)| ==> res.Ok?
    ensures res.Ok? ==> res.value in Ids(m, r) && |set y | y in Ids(m, r) && y < res.value| == i
  {
    if r !in m then Err(NullRole(r))
    else
      SortedSize(m[r]);
      if 0 <= i < |m[r]| then
        Rank(m[r], i);
        assert (set y | y in Ids(m, r) && y < m[r][i]) == (set y | y in m[r] && y < m[r][i]);
        Ok(m[r][i])
      else Err(IndexOutOfRange(i))
  }
}
